/**
 * The weather service's pure parts (src/services/weatherService.ts): the
 * mapping from WeatherAPI condition codes to the five icon classes, the
 * choice of a description line, and the shaping of a forecast response into
 * the view's weather record.
 */
module Weather {
  import opened Wrappers

  datatype Icon = Sun | Cloud | Rain | Storm | Snow

  /** The code lists the `includes` tests search, as sets. */
  const CloudCodes: set<int> := {1003, 1006, 1009, 1030, 1135, 1147}

  const RainCodes: set<int> := {
    1063, 1150, 1153, 1168, 1171, 1180, 1183, 1186, 1189, 1192, 1195, 1198, 1201, 1240, 1243, 1246
  }

  const StormCodes: set<int> := {1087, 1273, 1276, 1279, 1282}

  const SnowCodes: set<int> := {
    1066, 1069, 1072, 1114, 1117, 1204, 1207, 1210, 1213, 1216,
    1219, 1222, 1225, 1237, 1249, 1252, 1255, 1258, 1261, 1264
  }

  /** No code is in two lists, and 1000 (clear) is in none. */
  lemma CodeListsDisjoint()
    ensures 1000 !in CloudCodes && 1000 !in RainCodes && 1000 !in StormCodes && 1000 !in SnowCodes
    ensures CloudCodes !! RainCodes && CloudCodes !! StormCodes && CloudCodes !! SnowCodes
    ensures RainCodes !! StormCodes && RainCodes !! SnowCodes
    ensures StormCodes !! SnowCodes
  {
    CloudRainApart();
    CloudStormApart();
    CloudSnowApart();
    RainStormApart();
    RainSnowApart();
    StormSnowApart();
  }

  lemma CloudRainApart()
    ensures CloudCodes !! RainCodes
  {
  }

  lemma CloudStormApart()
    ensures CloudCodes !! StormCodes
  {
  }

  lemma CloudSnowApart()
    ensures CloudCodes !! SnowCodes
  {
  }

  lemma RainStormApart()
    ensures RainCodes !! StormCodes
  {
  }

  lemma RainSnowApart()
    ensures RainCodes !! SnowCodes
  {
  }

  lemma StormSnowApart()
    ensures StormCodes !! SnowCodes
  {
  }

  /**
   * `mapConditionToIcon`: clear is `sun` by day and by night, each list gives
   * its class, and every other code falls back to `cloud`. Since the lists
   * are disjoint, the order of the tests does not matter.
   */
  function MapConditionToIcon(code: int, isDay: int): (r: Icon)
    ensures r == Sun <==> code == 1000
    ensures r == Rain <==> code in RainCodes
    ensures r == Storm <==> code in StormCodes
    ensures r == Snow <==> code in SnowCodes
    ensures code in CloudCodes ==> r == Cloud
    ensures r == Cloud <==> code != 1000 && code !in RainCodes && code !in StormCodes && code !in SnowCodes
  {
    CodeListsDisjoint();
    if code == 1000 then (if isDay != 0 then Sun else Sun)
    else if code in CloudCodes then Cloud
    else if code in RainCodes then Rain
    else if code in StormCodes then Storm
    else if code in SnowCodes then Snow
    else Cloud
  }

  /** The icon's name as the view and the description table spell it. */
  function IconName(i: Icon): string {
    match i
    case Sun => "sun"
    case Cloud => "cloud"
    case Rain => "rain"
    case Storm => "storm"
    case Snow => "snow"
  }

  /** The key lookup `descriptions[condition]`: the icon with that name, if any. */
  function IconNamed(name: string): (r: Option<Icon>)
    ensures r.Some? ==> IconName(r.value) == name
    ensures forall i :: IconName(i) == name ==> r == Some(i)
  {
    if name == "sun" then Some(Sun)
    else if name == "cloud" then Some(Cloud)
    else if name == "rain" then Some(Rain)
    else if name == "storm" then Some(Storm)
    else if name == "snow" then Some(Snow)
    else None
  }

  /** The description table: four lines for each icon. */
  const SunLines: seq<string> := [
    "Perfect weather for interstellar exploration.",
    "Solar radiation levels optimal for outdoor activities.",
    "Clear skies across the planetary surface.",
    "Excellent visibility for celestial observations."]

  const CloudLines: seq<string> := [
    "Atmospheric density increasing. Clouds gathering.",
    "Nebula-like formations detected in atmosphere.",
    "Cloud cover obscuring stellar visibility.",
    "Overcast conditions prevail across sectors."]

  const RainLines: seq<string> := [
    "Liquid precipitation incoming. Seek shelter.",
    "Atmospheric moisture reaching critical levels.",
    "Rain protocol activated. Umbrella recommended.",
    "Water particles descending from cloud formations."]

  const StormLines: seq<string> := [
    "Electromagnetic disturbance detected. Stay alert.",
    "Storm system approaching. Batten the hatches.",
    "Severe weather advisory in effect.",
    "Thunder protocols engaged."]

  const SnowLines: seq<string> := [
    "Frozen precipitation imminent. Bundle up.",
    "Ice crystals forming in upper atmosphere.",
    "Winter conditions detected. Deploy thermal gear.",
    "Snowfall probability at maximum."]

  function Lines(i: Icon): (r: seq<string>)
    ensures |r| == 4
  {
    match i
    case Sun => SunLines
    case Cloud => CloudLines
    case Rain => RainLines
    case Storm => StormLines
    case Snow => SnowLines
  }

  /**
   * `generateDescription`: a line of the condition's list, or of the cloud list
   * for a name the table does not have. `pick` is the index
   * `Math.floor(Math.random() * 4)` draws; the temperature plays no part.
   */
  function GenerateDescription(condition: string, temp: int, pick: nat): (r: string)
    requires pick < 4
    ensures IconNamed(condition).Some? ==> r in Lines(IconNamed(condition).value)
    ensures IconNamed(condition).None? ==> r in Lines(Cloud)
  {
    var lines := match IconNamed(condition)
      case Some(i) => Lines(i)
      case None => Lines(Cloud);
    lines[pick]
  }

  lemma DescriptionIgnoresTemperature(condition: string, t1: int, t2: int, pick: nat)
    requires pick < 4
    ensures GenerateDescription(condition, t1, pick) == GenerateDescription(condition, t2, pick)
  {
  }

  // ---------------------------------------------------------------------------
  // The forecast response
  // ---------------------------------------------------------------------------

  /**
   * One `forecastday` of the response: the short weekday name the locale
   * gives its date, the rounded average, maximum and minimum temperatures,
   * and the condition code.
   */
  datatype ForecastDayIn = ForecastDayIn(dayName: string, avgTemp: int, maxTemp: int, minTemp: int, code: int)

  /** The response's `current` block, temperatures already rounded. */
  datatype CurrentIn = CurrentIn(temp: int, code: int, isDay: int, humidity: int, windSpeed: int)

  datatype DailyForecast = DailyForecast(day: string, temp: int, icon: Icon)

  datatype WeatherData = WeatherData(
    city: string, temp: int, condition: Icon, high: int, low: int,
    humidity: int, windSpeed: int, description: string, forecast: seq<DailyForecast>)

  /** `forecastDays.map(...)`: one entry per day, in order, with the daytime icon. */
  function ForecastOf(days: seq<ForecastDayIn>): (r: seq<DailyForecast>)
    ensures |r| == |days|
    ensures forall k :: 0 <= k < |r| ==>
      r[k].day == days[k].dayName && r[k].temp == days[k].avgTemp && r[k].icon == MapConditionToIcon(days[k].code, 1)
  {
    if days == [] then []
    else
      var d := days[0];
      [DailyForecast(d.dayName, d.avgTemp, MapConditionToIcon(d.code, 1))] + ForecastOf(days[1..])
  }

  /**
   * The record `getRealtimeWeather` builds from a successful response. With no
   * forecast day, reading the first day's extremes throws, and the catch
   * turns that into `null`.
   */
  function BuildWeather(name: string, country: string, current: CurrentIn, days: seq<ForecastDayIn>, pick: nat): (r: Option<WeatherData>)
    requires pick < 4
    ensures r.None? <==> days == []
    ensures r.Some? ==> r.value.city == name + ", " + country
    ensures r.Some? ==> r.value.condition == MapConditionToIcon(current.code, current.isDay)
    ensures r.Some? ==> r.value.high == days[0].maxTemp && r.value.low == days[0].minTemp
    ensures r.Some? ==> r.value.description in Lines(r.value.condition)
    ensures r.Some? ==> r.value.temp == current.temp && r.value.humidity == current.humidity
    ensures r.Some? ==> r.value.windSpeed == current.windSpeed
    ensures r.Some? ==> r.value.forecast == ForecastOf(days) && |r.value.forecast| == |days|
  {
    if days == [] then None
    else
      var condition := MapConditionToIcon(current.code, current.isDay);
      Some(WeatherData(
        name + ", " + country, current.temp, condition, days[0].maxTemp, days[0].minTemp,
        current.humidity, current.windSpeed, GenerateDescription(IconName(condition), current.temp, pick),
        ForecastOf(days)))
  }
}
