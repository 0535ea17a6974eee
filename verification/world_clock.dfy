/**
 * The world clock's city list (src/components/WorldClockView.tsx): the city
 * database by region, the add-location modal's search and browse filters,
 * and adding and removing clocks.
 */
module WorldClock {
  import opened Wrappers
  import opened Lists
  import opened Text

  /** A city as the list holds it; its coordinates are not part of this model. */
  datatype City = City(city: string, region: string, timezone: string)

  /** One entry of `CITY_DATABASE`: a region name and its cities. */
  datatype Region = Region(name: string, cities: seq<City>)

  /** `CITY_DATABASE`, in the order of its keys. */
  const CityDatabase: seq<Region> := [
    Region("North America", [
      City("New York", "USA", "America/New_York"),
      City("Los Angeles", "USA", "America/Los_Angeles"),
      City("Chicago", "USA", "America/Chicago"),
      City("Houston", "USA", "America/Chicago"),
      City("Phoenix", "USA", "America/Phoenix"),
      City("Miami", "USA", "America/New_York"),
      City("Denver", "USA", "America/Denver"),
      City("Seattle", "USA", "America/Los_Angeles"),
      City("Toronto", "Canada", "America/Toronto"),
      City("Vancouver", "Canada", "America/Vancouver"),
      City("Montreal", "Canada", "America/Montreal"),
      City("Mexico City", "Mexico", "America/Mexico_City"),
      City("Cancun", "Mexico", "America/Cancun")
    ]),
    Region("South America", [
      City("S\U{00E3}o Paulo", "Brazil", "America/Sao_Paulo"),
      City("Rio de Janeiro", "Brazil", "America/Sao_Paulo"),
      City("Buenos Aires", "Argentina", "America/Argentina/Buenos_Aires"),
      City("Lima", "Peru", "America/Lima"),
      City("Bogot\U{00E1}", "Colombia", "America/Bogota"),
      City("Santiago", "Chile", "America/Santiago"),
      City("Caracas", "Venezuela", "America/Caracas")
    ]),
    Region("Europe", [
      City("London", "UK", "Europe/London"),
      City("Paris", "France", "Europe/Paris"),
      City("Berlin", "Germany", "Europe/Berlin"),
      City("Madrid", "Spain", "Europe/Madrid"),
      City("Rome", "Italy", "Europe/Rome"),
      City("Amsterdam", "Netherlands", "Europe/Amsterdam"),
      City("Brussels", "Belgium", "Europe/Brussels"),
      City("Vienna", "Austria", "Europe/Vienna"),
      City("Zurich", "Switzerland", "Europe/Zurich"),
      City("Stockholm", "Sweden", "Europe/Stockholm"),
      City("Oslo", "Norway", "Europe/Oslo"),
      City("Copenhagen", "Denmark", "Europe/Copenhagen"),
      City("Helsinki", "Finland", "Europe/Helsinki"),
      City("Dublin", "Ireland", "Europe/Dublin"),
      City("Lisbon", "Portugal", "Europe/Lisbon"),
      City("Athens", "Greece", "Europe/Athens"),
      City("Prague", "Czech Republic", "Europe/Prague"),
      City("Warsaw", "Poland", "Europe/Warsaw"),
      City("Budapest", "Hungary", "Europe/Budapest"),
      City("Moscow", "Russia", "Europe/Moscow"),
      City("Istanbul", "Turkey", "Europe/Istanbul"),
      City("Kyiv", "Ukraine", "Europe/Kyiv")
    ]),
    Region("Asia", [
      City("Tokyo", "Japan", "Asia/Tokyo"),
      City("Osaka", "Japan", "Asia/Tokyo"),
      City("Beijing", "China", "Asia/Shanghai"),
      City("Shanghai", "China", "Asia/Shanghai"),
      City("Hong Kong", "China", "Asia/Hong_Kong"),
      City("Singapore", "Singapore", "Asia/Singapore"),
      City("Seoul", "South Korea", "Asia/Seoul"),
      City("Mumbai", "India", "Asia/Kolkata"),
      City("New Delhi", "India", "Asia/Kolkata"),
      City("Bangalore", "India", "Asia/Kolkata"),
      City("Bangkok", "Thailand", "Asia/Bangkok"),
      City("Jakarta", "Indonesia", "Asia/Jakarta"),
      City("Manila", "Philippines", "Asia/Manila"),
      City("Kuala Lumpur", "Malaysia", "Asia/Kuala_Lumpur"),
      City("Dubai", "UAE", "Asia/Dubai"),
      City("Abu Dhabi", "UAE", "Asia/Dubai"),
      City("Riyadh", "Saudi Arabia", "Asia/Riyadh"),
      City("Tel Aviv", "Israel", "Asia/Jerusalem"),
      City("Doha", "Qatar", "Asia/Qatar"),
      City("Karachi", "Pakistan", "Asia/Karachi"),
      City("Dhaka", "Bangladesh", "Asia/Dhaka"),
      City("Hanoi", "Vietnam", "Asia/Ho_Chi_Minh"),
      City("Ho Chi Minh City", "Vietnam", "Asia/Ho_Chi_Minh")
    ]),
    Region("Africa", [
      City("Cairo", "Egypt", "Africa/Cairo"),
      City("Lagos", "Nigeria", "Africa/Lagos"),
      City("Abuja", "Nigeria", "Africa/Lagos"),
      City("Johannesburg", "South Africa", "Africa/Johannesburg"),
      City("Cape Town", "South Africa", "Africa/Johannesburg"),
      City("Nairobi", "Kenya", "Africa/Nairobi"),
      City("Casablanca", "Morocco", "Africa/Casablanca"),
      City("Accra", "Ghana", "Africa/Accra"),
      City("Addis Ababa", "Ethiopia", "Africa/Addis_Ababa"),
      City("Dar es Salaam", "Tanzania", "Africa/Dar_es_Salaam"),
      City("Kampala", "Uganda", "Africa/Kampala"),
      City("Kigali", "Rwanda", "Africa/Kigali"),
      City("Tunis", "Tunisia", "Africa/Tunis"),
      City("Algiers", "Algeria", "Africa/Algiers")
    ]),
    Region("Oceania", [
      City("Sydney", "Australia", "Australia/Sydney"),
      City("Melbourne", "Australia", "Australia/Melbourne"),
      City("Brisbane", "Australia", "Australia/Brisbane"),
      City("Perth", "Australia", "Australia/Perth"),
      City("Auckland", "New Zealand", "Pacific/Auckland"),
      City("Wellington", "New Zealand", "Pacific/Auckland"),
      City("Fiji", "Fiji", "Pacific/Fiji"),
      City("Honolulu", "Hawaii, USA", "Pacific/Honolulu")
    ])
  ]

  /** The number of cities over all regions. */
  function TotalSize(db: seq<Region>): nat {
    if db == [] then 0 else |db[0].cities| + TotalSize(db[1..])
  }

  /** `Object.values(db).flat()`: the region lists one after another. */
  function AllCities(db: seq<Region>): (r: seq<City>)
    ensures |r| == TotalSize(db)
    ensures forall c :: c in r <==> exists k :: 0 <= k < |db| && c in db[k].cities
  {
    if db == [] then []
    else
      var rest := AllCities(db[1..]);
      assert forall k :: 0 <= k < |db| - 1 ==> db[1..][k] == db[k + 1];
      db[0].cities + rest
  }

  /**
   * Region `k`'s cities sit in the flattened list right after those of the
   * regions before it, as one unbroken run in their own order.
   */
  lemma {:induction false} AllCitiesSegment(db: seq<Region>, k: nat)
    requires k < |db|
    ensures TotalSize(db[..k]) + |db[k].cities| == TotalSize(db[..k + 1]) <= |AllCities(db)|
    ensures AllCities(db)[TotalSize(db[..k])..TotalSize(db[..k + 1])] == db[k].cities
  {
    var c, rest := db[0].cities, AllCities(db[1..]);
    assert AllCities(db) == c + rest;
    TotalSizeOfPrefix(db, k + 1);
    if k == 0 {
      assert db[..0] == [];
    } else {
      AllCitiesSegment(db[1..], k - 1);
      TotalSizeOfPrefix(db, k);
      SliceOfSecond(c, rest, TotalSize(db[1..][..k - 1]), TotalSize(db[1..][..k]));
    }
  }

  /** The first region's cities plus those of the next `k - 1` regions. */
  lemma TotalSizeOfPrefix(db: seq<Region>, k: nat)
    requires 0 < k <= |db|
    ensures TotalSize(db[..k]) == |db[0].cities| + TotalSize(db[1..][..k - 1])
  {
    assert db[..k][1..] == db[1..][..k - 1];
  }

  lemma CityDatabaseSize()
    ensures |CityDatabase| == 6
    ensures TotalSize(CityDatabase) == 87
  {
  }

  /** `db[name]`: the cities under that key, if it is one. */
  function RegionCities(db: seq<Region>, name: string): (r: Option<seq<City>>)
    ensures r.None? <==> forall k :: 0 <= k < |db| ==> db[k].name != name
    ensures r.Some? ==> exists k :: 0 <= k < |db| && db[k].name == name && r.value == db[k].cities
  {
    if db == [] then None
    else if db[0].name == name then Some(db[0].cities)
    else
      var rest := RegionCities(db[1..], name);
      assert forall k :: 0 <= k < |db| - 1 ==> db[1..][k] == db[k + 1];
      rest
  }

  /** `existingCities.find(ex => ex.city === c.city)` finds something. */
  predicate AlreadyAdded(existing: seq<City>, c: City) {
    exists k :: 0 <= k < |existing| && existing[k].city == c.city
  }

  /** No two clocks show cities of the same name. */
  predicate DistinctNames(cities: seq<City>) {
    forall i, j :: 0 <= i < j < |cities| ==> cities[i].city != cities[j].city
  }

  // ---------------------------------------------------------------------------
  // The clock list
  // ---------------------------------------------------------------------------

  /** `addCity`: append the city unless one of that name is already listed. */
  function AddCity(cities: seq<City>, city: City): (r: seq<City>)
    ensures AlreadyAdded(cities, city) ==> r == cities
    ensures !AlreadyAdded(cities, city) ==> r == cities + [city]
    ensures DistinctNames(cities) ==> DistinctNames(r)
  {
    if AlreadyAdded(cities, city) then cities
    else
      var r := cities + [city];
      assert DistinctNames(cities) ==> DistinctNames(r) by {
        if DistinctNames(cities) {
          forall i, j | 0 <= i < j < |r| ensures r[i].city != r[j].city {
            if j == |cities| {
              assert r[j] == city && r[i] == cities[i];
            }
          }
        }
      }
      r
  }

  /** `removeCity(index)`: drop the clock at that position; the others keep their order. */
  function RemoveCity(cities: seq<City>, index: int): (r: seq<City>)
    ensures 0 <= index < |cities| ==> |r| == |cities| - 1
    ensures 0 <= index < |cities| ==> forall k :: 0 <= k < |r| ==> r[k] == if k < index then cities[k] else cities[k + 1]
    ensures !(0 <= index < |cities|) ==> r == cities
    ensures DistinctNames(cities) ==> DistinctNames(r)
  {
    RemoveAt(cities, index)
  }

  // ---------------------------------------------------------------------------
  // The add-location modal
  // ---------------------------------------------------------------------------

  datatype Mode = Browse | Search

  /** The modal's state: the search text, the region picked (if any) and the mode. */
  datatype Picker = Picker(search: string, selectedRegion: Option<string>, view: Mode)

  /** A region counts as picked when its name is a non-empty string. */
  predicate RegionPicked(p: Picker) {
    p.selectedRegion.Some? && p.selectedRegion.value != ""
  }

  /** The search is in force: search mode and a query that is not blank. */
  predicate Searching(p: Picker) {
    p.view == Search && !IsBlank(p.search)
  }

  /** Case-insensitive match of the untrimmed query against the city or its region. */
  predicate MatchesQuery(c: City, query: string) {
    Contains(ToLower(c.city), ToLower(query)) || Contains(ToLower(c.region), ToLower(query))
  }

  /**
   * `getFilteredCities`: the search results over all cities, or the picked
   * region's cities, or nothing; cities already on the list never show.
   * A region is picked only from the database's keys.
   */
  function GetFilteredCities(db: seq<Region>, p: Picker, existing: seq<City>): (r: seq<City>)
    requires !Searching(p) && RegionPicked(p) ==> RegionCities(db, p.selectedRegion.value).Some?
    ensures Searching(p) ==>
      forall c :: c in r <==> c in AllCities(db) && MatchesQuery(c, p.search) && !AlreadyAdded(existing, c)
    ensures !Searching(p) && RegionPicked(p) ==>
      forall c :: c in r <==> c in RegionCities(db, p.selectedRegion.value).value && !AlreadyAdded(existing, c)
    ensures !Searching(p) && !RegionPicked(p) ==> r == []
    ensures forall c :: c in r ==> !AlreadyAdded(existing, c)
    ensures Searching(p) ==> Subsequence(r, AllCities(db))
    ensures !Searching(p) && RegionPicked(p) ==> Subsequence(r, RegionCities(db, p.selectedRegion.value).value)
  {
    if Searching(p) then
      Filter(AllCities(db), (c: City) => MatchesQuery(c, p.search) && !AlreadyAdded(existing, c))
    else if RegionPicked(p) then
      Filter(RegionCities(db, p.selectedRegion.value).value, (c: City) => !AlreadyAdded(existing, c))
    else []
  }

  /** The "available" count shown beside each region while browsing. */
  function AvailableCount(db: seq<Region>, region: string, existing: seq<City>): (n: nat)
    requires RegionCities(db, region).Some?
    ensures n <= |RegionCities(db, region).value|
    ensures region != "" ==> n == |GetFilteredCities(db, Picker("", Some(region), Browse), existing)|
  {
    |Filter(RegionCities(db, region).value, (c: City) => !AlreadyAdded(existing, c))|
  }

  /** Picking a city from the modal always adds a clock. */
  lemma PickedCityIsAdded(db: seq<Region>, p: Picker, existing: seq<City>, c: City)
    requires !Searching(p) && RegionPicked(p) ==> RegionCities(db, p.selectedRegion.value).Some?
    requires c in GetFilteredCities(db, p, existing)
    ensures AddCity(existing, c) == existing + [c]
  {
  }

  /**
   * `handleSearchChange`: a non-blank input switches to search and drops the
   * picked region; a blank one switches back to browsing.
   */
  function HandleSearchChange(p: Picker, value: string): (r: Picker)
    ensures r.search == value
    ensures !IsBlank(value) ==> r.view == Search && r.selectedRegion == None && Searching(r)
    ensures IsBlank(value) ==> r.view == Browse && r.selectedRegion == p.selectedRegion && !Searching(r)
  {
    if !IsBlank(value) then Picker(value, None, Search)
    else Picker(value, p.selectedRegion, Browse)
  }
}
