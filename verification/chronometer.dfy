/**
 * The alarm panel, the alarm form and the time formatters of the chronometer
 * view (src/components/ToolsView.tsx). The countdown timer, whose state the view
 * changes step by step, is the class in countdown.dfy.
 */
module Chronometer {
  import opened Wrappers
  import opened Lists
  import opened Text
  import opened Arith

  /** A weekday as `Date.prototype.getDay` numbers it: 0 = Sunday … 6 = Saturday. */
  type Weekday = d: int | 0 <= d <= 6

  type Hour = h: int | 0 <= h <= 23

  type Minute = m: int | 0 <= m <= 59

  datatype Alarm = Alarm(id: string, time: string, labelText: string, active: bool, days: seq<Weekday>, repeat: bool)

  /** An alarm without its id (`Omit<Alarm, 'id'>`): what the form hands to `saveAlarm`. */
  datatype AlarmData = AlarmData(time: string, labelText: string, active: bool, days: seq<Weekday>, repeat: bool)

  /** The local wall-clock reading an alarm check compares against. */
  datatype Now = Now(hour: Hour, minute: Minute, weekday: Weekday)

  /** The alarm panel's state: the list and the alarm whose overlay is showing. */
  datatype AlarmPanel = AlarmPanel(alarms: seq<Alarm>, triggered: Option<Alarm>)

  const DaysOfWeek: seq<string> := ["Sun", "Mon", "Tue", "Wed", "Thu", "Fri", "Sat"]

  function WithId(data: AlarmData, id: string): Alarm {
    Alarm(id, data.time, data.labelText, data.active, data.days, data.repeat)
  }

  function DataOf(a: Alarm): AlarmData {
    AlarmData(a.time, a.labelText, a.active, a.days, a.repeat)
  }

  predicate UniqueIds(alarms: seq<Alarm>) {
    forall i, j :: 0 <= i < j < |alarms| ==> alarms[i].id != alarms[j].id
  }

  // ---------------------------------------------------------------------------
  // The weekday selector of the alarm form
  // ---------------------------------------------------------------------------

  predicate Sorted(s: seq<Weekday>) {
    forall i, j :: 0 <= i < j < |s| ==> s[i] <= s[j]
  }

  /** Sorted without repetitions. */
  predicate StrictlySorted(s: seq<Weekday>) {
    forall i, j :: 0 <= i < j < |s| ==> s[i] < s[j]
  }

  /**
   * `Array.prototype.sort()` without a comparator orders elements by their
   * decimal strings; for one-digit weekdays that is numeric order.
   */
  lemma {:induction false} DefaultSortOrderIsNumeric(a: Weekday, b: Weekday)
    ensures LexLess(Decimal(a), Decimal(b)) <==> a < b
  {
    assert Decimal(a) == [DigitChar(a)] && Decimal(b) == [DigitChar(b)];
    assert Decimal(a)[1..] == [] && Decimal(b)[1..] == [];
  }

  function InsertDay(d: Weekday, s: seq<Weekday>): (r: seq<Weekday>)
    ensures multiset(r) == multiset(s) + multiset{d}
  {
    if s == [] || d <= s[0] then [d] + s
    else
      assert s == [s[0]] + s[1..];
      [s[0]] + InsertDay(d, s[1..])
  }

  lemma {:induction false} InsertDaySorted(d: Weekday, s: seq<Weekday>)
    requires Sorted(s)
    ensures Sorted(InsertDay(d, s))
  {
    if s != [] && d > s[0] {
      var t := InsertDay(d, s[1..]);
      InsertDaySorted(d, s[1..]);
      forall k | 0 <= k < |t| ensures s[0] <= t[k] {
        assert t[k] in multiset(s[1..]) + multiset{d};
        if t[k] != d {
          assert t[k] in s[1..];
        }
      }
      assert InsertDay(d, s) == [s[0]] + t;
    }
  }

  /** `days.sort()`: a sorted permutation. */
  function SortDays(s: seq<Weekday>): (r: seq<Weekday>)
    ensures Sorted(r) && multiset(r) == multiset(s)
  {
    if s == [] then []
    else
      assert s == s[..|s| - 1] + [s[|s| - 1]];
      var rest := SortDays(s[..|s| - 1]);
      InsertDaySorted(s[|s| - 1], rest);
      InsertDay(s[|s| - 1], rest)
  }

  /** Two sorted lists with the same elements, counted with multiplicity, are equal. */
  lemma {:induction false} SortedUnique(a: seq<Weekday>, b: seq<Weekday>)
    requires Sorted(a) && Sorted(b) && multiset(a) == multiset(b)
    ensures a == b
  {
    assert |a| == |b| by {
      assert |a| == |multiset(a)| && |b| == |multiset(b)|;
    }
    if a != [] {
      assert a[0] in multiset(b) && b[0] in multiset(a);
      SortedHeadIsLeast(a, b[0]);
      SortedHeadIsLeast(b, a[0]);
      assert a[0] == b[0];
      MultisetTails(a, b);
      SortedUnique(a[1..], b[1..]);
      assert a == [a[0]] + a[1..] && b == [b[0]] + b[1..];
    }
  }

  lemma MultisetTails(a: seq<Weekday>, b: seq<Weekday>)
    requires a != [] && b != [] && a[0] == b[0] && multiset(a) == multiset(b)
    ensures multiset(a[1..]) == multiset(b[1..])
  {
    assert a == [a[0]] + a[1..] && b == [b[0]] + b[1..];
    assert multiset(a[1..]) == multiset(a) - multiset{a[0]};
    assert multiset(b[1..]) == multiset(b) - multiset{b[0]};
  }

  lemma SortedHeadIsLeast(s: seq<Weekday>, x: Weekday)
    requires Sorted(s) && x in s
    ensures s[0] <= x
  {
  }

  lemma {:induction false} StrictlySortedCountsOnce(s: seq<Weekday>, x: Weekday)
    requires StrictlySorted(s)
    ensures multiset(s)[x] == if x in s then 1 else 0
  {
    if s != [] {
      assert s == [s[0]] + s[1..];
      StrictlySortedCountsOnce(s[1..], x);
      assert s[0] !in s[1..];
    }
  }

  lemma {:induction false} InsertDayStrict(d: Weekday, s: seq<Weekday>)
    requires StrictlySorted(s) && d !in s
    ensures StrictlySorted(InsertDay(d, s))
  {
    if s == [] {
    } else if d <= s[0] {
      ConsStrict(d, s);
    } else {
      InsertDayStrict(d, s[1..]);
      var t := InsertDay(d, s[1..]);
      forall k | 0 <= k < |t| ensures s[0] < t[k] {
        assert t[k] in multiset(t);
        if t[k] != d {
          assert t[k] in multiset(s[1..]);
        }
      }
      ConsStrict(s[0], t);
    }
  }

  /** A day below every element of a sorted list without repetitions extends it. */
  lemma ConsStrict(x: Weekday, t: seq<Weekday>)
    requires StrictlySorted(t) && forall k :: 0 <= k < |t| ==> x < t[k]
    ensures StrictlySorted([x] + t)
  {
  }

  lemma SortDaysOfSorted(s: seq<Weekday>)
    requires Sorted(s)
    ensures SortDays(s) == s
  {
    SortedUnique(SortDays(s), s);
  }

  /** `selected.filter(d => d !== day)`. */
  function RemoveDay(s: seq<Weekday>, day: Weekday): (r: seq<Weekday>)
    ensures multiset(r) == multiset(s)[day := 0]
    ensures Subsequence(r, s)
  {
    var r := Filter(s, (d: Weekday) => d != day);
    assert multiset(r) == multiset(s)[day := 0];
    r
  }

  lemma {:induction false} RemoveDayStrict(s: seq<Weekday>, day: Weekday)
    requires StrictlySorted(s)
    ensures StrictlySorted(RemoveDay(s, day))
  {
    if s != [] {
      RemoveDayStrict(s[1..], day);
      var t := RemoveDay(s[1..], day);
      forall k | 0 <= k < |t| ensures s[0] < t[k] {
        assert t[k] in multiset(t);
        assert t[k] in multiset(s[1..]);
      }
      if s[0] != day {
        ConsStrict(s[0], t);
      }
    }
  }

  /** `toggleDay`: drop the day if it is selected, otherwise add it and sort. */
  function ToggleDay(selected: seq<Weekday>, day: Weekday): (r: seq<Weekday>)
    ensures forall x :: x in r <==> (x in selected <==> x != day)
    ensures day !in selected ==> Sorted(r)
  {
    if day in selected then
      var r := RemoveDay(selected, day);
      SameMembers(r, selected, day);
      r
    else
      var r := SortDays(selected + [day]);
      SameMembers(r, selected, day);
      r
  }

  /** Which days a list holds follows from how often it holds each. */
  lemma SameMembers(a: seq<Weekday>, b: seq<Weekday>, day: Weekday)
    ensures multiset(a) == multiset(b) + multiset{day} ==> forall x :: x in a <==> x in b || x == day
    ensures multiset(a) == multiset(b)[day := 0] ==> forall x :: x in a <==> x in b && x != day
  {
    forall x ensures (x in a <==> x in multiset(a)) && (x in b <==> x in multiset(b)) {
    }
  }

  /** On a sorted list without repetitions the toggle keeps it so, and toggling twice restores it. */
  lemma ToggleDayInvolutive(selected: seq<Weekday>, day: Weekday)
    requires StrictlySorted(selected)
    ensures StrictlySorted(ToggleDay(selected, day))
    ensures ToggleDay(ToggleDay(selected, day), day) == selected
  {
    if day in selected {
      ToggleOffOn(selected, day);
    } else {
      ToggleOnOff(selected, day);
    }
  }

  lemma ToggleOffOn(selected: seq<Weekday>, day: Weekday)
    requires StrictlySorted(selected) && day in selected
    ensures StrictlySorted(ToggleDay(selected, day))
    ensures ToggleDay(ToggleDay(selected, day), day) == selected
  {
    var t := RemoveDay(selected, day);
    RemoveDayStrict(selected, day);
    assert day !in t by {
      assert day !in multiset(t);
    }
    var back := SortDays(t + [day]);
    StrictlySortedCountsOnce(selected, day);
    var m: multiset<Weekday> := multiset(selected);
    assert multiset(back) == m[day := 0] + multiset{day};
    assert multiset(back) == multiset(selected);
    SortedUnique(back, selected);
  }

  lemma ToggleOnOff(selected: seq<Weekday>, day: Weekday)
    requires StrictlySorted(selected) && day !in selected
    ensures StrictlySorted(ToggleDay(selected, day))
    ensures ToggleDay(ToggleDay(selected, day), day) == selected
  {
    var t := SortDays(selected + [day]);
    SortAppended(selected, day);
    assert day in t by {
      assert day in multiset(t);
    }
    var back := RemoveDay(t, day);
    RemoveDayStrict(t, day);
    var m: multiset<Weekday> := multiset(selected);
    assert m[day] == 0;
    assert multiset(back) == (m + multiset{day})[day := 0];
    assert multiset(back) == multiset(selected);
    SortedUnique(back, selected);
  }

  lemma SortAppended(selected: seq<Weekday>, day: Weekday)
    requires StrictlySorted(selected) && day !in selected
    ensures StrictlySorted(SortDays(selected + [day]))
  {
    assert (selected + [day])[..|selected|] == selected;
    SortDaysOfSorted(selected);
    assert SortDays(selected + [day]) == InsertDay(day, selected);
    InsertDayStrict(day, selected);
  }

  // ---------------------------------------------------------------------------
  // Checking the alarms against the clock
  // ---------------------------------------------------------------------------

  /**
   * The current time as `checkAlarms` prints it: zero-padded `HH:MM`
   * (`TwoDigits(n)` is `n.toString().padStart(2, '0')` for `n < 100`).
   */
  function ClockText(h: Hour, m: Minute): (r: string)
    ensures |r| == 5 && r[2] == ':'
    ensures AllDigits(r[..2]) && DigitsValue(r[..2]) == h
    ensures AllDigits(r[3..]) && DigitsValue(r[3..]) == m
  {
    PairLayout(TwoDigits(h), TwoDigits(m));
    TwoDigits(h) + ":" + TwoDigits(m)
  }

  /** Whether `alarm` goes off when the clock reads `clock` on weekday `day`. */
  predicate Rings(alarm: Alarm, clock: string, day: Weekday) {
    && alarm.active
    && alarm.time == clock
    && (|alarm.days| == 0 || day in alarm.days)
  }

  /** Whether `alarm` goes off at `now`. */
  predicate Triggers(alarm: Alarm, now: Now) {
    Rings(alarm, ClockText(now.hour, now.minute), now.weekday)
  }

  /**
   * One run of `checkAlarms` with the clock showing `clock` on weekday `day`:
   * every matching alarm is passed to `setTriggeredAlarm` in list order, so the
   * last match wins; with no match the overlay keeps what it showed.
   */
  function CheckAlarms(alarms: seq<Alarm>, clock: string, day: Weekday, triggered: Option<Alarm>): (r: Option<Alarm>)
    ensures (forall i :: 0 <= i < |alarms| ==> !Rings(alarms[i], clock, day)) ==> r == triggered
    ensures (exists i :: 0 <= i < |alarms| && Rings(alarms[i], clock, day)) ==>
      exists k :: 0 <= k < |alarms| && r == Some(alarms[k]) && Rings(alarms[k], clock, day) &&
        forall j :: k < j < |alarms| ==> !Rings(alarms[j], clock, day)
  {
    LastMatch(alarms, (a: Alarm) => Rings(a, clock, day), triggered)
  }

  // ---------------------------------------------------------------------------
  // List operations of the alarm panel
  // ---------------------------------------------------------------------------

  /**
   * `saveAlarm`: with an alarm being edited, every entry carrying its id takes
   * the form's data and keeps the id; otherwise the form's data is appended under
   * a fresh id (the source takes `Date.now()`).
   */
  function SaveAlarm(alarms: seq<Alarm>, data: AlarmData, editId: Option<string>, freshId: string): (r: seq<Alarm>)
    ensures editId.Some? ==> |r| == |alarms|
    ensures editId.Some? ==> forall i :: 0 <= i < |r| ==>
      && r[i].id == alarms[i].id
      && (alarms[i].id != editId.value ==> r[i] == alarms[i])
      && (alarms[i].id == editId.value ==> DataOf(r[i]) == data)
    ensures editId.None? ==> |r| == |alarms| + 1 && r[..|alarms|] == alarms
    ensures editId.None? ==> r[|alarms|].id == freshId && DataOf(r[|alarms|]) == data
  {
    match editId
    case Some(id) =>
      MapIf(alarms, (a: Alarm) => a.id == id, (a: Alarm) => WithId(data, id))
    case None =>
      alarms + [WithId(data, freshId)]
  }

  /** `toggleAlarm`: flip `active` on the entries with that id and change nothing else. */
  function ToggleAlarm(alarms: seq<Alarm>, id: string): (r: seq<Alarm>)
    ensures |r| == |alarms|
    ensures forall i :: 0 <= i < |r| ==>
      && (alarms[i].id != id ==> r[i] == alarms[i])
      && (alarms[i].id == id ==> r[i].active == !alarms[i].active && r[i] == alarms[i].(active := r[i].active))
  {
    MapIf(alarms, (a: Alarm) => a.id == id, (a: Alarm) => a.(active := !a.active))
  }

  lemma ToggleAlarmTwice(alarms: seq<Alarm>, id: string)
    ensures ToggleAlarm(ToggleAlarm(alarms, id), id) == alarms
  {
    var r := ToggleAlarm(ToggleAlarm(alarms, id), id);
    forall i | 0 <= i < |alarms| ensures r[i] == alarms[i] {
    }
  }

  /** `deleteAlarm`: drop exactly the entries with that id, keeping the order of the rest. */
  function DeleteAlarm(alarms: seq<Alarm>, id: string): (r: seq<Alarm>)
    ensures forall a :: a in r <==> a in alarms && a.id != id
    ensures forall a :: multiset(r)[a] == if a.id != id then multiset(alarms)[a] else 0
    ensures Subsequence(r, alarms)
    ensures |r| <= |alarms|
  {
    Filter(alarms, (a: Alarm) => a.id != id)
  }

  /**
   * `dismissAlarm`: close the overlay; when the triggered alarm does not repeat,
   * switch off the entries with its id. The test is the `repeat` flag, not
   * whether `days` is empty.
   */
  function DismissAlarm(panel: AlarmPanel): (r: AlarmPanel)
    ensures r.triggered == None
    ensures |r.alarms| == |panel.alarms|
    ensures forall i :: 0 <= i < |r.alarms| ==>
      if panel.triggered.Some? && !panel.triggered.value.repeat && panel.alarms[i].id == panel.triggered.value.id
      then r.alarms[i] == panel.alarms[i].(active := false)
      else r.alarms[i] == panel.alarms[i]
  {
    match panel.triggered
    case Some(t) =>
      if !t.repeat then
        AlarmPanel(MapIf(panel.alarms, (a: Alarm) => a.id == t.id, (a: Alarm) => a.(active := false)), None)
      else AlarmPanel(panel.alarms, None)
    case None => AlarmPanel(panel.alarms, None)
  }

  /** After dismissing a non-repeating alarm, no entry with its id goes off again, at any time. */
  lemma DismissedOneShotStaysQuiet(panel: AlarmPanel, clock: string, day: Weekday)
    requires panel.triggered.Some? && !panel.triggered.value.repeat
    ensures forall a :: a in DismissAlarm(panel).alarms && a.id == panel.triggered.value.id ==> !Rings(a, clock, day)
  {
    var r := DismissAlarm(panel).alarms;
    forall a | a in r && a.id == panel.triggered.value.id ensures !a.active {
      var i :| 0 <= i < |r| && r[i] == a;
    }
  }

  /**
   * There is no once-per-minute guard: a repeating alarm dismissed within its
   * minute is found again by the next check, one second later.
   */
  lemma {:induction false} DismissedRepeatingAlarmRetriggers(panel: AlarmPanel, now: Now)
    requires panel.triggered.Some? && panel.triggered.value.repeat
    requires panel.triggered.value in panel.alarms && Triggers(panel.triggered.value, now)
    ensures CheckAlarms(DismissAlarm(panel).alarms, ClockText(now.hour, now.minute), now.weekday, None).Some?
  {
    var r := DismissAlarm(panel);
    assert r.alarms == panel.alarms;
    var i :| 0 <= i < |panel.alarms| && panel.alarms[i] == panel.triggered.value;
    assert Triggers(r.alarms[i], now);
  }

  /** Saving keeps ids unique, provided a new alarm gets an id no alarm has. */
  lemma SaveKeepsIdsUnique(alarms: seq<Alarm>, data: AlarmData, editId: Option<string>, freshId: string)
    requires UniqueIds(alarms)
    requires editId.None? ==> forall a :: a in alarms ==> a.id != freshId
    ensures UniqueIds(SaveAlarm(alarms, data, editId, freshId))
  {
    var r := SaveAlarm(alarms, data, editId, freshId);
    if editId.None? {
      forall i, j | 0 <= i < j < |r| ensures r[i].id != r[j].id {
        assert r[i] == alarms[i];
        if j == |alarms| {
          assert alarms[i] in alarms;
        } else {
          assert r[j] == alarms[j];
        }
      }
    }
  }

  /** Toggling, deleting and dismissing keep ids unique. */
  lemma OperationsKeepIdsUnique(alarms: seq<Alarm>, id: string, triggered: Option<Alarm>)
    requires UniqueIds(alarms)
    ensures UniqueIds(ToggleAlarm(alarms, id))
    ensures UniqueIds(DeleteAlarm(alarms, id))
    ensures UniqueIds(DismissAlarm(AlarmPanel(alarms, triggered)).alarms)
  {
    FilterUniqueIds(alarms, (a: Alarm) => a.id != id);
  }

  lemma {:induction false} FilterUniqueIds(alarms: seq<Alarm>, p: Alarm -> bool)
    requires UniqueIds(alarms)
    ensures UniqueIds(Filter(alarms, p))
  {
    if alarms != [] {
      FilterUniqueIds(alarms[1..], p);
      var t := Filter(alarms[1..], p);
      forall k | 0 <= k < |t| ensures alarms[0].id != t[k].id {
        assert t[k] in alarms[1..];
      }
    }
  }

  /** `getDaysText`: the summary under each alarm. */
  function GetDaysText(days: seq<Weekday>): (r: string)
    ensures StrictlySorted(days) ==>
      r == if days == [] then "One time"
           else if days == [0, 1, 2, 3, 4, 5, 6] then "Every day"
           else if days == [1, 2, 3, 4, 5] then "Weekdays"
           else if days == [0, 6] then "Weekends"
           else Join(seq(|days|, i requires 0 <= i < |days| => DaysOfWeek[days[i]]), ", ")
  {
    assert StrictlySorted(days) ==>
      && (|days| == 7 <==> days == [0, 1, 2, 3, 4, 5, 6])
      && ((|days| == 5 && 0 !in days && 6 !in days) <==> days == [1, 2, 3, 4, 5])
      && ((|days| == 2 && 0 in days && 6 in days) <==> days == [0, 6])
    by {
      if StrictlySorted(days) { DaysTextBranches(days); }
    }
    if |days| == 0 then "One time"
    else if |days| == 7 then "Every day"
    else if |days| == 5 && 0 !in days && 6 !in days then "Weekdays"
    else if |days| == 2 && 0 in days && 6 in days then "Weekends"
    else Join(seq(|days|, i requires 0 <= i < |days| => DaysOfWeek[days[i]]), ", ")
  }

  /** On a sorted list without repetitions, each length test of `getDaysText` singles out one day set. */
  lemma DaysTextBranches(days: seq<Weekday>)
    requires StrictlySorted(days)
    ensures |days| == 7 <==> days == [0, 1, 2, 3, 4, 5, 6]
    ensures (|days| == 5 && 0 !in days && 6 !in days) <==> days == [1, 2, 3, 4, 5]
    ensures (|days| == 2 && 0 in days && 6 in days) <==> days == [0, 6]
  {
    if |days| == 7 {
      StrictRun(days, 0, 6);
    }
    if |days| == 5 && 0 !in days && 6 !in days {
      StrictRun(days, 1, 5);
    }
    if |days| == 2 && 0 in days && 6 in days {
      assert days[0] == 0 && days[1] == 6;
    }
  }

  /** A sorted list without repetitions inside [lo, hi] with hi - lo + 1 elements is lo, lo + 1, …, hi. */
  lemma StrictRun(s: seq<Weekday>, lo: int, hi: int)
    requires StrictlySorted(s) && |s| == hi - lo + 1
    requires forall i :: 0 <= i < |s| ==> lo <= s[i] <= hi
    ensures forall i :: 0 <= i < |s| ==> s[i] == lo + i
  {
    forall i | 0 <= i < |s| ensures s[i] == lo + i {
      StrictGrowth(s, i);
      StrictGrowthToEnd(s, i);
    }
  }

  lemma {:induction false} StrictGrowth(s: seq<Weekday>, k: int)
    requires StrictlySorted(s) && 0 <= k < |s|
    ensures s[k] >= s[0] + k
  {
    if k > 0 {
      StrictGrowth(s, k - 1);
    }
  }

  lemma {:induction false} StrictGrowthToEnd(s: seq<Weekday>, k: int)
    requires StrictlySorted(s) && 0 <= k < |s|
    ensures s[|s| - 1] >= s[k] + (|s| - 1 - k)
    decreases |s| - k
  {
    if k < |s| - 1 {
      StrictGrowthToEnd(s, k + 1);
    }
  }

  // ---------------------------------------------------------------------------
  // The alarm form
  // ---------------------------------------------------------------------------

  /** What the form holds when Save is pressed. */
  datatype AlarmForm = AlarmForm(hours: string, minutes: string, labelText: string, selectedDays: seq<Weekday>, repeat: bool)

  /** The hour and minute inputs keep `value.padStart(2, '0').slice(-2)`. */
  function TwoDigitInput(value: string): (r: string)
    ensures |r| == 2
    ensures |value| >= 2 ==> r == value[|value| - 2..]
    ensures forall n: nat :: n < 100 && value == Decimal(n) ==> r == TwoDigits(n)
  {
    var padded := PadStart2(value);
    padded[|padded| - 2..]
  }

  /** `AlarmModal.handleSave`: an empty label becomes "Alarm"; a new alarm starts active. */
  function HandleSaveAlarm(form: AlarmForm, editAlarm: Option<Alarm>): (d: AlarmData)
    ensures d.time == form.hours + ":" + form.minutes
    ensures d.labelText == if form.labelText == [] then "Alarm" else form.labelText
    ensures d.active <==> (editAlarm.None? || editAlarm.value.active)
    ensures d.days == form.selectedDays && d.repeat == form.repeat
  {
    AlarmData(
      form.hours + ":" + form.minutes,
      if form.labelText == "" then "Alarm" else form.labelText,
      if editAlarm.Some? then editAlarm.value.active else true,
      form.selectedDays,
      form.repeat)
  }

  /**
   * An alarm added through the form with hour `h` and minute `m` typed in goes
   * off at `h:m` on every selected weekday (on any day when none is selected).
   */
  lemma AddedAlarmRingsAtItsTime(alarms: seq<Alarm>, h: Hour, m: Minute, labelText: string, days: seq<Weekday>, repeat: bool, freshId: string, now: Now)
    requires now.hour == h && now.minute == m
    requires days == [] || now.weekday in days
    ensures var form := AlarmForm(TwoDigitInput(Decimal(h)), TwoDigitInput(Decimal(m)), labelText, days, repeat);
      var r := SaveAlarm(alarms, HandleSaveAlarm(form, None), None, freshId);
      Triggers(r[|r| - 1], now)
  {
    assert TwoDigitInput(Decimal(h)) == TwoDigits(h);
    assert TwoDigitInput(Decimal(m)) == TwoDigits(m);
    assert ClockText(h, m) == TwoDigits(h) + ":" + TwoDigits(m);
  }

  // ---------------------------------------------------------------------------
  // Formatting durations
  // ---------------------------------------------------------------------------

  /** The timer's set duration in seconds. */
  function Duration(h: Hour, m: Minute, s: Minute): (r: nat)
    ensures r < 24 * 3600
    ensures r == 0 <==> h == 0 && m == 0 && s == 0
  {
    h * 3600 + m * 60 + s
  }

  /** `r` reads `mm:ss` or `hh:mm:ss`, where the hour field may have more than two digits. */
  ghost predicate ClockShaped(r: string) {
    && |r| >= 5 && r[|r| - 3] == ':'
    && AllDigits(r[|r| - 2..]) && AllDigits(r[|r| - 5..|r| - 3])
    && (|r| > 5 ==> |r| >= 7 && r[|r| - 6] == ':' && AllDigits(r[..|r| - 6]))
  }

  /** Reads back a `mm:ss` or `hh:mm:ss` display as a number of seconds. */
  ghost function ClockValue(r: string): int
    requires ClockShaped(r)
  {
    (if |r| > 5 then DigitsValue(r[..|r| - 6]) * 3600 else 0)
    + DigitsValue(r[|r| - 5..|r| - 3]) * 60 + DigitsValue(r[|r| - 2..])
  }

  /** The minute and second fields of a clock text are both below 60. */
  ghost predicate FieldsInRange(r: string)
    requires ClockShaped(r)
  {
    DigitsValue(r[|r| - 5..|r| - 3]) < 60 && DigitsValue(r[|r| - 2..]) < 60
  }

  /** `r` ends in six characters (`:mm:ss` or `:ss.cc`) that follow the text `t`. */
  ghost predicate HourField(r: string, t: string) {
    |r| >= 6 && r[..|r| - 6] == t
  }

  /**
   * `r` is a clock text whose hour, minute and second fields read `h`, `m`
   * and `sec`; a `mm:ss` text has no hour field and reads as hour 0.
   */
  ghost predicate ClockReads(r: string, h: int, m: int, sec: int) {
    && ClockShaped(r)
    && (if |r| > 5 then DigitsValue(r[..|r| - 6]) == h else h == 0)
    && DigitsValue(r[|r| - 5..|r| - 3]) == m && DigitsValue(r[|r| - 2..]) == sec
  }

  /** A clock text reads back as the seconds its three fields add up to. */
  lemma ReadsValue(r: string, h: int, m: int, sec: int)
    requires ClockReads(r, h, m, sec)
    ensures ClockValue(r) == h * 3600 + m * 60 + sec
  {
  }

  /**
   * The countdown display `format`: `mm:ss` below one hour, `hh:mm:ss` from
   * one hour up, with the hour field holding the whole hours.
   */
  function Format(s: nat): (r: string)
    ensures ClockShaped(r) && FieldsInRange(r) && ClockValue(r) == s
    ensures |r| == 5 <==> s < 3600
    ensures ClockReads(r, s / 3600, s % 3600 / 60, s % 60)
    ensures |r| > 5 ==> HourField(r, PadStart2(Decimal(s / 3600)))
  {
    var h := s / 3600;
    var m := (s % 3600) / 60;
    var sec := s % 60;
    DivModSeconds(s);
    var r := if h > 0 then HoursClock(h, m, sec) else MinutesClock(m, sec);
    ReadsValue(r, h, m, sec);
    r
  }

  /** The `hh:mm:ss` branch of `format`: each field reads back as its own value. */
  function HoursClock(h: nat, m: nat, sec: nat): (r: string)
    requires m < 60 && sec < 60
    ensures |r| >= 8 && ClockReads(r, h, m, sec)
    ensures HourField(r, PadStart2(Decimal(h)))
  {
    var x, y, z := PadStart2(Decimal(h)), TwoDigits(m), TwoDigits(sec);
    PaddedValue(h);
    TripleLayout(x, y, z);
    x + ":" + y + ":" + z
  }

  /** The `mm:ss` branch of `format`: each field reads back as its own value. */
  function MinutesClock(m: nat, sec: nat): (r: string)
    requires m < 60 && sec < 60
    ensures |r| == 5 && ClockReads(r, 0, m, sec)
  {
    var x, y := TwoDigits(m), TwoDigits(sec);
    PairLayout(x, y);
    x + ":" + y
  }

  /** Where the fields of `hh:mm:ss` sit. */
  lemma TripleLayout(x: string, y: string, z: string)
    requires |x| >= 2 && |y| == 2 && |z| == 2 && AllDigits(x) && AllDigits(y) && AllDigits(z)
    ensures var r := x + ":" + y + ":" + z;
      |r| >= 8 && ClockReads(r, DigitsValue(x), DigitsValue(y), DigitsValue(z)) && HourField(r, x)
  {
    Layout(x, ':', y, ':', z);
  }

  /** Where the fields of `mm:ss` sit. */
  lemma PairLayout(x: string, y: string)
    requires |x| == 2 && |y| == 2 && AllDigits(x) && AllDigits(y)
    ensures var r := x + ":" + y;
      && |r| == 5 && r[2] == ':' && r[..2] == x && r[3..] == y
      && ClockReads(r, 0, DigitsValue(x), DigitsValue(y))
  {
    var r := x + ":" + y;
    assert r[..2] == x && r[3..] == y;
    assert r[|r| - 5..|r| - 3] == x && r[|r| - 2..] == y;
  }

  /** Where the three fields of `a` x `b` y `c` sit when the last two have two characters. */
  lemma Layout(a: string, x: char, b: string, y: char, c: string)
    requires |b| == 2 && |c| == 2
    ensures var r := a + [x] + b + [y] + c;
      && |r| == |a| + 6 && r[|r| - 6] == x && r[|r| - 3] == y
      && r[..|r| - 6] == a && r[|r| - 5..|r| - 3] == b && r[|r| - 2..] == c
  {
  }

  lemma PaddedValue(n: nat)
    ensures AllDigits(PadStart2(Decimal(n))) && DigitsValue(PadStart2(Decimal(n))) == n
  {
    if n < 100 {
      assert PadStart2(Decimal(n)) == TwoDigits(n);
    }
  }

  lemma DivModSeconds(s: nat)
    ensures (s / 3600) * 3600 + ((s % 3600) / 60) * 60 + s % 60 == s
    ensures (s % 3600) / 60 < 60 && s % 60 < 60
    ensures s / 3600 > 0 <==> s >= 3600
  {
    var q1, r1 := s / 3600, s % 3600;
    var q2, r2 := r1 / 60, r1 % 60;
    assert r1 == q2 * 60 + r2 && q2 < 60;
    DivModUnique(s, 60, q1 * 60 + q2, r2);
    if s >= 3600 {
      DivModUnique(s, 3600, 1 + (s - 3600) / 3600, (s - 3600) % 3600);
    }
  }

  /** While editing, the display shows exactly the three inputs. */
  lemma FormatShowsInputs(h: Hour, m: Minute, s: Minute)
    ensures Format(Duration(h, m, s)) ==
      if h > 0 then TwoDigits(h) + ":" + TwoDigits(m) + ":" + TwoDigits(s)
      else TwoDigits(m) + ":" + TwoDigits(s)
  {
    var d := Duration(h, m, s);
    assert d / 3600 == h && (d % 3600) / 60 == m && d % 60 == s;
  }

  /** `r` reads `mm:ss.cc`, where the minute field may have more than two digits. */
  ghost predicate StopwatchShaped(r: string) {
    && |r| >= 8 && r[|r| - 3] == '.' && r[|r| - 6] == ':'
    && AllDigits(r[..|r| - 6]) && AllDigits(r[|r| - 5..|r| - 3]) && AllDigits(r[|r| - 2..])
  }

  /** Reads back a stopwatch display `mm:ss.cc` as milliseconds. */
  ghost function StopwatchValue(r: string): int
    requires StopwatchShaped(r)
  {
    DigitsValue(r[..|r| - 6]) * 60000 + DigitsValue(r[|r| - 5..|r| - 3]) * 1000 + DigitsValue(r[|r| - 2..]) * 10
  }

  /** The stopwatch display `formatTime`: minutes, seconds and centiseconds; the last millisecond digit is dropped. */
  function FormatTime(ms: nat): (r: string)
    ensures StopwatchShaped(r) && StopwatchValue(r) == ms - ms % 10
    ensures DigitsValue(r[..|r| - 6]) == ms / 60000 && DigitsValue(r[|r| - 5..|r| - 3]) < 60
    ensures HourField(r, PadStart2(Decimal(ms / 60000)))
  {
    var minutes := ms / 60000;
    var seconds := (ms % 60000) / 1000;
    var centis := (ms % 1000) / 10;
    DivModMillis(ms);
    PaddedValue(minutes);
    StopwatchLayout(PadStart2(Decimal(minutes)), TwoDigits(seconds), TwoDigits(centis));
    PadStart2(Decimal(minutes)) + ":" + TwoDigits(seconds) + "." + TwoDigits(centis)
  }

  /** Where the fields of `mm:ss.cc` sit, and what the stopwatch reads it as. */
  lemma StopwatchLayout(x: string, y: string, z: string)
    requires |x| >= 2 && |y| == 2 && |z| == 2 && AllDigits(x) && AllDigits(y) && AllDigits(z)
    ensures var r := x + ":" + y + "." + z;
      && StopwatchShaped(r)
      && r[..|r| - 6] == x && r[|r| - 5..|r| - 3] == y && r[|r| - 2..] == z
      && StopwatchValue(r) == DigitsValue(x) * 60000 + DigitsValue(y) * 1000 + DigitsValue(z) * 10
  {
    Layout(x, ':', y, '.', z);
  }

  lemma DivModMillis(ms: nat)
    ensures (ms / 60000) * 60000 + ((ms % 60000) / 1000) * 1000 + ((ms % 1000) / 10) * 10 == ms - ms % 10
    ensures (ms % 60000) / 1000 < 60 && (ms % 1000) / 10 < 100
  {
    var q1, r1 := ms / 60000, ms % 60000;
    var q2, r2 := r1 / 1000, r1 % 1000;
    var q3, r3 := r2 / 10, r2 % 10;
    assert r1 == q2 * 1000 + r2 && q2 < 60;
    assert ms == (q1 * 60 + q2) * 1000 + r2;
    DivModUnique(ms, 1000, q1 * 60 + q2, r2);
    assert ms == ((q1 * 60 + q2) * 100 + q3) * 10 + r3;
    DivModUnique(ms, 10, (q1 * 60 + q2) * 100 + q3, r3);
  }
}
