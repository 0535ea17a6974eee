/**
 * The reminders list (src/components/RemindersView.tsx): the form's save
 * handler, the list operations, the filtered and sorted view of the list,
 * the counters above it and the due-date label on each entry.
 */
module Reminders {
  import opened Wrappers
  import opened Lists
  import opened Text

  datatype Priority = Low | Medium | High

  /** A reminder; `dueDate` is an ISO `YYYY-MM-DD` string when present. */
  datatype Reminder = Reminder(
    id: string, text: string, completed: bool, date: string,
    dueDate: Option<string>, priority: Priority, category: Option<string>)

  /** A reminder without its id (`Omit<Reminder, 'id'>`): what the form hands to `saveReminder`. */
  datatype ReminderData = ReminderData(
    text: string, completed: bool, date: string,
    dueDate: Option<string>, priority: Priority, category: Option<string>)

  /** The modal's inputs; the empty string is a cleared date or category. */
  datatype Form = Form(text: string, priority: Priority, dueDate: string, category: string)

  function WithId(data: ReminderData, id: string): Reminder {
    Reminder(id, data.text, data.completed, data.date, data.dueDate, data.priority, data.category)
  }

  function DataOf(r: Reminder): ReminderData {
    ReminderData(r.text, r.completed, r.date, r.dueDate, r.priority, r.category)
  }

  predicate UniqueIds(list: seq<Reminder>) {
    forall i, j :: 0 <= i < j < |list| ==> list[i].id != list[j].id
  }

  /** `value || undefined` on a string: absent exactly for the empty string. */
  function NonEmpty(s: string): (r: Option<string>)
    ensures r == None <==> s == ""
    ensures r.Some? ==> r.value == s
  {
    if s == "" then None else Some(s)
  }

  /** `value || ''` on an optional string. */
  function OrEmpty(o: Option<string>): string {
    match o
    case Some(s) => s
    case None => ""
  }

  // ---------------------------------------------------------------------------
  // The add/edit modal
  // ---------------------------------------------------------------------------

  /** The form as the modal fills it when it opens, for an edit or for a new reminder. */
  function OpenForm(edit: Option<Reminder>): Form {
    match edit
    case Some(r) => Form(r.text, r.priority, OrEmpty(r.dueDate), OrEmpty(r.category))
    case None => Form("", Medium, "", "")
  }

  /**
   * `handleSave`: whitespace-only text saves nothing; otherwise the text is
   * trimmed, `completed` and `date` come from the edited reminder (a new one
   * is open and dated `today`), and an empty due date or category is absent.
   */
  function HandleSave(form: Form, edit: Option<Reminder>, today: string): (r: Option<ReminderData>)
    ensures r.None? <==> IsBlank(form.text)
    ensures r.Some? ==> IsTrimOf(form.text, r.value.text) && r.value.text != ""
    ensures r.Some? ==> r.value.completed == (edit.Some? && edit.value.completed)
    ensures r.Some? ==> r.value.date == if edit.Some? && edit.value.date != "" then edit.value.date else today
    ensures r.Some? ==> r.value.dueDate == NonEmpty(form.dueDate) && r.value.category == NonEmpty(form.category)
    ensures r.Some? ==> r.value.priority == form.priority
  {
    var text := Trim(form.text);
    if text == "" then None
    else
      var completed := if edit.Some? then edit.value.completed else false;
      var date := if edit.Some? && edit.value.date != "" then edit.value.date else today;
      Some(ReminderData(text, completed, date, NonEmpty(form.dueDate), form.priority, NonEmpty(form.category)))
  }

  /**
   * Opening a reminder for editing and saving without changes gives back its
   * data, as long as it is in the shape the form saves: trimmed, non-blank
   * text, a date, and no empty due date or category.
   */
  lemma SaveUnchangedEdit(r: Reminder, today: string)
    requires r.text != "" && !IsSpace(r.text[0]) && !IsSpace(r.text[|r.text| - 1])
    requires r.date != "" && r.dueDate != Some("") && r.category != Some("")
    ensures HandleSave(OpenForm(Some(r)), Some(r), today) == Some(DataOf(r))
  {
    assert TrimmedAt(r.text, r.text, 0);
    TrimUnique(r.text, Trim(r.text), r.text);
  }

  // ---------------------------------------------------------------------------
  // List operations
  // ---------------------------------------------------------------------------

  /**
   * `saveReminder`: when editing, the entries with the edited id take the new
   * data and keep the id; otherwise the new reminder goes in front.
   */
  function SaveReminder(list: seq<Reminder>, data: ReminderData, editId: Option<string>, freshId: string): (r: seq<Reminder>)
    ensures editId.Some? ==> |r| == |list|
    ensures editId.Some? ==> forall i :: 0 <= i < |r| ==>
      && r[i].id == list[i].id
      && (list[i].id != editId.value ==> r[i] == list[i])
      && (list[i].id == editId.value ==> DataOf(r[i]) == data)
    ensures editId.None? ==> |r| == |list| + 1 && r[1..] == list
    ensures editId.None? ==> r[0].id == freshId && DataOf(r[0]) == data
  {
    match editId
    case Some(id) =>
      MapIf(list, (x: Reminder) => x.id == id, (x: Reminder) => WithId(data, id))
    case None =>
      [WithId(data, freshId)] + list
  }

  /** `toggleReminder`: flip `completed` on the entries with that id and change nothing else. */
  function ToggleReminder(list: seq<Reminder>, id: string): (r: seq<Reminder>)
    ensures |r| == |list|
    ensures forall i :: 0 <= i < |r| ==>
      && (list[i].id != id ==> r[i] == list[i])
      && (list[i].id == id ==> r[i].completed == !list[i].completed && r[i] == list[i].(completed := r[i].completed))
  {
    MapIf(list, (x: Reminder) => x.id == id, (x: Reminder) => x.(completed := !x.completed))
  }

  lemma ToggleReminderTwice(list: seq<Reminder>, id: string)
    ensures ToggleReminder(ToggleReminder(list, id), id) == list
  {
    var r := ToggleReminder(ToggleReminder(list, id), id);
    forall i | 0 <= i < |list| ensures r[i] == list[i] {
    }
  }

  /** `deleteReminder`: drop exactly the entries with that id, keeping the order of the rest. */
  function DeleteReminder(list: seq<Reminder>, id: string): (r: seq<Reminder>)
    ensures forall x :: x in r <==> x in list && x.id != id
    ensures forall x :: multiset(r)[x] == if x.id != id then multiset(list)[x] else 0
    ensures Subsequence(r, list)
    ensures |r| <= |list|
  {
    Filter(list, (x: Reminder) => x.id != id)
  }

  /** Saving with a fresh id, toggling and deleting keep ids unique. */
  lemma OperationsKeepIdsUnique(list: seq<Reminder>, data: ReminderData, editId: Option<string>, freshId: string, id: string)
    requires UniqueIds(list)
    requires editId.None? ==> forall x :: x in list ==> x.id != freshId
    ensures UniqueIds(SaveReminder(list, data, editId, freshId))
    ensures UniqueIds(ToggleReminder(list, id))
    ensures UniqueIds(DeleteReminder(list, id))
  {
    var r := SaveReminder(list, data, editId, freshId);
    if editId.None? {
      forall i, j | 0 <= i < j < |r| ensures r[i].id != r[j].id {
        assert r[j] == list[j - 1];
        if i == 0 {
          assert list[j - 1] in list;
        } else {
          assert r[i] == list[i - 1];
        }
      }
    }
    FilterUniqueIds(list, (x: Reminder) => x.id != id);
  }

  lemma {:induction false} FilterUniqueIds(list: seq<Reminder>, p: Reminder -> bool)
    requires UniqueIds(list)
    ensures UniqueIds(Filter(list, p))
  {
    if list != [] {
      FilterUniqueIds(list[1..], p);
      var t := Filter(list[1..], p);
      forall k | 0 <= k < |t| ensures list[0].id != t[k].id {
        assert t[k] in list[1..];
      }
    }
  }

  // ---------------------------------------------------------------------------
  // Categories in use
  // ---------------------------------------------------------------------------

  /** `reminders.map(r => r.category).filter(Boolean)`: the non-empty categories, repeats kept. */
  function Categories(list: seq<Reminder>): (r: seq<string>)
    ensures forall c :: c in r <==> c != "" && exists i :: 0 <= i < |list| && list[i].category == Some(c)
  {
    if list == [] then []
    else
      var rest := Categories(list[1..]);
      assert forall i :: 0 <= i < |list| - 1 ==> list[1..][i] == list[i + 1];
      var c := list[0].category;
      if c.Some? && c.value != "" then [c.value] + rest else rest
  }

  /** The categories of two lists one after the other are those of the joined list, in that order. */
  lemma {:induction false} CategoriesConcat(a: seq<Reminder>, b: seq<Reminder>)
    ensures Categories(a + b) == Categories(a) + Categories(b)
  {
    if a == [] {
      assert a + b == b;
    } else {
      assert (a + b)[1..] == a[1..] + b;
      CategoriesConcat(a[1..], b);
      var c := a[0].category;
      var head := if c.Some? && c.value != "" then [c.value] else [];
      assert Categories(a + b) == head + (Categories(a[1..]) + Categories(b));
      assert Categories(a) == head + Categories(a[1..]);
      AppendAssoc(head, Categories(a[1..]), Categories(b));
    }
  }

  /** One reminder contributes its category when it has a non-empty one, and nothing otherwise. */
  lemma CategoriesOfOne(x: Reminder)
    ensures Categories([x]) == if x.category.Some? && x.category.value != "" then [x.category.value] else []
  {
    assert [x][1..] == [];
  }

  /** `Array.from(new Set(s))`: each value once, at its first occurrence. */
  function Distinct(s: seq<string>): (r: seq<string>)
    ensures forall x :: x in r <==> x in s
    ensures forall i, j :: 0 <= i < j < |r| ==> r[i] != r[j]
    ensures forall i, j :: 0 <= i < j < |r| ==> IndexOf(s, r[i]) < IndexOf(s, r[j])
  {
    if s == [] then []
    else
      var t := s[..|s| - 1];
      var d := Distinct(t);
      var x := s[|s| - 1];
      assert s == t + [x];
      forall y | y in t ensures IndexOf(s, y) == IndexOf(t, y) {
        IndexOfAppend(t, x, y);
      }
      if x in d then d else d + [x]
  }

  /** `usedCategories`: every non-empty category in use, each once, and nothing else. */
  function UsedCategories(list: seq<Reminder>): (r: seq<string>)
    ensures forall c :: c in r <==> c != "" && exists i :: 0 <= i < |list| && list[i].category == Some(c)
    ensures forall i, j :: 0 <= i < j < |r| ==> r[i] != r[j]
    ensures forall c :: c in r <==> c in Categories(list)
    ensures forall i, j :: 0 <= i < j < |r| ==> IndexOf(Categories(list), r[i]) < IndexOf(Categories(list), r[j])
  {
    Distinct(Categories(list))
  }

  // ---------------------------------------------------------------------------
  // The filtered and sorted view
  // ---------------------------------------------------------------------------

  datatype Status = AllStatus | ActiveOnly | CompletedOnly

  datatype SortBy = ByDate | ByPriority

  /**
   * The filter bar: status, priority (`None` is 'all'), category (the string
   * "all" is any category) and the sort order.
   */
  datatype View = View(status: Status, priority: Option<Priority>, category: string, sortBy: SortBy)

  /** The reminders the view shows, all filters taken together. */
  predicate Shown(r: Reminder, v: View) {
    && (v.status == ActiveOnly ==> !r.completed)
    && (v.status == CompletedOnly ==> r.completed)
    && (v.priority.Some? ==> r.priority == v.priority.value)
    && (v.category != "all" ==> r.category == Some(v.category))
  }

  /** `priorityOrder`: high first. */
  function PriorityRank(p: Priority): int {
    match p
    case High => 0
    case Medium => 1
    case Low => 2
  }

  /** A due date that JavaScript counts as present (a non-empty string). */
  predicate HasDue(r: Reminder) {
    r.dueDate.Some? && r.dueDate.value != ""
  }

  /** `a.localeCompare(b)` taken as ordinal string comparison. */
  function LocaleCompare(a: string, b: string): (c: int)
    ensures c < 0 <==> LexLess(a, b)
    ensures c > 0 <==> LexLess(b, a)
  {
    if a == b then
      LexLessIrreflexive(a);
      0
    else
      LexLessTotal(a, b);
      if LexLess(a, b) then LexLessAsymmetric(a, b); -1 else 1
  }

  /**
   * The comparator handed to `result.sort`: negative exactly when `a` goes
   * first, positive exactly when `b` does.
   */
  function Compare(a: Reminder, b: Reminder, order: SortBy): (c: int)
    ensures c < 0 <==> GoesFirst(a, b, order)
    ensures c > 0 <==> GoesFirst(b, a, order)
  {
    if a.completed != b.completed then (if a.completed then 1 else -1)
    else match order
      case ByPriority => PriorityRank(a.priority) - PriorityRank(b.priority)
      case ByDate =>
        if HasDue(a) && HasDue(b) then LocaleCompare(a.dueDate.value, b.dueDate.value)
        else if HasDue(a) then -1
        else if HasDue(b) then 1
        else 0
  }

  /**
   * The order the view promises, stated without the comparator's arithmetic:
   * an open reminder before a done one; among equals in that, the higher
   * priority, or a dated reminder before an undated one and the earlier date
   * first.
   */
  predicate GoesFirst(a: Reminder, b: Reminder, order: SortBy) {
    || (!a.completed && b.completed)
    || (a.completed == b.completed &&
          match order
          case ByPriority => PriorityRank(a.priority) < PriorityRank(b.priority)
          case ByDate => HasDue(a) && (!HasDue(b) || LexLess(a.dueDate.value, b.dueDate.value)))
  }

  /** `a` goes before `b`: the comparator is negative. */
  predicate Precedes(a: Reminder, b: Reminder, order: SortBy) {
    Compare(a, b, order) < 0
  }

  /** The comparator never puts each of two reminders before the other. */
  lemma PrecedesAsymmetric(a: Reminder, b: Reminder, order: SortBy)
    requires Precedes(a, b, order)
    ensures !Precedes(b, a, order)
  {
    if order == ByDate && a.completed == b.completed && HasDue(a) && HasDue(b) {
      LexLessAsymmetric(a.dueDate.value, b.dueDate.value);
    }
  }

  /** "Not before" is transitive, so the ties of the comparator are consistent. */
  lemma NotPrecedesTransitive(a: Reminder, b: Reminder, c: Reminder, order: SortBy)
    requires !Precedes(a, b, order) && !Precedes(b, c, order)
    ensures !Precedes(a, c, order)
  {
    if order == ByDate && a.completed == b.completed && b.completed == c.completed
      && HasDue(a) && HasDue(b) && HasDue(c)
    {
      LexNotLessTransitive(a.dueDate.value, b.dueDate.value, c.dueDate.value);
    }
  }

  /** No later element of `s` goes before an earlier one. */
  predicate SortedBy(s: seq<Reminder>, order: SortBy) {
    forall i, j :: 0 <= i < j < |s| ==> !Precedes(s[j], s[i], order)
  }

  /**
   * What the two orders promise of an earlier `a` and a later `b`: open before
   * done; then by priority high, medium, low, or by due date with dated ones
   * first in ascending order.
   */
  predicate InViewOrder(a: Reminder, b: Reminder, order: SortBy) {
    && (a.completed ==> b.completed)
    && (a.completed == b.completed ==>
          match order
          case ByPriority => PriorityRank(a.priority) <= PriorityRank(b.priority)
          case ByDate => HasDue(b) ==> HasDue(a) && !LexLess(b.dueDate.value, a.dueDate.value))
  }

  lemma SortedMeansInViewOrder(s: seq<Reminder>, order: SortBy)
    requires SortedBy(s, order)
    ensures forall i, j :: 0 <= i < j < |s| ==> InViewOrder(s[i], s[j], order)
  {
    forall i, j | 0 <= i < j < |s| ensures InViewOrder(s[i], s[j], order) {
      assert !Precedes(s[j], s[i], order);
    }
  }

  /** Putting `x` at `j`, after everything it does not precede and before the rest, keeps `s` sorted. */
  lemma InsertKeepsSorted(s: seq<Reminder>, j: int, x: Reminder, order: SortBy)
    requires SortedBy(s, order) && 0 <= j <= |s|
    requires j > 0 ==> !Precedes(x, s[j - 1], order)
    requires forall k :: j <= k < |s| ==> Precedes(x, s[k], order)
    ensures SortedBy(s[..j] + [x] + s[j..], order)
  {
    var r := s[..j] + [x] + s[j..];
    forall p, q | 0 <= p < q < |r| ensures !Precedes(r[q], r[p], order) {
      if q < j {
        assert r[p] == s[p] && r[q] == s[q];
      } else if q == j {
        assert r[p] == s[p];
        if p < j - 1 {
          NotPrecedesTransitive(x, s[j - 1], s[p], order);
        }
      } else if p == j {
        assert r[q] == s[q - 1];
        PrecedesAsymmetric(x, s[q - 1], order);
      } else if p < j {
        assert r[p] == s[p] && r[q] == s[q - 1];
      } else {
        assert r[p] == s[p - 1] && r[q] == s[q - 1];
      }
    }
  }

  /** The comparator puts neither of the two before the other. */
  predicate Tied(a: Reminder, b: Reminder, order: SortBy) {
    !Precedes(a, b, order) && !Precedes(b, a, order)
  }

  /** Two reminders tied with a third are tied with each other. */
  lemma TiedTransitive(y: Reminder, a: Reminder, b: Reminder, order: SortBy)
    requires Tied(y, a, order) && Tied(y, b, order)
    ensures Tied(a, b, order)
  {
    NotPrecedesTransitive(a, y, b, order);
    NotPrecedesTransitive(b, y, a, order);
  }

  function TiedWith(y: Reminder, order: SortBy): Reminder -> bool {
    (z: Reminder) => Tied(y, z, order)
  }

  /** The reminders of `s` tied with `y`, in their order in `s`. */
  function TiesOf(s: seq<Reminder>, y: Reminder, order: SortBy): seq<Reminder> {
    Filter(s, TiedWith(y, order))
  }

  /**
   * Putting `x` at `j`, before elements it precedes, adds `x` to the end of the
   * ties of whatever it is tied with and leaves all other ties as they were.
   */
  lemma InsertKeepsTies(s: seq<Reminder>, j: int, x: Reminder, y: Reminder, order: SortBy)
    requires 0 <= j <= |s|
    requires forall k :: j <= k < |s| ==> Precedes(x, s[k], order)
    ensures TiesOf(s[..j] + [x] + s[j..], y, order) == TiesOf(s, y, order) + if Tied(y, x, order) then [x] else []
  {
    var p := TiedWith(y, order);
    forall k | j <= k < |s| && p(x) ensures !p(s[k]) {
      if p(s[k]) {
        TiedTransitive(y, x, s[k], order);
      }
    }
    FilterInsertAt(s, j, x, p);
  }

  /**
   * One step of the insertion sort: when `r` holds the first `i` reminders of
   * `s` sorted, putting `s[i]` at `j`, after what it does not precede and
   * before the rest, holds the first `i + 1` sorted.
   */
  lemma InsertStep(r: seq<Reminder>, j: int, s: seq<Reminder>, i: int, order: SortBy)
    requires 0 <= i < |s| && 0 <= j <= |r|
    requires SortedBy(r, order) && multiset(r) == multiset(s[..i])
    requires j > 0 ==> !Precedes(s[i], r[j - 1], order)
    requires forall k :: j <= k < |r| ==> Precedes(s[i], r[k], order)
    ensures var t := r[..j] + [s[i]] + r[j..];
      SortedBy(t, order) && multiset(t) == multiset(s[..i + 1])
  {
    InsertKeepsSorted(r, j, s[i], order);
    assert s[..i + 1] == s[..i] + [s[i]];
    assert r == r[..j] + r[j..];
  }

  /**
   * The same step keeps each group of tied reminders in its order in `s`:
   * `s[i]` joins the end of its group.
   */
  lemma InsertStepTies(r: seq<Reminder>, j: int, s: seq<Reminder>, i: int, order: SortBy)
    requires 0 <= i < |s| && 0 <= j <= |r|
    requires forall y :: TiesOf(r, y, order) == TiesOf(s[..i], y, order)
    requires forall k :: j <= k < |r| ==> Precedes(s[i], r[k], order)
    ensures forall y :: TiesOf(r[..j] + [s[i]] + r[j..], y, order) == TiesOf(s[..i + 1], y, order)
  {
    var x := s[i];
    assert s[..i + 1] == s[..i] + [x];
    forall y ensures TiesOf(r[..j] + [x] + r[j..], y, order) == TiesOf(s[..i + 1], y, order) {
      InsertKeepsTies(r, j, x, y, order);
      FilterAppend(s[..i], x, TiedWith(y, order));
    }
  }

  /** `result.sort(compare)`, as an insertion sort over the list. */
  method SortReminders(s: seq<Reminder>, order: SortBy) returns (r: seq<Reminder>)
    ensures multiset(r) == multiset(s)
    ensures SortedBy(r, order)
    ensures forall y :: TiesOf(r, y, order) == TiesOf(s, y, order)
  {
    r := [];
    for i := 0 to |s|
      invariant multiset(r) == multiset(s[..i])
      invariant SortedBy(r, order)
      invariant forall y :: TiesOf(r, y, order) == TiesOf(s[..i], y, order)
    {
      var x := s[i];
      var j := |r|;
      while j > 0 && Precedes(x, r[j - 1], order)
        invariant 0 <= j <= |r|
        invariant forall k :: j <= k < |r| ==> Precedes(x, r[k], order)
      {
        j := j - 1;
      }
      InsertStep(r, j, s, i, order);
      InsertStepTies(r, j, s, i, order);
      r := r[..j] + [x] + r[j..];
    }
    assert s[..|s|] == s;
  }

  /**
   * `filteredReminders`: the filters narrow a copy of the list one after
   * another, then the copy is sorted. The result holds exactly the reminders
   * the view shows, as many times as the list does, in the view's order, and
   * reminders the order ties keep their order in the list.
   */
  method FilteredReminders(reminders: seq<Reminder>, view: View) returns (result: seq<Reminder>)
    ensures forall x :: multiset(result)[x] == if Shown(x, view) then multiset(reminders)[x] else 0
    ensures forall i, j :: 0 <= i < j < |result| ==> InViewOrder(result[i], result[j], view.sortBy)
    ensures forall y :: Subsequence(TiesOf(result, y, view.sortBy), reminders)
  {
    result := reminders;
    SubsequenceOfSelf(reminders);
    if view.status == ActiveOnly {
      result := Narrow(result, reminders, (r: Reminder) => !r.completed);
    }
    if view.status == CompletedOnly {
      result := Narrow(result, reminders, (r: Reminder) => r.completed);
    }
    if view.priority.Some? {
      result := Narrow(result, reminders, (r: Reminder) => r.priority == view.priority.value);
    }
    if view.category != "all" {
      result := Narrow(result, reminders, (r: Reminder) => r.category == Some(view.category));
    }
    assert forall x :: multiset(result)[x] == if Shown(x, view) then multiset(reminders)[x] else 0;
    var kept := result;
    result := SortReminders(result, view.sortBy);
    SortedMeansInViewOrder(result, view.sortBy);
    forall y ensures Subsequence(TiesOf(result, y, view.sortBy), reminders) {
      SubsequenceTransitive(TiesOf(kept, y, view.sortBy), kept, reminders);
    }
  }

  /** One filter of `filteredReminders`: what is left stays a subsequence of the list. */
  function Narrow(s: seq<Reminder>, reminders: seq<Reminder>, p: Reminder -> bool): (r: seq<Reminder>)
    requires Subsequence(s, reminders)
    ensures forall x :: multiset(r)[x] == if p(x) then multiset(s)[x] else 0
    ensures Subsequence(r, reminders)
  {
    SubsequenceTransitive(Filter(s, p), s, reminders);
    Filter(s, p)
  }

  // ---------------------------------------------------------------------------
  // Counters and labels
  // ---------------------------------------------------------------------------

  datatype Stats = Stats(total: nat, active: nat, completed: nat, highPriority: nat)

  /**
   * `stats`: how many reminders there are, how many are open, how many done,
   * and how many open ones have high priority. The open and the done ones add
   * up to all of them.
   */
  function StatsOf(list: seq<Reminder>): (s: Stats)
    ensures s.total == |list|
    ensures s.active == |set i | 0 <= i < |list| && !list[i].completed|
    ensures s.completed == |set i | 0 <= i < |list| && list[i].completed|
    ensures s.highPriority == |set i | 0 <= i < |list| && !list[i].completed && list[i].priority == High|
    ensures s.active + s.completed == s.total
    ensures s.highPriority <= s.active
  {
    var open := (r: Reminder) => !r.completed;
    var done := (r: Reminder) => r.completed;
    var urgent := (r: Reminder) => !r.completed && r.priority == High;
    FilterSplit(list, open, done);
    FilterMonotone(list, urgent, open);
    CountsOfStats(list, open, done, urgent);
    Stats(|list|, |Filter(list, open)|, |Filter(list, done)|, |Filter(list, urgent)|)
  }

  /** Each filter behind `stats` keeps one reminder per position whose reminder passes it. */
  lemma CountsOfStats(list: seq<Reminder>, open: Reminder -> bool, done: Reminder -> bool, urgent: Reminder -> bool)
    requires forall r :: open(r) == !r.completed
    requires forall r :: done(r) == r.completed
    requires forall r :: urgent(r) == (!r.completed && r.priority == High)
    ensures |Filter(list, open)| == |set i | 0 <= i < |list| && !list[i].completed|
    ensures |Filter(list, done)| == |set i | 0 <= i < |list| && list[i].completed|
    ensures |Filter(list, urgent)| == |set i | 0 <= i < |list| && !list[i].completed && list[i].priority == High|
  {
    assert Positions(list, open) == set i | 0 <= i < |list| && !list[i].completed;
    assert Positions(list, done) == set i | 0 <= i < |list| && list[i].completed;
    assert Positions(list, urgent) == set i | 0 <= i < |list| && !list[i].completed && list[i].priority == High;
    FilterCount(list, open);
    FilterCount(list, done);
    FilterCount(list, urgent);
  }

  /** The label `getDueDateText` shows; `DueOn` is the localised date it prints. */
  datatype DueLabel = DueToday | DueTomorrow | Overdue | DueOn(date: string)

  /**
   * `getDueDateText`, given today's and tomorrow's ISO dates: when tomorrow
   * sorts after today, a date is overdue exactly when it is before today.
   */
  function GetDueDateText(dueDate: string, today: string, tomorrow: string): (r: DueLabel)
    ensures r == DueToday <==> dueDate == today
    ensures r == DueTomorrow <==> dueDate != today && dueDate == tomorrow
    ensures LexLess(today, tomorrow) ==> (r == Overdue <==> LexLess(dueDate, today))
    ensures r.DueOn? ==> r.date == dueDate && !LexLess(dueDate, today)
  {
    if dueDate == today then
      LexLessIrreflexive(today);
      DueToday
    else if dueDate == tomorrow then
      assert LexLess(today, tomorrow) ==> !LexLess(dueDate, today) by {
        if LexLess(today, tomorrow) { LexLessAsymmetric(today, tomorrow); }
      }
      DueTomorrow
    else if LexLess(dueDate, today) then Overdue
    else DueOn(dueDate)
  }
}
