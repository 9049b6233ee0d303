/** The planner page's selection logic: a class, then one of its months, then one of that
    month's days, each choice guarded by the content that exists, and the two preview flags
    that belong to the day on display. */
module Planner {
  import opened Options

  /** The lesson data as the page reads it: classes, their months and the months' days, each
      level a list of named members in key order. `D` is whatever a day holds. */
  datatype MonthEntry<D> = MonthEntry(days: seq<(string, D)>)
  datatype ClassEntry<D> = ClassEntry(months: seq<(string, MonthEntry<D>)>)
  type Lessons<D> = seq<(string, ClassEntry<D>)>

  /** `members[key]` for an own member. */
  function Lookup<V>(members: seq<(string, V)>, key: string): Option<V> {
    if members == [] then None
    else if members[0].0 == key then Some(members[0].1)
    else Lookup(members[1..], key)
  }

  /** `new Set(Object.keys(members))`. */
  function KeySet<V>(members: seq<(string, V)>): set<string> {
    set i | 0 <= i < |members| :: members[i].0
  }

  /** A key is listed exactly when looking it up finds a member. */
  lemma {:induction false} LookupFindsListed<V>(members: seq<(string, V)>, key: string)
    ensures key in KeySet(members) <==> Lookup(members, key).Some?
  {
    if members != [] {
      LookupFindsListed(members[1..], key);
      if key in KeySet(members) && members[0].0 != key {
        var i :| 0 <= i < |members| && members[i].0 == key;
        assert members[1..][i - 1].0 == key;
      }
      if key in KeySet(members[1..]) {
        var i :| 0 <= i < |members[1..]| && members[1..][i].0 == key;
        assert members[i + 1].0 == key;
      }
    }
  }

  /** The page's state: the selected class, month and day (`null` as `None`), and the two
      preview flags. */
  datatype Selection = Selection(
    cls: string,
    month: Option<string>,
    day: Option<string>,
    previewRequested: bool,
    previewSuccess: bool)

  /** A string is truthy unless it is empty. */
  predicate Truthy(s: Option<string>) {
    s.Some? && s.value != ""
  }

  /** The first render: the first class, nothing else selected, both flags off. */
  function Initial<D>(lessons: Lessons<D>): (r: Selection)
    requires lessons != []
    ensures r.month.None? && r.day.None? && !r.previewRequested && !r.previewSuccess
    ensures Lookup(lessons, r.cls).Some?
  {
    Selection(lessons[0].0, None, None, false, false)
  }

  // ---------------------------------------------------------------------------------------
  // Derived values

  function ClassData<D>(lessons: Lessons<D>, s: Selection): Option<ClassEntry<D>> {
    Lookup(lessons, s.cls)
  }

  /** `monthData`: the selected month's entry, `null` while no month (or the empty key) is
      selected. */
  function MonthData<D>(lessons: Lessons<D>, s: Selection): (r: Option<MonthEntry<D>>)
    ensures r.Some? ==> Truthy(s.month)
  {
    if !Truthy(s.month) then None
    else
      match ClassData(lessons, s)
      case None => None
      case Some(c) => Lookup(c.months, s.month.value)
  }

  /** `dayData`: the selected day's content, `null` unless both a month and a day are
      selected and the day exists. */
  function DayData<D>(lessons: Lessons<D>, s: Selection): (r: Option<D>)
    ensures r.Some? ==> Truthy(s.month) && Truthy(s.day)
  {
    if !Truthy(s.day) then None
    else
      match MonthData(lessons, s)
      case None => None
      case Some(m) => Lookup(m.days, s.day.value)
  }

  /** `availableMonths`: the current class's month keys. */
  function AvailableMonths<D>(lessons: Lessons<D>, s: Selection): set<string> {
    match ClassData(lessons, s)
    case None => {}
    case Some(c) => KeySet(c.months)
  }

  /** `availableDays`: the current month's day keys, none without a month. */
  function AvailableDays<D>(lessons: Lessons<D>, s: Selection): (r: set<string>)
    ensures !Truthy(s.month) ==> r == {}
  {
    match MonthData(lessons, s)
    case None => {}
    case Some(m) => KeySet(m.days)
  }

  /** Which day object `dayData` is: every day of the data is a distinct object, so its
      identity is the path that reaches it. */
  function DayRef<D>(lessons: Lessons<D>, s: Selection): (r: Option<(string, string, string)>)
    ensures r.Some? <==> DayData(lessons, s).Some?
  {
    if DayData(lessons, s).Some? then Some((s.cls, s.month.value, s.day.value)) else None
  }

  // ---------------------------------------------------------------------------------------
  // Handlers

  /** `handleClassSelect`: the class is set and the month and day cleared. */
  function SelectClass(s: Selection, className: string): (r: Selection)
    ensures r.cls == className && r.month.None? && r.day.None?
    ensures r.previewRequested == s.previewRequested && r.previewSuccess == s.previewSuccess
  {
    s.(cls := className, month := None, day := None)
  }

  /** `handleMonthSelect`: a month the class lacks changes nothing; any other is selected
      and the day cleared. */
  function SelectMonth<D>(lessons: Lessons<D>, s: Selection, monthNumber: string): (r: Selection)
    ensures monthNumber !in AvailableMonths(lessons, s) ==> r == s
    ensures monthNumber in AvailableMonths(lessons, s) ==>
      r == s.(month := Some(monthNumber), day := None)
  {
    if monthNumber !in AvailableMonths(lessons, s) then s
    else s.(month := Some(monthNumber), day := None)
  }

  /** `handleDaySelect`: a day the month lacks changes nothing; any other is selected. */
  function SelectDay<D>(lessons: Lessons<D>, s: Selection, dayNumber: string): (r: Selection)
    ensures dayNumber !in AvailableDays(lessons, s) ==> r == s
    ensures dayNumber in AvailableDays(lessons, s) ==> r == s.(day := Some(dayNumber))
  {
    if dayNumber !in AvailableDays(lessons, s) then s else s.(day := Some(dayNumber))
  }

  /** What the user can do: pick a class, a month or a day, ask for the inline preview (its
      button exists only on a day's card and only while no preview was asked for), and the
      preview frame reporting that it loaded or failed (it exists only once asked for). */
  datatype Event =
    | ClassClicked(className: string)
    | MonthClicked(monthNumber: string)
    | DayClicked(dayNumber: string)
    | PreviewAsked
    | PreviewLoaded
    | PreviewFailed

  /** The state change an event's handler makes, before effects run. */
  function Handle<D>(lessons: Lessons<D>, s: Selection, e: Event): Selection {
    match e
    case ClassClicked(c) => SelectClass(s, c)
    case MonthClicked(m) => SelectMonth(lessons, s, m)
    case DayClicked(d) => SelectDay(lessons, s, d)
    case PreviewAsked =>
      if DayData(lessons, s).Some? && !s.previewRequested then s.(previewRequested := true) else s
    case PreviewLoaded =>
      if DayData(lessons, s).Some? && s.previewRequested then s.(previewSuccess := true) else s
    case PreviewFailed =>
      if DayData(lessons, s).Some? && s.previewRequested then s.(previewSuccess := false) else s
  }

  /** The effect on `dayData`: when the day on display changes, both flags go back off. */
  function PreviewEffect<D>(lessons: Lessons<D>, before: Selection, after: Selection): (r: Selection)
    ensures DayRef(lessons, after) != DayRef(lessons, before) ==> !r.previewRequested && !r.previewSuccess
    ensures DayRef(lessons, after) == DayRef(lessons, before) ==> r == after
    ensures r.cls == after.cls && r.month == after.month && r.day == after.day
  {
    if DayRef(lessons, after) != DayRef(lessons, before) then
      after.(previewRequested := false, previewSuccess := false)
    else after
  }

  /** One event: its handler, then the effect. */
  function Step<D>(lessons: Lessons<D>, s: Selection, e: Event): Selection {
    PreviewEffect(lessons, s, Handle(lessons, s, e))
  }

  /** Class buttons are drawn from the data's own class keys. */
  predicate OfferedBy<D>(lessons: Lessons<D>, e: Event) {
    e.ClassClicked? ==> Lookup(lessons, e.className).Some?
  }

  function Run<D>(lessons: Lessons<D>, s: Selection, events: seq<Event>): Selection
    decreases |events|
  {
    if events == [] then s else Run(lessons, Step(lessons, s, events[0]), events[1..])
  }

  // ---------------------------------------------------------------------------------------
  // Invariant

  /** What every reachable state satisfies: the class exists; a selected month is one of
      the class's; a selected day is one of that month's; the preview was asked for only on
      a day on display, and only a preview that was asked for can have loaded. */
  predicate Inv<D>(lessons: Lessons<D>, s: Selection) {
    && Lookup(lessons, s.cls).Some?
    && (s.month.Some? ==> s.month.value in AvailableMonths(lessons, s))
    && (s.day.Some? ==> s.month.Some? && s.day.value in AvailableDays(lessons, s))
    && (s.previewRequested ==> DayData(lessons, s).Some?)
    && (s.previewSuccess ==> s.previewRequested)
  }

  /** Each offered event keeps the invariant. */
  lemma {:induction false} StepKeepsInv<D>(lessons: Lessons<D>, s: Selection, e: Event)
    requires Inv(lessons, s) && OfferedBy(lessons, e)
    ensures Inv(lessons, Step(lessons, s, e))
  {
    var t := Handle(lessons, s, e);
    match e
    case ClassClicked(c) =>
    case MonthClicked(m) =>
      if m in AvailableMonths(lessons, s) {
        assert ClassData(lessons, t) == ClassData(lessons, s);
      }
    case DayClicked(d) =>
      if d in AvailableDays(lessons, s) {
        assert MonthData(lessons, t) == MonthData(lessons, s);
      }
    case _ =>
      assert MonthData(lessons, t) == MonthData(lessons, s);
  }

  /** Every state reached from the first render by offered events satisfies the
      invariant. */
  lemma {:induction false} RunKeepsInv<D>(lessons: Lessons<D>, s: Selection, events: seq<Event>)
    requires Inv(lessons, s)
    requires forall i :: 0 <= i < |events| ==> OfferedBy(lessons, events[i])
    ensures Inv(lessons, Run(lessons, s, events))
    decreases |events|
  {
    if events != [] {
      StepKeepsInv(lessons, s, events[0]);
      RunKeepsInv(lessons, Step(lessons, s, events[0]), events[1..]);
    }
  }

  lemma {:induction false} InitialInv<D>(lessons: Lessons<D>)
    requires lessons != []
    ensures Inv(lessons, Initial(lessons))
  {
  }

  /** In a reachable state, a selected day has content on display whenever its key and its
      month's key are non-empty, and it exists in the selected month of the current
      class. */
  lemma {:induction false} SelectedDayShown<D>(lessons: Lessons<D>, s: Selection)
    requires Inv(lessons, s) && Truthy(s.day)
    ensures Truthy(s.month) && s.month.value in AvailableMonths(lessons, s)
    ensures DayData(lessons, s).Some?
  {
    var m := MonthData(lessons, s).value;
    LookupFindsListed(m.days, s.day.value);
  }

  /** A click on a month the class lacks changes nothing at all, the flags included. */
  lemma {:induction false} LockedMonthIgnored<D>(lessons: Lessons<D>, s: Selection, monthNumber: string)
    requires monthNumber !in AvailableMonths(lessons, s)
    ensures Step(lessons, s, MonthClicked(monthNumber)) == s
  {
  }

  /** A click on a day the month lacks changes nothing at all; with no month selected every
      day is locked. */
  lemma {:induction false} LockedDayIgnored<D>(lessons: Lessons<D>, s: Selection, dayNumber: string)
    requires dayNumber !in AvailableDays(lessons, s) || s.month.None?
    ensures Step(lessons, s, DayClicked(dayNumber)) == s
  {
  }

  /** Changing the class from a reachable state leaves no month, no day, no content and no
      preview. */
  lemma {:induction false} ClassChangeClearsAll<D>(lessons: Lessons<D>, s: Selection, className: string)
    requires Inv(lessons, s)
    ensures var t := Step(lessons, s, ClassClicked(className));
            t.cls == className && t.month.None? && t.day.None? && DayData(lessons, t).None?
            && !t.previewRequested && !t.previewSuccess
  {
  }

  /** Selecting an available month from a reachable state clears the day and the
      preview. */
  lemma {:induction false} MonthChangeClearsDay<D>(lessons: Lessons<D>, s: Selection, monthNumber: string)
    requires Inv(lessons, s) && monthNumber in AvailableMonths(lessons, s)
    ensures var t := Step(lessons, s, MonthClicked(monthNumber));
            t.month == Some(monthNumber) && t.day.None? && !t.previewRequested && !t.previewSuccess
  {
  }

  /** Choosing a different day of the same month puts its content on display and resets
      the preview; choosing the day already shown keeps the preview. */
  lemma {:induction false} DayChangeResetsPreview<D>(lessons: Lessons<D>, s: Selection, dayNumber: string)
    requires Inv(lessons, s) && dayNumber in AvailableDays(lessons, s) && dayNumber != ""
    ensures var t := Step(lessons, s, DayClicked(dayNumber));
            && DayData(lessons, t).Some?
            && (s.day != Some(dayNumber) ==> !t.previewRequested && !t.previewSuccess)
            && (s.day == Some(dayNumber) ==> t == s)
  {
    var t := Handle(lessons, s, DayClicked(dayNumber));
    assert MonthData(lessons, t) == MonthData(lessons, s);
    LookupFindsListed(MonthData(lessons, s).value.days, dayNumber);
  }
}
