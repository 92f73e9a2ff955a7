/** The trip itinerary editor: the trip's days, each day's activities in time
    order, and the handlers that add, edit, delete and tick off activities and
    write the trip back to the store. Times are milliseconds since the epoch
    (UTC) and days are day numbers since the epoch. */
module Itinerary {
  import opened Wrappers
  import opened Seqs
  import opened Records
  import opened Storage

  const MsPerDay: int := 86_400_000
  const MsPerMinute: int := 60_000

  /** Default start time of a new activity, `'08:00'`, in minutes after midnight. */
  const DefaultStartMinutes: int := 480

  /** The UTC day an instant falls on (`toISOString().split('T')[0]`). */
  function DayOf(ms: int): int {
    ms / MsPerDay
  }

  /** `getDaysArray()`: every day from the trip's first to its last, in order;
      empty when the trip ends before it starts. */
  function DaysArray(start: int, end: int): (r: seq<int>)
    ensures |r| == if end < start then 0 else end - start + 1
    ensures forall i | 0 <= i < |r| :: r[i] == start + i
    decreases end - start
  {
    if end < start then [] else [start] + DaysArray(start + 1, end)
  }

  // --------------------------------------------------------- activities per day

  /** Ascending by start time. */
  predicate SortedByStart(xs: seq<TravelActivity>) {
    forall i, j | 0 <= i < j < |xs| :: xs[i].startDateTime <= xs[j].startDateTime
  }

  /** `x` placed into the sorted `xs` before the first activity that does not
      start earlier. */
  function InsertByStart(x: TravelActivity, xs: seq<TravelActivity>): (r: seq<TravelActivity>)
    requires SortedByStart(xs)
    ensures SortedByStart(r)
    ensures multiset(r) == multiset(xs) + multiset{x}
    ensures |r| == |xs| + 1
    ensures r[0] == x || (xs != [] && r[0] == xs[0])
  {
    if xs == [] || x.startDateTime <= xs[0].startDateTime then
      ConsSorted(x, xs);
      [x] + xs
    else
      var rest := InsertByStart(x, xs[1..]);
      assert xs == [xs[0]] + xs[1..];
      assert xs[0].startDateTime <= rest[0].startDateTime;
      ConsSorted(xs[0], rest);
      assert multiset([xs[0]] + rest) == multiset{xs[0]} + multiset(rest);
      assert multiset(xs) == multiset{xs[0]} + multiset(xs[1..]);
      [xs[0]] + rest
  }

  /** An activity starting no later than the head of a sorted list can go in
      front of it. */
  lemma ConsSorted(x: TravelActivity, xs: seq<TravelActivity>)
    requires SortedByStart(xs)
    requires xs == [] || x.startDateTime <= xs[0].startDateTime
    ensures SortedByStart([x] + xs)
  {
  }

  /** `sort((a, b) => a.start - b.start)`: the activities in ascending start
      order, holding each activity as often as the input. */
  function SortByStart(xs: seq<TravelActivity>): (r: seq<TravelActivity>)
    ensures SortedByStart(r)
    ensures multiset(r) == multiset(xs)
    ensures |r| == |xs|
  {
    if xs == [] then []
    else
      assert xs == [xs[0]] + xs[1..];
      InsertByStart(xs[0], SortByStart(xs[1..]))
  }

  /** The activity starts on `day`. */
  predicate OnDay(a: TravelActivity, day: int) {
    DayOf(a.startDateTime) == day
  }

  /** `getActivitiesForDay(day)`: the trip's activities starting on `day`, in
      ascending start order; `[]` for a trip without an itinerary. */
  function ActivitiesForDay(t: Travel, day: int): (r: seq<TravelActivity>)
    ensures t.itinerary.None? ==> r == []
    ensures SortedByStart(r)
    ensures t.itinerary.Some? ==>
      multiset(r) == multiset(Filter(t.itinerary.value, (a: TravelActivity) => OnDay(a, day)))
  {
    match t.itinerary
    case None => []
    case Some(it) => SortByStart(Filter(it, (a: TravelActivity) => OnDay(a, day)))
  }

  /** An activity is listed under `day` exactly when it is in the itinerary and
      starts on that day. */
  lemma ActivitiesForDayMembers(t: Travel, day: int, a: TravelActivity)
    requires t.itinerary.Some?
    ensures a in ActivitiesForDay(t, day) <==> a in t.itinerary.value && OnDay(a, day)
  {
    var it := t.itinerary.value;
    var f := Filter(it, (x: TravelActivity) => OnDay(x, day));
    var r := ActivitiesForDay(t, day);
    assert a in r <==> a in multiset(r);
    assert a in f <==> a in multiset(f);
    if a in it && OnDay(a, day) {
      var i :| 0 <= i < |it| && it[i] == a;
      assert it[i] in f;
    }
  }

  // ------------------------------------------------------------- add and edit

  /** What the activity modal holds. Times are minutes after midnight; an empty
      start time is `None` and stands for 08:00. `estimatedCost` is `None` when
      it is absent or not a number. */
  datatype ActivityDraft = ActivityDraft(
    title: string,
    category: Option<ActivityCategory>,
    startTime: Option<int>,
    endTime: Option<int>,
    location: string,
    notes: Option<string>,
    estimatedCost: Option<real>)

  /** The activity `handleAddActivity` builds on day `day`: the edited
      activity's id (unless it is 0) or `now`, its `completed` flag or false, the
      default category, start time and cost filled in. */
  function BuildActivity(day: int, d: ActivityDraft, editing: Option<TravelActivity>, now: int): (a: TravelActivity)
    ensures a.id == (if editing.Some? && editing.value.id != 0 then editing.value.id else now)
    ensures a.completed == (editing.Some? && editing.value.completed)
    ensures a.startDateTime == day * MsPerDay + d.startTime.GetOr(DefaultStartMinutes) * MsPerMinute
    ensures a.endDateTime.Some? <==> d.endTime.Some?
    ensures a.estimatedCost == Some(d.estimatedCost.GetOr(0.0))
    ensures a.category == d.category.GetOr(Passeio)
    ensures a.title == d.title && a.location == d.location && a.notes == d.notes
  {
    var start := day * MsPerDay + d.startTime.GetOr(DefaultStartMinutes) * MsPerMinute;
    var end := match d.endTime case Some(m) => Some(day * MsPerDay + m * MsPerMinute) case None => None;
    TravelActivity(
      if editing.Some? && editing.value.id != 0 then editing.value.id else now,
      d.title, d.category.GetOr(Passeio), start, end, d.location, d.notes,
      Some(d.estimatedCost.GetOr(0.0)),
      editing.Some? && editing.value.completed)
  }

  /** `handleAddActivity` on the trip: `None` (nothing happens) without a
      selected day, a title or a location. When editing, every activity with
      the edited id becomes the built one; otherwise it is appended. */
  function AddActivity(
    t: Travel, selectedDay: Option<int>, d: ActivityDraft, editing: Option<TravelActivity>, now: int): (r: Option<Travel>)
    ensures r.None? <==> selectedDay.None? || d.title == "" || d.location == ""
    ensures r.Some? ==> r.value.itinerary.Some? && r.value.id == t.id
    ensures r.Some? && editing.None? ==>
      r.value.itinerary.value == t.itinerary.GetOr([]) + [BuildActivity(selectedDay.value, d, None, now)]
    ensures r.Some? && editing.Some? ==>
      var it := t.itinerary.GetOr([]);
      && |r.value.itinerary.value| == |it|
      && forall i | 0 <= i < |it| ::
           r.value.itinerary.value[i] ==
             (if it[i].id == editing.value.id then BuildActivity(selectedDay.value, d, editing, now) else it[i])
  {
    if selectedDay.None? || d.title == "" || d.location == "" then None
    else
      var a := BuildActivity(selectedDay.value, d, editing, now);
      var it := t.itinerary.GetOr([]);
      match editing
      case Some(e) => Some(t.(itinerary := Some(Replace(it, (x: TravelActivity) => x.id == e.id, a))))
      case None => Some(t.(itinerary := Some(it + [a])))
  }

  /** Editing an activity from the itinerary keeps its id and its `completed`
      flag at its place. */
  lemma EditKeepsIdAndCompleted(t: Travel, day: int, d: ActivityDraft, k: int, now: int)
    requires t.itinerary.Some? && 0 <= k < |t.itinerary.value|
    requires t.itinerary.value[k].id != 0 && d.title != "" && d.location != ""
    ensures var r := AddActivity(t, Some(day), d, Some(t.itinerary.value[k]), now).value.itinerary.value;
      r[k].id == t.itinerary.value[k].id && r[k].completed == t.itinerary.value[k].completed
  {
  }

  // ------------------------------------------------------------ delete, toggle

  /** The delete button's `onPress`: every activity with that id goes, the
      others stay in order. */
  function DeleteActivity(t: Travel, id: int): (r: Travel)
    ensures r.itinerary.Some? && r.id == t.id
    ensures forall i | 0 <= i < |r.itinerary.value| :: r.itinerary.value[i].id != id
    ensures forall i | 0 <= i < |t.itinerary.GetOr([])| && t.itinerary.GetOr([])[i].id != id ::
      t.itinerary.GetOr([])[i] in r.itinerary.value
    ensures forall i | 0 <= i < |r.itinerary.value| :: r.itinerary.value[i] in t.itinerary.GetOr([])
  {
    t.(itinerary := Some(Filter(t.itinerary.GetOr([]), (x: TravelActivity) => x.id != id)))
  }

  /** Deleting keeps the remaining activities in their order: deleting from a
      concatenation deletes from each part and concatenates the results, a
      single activity goes exactly when it carries the id, and a trip without
      an itinerary ends with an empty one. */
  lemma DeleteActivityKeepsOrder(t: Travel, xs: seq<TravelActivity>, ys: seq<TravelActivity>, x: TravelActivity, id: int)
    ensures DeleteActivity(t.(itinerary := Some(xs + ys)), id).itinerary.value ==
      DeleteActivity(t.(itinerary := Some(xs)), id).itinerary.value
      + DeleteActivity(t.(itinerary := Some(ys)), id).itinerary.value
    ensures DeleteActivity(t.(itinerary := Some([x])), id).itinerary.value == if x.id == id then [] else [x]
    ensures DeleteActivity(t.(itinerary := None), id).itinerary == Some([])
  {
    FilterAppend(xs, ys, (a: TravelActivity) => a.id != id);
  }

  /** Adding a new activity under an id no activity of the trip carries and
      then deleting that id gives the trip back (with `[]` for a missing
      itinerary). */
  lemma AddThenDeleteActivity(t: Travel, day: int, d: ActivityDraft, now: int)
    requires d.title != "" && d.location != ""
    requires forall i | 0 <= i < |t.itinerary.GetOr([])| :: t.itinerary.GetOr([])[i].id != now
    ensures DeleteActivity(AddActivity(t, Some(day), d, None, now).value, now) ==
      t.(itinerary := Some(t.itinerary.GetOr([])))
  {
    var it := t.itinerary.GetOr([]);
    var keep := (a: TravelActivity) => a.id != now;
    var a := BuildActivity(day, d, None, now);
    assert AddActivity(t, Some(day), d, None, now).value.itinerary.value == it + [a];
    FilterAppend(it, [a], keep);
    assert Filter([a], keep) == [];
    FilterAllKept(it, keep);
    assert Filter(it + [a], keep) == it;
    assert DeleteActivity(AddActivity(t, Some(day), d, None, now).value, now).itinerary == Some(Filter(it + [a], keep));
  }

  /** `handleToggleComplete(a)`: every activity with `a`'s id becomes `a` with
      its `completed` flag flipped; every other activity is unchanged. */
  function ToggleComplete(t: Travel, a: TravelActivity): (r: Travel)
    ensures r.itinerary.Some? && r.id == t.id
    ensures |r.itinerary.value| == |t.itinerary.GetOr([])|
    ensures forall i | 0 <= i < |t.itinerary.GetOr([])| ::
      r.itinerary.value[i] == (if t.itinerary.GetOr([])[i].id == a.id then a.(completed := !a.completed)
                               else t.itinerary.GetOr([])[i])
  {
    t.(itinerary := Some(Replace(t.itinerary.GetOr([]), (x: TravelActivity) => x.id == a.id, a.(completed := !a.completed))))
  }

  /** Ids within the itinerary are distinct. */
  predicate UniqueIds(xs: seq<TravelActivity>) {
    forall i, j | 0 <= i < j < |xs| :: xs[i].id != xs[j].id
  }

  /** Ticking an activity off and then ticking the updated activity again gives
      the itinerary back. */
  lemma ToggleTwice(t: Travel, k: int)
    requires t.itinerary.Some? && UniqueIds(t.itinerary.value) && 0 <= k < |t.itinerary.value|
    ensures var a := t.itinerary.value[k];
      var once := ToggleComplete(t, a);
      ToggleComplete(once, once.itinerary.value[k]).itinerary == t.itinerary
  {
    var it := t.itinerary.value;
    var a := it[k];
    var once := ToggleComplete(t, a);
    var twice := ToggleComplete(once, once.itinerary.value[k]).itinerary.value;
    forall i | 0 <= i < |it| ensures twice[i] == it[i] {
      if i != k {
        assert it[i].id != a.id;
      }
    }
    assert twice == it;
  }

  // ------------------------------------------------------------------ persist

  /** The component's `saveTravel`: in the stored list every travel with the
      trip's id becomes the trip. The list keeps its length, so a trip that is
      not stored is not added; other keys are unchanged. */
  function PersistTravel(s: Store, t: Travel): (r: Store)
    ensures |LoadTravels(r)| == |LoadTravels(s)|
    ensures forall i | 0 <= i < |LoadTravels(s)| ::
      LoadTravels(r)[i] == (if LoadTravels(s)[i].id == t.id then t else LoadTravels(s)[i])
    ensures forall k | k != TravelsKey :: Get(r, k) == Get(s, k)
  {
    SaveTravels(s, Replace(LoadTravels(s), (x: Travel) => x.id == t.id, t))
  }

  /** Persisting a trip whose id is not stored writes the same list back. */
  lemma PersistAbsentTrip(s: Store, t: Travel)
    requires forall i | 0 <= i < |LoadTravels(s)| :: LoadTravels(s)[i].id != t.id
    ensures LoadTravels(PersistTravel(s, t)) == LoadTravels(s)
  {
  }

  /** `handleAddActivity` as a whole: the store is unchanged when the handler
      returns early; otherwise only the stored trips with `t`'s id change (see
      `HandleAddActivityStored`), and the list keeps its length. */
  function HandleAddActivity(
    s: Store, t: Travel, selectedDay: Option<int>, d: ActivityDraft, editing: Option<TravelActivity>, now: int): (r: Store)
    ensures selectedDay.None? || d.title == "" || d.location == "" ==> r == s
    ensures forall k | k != TravelsKey :: Get(r, k) == Get(s, k)
    ensures |LoadTravels(r)| == |LoadTravels(s)|
    ensures forall i | 0 <= i < |LoadTravels(s)| && LoadTravels(s)[i].id != t.id ::
      LoadTravels(r)[i] == LoadTravels(s)[i]
  {
    match AddActivity(t, selectedDay, d, editing, now)
    case None => s
    case Some(t2) => PersistTravel(s, t2)
  }

  /** After `handleAddActivity` with a day, a title and a location, every stored
      trip with `t`'s id is `t` with its itinerary updated: the built activity
      appended, or, when editing, put in place of each activity with the edited
      id, the others and the length unchanged. */
  lemma HandleAddActivityStored(
    s: Store, t: Travel, day: int, d: ActivityDraft, editing: Option<TravelActivity>, now: int, i: int)
    requires d.title != "" && d.location != ""
    requires 0 <= i < |LoadTravels(s)| && LoadTravels(s)[i].id == t.id
    ensures var u := LoadTravels(HandleAddActivity(s, t, Some(day), d, editing, now))[i];
      var it := t.itinerary.GetOr([]);
      && u.itinerary.Some?
      && u == t.(itinerary := u.itinerary)
      && (editing.None? ==> u.itinerary.value == it + [BuildActivity(day, d, None, now)])
      && (editing.Some? ==>
            && |u.itinerary.value| == |it|
            && forall j | 0 <= j < |it| ::
                 u.itinerary.value[j] == if it[j].id == editing.value.id then BuildActivity(day, d, editing, now) else it[j])
  {
    var t2 := AddActivity(t, Some(day), d, editing, now).value;
    assert LoadTravels(HandleAddActivity(s, t, Some(day), d, editing, now))[i] == t2;
  }

  // ------------------------------------------------------------------- labels

  /** `getCategoryLabel(category)`. */
  function CategoryLabel(category: string): (r: string)
    ensures r in {"Passeio", "Refeição", "Transporte", "Hospedagem", "Outro"}
    ensures r == "Outro" <==> category !in {"passeio", "refeicao", "transporte", "hospedagem"}
  {
    match category
    case "passeio" => "Passeio"
    case "refeicao" => "Refeição"
    case "transporte" => "Transporte"
    case "hospedagem" => "Hospedagem"
    case _ => "Outro"
  }

  /** Each known category has its own label, the `outro` category and any
      unknown text read "Outro". */
  lemma CategoryLabels(c: ActivityCategory, other: string)
    requires other !in {"passeio", "refeicao", "transporte", "hospedagem"}
    ensures CategoryLabel(other) == "Outro"
    ensures CategoryLabel(c.Id()) == match c
      case Passeio => "Passeio"
      case Refeicao => "Refeição"
      case Transporte => "Transporte"
      case Hospedagem => "Hospedagem"
      case Outro => "Outro"
  {
  }
}
