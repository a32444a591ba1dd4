/**
 * The drag-and-drop reassignment rule of the calendar board
 * (`handleDragEnd`, src/app/components/Calendar.tsx lines 34-71).
 *
 * A drop names the dragged event's id and, when the pointer was released over a day
 * column, that column's date key. The handler looks the id up by scanning every date
 * of the store, then removes every event with that id from the date where it was found
 * and appends the found event to the end of the target date's list, creating that list
 * when the date has none. A drop outside every column, or an id no date holds, changes
 * nothing.
 */
module Calendar {
  import opened Wrappers
  import opened Events

  /** A finished drag: the dragged card's id and the date key it was dropped on, if any. */
  datatype Drag = Drag(activeId: string, over: Option<string>)

  /** Where the lookup found the dragged event: its date and the event itself. */
  datatype Found = Found(date: string, event: Event)

  /** `dateEvents.find(e => e.id === id)`: the first event of `list` whose id is `id`. */
  function FindById(list: seq<Event>, id: string): (r: Option<Event>)
    ensures r.None? <==> CountOf(list, id) == 0
    ensures r.Some? ==> r.value in list && r.value.id == id
  {
    if list == [] then None
    else if list[0].id == id then Some(list[0])
    else FindById(list[1..], id)
  }

  /** `find` returns the first match: the event at the first index holding `id`. */
  lemma {:induction false} FindByIdIsFirst(list: seq<Event>, id: string, k: nat)
    requires k < |list| && list[k].id == id
    requires forall j :: 0 <= j < k ==> list[j].id != id
    ensures FindById(list, id) == Some(list[k])
  {
    if k > 0 {
      FindByIdIsFirst(list[1..], id, k - 1);
    }
  }

  /**
   * The lookup of lines 42-50 as a value: the first `n` dates of `keys` are visited in
   * order and each one whose list holds `id` overwrites the previous answer, so the answer is the
   * LAST such date, with the first matching event of its list.
   */
  function Locate(m: map<string, seq<Event>>, keys: seq<string>, n: nat, id: string): (r: Option<Found>)
    requires forall k :: k in keys ==> k in m
    requires n <= |keys|
    ensures r.None? <==> forall i :: 0 <= i < n ==> CountOf(m[keys[i]], id) == 0
    ensures r.Some? ==> r.value.date in keys && FindById(m[r.value.date], id) == Some(r.value.event)
  {
    if n == 0 then None
    else
      var date := keys[n - 1];
      match FindById(m[date], id)
      case Some(e) => Some(Found(date, e))
      case None => Locate(m, keys, n - 1, id)
  }

  /** The lookup answers with the last date in key order whose list holds the id. */
  lemma {:induction false} LocateIsLastMatch(m: map<string, seq<Event>>, keys: seq<string>, n: nat, id: string, p: nat)
    requires forall k :: k in keys ==> k in m
    requires p < n <= |keys| && CountOf(m[keys[p]], id) > 0
    requires forall j :: p < j < n ==> CountOf(m[keys[j]], id) == 0
    ensures Locate(m, keys, n, id) == Some(Found(keys[p], FindById(m[keys[p]], id).value))
  {
    if p < n - 1 {
      assert FindById(m[keys[n - 1]], id).None?;
      LocateIsLastMatch(m, keys, n - 1, id, p);
    }
  }

  /** `draggedEvent`/`sourceDate` after the scan agree with `loc` ('' and null when nothing was found). */
  predicate Reports(loc: Option<Found>, draggedEvent: Option<Event>, sourceDate: string) {
    match loc
    case None => draggedEvent == None && sourceDate == ""
    case Some(f) => draggedEvent == Some(f.event) && sourceDate == f.date
  }

  /** The `Object.entries(events).forEach` scan of lines 42-50. */
  method FindDragged(events: Store, eventId: string) returns (draggedEvent: Option<Event>, sourceDate: string)
    requires events.Valid()
    ensures Reports(Locate(events.byDate, events.keys, |events.keys|, eventId), draggedEvent, sourceDate)
  {
    draggedEvent, sourceDate := None, "";
    for i := 0 to |events.keys|
      invariant Reports(Locate(events.byDate, events.keys, i, eventId), draggedEvent, sourceDate)
    {
      var date := events.keys[i];
      var found := FindById(events.byDate[date], eventId);
      if found.Some? {
        draggedEvent := found;
        sourceDate := date;
      }
    }
  }

  /** `list.filter(e => e.id !== id)`: the events of `list` without `id`, in their order. */
  function Without(list: seq<Event>, id: string): (r: seq<Event>)
    ensures |r| + CountOf(list, id) == |list|
  {
    if list == [] then []
    else (if list[0].id == id then [] else [list[0]]) + Without(list[1..], id)
  }

  /** The filtered list keeps exactly the events of `list` whose id is not `id`. */
  lemma {:induction false} WithoutMembers(list: seq<Event>, id: string)
    ensures forall e :: e in Without(list, id) <==> e in list && e.id != id
  {
    if list != [] {
      WithoutMembers(list[1..], id);
      assert forall e :: e in list <==> e == list[0] || e in list[1..];
    }
  }

  /** Filtering distributes over concatenation: the kept events keep their relative order. */
  lemma {:induction false} WithoutAppend(a: seq<Event>, b: seq<Event>, id: string)
    ensures Without(a + b, id) == Without(a, id) + Without(b, id)
  {
    if a == [] {
      assert a + b == b;
    } else {
      assert (a + b)[1..] == a[1..] + b;
      WithoutAppend(a[1..], b, id);
    }
  }

  /** A list without `id` is left as it is. */
  lemma {:induction false} WithoutAbsent(list: seq<Event>, id: string)
    requires CountOf(list, id) == 0
    ensures Without(list, id) == list
  {
    if list != [] {
      WithoutAbsent(list[1..], id);
    }
  }

  /** When `id` sits only at index `k`, filtering it out removes just that element. */
  lemma {:induction false} WithoutOnly(list: seq<Event>, id: string, k: nat)
    requires k < |list| && list[k].id == id && CountOf(list, id) == 1
    ensures Without(list, id) == list[..k] + list[k + 1..]
  {
    var rest := list[1..];
    if k == 0 {
      WithoutAbsent(rest, id);
      assert list[..0] + list[1..] == rest;
    } else {
      CountOfOne(list, id, k);
      WithoutOnly(rest, id, k - 1);
      assert list[..k] == [list[0]] + rest[..k - 1];
      assert rest[k..] == list[k + 1..];
    }
  }

  /** Filtering `id` out leaves the count of every other id alone. */
  lemma {:induction false} CountOfWithout(list: seq<Event>, id: string, x: string)
    ensures CountOf(Without(list, id), x) == if x == id then 0 else CountOf(list, x)
  {
    if list != [] {
      CountOfWithout(list[1..], id, x);
      var head := if list[0].id == id then [] else [list[0]];
      CountOfAppend(head, Without(list[1..], id), x);
      if head != [] {
        CountOfSingleton(list[0], x);
      }
    }
  }

  /**
   * The state updater of lines 55-70: the shallow copy of the store with `id` filtered
   * out of `source`, a list created for `target` if it has none (a new key goes last in
   * key order), and `e` appended to `target`.
   */
  function MoveEvent(s: Store, id: string, source: string, e: Event, target: string): (r: Store)
    requires s.Valid() && source in s.byDate
    ensures r.Valid() && r.byDate.Keys == s.byDate.Keys + {target}
    ensures r.keys == if target in s.byDate then s.keys else s.keys + [target]
  {
    var removed := s.byDate[source := Without(s.byDate[source], id)];
    var withTarget := if target in removed then removed else removed[target := []];
    var keys := if target in removed then s.keys else s.keys + [target];
    Store(withTarget[target := withTarget[target] + [e]], keys)
  }

  /** `handleDragEnd` as one transition of the store. */
  function Reassign(s: Store, activeId: string, over: Option<string>): (r: Store)
    requires s.Valid()
    ensures r.Valid() && s.keys <= r.keys && |r.keys| <= |s.keys| + 1
  {
    match over
    case None => s
    case Some(target) =>
      match Locate(s.byDate, s.keys, |s.keys|, activeId)
      case None => s
      case Some(found) => MoveEvent(s, activeId, found.date, found.event, target)
  }

  /** `handleDragEnd` (lines 34-71): scan for the dragged event, then move it in a copy of the store. */
  method HandleDragEnd(events: Store, activeId: string, over: Option<string>) returns (next: Store)
    requires events.Valid()
    ensures next == Reassign(events, activeId, over)
  {
    if over.None? {
      return events;
    }
    var eventId, targetDate := activeId, over.value;
    var draggedEvent, sourceDate := FindDragged(events, eventId);
    if draggedEvent.None? {
      return events;
    }
    var newEvents := events.byDate;
    var keys := events.keys;
    newEvents := newEvents[sourceDate := Without(newEvents[sourceDate], eventId)];
    if targetDate !in newEvents {
      newEvents := newEvents[targetDate := []];
      keys := keys + [targetDate];
    }
    newEvents := newEvents[targetDate := newEvents[targetDate] + [draggedEvent.value]];
    next := Store(newEvents, keys);
  }

  /** Drops that find nothing to move: no target, or no date holds the id. The store is unchanged. */
  lemma ReassignAborts(s: Store, activeId: string, over: Option<string>)
    requires s.Valid()
    requires over.None? || forall k :: k in s.byDate ==> CountOf(s.byDate[k], activeId) == 0
    ensures Reassign(s, activeId, over) == s
  {
    if over.Some? {
      assert forall i :: 0 <= i < |s.keys| ==> s.keys[i] in s.byDate;
    }
  }

  /** A found event carries the dragged id and sits in the list of the date it was found at. */
  lemma LocateFindsEvent(s: Store, id: string, source: string, e: Event)
    requires s.Valid()
    requires Locate(s.byDate, s.keys, |s.keys|, id) == Some(Found(source, e))
    ensures source in s.byDate && e in s.byDate[source] && e.id == id
    ensures CountOf(s.byDate[source], id) > 0
  {
    CountOfPositive(s.byDate[source], id);
  }

  /** After a move to another date, the source list holds no event with the id and keeps the rest in order. */
  lemma ReassignEmptiesSource(s: Store, id: string, target: string, source: string, e: Event)
    requires s.Valid()
    requires Locate(s.byDate, s.keys, |s.keys|, id) == Some(Found(source, e)) && source != target
    ensures var r := Reassign(s, id, Some(target));
      && source in r.byDate
      && r.byDate[source] == Without(s.byDate[source], id)
      && CountOf(r.byDate[source], id) == 0
  {
    CountOfWithout(s.byDate[source], id, id);
  }

  /**
   * After a move, the target list is what it held before (nothing for a new date; the
   * filtered list when the target is the source) followed by the dragged event as its last element.
   */
  lemma ReassignAppendsToTarget(s: Store, id: string, target: string, source: string, e: Event)
    requires s.Valid()
    requires Locate(s.byDate, s.keys, |s.keys|, id) == Some(Found(source, e))
    ensures var r := Reassign(s, id, Some(target));
      && target in r.byDate && |r.byDate[target]| > 0
      && r.byDate[target][|r.byDate[target]| - 1] == e && e.id == id
      && r.byDate[target][..|r.byDate[target]| - 1]
         == (if target == source then Without(s.byDate[source], id) else EventsOn(s, target))
  {
    LocateFindsEvent(s, id, source, e);
    var r := Reassign(s, id, Some(target));
    assert r.byDate[target][..|r.byDate[target]| - 1] + [e] == r.byDate[target];
  }

  /** A target date with no list before gets a list of just the dragged event, and its key goes last. */
  lemma ReassignCreatesTarget(s: Store, id: string, target: string, source: string, e: Event)
    requires s.Valid()
    requires Locate(s.byDate, s.keys, |s.keys|, id) == Some(Found(source, e)) && target !in s.byDate
    ensures var r := Reassign(s, id, Some(target));
      r.byDate[target] == [e] && r.keys == s.keys + [target]
  {
    LocateFindsEvent(s, id, source, e);
  }

  /** Every date other than the source and the target keeps its list, and no key is lost. */
  lemma ReassignKeepsOthers(s: Store, id: string, target: string, source: string, e: Event)
    requires s.Valid()
    requires Locate(s.byDate, s.keys, |s.keys|, id) == Some(Found(source, e))
    ensures var r := Reassign(s, id, Some(target));
      && r.byDate.Keys == s.byDate.Keys + {target}
      && (forall k :: k in s.byDate && k != source && k != target ==> r.byDate[k] == s.byDate[k])
      && (target in s.byDate ==> r.keys == s.keys)
  {
    LocateFindsEvent(s, id, source, e);
    assert Reassign(s, id, Some(target)) == MoveEvent(s, id, source, e, target);
    MoveEventFrame(s, id, source, e, target);
  }

  lemma MoveEventFrame(s: Store, id: string, source: string, e: Event, target: string)
    requires s.Valid() && source in s.byDate
    ensures var r := MoveEvent(s, id, source, e, target);
      && r.byDate.Keys == s.byDate.Keys + {target}
      && (forall k :: k in s.byDate && k != source && k != target ==> r.byDate[k] == s.byDate[k])
      && (target in s.byDate ==> r.keys == s.keys)
  {
    var removed := s.byDate[source := Without(s.byDate[source], id)];
    assert removed.Keys == s.byDate.Keys;
    var withTarget := if target in removed then removed else removed[target := []];
    assert withTarget.Keys == s.byDate.Keys + {target};
  }

  lemma WeightAppend(list: seq<Event>, e: Event, what: Measure)
    ensures Weight(list + [e], what) == Weight(list, what) + Weight([e], what)
  {
    if what.WithId? {
      CountOfAppend(list, [e], what.id);
    }
  }

  /** How a move changes any sum over the store: the source list is replaced, the event added. */
  lemma SumAfterMove(s: Store, id: string, source: string, e: Event, target: string, what: Measure)
    requires s.Valid() && source in s.byDate
    ensures var r := MoveEvent(s, id, source, e, target);
      Sum(r.byDate, r.keys, what) + Weight(s.byDate[source], what)
      == Sum(s.byDate, s.keys, what) + Weight(Without(s.byDate[source], id), what) + Weight([e], what)
  {
    var filtered := Without(s.byDate[source], id);
    var removed := s.byDate[source := filtered];
    var r := MoveEvent(s, id, source, e, target);
    if target in s.byDate {
      assert r == Store(removed[target := removed[target] + [e]], s.keys);
    } else {
      assert removed[target := []][target] + [e] == [e];
      assert r == Store(removed[target := [e]], s.keys + [target]);
    }
    SumMoved(s, source, filtered, target, e, what);
  }

  /** The sums of the state updater's map: `filtered` replaces the source list and `e` joins the target. */
  lemma SumMoved(s: Store, source: string, filtered: seq<Event>, target: string, e: Event, what: Measure)
    requires s.Valid() && source in s.byDate
    ensures var removed := s.byDate[source := filtered];
      var after := if target in s.byDate then removed[target := removed[target] + [e]] else removed[target := [e]];
      var keys := if target in s.byDate then s.keys else s.keys + [target];
      (forall k :: k in keys ==> k in after)
      && Sum(after, keys, what) + Weight(s.byDate[source], what)
         == Sum(s.byDate, s.keys, what) + Weight(filtered, what) + Weight([e], what)
  {
    var m, keys := s.byDate, s.keys;
    var removed := m[source := filtered];
    SumUpdate(m, keys, source, filtered, what);
    assert Sum(removed, keys, what) + Weight(m[source], what) == Sum(m, keys, what) + Weight(filtered, what);
    if target in m {
      WeightAppend(removed[target], e, what);
      SumUpdate(removed, keys, target, removed[target] + [e], what);
    } else {
      var after := removed[target := [e]];
      SumOtherKey(removed, keys, target, [e], what);
      SumAppendKey(after, keys, target, what);
    }
  }

  /** A positive sum has a key whose list weighs something. */
  lemma {:induction false} PositiveSumKey(m: map<string, seq<Event>>, keys: seq<string>, what: Measure) returns (i: nat)
    requires forall k :: k in keys ==> k in m
    requires Sum(m, keys, what) > 0
    ensures i < |keys| && Weight(m[keys[i]], what) > 0
  {
    if Weight(m[keys[|keys| - 1]], what) > 0 {
      i := |keys| - 1;
    } else {
      i := PositiveSumKey(m, keys[..|keys| - 1], what);
    }
  }

  /**
   * Every drop keeps ids unique when they were unique: each id occurs as often as before
   * and the number of events stays the same.
   */
  lemma ReassignKeepsUnique(s: Store, id: string, over: Option<string>)
    requires UniqueIds(s)
    ensures var r := Reassign(s, id, over);
      && UniqueIds(r)
      && Total(r) == Total(s)
      && forall x :: Occurrences(r, x) == Occurrences(s, x)
  {
    var loc := Locate(s.byDate, s.keys, |s.keys|, id);
    if over.Some? && loc.Some? {
      var source, e, target := loc.value.date, loc.value.event, over.value;
      LocateFindsEvent(s, id, source, e);
      UniqueIdsOnePlace(s, source, source, id);
      MoveKeepsCounts(s, id, source, e, target);
    }
  }

  /** Moving an event whose id occurs once at `source` keeps every id's count and the total. */
  lemma MoveKeepsCounts(s: Store, id: string, source: string, e: Event, target: string)
    requires s.Valid() && source in s.byDate
    requires e.id == id && CountOf(s.byDate[source], id) == 1
    ensures var r := MoveEvent(s, id, source, e, target);
      && Total(r) == Total(s)
      && forall x :: Occurrences(r, x) == Occurrences(s, x)
  {
    SumAfterMove(s, id, source, e, target, AllEvents);
    forall x
      ensures Occurrences(MoveEvent(s, id, source, e, target), x) == Occurrences(s, x)
    {
      MoveKeepsCount(s, id, source, e, target, x);
    }
  }

  lemma MoveKeepsCount(s: Store, id: string, source: string, e: Event, target: string, x: string)
    requires s.Valid() && source in s.byDate
    requires e.id == id && CountOf(s.byDate[source], id) == 1
    ensures Occurrences(MoveEvent(s, id, source, e, target), x) == Occurrences(s, x)
  {
    var list := s.byDate[source];
    var r := MoveEvent(s, id, source, e, target);
    SumAfterMove(s, id, source, e, target, WithId(x));
    var before, after := Occurrences(s, x), Occurrences(r, x);
    assert after + CountOf(list, x) == before + CountOf(Without(list, id), x) + CountOf([e], x);
    CountOfWithout(list, id, x);
    CountOfSingleton(e, x);
  }

  /** With unique ids, a dragged id that is in the store ends up exactly once, under the target. */
  lemma ReassignPlacesOnce(s: Store, id: string, target: string)
    requires UniqueIds(s) && Occurrences(s, id) == 1
    ensures var r := Reassign(s, id, Some(target));
      && Occurrences(r, id) == 1
      && target in r.byDate && CountOf(r.byDate[target], id) == 1
      && forall k :: k in r.byDate && k != target ==> CountOf(r.byDate[k], id) == 0
  {
    var r := Reassign(s, id, Some(target));
    var p := PositiveSumKey(s.byDate, s.keys, WithId(id));
    assert Locate(s.byDate, s.keys, |s.keys|, id).Some?;
    var source, e := Locate(s.byDate, s.keys, |s.keys|, id).value.date, Locate(s.byDate, s.keys, |s.keys|, id).value.event;
    ReassignKeepsUnique(s, id, Some(target));
    ReassignAppendsToTarget(s, id, target, source, e);
    var list := r.byDate[target];
    assert list == list[..|list| - 1] + [e];
    CountOfAppend(list[..|list| - 1], [e], id);
    CountOfSingleton(e, id);
    WeightBelowSum(r.byDate, r.keys, target, WithId(id));
    forall k | k in r.byDate && k != target
      ensures CountOf(r.byDate[k], id) == 0
    {
      TwoWeightsBelowSum(r.byDate, r.keys, target, k, WithId(id));
    }
  }

  /**
   * Dropping an event on its own date moves it to the end of that date's list; the other
   * events of the date keep their order and the rest of the store is unchanged.
   */
  lemma ReassignToOwnDate(s: Store, date: string, k: nat)
    requires UniqueIds(s) && date in s.byDate && k < |s.byDate[date]|
    ensures var list := s.byDate[date]; var r := Reassign(s, list[k].id, Some(date));
      r == Store(s.byDate[date := list[..k] + list[k + 1..] + [list[k]]], s.keys)
  {
    var list := s.byDate[date];
    var id := list[k].id;
    LocateUnique(s, date, k);
    UniqueIdsOnePlace(s, date, date, id);
    WithoutOnly(list, id, k);
  }

  /** With unique ids, the lookup of an event's id finds that event at its date. */
  lemma LocateUnique(s: Store, date: string, k: nat)
    requires UniqueIds(s) && date in s.byDate && k < |s.byDate[date]|
    ensures Locate(s.byDate, s.keys, |s.keys|, s.byDate[date][k].id) == Some(Found(date, s.byDate[date][k]))
  {
    var list := s.byDate[date];
    var id := list[k].id;
    CountOfPositive(list, id);
    UniqueIdsOnePlace(s, date, date, id);
    var p :| 0 <= p < |s.keys| && s.keys[p] == date;
    forall j | p < j < |s.keys|
      ensures CountOf(s.byDate[s.keys[j]], id) == 0
    {
      UniqueIdsOnePlace(s, date, s.keys[j], id);
    }
    LocateIsLastMatch(s.byDate, s.keys, |s.keys|, id, p);
    CountOfOne(list, id, k);
    FindByIdIsFirst(list, id, k);
  }

  /** `[e1, e2]` with `e1` dropped back on its own date becomes `[e2, e1]`. */
  lemma SelfMoveExample(date: string, e1: Event, e2: Event)
    requires e1.id != e2.id
    ensures var s := Store(map[date := [e1, e2]], [date]);
      Reassign(s, e1.id, Some(date)).byDate[date] == [e2, e1]
  {
    var s := Store(map[date := [e1, e2]], [date]);
    assert UniqueIds(s) by {
      forall id
        ensures Occurrences(s, id) <= 1
      {
        assert s.keys[..0] == [] && s.keys[0] == date;
        assert Occurrences(s, id) == Sum(s.byDate, [], WithId(id)) + Weight([e1, e2], WithId(id));
        assert [e1] + [e2] == [e1, e2];
        CountOfAppend([e1], [e2], id);
        CountOfSingleton(e1, id);
        CountOfSingleton(e2, id);
      }
    }
    ReassignToOwnDate(s, date, 0);
    assert [e1, e2][..0] + [e1, e2][1..] + [e1] == [e2, e1];
  }

  // ---------------------------------------------------------------------------------------
  // The store over a session: seeded from `events` (line 12), then one transition per drop.

  /** The store after the drops `drags`, in order, starting from `s`. */
  function Replay(s: Store, drags: seq<Drag>): (r: Store)
    requires s.Valid()
    ensures r.Valid() && s.keys <= r.keys && |r.keys| <= |s.keys| + |drags|
    decreases |drags|
  {
    if drags == [] then s
    else Replay(Reassign(s, drags[0].activeId, drags[0].over), drags[1..])
  }

  /** Any sequence of drops keeps ids unique and keeps the number of events. */
  lemma {:induction false} ReplayKeepsUnique(s: Store, drags: seq<Drag>)
    requires UniqueIds(s)
    ensures UniqueIds(Replay(s, drags)) && Total(Replay(s, drags)) == Total(s)
    decreases |drags|
  {
    if drags != [] {
      var next := Reassign(s, drags[0].activeId, drags[0].over);
      ReassignKeepsUnique(s, drags[0].activeId, drags[0].over);
      ReplayKeepsUnique(next, drags[1..]);
      assert Replay(s, drags) == Replay(next, drags[1..]);
    }
  }

  /** Every store a session can reach from the seed has unique ids and exactly five events. */
  lemma ReachableFromSeed(drags: seq<Drag>)
    ensures UniqueIds(Replay(Seed(), drags)) && Total(Replay(Seed(), drags)) == 5
  {
    SeedUnique();
    SeedShape();
    ReplayKeepsUnique(Seed(), drags);
  }

  /**
   * From the seed, dropping `event-1` on 2025-04-01 empties 2025-03-31 and leaves
   * `[event-2, event-1]` on 2025-04-01; the other dates and the key order are unchanged.
   */
  lemma SeedMoveExample()
    ensures var r := Reassign(Seed(), "event-1", Some("2025-04-01"));
      && EventsOn(r, "2025-03-31") == []
      && EventsOn(r, "2025-04-01") == [Event2, Event1]
      && r.keys == SeedKeys
      && forall k :: k != "2025-03-31" && k != "2025-04-01" ==> EventsOn(r, k) == EventsOn(Seed(), k)
  {
    SeedLayoutMove(Event1, Event2, Event3, Event4, Event5);
  }

  lemma SeedLayoutMove(e1: Event, e2: Event, e3: Event, e4: Event, e5: Event)
    requires SeedIds(e1, e2, e3, e4, e5)
    ensures var s := SeedLayout(e1, e2, e3, e4, e5); var r := Reassign(s, "event-1", Some("2025-04-01"));
      && EventsOn(r, "2025-03-31") == []
      && EventsOn(r, "2025-04-01") == [e2, e1]
      && r.keys == SeedKeys
      && forall k :: k != "2025-03-31" && k != "2025-04-01" ==> EventsOn(r, k) == EventsOn(s, k)
  {
    var s := SeedLayout(e1, e2, e3, e4, e5);
    SeedLayoutUnique(e1, e2, e3, e4, e5);
    var source, target := SeedKeys[0], SeedKeys[1];
    assert source != target by {
      assert source[6] != target[6];
    }
    LocateUnique(s, source, 0);
    MoveToOtherDateExample(s, e1, e2, source, target);
  }

  /** Dropping the only event of `source` on a date whose list is `[e2]`. */
  lemma MoveToOtherDateExample(s: Store, e1: Event, e2: Event, source: string, target: string)
    requires s.Valid() && source != target
    requires source in s.byDate && s.byDate[source] == [e1]
    requires target in s.byDate && s.byDate[target] == [e2]
    requires Locate(s.byDate, s.keys, |s.keys|, e1.id) == Some(Found(source, e1))
    ensures var r := Reassign(s, e1.id, Some(target));
      && EventsOn(r, source) == []
      && EventsOn(r, target) == [e2, e1]
      && r.keys == s.keys
      && forall k :: k != source && k != target ==> EventsOn(r, k) == EventsOn(s, k)
  {
    var r := Reassign(s, e1.id, Some(target));
    assert [e1][1..] == [];
    ReassignEmptiesSource(s, e1.id, target, source, e1);
    ReassignAppendsToTarget(s, e1.id, target, source, e1);
    ReassignKeepsOthers(s, e1.id, target, source, e1);
    var list := r.byDate[target];
    assert list == list[..|list| - 1] + [list[|list| - 1]];
  }
}
