/**
 * The calendar's event store and its seed (src/app/data/events.ts).
 *
 * The store is the source's `EventsByDate`: a JavaScript object from a date key to the
 * ordered list of that day's events. A JavaScript object also has an own-key order,
 * which `Object.entries` follows (insertion order, for keys such as dates that are not
 * array indices); the model keeps it as the sequence `keys`.
 */
module Events {
  import opened DateKeys

  /** An event; the store only ever looks at `id`, the other fields are display text. */
  datatype Event = Event(id: string, title: string, description: string, imageUrl: string, time: string)

  datatype Store = Store(byDate: map<string, seq<Event>>, keys: seq<string>) {

    /** `keys` lists every key of `byDate` exactly once. */
    predicate Valid() {
      && (forall i, j :: 0 <= i < j < |keys| ==> keys[i] != keys[j])
      && (forall k :: k in byDate ==> k in keys)
      && (forall k :: k in keys ==> k in byDate)
    }
  }

  /**
   * The events shown in the column of `date` (`events[key]?.map(...)`, Calendar.tsx line
   * 123): its list, or none when the key is absent. A column never shows more events than
   * the store holds.
   */
  function EventsOn(s: Store, date: string): (r: seq<Event>)
    ensures date in s.byDate ==> r == s.byDate[date]
    ensures r != [] ==> date in s.byDate
    ensures s.Valid() ==> |r| <= Total(s)
  {
    if date !in s.byDate then []
    else if s.Valid() then WeightBelowSum(s.byDate, s.keys, date, AllEvents); s.byDate[date]
    else s.byDate[date]
  }

  /** How many events of `list` carry `id`. */
  function CountOf(list: seq<Event>, id: string): nat {
    if list == [] then 0 else (if list[0].id == id then 1 else 0) + CountOf(list[1..], id)
  }

  lemma {:induction false} CountOfAppend(a: seq<Event>, b: seq<Event>, id: string)
    ensures CountOf(a + b, id) == CountOf(a, id) + CountOf(b, id)
  {
    if a != [] {
      assert (a + b)[1..] == a[1..] + b;
      CountOfAppend(a[1..], b, id);
    } else {
      assert a + b == b;
    }
  }

  lemma CountOfSingleton(e: Event, id: string)
    ensures CountOf([e], id) == if e.id == id then 1 else 0
  {
    assert [e][1..] == [];
  }

  lemma {:induction false} CountOfPositive(list: seq<Event>, id: string)
    ensures CountOf(list, id) > 0 <==> exists e :: e in list && e.id == id
  {
    if list != [] {
      CountOfPositive(list[1..], id);
      assert forall e :: e in list <==> e == list[0] || e in list[1..];
    }
  }

  /** An id counted once occurs at exactly one index. */
  lemma {:induction false} CountOfOne(list: seq<Event>, id: string, k: nat)
    requires k < |list| && list[k].id == id && CountOf(list, id) == 1
    ensures forall j :: 0 <= j < |list| && j != k ==> list[j].id != id
  {
    var rest := list[1..];
    if k == 0 {
      forall j | 0 < j < |list|
        ensures list[j].id != id
      {
        CountOfPositive(rest, id);
        assert list[j] == rest[j - 1];
      }
    } else {
      CountOfPositive(rest, id);
      assert rest[k - 1] in rest;
      CountOfOne(rest, id, k - 1);
      forall j | 0 < j < |list| && j != k
        ensures list[j].id != id
      {
        assert list[j] == rest[j - 1];
      }
    }
  }

  /** What is summed over the dates of a store: all events, or only those with one id. */
  datatype Measure = AllEvents | WithId(id: string)

  function Weight(list: seq<Event>, what: Measure): nat {
    match what
    case AllEvents => |list|
    case WithId(id) => CountOf(list, id)
  }

  /** The sum of `Weight` over the lists of `keys`, in order. */
  function Sum(m: map<string, seq<Event>>, keys: seq<string>, what: Measure): nat
    requires forall k :: k in keys ==> k in m
  {
    if keys == [] then 0
    else Sum(m, keys[..|keys| - 1], what) + Weight(m[keys[|keys| - 1]], what)
  }

  /** Number of events in the whole store. */
  function Total(s: Store): nat
    requires s.Valid()
  {
    Sum(s.byDate, s.keys, AllEvents)
  }

  /** Number of events with `id` in the whole store. */
  function Occurrences(s: Store, id: string): nat
    requires s.Valid()
  {
    Sum(s.byDate, s.keys, WithId(id))
  }

  /** The store's invariant: no id appears twice, under one date or under two. */
  ghost predicate UniqueIds(s: Store) {
    s.Valid() && forall id :: Occurrences(s, id) <= 1
  }

  /** Changing the list of a key that is not summed leaves the sum alone. */
  lemma {:induction false} SumOtherKey(m: map<string, seq<Event>>, keys: seq<string>, k: string, v: seq<Event>, what: Measure)
    requires forall x :: x in keys ==> x in m
    requires k !in keys
    ensures Sum(m[k := v], keys, what) == Sum(m, keys, what)
  {
    if keys != [] {
      SumOtherKey(m, keys[..|keys| - 1], k, v, what);
    }
  }

  /** Changing the list of one summed key changes the sum by the change of that list's weight. */
  lemma {:induction false} SumUpdate(m: map<string, seq<Event>>, keys: seq<string>, k: string, v: seq<Event>, what: Measure)
    requires forall x :: x in keys ==> x in m
    requires forall i, j :: 0 <= i < j < |keys| ==> keys[i] != keys[j]
    requires k in keys
    ensures Sum(m[k := v], keys, what) + Weight(m[k], what) == Sum(m, keys, what) + Weight(v, what)
  {
    var init := keys[..|keys| - 1];
    if keys[|keys| - 1] == k {
      assert k !in init;
      SumOtherKey(m, init, k, v, what);
    } else {
      assert k in init;
      SumUpdate(m, init, k, v, what);
    }
  }

  /** Adding a key at the end adds the weight of its list. */
  lemma SumAppendKey(m: map<string, seq<Event>>, keys: seq<string>, k: string, what: Measure)
    requires forall x :: x in keys ==> x in m
    requires k in m
    ensures Sum(m, keys + [k], what) == Sum(m, keys, what) + Weight(m[k], what)
  {
    assert (keys + [k])[..|keys|] == keys;
  }

  /** No single list weighs more than the whole sum. */
  lemma WeightBelowSum(m: map<string, seq<Event>>, keys: seq<string>, k: string, what: Measure)
    requires forall x :: x in keys ==> x in m
    requires forall i, j :: 0 <= i < j < |keys| ==> keys[i] != keys[j]
    requires k in keys
    ensures Weight(m[k], what) <= Sum(m, keys, what)
  {
    SumUpdate(m, keys, k, [], what);
  }

  /** Two different lists together weigh no more than the whole sum. */
  lemma TwoWeightsBelowSum(m: map<string, seq<Event>>, keys: seq<string>, a: string, b: string, what: Measure)
    requires forall x :: x in keys ==> x in m
    requires forall i, j :: 0 <= i < j < |keys| ==> keys[i] != keys[j]
    requires a in keys && b in keys && a != b
    ensures Weight(m[a], what) + Weight(m[b], what) <= Sum(m, keys, what)
  {
    SumUpdate(m, keys, a, [], what);
    WeightBelowSum(m[a := []], keys, b, what);
  }

  /** In a store with unique ids, an id held by one date is held by no other date, and only once. */
  lemma UniqueIdsOnePlace(s: Store, a: string, b: string, id: string)
    requires UniqueIds(s)
    requires a in s.byDate && CountOf(s.byDate[a], id) > 0
    ensures CountOf(s.byDate[a], id) == 1
    ensures b in s.byDate && b != a ==> CountOf(s.byDate[b], id) == 0
  {
    assert Occurrences(s, id) <= 1;
    WeightBelowSum(s.byDate, s.keys, a, WithId(id));
    if b in s.byDate && b != a {
      TwoWeightsBelowSum(s.byDate, s.keys, a, b, WithId(id));
    }
  }

  // ---------------------------------------------------------------------------------------
  // The seed: the `events` literal of src/app/data/events.ts.

  const Event1 := Event("event-1", "Coffee with Alex",
    "Meet with Alex to brainstorm ideas for the upcoming product launch. We'll review market research and competitor analysis to identify potential opportunities and challenges.",
    "https://fastly.picsum.photos/id/312/1920/1080.jpg?hmac=OD_fP9MUQN7uJ8NBR7tlii78qwHPUROGgohG4w16Kjw",
    "09:00 AM")
  const Event2 := Event("event-2", "Team Standup",
    "Weekly standup meeting with the dev team. Discuss progress, blockers, and align on next week's priorities.",
    "http://fastly.picsum.photos/id/737/1920/1080.jpg?hmac=aFzER8Y4wcWTrXVx2wVKSj10IqnygaF33gESj0WGDwI",
    "02:00 PM")
  const Event3 := Event("event-3", "Yoga Session",
    "Join for a relaxing yoga session to reduce stress and improve mindfulness. Suitable for all levels, focusing on gentle stretches.",
    "https://fastly.picsum.photos/id/392/1920/1080.jpg?hmac=Fvbf7C1Rcozg8EccwYPqsGkk_o6Bld2GQRDPZKWpd7g",
    "12:00 PM")
  const Event4 := Event("event-4", "Product Demo",
    "Demo of UI improvements and performance optimizations to gather stakeholder feedback.",
    "https://fastly.picsum.photos/id/638/200/300.jpg?hmac=oYRYfxaIBKyb10YHb6-3AGadeAdyEWX91vrVrqdTnGE",
    "03:30 PM")
  const Event5 := Event("event-5", "Client Meeting",
    "Review project progress, timeline adjustments, and outline roadmap for next quarter with the client.",
    "https://fastly.picsum.photos/id/539/200/200.jpg?hmac=8uIu6eeXIH6tNIHiVORkXIi3GaBh5DO0XR2AXfO7mzA",
    "11:30 AM")

  const SeedKeys: seq<string> := ["2025-03-31", "2025-04-01", "2025-04-02", "2025-04-03", "2025-04-04"]

  /** The initial store, with its keys in the literal's order. */
  function Seed(): Store {
    SeedLayout(Event1, Event2, Event3, Event4, Event5)
  }

  /**
   * The layout of the seed literal: one event per date, dates in the literal's order. It is
   * stated over arbitrary events so that proofs about the layout need not carry the long
   * display strings of the five seed events; `Seed` applies it to those events.
   */
  function SeedLayout(e1: Event, e2: Event, e3: Event, e4: Event, e5: Event): (s: Store)
    ensures s.Valid() && s.keys == SeedKeys
    ensures forall k :: k in s.byDate ==> |s.byDate[k]| == 1
    ensures && s.byDate[s.keys[0]] == [e1] && s.byDate[s.keys[1]] == [e2] && s.byDate[s.keys[2]] == [e3]
            && s.byDate[s.keys[3]] == [e4] && s.byDate[s.keys[4]] == [e5]
  {
    SeedKeysDistinct();
    Store(map["2025-03-31" := [e1], "2025-04-01" := [e2], "2025-04-02" := [e3],
              "2025-04-03" := [e4], "2025-04-04" := [e5]],
          SeedKeys)
  }

  /** The ids the seed gives its five events. */
  predicate SeedIds(e1: Event, e2: Event, e3: Event, e4: Event, e5: Event) {
    e1.id == "event-1" && e2.id == "event-2" && e3.id == "event-3" && e4.id == "event-4" && e5.id == "event-5"
  }

  /** The five seed keys are pairwise different (they differ in the month or the last digit). */
  lemma SeedKeysDistinct()
    ensures forall i, j :: 0 <= i < j < |SeedKeys| ==> SeedKeys[i] != SeedKeys[j]
  {
    forall i, j | 0 <= i < j < |SeedKeys| ensures SeedKeys[i] != SeedKeys[j] {
      assert SeedKeys[i][6] != SeedKeys[j][6] || SeedKeys[i][9] != SeedKeys[j][9];
    }
  }

  /** A sum over the seed layout adds up the weights of its five one-event lists. */
  lemma SeedLayoutSum(e1: Event, e2: Event, e3: Event, e4: Event, e5: Event, what: Measure)
    ensures Sum(SeedLayout(e1, e2, e3, e4, e5).byDate, SeedKeys, what)
      == Weight([e1], what) + Weight([e2], what) + Weight([e3], what) + Weight([e4], what) + Weight([e5], what)
  {
    var m := SeedLayout(e1, e2, e3, e4, e5).byDate;
    var k1, k2, k3, k4 := SeedKeys[..1], SeedKeys[..2], SeedKeys[..3], SeedKeys[..4];
    assert k1[..0] == [] && k2[..1] == k1 && k3[..2] == k2 && k4[..3] == k3 && SeedKeys[..4] == k4;
    assert Sum(m, k1, what) == Weight([e1], what);
    assert Sum(m, k2, what) == Sum(m, k1, what) + Weight([e2], what);
    assert Sum(m, k3, what) == Sum(m, k2, what) + Weight([e3], what);
    assert Sum(m, k4, what) == Sum(m, k3, what) + Weight([e4], what);
  }

  lemma SeedLayoutUnique(e1: Event, e2: Event, e3: Event, e4: Event, e5: Event)
    requires SeedIds(e1, e2, e3, e4, e5)
    ensures UniqueIds(SeedLayout(e1, e2, e3, e4, e5))
  {
    var s := SeedLayout(e1, e2, e3, e4, e5);
    forall id
      ensures Occurrences(s, id) <= 1
    {
      SeedLayoutSum(e1, e2, e3, e4, e5, WithId(id));
      CountOfSingleton(e1, id);
      CountOfSingleton(e2, id);
      CountOfSingleton(e3, id);
      CountOfSingleton(e4, id);
      CountOfSingleton(e5, id);
      assert e1.id[6] == '1' && e2.id[6] == '2' && e3.id[6] == '3' && e4.id[6] == '4' && e5.id[6] == '5';
    }
  }

  /** The seed has five distinct keys, each holding exactly one event: five events in all. */
  lemma SeedShape()
    ensures Seed().Valid() && |Seed().keys| == 5
    ensures forall k :: k in Seed().byDate ==> |Seed().byDate[k]| == 1
    ensures Total(Seed()) == 5
  {
    SeedLayoutSum(Event1, Event2, Event3, Event4, Event5, AllEvents);
  }

  /** Ids `event-1` to `event-5` are pairwise distinct: the seed satisfies the store's invariant. */
  lemma SeedUnique()
    ensures UniqueIds(Seed())
  {
    SeedLayoutUnique(Event1, Event2, Event3, Event4, Event5);
  }

  /** Every seed key is a `yyyy-MM-dd` date key, the formatting of the date it names. */
  lemma SeedKeysAreDates()
    ensures forall k :: k in SeedKeys ==> IsDateKey(k) && DateKey(Year(k), Month(k), Day(k)) == k
  {
    forall k | k in SeedKeys
      ensures IsDateKey(k) && DateKey(Year(k), Month(k), Day(k)) == k
    {
      KeyIsFormatted(k);
    }
  }
}
