/** The attendance rows shared by the resolver, the rebuild and the merge totals. Times are microseconds. */
module Attendance {
  import opened Basics

  type Time = int

  const MINUTE: Time := 60_000_000

  datatype Status =
    | Excused | Holiday | NotScheduled | PresentUnscheduled | Pending
    | Absent | OnTime | Late | Incomplete | Complete

  /** What a record is about: one person's date, shift and period. */
  datatype Grain = Grain(personId: Uuid, businessDate: int, shiftId: Uuid, periodLabel: string)

  datatype Outcome = Accepted | Ambiguous | LowConfidence | UnknownFace | LocationConflict | ManualCorrection

  datatype Event = Event(
    id: int,
    personId: Option<Uuid>,
    businessDate: Option<int>,
    shiftId: Option<Uuid>,
    periodLabel: string,
    occurredAt: Time,
    outcome: Outcome,
    locationId: Option<Uuid>,
    wasBackdated: bool)

  // Python's `sorted(events, key=occurred_at)`: a stable insertion sort.

  function Insert(sorted: seq<Event>, e: Event): seq<Event> {
    if sorted == [] || sorted[|sorted| - 1].occurredAt <= e.occurredAt then sorted + [e]
    else Insert(sorted[..|sorted| - 1], e) + [sorted[|sorted| - 1]]
  }

  function SortByTime(events: seq<Event>): seq<Event> {
    if events == [] then [] else Insert(SortByTime(events[..|events| - 1]), events[|events| - 1])
  }

  predicate InOrder(events: seq<Event>) {
    forall i, j | 0 <= i <= j < |events| :: events[i].occurredAt <= events[j].occurredAt
  }

  /** The events of one instant, in the order they stand. */
  function At(events: seq<Event>, t: Time): seq<Event> {
    if events == [] then []
    else
      var last := events[|events| - 1];
      At(events[..|events| - 1], t) + if last.occurredAt == t then [last] else []
  }

  lemma {:induction false} AtSnoc(events: seq<Event>, e: Event, t: Time)
    ensures At(events + [e], t) == At(events, t) + if e.occurredAt == t then [e] else []
  {
  }

  lemma {:induction false} InsertAdds(sorted: seq<Event>, e: Event)
    ensures multiset(Insert(sorted, e)) == multiset(sorted) + multiset{e}
  {
    if sorted != [] && sorted[|sorted| - 1].occurredAt > e.occurredAt {
      InsertAdds(sorted[..|sorted| - 1], e);
      assert sorted == sorted[..|sorted| - 1] + [sorted[|sorted| - 1]];
    }
  }

  predicate NoneAfter(events: seq<Event>, t: Time) {
    forall i | 0 <= i < |events| :: events[i].occurredAt <= t
  }

  lemma {:induction false} InsertSorts(sorted: seq<Event>, e: Event, t: Time)
    requires InOrder(sorted)
    ensures InOrder(Insert(sorted, e))
    ensures NoneAfter(sorted, t) && e.occurredAt <= t ==> NoneAfter(Insert(sorted, e), t)
  {
    if sorted != [] && sorted[|sorted| - 1].occurredAt > e.occurredAt {
      var init, last := sorted[..|sorted| - 1], sorted[|sorted| - 1];
      InsertSorts(init, e, last.occurredAt);
      InsertSorts(init, e, t);
    }
  }

  lemma {:induction false} InsertIsStable(sorted: seq<Event>, e: Event, t: Time)
    requires InOrder(sorted)
    ensures At(Insert(sorted, e), t) == At(sorted, t) + if e.occurredAt == t then [e] else []
  {
    if sorted == [] || sorted[|sorted| - 1].occurredAt <= e.occurredAt {
      AtSnoc(sorted, e, t);
    } else {
      var init, last := sorted[..|sorted| - 1], sorted[|sorted| - 1];
      InsertIsStable(init, e, t);
      AtSnoc(Insert(init, e), last, t);
      if e.occurredAt == t {
        assert At(sorted, t) == At(init, t);
      }
    }
  }

  lemma {:induction false} SortOrders(events: seq<Event>)
    ensures InOrder(SortByTime(events)) && multiset(SortByTime(events)) == multiset(events)
  {
    if events != [] {
      var init, last := events[..|events| - 1], events[|events| - 1];
      SortOrders(init);
      InsertSorts(SortByTime(init), last, 0);
      InsertAdds(SortByTime(init), last);
      assert events == init + [last];
    }
  }

  /** A stable sort: the same events, in time order, those of one instant as they stood before. */
  lemma {:induction false} SortsStably(events: seq<Event>, t: Time)
    ensures var sorted := SortByTime(events);
            InOrder(sorted) && multiset(sorted) == multiset(events) && At(sorted, t) == At(events, t)
  {
    SortOrders(events);
    if events != [] {
      var init := events[..|events| - 1];
      SortsStably(init, t);
      InsertIsStable(SortByTime(init), events[|events| - 1], t);
    }
  }

  /** The first and last of the sorted list are events of the list that none precedes or follows. */
  lemma SortedEnds(events: seq<Event>)
    requires events != []
    ensures var sorted := SortByTime(events);
            && |sorted| == |events|
            && sorted[0] in events && sorted[|sorted| - 1] in events
            && forall e | e in events :: sorted[0].occurredAt <= e.occurredAt <= sorted[|sorted| - 1].occurredAt
  {
    var sorted := SortByTime(events);
    SortOrders(events);
    assert |multiset(sorted)| == |multiset(events)|;
    assert sorted[0] in multiset(sorted) && sorted[|sorted| - 1] in multiset(sorted);
    forall e | e in events
      ensures sorted[0].occurredAt <= e.occurredAt <= sorted[|sorted| - 1].occurredAt
    {
      assert e in multiset(events);
      assert e in sorted;
    }
  }
}
