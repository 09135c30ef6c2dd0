/**
 A batch of the event batcher: a closed time window holding at most one event per key.

 `Window` is the value of a batch and `AddTo` says what adding an event does to that value;
 class `Batch` is the object the batcher updates in place, and each of its methods is proved
 against `AddTo`. Times are integer nanoseconds.
 */
module Batches {

  type Time = int

  // What the batched items are keyed by, and what else they carry.
  type Key(==, !new)
  type Payload(==, !new)

  datatype Event = Event(key: Key, time: Time, payload: Payload)

  datatype Window = Window(start: Time, end: Time, events: map<Key, Event>) {

    predicate Covers(t: Time) {
      start <= t <= end
    }

    /** Every event is filed under its own key and lies inside the closed window. */
    ghost predicate Valid() {
      && start <= end
      && forall k <- events :: events[k].key == k && Covers(events[k].time)
    }

    ghost predicate Holds(e: Event) {
      e.key in events && events[e.key] == e
    }

    ghost function Contents(): multiset<Event> {
      multiset(events.Values)
    }

    /** A valid window holds each of its events once. */
    lemma Count(e: Event)
      requires Valid()
      ensures Contents()[e] == if Holds(e) then 1 else 0
    {
      if Holds(e) {
        assert e.key in events.Keys;
      }
    }
  }

  datatype AddOutcome = Added(window: Window) | Duplicate | Split(low: Window, high: Window)

  /** Division of a duration by two as the source's duration type does it: toward zero. */
  function HalfTowardZero(gap: int): (half: int)
    ensures gap - 1 <= 2 * half <= gap + 1
    ensures half != 0 ==> (half > 0 <==> gap > 0)
    ensures gap == 1 || gap == -1 ==> half == 0
  {
    if gap >= 0 then gap / 2 else -((-gap) / 2)
  }

  /**
   The split point is halfway between the two times, on the incoming side if that is not exact;
   it separates them unless the incoming event is 1ns earlier.
   */
  function Midpoint(existing: Time, incoming: Time): (mid: Time)
    ensures existing <= mid <= incoming || incoming <= mid <= existing
    ensures existing <= incoming ==> mid - existing - 1 <= incoming - mid <= mid - existing
    ensures incoming <= existing ==> existing - mid - 1 <= mid - incoming <= existing - mid
    ensures existing != incoming ==>
              ((existing < mid) != (incoming < mid) <==> existing != incoming + 1)
    ensures existing == incoming + 1 ==> mid == incoming
  {
    incoming + HalfTowardZero(existing - incoming)
  }

  /** The events of `events`, with `e` inserted last, that fall on one side of a split point. */
  function Side(events: map<Key, Event>, e: Event, mid: Time, low: bool): map<Key, Event> {
    var kept := map k | k in events && (events[k].time < mid) == low :: events[k];
    if (e.time < mid) == low then kept[e.key := e] else kept
  }

  function AddTo(w: Window, e: Event): AddOutcome {
    if e.key !in w.events then
      Added(w.(events := w.events[e.key := e]))
    else if e.time == w.events[e.key].time then
      Duplicate
    else
      var mid := Midpoint(w.events[e.key].time, e.time);
      Split(Window(w.start, mid, Side(w.events, e, mid, true)),
            Window(mid, w.end, Side(w.events, e, mid, false)))
  }

  /** The batch holds an event of the same key exactly one nanosecond later than `e`. */
  predicate NearMiss(w: Window, e: Event) {
    e.key in w.events && w.events[e.key].time == e.time + 1
  }

  /** What adding `e` to `w` throws away. */
  ghost function Overwritten(w: Window, e: Event): multiset<Event> {
    if NearMiss(w, e) then multiset{w.events[e.key]} else multiset{}
  }

  /** Splitting keeps both halves well formed, and they tile the old window. */
  lemma SplitTiles(w: Window, e: Event)
    requires w.Valid() && w.Covers(e.time) && AddTo(w, e).Split?
    ensures var low, high := AddTo(w, e).low, AddTo(w, e).high;
            && low.Valid() && high.Valid()
            && low.start == w.start && low.end == high.start && high.end == w.end
  {
    assert w.Covers(w.events[e.key].time);
  }

  /** Where each event ends up when a window splits. */
  lemma SplitHolds(w: Window, e: Event, x: Event)
    requires w.Valid() && w.Covers(e.time) && AddTo(w, e).Split?
    ensures var low, high := AddTo(w, e).low, AddTo(w, e).high;
            && !(low.Holds(x) && high.Holds(x))
            && (low.Holds(x) || high.Holds(x) <==>
                x == e || (w.Holds(x) && !(NearMiss(w, e) && x == w.events[e.key])))
  {}

  /** Splitting keeps every event, the new one included, except the one a near miss overwrites. */
  lemma SplitAccounts(w: Window, e: Event)
    requires w.Valid() && w.Covers(e.time) && AddTo(w, e).Split?
    ensures AddTo(w, e).low.Contents() + AddTo(w, e).high.Contents() + Overwritten(w, e)
            == w.Contents() + multiset{e}
  {
    var low, high := AddTo(w, e).low, AddTo(w, e).high;
    SplitTiles(w, e);
    forall x: Event
      ensures (low.Contents() + high.Contents() + Overwritten(w, e))[x] == (w.Contents() + multiset{e})[x]
    {
      low.Count(x); high.Count(x); w.Count(x);
      SplitHolds(w, e, x);
    }
  }

  lemma AddedAccounts(w: Window, e: Event)
    requires w.Valid() && w.Covers(e.time) && AddTo(w, e).Added?
    ensures var w' := AddTo(w, e).window;
            && w'.Valid() && w'.start == w.start && w'.end == w.end
            && w'.Contents() == w.Contents() + multiset{e}
  {
    var w' := AddTo(w, e).window;
    forall x: Event ensures w'.Contents()[x] == (w.Contents() + multiset{e})[x] {
      w'.Count(x); w.Count(x);
    }
  }

  datatype BatchAdd = BatchAdded | BatchDuplicate | BatchSplit(batch: Batch)

  /** The events on one side of the split that have been moved there, with `rest` still to move. */
  ghost function Moved(all: map<Key, Event>, rest: set<Event>, mid: Time, low: bool): map<Key, Event> {
    map k | k in all && all[k] !in rest && (all[k].time < mid) == low :: all[k]
  }

  lemma MoveNext(all: map<Key, Event>, rest: set<Event>, mid: Time, e: Event)
    requires (forall k <- all :: all[k].key == k) && e in rest && rest <= all.Values
    ensures var low := e.time < mid;
            && Moved(all, rest - {e}, mid, low) == Moved(all, rest, mid, low)[e.key := e]
            && Moved(all, rest - {e}, mid, !low) == Moved(all, rest, mid, !low)
  {
    assert e.key in all && all[e.key] == e;
  }

  class Batch {
    var batchStart: Time
    var batchEnd: Time
    var events: map<Key, Event>

    function View(): Window
      reads this
    {
      Window(batchStart, batchEnd, events)
    }

    constructor (batchStart: Time, batchEnd: Time, events: map<Key, Event>)
      ensures View() == Window(batchStart, batchEnd, events)
    {
      this.batchStart, this.batchEnd, this.events := batchStart, batchEnd, events;
    }

    method Add(event: Event) returns (r: BatchAdd)
      requires View().Valid()
      modifies this
      ensures match AddTo(old(View()), event)
              case Added(w) => r.BatchAdded? && View() == w
              case Duplicate => r.BatchDuplicate? && View() == old(View())
              case Split(low, high) =>
                r.BatchSplit? && fresh(r.batch) && View() == low && r.batch.View() == high
    {
      if event.key in events {
        var existingTime := events[event.key].time;
        if event.time == existingTime {
          return BatchDuplicate;
        }
        var newBatch := SplitAt(existingTime, event);
        return BatchSplit(newBatch);
      }
      events := events[event.key := event];
      return BatchAdded;
    }

    /** Redistributes the events, in whatever order the hash map yields them and the new one last. */
    method SplitAt(existingTime: Time, event: Event) returns (newBatch: Batch)
      requires View().Valid()
      modifies this
      ensures fresh(newBatch)
      ensures var mid := Midpoint(existingTime, event.time);
              && View() == Window(old(batchStart), mid, Side(old(events), event, mid, true))
              && newBatch.View() == Window(mid, old(batchEnd), Side(old(events), event, mid, false))
    {
      var splitPoint := Midpoint(existingTime, event.time);
      var all, newBatchEnd := events, batchEnd;
      var newBatchEvents: map<Key, Event> := map[];
      events, batchEnd := map[], splitPoint;
      var rest := all.Values;
      while rest != {}
        invariant rest <= all.Values
        invariant events == Moved(all, rest, splitPoint, true)
        invariant newBatchEvents == Moved(all, rest, splitPoint, false)
        invariant batchStart == old(batchStart) && batchEnd == splitPoint
        decreases rest
      {
        var e :| e in rest;
        MoveNext(all, rest, splitPoint, e);
        rest := rest - {e};
        if e.time < splitPoint {
          events := events[e.key := e];
        } else {
          newBatchEvents := newBatchEvents[e.key := e];
        }
      }
      if event.time < splitPoint {
        events := events[event.key := event];
      } else {
        newBatchEvents := newBatchEvents[event.key := event];
      }
      newBatch := new Batch(splitPoint, newBatchEnd, newBatchEvents);
    }

    /** The events in the unspecified order of the hash map. */
    method IntoVec() returns (v: seq<Event>)
      ensures multiset(v) == View().Contents()
    {
      v := [];
      var rest := events.Values;
      while rest != {}
        invariant rest <= events.Values
        invariant multiset(v) + multiset(rest) == multiset(events.Values)
        decreases rest
      {
        var e :| e in rest;
        rest := rest - {e};
        v := v + [e];
      }
    }
  }
}
