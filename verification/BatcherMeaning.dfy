/**
 What the batcher is meant to do with one event, said without its functions: which events it accepts,
 where an accepted event goes, and what is closed then. `EventMeansIt` proves that the batcher does
 just that, and `MeaningIsExact` that nothing else would do.
 */
module BatcherMeaning {
  import opened Basics
  import opened Batches
  import opened Batching
  import opened BatchRuns

  // ---------------------------------------------------------------- acceptance

  /** The window at `i` is the first one whose closed interval has `t` in it. */
  ghost predicate FirstAround(ws: seq<Window>, t: Time, i: nat) {
    && i < |ws| && ws[i].start <= t <= ws[i].end
    && forall j :: 0 <= j < i ==> !(ws[j].start <= t <= ws[j].end)
  }

  ghost predicate OutsideAll(ws: seq<Window>, t: Time) {
    forall w <- ws :: !(w.start <= t <= w.end)
  }

  /** The window has an event of the same key at the very same time. */
  ghost predicate HasTwin(w: Window, e: Event) {
    e.key in w.events && w.events[e.key].time == e.time
  }

  ghost predicate Acceptable(cfg: Config, ws: seq<Window>, now: Time, e: Event) {
    && now - cfg.deliveryJitter <= e.time <= now + cfg.messageLeapLimit
    && forall i: nat :: FirstAround(ws, e.time, i) ==> !HasTwin(ws[i], e)
  }

  lemma TargetIsFirst(ws: seq<Window>, t: Time)
    ensures var i := Target(ws, t);
            && (i < |ws| ==> FirstAround(ws, t, i))
            && (i == |ws| <==> OutsideAll(ws, t))
            && forall j: nat :: FirstAround(ws, t, j) ==> j == i
  {
    var i := Target(ws, t);
    assert forall j :: 0 <= j < i ==> !ws[j].Covers(t);
    if i < |ws| {
      assert ws[i] in ws && ws[i].Covers(t);
    }
  }

  /** An event is accepted exactly if it is neither too old, nor too futuristic, nor a duplicate. */
  lemma AcceptsIff(cfg: Config, ws: seq<Window>, now: Time, e: Event)
    ensures Accepts(cfg, ws, now, e) <==> Acceptable(cfg, ws, now, e)
  {
    TargetIsFirst(ws, e.time);
  }

  /** The acceptable arrivals of a run. */
  ghost function AcceptableOf(cfg: Config, inputs: seq<Input>): multiset<Event> {
    if inputs == [] then multiset{}
    else
      var n := |inputs| - 1;
      var before, input := AcceptableOf(cfg, inputs[..n]), inputs[n];
      if input.Arrival? && Acceptable(cfg, Replay(cfg, inputs[..n]).open, input.at, input.event)
      then before + multiset{input.event} else before
  }

  /** In every run exactly the acceptable arrivals are accepted. */
  lemma {:induction false} AcceptableAreAccepted(cfg: Config, inputs: seq<Input>)
    ensures Replay(cfg, inputs).accepted == AcceptableOf(cfg, inputs)
  {
    if inputs != [] {
      var n := |inputs| - 1;
      AcceptableAreAccepted(cfg, inputs[..n]);
      if inputs[n].Arrival? {
        AcceptsIff(cfg, Replay(cfg, inputs[..n]).open, inputs[n].at, inputs[n].event);
      }
    }
  }

  /** Exactly the acceptable arrivals of a run are sent in the end, unless there is a near miss. */
  lemma AcceptableAreSentIff(cfg: Config, inputs: seq<Input>)
    ensures Total(Flat(Finish(Replay(cfg, inputs)).sent)) == AcceptableOf(cfg, inputs) <==>
            forall n :: 0 <= n < |inputs| ==> !NearMissAt(cfg, inputs, n)
  {
    AcceptableAreAccepted(cfg, inputs);
    ConservationIff(cfg, inputs);
  }

  // ---------------------------------------------------------------- filing

  /** A window for `e` alone: as wide as the jitter allows without reaching into a later window. */
  ghost predicate OpenedFor(cfg: Config, ws: seq<Window>, e: Event, w: Window) {
    && w.start == e.time && w.events == map[e.key := e]
    && w.end <= e.time + cfg.eventJitter && (forall v <- ws :: v.start > e.time ==> w.end <= v.start)
    && (w.end == e.time + cfg.eventJitter || exists v <- ws :: v.start > e.time && v.start == w.end)
  }

  /** A time halfway between two others, on the side of the second if that is not exact. */
  ghost predicate Halfway(existing: Time, incoming: Time, m: Time) {
    if existing < incoming then existing + incoming <= 2 * m <= existing + incoming + 1
    else existing + incoming - 1 <= 2 * m <= existing + incoming
  }

  /** Of the events of `w` and `e`, those before `m`, or those from `m` on; `e` replaces its like. */
  ghost predicate HalfOf(w: Window, e: Event, m: Time, before: bool, half: Window) {
    && (forall k <- half.events :: half.events[k].key == k)
    && forall x :: half.Holds(x) <==>
         && (x.time < m) == before
         && (x == e || (w.Holds(x) && (x.key != e.key || (e.time < m) != before)))
  }

  ghost predicate Halved(w: Window, e: Event, low: Window, high: Window)
    requires e.key in w.events
  {
    && low.start == w.start && low.end == high.start && high.end == w.end
    && Halfway(w.events[e.key].time, e.time, low.end)
    && HalfOf(w, e, low.end, true, low) && HalfOf(w, e, low.end, false, high)
  }

  /** Where an event goes: `end` is the end of the window that was opened or shortened for it. */
  ghost predicate FiledAs(cfg: Config, ws: seq<Window>, e: Event, filed: seq<Window>, end: Option<Time>) {
    && (OutsideAll(ws, e.time) ==> exists w :: OpenedFor(cfg, ws, e, w) && filed == ws + [w] && end == Some(w.end))
    && forall i: nat :: FirstAround(ws, e.time, i) ==> FiledIn(ws, i, e, filed, end)
  }

  ghost predicate FiledIn(ws: seq<Window>, i: nat, e: Event, filed: seq<Window>, end: Option<Time>)
    requires i < |ws|
  {
    if e.key !in ws[i].events then
      filed == ws[i := Window(ws[i].start, ws[i].end, ws[i].events[e.key := e])] && end == None
    else if ws[i].events[e.key].time == e.time then filed == ws && end == None
    else exists low, high :: Halved(ws[i], e, low, high) && filed == ws[i := low] + [high] && end == Some(low.end)
  }

  lemma SplitIsHalving(w: Window, e: Event)
    requires w.Valid() && e.key in w.events && w.events[e.key].time != e.time
    ensures AddTo(w, e).Split? && Halved(w, e, AddTo(w, e).low, AddTo(w, e).high)
  {
    var low, high := AddTo(w, e).low, AddTo(w, e).high;
    SideIsHalf(w, e, low.end, true, low);
    SideIsHalf(w, e, low.end, false, high);
  }

  lemma SideIsHalf(w: Window, e: Event, m: Time, before: bool, half: Window)
    requires w.Valid() && half.events == Side(w.events, e, m, before)
    ensures HalfOf(w, e, m, before, half)
  {}

  lemma FilingMeansIt(cfg: Config, ws: seq<Window>, e: Event)
    requires WellFormed(cfg, ws)
    ensures var (filed, end) := File(cfg, ws, e); FiledAs(cfg, ws, e, filed, end)
  {
    var (filed, end) := File(cfg, ws, e);
    var i := Target(ws, e.time);
    TargetIsFirst(ws, e.time);
    if i == |ws| {
      var w := NewWindow(cfg, ws, e);
      assert OpenedFor(cfg, ws, e, w) && filed == ws + [w] && end == Some(w.end);
    } else {
      FilingInMeansIt(cfg, ws, i, e);
    }
  }

  lemma FilingInMeansIt(cfg: Config, ws: seq<Window>, i: nat, e: Event)
    requires WellFormed(cfg, ws) && i == Target(ws, e.time) < |ws|
    ensures var (filed, end) := File(cfg, ws, e); FiledIn(ws, i, e, filed, end)
  {
    assert ws[i] in ws && ws[i].Valid();
    if e.key in ws[i].events && ws[i].events[e.key].time != e.time {
      SplitIsHalving(ws[i], e);
    }
  }

  // ---------------------------------------------------------------- closing

  /** The deadline of the window is past, or now. */
  ghost predicate Due(cfg: Config, w: Window, now: Time) {
    now >= w.end + cfg.deliveryJitter
  }

  /** The positions of the windows that are due, or of those that are not. */
  ghost predicate PositionsOf(cfg: Config, ws: seq<Window>, now: Time, due: bool, positions: seq<nat>) {
    && Ascending(positions)
    && forall k: nat :: k in positions <==> k < |ws| && Due(cfg, ws[k], now) == due
  }

  /** `r` are the windows that are due, or those that are not, in their order. */
  ghost predicate Picks(cfg: Config, ws: seq<Window>, now: Time, due: bool, r: seq<Window>) {
    exists positions :: PositionsOf(cfg, ws, now, due, positions) && At(ws, positions, r)
  }

  lemma {:induction false} SelectPicks(cfg: Config, ws: seq<Window>, now: Time, open: bool) returns (positions: seq<nat>)
    ensures PositionsOf(cfg, ws, now, !open, positions) && At(ws, positions, Select(cfg, ws, now, open))
  {
    if ws == [] {
      positions := [];
    } else {
      var rest := SelectPicks(cfg, ws[1..], now, open);
      positions := if IsOpen(cfg, ws[0], now) == open then [0] + Shifted(rest) else Shifted(rest);
      PositionsShift(cfg, ws, now, !open, rest);
      AtShift(ws, rest, Select(cfg, ws[1..], now, open));
    }
  }

  lemma PositionsShift(cfg: Config, ws: seq<Window>, now: Time, due: bool, rest: seq<nat>)
    requires ws != [] && PositionsOf(cfg, ws[1..], now, due, rest)
    ensures PositionsOf(cfg, ws, now, due, if Due(cfg, ws[0], now) == due then [0] + Shifted(rest) else Shifted(rest))
  {
    var chosen := Due(cfg, ws[0], now) == due;
    var positions := if chosen then [0] + Shifted(rest) else Shifted(rest);
    forall k: nat ensures k in positions <==> k < |ws| && Due(cfg, ws[k], now) == due {
      ShiftedMembers(rest, k);
      assert k in positions <==> (chosen && k == 0) || k in Shifted(rest);
      if k > 0 {
        assert k - 1 in rest <==> k - 1 < |ws[1..]| && Due(cfg, ws[1..][k - 1], now) == due;
      }
    }
  }

  ghost predicate ClosedAs(cfg: Config, ws: seq<Window>, now: Time, o: Outcome) {
    Picks(cfg, ws, now, false, o.open) && Picks(cfg, ws, now, true, o.closed) && !o.timer.Some?
  }

  /** By time, exactly the windows that are due are closed, and both lists keep their order. */
  lemma TimeMeansIt(cfg: Config, ws: seq<Window>, now: Time)
    ensures ClosedAs(cfg, ws, now, OnTime(cfg, ws, now))
  {
    var p := SelectPicks(cfg, ws, now, true);
    var q := SelectPicks(cfg, ws, now, false);
  }

  // ---------------------------------------------------------------- one event

  /** Once filed: a deadline ahead becomes a timer; otherwise all that is due is closed. */
  ghost predicate SettledAs(cfg: Config, filed: seq<Window>, now: Time, end: Option<Time>, o: Outcome) {
    if !end.Some? then o == Outcome(filed, [], None)
    else if now < end.value + cfg.deliveryJitter then
      o == Outcome(filed, [], Some(end.value + cfg.deliveryJitter))
    else ClosedAs(cfg, filed, now, o)
  }

  ghost predicate Meant(cfg: Config, ws: seq<Window>, now: Time, e: Event, o: Outcome) {
    if now - cfg.deliveryJitter <= e.time <= now + cfg.messageLeapLimit then
      exists filed, end :: FiledAs(cfg, ws, e, filed, end) && SettledAs(cfg, filed, now, end, o)
    else o == Outcome(ws, [], None)
  }

  lemma SettlingMeansIt(cfg: Config, filed: seq<Window>, now: Time, end: Time)
    ensures SettledAs(cfg, filed, now, Some(end), Settle(cfg, filed, now, end))
  {
    if now >= end + cfg.deliveryJitter {
      assert Settle(cfg, filed, now, end) == OnTime(cfg, filed, now);
      TimeMeansIt(cfg, filed, now);
    }
  }

  lemma InTimeMeansIt(cfg: Config, ws: seq<Window>, now: Time, e: Event)
    requires InTime(cfg, now, e)
    ensures var (filed, end) := File(cfg, ws, e); SettledAs(cfg, filed, now, end, OnEvent(cfg, ws, now, e))
  {
    var (filed, end) := File(cfg, ws, e);
    if end.Some? {
      SettlingMeansIt(cfg, filed, now, end.value);
    }
  }

  /** The batcher does with an event what is meant. */
  lemma EventMeansIt(cfg: Config, ws: seq<Window>, now: Time, e: Event)
    requires WellFormed(cfg, ws)
    ensures Meant(cfg, ws, now, e, OnEvent(cfg, ws, now, e))
  {
    if InTime(cfg, now, e) {
      var (filed, end) := File(cfg, ws, e);
      FilingMeansIt(cfg, ws, e);
      InTimeMeansIt(cfg, ws, now, e);
      assert FiledAs(cfg, ws, e, filed, end) && SettledAs(cfg, filed, now, end, OnEvent(cfg, ws, now, e));
    }
  }

  // ---------------------------------------------------------------- nothing else would do

  lemma PicksOnce(cfg: Config, ws: seq<Window>, now: Time, due: bool, a: seq<Window>, b: seq<Window>)
    requires Picks(cfg, ws, now, due, a) && Picks(cfg, ws, now, due, b)
    ensures a == b
  {
    var p :| PositionsOf(cfg, ws, now, due, p) && At(ws, p, a);
    var q :| PositionsOf(cfg, ws, now, due, q) && At(ws, q, b);
    SamePositions(p, q);
  }

  lemma HalfOnce(w: Window, e: Event, m: Time, before: bool, a: Window, b: Window)
    requires HalfOf(w, e, m, before, a) && HalfOf(w, e, m, before, b) && a.start == b.start && a.end == b.end
    ensures a == b
  {
    forall k ensures k in a.events <==> k in b.events
             ensures k in a.events && k in b.events ==> a.events[k] == b.events[k] {
      if k in a.events {
        assert a.Holds(a.events[k]);
      }
      if k in b.events {
        assert b.Holds(b.events[k]);
      }
    }
    assert a.events == b.events;
  }

  lemma HalvedOnce(w: Window, e: Event, a: Window, b: Window, c: Window, d: Window)
    requires e.key in w.events && Halved(w, e, a, b) && Halved(w, e, c, d)
    ensures a == c && b == d
  {
    assert a.end == c.end;
    HalfOnce(w, e, a.end, true, a, c);
    HalfOnce(w, e, a.end, false, b, d);
  }

  lemma OpenedOnce(cfg: Config, ws: seq<Window>, e: Event, v: Window, w: Window)
    requires OpenedFor(cfg, ws, e, v) && OpenedFor(cfg, ws, e, w)
    ensures v == w
  {}

  lemma FiledInOnce(ws: seq<Window>, i: nat, e: Event, a: seq<Window>, s: Option<Time>, b: seq<Window>, t: Option<Time>)
    requires i < |ws| && FiledIn(ws, i, e, a, s) && FiledIn(ws, i, e, b, t)
    ensures a == b && s == t
  {
    if e.key in ws[i].events && ws[i].events[e.key].time != e.time {
      var low, high :| Halved(ws[i], e, low, high) && a == ws[i := low] + [high] && s == Some(low.end);
      var low', high' :| Halved(ws[i], e, low', high') && b == ws[i := low'] + [high'] && t == Some(low'.end);
      HalvedOnce(ws[i], e, low, high, low', high');
    }
  }

  lemma FiledOnce(cfg: Config, ws: seq<Window>, e: Event, a: seq<Window>, s: Option<Time>, b: seq<Window>, t: Option<Time>)
    requires FiledAs(cfg, ws, e, a, s) && FiledAs(cfg, ws, e, b, t)
    ensures a == b && s == t
  {
    TargetIsFirst(ws, e.time);
    var i := Target(ws, e.time);
    if i < |ws| {
      FiledInOnce(ws, i, e, a, s, b, t);
    } else {
      var v :| OpenedFor(cfg, ws, e, v) && a == ws + [v] && s == Some(v.end);
      var w :| OpenedFor(cfg, ws, e, w) && b == ws + [w] && t == Some(w.end);
      OpenedOnce(cfg, ws, e, v, w);
    }
  }

  lemma SettledOnce(cfg: Config, filed: seq<Window>, now: Time, end: Option<Time>, o: Outcome, o': Outcome)
    requires SettledAs(cfg, filed, now, end, o) && SettledAs(cfg, filed, now, end, o')
    ensures o == o'
  {
    if end.Some? && now >= end.value + cfg.deliveryJitter {
      PicksOnce(cfg, filed, now, false, o.open, o'.open);
      PicksOnce(cfg, filed, now, true, o.closed, o'.closed);
    }
  }

  /** What is meant is one outcome only, so that it is what the batcher does. */
  lemma MeaningIsExact(cfg: Config, ws: seq<Window>, now: Time, e: Event, o: Outcome)
    requires WellFormed(cfg, ws)
    ensures Meant(cfg, ws, now, e, o) <==> o == OnEvent(cfg, ws, now, e)
  {
    var o' := OnEvent(cfg, ws, now, e);
    EventMeansIt(cfg, ws, now, e);
    if Meant(cfg, ws, now, e, o) && now - cfg.deliveryJitter <= e.time <= now + cfg.messageLeapLimit {
      var a, s :| FiledAs(cfg, ws, e, a, s) && SettledAs(cfg, a, now, s, o);
      var b, t :| FiledAs(cfg, ws, e, b, t) && SettledAs(cfg, b, now, t, o');
      FiledOnce(cfg, ws, e, a, s, b, t);
      SettledOnce(cfg, a, now, s, o, o');
    }
  }
}
