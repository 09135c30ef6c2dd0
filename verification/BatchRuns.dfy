/**
 Whole runs of the batcher: what holds of everything it has sent and everything still pending
 after any list of arrivals and clock ticks, and after the final flush.
 */
module BatchRuns {
  import opened Batches
  import opened Batching

  datatype Input = Arrival(at: Time, event: Event) | Tick(at: Time)

  /** The open windows, the windows sent at each step, the events accepted and those overwritten. */
  datatype History = History(open: seq<Window>, sent: seq<seq<Window>>,
                             accepted: multiset<Event>, lost: multiset<Event>)

  function Handle(cfg: Config, ws: seq<Window>, input: Input): Outcome {
    match input
    case Arrival(at, e) => OnEvent(cfg, ws, at, e)
    case Tick(at) => OnTime(cfg, ws, at)
  }

  ghost function Advance(cfg: Config, h: History, input: Input): History {
    var o := Handle(cfg, h.open, input);
    History(o.open, h.sent + [o.closed],
            h.accepted + (if input.Arrival? && Accepts(cfg, h.open, input.at, input.event)
                          then multiset{input.event} else multiset{}),
            h.lost + (if input.Arrival? then Lost(cfg, h.open, input.at, input.event) else multiset{}))
  }

  ghost function Replay(cfg: Config, inputs: seq<Input>): History {
    if inputs == [] then History([], [], multiset{}, multiset{})
    else Advance(cfg, Replay(cfg, inputs[..|inputs| - 1]), inputs[|inputs| - 1])
  }

  ghost function Finish(h: History): History {
    h.(open := [], sent := h.sent + [OnFlush(h.open).closed])
  }

  /** Everything sent, in the order it was sent. */
  ghost function Flat(sent: seq<seq<Window>>): seq<Window> {
    if sent == [] then [] else Flat(sent[..|sent| - 1]) + sent[|sent| - 1]
  }

  // ---------------------------------------------------------------- windows

  ghost predicate SentSound(cfg: Config, sent: seq<seq<Window>>) {
    forall i, w :: 0 <= i < |sent| && w in sent[i] ==>
      w.Valid() && w.end - w.start <= cfg.eventJitter
  }

  lemma HandlingKeepsWellFormed(cfg: Config, ws: seq<Window>, input: Input)
    requires WellFormed(cfg, ws)
    ensures var o := Handle(cfg, ws, input);
            && WellFormed(cfg, o.open)
            && forall w <- o.closed :: w.Valid() && w.end - w.start <= cfg.eventJitter
  {
    if input.Arrival? {
      FilingKeepsWellFormed(cfg, ws, input.event);
      TimeKeepsWellFormed(cfg, File(cfg, ws, input.event).0, input.at);
    } else {
      TimeKeepsWellFormed(cfg, ws, input.at);
    }
  }

  lemma AdvanceKeepsSound(cfg: Config, h: History, input: Input)
    requires WellFormed(cfg, h.open) && SentSound(cfg, h.sent)
    ensures WellFormed(cfg, Advance(cfg, h, input).open) && SentSound(cfg, Advance(cfg, h, input).sent)
  {
    HandlingKeepsWellFormed(cfg, h.open, input);
  }

  lemma {:induction false} RunsStaySound(cfg: Config, inputs: seq<Input>)
    ensures WellFormed(cfg, Replay(cfg, inputs).open) && SentSound(cfg, Replay(cfg, inputs).sent)
  {
    if inputs != [] {
      RunsStaySound(cfg, inputs[..|inputs| - 1]);
      AdvanceKeepsSound(cfg, Replay(cfg, inputs[..|inputs| - 1]), inputs[|inputs| - 1]);
    }
  }

  /**
   In every run, every open or sent window has its start no later than its end, is at most an
   event jitter wide and holds only events inside it, one per key; open windows only meet at
   endpoints.
   */
  lemma WindowsStaySound(cfg: Config, inputs: seq<Input>)
    ensures WellFormed(cfg, Replay(cfg, inputs).open)
    ensures SentSound(cfg, Finish(Replay(cfg, inputs)).sent)
  {
    RunsStaySound(cfg, inputs);
    FlushKeepsSound(cfg, Replay(cfg, inputs));
  }

  lemma FlushKeepsSound(cfg: Config, h: History)
    requires WellFormed(cfg, h.open) && SentSound(cfg, h.sent)
    ensures SentSound(cfg, Finish(h).sent)
  {
    forall w <- OnFlush(h.open).closed ensures w.Valid() && w.end - w.start <= cfg.eventJitter {
      assert w in h.open;
    }
  }

  // ---------------------------------------------------------------- order

  ghost predicate NeverBackwards(inputs: seq<Input>) {
    forall i, j :: 0 <= i < j < |inputs| ==> inputs[i].at <= inputs[j].at
  }

  ghost predicate SentBefore(sent: seq<seq<Window>>, t: Time) {
    forall i, w :: 0 <= i < |sent| && w in sent[i] ==> w.end <= t
  }

  /** Nothing that is open, or was sent later, starts before the end of something sent. */
  ghost predicate InSequence(h: History) {
    && (forall i, w :: 0 <= i < |h.sent| && w in h.sent[i] ==> SentBefore(h.sent[..i], w.start))
    && (forall w <- h.open :: SentBefore(h.sent, w.start))
  }

  /** Filing an event opens no window that starts before both the event and every open window. */
  lemma FiledStarts(cfg: Config, ws: seq<Window>, e: Event, w: Window)
    requires WellFormed(cfg, ws) && w in File(cfg, ws, e).0
    ensures w.start == e.time || exists v <- ws :: v.start <= w.start
  {
    var i := Target(ws, e.time);
    if i < |ws| {
      assert ws[i].Valid();
      if AddTo(ws[i], e).Split? {
        SplitTiles(ws[i], e);
      }
      var filed := File(cfg, ws, e).0;
      var j :| 0 <= j < |filed| && filed[j] == w;
      assert ws[if j < |ws| then j else i].start <= w.start;
    }
  }

  /** Where the outcome of one input stands relative to a time that bounds what was sent before. */
  lemma HandlingInSequence(cfg: Config, ws: seq<Window>, input: Input, sent: seq<seq<Window>>)
    requires WellFormed(cfg, ws)
    requires forall w <- ws :: SentBefore(sent, w.start)
    requires SentBefore(sent, input.at - cfg.deliveryJitter)
    ensures var o := Handle(cfg, ws, input);
            && (forall w <- o.open + o.closed :: SentBefore(sent, w.start))
            && (forall c <- o.closed, w <- o.open :: c.end <= w.start)
            && (forall c <- o.closed :: c.end <= input.at - cfg.deliveryJitter)
  {
    if input.Arrival? {
      var e := input.event;
      if InTime(cfg, input.at, e) {
        var filed := File(cfg, ws, e).0;
        forall w <- filed ensures SentBefore(sent, w.start) {
          FiledStarts(cfg, ws, e, w);
        }
        FilingKeepsWellFormed(cfg, ws, e);
        TimeKeepsWellFormed(cfg, filed, input.at);
        OnTimeMembers(cfg, filed, input.at);
      }
    } else {
      TimeKeepsWellFormed(cfg, ws, input.at);
      OnTimeMembers(cfg, ws, input.at);
    }
  }

  lemma SendingInSequence(before: History, after: History, closed: seq<Window>, t: Time)
    requires InSequence(before) && after.sent == before.sent + [closed]
    requires SentBefore(before.sent, t) && forall c <- closed :: c.end <= t
    requires forall w <- after.open + closed :: SentBefore(before.sent, w.start)
    requires forall c <- closed, w <- after.open :: c.end <= w.start
    ensures InSequence(after) && SentBefore(after.sent, t)
  {
    forall i, w | 0 <= i < |after.sent| && w in after.sent[i]
      ensures SentBefore(after.sent[..i], w.start)
    {
      assert after.sent[..i] == before.sent[..i];
    }
  }

  lemma {:induction false} RunsStayInSequence(cfg: Config, inputs: seq<Input>)
    requires NeverBackwards(inputs)
    ensures InSequence(Replay(cfg, inputs))
    ensures inputs != [] ==>
              SentBefore(Replay(cfg, inputs).sent, inputs[|inputs| - 1].at - cfg.deliveryJitter)
  {
    if inputs != [] {
      var n := |inputs| - 1;
      var before := Replay(cfg, inputs[..n]);
      RunsStayInSequence(cfg, inputs[..n]);
      WindowsStaySound(cfg, inputs[..n]);
      var t := inputs[n].at - cfg.deliveryJitter;
      assert SentBefore(before.sent, t) by {
        assert n > 0 ==> inputs[n - 1].at <= inputs[n].at;
      }
      HandlingInSequence(cfg, before.open, inputs[n], before.sent);
      SendingInSequence(before, Replay(cfg, inputs), Handle(cfg, before.open, inputs[n]).closed, t);
    }
  }

  /** Every event of the first window is no later than every event of the second. */
  ghost predicate NoLater(c: Window, d: Window) {
    forall x, y :: c.Holds(x) && d.Holds(y) ==> x.time <= y.time
  }

  /** Whatever is sent at one step is no later in event time than whatever is sent at a later step. */
  ghost predicate StepsInOrder(sent: seq<seq<Window>>) {
    forall i, j, c, d :: 0 <= i < j < |sent| && c in sent[i] && d in sent[j] ==> NoLater(c, d)
  }

  /**
   With a clock that never goes backwards, whatever is sent at one step, the final flush
   included, is no later in event time than whatever is sent at a later step.
   */
  lemma ChronologicalEmission(cfg: Config, inputs: seq<Input>)
    requires NeverBackwards(inputs)
    ensures StepsInOrder(Finish(Replay(cfg, inputs)).sent)
  {
    var h := Replay(cfg, inputs);
    var sent := Finish(h).sent;
    RunsStayInSequence(cfg, inputs);
    WindowsStaySound(cfg, inputs);
    forall i, j, c, d | 0 <= i < j < |sent| && c in sent[i] && d in sent[j]
      ensures NoLater(c, d)
    {
      assert SentBefore(h.sent[..j], d.start);
      assert h.sent[..j][i] == sent[i];
      assert c.end <= d.start;
      assert c.Valid() && d.Valid();
    }
  }

  /** Each window comes before those that are later. */
  ghost predicate Chronological(ws: seq<Window>) {
    forall i, j :: 0 <= i < j < |ws| ==> NoLater(ws[i], ws[j])
  }

  ghost predicate AllNoLater(ws: seq<Window>, vs: seq<Window>) {
    forall c <- ws, d <- vs :: NoLater(c, d)
  }

  lemma ChronologicalConcat(ws: seq<Window>, vs: seq<Window>)
    requires AllNoLater(ws, vs)
    ensures Chronological(ws + vs) <==> Chronological(ws) && Chronological(vs)
  {
    var all := ws + vs;
    if Chronological(all) {
      forall i, j | 0 <= i < j < |ws| ensures NoLater(ws[i], ws[j]) {
        assert NoLater(all[i], all[j]);
      }
      forall i, j | 0 <= i < j < |vs| ensures NoLater(vs[i], vs[j]) {
        assert NoLater(all[|ws| + i], all[|ws| + j]);
      }
    }
    if Chronological(ws) && Chronological(vs) {
      forall i, j | 0 <= i < j < |all| ensures NoLater(all[i], all[j]) {
        if i < |ws| <= j {
          assert all[i] in ws && all[j] in vs;
        }
      }
    }
  }

  lemma {:induction false} FlatMembers(sent: seq<seq<Window>>, w: Window)
    requires w in Flat(sent)
    ensures exists i :: 0 <= i < |sent| && w in sent[i]
  {
    var n := |sent| - 1;
    if w in Flat(sent[..n]) {
      FlatMembers(sent[..n], w);
      var i :| 0 <= i < n && w in sent[..n][i];
      assert w in sent[i];
    }
  }

  lemma {:induction false} FlatChronological(sent: seq<seq<Window>>, n: nat)
    requires n <= |sent| && StepsInOrder(sent)
    ensures Chronological(Flat(sent[..n])) <==> forall i :: 0 <= i < n ==> Chronological(sent[i])
  {
    if n > 0 {
      var before, last := sent[..n - 1], sent[n - 1];
      assert sent[..n][..n - 1] == before;
      FlatChronological(sent, n - 1);
      assert AllNoLater(Flat(before), last) by {
        forall c <- Flat(before), d <- last ensures NoLater(c, d) {
          FlatMembers(before, c);
          var i :| 0 <= i < n - 1 && c in before[i];
          assert c in sent[i] && d in sent[n - 1];
        }
      }
      ChronologicalConcat(Flat(before), last);
    }
  }

  /**
   The stream of all that is sent, the final flush included, is chronological if and only if what is
   sent at each step is so by itself.
   */
  lemma StreamChronologicalIff(cfg: Config, inputs: seq<Input>)
    requires NeverBackwards(inputs)
    ensures var sent := Finish(Replay(cfg, inputs)).sent;
            Chronological(Flat(sent)) <==> forall i :: 0 <= i < |sent| ==> Chronological(sent[i])
  {
    var sent := Finish(Replay(cfg, inputs)).sent;
    ChronologicalEmission(cfg, inputs);
    FlatChronological(sent, |sent|);
    assert sent[..|sent|] == sent;
  }

  /** Two windows that are still open in the end are flushed with the later one first. */
  lemma FlushedBackwards(cfg: Config, a: Event, b: Event)
    requires cfg.eventJitter == 1 && cfg.deliveryJitter == 100 && a.time == 0 && b.time == 10
    ensures var sent := Finish(Replay(cfg, [Arrival(0, a), Arrival(10, b)])).sent;
            && |sent| == 3 && sent[2] == [Window(10, 11, map[b.key := b]), Window(0, 1, map[a.key := a])]
            && !Chronological(Flat(sent))
  {
    var inputs := [Arrival(0, a), Arrival(10, b)];
    TwoWindows(cfg, inputs[0], inputs[1]);
    var h := Replay(cfg, inputs);
    assert |Finish(h).sent| == 3 && Finish(h).sent[2] == OnFlush(h.open).closed;
    LaterFirst(b, a);
    StreamChronologicalIff(cfg, inputs);
  }

  lemma LaterFirst(b: Event, a: Event)
    requires a.time < b.time
    ensures !Chronological([Window(10, 11, map[b.key := b]), Window(0, 1, map[a.key := a])])
  {
    var v, w := Window(10, 11, map[b.key := b]), Window(0, 1, map[a.key := a]);
    assert v.Holds(b) && w.Holds(a);
    assert !NoLater([v, w][0], [v, w][1]);
  }

  lemma TwoWindows(cfg: Config, x: Input, y: Input)
    requires cfg.eventJitter == 1 && cfg.deliveryJitter == 100
    requires x.Arrival? && x.at == x.event.time == 0 && y.Arrival? && y.at == y.event.time == 10
    ensures var h := Replay(cfg, [x, y]);
            && h.open == [Window(0, 1, map[x.event.key := x.event]), Window(10, 11, map[y.event.key := y.event])]
            && |h.sent| == 2
  {
    var w := Window(0, 1, map[x.event.key := x.event]);
    assert [x, y][..1] == [x] && [x][..0] == [];
    assert Replay(cfg, [x]).open == [w] && |Replay(cfg, [x]).sent| == 1 by {
      assert Replay(cfg, []) == History([], [], multiset{}, multiset{});
      assert Target([], 0) == 0;
      assert [] + [w] == [w];
    }
    assert Target([w], 10) == 1;
  }

  // ---------------------------------------------------------------- conservation

  lemma FlatTotal(sent: seq<seq<Window>>, more: seq<Window>)
    ensures Total(Flat(sent + [more])) == Total(Flat(sent)) + Total(more)
  {
    assert (sent + [more])[..|sent|] == sent;
    TotalConcat(Flat(sent), more);
  }

  lemma Balance(accepted: multiset<Event>, open: multiset<Event>, sent: multiset<Event>, lost: multiset<Event>,
                came: multiset<Event>, open': multiset<Event>, closed: multiset<Event>, gone: multiset<Event>)
    requires accepted == open + sent + lost && open' + closed + gone == open + came
    ensures accepted + came == open' + (sent + closed) + (lost + gone)
  {
    forall x: Event ensures (accepted + came)[x] == (open' + (sent + closed) + (lost + gone))[x] {
      assert (open' + closed + gone)[x] == (open + came)[x];
    }
  }

  ghost predicate Accounted(h: History) {
    h.accepted == Total(h.open) + Total(Flat(h.sent)) + h.lost
  }

  lemma AdvanceKeepsAccounted(cfg: Config, h: History, input: Input)
    requires WellFormed(cfg, h.open) && Accounted(h)
    ensures Accounted(Advance(cfg, h, input))
  {
    var o, h' := Handle(cfg, h.open, input), Advance(cfg, h, input);
    FlatTotal(h.sent, o.closed);
    if input.Arrival? {
      var came := if Accepts(cfg, h.open, input.at, input.event) then multiset{input.event} else multiset{};
      EventAccounts(cfg, h.open, input.at, input.event);
      Balance(h.accepted, Total(h.open), Total(Flat(h.sent)), h.lost,
              came, Total(o.open), Total(o.closed), Lost(cfg, h.open, input.at, input.event));
    } else {
      TotalPartition(cfg, h.open, input.at);
      Balance(h.accepted, Total(h.open), Total(Flat(h.sent)), h.lost,
              multiset{}, Total(o.open), Total(o.closed), multiset{});
    }
  }

  /** Every accepted event is pending, sent, or was overwritten: each of them exactly once. */
  lemma {:induction false} EveryEventAccountedFor(cfg: Config, inputs: seq<Input>)
    ensures var h := Replay(cfg, inputs);
            h.accepted == Total(h.open) + Total(Flat(h.sent)) + h.lost
  {
    if inputs != [] {
      EveryEventAccountedFor(cfg, inputs[..|inputs| - 1]);
      WindowsStaySound(cfg, inputs[..|inputs| - 1]);
      AdvanceKeepsAccounted(cfg, Replay(cfg, inputs[..|inputs| - 1]), inputs[|inputs| - 1]);
    }
  }

  /** Step `n` of the run brings an event 1ns earlier than the same-key event of its target batch. */
  ghost predicate NearMissAt(cfg: Config, inputs: seq<Input>, n: nat)
    requires n < |inputs|
  {
    && inputs[n].Arrival?
    && Overwrites(cfg, Replay(cfg, inputs[..n]).open, inputs[n].at, inputs[n].event)
  }

  /** How many events the first inputs lose, and which of them is a near miss. */
  ghost function LostBy(cfg: Config, inputs: seq<Input>): nat -> nat {
    (n: nat) => if n <= |inputs| then |Replay(cfg, inputs[..n]).lost| else 0
  }

  ghost function MissAt(cfg: Config, inputs: seq<Input>): nat -> bool {
    (n: nat) => n < |inputs| && NearMissAt(cfg, inputs, n)
  }

  lemma LostGrowsAt(cfg: Config, inputs: seq<Input>, n: nat)
    requires n < |inputs|
    ensures LostBy(cfg, inputs)(n + 1) == LostBy(cfg, inputs)(n) + if MissAt(cfg, inputs)(n) then 1 else 0
  {
    assert inputs[..n + 1][..n] == inputs[..n];
  }

  /** A count that grows by one at some steps is positive exactly if there was such a step. */
  lemma {:induction false} CountedIff(count: nat -> nat, at: nat -> bool, n: nat)
    requires count(0) == 0 && forall k: nat :: k < n ==> count(k + 1) == count(k) + if at(k) then 1 else 0
    ensures count(n) > 0 <==> exists k: nat :: k < n && at(k)
  {
    if n > 0 {
      CountedIff(count, at, n - 1);
      assert count(n - 1 + 1) == count(n - 1) + if at(n - 1) then 1 else 0;
    }
  }

  /** An event is lost exactly if there is a near miss. */
  lemma LossIffNearMiss(cfg: Config, inputs: seq<Input>)
    ensures |Replay(cfg, inputs).lost| > 0 <==> exists n: nat :: n < |inputs| && NearMissAt(cfg, inputs, n)
  {
    var count, at := LostBy(cfg, inputs), MissAt(cfg, inputs);
    forall k: nat | k < |inputs| ensures count(k + 1) == count(k) + if at(k) then 1 else 0 {
      LostGrowsAt(cfg, inputs, k);
    }
    CountedIff(count, at, |inputs|);
    assert inputs[..|inputs|] == inputs;
    assert forall n: nat :: n < |inputs| ==> at(n) == NearMissAt(cfg, inputs, n);
  }

  lemma NothingLostIff(accepted: multiset<Event>, sent: multiset<Event>, lost: multiset<Event>)
    requires accepted == sent + lost
    ensures accepted == sent <==> |lost| == 0
  {
    assert |accepted| == |sent| + |lost|;
    assert |lost| == 0 ==> lost == multiset{};
  }

  /**
   After any run and the final flush, the events sent are exactly the events accepted, if and
   only if no step was a near miss.
   */
  lemma ConservationIff(cfg: Config, inputs: seq<Input>)
    ensures var h := Finish(Replay(cfg, inputs));
            h.accepted == Total(Flat(h.sent)) <==>
            forall n :: 0 <= n < |inputs| ==> !NearMissAt(cfg, inputs, n)
  {
    var h := Replay(cfg, inputs);
    EveryEventAccountedFor(cfg, inputs);
    FlatTotal(h.sent, OnFlush(h.open).closed);
    FlushAccounts(h.open);
    NothingLostIff(h.accepted, Total(Flat(Finish(h).sent)), h.lost);
    LossIffNearMiss(cfg, inputs);
  }

  /** An event that opens the first window, and one of another key that joins it. */
  lemma TwoArrivals(cfg: Config, a: Input, b: Input)
    requires a.Arrival? && a.at == a.event.time == 0 && b.Arrival? && b.at == b.event.time == 1
    requires a.event.key != b.event.key && cfg.eventJitter > 0 && cfg.deliveryJitter > 0
    ensures var h := Replay(cfg, [a, b]);
            && h.open == [Window(0, cfg.eventJitter, map[a.event.key := a.event, b.event.key := b.event])]
            && h.lost == multiset{}
  {
    var w := Window(0, cfg.eventJitter, map[a.event.key := a.event]);
    assert [a, b][..1] == [a] && [a][..0] == [];
    assert Replay(cfg, [a]).open == [w] && Replay(cfg, [a]).lost == multiset{} by {
      assert Replay(cfg, []) == History([], [], multiset{}, multiset{});
      assert Target([], 0) == 0;
      assert [] + [w] == [w];
    }
    assert Target([w], 1) == 0;
  }

  /** A run that loses an event: two events of one key in an open window, the second 1ns earlier. */
  lemma NearMissLosesAnEvent(cfg: Config, j: Key, k: Key, p: Payload)
    requires j != k && cfg.eventJitter > 0 && cfg.deliveryJitter > 0
    ensures var inputs := [Arrival(0, Event(j, 0, p)), Arrival(1, Event(k, 1, p)), Arrival(1, Event(k, 0, p))];
            && NearMissAt(cfg, inputs, 2)
            && Replay(cfg, inputs).lost == multiset{Event(k, 1, p)}
  {
    var a, b, c := Arrival(0, Event(j, 0, p)), Arrival(1, Event(k, 1, p)), Arrival(1, Event(k, 0, p));
    TwoArrivals(cfg, a, b);
    assert [a, b, c][..2] == [a, b];
    assert Target(Replay(cfg, [a, b]).open, 0) == 0;
  }
}
