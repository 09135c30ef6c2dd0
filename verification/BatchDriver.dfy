/**
 The driver of the batcher: it sleeps until the earliest timer or the next message, closes
 windows when a timer is past, and flushes at the end.

 Each turn of the loop is described by what the environment shows it: the clock when the timers
 are checked, the clock when the batcher is called, and the message received, if any. The list of
 turns ends when the input channel is closed or a flush message arrives.
 */
module BatchDriving {
  import opened Basics
  import opened Batches
  import opened Batching
  import opened BatchRuns

  const NANOS_PER_SECOND: nat := 1_000_000_000

  datatype Turn = Turn(checkedAt: Time, handledAt: Time, message: Option<Event>)

  datatype TimeTo = Unbounded | Future(seconds: nat) | Past(timer: Time)

  datatype Drive = Drive(history: History, timers: set<Time>)

  /** The clock never goes backwards, within a turn or from one turn to the next. */
  ghost predicate ClockOk(turns: seq<Turn>) {
    && (forall i :: 0 <= i < |turns| ==> turns[i].checkedAt <= turns[i].handledAt)
    && (forall i, j :: 0 <= i < j < |turns| ==> turns[i].handledAt <= turns[j].checkedAt)
  }

  lemma SomeTimer(timers: set<Time>)
    requires timers != {}
    ensures exists t :: t in timers
  {
    assert (forall t :: t !in timers) ==> timers == {};
  }

  lemma {:induction false} EarliestExists(timers: set<Time>)
    requires timers != {}
    ensures exists t :: IsEarliest(timers, t)
  {
    SomeTimer(timers);
    var t :| t in timers;
    var rest := timers - {t};
    if rest == {} {
      assert timers == {t};
      assert IsEarliest(timers, t);
    } else {
      EarliestExists(rest);
      var u :| IsEarliest(rest, u);
      var least := if t < u then t else u;
      forall x <- timers ensures least <= x {
        assert x == t || x in rest;
      }
      assert IsEarliest(timers, least);
    }
  }

  ghost predicate IsEarliest(timers: set<Time>, t: Time) {
    t in timers && forall u <- timers :: t <= u
  }

  ghost function Earliest(timers: set<Time>): (t: Time)
    requires timers != {}
    ensures IsEarliest(timers, t)
  {
    EarliestExists(timers);
    var t :| IsEarliest(timers, t);
    t
  }

  /** The driver waits for a message unless a timer is strictly in the past. */
  ghost predicate Waits(timers: set<Time>, now: Time) {
    timers != {} ==> now <= Earliest(timers)
  }

  function WithTimer(timers: set<Time>, o: Outcome): set<Time> {
    if o.timer.Some? then timers + {o.timer.value} else timers
  }

  ghost function OnTurn(cfg: Config, d: Drive, turn: Turn): Drive {
    if !Waits(d.timers, turn.checkedAt) then
      Drive(Advance(cfg, d.history, Tick(turn.handledAt)), d.timers - {Earliest(d.timers)})
    else match turn.message
      case None => d
      case Some(e) =>
        Drive(Advance(cfg, d.history, Arrival(turn.handledAt, e)),
              WithTimer(d.timers, OnEvent(cfg, d.history.open, turn.handledAt, e)))
  }

  ghost function Driven(cfg: Config, turns: seq<Turn>): Drive {
    if turns == [] then Drive(Replay(cfg, []), {})
    else OnTurn(cfg, Driven(cfg, turns[..|turns| - 1]), turns[|turns| - 1])
  }

  // ---------------------------------------------------------------- a drive is a run

  /** What the driver hands to the batcher in one turn, if anything. */
  ghost function InputOf(d: Drive, turn: Turn): Option<Input> {
    if !Waits(d.timers, turn.checkedAt) then Some(Tick(turn.handledAt))
    else if turn.message.Some? then Some(Arrival(turn.handledAt, turn.message.value))
    else None
  }

  ghost function WithInput(inputs: seq<Input>, input: Option<Input>): seq<Input> {
    if input.Some? then inputs + [input.value] else inputs
  }

  /** The inputs the driver hands to the batcher. */
  ghost function InputsOf(cfg: Config, turns: seq<Turn>): seq<Input> {
    if turns == [] then []
    else
      var before := turns[..|turns| - 1];
      WithInput(InputsOf(cfg, before), InputOf(Driven(cfg, before), turns[|turns| - 1]))
  }

  lemma TurnAdvances(cfg: Config, d: Drive, turn: Turn)
    ensures var input := InputOf(d, turn);
            OnTurn(cfg, d, turn).history == if input.Some? then Advance(cfg, d.history, input.value) else d.history
  {}

  ghost predicate AllBy(inputs: seq<Input>, t: Time) {
    forall input <- inputs :: input.at <= t
  }

  lemma InputKeepsOrder(inputs: seq<Input>, input: Option<Input>, t: Time)
    requires NeverBackwards(inputs) && AllBy(inputs, t) && (input.Some? ==> input.value.at == t)
    ensures NeverBackwards(WithInput(inputs, input)) && AllBy(WithInput(inputs, input), t)
  {}

  lemma {:induction false} InputsInOrder(cfg: Config, turns: seq<Turn>)
    requires ClockOk(turns)
    ensures NeverBackwards(InputsOf(cfg, turns))
    ensures turns != [] ==> AllBy(InputsOf(cfg, turns), turns[|turns| - 1].handledAt)
  {
    if turns != [] {
      var n := |turns| - 1;
      var before := InputsOf(cfg, turns[..n]);
      InputsInOrder(cfg, turns[..n]);
      assert AllBy(before, turns[n].handledAt) by {
        assert n > 0 ==> turns[n - 1].handledAt <= turns[n].checkedAt;
      }
      InputKeepsOrder(before, InputOf(Driven(cfg, turns[..n]), turns[n]), turns[n].handledAt);
    }
  }

  /** The driver's history is a run of the batcher on a clock that never goes backwards. */
  lemma {:induction false} DriveIsRun(cfg: Config, turns: seq<Turn>)
    requires ClockOk(turns)
    ensures Driven(cfg, turns).history == Replay(cfg, InputsOf(cfg, turns))
    ensures NeverBackwards(InputsOf(cfg, turns))
  {
    InputsInOrder(cfg, turns);
    if turns != [] {
      var n := |turns| - 1;
      var before, d := InputsOf(cfg, turns[..n]), Driven(cfg, turns[..n]);
      DriveIsRun(cfg, turns[..n]);
      TurnAdvances(cfg, d, turns[n]);
      var input := InputOf(d, turns[n]);
      if input.Some? {
        assert (before + [input.value])[..|before|] == before;
      }
    }
  }

  lemma WaitsIff(timers: set<Time>, now: Time)
    ensures Waits(timers, now) <==> !exists t <- timers :: t < now
  {
    if timers != {} {
      var first := Earliest(timers);
      assert IsEarliest(timers, first);
    }
  }

  lemma TimerIsUsedUp(cfg: Config, d: Drive, turn: Turn)
    requires !Waits(d.timers, turn.checkedAt)
    ensures var d' := OnTurn(cfg, d, turn);
            && d'.history == Advance(cfg, d.history, Tick(turn.handledAt))
            && exists first <- d.timers :: (forall t <- d.timers :: first <= t) && d'.timers == d.timers - {first}
  {
    var first := Earliest(d.timers);
    assert IsEarliest(d.timers, first);
  }

  /**
   What a turn is: if a timer is past, the earliest one is used up and time passes; otherwise a message
   that came is handed to the batcher, which may ask for a timer; otherwise nothing happens.
   */
  lemma TurnIs(cfg: Config, d: Drive, turn: Turn)
    ensures var d' := OnTurn(cfg, d, turn);
            if exists t <- d.timers :: t < turn.checkedAt then
              && d'.history == Advance(cfg, d.history, Tick(turn.handledAt))
              && exists first <- d.timers :: (forall t <- d.timers :: first <= t) && d'.timers == d.timers - {first}
            else if turn.message.Some? then
              var o := OnEvent(cfg, d.history.open, turn.handledAt, turn.message.value);
              && d'.history == Advance(cfg, d.history, Arrival(turn.handledAt, turn.message.value))
              && d'.timers == if o.timer.Some? then d.timers + {o.timer.value} else d.timers
            else d' == d
  {
    WaitsIff(d.timers, turn.checkedAt);
    if !Waits(d.timers, turn.checkedAt) {
      TimerIsUsedUp(cfg, d, turn);
    }
  }

  /** Emission is chronological over any drive, the final flush included. */
  lemma DriveIsChronological(cfg: Config, turns: seq<Turn>)
    requires ClockOk(turns)
    ensures StepsInOrder(Finish(Driven(cfg, turns).history).sent)
  {
    DriveIsRun(cfg, turns);
    ChronologicalEmission(cfg, InputsOf(cfg, turns));
  }

  // ---------------------------------------------------------------- deadlines

  ghost predicate Covered(cfg: Config, ws: seq<Window>, timers: set<Time>) {
    forall w <- ws :: w.end + cfg.deliveryJitter in timers
  }

  lemma SettlingKeepsCovered(cfg: Config, filed: seq<Window>, timers: set<Time>, now: Time, end: Time)
    requires forall w <- filed :: w.end + cfg.deliveryJitter in timers || w.end == end
    ensures var o := Settle(cfg, filed, now, end); Covered(cfg, o.open, WithTimer(timers, o))
  {
    OnTimeMembers(cfg, filed, now);
  }

  lemma EventKeepsCovered(cfg: Config, ws: seq<Window>, timers: set<Time>, now: Time, e: Event)
    requires WellFormed(cfg, ws) && Covered(cfg, ws, timers)
    ensures var o := OnEvent(cfg, ws, now, e); Covered(cfg, o.open, WithTimer(timers, o))
  {
    if InTime(cfg, now, e) {
      var (filed, end) := File(cfg, ws, e);
      forall w <- filed ensures w.end + cfg.deliveryJitter in timers || end == Some(w.end) {
        FiledEnds(cfg, ws, e, w);
      }
      if end.Some? {
        SettlingKeepsCovered(cfg, filed, timers, now, end.value);
      }
    }
  }

  lemma TimerKeepsCovered(cfg: Config, ws: seq<Window>, timers: set<Time>, now: Time, at: Time)
    requires Covered(cfg, ws, timers) && !Waits(timers, now) && now <= at
    ensures Covered(cfg, OnTime(cfg, ws, at).open, timers - {Earliest(timers)})
  {
    OnTimeMembers(cfg, ws, at);
  }

  /** After filing, each window ends where an old one did, or is the new or shortened one. */
  lemma FiledEnds(cfg: Config, ws: seq<Window>, e: Event, w: Window)
    requires WellFormed(cfg, ws) && w in File(cfg, ws, e).0
    ensures (exists v <- ws :: v.end == w.end) || File(cfg, ws, e).1 == Some(w.end)
  {
    var i := Target(ws, e.time);
    var filed := File(cfg, ws, e).0;
    var j :| 0 <= j < |filed| && filed[j] == w;
    if i < |ws| {
      if j != i {
        assert ws[if j < |ws| then j else i].end == w.end;
      } else if AddTo(ws[i], e).Added? {
        assert ws[i].end == w.end;
      }
    } else if j < |ws| {
      assert ws[j].end == w.end;
    }
  }

  /** In every reachable state each open window has its deadline in the timer set. */
  lemma {:induction false} DeadlinesCovered(cfg: Config, turns: seq<Turn>)
    requires ClockOk(turns)
    ensures Covered(cfg, Driven(cfg, turns).history.open, Driven(cfg, turns).timers)
  {
    if turns != [] {
      var n := |turns| - 1;
      var before, turn := Driven(cfg, turns[..n]), turns[n];
      DeadlinesCovered(cfg, turns[..n]);
      DriveIsRun(cfg, turns[..n]);
      WindowsStaySound(cfg, InputsOf(cfg, turns[..n]));
      if !Waits(before.timers, turn.checkedAt) {
        TimerKeepsCovered(cfg, before.history.open, before.timers, turn.checkedAt, turn.handledAt);
      } else if turn.message.Some? {
        EventKeepsCovered(cfg, before.history.open, before.timers, turn.handledAt, turn.message.value);
      }
    }
  }

  /** What the driver does next, given its earliest timer: sleeping is rounded down to seconds. */
  ghost function TimeToNextTimer(timers: set<Time>, now: Time): (r: TimeTo)
    ensures r.Past? <==> !Waits(timers, now)
    ensures r.Past? ==> r.timer == Earliest(timers) < now
    ensures r.Unbounded? <==> timers == {}
    ensures r.Future? ==> now + r.seconds * NANOS_PER_SECOND <= Earliest(timers)
                          < now + (r.seconds + 1) * NANOS_PER_SECOND
  {
    if timers == {} then Unbounded
    else
      var gap := Earliest(timers) - now;
      if gap < 0 then Past(Earliest(timers)) else Future(gap / NANOS_PER_SECOND)
  }

  /**
   Whenever the driver waits, no open window is past its deadline, every pending event is at most
   an event jitter and a delivery jitter old, and the sleep ends before the first deadline.
   */
  lemma NothingOverdueWhenWaiting(cfg: Config, turns: seq<Turn>, now: Time)
    requires ClockOk(turns) && Waits(Driven(cfg, turns).timers, now)
    ensures var d := Driven(cfg, turns);
            forall w <- d.history.open ::
              && now <= w.end + cfg.deliveryJitter
              && TimeToNextTimer(d.timers, now).Future?
              && now + TimeToNextTimer(d.timers, now).seconds * NANOS_PER_SECOND <= w.end + cfg.deliveryJitter
              && (forall e :: w.Holds(e) ==>
                    now <= w.end + cfg.deliveryJitter <= e.time + cfg.eventJitter + cfg.deliveryJitter)
  {
    var d := Driven(cfg, turns);
    DeadlinesCovered(cfg, turns);
    DriveIsRun(cfg, turns);
    WindowsStaySound(cfg, InputsOf(cfg, turns));
    forall w <- d.history.open
      ensures now <= w.end + cfg.deliveryJitter
      ensures TimeToNextTimer(d.timers, now).Future?
      ensures now + TimeToNextTimer(d.timers, now).seconds * NANOS_PER_SECOND <= w.end + cfg.deliveryJitter
      ensures forall e :: w.Holds(e) ==>
                now <= w.end + cfg.deliveryJitter <= e.time + cfg.eventJitter + cfg.deliveryJitter
    {
      assert w.Valid();
      assert w.end + cfg.deliveryJitter in d.timers;
    }
  }

  /** Handling a past timer uses it up, and closes all that is due. */
  lemma PastTimerIsConsumed(cfg: Config, d: Drive, turn: Turn)
    requires !Waits(d.timers, turn.checkedAt)
    ensures var d' := OnTurn(cfg, d, turn);
            && |d'.timers| == |d.timers| - 1
            && (forall w <- d'.history.open :: w.end + cfg.deliveryJitter > turn.handledAt)
  {
    OnTimeMembers(cfg, d.history.open, turn.handledAt);
  }

  /**
   The driver does not spin: from any point of any drive, whatever the clock does, it waits for a
   message within as many turns as it has timers.
   */
  lemma {:induction false} WaitsSoon(cfg: Config, turns: seq<Turn>, n: nat)
    requires n <= |turns| && n + |Driven(cfg, turns[..n]).timers| < |turns|
    ensures exists k :: n <= k <= n + |Driven(cfg, turns[..n]).timers| &&
              Waits(Driven(cfg, turns[..k]).timers, turns[k].checkedAt)
    decreases |Driven(cfg, turns[..n]).timers|
  {
    var d := Driven(cfg, turns[..n]);
    if !Waits(d.timers, turns[n].checkedAt) {
      PastTimerIsConsumed(cfg, d, turns[n]);
      assert turns[..n + 1][..n] == turns[..n];
      WaitsSoon(cfg, turns, n + 1);
    }
  }

  // ---------------------------------------------------------------- the driver object

  class BatchDriver {
    const batcher: Batcher
    // How many messages the receiver of the batches takes before it is gone, if it ever is
    const room: Option<nat>
    var timers: set<Time>
    var sent: seq<seq<Event>>
    var flushed: bool

    ghost predicate Valid()
      reads this, batcher, batcher.batches
    {
      batcher.Valid()
    }

    /** The object agrees with a drive: same open windows, same timers, same batches sent. */
    ghost predicate Matches(d: Drive)
      reads this, batcher, batcher.batches
    {
      Agrees(d, batcher.View(), timers, sent)
    }

    /** The receiver was gone before it could take all that the drive sends. */
    ghost predicate CutOff(d: Drive)
      reads this
    {
      DeliversPart(sent, Flat(d.history.sent)) && |sent| < |Flat(d.history.sent)| && room == Some(|sent|)
    }

    constructor (config: Config, room: Option<nat>)
      ensures Valid() && !flushed && batcher.config == config && this.room == room && fresh(batcher)
      ensures Matches(Driven(config, [])) && batcher.batches == []
    {
      batcher := new Batcher(config);
      this.room, timers, sent, flushed := room, {}, [], false;
    }

    /**
     The driver's loop, to its end: the batches of the drive are sent, in order, and then the flush
     mark; or, if the receiver is gone before that, as many of them as it takes, and it fails.
     */
    method Run(turns: seq<Turn>) returns (ok: bool)
      requires Valid() && batcher.batches == [] && timers == {} && sent == [] && !flushed
      modifies this, batcher, batcher.batches
      ensures var all := Flat(Finish(Driven(batcher.config, turns).history).sent);
              && DeliversPart(sent, all)
              && (ok <==> Takes(room, |all|))
              && |sent| == (if ok then |all| else room.value)
      ensures flushed == ok
    {
      for i := 0 to |turns|
        invariant Valid() && !flushed && Fits(room, |sent|)
        invariant forall j :: 0 <= j < |batcher.batches| ==> fresh(batcher.batches[j])
        invariant Matches(Driven(batcher.config, turns[..i]))
      {
        assert turns[..i + 1][..i] == turns[..i];
        ok := TakeTurn(turns[i], Driven(batcher.config, turns[..i]));
        if !ok {
          SentAlongTheWay(batcher.config, turns, i + 1);
          return;
        }
        assert forall j :: 0 <= j < |batcher.batches| ==> batcher.batches[j] in batcher.batches;
      }
      assert turns[..|turns|] == turns;
      ok := Flush(Driven(batcher.config, turns));
    }

    method TakeTurn(turn: Turn, ghost d: Drive) returns (ok: bool)
      requires Valid() && Matches(d) && Fits(room, |sent|)
      modifies this, batcher, batcher.batches
      ensures flushed == old(flushed) && Fits(room, |sent|)
      ensures forall b <- batcher.batches :: b in old(batcher.batches) || fresh(b)
      ensures var d' := OnTurn(batcher.config, d, turn); if ok then Valid() && Matches(d') else CutOff(d')
    {
      ok := true;
      var next := NextTimer();
      if next.Some? && next.value < turn.checkedAt {
        ok := TakeTimer(next.value, turn, d);
      } else if turn.message.Some? {
        ok := TakeMessage(turn.message.value, turn, d);
      }
    }

    method TakeTimer(timer: Time, turn: Turn, ghost d: Drive) returns (ok: bool)
      requires Valid() && Matches(d) && timers != {} && timer == Earliest(timers) < turn.checkedAt
      requires Fits(room, |sent|)
      modifies this, batcher, batcher.batches
      ensures flushed == old(flushed) && Fits(room, |sent|)
      ensures forall b <- batcher.batches :: b in old(batcher.batches)
      ensures var d' := OnTurn(batcher.config, d, turn); if ok then Valid() && Matches(d') else CutOff(d')
    {
      timers := timers - {timer};
      ok := HandleTime(turn.handledAt);
      TimerTurn(batcher.config, d, turn, old(sent), sent, ok);
    }

    method TakeMessage(event: Event, turn: Turn, ghost d: Drive) returns (ok: bool)
      requires Valid() && Matches(d) && Waits(timers, turn.checkedAt) && turn.message == Some(event)
      requires Fits(room, |sent|)
      modifies this, batcher, batcher.batches
      ensures flushed == old(flushed) && Fits(room, |sent|)
      ensures forall b <- batcher.batches :: b in old(batcher.batches) || fresh(b)
      ensures var d' := OnTurn(batcher.config, d, turn); if ok then Valid() && Matches(d') else CutOff(d')
    {
      ok := HandleEvent(turn.handledAt, event);
      MessageTurn(batcher.config, d, turn, old(sent), sent, ok);
    }

    /** The first timer of the ordered set. */
    method NextTimer() returns (r: Option<Time>)
      ensures r.None? <==> timers == {}
      ensures r.Some? ==> r.value == Earliest(timers)
    {
      if timers == {} {
        return None;
      }
      SomeTimer(timers);
      var t :| t in timers;
      var rest := timers - {t};
      while rest != {}
        invariant rest <= timers && t in timers
        invariant forall u <- timers :: u in rest || t <= u
        decreases rest
      {
        SomeTimer(rest);
        var u :| u in rest;
        rest := rest - {u};
        if u < t {
          t := u;
        }
      }
      return Some(t);
    }

    /** Sends a batch, unless the receiver is gone. */
    method Send(batch: seq<Event>) returns (ok: bool)
      requires Fits(room, |sent|)
      modifies this`sent
      ensures ok <==> Takes(room, |old(sent)|)
      ensures sent == (if ok then old(sent) + [batch] else old(sent)) && Fits(room, |sent|)
    {
      ok := Takes(room, |sent|);
      if ok {
        sent := sent + [batch];
      }
    }

    /** Sends the batches in turn, up to the first that is not taken. */
    method SendAll(vecs: seq<seq<Event>>, ghost ws: seq<Window>) returns (ok: bool)
      requires Delivers(vecs, ws) && Fits(room, |sent|)
      modifies this`sent
      ensures Grew(old(sent), sent, ws, ok) && Fits(room, |sent|) && (ok || room == Some(|sent|))
    {
      ok := true;
      GrewNothing(sent);
      for i := 0 to |vecs|
        invariant ok && Fits(room, |sent|) && Grew(old(sent), sent, ws[..i], true)
      {
        GrewNext(old(sent), sent, ws, i, vecs[i]);
        GrewNotAll(old(sent), sent, ws, i);
        ok := Send(vecs[i]);
        if !ok {
          return;
        }
      }
      assert ws[..|ws|] == ws;
    }

    method HandleTime(now: Time) returns (ok: bool)
      requires Valid() && Fits(room, |sent|)
      modifies this`sent, batcher
      ensures Valid() && Fits(room, |sent|) && (ok || room == Some(|sent|))
      ensures forall b <- batcher.batches :: b in old(batcher.batches)
      ensures var o := OnTime(batcher.config, old(batcher.View()), now);
              batcher.View() == o.open && Grew(old(sent), sent, o.closed, ok)
    {
      ghost var o := OnTime(batcher.config, batcher.View(), now);
      var vecs := batcher.Time(now);
      ok := SendAll(vecs, o.closed);
    }

    method HandleEvent(now: Time, event: Event) returns (ok: bool)
      requires Valid() && Fits(room, |sent|)
      modifies this`sent, this`timers, batcher, batcher.batches
      ensures Valid() && Fits(room, |sent|) && (ok || room == Some(|sent|))
      ensures forall b <- batcher.batches :: b in old(batcher.batches) || fresh(b)
      ensures var o := OnEvent(batcher.config, old(batcher.View()), now, event);
              && batcher.View() == o.open
              && timers == WithTimer(old(timers), o)
              && Grew(old(sent), sent, o.closed, ok)
    {
      ghost var o := OnEvent(batcher.config, batcher.View(), now, event);
      var out := batcher.Event(now, event);
      ok := Dispatch(out, o);
    }

    /** Sends the batches, up to the first that is not taken, or records the timer asked for. */
    method Dispatch(out: seq<BatcherOutput>, ghost o: Outcome) returns (ok: bool)
      requires Reports(out, o) && Fits(room, |sent|)
      modifies this`timers, this`sent
      ensures timers == WithTimer(old(timers), o) && Fits(room, |sent|) && (ok || room == Some(|sent|))
      ensures Grew(old(sent), sent, o.closed, ok)
    {
      ok := true;
      GrewNothing(sent);
      for i := 0 to |out|
        invariant ok && Fits(room, |sent|)
        invariant if o.timer.Some? then sent == old(sent) else Grew(old(sent), sent, o.closed[..i], true)
        invariant timers == if i == 0 then old(timers) else WithTimer(old(timers), o)
      {
        match out[i] {
          case BatchOutput(batch) =>
            GrewNext(old(sent), sent, o.closed, i, batch);
            GrewNotAll(old(sent), sent, o.closed, i);
            ok := Send(batch);
            if !ok {
              return;
            }
          case TimerOutput(t) =>
            timers := timers + {t};
        }
      }
      assert o.closed[..|o.closed|] == o.closed;
    }

    method Flush(ghost d: Drive) returns (ok: bool)
      requires Valid() && Matches(d) && Fits(room, |sent|) && !flushed
      modifies this, batcher
      ensures var all := Flat(Finish(d.history).sent);
              && DeliversPart(sent, all)
              && (ok <==> Takes(room, |all|))
              && |sent| == (if ok then |all| else room.value)
      ensures flushed == ok
    {
      ghost var ws := OnFlush(d.history.open).closed;
      var vecs := batcher.Flush();
      ok := SendAll(vecs, ws);
      SentGrows(d.history.sent, old(sent), sent, ws, ok);
      if ok {
        ok := Takes(room, |sent|);
        flushed := ok;
      }
    }
  }

  /** The receiver takes one more message after `n` of them. */
  predicate Takes(room: Option<nat>, n: nat) {
    room.Some? ==> n < room.value
  }

  /** No more was sent than the receiver takes. */
  predicate Fits(room: Option<nat>, n: nat) {
    room.Some? ==> n <= room.value
  }

  /** The first batches of `ws`, each in some order. */
  ghost predicate DeliversPart(sent: seq<seq<Event>>, ws: seq<Window>) {
    |sent| <= |ws| && Delivers(sent, ws[..|sent|])
  }

  /** After what was sent before, the batches of `ws` were sent, all of them if `ok` and else not. */
  ghost predicate Grew(before: seq<seq<Event>>, after: seq<seq<Event>>, ws: seq<Window>, ok: bool) {
    && before <= after && DeliversPart(after[|before|..], ws)
    && (ok <==> |after| == |before| + |ws|)
  }

  lemma GrewNothing(before: seq<seq<Event>>)
    ensures Grew(before, before, [], true)
  {}

  lemma GrewNext(before: seq<seq<Event>>, after: seq<seq<Event>>, ws: seq<Window>, i: nat, batch: seq<Event>)
    requires i < |ws| && Grew(before, after, ws[..i], true) && multiset(batch) == ws[i].Contents()
    ensures Grew(before, after + [batch], ws[..i + 1], true)
  {
    var sent := after[|before|..];
    assert (after + [batch])[|before|..] == sent + [batch];
    assert ws[..i][..i] == ws[..i] && ws[..i + 1][..i + 1] == ws[..i] + [ws[i]];
  }

  lemma GrewNotAll(before: seq<seq<Event>>, after: seq<seq<Event>>, ws: seq<Window>, i: nat)
    requires i < |ws| && Grew(before, after, ws[..i], true)
    ensures Grew(before, after, ws, false)
  {
    assert ws[..i][..i] == ws[..i];
  }

  /** Same open windows, same timers, same batches sent. */
  ghost predicate Agrees(d: Drive, open: seq<Window>, timers: set<Time>, sent: seq<seq<Event>>) {
    open == d.history.open && timers == d.timers && Delivers(sent, Flat(d.history.sent))
  }

  /** Only the first of the batches were sent. */
  ghost predicate Partly(d: Drive, sent: seq<seq<Event>>) {
    DeliversPart(sent, Flat(d.history.sent)) && |sent| < |Flat(d.history.sent)|
  }

  lemma TimerTurn(cfg: Config, d: Drive, turn: Turn, before: seq<seq<Event>>, after: seq<seq<Event>>, ok: bool)
    requires Agrees(d, d.history.open, d.timers, before) && !Waits(d.timers, turn.checkedAt)
    requires Grew(before, after, OnTime(cfg, d.history.open, turn.handledAt).closed, ok)
    ensures if ok then Agrees(OnTurn(cfg, d, turn), OnTime(cfg, d.history.open, turn.handledAt).open,
                              d.timers - {Earliest(d.timers)}, after)
            else Partly(OnTurn(cfg, d, turn), after)
  {
    SentGrows(d.history.sent, before, after, OnTime(cfg, d.history.open, turn.handledAt).closed, ok);
  }

  lemma MessageTurn(cfg: Config, d: Drive, turn: Turn, before: seq<seq<Event>>, after: seq<seq<Event>>, ok: bool)
    requires Agrees(d, d.history.open, d.timers, before) && Waits(d.timers, turn.checkedAt) && turn.message.Some?
    requires Grew(before, after, OnEvent(cfg, d.history.open, turn.handledAt, turn.message.value).closed, ok)
    ensures var o := OnEvent(cfg, d.history.open, turn.handledAt, turn.message.value);
            if ok then Agrees(OnTurn(cfg, d, turn), o.open, WithTimer(d.timers, o), after)
            else Partly(OnTurn(cfg, d, turn), after)
  {
    SentGrows(d.history.sent, before, after,
              OnEvent(cfg, d.history.open, turn.handledAt, turn.message.value).closed, ok);
  }

  lemma FlatSnoc(sent: seq<seq<Window>>, ws: seq<Window>)
    ensures Flat(sent + [ws]) == Flat(sent) + ws
  {
    assert (sent + [ws])[..|sent|] == sent;
  }

  lemma SentGrows(sent: seq<seq<Window>>, before: seq<seq<Event>>, after: seq<seq<Event>>, ws: seq<Window>, ok: bool)
    requires Delivers(before, Flat(sent)) && Grew(before, after, ws, ok)
    ensures DeliversPart(after, Flat(sent + [ws]))
    ensures ok <==> |after| == |Flat(sent + [ws])|
  {
    FlatSnoc(sent, ws);
    var more := after[|before|..];
    DeliversConcat(before, Flat(sent), more, ws[..|more|]);
    assert after == before + more;
    assert (Flat(sent) + ws)[..|after|] == Flat(sent) + ws[..|more|];
  }

  lemma DeliversConcat(a: seq<seq<Event>>, ws: seq<Window>, b: seq<seq<Event>>, vs: seq<Window>)
    requires Delivers(a, ws) && Delivers(b, vs)
    ensures Delivers(a + b, ws + vs)
  {
    forall i | 0 <= i < |ws + vs| ensures multiset((a + b)[i]) == (ws + vs)[i].Contents() {
      if i >= |ws| {
        assert multiset(b[i - |ws|]) == vs[i - |ws|].Contents();
      }
    }
  }

  lemma TurnOnlyAdds(cfg: Config, d: Drive, turn: Turn)
    ensures Flat(d.history.sent) <= Flat(OnTurn(cfg, d, turn).history.sent)
  {
    TurnAdvances(cfg, d, turn);
    var input := InputOf(d, turn);
    if input.Some? {
      FlatSnoc(d.history.sent, Handle(cfg, d.history.open, input.value).closed);
    }
  }

  /** What is sent up to some turn is the beginning of all that is sent. */
  lemma {:induction false} SentAlongTheWay(cfg: Config, turns: seq<Turn>, i: nat)
    requires i <= |turns|
    ensures Flat(Driven(cfg, turns[..i]).history.sent) <= Flat(Finish(Driven(cfg, turns).history).sent)
  {
    var h := Driven(cfg, turns).history;
    FlatSnoc(h.sent, OnFlush(h.open).closed);
    var upTo := SentBy(cfg, turns);
    forall k | i <= k < |turns| ensures upTo(k) <= upTo(k + 1) {
      TurnOnlyAddsAt(cfg, turns, k);
    }
    Growing(upTo, i, |turns|);
    SentByAll(cfg, turns);
    BeginningOfBeginning(upTo(i), Flat(h.sent), Flat(Finish(h).sent));
  }

  lemma SentByAll(cfg: Config, turns: seq<Turn>)
    ensures SentBy(cfg, turns)(|turns|) == Flat(Driven(cfg, turns).history.sent)
  {
    assert turns[..|turns|] == turns;
  }

  lemma BeginningOfBeginning(a: seq<Window>, b: seq<Window>, c: seq<Window>)
    requires a <= b && b <= c
    ensures a <= c
  {}

  /** What is sent in the first turns. */
  ghost function SentBy(cfg: Config, turns: seq<Turn>): nat -> seq<Window> {
    (i: nat) => if i <= |turns| then Flat(Driven(cfg, turns[..i]).history.sent) else []
  }

  lemma TurnOnlyAddsAt(cfg: Config, turns: seq<Turn>, i: nat)
    requires i < |turns|
    ensures SentBy(cfg, turns)(i) <= SentBy(cfg, turns)(i + 1)
  {
    assert turns[..i + 1][..i] == turns[..i];
    TurnOnlyAdds(cfg, Driven(cfg, turns[..i]), turns[i]);
  }

  lemma {:induction false} Growing<T>(upTo: nat -> seq<T>, i: nat, j: nat)
    requires i <= j && forall k: nat :: i <= k < j ==> upTo(k) <= upTo(k + 1)
    ensures upTo(i) <= upTo(j)
    decreases j - i
  {
    if i < j {
      Growing(upTo, i, j - 1);
      assert upTo(j - 1) <= upTo(j - 1 + 1);
    }
  }
}
