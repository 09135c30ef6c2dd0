/**
 The batching algorithm: route each event into an open window, split a window when two events of
 the same key meet in it, and close a window once its end is a delivery jitter in the past.

 `OnEvent`, `OnTime` and `OnFlush` say what each operation does to the list of open windows;
 class `Batcher` performs it on a list of `Batch` objects.
 */
module Batching {
  import opened Basics
  import opened Batches

  datatype Config = Config(eventJitter: nat, deliveryJitter: nat, messageLeapLimit: nat)

  /** The windows left open, the windows closed (in the order sent), and the timer asked for. */
  datatype Outcome = Outcome(open: seq<Window>, closed: seq<Window>, timer: Option<Time>)

  /** Two closed windows that meet at most at an endpoint. */
  predicate Apart(a: Window, b: Window) {
    a.end <= b.start || b.end <= a.start
  }

  ghost predicate WellFormed(cfg: Config, ws: seq<Window>) {
    && (forall w <- ws :: w.Valid() && w.end - w.start <= cfg.eventJitter)
    && (forall i, j {:trigger Apart(ws[i], ws[j])} :: 0 <= i < j < |ws| ==> Apart(ws[i], ws[j]))
  }

  /** All the events of a list of windows. */
  ghost function Total(ws: seq<Window>): multiset<Event> {
    if ws == [] then multiset{} else ws[0].Contents() + Total(ws[1..])
  }

  // ---------------------------------------------------------------- the operations, on values

  /** The first window covering `t`, or `|ws|`. */
  function Target(ws: seq<Window>, t: Time): (i: nat)
    ensures i <= |ws|
    ensures forall j :: 0 <= j < i ==> !ws[j].Covers(t)
    ensures i < |ws| ==> ws[i].Covers(t)
  {
    if ws == [] || ws[0].Covers(t) then 0 else 1 + Target(ws[1..], t)
  }

  /** `end`, or the earliest start after `t` if that comes first. */
  function Clip(ws: seq<Window>, t: Time, end: Time): (r: Time)
    ensures r <= end && (t <= end ==> t <= r)
    ensures forall w <- ws :: w.start > t ==> r <= w.start
    ensures r == end || exists w <- ws :: w.start > t && r == w.start
  {
    if ws == [] then end
    else
      var r := Clip(ws[1..], t, end);
      if t < ws[0].start < r then ws[0].start else r
  }

  predicate IsOpen(cfg: Config, w: Window, now: Time) {
    w.end + cfg.deliveryJitter > now
  }

  function Select(cfg: Config, ws: seq<Window>, now: Time, open: bool): seq<Window> {
    if ws == [] then []
    else if IsOpen(cfg, ws[0], now) == open then [ws[0]] + Select(cfg, ws[1..], now, open)
    else Select(cfg, ws[1..], now, open)
  }

  lemma {:induction false} SelectMembers(cfg: Config, ws: seq<Window>, now: Time, open: bool)
    ensures forall w :: w in Select(cfg, ws, now, open) <==> w in ws && IsOpen(cfg, w, now) == open
  {
    if ws != [] {
      SelectMembers(cfg, ws[1..], now, open);
      assert ws == [ws[0]] + ws[1..];
    }
  }

  function OnTime(cfg: Config, ws: seq<Window>, now: Time): Outcome {
    Outcome(Select(cfg, ws, now, true), Select(cfg, ws, now, false), None)
  }

  function Settle(cfg: Config, ws: seq<Window>, now: Time, end: Time): Outcome {
    if now < end + cfg.deliveryJitter
    then Outcome(ws, [], Some(end + cfg.deliveryJitter))
    else OnTime(cfg, ws, now)
  }

  predicate InTime(cfg: Config, now: Time, e: Event) {
    now - cfg.deliveryJitter <= e.time <= now + cfg.messageLeapLimit
  }

  function NewWindow(cfg: Config, ws: seq<Window>, e: Event): Window {
    Window(e.time, Clip(ws, e.time, e.time + cfg.eventJitter), map[e.key := e])
  }

  /** The windows once an event is filed, and the end of the window that came out of it, if any. */
  function File(cfg: Config, ws: seq<Window>, e: Event): (seq<Window>, Option<Time>) {
    var i := Target(ws, e.time);
    if i == |ws| then
      var w := NewWindow(cfg, ws, e);
      (ws + [w], Some(w.end))
    else match AddTo(ws[i], e)
      case Added(w) => (ws[i := w], None)
      case Duplicate => (ws, None)
      case Split(low, high) => (ws[i := low] + [high], Some(low.end))
  }

  function OnEvent(cfg: Config, ws: seq<Window>, now: Time, e: Event): Outcome {
    if !InTime(cfg, now, e) then Outcome(ws, [], None)
    else
      var (filed, end) := File(cfg, ws, e);
      if end.Some? then Settle(cfg, filed, now, end.value) else Outcome(filed, [], None)
  }

  function OnFlush(ws: seq<Window>): (r: Outcome)
    ensures r.open == [] && |r.closed| == |ws|
    ensures forall i :: 0 <= i < |ws| ==> r.closed[i] == ws[|ws| - 1 - i]
  {
    Outcome([], seq(|ws|, i requires 0 <= i < |ws| => ws[|ws| - 1 - i]), None)
  }

  // ---------------------------------------------------------------- what every operation keeps

  lemma {:induction false} SelectKeepsApart(cfg: Config, ws: seq<Window>, now: Time, open: bool)
    requires WellFormed(cfg, ws)
    ensures WellFormed(cfg, Select(cfg, ws, now, open))
  {
    if ws != [] {
      var rest := ws[1..];
      assert forall w <- rest :: w in ws;
      SelectKeepsApart(cfg, rest, now, open);
      SelectMembers(cfg, rest, now, open);
      forall w <- Select(cfg, rest, now, open) ensures Apart(ws[0], w) {
        var i :| 0 <= i < |rest| && rest[i] == w;
        assert Apart(ws[0], ws[i + 1]);
      }
    }
  }

  /** What is closed and what stays open, by time. */
  lemma OnTimeMembers(cfg: Config, ws: seq<Window>, now: Time)
    ensures forall w :: w in OnTime(cfg, ws, now).open <==> w in ws && IsOpen(cfg, w, now)
    ensures forall w :: w in OnTime(cfg, ws, now).closed <==> w in ws && !IsOpen(cfg, w, now)
  {
    SelectMembers(cfg, ws, now, true);
    SelectMembers(cfg, ws, now, false);
  }

  lemma TimeKeepsWellFormed(cfg: Config, ws: seq<Window>, now: Time)
    requires WellFormed(cfg, ws)
    ensures WellFormed(cfg, OnTime(cfg, ws, now).open)
    ensures forall c <- OnTime(cfg, ws, now).closed :: c.Valid() && c.end - c.start <= cfg.eventJitter
    ensures forall c <- OnTime(cfg, ws, now).closed, o <- OnTime(cfg, ws, now).open :: c.end <= o.start
  {
    SelectKeepsApart(cfg, ws, now, true);
    OnTimeMembers(cfg, ws, now);
    forall c <- OnTime(cfg, ws, now).closed, o <- OnTime(cfg, ws, now).open
      ensures c.end <= o.start
    {
      var i :| 0 <= i < |ws| && ws[i] == c;
      var j :| 0 <= j < |ws| && ws[j] == o;
      assert if i < j then Apart(ws[i], ws[j]) else Apart(ws[j], ws[i]);
    }
  }

  lemma ReplacingKeepsWellFormed(cfg: Config, ws: seq<Window>, i: nat, w: Window)
    requires WellFormed(cfg, ws) && i < |ws|
    requires w.Valid() && ws[i].start <= w.start && w.end <= ws[i].end
    ensures WellFormed(cfg, ws[i := w])
    ensures forall j :: 0 <= j < |ws| && j != i ==> Apart(ws[j], w)
  {
    forall j | 0 <= j < |ws| && j != i ensures Apart(ws[j], w) && Apart(w, ws[j]) {
      assert if j < i then Apart(ws[j], ws[i]) else Apart(ws[i], ws[j]);
    }
    var r := ws[i := w];
    forall j, k | 0 <= j < k < |r| ensures Apart(r[j], r[k]) {
      assert j != i && k != i ==> Apart(ws[j], ws[k]);
    }
  }

  lemma AddingKeepsWellFormed(cfg: Config, ws: seq<Window>, w: Window)
    requires WellFormed(cfg, ws)
    requires w.Valid() && w.end - w.start <= cfg.eventJitter
    requires forall v <- ws :: Apart(v, w)
    ensures WellFormed(cfg, ws + [w])
  {
    var r := ws + [w];
    forall j, k | 0 <= j < k < |r| ensures Apart(r[j], r[k]) {
      assert k < |ws| ==> Apart(ws[j], ws[k]);
    }
  }

  lemma FilingKeepsWellFormed(cfg: Config, ws: seq<Window>, e: Event)
    requires WellFormed(cfg, ws)
    ensures WellFormed(cfg, File(cfg, ws, e).0)
  {
    var i := Target(ws, e.time);
    if i == |ws| {
      var w := NewWindow(cfg, ws, e);
      forall v <- ws ensures Apart(v, w) {
        assert v.Valid();
      }
      AddingKeepsWellFormed(cfg, ws, w);
    } else {
      assert ws[i].Valid();
      match AddTo(ws[i], e)
      case Added(w) =>
        AddedAccounts(ws[i], e);
        ReplacingKeepsWellFormed(cfg, ws, i, w);
      case Duplicate =>
      case Split(low, high) =>
        SplitTiles(ws[i], e);
        ReplacingKeepsWellFormed(cfg, ws, i, high);
        ReplacingKeepsWellFormed(cfg, ws, i, low);
        AddingKeepsWellFormed(cfg, ws[i := low], high);
    }
  }

  // ---------------------------------------------------------------- what becomes of the events

  lemma {:induction false} TotalConcat(a: seq<Window>, b: seq<Window>)
    ensures Total(a + b) == Total(a) + Total(b)
  {
    if a == [] {
      assert a + b == b;
    } else {
      assert (a + b)[1..] == a[1..] + b;
      TotalConcat(a[1..], b);
    }
  }

  lemma {:induction false} TotalUpdate(ws: seq<Window>, i: nat, w: Window)
    requires i < |ws|
    ensures Total(ws[i := w]) + ws[i].Contents() == Total(ws) + w.Contents()
  {
    if i > 0 {
      assert ws[i := w][1..] == ws[1..][i - 1 := w];
      TotalUpdate(ws[1..], i - 1, w);
      calc {
        Total(ws[i := w]) + ws[i].Contents();
        ws[0].Contents() + (Total(ws[1..][i - 1 := w]) + ws[1..][i - 1].Contents());
        ws[0].Contents() + (Total(ws[1..]) + w.Contents());
        Total(ws) + w.Contents();
      }
    } else {
      assert ws[i := w][1..] == ws[1..];
    }
  }

  lemma {:induction false} TotalPartition(cfg: Config, ws: seq<Window>, now: Time)
    ensures Total(Select(cfg, ws, now, true)) + Total(Select(cfg, ws, now, false)) == Total(ws)
  {
    if ws != [] {
      TotalPartition(cfg, ws[1..], now);
      var r := Select(cfg, ws, now, IsOpen(cfg, ws[0], now));
      assert r[1..] == Select(cfg, ws[1..], now, IsOpen(cfg, ws[0], now));
    }
  }

  lemma {:induction false} FlushAccounts(ws: seq<Window>)
    ensures Total(OnFlush(ws).closed) == Total(ws)
  {
    if ws != [] {
      FlushAccounts(ws[1..]);
      assert OnFlush(ws).closed == OnFlush(ws[1..]).closed + [ws[0]];
      TotalConcat(OnFlush(ws[1..]).closed, [ws[0]]);
    }
  }

  /** Neither too old, nor too futuristic, nor already in the batch it is meant for. */
  predicate Accepts(cfg: Config, ws: seq<Window>, now: Time, e: Event) {
    && InTime(cfg, now, e)
    && var i := Target(ws, e.time);
       i < |ws| ==> !AddTo(ws[i], e).Duplicate?
  }

  /** The event would overwrite a same-key event of its target batch. */
  predicate Overwrites(cfg: Config, ws: seq<Window>, now: Time, e: Event) {
    && InTime(cfg, now, e)
    && var i := Target(ws, e.time);
       i < |ws| && NearMiss(ws[i], e)
  }

  ghost function Lost(cfg: Config, ws: seq<Window>, now: Time, e: Event): multiset<Event> {
    if Overwrites(cfg, ws, now, e)
    then multiset{ws[Target(ws, e.time)].events[e.key]}
    else multiset{}
  }

  lemma ReplacementAccounts(ws: seq<Window>, i: nat, w: Window, more: seq<Window>,
                            came: multiset<Event>, lost: multiset<Event>)
    requires i < |ws|
    requires w.Contents() + Total(more) + lost == ws[i].Contents() + came
    ensures Total(ws[i := w] + more) + lost == Total(ws) + came
  {
    TotalUpdate(ws, i, w);
    TotalConcat(ws[i := w], more);
    forall x: Event ensures (Total(ws[i := w] + more) + lost)[x] == (Total(ws) + came)[x] {
      assert (w.Contents() + Total(more) + lost)[x] == (ws[i].Contents() + came)[x];
      assert (Total(ws[i := w]) + ws[i].Contents())[x] == (Total(ws) + w.Contents())[x];
    }
  }

  lemma NewWindowAccounts(cfg: Config, ws: seq<Window>, e: Event)
    ensures Total(ws + [NewWindow(cfg, ws, e)]) == Total(ws) + multiset{e}
  {
    var w := NewWindow(cfg, ws, e);
    TotalConcat(ws, [w]);
    assert w.events[e.key] == e;
    assert w.Contents() == multiset{e};
  }

  lemma AdditionAccounts(ws: seq<Window>, i: nat, e: Event)
    requires i < |ws| && ws[i].Valid() && ws[i].Covers(e.time)
    ensures match AddTo(ws[i], e)
            case Added(w) => Total(ws[i := w]) == Total(ws) + multiset{e}
            case Duplicate => true
            case Split(low, high) =>
              Total(ws[i := low] + [high]) + Overwritten(ws[i], e) == Total(ws) + multiset{e}
  {
    match AddTo(ws[i], e)
    case Added(w) =>
      AddedAccounts(ws[i], e);
      ReplacementAccounts(ws, i, w, [], multiset{e}, multiset{});
      assert ws[i := w] + [] == ws[i := w];
    case Duplicate =>
    case Split(low, high) =>
      SplitAccounts(ws[i], e);
      assert Total([high]) == high.Contents();
      ReplacementAccounts(ws, i, low, [high], multiset{e}, Overwritten(ws[i], e));
  }

  lemma SettlingAccounts(cfg: Config, ws: seq<Window>, now: Time, end: Time)
    ensures var o := Settle(cfg, ws, now, end); Total(o.open) + Total(o.closed) == Total(ws)
  {
    TotalPartition(cfg, ws, now);
  }

  lemma FilingAccounts(cfg: Config, ws: seq<Window>, now: Time, e: Event)
    requires WellFormed(cfg, ws) && Accepts(cfg, ws, now, e)
    ensures Total(File(cfg, ws, e).0) + Lost(cfg, ws, now, e) == Total(ws) + multiset{e}
  {
    var i := Target(ws, e.time);
    if i == |ws| {
      NewWindowAccounts(cfg, ws, e);
    } else {
      assert ws[i].Valid();
      AdditionAccounts(ws, i, e);
    }
  }

  lemma RejectedChangesNothing(cfg: Config, ws: seq<Window>, now: Time, e: Event)
    requires !Accepts(cfg, ws, now, e)
    ensures OnEvent(cfg, ws, now, e) == Outcome(ws, [], None) && Lost(cfg, ws, now, e) == multiset{}
  {}

  lemma AcceptedAccounts(cfg: Config, ws: seq<Window>, now: Time, e: Event)
    requires WellFormed(cfg, ws) && Accepts(cfg, ws, now, e)
    ensures var o := OnEvent(cfg, ws, now, e);
            Total(o.open) + Total(o.closed) == Total(File(cfg, ws, e).0)
  {
    var (filed, end) := File(cfg, ws, e);
    if end.Some? {
      SettlingAccounts(cfg, filed, now, end.value);
    }
  }

  /** One event: what is open or sent afterwards is what was open, plus it, minus what it overwrites. */
  lemma EventAccounts(cfg: Config, ws: seq<Window>, now: Time, e: Event)
    requires WellFormed(cfg, ws)
    ensures var o := OnEvent(cfg, ws, now, e);
            Total(o.open) + Total(o.closed) + Lost(cfg, ws, now, e)
            == Total(ws) + if Accepts(cfg, ws, now, e) then multiset{e} else multiset{}
  {
    if Accepts(cfg, ws, now, e) {
      AcceptedAccounts(cfg, ws, now, e);
      FilingAccounts(cfg, ws, now, e);
    } else {
      RejectedChangesNothing(cfg, ws, now, e);
    }
  }

  // ---------------------------------------------------------------- the batcher object

  datatype BatcherOutput = BatchOutput(events: seq<Event>) | TimerOutput(at: Time)

  ghost predicate Delivers(vecs: seq<seq<Event>>, ws: seq<Window>) {
    && |vecs| == |ws|
    && forall i :: 0 <= i < |ws| ==> multiset(vecs[i]) == ws[i].Contents()
  }

  /** The outputs returned by the batcher are exactly those of an outcome. */
  ghost predicate Reports(out: seq<BatcherOutput>, o: Outcome) {
    match o.timer
    case Some(t) => out == [TimerOutput(t)] && o.closed == []
    case None =>
      && |out| == |o.closed|
      && forall i :: 0 <= i < |out| ==>
           out[i].BatchOutput? && multiset(out[i].events) == o.closed[i].Contents()
  }

  ghost function Views(bs: seq<Batch>): (ws: seq<Window>)
    reads bs
    ensures |ws| == |bs| && forall i :: 0 <= i < |bs| ==> ws[i] == bs[i].View()
  {
    seq(|bs|, i requires 0 <= i < |bs| reads bs => bs[i].View())
  }

  function Max(a: Time, b: Time): Time {
    if a < b then b else a
  }

  ghost predicate Distinct(bs: seq<Batch>) {
    forall i, j :: 0 <= i < j < |bs| ==> bs[i] != bs[j]
  }

  ghost predicate DrawnFrom(bs: seq<Batch>, all: seq<Batch>) {
    Distinct(bs) && forall b <- bs :: b in all
  }

  lemma DrawnNext(bs: seq<Batch>, all: seq<Batch>, i: nat)
    requires Distinct(all) && i < |all| && DrawnFrom(bs, all[..i])
    ensures DrawnFrom(bs, all[..i + 1]) && DrawnFrom(bs + [all[i]], all[..i + 1])
  {
    forall b <- bs ensures b != all[i] && b in all[..i + 1] {
      var j :| 0 <= j < i && all[j] == b;
      assert all[..i + 1][j] == b;
    }
    assert all[..i + 1][i] == all[i];
    var r := bs + [all[i]];
    forall j, k | 0 <= j < k < |r| ensures r[j] != r[k] {
      assert r[j] == bs[j] && bs[j] in bs;
    }
  }

  class Batcher {
    const config: Config
    var batches: seq<Batch>

    ghost function View(): (ws: seq<Window>)
      reads this, batches
      ensures |ws| == |batches| && forall i :: 0 <= i < |batches| ==> ws[i] == batches[i].View()
    {
      Views(batches)
    }

    ghost predicate Valid()
      reads this, batches
    {
      && Distinct(batches)
      && WellFormed(config, View())
    }

    constructor (config: Config)
      ensures Valid() && View() == [] && this.config == config
    {
      this.config, this.batches := config, [];
    }

    method Event(processingTime: Time, event: Event) returns (out: seq<BatcherOutput>)
      requires Valid()
      modifies this, batches
      ensures Valid()
      ensures forall b <- batches :: b in old(batches) || fresh(b)
      ensures var o := OnEvent(config, old(View()), processingTime, event);
              View() == o.open && Reports(out, o)
    {
      if event.time < processingTime - config.deliveryJitter {
        return [];
      }
      if event.time > processingTime + config.messageLeapLimit {
        return [];
      }
      var end := FileEvent(event);
      if end.None? {
        return [];
      }
      out := OutputForBatchEnd(processingTime, end.value);
    }

    /** Files the event; returns the end of the new or shortened batch, if there is one. */
    method FileEvent(event: Event) returns (end: Option<Time>)
      requires Valid()
      modifies this, batches
      ensures Valid()
      ensures forall b <- batches :: b in old(batches) || fresh(b)
      ensures (View(), end) == File(config, old(View()), event)
    {
      FilingKeepsWellFormed(config, View(), event);
      var i := FindTargetBatch(event.time);
      if i == |batches| {
        end := AddNewBatch(event);
      } else {
        end := AddToBatch(i, event);
      }
    }

    method AddNewBatch(event: Event) returns (end: Option<Time>)
      requires Valid() && Target(View(), event.time) == |batches|
      modifies this
      ensures forall b <- batches :: b in old(batches) || fresh(b)
      ensures Distinct(batches)
      ensures var w := NewWindow(config, old(View()), event);
              View() == old(View()) + [w] && end == Some(w.end)
    {
      var newBatch := MakeNewBatch(event);
      batches := batches + [newBatch];
      end := Some(newBatch.batchEnd);
    }

    method AddToBatch(i: nat, event: Event) returns (end: Option<Time>)
      requires Valid() && i < |batches|
      modifies this, batches
      ensures forall b <- batches :: b in old(batches) || fresh(b)
      ensures Distinct(batches)
      ensures match AddTo(old(View())[i], event)
              case Added(w) => View() == old(View())[i := w] && end.None?
              case Duplicate => View() == old(View()) && end.None?
              case Split(low, high) =>
                View() == old(View())[i := low] + [high] && end == Some(low.end)
    {
      assert View()[i].Valid();
      var r := batches[i].Add(event);
      match r
      case BatchAdded => end := None;
      case BatchDuplicate => end := None;
      case BatchSplit(newBatch) =>
        end := Some(batches[i].batchEnd);
        batches := batches + [newBatch];
    }

    method OutputForBatchEnd(processingTime: Time, batchEnd: Time) returns (out: seq<BatcherOutput>)
      requires Valid()
      modifies this
      ensures Valid()
      ensures forall b <- batches :: b in old(batches)
      ensures var o := Settle(config, old(View()), processingTime, batchEnd);
              View() == o.open && Reports(out, o)
    {
      var batchTimeout := batchEnd + config.deliveryJitter;
      if processingTime < batchTimeout {
        return [TimerOutput(batchTimeout)];
      }
      var closed := Time(processingTime);
      out := seq(|closed|, i requires 0 <= i < |closed| => BatchOutput(closed[i]));
    }

    method Time(now: Time) returns (vecs: seq<seq<Event>>)
      requires Valid()
      modifies this
      ensures Valid()
      ensures forall b <- batches :: b in old(batches)
      ensures var o := OnTime(config, old(View()), now);
              View() == o.open && Delivers(vecs, o.closed)
    {
      TimeKeepsWellFormed(config, View(), now);
      ghost var o := OnTime(config, View(), now);
      var open, closed := Partition(now);
      vecs := IntoVecs(closed);
      batches := open;
      assert View() == o.open;
    }

    /** The batches still open at `now` and those that are not, each in the order of the list. */
    method Partition(now: Time) returns (open: seq<Batch>, closed: seq<Batch>)
      requires Distinct(batches)
      ensures DrawnFrom(open, batches)
      ensures Views(open) == Select(config, View(), now, true)
      ensures Views(closed) == Select(config, View(), now, false)
    {
      open, closed := [], [];
      ghost var all, ws := batches, View();
      for i := 0 to |batches|
        invariant open == Pick(config, all, ws, now, true, i)
        invariant closed == Pick(config, all, ws, now, false, i)
      {
        if IsOpenBatch(batches[i], now) {
          open := open + [batches[i]];
        } else {
          closed := closed + [batches[i]];
        }
      }
      PickIsSelect(config, all, now, true, |all|);
      PickIsSelect(config, all, now, false, |all|);
      assert ws[..|all|] == ws && all[..|all|] == all;
    }

    static method IntoVecs(bs: seq<Batch>) returns (vecs: seq<seq<Event>>)
      ensures Delivers(vecs, Views(bs))
    {
      vecs := [];
      for i := 0 to |bs|
        invariant |vecs| == i
        invariant forall j :: 0 <= j < i ==> multiset(vecs[j]) == bs[j].View().Contents()
      {
        var vec := bs[i].IntoVec();
        vecs := vecs + [vec];
      }
    }

    predicate IsOpenBatch(b: Batch, now: Time)
      reads b
    {
      b.batchEnd + config.deliveryJitter > now
    }

    method Flush() returns (vecs: seq<seq<Event>>)
      requires Valid()
      modifies this
      ensures Valid()
      ensures var o := OnFlush(old(View()));
              View() == o.open && Delivers(vecs, o.closed)
    {
      ghost var ws := View();
      vecs := [];
      while batches != []
        invariant |batches| + |vecs| == |ws| && View() == ws[..|batches|]
        invariant forall i :: 0 <= i < |vecs| ==> multiset(vecs[i]) == ws[|ws| - 1 - i].Contents()
        decreases |batches|
      {
        var vec := Pop();
        vecs := vecs + [vec];
      }
    }

    /** Takes the last batch off the list and empties it. */
    method Pop() returns (vec: seq<Event>)
      requires batches != []
      modifies this
      ensures batches == old(batches)[..|old(batches)| - 1]
      ensures View() == old(View())[..|old(batches)| - 1]
      ensures multiset(vec) == old(View())[|old(batches)| - 1].Contents()
    {
      var batch := batches[|batches| - 1];
      batches := batches[..|batches| - 1];
      vec := batch.IntoVec();
    }

    method FindTargetBatch(eventTime: Time) returns (i: nat)
      requires Valid()
      ensures i == Target(View(), eventTime)
    {
      i := 0;
      while i < |batches|
        invariant i <= |batches| && forall j :: 0 <= j < i ==> !View()[j].Covers(eventTime)
      {
        if batches[i].batchStart <= eventTime && eventTime <= batches[i].batchEnd {
          break;
        }
        i := i + 1;
      }
    }

    method MakeNewBatch(event: Event) returns (newBatch: Batch)
      requires Valid() && Target(View(), event.time) == |batches|
      ensures fresh(newBatch) && newBatch.View() == NewWindow(config, View(), event)
    {
      var batchStart := event.time;
      var batchEnd := batchStart + config.eventJitter;
      var previous := PreviousBatch(event.time);
      if previous != null {
        batchStart := Max(batchStart, previous.batchEnd);
      }
      var next := NextBatch(event.time);
      if next != null {
        batchEnd := if batchEnd <= next.batchStart then batchEnd else next.batchStart;
      }
      assert forall w <- View() :: w.start > event.time ==> batchEnd <= w.start;
      newBatch := new Batch(batchStart, batchEnd, map[event.key := event]);
    }

    method PreviousBatch(eventTime: Time) returns (r: Batch?)
      ensures r == null ==> forall b <- batches :: b.batchEnd >= eventTime
      ensures r != null ==> r in batches && r.batchEnd < eventTime
      ensures r != null ==> forall b <- batches :: b.batchEnd < eventTime ==> b.batchEnd <= r.batchEnd
    {
      r := null;
      for i := 0 to |batches|
        invariant r == null ==> forall b <- batches[..i] :: b.batchEnd >= eventTime
        invariant r != null ==> r in batches && r.batchEnd < eventTime
        invariant r != null ==> forall b <- batches[..i] :: b.batchEnd < eventTime ==> b.batchEnd <= r.batchEnd
      {
        if batches[i].batchEnd < eventTime && (r == null || r.batchEnd <= batches[i].batchEnd) {
          r := batches[i];
        }
      }
    }

    method NextBatch(eventTime: Time) returns (r: Batch?)
      ensures r == null ==> forall b <- batches :: b.batchStart <= eventTime
      ensures r != null ==> r in batches && r.batchStart > eventTime
      ensures r != null ==> forall b <- batches :: b.batchStart > eventTime ==> r.batchStart <= b.batchStart
    {
      r := null;
      for i := 0 to |batches|
        invariant r == null ==> forall b <- batches[..i] :: b.batchStart <= eventTime
        invariant r != null ==> r in batches && r.batchStart > eventTime
        invariant r != null ==> forall b <- batches[..i] :: b.batchStart > eventTime ==> r.batchStart <= b.batchStart
      {
        if batches[i].batchStart > eventTime && (r == null || batches[i].batchStart < r.batchStart) {
          r := batches[i];
        }
      }
    }
  }

  /** Of the first `n` batches, whose windows are `ws`, those open at `now`, or those not open. */
  ghost function Pick(cfg: Config, all: seq<Batch>, ws: seq<Window>, now: Time, open: bool, n: nat): seq<Batch>
    requires n <= |all| == |ws|
  {
    if n == 0 then []
    else if IsOpen(cfg, ws[n - 1], now) == open then Pick(cfg, all, ws, now, open, n - 1) + [all[n - 1]]
    else Pick(cfg, all, ws, now, open, n - 1)
  }

  lemma {:induction false} PickIsSelect(cfg: Config, all: seq<Batch>, now: Time, open: bool, n: nat)
    requires Distinct(all) && n <= |all|
    ensures var bs := Pick(cfg, all, Views(all), now, open, n);
            DrawnFrom(bs, all[..n]) && Views(bs) == Select(cfg, Views(all)[..n], now, open)
  {
    if n > 0 {
      var bs := Pick(cfg, all, Views(all), now, open, n - 1);
      PickIsSelect(cfg, all, now, open, n - 1);
      DrawnNext(bs, all, n - 1);
      SelectSnoc(cfg, Views(all), n - 1, now, open);
      assert Views(bs + [all[n - 1]]) == Views(bs) + [all[n - 1].View()];
    }
  }

  lemma {:induction false} SelectConcat(cfg: Config, a: seq<Window>, b: seq<Window>, now: Time, open: bool)
    ensures Select(cfg, a + b, now, open) == Select(cfg, a, now, open) + Select(cfg, b, now, open)
  {
    if a == [] {
      assert a + b == b;
    } else {
      assert (a + b)[1..] == a[1..] + b;
      SelectConcat(cfg, a[1..], b, now, open);
    }
  }

  lemma SelectSnoc(cfg: Config, ws: seq<Window>, i: nat, now: Time, open: bool)
    requires i < |ws|
    ensures Select(cfg, ws[..i + 1], now, open)
            == if IsOpen(cfg, ws[i], now) == open then Select(cfg, ws[..i], now, open) + [ws[i]]
               else Select(cfg, ws[..i], now, open)
  {
    assert ws[..i + 1] == ws[..i] + [ws[i]];
    SelectConcat(cfg, ws[..i], [ws[i]], now, open);
    assert [ws[i]][1..] == [];
  }
}
