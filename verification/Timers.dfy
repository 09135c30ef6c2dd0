/**
 Timers that cannot be cancelled once scheduled: stopping or restarting one only forgets it, and
 its future is ignored when it fires. `Model` is what the callers may think of instead: a map from
 keys to a value and a deadline.

 A future may fire at any time from its deadline on, and futures fire in any order.
 */
module KeyedTimers {
  import opened Basics

  type Instant = int
  type Key(==, !new)
  type Val(==, !new)

  /** A scheduled future: it fires for `key`, and remembers when it was started. */
  datatype Pending = Pending(key: Key, started: Instant, deadline: Instant)

  datatype State = State(status: map<Key, (Val, Instant)>, pending: multiset<Pending>)

  datatype Entry = Entry(value: Val, deadline: Instant)

  type Model = map<Key, Entry>

  datatype Op = Start(key: Key, value: Val, duration: nat, at: Instant)
              | Stop(key: Key)
              | Fire(future: Pending, at: Instant)

  /** The future is the latest timer started for its key. */
  predicate Live(s: State, p: Pending) {
    p.key in s.status && s.status[p.key].1 == p.started
  }

  /** What the operation does, and the entry it returns. */
  function Apply(s: State, op: Op): (State, Option<(Key, Val)>) {
    match op
    case Start(k, v, duration, at) =>
      (State(s.status[k := (v, at)], s.pending + multiset{Pending(k, at, at + duration)}), None)
    case Stop(k) =>
      (s.(status := s.status - {k}), if k in s.status then Some((k, s.status[k].0)) else None)
    case Fire(p, _) =>
      var rest := s.pending - multiset{p};
      if Live(s, p) then (State(s.status - {p.key}, rest), Some((p.key, s.status[p.key].0)))
      else (State(s.status, rest), None)
  }

  /** Only pending futures fire, and not before their deadline. */
  predicate Enabled(s: State, op: Op) {
    op.Fire? ==> op.future in s.pending && op.future.deadline <= op.at
  }

  /** No future of the same key was started at this same instant with a shorter duration. */
  ghost predicate NoEarlierClash(s: State, op: Op)
    requires op.Start?
  {
    forall p <- s.pending :: p.key == op.key && p.started == op.at ==> op.at + op.duration <= p.deadline
  }

  /** The same operation on the map; a future that fires counts only if it returned something. */
  function ApplyModel(m: Model, op: Op, returned: bool): Model {
    match op
    case Start(k, v, duration, at) => m[k := Entry(v, at + duration)]
    case Stop(k) => m - {k}
    case Fire(p, _) => if returned then m - {p.key} else m
  }

  /** No live future can fire before the deadline of its entry. */
  ghost predicate NoneEarly(s: State, m: Model) {
    forall p <- s.pending :: Live(s, p) ==> p.key in m && m[p.key].deadline <= p.deadline
  }

  ghost predicate Refines(s: State, m: Model) {
    && s.status.Keys == m.Keys
    && (forall k <- m :: s.status[k].0 == m[k].value)
    && (forall k <- m :: Pending(k, s.status[k].1, m[k].deadline) in s.pending)
    && NoneEarly(s, m)
  }

  lemma StartRefines(s: State, m: Model, op: Op)
    requires Refines(s, m) && op.Start? && NoEarlierClash(s, op)
    ensures Refines(Apply(s, op).0, ApplyModel(m, op, false))
  {
    var s', m' := Apply(s, op).0, ApplyModel(m, op, false);
    var started := Pending(op.key, op.at, op.at + op.duration);
    forall j <- m' ensures Pending(j, s'.status[j].1, m'[j].deadline) in s'.pending {
      assert j != op.key ==> Pending(j, s.status[j].1, m[j].deadline) in s.pending;
    }
    forall p <- s'.pending | Live(s', p) ensures p.key in m' && m'[p.key].deadline <= p.deadline {
      assert p in s.pending || p == started;
      assert p.key != op.key ==> Live(s, p);
    }
  }

  lemma FireRefines(s: State, m: Model, op: Op)
    requires Refines(s, m) && op.Fire? && Enabled(s, op)
    ensures Refines(Apply(s, op).0, ApplyModel(m, op, Apply(s, op).1.Some?))
  {
    var s' := Apply(s, op).0;
    var m' := ApplyModel(m, op, Apply(s, op).1.Some?);
    forall j <- m' ensures Pending(j, s'.status[j].1, m'[j].deadline) in s'.pending {
      var p := Pending(j, s.status[j].1, m[j].deadline);
      assert p in s.pending && Live(s, p);
      assert p != op.future;
    }
    forall p <- s'.pending | Live(s', p) ensures p.key in m' && m'[p.key].deadline <= p.deadline {
      assert p in s.pending && Live(s, p);
    }
  }

  /**
   One operation keeps the refinement; it returns an entry only if the map has it, and a timer
   that fires returns the latest value of its key, once its latest deadline has passed.
   */
  lemma StepRefines(s: State, m: Model, op: Op)
    requires Refines(s, m) && Enabled(s, op)
    requires op.Start? ==> NoEarlierClash(s, op)
    ensures var (s', r) := Apply(s, op);
            && Refines(s', ApplyModel(m, op, r.Some?))
            && (r.Some? ==> r.value.0 in m && r.value.1 == m[r.value.0].value)
            && (op.Stop? ==> (r.Some? <==> op.key in m))
            && (op.Fire? && r.Some? ==> r.value.0 == op.future.key && m[op.future.key].deadline <= op.at)
  {
    match op
    case Start(_, _, _, _) => StartRefines(s, m, op);
    case Stop(_) =>
    case Fire(_, _) => FireRefines(s, m, op);
  }

  /** A start with an earlier clash leaves a future that returns its value before its deadline. */
  lemma ClashedStartReturnsEarly(s: State, op: Op) returns (fire: Op)
    requires op.Start? && !NoEarlierClash(s, op)
    ensures fire.Fire? && fire.future.key == op.key && fire.at < op.at + op.duration
    ensures var s' := Apply(s, op).0; Enabled(s', fire) && Apply(s', fire).1 == Some((op.key, op.value))
  {
    var p :| p in s.pending && p.key == op.key && p.started == op.at && p.deadline < op.at + op.duration;
    fire := Fire(p, p.deadline);
  }

  // ---------------------------------------------------------------- whole runs

  function Run(ops: seq<Op>): State {
    if ops == [] then State(map[], multiset{})
    else Apply(Run(ops[..|ops| - 1]), ops[|ops| - 1]).0
  }

  /** What operation `n` returns. */
  function Returned(ops: seq<Op>, n: nat): Option<(Key, Val)>
    requires n < |ops|
  {
    Apply(Run(ops[..n]), ops[n]).1
  }

  function RunModel(ops: seq<Op>): Model {
    if ops == [] then map[]
    else ApplyModel(RunModel(ops[..|ops| - 1]), ops[|ops| - 1], Returned(ops, |ops| - 1).Some?)
  }

  ghost predicate Legal(ops: seq<Op>) {
    forall n :: 0 <= n < |ops| ==>
      Enabled(Run(ops[..n]), ops[n]) && (ops[n].Start? ==> NoEarlierClash(Run(ops[..n]), ops[n]))
  }

  lemma LegalPrefix(ops: seq<Op>, m: nat)
    requires Legal(ops) && m <= |ops|
    ensures Legal(ops[..m])
  {
    forall n | 0 <= n < m
      ensures Enabled(Run(ops[..m][..n]), ops[..m][n])
      ensures ops[..m][n].Start? ==> NoEarlierClash(Run(ops[..m][..n]), ops[..m][n])
    {
      assert ops[..m][..n] == ops[..n];
    }
  }

  /** After any run the timers refine the map. */
  lemma {:induction false} RunRefines(ops: seq<Op>)
    requires Legal(ops)
    ensures Refines(Run(ops), RunModel(ops))
  {
    if ops != [] {
      var n := |ops| - 1;
      LegalPrefix(ops, n);
      RunRefines(ops[..n]);
      assert Enabled(Run(ops[..n]), ops[n]);
      StepRefines(Run(ops[..n]), RunModel(ops[..n]), ops[n]);
    }
  }

  /** A timer that was replaced or stopped is never returned, and none is returned early. */
  lemma ReturnedIsLatestAndDue(ops: seq<Op>, n: nat)
    requires Legal(ops) && n < |ops| && ops[n].Fire? && Returned(ops, n).Some?
    ensures var (k, v) := Returned(ops, n).value;
            && k in RunModel(ops[..n])
            && v == RunModel(ops[..n])[k].value
            && RunModel(ops[..n])[k].deadline <= ops[n].at
            && k !in RunModel(ops[..n + 1])
  {
    LegalPrefix(ops, n);
    RunRefines(ops[..n]);
    assert Enabled(Run(ops[..n]), ops[n]);
    StepRefines(Run(ops[..n]), RunModel(ops[..n]), ops[n]);
    assert ops[..n + 1][..n] == ops[..n];
  }

  // ---------------------------------------------------------------- early returns

  ghost predicate AllEnabled(ops: seq<Op>) {
    forall n :: 0 <= n < |ops| ==> Enabled(Run(ops[..n]), ops[n])
  }

  /** If operation `n` is a future that fires and returns an entry, that entry is due. */
  ghost predicate ReturnIsDue(ops: seq<Op>, n: nat)
    requires n < |ops|
  {
    ops[n].Fire? && Returned(ops, n).Some? ==>
      var (k, v) := Returned(ops, n).value;
      k in RunModel(ops[..n]) && RunModel(ops[..n])[k].deadline <= ops[n].at
  }

  /** Whatever fires next, at any time it can, returns nothing before its deadline. */
  ghost predicate NothingEarlyNext(ops: seq<Op>) {
    forall fire: Op :: fire.Fire? && Enabled(Run(ops), fire) ==> ReturnIsDue(ops + [fire], |ops|)
  }

  lemma LegalSnoc(ops: seq<Op>, op: Op)
    requires Legal(ops) && Enabled(Run(ops), op) && (op.Start? ==> NoEarlierClash(Run(ops), op))
    ensures Legal(ops + [op])
  {
    var all := ops + [op];
    forall n | 0 <= n < |all|
      ensures Enabled(Run(all[..n]), all[n])
      ensures all[n].Start? ==> NoEarlierClash(Run(all[..n]), all[n])
    {
      assert all[..n] == ops[..n];
      assert n == |ops| ==> ops[..n] == ops;
    }
  }

  lemma LegalNothingEarlyNext(ops: seq<Op>)
    requires Legal(ops)
    ensures NothingEarlyNext(ops)
  {
    forall fire: Op | fire.Fire? && Enabled(Run(ops), fire) ensures ReturnIsDue(ops + [fire], |ops|) {
      LegalSnoc(ops, fire);
      if Returned(ops + [fire], |ops|).Some? {
        ReturnedIsLatestAndDue(ops + [fire], |ops|);
      }
    }
  }

  lemma ClashMakesEarlyNext(ops: seq<Op>, n: nat)
    requires n < |ops| && ops[n].Start? && !NoEarlierClash(Run(ops[..n]), ops[n])
    ensures !NothingEarlyNext(ops[..n + 1])
  {
    var prefix, before := ops[..n + 1], ops[..n];
    assert prefix[..n] == before;
    var fire := ClashedStartReturnsEarly(Run(before), ops[n]);
    var all := prefix + [fire];
    assert all[..n + 1] == prefix;
    assert RunModel(prefix)[ops[n].key] == Entry(ops[n].value, ops[n].at + ops[n].duration);
    assert Returned(all, n + 1) == Some((ops[n].key, ops[n].value));
    assert !ReturnIsDue(all, |prefix|);
  }

  /**
   In a run of enabled operations, no future could ever fire and return an entry before the deadline
   of that entry if and only if no start of the run has an earlier clash.
   */
  lemma NeverEarlyIff(ops: seq<Op>)
    requires AllEnabled(ops)
    ensures (forall n :: 0 <= n <= |ops| ==> NothingEarlyNext(ops[..n])) <==>
            forall n :: 0 <= n < |ops| && ops[n].Start? ==> NoEarlierClash(Run(ops[..n]), ops[n])
  {
    if n :| 0 <= n < |ops| && ops[n].Start? && !NoEarlierClash(Run(ops[..n]), ops[n]) {
      ClashMakesEarlyNext(ops, n);
    } else {
      forall n | 0 <= n <= |ops| ensures NothingEarlyNext(ops[..n]) {
        LegalPrefix(ops, n);
        LegalNothingEarlyNext(ops[..n]);
      }
    }
  }

  // ---------------------------------------------------------------- what became of each start

  /** How often a timer of `k` was started. */
  function Starts(ops: seq<Op>, k: Key): nat {
    if ops == [] then 0
    else Starts(ops[..|ops| - 1], k) + if ops[|ops| - 1].Start? && ops[|ops| - 1].key == k then 1 else 0
  }

  /** How often a start of `k` replaced an entry. */
  function Replacements(ops: seq<Op>, k: Key): nat {
    if ops == [] then 0
    else
      var n := |ops| - 1;
      Replacements(ops[..n], k)
      + if ops[n].Start? && ops[n].key == k && k in Run(ops[..n]).status then 1 else 0
  }

  /** How often a stop of `k` found an entry. */
  function Stops(ops: seq<Op>, k: Key): nat {
    if ops == [] then 0
    else
      var n := |ops| - 1;
      Stops(ops[..n], k) + if ops[n].Stop? && Returned(ops, n).Some? && ops[n].key == k then 1 else 0
  }

  predicate ReturnsTimer(ops: seq<Op>, n: nat, k: Key)
    requires n < |ops|
  {
    ops[n].Fire? && Returned(ops, n).Some? && Returned(ops, n).value.0 == k
  }

  /** How often a future fired and returned an entry of `k`. */
  function Returns(ops: seq<Op>, k: Key): nat {
    if ops == [] then 0
    else Returns(ops[..|ops| - 1], k) + if ReturnsTimer(ops, |ops| - 1, k) then 1 else 0
  }

  /** In every run each start was returned, stopped or replaced, or its entry is still there. */
  lemma {:induction false} StartsAccountedFor(ops: seq<Op>, k: Key)
    ensures Starts(ops, k)
            == Returns(ops, k) + Stops(ops, k) + Replacements(ops, k) + if k in Run(ops).status then 1 else 0
  {
    if ops != [] {
      StartsAccountedFor(ops[..|ops| - 1], k);
    }
  }

  /** Operation `n` starts, stops or returns a timer of `k`. */
  predicate Touches(ops: seq<Op>, n: nat, k: Key)
    requires n < |ops|
  {
    (!ops[n].Fire? && ops[n].key == k) || ReturnsTimer(ops, n, k)
  }

  /** The entry of `k` before operation `n` is the one started by operation `i`. */
  ghost predicate HeldSince(ops: seq<Op>, i: nat, n: nat, k: Key)
    requires n <= |ops|
  {
    && i < n && ops[i].Start? && ops[i].key == k
    && k in Run(ops[..n]).status && Run(ops[..n]).status[k] == (ops[i].value, ops[i].at)
    && forall j :: i < j < n ==> !Touches(ops, j, k)
  }

  lemma StaysHeld(ops: seq<Op>, i: nat, n: nat, k: Key)
    requires n < |ops| && HeldSince(ops, i, n, k)
    requires k in Run(ops[..n + 1]).status && !(ops[n].Start? && ops[n].key == k)
    ensures HeldSince(ops, i, n + 1, k)
  {
    assert ops[..n + 1][..n] == ops[..n];
    UntouchedStays(Run(ops[..n]), ops[n], k);
  }

  /** An operation that leaves an entry in place, and does not start it anew, does not touch it. */
  lemma UntouchedStays(s: State, op: Op, k: Key)
    requires k in Apply(s, op).0.status && !(op.Start? && op.key == k)
    ensures k in s.status && s.status[k] == Apply(s, op).0.status[k]
    ensures (op.Start? || op.Stop?) ==> op.key != k
    ensures op.Fire? && Apply(s, op).1.Some? ==> Apply(s, op).1.value.0 != k
  {}

  lemma {:induction false} EntryHasItsStart(ops: seq<Op>, n: nat, k: Key) returns (i: nat)
    requires n <= |ops| && k in Run(ops[..n]).status
    ensures HeldSince(ops, i, n, k)
  {
    assert n > 0 ==> ops[..n][..n - 1] == ops[..n - 1];
    if ops[n - 1].Start? && ops[n - 1].key == k {
      i := n - 1;
    } else {
      i := EntryHasItsStart(ops, n - 1, k);
      StaysHeld(ops, i, n - 1, k);
    }
  }

  /** The future that fires in operation `n` returns the entry started by operation `i`. */
  ghost predicate ReturnOf(ops: seq<Op>, i: nat, n: nat)
    requires n < |ops|
  {
    && ops[n].Fire? && HeldSince(ops, i, n, ops[n].future.key) && ops[n].future.started == ops[i].at
    && Returned(ops, n) == Some((ops[i].key, ops[i].value))
  }

  /**
   In every run a returned entry is that of the latest start of its key, not stopped since, and no
   start is returned twice.
   */
  lemma EachReturnHasItsOwnStart(ops: seq<Op>, n: nat)
    requires n < |ops| && ops[n].Fire? && Returned(ops, n).Some?
    ensures exists i: nat :: ReturnOf(ops, i, n)
    ensures forall i: nat, m: nat :: m < |ops| && ReturnOf(ops, i, n) && ReturnOf(ops, i, m) ==> m == n
  {
    var k := ops[n].future.key;
    var i := EntryHasItsStart(ops, n, k);
    assert ReturnOf(ops, i, n);
    forall i: nat, m: nat | m < |ops| && ReturnOf(ops, i, n) && ReturnOf(ops, i, m) ensures m == n {
      assert m < n ==> Touches(ops, m, k);
      assert n < m ==> Touches(ops, n, k);
    }
  }

  /** A clash: restarted in the same instant with a longer duration, the timer is returned early. */
  lemma ClashReturnsEarly(k: Key, v: Val, w: Val)
    ensures var ops := [Start(k, v, 1, 0), Start(k, w, 10, 0), Fire(Pending(k, 0, 1), 1)];
            && Enabled(Run(ops[..2]), ops[2])
            && Returned(ops, 2) == Some((k, w))
            && RunModel(ops[..2])[k].deadline == 10
  {
    var a, b, c := Start(k, v, 1, 0), Start(k, w, 10, 0), Fire(Pending(k, 0, 1), 1);
    TwoStarts(a, b);
    assert [a, b, c][..2] == [a, b];
  }

  lemma TwoStarts(a: Op, b: Op)
    requires a.Start? && b.Start? && a.key == b.key
    ensures Run([a, b]).status == map[a.key := (b.value, b.at)]
    ensures Pending(a.key, a.at, a.at + a.duration) in Run([a, b]).pending
    ensures RunModel([a, b]) == map[a.key := Entry(b.value, b.at + b.duration)]
  {
    assert [a, b][..1] == [a] && [a][..0] == [];
    assert Run([a]) == Apply(State(map[], multiset{}), a).0;
    assert RunModel([a]) == map[a.key := Entry(a.value, a.at + a.duration)];
  }

  // ---------------------------------------------------------------- the object

  class Timers {
    var status: map<Key, (Val, Instant)>
    var pending: multiset<Pending>

    function View(): State
      reads this
    {
      State(status, pending)
    }

    constructor ()
      ensures View() == Run([])
    {
      status, pending := map[], multiset{};
    }

    method StartTimer(key: Key, value: Val, duration: nat, now: Instant)
      modifies this
      ensures View() == Apply(old(View()), Start(key, value, duration, now)).0
    {
      pending := pending + multiset{Pending(key, now, now + duration)};
      status := status[key := (value, now)];
    }

    method StopTimer(key: Key) returns (r: Option<Val>)
      modifies this
      ensures View() == Apply(old(View()), Stop(key)).0
      ensures r == if key in old(status) then Some(old(status)[key].0) else None
    {
      if key in status {
        r := Some(status[key].0);
        status := status - {key};
      } else {
        r := None;
        assert status - {key} == status;
      }
    }

    function CurrentValue(key: Key): (r: Option<Val>)
      reads this
      ensures forall m: Model :: Refines(View(), m) ==>
                r == if key in m then Some(m[key].value) else None
    {
      if key in status then Some(status[key].0) else None
    }

    /** One future completes: its entry is returned, and forgotten, unless replaced or stopped. */
    method Complete(p: Pending, ghost at: Instant) returns (r: Option<(Key, Val)>)
      requires p in pending
      modifies this
      ensures (View(), r) == Apply(old(View()), Fire(p, at)) && |pending| < |old(pending)|
    {
      pending := pending - multiset{p};
      if p.key !in status || status[p.key].1 != p.started {
        return None;
      }
      var value := status[p.key].0;
      status := status - {p.key};
      return Some((p.key, value));
    }

    /**
     Fires futures, in the order the environment picks, until one of them is live: those of
     `skipped` returned nothing, and `last` is the one that did return something.
     */
    method NextTimedOutEntry(now: Instant)
      returns (r: Option<(Key, Val)>, ghost skipped: seq<Op>, ghost last: Option<Op>)
      modifies this
      ensures Silent(old(View()), skipped) && (r.Some? <==> last.Some?)
      ensures var s := RunFrom(old(View()), skipped);
              match last
              case None => View() == s && pending == multiset{}
              case Some(op) => op.Fire? && Enabled(s, op) && (View(), r) == Apply(s, op)
      ensures r.None? ==> OnlyEmpty(View())
    {
      skipped, last := [], None;
      var clock := now;
      while pending != multiset{}
        invariant View() == RunFrom(old(View()), skipped) && Silent(old(View()), skipped)
        decreases |pending|
      {
        var p :| p in pending;
        var late: int := *;
        clock := if clock < p.deadline then p.deadline else clock;
        clock := if clock < late then late else clock;
        ghost var op := Fire(p, clock);
        r := Complete(p, clock);
        if r.Some? {
          last := Some(op);
          return;
        }
        SilentSnoc(old(View()), skipped, op);
        skipped := skipped + [op];
      }
      NothingLeft(View());
      return None, skipped, None;
    }
  }

  function RunFrom(s: State, ops: seq<Op>): State {
    if ops == [] then s else Apply(RunFrom(s, ops[..|ops| - 1]), ops[|ops| - 1]).0
  }

  /** Firings that return nothing, one after the other. */
  ghost predicate Silent(s: State, ops: seq<Op>) {
    ops == [] ||
    var before, op := RunFrom(s, ops[..|ops| - 1]), ops[|ops| - 1];
    Silent(s, ops[..|ops| - 1]) && op.Fire? && Enabled(before, op) && Apply(before, op).1.None?
  }

  /** No map but the empty one is refined. */
  ghost predicate OnlyEmpty(s: State) {
    forall m: Model :: Refines(s, m) ==> m == map[]
  }

  lemma NothingLeft(s: State)
    requires s.pending == multiset{}
    ensures OnlyEmpty(s)
  {
    forall m: Model | Refines(s, m) ensures m == map[] {
      assert m.Keys == {};
    }
  }

  lemma SilentSnoc(s: State, ops: seq<Op>, op: Op)
    requires Silent(s, ops) && op.Fire? && Enabled(RunFrom(s, ops), op) && Apply(RunFrom(s, ops), op).1.None?
    ensures Silent(s, ops + [op]) && RunFrom(s, ops + [op]) == Apply(RunFrom(s, ops), op).0
  {
    assert (ops + [op])[..|ops|] == ops;
  }
}
