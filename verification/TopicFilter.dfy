/**
 MQTT topic filters and their simplification: dropping every pattern that another one covers.

 `Matches` follows section 4.7 of MQTT Version 3.1.1. A pattern may stand where a topic is
 expected; a `#` level there is covered only by a `#` level.
 */
module TopicFilters {
  import opened Basics

  type Level = string

  /** The levels of a topic or pattern, separated by `/`. */
  function Levels(s: string): (r: seq<Level>)
    ensures |r| >= 1
    ensures forall l <- r :: '/' !in l
  {
    Split(s, '/')
  }

  /** Section 4.7.1: `+` stands for one level, a final `#` for the parent and all its children. */
  predicate LevelsMatch(topic: seq<Level>, filter: seq<Level>) {
    if filter == [] then topic == []
    else if filter[0] == "#" then true
    else if topic == [] || topic[0] == "#" then false
    else (filter[0] == "+" || filter[0] == topic[0]) && LevelsMatch(topic[1..], filter[1..])
  }

  predicate StartsWith(s: string, chars: set<char>) {
    s != "" && s[0] in chars
  }

  /** Section 4.7.2: a leading wildcard does not match a topic beginning with `$`. */
  predicate Matches(topic: string, filter: string) {
    && !(StartsWith(topic, {'$'}) && StartsWith(filter, {'#', '+'}))
    && LevelsMatch(Levels(topic), Levels(filter))
  }

  /**
   Level by level: the filter has its first `#` at `h`, or none and `h` levels; before it, a level of the
   filter is `+` or the one of the topic; and only from a `#` on may the topic go on.
   */
  predicate MatchesUpTo(topic: seq<Level>, filter: seq<Level>, h: nat) {
    && h <= |filter| && h <= |topic|
    && (if h < |filter| then filter[h] == "#" else |topic| == h)
    && forall i :: 0 <= i < h ==>
         filter[i] != "#" && topic[i] != "#" && (filter[i] == "+" || filter[i] == topic[i])
  }

  lemma {:induction false} LevelsMatchIff(topic: seq<Level>, filter: seq<Level>)
    ensures LevelsMatch(topic, filter) <==> exists h: nat :: MatchesUpTo(topic, filter, h)
  {
    if filter == [] || filter[0] == "#" {
      assert LevelsMatch(topic, filter) ==> MatchesUpTo(topic, filter, 0);
    } else if topic != [] {
      LevelsMatchIff(topic[1..], filter[1..]);
      if LevelsMatch(topic, filter) {
        var h: nat :| MatchesUpTo(topic[1..], filter[1..], h);
        assert forall i :: 0 < i <= h ==> filter[i] == filter[1..][i - 1] && topic[i] == topic[1..][i - 1];
        assert MatchesUpTo(topic, filter, h + 1);
      }
      if h: nat :| MatchesUpTo(topic, filter, h) {
        assert MatchesUpTo(topic[1..], filter[1..], h - 1);
      }
    }
  }

  /** When a filter matches: level by level, unless a leading wildcard meets a leading `$`. */
  lemma MatchesIff(topic: string, filter: string)
    ensures Matches(topic, filter) <==>
            && !(topic != "" && topic[0] == '$' && filter != "" && (filter[0] == '#' || filter[0] == '+'))
            && exists h: nat :: MatchesUpTo(Split(topic, '/'), Split(filter, '/'), h)
  {
    assert Levels(topic) == Split(topic, '/') && Levels(filter) == Split(filter, '/');
    LevelsMatchIff(Levels(topic), Levels(filter));
  }

  /** Some pattern matches the topic, or covers the pattern in the topic's place. */
  predicate Accepts(patterns: seq<string>, topic: string) {
    exists p <- patterns :: Matches(topic, p)
  }

  // ---------------------------------------------------------------- matching is a preorder

  lemma {:induction false} LevelsReflexive(p: seq<Level>)
    ensures LevelsMatch(p, p)
  {
    if p != [] {
      LevelsReflexive(p[1..]);
    }
  }

  lemma {:induction false} LevelsTransitive(t: seq<Level>, p: seq<Level>, q: seq<Level>)
    requires LevelsMatch(t, p) && LevelsMatch(p, q)
    ensures LevelsMatch(t, q)
  {
    if q != [] && q[0] != "#" {
      LevelsTransitive(t[1..], p[1..], q[1..]);
    }
  }

  /** The first level begins as the whole string does. */
  lemma FirstLevel(s: string)
    ensures Levels(s)[0] != "" ==> s != "" && s[0] == Levels(s)[0][0]
    ensures s != "" && s[0] != '/' ==> Levels(s)[0] != ""
  {}

  lemma MatchesReflexive(p: string)
    ensures Matches(p, p)
  {
    LevelsReflexive(Levels(p));
  }

  /** A topic of a covered pattern is a topic of the covering one. */
  lemma MatchesTransitive(t: string, p: string, q: string)
    requires Matches(t, p) && Matches(p, q)
    ensures Matches(t, q)
  {
    FirstLevel(t); FirstLevel(p);
    LevelsTransitive(Levels(t), Levels(p), Levels(q));
  }

  // ---------------------------------------------------------------- matching is language inclusion

  /** A wildcard-free level, or a wildcard on its own. */
  predicate ValidLevel(l: Level) {
    l == "+" || l == "#" || ('+' !in l && '#' !in l)
  }

  /** Section 4.7.1: wildcards occupy whole levels and `#` is the last one. */
  predicate ValidFilter(p: seq<Level>) {
    && (forall l <- p :: ValidLevel(l))
    && (forall i :: 0 <= i < |p| - 1 ==> p[i] != "#")
  }

  predicate NameLevel(l: Level) {
    '+' !in l && '#' !in l && '/' !in l
  }

  /** A topic name: no wildcards. */
  predicate TopicName(t: seq<Level>) {
    forall l <- t :: NameLevel(l)
  }

  /** A level that none of the given ones is. */
  function Fresh(ls: seq<Level>): (f: Level)
    ensures forall l <- ls :: |l| < |f|
    ensures f != "" && forall c <- f :: c == 'x'
  {
    if ls == [] then "x"
    else
      var f := Fresh(ls[1..]);
      if |ls[0]| < |f| then f else seq(|ls[0]| + 1, _ => 'x')
  }

  /** A topic of the pattern: `+` becomes `f`, and a final `#` becomes the given levels. */
  function Instance(p: seq<Level>, f: Level, tail: seq<Level>): seq<Level> {
    if p == [] then []
    else if p[0] == "#" then tail
    else [if p[0] == "+" then f else p[0]] + Instance(p[1..], f, tail)
  }

  lemma {:induction false} InstanceMatches(p: seq<Level>, f: Level, tail: seq<Level>)
    requires ValidFilter(p) && (forall l <- p :: '/' !in l)
    requires NameLevel(f) && TopicName(tail)
    ensures LevelsMatch(Instance(p, f, tail), p) && TopicName(Instance(p, f, tail))
    ensures p != [] && p[0] != "#" ==> Instance(p, f, tail) != []
  {
    if p != [] && p[0] != "#" {
      assert forall l <- p[1..] :: l in p;
      InstanceMatches(p[1..], f, tail);
      var first := if p[0] == "+" then f else p[0];
      assert NameLevel(first) by {
        assert p[0] in p;
      }
      assert "#" != first;
      assert Instance(p, f, tail) == [first] + Instance(p[1..], f, tail);
    }
  }

  /** A pattern that is not covered has a topic the other one does not accept. */
  lemma {:induction false} Separated(p: seq<Level>, q: seq<Level>, f: Level) returns (t: seq<Level>)
    requires ValidFilter(p) && (forall l <- p :: '/' !in l)
    requires NameLevel(f) && f !in q
    requires !LevelsMatch(p, q)
    ensures LevelsMatch(t, p) && !LevelsMatch(t, q) && TopicName(t)
    ensures p != [] && p[0] != "#" ==>
              t != [] && t[0] == if p[0] == "+" then f else p[0]
  {
    if q == [] {
      t := Instance(p, f, [f]);
      InstanceMatches(p, f, [f]);
    } else if p == [] || p[0] == "#" {
      t := [];
    } else if q[0] == "+" || q[0] == p[0] {
      assert forall l <- p[1..] :: l in p;
      var rest := Separated(p[1..], q[1..], f);
      var first := if p[0] == "+" then f else p[0];
      assert NameLevel(first) by {
        assert p[0] in p;
      }
      t := [first] + rest;
      assert t[1..] == rest;
    } else {
      t := Instance(p, f, [f]);
      InstanceMatches(p, f, [f]);
      assert p[0] == "+" ==> q[0] in q;
    }
  }

  /** Every topic of `p` is a topic of `q`. */
  ghost predicate Includes(q: string, p: string) {
    forall t :: TopicName(Levels(t)) && Matches(t, p) ==> Matches(t, q)
  }

  /** The patterns `#` and `+/#`. */
  predicate HashUnderPlusHash(p: string, q: string) {
    Levels(p) == ["#"] && Levels(q) == ["+", "#"]
  }

  /**
   For valid filters, one pattern accepts all the topics of another exactly when it matches it;
   the single exception is that `+/#` accepts all the topics of `#` and does not match it.
   */
  lemma MatchesIffIncludes(p: string, q: string)
    requires ValidFilter(Levels(p)) && ValidFilter(Levels(q))
    ensures Includes(q, p) <==> Matches(p, q) || HashUnderPlusHash(p, q)
    ensures HashUnderPlusHash(p, q) ==> !Matches(p, q)
  {
    if HashUnderPlusHash(p, q) {
      PlusHashIncludesHash(p, q);
    } else if Matches(p, q) {
      forall t | TopicName(Levels(t)) && Matches(t, p) ensures Matches(t, q) {
        MatchesTransitive(t, p, q);
      }
    } else {
      var t := Counterexample(p, q);
      assert !Includes(q, p);
    }
  }

  lemma PlusHashIncludesHash(p: string, q: string)
    requires HashUnderPlusHash(p, q)
    ensures Includes(q, p) && !Matches(p, q)
  {
    FirstLevel(p);
    FirstLevel(q);
    forall t | TopicName(Levels(t)) && Matches(t, p) ensures Matches(t, q) {
      assert Levels(t)[0] in Levels(t);
    }
  }

  /** A topic of a pattern given by its levels is a topic of the pattern. */
  lemma TopicOf(p: string, ls: seq<Level>)
    requires ValidFilter(Levels(p)) && ls != [] && TopicName(ls) && LevelsMatch(ls, Levels(p))
    requires StartsWith(p, {'#', '+'}) ==> !StartsWith(ls[0], {'$'})
    ensures Levels(Join(ls, '/')) == ls && TopicName(Levels(Join(ls, '/'))) && Matches(Join(ls, '/'), p)
    ensures StartsWith(ls[0], {'$'}) ==> StartsWith(Join(ls, '/'), {'$'})
  {
    SplitOfJoin(ls, '/');
    FirstLevel(Join(ls, '/'));
  }

  lemma LeadingWildcard(p: string)
    requires ValidFilter(Levels(p)) && StartsWith(p, {'#', '+'})
    ensures Levels(p)[0] == "+" || Levels(p)[0] == "#"
  {
    FirstLevel(p);
    assert Levels(p)[0] in Levels(p);
    assert Levels(p)[0][0] in Levels(p)[0];
  }

  lemma HashCounterexample(q: seq<Level>, f: Level) returns (t: seq<Level>)
    requires ValidFilter(q) && q != ["+", "#"] && q != [] && q[0] != "#" && NameLevel(f) && f !in q
    ensures t != [] && t[0] == f && TopicName(t) && !LevelsMatch(t, q)
  {
    t := if q == ["+"] then [f, f] else [f];
    if q != ["+"] && q[0] == "+" {
      assert q[1] == "#" ==> q == ["+", "#"];
    } else if q[0] != "+" {
      assert q[0] in q;
    }
  }

  lemma Counterexample(p: string, q: string) returns (t: string)
    requires ValidFilter(Levels(p)) && ValidFilter(Levels(q))
    requires !HashUnderPlusHash(p, q) && !Matches(p, q)
    ensures TopicName(Levels(t)) && Matches(t, p) && !Matches(t, q)
  {
    var f, lp := Fresh(Levels(q)), Levels(p);
    assert NameLevel(f) && f !in Levels(q) && f[0] in f;
    FirstLevel(p);
    if StartsWith(p, {'#', '+'}) {
      LeadingWildcard(p);
    }
    var ls: seq<Level>;
    if LevelsMatch(lp, Levels(q)) {
      ls := Instance(lp, f, [f]);
      InstanceMatches(lp, f, [f]);
      assert ls[0] == lp[0];
    } else if lp[0] == "#" {
      assert lp == ["#"];
      ls := HashCounterexample(Levels(q), f);
    } else {
      ls := Separated(lp, Levels(q), f);
    }
    t := Join(ls, '/');
    TopicOf(p, ls);
  }

  /** The exception: `+/#` accepts whatever `#` accepts, and yet does not match it. */
  lemma UndetectedCover()
    ensures !Matches("#", "+/#") && Includes("+/#", "#")
  {
    assert HashUnderPlusHash("#", "+/#") by {
      SplitOfPrefix("+", '/', "#"); SplitOfPrefix("#", '/', "");
      assert "+" + "/" + "#" == "+/#";
    }
    PlusHashIncludesHash("#", "+/#");
  }

  // ---------------------------------------------------------------- simplification

  /** The patterns that `p` covers, or those it does not. */
  function Sift(patterns: seq<string>, p: string, covered: bool): (r: seq<string>)
    ensures forall x :: x in r <==> x in patterns && Matches(x, p) == covered
  {
    if patterns == [] then []
    else
      var last := patterns[|patterns| - 1];
      var r := Sift(patterns[..|patterns| - 1], p, covered);
      if Matches(last, p) == covered then r + [last] else r
  }

  /** One step of the simplification: the patterns kept and those removed, once `p` is seen. */
  function Consider(kept: seq<string>, removed: seq<string>, p: string): (seq<string>, seq<string>) {
    if Accepts(kept, p)
    then (kept, removed + [p])
    else (Sift(kept, p, false) + [p], removed + Sift(kept, p, true))
  }

  function Simplify(patterns: seq<string>): (seq<string>, seq<string>) {
    if patterns == [] then ([], [])
    else
      var (kept, removed) := Simplify(patterns[..|patterns| - 1]);
      Consider(kept, removed, patterns[|patterns| - 1])
  }

  /** No pattern matches another one. */
  ghost predicate Antichain(patterns: seq<string>) {
    forall i, j :: 0 <= i < |patterns| && 0 <= j < |patterns| && i != j ==>
      !Matches(patterns[i], patterns[j])
  }

  lemma {:induction false} SiftPartitions(patterns: seq<string>, p: string)
    ensures multiset(Sift(patterns, p, true)) + multiset(Sift(patterns, p, false)) == multiset(patterns)
  {
    if patterns != [] {
      var last := patterns[|patterns| - 1];
      SiftPartitions(patterns[..|patterns| - 1], p);
      assert patterns == patterns[..|patterns| - 1] + [last];
    }
  }

  lemma {:induction false} SiftKeepsAntichain(patterns: seq<string>, p: string)
    requires Antichain(patterns)
    ensures Antichain(Sift(patterns, p, false))
  {
    if patterns != [] {
      var prefix, last := patterns[..|patterns| - 1], patterns[|patterns| - 1];
      SiftKeepsAntichain(prefix, p);
      var r := Sift(prefix, p, false);
      forall i | 0 <= i < |r| ensures !Matches(r[i], last) && !Matches(last, r[i]) {
        assert r[i] in prefix;
        var j :| 0 <= j < |prefix| && prefix[j] == r[i];
        assert patterns[j] == r[i];
      }
    }
  }

  lemma {:induction false} SiftOfNothingCovered(patterns: seq<string>, p: string)
    requires forall x <- patterns :: !Matches(x, p)
    ensures Sift(patterns, p, false) == patterns && Sift(patterns, p, true) == []
  {
    if patterns != [] {
      SiftOfNothingCovered(patterns[..|patterns| - 1], p);
    }
  }

  lemma ConsiderPartitions(kept: seq<string>, removed: seq<string>, p: string)
    ensures var (kept', removed') := Consider(kept, removed, p);
            multiset(kept') + multiset(removed') == multiset(kept) + multiset(removed) + multiset{p}
  {
    SiftPartitions(kept, p);
  }

  /** Nothing is lost: the kept and the removed patterns are the original ones. */
  lemma {:induction false} SimplifyPartitions(patterns: seq<string>)
    ensures multiset(Simplify(patterns).0) + multiset(Simplify(patterns).1) == multiset(patterns)
  {
    if patterns != [] {
      var prefix, p := patterns[..|patterns| - 1], patterns[|patterns| - 1];
      SimplifyPartitions(prefix);
      ConsiderPartitions(Simplify(prefix).0, Simplify(prefix).1, p);
      assert patterns == prefix + [p];
    }
  }

  /** No kept pattern matches another kept one. */
  lemma {:induction false} SimplifyIsAntichain(patterns: seq<string>)
    ensures Antichain(Simplify(patterns).0)
  {
    if patterns != [] {
      var prefix, p := patterns[..|patterns| - 1], patterns[|patterns| - 1];
      SimplifyIsAntichain(prefix);
      var kept := Simplify(prefix).0;
      SiftKeepsAntichain(kept, p);
      if !Accepts(kept, p) {
        var r := Sift(kept, p, false);
        forall i | 0 <= i < |r| ensures !Matches(r[i], p) && !Matches(p, r[i]) {
          assert r[i] in kept;
        }
      }
    }
  }

  /** Every original pattern, removed ones included, is covered by a kept one. */
  lemma {:induction false} SimplifyCovers(patterns: seq<string>, x: string)
    requires x in patterns
    ensures Accepts(Simplify(patterns).0, x)
  {
    var prefix, p := patterns[..|patterns| - 1], patterns[|patterns| - 1];
    var kept, kept' := Simplify(prefix).0, Simplify(patterns).0;
    if x in prefix {
      SimplifyCovers(prefix, x);
      if !Accepts(kept, p) {
        var q :| q in kept && Matches(x, q);
        assert p in kept';
        if Matches(q, p) {
          MatchesTransitive(x, q, p);
        } else {
          assert q in kept';
        }
      }
    } else {
      assert x == p;
      MatchesReflexive(p);
    }
  }

  /** The simplified filter accepts exactly the same topics, whatever the patterns and the topic. */
  lemma SimplifyPreservesMeaning(patterns: seq<string>, topic: string)
    ensures Accepts(Simplify(patterns).0, topic) == Accepts(patterns, topic)
  {
    var kept := Simplify(patterns).0;
    if Accepts(kept, topic) {
      var p :| p in kept && Matches(topic, p);
      SimplifyPartitions(patterns);
      assert p in multiset(patterns);
    }
    if Accepts(patterns, topic) {
      var p :| p in patterns && Matches(topic, p);
      SimplifyCovers(patterns, p);
      var q :| q in kept && Matches(p, q);
      MatchesTransitive(topic, p, q);
    }
  }

  // ---------------------------------------------------------------- which patterns are kept

  /** What covers the pattern comes later and is covered by it too. */
  ghost predicate Survives(patterns: seq<string>, i: nat)
    requires i < |patterns|
  {
    forall j :: 0 <= j < |patterns| && j != i && Matches(patterns[i], patterns[j]) ==>
      j > i && Matches(patterns[j], patterns[i])
  }

  ghost predicate SurvivorsAt(patterns: seq<string>, positions: seq<nat>) {
    && Ascending(positions)
    && forall k: nat :: k in positions <==> k < |patterns| && Survives(patterns, k)
  }

  /** The patterns at these positions. */
  ghost predicate Reads(patterns: seq<string>, positions: seq<nat>, r: seq<string>) {
    |r| == |positions| && forall i :: 0 <= i < |r| ==> positions[i] < |patterns| && r[i] == patterns[positions[i]]
  }

  /** Those of the positions whose pattern `p` does not cover. */
  ghost predicate Leaves(patterns: seq<string>, positions: seq<nat>, p: string, rest: seq<nat>) {
    && Ascending(rest)
    && forall k: nat :: k in rest <==> k in positions && k < |patterns| && !Matches(patterns[k], p)
  }

  lemma LeavesNext(patterns: seq<string>, positions: seq<nat>, p: string, rest: seq<nat>, k: nat)
    requires Leaves(patterns, positions, p, rest) && k < |patterns| && forall x <- positions :: x < k
    ensures Leaves(patterns, positions + [k], p, if Matches(patterns[k], p) then rest else rest + [k])
  {
    AscendingSnoc(rest, k);
    var after := if Matches(patterns[k], p) then rest else rest + [k];
    forall x: nat ensures x in after <==> x in positions + [k] && x < |patterns| && !Matches(patterns[x], p) {
      assert x in after <==> x in rest || (x == k && !Matches(patterns[k], p));
    }
  }

  lemma ReadsInit(patterns: seq<string>, positions: seq<nat>, kept: seq<string>)
    requires Ascending(positions) && Reads(patterns, positions, kept) && kept != []
    ensures var n := |kept| - 1;
            && Ascending(positions[..n]) && Reads(patterns, positions[..n], kept[..n])
            && (forall x <- positions[..n] :: x < positions[n]) && positions == positions[..n] + [positions[n]]
  {}

  lemma ReadsNext(patterns: seq<string>, rest: seq<nat>, r: seq<string>, k: nat)
    requires Reads(patterns, rest, r) && k < |patterns|
    ensures Reads(patterns, rest + [k], r + [patterns[k]])
  {}

  lemma {:induction false} SiftReads(patterns: seq<string>, positions: seq<nat>, kept: seq<string>, p: string)
    returns (rest: seq<nat>)
    requires Ascending(positions) && Reads(patterns, positions, kept)
    ensures Leaves(patterns, positions, p, rest) && Reads(patterns, rest, Sift(kept, p, false))
    decreases |kept|
  {
    if kept == [] {
      rest := [];
    } else {
      var n := |kept| - 1;
      ReadsInit(patterns, positions, kept);
      var before := SiftReads(patterns, positions[..n], kept[..n], p);
      LeavesNext(patterns, positions[..n], p, before, positions[n]);
      ReadsNext(patterns, before, Sift(kept[..n], p, false), positions[n]);
      rest := if Matches(kept[n], p) then before else before + [positions[n]];
    }
  }

  /** Of two surviving patterns, none covers the other. */
  lemma SurvivorsApart(patterns: seq<string>, i: nat, j: nat)
    requires i < |patterns| && j < |patterns| && Survives(patterns, i) && Survives(patterns, j)
    ensures Matches(patterns[i], patterns[j]) ==> i == j
  {}

  /** A pattern survives a new one unless that covers it and not the other way round. */
  lemma SurvivesNext(prefix: seq<string>, p: string, i: nat)
    requires i < |prefix|
    ensures Survives(prefix + [p], i) <==> Survives(prefix, i) && (Matches(prefix[i], p) ==> Matches(p, prefix[i]))
  {
    var patterns := prefix + [p];
    if Survives(patterns, i) {
      forall j | 0 <= j < |prefix| && j != i && Matches(prefix[i], prefix[j])
        ensures j > i && Matches(prefix[j], prefix[i])
      {
        assert patterns[i] == prefix[i] && patterns[j] == prefix[j];
      }
      assert patterns[|prefix|] == p && patterns[i] == prefix[i];
    }
  }

  lemma SurvivesAsNew(prefix: seq<string>, p: string)
    ensures Survives(prefix + [p], |prefix|) <==> forall j :: 0 <= j < |prefix| ==> !Matches(p, prefix[j])
  {
    var patterns := prefix + [p];
    assert patterns[|prefix|] == p && forall j :: 0 <= j < |prefix| ==> patterns[j] == prefix[j];
  }

  /** If a surviving pattern covers a new one, the same patterns survive. */
  lemma SameSurvivors(prefix: seq<string>, p: string, positions: seq<nat>, c: nat)
    requires SurvivorsAt(prefix, positions) && c in positions && Matches(p, prefix[c])
    ensures SurvivorsAt(prefix + [p], positions)
  {
    SurvivesAsNew(prefix, p);
    forall k: nat ensures k in positions <==> k < |prefix + [p]| && Survives(prefix + [p], k) {
      if k < |prefix| {
        SurvivesNext(prefix, p, k);
        if k in positions && Matches(prefix[k], p) {
          MatchesTransitive(prefix[k], p, prefix[c]);
          SurvivorsApart(prefix, k, c);
        }
      }
    }
  }

  /** Otherwise the new one survives, with those it does not cover. */
  lemma NewSurvivor(prefix: seq<string>, p: string, positions: seq<nat>, rest: seq<nat>)
    requires SurvivorsAt(prefix, positions) && forall j :: 0 <= j < |prefix| ==> !Matches(p, prefix[j])
    requires Leaves(prefix, positions, p, rest)
    ensures SurvivorsAt(prefix + [p], rest + [|prefix|])
  {
    SurvivesAsNew(prefix, p);
    AscendingSnoc(rest, |prefix|);
    forall k: nat ensures k in rest + [|prefix|] <==> k < |prefix + [p]| && Survives(prefix + [p], k) {
      if k < |prefix| {
        SurvivesNext(prefix, p, k);
      }
    }
  }

  lemma NotCovered(prefix: seq<string>, p: string, x: string)
    requires x in prefix && !Accepts(Simplify(prefix).0, p)
    ensures !Matches(p, x)
  {
    SimplifyCovers(prefix, x);
    var q :| q in Simplify(prefix).0 && Matches(x, q);
    if Matches(p, x) {
      MatchesTransitive(p, x, q);
    }
  }

  /** Considering one more pattern keeps the surviving ones. */
  lemma ConsiderKeepsSurvivors(prefix: seq<string>, p: string, positions: seq<nat>) returns (after: seq<nat>)
    requires SurvivorsAt(prefix, positions) && Reads(prefix, positions, Simplify(prefix).0)
    ensures SurvivorsAt(prefix + [p], after)
    ensures Reads(prefix + [p], after, Consider(Simplify(prefix).0, Simplify(prefix).1, p).0)
  {
    var kept := Simplify(prefix).0;
    if Accepts(kept, p) {
      var q :| q in kept && Matches(p, q);
      var i :| 0 <= i < |kept| && kept[i] == q;
      assert positions[i] in positions;
      SameSurvivors(prefix, p, positions, positions[i]);
      after := positions;
    } else {
      forall j | 0 <= j < |prefix| ensures !Matches(p, prefix[j]) {
        NotCovered(prefix, p, prefix[j]);
      }
      var rest := SiftReads(prefix, positions, kept, p);
      NewSurvivor(prefix, p, positions, rest);
      after := rest + [|prefix|];
    }
  }

  /** Exactly the surviving patterns are kept, in their order. */
  lemma {:induction false} SimplifyKeepsSurvivors(patterns: seq<string>) returns (positions: seq<nat>)
    ensures SurvivorsAt(patterns, positions) && Reads(patterns, positions, Simplify(patterns).0)
  {
    if patterns == [] {
      positions := [];
    } else {
      var prefix, p := patterns[..|patterns| - 1], patterns[|patterns| - 1];
      positions := SimplifyKeepsSurvivors(prefix);
      positions := ConsiderKeepsSurvivors(prefix, p, positions);
      assert patterns == prefix + [p];
    }
  }

  lemma AntichainPrefix(patterns: seq<string>)
    requires Antichain(patterns) && patterns != []
    ensures var prefix, last := patterns[..|patterns| - 1], patterns[|patterns| - 1];
            Antichain(prefix) && forall x <- prefix :: !Matches(x, last) && !Matches(last, x)
  {
    var n := |patterns| - 1;
    forall i, j | 0 <= i < n && 0 <= j < n && i != j
      ensures !Matches(patterns[..n][i], patterns[..n][j])
    {
      assert !Matches(patterns[i], patterns[j]);
    }
    forall x <- patterns[..n] ensures !Matches(x, patterns[n]) && !Matches(patterns[n], x) {
      var i :| 0 <= i < n && patterns[..n][i] == x;
      assert patterns[i] == x;
    }
  }

  lemma {:induction false} SimplifyKeepsAntichain(patterns: seq<string>)
    requires Antichain(patterns)
    ensures Simplify(patterns) == (patterns, [])
  {
    if patterns != [] {
      var prefix, p := patterns[..|patterns| - 1], patterns[|patterns| - 1];
      AntichainPrefix(patterns);
      SimplifyKeepsAntichain(prefix);
      SiftOfNothingCovered(prefix, p);
      var none: seq<string> := [];
      assert !Accepts(prefix, p);
      assert Simplify(patterns) == Consider(prefix, none, p);
      assert none + none == none && prefix + [p] == patterns;
    }
  }

  /** A filter is left as it is, with nothing removed, exactly when its patterns are an antichain. */
  lemma SimplifyStableIff(patterns: seq<string>)
    ensures Simplify(patterns) == (patterns, []) <==> Antichain(patterns)
  {
    if Antichain(patterns) {
      SimplifyKeepsAntichain(patterns);
    }
    SimplifyIsAntichain(patterns);
  }

  /** A second simplification removes nothing and keeps the order. */
  lemma SimplifyIdempotent(patterns: seq<string>)
    ensures Simplify(Simplify(patterns).0) == (Simplify(patterns).0, [])
  {
    SimplifyIsAntichain(patterns);
    SimplifyStableIff(Simplify(patterns).0);
  }

  lemma SameTopics(patterns: seq<string>)
    ensures forall topic :: Accepts(Simplify(patterns).0, topic) == Accepts(patterns, topic)
  {
    forall topic ensures Accepts(Simplify(patterns).0, topic) == Accepts(patterns, topic) {
      SimplifyPreservesMeaning(patterns, topic);
    }
  }

  class TopicFilter {
    var patterns: seq<string>

    constructor (patterns: seq<string>)
      ensures this.patterns == patterns
    {
      this.patterns := patterns;
    }

    predicate AcceptTopic(topic: string)
      reads this
    {
      Accepts(patterns, topic)
    }

    /** The same question, asked of a pattern in place of a topic. */
    predicate IncludeTopic(subPattern: string)
      reads this
    {
      Accepts(patterns, subPattern)
    }

    /** Takes out the patterns that `pattern` covers; the others keep their order. */
    method EvictCovered(pattern: string) returns (evicted: seq<string>)
      modifies this
      ensures patterns == Sift(old(patterns), pattern, false)
      ensures evicted == Sift(old(patterns), pattern, true)
    {
      var subPatterns := patterns;
      patterns, evicted := [], [];
      for i := 0 to |subPatterns|
        invariant patterns == Sift(subPatterns[..i], pattern, false)
        invariant evicted == Sift(subPatterns[..i], pattern, true)
      {
        var subPattern := subPatterns[i];
        assert subPatterns[..i + 1][..i] == subPatterns[..i];
        if Matches(subPattern, pattern) {
          evicted := evicted + [subPattern];
        } else {
          patterns := patterns + [subPattern];
        }
      }
      assert subPatterns[..|subPatterns|] == subPatterns;
    }

    method RemoveOverlappingPatterns() returns (removed: seq<string>)
      modifies this
      ensures (patterns, removed) == Simplify(old(patterns))
      ensures forall topic :: AcceptTopic(topic) == old(AcceptTopic(topic))
    {
      var all := patterns;
      patterns, removed := [], [];
      for i := 0 to |all|
        invariant (patterns, removed) == Simplify(all[..i])
      {
        var pattern := all[i];
        assert all[..i + 1][..i] == all[..i];
        if IncludeTopic(pattern) {
          removed := removed + [pattern];
        } else {
          var evicted := EvictCovered(pattern);
          removed := removed + evicted;
          patterns := patterns + [pattern];
        }
      }
      assert all[..|all|] == all;
      SameTopics(all);
    }
  }
}
