/** Optional values, and splitting and joining strings at a separator. */
module Basics {

  datatype Option<+T> = None | Some(value: T)

  /** The pieces of `s` between occurrences of `sep`: always at least one. */
  function Split(s: string, sep: char): (r: seq<string>)
    ensures |r| >= 1
    ensures forall l <- r :: sep !in l
  {
    if s == "" then [""]
    else
      var r := Split(s[1..], sep);
      if s[0] == sep then [""] + r else [[s[0]] + r[0]] + r[1..]
  }

  function Join(ls: seq<string>, sep: char): string
    requires ls != []
  {
    if |ls| == 1 then ls[0] else ls[0] + [sep] + Join(ls[1..], sep)
  }

  function Digit(n: nat): char
    requires n < 10
  {
    "0123456789"[n]
  }

  function Decimal(n: nat): string {
    if n < 10 then [Digit(n)] else Decimal(n / 10) + [Digit(n % 10)]
  }

  function DigitValue(c: char): int {
    c as int - '0' as int
  }

  /** The number a string of digits stands for. */
  function ValueOf(s: string): int {
    if s == "" then 0 else 10 * ValueOf(s[..|s| - 1]) + DigitValue(s[|s| - 1])
  }

  /** Decimals are digits, without leading zeros, that stand for the number. */
  lemma {:induction false} DecimalStandsFor(n: nat)
    ensures ValueOf(Decimal(n)) == n && Decimal(n) != ""
    ensures forall c <- Decimal(n) :: '0' <= c <= '9'
    ensures n > 0 ==> Decimal(n)[0] != '0'
  {
    DigitStandsFor(n % 10);
    if n >= 10 {
      DecimalStandsFor(n / 10);
      var s := Decimal(n);
      assert s[..|s| - 1] == Decimal(n / 10) && s[|s| - 1] == Digit(n % 10);
    } else {
      assert Decimal(n)[..0] == "";
    }
  }

  lemma DigitStandsFor(n: nat)
    requires n < 10
    ensures '0' <= Digit(n) <= '9' && DigitValue(Digit(n)) == n && (n > 0 ==> Digit(n) != '0')
  {
    assert n == 0 || n == 1 || n == 2 || n == 3 || n == 4 || n == 5 || n == 6 || n == 7 || n == 8 || n == 9;
  }

  lemma {:induction false} SplitOfPrefix(l: string, sep: char, rest: string)
    requires sep !in l
    ensures Split(l + [sep] + rest, sep) == [l] + Split(rest, sep)
    ensures Split(l, sep) == [l]
  {
    if l == "" {
      assert l + [sep] + rest == [sep] + rest;
    } else {
      SplitOfPrefix(l[1..], sep, rest);
      assert (l + [sep] + rest)[1..] == l[1..] + [sep] + rest;
      assert l == [l[0]] + l[1..];
      assert l[0] in l;
    }
  }

  /** Splitting undoes joining, so joining separator-free pieces is one to one. */
  lemma {:induction false} SplitOfJoin(ls: seq<string>, sep: char)
    requires ls != [] && forall l <- ls :: sep !in l
    ensures Split(Join(ls, sep), sep) == ls
  {
    if |ls| == 1 {
      SplitOfPrefix(ls[0], sep, "");
    } else {
      SplitOfJoin(ls[1..], sep);
      SplitOfPrefix(ls[0], sep, Join(ls[1..], sep));
    }
  }

  /** The last piece is what follows the last separator. */
  lemma {:induction false} LastPiece(a: string, sep: char, x: string)
    requires sep !in x
    ensures var r := Split(a + [sep] + x, sep); r[|r| - 1] == x && |r| >= 2
  {
    if a == "" {
      SplitOfPrefix("", sep, x);
      assert "" + [sep] + x == a + [sep] + x;
      SplitOfPrefix(x, sep, "");
    } else {
      LastPiece(a[1..], sep, x);
      assert (a + [sep] + x)[1..] == a[1..] + [sep] + x;
    }
  }

  /** What `f` makes of the elements to keep, in their order. */
  function Collect<A, B>(s: seq<A>, keep: A -> bool, f: A -> B): seq<B> {
    if s == [] then []
    else
      var n := |s| - 1;
      var r := Collect(s[..n], keep, f);
      if keep(s[n]) then r + [f(s[n])] else r
  }

  lemma CollectSnoc<A, B>(s: seq<A>, x: A, keep: A -> bool, f: A -> B)
    ensures Collect(s + [x], keep, f) == if keep(x) then Collect(s, keep, f) + [f(x)] else Collect(s, keep, f)
  {
    assert (s + [x])[..|s|] == s;
  }

  lemma {:induction false} CollectConcat<A, B>(s: seq<A>, t: seq<A>, keep: A -> bool, f: A -> B)
    ensures Collect(s + t, keep, f) == Collect(s, keep, f) + Collect(t, keep, f)
    decreases |t|
  {
    if t == [] {
      assert s + t == s;
    } else {
      var n := |t| - 1;
      CollectConcat(s, t[..n], keep, f);
      assert s + t == s + t[..n] + [t[n]];
      CollectSnoc(s + t[..n], t[n], keep, f);
    }
  }

  lemma {:induction false} CollectEmptyIff<A, B>(s: seq<A>, keep: A -> bool, f: A -> B)
    ensures Collect(s, keep, f) == [] <==> forall i :: 0 <= i < |s| ==> !keep(s[i])
  {
    if s != [] {
      var n := |s| - 1;
      CollectEmptyIff(s[..n], keep, f);
      assert forall i :: 0 <= i < n ==> s[..n][i] == s[i];
    }
  }

  ghost predicate Ascending(positions: seq<nat>) {
    forall i, j :: 0 <= i < j < |positions| ==> positions[i] < positions[j]
  }

  lemma AscendingSnoc(positions: seq<nat>, n: nat)
    requires Ascending(positions) && forall k <- positions :: k < n
    ensures Ascending(positions + [n])
  {
    assert forall i :: 0 <= i < |positions| ==> positions[i] in positions;
  }

  /** `r` are the elements of `s` at these positions, in their order. */
  ghost predicate At<A>(s: seq<A>, positions: seq<nat>, r: seq<A>) {
    && |r| == |positions| && Ascending(positions)
    && forall i :: 0 <= i < |positions| ==> positions[i] < |s| && r[i] == s[positions[i]]
  }

  /** Ascending positions are determined by which ones they are. */
  lemma {:induction false} SamePositions(p: seq<nat>, q: seq<nat>)
    requires Ascending(p) && Ascending(q) && forall k: nat :: k in p <==> k in q
    ensures p == q
  {
    if p == [] {
      assert forall i :: 0 <= i < |q| ==> q[i] in q;
    } else {
      assert p[|p| - 1] in p;
      var x, y := p[|p| - 1], q[|q| - 1];
      LastIsMost(p);
      LastIsMost(q);
      assert x in q && y in p;
      var p', q' := p[..|p| - 1], q[..|q| - 1];
      forall k: nat ensures k in p' <==> k in q' {
        WithoutLast(p, k);
        WithoutLast(q, k);
      }
      SamePositions(p', q');
      assert p == p' + [x] && q == q' + [y];
    }
  }

  lemma LastIsMost(p: seq<nat>)
    requires Ascending(p) && p != []
    ensures forall k <- p :: k <= p[|p| - 1]
  {}

  lemma WithoutLast(p: seq<nat>, k: nat)
    requires Ascending(p) && p != []
    ensures k in p[..|p| - 1] <==> k in p && k != p[|p| - 1]
  {}

  function Shifted(positions: seq<nat>): (r: seq<nat>)
    ensures |r| == |positions| && forall i :: 0 <= i < |r| ==> r[i] == positions[i] + 1
  {
    seq(|positions|, i requires 0 <= i < |positions| => positions[i] + 1)
  }

  lemma ShiftedMembers(positions: seq<nat>, k: nat)
    ensures k in Shifted(positions) <==> k > 0 && k - 1 in positions
  {
    if k > 0 && k - 1 in positions {
      var i :| 0 <= i < |positions| && positions[i] == k - 1;
      assert Shifted(positions)[i] == k;
    }
  }

  lemma AtShift<A>(s: seq<A>, rest: seq<nat>, r: seq<A>)
    requires s != [] && At(s[1..], rest, r)
    ensures At(s, Shifted(rest), r) && At(s, [0] + Shifted(rest), [s[0]] + r)
  {}

  /** What becomes so at some steps, and stays so, is so exactly if there was such a step. */
  lemma {:induction false} EverIff(so: nat -> bool, at: nat -> bool, n: nat)
    requires !so(0) && forall k: nat :: k < n ==> (so(k + 1) <==> so(k) || at(k))
    ensures so(n) <==> exists k: nat :: k < n && at(k)
  {
    if n > 0 {
      EverIff(so, at, n - 1);
      assert so(n - 1 + 1) <==> so(n - 1) || at(n - 1);
    }
  }

  /** The state after a list of steps. */
  function Fold<S, X>(s: S, xs: seq<X>, step: (S, X) -> S): S {
    if xs == [] then s else step(Fold(s, xs[..|xs| - 1], step), xs[|xs| - 1])
  }

  lemma FoldOne<S, X>(s: S, x: X, step: (S, X) -> S)
    ensures Fold(s, [x], step) == step(s, x)
  {
    assert [x][..0] == [];
    assert Fold(s, [], step) == s;
  }

  lemma {:induction false} FoldConcat<S, X>(s: S, a: seq<X>, b: seq<X>, step: (S, X) -> S)
    ensures Fold(s, a + b, step) == Fold(Fold(s, a, step), b, step)
    decreases |b|
  {
    if b == [] {
      assert a + b == a;
    } else {
      var n := |b| - 1;
      FoldConcat(s, a, b[..n], step);
      assert (a + b)[..|a| + n] == a + b[..n];
    }
  }

  /** `r` are the images of the elements of `s` at these positions. */
  ghost predicate ImagesAt<A, B>(s: seq<A>, positions: seq<nat>, f: A -> B, r: seq<B>) {
    && |r| == |positions|
    && forall i :: 0 <= i < |positions| ==> positions[i] < |s| && r[i] == f(s[positions[i]])
  }

  ghost predicate KeptAt<A>(s: seq<A>, keep: A -> bool, positions: seq<nat>) {
    && Ascending(positions)
    && forall k: nat :: k in positions <==> k < |s| && keep(s[k])
  }

  lemma KeptNext<A>(s: seq<A>, keep: A -> bool, positions: seq<nat>)
    requires s != [] && KeptAt(s[..|s| - 1], keep, positions)
    ensures KeptAt(s, keep, if keep(s[|s| - 1]) then positions + [|s| - 1] else positions)
  {
    var n := |s| - 1;
    AscendingSnoc(positions, n);
    var after := if keep(s[n]) then positions + [n] else positions;
    forall k: nat ensures k in after <==> k < |s| && keep(s[k]) {
      assert k in after <==> k in positions || (keep(s[n]) && k == n);
    }
  }

  lemma ImagesNext<A, B>(s: seq<A>, positions: seq<nat>, f: A -> B, r: seq<B>)
    requires s != [] && ImagesAt(s[..|s| - 1], positions, f, r)
    ensures ImagesAt(s, positions, f, r)
    ensures ImagesAt(s, positions + [|s| - 1], f, r + [f(s[|s| - 1])])
  {}

  /** What is collected are the images of exactly the elements to keep, in their order. */
  lemma {:induction false} CollectIs<A, B>(s: seq<A>, keep: A -> bool, f: A -> B) returns (positions: seq<nat>)
    ensures KeptAt(s, keep, positions) && ImagesAt(s, positions, f, Collect(s, keep, f))
  {
    if s == [] {
      positions := [];
    } else {
      var n := |s| - 1;
      var before := CollectIs(s[..n], keep, f);
      KeptNext(s, keep, before);
      ImagesNext(s, before, f, Collect(s[..n], keep, f));
      positions := if keep(s[n]) then before + [n] else before;
    }
  }

  function FlatMap<A, B>(s: seq<A>, f: A -> seq<B>): seq<B> {
    if s == [] then [] else FlatMap(s[..|s| - 1], f) + f(s[|s| - 1])
  }

  /** Flattening puts the parts one after the other. */
  lemma {:induction false} FlatMapConcat<A, B>(a: seq<A>, b: seq<A>, f: A -> seq<B>)
    ensures FlatMap(a + b, f) == FlatMap(a, f) + FlatMap(b, f)
    decreases |b|
  {
    if b == [] {
      assert a + b == a;
    } else {
      var n := |b| - 1;
      FlatMapConcat(a, b[..n], f);
      assert (a + b)[..|a + b| - 1] == a + b[..n];
    }
  }
}
