/** Strings: places where a word is written, greedy runs, and concatenations. */
module Strings {
  import opened Common

  /** `w` is written in `t` from `i` on. */
  predicate At(t: string, i: nat, w: string) {
    i + |w| <= |t| && t[i..i + |w|] == w
  }

  lemma AtSplit(t: string, i: nat, a: string, b: string)
    ensures At(t, i, a + b) <==> At(t, i, a) && At(t, i + |a|, b)
  {
    if i + |a| + |b| <= |t| {
      assert t[i..i + |a| + |b|] == t[i..i + |a|] + t[i + |a|..i + |a| + |b|];
      assert (a + b)[..|a|] == a && (a + b)[|a|..] == b;
    }
  }

  lemma AtChar(t: string, i: nat, w: string, k: nat)
    requires At(t, i, w) && k < |w|
    ensures t[i + k] == w[k]
  {
    assert t[i..i + |w|][k] == w[k];
  }

  /** Where `c` first stands in `s`; the length of `s` when it does not. */
  function Find(s: string, c: char): (i: nat)
    ensures i <= |s| && (i < |s| ==> s[i] == c)
  {
    if s == "" || s[0] == c then 0 else 1 + Find(s[1..], c)
  }

  /** The pieces of `s` between the characters `c`. */
  function Parts(s: string, c: char): (parts: seq<string>)
    ensures parts != []
    decreases |s|
  {
    var i := Find(s, c);
    if i == |s| then [s] else [s[..i]] + Parts(s[i + 1..], c)
  }

  /** The end of a greedy run of characters of one class. */
  function SpanEnd(t: string, i: nat, f: char -> bool): (j: nat)
    requires i <= |t|
    ensures i <= j <= |t|
    decreases |t| - i
  {
    if i < |t| && f(t[i]) then SpanEnd(t, i + 1, f) else i
  }

  lemma {:induction false} SpanHolds(t: string, i: nat, f: char -> bool)
    requires i <= |t|
    ensures var j := SpanEnd(t, i, f);
      (forall k :: i <= k < j ==> f(t[k])) && (j < |t| ==> !f(t[j]))
    decreases |t| - i
  {
    if i < |t| && f(t[i]) { SpanHolds(t, i + 1, f); }
  }

  lemma {:induction false} SpanEndIs(t: string, i: nat, f: char -> bool, j: nat)
    requires i <= j <= |t|
    requires forall k :: i <= k < j ==> f(t[k])
    requires j < |t| ==> !f(t[j])
    ensures SpanEnd(t, i, f) == j
    decreases j - i
  {
    if i < j { SpanEndIs(t, i + 1, f, j); }
  }

  /** A word of the class followed by a character outside it is the whole run. */
  lemma SpanOf(t: string, i: nat, f: char -> bool, w: string, stop: char)
    requires At(t, i, w + [stop]) && !f(stop)
    requires forall k :: 0 <= k < |w| ==> f(w[k])
    ensures SpanEnd(t, i, f) == i + |w| < |t| && t[i + |w|] == stop && t[i..i + |w|] == w
  {
    AtSplit(t, i, w, [stop]);
    AtChar(t, i + |w|, [stop], 0);
    forall k | i <= k < i + |w| ensures f(t[k]) { AtChar(t, i, w, k - i); }
    SpanEndIs(t, i, f, i + |w|);
  }

  function Concat<T>(xs: seq<T>, f: T -> string): string {
    if xs == [] then [] else Concat(xs[..|xs| - 1], f) + f(xs[|xs| - 1])
  }

  lemma ConcatSnoc<T>(xs: seq<T>, x: T, f: T -> string)
    ensures Concat(xs + [x], f) == Concat(xs, f) + f(x)
  {
    assert (xs + [x])[..|xs + [x]| - 1] == xs;
  }

  lemma {:induction false} ConcatAppend<T>(a: seq<T>, b: seq<T>, f: T -> string)
    ensures Concat(a + b, f) == Concat(a, f) + Concat(b, f)
  {
    if b == [] {
      assert a + b == a;
    } else {
      var m := |b| - 1;
      ConcatAppend(a, b[..m], f);
      ConcatSnoc(a + b[..m], b[m], f);
      assert a + b == (a + b[..m]) + [b[m]];
    }
  }

  lemma ConcatCons<T>(x: T, b: seq<T>, f: T -> string)
    ensures Concat([x] + b, f) == f(x) + Concat(b, f)
  {
    ConcatAppend([x], b, f);
    ConcatSnoc([], x, f);
    assert [] + [x] == [x];
  }

  function Sum<T>(xs: seq<T>, w: T -> nat): nat {
    if xs == [] then 0 else Sum(xs[..|xs| - 1], w) + w(xs[|xs| - 1])
  }

  lemma SumSnoc<T>(xs: seq<T>, x: T, w: T -> nat)
    ensures Sum(xs + [x], w) == Sum(xs, w) + w(x)
  {
    assert (xs + [x])[..|xs + [x]| - 1] == xs;
  }

  lemma {:induction false} SumAppend<T>(a: seq<T>, b: seq<T>, w: T -> nat)
    ensures Sum(a + b, w) == Sum(a, w) + Sum(b, w)
  {
    if b == [] {
      assert a + b == a;
    } else {
      var m := |b| - 1;
      SumAppend(a, b[..m], w);
      SumSnoc(a + b[..m], b[m], w);
      assert a + b == (a + b[..m]) + [b[m]];
    }
  }

  lemma SumCons<T>(x: T, b: seq<T>, w: T -> nat)
    ensures Sum([x] + b, w) == w(x) + Sum(b, w)
  {
    SumAppend([x], b, w);
    SumSnoc([], x, w);
    assert [] + [x] == [x];
  }

  // ----- Lists of pieces that a matcher recognises -----

  ghost predicate All<T>(xs: seq<T>, p: T -> bool) {
    forall x <- xs :: p(x)
  }

  /** Where a good piece is written, the matcher finds that piece and no other. */
  ghost predicate Finds<T(!new)>(find: (string, nat) -> Option<T>, good: T -> bool, render: T -> string) {
    forall t: string, i: nat, x: T :: good(x) && At(t, i, render(x)) ==> find(t, i) == Some(x)
  }

  lemma Uncons<T>(xs: seq<T>, p: T -> bool)
    requires xs != [] && All(xs, p)
    ensures xs == [xs[0]] + xs[1..] && p(xs[0]) && All(xs[1..], p)
  {
  }

  lemma FirstPiece<T>(xs: seq<T>, render: T -> string, t: string, i: nat)
    requires xs != [] && At(t, i, Concat(xs, render))
    ensures At(t, i, render(xs[0])) && At(t, i + |render(xs[0])|, Concat(xs[1..], render))
    ensures |Concat(xs, render)| == |render(xs[0])| + |Concat(xs[1..], render)|
  {
    assert xs == [xs[0]] + xs[1..];
    ConcatCons(xs[0], xs[1..], render);
    AtSplit(t, i, render(xs[0]), Concat(xs[1..], render));
  }

  /** Of two lists of good pieces written at one place, one begins the other. */
  lemma {:induction false} OneReading<T(!new)>(find: (string, nat) -> Option<T>, good: T -> bool, render: T -> string,
      a: seq<T>, b: seq<T>, t: string, i: nat)
    requires Finds(find, good, render) && All(a, good) && All(b, good)
    requires At(t, i, Concat(a, render)) && At(t, i, Concat(b, render))
    ensures a <= b || b <= a
    decreases |a|
  {
    if a != [] && b != [] {
      Uncons(a, good);
      Uncons(b, good);
      FirstPiece(a, render, t, i);
      FirstPiece(b, render, t, i);
      assert Some(a[0]) == find(t, i) == Some(b[0]);
      OneReading(find, good, render, a[1..], b[1..], t, i + |render(a[0])|);
    }
  }

  /** The matcher finds the piece with which a longer list goes on. */
  lemma NextPiece<T(!new)>(find: (string, nat) -> Option<T>, good: T -> bool, render: T -> string,
      a: seq<T>, b: seq<T>, t: string)
    requires Finds(find, good, render) && All(b, good)
    requires a <= b && |a| < |b| && At(t, 0, Concat(b, render))
    ensures find(t, |Concat(a, render)|) == Some(b[|a|])
  {
    var rest := b[|a|..];
    assert b == a + rest;
    ConcatAppend(a, rest, render);
    AtSplit(t, 0, Concat(a, render), Concat(rest, render));
    FirstPiece(rest, render, t, |Concat(a, render)|);
    assert b[|a|] in b;
  }

  lemma {:induction false} PrefixMeasures<T>(a: seq<T>, b: seq<T>, render: T -> string, w: T -> nat)
    requires a <= b
    ensures Sum(a, w) <= Sum(b, w) && |Concat(a, render)| <= |Concat(b, render)|
    ensures |a| < |b| && (forall x <- b :: render(x) != "") ==> |Concat(a, render)| < |Concat(b, render)|
    decreases |b|
  {
    if |a| < |b| {
      var m := |b| - 1;
      PrefixMeasures(a, b[..m], render, w);
      assert b[m] in b;
    } else {
      assert a == b;
    }
  }
}
