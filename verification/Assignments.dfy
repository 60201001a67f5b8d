/** Cutting the values out of the assignments of a text.

    How far a value reaches is a rule given to these functions, so that what is proved here
    depends on nothing but the few facts about the rule that each lemma asks for. */
module Assignments {
  import opened Strings

  type Rule = (string, nat) -> nat

  /** The word characters of other alphabets: whatever the program's Unicode tables say. */
  const FURTHER_WORD_CHARACTERS: set<char>

  predicate Word(c: char) {
    || '0' <= c <= '9' || 'a' <= c <= 'z' || 'A' <= c <= 'Z' || c == '_'
    || (c as int >= 128 && c in FURTHER_WORD_CHARACTERS)
  }

  predicate Blank(c: char) { c == ' ' || c == '\t' }

  predicate Newline(c: char) { c == '\r' || c == '\n' }

  // ----- Assignments -----

  /** No word character stands before `i`. */
  predicate Edge(t: string, i: nat)
    requires i <= |t|
  {
    i == 0 || !Word(t[i - 1])
  }

  /** The assignment pattern matches at `i`. */
  predicate Starts(t: string, i: nat) {
    && i + 1 < |t| && t[i] == 'I' && '1' <= t[i + 1] <= '5' && Edge(t, i)
    && var e := SpanEnd(t, i + 2, Blank);
    e < |t| && t[e] == '='
  }

  /** Where the value of the assignment at `i` begins. */
  function OpenAt(t: string, i: nat): (a: nat)
    requires Starts(t, i)
    ensures i + 3 <= a <= |t|
  {
    SpanEnd(t, SpanEnd(t, i + 2, Blank) + 1, Blank)
  }

  function NextStart(t: string, i: nat): (s: nat)
    requires i <= |t|
    ensures i <= s <= |t|
    ensures s < |t| ==> Starts(t, s)
    decreases |t| - i
  {
    if i == |t| || Starts(t, i) then i else NextStart(t, i + 1)
  }

  lemma {:induction false} NoStartBefore(t: string, i: nat)
    requires i <= |t|
    ensures forall k :: i <= k < NextStart(t, i) ==> !Starts(t, k)
    decreases |t| - i
  {
    if i < |t| && !Starts(t, i) { NoStartBefore(t, i + 1); }
  }

  /** The next line end, assignment or end of the text. */
  function LineEnd(t: string, i: nat): (e: nat)
    requires i <= |t|
    ensures i <= e <= |t|
    ensures e < |t| ==> Newline(t[e]) || Starts(t, e)
    ensures e <= NextStart(t, i)
    decreases |t| - i
  {
    if i == |t| || Newline(t[i]) || Starts(t, i) then i else LineEnd(t, i + 1)
  }

  lemma {:induction false} NoEndBefore(t: string, i: nat)
    requires i <= |t|
    ensures forall k :: i <= k < LineEnd(t, i) ==> !Newline(t[k]) && !Starts(t, k)
    decreases |t| - i
  {
    if i < |t| && !Newline(t[i]) && !Starts(t, i) { NoEndBefore(t, i + 1); }
  }


  lemma {:induction false} LineEndIs(t: string, i: nat, e: nat)
    requires i <= e <= |t|
    requires e == |t| || Newline(t[e]) || Starts(t, e)
    requires forall k :: i <= k < e ==> !Newline(t[k]) && !Starts(t, k)
    ensures LineEnd(t, i) == e
    decreases e - i
  {
    if i < e { LineEndIs(t, i + 1, e); }
  }

  lemma {:induction false} NextStartIs(t: string, i: nat, s: nat)
    requires i <= s <= |t|
    requires s == |t| || Starts(t, s)
    requires forall k :: i <= k < s ==> !Starts(t, k)
    ensures NextStart(t, i) == s
    decreases s - i
  {
    if i < s { NextStartIs(t, i + 1, s); }
  }

  // ----- The cuts of a text -----

  datatype Cut = Cut(start: nat, open: nat, close: nat)

  /** The cut of the assignment at `s`; a value never ends before it begins. */
  function CutAt(rule: Rule, t: string, s: nat): (c: Cut)
    requires Starts(t, s)
    ensures c.start == s < c.open <= c.close <= |t|
  {
    var open := OpenAt(t, s);
    var end := rule(t, open);
    Cut(s, open, if end < open then open else if end > |t| then |t| else end)
  }

  function Cuts(rule: Rule, t: string, i: nat): seq<Cut>
    requires i <= |t|
    decreases |t| - i
  {
    var s := NextStart(t, i);
    if s == |t| then [] else
    var c := CutAt(rule, t, s);
    [c] + Cuts(rule, t, c.close)
  }

  /** The text from `i` on with every cut replaced by the marker. */
  function Weave(marker: string, t: string, cuts: seq<Cut>, i: nat): string {
    if cuts == [] then (if i <= |t| then t[i..] else [])
    else if i <= cuts[0].open <= |t| then t[i..cuts[0].open] + marker + Weave(marker, t, cuts[1..], cuts[0].close)
    else []
  }

  function Redacted(rule: Rule, marker: string, t: string, i: nat): string
    requires i <= |t|
  {
    Weave(marker, t, Cuts(rule, t, i), i)
  }

  lemma RedactedAt(rule: Rule, marker: string, t: string, i: nat)
    requires i <= |t|
    ensures var s := NextStart(t, i);
      Redacted(rule, marker, t, i) ==
        if s == |t| then t[i..] else
        var c := CutAt(rule, t, s);
        t[i..c.open] + marker + Redacted(rule, marker, t, c.close)
  {
    var s := NextStart(t, i);
    if s < |t| {
      var c := CutAt(rule, t, s);
      assert Cuts(rule, t, i)[1..] == Cuts(rule, t, c.close);
    }
  }

  // ----- What a rule must respect -----

  /** No value reaches over an assignment, and what follows a value starts on a fresh word. */
  ghost predicate Respects(rule: Rule, t: string) {
    forall i: nat :: RespectsAt(rule, t, i)
  }

  predicate RespectsAt(rule: Rule, t: string, i: nat) {
    i <= |t| ==>
      var e := rule(t, i);
      && i <= e <= |t|
      && (forall k :: i <= k < e ==> !Starts(t, k))
      && (e == |t| || t[e] != 'I' || Edge(t, e))
  }

  /** Between an assignment and its value no other assignment begins. */
  lemma NothingInside(t: string, s: nat)
    requires Starts(t, s)
    ensures forall x :: s < x < OpenAt(t, s) ==> x < |t| && t[x] != 'I' && !Newline(t[x]) && !Starts(t, x)
  {
    var e := SpanEnd(t, s + 2, Blank);
    SpanHolds(t, s + 2, Blank);
    SpanHolds(t, e + 1, Blank);
    forall x | s < x < OpenAt(t, s) ensures x < |t| && t[x] != 'I' && !Newline(t[x]) {
      if s + 2 <= x < e || x > e { assert Blank(t[x]); }
    }
  }

  predicate InOrder(cs: seq<Cut>) {
    forall k :: 0 <= k < |cs| - 1 ==> cs[k].close <= cs[k + 1].start
  }

  /** Each cut is that of an assignment at or after `i`. */
  predicate Exact(rule: Rule, t: string, i: nat, cs: seq<Cut>) {
    forall c <- cs :: i <= c.start && Starts(t, c.start) && c == CutAt(rule, t, c.start)
  }

  ghost predicate Found(cs: seq<Cut>, s: nat) {
    exists c <- cs :: c.start == s
  }

  lemma FoundCons(c: Cut, rest: seq<Cut>, s: nat)
    requires s == c.start || Found(rest, s)
    ensures Found([c] + rest, s)
  {
    if s == c.start {
      assert ([c] + rest)[0] == c;
    } else {
      var d :| d in rest && d.start == s;
      assert d in [c] + rest;
    }
  }

  lemma InOrderCons(rule: Rule, t: string, i: nat, c: Cut, rest: seq<Cut>)
    requires i <= c.start && Starts(t, c.start) && c == CutAt(rule, t, c.start)
    requires InOrder(rest) && Exact(rule, t, c.close, rest)
    ensures InOrder([c] + rest) && Exact(rule, t, i, [c] + rest)
  {
    var cs := [c] + rest;
    forall k | 0 <= k < |cs| - 1 ensures cs[k].close <= cs[k + 1].start {
      assert cs[k + 1] == rest[k] && rest[k] in rest;
      if k > 0 { assert cs[k] == rest[k - 1]; }
    }
  }

  /** The cuts are exactly the assignments, in order and without overlap. */
  lemma {:induction false} CutsAreTheAssignments(rule: Rule, t: string, i: nat)
    requires i <= |t| && Respects(rule, t)
    ensures InOrder(Cuts(rule, t, i)) && Exact(rule, t, i, Cuts(rule, t, i))
    ensures forall s :: s >= i && Starts(t, s) ==> Found(Cuts(rule, t, i), s)
    decreases |t| - i
  {
    var s := NextStart(t, i);
    NoStartBefore(t, i);
    if s < |t| {
      var c := CutAt(rule, t, s);
      var rest := Cuts(rule, t, c.close);
      CutsAreTheAssignments(rule, t, c.close);
      InOrderCons(rule, t, i, c, rest);
      forall x | x >= i && Starts(t, x) ensures Found([c] + rest, x) {
        NotWithin(rule, t, s, x);
        FoundCons(c, rest, x);
      }
    }
  }

  lemma NotWithin(rule: Rule, t: string, s: nat, x: nat)
    requires Starts(t, s) && Starts(t, x) && Respects(rule, t)
    ensures x <= s || x >= CutAt(rule, t, s).close
  {
    NothingInside(t, s);
    assert RespectsAt(rule, t, OpenAt(t, s));
  }

  // ----- What is kept -----

  predicate Inside(cs: seq<Cut>, k: nat) {
    exists c <- cs :: c.open <= k < c.close
  }

  /** The characters from `i` on that lie in no cut, in order. */
  function Outside(t: string, cs: seq<Cut>, i: nat): string
    decreases |t| - i
  {
    if i >= |t| then [] else (if Inside(cs, i) then [] else [t[i]]) + Outside(t, cs, i + 1)
  }

  /** Cuts of a text from `i` on, one after the other. */
  predicate Cutting(t: string, cs: seq<Cut>, i: nat)
    decreases |cs|
  {
    cs == [] || (i <= cs[0].open <= cs[0].close <= |t| && Cutting(t, cs[1..], cs[0].close))
  }

  lemma {:induction false} CutsAreCutting(rule: Rule, t: string, i: nat)
    requires i <= |t|
    ensures Cutting(t, Cuts(rule, t, i), i)
    decreases |t| - i
  {
    var s := NextStart(t, i);
    if s < |t| {
      CutsAreCutting(rule, t, CutAt(rule, t, s).close);
      assert Cuts(rule, t, i)[1..] == Cuts(rule, t, CutAt(rule, t, s).close);
    }
  }

  lemma {:induction false} CutsLieAhead(t: string, cs: seq<Cut>, i: nat)
    requires Cutting(t, cs, i)
    ensures forall c <- cs :: i <= c.open
    decreases |cs|
  {
    if cs != [] {
      CutsLieAhead(t, cs[1..], cs[0].close);
      assert cs == [cs[0]] + cs[1..];
    }
  }

  /** Where nothing is inside, everything is kept. */
  lemma {:induction false} KeptUpTo(t: string, cs: seq<Cut>, i: nat, j: nat)
    requires i <= j <= |t| && forall k :: i <= k < j ==> !Inside(cs, k)
    ensures Outside(t, cs, i) == t[i..j] + Outside(t, cs, j)
    decreases j - i
  {
    if i < j {
      KeptUpTo(t, cs, i + 1, j);
      assert t[i..j] == [t[i]] + t[i + 1..j];
      assert [t[i]] + (t[i + 1..j] + Outside(t, cs, j)) == t[i..j] + Outside(t, cs, j);
    }
  }

  lemma {:induction false} DroppedUpTo(t: string, cs: seq<Cut>, i: nat, j: nat)
    requires i <= j <= |t| && forall k :: i <= k < j ==> Inside(cs, k)
    ensures Outside(t, cs, i) == Outside(t, cs, j)
    decreases j - i
  {
    if i < j { DroppedUpTo(t, cs, i + 1, j); }
  }

  lemma {:induction false} SameOutside(t: string, cs: seq<Cut>, ds: seq<Cut>, i: nat)
    requires forall k: nat :: k >= i ==> Inside(cs, k) == Inside(ds, k)
    ensures Outside(t, cs, i) == Outside(t, ds, i)
    decreases |t| - i
  {
    if i < |t| { SameOutside(t, cs, ds, i + 1); }
  }

  /** Apart from the markers, exactly the text outside the cuts is kept, in order. */
  lemma {:induction false} OutsideIsKept(t: string, cs: seq<Cut>, i: nat)
    requires i <= |t| && Cutting(t, cs, i)
    ensures Weave([], t, cs, i) == Outside(t, cs, i)
    decreases |cs|
  {
    if cs == [] {
      KeptUpTo(t, cs, i, |t|);
      assert t[i..|t|] == t[i..];
    } else {
      var c, rest := cs[0], cs[1..];
      FirstCut(t, cs, i);
      OutsideIsKept(t, rest, c.close);
    }
  }

  lemma FirstCut(t: string, cs: seq<Cut>, i: nat)
    requires i <= |t| && Cutting(t, cs, i) && cs != []
    ensures Outside(t, cs, i) == t[i..cs[0].open] + Outside(t, cs[1..], cs[0].close)
  {
    var c, rest := cs[0], cs[1..];
    assert cs == [c] + rest;
    CutsLieAhead(t, cs, i);
    CutsLieAhead(t, rest, c.close);
    forall k | i <= k < c.open ensures !Inside(cs, k) {}
    KeptUpTo(t, cs, i, c.open);
    forall k | c.open <= k < c.close ensures Inside(cs, k) { assert c in cs; }
    DroppedUpTo(t, cs, c.open, c.close);
    forall k: nat | k >= c.close ensures Inside(cs, k) == Inside(rest, k) {}
    SameOutside(t, cs, rest, c.close);
  }
}
