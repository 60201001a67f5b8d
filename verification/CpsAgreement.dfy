/** The sanitizer against the validator: an accepted value is removed whole. */
module CpsAgreement {
  import opened Common
  import opened Strings
  import opened CpsTags
  import opened Assignments
  import opened CpsSanitizer

  // ----- Scanning step by step -----

  /** Tag by tag, `accept` leads through these positions and sizes. */
  ghost predicate Trace(accept: Acceptor, t: string, ps: seq<(nat, nat)>) {
    && ps != []
    && (forall k :: 0 <= k < |ps| - 1 ==> Step(accept, t, ps[k], ps[k + 1]))
  }

  predicate Step(accept: Acceptor, t: string, p: (nat, nat), q: (nat, nat)) {
    p.0 < q.0 <= |t| && t[p.0] == '<' && accept(t, p.0, p.1) == Some(q)
  }

  lemma {:induction false} ScanTrace(accept: Acceptor, t: string, ps: seq<(nat, nat)>)
    requires Trace(accept, t, ps) && ps[0].0 <= |t|
    ensures var last := ps[|ps| - 1];
      last.0 <= |t| && Scan(accept, t, ps[0].0, ps[0].1) == Scan(accept, t, last.0, last.1)
    decreases |ps|
  {
    if |ps| > 1 {
      assert Step(accept, t, ps[0], ps[0 + 1]);
      var rest := ps[1..];
      forall k | 0 <= k < |rest| - 1 ensures Step(accept, t, rest[k], rest[k + 1]) {
        assert Step(accept, t, ps[k + 1], ps[k + 1 + 1]);
      }
      ScanTrace(accept, t, rest);
    }
  }

  /** The pieces are written at `i` and their weights fit what is left of the limit. */
  ghost predicate Fits<T>(render: T -> string, weight: T -> nat, t: string, i: nat, xs: seq<T>, size: nat) {
    At(t, i, Concat(xs, render)) && size + Sum(xs, weight) <= LIMIT
  }

  /** The acceptor takes the piece at `i` if it is good and fits. */
  predicate TakesOne<T>(accept: Acceptor, good: T -> bool, render: T -> string, weight: T -> nat,
      t: string, i: nat, x: T, size: nat)
  {
    good(x) && At(t, i, render(x)) && size + weight(x) <= LIMIT ==>
      Step(accept, t, (i, size), (i + |render(x)|, size + weight(x)))
  }

  ghost predicate Takes<T(!new)>(accept: Acceptor, good: T -> bool, render: T -> string, weight: T -> nat, t: string) {
    forall i: nat, x: T, size: nat :: TakesOne(accept, good, render, weight, t, i, x, size)
  }

  lemma TakesTag(t: string, i: nat, g: Tag, size: nat)
    ensures TakesOne(Accept, Good, Render, Weight, t, i, g, size)
  {
    hide Accept, TagAt, Concat, Class;
    if Good(g) && At(t, i, Render(g)) && size + Weight(g) <= LIMIT {
      TagAtFindsWhatIsWritten(t, i, g);
      AtChar(t, i, Render(g), 0);
      AcceptTag(t, i, g, size);
    }
  }

  lemma AcceptTag(t: string, i: nat, g: Tag, size: nat)
    requires Good(g) && TagAt(t, i) == Some(g) && size + Weight(g) <= LIMIT
    ensures Accept(t, i, size) == Some((i + |Render(g)|, size + Weight(g)))
  {
  }

  lemma AcceptTakesTags(t: string)
    ensures Takes(Accept, Good, Render, Weight, t)
  {
    forall i: nat, g: Tag, size: nat ensures TakesOne(Accept, Good, Render, Weight, t, i, g, size) {
      TakesTag(t, i, g, size);
    }
  }

  lemma {:induction false} TraceOf<T(!new)>(accept: Acceptor, good: T -> bool, render: T -> string, weight: T -> nat,
      t: string, i: nat, xs: seq<T>, size: nat)
    returns (ps: seq<(nat, nat)>)
    requires Takes(accept, good, render, weight, t) && All(xs, good) && Fits(render, weight, t, i, xs, size)
    ensures Trace(accept, t, ps) && |ps| == |xs| + 1
    ensures ps[0] == (i, size) && ps[|ps| - 1] == (i + |Concat(xs, render)|, size + Sum(xs, weight))
    decreases |xs|
  {
    if xs == [] {
      ps := [(i, size)];
    } else {
      var x := xs[0];
      var q := (i + |render(x)|, size + weight(x));
      Uncons(xs, good);
      FirstPiece(xs, render, t, i);
      SumCons(x, xs[1..], weight);
      assert TakesOne(accept, good, render, weight, t, i, x, size);
      var rest := TraceOf(accept, good, render, weight, t, q.0, xs[1..], q.1);
      TraceCons(accept, t, (i, size), rest);
      ps := [(i, size)] + rest;
      assert ps[|ps| - 1] == rest[|rest| - 1];
    }
  }

  lemma TraceCons(accept: Acceptor, t: string, p: (nat, nat), ps: seq<(nat, nat)>)
    requires Trace(accept, t, ps) && Step(accept, t, p, ps[0])
    ensures Trace(accept, t, [p] + ps)
  {
    var qs := [p] + ps;
    forall k | 0 <= k < |qs| - 1 ensures Step(accept, t, qs[k], qs[k + 1]) {
      if k > 0 { assert Step(accept, t, ps[k - 1], ps[k - 1 + 1]); }
    }
  }

  lemma {:induction false} TraceIsQuiet(accept: Acceptor, t: string, ps: seq<(nat, nat)>)
    requires Trace(accept, t, ps) && Quietly(accept, t) && ps[0].0 <= |t|
    ensures var last := ps[|ps| - 1].0;
      ps[0].0 <= last <= |t| && Quiet(t, ps[0].0, last) && (|ps| > 1 ==> ps[0].0 < last && t[ps[0].0] == '<')
    decreases |ps|
  {
    if |ps| > 1 {
      var m := |ps| - 2;
      var init := ps[..m + 1];
      assert Step(accept, t, ps[m], ps[m + 1]);
      forall k | 0 <= k < |init| - 1 ensures Step(accept, t, init[k], init[k + 1]) {
        assert Step(accept, t, ps[k], ps[k + 1]);
      }
      TraceIsQuiet(accept, t, init);
      assert QuietAt(accept, t, ps[m].0, ps[m].1);
      QuietJoin(t, ps[0].0, ps[m].0, ps[m + 1].0);
    }
  }

  /** Where a trace ends before anything but another tag, its tags are the payload; otherwise more is cut. */
  lemma PayloadOfTrace(accept: Acceptor, t: string, a: nat, ps: seq<(nat, nat)>)
    requires a <= |t| && Trace(accept, t, ps) && Quietly(accept, t) && |ps| > 1
    requires ps[0] == (a + WrapperAt(t, a).1, 0)
    ensures var e := ps[|ps| - 1].0;
      && e <= |t| && e <= PayloadEndWith(accept, t, a)
      && (e == |t| || t[e] != '<' ==> PayloadEndWith(accept, t, a) == Closed(t, WrapperAt(t, a).0, e))
      && (e < |t| && t[e] == '<' ==> PayloadEndWith(accept, t, a) > e)
  {
    var (wrapper, width) := WrapperAt(t, a);
    var last := ps[|ps| - 1];
    TraceIsQuiet(accept, t, ps);
    ScanTrace(accept, t, ps);
    WrappersAreQuiet(t, a, wrapper);
    QuietJoin(t, a, a + width, last.0);
    QuietHasNoStart(t, a, last.0);
    assert TagsEnd(accept, t, a + width) == Scan(accept, t, last.0, last.1) by {
      var end := Scan(accept, t, last.0, last.1);
      assert end.Some? ==> end.value >= last.0;
    }
  }

  /** Where good tags are written, they are the payload, unless more of them seem to follow. */
  lemma PayloadOfTags<T(!new)>(accept: Acceptor, good: T -> bool, render: T -> string, weight: T -> nat,
      t: string, a: nat, xs: seq<T>)
    requires a <= |t| && Quietly(accept, t) && Takes(accept, good, render, weight, t)
    requires xs != [] && All(xs, good) && Fits(render, weight, t, a + WrapperAt(t, a).1, xs, 0)
    ensures var e := a + WrapperAt(t, a).1 + |Concat(xs, render)|;
      && e <= |t| && e <= PayloadEndWith(accept, t, a)
      && (e == |t| || t[e] != '<' ==> PayloadEndWith(accept, t, a) == Closed(t, WrapperAt(t, a).0, e))
      && (e < |t| && t[e] == '<' ==> PayloadEndWith(accept, t, a) > e)
  {
    var ps := TraceOf(accept, good, render, weight, t, a + WrapperAt(t, a).1, xs, 0);
    PayloadOfTrace(accept, t, a, ps);
  }

  /** Without quotes, nothing but the tags is cut. */
  lemma BarePayload<T(!new)>(accept: Acceptor, good: T -> bool, render: T -> string, weight: T -> nat,
      t: string, a: nat, xs: seq<T>)
    requires a <= |t| && Quietly(accept, t) && Takes(accept, good, render, weight, t) && WrapperAt(t, a).0.None?
    requires xs != [] && All(xs, good) && Fits(render, weight, t, a, xs, 0)
    ensures CutExactly(t, a, a + |Concat(xs, render)|, PayloadEndWith(accept, t, a))
  {
    PayloadOfTags(accept, good, render, weight, t, a, xs);
  }

  lemma QuotedPayload<T(!new)>(accept: Acceptor, good: T -> bool, render: T -> string, weight: T -> nat,
      t: string, a: nat, xs: seq<T>)
    requires a <= |t| && Quietly(accept, t) && Takes(accept, good, render, weight, t) && WrapperAt(t, a).0.Some?
    requires xs != [] && All(xs, good) && Fits(render, weight, t, a + WrapperAt(t, a).1, xs, 0)
    requires var e := a + WrapperAt(t, a).1 + |Concat(xs, render)|; WrapperAt(t, e).0 == WrapperAt(t, a).0
    ensures var e := a + WrapperAt(t, a).1 + |Concat(xs, render)|;
      PayloadEndWith(accept, t, a) == e + WrapperAt(t, e).1
  {
    PayloadOfTags(accept, good, render, weight, t, a, xs);
  }

  lemma SpellsOpens(v: string, gs: seq<Tag>, t: string, a: nat)
    requires Spells(v, gs) && At(t, a, v)
    ensures WrapperAt(t, a).0.None? && a <= |t|
    ensures Fits(Render, Weight, t, a, gs, 0) && |Concat(gs, Render)| == |v|
  {
    ConcatCons(gs[0], gs[1..], Render);
    assert gs == [gs[0]] + gs[1..];
    AtChar(t, a, v, 0);
    assert v[0] == Render(gs[0])[0];
  }

  /** What cutting a value from `a` to `e` exactly means. */
  ghost predicate CutExactly(t: string, a: nat, e: nat, end: nat) {
    a <= e <= end && e <= |t| && (end == e <==> e == |t| || t[e] != '<')
  }

  /** A value the validator accepts is cut whole, and nothing after it, unless more tags seem to follow. */
  lemma AcceptedValueIsCutExactly(t: string, a: nat, v: string, gs: seq<Tag>)
    requires At(t, a, v) && Spells(v, gs)
    ensures CutExactly(t, a, a + |v|, PayloadEndWith(Accept, t, a))
  {
    hide PayloadEndWith, WrapperAt;
    AcceptIsQuiet(t);
    AcceptTakesTags(t);
    SpellsOpens(v, gs, t, a);
    BarePayload(Accept, Good, Render, Weight, t, a, gs);
  }

  /** In quotes, the value goes together with the quotes around it. */
  lemma QuotedValueIsCutExactly(t: string, a: nat, v: string, gs: seq<Tag>)
    requires a <= |t| && WrapperAt(t, a).0.Some?
    requires At(t, a + WrapperAt(t, a).1, v) && Spells(v, gs)
    requires var e := a + WrapperAt(t, a).1 + |v|; WrapperAt(t, e).0 == WrapperAt(t, a).0
    ensures var e := a + WrapperAt(t, a).1 + |v|; PayloadEndWith(Accept, t, a) == e + WrapperAt(t, e).1
  {
    hide PayloadEndWith;
    AcceptIsQuiet(t);
    AcceptTakesTags(t);
    QuotedPayload(Accept, Good, Render, Weight, t, a, gs);
  }

  /** The sanitizer cuts at every assignment of the text, in order, and keeps everything else. */
  lemma EveryAssignmentIsCut(t: string)
    ensures var cs := Cuts(RuleOf(Accept), t, 0);
      && InOrder(cs) && Exact(RuleOf(Accept), t, 0, cs) && (forall s :: Starts(t, s) ==> Found(cs, s))
      && Sanitized(t) == Weave(REDACTED, t, cs, 0) && Weave([], t, cs, 0) == Outside(t, cs, 0)
  {
    AcceptIsQuiet(t);
    RuleRespects(Accept, t);
    CutsAreTheAssignments(RuleOf(Accept), t, 0);
    CutsAreCutting(RuleOf(Accept), t, 0);
    OutsideIsKept(t, Cuts(RuleOf(Accept), t, 0), 0);
  }

  // ----- Sanitizing twice -----

  /** A text that is one assignment, with no other after the end of its value. */
  lemma OneAssignment(t: string, end: nat)
    requires At(t, 0, "I1=") && 3 < |t| && !Blank(t[3])
    requires 3 <= end <= |t| && RuleOf(Accept)(t, 3) == end
    requires forall k :: end <= k < |t| ==> t[k] != 'I'
    ensures Sanitized(t) == "I1=" + (REDACTED + t[end..])
  {
    hide PayloadEndWith, Weave, Cuts, Redacted, RuleOf, Word;
    AtChar(t, 0, "I1=", 0);
    AtChar(t, 0, "I1=", 1);
    AtChar(t, 0, "I1=", 2);
    assert SpanEnd(t, 2, Blank) == 2 && SpanEnd(t, 3, Blank) == 3;
    assert Starts(t, 0) && OpenAt(t, 0) == 3 && NextStart(t, 0) == 0;
    assert CutAt(RuleOf(Accept), t, 0) == Cut(0, 3, end);
    RedactedAt(RuleOf(Accept), REDACTED, t, 0);
    NextStartIs(t, end, |t|);
    RedactedAt(RuleOf(Accept), REDACTED, t, end);
    assert t[0..3] == "I1=";
  }

  /** What follows a value on its line survives the first pass, and is lost in the second: the
      marker that stands for the value by then is no value. */
  lemma SanitizingTwiceRemovesMore(v: string, gs: seq<Tag>, rest: string)
    requires Spells(v, gs)
    requires rest != "" && rest[0] != '<' && forall k :: 0 <= k < |rest| ==> rest[k] != 'I' && !Newline(rest[k])
    ensures Sanitized("I1=" + (v + rest)) == "I1=" + (REDACTED + rest)
    ensures Sanitized("I1=" + (REDACTED + rest)) == "I1=" + REDACTED
  {
    FirstPass(v, gs, rest);
    SecondPass(rest);
  }

  lemma FirstPass(v: string, gs: seq<Tag>, rest: string)
    requires Spells(v, gs)
    requires rest != "" && rest[0] != '<' && forall k :: 0 <= k < |rest| ==> rest[k] != 'I'
    ensures Sanitized("I1=" + (v + rest)) == "I1=" + (REDACTED + rest)
  {
    hide Spells, PayloadEndWith, Sanitized, Concat, WrapperAt;
    var t := "I1=" + (v + rest);
    assert t[3..] == v + rest && t[3 + |v|..] == rest;
    assert At(t, 3, v);
    SpellsOpens(v, gs, t, 3);
    AcceptedValueIsCutExactly(t, 3, v, gs);
    ValueOpens(v, gs);
    assert t[3] == (v + rest)[0] == v[0];
    OneAssignment(t, 3 + |v|);
  }

  lemma ValueOpens(v: string, gs: seq<Tag>)
    requires Spells(v, gs)
    ensures v != "" && v[0] == '<'
  {
    ConcatCons(gs[0], gs[1..], Render);
    assert gs == [gs[0]] + gs[1..];
    assert v[0] == Render(gs[0])[0];
  }

  lemma SecondPass(rest: string)
    requires forall k :: 0 <= k < |rest| ==> rest[k] != 'I' && !Newline(rest[k])
    ensures Sanitized("I1=" + (REDACTED + rest)) == "I1=" + REDACTED
  {
    var t := "I1=" + (REDACTED + rest);
    assert forall k :: 3 <= k < |t| ==> t[k] == (REDACTED + rest)[k - 3];
    assert t[3] == '[';
    NoTagsAt(Accept, t, 3);
    LineEndIs(t, 3, |t|);
    OneAssignment(t, |t|);
    assert t[|t|..] == "";
  }
}
