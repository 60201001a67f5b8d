/** Custom-packet specifications: the tag grammar and its validator. */
module CpsTags {
  import opened Common
  import opened Strings

  const LIMIT: nat := 1000

  predicate Digit(c: char) { '0' <= c <= '9' }

  predicate Hex(c: char) { Digit(c) || 'a' <= c <= 'f' || 'A' <= c <= 'F' }

  predicate Nothing(c: char) { false }

  // ----- Tags as values, and the one way to write each down -----

  datatype Kind = Bytes | Timestamp | Random | RandomChars | RandomDigits

  datatype Tag = Tag(kind: Kind, body: string)

  function Opener(k: Kind): string {
    match k
    case Bytes => "<b 0x"
    case Timestamp => "<t"
    case Random => "<r "
    case RandomChars => "<rc "
    case RandomDigits => "<rd "
  }

  function Class(k: Kind): char -> bool {
    match k
    case Bytes => Hex
    case Timestamp => Nothing
    case _ => Digit
  }

  predicate Syntax(g: Tag) {
    && (forall i :: 0 <= i < |g.body| ==> Class(g.kind)(g.body[i]))
    && match g.kind
       case Bytes => |g.body| >= 1
       case Timestamp => |g.body| == 0
       case _ => 1 <= |g.body| <= 4 && g.body[0] != '0'
  }

  function Render(g: Tag): (s: string)
    ensures |s| >= 3 && s[0] == '<'
  {
    Opener(g.kind) + (g.body + ['>'])
  }

  function Value(d: string): nat {
    if d == [] then 0 else
    10 * Value(d[..|d| - 1]) + if Digit(d[|d| - 1]) then d[|d| - 1] as int - '0' as int else 0
  }

  /** Bytes the tag contributes to the packet; an odd hexadecimal string contributes none. */
  function Size(g: Tag): Option<nat> {
    match g.kind
    case Bytes => if |g.body| % 2 == 1 then None else Some(|g.body| / 2)
    case Timestamp => Some(4)
    case _ => Some(Value(g.body))
  }

  predicate Good(g: Tag) {
    Syntax(g) && Size(g).Some? && Size(g).value <= LIMIT
  }

  function Weight(g: Tag): nat {
    if Size(g).Some? then Size(g).value else 0
  }

  function Text(gs: seq<Tag>): string { Concat(gs, Render) }

  function Total(gs: seq<Tag>): nat { Sum(gs, Weight) }

  // ----- The matcher -----

  lemma Written(t: string, i: nat, k: Kind, j: nat)
    requires At(t, i, Opener(k)) && i + |Opener(k)| <= j < |t| && t[j] == '>'
    ensures At(t, i, Render(Tag(k, t[i + |Opener(k)|..j])))
  {
    var s := i + |Opener(k)|;
    AtSplit(t, s, t[s..j], ['>']);
    AtSplit(t, i, Opener(k), t[s..j] + ['>']);
  }

  function KindAt(t: string, i: nat, k: Kind): (r: Option<Tag>)
    ensures r.Some? ==> r.value.kind == k && Syntax(r.value) && At(t, i, Render(r.value))
  {
    var s := i + |Opener(k)|;
    if !At(t, i, Opener(k)) then None else
    var j := SpanEnd(t, s, Class(k));
    SpanHolds(t, s, Class(k));
    if j < |t| && t[j] == '>' && Syntax(Tag(k, t[s..j])) then
      Written(t, i, k, j);
      Some(Tag(k, t[s..j]))
    else None
  }

  /** The one kind of tag whose opening is written at `i`. */
  function KindOpenAt(t: string, i: nat): (k: Option<Kind>)
    ensures k.Some? ==> At(t, i, Opener(k.value))
  {
    if At(t, i, Opener(Bytes)) then Some(Bytes)
    else if At(t, i, Opener(Timestamp)) then Some(Timestamp)
    else if At(t, i, Opener(Random)) then Some(Random)
    else if At(t, i, Opener(RandomChars)) then Some(RandomChars)
    else if At(t, i, Opener(RandomDigits)) then Some(RandomDigits)
    else None
  }

  /** The tag pattern, matched at one position. */
  function TagAt(t: string, i: nat): (r: Option<Tag>)
    ensures r.Some? ==> Syntax(r.value) && At(t, i, Render(r.value))
  {
    var k := KindOpenAt(t, i);
    if k.None? then None else KindAt(t, i, k.value)
  }

  lemma OneOpener(t: string, i: nat, k: Kind, l: Kind)
    requires At(t, i, Opener(k)) && At(t, i, Opener(l))
    ensures k == l
  {
    AtChar(t, i, Opener(k), 1);
    AtChar(t, i, Opener(l), 1);
    if k != Timestamp && l != Timestamp {
      AtChar(t, i, Opener(k), 2);
      AtChar(t, i, Opener(l), 2);
    }
  }

  /** Where some tag is written, the matcher finds that tag and no other. */
  lemma TagAtFindsWhatIsWritten(t: string, i: nat, g: Tag)
    requires Syntax(g) && At(t, i, Render(g))
    ensures TagAt(t, i) == Some(g)
  {
    var open := Opener(g.kind);
    AtSplit(t, i, open, g.body + ['>']);
    SpanOf(t, i + |open|, Class(g.kind), g.body, '>');
    var k := KindOpenAt(t, i);
    assert k.Some?;
    OneOpener(t, i, k.value, g.kind);
  }

  lemma TagsAreFound()
    ensures Finds(TagAt, Good, Render)
  {
    forall t: string, i: nat, g: Tag | Good(g) && At(t, i, Render(g)) ensures TagAt(t, i) == Some(g) {
      TagAtFindsWhatIsWritten(t, i, g);
    }
  }

  // ----- The validator -----

  datatype Verdict = Accepted | Malformed | TooLarge | ExceedsMtu

  /** The value spells out at least one tag, each within the limit, and all of them together are. */
  ghost predicate Spells(v: string, gs: seq<Tag>) {
    gs != [] && All(gs, Good) && v == Text(gs) && Total(gs) <= LIMIT
  }

  ghost predicate Overflows(v: string, gs: seq<Tag>) {
    All(gs, Good) && At(v, 0, Text(gs)) && Total(gs) > LIMIT
  }

  method ValidateCps(value: string, mtu: int) returns (r: Verdict)
    ensures r == Accepted <==> exists gs :: Spells(value, gs) && Total(gs) < mtu
    ensures r == ExceedsMtu <==> exists gs :: Spells(value, gs) && Total(gs) >= mtu
    ensures r == TooLarge <==> exists gs :: Overflows(value, gs)
  {
    if value == "" {
      NothingSpelled();
      return Malformed;
    }
    var position, renderedSize := 0, 0;
    ghost var gs: seq<Tag> := [];
    while position < |value|
      invariant position <= |value| && (gs == [] ==> position == 0)
      invariant All(gs, Good) && Text(gs) == value[..position] && Total(gs) == renderedSize <= LIMIT
    {
      var match_ := TagAt(value, position);
      if match_ == None {
        Stuck(value, gs);
        return Malformed;
      }
      var g := match_.value;
      var size := Size(g);
      if size == None || size.value > LIMIT {
        Stuck(value, gs);
        return Malformed;
      }
      renderedSize := renderedSize + size.value;
      Advance(value, gs, g);
      gs := gs + [g];
      position := position + |Render(g)|;
      if renderedSize > LIMIT {
        assert Overflows(value, gs);
        OverflowIsFinal(value, gs);
        return TooLarge;
      }
    }
    assert value[..position] == value;
    Decided(value, gs);
    r := if renderedSize >= mtu then ExceedsMtu else Accepted;
  }

  lemma NothingSpelled()
    ensures forall gs :: !Spells("", gs) && !Overflows("", gs)
  {
    forall gs ensures !Spells("", gs) && !Overflows("", gs) {
      PrefixMeasures([], gs, Render, Weight);
    }
  }

  lemma Advance(v: string, gs: seq<Tag>, g: Tag)
    requires All(gs, Good) && Text(gs) <= v && Good(g) && At(v, |Text(gs)|, Render(g))
    ensures All(gs + [g], Good) && Total(gs + [g]) == Total(gs) + Size(g).value
    ensures Text(gs + [g]) == v[..|Text(gs)| + |Render(g)|]
  {
    ConcatSnoc(gs, g, Render);
    SumSnoc(gs, g, Weight);
    var p := |Text(gs)|;
    assert v[..p + |Render(g)|] == v[..p] + v[p..p + |Render(g)|];
  }

  /** After a prefix of good tags, no good tag follows and text remains: nothing is spelled. */
  lemma Stuck(v: string, gs: seq<Tag>)
    requires All(gs, Good) && Text(gs) <= v && Text(gs) != v && Total(gs) <= LIMIT
    requires var m := TagAt(v, |Text(gs)|); m.None? || !Good(m.value)
    ensures forall hs :: !Spells(v, hs) && !Overflows(v, hs)
  {
    TagsAreFound();
    forall hs | Spells(v, hs) || Overflows(v, hs) ensures false {
      assert At(v, 0, Text(gs)) && At(v, 0, Text(hs));
      OneReading(TagAt, Good, Render, gs, hs, v, 0);
      if hs <= gs {
        PrefixMeasures(hs, gs, Render, Weight);
      } else {
        NextPiece(TagAt, Good, Render, gs, hs, v);
      }
    }
  }

  lemma OverflowIsFinal(v: string, gs: seq<Tag>)
    requires Overflows(v, gs)
    ensures forall hs :: !Spells(v, hs)
  {
    TagsAreFound();
    forall hs | Spells(v, hs) ensures false {
      assert At(v, 0, Text(hs));
      OneReading(TagAt, Good, Render, gs, hs, v, 0);
      if gs <= hs {
        PrefixMeasures(gs, hs, Render, Weight);
      } else {
        PrefixMeasures(hs, gs, Render, Weight);
      }
    }
  }

  lemma Decided(v: string, gs: seq<Tag>)
    requires Spells(v, gs)
    ensures forall hs :: Spells(v, hs) ==> hs == gs
    ensures forall hs :: !Overflows(v, hs)
  {
    TagsAreFound();
    forall hs | Spells(v, hs) ensures hs == gs {
      assert At(v, 0, Text(gs)) && At(v, 0, Text(hs));
      OneReading(TagAt, Good, Render, gs, hs, v, 0);
      if gs <= hs {
        PrefixMeasures(gs, hs, Render, Weight);
      } else {
        PrefixMeasures(hs, gs, Render, Weight);
      }
    }
    forall hs | Overflows(v, hs) ensures false { OverflowIsFinal(v, hs); }
  }
}
