/** Removing custom-packet specifications from text that is about to be published. */
module CpsSanitizer {
  import opened Common
  import opened Strings
  import opened CpsTags
  import opened Assignments

  const REDACTED: string := "[redacted]"

  predicate Wrapper(c: char) { c == '\'' || c == '"' || c == '`' }

  // ----- One payload -----

  function WrapperAt(t: string, i: nat): (r: (Option<char>, nat))
    ensures r.0.Some? ==> i + r.1 <= |t| && 1 <= r.1 <= 2 && Wrapper(r.0.value) && t[i + r.1 - 1] == r.0.value
    ensures r.0.Some? && r.1 == 2 ==> t[i] == '\\'
    ensures r.0.None? ==> r.1 == 0
  {
    if i < |t| && Wrapper(t[i]) then (Some(t[i]), 1)
    else if i + 1 < |t| && t[i] == '\\' && Wrapper(t[i + 1]) then (Some(t[i + 1]), 2)
    else (None, 0)
  }

  /** The end of an acceptable tag at `i` and the size so far with it. */
  function Accept(t: string, i: nat, size: nat): (r: Option<(nat, nat)>)
    ensures r.Some? ==> i < r.value.0 <= |t|
  {
    var g := TagAt(t, i);
    if g.None? then None else
    var contribution := Size(g.value);
    if contribution.None? then None else
    var total := size + contribution.value;
    if contribution.value > LIMIT || total > LIMIT then None
    else Some((i + |Render(g.value)|, total))
  }

  type Acceptor = (string, nat, nat) -> Option<(nat, nat)>

  /** Where the tags from `i` on end, unless one of them is not acceptable. */
  function Scan(accept: Acceptor, t: string, i: nat, size: nat): (r: Option<nat>)
    requires i <= |t|
    ensures r.Some? ==> i <= r.value <= |t|
    decreases |t| - i
  {
    if i == |t| || t[i] != '<' then Some(i) else
    var next := accept(t, i, size);
    if next.None? || !(i < next.value.0 <= |t|) then None
    else Scan(accept, t, next.value.0, next.value.1)
  }

  /** As `Scan` from nothing, where at least one tag is found. */
  function TagsEnd(accept: Acceptor, t: string, i: nat): (r: Option<nat>)
    requires i <= |t|
    ensures r.Some? ==> i < r.value <= |t|
  {
    var end := Scan(accept, t, i, 0);
    if end == Some(i) then None else end
  }

  /** The end of a payload whose tags end at `end`: past the wrapper that closes it. */
  function Closed(t: string, wrapper: Option<char>, end: nat): (e: nat)
    requires end <= |t|
    ensures end <= e <= |t|
    ensures end < e ==> Wrapper(t[e - 1]) && (e == end + 1 || (e == end + 2 && t[end] == '\\'))
  {
    var (close, more) := WrapperAt(t, end);
    if wrapper.Some? && close == wrapper then end + more else end
  }

  function PayloadEndWith(accept: Acceptor, t: string, i: nat): (e: nat)
    requires i <= |t|
    ensures i <= e <= |t|
  {
    var (wrapper, width) := WrapperAt(t, i);
    var end := TagsEnd(accept, t, i + width);
    if end.None? then LineEnd(t, i) else Closed(t, wrapper, end.value)
  }

  function Sanitized(t: string): string { Redacted(RuleOf(Accept), REDACTED, t, 0) }

  // ----- The program's loops -----

  function FindIn(t: string, c: char, lo: nat, hi: nat): (r: Option<nat>)
    requires lo <= hi <= |t|
    ensures r.Some? ==> lo <= r.value < hi && t[r.value] == c
    ensures forall k :: lo <= k < (if r.Some? then r.value else hi) ==> t[k] != c
    decreases hi - lo
  {
    if lo == hi then None else if t[lo] == c then Some(lo) else FindIn(t, c, lo + 1, hi)
  }

  /** Characters a search of `lo..hi` looks at. */
  function Examined(found: Option<nat>, lo: nat, hi: nat): int {
    if found.Some? then found.value + 1 - lo else hi - lo
  }

  method CpsAmbiguousEnd(t: string, position: nat) returns (end: nat, ghost examined: nat)
    requires position <= |t|
    ensures end == LineEnd(t, position)
    ensures examined <= 2 * (NextStart(t, position) - position)
  {
    var boundary := NextStart(t, position);
    NoStartBefore(t, position);
    var cr := FindIn(t, '\r', position, boundary);
    var lf := FindIn(t, '\n', position, boundary);
    examined := Examined(cr, position, boundary) + Examined(lf, position, boundary);
    end := boundary;
    if cr.Some? && cr.value < end { end := cr.value; }
    if lf.Some? && lf.value < end { end := lf.value; }
    LineEndIs(t, position, end);
  }

  /** The tag loop: where it stops, or nothing where it gives up. */
  method CpsTagsEnd(accept: Acceptor, t: string, start: nat) returns (end: Option<nat>)
    requires start <= |t|
    ensures end == TagsEnd(accept, t, start)
  {
    var cursor, tags, renderedSize: nat := start, 0, 0;
    while cursor < |t| && t[cursor] == '<'
      invariant start <= cursor <= |t| && (tags == 0 <==> cursor == start)
      invariant Scan(accept, t, start, 0) == Scan(accept, t, cursor, renderedSize)
    {
      var next := accept(t, cursor, renderedSize);
      if next.None? || !(cursor < next.value.0 <= |t|) { return None; }
      tags := tags + 1;
      cursor, renderedSize := next.value.0, next.value.1;
    }
    end := if tags == 0 then None else Some(cursor);
  }

  method CpsPayloadEnd(accept: Acceptor, t: string, position: nat) returns (end: nat, ghost examined: nat)
    requires position <= |t|
    ensures end == PayloadEndWith(accept, t, position)
    ensures examined <= 2 * (NextStart(t, position) - position)
  {
    var (wrapper, width) := WrapperAt(t, position);
    var tagsEnd := CpsTagsEnd(accept, t, position + width);
    if tagsEnd.None? {
      end, examined := CpsAmbiguousEnd(t, position);
      return;
    }
    end, examined := tagsEnd.value, 0;
    if wrapper.Some? {
      var (closing, closingWidth) := WrapperAt(t, end);
      if closing == wrapper { end := end + closingWidth; }
    }
  }

  function Itself(s: string): string { s }

  lemma NextStartGrows(t: string, i: nat, j: nat)
    requires i <= j <= |t|
    ensures NextStart(t, i) <= NextStart(t, j)
  {
    NoStartBefore(t, i);
  }

  lemma OneMoreCut(rule: Rule, marker: string, t: string, i: nat, parts: seq<string>)
    requires i <= |t| && NextStart(t, i) < |t|
    ensures var c := CutAt(rule, t, NextStart(t, i));
      Concat(parts + [t[i..c.open]] + [marker], Itself) + Redacted(rule, marker, t, c.close)
      == Concat(parts, Itself) + Redacted(rule, marker, t, i)
  {
    hide Starts, CutAt, NextStart;
    var c := CutAt(rule, t, NextStart(t, i));
    RedactedAt(rule, marker, t, i);
    ConcatSnoc(parts, t[i..c.open], Itself);
    ConcatSnoc(parts + [t[i..c.open]], marker, Itself);
  }

  /** The rule the sanitizer follows with some acceptor of tags. */
  function RuleOf(accept: Acceptor): Rule {
    (t: string, i: nat) => if i <= |t| then PayloadEndWith(accept, t, i) else i
  }

  method SanitizeCpsText(t: string) returns (r: string, ghost examined: nat)
    ensures r == Sanitized(t)
    ensures examined <= 2 * |t|
  {
    r, examined := SanitizeWith(Accept, REDACTED, t);
  }

  method SanitizeWith(accept: Acceptor, marker: string, t: string) returns (r: string, ghost examined: nat)
    ensures r == Redacted(RuleOf(accept), marker, t, 0)
    ensures examined <= 2 * |t|
  {
    var parts: seq<string> := [];
    var cursor := 0;
    examined := 0;
    var assignment := NextStart(t, cursor);
    while assignment < |t|
      invariant cursor <= |t| && assignment == NextStart(t, cursor)
      invariant Concat(parts, Itself) + Redacted(RuleOf(accept), marker, t, cursor) == Redacted(RuleOf(accept), marker, t, 0)
      invariant examined <= 2 * assignment
      decreases |t| - cursor
    {
      var open := OpenAt(t, assignment);
      var payloadEnd, more := CpsPayloadEnd(accept, t, open);
      OneMoreCut(RuleOf(accept), marker, t, cursor, parts);
      parts := parts + [t[cursor..open]] + [marker];
      NextStartGrows(t, open, payloadEnd);
      cursor, examined := payloadEnd, examined + more;
      assignment := NextStart(t, cursor);
    }
    RedactedAt(RuleOf(accept), marker, t, cursor);
    ConcatSnoc(parts, t[cursor..], Itself);
    parts := parts + [t[cursor..]];
    r := Concat(parts, Itself);
  }

  // ----- What a payload may contain -----

  predicate Quiet(t: string, i: nat, j: nat)
    requires i <= j <= |t|
  {
    forall k :: i <= k < j ==> t[k] != 'I' && !Newline(t[k])
  }

  lemma TagIsQuiet(t: string, i: nat, g: Tag)
    requires Syntax(g) && At(t, i, Render(g))
    ensures Quiet(t, i, i + |Render(g)|) && t[i + |Render(g)| - 1] == '>'
  {
    var open, r := Opener(g.kind), Render(g);
    forall k | 0 <= k < |r| ensures t[i + k] == r[k] && t[i + k] != 'I' && !Newline(t[i + k]) {
      AtChar(t, i, r, k);
      if k < |open| {
        assert r[k] == open[k];
      } else if k < |r| - 1 {
        assert r[k] == g.body[k - |open|];
        assert Class(g.kind)(g.body[k - |open|]);
      }
    }
    assert forall k :: i <= k < i + |r| ==> t[k] == t[i + (k - i)];
  }

  /** An accepted tag is quiet text that ends in a bracket. */
  ghost predicate Quietly(accept: Acceptor, t: string) {
    forall i: nat, size: nat :: QuietAt(accept, t, i, size)
  }

  predicate QuietAt(accept: Acceptor, t: string, i: nat, size: nat) {
    var r := accept(t, i, size);
    r.Some? && i < r.value.0 <= |t| ==> Quiet(t, i, r.value.0) && t[r.value.0 - 1] == '>'
  }

  lemma AcceptIsQuiet(t: string)
    ensures Quietly(Accept, t)
  {
    forall i: nat, size: nat ensures QuietAt(Accept, t, i, size) {
      if Accept(t, i, size).Some? { OneIsQuiet(t, i, size); }
    }
  }

  lemma OneIsQuiet(t: string, i: nat, size: nat)
    requires Accept(t, i, size).Some?
    ensures var e := Accept(t, i, size).value.0; Quiet(t, i, e) && t[e - 1] == '>'
  {
    TagIsQuiet(t, i, TagAt(t, i).value);
  }

  lemma {:induction false} ScanIsQuiet(accept: Acceptor, t: string, i: nat, size: nat)
    requires i <= |t| && Quietly(accept, t)
    ensures var e := Scan(accept, t, i, size);
      e.Some? ==> Quiet(t, i, e.value) && (i < e.value ==> t[e.value - 1] == '>')
    decreases |t| - i
  {
    if i < |t| && t[i] == '<' {
      var next := accept(t, i, size);
      if next.Some? && i < next.value.0 <= |t| {
        assert QuietAt(accept, t, i, size);
        ScanIsQuiet(accept, t, next.value.0, next.value.1);
      }
    }
  }

  lemma QuietJoin(t: string, i: nat, j: nat, k: nat)
    requires i <= j <= k <= |t| && Quiet(t, i, j) && Quiet(t, j, k)
    ensures Quiet(t, i, k)
  {
  }

  lemma WrappersAreQuiet(t: string, i: nat, wrapper: Option<char>)
    requires i <= |t|
    ensures Quiet(t, i, i + WrapperAt(t, i).1)
    ensures Quiet(t, i, Closed(t, wrapper, i))
  {
  }

  lemma TaggedIsQuiet(accept: Acceptor, t: string, i: nat)
    requires i <= |t| && TagsEnd(accept, t, i + WrapperAt(t, i).1).Some? && Quietly(accept, t)
    ensures var e := PayloadEndWith(accept, t, i); i < e && Quiet(t, i, e) && (t[e - 1] == '>' || Wrapper(t[e - 1]))
  {
    var (wrapper, width) := WrapperAt(t, i);
    var end := TagsEnd(accept, t, i + width).value;
    ScanIsQuiet(accept, t, i + width, 0);
    WrappersAreQuiet(t, i, wrapper);
    WrappersAreQuiet(t, end, wrapper);
    QuietJoin(t, i, i + width, end);
    QuietJoin(t, i, end, Closed(t, wrapper, end));
  }

  lemma QuietHasNoStart(t: string, i: nat, j: nat)
    requires i <= j <= |t| && Quiet(t, i, j)
    ensures forall k :: i <= k < j ==> !Starts(t, k)
  {
  }

  lemma RuleRespects(accept: Acceptor, t: string)
    requires Quietly(accept, t)
    ensures Respects(RuleOf(accept), t)
  {
    forall i: nat ensures RespectsAt(RuleOf(accept), t, i) {
      if i <= |t| { RespectedHere(accept, t, i); }
    }
  }

  lemma NoTagsAt(accept: Acceptor, t: string, i: nat)
    requires i < |t| && t[i] == '['
    ensures PayloadEndWith(accept, t, i) == LineEnd(t, i)
  {
    assert Scan(accept, t, i, 0) == Some(i);
  }

  lemma RespectedHere(accept: Acceptor, t: string, i: nat)
    requires i <= |t| && Quietly(accept, t)
    ensures RespectsAt(RuleOf(accept), t, i)
  {
    if TagsEnd(accept, t, i + WrapperAt(t, i).1).Some? {
      TaggedIsQuiet(accept, t, i);
      QuietHasNoStart(t, i, PayloadEndWith(accept, t, i));
    } else {
      NoEndBefore(t, i);
    }
  }
}
