/** Native configuration text: lines, sections and fields, as they are written and as they are read. */
module ConfigText {
  import opened Common
  import opened Strings

  predicate Space(c: char) {
    var n := c as int;
    || 9 <= n <= 13 || 28 <= n <= 32 || n == 0x85 || n == 0xA0 || n == 0x1680 || 0x2000 <= n <= 0x200A
    || n == 0x2028 || n == 0x2029 || n == 0x202F || n == 0x205F || n == 0x3000
  }

  predicate LineBreak(c: char) {
    var n := c as int;
    10 <= n <= 13 || 28 <= n <= 30 || n == 0x85 || n == 0x2028 || n == 0x2029
  }

  function LStrip(s: string): string {
    if s != "" && Space(s[0]) then LStrip(s[1..]) else s
  }

  function RStrip(s: string): string {
    if s != "" && Space(s[|s| - 1]) then RStrip(s[..|s| - 1]) else s
  }

  function Strip(s: string): string { RStrip(LStrip(s)) }

  /** Neither end is a space. */
  predicate Trimmed(s: string) { s == "" || (!Space(s[0]) && !Space(s[|s| - 1])) }

  predicate OneLine(s: string) { forall i :: 0 <= i < |s| ==> !LineBreak(s[i]) }

  lemma StripTrimmed(s: string)
    requires Trimmed(s)
    ensures Strip(s) == s && Strip(" " + s) == s && Strip(s + " ") == s
  {
    assert (" " + s)[1..] == s && (s + " ")[..|s|] == s;
    if s == "" {
      assert " " + s == " " == s + " " && " "[1..] == "";
      assert LStrip(" ") == LStrip("");
    } else {
      assert LStrip(" " + s) == LStrip(s) == s;
      assert LStrip(s + " ") == s + " ";
      assert RStrip(s + " ") == RStrip(s);
    }
  }

  // ----- Reading -----

  function Break(t: string): (i: nat)
    ensures i <= |t| && (i < |t| ==> LineBreak(t[i]))
  {
    if t == "" || LineBreak(t[0]) then 0 else 1 + Break(t[1..])
  }

  function SplitLines(t: string): seq<string>
    decreases |t|
  {
    if t == "" then [] else
    var i := Break(t);
    if i == |t| then [t] else [t[..i]] + SplitLines(t[i + 1..])
  }

  type Fields = map<string, string>

  datatype ParseError = EmptySection | InvalidSyntax | EmptyKey | DuplicateKey

  datatype Parsed = Bad(error: ParseError) | Sections(all: map<string, seq<Fields>>, current: Option<string>)

  predicate Filling(p: Parsed) {
    p.Sections? && (p.current.Some? ==> p.current.value in p.all && p.all[p.current.value] != [])
  }

  function Open(p: Parsed, name: string): (r: Parsed)
    requires Filling(p)
    ensures Filling(r)
  {
    Sections(p.all[name := (if name in p.all then p.all[name] else []) + [map[]]], Some(name))
  }

  function Current(p: Parsed): Fields
    requires Filling(p) && p.current.Some?
  {
    var dicts := p.all[p.current.value];
    dicts[|dicts| - 1]
  }

  function Put(p: Parsed, key: string, value: string): (r: Parsed)
    requires Filling(p) && p.current.Some?
    ensures Filling(r)
  {
    var dicts := p.all[p.current.value];
    p.(all := p.all[p.current.value := dicts[|dicts| - 1 := Current(p)[key := value]]])
  }

  function ReadLine(p: Parsed, raw: string): (r: Parsed)
    requires Filling(p)
    ensures r.Bad? || Filling(r)
  {
    var line := Strip(raw);
    if line == "" || line[0] == '#' || line[0] == ';' then p
    else if |line| >= 2 && line[0] == '[' && line[|line| - 1] == ']' then
      var name := Strip(line[1..|line| - 1]);
      if name == "" then Bad(EmptySection) else Open(p, name)
    else if p.current.None? || Find(line, '=') == |line| then Bad(InvalidSyntax)
    else
      var key, value := Strip(line[..Find(line, '=')]), Strip(line[Find(line, '=') + 1..]);
      if key == "" then Bad(EmptyKey)
      else if key in Current(p) then Bad(DuplicateKey)
      else Put(p, key, value)
  }

  function ReadLines(p: Parsed, lines: seq<string>): (r: Parsed)
    requires Filling(p)
    ensures r.Bad? || Filling(r)
    decreases |lines|
  {
    if lines == [] then p else
    var q := ReadLine(p, lines[0]);
    if q.Bad? then q else ReadLines(q, lines[1..])
  }

  const NOTHING := Sections(map[], None)

  function Parse(text: string): (r: Parsed)
    ensures r.Bad? || Filling(r)
  {
    ReadLines(NOTHING, SplitLines(text))
  }

  method ParseAwgConfig(text: string) returns (r: Parsed)
    ensures r == Parse(text)
  {
    hide Strip, Open, Put, Find, SplitLines;
    var lines := SplitLines(text);
    r := NOTHING;
    for i := 0 to |lines|
      invariant Filling(r)
      invariant ReadLines(r, lines[i..]) == Parse(text)
    {
      assert lines[i..][0] == lines[i] && lines[i..][1..] == lines[i + 1..];
      var line := Strip(lines[i]);
      if line == "" || line[0] == '#' || line[0] == ';' { continue; }
      if |line| >= 2 && line[0] == '[' && line[|line| - 1] == ']' {
        var name := Strip(line[1..|line| - 1]);
        if name == "" { return Bad(EmptySection); }
        r := Open(r, name);
        continue;
      }
      var equals := Find(line, '=');
      if r.current.None? || equals == |line| { return Bad(InvalidSyntax); }
      var key, value := Strip(line[..equals]), Strip(line[equals + 1..]);
      if key == "" { return Bad(EmptyKey); }
      if key in Current(r) { return Bad(DuplicateKey); }
      r := Put(r, key, value);
    }
  }

  // ----- Writing -----

  datatype Line = Blank | Header(name: string) | Comment(text: string) | Field(key: string, value: string)

  function RenderLine(l: Line): string {
    match l
    case Blank => ""
    case Header(name) => "[" + name + "]"
    case Comment(text) => "# " + text
    case Field(key, value) => key + (" = " + value)
  }

  function RenderLn(l: Line): string { RenderLine(l) + ['\n'] }

  function Render(lines: seq<Line>): string { Concat(lines, RenderLn) }

  predicate Key(k: string) {
    k != "" && Trimmed(k) && OneLine(k) && k[0] != '#' && k[0] != ';' && k[0] != '['
    && forall i :: 0 <= i < |k| ==> k[i] != '='
  }

  predicate Clean(v: string) { Trimmed(v) && OneLine(v) }

  predicate Writable(l: Line) {
    match l
    case Blank => true
    case Header(name) => name != "" && Clean(name)
    case Comment(text) => OneLine(text)
    case Field(key, value) => Key(key) && Clean(value)
  }

  /** What a line means to whoever reads it. */
  function Take(p: Parsed, l: Line): (r: Parsed)
    requires Filling(p)
    ensures r.Bad? || Filling(r)
  {
    match l
    case Blank => p
    case Comment(_) => p
    case Header(name) => Open(p, name)
    case Field(key, value) =>
      if p.current.None? then Bad(InvalidSyntax)
      else if key in Current(p) then Bad(DuplicateKey)
      else Put(p, key, value)
  }

  function TakeAll(p: Parsed, lines: seq<Line>): (r: Parsed)
    requires Filling(p)
    ensures r.Bad? || Filling(r)
    decreases |lines|
  {
    if lines == [] then p else
    var q := Take(p, lines[0]);
    if q.Bad? then q else TakeAll(q, lines[1..])
  }

  // ----- What is written is read back -----

  lemma {:induction false} FindIs(s: string, c: char, i: nat)
    requires i < |s| && s[i] == c && forall k :: 0 <= k < i ==> s[k] != c
    ensures Find(s, c) == i
    decreases i
  {
    if i > 0 { FindIs(s[1..], c, i - 1); }
  }

  lemma {:induction false} BreakIs(t: string, i: nat)
    requires i < |t| && LineBreak(t[i]) && forall k :: 0 <= k < i ==> !LineBreak(t[k])
    ensures Break(t) == i
    decreases i
  {
    if i > 0 { BreakIs(t[1..], i - 1); }
  }

  lemma FieldIsRead(p: Parsed, key: string, value: string)
    requires Filling(p) && Key(key) && Clean(value)
    ensures ReadLine(p, RenderLine(Field(key, value))) == Take(p, Field(key, value))
  {
    FieldParts(key, value);
  }

  lemma FieldParts(key: string, value: string)
    requires Key(key) && Clean(value)
    ensures var line := Strip(key + (" = " + value));
      && line != "" && line[0] == key[0] && Find(line, '=') == |key| + 1 < |line|
      && Strip(line[..|key| + 1]) == key && Strip(line[|key| + 2..]) == value
  {
    var n := |key|;
    var tail := if value == "" then "" else " " + value;
    var line := key + (" =" + tail);
    FieldLine(key, value);
    assert line[n + 1] == '=' && forall k :: 0 <= k < n ==> line[k] == key[k];
    FindIs(line, '=', n + 1);
    assert line[..n + 1] == key + " " && line[n + 2..] == tail;
    StripTrimmed(key);
    StripTrimmed(value);
  }

  lemma FieldLine(key: string, value: string)
    requires Key(key) && Clean(value)
    ensures Strip(key + (" = " + value)) == key + (" =" + if value == "" then "" else " " + value)
  {
    FieldStripped(key, value);
    if value == "" {
      assert " =" + "" == " =";
    } else {
      assert " = " + value == " =" + (" " + value);
    }
  }

  /** A field's line loses at most the space after the equals sign. */
  lemma FieldStripped(key: string, value: string)
    requires Key(key) && Clean(value)
    ensures Strip(key + (" = " + value)) == if value == "" then key + " =" else key + (" = " + value)
  {
    var raw := key + (" = " + value);
    assert raw[0] == key[0];
    if value == "" {
      assert raw == (key + " =") + " ";
      StripTrimmed(key + " =");
    } else {
      assert raw[|raw| - 1] == value[|value| - 1];
      StripTrimmed(raw);
    }
  }

  lemma LineIsRead(p: Parsed, l: Line)
    requires Filling(p) && Writable(l)
    ensures ReadLine(p, RenderLine(l)) == Take(p, l)
  {
    match l {
      case Blank => assert Strip("") == "";
      case Header(name) =>
        var raw := "[" + name + "]";
        StripTrimmed(raw);
        assert raw[1..|raw| - 1] == name;
        StripTrimmed(name);
      case Comment(text) =>
        var raw := "# " + text;
        assert LStrip(raw) == raw && raw[0] == '#';
        RStripHead(raw);
      case Field(key, value) => FieldIsRead(p, key, value);
    }
  }

  lemma {:induction false} RStripHead(s: string)
    requires s != "" && !Space(s[0])
    ensures RStrip(s) != "" && RStrip(s)[0] == s[0]
    decreases |s|
  {
    if Space(s[|s| - 1]) { RStripHead(s[..|s| - 1]); }
  }

  lemma RenderedIsOneLine(l: Line)
    requires Writable(l)
    ensures OneLine(RenderLine(l))
  {
  }

  lemma FirstLine(l: Line, rest: string)
    requires Writable(l)
    ensures SplitLines(RenderLn(l) + rest) == [RenderLine(l)] + SplitLines(rest)
  {
    var raw := RenderLine(l);
    var t := RenderLn(l) + rest;
    RenderedIsOneLine(l);
    assert t[|raw|] == '\n' && forall k :: 0 <= k < |raw| ==> t[k] == raw[k];
    BreakIs(t, |raw|);
    assert t[..|raw|] == raw && t[|raw| + 1..] == rest;
  }

  predicate AllWritable(lines: seq<Line>) {
    forall i :: 0 <= i < |lines| ==> Writable(lines[i])
  }

  /** Parsing a written document takes its lines one by one. */
  lemma {:induction false} DocumentIsRead(p: Parsed, lines: seq<Line>)
    requires Filling(p) && AllWritable(lines)
    ensures ReadLines(p, SplitLines(Render(lines))) == TakeAll(p, lines)
    decreases |lines|
  {
    if lines == [] {
      assert Render(lines) == "";
    } else {
      var l, rest := lines[0], lines[1..];
      assert lines == [l] + rest;
      ConcatCons(l, rest, RenderLn);
      FirstLine(l, Render(rest));
      LineIsRead(p, l);
      var read := SplitLines(Render(lines));
      assert read[1..] == SplitLines(Render(rest));
      var q := Take(p, l);
      if q.Sections? { DocumentIsRead(q, rest); }
    }
  }
}
