/** The documents the renderers write: server and client configurations as lists of lines. */
module ProfileDocument {
  import opened Common
  import opened Strings
  import opened ConfigText
  import CpsTags

  type Pairs = seq<(string, string)>

  function FieldsOf(pairs: Pairs): (lines: seq<Line>)
    ensures |lines| == |pairs| && forall i :: 0 <= i < |pairs| ==> lines[i] == Field(pairs[i].0, pairs[i].1)
  {
    seq(|pairs|, i requires 0 <= i < |pairs| => Field(pairs[i].0, pairs[i].1))
  }

  function Dict(pairs: Pairs): (m: Fields)
    ensures m.Keys == set i | 0 <= i < |pairs| :: pairs[i].0
    decreases |pairs|
  {
    if pairs == [] then map[] else
    var k := |pairs| - 1;
    Dict(pairs[..k])[pairs[k].0 := pairs[k].1]
  }

  predicate DistinctKeys(pairs: Pairs) {
    forall i, j :: 0 <= i < j < |pairs| ==> pairs[i].0 != pairs[j].0
  }

  predicate WritablePairs(pairs: Pairs) {
    forall i :: 0 <= i < |pairs| ==> Key(pairs[i].0) && Clean(pairs[i].1)
  }

  lemma {:induction false} DictAt(pairs: Pairs, i: nat)
    requires i < |pairs| && DistinctKeys(pairs)
    ensures pairs[i].0 in Dict(pairs) && Dict(pairs)[pairs[i].0] == pairs[i].1
    decreases |pairs|
  {
    var k := |pairs| - 1;
    if i < k {
      DictAt(pairs[..k], i);
      assert pairs[..k][i] == pairs[i];
    }
  }

  // ----- Numbers -----

  function Show(n: nat): string {
    if n < 10 then [DIGITS[n]] else Show(n / 10) + [DIGITS[n % 10]]
  }

  const DIGITS: string := "0123456789"

  predicate Digits(s: string) { s != "" && forall i :: 0 <= i < |s| ==> '0' <= s[i] <= '9' }

  lemma {:induction false} ShownDigits(n: nat)
    ensures Digits(Show(n))
    decreases n
  {
    if n >= 10 { ShownDigits(n / 10); }
  }

  // ----- Obfuscation parameters -----

  datatype Range = Exactly(n: nat) | Between(min: nat, max: nat)

  function ShowRange(r: Range): string {
    match r
    case Exactly(n) => Show(n)
    case Between(min, max) => Show(min) + "-" + Show(max)
  }

  /** Parameters in the order of their fields; a custom packet may be absent. */
  datatype Obfuscation =
    | Classic(values: seq<nat>)
    | Awg31(integers: seq<nat>, headers: seq<Range>, packets: seq<Option<string>>, headerKey: string,
            ranges: seq<Range>, switches: seq<bool>)

  const CLASSIC_FIELDS: seq<string> := ["Jc", "Jmin", "Jmax", "S1", "S2", "H1", "H2", "H3", "H4"]
  const INTEGER_FIELDS: seq<string> := ["Jc", "Jmin", "Jmax", "S1", "S2", "S3", "S4"]
  const HEADER_FIELDS: seq<string> := ["H1", "H2", "H3", "H4"]
  const CPS_FIELDS: seq<string> := ["I1", "I2", "I3", "I4", "I5"]
  const RANGE_FIELDS: seq<string> :=
    ["ContentPaddingAddition", "RekeyAfterTime", "RekeyTimeout", "RejectAfterTime", "KeepaliveTimeout", "MaxHandshakeAttempts"]
  const BOOLEAN_FIELDS: seq<string> := ["RandomTrailers", "DisableCookies"]

  /** A custom packet the validator accepts. */
  ghost predicate Packet(v: string) {
    exists gs :: CpsTags.Spells(v, gs)
  }

  /** One value for each field. */
  predicate Shaped(o: Obfuscation) {
    match o
    case Classic(values) => |values| == 9
    case Awg31(integers, headers, packets, _, ranges, switches) =>
      |integers| == 7 && |headers| == 4 && |packets| == 5 && |ranges| == 6 && |switches| == 2
  }

  ghost predicate Complete(o: Obfuscation) {
    && Shaped(o)
    && (o.Awg31? ==>
          && ValidKey(o.headerKey)
          && forall i :: 0 <= i < 5 ==> o.packets[i].Some? ==> Packet(o.packets[i].value))
  }

  predicate Base64(c: char) {
    'A' <= c <= 'Z' || 'a' <= c <= 'z' || '0' <= c <= '9' || c == '+' || c == '/'
  }

  /** Text that decodes to 32 bytes: 43 digits, and one or two padding signs. */
  predicate ValidKey(s: string) {
    && 44 <= |s| <= 45
    && (forall i :: 0 <= i < 43 ==> Base64(s[i]))
    && forall i :: 43 <= i < |s| ==> s[i] == '='
  }

  function Zip(names: seq<string>, values: seq<string>): (ps: Pairs)
    requires |names| == |values|
    ensures |ps| == |names| && forall i :: 0 <= i < |ps| ==> ps[i] == (names[i], values[i])
  {
    seq(|names|, i requires 0 <= i < |names| => (names[i], values[i]))
  }

  function Map<A, B>(xs: seq<A>, f: A -> B): (ys: seq<B>)
    ensures |ys| == |xs| && forall i :: 0 <= i < |xs| ==> ys[i] == f(xs[i])
  {
    seq(|xs|, i requires 0 <= i < |xs| => f(xs[i]))
  }

  function OnOff(b: bool): string { if b then "on" else "off" }

  function Present(names: seq<string>, values: seq<Option<string>>): Pairs
    requires |names| == |values|
  {
    if names == [] then [] else
    (if values[0].Some? then [(names[0], values[0].value)] else []) + Present(names[1..], values[1..])
  }

  /** The native fields every renderer writes. */
  function EffectiveObfuscation(o: Obfuscation): Pairs
    requires Shaped(o)
  {
    match o
    case Classic(values) => Zip(CLASSIC_FIELDS, Map(values, Show))
    case Awg31(integers, headers, packets, headerKey, ranges, switches) =>
      Zip(INTEGER_FIELDS, Map(integers, Show)) + Zip(HEADER_FIELDS, Map(headers, ShowRange))
      + Present(CPS_FIELDS, packets) + [("HeaderProtectionKey", headerKey)]
      + Zip(RANGE_FIELDS, Map(ranges, ShowRange)) + Zip(BOOLEAN_FIELDS, Map(switches, OnOff))
  }

  /** Where a field stands among all that a renderer may write. */
  function Rank(name: string): nat {
    var n := |name|;
    if n == 2 then
      if name[0] == 'J' then 1
      else if name[0] == 'S' then 4 + Digit(name[1])
      else if name[0] == 'H' then 14 + Digit(name[1])
      else if name[0] == 'I' then 24 + Digit(name[1]) else 0
    else if n == 4 then (if name[0] != 'J' then 0 else if name[3] == 'n' then 2 else 3)
    else if n == 19 then 40
    else if n == 22 then 41
    else if n == 14 then (if name[0] == 'D' then 48 else if name[13] == 'e' then 42 else 47)
    else if n == 12 then (if name[0] == 'R' then 43 else 0)
    else if n == 15 then 44
    else if n == 16 then 45
    else if n == 20 then 46
    else if n == 10 then (if name[0] == 'P' then 60 else 61)
    else if n == 7 then 62
    else if n == 3 then (if name[0] == 'D' then 63 else 64)
    else if n == 6 then 65
    else if n == 8 then 66
    else 0
  }

  function Digit(c: char): nat { if '0' <= c <= '9' then c as int - '0' as int else 0 }

  // ----- The fields are well formed and distinct -----

  predicate Alphanumeric(s: string) {
    s != "" && forall i :: 0 <= i < |s| ==> 'a' <= s[i] <= 'z' || 'A' <= s[i] <= 'Z' || '0' <= s[i] <= '9'
  }

  lemma AlphanumericKey(s: string)
    requires Alphanumeric(s)
    ensures Key(s) && Clean(s)
  {
  }

  /** Field names in increasing rank, between the bounds. */
  predicate Named(names: seq<string>, low: nat, high: nat) {
    && (forall i :: 0 <= i < |names| ==> Alphanumeric(names[i]) && low < Rank(names[i]) < high)
    && forall i :: 0 < i < |names| ==> Rank(names[i - 1]) < Rank(names[i])
  }

  lemma NamedJoin(a: seq<string>, b: seq<string>, low: nat, middle: nat, high: nat)
    requires 0 < middle && low < middle < high && Named(a, low, middle) && Named(b, middle - 1, high)
    ensures Named(a + b, low, high)
  {
  }

  lemma JunkFields()
    ensures Named(["Jc", "Jmin"], 0, 3)
  {
  }

  lemma JunkMaximumField()
    ensures Named(["Jmax"], 2, 4)
  {
  }

  lemma FirstSizeFields()
    ensures Named(["S1", "S2"], 3, 7)
  {
  }

  lemma LastSizeFields()
    ensures Named(["S3", "S4"], 6, 9)
  {
  }

  lemma FirstHeaderFields()
    ensures Named(["H1", "H2"], 10, 17)
  {
  }

  lemma LastHeaderFields()
    ensures Named(["H3", "H4"], 16, 19)
  {
  }

  lemma FirstPacketFields()
    ensures Named(["I1", "I2"], 20, 27)
  {
  }

  lemma MiddlePacketFields()
    ensures Named(["I3", "I4"], 26, 29)
  {
  }

  lemma LastPacketField()
    ensures Named(["I5"], 28, 40)
  {
  }

  lemma IntegerFields()
    ensures Named(INTEGER_FIELDS, 0, 9)
  {
    JunkFields();
    JunkMaximumField();
    FirstSizeFields();
    LastSizeFields();
    NamedJoin(["Jc", "Jmin"], ["Jmax"], 0, 3, 4);
    NamedJoin(["Jc", "Jmin"] + ["Jmax"], ["S1", "S2"], 0, 4, 7);
    NamedJoin(["Jc", "Jmin"] + ["Jmax"] + ["S1", "S2"], ["S3", "S4"], 0, 7, 9);
    assert INTEGER_FIELDS == ["Jc", "Jmin"] + ["Jmax"] + ["S1", "S2"] + ["S3", "S4"];
  }

  lemma HeaderFields()
    ensures Named(HEADER_FIELDS, 10, 19)
  {
    FirstHeaderFields();
    LastHeaderFields();
    NamedJoin(["H1", "H2"], ["H3", "H4"], 10, 17, 19);
    assert HEADER_FIELDS == ["H1", "H2"] + ["H3", "H4"];
  }

  lemma CpsFields()
    ensures Named(CPS_FIELDS, 20, 40)
  {
    FirstPacketFields();
    MiddlePacketFields();
    LastPacketField();
    NamedJoin(["I1", "I2"], ["I3", "I4"], 20, 27, 29);
    NamedJoin(["I1", "I2"] + ["I3", "I4"], ["I5"], 20, 29, 40);
    assert CPS_FIELDS == ["I1", "I2"] + ["I3", "I4"] + ["I5"];
  }

  lemma ClassicFields()
    ensures Named(CLASSIC_FIELDS, 0, 19)
  {
    JunkFields();
    JunkMaximumField();
    FirstSizeFields();
    HeaderFields();
    NamedJoin(["Jc", "Jmin"], ["Jmax"], 0, 3, 4);
    NamedJoin(["Jc", "Jmin"] + ["Jmax"], ["S1", "S2"], 0, 4, 11);
    NamedJoin(["Jc", "Jmin"] + ["Jmax"] + ["S1", "S2"], HEADER_FIELDS, 0, 11, 19);
    assert CLASSIC_FIELDS == ["Jc", "Jmin"] + ["Jmax"] + ["S1", "S2"] + HEADER_FIELDS;
  }

  lemma ContentPaddingAdditionField()
    ensures Named(["ContentPaddingAddition"], 40, 42)
  {
  }

  lemma RekeyAfterTimeField()
    ensures Named(["RekeyAfterTime"], 41, 43)
  {
  }

  lemma RekeyTimeoutField()
    ensures Named(["RekeyTimeout"], 42, 44)
  {
  }

  lemma RejectAfterTimeField()
    ensures Named(["RejectAfterTime"], 43, 45)
  {
  }

  lemma KeepaliveTimeoutField()
    ensures Named(["KeepaliveTimeout"], 44, 46)
  {
  }

  lemma MaxHandshakeAttemptsField()
    ensures Named(["MaxHandshakeAttempts"], 45, 47)
  {
  }

  lemma RandomTrailersField()
    ensures Named(["RandomTrailers"], 46, 48)
  {
  }

  lemma DisableCookiesField()
    ensures Named(["DisableCookies"], 47, 49)
  {
  }

  lemma RangeFields()
    ensures Named(RANGE_FIELDS, 40, 47)
  {
    ContentPaddingAdditionField();
    RekeyAfterTimeField();
    RekeyTimeoutField();
    RejectAfterTimeField();
    KeepaliveTimeoutField();
    MaxHandshakeAttemptsField();
    NamedJoin(["ContentPaddingAddition"], ["RekeyAfterTime"], 40, 42, 43);
    NamedJoin(["ContentPaddingAddition"] + ["RekeyAfterTime"], ["RekeyTimeout"], 40, 43, 44);
    NamedJoin(["ContentPaddingAddition"] + ["RekeyAfterTime"] + ["RekeyTimeout"], ["RejectAfterTime"], 40, 44, 45);
    NamedJoin(["ContentPaddingAddition"] + ["RekeyAfterTime"] + ["RekeyTimeout"] + ["RejectAfterTime"], ["KeepaliveTimeout"], 40, 45, 46);
    NamedJoin(["ContentPaddingAddition"] + ["RekeyAfterTime"] + ["RekeyTimeout"] + ["RejectAfterTime"] + ["KeepaliveTimeout"], ["MaxHandshakeAttempts"], 40, 46, 47);
    assert RANGE_FIELDS == ["ContentPaddingAddition"] + ["RekeyAfterTime"] + ["RekeyTimeout"] + ["RejectAfterTime"] + ["KeepaliveTimeout"] + ["MaxHandshakeAttempts"];
  }

  lemma BooleanFields()
    ensures Named(BOOLEAN_FIELDS, 46, 49)
  {
    RandomTrailersField();
    DisableCookiesField();
    NamedJoin(["RandomTrailers"], ["DisableCookies"], 46, 48, 49);
    assert BOOLEAN_FIELDS == ["RandomTrailers"] + ["DisableCookies"];
  }

  lemma {:induction false} NamedFrom(names: seq<string>, low: nat, high: nat, i: nat)
    requires Named(names, low, high) && 0 < i < |names|
    ensures Rank(names[0]) < Rank(names[i])
    decreases i
  {
    if i > 1 { NamedFrom(names, low, high, i - 1); }
    assert Rank(names[i - 1]) < Rank(names[i]);
  }

  /** Writable pairs in increasing rank. */
  predicate Proper(pairs: Pairs, low: nat, high: nat) {
    && WritablePairs(pairs)
    && (forall i :: 0 <= i < |pairs| ==> low < Rank(pairs[i].0) < high)
    && forall i :: 0 < i < |pairs| ==> Rank(pairs[i - 1].0) < Rank(pairs[i].0)
  }

  lemma ProperZip(names: seq<string>, values: seq<string>, low: nat, high: nat)
    requires |names| == |values| && Named(names, low, high) && forall i :: 0 <= i < |values| ==> Clean(values[i])
    ensures Proper(Zip(names, values), low, high)
  {
    forall i | 0 <= i < |names| ensures Key(names[i]) { AlphanumericKey(names[i]); }
  }

  lemma NamedTail(names: seq<string>, low: nat, high: nat)
    requires Named(names, low, high) && names != []
    ensures Named(names[1..], Rank(names[0]), high)
  {
    forall i | 1 <= i < |names| ensures Rank(names[0]) < Rank(names[i]) { NamedFrom(names, low, high, i); }
    forall i | 0 < i < |names| - 1 ensures Rank(names[1..][i - 1]) < Rank(names[1..][i]) {
      assert Rank(names[i + 1 - 1]) < Rank(names[i + 1]);
    }
  }

  lemma {:induction false} ProperPresent(names: seq<string>, values: seq<Option<string>>, low: nat, high: nat)
    requires |names| == |values| && Named(names, low, high)
    requires forall i :: 0 <= i < |values| ==> values[i].Some? ==> Clean(values[i].value)
    ensures Proper(Present(names, values), low, high)
    decreases |names|
  {
    if names != [] {
      var rank := Rank(names[0]);
      AlphanumericKey(names[0]);
      NamedTail(names, low, high);
      ProperPresent(names[1..], values[1..], rank, high);
    }
  }

  lemma ProperAppend(a: Pairs, b: Pairs, low: nat, middle: nat, high: nat)
    requires 0 < middle && low < middle < high && Proper(a, low, middle) && Proper(b, middle - 1, high)
    ensures Proper(a + b, low, high)
  {
  }

  lemma {:induction false} ProperDistinct(pairs: Pairs, low: nat, high: nat)
    requires Proper(pairs, low, high)
    ensures DistinctKeys(pairs)
    ensures forall i, j :: 0 <= i < j < |pairs| ==> Rank(pairs[i].0) < Rank(pairs[j].0)
    decreases |pairs|
  {
    if pairs != [] {
      var k := |pairs| - 1;
      ProperDistinct(pairs[..k], low, high);
      assert forall i :: 0 <= i < k ==> pairs[..k][i] == pairs[i];
      if k > 0 { assert Rank(pairs[k - 1].0) < Rank(pairs[k].0); }
    }
  }

  lemma ShownClean(n: nat)
    ensures Clean(Show(n))
  {
    ShownDigits(n);
  }

  lemma RangeClean(r: Range)
    ensures Clean(ShowRange(r))
  {
    match r {
      case Exactly(n) => ShownDigits(n);
      case Between(min, max) => ShownDigits(min); ShownDigits(max);
    }
  }

  lemma KeyTextClean(s: string)
    requires ValidKey(s)
    ensures Clean(s)
  {
  }

  /** A tag's text: brackets around one line. */
  predicate Bracketed(s: string) {
    s != "" && s[0] == '<' && s[|s| - 1] == '>' && OneLine(s)
  }

  lemma TagBracketed(g: CpsTags.Tag)
    requires CpsTags.Good(g)
    ensures Bracketed(CpsTags.Render(g))
  {
    var open, r := CpsTags.Opener(g.kind), CpsTags.Render(g);
    forall i | 0 <= i < |r| ensures !LineBreak(r[i]) {
      if |open| <= i < |r| - 1 {
        assert r[i] == g.body[i - |open|];
        assert CpsTags.Class(g.kind)(g.body[i - |open|]);
      }
    }
  }

  lemma BracketsJoin(a: string, b: string)
    requires Bracketed(a) && Bracketed(b)
    ensures Bracketed(a + b)
  {
  }

  lemma {:induction false} TagsBracketed<T>(gs: seq<T>, good: T -> bool, render: T -> string)
    requires gs != [] && All(gs, good) && forall g <- gs :: Bracketed(render(g))
    ensures Bracketed(Concat(gs, render))
    decreases |gs|
  {
    var k := |gs| - 1;
    assert gs[k] in gs;
    if k > 0 {
      assert forall g <- gs[..k] :: g in gs;
      TagsBracketed(gs[..k], good, render);
      BracketsJoin(Concat(gs[..k], render), render(gs[k]));
    } else {
      assert Concat(gs, render) == render(gs[0]);
    }
  }

  /** A custom packet the validator accepts passes through a configuration file unharmed. */
  lemma PacketClean(v: string)
    requires Packet(v)
    ensures Clean(v)
  {
    var gs :| CpsTags.Spells(v, gs);
    forall g <- gs ensures Bracketed(CpsTags.Render(g)) { TagBracketed(g); }
    TagsBracketed(gs, CpsTags.Good, CpsTags.Render);
  }

  lemma ProperSingle(name: string, value: string, low: nat, high: nat)
    requires Alphanumeric(name) && low < Rank(name) < high && Clean(value)
    ensures Proper([(name, value)], low, high)
  {
    AlphanumericKey(name);
  }

  /** In either mode the native fields are writable, distinct and none of the renderers' own. */
  lemma ObfuscationIsProper(o: Obfuscation)
    requires Complete(o)
    ensures Proper(EffectiveObfuscation(o), 0, 50)
  {
    match o {
      case Classic(values) =>
        ClassicFields();
        forall i | 0 <= i < 9 ensures Clean(Map(values, Show)[i]) { ShownClean(values[i]); }
        ProperZip(CLASSIC_FIELDS, Map(values, Show), 0, 19);
      case Awg31(integers, headers, packets, headerKey, ranges, switches) =>
        forall i | 0 <= i < 7 ensures Clean(Map(integers, Show)[i]) { ShownClean(integers[i]); }
        forall i | 0 <= i < 4 ensures Clean(Map(headers, ShowRange)[i]) { RangeClean(headers[i]); }
        forall i | 0 <= i < 6 ensures Clean(Map(ranges, ShowRange)[i]) { RangeClean(ranges[i]); }
        forall i | 0 <= i < 5 && packets[i].Some? ensures Clean(packets[i].value) { PacketClean(packets[i].value); }
        KeyTextClean(headerKey);
        IntegerFields();
        HeaderFields();
        CpsFields();
        RangeFields();
        BooleanFields();
        ProperZip(INTEGER_FIELDS, Map(integers, Show), 0, 9);
        ProperZip(HEADER_FIELDS, Map(headers, ShowRange), 10, 19);
        ProperPresent(CPS_FIELDS, packets, 20, 40);
        ProperZip(RANGE_FIELDS, Map(ranges, ShowRange), 40, 47);
        ProperZip(BOOLEAN_FIELDS, Map(switches, OnOff), 46, 49);
        ProperAwg31(Zip(INTEGER_FIELDS, Map(integers, Show)), Zip(HEADER_FIELDS, Map(headers, ShowRange)),
                    Present(CPS_FIELDS, packets), headerKey,
                    Zip(RANGE_FIELDS, Map(ranges, ShowRange)), Zip(BOOLEAN_FIELDS, Map(switches, OnOff)));
    }
  }

  lemma ProperAwg31(a: Pairs, b: Pairs, c: Pairs, headerKey: string, d: Pairs, e: Pairs)
    requires Proper(a, 0, 9) && Proper(b, 10, 19) && Proper(c, 20, 40) && Clean(headerKey)
    requires Proper(d, 40, 47) && Proper(e, 46, 49)
    ensures Proper(a + b + c + [("HeaderProtectionKey", headerKey)] + d + e, 0, 50)
  {
    ProperAppend(a, b, 0, 11, 19);
    ProperAppend(a + b, c, 0, 21, 40);
    ProperSingle("HeaderProtectionKey", headerKey, 39, 41);
    ProperAppend(a + b + c, [("HeaderProtectionKey", headerKey)], 0, 40, 41);
    ProperAppend(a + b + c + [("HeaderProtectionKey", headerKey)], d, 0, 41, 47);
    ProperAppend(a + b + c + [("HeaderProtectionKey", headerKey)] + d, e, 0, 47, 49);
  }
}
