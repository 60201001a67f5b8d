/** Release versions: the comparison key, and the precedence it stands for. */
module SemVer {
  import opened Common
  import opened Strings

  const MAX_NUMERIC_DIGITS: nat := 128

  // ----- Lexicographic order -----

  ghost predicate StrictTotalOrder<T(!new)>(less: (T, T) -> bool) {
    && (forall a, b :: Trichotomy(less, a, b))
    && (forall a, b, c :: less(a, b) && less(b, c) ==> less(a, c))
  }

  /** Exactly one of: less, equal, greater. */
  ghost predicate Trichotomy<T>(less: (T, T) -> bool, a: T, b: T) {
    if a == b then !less(a, b) else less(a, b) != less(b, a)
  }

  predicate SeqLess<T(==)>(less: (T, T) -> bool, xs: seq<T>, ys: seq<T>) {
    && ys != []
    && (xs == [] || less(xs[0], ys[0]) || (xs[0] == ys[0] && SeqLess(less, xs[1..], ys[1..])))
  }

  lemma {:induction false} SeqTrichotomy<T(!new)>(less: (T, T) -> bool, xs: seq<T>, ys: seq<T>)
    requires StrictTotalOrder(less)
    ensures if xs == ys then !SeqLess(less, xs, ys) else SeqLess(less, xs, ys) != SeqLess(less, ys, xs)
    decreases |xs|
  {
    if xs != [] && ys != [] {
      assert Trichotomy(less, xs[0], ys[0]);
      SeqTrichotomy(less, xs[1..], ys[1..]);
      assert xs == [xs[0]] + xs[1..] && ys == [ys[0]] + ys[1..];
    }
  }

  lemma {:induction false} SeqTransitive<T(!new)>(less: (T, T) -> bool, xs: seq<T>, ys: seq<T>, zs: seq<T>)
    requires StrictTotalOrder(less) && SeqLess(less, xs, ys) && SeqLess(less, ys, zs)
    ensures SeqLess(less, xs, zs)
    decreases |xs|
  {
    if xs != [] {
      assert Trichotomy(less, xs[0], ys[0]) && Trichotomy(less, ys[0], zs[0]) && Trichotomy(less, xs[0], zs[0]);
      if xs[0] == ys[0] == zs[0] {
        SeqTransitive(less, xs[1..], ys[1..], zs[1..]);
      }
    }
  }

  /** The order by the first place where two sequences differ; a proper prefix comes first. */
  ghost predicate FirstDifference<T>(less: (T, T) -> bool, xs: seq<T>, ys: seq<T>, k: nat) {
    k <= |xs| && k < |ys| && xs[..k] == ys[..k] && (k == |xs| || less(xs[k], ys[k]))
  }

  lemma {:induction false} SeqLessByDifference<T(!new)>(less: (T, T) -> bool, xs: seq<T>, ys: seq<T>)
    requires StrictTotalOrder(less)
    ensures SeqLess(less, xs, ys) <==> exists k: nat :: FirstDifference(less, xs, ys, k)
    decreases |xs|
  {
    if xs == [] {
      if ys != [] { assert FirstDifference(less, xs, ys, 0); }
    } else if ys != [] {
      assert Trichotomy(less, xs[0], ys[0]);
      SeqLessByDifference(less, xs[1..], ys[1..]);
      if less(xs[0], ys[0]) {
        assert FirstDifference(less, xs, ys, 0);
      } else if xs[0] == ys[0] {
        ShiftDifference(less, xs, ys);
      } else {
        forall k: nat | FirstDifference(less, xs, ys, k) ensures false {
          if k > 0 { FirstAgrees(less, xs, ys, k); }
        }
      }
    }
  }

  lemma FirstAgrees<T>(less: (T, T) -> bool, xs: seq<T>, ys: seq<T>, k: nat)
    requires FirstDifference(less, xs, ys, k) && k > 0
    ensures xs[0] == ys[0]
  {
    assert xs[..k][0] == ys[..k][0];
  }

  lemma ShiftDifference<T>(less: (T, T) -> bool, xs: seq<T>, ys: seq<T>)
    requires xs != [] && ys != [] && xs[0] == ys[0] && !less(xs[0], ys[0])
    ensures (exists k: nat :: FirstDifference(less, xs, ys, k)) <==> (exists k: nat :: FirstDifference(less, xs[1..], ys[1..], k))
  {
    forall k: nat | FirstDifference(less, xs, ys, k) ensures exists j: nat :: FirstDifference(less, xs[1..], ys[1..], j) {
      assert k > 0;
      assert xs[1..][..k - 1] == xs[..k][1..] == ys[..k][1..] == ys[1..][..k - 1];
      assert FirstDifference(less, xs[1..], ys[1..], k - 1);
    }
    forall k: nat | FirstDifference(less, xs[1..], ys[1..], k) ensures exists j: nat :: FirstDifference(less, xs, ys, j) {
      assert xs[..k + 1] == [xs[0]] + xs[1..][..k];
      assert ys[..k + 1] == [ys[0]] + ys[1..][..k];
      assert FirstDifference(less, xs, ys, k + 1);
    }
  }

  // ----- The grammar -----

  predicate Digit(c: char) { '0' <= c <= '9' }

  predicate Digits(s: string) { s != "" && forall k :: 0 <= k < |s| ==> Digit(s[k]) }

  /** Decimal digits without a leading zero. */
  predicate Numeral(s: string) { Digits(s) && (s[0] == '0' ==> |s| == 1) }

  predicate IdentifierChar(c: char) { Digit(c) || 'a' <= c <= 'z' || 'A' <= c <= 'Z' || c == '-' }

  predicate Identifier(s: string) { s != "" && forall k :: 0 <= k < |s| ==> IdentifierChar(s[k]) }

  function Join(parts: seq<string>, c: char): string {
    if parts == [] then "" else if |parts| == 1 then parts[0] else parts[0] + [c] + Join(parts[1..], c)
  }

  lemma {:induction false} JoinParts(s: string, c: char)
    ensures Join(Parts(s, c), c) == s
    decreases |s|
  {
    var i := Find(s, c);
    if i < |s| {
      var rest := Parts(s[i + 1..], c);
      JoinParts(s[i + 1..], c);
      assert Parts(s, c)[1..] == rest;
      assert s == s[..i] + [c] + s[i + 1..];
    }
  }

  /** The two halves of a version: the core, and the prerelease if there is one. */
  function Halves(value: string): (string, Option<string>) {
    var i := Find(value, '-');
    if i == |value| then (value, None) else (value[..i], Some(value[i + 1..]))
  }

  predicate Core(parts: seq<string>) {
    |parts| == 3 && Numeral(parts[0]) && Numeral(parts[1]) && Numeral(parts[2])
  }

  /** The text matches the version pattern. */
  predicate Matches(value: string) {
    var (core, pre) := Halves(value);
    && Core(Parts(core, '.'))
    && (pre.Some? ==> forall id <- Parts(pre.value, '.') :: Identifier(id))
  }

  // ----- Keys -----

  function Value(s: string): nat
    requires s == "" || Digits(s)
  {
    if s == "" then 0 else
    var m := |s| - 1;
    10 * Value(s[..m]) + (s[m] as int - '0' as int)
  }

  datatype Id = Number(value: nat) | Word(text: string)

  datatype Key = Key(major: nat, minor: nat, patch: nat, release: bool, ids: seq<Id>)

  predicate CharLess(a: char, b: char) { a < b }

  predicate IdLess(a: Id, b: Id) {
    match (a, b)
    case (Number(m), Number(n)) => m < n
    case (Number(_), Word(_)) => true
    case (Word(_), Number(_)) => false
    case (Word(s), Word(t)) => SeqLess(CharLess, s, t)
  }

  predicate KeyLess(a: Key, b: Key) {
    if a.major != b.major then a.major < b.major
    else if a.minor != b.minor then a.minor < b.minor
    else if a.patch != b.patch then a.patch < b.patch
    else if a.release != b.release then b.release
    else SeqLess(IdLess, a.ids, b.ids)
  }

  /** What the program makes of one prerelease identifier, or nothing where it refuses. */
  function IdOf(s: string): Option<Id> {
    if !Digits(s) then Some(Word(s))
    else if |s| > 1 && s[0] == '0' then None
    else if |s| > MAX_NUMERIC_DIGITS then None
    else Some(Number(Value(s)))
  }

  predicate IdsAccepted(parts: seq<string>) {
    forall s <- parts :: IdOf(s).Some?
  }

  function Ids(parts: seq<string>): (ids: seq<Id>)
    requires IdsAccepted(parts)
    ensures |ids| == |parts|
    ensures forall k :: 0 <= k < |parts| ==> Some(ids[k]) == IdOf(parts[k])
  {
    if parts == [] then [] else
    assert parts[0] in parts;
    [IdOf(parts[0]).value] + Ids(parts[1..])
  }

  predicate Accepted(value: string) {
    && Matches(value)
    && var (core, pre) := Halves(value);
    && (forall s <- Parts(core, '.') :: |s| <= MAX_NUMERIC_DIGITS)
    && (pre.Some? ==> IdsAccepted(Parts(pre.value, '.')))
  }

  function KeyOf(value: string): Key
    requires Accepted(value)
  {
    var (core, pre) := Halves(value);
    var parts := Parts(core, '.');
    Key(Value(parts[0]), Value(parts[1]), Value(parts[2]), pre.None?,
        if pre.Some? then Ids(Parts(pre.value, '.')) else [])
  }

  method PrecedenceKey(value: string) returns (r: Option<Key>)
    ensures r == if Accepted(value) then Some(KeyOf(value)) else None
  {
    if !Matches(value) { return None; }
    var (core, prerelease) := Halves(value);
    var parts := Parts(core, '.');
    var numbers: seq<nat> := [];
    for i := 0 to 3
      invariant |numbers| == i
      invariant forall k :: 0 <= k < i ==> |parts[k]| <= MAX_NUMERIC_DIGITS && numbers[k] == Value(parts[k])
    {
      if |parts[i]| > MAX_NUMERIC_DIGITS {
        assert parts[i] in parts;
        return None;
      }
      numbers := numbers + [Value(parts[i])];
    }
    var identifiers: seq<Id> := [];
    if prerelease.Some? {
      var words := Parts(prerelease.value, '.');
      for i := 0 to |words|
        invariant |identifiers| == i
        invariant forall k :: 0 <= k < i ==> IdOf(words[k]) == Some(identifiers[k])
      {
        if Digits(words[i]) {
          if |words[i]| > 1 && words[i][0] == '0' {
            assert words[i] in words;
            return None;
          }
          if |words[i]| > MAX_NUMERIC_DIGITS {
            assert words[i] in words;
            return None;
          }
          identifiers := identifiers + [Number(Value(words[i]))];
        } else {
          identifiers := identifiers + [Word(words[i])];
        }
      }
      assert IdsAccepted(words);
      assert identifiers == Ids(words);
    }
    r := Some(Key(numbers[0], numbers[1], numbers[2], prerelease.None?, identifiers));
  }

  // ----- The keys are ordered strictly and totally -----

  lemma CharOrder()
    ensures StrictTotalOrder(CharLess)
  {
  }

  lemma IdOrder()
    ensures StrictTotalOrder(IdLess)
  {
    CharOrder();
    forall a: Id, b: Id ensures Trichotomy(IdLess, a, b) {
      if a.Word? && b.Word? { SeqTrichotomy(CharLess, a.text, b.text); }
    }
    forall a: Id, b: Id, c: Id | IdLess(a, b) && IdLess(b, c) ensures IdLess(a, c) {
      if a.Word? && b.Word? && c.Word? { SeqTransitive(CharLess, a.text, b.text, c.text); }
    }
  }

  /** Comparing keys is a strict total order. */
  lemma KeyOrder()
    ensures StrictTotalOrder(KeyLess)
  {
    IdOrder();
    forall a: Key, b: Key ensures Trichotomy(KeyLess, a, b) {
      SeqTrichotomy(IdLess, a.ids, b.ids);
    }
    forall a: Key, b: Key, c: Key | KeyLess(a, b) && KeyLess(b, c) ensures KeyLess(a, c) {
      if SeqLess(IdLess, a.ids, b.ids) && SeqLess(IdLess, b.ids, c.ids) {
        SeqTransitive(IdLess, a.ids, b.ids, c.ids);
      }
    }
  }

  // ----- Numbers against their digits -----

  /** Numerals compared as texts: the longer is greater, equal lengths go by the first digit that differs. */
  predicate NumeralLess(x: string, y: string) {
    |x| < |y| || (|x| == |y| && SeqLess(CharLess, x, y))
  }

  lemma {:induction false} SnocLess(x: string, y: string, c: char, d: char)
    requires |x| == |y|
    ensures SeqLess(CharLess, x + [c], y + [d]) <==> SeqLess(CharLess, x, y) || (x == y && c < d)
    decreases |x|
  {
    if x != [] {
      assert (x + [c])[1..] == x[1..] + [c] && (y + [d])[1..] == y[1..] + [d];
      SnocLess(x[1..], y[1..], c, d);
      assert x == [x[0]] + x[1..] && y == [y[0]] + y[1..];
    }
  }

  lemma {:induction false} SameLengthValues(x: string, y: string)
    requires |x| == |y| && (x == "" || (Digits(x) && Digits(y)))
    ensures Value(x) < Value(y) <==> SeqLess(CharLess, x, y)
    ensures Value(x) == Value(y) <==> x == y
    decreases |x|
  {
    if x != "" {
      var m := |x| - 1;
      SameLengthValues(x[..m], y[..m]);
      SnocLess(x[..m], y[..m], x[m], y[m]);
      assert x == x[..m] + [x[m]] && y == y[..m] + [y[m]];
      assert Digit(x[m]) && Digit(y[m]);
    }
  }

  lemma {:induction false} LongerIsGreater(x: string, y: string)
    requires (x == "" || Digits(x)) && Numeral(y) && |x| < |y|
    ensures Value(x) < Value(y) || y == "0"
    decreases |y|
  {
    var m := |y| - 1;
    assert Digit(y[m]);
    if x == "" {
      if m > 0 {
        assert Numeral(y[..m]) && y[..m] != "0";
        LongerIsGreater("", y[..m]);
      }
    } else {
      var n := |x| - 1;
      assert Digit(x[n]);
      assert Numeral(y[..m]) && y[..m] != "0";
      LongerIsGreater(x[..n], y[..m]);
    }
  }

  /** Numerals are ordered, and told apart, as their values are. */
  lemma NumeralValues(x: string, y: string)
    requires Numeral(x) && Numeral(y)
    ensures Value(x) < Value(y) <==> NumeralLess(x, y)
    ensures Value(x) == Value(y) <==> x == y
  {
    if |x| == |y| {
      SameLengthValues(x, y);
    } else if |x| < |y| {
      LongerIsGreater(x, y);
    } else {
      LongerIsGreater(y, x);
    }
  }

  // ----- Precedence, section 11 of Semantic Versioning 2.0.0 -----

  /** Numeric identifiers come before the others and go by value; the others go by their characters. */
  predicate IdentifierPrecedes(x: string, y: string) {
    if Digits(x) then !Digits(y) || NumeralLess(x, y) else !Digits(y) && SeqLess(CharLess, x, y)
  }

  /** The core goes by its first number that differs; a prerelease comes before its release. */
  ghost predicate Precedes(a: string, b: string) {
    var (coreA, preA) := Halves(a);
    var (coreB, preB) := Halves(b);
    var xs, ys := Parts(coreA, '.'), Parts(coreB, '.');
    || (exists k: nat :: FirstDifference(NumeralLess, xs, ys, k))
    || (xs == ys && preA.Some? && (preB.None?
        || exists k: nat :: FirstDifference(IdentifierPrecedes, Parts(preA.value, '.'), Parts(preB.value, '.'), k)))
  }

  lemma SameId(x: string, y: string)
    requires IdOf(x).Some? && IdOf(y).Some? && x != "" && y != ""
    ensures IdOf(x) == IdOf(y) <==> x == y
    ensures IdLess(IdOf(x).value, IdOf(y).value) <==> IdentifierPrecedes(x, y)
  {
    if Digits(x) && Digits(y) { NumeralValues(x, y); }
  }

  predicate Nonempty(xs: seq<string>) { forall x <- xs :: x != "" }

  lemma SameIds(xs: seq<string>, ys: seq<string>)
    requires IdsAccepted(xs) && IdsAccepted(ys) && Nonempty(xs) && Nonempty(ys)
    ensures Ids(xs) == Ids(ys) <==> xs == ys
    ensures SeqLess(IdLess, Ids(xs), Ids(ys)) <==> exists k: nat :: FirstDifference(IdentifierPrecedes, xs, ys, k)
  {
    var a, b := Ids(xs), Ids(ys);
    forall i: nat, j: nat | i < |xs| && j < |ys|
      ensures (a[i] == b[j] <==> xs[i] == ys[j]) && (IdLess(a[i], b[j]) <==> IdentifierPrecedes(xs[i], ys[j]))
    {
      assert xs[i] in xs && ys[j] in ys;
      SameId(xs[i], ys[j]);
    }
    IdOrder();
    SeqLessByDifference(IdLess, a, b);
    forall k: nat ensures FirstDifference(IdLess, a, b, k) <==> FirstDifference(IdentifierPrecedes, xs, ys, k) {
      if k <= |xs| && k < |ys| { SamePrefixes(xs, ys, k); }
    }
  }

  lemma SamePrefixes(xs: seq<string>, ys: seq<string>, k: nat)
    requires IdsAccepted(xs) && IdsAccepted(ys) && Nonempty(xs) && Nonempty(ys) && k <= |xs| && k <= |ys|
    ensures Ids(xs)[..k] == Ids(ys)[..k] <==> xs[..k] == ys[..k]
  {
    var a, b := Ids(xs), Ids(ys);
    forall i | 0 <= i < k ensures a[..k][i] == b[..k][i] <==> xs[..k][i] == ys[..k][i] {
      assert xs[i] in xs && ys[i] in ys;
      SameId(xs[i], ys[i]);
    }
    if a[..k] == b[..k] {
      assert forall i :: 0 <= i < k ==> xs[..k][i] == ys[..k][i];
    }
  }

  lemma ThreeParts(xs: seq<string>, ys: seq<string>)
    requires |xs| == 3 && |ys| == 3
    ensures (exists k: nat :: FirstDifference(NumeralLess, xs, ys, k)) <==>
      || NumeralLess(xs[0], ys[0])
      || (xs[0] == ys[0] && (NumeralLess(xs[1], ys[1]) || (xs[1] == ys[1] && NumeralLess(xs[2], ys[2]))))
  {
    assert xs[..0] == ys[..0];
    assert xs[..1] == [xs[0]] && ys[..1] == [ys[0]];
    assert xs[..2] == [xs[0], xs[1]] && ys[..2] == [ys[0], ys[1]];
    if NumeralLess(xs[0], ys[0]) { assert FirstDifference(NumeralLess, xs, ys, 0); }
    if xs[0] == ys[0] && NumeralLess(xs[1], ys[1]) { assert FirstDifference(NumeralLess, xs, ys, 1); }
    if xs[0] == ys[0] && xs[1] == ys[1] && NumeralLess(xs[2], ys[2]) { assert FirstDifference(NumeralLess, xs, ys, 2); }
    forall k: nat | FirstDifference(NumeralLess, xs, ys, k) ensures k == 0 || k == 1 || k == 2 {}
  }

  /** Comparing keys is the precedence of the standard. */
  lemma KeysFollowPrecedence(a: string, b: string)
    requires Accepted(a) && Accepted(b)
    ensures KeyLess(KeyOf(a), KeyOf(b)) <==> Precedes(a, b)
  {
    var (coreA, preA) := Halves(a);
    var (coreB, preB) := Halves(b);
    var xs, ys := Parts(coreA, '.'), Parts(coreB, '.');
    ThreeParts(xs, ys);
    forall i | 0 <= i < 3
      ensures (Value(xs[i]) < Value(ys[i]) <==> NumeralLess(xs[i], ys[i]))
           && (Value(xs[i]) == Value(ys[i]) <==> xs[i] == ys[i])
    {
      NumeralValues(xs[i], ys[i]);
    }
    assert xs == [xs[0], xs[1], xs[2]] && ys == [ys[0], ys[1], ys[2]];
    if preA.Some? && preB.Some? {
      SameIds(Parts(preA.value, '.'), Parts(preB.value, '.'));
    }
  }

  lemma SameCores(x: string, y: string, xs: seq<string>, ys: seq<string>)
    requires xs == Parts(x, '.') && ys == Parts(y, '.') && Core(xs) && Core(ys)
    requires Value(xs[0]) == Value(ys[0]) && Value(xs[1]) == Value(ys[1]) && Value(xs[2]) == Value(ys[2])
    ensures x == y
  {
    NumeralValues(xs[0], ys[0]);
    NumeralValues(xs[1], ys[1]);
    NumeralValues(xs[2], ys[2]);
    assert xs == ys;
    JoinParts(x, '.');
    JoinParts(y, '.');
  }

  lemma SamePrereleases(x: string, y: string)
    requires var xs, ys := Parts(x, '.'), Parts(y, '.');
      Nonempty(xs) && Nonempty(ys) && IdsAccepted(xs) && IdsAccepted(ys) && Ids(xs) == Ids(ys)
    ensures x == y
  {
    SameIds(Parts(x, '.'), Parts(y, '.'));
    JoinParts(x, '.');
    JoinParts(y, '.');
  }

  lemma EqualKeysEqualCores(a: string, b: string)
    requires Accepted(a) && Accepted(b) && KeyOf(a) == KeyOf(b)
    ensures Halves(a).0 == Halves(b).0
  {
    var x, y := Halves(a).0, Halves(b).0;
    SameCores(x, y, Parts(x, '.'), Parts(y, '.'));
  }

  lemma EqualKeysEqualPrereleases(a: string, b: string)
    requires Accepted(a) && Accepted(b) && KeyOf(a) == KeyOf(b)
    ensures Halves(a).1 == Halves(b).1
  {
    var preA, preB := Halves(a).1, Halves(b).1;
    if preA.Some? {
      var xs, ys := Parts(preA.value, '.'), Parts(preB.value, '.');
      assert Nonempty(xs) && Nonempty(ys);
      assert Ids(xs) == Ids(ys);
      SamePrereleases(preA.value, preB.value);
    }
  }

  /** Different accepted versions never share a key: an update that finds them equal finds the same version. */
  lemma KeysTellVersionsApart(a: string, b: string)
    requires Accepted(a) && Accepted(b) && KeyOf(a) == KeyOf(b)
    ensures a == b
  {
    EqualKeysEqualCores(a, b);
    EqualKeysEqualPrereleases(a, b);
    SameHalves(a, b);
  }

  /** A text is determined by its halves. */
  lemma SameHalves(a: string, b: string)
    requires Halves(a) == Halves(b)
    ensures a == b
  {
    var i, j := Find(a, '-'), Find(b, '-');
    if i < |a| { assert a == a[..i] + ['-'] + a[i + 1..]; }
    if j < |b| { assert b == b[..j] + ['-'] + b[j + 1..]; }
  }
}
