/** Applying, removing and checking the managed rules in the kernel's ruleset, next to
    rules of other owners. */
module FirewallLifecycle {

  import opened Common
  import opened Firewall

  datatype Entry = Entry(handle: nat, rule: Rule)

  /** What the kernel holds: Docker's chain if there is one, the two managed tables if
      they exist, and whether some other family has a table of the same name. */
  datatype Ruleset = Ruleset(
    docker: Option<seq<Rule>>,
    forward: Option<seq<Rule>>,
    natTable: Option<seq<Rule>>,
    namesakes: bool)

  const LEGACY_MARKERS := {
    "amneziawg-awg0-egress", "amneziawg-awg0-return", "amneziawg-awg0-no-lateral-forwarding" }

  const MARKER_PREFIX := "awgctl-"

  /** The manager's own mark on a rule of Docker's chain. */
  predicate Tagged(r: Rule) { MARKER_PREFIX <= r.comment || r.comment in LEGACY_MARKERS }

  function Unmanaged(rs: seq<Rule>): seq<Rule> {
    if rs == [] then [] else (if Tagged(rs[0]) then [] else [rs[0]]) + Unmanaged(rs[1..])
  }

  function OwnRules(rs: seq<Rule>): seq<Rule> {
    if rs == [] then [] else (if Tagged(rs[0]) then [rs[0]] else []) + OwnRules(rs[1..])
  }

  function NatChain(c: Settings): seq<Rule> {
    [Managed([SourceIn(c.subnet), OutIs(c.external)], Accept, "awgctl-tunnel-masquerade")]
  }

  // ---------------------------------------------------------------- the two results

  function Cleaned(s: Ruleset): Ruleset {
    s.(docker := if s.docker.Some? then Some(Unmanaged(s.docker.value)) else None, forward := None, natTable := None)
  }

  function Applied(s: Ruleset, c: Settings): Ruleset {
    s.(docker := if s.docker.Some? then Some(DockerExpected(c) + Unmanaged(s.docker.value)) else None,
       forward := Some(ForwardChain(c)), natTable := Some(NatChain(c)))
  }

  /** What `firewall_action_postcondition` compares, for either action. */
  predicate CheckDown(s: Ruleset) {
    s.forward.None? && s.natTable.None? && !s.namesakes && (s.docker.Some? ==> OwnRules(s.docker.value) == [])
  }

  ghost predicate CheckUp(s: Ruleset, c: Settings) {
    && s.forward == Some(ForwardChain(c)) && s.natTable == Some(NatChain(c)) && !s.namesakes
    && (s.docker.Some? ==> OwnRules(s.docker.value) == DockerExpected(c))
  }

  lemma {:induction false} FilterAppend(a: seq<Rule>, b: seq<Rule>)
    ensures Unmanaged(a + b) == Unmanaged(a) + Unmanaged(b)
    ensures OwnRules(a + b) == OwnRules(a) + OwnRules(b)
  {
    if a == [] {
      assert a + b == b;
    } else {
      assert (a + b)[1..] == a[1..] + b;
      FilterAppend(a[1..], b);
      var own, other := if Tagged(a[0]) then [a[0]] else [], if Tagged(a[0]) then [] else [a[0]];
      assert other + (Unmanaged(a[1..]) + Unmanaged(b)) == (other + Unmanaged(a[1..])) + Unmanaged(b);
      assert own + (OwnRules(a[1..]) + OwnRules(b)) == (own + OwnRules(a[1..])) + OwnRules(b);
    }
  }

  lemma {:induction false} FilterTwice(a: seq<Rule>)
    ensures Unmanaged(Unmanaged(a)) == Unmanaged(a) && OwnRules(Unmanaged(a)) == []
  {
    if a != [] {
      FilterTwice(a[1..]);
      FilterAppend(if Tagged(a[0]) then [] else [a[0]], Unmanaged(a[1..]));
    }
  }

  lemma DockerRulesAreTagged(c: Settings)
    ensures Unmanaged(DockerExpected(c)) == [] && OwnRules(DockerExpected(c)) == DockerExpected(c)
  {
    var d := DockerExpected(c);
    MarksAreTagged();
    AllTagged(d);
  }

  lemma MarksAreTagged()
    ensures MARKER_PREFIX <= DOCKER_EGRESS && MARKER_PREFIX <= DOCKER_RETURN && MARKER_PREFIX <= DEFAULT_DROP
  {
    assert DOCKER_EGRESS[..7] == MARKER_PREFIX && DOCKER_RETURN[..7] == MARKER_PREFIX && DEFAULT_DROP[..7] == MARKER_PREFIX;
  }

  lemma {:induction false} AllTagged(rs: seq<Rule>)
    requires forall i | 0 <= i < |rs| :: Tagged(rs[i])
    ensures Unmanaged(rs) == [] && OwnRules(rs) == rs
  {
    if rs != [] {
      AllTagged(rs[1..]);
      assert rs == [rs[0]] + rs[1..];
    }
  }

  /** Other owners' rules survive in order: applying and then cleaning up leaves exactly
      what cleaning up alone leaves, applying twice is applying once, and both are
      idempotent. */
  lemma ApplyAndCleanup(s: Ruleset, c: Settings, d: Settings)
    ensures Cleaned(Applied(s, c)) == Cleaned(s)
    ensures Applied(Applied(s, c), d) == Applied(s, d)
    ensures Applied(Cleaned(s), c) == Applied(s, c)
    ensures Cleaned(Cleaned(s)) == Cleaned(s)
    ensures s.docker.Some? ==> Unmanaged(Applied(s, c).docker.value) == Unmanaged(s.docker.value)
  {
    if s.docker.Some? {
      DockerRulesAreTagged(c);
      FilterAppend(DockerExpected(c), Unmanaged(s.docker.value));
      FilterTwice(s.docker.value);
      assert [] + Unmanaged(s.docker.value) == Unmanaged(s.docker.value);
    }
  }

  /** The checker accepts what the two operations leave, if and only if no table of the
      same name exists in another family: those it counts, but cleanup never removes. */
  lemma CheckersAcceptResults(s: Ruleset, c: Settings)
    ensures CheckUp(Applied(s, c), c) <==> !s.namesakes
    ensures CheckDown(Cleaned(s)) <==> !s.namesakes
    ensures !CheckDown(Applied(s, c)) && !CheckUp(Cleaned(s), c)
  {
    if s.docker.Some? {
      DockerRulesAreTagged(c);
      FilterAppend(DockerExpected(c), Unmanaged(s.docker.value));
      FilterTwice(s.docker.value);
      assert DockerExpected(c) + [] == DockerExpected(c);
    }
  }

  /** Down means exactly that cleanup has nothing left to do. */
  lemma DownIsClean(s: Ruleset)
    ensures CheckDown(s) <==> s == Cleaned(s) && !s.namesakes
  {
    if s.docker.Some? { NoOwnRules(s.docker.value); }
  }

  lemma {:induction false} NoOwnRules(rs: seq<Rule>)
    ensures OwnRules(rs) == [] <==> Unmanaged(rs) == rs
    ensures |OwnRules(rs)| + |Unmanaged(rs)| == |rs|
  {
    if rs != [] {
      NoOwnRules(rs[1..]);
      if !Tagged(rs[0]) {
        assert rs == [rs[0]] + rs[1..];
        assert Unmanaged(rs)[1..] == Unmanaged(rs[1..]);
      }
    }
  }

  /** The rules of Docker's chain; a host without Docker has none. */
  function DockerRules(s: Ruleset): seq<Rule> { if s.docker.Some? then s.docker.value else [] }

  /** Up does not fix where the three Docker rules stand among the others, yet whatever
      the checker accepts keeps the tunnel isolated. */
  lemma UpIsIsolated(s: Ruleset, c: Settings, p: Packet)
    requires c.tunnel != c.external && CheckUp(s, c)
    requires FromTunnel(c, p) || ToTunnel(c, p)
    ensures Forwarded(c, DockerRules(s), p) ==> PublicEgress(c, p) || EstablishedReturn(c, p)
    ensures s.docker.None? || s == Applied(s, c) ==>
              (Forwarded(c, DockerRules(s), p) <==> PublicEgress(c, p) || EstablishedReturn(c, p))
  {
    ForwardChainIsolates(c, p);
    if s.docker.Some? && s == Applied(s, c) { DockerChangesNothingForTheTunnel(c, Unmanaged(s.docker.value), p); }
  }

  // ---------------------------------------------------------------- the program

  class Kernel {
    const faultless: bool
    var docker: Option<seq<Entry>>
    var forward: Option<seq<Rule>>
    var natTable: Option<seq<Rule>>
    const namesakes: bool
    var nextHandle: nat
    var text: Option<Settings>   // whose rendering the generated nftables text is

    ghost predicate Valid()
      reads this
    {
      docker.Some? ==> Numbered(docker.value, nextHandle)
    }

    ghost function View(): Ruleset
      reads this
    {
      Ruleset(if docker.Some? then Some(RulesOf(docker.value)) else None, forward, natTable, namesakes)
    }

    constructor (docker: Option<seq<Entry>>, forward: Option<seq<Rule>>, natTable: Option<seq<Rule>>,
                 namesakes: bool, nextHandle: nat, text: Option<Settings>, faultless: bool)
      requires docker.Some? ==> Numbered(docker.value, nextHandle)
      ensures Valid() && this.docker == docker && this.forward == forward && this.natTable == natTable
      ensures this.namesakes == namesakes && this.text == text && this.faultless == faultless
    {
      this.docker, this.forward, this.natTable := docker, forward, natTable;
      this.namesakes, this.nextHandle, this.text, this.faultless := namesakes, nextHandle, text, faultless;
    }

    method Env() returns (ok: bool)
      ensures faultless ==> ok
    {
      ok := *;
      if faultless { ok := true; }
    }

    /** The handles of the manager's rules in Docker's chain; none if it cannot be listed. */
    method TaggedHandles() returns (handles: seq<nat>, listed: bool)
      requires Valid()
      ensures handles == if docker.Some? && listed then HandlesOfTagged(docker.value) else []
      ensures faultless ==> listed
    {
      handles := [];
      listed := Env();
      if docker.None? || !listed { return; }
      for i := 0 to |docker.value|
        invariant handles == HandlesOfTagged(docker.value[..i])
      {
        HandlesGrow(docker.value, i);
        if Tagged(docker.value[i].rule) { handles := handles + [docker.value[i].handle]; }
      }
      assert docker.value[..|docker.value|] == docker.value;
    }

    /** Delete the rule with the given handle; a failure is ignored. */
    method DeleteRule(handle: nat) returns (gone: bool)
      requires Valid() && docker.Some?
      modifies this`docker
      ensures Valid() && docker.Some?
      ensures docker.value == if gone then Without(old(docker).value, handle) else old(docker).value
      ensures faultless ==> gone
    {
      gone := Env();
      if gone {
        WithoutKeepsHandles(docker.value, handle);
        docker := Some(Without(docker.value, handle));
      }
    }

    /** Delete the listed rules one by one, failures ignored. */
    method DeleteListed(handles: seq<nat>)
      requires Valid() && docker.Some? && handles == HandlesOfTagged(docker.value)
      modifies this`docker
      ensures Valid() && docker.Some?
      ensures faultless ==> docker.value == WithoutAll(old(docker).value, handles)
      ensures Unmanaged(RulesOf(docker.value)) == Unmanaged(RulesOf(old(docker).value))
    {
      ghost var before := docker.value;
      var i := 0;
      while i < |handles|
        invariant 0 <= i <= |handles| && Valid() && docker.Some?
        invariant faultless ==> docker.value == WithoutAll(before, handles[..i])
        invariant Unmanaged(RulesOf(docker.value)) == Unmanaged(RulesOf(before))
        invariant forall e | e in docker.value :: e in before
      {
        DeletionIsHarmless(before, docker.value, handles[i]);
        assert handles[..i + 1][..i] == handles[..i];
        var gone := DeleteRule(handles[i]);
        i := i + 1;
      }
      assert handles[..|handles|] == handles;
    }

    /** Remove every managed rule and both tables, one command each, failures ignored. */
    method FirewallCleanup()
      requires Valid()
      modifies this`docker, this`forward, this`natTable
      ensures Valid() && docker.Some? == old(docker).Some?
      ensures faultless ==> View() == Cleaned(old(View()))
      ensures old(docker).Some? ==> Unmanaged(RulesOf(docker.value)) == Unmanaged(RulesOf(old(docker).value))
    {
      var handles, listed := TaggedHandles();
      if docker.Some? && listed {
        AllTaggedGone(docker.value);
        DeleteListed(handles);
      }
      var ok := Env();
      if ok { forward := None; }
      ok := Env();
      if ok { natTable := None; }
    }

    /** Insert rules one by one in front of the chain, as one all-or-nothing batch. */
    method InsertRules(rules: seq<Rule>)
      requires Valid() && docker.Some?
      modifies this`docker, this`nextHandle
      ensures Valid() && docker.Some?
      ensures RulesOf(docker.value) == Reversed(rules) + RulesOf(old(docker).value)
    {
      hide Unmanaged;
      ghost var before := docker.value;
      var i := 0;
      while i < |rules|
        invariant 0 <= i <= |rules| && Valid() && docker.Some?
        invariant RulesOf(docker.value) == Reversed(rules[..i]) + RulesOf(before)
      {
        assert rules[..i + 1][..i] == rules[..i];
        UnmanagedCons(Entry(nextHandle, rules[i]), docker.value);
        docker := Some([Entry(nextHandle, rules[i])] + docker.value);
        nextHandle := nextHandle + 1;
        i := i + 1;
      }
      assert rules[..|rules|] == rules;
    }

    /** Clean up, write the nftables text, load the two tables from it, then insert the Docker
        rules if Docker's chain exists; if that last batch fails, clean up again. Loading adds
        to a table the cleanup could not delete. Other owners' rules survive every outcome, in
        order. */
    method ApplyFirewall(c: Settings) returns (ok: bool)
      requires Valid()
      modifies this
      ensures Valid() && docker.Some? == old(docker).Some?
      ensures ok && faultless ==> View() == Applied(old(View()), c)
      ensures docker.Some? ==> Unmanaged(RulesOf(docker.value)) == Unmanaged(RulesOf(old(docker).value))
      ensures faultless ==> ok
      ensures ok ==> forward.Some? && natTable.Some? && text == Some(c)
      ensures text == old(text) || text == Some(c)
      ensures ok && docker.Some? ==> DockerExpected(c) <= RulesOf(docker.value)
    {
      ok := Env();
      if !ok { return; }
      FirewallCleanup();
      ok := Env();
      if !ok { return; }
      text := Some(c);
      ok := Env();
      if !ok { return; }
      forward := Some((if forward.Some? then forward.value else []) + ForwardChain(c));
      natTable := Some((if natTable.Some? then natTable.value else []) + NatChain(c));
      assert [] + ForwardChain(c) == ForwardChain(c) && [] + NatChain(c) == NatChain(c);
      if docker.Some? {
        ok := Env();
        if ok {
          ghost var cleaned := RulesOf(docker.value);
          InsertRules(DockerInserts(c));
          InsertsReverse(c);
          DockerRulesAreTagged(c);
          FilterAppend(DockerExpected(c), cleaned);
          assert [] + Unmanaged(cleaned) == Unmanaged(cleaned);
        } else {
          FirewallCleanup();
        }
      }
    }
  }

  function Reversed(rs: seq<Rule>): seq<Rule> {
    if rs == [] then [] else [rs[|rs| - 1]] + Reversed(rs[..|rs| - 1])
  }

  /** Inserted one in front of the other, the three rules end up in the checker's order. */
  lemma InsertsReverse(c: Settings)
    ensures Reversed(DockerInserts(c)) == DockerExpected(c)
  {
    var d := DockerInserts(c);
    assert d[..2] == [d[0], d[1]] && d[..2][..1] == [d[0]] && [d[0]][..0] == [];
    assert Reversed([d[0]]) == [d[0]];
    assert Reversed([d[0], d[1]]) == [d[1], d[0]];
  }

  // ---------------------------------------------------------------- handles

  function RulesOf(es: seq<Entry>): seq<Rule> {
    if es == [] then [] else [es[0].rule] + RulesOf(es[1..])
  }

  function HandlesOfTagged(es: seq<Entry>): seq<nat> {
    if es == [] then []
    else HandlesOfTagged(es[..|es| - 1]) + if Tagged(es[|es| - 1].rule) then [es[|es| - 1].handle] else []
  }

  /** The entries without the one with this handle. */
  function Without(es: seq<Entry>, handle: nat): seq<Entry> {
    if es == [] then [] else (if es[0].handle == handle then [] else [es[0]]) + Without(es[1..], handle)
  }

  function WithoutAll(es: seq<Entry>, handles: seq<nat>): seq<Entry> {
    if handles == [] then es else Without(WithoutAll(es, handles[..|handles| - 1]), handles[|handles| - 1])
  }

  predicate Distinct(es: seq<Entry>) {
    forall i, j | 0 <= i < j < |es| :: es[i].handle != es[j].handle
  }

  /** The kernel numbers rules, never reusing a number. */
  ghost predicate Numbered(es: seq<Entry>, next: nat) {
    Distinct(es) && forall e | e in es :: e.handle < next
  }

  lemma {:induction false} WithoutMembers(es: seq<Entry>, handle: nat, e: Entry)
    ensures e in Without(es, handle) <==> e in es && e.handle != handle
  {
    if es != [] {
      WithoutMembers(es[1..], handle, e);
      assert es == [es[0]] + es[1..];
    }
  }

  lemma {:induction false} WithoutKeepsHandles(es: seq<Entry>, handle: nat)
    requires Distinct(es)
    ensures Distinct(Without(es, handle))
    ensures forall e | e in Without(es, handle) :: e in es
  {
    forall e | e in Without(es, handle) ensures e in es { WithoutMembers(es, handle, e); }
    if es != [] {
      WithoutKeepsHandles(es[1..], handle);
      var tail := Without(es[1..], handle);
      forall k | 0 <= k < |tail| ensures tail[k].handle != es[0].handle {
        assert tail[k] in es[1..];
        var j :| 0 <= j < |es[1..]| && es[1..][j] == tail[k];
        assert es[j + 1] == tail[k];
      }
    }
  }

  lemma HandlesGrow(es: seq<Entry>, i: nat)
    requires i < |es|
    ensures HandlesOfTagged(es[..i + 1]) == HandlesOfTagged(es[..i]) + if Tagged(es[i].rule) then [es[i].handle] else []
  {
    assert es[..i + 1][..i] == es[..i];
  }

  lemma {:induction false} HandlesAreThoseOfTagged(es: seq<Entry>, h: nat)
    ensures h in HandlesOfTagged(es) <==> exists e :: e in es && e.handle == h && Tagged(e.rule)
  {
    if es != [] {
      var init, last := es[..|es| - 1], es[|es| - 1];
      HandlesAreThoseOfTagged(init, h);
      assert es == init + [last];
    }
  }

  lemma TaggedByHandle(es: seq<Entry>, h: nat)
    requires Distinct(es) && h in HandlesOfTagged(es)
    ensures forall e | e in es && e.handle == h :: Tagged(e.rule)
  {
    HandlesAreThoseOfTagged(es, h);
    var t :| t in es && t.handle == h && Tagged(t.rule);
    forall e | e in es && e.handle == h ensures Tagged(e.rule) {
      var i :| 0 <= i < |es| && es[i] == e;
      var j :| 0 <= j < |es| && es[j] == t;
      assert i == j;
    }
  }

  lemma UnmanagedCons(e: Entry, rest: seq<Entry>)
    ensures RulesOf([e] + rest) == [e.rule] + RulesOf(rest)
    ensures Unmanaged(RulesOf([e] + rest)) == (if Tagged(e.rule) then [] else [e.rule]) + Unmanaged(RulesOf(rest))
  {
    assert ([e] + rest)[1..] == rest;
    assert ([e.rule] + RulesOf(rest))[1..] == RulesOf(rest);
  }

  lemma {:induction false} UnmanagedWithout(es: seq<Entry>, h: nat)
    requires forall e | e in es && e.handle == h :: Tagged(e.rule)
    ensures Unmanaged(RulesOf(Without(es, h))) == Unmanaged(RulesOf(es))
  {
    if es != [] {
      UnmanagedWithout(es[1..], h);
      assert es == [es[0]] + es[1..];
      UnmanagedCons(es[0], es[1..]);
      var tail := Without(es[1..], h);
      if es[0].handle == h {
        assert es[0] in es && [] + tail == tail;
      } else {
        UnmanagedCons(es[0], tail);
      }
    }
  }

  /** Deleting one listed handle from what is left removes no unmanaged rule. */
  lemma DeletionIsHarmless(before: seq<Entry>, now: seq<Entry>, h: nat)
    requires forall e | e in now :: e in before
    requires Distinct(before) && h in HandlesOfTagged(before)
    ensures Unmanaged(RulesOf(Without(now, h))) == Unmanaged(RulesOf(now))
    ensures forall e | e in Without(now, h) :: e in before
  {
    TaggedByHandle(before, h);
    UnmanagedWithout(now, h);
    forall e | e in Without(now, h) ensures e in before { WithoutMembers(now, h, e); }
  }

  lemma {:induction false} WithoutAllMembers(es: seq<Entry>, hs: seq<nat>, e: Entry)
    ensures e in WithoutAll(es, hs) <==> e in es && e.handle !in hs
  {
    if hs != [] {
      WithoutMembers(WithoutAll(es, hs[..|hs| - 1]), hs[|hs| - 1], e);
      WithoutAllMembers(es, hs[..|hs| - 1], e);
      assert hs == hs[..|hs| - 1] + [hs[|hs| - 1]];
    }
  }

  lemma {:induction false} UntaggedAreUnmanaged(es: seq<Entry>)
    requires forall e | e in es :: !Tagged(e.rule)
    ensures Unmanaged(RulesOf(es)) == RulesOf(es)
  {
    if es != [] {
      UntaggedAreUnmanaged(es[1..]);
      assert es == [es[0]] + es[1..];
      UnmanagedCons(es[0], es[1..]);
    }
  }

  /** Deleting every listed handle leaves no tagged rule. */
  lemma AllTaggedGone(es: seq<Entry>)
    ensures var rest := WithoutAll(es, HandlesOfTagged(es));
            Unmanaged(RulesOf(rest)) == RulesOf(rest)
  {
    var rest := WithoutAll(es, HandlesOfTagged(es));
    forall e | e in rest ensures !Tagged(e.rule) {
      WithoutAllMembers(es, HandlesOfTagged(es), e);
      HandlesAreThoseOfTagged(es, e.handle);
    }
    UntaggedAreUnmanaged(rest);
  }
}
