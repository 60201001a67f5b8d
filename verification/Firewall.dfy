/** The manager's firewall: two tables of its own, three rules it inserts into Docker's
    forwarding chain, how they are removed again, what the checker accepts, and what the
    rules mean for a packet. */
module Firewall {

  import opened Common

  type Address = int        // an IPv4 address as a number
  type InterfaceName = string

  /** A canonical network: `size` addresses from `base` on. */
  datatype Network = Network(base: Address, size: nat)

  predicate InNetwork(n: Network, a: Address) { n.base <= a < n.base + n.size }

  predicate InAny(ns: seq<Network>, a: Address) { exists n :: n in ns && InNetwork(n, a) }

  function Prefix(a: nat, b: nat, c: nat, d: nat, bits: nat): Network
    requires bits in {3, 4, 8, 10, 12, 15, 16, 24}
  {
    Network(((a * 256 + b) * 256 + c) * 256 + d, Size(bits))
  }

  /** 2 to the power of (32 - bits). */
  function Size(bits: nat): nat {
    if bits == 3 then 0x2000_0000
    else if bits == 4 then 0x1000_0000
    else if bits == 8 then 0x100_0000
    else if bits == 10 then 0x40_0000
    else if bits == 12 then 0x10_0000
    else if bits == 15 then 0x2_0000
    else if bits == 16 then 0x1_0000
    else 0x100
  }

  /** The destinations a tunnel client may never reach. */
  const BLOCKED: seq<Network> := [
    Prefix(0, 0, 0, 0, 8), Prefix(10, 0, 0, 0, 8), Prefix(100, 64, 0, 0, 10), Prefix(127, 0, 0, 0, 8),
    Prefix(169, 254, 0, 0, 16), Prefix(172, 16, 0, 0, 12), Prefix(192, 0, 0, 0, 24), Prefix(192, 0, 2, 0, 24),
    Prefix(192, 168, 0, 0, 16), Prefix(198, 18, 0, 0, 15), Prefix(198, 51, 100, 0, 24), Prefix(203, 0, 113, 0, 24),
    Prefix(224, 0, 0, 0, 4), Prefix(240, 0, 0, 0, 4)]

  /** The same list with adjacent networks merged, as the kernel reports it. */
  const COLLAPSED: seq<Network> := BLOCKED[..12] + [Prefix(224, 0, 0, 0, 3)]

  /** The checker compares with the merged list; it blocks the same addresses. */
  lemma CollapsedBlocksTheSame(a: Address)
    ensures InAny(COLLAPSED, a) <==> InAny(BLOCKED, a)
  {
    var top, low, high := Prefix(224, 0, 0, 0, 3), Prefix(224, 0, 0, 0, 4), Prefix(240, 0, 0, 0, 4);
    assert InNetwork(top, a) <==> InNetwork(low, a) || InNetwork(high, a);
    assert BLOCKED == BLOCKED[..12] + [low, high];
    if InAny(COLLAPSED, a) {
      var n :| n in COLLAPSED && InNetwork(n, a);
      if n == top {
        assert BLOCKED[12] == low && BLOCKED[13] == high;
        assert low in BLOCKED && high in BLOCKED;
      } else {
        assert n in BLOCKED[..12];
        assert n in BLOCKED;
      }
    }
    if InAny(BLOCKED, a) {
      var n :| n in BLOCKED && InNetwork(n, a);
      if n == low || n == high {
        assert COLLAPSED[12] == top;
        assert top in COLLAPSED;
      } else {
        assert n in BLOCKED[..12];
        assert n in COLLAPSED;
      }
    }
  }

  datatype Settings = Settings(tunnel: InterfaceName, external: InterfaceName, subnet: Network)

  // ---------------------------------------------------------------- packets and rules

  datatype ConnState = New | Established | Related | Invalid

  datatype Packet = Packet(iif: InterfaceName, oif: InterfaceName, source: Address, dest: Address, state: ConnState)

  datatype Match =
    | InIs(name: InterfaceName) | OutIs(name: InterfaceName) | OutIsNot(name: InterfaceName)
    | SourceIn(net: Network) | SourceNotIn(net: Network) | DestIn(net: Network) | DestInAny(nets: seq<Network>)
    | IsReply

  datatype Verdict = Accept | Drop

  /** A rule of somebody else is opaque: it may decide any packet in any way. */
  datatype Rule =
    | Managed(matches: seq<Match>, verdict: Verdict, comment: string)
    | Foreign(id: nat, comment: string, decide: Packet -> Option<Verdict>)

  predicate Holds(m: Match, p: Packet) {
    match m
    case InIs(n) => p.iif == n
    case OutIs(n) => p.oif == n
    case OutIsNot(n) => p.oif != n
    case SourceIn(net) => InNetwork(net, p.source)
    case SourceNotIn(net) => !InNetwork(net, p.source)
    case DestIn(net) => InNetwork(net, p.dest)
    case DestInAny(nets) => InAny(nets, p.dest)
    case IsReply => p.state == Established || p.state == Related
  }

  function Decide(r: Rule, p: Packet): Option<Verdict> {
    match r
    case Managed(ms, v, _) => if forall m | m in ms :: Holds(m, p) then Some(v) else None
    case Foreign(_, _, d) => d(p)
  }

  /** First match wins; a chain that matches nothing has no verdict of its own. */
  function FirstMatch(chain: seq<Rule>, p: Packet): Option<Verdict> {
    if chain == [] then None
    else
      var d := Decide(chain[0], p);
      if d.Some? then d else FirstMatch(chain[1..], p)
  }

  /** The managed forward chain has policy accept. */
  function ChainVerdict(chain: seq<Rule>, p: Packet): Verdict {
    match FirstMatch(chain, p)
    case Some(v) => v
    case None => Accept
  }

  const RETURN_ONLY := "awgctl-return-is-established-only"
  const BLOCK_INBOUND := "awgctl-block-non-return-to-tunnel"
  const BLOCK_SPOOFED := "awgctl-block-spoofed-tunnel-source"
  const BLOCK_PRIVATE := "awgctl-block-private-reserved-destinations"
  const BLOCK_LATERAL := "awgctl-block-lateral-forwarding"
  const ALLOW_PUBLIC := "awgctl-allow-public-internet"
  const DEFAULT_DROP := "awgctl-default-tunnel-forward-drop"
  const DOCKER_RETURN := "awgctl-established-return"
  const DOCKER_EGRESS := "awgctl-public-egress"

  function ForwardChain(c: Settings): seq<Rule> {
    [ Managed([InIs(c.external), OutIs(c.tunnel), DestIn(c.subnet), IsReply], Accept, RETURN_ONLY),
      Managed([OutIs(c.tunnel)], Drop, BLOCK_INBOUND),
      Managed([InIs(c.tunnel), SourceNotIn(c.subnet)], Drop, BLOCK_SPOOFED),
      Managed([InIs(c.tunnel), DestInAny(BLOCKED)], Drop, BLOCK_PRIVATE),
      Managed([InIs(c.tunnel), OutIsNot(c.external)], Drop, BLOCK_LATERAL),
      Managed([InIs(c.tunnel), SourceIn(c.subnet), OutIs(c.external)], Accept, ALLOW_PUBLIC),
      Managed([InIs(c.tunnel)], Drop, DEFAULT_DROP) ]
  }

  /** The Docker rules in the order the program inserts them, each in front of the others. */
  function DockerInserts(c: Settings): seq<Rule> {
    [ Managed([InIs(c.tunnel)], Drop, DEFAULT_DROP),
      Managed([InIs(c.external), OutIs(c.tunnel), DestIn(c.subnet), IsReply], Accept, DOCKER_RETURN),
      Managed([InIs(c.tunnel), OutIs(c.external), SourceIn(c.subnet)], Accept, DOCKER_EGRESS) ]
  }

  /** The order the checker expects to find them in. */
  function DockerExpected(c: Settings): seq<Rule> {
    [ Managed([InIs(c.tunnel), OutIs(c.external), SourceIn(c.subnet)], Accept, DOCKER_EGRESS),
      Managed([InIs(c.external), OutIs(c.tunnel), DestIn(c.subnet), IsReply], Accept, DOCKER_RETURN),
      Managed([InIs(c.tunnel)], Drop, DEFAULT_DROP) ]
  }

  // ---------------------------------------------------------------- what the rules mean

  predicate FromTunnel(c: Settings, p: Packet) { p.iif == c.tunnel }

  predicate ToTunnel(c: Settings, p: Packet) { p.oif == c.tunnel }

  /** A client of the tunnel talking to a public address. */
  predicate PublicEgress(c: Settings, p: Packet) {
    && p.iif == c.tunnel && p.oif == c.external
    && InNetwork(c.subnet, p.source) && !InAny(BLOCKED, p.dest)
  }

  /** The answer to a connection a client opened. */
  predicate EstablishedReturn(c: Settings, p: Packet) {
    && p.iif == c.external && p.oif == c.tunnel
    && InNetwork(c.subnet, p.dest) && (p.state == Established || p.state == Related)
  }

  lemma NoMatch(chain: seq<Rule>, p: Packet)
    requires chain == []
    ensures FirstMatch(chain, p) == None
  {
  }

  lemma FirstMatchAt(chain: seq<Rule>, k: nat, p: Packet)
    requires k < |chain|
    ensures FirstMatch(chain[k..], p) ==
            if Decide(chain[k], p).Some? then Decide(chain[k], p) else FirstMatch(chain[k + 1..], p)
  {
    assert chain[k..][1..] == chain[k + 1..];
  }

  lemma DecideOne(a: Match, v: Verdict, comment: string, p: Packet)
    ensures Decide(Managed([a], v, comment), p) == if Holds(a, p) then Some(v) else None
  {
    assert a in [a];
  }

  lemma DecideTwo(a: Match, b: Match, v: Verdict, comment: string, p: Packet)
    ensures Decide(Managed([a, b], v, comment), p) == if Holds(a, p) && Holds(b, p) then Some(v) else None
  {
    assert a in [a, b] && b in [a, b];
  }

  lemma DecideThree(a: Match, b: Match, c: Match, v: Verdict, comment: string, p: Packet)
    ensures Decide(Managed([a, b, c], v, comment), p) == if Holds(a, p) && Holds(b, p) && Holds(c, p) then Some(v) else None
  {
    assert a in [a, b, c] && b in [a, b, c] && c in [a, b, c];
  }

  lemma DecideFour(a: Match, b: Match, c: Match, d: Match, v: Verdict, comment: string, p: Packet)
    ensures Decide(Managed([a, b, c, d], v, comment), p) ==
            if Holds(a, p) && Holds(b, p) && Holds(c, p) && Holds(d, p) then Some(v) else None
  {
    assert a in [a, b, c, d] && b in [a, b, c, d] && c in [a, b, c, d] && d in [a, b, c, d];
  }

  lemma ForwardTailCases(c: Settings, p: Packet)
    ensures FirstMatch(ForwardChain(c)[3..], p) ==
            if !FromTunnel(c, p) then None
            else if InAny(BLOCKED, p.dest) || p.oif != c.external then Some(Drop)
            else if InNetwork(c.subnet, p.source) then Some(Accept)
            else Some(Drop)
  {
    hide FirstMatch, Decide;
    var chain := ForwardChain(c);
    DecideTwo(InIs(c.tunnel), DestInAny(BLOCKED), Drop, chain[3].comment, p);
    DecideTwo(InIs(c.tunnel), OutIsNot(c.external), Drop, chain[4].comment, p);
    DecideThree(InIs(c.tunnel), SourceIn(c.subnet), OutIs(c.external), Accept, chain[5].comment, p);
    DecideOne(InIs(c.tunnel), Drop, chain[6].comment, p);
    FirstMatchAt(chain, 3, p);
    FirstMatchAt(chain, 4, p);
    FirstMatchAt(chain, 5, p);
    FirstMatchAt(chain, 6, p);
    NoMatch(chain[7..], p);
  }

  /** Which of the seven rules decides a packet. */
  lemma ForwardChainCases(c: Settings, p: Packet)
    ensures FirstMatch(ForwardChain(c), p) ==
            if EstablishedReturn(c, p) then Some(Accept)
            else if ToTunnel(c, p) then Some(Drop)
            else if !FromTunnel(c, p) then None
            else if !InNetwork(c.subnet, p.source) || InAny(BLOCKED, p.dest) || p.oif != c.external then Some(Drop)
            else Some(Accept)
  {
    hide FirstMatch, Decide;
    var chain := ForwardChain(c);
    DecideFour(InIs(c.external), OutIs(c.tunnel), DestIn(c.subnet), IsReply, Accept, chain[0].comment, p);
    DecideOne(OutIs(c.tunnel), Drop, chain[1].comment, p);
    DecideTwo(InIs(c.tunnel), SourceNotIn(c.subnet), Drop, chain[2].comment, p);
    FirstMatchAt(chain, 0, p);
    FirstMatchAt(chain, 1, p);
    FirstMatchAt(chain, 2, p);
    ForwardTailCases(c, p);
    assert chain[0..] == chain;
  }

  /** The managed chain isolates the tunnel, exactly: of everything that comes from it or
      goes to it, public egress and established returns pass and nothing else does. What
      does not touch the tunnel is left alone. */
  lemma ForwardChainIsolates(c: Settings, p: Packet)
    requires c.tunnel != c.external
    ensures FromTunnel(c, p) || ToTunnel(c, p) ==>
              (ChainVerdict(ForwardChain(c), p) == Accept <==> PublicEgress(c, p) || EstablishedReturn(c, p))
    ensures !FromTunnel(c, p) && !ToTunnel(c, p) ==> FirstMatch(ForwardChain(c), p) == None
  {
    ForwardChainCases(c, p);
  }

  /** Were the two interfaces the same one, a packet from a blocked address could enter
      the tunnel's own subnet as a "return": the requirement is needed. */
  lemma SharedInterfaceIsNotIsolated(c: Settings, p: Packet)
    requires c.tunnel == c.external && p.iif == p.oif == c.tunnel && InNetwork(c.subnet, p.dest) && p.state == Related
    ensures ChainVerdict(ForwardChain(c), p) == Accept
  {
    ForwardChainCases(c, p);
  }

  // ---------------------------------------------------------------- Docker's chain

  lemma {:induction false} FirstMatchAppend(a: seq<Rule>, b: seq<Rule>, p: Packet)
    ensures FirstMatch(a + b, p) == if FirstMatch(a, p).Some? then FirstMatch(a, p) else FirstMatch(b, p)
  {
    if a == [] {
      assert a + b == b;
    } else {
      assert (a + b)[1..] == a[1..] + b;
      FirstMatchAppend(a[1..], b, p);
    }
  }

  lemma DockerCases(c: Settings, p: Packet)
    requires c.tunnel != c.external
    ensures FirstMatch(DockerExpected(c), p) ==
            if FromTunnel(c, p) && p.oif == c.external && InNetwork(c.subnet, p.source) then Some(Accept)
            else if EstablishedReturn(c, p) then Some(Accept)
            else if FromTunnel(c, p) then Some(Drop)
            else None
  {
    var chain := DockerExpected(c);
    DecideThree(InIs(c.tunnel), OutIs(c.external), SourceIn(c.subnet), Accept, chain[0].comment, p);
    DecideFour(InIs(c.external), OutIs(c.tunnel), DestIn(c.subnet), IsReply, Accept, chain[1].comment, p);
    DecideOne(InIs(c.tunnel), Drop, chain[2].comment, p);
    FirstMatchAt(chain, 0, p);
    FirstMatchAt(chain, 1, p);
    FirstMatchAt(chain, 2, p);
    assert chain[0..] == chain && chain[3..] == [];
  }

  /** A packet is forwarded when no base chain drops it. */
  predicate Forwarded(c: Settings, docker: seq<Rule>, p: Packet) {
    ChainVerdict(ForwardChain(c), p) == Accept && FirstMatch(docker, p) != Some(Drop)
  }

  /** With the three rules in front of Docker's own, whatever those are, what passes to
      and from the tunnel is what the managed chain lets pass: Docker can neither admit
      more nor take any of it away. */
  lemma DockerChangesNothingForTheTunnel(c: Settings, foreign: seq<Rule>, p: Packet)
    requires c.tunnel != c.external
    requires FromTunnel(c, p) || ToTunnel(c, p)
    ensures Forwarded(c, DockerExpected(c) + foreign, p) <==> PublicEgress(c, p) || EstablishedReturn(c, p)
    ensures Forwarded(c, DockerExpected(c) + foreign, p) <==> ChainVerdict(ForwardChain(c), p) == Accept
  {
    ForwardChainCases(c, p);
    DockerCases(c, p);
    FirstMatchAppend(DockerExpected(c), foreign, p);
  }

  /** Taken alone the three rules do admit something the managed chain drops: exactly a
      client's traffic to a blocked address through the external interface. The managed
      chain runs first, and its drop is final. */
  lemma DockerRulesAloneAdmitBlocked(c: Settings, p: Packet)
    requires c.tunnel != c.external
    ensures FirstMatch(DockerExpected(c), p) == Some(Accept) && ChainVerdict(ForwardChain(c), p) == Drop <==>
            FromTunnel(c, p) && p.oif == c.external && InNetwork(c.subnet, p.source) && InAny(BLOCKED, p.dest)
  {
    ForwardChainCases(c, p);
    DockerCases(c, p);
  }
}
