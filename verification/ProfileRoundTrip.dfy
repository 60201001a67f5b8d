/** Rendered configurations parse back, and imported profiles are stable. */
module ProfileRoundTrip {
  import opened Common
  import opened Strings
  import opened ConfigText
  import opened ProfileDocument
  import opened ProfileText
  import Eligibility

  // ----- Sections -----

  lemma {:induction false} TakeAppend(p: Parsed, a: seq<Line>, b: seq<Line>)
    requires Filling(p)
    ensures TakeAll(p, a + b) == if TakeAll(p, a).Bad? then TakeAll(p, a) else TakeAll(TakeAll(p, a), b)
    decreases |a|
  {
    if a == [] {
      assert a + b == b;
    } else {
      assert (a + b)[1..] == a[1..] + b;
      var q := Take(p, a[0]);
      if q.Sections? { TakeAppend(q, a[1..], b); }
    }
  }

  /** The state after a section was opened and these fields were read into it. */
  function WithSection(p: Parsed, name: string, fields: Fields): (r: Parsed)
    requires Filling(p)
    ensures Filling(r)
  {
    Sections(p.all[name := (if name in p.all then p.all[name] else []) + [fields]], Some(name))
  }

  lemma {:induction false} FieldsTaken(p: Parsed, name: string, pairs: Pairs)
    requires Filling(p) && DistinctKeys(pairs)
    ensures TakeAll(Open(p, name), FieldsOf(pairs)) == WithSection(p, name, Dict(pairs))
    decreases |pairs|
  {
    hide Put;
    if pairs == [] {
      assert FieldsOf(pairs) == [];
    } else {
      var k := |pairs| - 1;
      var init, last := pairs[..k], pairs[k];
      FieldsTaken(p, name, init);
      assert FieldsOf(pairs) == FieldsOf(init) + [Field(last.0, last.1)];
      TakeAppend(Open(p, name), FieldsOf(init), [Field(last.0, last.1)]);
      OneField(p, name, Dict(init), last.0, last.1);
      assert forall i :: 0 <= i < k ==> init[i].0 != last.0;
    }
  }

  lemma OneField(p: Parsed, name: string, fields: Fields, key: string, value: string)
    requires Filling(p) && key !in fields
    ensures TakeAll(WithSection(p, name, fields), [Field(key, value)]) == WithSection(p, name, fields[key := value])
  {
    var before := if name in p.all then p.all[name] else [];
    assert (before + [fields])[|before| := fields[key := value]] == before + [fields[key := value]];
    var q := WithSection(p, name, fields);
    assert q.all[name := before + [fields[key := value]]] == WithSection(p, name, fields[key := value]).all;
    assert TakeAll(q, [Field(key, value)]) == Take(q, Field(key, value));
  }

  /** A header and its fields make one section. */
  lemma SectionTaken(p: Parsed, name: string, pairs: Pairs)
    requires Filling(p) && DistinctKeys(pairs)
    ensures TakeAll(p, [Header(name)] + FieldsOf(pairs)) == WithSection(p, name, Dict(pairs))
  {
    FieldsTaken(p, name, pairs);
    assert ([Header(name)] + FieldsOf(pairs))[1..] == FieldsOf(pairs);
  }

  // ----- The server's configuration -----

  /** The bounds the loader checks; the values it accepts fit on a line. */
  ghost predicate Normalized(config: Config, rd: Readers) {
    && Complete(config.obfuscation) && Clean(config.serverAddress)
    && 1 <= config.listenPort <= 65535 && 576 <= config.mtu <= 9000 && config.keepalive <= 65535
    && ValidateEndpoint(config.endpoint).Some?
    && config.dns != [] && (forall i :: 0 <= i < |config.dns| ==> DnsEntry(config.dns[i]))
    && rd.dns(config.dns) == Some(config.dns)
  }

  predicate DnsEntry(s: string) {
    s != "" && Clean(s) && forall i :: 0 <= i < |s| ==> s[i] != ','
  }

  lemma OwnFields()
    ensures Alphanumeric("Address") && Alphanumeric("ListenPort") && Alphanumeric("PrivateKey") && Alphanumeric("MTU")
    ensures Rank("Address") == 62 && Rank("ListenPort") == 61 && Rank("PrivateKey") == 60 && Rank("MTU") == 64
  {
  }

  lemma HookFields()
    ensures Alphanumeric("PostUp") && Alphanumeric("PostDown") && Alphanumeric("DNS")
    ensures Rank("PostUp") == 65 && Rank("PostDown") == 66 && Rank("DNS") == 63
  {
  }

  /** Fixed fields, native fields, fixed fields: all keys differ. */
  lemma AroundNative(before: Pairs, native: Pairs, after: Pairs)
    requires Proper(native, 0, 50) && DistinctKeys(before + after)
    requires forall i :: 0 <= i < |before| ==> Rank(before[i].0) >= 60
    requires forall i :: 0 <= i < |after| ==> Rank(after[i].0) >= 60
    ensures DistinctKeys(before + native + after)
  {
    ProperDistinct(native, 0, 50);
    var all, n, m := before + native + after, |before|, |native|;
    forall i, j | 0 <= i < j < |all| ensures all[i].0 != all[j].0 {
      if (i < n || n + m <= i) && (j < n || n + m <= j) {
        var x, y := if i < n then i else i - m, if j < n then j else j - m;
        assert (before + after)[x] == all[i] && (before + after)[y] == all[j];
      }
    }
  }

  lemma ServerPairsDistinct(config: Config, privateKey: string)
    requires Complete(config.obfuscation)
    ensures DistinctKeys(ServerPairs(config, privateKey))
  {
    OwnFields();
    HookFields();
    ObfuscationIsProper(config.obfuscation);
    var pairs := ServerPairs(config, privateKey);
    var before, after := pairs[..4], pairs[|pairs| - 2..];
    assert pairs == before + EffectiveObfuscation(config.obfuscation) + after;
    AroundNative(before, EffectiveObfuscation(config.obfuscation), after);
  }

  function PeerFields(config: Config, rd: Readers, peers: seq<Eligibility.Client>): (fs: seq<Fields>)
    requires PeersLines(config, rd, peers).Rendered?
    ensures |fs| == |peers|
  {
    if peers == [] then [] else
    var k := |peers| - 1;
    PeerFields(config, rd, peers[..k]) + [Dict(PeerPairs(config, rd, peers[k]))]
  }

  lemma PeerPairsDistinct(config: Config, rd: Readers, c: Eligibility.Client)
    requires PeerProblem(config, rd, c).None?
    ensures DistinctKeys(PeerPairs(config, rd, c))
  {
  }

  lemma TakeCons(p: Parsed, l: Line, rest: seq<Line>)
    requires Filling(p)
    ensures TakeAll(p, [l] + rest) == if Take(p, l).Bad? then Take(p, l) else TakeAll(Take(p, l), rest)
  {
    assert ([l] + rest)[1..] == rest;
  }

  /** Blank lines and comments around a header change nothing. */
  lemma PeerHeadTaken(p: Parsed, comment: seq<Line>, rest: seq<Line>)
    requires Filling(p) && |comment| <= 1 && (comment != [] ==> comment[0].Comment?)
    ensures TakeAll(p, [Blank, Header("Peer")] + comment + rest) == TakeAll(Open(p, "Peer"), rest)
  {
    if comment != [] {
      TakeCons(Open(p, "Peer"), comment[0], rest);
      assert comment + rest == [comment[0]] + rest;
    } else {
      assert comment + rest == rest;
    }
    TakeCons(p, Header("Peer"), comment + rest);
    TakeCons(p, Blank, [Header("Peer")] + (comment + rest));
    assert [Blank, Header("Peer")] + comment + rest == [Blank] + ([Header("Peer")] + (comment + rest));
  }

  lemma PeerTaken(p: Parsed, config: Config, rd: Readers, c: Eligibility.Client)
    requires Filling(p) && PeerProblem(config, rd, c).None?
    ensures TakeAll(p, PeerLines(config, rd, c)) == WithSection(p, "Peer", Dict(PeerPairs(config, rd, c)))
  {
    PeerPairsDistinct(config, rd, c);
    PeerHeadTaken(p, [Comment(c.name)], FieldsOf(PeerPairs(config, rd, c)));
    FieldsTaken(p, "Peer", PeerPairs(config, rd, c));
    assert [Blank, Header("Peer"), Comment(c.name)] == [Blank, Header("Peer")] + [Comment(c.name)];
  }

  function OnlyInterface(fields: Fields): (p: Parsed)
    ensures Filling(p)
  {
    Sections(map["Interface" := [fields]], Some("Interface"))
  }

  function WithPeers(fields: Fields, peers: seq<Fields>): (p: Parsed)
    ensures Filling(p)
  {
    if peers == [] then OnlyInterface(fields)
    else Sections(map["Interface" := [fields], "Peer" := peers], Some("Peer"))
  }

  lemma OneMorePeer(fields: Fields, peers: seq<Fields>, peer: Fields)
    ensures WithSection(WithPeers(fields, peers), "Peer", peer) == WithPeers(fields, peers + [peer])
  {
    var p := WithPeers(fields, peers);
    assert "Peer" in p.all <==> peers != [];
    assert [] + [peer] == [peer];
    assert WithSection(p, "Peer", peer).all == map["Interface" := [fields], "Peer" := peers + [peer]];
  }

  lemma {:induction false} PeersTaken(config: Config, rd: Readers, interface_: Fields, peers: seq<Eligibility.Client>)
    requires PeersLines(config, rd, peers).Rendered?
    ensures TakeAll(OnlyInterface(interface_), PeersLines(config, rd, peers).lines)
      == WithPeers(interface_, PeerFields(config, rd, peers))
    decreases |peers|
  {
    if peers != [] {
      var k := |peers| - 1;
      var before := PeersLines(config, rd, peers[..k]).lines;
      PeersTaken(config, rd, interface_, peers[..k]);
      TakeAppend(OnlyInterface(interface_), before, PeerLines(config, rd, peers[k]));
      PeerTaken(WithPeers(interface_, PeerFields(config, rd, peers[..k])), config, rd, peers[k]);
      OneMorePeer(interface_, PeerFields(config, rd, peers[..k]), Dict(PeerPairs(config, rd, peers[k])));
    }
  }

  lemma {:induction false} PeersWritable(config: Config, rd: Readers, peers: seq<Eligibility.Client>)
    requires Lawful(rd) && PeersLines(config, rd, peers).Rendered?
    ensures AllWritable(PeersLines(config, rd, peers).lines)
    decreases |peers|
  {
    if peers != [] {
      var k := |peers| - 1;
      PeersWritable(config, rd, peers[..k]);
      PeerWritable(config, rd, peers[k]);
    }
  }

  lemma PeerWritable(config: Config, rd: Readers, c: Eligibility.Client)
    requires Lawful(rd) && PeerProblem(config, rd, c).None?
    ensures AllWritable(PeerLines(config, rd, c))
  {
    assert AddressLaw(rd, c.address);
    KeyTextClean(c.publicKey);
    if config.usePsk { KeyTextClean(c.psk.value); }
    PeerKeys();
  }

  lemma PeerKeys()
    ensures Key("PublicKey") && Key("PresharedKey") && Key("AllowedIPs") && Clean("Peer") && Clean("Interface")
  {
    hide Rank;
    assert Alphanumeric("PublicKey") && Alphanumeric("PresharedKey") && Alphanumeric("AllowedIPs");
  }

  lemma OneLineJoin(a: string, b: string)
    requires OneLine(a) && OneLine(b)
    ensures OneLine(a + b)
  {
  }

  lemma HookParts()
    ensures OneLine("/opt/amneziawg/") && OneLine("libexec/awgctl-") && OneLine("internal") && OneLine(" _firewall ")
    ensures OneLine("up") && OneLine("down")
  {
  }

  lemma HookClean()
    ensures Clean(HOOK + "up") && Clean(HOOK + "down")
  {
    HookParts();
    OneLineJoin("/opt/amneziawg/", "libexec/awgctl-");
    OneLineJoin("/opt/amneziawg/" + "libexec/awgctl-", "internal");
    OneLineJoin("/opt/amneziawg/" + "libexec/awgctl-" + "internal", " _firewall ");
    OneLineJoin(HOOK, "up");
    OneLineJoin(HOOK, "down");
    assert HOOK[0] == '/';
    assert (HOOK + "up")[|HOOK| + 1] == 'p' && (HOOK + "down")[|HOOK| + 3] == 'n';
  }

  lemma ServerPairsWritable(config: Config, rd: Readers, privateKey: string)
    requires Normalized(config, rd) && ValidKey(privateKey)
    ensures WritablePairs(ServerPairs(config, privateKey))
  {
    hide Rank, EffectiveObfuscation, Complete;
    OwnFields();
    HookFields();
    HookClean();
    AlphanumericKey("Address");
    AlphanumericKey("ListenPort");
    AlphanumericKey("PrivateKey");
    AlphanumericKey("MTU");
    AlphanumericKey("PostUp");
    AlphanumericKey("PostDown");
    ShownClean(config.listenPort);
    ShownClean(config.mtu);
    KeyTextClean(privateKey);
    ObfuscationIsProper(config.obfuscation);
  }

  lemma SectionWritable(name: string, pairs: Pairs)
    requires name != "" && Clean(name) && WritablePairs(pairs)
    ensures AllWritable([Header(name)] + FieldsOf(pairs))
  {
  }

  lemma InterfaceTaken(pairs: Pairs)
    requires DistinctKeys(pairs)
    ensures TakeAll(NOTHING, [Header("Interface")] + FieldsOf(pairs)) == OnlyInterface(Dict(pairs))
  {
    SectionTaken(NOTHING, "Interface", pairs);
    assert [] + [Dict(pairs)] == [Dict(pairs)];
  }

  lemma ServerTaken(config: Config, rd: Readers, pairs: Pairs, peers: seq<Eligibility.Client>)
    requires DistinctKeys(pairs) && PeersLines(config, rd, peers).Rendered?
    ensures TakeAll(NOTHING, [Header("Interface")] + FieldsOf(pairs) + PeersLines(config, rd, peers).lines)
      == TakeAll(OnlyInterface(Dict(pairs)), PeersLines(config, rd, peers).lines)
  {
    InterfaceTaken(pairs);
    TakeAppend(NOTHING, [Header("Interface")] + FieldsOf(pairs), PeersLines(config, rd, peers).lines);
  }

  lemma ServerWritable(config: Config, rd: Readers, privateKey: string, peers: seq<Eligibility.Client>)
    requires Normalized(config, rd) && Lawful(rd) && ServerLines(config, rd, privateKey, peers).Rendered?
    ensures AllWritable(ServerLines(config, rd, privateKey, peers).lines)
  {
    ServerPairsWritable(config, rd, privateKey);
    PeerKeys();
    SectionWritable("Interface", ServerPairs(config, privateKey));
    PeersWritable(config, rd, peers);
  }

  /** Parsing a rendered server configuration gives one interface and exactly the eligible peers, in order. */
  lemma ServerRoundTrip(config: Config, rd: Readers, privateKey: string, clients: seq<Eligibility.Client>, now: int)
    requires Normalized(config, rd) && Lawful(rd)
    requires ServerLines(config, rd, privateKey, Eligibility.Peers(clients, now)).Rendered?
    ensures var peers := Eligibility.Peers(clients, now);
      var parsed := Parse(Render(ServerLines(config, rd, privateKey, peers).lines));
      && parsed.Sections? && parsed.all.Keys == (if peers == [] then {"Interface"} else {"Interface", "Peer"})
      && parsed.all["Interface"] == [Dict(ServerPairs(config, privateKey))]
      && (peers != [] ==> parsed.all["Peer"] == PeerFields(config, rd, peers))
  {
    hide TakeAll, Render, PeersLines, PeerFields;
    var peers := Eligibility.Peers(clients, now);
    ServerWritable(config, rd, privateKey, peers);
    DocumentIsRead(NOTHING, ServerLines(config, rd, privateKey, peers).lines);
    ServerPairsDistinct(config, privateKey);
    ServerTaken(config, rd, ServerPairs(config, privateKey), peers);
    PeersTaken(config, rd, Dict(ServerPairs(config, privateKey)), peers);
  }

  /** Within an open activation window the clock does not change what is rendered. */
  lemma RenderedServerIsStable(config: Config, rd: Readers, privateKey: string, clients: seq<Eligibility.Client>,
      now: int, deadline: int, installed: Option<set<string>>, instant: int)
    requires Shaped(config.obfuscation) && now <= instant <= deadline
    requires Eligibility.WindowOpen(clients, now, deadline, installed)
    requires forall c <- Eligibility.Peers(clients, now) :: c.managed
    ensures ServerLines(config, rd, privateKey, Eligibility.Peers(clients, instant))
      == ServerLines(config, rd, privateKey, Eligibility.Peers(clients, now))
  {
    Eligibility.WindowKeepsPeers(clients, now, deadline, installed, instant);
  }
}
