/** Importing a client profile undoes rendering it. */
module ProfileImport {
  import opened Common
  import opened Strings
  import opened ConfigText
  import opened ProfileDocument
  import opened ProfileText
  import opened ProfileRoundTrip

  // ----- Endpoints -----

  lemma {:induction false} DropDotsShape(s: string)
    ensures DropDots(s) <= s && (DropDots(s) != "" ==> DropDots(s)[|DropDots(s)| - 1] != '.')
    decreases |s|
  {
    if s != "" && s[|s| - 1] == '.' { DropDotsShape(s[..|s| - 1]); }
  }

  /** A validated endpoint is valid as it is. */
  lemma ValidatedIsCanonical(value: string)
    requires ValidateEndpoint(value).Some?
    ensures var v := ValidateEndpoint(value).value;
      ValidateEndpoint(v) == Some(v) && Clean(v) && forall i :: 0 <= i < |v| ==> v[i] != ':'
  {
    var v := ValidateEndpoint(value).value;
    DropDotsShape(Strip(value));
    assert Trimmed(v);
    StripTrimmed(v);
    assert forall i :: 0 <= i < |v| ==> !Space(v[i]);
  }

  // ----- Values written and read back -----

  lemma {:induction false} RFindIs(s: string, c: char, k: nat)
    requires k < |s| && s[k] == c && forall i :: k < i < |s| ==> s[i] != c
    ensures RFind(s, c) == Some(k)
    decreases |s|
  {
    if k < |s| - 1 { RFindIs(s[..|s| - 1], c, k); }
  }

  /** The port is split off at the last colon. */
  lemma EndpointSplits(host: string, port: nat)
    ensures var text := host + (":" + Show(port));
      RFind(text, ':') == Some(|host|) && text[..|host|] == host && text[|host| + 1..] == Show(port)
  {
    var text := host + (":" + Show(port));
    ShownDigits(port);
    forall i | |host| < i < |text| ensures text[i] != ':' { assert text[i] == Show(port)[i - |host| - 1]; }
    RFindIs(text, ':', |host|);
  }

  lemma {:induction false} PartsOf(head: string, c: char, rest: string)
    requires forall i :: 0 <= i < |head| ==> head[i] != c
    ensures Parts(head + ([c] + rest), c) == [head] + Parts(rest, c)
    ensures Parts(head, c) == [head]
  {
    FindIs(head + ([c] + rest), c, |head|);
    var t := head + ([c] + rest);
    assert t[..|head|] == head && t[|head| + 1..] == rest;
    FindNone(head, c);
  }

  lemma {:induction false} FindNone(s: string, c: char)
    requires forall i :: 0 <= i < |s| ==> s[i] != c
    ensures Find(s, c) == |s|
    decreases |s|
  {
    if s != "" { FindNone(s[1..], c); }
  }

  lemma MapCons<A, B>(x: A, xs: seq<A>, f: A -> B)
    ensures Map([x] + xs, f) == [f(x)] + Map(xs, f)
  {
  }

  lemma OneName(name: string, blank: string)
    requires DnsEntry(name) && (blank == [] || blank == [' '])
    ensures Strip(blank + name) == name && forall i :: 0 <= i < |blank + name| ==> (blank + name)[i] != ','
  {
    StripTrimmed(name);
    if blank == [] { assert blank + name == name; } else { assert blank + name == " " + name; }
  }

  /** The names of a list written with commas are found again, whatever blank precedes each. */
  lemma {:induction false} JoinedReads(names: seq<string>, blank: string)
    requires names != [] && (blank == [] || blank == [' '])
    requires forall i :: 0 <= i < |names| ==> DnsEntry(names[i])
    ensures Map(Parts(blank + Joined(names), ','), Strip) == names
    decreases |names|
  {
    var name, rest := names[0], names[1..];
    OneName(name, blank);
    if rest == [] {
      PartsOf(blank + name, ',', []);
      MapCons(blank + name, [], Strip);
      assert names == [name];
    } else {
      JoinedReads(rest, [' ']);
      MoreNames(blank, name, [' '] + Joined(rest), rest);
      assert Joined(names) == name + ([','] + ([' '] + Joined(rest)));
      assert names == [name] + rest;
    }
  }

  lemma MoreNames(blank: string, name: string, tail: string, rest: seq<string>)
    requires Strip(blank + name) == name && (forall i :: 0 <= i < |blank + name| ==> (blank + name)[i] != ',')
    requires Map(Parts(tail, ','), Strip) == rest
    ensures Map(Parts(blank + (name + ([','] + tail)), ','), Strip) == [name] + rest
  {
    JoinedStep(blank, name, tail);
    PartsOf(blank + name, ',', tail);
    MapCons(blank + name, Parts(tail, ','), Strip);
  }

  lemma JoinedStep(blank: string, name: string, tail: string)
    ensures blank + (name + ([','] + tail)) == (blank + name) + ([','] + tail)
  {
  }

  lemma {:induction false} JoinedClean(names: seq<string>)
    requires names != [] && forall i :: 0 <= i < |names| ==> DnsEntry(names[i])
    ensures Joined(names) != "" && Clean(Joined(names))
    decreases |names|
  {
    if |names| > 1 { JoinedClean(names[1..]); }
  }

  lemma RoutesApart(a: string, b: string)
    requires forall i :: 0 <= i < |a| ==> a[i] != ' '
    requires forall i :: 0 <= i < |b| ==> b[i] != ' '
    ensures WithoutBlanks(a + (", " + b)) == a + ("," + b)
  {
    WithoutBlanksAppend(a, ", " + b);
    NoBlanks(a);
    NoBlanks(b);
    var t := ", " + b;
    assert t[1..] == " " + b && t[1..][1..] == b;
    assert WithoutBlanks(t) == [','] + WithoutBlanks(" " + b);
    assert WithoutBlanks(" " + b) == WithoutBlanks(b);
  }

  lemma RoutesRead()
    ensures WithoutBlanks(ALL_ROUTES) == IPV4_ROUTE + ("," + IPV6_ROUTE) && Clean(ALL_ROUTES)
  {
    RoutesApart(IPV4_ROUTE, IPV6_ROUTE);
  }

  lemma {:induction false} WithoutBlanksAppend(a: string, b: string)
    ensures WithoutBlanks(a + b) == WithoutBlanks(a) + WithoutBlanks(b)
    decreases |a|
  {
    if a == "" {
      assert a + b == b;
    } else {
      WithoutBlanksAppend(a[1..], b);
      assert (a + b)[1..] == a[1..] + b;
      var head := if a[0] == ' ' then "" else [a[0]];
      assert head + (WithoutBlanks(a[1..]) + WithoutBlanks(b)) == (head + WithoutBlanks(a[1..])) + WithoutBlanks(b);
    }
  }

  lemma {:induction false} NoBlanks(s: string)
    requires forall i :: 0 <= i < |s| ==> s[i] != ' '
    ensures WithoutBlanks(s) == s
    decreases |s|
  {
    if s != "" { NoBlanks(s[1..]); }
  }

  // ----- A rendered profile -----

  /** What a client profile is rendered from, as the manager keeps it. */
  ghost predicate ClientReady(config: Config, rd: Readers, privateKey: string, psk: Option<string>, serverPublic: string,
      address: string)
  {
    && Normalized(config, rd) && Lawful(rd)
    && ValidKey(privateKey) && ValidKey(serverPublic)
    && (psk.Some? <==> config.usePsk) && (psk.Some? ==> ValidKey(psk.value))
    && rd.address(address) == Some(address) && rd.host(address)
  }

  lemma ClientPairsProper(config: Config, rd: Readers, privateKey: string, address: string)
    requires Normalized(config, rd) && ValidKey(privateKey) && Clean(address)
    ensures WritablePairs(ClientPairs(config, privateKey, address)) && DistinctKeys(ClientPairs(config, privateKey, address))
  {
    hide Rank, EffectiveObfuscation;
    OwnFields();
    HookFields();
    AlphanumericKey("Address");
    AlphanumericKey("DNS");
    AlphanumericKey("PrivateKey");
    AlphanumericKey("MTU");
    ShownClean(config.mtu);
    KeyTextClean(privateKey);
    JoinedClean(config.dns);
    ObfuscationIsProper(config.obfuscation);
    var pairs := ClientPairs(config, privateKey, address);
    assert pairs == pairs[..4] + EffectiveObfuscation(config.obfuscation) + [];
    AroundNative(pairs[..4], EffectiveObfuscation(config.obfuscation), []);
  }

  lemma EndpointFields()
    ensures Key("Endpoint") && Key("PersistentKeepalive")
  {
    assert Alphanumeric("Endpoint") && Alphanumeric("PersistentKeepalive");
  }

  lemma ServerPeerPairsProper(config: Config, rd: Readers, psk: Option<string>, serverPublic: string)
    requires Complete(config.obfuscation) && ValidateEndpoint(config.endpoint) == Some(config.endpoint)
    requires ValidKey(serverPublic) && (config.usePsk ==> psk.Some? && ValidKey(psk.value))
    ensures WritablePairs(ServerPeerPairs(config, psk, serverPublic)) && DistinctKeys(ServerPeerPairs(config, psk, serverPublic))
  {
    PeerKeys();
    EndpointFields();
    RoutesRead();
    ValidatedIsCanonical(config.endpoint);
    EndpointClean(config.endpoint, config.listenPort);
    ShownClean(config.keepalive);
    KeyTextClean(serverPublic);
    if config.usePsk { KeyTextClean(psk.value); }
    PairsOfFive(serverPublic, config.usePsk, if config.usePsk then psk.value else "",
      config.endpoint + (":" + Show(config.listenPort)), ALL_ROUTES, Show(config.keepalive));
  }

  lemma PairsOfFive(a: string, withPsk: bool, b: string, c: string, d: string, e: string)
    requires Clean(a) && (withPsk ==> Clean(b)) && Clean(c) && Clean(d) && Clean(e)
    requires Key("PublicKey") && Key("PresharedKey") && Key("AllowedIPs") && Key("Endpoint") && Key("PersistentKeepalive")
    ensures var pairs := [("PublicKey", a)] + (if withPsk then [("PresharedKey", b)] else [])
        + [("Endpoint", c), ("AllowedIPs", d), ("PersistentKeepalive", e)];
      WritablePairs(pairs) && DistinctKeys(pairs)
  {
  }

  lemma EndpointClean(host: string, port: nat)
    requires host != "" && Clean(host)
    ensures Clean(host + (":" + Show(port)))
  {
    ShownDigits(port);
    var text := host + (":" + Show(port));
    assert text[0] == host[0] && text[|text| - 1] == Show(port)[|Show(port)| - 1];
  }

  /** A rendered client profile parses into its two sections. */
  lemma ClientTaken(a: Pairs, b: Pairs)
    requires DistinctKeys(a) && DistinctKeys(b)
    ensures TakeAll(NOTHING, [Header("Interface")] + FieldsOf(a) + ([Blank, Header("Peer")] + FieldsOf(b)))
      == WithPeers(Dict(a), [Dict(b)])
  {
    InterfaceTaken(a);
    TakeAppend(NOTHING, [Header("Interface")] + FieldsOf(a), [Blank, Header("Peer")] + FieldsOf(b));
    PeerHeadTaken(OnlyInterface(Dict(a)), [], FieldsOf(b));
    assert [Blank, Header("Peer")] + [] + FieldsOf(b) == [Blank, Header("Peer")] + FieldsOf(b);
    FieldsTaken(OnlyInterface(Dict(a)), "Peer", b);
    OneMorePeer(Dict(a), [], Dict(b));
    assert [] + [Dict(b)] == [Dict(b)];
  }

  lemma ClientWritable(a: Pairs, b: Pairs)
    requires WritablePairs(a) && WritablePairs(b)
    ensures AllWritable([Header("Interface")] + FieldsOf(a) + ([Blank, Header("Peer")] + FieldsOf(b)))
  {
    PeerKeys();
  }

  lemma ClientParsed(config: Config, rd: Readers, privateKey: string, psk: Option<string>, serverPublic: string, address: string)
    requires ClientReady(config, rd, privateKey, psk, serverPublic, address)
    requires ValidateEndpoint(config.endpoint) == Some(config.endpoint)
    ensures ClientLines(config, rd, privateKey, psk, serverPublic, address).Rendered?
    ensures Parse(Render(ClientLines(config, rd, privateKey, psk, serverPublic, address).lines))
      == WithPeers(Dict(ClientPairs(config, privateKey, address)), [Dict(ServerPeerPairs(config, psk, serverPublic))])
  {
    hide Take, TakeAll, Render, EffectiveObfuscation;
    var a, b := ClientPairs(config, privateKey, address), ServerPeerPairs(config, psk, serverPublic);
    assert AddressLaw(rd, address);
    ClientPairsProper(config, rd, privateKey, address);
    ServerPeerPairsProper(config, rd, psk, serverPublic);
    ClientWritable(a, b);
    DocumentIsRead(NOTHING, [Header("Interface")] + FieldsOf(a) + ([Blank, Header("Peer")] + FieldsOf(b)));
    ClientTaken(a, b);
  }

  // ----- Importing what was rendered -----

  /** The interface section says what the client was rendered from. */
  predicate InterfaceSays(m: Fields, config: Config, privateKey: string, address: string)
    requires Shaped(config.obfuscation)
  {
    var native := EffectiveObfuscation(config.obfuscation);
    && m.Keys == InterfaceKeys(native)
    && m["PrivateKey"] == privateKey && m["Address"] == address
    && m["DNS"] == Joined(config.dns) && m["MTU"] == Show(config.mtu)
    && Gives(m, native)
  }

  lemma DictAll(pairs: Pairs)
    requires DistinctKeys(pairs)
    ensures Gives(Dict(pairs), pairs)
  {
    forall i | 0 <= i < |pairs| ensures pairs[i].0 in Dict(pairs) && Dict(pairs)[pairs[i].0] == pairs[i].1 {
      DictAt(pairs, i);
    }
  }

  lemma KeysAppend(a: Pairs, b: Pairs)
    ensures Dict(a + b).Keys == Dict(a).Keys + Dict(b).Keys
  {
    forall key ensures key in Dict(a + b).Keys <==> key in Dict(a).Keys + Dict(b).Keys {
      if key in Dict(a).Keys {
        var i :| 0 <= i < |a| && a[i].0 == key;
        assert (a + b)[i].0 == key;
      } else if key in Dict(b).Keys {
        var i :| 0 <= i < |b| && b[i].0 == key;
        assert (a + b)[|a| + i].0 == key;
      }
    }
  }

  lemma KeysAmong(pairs: Pairs, names: set<string>)
    requires forall i :: 0 <= i < |pairs| ==> pairs[i].0 in names
    ensures Dict(pairs).Keys <= names
  {
  }

  /** The dictionary gives these keys these values. */
  predicate Gives(m: Fields, pairs: Pairs) {
    forall i :: 0 <= i < |pairs| ==> pairs[i].0 in m && m[pairs[i].0] == pairs[i].1
  }

  lemma FrontValues(a: Pairs, b: Pairs)
    requires DistinctKeys(a + b)
    ensures Gives(Dict(a + b), a)
  {
    var all := a + b;
    forall i | 0 <= i < |a| ensures a[i].0 in Dict(all) && Dict(all)[a[i].0] == a[i].1 {
      assert all[i] == a[i];
      DictAt(all, i);
    }
  }

  lemma BackValues(a: Pairs, b: Pairs)
    requires DistinctKeys(a + b)
    ensures Gives(Dict(a + b), b)
  {
    var all := a + b;
    forall i | 0 <= i < |b| ensures b[i].0 in Dict(all) && Dict(all)[b[i].0] == b[i].1 {
      assert all[|a| + i] == b[i];
      DictAt(all, |a| + i);
    }
  }

  lemma FourKeys(own: Pairs)
    requires |own| == 4
    ensures Dict(own).Keys == {own[0].0, own[1].0, own[2].0, own[3].0}
  {
  }

  lemma InterfaceRead(config: Config, rd: Readers, privateKey: string, address: string)
    requires Normalized(config, rd) && ValidKey(privateKey) && Clean(address)
    ensures InterfaceSays(Dict(ClientPairs(config, privateKey, address)), config, privateKey, address)
  {
    var pairs := ClientPairs(config, privateKey, address);
    ClientPairsProper(config, rd, privateKey, address);
    var own := [("PrivateKey", privateKey), ("Address", address), ("DNS", Joined(config.dns)), ("MTU", Show(config.mtu))];
    assert pairs == own + EffectiveObfuscation(config.obfuscation);
    FrontValues(own, EffectiveObfuscation(config.obfuscation));
    BackValues(own, EffectiveObfuscation(config.obfuscation));
    KeysAppend(own, EffectiveObfuscation(config.obfuscation));
    FourKeys(own);
    assert own[0].0 == "PrivateKey" && own[1].0 == "Address" && own[2].0 == "DNS" && own[3].0 == "MTU";
  }

  predicate PeerSays(m: Fields, publicKey: string, psk: string, endpoint: string, keepalive: string) {
    && m.Keys <= PEER_KEYS
    && "PublicKey" in m && m["PublicKey"] == publicKey && "Endpoint" in m && m["Endpoint"] == endpoint
    && "PersistentKeepalive" in m && m["PersistentKeepalive"] == keepalive
    && Get(m, "AllowedIPs") == ALL_ROUTES && Get(m, "PresharedKey") == psk
  }

  lemma PeerFacts(pairs: Pairs, m: Fields, n: nat)
    requires DistinctKeys(pairs) && m == Dict(pairs) && (n == 4 || n == 5) && |pairs| == n
    requires pairs[0].0 == "PublicKey" && (n == 5 ==> pairs[1].0 == "PresharedKey")
    requires pairs[n - 3].0 == "Endpoint" && pairs[n - 2].0 == "AllowedIPs" && pairs[n - 1].0 == "PersistentKeepalive"
    requires pairs[n - 2].1 == ALL_ROUTES
    ensures PeerSays(m, pairs[0].1, if n == 5 then pairs[1].1 else "", pairs[n - 3].1, pairs[n - 1].1)
  {
    DictAll(pairs);
    forall i | 0 <= i < n ensures pairs[i].0 in PEER_KEYS {
      assert i == 0 || i == n - 1 || i == n - 2 || i == n - 3 || i == 1;
    }
    KeysAmong(pairs, PEER_KEYS);
    if n == 4 { NoPresharedKey(pairs); }
  }

  lemma NoPresharedKey(pairs: Pairs)
    requires |pairs| == 4 && pairs[0].0 == "PublicKey" && pairs[1].0 == "Endpoint"
    requires pairs[2].0 == "AllowedIPs" && pairs[3].0 == "PersistentKeepalive"
    ensures "PresharedKey" !in Dict(pairs)
  {
    KeysAmong(pairs, {"PublicKey", "Endpoint", "AllowedIPs", "PersistentKeepalive"});
  }

  lemma PeerRead(config: Config, rd: Readers, psk: Option<string>, serverPublic: string)
    requires Complete(config.obfuscation) && ValidateEndpoint(config.endpoint) == Some(config.endpoint)
    requires ValidKey(serverPublic) && (config.usePsk ==> psk.Some? && ValidKey(psk.value))
    ensures PeerSays(Dict(ServerPeerPairs(config, psk, serverPublic)), serverPublic, if config.usePsk then psk.value else "",
                     config.endpoint + (":" + Show(config.listenPort)), Show(config.keepalive))
  {
    var pairs := ServerPeerPairs(config, psk, serverPublic);
    ServerPeerPairsProper(config, rd, psk, serverPublic);
    PeerFacts(pairs, Dict(pairs), if config.usePsk then 5 else 4);
  }

  /** Importing the fields of a rendered profile finds the managed state and reissues the profile. */
  lemma FieldsImport(m: Fields, p: Fields, config: Config, rd: Readers, privateKey: string, psk: Option<string>,
      serverPublic: string, address: string)
    requires ClientReady(config, rd, privateKey, psk, serverPublic, address)
    requires ValidateEndpoint(config.endpoint) == Some(config.endpoint)
    requires InterfaceSays(m, config, privateKey, address)
    requires PeerSays(p, serverPublic, if config.usePsk then psk.value else "",
                      config.endpoint + (":" + Show(config.listenPort)), Show(config.keepalive))
    ensures ImportFields(m, p, config, rd, serverPublic) == Reissue(config, rd, privateKey, psk, serverPublic, address)
  {
    hide Joined, Show;
    FieldsAgree(m, p, config, rd, privateKey, psk, serverPublic, address);
    JoinedReads(config.dns, []);
    assert [] + Joined(config.dns) == Joined(config.dns);
  }

  lemma FieldsAgree(m: Fields, p: Fields, config: Config, rd: Readers, privateKey: string, psk: Option<string>,
      serverPublic: string, address: string)
    requires ClientReady(config, rd, privateKey, psk, serverPublic, address)
    requires ValidateEndpoint(config.endpoint) == Some(config.endpoint)
    requires InterfaceSays(m, config, privateKey, address)
    requires PeerSays(p, serverPublic, if config.usePsk then psk.value else "",
                      config.endpoint + (":" + Show(config.listenPort)), Show(config.keepalive))
    ensures HasFields(m, p, EffectiveObfuscation(config.obfuscation)) && Readable(rd, m, p)
    ensures Agrees(config, rd, m, p, serverPublic)
  {
    hide EffectiveObfuscation, ValidKey;
    EndpointSplits(config.endpoint, config.listenPort);
    RoutesRead();
  }

  /** Two sections are all there is to import. */
  lemma TwoSections(text: string, m: Fields, p: Fields, config: Config, rd: Readers, serverPublic: string)
    requires Shaped(config.obfuscation) && Parse(text) == WithPeers(m, [p])
    ensures ImportProfile(text, config, rd, serverPublic) == ImportFields(m, p, config, rd, serverPublic)
  {
  }

  lemma RenderedImports(config: Config, rd: Readers, privateKey: string, psk: Option<string>, serverPublic: string, address: string)
    requires ClientReady(config, rd, privateKey, psk, serverPublic, address)
    requires ValidateEndpoint(config.endpoint) == Some(config.endpoint)
    ensures ClientLines(config, rd, privateKey, psk, serverPublic, address).Rendered?
    ensures ImportProfile(Render(ClientLines(config, rd, privateKey, psk, serverPublic, address).lines), config, rd, serverPublic)
      == Reissue(config, rd, privateKey, psk, serverPublic, address)
  {
    assert AddressLaw(rd, address);
    var m, p := Dict(ClientPairs(config, privateKey, address)), Dict(ServerPeerPairs(config, psk, serverPublic));
    ClientParsed(config, rd, privateKey, psk, serverPublic, address);
    InterfaceRead(config, rd, privateKey, address);
    PeerRead(config, rd, psk, serverPublic);
    FieldsImport(m, p, config, rd, privateKey, psk, serverPublic, address);
    TwoSections(Render(ClientLines(config, rd, privateKey, psk, serverPublic, address).lines), m, p, config, rd, serverPublic);
  }

  /** Importing a rendered profile returns what it was rendered from, and the same text. */
  lemma ImportUndoesRender(config: Config, rd: Readers, privateKey: string, psk: Option<string>, serverPublic: string,
      address: string)
    requires ClientReady(config, rd, privateKey, psk, serverPublic, address)
    requires rd.derivePublic(privateKey).Some? && ValidKey(rd.derivePublic(privateKey).value)
    ensures ClientLines(config, rd, privateKey, psk, serverPublic, address).Rendered?
    ensures var text := Render(ClientLines(config, rd, privateKey, psk, serverPublic, address).lines);
      ImportProfile(text, config, rd, serverPublic)
        == Imported(privateKey, rd.derivePublic(privateKey).value, psk, address, text)
      <==> ValidateEndpoint(config.endpoint) == Some(config.endpoint)
  {
    if ValidateEndpoint(config.endpoint) == Some(config.endpoint) {
      RenderedImports(config, rd, privateKey, psk, serverPublic, address);
    } else {
      var text := Render(ClientLines(config, rd, privateKey, psk, serverPublic, address).lines);
      if ImportProfile(text, config, rd, serverPublic).Imported? {
        AcceptedMeansCanonical(text, config, rd, serverPublic);
      }
    }
  }

  /** No profile at all can be imported while the stored endpoint is not in its stripped form. */
  lemma AcceptedMeansCanonical(text: string, config: Config, rd: Readers, serverPublic: string)
    requires Shaped(config.obfuscation) && ImportProfile(text, config, rd, serverPublic).Imported?
    ensures ValidateEndpoint(config.endpoint) == Some(config.endpoint)
  {
    var parsed := Parse(text);
    var interface_, peer := parsed.all["Interface"][0], parsed.all["Peer"][0];
    var colon := RFind(peer["Endpoint"], ':');
    ValidatedIsCanonical(peer["Endpoint"][..colon.value]);
  }

  /** The canonical text of an accepted profile imports as itself. */
  lemma ReimportIsStable(text: string, config: Config, rd: Readers, serverPublic: string)
    requires Normalized(config, rd) && Lawful(rd) && ImportProfile(text, config, rd, serverPublic).Imported?
    ensures var r := ImportProfile(text, config, rd, serverPublic);
      ImportProfile(r.profile, config, rd, serverPublic) == r
  {
    var r := ImportProfile(text, config, rd, serverPublic);
    var parsed := Parse(text);
    var interface_, peer := parsed.all["Interface"][0], parsed.all["Peer"][0];
    AcceptedMeansCanonical(text, config, rd, serverPublic);
    assert AddressLaw(rd, interface_["Address"]);
    assert r == Reissue(config, rd, r.privateKey, r.psk, serverPublic, r.address);
    ImportUndoesRender(config, rd, r.privateKey, r.psk, serverPublic, r.address);
  }

  /** One interface and one peer, with known fields that can all be read, at an IPv4 /32. */
  predicate ReadUpToDns(m: Fields, p: Fields, config: Config, rd: Readers)
    requires Shaped(config.obfuscation)
  {
    var native := EffectiveObfuscation(config.obfuscation);
    && m.Keys <= InterfaceKeys(native) && p.Keys <= PEER_KEYS
    && HasFields(m, p, native) && Readable(rd, m, p) && rd.host(rd.address(m["Address"]).value)
  }

  /** Exactly one interface section and one peer section, in either order. */
  predicate Sole(parsed: Parsed, m: Fields, p: Fields) {
    parsed.Sections? && parsed.all.Keys == {"Interface", "Peer"} && parsed.all["Interface"] == [m] && parsed.all["Peer"] == [p]
  }

  /** The importer crashes on exactly one thing: a profile without name servers that is in
      order as far as the importer reads before it looks for them. */
  lemma CrashesExactlyWithoutDns(text: string, config: Config, rd: Readers, serverPublic: string)
    requires Shaped(config.obfuscation)
    ensures ImportProfile(text, config, rd, serverPublic).Crashed? <==>
      exists m, p :: Sole(Parse(text), m, p) && ReadUpToDns(m, p, config, rd) && "DNS" !in m
  {
    hide EffectiveObfuscation;
    var parsed := Parse(text);
    if ImportProfile(text, config, rd, serverPublic).Crashed? {
      assert parsed.all["Interface"] == [parsed.all["Interface"][0]] && parsed.all["Peer"] == [parsed.all["Peer"][0]];
      assert Sole(parsed, parsed.all["Interface"][0], parsed.all["Peer"][0]);
    }
  }

  /** A stored endpoint with a trailing dot passes the loader, but not the importer. */
  lemma TrailingDotIsNotCanonical()
    ensures ValidateEndpoint("h.") == Some("h")
  {
    var s := "h.";
    StripTrimmed(s);
    assert s[..1] == "h" && DropDots("h") == "h";
    FindNone("h", '.');
    PartsOf("h", '.', "");
  }
}
