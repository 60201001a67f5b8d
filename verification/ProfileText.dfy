/** Rendering the server's and a client's configuration, and importing a client profile. */
module ProfileText {
  import opened Common
  import opened Strings
  import opened ConfigText
  import opened ProfileDocument
  import Eligibility

  datatype Config = Config(
    serverAddress: string, listenPort: nat, mtu: nat, dns: seq<string>, endpoint: string, keepalive: nat,
    usePsk: bool, obfuscation: Obfuscation)

  /** How the libraries read addresses and numbers.

      `address` gives an address text its canonical spelling, `host` tells whether that is an IPv4 /32. */
  datatype Readers = Readers(
    address: string -> Option<string>, host: string -> bool, number: string -> Option<int>,
    dns: seq<string> -> Option<seq<string>>, derivePublic: string -> Option<string>)

  /** Canonical spellings are read as themselves and fit on a line; decimal numerals, as far as
      the managed numbers go, are read as their number. */
  ghost predicate Lawful(rd: Readers) {
    && (forall t :: AddressLaw(rd, t))
    && (forall n: nat | n <= 65535 :: rd.number(Show(n)) == Some(n))
  }

  predicate AddressLaw(rd: Readers, t: string) {
    rd.address(t).Some? ==> var c := rd.address(t).value; rd.address(c) == Some(c) && Clean(c)
  }

  // ----- Endpoints -----

  function DropDots(s: string): string {
    if s != "" && s[|s| - 1] == '.' then DropDots(s[..|s| - 1]) else s
  }

  predicate LabelChar(c: char) { 'a' <= c <= 'z' || 'A' <= c <= 'Z' || '0' <= c <= '9' || c == '-' }

  predicate Label(s: string) {
    1 <= |s| <= 63 && s[0] != '-' && s[|s| - 1] != '-' && forall i :: 0 <= i < |s| ==> LabelChar(s[i])
  }

  /** The text is a host name or an IPv4 address as it stands. */
  predicate HostName(v: string) {
    && v != "" && |v| <= 253
    && (forall i :: 0 <= i < |v| ==> v[i] != ':' && !Space(v[i]))
    && forall part <- Parts(v, '.') :: Label(part)
  }

  /** An endpoint with surrounding space and trailing dots taken off, if what is left is a host. */
  function ValidateEndpoint(value: string): Option<string> {
    var v := DropDots(Strip(value));
    if HostName(v) then Some(v) else None
  }

  // ----- Rendering -----

  const HOOK: string := "/opt/amneziawg/" + "libexec/awgctl-" + "internal" + " _firewall "

  function ServerPairs(config: Config, privateKey: string): Pairs
    requires Shaped(config.obfuscation)
  {
    [("Address", config.serverAddress), ("ListenPort", Show(config.listenPort)), ("PrivateKey", privateKey),
     ("MTU", Show(config.mtu))]
    + EffectiveObfuscation(config.obfuscation)
    + [("PostUp", HOOK + "up"), ("PostDown", HOOK + "down")]
  }

  predicate ClientName(s: string) {
    && 1 <= |s| <= 32 && LabelChar(s[0]) && s[0] != '-'
    && forall i :: 0 <= i < |s| ==> LabelChar(s[i]) || s[i] == '_'
  }

  datatype RenderError = InvalidKey | InvalidName | InvalidAddress | MissingPsk

  datatype Rendered = Rendered(lines: seq<Line>) | NotRendered(error: RenderError)

  function PeerPairs(config: Config, rd: Readers, c: Eligibility.Client): Pairs
    requires config.usePsk ==> c.psk.Some?
    requires rd.address(c.address).Some?
  {
    [("PublicKey", c.publicKey)] + (if config.usePsk then [("PresharedKey", c.psk.value)] else [])
    + [("AllowedIPs", rd.address(c.address).value)]
  }

  /** Why a peer cannot be written, in the order of the checks. */
  function PeerProblem(config: Config, rd: Readers, c: Eligibility.Client): Option<RenderError> {
    if !ClientName(c.name) then Some(InvalidName)
    else if !ValidKey(c.publicKey) then Some(InvalidKey)
    else if rd.address(c.address).None? || !rd.host(rd.address(c.address).value) then Some(InvalidAddress)
    else if config.usePsk && (c.psk.None? || c.psk.value == "") then Some(MissingPsk)
    else if config.usePsk && !ValidKey(c.psk.value) then Some(InvalidKey)
    else None
  }

  function PeerLines(config: Config, rd: Readers, c: Eligibility.Client): seq<Line>
    requires PeerProblem(config, rd, c).None?
  {
    [Blank, Header("Peer"), Comment(c.name)] + FieldsOf(PeerPairs(config, rd, c))
  }

  function PeersLines(config: Config, rd: Readers, peers: seq<Eligibility.Client>): Rendered {
    if peers == [] then Rendered([]) else
    var k := |peers| - 1;
    var before := PeersLines(config, rd, peers[..k]);
    if before.NotRendered? then before else
    var problem := PeerProblem(config, rd, peers[k]);
    if problem.Some? then NotRendered(problem.value)
    else Rendered(before.lines + PeerLines(config, rd, peers[k]))
  }

  function ServerLines(config: Config, rd: Readers, privateKey: string, peers: seq<Eligibility.Client>): Rendered
    requires Shaped(config.obfuscation)
  {
    if !ValidKey(privateKey) then NotRendered(InvalidKey) else
    var rest := PeersLines(config, rd, peers);
    if rest.NotRendered? then rest
    else Rendered([Header("Interface")] + FieldsOf(ServerPairs(config, privateKey)) + rest.lines)
  }

  method RenderServerConfig(config: Config, rd: Readers, privateKey: string, clients: seq<Eligibility.Client>, now: int)
    returns (r: Rendered)
    requires Shaped(config.obfuscation)
    ensures r == ServerLines(config, rd, privateKey, Eligibility.Peers(clients, now))
  {
    if !ValidKey(privateKey) { return NotRendered(InvalidKey); }
    var head := [Header("Interface")] + FieldsOf(ServerPairs(config, privateKey));
    var lines: seq<Line> := [];
    for i := 0 to |clients|
      invariant PeersLines(config, rd, Eligibility.Peers(clients[..i], now)) == Rendered(lines)
    {
      PeersStep(clients, now, i);
      if !Eligibility.Eligible(clients[i], now) { continue; }
      PeersLinesStep(config, rd, Eligibility.Peers(clients[..i], now), clients[i]);
      var problem := PeerProblem(config, rd, clients[i]);
      if problem.Some? {
        FirstProblemStays(config, rd, clients, now, i);
        return NotRendered(problem.value);
      }
      lines := lines + PeerLines(config, rd, clients[i]);
    }
    assert clients[..|clients|] == clients;
    r := Rendered(head + lines);
  }

  lemma PeersStep(clients: seq<Eligibility.Client>, now: int, i: nat)
    requires i < |clients|
    ensures var before := Eligibility.Peers(clients[..i], now);
      Eligibility.Peers(clients[..i + 1], now)
      == if Eligibility.Eligible(clients[i], now) then before + [clients[i]] else before
  {
    assert clients[..i + 1][..i] == clients[..i];
    assert Eligibility.Peers(clients[..i], now) + [] == Eligibility.Peers(clients[..i], now);
  }

  lemma PeersLinesStep(config: Config, rd: Readers, peers: seq<Eligibility.Client>, c: Eligibility.Client)
    ensures PeersLines(config, rd, peers + [c]) ==
      var before := PeersLines(config, rd, peers);
      if before.NotRendered? then before
      else if PeerProblem(config, rd, c).Some? then NotRendered(PeerProblem(config, rd, c).value)
      else Rendered(before.lines + PeerLines(config, rd, c))
  {
    assert (peers + [c])[..|peers|] == peers;
  }

  /** Later peers do not change the first problem. */
  lemma {:induction false} FirstProblemStays(config: Config, rd: Readers, clients: seq<Eligibility.Client>, now: int, i: nat)
    requires i < |clients| && PeersLines(config, rd, Eligibility.Peers(clients[..i + 1], now)).NotRendered?
    ensures PeersLines(config, rd, Eligibility.Peers(clients, now))
      == PeersLines(config, rd, Eligibility.Peers(clients[..i + 1], now))
    decreases |clients|
  {
    var k := |clients| - 1;
    if i == k {
      assert clients[..i + 1] == clients;
    } else {
      assert clients[..k][..i + 1] == clients[..i + 1];
      FirstProblemStays(config, rd, clients[..k], now, i);
      assert clients[..k + 1] == clients;
      PeersStep(clients, now, k);
      PeersLinesStep(config, rd, Eligibility.Peers(clients[..k], now), clients[k]);
    }
  }

  const IPV4_ROUTE: string := "0.0.0.0/0"
  const IPV6_ROUTE: string := "::/0"
  const ALL_ROUTES: string := IPV4_ROUTE + (", " + IPV6_ROUTE)

  function Joined(parts: seq<string>): string {
    if parts == [] then "" else if |parts| == 1 then parts[0] else parts[0] + ([','] + ([' '] + Joined(parts[1..])))
  }

  function ClientPairs(config: Config, privateKey: string, address: string): Pairs
    requires Shaped(config.obfuscation)
  {
    [("PrivateKey", privateKey), ("Address", address), ("DNS", Joined(config.dns)), ("MTU", Show(config.mtu))]
    + EffectiveObfuscation(config.obfuscation)
  }

  function ServerPeerPairs(config: Config, psk: Option<string>, serverPublic: string): Pairs
    requires config.usePsk ==> psk.Some?
  {
    [("PublicKey", serverPublic)] + (if config.usePsk then [("PresharedKey", psk.value)] else [])
    + [("Endpoint", config.endpoint + (":" + Show(config.listenPort))), ("AllowedIPs", ALL_ROUTES),
       ("PersistentKeepalive", Show(config.keepalive))]
  }

  function ClientLines(config: Config, rd: Readers, privateKey: string, psk: Option<string>, serverPublic: string,
      address: string): Rendered
    requires Shaped(config.obfuscation)
  {
    if !ValidKey(privateKey) || !ValidKey(serverPublic) then NotRendered(InvalidKey)
    else if config.usePsk && psk.None? then NotRendered(MissingPsk)
    else if config.usePsk && !ValidKey(psk.value) then NotRendered(InvalidKey)
    else if rd.address(address).None? then NotRendered(InvalidAddress)
    else Rendered(
      [Header("Interface")] + FieldsOf(ClientPairs(config, privateKey, rd.address(address).value))
      + ([Blank, Header("Peer")] + FieldsOf(ServerPeerPairs(config, psk, serverPublic))))
  }

  // ----- Importing -----

  datatype Import =
    | Imported(privateKey: string, publicKey: string, psk: Option<string>, address: string, profile: string)
    | Rejected
    | Crashed   // an exception the importer does not turn into a refusal

  function RFind(s: string, c: char): (r: Option<nat>)
    ensures r.Some? ==> r.value < |s| && s[r.value] == c
    decreases |s|
  {
    if s == "" then None else
    var k := |s| - 1;
    if s[k] == c then Some(k) else RFind(s[..k], c)
  }

  function WithoutBlanks(s: string): string {
    if s == "" then "" else (if s[0] == ' ' then "" else [s[0]]) + WithoutBlanks(s[1..])
  }

  function Get(m: Fields, key: string): string { if key in m then m[key] else "" }

  /** The keys a client profile may have. */
  function InterfaceKeys(obfuscation: Pairs): set<string> {
    {"PrivateKey", "Address", "DNS", "MTU"} + Dict(obfuscation).Keys
  }

  const PEER_KEYS: set<string> := {"PublicKey", "PresharedKey", "Endpoint", "AllowedIPs", "PersistentKeepalive"}

  /** The fields the importer needs before it compares anything. */
  predicate HasFields(interface_: Fields, peer: Fields, obfuscation: Pairs) {
    && "PrivateKey" in interface_ && "Address" in interface_ && "MTU" in interface_
    && (forall i :: 0 <= i < |obfuscation| ==> obfuscation[i].0 in interface_)
    && "PublicKey" in peer && "Endpoint" in peer && "PersistentKeepalive" in peer
  }

  /** Everything but the name servers reads as the managed state says. */
  predicate Agrees(config: Config, rd: Readers, interface_: Fields, peer: Fields, serverPublic: string)
    requires Shaped(config.obfuscation) && HasFields(interface_, peer, EffectiveObfuscation(config.obfuscation))
  {
    var obfuscation := EffectiveObfuscation(config.obfuscation);
    var colon := RFind(peer["Endpoint"], ':');
    && rd.number(interface_["MTU"]) == Some(config.mtu)
    && (forall i :: 0 <= i < |obfuscation| ==> interface_[obfuscation[i].0] == obfuscation[i].1)
    && peer["PublicKey"] == serverPublic
    && colon.Some?
    && ValidateEndpoint(peer["Endpoint"][..colon.value]) == Some(config.endpoint)
    && rd.number(peer["Endpoint"][colon.value + 1..]) == Some(config.listenPort)
    && rd.number(peer["PersistentKeepalive"]) == Some(config.keepalive)
    && WithoutBlanks(Get(peer, "AllowedIPs")) == IPV4_ROUTE + ("," + IPV6_ROUTE)
  }

  /** The values can be read at all. */
  predicate Readable(rd: Readers, interface_: Fields, peer: Fields)
    requires "PrivateKey" in interface_ && "Address" in interface_ && "MTU" in interface_
    requires "PublicKey" in peer && "Endpoint" in peer && "PersistentKeepalive" in peer
  {
    var colon := RFind(peer["Endpoint"], ':');
    && ValidKey(interface_["PrivateKey"]) && rd.address(interface_["Address"]).Some? && rd.number(interface_["MTU"]).Some?
    && ValidKey(peer["PublicKey"]) && colon.Some?
    && rd.number(peer["Endpoint"][colon.value + 1..]).Some? && rd.number(peer["PersistentKeepalive"]).Some?
  }

  function ImportProfile(text: string, config: Config, rd: Readers, serverPublic: string): Import
    requires Shaped(config.obfuscation)
  {
    var parsed := Parse(text);
    if parsed.Bad? then Rejected
    else if exists name <- parsed.all :: name != "Interface" && name != "Peer" then Rejected
    else if "Interface" !in parsed.all || "Peer" !in parsed.all then Rejected
    else if |parsed.all["Interface"]| != 1 || |parsed.all["Peer"]| != 1 then Rejected
    else ImportFields(parsed.all["Interface"][0], parsed.all["Peer"][0], config, rd, serverPublic)
  }

  function ImportFields(interface_: Fields, peer: Fields, config: Config, rd: Readers, serverPublic: string): Import
    requires Shaped(config.obfuscation)
  {
    var obfuscation := EffectiveObfuscation(config.obfuscation);
    if !(interface_.Keys <= InterfaceKeys(obfuscation)) || !(peer.Keys <= PEER_KEYS) then Rejected
    else if !HasFields(interface_, peer, obfuscation) || !Readable(rd, interface_, peer) then Rejected
    else if !rd.host(rd.address(interface_["Address"]).value) then Rejected
    else if "DNS" !in interface_ then Crashed
    else if rd.dns(Map(Parts(interface_["DNS"], ','), Strip)) != Some(config.dns) then Rejected
    else if !Agrees(config, rd, interface_, peer, serverPublic) then Rejected
    else
      var pskText := Get(peer, "PresharedKey");
      if pskText != "" && !ValidKey(pskText) then Rejected
      else if (pskText != "") != config.usePsk then Rejected
      else Reissue(config, rd, interface_["PrivateKey"], if pskText == "" then None else Some(pskText),
                   peer["PublicKey"], rd.address(interface_["Address"]).value)
  }

  /** The profile in canonical form, for the keys and address that were read. */
  function Reissue(config: Config, rd: Readers, privateKey: string, psk: Option<string>, serverPublic: string, address: string): Import
    requires Shaped(config.obfuscation)
  {
    var publicKey := rd.derivePublic(privateKey);
    if publicKey.None? || !ValidKey(publicKey.value) then Rejected else
    var lines := ClientLines(config, rd, privateKey, psk, serverPublic, address);
    if lines.NotRendered? then Rejected
    else Imported(privateKey, publicKey.value, psk, address, Render(lines.lines))
  }
}
