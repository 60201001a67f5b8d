/** Which clients the server serves at an instant, and the window an activation needs.

    Instants are whole seconds; an expiry date stands for its first instant in UTC. */
module Eligibility {
  import opened Common

  datatype Client = Client(
    name: string, publicKey: string, psk: Option<string>, address: string,
    managed: bool, status: string, expiry: Option<int>)

  /** The stored status, except that an active client whose expiry has come is expired. */
  function EffectiveStatus(c: Client, now: int): string {
    if c.status != "active" then c.status
    else if c.expiry.None? then "active"
    else if now >= c.expiry.value then "expired" else "active"
  }

  predicate Eligible(c: Client, now: int) { EffectiveStatus(c, now) == "active" }

  /** The peers a rendered server configuration lists, in order. */
  function Peers(clients: seq<Client>, now: int): seq<Client> {
    if clients == [] then [] else
    var last := clients[|clients| - 1];
    Peers(clients[..|clients| - 1], now) + if Eligible(last, now) then [last] else []
  }

  ghost predicate FirstNamed(clients: seq<Client>, name: string, c: Client) {
    exists i :: 0 <= i < |clients| && clients[i] == c && c.name == name && forall k :: 0 <= k < i ==> clients[k].name != name
  }

  datatype PrepareError = UnknownClient | NotEligible | ExternalPeers | NoManagedClients

  /** A managed target that is served now, and no peer served now that is not managed. */
  method PrepareTransitionClients(clients: seq<Client>, name: string, now: int)
    returns (error: Option<PrepareError>, target: Option<Client>)
    ensures error.None? ==> target.Some? && FirstNamed(clients, name, target.value)
    ensures error.None? <==>
      && (exists c <- clients :: FirstNamed(clients, name, c) && c.managed && Eligible(c, now))
      && (forall peer <- Peers(clients, now) :: peer.managed)
    ensures error == Some(UnknownClient) <==> !exists c <- clients :: FirstNamed(clients, name, c) && c.managed
    ensures error == Some(ExternalPeers) ==> exists peer <- Peers(clients, now) :: !peer.managed
    ensures error != Some(NoManagedClients)
  {
    target := None;
    for i := 0 to |clients|
      invariant target.None? && forall k :: 0 <= k < i ==> clients[k].name != name
    {
      if clients[i].name == name {
        target := Some(clients[i]);
        break;
      }
    }
    assert target.Some? ==> FirstNamed(clients, name, target.value);
    if target.None? || !target.value.managed { return Some(UnknownClient), None; }
    if !Eligible(target.value, now) { return Some(NotEligible), None; }
    if exists c <- Peers(clients, now) :: !c.managed { return Some(ExternalPeers), None; }
    if !exists c <- clients :: c.managed { return Some(NoManagedClients), None; }
    error := None;
  }

  datatype WindowError = InvalidWindow | CrossedExpiry(index: nat) | ExpiresTooSoon(index: nat)

  /** The client, if the server holds or will hold it, outlives the deadline. */
  function WindowProblem(c: Client, index: nat, now: int, deadline: int, installed: Option<set<string>>): Option<WindowError> {
    if !c.managed || c.expiry.None? then None else
    var held := installed.Some? && c.publicKey in installed.value;
    if !Eligible(c, now) && !held then None
    else if held && c.expiry.value <= now then Some(CrossedExpiry(index))
    else if c.expiry.value <= deadline then Some(ExpiresTooSoon(index))
    else None
  }

  /** What the window check accepts. */
  predicate WindowOpen(clients: seq<Client>, now: int, deadline: int, installed: Option<set<string>>) {
    now < deadline && forall i :: 0 <= i < |clients| ==> WindowProblem(clients[i], i, now, deadline, installed).None?
  }

  method EnsureActivationWindow(clients: seq<Client>, now: int, deadline: int, installed: Option<set<string>>)
    returns (error: Option<WindowError>)
    ensures error.None? <==> WindowOpen(clients, now, deadline, installed)
    ensures error == Some(InvalidWindow) <==> deadline <= now
    ensures error.Some? && error.value != InvalidWindow ==>
      var i := error.value.index;
      && i < |clients| && WindowProblem(clients[i], i, now, deadline, installed) == error
      && forall k :: 0 <= k < i ==> WindowProblem(clients[k], k, now, deadline, installed).None?
  {
    if deadline <= now { return Some(InvalidWindow); }
    for i := 0 to |clients|
      invariant forall k :: 0 <= k < i ==> WindowProblem(clients[k], k, now, deadline, installed).None?
    {
      var c := clients[i];
      if !c.managed || c.expiry.None? { continue; }
      var expiry := c.expiry.value;
      var held := installed.Some? && c.publicKey in installed.value;
      if !Eligible(c, now) && !held { continue; }
      if held && expiry <= now { return Some(CrossedExpiry(i)); }
      if expiry <= deadline { return Some(ExpiresTooSoon(i)); }
    }
    error := None;
  }

  // ----- Time only takes clients away -----

  lemma {:induction false} PeersAre(clients: seq<Client>, now: int)
    ensures forall c :: c in Peers(clients, now) <==> c in clients && Eligible(c, now)
    decreases |clients|
  {
    if clients != [] {
      var m := |clients| - 1;
      PeersAre(clients[..m], now);
      assert clients == clients[..m] + [clients[m]];
    }
  }

  /** Fewer peers later; as many only if they are the same. */
  lemma {:induction false} PeersShrink(clients: seq<Client>, now: int, later: int)
    requires now <= later
    ensures |Peers(clients, later)| <= |Peers(clients, now)|
    ensures |Peers(clients, later)| == |Peers(clients, now)| ==> Peers(clients, later) == Peers(clients, now)
    ensures Peers(clients, later) == Peers(clients, now)
      <==> forall c <- clients :: Eligible(c, now) ==> Eligible(c, later)
    decreases |clients|
  {
    if clients != [] {
      var m := |clients| - 1;
      PeersShrink(clients[..m], now, later);
      assert clients == clients[..m] + [clients[m]];
    }
  }

  /** After the activation checks, every instant up to the deadline has the peers of the activation. */
  lemma WindowKeepsPeers(clients: seq<Client>, now: int, deadline: int, installed: Option<set<string>>, instant: int)
    requires WindowOpen(clients, now, deadline, installed) && now <= instant <= deadline
    requires forall c <- Peers(clients, now) :: c.managed
    ensures Peers(clients, instant) == Peers(clients, now)
  {
    PeersAre(clients, now);
    forall c <- clients | Eligible(c, now) ensures Eligible(c, instant) {
      var i :| 0 <= i < |clients| && clients[i] == c;
      assert WindowProblem(clients[i], i, now, deadline, installed).None?;
    }
    PeersShrink(clients, now, instant);
  }

  /** Where all peers are managed, the check accepts exactly the windows at whose end the peers are still the same. */
  lemma WindowOpenExactlyWhen(clients: seq<Client>, now: int, deadline: int)
    requires forall c <- Peers(clients, now) :: c.managed
    ensures WindowOpen(clients, now, deadline, None) <==> now < deadline && Peers(clients, deadline) == Peers(clients, now)
  {
    if WindowOpen(clients, now, deadline, None) {
      WindowKeepsPeers(clients, now, deadline, None, deadline);
    } else if now < deadline {
      PeersAre(clients, now);
      PeersShrink(clients, now, deadline);
      var i :| 0 <= i < |clients| && WindowProblem(clients[i], i, now, deadline, None).Some?;
      assert clients[i] in clients;
    }
  }

  /** The requirement that all peers be managed is needed: the window check looks at no others. */
  lemma ExternalPeerMayLapse(now: int)
    ensures var external := Client("x", "k", None, "10.0.0.2/32", false, "active", Some(now + 1));
      WindowOpen([external], now, now + 600, None) && Peers([external], now) != Peers([external], now + 1)
  {
    var external := Client("x", "k", None, "10.0.0.2/32", false, "active", Some(now + 1));
    assert Peers([external], now)[0] == external;
    assert Peers([external], now + 1) == [];
  }
}
