/** Planning the staging account, the groups and the operators' memberships. */
module Identity {
  import opened Common

  const NOLOGIN: string := "/usr/sbin/nologin"

  datatype User = User(uid: nat, gid: nat, home: string, shell: string)

  datatype GroupRecord = GroupRecord(gid: nat, members: set<string>)

  datatype Settings = Settings(
    stagingUser: string, stagingGroup: string, stagingUid: Option<nat>, stagingGid: Option<nat>,
    stagingRoot: string, operatorGroup: string, operators: seq<string>)

  /** What the settings loader guarantees. */
  predicate Valid(s: Settings) {
    && s.operatorGroup != s.stagingGroup && s.operatorGroup != s.stagingUser
    && Distinct(s.operators)
  }

  datatype Snapshot = Snapshot(
    users: map<string, User>, groups: map<string, GroupRecord>, lockedUsers: set<string>,
    supplementary: map<string, set<string>>)

  datatype Command =
    | GroupAdd(group: string, gid: Option<nat>)
    | UserAdd(user: string, primary: string, home: string, shell: string, uid: Option<nat>)
    | AddMember(user: string, group: string)
    | RemoveMember(user: string, group: string)
    | UserDelete(user: string)
    | GroupDelete(group: string)

  datatype Plan = Plan(
    commands: seq<Command>, createdUsers: seq<string>, createdGroups: seq<string>,
    memberships: seq<(string, string)>)

  datatype Problem = ExistingIdentities | StagingMismatch | UndeclaredMembers | MissingOperator

  datatype Result = Planned(plan: Plan) | Refused(problem: Problem)

  /** All accounts a group authorises, those that have it as their primary group included. */
  function EffectiveGroupMembers(gid: nat, listed: set<string>, accounts: map<string, User>): set<string> {
    listed + set name | name in accounts && accounts[name].gid == gid
  }

  /** The existing staging identity is the one the settings ask for. */
  predicate StagingMatches(s: Settings, snap: Snapshot) {
    && s.stagingUser in snap.users && s.stagingGroup in snap.groups
    && var user, group := snap.users[s.stagingUser], snap.groups[s.stagingGroup];
    && user.gid == group.gid
    && (s.stagingUid.Some? ==> user.uid == s.stagingUid.value)
    && (s.stagingGid.Some? ==> group.gid == s.stagingGid.value)
    && user.home == s.stagingRoot && user.shell == NOLOGIN
    && s.stagingUser in snap.lockedUsers
    && (s.stagingUser in snap.supplementary ==> snap.supplementary[s.stagingUser] == {})
  }

  predicate StagingExists(s: Settings, snap: Snapshot) {
    s.stagingUser in snap.users || s.stagingGroup in snap.groups
  }

  function ExistingMembers(s: Settings, snap: Snapshot): set<string> {
    if s.operatorGroup in snap.groups then snap.groups[s.operatorGroup].members else {}
  }

  /** The operators that are not members yet, in order. */
  function Missing(operators: seq<string>, existing: set<string>): seq<string> {
    if operators == [] then [] else
    var last := operators[|operators| - 1];
    Missing(operators[..|operators| - 1], existing) + if last in existing then [] else [last]
  }

  function Creations(s: Settings, snap: Snapshot): seq<Command> {
    (if StagingExists(s, snap) then []
     else [GroupAdd(s.stagingGroup, s.stagingGid), UserAdd(s.stagingUser, s.stagingGroup, s.stagingRoot, NOLOGIN, s.stagingUid)])
    + if s.operatorGroup in snap.groups then [] else [GroupAdd(s.operatorGroup, None)]
  }

  function Additions(names: seq<string>, group: string): (cs: seq<Command>)
    ensures |cs| == |names| && forall i :: 0 <= i < |names| ==> cs[i] == AddMember(names[i], group)
  {
    seq(|names|, i requires 0 <= i < |names| => AddMember(names[i], group))
  }

  function Memberships(names: seq<string>, group: string): (ms: seq<(string, string)>)
    ensures |ms| == |names| && forall i :: 0 <= i < |names| ==> ms[i] == (names[i], group)
  {
    seq(|names|, i requires 0 <= i < |names| => (names[i], group))
  }

  lemma OneMoreMember(names: seq<string>, name: string, group: string)
    ensures Additions(names + [name], group) == Additions(names, group) + [AddMember(name, group)]
    ensures Memberships(names + [name], group) == Memberships(names, group) + [(name, group)]
  {
  }

  function PlanFor(s: Settings, snap: Snapshot): Plan {
    var missing := Missing(s.operators, ExistingMembers(s, snap));
    var staging := StagingExists(s, snap);
    var operators := s.operatorGroup in snap.groups;
    Plan(Creations(s, snap) + Additions(missing, s.operatorGroup),
         if staging then [] else [s.stagingUser],
         (if staging then [] else [s.stagingGroup]) + if operators then [] else [s.operatorGroup],
         Memberships(missing, s.operatorGroup))
  }

  function PlanOf(s: Settings, snap: Snapshot, allowExisting: bool): Result {
    if (StagingExists(s, snap) || s.operatorGroup in snap.groups) && !allowExisting then Refused(ExistingIdentities)
    else if StagingExists(s, snap) && !StagingMatches(s, snap) then Refused(StagingMismatch)
    else if exists name <- ExistingMembers(s, snap) :: name !in s.operators then Refused(UndeclaredMembers)
    else if exists operator <- s.operators :: operator !in snap.users then Refused(MissingOperator)
    else Planned(PlanFor(s, snap))
  }

  /** The loop over the operators. */
  method PlanMemberships(operators: seq<string>, existing: set<string>, users: map<string, User>, group: string)
    returns (ok: bool, commands: seq<Command>, memberships: seq<(string, string)>)
    ensures ok <==> forall operator <- operators :: operator in users
    ensures ok ==> commands == Additions(Missing(operators, existing), group)
    ensures ok ==> memberships == Memberships(Missing(operators, existing), group)
  {
    ok, commands, memberships := true, [], [];
    for i := 0 to |operators|
      invariant ok && forall k :: 0 <= k < i ==> operators[k] in users
      invariant commands == Additions(Missing(operators[..i], existing), group)
      invariant memberships == Memberships(Missing(operators[..i], existing), group)
    {
      var operator := operators[i];
      if operator !in users {
        assert operator in operators;
        ok := false;
        return;
      }
      assert operators[..i + 1][..i] == operators[..i];
      if operator !in existing {
        OneMoreMember(Missing(operators[..i], existing), operator, group);
        commands := commands + [AddMember(operator, group)];
        memberships := memberships + [(operator, group)];
      }
    }
    assert operators[..|operators|] == operators;
  }

  method BuildIdentityPlan(s: Settings, snap: Snapshot, allowExisting: bool) returns (r: Result)
    ensures r == PlanOf(s, snap, allowExisting)
  {
    var commands: seq<Command> := [];
    var createdUsers: seq<string> := [];
    var createdGroups: seq<string> := [];
    var stagingExists := s.stagingUser in snap.users || s.stagingGroup in snap.groups;
    var operatorGroupExists := s.operatorGroup in snap.groups;
    if (stagingExists || operatorGroupExists) && !allowExisting {
      return Refused(ExistingIdentities);
    }
    if stagingExists {
      if !StagingMatches(s, snap) { return Refused(StagingMismatch); }
    } else {
      commands := commands + [GroupAdd(s.stagingGroup, s.stagingGid)];
      createdGroups := createdGroups + [s.stagingGroup];
      commands := commands + [UserAdd(s.stagingUser, s.stagingGroup, s.stagingRoot, NOLOGIN, s.stagingUid)];
      createdUsers := createdUsers + [s.stagingUser];
    }
    if !operatorGroupExists {
      commands := commands + [GroupAdd(s.operatorGroup, None)];
      createdGroups := createdGroups + [s.operatorGroup];
    }
    assert commands == Creations(s, snap);
    var existing := if operatorGroupExists then snap.groups[s.operatorGroup].members else {};
    if exists name <- existing :: name !in s.operators { return Refused(UndeclaredMembers); }
    var ok, additions, memberships := PlanMemberships(s.operators, existing, snap.users, s.operatorGroup);
    if !ok { return Refused(MissingOperator); }
    r := Planned(Plan(commands + additions, createdUsers, createdGroups, memberships));
  }

  /** No name twice. */
  predicate Distinct(names: seq<string>) {
    forall i, j :: 0 <= i < j < |names| ==> names[i] != names[j]
  }

  lemma {:induction false} MissingMembers(operators: seq<string>, existing: set<string>)
    ensures forall name :: name in Missing(operators, existing) <==> name in operators && name !in existing
    decreases |operators|
  {
    if operators != [] {
      var n := |operators| - 1;
      MissingMembers(operators[..n], existing);
      assert operators == operators[..n] + [operators[n]];
    }
  }

  lemma {:induction false} MissingDistinct(operators: seq<string>, existing: set<string>)
    requires Distinct(operators)
    ensures Distinct(Missing(operators, existing))
    decreases |operators|
  {
    if operators != [] {
      var n := |operators| - 1;
      MissingDistinct(operators[..n], existing);
      MissingMembers(operators[..n], existing);
      assert forall name <- Missing(operators[..n], existing) :: name in operators[..n];
    }
  }
}
