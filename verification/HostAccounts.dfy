/** Carrying out an identity plan on the host's accounts, and taking it back. */
module HostAccounts {
  import opened Common
  import opened Identity

  datatype Group = Group(gid: nat, listed: set<string>)

  datatype Account = Account(record: User, locked: bool)

  datatype Host = Host(accounts: map<string, Account>, groups: map<string, Group>)

  function Users(host: Host): map<string, User> {
    map name | name in host.accounts :: host.accounts[name].record
  }

  /** The accounts whose primary group has this number. */
  function Primary(host: Host, gid: nat): set<string> {
    set name | name in host.accounts && host.accounts[name].record.gid == gid
  }

  function SnapshotOf(host: Host, s: Settings): Snapshot {
    var names := {s.stagingUser} + set name | name in s.operators;
    var users := map name | name in host.accounts && name in names :: host.accounts[name].record;
    var groups := map g | g in host.groups && (g == s.stagingGroup || g == s.operatorGroup) ::
      GroupRecord(host.groups[g].gid, EffectiveGroupMembers(host.groups[g].gid, host.groups[g].listed, Users(host)));
    var staging := s.stagingUser in host.accounts;
    Snapshot(users, groups,
             if staging && host.accounts[s.stagingUser].locked then {s.stagingUser} else {},
             if staging then map[s.stagingUser := ListedElsewhere(host, s.stagingUser, host.accounts[s.stagingUser].record.gid)]
             else map[])
  }

  /** Whoever the host authorises through the operator group, as a listed member or by primary
      group: an accepted plan authorises nobody but the declared operators, and it has nothing
      left to do if and only if the staging identity exists and exactly they are authorised. */
  lemma PlanAuthorisesExactlyTheOperators(host: Host, s: Settings, allowExisting: bool)
    requires PlanOf(s, SnapshotOf(host, s), allowExisting).Planned?
    ensures s.operatorGroup in host.groups ==>
              forall name :: name in host.groups[s.operatorGroup].listed || name in Primary(host, host.groups[s.operatorGroup].gid)
                ==> name in s.operators
    ensures PlanOf(s, SnapshotOf(host, s), allowExisting).plan.commands == [] <==>
            && StagingExists(s, SnapshotOf(host, s)) && s.operatorGroup in host.groups
            && (set name | name in s.operators)
               == host.groups[s.operatorGroup].listed + Primary(host, host.groups[s.operatorGroup].gid)
  {
    var snap := SnapshotOf(host, s);
    var existing := ExistingMembers(s, snap);
    if s.operatorGroup in host.groups {
      assert existing == host.groups[s.operatorGroup].listed + Primary(host, host.groups[s.operatorGroup].gid);
    }
    MissingMembers(s.operators, existing);
    assert Missing(s.operators, existing) == [] <==> forall name <- s.operators :: name in existing by {
      if Missing(s.operators, existing) != [] { assert Missing(s.operators, existing)[0] in Missing(s.operators, existing); }
    }
  }

  /** The groups that list the account, other than those with this number. */
  function ListedElsewhere(host: Host, name: string, gid: nat): set<string> {
    set g | g in host.groups && name in host.groups[g].listed && host.groups[g].gid != gid
  }

  // ----- What each command does, where it can be done -----

  predicate GidTaken(host: Host, gid: nat) {
    exists g <- host.groups :: host.groups[g].gid == gid
  }

  predicate UidTaken(host: Host, uid: nat) {
    exists name <- host.accounts :: host.accounts[name].record.uid == uid
  }

  function Unlisted(groups: map<string, Group>, name: string): map<string, Group> {
    map g | g in groups :: groups[g].(listed := groups[g].listed - {name})
  }

  /** `id` is the number the system would pick for a new account or group. */
  function Effect(host: Host, c: Command, id: nat): Option<Host> {
    match c
    case GroupAdd(g, gid) =>
      var n := if gid.Some? then gid.value else id;
      if g in host.groups || GidTaken(host, n) then None
      else Some(host.(groups := host.groups[g := Group(n, {})]))
    case UserAdd(u, primary, home, shell, uid) =>
      var n := if uid.Some? then uid.value else id;
      if u in host.accounts || primary !in host.groups || UidTaken(host, n) then None
      else Some(host.(accounts := host.accounts[u := Account(User(n, host.groups[primary].gid, home, shell), true)]))
    case AddMember(u, g) =>
      if u !in host.accounts || g !in host.groups then None
      else Some(host.(groups := host.groups[g := host.groups[g].(listed := host.groups[g].listed + {u})]))
    case RemoveMember(u, g) =>
      if g !in host.groups || u !in host.groups[g].listed then None
      else Some(host.(groups := host.groups[g := host.groups[g].(listed := host.groups[g].listed - {u})]))
    case UserDelete(u) =>
      if u !in host.accounts then None
      else Some(Host(host.accounts - {u}, Unlisted(host.groups, u)))
    case GroupDelete(g) =>
      if g !in host.groups || Primary(host, host.groups[g].gid) != {} then None
      else Some(host.(groups := host.groups - {g}))
  }

  /** All commands in order, if each can be done. */
  function RunAll(host: Host, cs: seq<Command>, ids: seq<nat>): Option<Host>
    requires |ids| == |cs|
  {
    if cs == [] then Some(host) else
    var m := |cs| - 1;
    var before := RunAll(host, cs[..m], ids[..m]);
    if before.None? then None else Effect(before.value, cs[m], ids[m])
  }

  function Next<S, C>(attempt: (S, C) -> Option<S>, state: S, c: C): S {
    var next := attempt(state, c);
    if next.Some? then next.value else state
  }

  /** The state after every command in order, those that fail being passed over. */
  function AfterAll<S, C>(attempt: (S, C) -> Option<S>, state: S, cs: seq<C>): S
    decreases |cs|
  {
    if cs == [] then state else AfterAll(attempt, Next(attempt, state, cs[0]), cs[1..])
  }

  /** The commands that fail. */
  function Failing<S, C>(attempt: (S, C) -> Option<S>, state: S, cs: seq<C>): seq<C>
    decreases |cs|
  {
    if cs == [] then [] else
    (if attempt(state, cs[0]).Some? then [] else [cs[0]]) + Failing(attempt, Next(attempt, state, cs[0]), cs[1..])
  }

  function UndoStep(host: Host, c: Command): Option<Host> { Effect(host, c, 0) }

  /** Undoing goes through all commands and lists those that fail. */
  ghost predicate Undoes(host: Host, cs: seq<Command>, after: Host, errors: seq<Command>) {
    AfterAll(UndoStep, host, cs) == after && Failing(UndoStep, host, cs) == errors
  }

  function Reversed<T>(xs: seq<T>): (r: seq<T>)
    ensures |r| == |xs| && forall i :: 0 <= i < |xs| ==> r[i] == xs[|xs| - 1 - i]
  {
    if xs == [] then [] else [xs[|xs| - 1]] + Reversed(xs[..|xs| - 1])
  }

  function RemovalsOf(ms: seq<(string, string)>): (cs: seq<Command>)
    ensures |cs| == |ms| && forall i :: 0 <= i < |ms| ==> cs[i] == RemoveMember(ms[i].0, ms[i].1)
  {
    seq(|ms|, i requires 0 <= i < |ms| => RemoveMember(ms[i].0, ms[i].1))
  }

  function DeletionsOf(users: seq<string>): (cs: seq<Command>)
    ensures |cs| == |users| && forall i :: 0 <= i < |users| ==> cs[i] == UserDelete(users[i])
  {
    seq(|users|, i requires 0 <= i < |users| => UserDelete(users[i]))
  }

  function GroupDeletionsOf(groups: seq<string>): (cs: seq<Command>)
    ensures |cs| == |groups| && forall i :: 0 <= i < |groups| ==> cs[i] == GroupDelete(groups[i])
  {
    seq(|groups|, i requires 0 <= i < |groups| => GroupDelete(groups[i]))
  }

  function UndoOf(p: Plan): seq<Command> {
    RemovalsOf(Reversed(p.memberships)) + DeletionsOf(Reversed(p.createdUsers)) + GroupDeletionsOf(Reversed(p.createdGroups))
  }

  lemma {:induction false} AfterAppend<S, C>(attempt: (S, C) -> Option<S>, state: S, a: seq<C>, b: seq<C>)
    ensures AfterAll(attempt, state, a + b) == AfterAll(attempt, AfterAll(attempt, state, a), b)
    decreases |a|
  {
    if a == [] {
      assert a + b == b;
    } else {
      AfterAppend(attempt, Next(attempt, state, a[0]), a[1..], b);
      assert (a + b)[1..] == a[1..] + b;
    }
  }

  lemma {:induction false} FailingAppend<S, C>(attempt: (S, C) -> Option<S>, state: S, a: seq<C>, b: seq<C>)
    ensures Failing(attempt, state, a + b) == Failing(attempt, state, a) + Failing(attempt, AfterAll(attempt, state, a), b)
    decreases |a|
  {
    if a == [] {
      assert a + b == b;
    } else {
      var next, rest := Next(attempt, state, a[0]), a[1..];
      FailingAppend(attempt, next, rest, b);
      assert (a + b)[1..] == rest + b;
      Associate(if attempt(state, a[0]).Some? then [] else [a[0]],
                Failing(attempt, next, rest), Failing(attempt, AfterAll(attempt, next, rest), b));
    }
  }

  lemma UndoesCons(host: Host, c: Command, cs: seq<Command>, after: Host, errors: seq<Command>)
    requires Undoes(Next(UndoStep, host, c), cs, after, errors)
    ensures Undoes(host, [c] + cs, after, (if UndoStep(host, c).Some? then [] else [c]) + errors)
  {
    assert ([c] + cs)[1..] == cs;
  }

  lemma UndoesAppend(host: Host, a: seq<Command>, b: seq<Command>, mid: Host, after: Host, e: seq<Command>, f: seq<Command>)
    requires Undoes(host, a, mid, e) && Undoes(mid, b, after, f)
    ensures Undoes(host, a + b, after, e + f)
  {
    AfterAppend(UndoStep, host, a, b);
    FailingAppend(UndoStep, host, a, b);
  }

  // ----- Memberships -----

  /** The host with these names added to a group's list. */
  function WithMembers(host: Host, g: string, names: set<string>): Host
    requires g in host.groups
  {
    host.(groups := host.groups[g := host.groups[g].(listed := host.groups[g].listed + names)])
  }

  function SetOf(names: seq<string>): set<string> { set name | name in names }

  lemma OneAdded(host: Host, g: string, names: set<string>, name: string, id: nat)
    requires g in host.groups && name in host.accounts
    ensures Effect(WithMembers(host, g, names), AddMember(name, g), id) == Some(WithMembers(host, g, names + {name}))
  {
    var listed := host.groups[g].listed;
    assert listed + names + {name} == listed + (names + {name});
    var now := WithMembers(host, g, names);
    assert now.groups[g := Group(host.groups[g].gid, listed + names + {name})]
        == WithMembers(host, g, names + {name}).groups;
  }

  lemma OneRemoved(host: Host, g: string, names: set<string>, name: string)
    requires g in host.groups && name !in host.groups[g].listed
    ensures UndoStep(WithMembers(host, g, names), RemoveMember(name, g))
      == if name in names then Some(WithMembers(host, g, names - {name})) else None
  {
    var listed := host.groups[g].listed;
    assert listed + names - {name} == listed + (names - {name});
    var now := WithMembers(host, g, names);
    assert now.groups[g := Group(host.groups[g].gid, listed + names - {name})]
        == WithMembers(host, g, names - {name}).groups;
  }

  lemma NoneAdded(host: Host, g: string)
    requires g in host.groups
    ensures WithMembers(host, g, {}) == host
  {
    assert host.groups[g].listed + {} == host.groups[g].listed;
  }

  lemma {:induction false} MembersAdded(host: Host, g: string, names: seq<string>, ids: seq<nat>)
    requires |ids| == |names| && g in host.groups && (forall name <- names :: name in host.accounts)
    ensures RunAll(host, Additions(names, g), ids) == Some(WithMembers(host, g, SetOf(names)))
    decreases |names|
  {
    if names == [] {
      NoneAdded(host, g);
      assert SetOf(names) == {};
    } else {
      var m := |names| - 1;
      var init := names[..m];
      assert forall name <- init :: name in names;
      MembersAdded(host, g, init, ids[..m]);
      assert Additions(names, g)[..m] == Additions(init, g);
      assert SetOf(names) == SetOf(init) + {names[m]};
      OneAdded(host, g, SetOf(init), names[m], ids[m]);
    }
  }

  function Removals(names: seq<string>, g: string): seq<Command> {
    RemovalsOf(Reversed(Memberships(names, g)))
  }

  lemma RemovalsSplit(names: seq<string>, g: string)
    requires names != []
    ensures Removals(names, g) == [RemoveMember(names[|names| - 1], g)] + Removals(names[..|names| - 1], g)
  {
    var ms := Memberships(names, g);
    assert ms[..|ms| - 1] == Memberships(names[..|names| - 1], g);
  }

  /** Removing all names in reverse takes back the first `j` of them; the others were not there. */
  lemma {:induction false} MembersRemoved(host: Host, g: string, names: seq<string>, j: nat)
    requires g in host.groups && j <= |names| && Distinct(names)
    requires forall name <- names :: name !in host.groups[g].listed
    ensures Undoes(WithMembers(host, g, SetOf(names[..j])), Removals(names, g), host, Removals(names[j..], g))
    decreases |names|
  {
    hide Undoes, Removals, WithMembers;
    if names == [] {
      NoneRemoved(host, g, names, j);
    } else {
      var m := |names| - 1;
      var init, last := names[..m], names[m];
      assert Distinct(init) && last in names && forall name <- init :: name in names;
      if j == |names| {
        MembersRemoved(host, g, init, m);
        LastRemoved(names);
        PresentRemoved(host, g, names);
      } else {
        MembersRemoved(host, g, init, j);
        AbsentKept(host, g, names, j);
      }
    }
  }

  lemma NoneRemoved(host: Host, g: string, names: seq<string>, j: nat)
    requires g in host.groups && names == [] && j == 0
    ensures Undoes(WithMembers(host, g, SetOf(names[..j])), Removals(names, g), host, Removals(names[j..], g))
  {
    NoneAdded(host, g);
    assert SetOf(names[..j]) == {};
  }

  lemma PresentRemoved(host: Host, g: string, names: seq<string>)
    requires g in host.groups && names != [] && Distinct(names)
    requires var m := |names| - 1;
      && names[m] !in host.groups[g].listed
      && Undoes(WithMembers(host, g, SetOf(names[..m][..m])), Removals(names[..m], g), host, Removals(names[..m][m..], g))
    ensures Undoes(WithMembers(host, g, SetOf(names[..|names|])), Removals(names, g), host, Removals(names[|names|..], g))
  {
    var m := |names| - 1;
    var now := WithMembers(host, g, SetOf(names[..|names|]));
    LastRemoved(names);
    RemovalsSplit(names, g);
    assert names[m] in names[..|names|];
    OneRemoved(host, g, SetOf(names[..|names|]), names[m]);
    UndoesCons(now, RemoveMember(names[m], g), Removals(names[..m], g), host, Removals(names[..m][m..], g));
  }

  lemma AbsentKept(host: Host, g: string, names: seq<string>, j: nat)
    requires g in host.groups && j < |names| && Distinct(names) && names[|names| - 1] !in host.groups[g].listed
    requires var init := names[..|names| - 1];
      Undoes(WithMembers(host, g, SetOf(init[..j])), Removals(init, g), host, Removals(init[j..], g))
    ensures Undoes(WithMembers(host, g, SetOf(names[..j])), Removals(names, g), host, Removals(names[j..], g))
  {
    hide Undoes, Removals, WithMembers;
    var m := |names| - 1;
    var init := names[..m];
    assert init[..j] == names[..j];
    LastNotAmong(names, j);
    RemovalsSplit(names, g);
    RemovalsSplit(names[j..], g);
    assert names[j..][..|names[j..]| - 1] == init[j..];
    OneRemoved(host, g, SetOf(names[..j]), names[m]);
    UndoesCons(WithMembers(host, g, SetOf(names[..j])), RemoveMember(names[m], g), Removals(init, g), host, Removals(init[j..], g));
  }

  lemma LastNotAmong(names: seq<string>, j: nat)
    requires j < |names| && Distinct(names)
    ensures names[|names| - 1] !in SetOf(names[..j])
  {
  }

  lemma LastRemoved(names: seq<string>)
    requires names != [] && Distinct(names)
    ensures var m := |names| - 1;
      SetOf(names[..|names|]) - {names[m]} == SetOf(names[..m][..m]) && names[|names|..] == [] == names[..m][m..]
  {
    var m := |names| - 1;
    assert names[..|names|] == names && names[..m][..m] == names[..m];
    assert names == names[..m] + [names[m]];
  }

  /** Where no name is listed, nothing is removed. */
  lemma {:induction false} NothingRemoved(host: Host, g: string, names: seq<string>)
    requires g in host.groups ==> forall name <- names :: name !in host.groups[g].listed
    ensures Undoes(host, Removals(names, g), host, Removals(names, g))
    decreases |names|
  {
    if names != [] {
      var m := |names| - 1;
      var init, last := names[..m], names[m];
      assert last in names && forall name <- init :: name in names;
      RemovalsSplit(names, g);
      NothingRemoved(host, g, init);
      UndoesCons(host, RemoveMember(last, g), Removals(init, g), host, Removals(init, g));
    }
  }

  // ----- Created accounts and groups -----

  function AccountDeletion(s: Settings, snap: Snapshot): seq<Command> {
    if StagingExists(s, snap) then [] else [UserDelete(s.stagingUser)]
  }

  function OperatorsDeletion(s: Settings, snap: Snapshot): seq<Command> {
    if s.operatorGroup in snap.groups then [] else [GroupDelete(s.operatorGroup)]
  }

  function StagingDeletion(s: Settings, snap: Snapshot): seq<Command> {
    if StagingExists(s, snap) then [] else [GroupDelete(s.stagingGroup)]
  }

  function Undeletions(s: Settings, snap: Snapshot): seq<Command> {
    AccountDeletion(s, snap) + OperatorsDeletion(s, snap) + StagingDeletion(s, snap)
  }

  lemma UndoUsers(names: seq<string>)
    requires |names| <= 1
    ensures DeletionsOf(Reversed(names)) == if names == [] then [] else [UserDelete(names[0])]
  {
  }

  lemma UndoGroups(first: seq<string>, second: seq<string>)
    requires |first| <= 1 && |second| <= 1
    ensures GroupDeletionsOf(Reversed(first + second))
      == (if second == [] then [] else [GroupDelete(second[0])]) + if first == [] then [] else [GroupDelete(first[0])]
  {
    var names := first + second;
    assert names == if first == [] then second else if second == [] then first else [first[0], second[0]];
    assert Reversed(names) == if |names| == 2 then [names[1], names[0]] else names;
  }

  lemma UndoOfPlan(s: Settings, snap: Snapshot)
    ensures UndoOf(PlanFor(s, snap))
      == Removals(Missing(s.operators, ExistingMembers(s, snap)), s.operatorGroup) + Undeletions(s, snap)
  {
    var users := if StagingExists(s, snap) then [] else [s.stagingUser];
    var first := if StagingExists(s, snap) then [] else [s.stagingGroup];
    var second := if s.operatorGroup in snap.groups then [] else [s.operatorGroup];
    UndoUsers(users);
    UndoGroups(first, second);
    Associate(Removals(Missing(s.operators, ExistingMembers(s, snap)), s.operatorGroup),
              AccountDeletion(s, snap), OperatorsDeletion(s, snap) + StagingDeletion(s, snap));
    Associate(AccountDeletion(s, snap), OperatorsDeletion(s, snap), StagingDeletion(s, snap));
  }

  lemma Associate<T>(x: seq<T>, y: seq<T>, z: seq<T>)
    ensures (x + y) + z == x + (y + z)
  {
  }

  /** The host with these of the plan's groups and its account made. */
  function Made(host: Host, s: Settings, staging: Option<nat>, account: Option<Account>, operators: Option<nat>): Host {
    var withStaging := if staging.Some? then host.groups[s.stagingGroup := Group(staging.value, {})] else host.groups;
    Host(if account.Some? then host.accounts[s.stagingUser := account.value] else host.accounts,
         if operators.Some? then withStaging[s.operatorGroup := Group(operators.value, {})] else withStaging)
  }

  /** No account already had a made group's number, and no group already listed the made account. */
  predicate NoStrays(host: Host, s: Settings, staging: Option<nat>, account: Option<Account>, operators: Option<nat>) {
    && (staging.Some? ==> Primary(host, staging.value) == {})
    && (operators.Some? ==> Primary(host, operators.value) == {})
    && (account.Some? ==> forall g <- host.groups :: s.stagingUser !in host.groups[g].listed)
  }

  /** What was made was not there before, and an account only after its group. */
  predicate Makable(host: Host, s: Settings, staging: Option<nat>, account: Option<Account>, operators: Option<nat>) {
    && Valid(s)
    && (staging.Some? ==> s.stagingGroup !in host.groups)
    && (account.Some? ==> staging.Some? && s.stagingUser !in host.accounts && account.value.record.gid == staging.value)
    && (operators.Some? ==> s.operatorGroup !in host.groups)
  }

  lemma AccountUndone(host: Host, s: Settings, staging: Option<nat>, account: Option<Account>, operators: Option<nat>)
    requires Makable(host, s, staging, account, operators) && NoStrays(host, s, staging, account, operators)
    requires s.stagingUser !in host.accounts
    ensures Next(UndoStep, Made(host, s, staging, account, operators), UserDelete(s.stagingUser))
      == Made(host, s, staging, None, operators)
    ensures UndoStep(Made(host, s, staging, account, operators), UserDelete(s.stagingUser)).Some? <==> account.Some?
  {
    var made, wanted := Made(host, s, staging, account, operators), Made(host, s, staging, None, operators);
    if account.Some? {
      assert made.accounts - {s.stagingUser} == host.accounts;
      forall g | g in made.groups ensures made.groups[g].listed - {s.stagingUser} == made.groups[g].listed {}
      assert Unlisted(made.groups, s.stagingUser) == wanted.groups;
    }
  }

  lemma GroupUndone(host: Host, s: Settings, staging: Option<nat>, operators: Option<nat>)
    requires Makable(host, s, staging, None, operators) && NoStrays(host, s, staging, None, operators)
    requires s.operatorGroup !in host.groups
    ensures Next(UndoStep, Made(host, s, staging, None, operators), GroupDelete(s.operatorGroup))
      == Made(host, s, staging, None, None)
    ensures UndoStep(Made(host, s, staging, None, operators), GroupDelete(s.operatorGroup)).Some? <==> operators.Some?
  {
    var made := Made(host, s, staging, None, operators);
    if operators.Some? {
      assert Primary(made, operators.value) == {};
      assert made.groups - {s.operatorGroup} == Made(host, s, staging, None, None).groups;
    }
  }

  lemma StagingGroupUndone(host: Host, s: Settings, staging: Option<nat>)
    requires Makable(host, s, staging, None, None) && NoStrays(host, s, staging, None, None)
    requires s.stagingGroup !in host.groups
    ensures Next(UndoStep, Made(host, s, staging, None, None), GroupDelete(s.stagingGroup)) == host
    ensures UndoStep(Made(host, s, staging, None, None), GroupDelete(s.stagingGroup)).Some? <==> staging.Some?
  {
    var made := Made(host, s, staging, None, None);
    if staging.Some? {
      assert Primary(made, staging.value) == {};
      assert made.groups - {s.stagingGroup} == host.groups;
    }
  }

  lemma OneUndoes(host: Host, c: Command)
    ensures Undoes(host, [c], Next(UndoStep, host, c), if UndoStep(host, c).Some? then [] else [c])
  {
    assert [c][1..] == [];
  }

  lemma NothingUndoes(host: Host)
    ensures Undoes(host, [], host, [])
  {
  }

  function Left(made: bool, cs: seq<Command>): seq<Command> { if made then [] else cs }

  /** Undoing takes back exactly what was made, and fails for the rest. */
  lemma MadeUndone(host: Host, s: Settings, allow: bool, staging: Option<nat>, account: Option<Account>, operators: Option<nat>)
    requires Makable(host, s, staging, account, operators) && NoStrays(host, s, staging, account, operators)
    requires PlanOf(s, SnapshotOf(host, s), allow).Planned?
    ensures var snap := SnapshotOf(host, s);
      Undoes(Made(host, s, staging, account, operators), Undeletions(s, snap), host,
             Left(account.Some?, AccountDeletion(s, snap)) + Left(operators.Some?, OperatorsDeletion(s, snap))
             + Left(staging.Some?, StagingDeletion(s, snap)))
  {
    var snap := SnapshotOf(host, s);
    var first, second, third := Made(host, s, staging, account, operators), Made(host, s, staging, None, operators), Made(host, s, staging, None, None);
    var a, b, c := AccountDeletion(s, snap), OperatorsDeletion(s, snap), StagingDeletion(s, snap);
    assert Undoes(first, a, second, Left(account.Some?, a)) by {
      if a == [] { NothingUndoes(first); } else {
        AccountUndone(host, s, staging, account, operators);
        OneUndoes(first, UserDelete(s.stagingUser));
      }
    }
    assert Undoes(second, b, third, Left(operators.Some?, b)) by {
      if b == [] { NothingUndoes(second); } else {
        GroupUndone(host, s, staging, operators);
        OneUndoes(second, GroupDelete(s.operatorGroup));
      }
    }
    assert Undoes(third, c, host, Left(staging.Some?, c)) by {
      if c == [] { NothingUndoes(third); } else {
        StagingGroupUndone(host, s, staging);
        OneUndoes(third, GroupDelete(s.stagingGroup));
      }
    }
    UndoesAppend(first, a, b, second, third, Left(account.Some?, a), Left(operators.Some?, b));
    UndoesAppend(first, a + b, c, third, host, Left(account.Some?, a) + Left(operators.Some?, b), Left(staging.Some?, c));
  }

  // ----- Part of a plan carried out -----

  lemma RunAllStep(host: Host, cs: seq<Command>, ids: seq<nat>, k: nat)
    requires k < |cs| == |ids|
    ensures RunAll(host, cs[..k + 1], ids[..k + 1]) ==
      var before := RunAll(host, cs[..k], ids[..k]);
      if before.None? then None else Effect(before.value, cs[k], ids[k])
  {
    assert cs[..k + 1][..k] == cs[..k] && ids[..k + 1][..k] == ids[..k];
  }

  /** An account or list entry left over from before carries what the command is about to make. */
  predicate Stray(host: Host, c: Command, id: nat) {
    match c
    case GroupAdd(_, gid) => Primary(host, if gid.Some? then gid.value else id) != {}
    case UserAdd(u, _, _, _, _) => exists g <- host.groups :: u in host.groups[g].listed
    case _ => false
  }

  /** None of the first `k` commands meets a stray. */
  predicate StrayFree(host: Host, cs: seq<Command>, ids: seq<nat>, k: nat)
    requires k <= |cs| == |ids|
  {
    forall i :: 0 <= i < k ==> !Stray(host, cs[i], ids[i])
  }

  /** What was made is as the settings ask, and the operator group has a number of its own. */
  predicate AsAsked(host: Host, s: Settings, staging: Option<nat>, account: Option<Account>, operators: Option<nat>) {
    && (staging.Some? ==> !GidTaken(host, staging.value) && (s.stagingGid.Some? ==> staging.value == s.stagingGid.value))
    && (account.Some? ==>
          && account.value.locked && account.value.record.home == s.stagingRoot && account.value.record.shell == NOLOGIN
          && (s.stagingUid.Some? ==> account.value.record.uid == s.stagingUid.value))
    && (operators.Some? ==> !GidTaken(Made(host, s, staging, account, None), operators.value))
  }

  lemma StagingMade(host: Host, s: Settings, id: nat, h: Host)
    requires Valid(s) && Effect(Made(host, s, None, None, None), GroupAdd(s.stagingGroup, s.stagingGid), id) == Some(h)
    ensures var n := if s.stagingGid.Some? then s.stagingGid.value else id;
      && h == Made(host, s, Some(n), None, None) && Makable(host, s, Some(n), None, None) && AsAsked(host, s, Some(n), None, None)
      && (NoStrays(host, s, Some(n), None, None) <==> !Stray(host, GroupAdd(s.stagingGroup, s.stagingGid), id))
  {
  }

  lemma AccountMade(host: Host, s: Settings, staging: nat, id: nat, h: Host)
    requires Makable(host, s, Some(staging), None, None) && AsAsked(host, s, Some(staging), None, None)
    requires Effect(Made(host, s, Some(staging), None, None),
                    UserAdd(s.stagingUser, s.stagingGroup, s.stagingRoot, NOLOGIN, s.stagingUid), id) == Some(h)
    ensures var a := Account(User(if s.stagingUid.Some? then s.stagingUid.value else id, staging, s.stagingRoot, NOLOGIN), true);
      && h == Made(host, s, Some(staging), Some(a), None) && Makable(host, s, Some(staging), Some(a), None)
      && AsAsked(host, s, Some(staging), Some(a), None)
      && (NoStrays(host, s, Some(staging), Some(a), None) <==>
            && NoStrays(host, s, Some(staging), None, None)
            && !Stray(host, UserAdd(s.stagingUser, s.stagingGroup, s.stagingRoot, NOLOGIN, s.stagingUid), id))
  {
  }

  lemma OperatorsMade(host: Host, s: Settings, staging: Option<nat>, account: Option<Account>, id: nat, h: Host)
    requires Makable(host, s, staging, account, None) && AsAsked(host, s, staging, account, None)
    requires Effect(Made(host, s, staging, account, None), GroupAdd(s.operatorGroup, None), id) == Some(h)
    ensures h == Made(host, s, staging, account, Some(id)) && Makable(host, s, staging, account, Some(id))
    ensures AsAsked(host, s, staging, account, Some(id))
    ensures NoStrays(host, s, staging, account, Some(id))
      <==> NoStrays(host, s, staging, account, None) && !Stray(host, GroupAdd(s.operatorGroup, None), id)
  {
  }

  /** What the first `k` creations make. */
  lemma {:induction false} CreationsPrefix(host: Host, s: Settings, ids: seq<nat>, k: nat)
    returns (staging: Option<nat>, account: Option<Account>, operators: Option<nat>)
    requires Valid(s)
    requires var cs := Creations(s, SnapshotOf(host, s));
      k <= |cs| == |ids| && RunAll(host, cs[..k], ids[..k]).Some?
    ensures var snap := SnapshotOf(host, s);
      var cs := Creations(s, snap);
      && RunAll(host, cs[..k], ids[..k]) == Some(Made(host, s, staging, account, operators))
      && Makable(host, s, staging, account, operators)
      && AsAsked(host, s, staging, account, operators)
      && (NoStrays(host, s, staging, account, operators) <==> StrayFree(host, cs, ids, k))
      && (staging.Some? <==> !StagingExists(s, snap) && k >= 1)
      && (account.Some? <==> !StagingExists(s, snap) && k >= 2)
      && (operators.Some? <==> s.operatorGroup !in snap.groups && k == |cs|)
    decreases k
  {
    var snap := SnapshotOf(host, s);
    var cs := Creations(s, snap);
    if k == 0 {
      staging, account, operators := None, None, None;
    } else {
      RunAllStep(host, cs, ids, k - 1);
      var h := RunAll(host, cs[..k], ids[..k]).value;
      staging, account, operators := CreationsPrefix(host, s, ids, k - 1);
      var id := ids[k - 1];
      if k == |cs| && s.operatorGroup !in snap.groups {
        OperatorsMade(host, s, staging, account, id, h);
        operators := Some(id);
      } else if k == 1 {
        StagingMade(host, s, id, h);
        staging := Some(if s.stagingGid.Some? then s.stagingGid.value else id);
      } else {
        AccountMade(host, s, staging.value, id, h);
        account := Some(Account(User(if s.stagingUid.Some? then s.stagingUid.value else id, staging.value, s.stagingRoot, NOLOGIN), true));
      }
    }
  }

  lemma {:induction false} RunAllAppend(host: Host, a: seq<Command>, b: seq<Command>, ids: seq<nat>, more: seq<nat>)
    requires |a| == |ids| && |b| == |more|
    ensures RunAll(host, a + b, ids + more) ==
      var mid := RunAll(host, a, ids);
      if mid.None? then None else RunAll(mid.value, b, more)
    decreases |b|
  {
    if b == [] {
      assert a + b == a && ids + more == ids;
    } else {
      var m := |b| - 1;
      RunAllAppend(host, a, b[..m], ids, more[..m]);
      assert (a + b)[..|a + b| - 1] == a + b[..m] && (ids + more)[..|a + b| - 1] == ids + more[..m];
    }
  }

  /** The plan's new members are accounts of the host and not listed yet. */
  lemma NewMembers(host: Host, s: Settings, allow: bool)
    requires Valid(s) && PlanOf(s, SnapshotOf(host, s), allow).Planned?
    ensures var missing := Missing(s.operators, ExistingMembers(s, SnapshotOf(host, s)));
      && Distinct(missing)
      && (forall name <- missing :: name in host.accounts && name in s.operators)
      && (s.operatorGroup in host.groups ==> forall name <- missing :: name !in host.groups[s.operatorGroup].listed)
  {
    var snap := SnapshotOf(host, s);
    MissingMembers(s.operators, ExistingMembers(s, snap));
    MissingDistinct(s.operators, ExistingMembers(s, snap));
  }

  lemma SplitRun(host: Host, a: seq<Command>, b: seq<Command>, ids: seq<nat>, k: nat)
    requires |ids| == |a + b| && k <= |a + b|
    ensures RunAll(host, (a + b)[..k], ids[..k]) ==
      if k <= |a| then RunAll(host, a[..k], ids[..|a|][..k]) else
      var mid := RunAll(host, a[..|a|], ids[..|a|][..|a|]);
      if mid.None? then None else RunAll(mid.value, b[..k - |a|], ids[|a|..k])
  {
    var n := |a|;
    if k <= n {
      assert (a + b)[..k] == a[..k] && ids[..n][..k] == ids[..k];
    } else {
      assert (a + b)[..k] == a + b[..k - n] && ids[..k] == ids[..n] + ids[n..k];
      RunAllAppend(host, a, b[..k - n], ids[..n], ids[n..k]);
      assert a[..n] == a && ids[..n][..n] == ids[..n];
    }
  }

  lemma SplitStrays(host: Host, a: seq<Command>, b: seq<Command>, ids: seq<nat>, k: nat)
    requires |ids| == |a + b| && k <= |a + b|
    requires forall i :: 0 <= i < |b| ==> b[i].AddMember?
    ensures StrayFree(host, a + b, ids, k) <==> StrayFree(host, a, ids[..|a|], if k <= |a| then k else |a|)
  {
    var n := |a|;
    forall i | 0 <= i < k ensures Stray(host, (a + b)[i], ids[i]) <==> i < n && Stray(host, a[i], ids[..n][i]) {
      if i >= n { assert (a + b)[i] == b[i - n]; }
    }
  }

  /** How far a plan has come: what is made, and how many of the new members are listed. */
  datatype Progress = Progress(staging: Option<nat>, account: Option<Account>, operators: Option<nat>, created: nat, listed: nat)

  function NewNames(host: Host, s: Settings): seq<string> {
    Missing(s.operators, ExistingMembers(s, SnapshotOf(host, s)))
  }

  predicate Sound(host: Host, s: Settings, p: Progress) {
    var creations := Creations(s, SnapshotOf(host, s));
    && Makable(host, s, p.staging, p.account, p.operators)
    && p.created <= |creations| && p.listed <= |NewNames(host, s)| && (p.listed > 0 ==> p.created == |creations|)
    && (p.staging.Some? <==> !StagingExists(s, SnapshotOf(host, s)) && p.created >= 1)
    && (p.account.Some? <==> !StagingExists(s, SnapshotOf(host, s)) && p.created >= 2)
    && (p.operators.Some? <==> s.operatorGroup !in host.groups && p.created == |creations|)
  }

  function BaseOf(host: Host, s: Settings, p: Progress): Host {
    Made(host, s, p.staging, p.account, p.operators)
  }

  function Reached(host: Host, s: Settings, p: Progress): Host
    requires Sound(host, s, p)
  {
    if p.listed == 0 then BaseOf(host, s, p)
    else WithMembers(BaseOf(host, s, p), s.operatorGroup, SetOf(NewNames(host, s)[..p.listed]))
  }

  lemma PlanPrefix(host: Host, s: Settings, allow: bool, ids: seq<nat>, k: nat) returns (p: Progress)
    requires Valid(s) && PlanOf(s, SnapshotOf(host, s), allow).Planned?
    requires var cs := PlanFor(s, SnapshotOf(host, s)).commands;
      k <= |cs| == |ids| && RunAll(host, cs[..k], ids[..k]).Some?
    ensures var cs := PlanFor(s, SnapshotOf(host, s)).commands;
      && Sound(host, s, p) && p.created + p.listed == k && AsAsked(host, s, p.staging, p.account, p.operators)
      && (NoStrays(host, s, p.staging, p.account, p.operators) <==> StrayFree(host, cs, ids, k))
      && RunAll(host, cs[..k], ids[..k]) == Some(Reached(host, s, p))
  {
    hide RunAll, StrayFree, AsAsked, Effect;
    var snap := SnapshotOf(host, s);
    var creations, names := Creations(s, snap), NewNames(host, s);
    var additions := Additions(names, s.operatorGroup);
    var n := |creations|;
    var created, listed := if k <= n then k else n, if k <= n then 0 else k - n;
    SplitRun(host, creations, additions, ids, k);
    SplitStrays(host, creations, additions, ids, k);
    var staging, account, operators := CreationsPrefix(host, s, ids[..n], created);
    p := Progress(staging, account, operators, created, listed);
    if listed > 0 {
      NewMembers(host, s, allow);
      FirstAdded(BaseOf(host, s, p), s.operatorGroup, names, listed, ids[n..k]);
    }
  }

  lemma FirstAdded(base: Host, g: string, names: seq<string>, j: nat, ids: seq<nat>)
    requires j <= |names| && |ids| == j && g in base.groups && forall name <- names :: name in base.accounts
    ensures RunAll(base, Additions(names, g)[..j], ids) == Some(WithMembers(base, g, SetOf(names[..j])))
  {
    assert forall name <- names[..j] :: name in names;
    assert Additions(names, g)[..j] == Additions(names[..j], g);
    MembersAdded(base, g, names[..j], ids);
  }
}
