/** Taking an identity plan back, and planning again after it was carried out. */
module HostRollback {
  import opened Common
  import opened Identity
  import opened HostAccounts

  // ----- Taking back -----

  /** The undo commands for what the plan has not come to. */
  function LeftOver(host: Host, s: Settings, p: Progress): seq<Command>
    requires Sound(host, s, p)
  {
    var snap := SnapshotOf(host, s);
    Removals(NewNames(host, s)[p.listed..], s.operatorGroup)
    + (Left(p.account.Some?, AccountDeletion(s, snap)) + Left(p.operators.Some?, OperatorsDeletion(s, snap))
       + Left(p.staging.Some?, StagingDeletion(s, snap)))
  }

  lemma ProgressUndone(host: Host, s: Settings, allow: bool, p: Progress)
    requires Valid(s) && PlanOf(s, SnapshotOf(host, s), allow).Planned? && Sound(host, s, p)
    requires NoStrays(host, s, p.staging, p.account, p.operators)
    ensures Undoes(Reached(host, s, p), UndoOf(PlanFor(s, SnapshotOf(host, s))), host, LeftOver(host, s, p))
  {
    var snap := SnapshotOf(host, s);
    var names := NewNames(host, s);
    MembersUndone(host, s, allow, p);
    MadeUndone(host, s, allow, p.staging, p.account, p.operators);
    UndoOfPlan(s, snap);
    UndoesAppend(Reached(host, s, p), Removals(names, s.operatorGroup), Undeletions(s, snap), BaseOf(host, s, p), host,
      Removals(names[p.listed..], s.operatorGroup),
      Left(p.account.Some?, AccountDeletion(s, snap)) + Left(p.operators.Some?, OperatorsDeletion(s, snap))
      + Left(p.staging.Some?, StagingDeletion(s, snap)));
  }

  lemma LeftOverCount(host: Host, s: Settings, p: Progress)
    requires Sound(host, s, p)
    ensures |LeftOver(host, s, p)| + p.created + p.listed == |PlanFor(s, SnapshotOf(host, s)).commands|
  {
    assert |Removals(NewNames(host, s)[p.listed..], s.operatorGroup)| == |NewNames(host, s)| - p.listed;
  }

  /** Without strays, undoing restores the host and fails for exactly the commands that were not carried out. */
  lemma RollbackRestores(host: Host, s: Settings, allow: bool, ids: seq<nat>, k: nat)
    requires Valid(s) && PlanOf(s, SnapshotOf(host, s), allow).Planned?
    requires var cs := PlanFor(s, SnapshotOf(host, s)).commands;
      k <= |cs| == |ids| && RunAll(host, cs[..k], ids[..k]).Some? && StrayFree(host, cs, ids, k)
    ensures var p := PlanFor(s, SnapshotOf(host, s));
      var reached := RunAll(host, p.commands[..k], ids[..k]).value;
      && AfterAll(UndoStep, reached, UndoOf(p)) == host
      && |Failing(UndoStep, reached, UndoOf(p))| == |p.commands| - k
  {
    var p := PlanPrefix(host, s, allow, ids, k);
    ProgressUndone(host, s, allow, p);
    LeftOverCount(host, s, p);
  }

  /** Rolling back restores the host if and only if no command that was carried out met a stray. */
  lemma RollbackRestoresExactlyWhen(host: Host, s: Settings, allow: bool, ids: seq<nat>, k: nat)
    requires Valid(s) && PlanOf(s, SnapshotOf(host, s), allow).Planned?
    requires var cs := PlanFor(s, SnapshotOf(host, s)).commands;
      k <= |cs| == |ids| && RunAll(host, cs[..k], ids[..k]).Some?
    ensures var p := PlanFor(s, SnapshotOf(host, s));
      var reached := RunAll(host, p.commands[..k], ids[..k]).value;
      AfterAll(UndoStep, reached, UndoOf(p)) == host <==> StrayFree(host, p.commands, ids, k)
  {
    var snap := SnapshotOf(host, s);
    var plan := PlanFor(s, snap);
    if StrayFree(host, plan.commands, ids, k) {
      RollbackRestores(host, s, allow, ids, k);
    } else {
      var p := PlanPrefix(host, s, allow, ids, k);
      MembersUndone(host, s, allow, p);
      StraysRemain(host, s, p);
      UndoOfPlan(s, snap);
      AfterAppend(UndoStep, Reached(host, s, p), Removals(NewNames(host, s), s.operatorGroup), Undeletions(s, snap));
    }
  }

  /** Removing the members leaves what the creations made, strays or not. */
  lemma MembersUndone(host: Host, s: Settings, allow: bool, p: Progress)
    requires Valid(s) && PlanOf(s, SnapshotOf(host, s), allow).Planned? && Sound(host, s, p)
    ensures var names := NewNames(host, s);
      Undoes(Reached(host, s, p), Removals(names, s.operatorGroup), BaseOf(host, s, p), Removals(names[p.listed..], s.operatorGroup))
  {
    var names := NewNames(host, s);
    var base := BaseOf(host, s, p);
    NewMembers(host, s, allow);
    if s.operatorGroup in base.groups {
      MembersRemoved(base, s.operatorGroup, names, p.listed);
      if p.listed == 0 {
        NoneAdded(base, s.operatorGroup);
        assert SetOf(names[..0]) == {};
      }
    } else {
      NothingRemoved(base, s.operatorGroup, names);
      assert names[0..] == names;
    }
  }

  /** A stray is never put back: its list entry is lost, or the group it belongs to stays. */
  lemma StraysRemain(host: Host, s: Settings, p: Progress)
    requires Valid(s) && Sound(host, s, p) && !NoStrays(host, s, p.staging, p.account, p.operators)
    requires !StagingExists(s, SnapshotOf(host, s)) || StagingMatches(s, SnapshotOf(host, s))
    ensures AfterAll(UndoStep, BaseOf(host, s, p), Undeletions(s, SnapshotOf(host, s))) != host
  {
    hide StagingMatches, ListedElsewhere, ExistingMembers;
    var snap := SnapshotOf(host, s);
    var a, b, c := AccountDeletion(s, snap), OperatorsDeletion(s, snap), StagingDeletion(s, snap);
    var first := BaseOf(host, s, p);
    var second := AfterAll(UndoStep, first, a);
    var third := AfterAll(UndoStep, second, b);
    AfterAppend(UndoStep, first, a + b, c);
    AfterAppend(UndoStep, first, a, b);
  }

  // ----- Planning again -----

  /** What the check after a run accepts: the settings' plan for the host has nothing left to do. */
  predicate Converged(host: Host, s: Settings) {
    var r := PlanOf(s, SnapshotOf(host, s), true);
    r.Planned? && r.plan.commands == []
  }

  /** Nothing in the host before the run stands in the way of what the run made.

      The staging account is not enrolled as an operator, no other group lists it, and only declared
      operators have the operator group as their primary group. */
  predicate Unhindered(host: Host, s: Settings, after: Host) {
    && s.stagingUser !in NewNames(host, s)
    && s.stagingUser in after.accounts && s.operatorGroup in after.groups
    && ListedElsewhere(host, s.stagingUser, after.accounts[s.stagingUser].record.gid) == {}
    && forall name <- Primary(host, after.groups[s.operatorGroup].gid) :: name in s.operators
  }

  /** A complete run, seen from its progress. */
  predicate Complete(host: Host, s: Settings, p: Progress) {
    && Sound(host, s, p) && p.created == |Creations(s, SnapshotOf(host, s))| && p.listed == |NewNames(host, s)|
  }

  lemma ReachedComplete(host: Host, s: Settings, p: Progress)
    requires Complete(host, s, p) && s.operatorGroup in BaseOf(host, s, p).groups
    ensures Reached(host, s, p) == WithMembers(BaseOf(host, s, p), s.operatorGroup, SetOf(NewNames(host, s)))
  {
    var names := NewNames(host, s);
    assert names[..|names|] == names;
    if p.listed == 0 {
      assert SetOf(names) == {};
      NoneAdded(BaseOf(host, s, p), s.operatorGroup);
    }
  }

  /** Number and list of the operator group before its new members. */
  function OperatorGroup(host: Host, s: Settings, p: Progress): Group
    requires p.operators.Some? || s.operatorGroup in host.groups
  {
    if p.operators.Some? then Group(p.operators.value, {}) else host.groups[s.operatorGroup]
  }

  /** The accounts and groups after a complete run, next to those before. */
  ghost predicate Ran(host: Host, s: Settings, p: Progress, after: Host) {
    && (p.operators.Some? || s.operatorGroup in host.groups)
    && after.groups.Keys == host.groups.Keys + {s.stagingGroup, s.operatorGroup}
    && (forall g :: g in host.groups && g != s.operatorGroup ==> after.groups[g] == host.groups[g])
    && after.groups[s.operatorGroup]
       == OperatorGroup(host, s, p).(listed := OperatorGroup(host, s, p).listed + SetOf(NewNames(host, s)))
    && (p.account.Some? ==>
          && s.stagingUser !in host.accounts && s.stagingGroup !in host.groups && p.staging.Some?
          && p.account.value.record.gid == p.staging.value
          && after.accounts == host.accounts[s.stagingUser := p.account.value]
          && after.groups[s.stagingGroup] == Group(p.staging.value, {}))
    && (p.account.None? ==> after.accounts == host.accounts && s.stagingUser in host.accounts && s.stagingGroup in host.groups)
  }

  lemma AfterComplete(host: Host, s: Settings, allow: bool, p: Progress)
    requires Valid(s) && PlanOf(s, SnapshotOf(host, s), allow).Planned? && Complete(host, s, p)
    ensures Ran(host, s, p, Reached(host, s, p))
  {
    StagingPresent(host, s, allow, p);
    ReachedComplete(host, s, p);
  }

  /** After a complete run the staging identity is made, or was there. */
  lemma StagingPresent(host: Host, s: Settings, allow: bool, p: Progress)
    requires Valid(s) && PlanOf(s, SnapshotOf(host, s), allow).Planned? && Complete(host, s, p)
    ensures p.account.Some? <==> p.staging.Some?
    ensures p.account.None? ==> s.stagingUser in host.accounts && s.stagingGroup in host.groups
    ensures p.operators.None? ==> s.operatorGroup in host.groups
    ensures s.operatorGroup in BaseOf(host, s, p).groups
  {
  }

  /** The staging account belongs to no other group after the run exactly if nothing listed or enrolled it. */
  lemma StagingAfter(host: Host, s: Settings, allow: bool, p: Progress, after: Host)
    requires Valid(s) && PlanOf(s, SnapshotOf(host, s), allow).Planned? && Sound(host, s, p) && Ran(host, s, p, after)
    requires AsAsked(host, s, p.staging, p.account, p.operators)
    ensures s.stagingUser in after.accounts
    ensures StagingMatches(s, SnapshotOf(after, s)) <==>
      && s.stagingUser !in NewNames(host, s)
      && ListedElsewhere(host, s.stagingUser, after.accounts[s.stagingUser].record.gid) == {}
  {
    hide Missing, Effect, ListedElsewhere;
    var gid := after.accounts[s.stagingUser].record.gid;
    ListingsAfter(host, s, allow, p, after, gid);
  }

  lemma ListingsAfter(host: Host, s: Settings, allow: bool, p: Progress, after: Host, gid: nat)
    requires Valid(s) && PlanOf(s, SnapshotOf(host, s), allow).Planned? && Sound(host, s, p) && Ran(host, s, p, after)
    requires AsAsked(host, s, p.staging, p.account, p.operators)
    requires s.stagingUser in after.accounts && gid == after.accounts[s.stagingUser].record.gid
    ensures ListedElsewhere(after, s.stagingUser, gid) == {} <==>
      s.stagingUser !in NewNames(host, s) && ListedElsewhere(host, s.stagingUser, gid) == {}
  {
    hide Sound, AsAsked, Missing, Effect;
    OperatorGroupApart(host, s, allow, p, after);
    if s.stagingUser in NewNames(host, s) {
      assert s.operatorGroup in ListedElsewhere(after, s.stagingUser, gid);
    } else {
      forall g ensures g in ListedElsewhere(host, s.stagingUser, gid) <==> g in ListedElsewhere(after, s.stagingUser, gid) {}
    }
  }

  /** A staging account that was enrolled is no primary member of the operator group. */
  lemma OperatorGroupApart(host: Host, s: Settings, allow: bool, p: Progress, after: Host)
    requires Valid(s) && PlanOf(s, SnapshotOf(host, s), allow).Planned? && Sound(host, s, p) && Ran(host, s, p, after)
    requires AsAsked(host, s, p.staging, p.account, p.operators)
    ensures s.stagingUser in NewNames(host, s) ==>
      p.account.None? && after.groups[s.operatorGroup].gid != host.accounts[s.stagingUser].record.gid
    ensures p.account.Some? ==> after.groups[s.operatorGroup].gid != p.account.value.record.gid
  {
    var snap := SnapshotOf(host, s);
    NewMembers(host, s, allow);
    MissingMembers(s.operators, ExistingMembers(s, snap));
    var made := Made(host, s, p.staging, p.account, None);
    if p.operators.Some? {
      assert s.stagingGroup in made.groups;
      assert made.groups[s.stagingGroup].gid != p.operators.value;
    } else {
      assert s.operatorGroup in host.groups;
    }
  }

  /** Whom the operator group authorises after the run. */
  lemma MembersAfter(host: Host, s: Settings, allow: bool, p: Progress, after: Host)
    requires Valid(s) && PlanOf(s, SnapshotOf(host, s), allow).Planned? && Sound(host, s, p) && Ran(host, s, p, after)
    requires AsAsked(host, s, p.staging, p.account, p.operators)
    ensures ExistingMembers(s, SnapshotOf(after, s))
      == OperatorGroup(host, s, p).listed + SetOf(NewNames(host, s)) + Primary(host, after.groups[s.operatorGroup].gid)
  {
    var group := after.groups[s.operatorGroup];
    OperatorGroupApart(host, s, allow, p, after);
    assert Primary(after, group.gid) == Primary(host, group.gid);
    MembersOf(after, s);
  }

  lemma MembersOf(host: Host, s: Settings)
    requires s.operatorGroup in host.groups
    ensures var group := host.groups[s.operatorGroup];
      ExistingMembers(s, SnapshotOf(host, s)) == group.listed + Primary(host, group.gid)
  {
  }

  /** Every operator is a member then, and the others are those of the group's number. */
  lemma DeclaredAfter(host: Host, s: Settings, allow: bool, p: Progress, members: set<string>, gid: nat)
    requires PlanOf(s, SnapshotOf(host, s), allow).Planned? && (p.operators.Some? || s.operatorGroup in host.groups)
    requires p.operators.Some? <==> s.operatorGroup !in host.groups
    requires gid == OperatorGroup(host, s, p).gid
    requires members == OperatorGroup(host, s, p).listed + SetOf(NewNames(host, s)) + Primary(host, gid)
    ensures forall operator <- s.operators :: operator in members
    ensures (forall name <- members :: name in s.operators) <==> forall name <- Primary(host, gid) :: name in s.operators
  {
    MissingMembers(s.operators, ExistingMembers(s, SnapshotOf(host, s)));
    if s.operatorGroup in host.groups { MembersOf(host, s); }
  }

  lemma {:induction false} NoneMissing(operators: seq<string>, existing: set<string>)
    requires forall operator <- operators :: operator in existing
    ensures Missing(operators, existing) == []
    decreases |operators|
  {
    if operators != [] {
      var m := |operators| - 1;
      assert operators[m] in operators;
      NoneMissing(operators[..m], existing);
    }
  }

  /** A completed run is found complete by the next plan exactly if the host was not in its way. */
  lemma ConvergesExactlyWhen(host: Host, s: Settings, allow: bool, ids: seq<nat>, after: Host)
    requires Valid(s) && PlanOf(s, SnapshotOf(host, s), allow).Planned?
    requires |ids| == |PlanFor(s, SnapshotOf(host, s)).commands|
    requires RunAll(host, PlanFor(s, SnapshotOf(host, s)).commands, ids) == Some(after)
    ensures Converged(after, s) <==> Unhindered(host, s, after)
  {
    var cs := PlanFor(s, SnapshotOf(host, s)).commands;
    assert cs[..|cs|] == cs && ids[..|cs|] == ids;
    var p := PlanPrefix(host, s, allow, ids, |cs|);
    AfterComplete(host, s, allow, p);
    ConvergesFrom(host, s, allow, p, after);
  }

  lemma ConvergesFrom(host: Host, s: Settings, allow: bool, p: Progress, after: Host)
    requires Valid(s) && PlanOf(s, SnapshotOf(host, s), allow).Planned? && Sound(host, s, p) && Ran(host, s, p, after)
    requires AsAsked(host, s, p.staging, p.account, p.operators) && Complete(host, s, p)
    ensures Converged(after, s) <==> Unhindered(host, s, after)
  {
    var again := SnapshotOf(after, s);
    StagingAfter(host, s, allow, p, after);
    MembersAfter(host, s, allow, p, after);
    DeclaredAfter(host, s, allow, p, ExistingMembers(s, again), after.groups[s.operatorGroup].gid);
    OperatorsExist(host, s, allow, p, after);
    NoneMissing(s.operators, ExistingMembers(s, again));
    NothingLeft(s, again);
  }

  /** Planning over a snapshot in which everything is there. */
  lemma NothingLeft(s: Settings, snap: Snapshot)
    requires StagingExists(s, snap) && s.operatorGroup in snap.groups && Creations(s, snap) == []
    requires Missing(s.operators, ExistingMembers(s, snap)) == []
    requires forall operator <- s.operators :: operator in snap.users
    ensures (PlanOf(s, snap, true).Planned? && PlanOf(s, snap, true).plan.commands == [])
      <==> StagingMatches(s, snap) && forall name <- ExistingMembers(s, snap) :: name in s.operators
  {
  }

  lemma OperatorsExist(host: Host, s: Settings, allow: bool, p: Progress, after: Host)
    requires PlanOf(s, SnapshotOf(host, s), allow).Planned? && Ran(host, s, p, after)
    ensures var again := SnapshotOf(after, s);
      && (forall operator <- s.operators :: operator in again.users)
      && StagingExists(s, again) && s.operatorGroup in again.groups && Creations(s, again) == []
  {
    forall operator <- s.operators ensures operator in SnapshotOf(after, s).users {
      assert operator in SnapshotOf(host, s).users;
    }
  }
}
