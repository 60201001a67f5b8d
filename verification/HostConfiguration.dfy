/** The host step of the installation: its identity commands, and their compensation. */
module HostConfiguration {
  import opened Common
  import opened Identity
  import opened HostAccounts
  import opened HostRollback

  /** How a command turns out: as it should, without any effect, or with its effect and an error. */
  datatype Fault = Works | Refuses | FailsAfterEffect

  datatype Outcome = NoPlan(problem: Problem) | Configured | Failed(compensationErrors: seq<Command>)

  class Accounts {
    var host: Host

    constructor (host: Host)
      ensures this.host == host
    {
      this.host := host;
    }

    method Run(c: Command, id: nat, fault: Fault) returns (ok: bool)
      modifies this
      ensures ok <==> fault == Works && Effect(old(host), c, id).Some?
      ensures host == if fault != Refuses && Effect(old(host), c, id).Some? then Effect(old(host), c, id).value else old(host)
    {
      var after := Effect(host, c, id);
      ok := fault == Works && after.Some?;
      if fault != Refuses && after.Some? { host := after.value; }
    }

    /** One of the rollback's loops: every command is attempted, and the failing ones are kept. */
    method RunUndos(cs: seq<Command>) returns (errors: seq<Command>)
      modifies this
      ensures Undoes(old(host), cs, host, errors)
    {
      errors := [];
      for i := 0 to |cs|
        invariant Undoes(old(host), cs[..i], host, errors)
      {
        ghost var before := host;
        var ok := Run(cs[i], 0, Works);
        if !ok { errors := errors + [cs[i]]; }
        OneUndoes(before, cs[i]);
        UndoesAppend(old(host), cs[..i], [cs[i]], before, host, errors[..|errors| - if ok then 0 else 1], if ok then [] else [cs[i]]);
        assert cs[..i + 1] == cs[..i] + [cs[i]];
      }
      assert cs[..|cs|] == cs;
    }

    method RollbackIdentities(p: Plan) returns (errors: seq<Command>)
      modifies this
      ensures Undoes(old(host), UndoOf(p), host, errors)
    {
      var a, b, c := RemovalsOf(Reversed(p.memberships)), DeletionsOf(Reversed(p.createdUsers)), GroupDeletionsOf(Reversed(p.createdGroups));
      errors := RunUndos(a);
      ghost var mid, first := host, errors;
      var more := RunUndos(b);
      ghost var later := host;
      errors := errors + more;
      UndoesAppend(old(host), a, b, mid, later, first, more);
      ghost var second := errors;
      more := RunUndos(c);
      errors := errors + more;
      UndoesAppend(old(host), a + b, c, later, host, second, more);
    }

    /** Commands in order until one fails; `done` counts those that took effect. */
    method RunCommands(cs: seq<Command>, ids: nat -> nat, faults: nat -> Fault) returns (ok: bool, ghost done: nat)
      modifies this
      ensures done <= |cs|
      ensures RunAll(old(host), cs[..done], Numbers(ids, |cs|)[..done]) == Some(host)
      ensures ok ==> done == |cs|
    {
      ghost var numbers := Numbers(ids, |cs|);
      ok, done := true, 0;
      for i := 0 to |cs|
        invariant ok && done == i
        invariant RunAll(old(host), cs[..i], numbers[..i]) == Some(host)
      {
        RunAllStep(old(host), cs, numbers, i);
        ghost var before := host;
        ok := Run(cs[i], ids(i), faults(i));
        if !ok {
          done := if faults(i) == FailsAfterEffect && Effect(before, cs[i], ids(i)).Some? then i + 1 else i;
          return;
        }
        done := i + 1;
      }
    }

    /** The host step. `rest` says whether the steps that install files and units succeed;
        `handed` that the caller supplied the picture of the accounts, which is then not taken
        again to check that they have converged. */
    method ConfigureHost(s: Settings, allowExisting: bool, ids: nat -> nat, faults: nat -> Fault, rest: bool, handed: bool)
      returns (r: Outcome, ghost done: nat)
      requires Valid(s)
      modifies this
      ensures r.NoPlan? <==> PlanOf(s, SnapshotOf(old(host), s), allowExisting).Refused?
      ensures r.NoPlan? ==> host == old(host)
      ensures r.Configured? && !handed ==> Converged(host, s)
      ensures r.Configured? ==> done == |PlanFor(s, SnapshotOf(old(host), s)).commands|
      ensures !r.NoPlan? ==>
        var cs := PlanFor(s, SnapshotOf(old(host), s)).commands;
        done <= |cs| && RunAll(old(host), cs[..done], Numbers(ids, |cs|)[..done]).Some?
      ensures r.Failed? ==>
        var cs := PlanFor(s, SnapshotOf(old(host), s)).commands;
        (host == old(host) <==> StrayFree(old(host), cs, Numbers(ids, |cs|), done))
      ensures r.Failed? && host == old(host) ==>
        (r.compensationErrors == [] <==> done == |PlanFor(s, SnapshotOf(old(host), s)).commands|)
    {
      var planned := BuildIdentityPlan(s, SnapshotOf(host, s), allowExisting);
      done := 0;
      if planned.Refused? { return NoPlan(planned.problem), 0; }
      var p := planned.plan;
      ghost var numbers := Numbers(ids, |p.commands|);
      var ok;
      ok, done := RunCommands(p.commands, ids, faults);
      if ok && rest {
        if handed { return Configured, done; }
        var again := BuildIdentityPlan(s, SnapshotOf(host, s), true);
        if again.Planned? && again.plan.commands == [] { return Configured, done; }
      }
      RollbackRestoresExactlyWhen(old(host), s, allowExisting, numbers, done);
      if StrayFree(old(host), p.commands, numbers, done) {
        RollbackRestores(old(host), s, allowExisting, numbers, done);
      }
      var errors := RollbackIdentities(p);
      r := Failed(errors);
    }
  }

  function Numbers(ids: nat -> nat, n: nat): (ns: seq<nat>)
    ensures |ns| == n && forall i :: 0 <= i < n ==> ns[i] == ids(i)
  {
    seq(n, i requires 0 <= i < n => ids(i))
  }
}
