/** What holds over every interleaving of owners, hooks, deaths and reclaiming commands. */
module ServiceOperationRuns {

  import opened Common
  import opened ServiceOperation

  ghost predicate Next(s: State, t: State) {
    exists step :: Enabled(s, step) && t == Apply(s, step)
  }

  ghost predicate Run(h: seq<State>) {
    h != [] && forall i | 0 <= i < |h| - 1 :: Next(h[i], h[i + 1])
  }

  lemma {:induction false} RunKeepsInv(h: seq<State>, i: nat)
    requires Run(h) && Init(h[0]) && i < |h|
    ensures Inv(h[i])
  {
    if i == 0 {
      forall p: Pid ensures InvAt(h[0], p) {}
    } else {
      RunKeepsInv(h, i - 1);
      var step := StepAt(h, i - 1);
      StepKeepsInv(h[i - 1], step);
    }
  }

  lemma StepAt(h: seq<State>, i: nat) returns (step: Step)
    requires Run(h) && i < |h| - 1
    ensures Enabled(h[i], step) && h[i + 1] == Apply(h[i], step)
  {
    assert Next(h[i], h[i + 1]);
    step :| Enabled(h[i], step) && h[i + 1] == Apply(h[i], step);
  }

  // ---------------------------------------------------------------- exclusion

  /** At any moment at most one process is in a mutation section, whether it holds the
      lock or has lent it out around a systemd job. While a process has lent it out,
      whoever holds the lock is a hook, or a command about to be refused. */
  lemma OneMutator(h: seq<State>, i: nat, p: Pid, q: Pid)
    requires Run(h) && Init(h[0]) && i < |h|
    ensures InSection(At(h[i], p)) && InSection(At(h[i], q)) ==> p == q
    ensures (At(h[i], p).Window? || At(h[i], p).CompWindow?) && h[i].lock == Some(q) ==>
              At(h[i], q).HookIn? || At(h[i], q).HookApplied? || At(h[i], q) == Entering || At(h[i], q) == Failed
    ensures (At(h[i], p).Window? || At(h[i], p).CompWindow?) && At(h[i], q) == Entering ==>
              forall e | Enabled(h[i], Entry(q, e)) :: EntryApply(h[i], q, e) == Move(h[i], q, Failed)
  {
    RunKeepsInv(h, i);
    assert InvAt(h[i], p) && InvAt(h[i], q);
  }

  /** While the owner of an intent lives, wherever in its program it is, nobody but the owner
      and hooks runs a mutation: every other process that holds the lock or gets it is at lock
      entry, where it can only be refused, or has been refused. */
  lemma OnlyOwnerMutates(h: seq<State>, i: nat, q: Pid)
    requires Run(h) && Init(h[0]) && i < |h| && h[i].intent.Some? && OwnerAlive(h[i], h[i].intent.value)
    requires h[i].intent.value.owner != Some(q)
    ensures !InSection(At(h[i], q))
    ensures h[i].lock == Some(q) ==>
              At(h[i], q).HookIn? || At(h[i], q).HookApplied? || At(h[i], q) == Entering || At(h[i], q) == Failed
    ensures forall e | Enabled(h[i], Entry(q, e)) :: EntryApply(h[i], q, e) == Move(h[i], q, Failed)
    ensures forall a :: !Enabled(h[i], Owner(q, a))
    ensures forall a :: !Enabled(h[i], Comp(q, a))
  {
    hide RequestedHolds, PrestateHolds, StoppedHolds, Expected;
    RunKeepsInv(h, i);
    assert InvAt(h[i], q);
  }

  /** At work on an intent: operating, compensating or deleting. */
  predicate Working(pc: Pc) {
    || pc.OpPrepared? || pc.OpInvoking? || pc.Window? || pc.Back? || pc.Deleting?
    || pc.Broken? || pc.CompOpen? || pc.CompWindow? || pc.CompBack? || pc.CompDown? || pc.CompDowned? || pc.CompVerify?
  }

  /** The steps by which a process reports failure. */
  predicate Fails(step: Step) {
    || (step.Owner? && (step.owner.Abandon? || step.owner.DeleteFails?))
    || (step.Comp? && (step.comp.Fail? || step.comp == StopReturned(false)))
  }

  function AtEntry(pc: Pc): bool {
    match pc
    case Deleting(_, entry) => entry
    case Broken(_, entry) => entry
    case CompOpen(_, entry) => entry
    case CompWindow(_, entry) => entry
    case CompBack(_, entry) => entry
    case CompDown(_, entry) => entry
    case CompDowned(_, entry) => entry
    case CompVerify(_, entry) => entry
    case _ => false
  }

  /** `p` leaves its work on an intent alive. */
  predicate Leaves(s: State, t: State, p: Pid) { Working(At(s, p)) && !Working(At(t, p)) && Alive(t, p) }

  predicate LeavesFailed(s: State, t: State, p: Pid, step: Step) {
    Fails(step) && At(t, p) == if AtEntry(At(s, p)) then Failed else Body
  }

  lemma OwnerLeaves(s: State, a: Pid, act: OwnerAct, p: Pid)
    requires OwnerEnabled(s, a, act) && Leaves(s, OwnerApply(s, a, act), p)
    ensures OwnerApply(s, a, act).intent.None? || LeavesFailed(s, OwnerApply(s, a, act), p, Owner(a, act))
  {
    hide RequestedHolds, Owns;
  }

  lemma CompLeaves(s: State, a: Pid, act: CompAct, p: Pid)
    requires Inv(s) && CompEnabled(s, a, act) && Leaves(s, CompApply(s, a, act), p)
    ensures CompApply(s, a, act).intent.None? || LeavesFailed(s, CompApply(s, a, act), p, Comp(a, act))
  {
    hide StoppedHolds, Expected;
    assert InvAt(s, a);
  }

  lemma HookStays(s: State, a: Pid, act: HookAct, p: Pid)
    requires HookEnabled(s, a, act)
    ensures !Leaves(s, HookApplyTo(s, a, act), p)
  {
    hide AcceptsHooks, DownIsSafe, FirewallIs, Expected;
  }

  lemma EntryStays(s: State, a: Pid, act: EntryAct, p: Pid)
    requires EntryEnabled(s, a, act)
    ensures !Leaves(s, EntryApply(s, a, act), p)
  {
    hide NeverInvoked, AlreadyDone, OwnerAlive, Reclaimable;
  }

  lemma LifeStays(s: State, a: Pid, act: LifeAct, p: Pid)
    requires LifeEnabled(s, a, act)
    ensures !Leaves(s, LifeApply(s, a, act), p)
  {
  }

  /** A process that leaves its work on an intent alive either has deleted it or has failed; a
      command that fails so at lock entry is over, one that fails in its own operation goes on
      in its handlers. */
  lemma CallerFailsUnlessDeleted(h: seq<State>, i: nat, p: Pid)
    requires Run(h) && Init(h[0]) && i < |h| - 1 && Leaves(h[i], h[i + 1], p)
    ensures h[i + 1].intent.None?
            || exists step :: Enabled(h[i], step) && h[i + 1] == Apply(h[i], step) && LeavesFailed(h[i], h[i + 1], p, step)
  {
    hide Inv, Working, LifeEnabled, EntryEnabled, OwnerEnabled, CompEnabled, HookEnabled;
    hide LifeApply, EntryApply, OwnerApply, CompApply, HookApplyTo;
    RunKeepsInv(h, i);
    var step := StepAt(h, i);
    match step
    case Life(a, act) => LifeStays(h[i], a, act, p);
    case Entry(a, act) => EntryStays(h[i], a, act, p);
    case Owner(a, act) => OwnerLeaves(h[i], a, act, p);
    case Comp(a, act) => CompLeaves(h[i], a, act, p);
    case Hook(a, act) => HookStays(h[i], a, act, p);
    case JobChanges(_, _, _) =>
  }

  // ---------------------------------------------------------------- hooks

  /** The hooks an intent has accepted are the first `next` of the ones its goal expects,
      in order. A repeated hook changes neither firewall nor intent. */
  lemma HookDiscipline(h: seq<State>, i: nat)
    requires Run(h) && Init(h[0]) && i < |h| && h[i].intent.Some?
    ensures var intent := h[i].intent.value;
            && intent.next == |h[i].accepted|
            && h[i].accepted <= Expected(intent)
            && (intent.phase.Compensating? ==> Expected(intent) == [Down])
            && (intent.phase.Invoking? ==> Expected(intent) == RequestedActions(intent.request))
    ensures forall p: Pid | Enabled(h[i], Hook(p, HookRepeat)) ::
              var t := Apply(h[i], Hook(p, HookRepeat));
              t.fw == h[i].fw && t.intent == h[i].intent && t.accepted == h[i].accepted && t.generation == h[i].generation
  {
    RunKeepsInv(h, i);
  }

  /** The lock holder is a hook with the action that is due next, or compensation whose "down"
      is due; and "down" only once service and interface are gone. */
  predicate FirewallDue(s: State) {
    s.intent.Some? && s.lock.Some? &&
    var intent, pc := s.intent.value, At(s, s.lock.value);
    && (intent.phase.Invoking? || intent.phase.Compensating?)
    && intent.next < |Expected(intent)|
    && (pc == HookIn(Expected(intent)[intent.next]) || (pc.CompDown? && Expected(intent)[intent.next] == Down))
    && (Expected(intent)[intent.next].Down? ==> !s.active && !s.iface)
  }

  lemma DueByHook(s: State, p: Pid, act: HookAct)
    requires InvAt(s, p) && HookEnabled(s, p, act) && s.intent.Some? && HookApplyTo(s, p, act).fw != s.fw
    ensures FirewallDue(s)
  {
  }

  lemma DueByComp(s: State, p: Pid, act: CompAct)
    requires Inv(s) && CompEnabled(s, p, act) && s.intent.Some? && CompApply(s, p, act).fw != s.fw
    ensures FirewallDue(s)
  {
    assert InvAt(s, p);
  }

  /** Nobody changes the firewall under an intent but in its turn. */
  lemma FirewallChangesInTurn(h: seq<State>, i: nat)
    requires Run(h) && Init(h[0]) && i < |h| - 1 && h[i].intent.Some? && h[i + 1].fw != h[i].fw
    ensures FirewallDue(h[i])
  {
    hide InvAt, IntentOk, FirewallDue, Next, Expected;
    hide LifeEnabled, EntryEnabled, OwnerEnabled, CompEnabled, HookEnabled, CompApply, HookApplyTo;
    RunKeepsInv(h, i);
    var step := StepAt(h, i);
    match step {
      case Hook(p, act) => assert InvAt(h[i], p); DueByHook(h[i], p, act);
      case Comp(p, act) => DueByComp(h[i], p, act);
      case _ =>
    }
  }

  // ---------------------------------------------------------------- deletion

  predicate IsFor(s: State, op: OpId) { s.intent.Some? && s.intent.value.op == op }

  lemma OnlyDeletionRemoves(s: State, step: Step)
    requires Enabled(s, step) && s.intent.Some?
    ensures Apply(s, step).intent.None? ==> step.Owner? && step.owner.Delete?
    ensures Apply(s, step).intent.Some? ==> IsFor(Apply(s, step), s.intent.value.op)
  {
    hide RequestedHolds, PrestateHolds, StoppedHolds, Expected;
    match step
    case Life(_, _) =>
    case Entry(_, act) => match act { case FindDone => case _ => }
    case Owner(_, act) => match act { case Begin(_, _) => case Delete => case _ => }
    case Comp(_, act) => match act { case Open => case _ => }
    case Hook(_, act) => match act { case HookAdvance => case _ => }
    case JobChanges(_, _, _) =>
  }

  /** An intent stays that of its operation until one process, with the lock held and its
      owner gone or done, deletes it. */
  lemma {:induction false} StaysUntilDeleted(h: seq<State>, i: nat, j: nat, op: OpId)
    requires Run(h) && Init(h[0]) && i <= j < |h| && IsFor(h[i], op)
    ensures IsFor(h[j], op)
            || exists k, p: Pid | i <= k < j ::
                 IsFor(h[k], op) && Enabled(h[k], Owner(p, Delete)) && h[k + 1] == Apply(h[k], Owner(p, Delete))
                 && h[k].lock == Some(p) && !OwnerAlive(h[k], h[k].intent.value)
    decreases j - i
  {
    hide Inv, InvAt, Enabled, Apply;
    if i < j {
      var step := StepAt(h, i);
      OnlyDeletionRemoves(h[i], step);
      if h[i + 1].intent.None? {
        RunKeepsInv(h, i);
        DeleterHoldsLock(h[i], step.p);
      } else {
        StaysUntilDeleted(h, i + 1, j, op);
      }
    }
  }

  lemma DeleterHoldsLock(s: State, p: Pid)
    requires Inv(s) && Enabled(s, Owner(p, Delete))
    ensures s.lock == Some(p) && !OwnerAlive(s, s.intent.value)
  {
    assert InvAt(s, p);
  }

  /** The steps that establish the end of an operation: its owner, or a command that finds
      its intent, has just seen the prestate, the requested state or everything down. */
  predicate Checks(step: Step) {
    || (step.Entry? && (step.entry.FindNeverInvoked? || step.entry.FindDone?))
    || (step.Owner? && step.owner.CheckRequested?)
    || (step.Comp? && step.comp.Prove?)
  }

  lemma CheckedIsCoherent(s: State, step: Step)
    requires Inv(s) && Enabled(s, step) && Checks(step)
    ensures s.intent.Some? && Coherent(s, s.intent.value) && Coherent(Apply(s, step), s.intent.value)
    ensures Enabled(Apply(s, step), Owner(step.p, Delete))
    ensures var t := Apply(s, step); t == s.(intent := t.intent, pcs := t.pcs)
    ensures var t := Apply(s, step);
            t.intent.Some? && t.intent.value == s.intent.value.(phase := t.intent.value.phase, owner := t.intent.value.owner)
  {
    assert InvAt(s, step.p);
  }

  /** Waiting to be deleted, by `p` or by whoever finds it verified. */
  predicate Awaiting(s: State, p: Pid) {
    s.intent.Some? && (s.intent.value.phase.Verified? || At(s, p).Deleting?)
  }

  lemma AwaitingBeforeEntry(s: State, a: Pid, act: EntryAct, p: Pid)
    requires InvAt(s, a) && InvAt(s, p) && EntryEnabled(s, a, act) && Awaiting(EntryApply(s, a, act), p)
    requires !act.FindNeverInvoked? && !act.FindDone?
    ensures s.intent == EntryApply(s, a, act).intent && Awaiting(s, p)
  {
    hide RequestedHolds, PrestateHolds, Expected;
  }

  lemma AwaitingBeforeOwner(s: State, a: Pid, act: OwnerAct, p: Pid)
    requires InvAt(s, a) && InvAt(s, p) && OwnerEnabled(s, a, act) && Awaiting(OwnerApply(s, a, act), p)
    requires !act.CheckRequested?
    ensures s.intent == OwnerApply(s, a, act).intent && Awaiting(s, p)
  {
    hide RequestedHolds, PrestateHolds, Expected;
  }

  lemma AwaitingBeforeComp(s: State, a: Pid, act: CompAct, p: Pid)
    requires InvAt(s, a) && InvAt(s, p) && CompEnabled(s, a, act) && Awaiting(CompApply(s, a, act), p)
    requires !act.Prove?
    ensures s.intent == CompApply(s, a, act).intent && Awaiting(s, p)
  {
    hide RequestedHolds, StoppedHolds, Expected;
  }

  lemma AwaitingBeforeHook(s: State, a: Pid, act: HookAct, p: Pid)
    requires InvAt(s, a) && InvAt(s, p) && HookEnabled(s, a, act) && Awaiting(HookApplyTo(s, a, act), p)
    ensures s.intent == HookApplyTo(s, a, act).intent && Awaiting(s, p)
  {
    hide Expected;
  }

  lemma AwaitingBeforeLife(s: State, a: Pid, act: LifeAct, p: Pid)
    requires LifeEnabled(s, a, act) && Awaiting(LifeApply(s, a, act), p)
    ensures s.intent == LifeApply(s, a, act).intent && Awaiting(s, p)
  {
  }

  /** Between its last check and its deletion an intent stays as it is. */
  lemma CheckedBefore(s: State, step: Step, p: Pid)
    requires Inv(s) && Enabled(s, step) && !Checks(step) && Awaiting(Apply(s, step), p)
    ensures s.intent == Apply(s, step).intent && Awaiting(s, p)
  {
    hide InvAt, IntentOk, LifeEnabled, EntryEnabled, OwnerEnabled, CompEnabled, HookEnabled;
    hide LifeApply, EntryApply, OwnerApply, CompApply, HookApplyTo;
    assert InvAt(s, p) && (step.JobChanges? || InvAt(s, step.p));
    match step {
      case Hook(a, act) => AwaitingBeforeHook(s, a, act, p);
      case Life(a, act) => AwaitingBeforeLife(s, a, act, p);
      case Entry(a, act) => AwaitingBeforeEntry(s, a, act, p);
      case Owner(a, act) => AwaitingBeforeOwner(s, a, act, p);
      case Comp(a, act) => AwaitingBeforeComp(s, a, act, p);
      case JobChanges(_, _, _) =>
    }
  }

  /** Every deletion in every run goes back to a check, and in between the intent was the same. */
  lemma {:induction false} DeletionWasChecked(h: seq<State>, j: nat, p: Pid) returns (i: nat, step: Step)
    requires Run(h) && Init(h[0]) && j < |h| && Awaiting(h[j], p)
    ensures i < j && Checks(step) && Enabled(h[i], step) && h[i + 1] == Apply(h[i], step)
    ensures forall k | i < k <= j :: h[k].intent == h[j].intent
    decreases j
  {
    hide Enabled, Apply, Inv;
    i := j - 1;
    step := StepAt(h, i);
    RunKeepsInv(h, j - 1);
    if !Checks(step) {
      CheckedBefore(h[j - 1], step, p);
      i, step := DeletionWasChecked(h, j - 1, p);
    }
  }

  // ---------------------------------------------------------------- coherent deletion

  /** The operation is over or never began, and nobody is left to act on it. */
  predicate Over(s: State) {
    && s.intent.Some? && !OwnerAlive(s, s.intent.value)
    && (s.intent.value.phase.Verified? || s.intent.value.phase.Prepared?)
  }

  /** What may still change while such an intent waits for its deletion. */
  predicate Frozen(s: State, t: State) {
    && t.fw == s.fw && (t.job ==> s.job)
    && (!s.job ==> t.active == s.active && t.iface == s.iface)
  }

  lemma FrozenByEntry(s: State, p: Pid, act: EntryAct)
    requires Inv(s) && EntryEnabled(s, p, act) && Over(s) && EntryApply(s, p, act).intent == s.intent
    ensures Frozen(s, EntryApply(s, p, act)) && Over(EntryApply(s, p, act))
  {
    hide RequestedHolds, PrestateHolds;
    assert InvAt(s, p);
  }

  lemma FrozenByOwner(s: State, p: Pid, act: OwnerAct)
    requires Inv(s) && OwnerEnabled(s, p, act) && Over(s) && OwnerApply(s, p, act).intent == s.intent
    ensures Frozen(s, OwnerApply(s, p, act)) && Over(OwnerApply(s, p, act))
  {
    hide RequestedHolds, PrestateHolds;
    assert InvAt(s, p);
  }

  lemma FrozenByComp(s: State, p: Pid, act: CompAct)
    requires Inv(s) && CompEnabled(s, p, act) && Over(s) && CompApply(s, p, act).intent == s.intent
    ensures Frozen(s, CompApply(s, p, act)) && Over(CompApply(s, p, act))
  {
    hide RequestedHolds, PrestateHolds, StoppedHolds, IntentOk;
    assert InvAt(s, p);
  }

  lemma FrozenByHook(s: State, p: Pid, act: HookAct)
    requires Inv(s) && HookEnabled(s, p, act) && Over(s) && HookApplyTo(s, p, act).intent == s.intent
    ensures Frozen(s, HookApplyTo(s, p, act)) && Over(HookApplyTo(s, p, act))
  {
    hide RequestedHolds, PrestateHolds, StoppedHolds;
    assert InvAt(s, p);
  }

  lemma FrozenByLife(s: State, p: Pid, act: LifeAct)
    requires Inv(s) && LifeEnabled(s, p, act) && Over(s)
    ensures Frozen(s, LifeApply(s, p, act)) && Over(LifeApply(s, p, act))
  {
    hide RequestedHolds, PrestateHolds, StoppedHolds;
    assert InvAt(s, p);
  }

  /** As long as the intent stays, nobody can change the firewall or start a job. */
  lemma OverIsFrozen(s: State, step: Step)
    requires Inv(s) && Enabled(s, step) && Over(s) && Apply(s, step).intent == s.intent
    ensures Frozen(s, Apply(s, step)) && Over(Apply(s, step))
  {
    hide Inv, LifeEnabled, EntryEnabled, OwnerEnabled, CompEnabled, HookEnabled;
    hide LifeApply, EntryApply, OwnerApply, CompApply, HookApplyTo;
    match step {
      case JobChanges(_, _, _) =>
      case Life(p, act) => FrozenByLife(s, p, act);
      case Hook(p, act) => FrozenByHook(s, p, act);
      case Entry(p, act) => FrozenByEntry(s, p, act);
      case Owner(p, act) => FrozenByOwner(s, p, act);
      case Comp(p, act) => FrozenByComp(s, p, act);
    }
  }

  /** Once verified, only its deletion can touch an intent, and until then nobody can change
      the firewall or start a job. */
  lemma VerifiedIsFrozen(s: State, step: Step)
    requires Inv(s) && Enabled(s, step) && s.intent.Some? && s.intent.value.phase.Verified?
    ensures Apply(s, step).intent == s.intent || (Apply(s, step).intent.None? && step.Owner? && step.owner.Delete?)
    ensures Frozen(s, Apply(s, step))
  {
    hide RequestedHolds, PrestateHolds, StoppedHolds, Expected;
    if !step.JobChanges? { assert InvAt(s, step.p); }
    if Apply(s, step).intent == s.intent { OverIsFrozen(s, step); }
  }

  /** The requested state is the recorded prestate with the service turned round, under a
      firewall that already is as both want it: no job can spoil that. */
  predicate JobProof(s: State, i: Intent) {
    var wanted := i.request != Stop;
    && i.preActive != wanted && i.preUp == wanted
    && FirewallIs(s, if wanted then Up else Down) && i.next == |Expected(i)|
  }

  /** Whatever an outstanding job does to service and interface next. */
  lemma JobProofExactlyWhen(s: State, i: Intent)
    ensures JobProof(s, i) <==> forall a, f :: Coherent(s.(active := a, iface := f), i)
  {
    var wanted := i.request != Stop;
    if forall a, f :: Coherent(s.(active := a, iface := f), i) {
      assert Coherent(s.(active := true, iface := true), i);
      assert Coherent(s.(active := false, iface := true), i);
    }
  }

  ghost predicate KeepsIntent(g: seq<State>) { forall k | 0 <= k < |g| :: g[k].intent == g[0].intent }

  ghost predicate CanDelete(s: State) { exists p: Pid :: Enabled(s, Owner(p, Delete)) }

  /** However the run goes on, through whatever deaths and successors: when the intent that
      is there now is deleted, the prestate holds, or the request does, or all is down. */
  ghost predicate EndsCoherently(s: State)
    requires s.intent.Some?
  {
    forall g: seq<State> | Run(g) && g[0] == s && KeepsIntent(g) && CanDelete(g[|g| - 1]) ::
      Coherent(g[|g| - 1], s.intent.value)
  }

  lemma {:induction false} StaysFrozen(g: seq<State>, k: nat)
    requires Run(g) && Inv(g[0]) && Over(g[0]) && KeepsIntent(g) && k < |g|
    ensures Inv(g[k]) && Over(g[k]) && Frozen(g[0], g[k])
  {
    hide Inv, Enabled, Apply;
    if k > 0 {
      StaysFrozen(g, k - 1);
      var step := StepAt(g, k - 1);
      assert g[k - 1].intent == g[0].intent && g[k].intent == g[0].intent;
      OverIsFrozen(g[k - 1], step);
      StepKeepsInv(g[k - 1], step);
    }
  }

  lemma SafeToDelete(s: State)
    requires Inv(s) && Over(s) && Coherent(s, s.intent.value) && (!s.job || JobProof(s, s.intent.value))
    ensures EndsCoherently(s)
  {
    var i := s.intent.value;
    forall g: seq<State> | Run(g) && g[0] == s && KeepsIntent(g) && CanDelete(g[|g| - 1])
      ensures Coherent(g[|g| - 1], i)
    {
      var t := g[|g| - 1];
      StaysFrozen(g, |g| - 1);
      if s.job {
        JobProofExactlyWhen(t, i);
        assert Coherent(t.(active := t.active, iface := t.iface), i);
      }
    }
  }

  /** With a job outstanding, unless the firewall makes up for it, what the job does next
      can leave the intent to be deleted in none of the three states. */
  lemma SpoiltByJob(s: State, p: Pid)
    requires Enabled(s, Owner(p, Delete)) && s.job && !JobProof(s, s.intent.value)
    ensures !EndsCoherently(s)
  {
    JobProofExactlyWhen(s, s.intent.value);
    var a, f :| !Coherent(s.(active := a, iface := f), s.intent.value);
    var t := s.(active := a, iface := f);
    var g := Extend([s], JobChanges(a, f, s.job));
    assert g == [s, t] && Enabled(t, Owner(p, Delete));
    assert CanDelete(g[|g| - 1]);
  }

  /** At the moment of a deletion: it is coherent, and stays so while it is put off, if and
      only if one of the three states holds now and no job is outstanding, or none that
      matters. */
  lemma DeletionIsCoherentExactlyWhen(h: seq<State>, i: nat, p: Pid)
    requires Run(h) && Init(h[0]) && i < |h| && Enabled(h[i], Owner(p, Delete))
    ensures At(h[i], p).Deleting? && h[i].lock == Some(p) && Over(h[i])
    ensures var s := h[i];
            EndsCoherently(s) <==> Coherent(s, s.intent.value) && (!s.job || JobProof(s, s.intent.value))
  {
    var s := h[i];
    RunKeepsInv(h, i);
    assert InvAt(s, p);
    if !Coherent(s, s.intent.value) {
      var g := [s];
      assert Run(g) && KeepsIntent(g) && CanDelete(g[|g| - 1]);
    } else if s.job && !JobProof(s, s.intent.value) {
      SpoiltByJob(s, p);
    } else {
      SafeToDelete(s);
    }
  }

  /** At the check that establishes the end of an operation: the deletion it leads to is
      coherent, however it comes about, if and only if no systemd job is outstanding, or
      none that matters. */
  lemma CheckSufficesExactlyWhen(h: seq<State>, i: nat, step: Step)
    requires Run(h) && Init(h[0]) && i < |h| && Enabled(h[i], step) && Checks(step)
    ensures h[i].intent.Some? && Apply(h[i], step).intent.Some?
    ensures EndsCoherently(Apply(h[i], step)) <==> !h[i].job || JobProof(h[i], h[i].intent.value)
  {
    hide Inv, Enabled, Apply;
    var s, t := h[i], Apply(h[i], step);
    RunKeepsInv(h, i);
    CheckedIsCoherent(s, step);
    var g := ExtendAt(h, i, step);
    DeletionIsCoherentExactlyWhen(g, i + 1, step.p);
  }

  /** Every deletion in every run goes back to a check; and if no job that matters was
      outstanding then, one of the three states holds when the intent is deleted. */
  lemma DeletionIsCoherent(h: seq<State>, j: nat, p: Pid) returns (i: nat)
    requires Run(h) && Init(h[0]) && j < |h| && Enabled(h[j], Owner(p, Delete))
    ensures i < j && h[i].intent.Some? && Coherent(h[i], h[i].intent.value)
    ensures h[i].intent.value.op == h[j].intent.value.op
    ensures !h[i].job || JobProof(h[i], h[i].intent.value) ==> Coherent(h[j], h[j].intent.value)
  {
    var step;
    RunKeepsInv(h, j);
    assert InvAt(h[j], p);
    i, step := DeletionWasChecked(h, j, p);
    RunKeepsInv(h, i);
    CheckedIsCoherent(h[i], step);
    CheckSufficesExactlyWhen(h, i, step);
    Later(h, i + 1, j, p);
  }

  lemma Later(h: seq<State>, i: nat, j: nat, p: Pid)
    requires Run(h) && i <= j < |h| && Enabled(h[j], Owner(p, Delete))
    requires forall k | i <= k <= j :: h[k].intent == h[j].intent
    ensures EndsCoherently(h[i]) ==> Coherent(h[j], h[j].intent.value)
  {
    hide Enabled, Apply, Coherent;
    var g := h[i..j + 1];
    forall k | 0 <= k < |g| - 1 ensures Next(g[k], g[k + 1]) { assert Next(h[i + k], h[i + k + 1]); }
    assert g[0] == h[i] && g[|g| - 1] == h[j];
    assert h[i].intent == h[j].intent;
    assert KeepsIntent(g) && CanDelete(g[|g| - 1]);
  }

  lemma ExtendAt(h: seq<State>, i: nat, step: Step) returns (g: seq<State>)
    requires Run(h) && i < |h| && Enabled(h[i], step)
    ensures Run(g) && g == h[..i + 1] + [Apply(h[i], step)]
  {
    hide Enabled, Apply;
    var prefix := h[..i + 1];
    forall k | 0 <= k < |prefix| - 1 ensures Next(prefix[k], prefix[k + 1]) { assert Next(h[k], h[k + 1]); }
    g := Extend(prefix, step);
  }

  // ---------------------------------------------------------------- a job that outlives its owner

  lemma Extend(h: seq<State>, step: Step) returns (g: seq<State>)
    requires Run(h) && Enabled(h[|h| - 1], step)
    ensures Run(g) && g == h + [Apply(h[|h| - 1], step)]
  {
    g := h + [Apply(h[|h| - 1], step)];
    forall i | 0 <= i < |g| - 1 ensures Next(g[i], g[i + 1]) {
      if i < |h| - 1 { assert Next(h[i], h[i + 1]); } else { assert Enabled(g[i], step); }
    }
  }

  const RUNNING := State(None, None, map[], true, true, FwUp, false, 7, [])

  const RESTART := Intent(1, Restart, Invoking, Requested, 0, 7, Some(10), true, true)

  lemma RestartEntered() returns (h: seq<State>)
    ensures Run(h) && h[0] == RUNNING
    ensures h[|h| - 1] == RUNNING.(lock := Some(10), pcs := map[10 := Body])
  {
    h := [RUNNING];
    h := Extend(h, Life(10, Spawn));
    h := Extend(h, Life(10, Acquire));
    h := Extend(h, Entry(10, FindNone));
  }

  lemma RestartInvoked() returns (h: seq<State>)
    ensures Run(h) && h[0] == RUNNING
    ensures h[|h| - 1] == RUNNING.(intent := Some(RESTART), lock := Some(10), pcs := map[10 := OpInvoking(1)])
  {
    h := RestartEntered();
    h := Extend(h, Owner(10, Begin(Restart, 1)));
    h := Extend(h, Owner(10, Invoke));
  }

  /** The owner of a restart dies while its job has the interface down. */
  lemma OrphanedRestart() returns (h: seq<State>)
    ensures Run(h) && h[0] == RUNNING
    ensures h[|h| - 1] == State(Some(RESTART), None, map[10 := Gone], false, false, FwUp, true, 7, [])
  {
    h := RestartInvoked();
    h := Extend(h, Owner(10, Release));
    h := Extend(h, JobChanges(false, false, true));
    h := Extend(h, Life(10, Die));
  }

  lemma OrphanFound() returns (h: seq<State>)
    ensures Run(h) && h[0] == RUNNING
    ensures h[|h| - 1] == State(Some(RESTART), Some(11), map[10 := Gone, 11 := Entering], false, false, FwUp, true, 7, [])
  {
    h := OrphanedRestart();
    h := Extend(h, Life(11, Spawn));
    h := Extend(h, Life(11, Acquire));
  }

  lemma OrphanClaimed() returns (h: seq<State>)
    ensures Run(h) && h[0] == RUNNING
    ensures h[|h| - 1] == State(Some(RESTART.(owner := Some(11))), Some(11), map[10 := Gone, 11 := Broken(1, true)],
                                false, false, FwUp, true, 7, [])
  {
    h := OrphanFound();
    h := Extend(h, Entry(11, Claim));
  }

  lemma OrphanCompensated() returns (h: seq<State>)
    ensures Run(h) && h[0] == RUNNING
    ensures h[|h| - 1] == State(Some(RESTART.(owner := Some(11), phase := Compensating, goal := Stopped)),
                                Some(11), map[10 := Gone, 11 := CompDowned(1, true)], false, false, FwDown, true, 7, [])
  {
    h := OrphanClaimed();
    h := Extend(h, Comp(11, Open));
    h := Extend(h, Comp(11, SkipStop));
    h := Extend(h, Comp(11, ApplyDown(FwDown)));
  }

  /** The condition is needed: a reclaiming command sees everything down and verifies the
      stop, the orphaned job then brings the interface back, and the intent is deleted in
      a state that is neither the old one, nor the requested one, nor stopped. */
  lemma OutstandingJobBreaksCoherence() returns (h: seq<State>)
    ensures Run(h) && h[0] == RUNNING
    ensures var s := h[|h| - 1];
            s.intent.Some? && Enabled(s, Owner(11, Delete)) && !Coherent(s, s.intent.value)
  {
    h := OrphanCompensated();
    h := Extend(h, Comp(11, Advance));
    h := Extend(h, Comp(11, Prove));
    h := Extend(h, JobChanges(false, true, true));
  }

  // ---------------------------------------------------------------- what a dead owner leaves

  /** No process is left in a position to act for the intent's owner: the owner is gone or
      refused, or has just claimed the intent and has nothing to do but compensate. */
  predicate Abandoned(s: State, i: Intent) {
    i.owner.None? || var pc := At(s, i.owner.value); !InSection(pc) || (pc.Broken? && pc.entry)
  }

  /** The lock holder is about to delete the intent. */
  predicate DeletionDue(s: State) { s.lock.Some? && At(s, s.lock.value).Deleting? }

  /** A hook that has done its work is about to complete the requested operation. */
  predicate HookCompletes(s: State, i: Intent) {
    && s.lock.Some? && At(s, s.lock.value).HookApplied?
    && AlreadyDone(s, i.(next := i.next + 1))
  }

  /** The service is inactive, the kernel interface is still there, no job is outstanding
      that could change that, and neither is the operation found over. */
  predicate Stuck(s: State) {
    && s.intent.Some? && !s.job && !s.active && s.iface && !DeletionDue(s)
    && var i := s.intent.value;
       match i.phase
       case Verified => false
       case Compensating => true
       case Prepared => Abandoned(s, i) && !NeverInvoked(s, i)
       case Invoking => Abandoned(s, i) && !AlreadyDone(s, i) && !HookCompletes(s, i)
  }

  lemma StuckByHook(s: State, p: Pid, act: HookAct)
    requires Inv(s) && Stuck(s) && HookEnabled(s, p, act)
    ensures Stuck(HookApplyTo(s, p, act))
  {
    assert InvAt(s, p);
  }

  lemma StuckByLife(s: State, p: Pid, act: LifeAct)
    requires Inv(s) && Stuck(s) && LifeEnabled(s, p, act)
    ensures Stuck(LifeApply(s, p, act))
  {
    assert InvAt(s, p);
  }

  lemma StuckByEntry(s: State, p: Pid, act: EntryAct)
    requires Inv(s) && Stuck(s) && EntryEnabled(s, p, act)
    ensures Stuck(EntryApply(s, p, act))
  {
    assert InvAt(s, p);
  }

  lemma StuckByOwner(s: State, p: Pid, act: OwnerAct)
    requires Inv(s) && Stuck(s) && OwnerEnabled(s, p, act)
    ensures Stuck(OwnerApply(s, p, act))
  {
    assert InvAt(s, p);
  }

  lemma StuckByComp(s: State, p: Pid, act: CompAct)
    requires Inv(s) && Stuck(s) && CompEnabled(s, p, act)
    ensures Stuck(CompApply(s, p, act))
  {
    assert InvAt(s, p);
  }

  /** From there no step, of whichever process, leads out: compensation only stops a
      service it finds active, and refuses "firewall down" while the interface exists. */
  lemma StuckStays(s: State, step: Step)
    requires Inv(s) && Stuck(s) && Enabled(s, step)
    ensures Stuck(Apply(s, step))
  {
    hide Inv, HookEnabled, LifeEnabled, EntryEnabled, OwnerEnabled, CompEnabled;
    match step {
      case JobChanges(_, _, _) =>
      case Owner(p, act) => StuckByOwner(s, p, act);
      case Entry(p, act) => StuckByEntry(s, p, act);
      case Comp(p, act) => StuckByComp(s, p, act);
      case Hook(p, act) => StuckByHook(s, p, act);
      case Life(p, act) => StuckByLife(s, p, act);
    }
  }

  lemma {:induction false} StuckForever(g: seq<State>, j: nat)
    requires Run(g) && Inv(g[0]) && Stuck(g[0]) && j < |g|
    ensures Inv(g[j]) && Stuck(g[j])
  {
    hide Stuck, Inv, Enabled, Apply;
    if j > 0 {
      StuckForever(g, j - 1);
      var step := StepAt(g, j - 1);
      StuckStays(g[j - 1], step);
      StepKeepsInv(g[j - 1], step);
    }
  }

  // ---------------------------------------------------------------- reclaiming a dead owner's intent

  /** A process that is about to compensate, with no job outstanding. */
  predicate AboutToCompensate(s: State, p: Pid) {
    && At(s, p).Broken? && s.lock == Some(p) && !s.job
    && s.intent.Some? && s.intent.value.op == At(s, p).op && !s.intent.value.phase.Verified?
  }

  lemma DownFrom(h: seq<State>, p: Pid) returns (g: seq<State>)
    requires Run(h)
    requires var s := h[|h| - 1];
             && At(s, p).CompDown? && Owns(s, At(s, p).op, Compensating) && s.intent.value.next == 0
             && s.intent.value.generation == s.generation && !s.active && !s.iface && !s.job
    ensures Run(g) && h <= g && g[|g| - 1].intent.None? && StoppedHolds(g[|g| - 1])
  {
    g := Extend(h, Comp(p, ApplyDown(FwDown)));
    g := Extend(g, Comp(p, Advance));
    g := Extend(g, Comp(p, Prove));
    g := Extend(g, Owner(p, Delete));
  }

  lemma CompensateFrom(h: seq<State>, p: Pid) returns (g: seq<State>)
    requires Run(h) && AboutToCompensate(h[|h| - 1], p)
    requires h[|h| - 1].active || !h[|h| - 1].iface
    ensures Run(g) && h <= g && g[|g| - 1].intent.None? && StoppedHolds(g[|g| - 1])
  {
    hide Next, RequestedHolds, StoppedHolds, Expected;
    g := Extend(h, Comp(p, Open));
    if h[|h| - 1].active {
      g := Extend(g, Comp(p, StopService));
      g := Extend(g, JobChanges(false, false, false));
      g := Extend(g, Comp(p, StopReturned(true)));
      g := Extend(g, Comp(p, Recheck));
    } else {
      g := Extend(g, Comp(p, SkipStop));
    }
    g := DownFrom(g, p);
  }

  /** What a command finds over, without having to compensate. */
  predicate FoundOver(s: State, i: Intent) { i.phase.Verified? || NeverInvoked(s, i) || AlreadyDone(s, i) }

  lemma ReclaimFrom(h: seq<State>, p: Pid) returns (g: seq<State>)
    requires Run(h)
    requires var s := h[|h| - 1];
             && At(s, p) == Entering && s.lock == Some(p) && !s.job
             && s.intent.Some? && !OwnerAlive(s, s.intent.value)
             && (s.active || !s.iface || FoundOver(s, s.intent.value))
    ensures Run(g) && h <= g && g[|g| - 1].intent.None?
    ensures var i := h[|h| - 1].intent.value;
            !i.phase.Verified? ==>
              PrestateHolds(g[|g| - 1], i) || RequestedHolds(g[|g| - 1], i) || StoppedHolds(g[|g| - 1])
  {
    if FoundOver(h[|h| - 1], h[|h| - 1].intent.value) {
      g := FindAndDelete(h, p);
    } else {
      g := Extend(h, Entry(p, Claim));
      g := CompensateFrom(g, p);
    }
  }

  /** An intent whose operation is found over is deleted at once. */
  lemma FindAndDelete(h: seq<State>, p: Pid) returns (g: seq<State>)
    requires Run(h)
    requires var s := h[|h| - 1];
             && At(s, p) == Entering && s.lock == Some(p)
             && s.intent.Some? && !OwnerAlive(s, s.intent.value) && FoundOver(s, s.intent.value)
    ensures Run(g) && h <= g && g[|g| - 1].intent.None?
    ensures var i := h[|h| - 1].intent.value;
            !i.phase.Verified? ==>
              PrestateHolds(g[|g| - 1], i) || RequestedHolds(g[|g| - 1], i) || StoppedHolds(g[|g| - 1])
  {
    var s := h[|h| - 1];
    var i := s.intent.value;
    g := Extend(h, Entry(p, if i.phase.Verified? then FindVerified else if NeverInvoked(s, i) then FindNeverInvoked else FindDone));
    g := Extend(g, Owner(p, Delete));
  }

  /** With a cooperative environment a new command gets rid of a dead owner's intent at
      once, in one of the three states, wherever it is not stuck. */
  lemma DeadOwnerIsReclaimed(s: State, p: Pid) returns (g: seq<State>)
    requires s.intent.Some? && !OwnerAlive(s, s.intent.value) && s.lock.None? && !s.job && p !in s.pcs
    requires s.intent.value.owner != Some(p) && !Stuck(s)
    ensures Run(g) && g[0] == s && g[|g| - 1].intent.None?
    ensures !s.intent.value.phase.Verified? ==>
              PrestateHolds(g[|g| - 1], s.intent.value) || RequestedHolds(g[|g| - 1], s.intent.value)
              || StoppedHolds(g[|g| - 1])
  {
    g := Extend([s], Life(p, Spawn));
    g := Extend(g, Life(p, Acquire));
    g := ReclaimFrom(g, p);
  }

  ghost predicate ClearedBy(s: State, g: seq<State>) { Run(g) && g[0] == s && g[|g| - 1].intent.None? }

  /** Whoever holds the lock dies. */
  lemma LetHolderDie(h: seq<State>) returns (g: seq<State>)
    requires Run(h) && Inv(h[|h| - 1])
    ensures Run(g) && h <= g
    ensures var s, t := h[|h| - 1], g[|g| - 1];
            t.lock.None? && t == s.(lock := None, pcs := t.pcs) && t.pcs.Keys == s.pcs.Keys
            && forall p :: !Alive(s, p) ==> !Alive(t, p)
  {
    hide Next, RequestedHolds, StoppedHolds, Expected;
    var s := h[|h| - 1];
    g := h;
    if s.lock.Some? {
      assert InvAt(s, s.lock.value);
      g := Extend(g, Life(s.lock.value, Die));
    }
  }

  /** Whoever holds the lock dies, and an outstanding job comes to its end. */
  lemma Quieten(h: seq<State>) returns (g: seq<State>)
    requires Run(h) && Inv(h[|h| - 1]) && h[|h| - 1].intent.Some? && !OwnerAlive(h[|h| - 1], h[|h| - 1].intent.value)
    ensures Run(g) && h <= g
    ensures var s, t := h[|h| - 1], g[|g| - 1];
            && t.lock.None? && !t.job && t.pcs.Keys == s.pcs.Keys && t.intent == s.intent
            && !OwnerAlive(t, t.intent.value) && t.generation == s.generation && t.fw == s.fw
            && (if s.job then !t.iface else t.active == s.active && t.iface == s.iface)
  {
    hide Next, Inv;
    g := LetHolderDie(h);
    if h[|h| - 1].job { g := Extend(g, JobChanges(false, false, false)); }
  }

  lemma LetHookComplete(s: State) returns (g: seq<State>)
    requires Inv(s) && s.intent.Some? && !OwnerAlive(s, s.intent.value) && s.intent.value.phase.Invoking?
    requires !s.active && HookCompletes(s, s.intent.value)
    ensures Run(g) && g[0] == s
    ensures var t := g[|g| - 1];
            && Inv(t) && t.intent.Some? && !OwnerAlive(t, t.intent.value) && AlreadyDone(t, t.intent.value)
            && t.pcs.Keys == s.pcs.Keys
  {
    hide Next;
    var p := s.lock.value;
    assert InvAt(s, p);
    g := Extend([s], Hook(p, HookAdvance));
    StepKeepsInv(s, Hook(p, HookAdvance));
  }

  lemma ClearFrom(s: State, p: Pid) returns (g: seq<State>)
    requires Inv(s) && s.intent.Some? && !OwnerAlive(s, s.intent.value) && p !in s.pcs && !Stuck(s)
    ensures ClearedBy(s, g)
  {
    hide Next, RequestedHolds, PrestateHolds, StoppedHolds, Expected;
    if DeletionDue(s) {
      assert InvAt(s, s.lock.value);
      g := Extend([s], Owner(s.lock.value, Delete));
      return;
    }
    g := [s];
    if !s.job && !s.active && s.iface && !FoundOver(s, s.intent.value) { g := LetHookComplete(s); }
    g := ClearAfter(g, p);
  }

  lemma ClearAfter(h: seq<State>, p: Pid) returns (g: seq<State>)
    requires Run(h)
    requires var s := h[|h| - 1];
             && Inv(s) && s.intent.Some? && !OwnerAlive(s, s.intent.value) && p !in s.pcs
             && (s.job || s.active || !s.iface || FoundOver(s, s.intent.value))
    ensures Run(g) && h <= g && g[|g| - 1].intent.None?
  {
    hide Next, RequestedHolds, PrestateHolds, StoppedHolds, Expected, InvAt;
    g := Quieten(h);
    if !h[|h| - 1].job { StillOver(h[|h| - 1], g[|g| - 1]); }
    g := Extend(g, Life(p, Spawn));
    g := Extend(g, Life(p, Acquire));
    StillOver(g[|g| - 3], g[|g| - 1]);
    g := ReclaimFrom(g, p);
  }

  lemma StillOver(s: State, t: State)
    requires s.intent.Some? && t.intent == s.intent
    requires t.active == s.active && t.iface == s.iface && t.fw == s.fw && t.generation == s.generation
    ensures FoundOver(t, t.intent.value) == FoundOver(s, s.intent.value)
  {
  }

  /** Exactly when a dead owner's intent can still be got rid of, by whatever steps of
      whatever processes: when it is not stuck. With the lock free that is when a job is
      outstanding, the service is active, the interface is gone, or the operation is found
      over; with the lock held, also when its holder is about to delete or complete it. */
  lemma ClearedExactlyWhen(h: seq<State>, i: nat, p: Pid)
    requires Run(h) && Init(h[0]) && i < |h| && p !in h[i].pcs
    requires h[i].intent.Some? && !OwnerAlive(h[i], h[i].intent.value)
    ensures (exists g :: ClearedBy(h[i], g)) <==> !Stuck(h[i])
    ensures h[i].lock.None? ==>
              (Stuck(h[i]) <==> !h[i].job && !h[i].active && h[i].iface
                                && (h[i].intent.value.phase.Compensating? || !FoundOver(h[i], h[i].intent.value)))
  {
    var s := h[i];
    RunKeepsInv(h, i);
    if Stuck(s) {
      forall g: seq<State> ensures !ClearedBy(s, g) {
        if ClearedBy(s, g) { StuckForever(g, |g| - 1); }
      }
    } else {
      var g := ClearFrom(s, p);
    }
  }
}
