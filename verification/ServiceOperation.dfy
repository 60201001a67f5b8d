/** Starting, stopping and restarting the tunnel service, as processes that interleave.

    A command that runs `systemctl` first writes an intent, gives up the mutation lock
    for the duration of the job, and takes it again afterwards. Firewall hooks, run by
    other processes, advance the intent meanwhile. A command that finds the intent of a
    dead owner reclaims and compensates it. One `Step` is one lock operation, one check
    or one durable write of one process; a systemd job is a process of its own that can
    outlive the command which asked for it. */
module ServiceOperation {

  import opened Common

  type Pid = nat     // process id together with its start tick: never reused
  type OpId = nat
  type Digest = nat  // digest of the managed files together with the current transition

  datatype Action = Up | Down
  datatype Request = Start | Stop | Restart
  datatype Phase = Prepared | Invoking | Compensating | Verified
  datatype Goal = Requested | Stopped

  datatype Intent = Intent(op: OpId, request: Request, phase: Phase, goal: Goal, next: nat, generation: Digest,
                           owner: Option<Pid>, preActive: bool, preUp: bool)

  /** What the firewall checker sees: exactly the managed rules, none, or something else. */
  datatype Firewall = FwUp | FwDown | FwOther

  /** Where a process is. `entry` tells deleting and compensating at lock entry, for another
      command's intent, from doing so inside a command's own service operation. */
  datatype Pc =
    | Gone | Outside | Entering | Failed | Body | Deleting(op: OpId, entry: bool)
    | OpPrepared(op: OpId) | OpInvoking(op: OpId) | Window(op: OpId) | Back(op: OpId)
    | Broken(op: OpId, entry: bool) | CompOpen(op: OpId, entry: bool) | CompWindow(op: OpId, entry: bool)
    | CompBack(op: OpId, entry: bool) | CompDown(op: OpId, entry: bool) | CompDowned(op: OpId, entry: bool)
    | CompVerify(op: OpId, entry: bool)
    | HookIn(action: Action) | HookApplied(op: OpId, action: Action)

  /** `accepted` is history: the hooks the current intent took for its current goal. */
  datatype State = State(
    intent: Option<Intent>,
    lock: Option<Pid>,
    pcs: map<Pid, Pc>,
    active: bool,      // systemd reports the unit active
    iface: bool,       // the kernel interface exists
    fw: Firewall,
    job: bool,         // a systemd job is outstanding
    generation: Digest,
    accepted: seq<Action>)

  function At(s: State, p: Pid): Pc { if p in s.pcs then s.pcs[p] else Gone }

  predicate Alive(s: State, p: Pid) { At(s, p) != Gone }

  function RequestedActions(r: Request): seq<Action> {
    match r
    case Start => [Up]
    case Stop => [Down]
    case Restart => [Down, Up]
  }

  function Expected(i: Intent): seq<Action> {
    if i.goal.Stopped? then [Down] else RequestedActions(i.request)
  }

  // ---------------------------------------------------------------- what may end an operation

  predicate FirewallIs(s: State, a: Action) { s.fw == if a.Up? then FwUp else FwDown }

  predicate PrestateHolds(s: State, i: Intent) {
    s.active == i.preActive && FirewallIs(s, if i.preUp then Up else Down)
  }

  predicate RequestedHolds(s: State, i: Intent) {
    var wanted := i.request != Stop;
    && s.active == wanted
    && FirewallIs(s, if wanted then Up else Down)
    && (i.next == |Expected(i)|
        || (i.request == Start && i.preActive && i.preUp)
        || (i.request == Stop && !i.preActive && !i.preUp))
  }

  predicate StoppedHolds(s: State) { !s.active && !s.iface && s.fw == FwDown }

  predicate Coherent(s: State, i: Intent) {
    PrestateHolds(s, i) || RequestedHolds(s, i) || StoppedHolds(s)
  }

  // ---------------------------------------------------------------- steps

  /** A process comes, dies, releases the lock, or takes it for an ordinary command. */
  datatype LifeAct = Spawn | Die | Leave | Acquire

  /** What a command does at lock entry with the intent it finds. */
  datatype EntryAct = FindNone | FindBusy | FindVerified | FindNeverInvoked | FindDone | Claim | Refuse

  /** The owner's own way through a start, stop or restart. */
  datatype OwnerAct =
    | Mutate(generation: Digest) | Begin(request: Request, op: OpId) | Abandon | Invoke | Release | Return(ok: bool)
    | CheckRequested | GiveUp | Delete | DeleteFails

  /** Fail-safe compensation, by the owner or by a process that claimed the intent. */
  datatype CompAct =
    | Open | StopService | SkipStop | StopReturned(ok: bool) | Recheck | ApplyDown(fw: Firewall) | Advance | Keep
    | Prove | Fail

  /** A firewall hook run by awg-quick, in a process of its own. */
  datatype HookAct =
    | HookAcquire(action: Action) | HookFree(fw: Firewall, generation: Digest)
    | HookApply(fw: Firewall, generation: Digest) | HookRepeat | HookAdvance | HookRefuse

  datatype Step =
    | Life(p: Pid, life: LifeAct)
    | Entry(p: Pid, entry: EntryAct)
    | Owner(p: Pid, owner: OwnerAct)
    | Comp(p: Pid, comp: CompAct)
    | Hook(p: Pid, hook: HookAct)
    | JobChanges(active: bool, iface: bool, job: bool)

  predicate OwnerAlive(s: State, i: Intent) { i.owner.Some? && Alive(s, i.owner.value) }

  predicate Reclaimable(s: State, p: Pid) {
    At(s, p) == Entering && s.intent.Some? && !s.intent.value.phase.Verified? && !OwnerAlive(s, s.intent.value)
  }

  predicate Owns(s: State, op: OpId, phase: Phase) {
    s.intent.Some? && s.intent.value.op == op && s.intent.value.phase == phase
  }

  predicate AcceptsHooks(s: State) {
    && s.intent.Some? && s.intent.value.generation == s.generation
    && (s.intent.value.phase.Invoking? || s.intent.value.phase.Compensating?)
  }

  /** The guard in front of every "firewall down". */
  predicate DownIsSafe(s: State, a: Action) { a.Down? ==> !s.active && !s.iface }

  predicate NeverInvoked(s: State, i: Intent) {
    i.phase.Prepared? && i.generation == s.generation && PrestateHolds(s, i)
  }

  predicate AlreadyDone(s: State, i: Intent) {
    i.phase.Invoking? && i.generation == s.generation && RequestedHolds(s, i)
  }

  /** Inside compensation with the lock held. */
  predicate CompPc(pc: Pc) {
    pc.Broken? || pc.CompOpen? || pc.CompBack? || pc.CompDown? || pc.CompDowned? || pc.CompVerify?
  }

  /** A failure at lock entry ends the command; inside an operation the command's own
      handlers still run. */
  function AfterFailure(entry: bool): Pc { if entry then Failed else Body }

  function Move(s: State, p: Pid, pc: Pc): State { s.(pcs := s.pcs[p := pc]) }

  function Unlock(s: State, p: Pid, pc: Pc): State {
    Move(s, p, pc).(lock := if s.lock == Some(p) then None else s.lock)
  }

  function Lock(s: State, p: Pid, pc: Pc): State { Move(s, p, pc).(lock := Some(p)) }

  function ToVerified(s: State, p: Pid, entry: bool): State
    requires s.intent.Some?
  {
    Move(s, p, Deleting(s.intent.value.op, entry)).(intent := Some(s.intent.value.(phase := Verified, owner := None)))
  }

  predicate LifeEnabled(s: State, p: Pid, act: LifeAct) {
    match act
    case Spawn => p !in s.pcs
    case Die => Alive(s, p)
    case Leave => At(s, p) == Body || At(s, p) == Failed
    case Acquire => At(s, p) == Outside && s.lock.None?
  }

  function LifeApply(s: State, p: Pid, act: LifeAct): State {
    match act
    case Spawn => Move(s, p, Outside)
    case Die => Unlock(s, p, Gone)
    case Leave => Unlock(s, p, Outside)
    case Acquire => Lock(s, p, Entering)
  }

  predicate EntryEnabled(s: State, p: Pid, act: EntryAct) {
    && At(s, p) == Entering
    && match act
       case FindNone => s.intent.None?
       case FindBusy => s.intent.Some? && OwnerAlive(s, s.intent.value)
       case FindVerified => s.intent.Some? && s.intent.value.phase.Verified?
       case FindNeverInvoked => Reclaimable(s, p) && NeverInvoked(s, s.intent.value)
       case FindDone => Reclaimable(s, p) && AlreadyDone(s, s.intent.value)
       case Claim => Reclaimable(s, p) && !NeverInvoked(s, s.intent.value) && !AlreadyDone(s, s.intent.value)
       case Refuse => true
  }

  function EntryApply(s: State, p: Pid, act: EntryAct): State
    requires EntryEnabled(s, p, act)
  {
    match act
    case FindNone => Move(s, p, Body)
    case FindBusy => Move(s, p, Failed)
    case FindVerified => Move(s, p, Deleting(s.intent.value.op, true))
    case FindNeverInvoked => Move(s, p, Deleting(s.intent.value.op, true))
    case FindDone => ToVerified(s, p, true)
    case Claim => Move(s, p, Broken(s.intent.value.op, true)).(intent := Some(s.intent.value.(owner := Some(p))))
    case Refuse => Move(s, p, Failed)
  }

  predicate OwnerEnabled(s: State, p: Pid, act: OwnerAct) {
    match act
    case Mutate(_) => At(s, p) == Body
    case Begin(_, _) => At(s, p) == Body && s.intent.None? && s.fw != FwOther
    case Abandon => At(s, p).OpPrepared?
    case Invoke => At(s, p).OpPrepared? && Owns(s, At(s, p).op, Prepared)
    case Release => At(s, p).OpInvoking?
    case Return(ok) => At(s, p).Window? && s.lock.None? && (ok ==> !s.job)
    case CheckRequested => At(s, p).Back? && Owns(s, At(s, p).op, Invoking) && RequestedHolds(s, s.intent.value)
    case GiveUp => At(s, p).Back? || At(s, p).OpInvoking?
    case Delete => At(s, p).Deleting? && s.intent.Some? && s.intent.value.op == At(s, p).op
    case DeleteFails => At(s, p).Deleting?
  }

  function OwnerApply(s: State, p: Pid, act: OwnerAct): State
    requires OwnerEnabled(s, p, act)
  {
    match act
    case Mutate(g) => s.(generation := g)
    case Begin(r, op) =>
      Move(s, p, OpPrepared(op)).(
        intent := Some(Intent(op, r, Prepared, Requested, 0, s.generation, Some(p), s.active, s.fw == FwUp)),
        accepted := [])
    case Abandon => Move(s, p, Body)
    case Invoke => Move(s, p, OpInvoking(At(s, p).op)).(intent := Some(s.intent.value.(phase := Invoking)))
    case Release => Unlock(s, p, Window(At(s, p).op)).(job := true)
    case Return(ok) => Lock(s, p, if ok then Back(At(s, p).op) else Broken(At(s, p).op, false))
    case CheckRequested => ToVerified(s, p, false)
    case GiveUp => Move(s, p, Broken(At(s, p).op, false))
    case Delete => Move(s, p, Body).(intent := None)
    case DeleteFails => Move(s, p, AfterFailure(At(s, p).entry))
  }

  predicate CompEnabled(s: State, p: Pid, act: CompAct) {
    match act
    case Open => At(s, p).Broken?
    case StopService => At(s, p).CompOpen? && s.active
    case SkipStop => At(s, p).CompOpen? && !s.active
    case StopReturned(ok) => At(s, p).CompWindow? && s.lock.None? && (ok ==> !s.job)
    case Recheck => At(s, p).CompBack? && !s.active
    case ApplyDown(_) =>
      && At(s, p).CompDown? && Owns(s, At(s, p).op, Compensating) && s.intent.value.next == 0
      && AcceptsHooks(s) && DownIsSafe(s, Down)
    case Advance => At(s, p).CompDowned? && Owns(s, At(s, p).op, Compensating) && s.fw == FwDown
    case Keep => At(s, p).CompDown? && Owns(s, At(s, p).op, Compensating) && s.intent.value.next != 0
    case Prove => At(s, p).CompVerify? && Owns(s, At(s, p).op, Compensating) && StoppedHolds(s)
    case Fail => CompPc(At(s, p))
  }

  function CompApply(s: State, p: Pid, act: CompAct): State
    requires CompEnabled(s, p, act)
  {
    match act
    case Open =>
      if s.intent.Some? && s.intent.value.op == At(s, p).op && !s.intent.value.phase.Verified? then
        Move(s, p, CompOpen(At(s, p).op, At(s, p).entry)).(
          intent := Some(s.intent.value.(phase := Compensating, goal := Stopped, next := 0, generation := s.generation)),
          accepted := [])
      else Move(s, p, Body)
    case StopService => Unlock(s, p, CompWindow(At(s, p).op, At(s, p).entry)).(job := true)
    case SkipStop => Move(s, p, CompDown(At(s, p).op, At(s, p).entry))
    case StopReturned(ok) => Lock(s, p, if ok then CompBack(At(s, p).op, At(s, p).entry) else AfterFailure(At(s, p).entry))
    case Recheck => Move(s, p, CompDown(At(s, p).op, At(s, p).entry))
    case ApplyDown(fw) => Move(s, p, CompDowned(At(s, p).op, At(s, p).entry)).(fw := fw)
    case Advance =>
      Move(s, p, CompVerify(At(s, p).op, At(s, p).entry)).(intent := Some(s.intent.value.(next := 1)), accepted := s.accepted + [Down])
    case Keep => Move(s, p, CompVerify(At(s, p).op, At(s, p).entry))
    case Prove => ToVerified(s, p, At(s, p).entry)
    case Fail => Move(s, p, AfterFailure(At(s, p).entry))
  }

  predicate HookEnabled(s: State, p: Pid, act: HookAct) {
    match act
    case HookAcquire(_) => At(s, p) == Outside && s.lock.None?
    case HookFree(_, _) => At(s, p).HookIn? && s.intent.None? && DownIsSafe(s, At(s, p).action)
    case HookApply(_, _) =>
      && At(s, p).HookIn? && AcceptsHooks(s) && DownIsSafe(s, At(s, p).action)
      && s.intent.value.next < |Expected(s.intent.value)|
      && Expected(s.intent.value)[s.intent.value.next] == At(s, p).action
    case HookRepeat =>
      && At(s, p).HookIn? && AcceptsHooks(s) && DownIsSafe(s, At(s, p).action)
      && 0 < s.intent.value.next <= |Expected(s.intent.value)|
      && Expected(s.intent.value)[s.intent.value.next - 1] == At(s, p).action
      && FirewallIs(s, At(s, p).action)
    case HookAdvance =>
      && At(s, p).HookApplied? && FirewallIs(s, At(s, p).action)
      && s.intent.Some? && s.intent.value.op == At(s, p).op
    case HookRefuse => At(s, p).HookIn? || At(s, p).HookApplied?
  }

  function HookApplyTo(s: State, p: Pid, act: HookAct): State
    requires HookEnabled(s, p, act)
  {
    match act
    case HookAcquire(a) => Lock(s, p, HookIn(a))
    case HookFree(fw, g) => Move(s, p, Failed).(fw := fw, generation := g)
    case HookApply(fw, g) =>
      Move(s, p, HookApplied(s.intent.value.op, At(s, p).action)).(fw := fw, generation := g)
    case HookRepeat => Move(s, p, Failed)
    case HookAdvance =>
      Move(s, p, Failed).(intent := Some(s.intent.value.(next := s.intent.value.next + 1)),
                          accepted := s.accepted + [At(s, p).action])
    case HookRefuse => Move(s, p, Failed)
  }

  predicate Enabled(s: State, step: Step) {
    match step
    case Life(p, act) => LifeEnabled(s, p, act)
    case Entry(p, act) => EntryEnabled(s, p, act)
    case Owner(p, act) => OwnerEnabled(s, p, act)
    case Comp(p, act) => CompEnabled(s, p, act)
    case Hook(p, act) => HookEnabled(s, p, act)
    case JobChanges(_, _, _) => s.job
  }

  function Apply(s: State, step: Step): State
    requires Enabled(s, step)
  {
    match step
    case Life(p, act) => LifeApply(s, p, act)
    case Entry(p, act) => EntryApply(s, p, act)
    case Owner(p, act) => OwnerApply(s, p, act)
    case Comp(p, act) => CompApply(s, p, act)
    case Hook(p, act) => HookApplyTo(s, p, act)
    case JobChanges(a, i, j) => s.(active := a, iface := i, job := j)
  }

  // ---------------------------------------------------------------- the invariant

  /** Who holds the mutation lock, by where it is in its program. */
  predicate HoldsLock(pc: Pc) {
    !(pc.Gone? || pc.Outside? || pc.Window? || pc.CompWindow?)
  }

  /** Running a mutation, or a service operation on its behalf, with or without the lock. */
  predicate InSection(pc: Pc) {
    !(pc.Gone? || pc.Outside? || pc.Entering? || pc.Failed? || pc.HookIn? || pc.HookApplied?)
  }

  predicate OwnedAt(s: State, p: Pid, op: OpId, phase: Phase) {
    Owns(s, op, phase) && s.intent.value.owner == Some(p)
  }

  /** What each place in the program knows about the intent. */
  predicate PcKnows(s: State, p: Pid) {
    match At(s, p)
    case OpPrepared(op) => OwnedAt(s, p, op, Prepared)
    case OpInvoking(op) => OwnedAt(s, p, op, Invoking)
    case Window(op) => OwnedAt(s, p, op, Invoking)
    case Back(op) => OwnedAt(s, p, op, Invoking)
    case CompOpen(op, _) => OwnedAt(s, p, op, Compensating)
    case CompWindow(op, _) => OwnedAt(s, p, op, Compensating)
    case CompBack(op, _) => OwnedAt(s, p, op, Compensating)
    case CompDown(op, _) => OwnedAt(s, p, op, Compensating)
    case CompDowned(op, _) => OwnedAt(s, p, op, Compensating) && s.intent.value.next == 0
    case CompVerify(op, _) => OwnedAt(s, p, op, Compensating)
    case Deleting(op, entry) =>
      && s.intent.Some? && s.intent.value.op == op && !OwnerAlive(s, s.intent.value)
      && (s.intent.value.phase.Verified? || (entry && s.intent.value.phase.Prepared?))
    case HookApplied(op, a) =>
      && s.intent.Some? && s.intent.value.op == op
      && (s.intent.value.phase.Invoking? || s.intent.value.phase.Compensating?)
      && s.intent.value.next < |Expected(s.intent.value)| && Expected(s.intent.value)[s.intent.value.next] == a
    case Broken(op, _) => s.intent.Some? && s.intent.value.op == op && s.intent.value.owner == Some(p)
    case Body =>
      s.intent.Some? ==> s.intent.value.phase.Verified? || s.intent.value.owner == Some(p)
    case _ => true
  }

  predicate IntentOk(s: State, i: Intent) {
    && i.next <= |Expected(i)| && s.accepted == Expected(i)[..i.next]
    && (i.phase.Compensating? ==> i.goal.Stopped?)
    && (i.phase.Prepared? || i.phase.Invoking? ==> i.goal.Requested?)
    && (i.phase.Verified? <==> i.owner.None?)
    && (i.owner.Some? ==> i.owner.value in s.pcs)
  }

  /** The part of the invariant that speaks of one process. */
  predicate InvAt(s: State, p: Pid) {
    (HoldsLock(At(s, p)) <==> s.lock == Some(p)) && PcKnows(s, p)
  }

  ghost predicate Inv(s: State) {
    && (forall p: Pid :: InvAt(s, p))
    && (s.intent.Some? ==> IntentOk(s, s.intent.value))
  }

  predicate Init(s: State) {
    s.intent.None? && s.lock.None? && s.pcs == map[] && !s.job
  }

  /** What `Kept` asks of a step: the intent stays well formed, and so does what any one
      process, the actor `a` or another, knows. */
  predicate Kept(s: State, t: State, a: Pid, p: Pid) {
    && (InvAt(s, a) && InvAt(s, p) && (s.intent.Some? ==> IntentOk(s, s.intent.value)) ==>
          InvAt(t, p) && (t.intent.Some? ==> IntentOk(t, t.intent.value)))
  }

  lemma LifeKept(s: State, a: Pid, act: LifeAct, p: Pid)
    requires LifeEnabled(s, a, act)
    ensures Kept(s, LifeApply(s, a, act), a, p)
  {
  }

  lemma EntryKept(s: State, a: Pid, act: EntryAct, p: Pid)
    requires EntryEnabled(s, a, act)
    ensures Kept(s, EntryApply(s, a, act), a, p)
  {
  }

  lemma OwnerKeptByActor(s: State, a: Pid, act: OwnerAct)
    requires OwnerEnabled(s, a, act)
    ensures InvAt(s, a) && (s.intent.Some? ==> IntentOk(s, s.intent.value)) ==> InvAt(OwnerApply(s, a, act), a)
  {
  }

  lemma OwnerKeepsIntent(s: State, a: Pid, act: OwnerAct)
    requires OwnerEnabled(s, a, act) && InvAt(s, a) && (s.intent.Some? ==> IntentOk(s, s.intent.value))
    ensures var t := OwnerApply(s, a, act); t.intent.Some? ==> IntentOk(t, t.intent.value)
  {
  }

  lemma OwnerKeptForOther(s: State, a: Pid, act: OwnerAct, p: Pid)
    requires OwnerEnabled(s, a, act) && p != a
    ensures InvAt(s, a) && InvAt(s, p) && (s.intent.Some? ==> IntentOk(s, s.intent.value)) ==>
              InvAt(OwnerApply(s, a, act), p)
  {
    hide RequestedHolds, PrestateHolds, StoppedHolds, NeverInvoked, AlreadyDone;
  }

  lemma CompKeptByActor(s: State, a: Pid, act: CompAct)
    requires CompEnabled(s, a, act)
    ensures InvAt(s, a) && (s.intent.Some? ==> IntentOk(s, s.intent.value)) ==> InvAt(CompApply(s, a, act), a)
  {
    hide RequestedHolds, StoppedHolds, IntentOk, Expected;
  }

  lemma CompKeepsIntent(s: State, a: Pid, act: CompAct)
    requires CompEnabled(s, a, act) && InvAt(s, a) && (s.intent.Some? ==> IntentOk(s, s.intent.value))
    ensures var t := CompApply(s, a, act); t.intent.Some? ==> IntentOk(t, t.intent.value)
  {
  }

  lemma CompKeptForOther(s: State, a: Pid, act: CompAct, p: Pid)
    requires CompEnabled(s, a, act) && p != a
    ensures InvAt(s, a) && InvAt(s, p) && (s.intent.Some? ==> IntentOk(s, s.intent.value)) ==>
              InvAt(CompApply(s, a, act), p)
  {
    hide RequestedHolds, StoppedHolds, IntentOk;
  }

  lemma HookKept(s: State, a: Pid, act: HookAct, p: Pid)
    requires HookEnabled(s, a, act)
    ensures Kept(s, HookApplyTo(s, a, act), a, p)
  {
    hide RequestedHolds, PrestateHolds, StoppedHolds, NeverInvoked, AlreadyDone;
  }

  lemma KeptAt(s: State, step: Step, p: Pid)
    requires Inv(s) && Enabled(s, step)
    ensures InvAt(Apply(s, step), p)
    ensures Apply(s, step).intent.Some? ==> IntentOk(Apply(s, step), Apply(s, step).intent.value)
  {
    assert InvAt(s, p);
    assert step.JobChanges? || InvAt(s, step.p);
    match step
    case Life(a, act) => LifeKept(s, a, act, p);
    case Entry(a, act) => EntryKept(s, a, act, p);
    case Owner(a, act) =>
      OwnerKeptByActor(s, a, act);
      OwnerKeepsIntent(s, a, act);
      if p != a { OwnerKeptForOther(s, a, act, p); }
    case Comp(a, act) =>
      CompKeptByActor(s, a, act);
      CompKeepsIntent(s, a, act);
      if p != a { CompKeptForOther(s, a, act, p); }
    case Hook(a, act) => HookKept(s, a, act, p);
    case JobChanges(_, _, _) =>
  }

  lemma StepKeepsInv(s: State, step: Step)
    requires Inv(s) && Enabled(s, step)
    ensures Inv(Apply(s, step))
  {
    KeptAt(s, step, 0);
    forall p: Pid ensures InvAt(Apply(s, step), p) { KeptAt(s, step, p); }
  }
}
