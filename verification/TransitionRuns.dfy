/** What holds over every run of the transition protocol, however often a command
    is cut between two durable writes. */
module TransitionRuns {

  import opened Common
  import opened Transition

  ghost predicate Next(s: Store, t: Store) {
    exists step :: Enabled(s, step) && t == Apply(s, step)
  }

  ghost predicate Run(h: seq<Store>) {
    h != [] && forall i | 0 <= i < |h| - 1 :: Next(h[i], h[i + 1])
  }

  // ---------------------------------------------------------------- coupling

  lemma {:induction false} RunKeepsInv(h: seq<Store>, i: nat)
    requires Run(h) && Inv(h[0]) && i < |h|
    ensures Inv(h[i])
  {
    if i > 0 {
      RunKeepsInv(h, i - 1);
      assert Next(h[i - 1], h[i - 1 + 1]);
      var step :| Enabled(h[i - 1], step) && h[i] == Apply(h[i - 1], step);
      StepKeepsInv(h[i - 1], step);
    }
  }

  /** In every reachable store: a journal names the document or the outcome; an
      incomplete outcome has no foreign document; the first two cleanup phases still
      have the document, the last two no longer do. So neither the "lost its pending
      artifact identity" error nor the "complete with a live document" repair is
      ever taken. */
  lemma ReachableIsCoupled(h: seq<Store>, i: nat)
    requires Run(h) && Init(h[0]) && i < |h|
    ensures var s := h[i];
            && (forall j | s.journal == Some(j) :: IsDoc(s, j.id) || IsOutcome(s, j.id))
            && (forall o | s.outcome == Some(o) ::
                  && (o.phase != AtComplete && s.doc.Some? ==> IsDoc(s, o.id))
                  && (o.phase == AtCheckpoint || o.phase == AtMetadata ==> IsDoc(s, o.id))
                  && (o.phase == AtCurrent || o.phase == AtComplete ==> !IsDoc(s, o.id))
                  && (o.phase != AtComplete && o.decision == Confirmed ==> s.live != Classic)
                  && (o.phase != AtComplete && o.decision == RolledBack ==> s.live == Classic || o.reason == Expiry))
            && (s.doc.None? && s.live == Mixed ==>
                  exists o | s.outcome == Some(o) :: o.decision == Confirmed || o.reason == Expiry)
  {
    RunKeepsInv(h, i);
  }

  // ---------------------------------------------------------------- one decision

  /** `id` was decided and its outcome record has since been replaced. */
  predicate Retired(s: Store, id: Id) { id in s.decided && !IsOutcome(s, id) }

  predicate NoLaterThan(s: Store, t: Store, id: Id) {
    && IsOutcome(s, id) && IsOutcome(t, id)
    && Rank(s.outcome.value.phase) <= Rank(t.outcome.value.phase)
    && t.outcome.value == s.outcome.value.(phase := t.outcome.value.phase)
  }

  lemma StepKeepsDecisions(s: Store, step: Step, id: Id)
    requires Inv(s) && Enabled(s, step) && id in s.decided
    ensures var t := Apply(s, step);
            && id in t.decided && t.decided[id] == s.decided[id]
            && (Retired(s, id) ==> Retired(t, id))
            && (IsOutcome(s, id) ==> Retired(t, id) || NoLaterThan(s, t, id))
            && (IsOutcome(s, id) && Retired(t, id) ==> s.outcome.value.phase == AtComplete)
  {
  }

  /** A transaction is decided at most once, its recorded outcome never changes except
      for its cleanup phase, and that phase never moves back. */
  lemma {:induction false} OneDecision(h: seq<Store>, i: nat, j: nat, id: Id)
    requires Run(h) && Inv(h[0]) && i <= j < |h| && id in h[i].decided
    ensures id in h[j].decided && h[j].decided[id] == h[i].decided[id]
    ensures Retired(h[i], id) ==> Retired(h[j], id)
    ensures IsOutcome(h[j], id) ==> NoLaterThan(h[i], h[j], id)
    ensures IsOutcome(h[j], id) ==> h[j].outcome.value.decision == h[i].decided[id]
    decreases j - i
  {
    RunKeepsInv(h, i);
    RunKeepsInv(h, j);
    if i < j {
      assert Next(h[i], h[i + 1]);
      var step :| Enabled(h[i], step) && h[i + 1] == Apply(h[i], step);
      StepKeepsDecisions(h[i], step, id);
      OneDecision(h, i + 1, j, id);
    }
  }

  /** No run confirms and rolls back the same transaction. */
  lemma NeverBothDecided(h: seq<Store>, i: nat, j: nat, id: Id)
    requires Run(h) && Inv(h[0]) && i < |h| && j < |h|
    requires IsOutcome(h[i], id) && IsOutcome(h[j], id)
    ensures h[i].outcome.value.decision == h[j].outcome.value.decision
    ensures h[i].outcome.value.completedAt == h[j].outcome.value.completedAt
    ensures h[i].outcome.value.updates == h[j].outcome.value.updates
  {
    RunKeepsInv(h, i);
    RunKeepsInv(h, j);
    if i <= j { OneDecision(h, i, j, id); } else { OneDecision(h, j, i, id); }
  }

  // ---------------------------------------------------------------- crash convergence

  function Lookup(us: seq<Update>, n: Name): Option<Update> {
    if us == [] then None
    else if us[0].name == n then Some(us[0])
    else Lookup(us[1..], n)
  }

  lemma {:induction false} LookupFinds(us: seq<Update>, u: Update)
    requires u in us
    requires forall i, j | 0 <= i < j < |us| :: us[i].name != us[j].name
    ensures Lookup(us, u.name) == Some(u)
  {
    var i :| 0 <= i < |us| && us[i] == u;
    if i > 0 {
      assert us[0].name != us[i].name;
      assert us[1..][i - 1] == u;
      LookupFinds(us[1..], u);
    }
  }

  lemma {:induction false} LookupSound(us: seq<Update>, n: Name)
    ensures Lookup(us, n).Some? ==> Lookup(us, n).value in us && Lookup(us, n).value.name == n
  {
    if us != [] && us[0].name != n { LookupSound(us[1..], n); }
  }

  /** The metadata a profile has once the outcome's updates are all in place. */
  function Updated(m: Metadata, n: Name, o: Outcome): Metadata {
    match Lookup(o.updates, n)
    case Some(u) => if m.revision == u.before then MarkRegenerated(m, o.completedAt) else m
    case None => m
  }

  function AllUpdated(profiles: map<Name, Metadata>, o: Outcome): map<Name, Metadata> {
    map n | n in profiles :: Updated(profiles[n], n, o)
  }

  /** The store that terminal cleanup is heading for: phase complete, pending tree gone,
      document gone, every listed profile at its target revision, recovery timer gone. */
  function Finished(s: Store): Store
    requires s.outcome.Some?
  {
    var o := s.outcome.value;
    if o.phase == AtComplete then s
    else s.(doc := None,
            outcome := Some(o.(phase := AtComplete)),
            profiles := if o.phase == AtCheckpoint then AllUpdated(s.profiles, o) else s.profiles,
            pending := s.pending - {o.id},
            recovery := s.recovery - {o.id})
  }

  /** The writes that terminal cleanup makes for the recorded outcome. */
  predicate CleanupStep(s: Store, step: Step) {
    && s.outcome.Some? && s.outcome.value.phase != AtComplete
    && match step
       case MarkProfile(_) => true
       case RemovePending(id) => id == s.outcome.value.id && s.outcome.value.phase == AtMetadata
       case RemoveDocument => true
       case DisarmRecovery(id) => id == s.outcome.value.id && s.outcome.value.phase == AtCurrent
       case AdvancePhase => s.outcome.value.phase == AtCurrent ==> s.outcome.value.id !in s.recovery
       case _ => false
  }

  ghost predicate CleanupNext(s: Store, t: Store) {
    exists step :: CleanupStep(s, step) && Enabled(s, step) && t == Apply(s, step)
  }

  /** Any number of cleanup attempts, each cut anywhere. */
  ghost predicate CleanupRun(h: seq<Store>) {
    h != [] && forall i | 0 <= i < |h| - 1 :: CleanupNext(h[i], h[i + 1])
  }

  lemma AllUpdatedWhenApplied(profiles: map<Name, Metadata>, o: Outcome)
    requires ValidOutcome(o) && UpdatesApplied(profiles, o)
    ensures AllUpdated(profiles, o) == profiles
  {
    forall n | n in profiles ensures Updated(profiles[n], n, o) == profiles[n] {
      LookupSound(o.updates, n);
    }
  }

  lemma AllUpdatedAfterMark(s: Store, u: Update)
    requires Inv(s) && Enabled(s, MarkProfile(u))
    ensures AllUpdated(Apply(s, MarkProfile(u)).profiles, s.outcome.value) == AllUpdated(s.profiles, s.outcome.value)
  {
    var o := s.outcome.value;
    var t := Apply(s, MarkProfile(u));
    LookupFinds(o.updates, u);
    forall n | n in s.profiles
      ensures Updated(t.profiles[n], n, o) == Updated(s.profiles[n], n, o)
    {
    }
  }

  lemma AllUpdatedApplies(profiles: map<Name, Metadata>, o: Outcome)
    requires ValidOutcome(o) && UpdatesApply(profiles, o)
    ensures UpdatesApplied(AllUpdated(profiles, o), o)
    ensures AllUpdated(profiles, o).Keys == profiles.Keys
    ensures forall n | n in profiles && (forall u | u in o.updates :: u.name != n) ::
              AllUpdated(profiles, o)[n] == profiles[n]
  {
    forall u | u in o.updates
      ensures u.name in profiles && IsMarked(AllUpdated(profiles, o)[u.name], u, o.completedAt)
    {
      LookupFinds(o.updates, u);
    }
    forall n | n in profiles && (forall u | u in o.updates :: u.name != n)
      ensures AllUpdated(profiles, o)[n] == profiles[n]
    {
      LookupSound(o.updates, n);
    }
  }

  lemma AdvanceKeepsDestination(s: Store)
    requires Inv(s) && s.outcome.Some? && CleanupStep(s, AdvancePhase) && Enabled(s, AdvancePhase)
    ensures Finished(Apply(s, AdvancePhase)) == Finished(s)
  {
    hide Remembered, AllUpdated;
    var o := s.outcome.value;
    if o.phase == AtCheckpoint { AllUpdatedWhenApplied(s.profiles, o); }
    if o.phase == AtCurrent { assert s.doc.None? && s.pending - {o.id} == s.pending && s.recovery - {o.id} == s.recovery; }
  }

  /** No cleanup write moves the destination. */
  lemma CleanupKeepsDestination(s: Store, t: Store)
    requires Inv(s) && s.outcome.Some? && CleanupNext(s, t)
    ensures Inv(t) && t.outcome.Some? && Finished(t) == Finished(s)
  {
    hide Inv, AllUpdated;
    var step :| CleanupStep(s, step) && Enabled(s, step) && t == Apply(s, step);
    StepKeepsInv(s, step);
    match step
    case MarkProfile(u) => AllUpdatedAfterMark(s, u);
    case AdvancePhase => AdvanceKeepsDestination(s);
    case _ =>
  }

  lemma {:induction false} CleanupHeadsHome(h: seq<Store>, i: nat)
    requires CleanupRun(h) && Inv(h[0]) && h[0].outcome.Some? && i < |h|
    ensures Inv(h[i]) && h[i].outcome.Some? && Finished(h[i]) == Finished(h[0])
  {
    if i > 0 {
      CleanupHeadsHome(h, i - 1);
      assert CleanupNext(h[i - 1], h[i - 1 + 1]);
      CleanupKeepsDestination(h[i - 1], h[i]);
    }
  }

  /** However many times cleanup is cut between durable writes and re-run, it heads for
      the store of one uninterrupted run; if any attempt gets to the end, that store is
      exactly what it leaves. */
  lemma CleanupConverges(h: seq<Store>)
    requires CleanupRun(h) && Inv(h[0]) && h[0].outcome.Some?
    ensures h[|h| - 1].outcome.Some? && Finished(h[|h| - 1]) == Finished(h[0])
    ensures h[|h| - 1].outcome.value.phase == AtComplete ==> h[|h| - 1] == Finished(h[0])
  {
    CleanupHeadsHome(h, |h| - 1);
  }

  /** The writes of a cleanup that the recovery timer itself runs: it does not cancel its own
      units before it is complete. */
  predicate OwnCleanupStep(s: Store, step: Step) {
    && s.outcome.Some? && s.outcome.value.phase != AtComplete
    && match step
       case MarkProfile(_) => true
       case RemovePending(id) => id == s.outcome.value.id && s.outcome.value.phase == AtMetadata
       case RemoveDocument => true
       case AdvancePhase => true
       case _ => false
  }

  /** A write of a cleanup, whoever runs it. */
  ghost predicate AnyCleanupNext(s: Store, t: Store) {
    exists step :: (CleanupStep(s, step) || OwnCleanupStep(s, step)) && Enabled(s, step) && t == Apply(s, step)
  }

  /** Two stores head for the same one but for the recovery timer. */
  predicate SameDestination(s: Store, t: Store) {
    && s.outcome.Some? && t.outcome.Some? && s.outcome.value.id == t.outcome.value.id
    && Finished(t).(recovery := {}) == Finished(s).(recovery := {})
    && (t.recovery == s.recovery || t.recovery == s.recovery - {s.outcome.value.id})
  }

  lemma OwnAdvanceKeepsDestination(s: Store)
    requires Inv(s) && s.outcome.Some? && s.outcome.value.phase == AtCurrent && Enabled(s, AdvancePhase)
    ensures SameDestination(s, Apply(s, AdvancePhase))
  {
    hide Remembered, AllUpdated;
    assert s.doc.None? && s.pending - {s.outcome.value.id} == s.pending;
  }

  lemma AnyCleanupKeepsDestination(s: Store, t: Store)
    requires Inv(s) && s.outcome.Some? && AnyCleanupNext(s, t)
    ensures Inv(t) && SameDestination(s, t)
  {
    hide Inv, AllUpdated;
    var step :| (CleanupStep(s, step) || OwnCleanupStep(s, step)) && Enabled(s, step) && t == Apply(s, step);
    StepKeepsInv(s, step);
    if step.AdvancePhase? && s.outcome.value.phase == AtCurrent {
      OwnAdvanceKeepsDestination(s);
    } else {
      assert CleanupNext(s, t) by { assert CleanupStep(s, step); }
      CleanupKeepsDestination(s, t);
    }
  }

  lemma {:induction false} AnyCleanupHeadsHome(h: seq<Store>, i: nat)
    requires h != [] && Inv(h[0]) && h[0].outcome.Some? && i < |h|
    requires forall k | 0 <= k < |h| - 1 :: AnyCleanupNext(h[k], h[k + 1])
    ensures Inv(h[i]) && SameDestination(h[0], h[i])
  {
    hide Inv, Finished;
    if i > 0 {
      AnyCleanupHeadsHome(h, i - 1);
      assert AnyCleanupNext(h[i - 1], h[i - 1 + 1]);
      AnyCleanupKeepsDestination(h[i - 1], h[i]);
    }
  }

  /** However many attempts, by operators, by lock entry or by either timer, are cut wherever:
      once complete they leave the store of one uninterrupted run, except that the recovery
      timer may still be armed if its own run was the one to get to the end. */
  lemma AnyCleanupConverges(h: seq<Store>)
    requires h != [] && Inv(h[0]) && h[0].outcome.Some?
    requires forall k | 0 <= k < |h| - 1 :: AnyCleanupNext(h[k], h[k + 1])
    ensures var last := h[|h| - 1];
            && last.outcome.Some?
            && (last.recovery == h[0].recovery || last.recovery == h[0].recovery - {h[0].outcome.value.id})
            && (last.outcome.value.phase == AtComplete ==> last == Finished(h[0]).(recovery := last.recovery))
  {
    AnyCleanupHeadsHome(h, |h| - 1);
    var last := h[|h| - 1];
    if last.outcome.value.phase == AtComplete {
      assert last == last.(recovery := {}).(recovery := last.recovery);
    }
  }

  /** What the destination looks like. */
  lemma DestinationIsClean(s: Store)
    requires Inv(s) && s.outcome.Some? && s.outcome.value.phase != AtComplete
    ensures var t := Finished(s);
            var o := s.outcome.value;
            && t.doc.None? && t.outcome == Some(o.(phase := AtComplete))
            && o.id !in t.pending && o.id !in t.recovery
            && UpdatesApplied(t.profiles, o)
            && t.profiles.Keys == s.profiles.Keys
            && (forall n | n in s.profiles && (forall u | u in o.updates :: u.name != n) :: t.profiles[n] == s.profiles[n])
            && t.live == s.live && t.final == s.final && t.journal == s.journal
  {
    if s.outcome.value.phase == AtCheckpoint { AllUpdatedApplies(s.profiles, s.outcome.value); }
  }

  // ---------------------------------------------------------------- the dead-man guard

  /** The managed files of the current transaction are not its classic state and nobody has
      durably confirmed it. */
  predicate Exposed(s: Store, id: Id) {
    IsDoc(s, id) && s.live != Classic && !ConfirmedFor(s, id)
  }

  /** A timer or a journal restores a transaction only as long as it is not decided: after
      that it finishes the cleanup. */
  predicate HasGuard(s: Store, id: Id) {
    !IsOutcome(s, id) && (id in s.recovery || id in s.final || JournalNames(s, id))
  }

  /** Something durable will bring an exposed transaction back. */
  predicate Guarded(s: Store) {
    s.doc.Some? && Exposed(s, s.doc.value.id) ==> HasGuard(s, s.doc.value.id)
  }
}
