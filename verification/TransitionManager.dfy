/** The obfuscation commands as they write the durable store, one write at a time.

    Every write goes through `Write`, which demands that the protocol enables it, so
    each command is proved to be a run of `TransitionRuns.Run`: a crash at any point
    leaves one of the states the lemmas there are about. `hist` records those states.
    Where the program depends on a disk, systemd or the running interface, `Env`
    decides; with `faultless` the environment never fails. */
module TransitionManager {

  import opened Common
  import opened Transition
  import opened TransitionRuns

  datatype Timer = RecoveryTimer | FinalTimer

  /** What ended a confirmation. `left`: a failed re-arm left the recovery timer armed. */
  datatype Confirmation = ConfirmedNow | ConfirmRefused | RearmFailed(left: bool) | ConfirmIncomplete

  /** How far an activation got before it failed: no journal yet, a journal, or a journal
      already gone although deleting it reported failure. */
  datatype Stage = BeforeJournal | Journalled | AfterJournal

  function StageOf(s: Store): Stage {
    if s.journal.Some? then Journalled else if s.doc.Some? && s.doc.value.active then AfterJournal else BeforeJournal
  }

  /** What ended an activation. `armed`: one of the transaction's timers was armed when the
      failure handler turned to the restore; `began`: the restore moved a component. */
  datatype Activation = ActivatedNow | ActivateRefused | ActivationUndone(stage: Stage, armed: bool, began: bool)

  /** Which command line runs a rollback: an operator, or one of the two timers. */
  datatype Origin = ByOperator | ByRecoveryTimer | ByFinalTimer

  /** A finished transaction's journal blocks a different current transaction: what a
      leftover timer of the finished one brings about. */
  predicate Wedged(s: Store) {
    && s.journal.Some? && s.outcome.Some? && s.doc.Some?
    && s.outcome.value.id == s.journal.value.id != s.doc.value.id
  }

  predicate SameButTimers(s: Store, t: Store) {
    s == t.(recovery := s.recovery, final := s.final)
  }

  predicate SameButLive(s: Store, t: Store) { s == t.(live := s.live) }

  /** `t` is `s` some way further into terminal cleanup. */
  predicate CleanedFrom(s: Store, t: Store) {
    && s.outcome.Some? && NoLaterThan(s, t, s.outcome.value.id)
    && (t.doc == s.doc || t.doc.None?)
    && (t.recovery == s.recovery || t.recovery == s.recovery - {s.outcome.value.id})
    && t == s.(doc := t.doc, outcome := t.outcome, recovery := t.recovery, pending := t.pending, profiles := t.profiles)
  }

  // ---------------------------------------------------------------- how a command loses the guard

  /** The activation failed with no timer armed when its handler turned to the restore, and
      either after its journal, so that the active transaction has lost its final timer, or
      before it, so that a restore that starts has nothing to resume it and files that were
      not classic to begin with have nothing to restore them. */
  predicate ActivationLoses(r: Activation, before: Store) {
    r.ActivationUndone? && !r.armed
    && (r.stage.AfterJournal? || (r.stage.BeforeJournal? && (r.began || before.live != Classic)))
  }

  /** The write by which it does. */
  function ActivationLosesBy(r: Activation, id: Id, before: Store): Step
    requires ActivationLoses(r, before)
  {
    if r.stage.BeforeJournal? && before.live == Classic then SetLive(Mixed)
    else if r.stage.BeforeJournal? && id !in before.final then DisarmRecovery(id)
    else DisarmFinal(id)
  }

  /** A re-arm failed and took the recovery timer away when the final timer was already gone. */
  predicate ConfirmationLoses(r: Confirmation, id: Id, before: Store) {
    r == RearmFailed(false) && id !in before.final
  }

  /** An operator's restore moved a component with no timer armed. */
  predicate RollbackLoses(origin: Origin, began: bool, id: Id, before: Store) {
    began && origin.ByOperator? && id !in before.recovery && id !in before.final
  }

  /** From `n` on the stores up to `k` are guarded, and write number `k` is `step` and loses the guard. */
  predicate LostAt(h: seq<Store>, n: nat, k: nat, step: Step) {
    && 0 < n <= k < |h|
    && Enabled(h[k - 1], step) && h[k] == Apply(h[k - 1], step)
    && (forall j | n <= j < k :: Guarded(h[j])) && !Guarded(h[k])
  }

  lemma LostLater(h: seq<Store>, n: nat, m: nat, k: nat, step: Step)
    requires 0 < n <= m && LostAt(h, m, k, step) && forall j | n <= j < m :: Guarded(h[j])
    ensures LostAt(h, n, k, step)
  {
  }

  lemma LostInLonger(g: seq<Store>, h: seq<Store>, n: nat, k: nat, step: Step)
    requires g <= h && LostAt(g, n, k, step)
    ensures LostAt(h, n, k, step)
  {
    assert forall j | 0 <= j < |g| :: h[j] == g[j];
  }

  // ---------------------------------------------------------------- what a report says about a history

  /** The failure handler starts at `from` and turns to the restore at `turn`, with at most the
      final timer cancelled in between; it goes on if and only if the restore moves a component. */
  predicate Turns(h: seq<Store>, from: nat, turn: nat, id: Id, r: Activation)
    requires r.ActivationUndone?
  {
    && from <= turn < |h|
    && IsDoc(h[from], id) && r.stage == StageOf(h[from])
    && h[turn] == h[from].(final := h[turn].final) && h[turn].final - {id} == h[from].final - {id}
    && (r.armed <==> id in h[turn].recovery || id in h[turn].final)
    && (r.began <==> turn + 1 < |h|)
    && (r.began ==> h[turn + 1] == h[turn].(live := Mixed))
  }

  ghost predicate ActivationTold(h: seq<Store>, n: nat, id: Id, r: Activation)
    requires n < |h|
  {
    match r
    case ActivateRefused => true
    case ActivatedNow =>
      var s := h[|h| - 1];
      IsDoc(s, id) && s.doc.value.active && s.live == Awg31 && id in s.final && id !in s.recovery && s.journal.None?
    case ActivationUndone(_, _, _) => exists from: nat, turn: nat :: n <= from && Turns(h, from, turn, id, r)
  }

  ghost predicate ConfirmationTold(h: seq<Store>, n: nat, id: Id, r: Confirmation)
    requires n < |h|
  {
    && (r.RearmFailed? ==>
          && (forall k | n <= k < |h| :: SameButTimers(h[k], h[n]) && h[k].final == h[n].final)
          && (r.left <==> id in h[|h| - 1].recovery))
    && (r.ConfirmedNow? ==> ConfirmedFor(h[|h| - 1], id) && Settled(h[|h| - 1]) && h[|h| - 1].doc.None?)
  }

  /** An operator's restore starts with the first write of a command that finds the pending
      transaction undecided and nothing to reconcile. */
  ghost predicate RollbackTold(h: seq<Store>, n: nat, id: Id, origin: Origin, began: bool)
    requires n < |h|
  {
    && (origin.ByOperator? ==>
          (began <==> Settled(h[n]) && h[n].journal.None? && IsDoc(h[n], id) && !IsOutcome(h[n], id) && n + 1 < |h|))
    && (origin.ByOperator? && began ==> h[n + 1] == h[n].(live := Mixed))
    && (began ==> exists k :: n < k < |h| && h[k] == h[k - 1].(live := Mixed) && IsDoc(h[k], id) && !IsOutcome(h[k], id))
  }

  /** Expiry records a rollback over files that are not classic with its first write. */
  predicate ExpiryTold(h: seq<Store>, n: nat, strayed: Option<Outcome>)
    requires n < |h|
  {
    && (strayed.Some? <==> Settled(h[n]) && h[n].journal.None? && h[n].doc.Some? && !h[n].doc.value.active
                           && h[n].live != Classic && n + 1 < |h|)
    && (strayed.Some? ==>
          && h[n].doc.value.id == strayed.value.id && strayed.value.reason == Expiry
          && Enabled(h[n], WriteOutcome(strayed.value)) && h[n + 1] == Apply(h[n], WriteOutcome(strayed.value)))
  }

  /** `CleanupConverges` for the part of a history that starts at `n`. */
  lemma CleanupTailConverges(h: seq<Store>, n: nat)
    requires n < |h| && Inv(h[n]) && h[n].outcome.Some?
    requires forall k | n <= k < |h| - 1 :: CleanupNext(h[k], h[k + 1])
    ensures h[|h| - 1].outcome.Some? && h[|h| - 1].outcome.value.phase == AtComplete ==> h[|h| - 1] == Finished(h[n])
  {
    var run := h[n..];
    forall i | 0 <= i < |run| - 1 ensures CleanupNext(run[i], run[i + 1]) {
      assert run[i] == h[n + i] && run[i + 1] == h[n + i + 1];
    }
    CleanupConverges(run);
  }

  lemma AnyCleanupTailConverges(h: seq<Store>, n: nat)
    requires n < |h| && Inv(h[n]) && h[n].outcome.Some?
    requires forall k | n <= k < |h| - 1 :: AnyCleanupNext(h[k], h[k + 1])
    ensures h[|h| - 1].outcome.Some? && h[|h| - 1].outcome.value.phase == AtComplete ==>
              h[|h| - 1] == Finished(h[n]).(recovery := h[|h| - 1].recovery)
  {
    var run := h[n..];
    forall i | 0 <= i < |run| - 1 ensures AnyCleanupNext(run[i], run[i + 1]) {
      assert run[i] == h[n + i] && run[i + 1] == h[n + i + 1];
    }
    AnyCleanupConverges(run);
  }

  class Manager {
    const faultless: bool
    var disk: Store
    var hist: seq<Store>

    ghost predicate Valid()
      reads this
    {
      Run(hist) && Inv(hist[0]) && hist[|hist| - 1] == disk && Inv(disk)
    }

    constructor (start: Store, faultless: bool)
      requires Inv(start)
      ensures Valid() && disk == start && hist == [start] && this.faultless == faultless
    {
      this.faultless := faultless;
      disk := start;
      hist := [start];
    }

    method Env() returns (ok: bool)
      ensures faultless ==> ok
    {
      ok := *;
      if faultless { ok := true; }
    }

    method Write(step: Step)
      requires Valid() && Enabled(disk, step)
      modifies this
      ensures Valid()
      ensures disk == Apply(old(disk), step) && hist == old(hist) + [disk]
    {
      StepKeepsInv(disk, step);
      ghost var before := hist;
      ghost var last := disk;
      disk := Apply(disk, step);
      hist := hist + [disk];
      assert Next(last, disk);
      forall i | 0 <= i < |hist| - 1 ensures Next(hist[i], hist[i + 1]) {
        if i < |before| - 1 { assert Next(before[i], before[i + 1]); }
      }
    }

    /** A crash: all that is left is what the first `n` recorded stores say. */
    method Cut(n: nat)
      requires Valid() && 0 < n <= |hist|
      modifies this
      ensures Valid()
      ensures hist == old(hist)[..n] && disk == hist[n - 1]
    {
      RunKeepsInv(hist, n - 1);
      ghost var before := hist;
      hist := hist[..n];
      disk := hist[n - 1];
      forall i | 0 <= i < |hist| - 1 ensures Next(hist[i], hist[i + 1]) { assert Next(before[i], before[i + 1]); }
    }

    /** A write that may fail, before or after it took effect. */
    method TryWrite(step: Step) returns (ok: bool)
      requires Valid() && Enabled(disk, step)
      modifies this
      ensures Valid()
      ensures (disk == old(disk) && hist == old(hist) && !ok)
              || (disk == Apply(old(disk), step) && hist == old(hist) + [disk])
      ensures faultless ==> ok
    {
      ok := Env();
      if ok {
        Write(step);
        ok := Env();
      }
    }

    // -------------------------------------------------------------- timers

    /** Disable, stop and unlink one timer pair, then prove it gone. */
    method RemoveTimer(id: Id, which: Timer) returns (ok: bool)
      requires Valid()
      modifies this
      ensures Valid() && old(hist) <= hist && |hist| <= |old(hist)| + 1
      ensures forall k | |old(hist)| <= k < |hist| :: hist[k] == disk
      ensures disk == old(disk) || disk == Apply(old(disk), if which.FinalTimer? then DisarmFinal(id) else DisarmRecovery(id))
      ensures ok ==> id !in if which.FinalTimer? then disk.final else disk.recovery
      ensures faultless ==> ok
    {
      ok := TryWrite(if which.FinalTimer? then DisarmFinal(id) else DisarmRecovery(id));
    }

    /** Write, enable, start and verify one timer pair; on failure take it away again. */
    method ArmTimer(id: Id, which: Timer) returns (ok: bool, removed: bool)
      requires Valid() && id in disk.used
      modifies this
      ensures Valid() && old(hist) <= hist
      ensures forall k | |old(hist)| <= k < |hist| :: SameButTimers(hist[k], old(disk))
      ensures forall k | |old(hist)| <= k < |hist| ::
                if which.FinalTimer? then hist[k].recovery == old(disk.recovery) else hist[k].final == old(disk.final)
      ensures SameButTimers(disk, old(disk))
      ensures which.FinalTimer? ==> disk.recovery == old(disk.recovery) && disk.final - {id} == old(disk.final) - {id}
      ensures which.RecoveryTimer? ==> disk.final == old(disk.final) && disk.recovery - {id} == old(disk.recovery) - {id}
      ensures ok ==> id in if which.FinalTimer? then disk.final else disk.recovery
      ensures removed ==> !ok && id !in if which.FinalTimer? then disk.final else disk.recovery
      ensures forall k | |old(hist)| <= k < |hist| - 1 :: id in if which.FinalTimer? then hist[k].final else hist[k].recovery
      ensures id !in (if which.FinalTimer? then disk.final else disk.recovery) && hist != old(hist) ==>
                disk == Apply(hist[|hist| - 2], if which.FinalTimer? then DisarmFinal(id) else DisarmRecovery(id))
      ensures faultless ==> ok
    {
      hide Inv, Next;
      removed := false;
      ok := TryWrite(if which.FinalTimer? then ArmFinal(id) else ArmRecovery(id));
      if !ok {
        removed := RemoveTimer(id, which);
      }
    }

    // -------------------------------------------------------------- activation journal

    method WriteActivationJournal(id: Id, phase: JournalPhase, createdAt: Time) returns (ok: bool)
      requires Valid() && (IsDoc(disk, id) || IsOutcome(disk, id))
      modifies this
      ensures Valid() && old(hist) <= hist
      ensures forall k | |old(hist)| <= k < |hist| :: hist[k] == disk
      ensures disk == old(disk) || disk == old(disk).(journal := Some(Journal(id, phase, createdAt)))
      ensures ok ==> disk.journal == Some(Journal(id, phase, createdAt))
      ensures old(disk).journal.Some? && old(disk).journal.value.id != id ==> !ok && hist == old(hist)
      ensures faultless && (old(disk).journal.None? || old(disk).journal == Some(Journal(id, old(disk).journal.value.phase, createdAt)))
              ==> ok
    {
      if disk.journal.Some? && (disk.journal.value.id != id || disk.journal.value.createdAt != createdAt) {
        return false;
      }
      ok := TryWrite(WriteJournal(Journal(id, phase, createdAt)));
    }

    method DeleteActivationJournal(id: Id) returns (ok: bool)
      requires Valid()
      modifies this
      ensures Valid() && old(hist) <= hist
      ensures forall k | |old(hist)| <= k < |hist| :: hist[k] == disk
      ensures disk == old(disk) || disk == old(disk).(journal := None)
      ensures ok ==> disk.journal.None?
      ensures faultless && (old(disk).journal.Some? ==> old(disk).journal.value.id == id) ==> ok
      ensures old(disk).journal.Some? && old(disk).journal.value.id != id ==> !ok && hist == old(hist)
    {
      if disk.journal.None? { return true; }
      if disk.journal.value.id != id { return false; }
      ok := TryWrite(DeleteJournal);
    }

    // -------------------------------------------------------------- classic restore

    /** Swap the five managed components for the protected backup, reload and verify; on
        failure put back what was there, as far as the disk lets it. `began` tells whether
        the first component was moved. */
    method RestoreClassic() returns (ok: bool, began: bool)
      requires Valid() && disk.doc.Some? && !IsOutcome(disk, disk.doc.value.id)
      modifies this
      ensures Valid() && old(hist) <= hist
      ensures forall k | |old(hist)| <= k < |hist| :: SameButLive(hist[k], old(disk))
      ensures SameButLive(disk, old(disk))
      ensures ok ==> began && disk.live == Classic
      ensures !began ==> hist == old(hist) && disk == old(disk)
      ensures began ==> |hist| > |old(hist)| && hist[|old(hist)|] == old(disk).(live := Mixed)
      ensures faultless ==> ok
    {
      hide Inv, Next;
      var prior := disk.live;
      began := Env();
      if !began { return false, false; }
      Write(SetLive(Mixed));
      var swapped := Env();
      if swapped {
        Write(SetLive(Classic));
        var verified := Env();
        if verified { return true, true; }
      }
      var undone := Env();
      Write(SetLive(if undone then prior else Mixed));
      ok := false;
    }

    // -------------------------------------------------------------- terminal cleanup

    /** Record the decision about the current document, once. */
    method BeginOutcome(document: Document, decision: Decision, reason: Reason, at: Time, updates: seq<Update>)
      returns (ok: bool)
      requires Valid()
      requires decision == Confirmed <==> reason == Confirmation
      requires decision == RolledBack ==> updates == [] && (disk.doc == Some(document) && !IsOutcome(disk, document.id) ==> MayRollBack(disk, reason))
      requires decision == Confirmed ==>
                 && document.active && disk.live != Classic && updates == UpdatesFor(document.profiles)
                 && forall u | u in updates :: u.name in disk.profiles && disk.profiles[u.name].revision == u.before
      requires disk.journal.Some? ==> disk.journal.value.id == document.id
      modifies this
      ensures Valid() && old(hist) <= hist
      ensures forall k | |old(hist)| <= k < |hist| :: hist[k] == disk
      ensures disk == old(disk) ||
              (!IsOutcome(old(disk), document.id) && IsDoc(old(disk), document.id)
               && disk == old(disk).(outcome := Some(Outcome(document.id, decision, reason, at, AtCheckpoint, updates)),
                                     decided := old(disk).decided[document.id := decision]))
      ensures hist != old(hist) ==>
                var o := Outcome(document.id, decision, reason, at, AtCheckpoint, updates);
                |hist| > |old(hist)| && Enabled(old(disk), WriteOutcome(o)) && disk == Apply(old(disk), WriteOutcome(o))
      ensures ok ==> IsOutcome(disk, document.id) && disk.outcome.value.decision == decision
      ensures faultless && old(disk).doc == Some(document) && !IsOutcome(old(disk), document.id) && Settled(old(disk)) ==> ok
    {
      if disk.doc != Some(document) { return false; }
      var result := Outcome(document.id, decision, reason, at, AtCheckpoint, updates);
      if disk.outcome.Some? {
        var existing := disk.outcome.value;
        if existing.id == document.id {
          return existing.(phase := AtCheckpoint) == result;
        }
        if existing.phase != AtComplete { return false; }
      }
      UpdatesForIsValid(document);
      ok := TryWrite(WriteOutcome(result));
    }

    /** Bring every listed profile to its target revision. */
    method ApplyProfileUpdates() returns (ok: bool)
      requires Valid() && disk.outcome.Some? && disk.outcome.value.phase == AtCheckpoint
      modifies this
      ensures Valid() && old(hist) <= hist
      ensures forall k | |old(hist)| - 1 <= k < |hist| - 1 :: CleanupNext(hist[k], hist[k + 1])
      ensures forall k | |old(hist)| <= k < |hist| :: hist[k] == old(disk).(profiles := hist[k].profiles)
      ensures disk == old(disk).(profiles := disk.profiles)
      ensures ok ==> UpdatesApplied(disk.profiles, disk.outcome.value)
      ensures faultless ==> ok
    {
      var o := disk.outcome.value;
      ok := true;
      var i := 0;
      while i < |o.updates|
        invariant 0 <= i <= |o.updates|
        invariant Valid() && old(hist) <= hist
        invariant disk == old(disk).(profiles := disk.profiles)
        invariant forall k | |old(hist)| - 1 <= k < |hist| - 1 :: CleanupNext(hist[k], hist[k + 1])
        invariant forall k | |old(hist)| <= k < |hist| :: hist[k] == old(disk).(profiles := hist[k].profiles)
        invariant forall j | 0 <= j < i ::
                    o.updates[j].name in disk.profiles && IsMarked(disk.profiles[o.updates[j].name], o.updates[j], o.completedAt)
        invariant ok
      {
        assert o.updates[i] in o.updates;
        ok := ApplyProfileUpdate(o.updates[i]);
        if !ok { return; }
        i := i + 1;
      }
    }

    /** One profile: regenerate it if it is still at its old revision, then check it. */
    method ApplyProfileUpdate(u: Update) returns (ok: bool)
      requires Valid() && disk.outcome.Some? && disk.outcome.value.phase == AtCheckpoint
      requires u in disk.outcome.value.updates
      modifies this
      ensures Valid() && old(hist) <= hist
      ensures forall k | |old(hist)| - 1 <= k < |hist| - 1 :: CleanupNext(hist[k], hist[k + 1])
      ensures forall k | |old(hist)| <= k < |hist| :: hist[k] == disk
      ensures u.name in old(disk).profiles && u.name in disk.profiles
      ensures disk == old(disk)
              || disk == old(disk).(profiles := old(disk).profiles[u.name := disk.profiles[u.name]])
      ensures ok ==> IsMarked(disk.profiles[u.name], u, disk.outcome.value.completedAt)
      ensures faultless ==> ok
    {
      if u.name !in disk.profiles { assert false; }
      ok := true;
      if disk.profiles[u.name].revision == u.before { ok := CleanupWrite(MarkProfile(u)); }
      if ok { ok := IsMarked(disk.profiles[u.name], u, disk.outcome.value.completedAt); }
    }

    /** One phase change, checked against the phase the caller read. */
    method UpdatePhase(expected: Phase) returns (ok: bool)
      requires Valid() && disk.outcome.Some? && disk.outcome.value.phase == expected != AtComplete
      requires Enabled(disk, AdvancePhase)
      modifies this
      ensures Valid() && old(hist) <= hist
      ensures forall k | |old(hist)| - 1 <= k < |hist| - 1 :: AnyCleanupNext(hist[k], hist[k + 1])
      ensures (expected == AtCurrent ==> old(disk).outcome.value.id !in old(disk).recovery) ==>
                forall k | |old(hist)| - 1 <= k < |hist| - 1 :: CleanupNext(hist[k], hist[k + 1])
      ensures forall k | |old(hist)| <= k < |hist| :: hist[k] == disk
      ensures disk == old(disk) || disk == Apply(old(disk), AdvancePhase)
      ensures ok ==> disk == Apply(old(disk), AdvancePhase)
      ensures faultless ==> ok
    {
      ghost var last := disk;
      ok := TryWrite(AdvancePhase);
      if disk != last && (expected == AtCurrent ==> last.outcome.value.id !in last.recovery) {
        assert CleanupStep(last, AdvancePhase);
        assert CleanupNext(last, disk);
      }
      if disk != last {
        assert OwnCleanupStep(last, AdvancePhase);
        assert AnyCleanupNext(last, disk);
      }
    }

    /** Carry terminal cleanup from whatever phase it reached to the end. Two branches of
        the program cannot be taken from a coupled store; they are asserted dead. */
    method ResumeCleanup(matching: Option<Document>, skipRecoveryCancel: bool) returns (ok: bool)
      requires Valid() && disk.outcome.Some?
      requires matching == if IsDoc(disk, disk.outcome.value.id) then disk.doc else None
      modifies this
      ensures Valid() && old(hist) <= hist
      ensures forall k | |old(hist)| <= k < |hist| :: CleanedFrom(old(disk), hist[k])
      ensures CleanedFrom(old(disk), disk)
      ensures skipRecoveryCancel ==> disk.recovery == old(disk).recovery
      ensures ok ==> disk.outcome.value.phase == AtComplete && disk.doc.None?
      ensures forall k | |old(hist)| - 1 <= k < |hist| - 1 :: AnyCleanupNext(hist[k], hist[k + 1])
      ensures !skipRecoveryCancel ==>
                forall k | |old(hist)| - 1 <= k < |hist| - 1 :: CleanupNext(hist[k], hist[k + 1])
      ensures old(disk).doc.Some? && matching.None? ==> !ok && hist == old(hist)
      ensures faultless && (old(disk).doc.Some? ==> matching.Some?) ==> ok
      ensures ok && !skipRecoveryCancel ==> disk == Finished(old(disk))
      ensures ok && skipRecoveryCancel ==> disk == Finished(old(disk)).(recovery := old(disk).recovery)
    {
      if disk.doc.Some? && matching.None? { return false; }
      if disk.outcome.value.phase == AtComplete {
        if disk.doc.Some? { assert false; }
        return true;
      }
      ok := RunCleanup(skipRecoveryCancel);
      if ok && !skipRecoveryCancel { CleanupTailConverges(hist, |old(hist)| - 1); }
      if ok && skipRecoveryCancel { AnyCleanupTailConverges(hist, |old(hist)| - 1); }
    }

    /** Cleanup that is not complete yet, from the phase it reached. */
    method RunCleanup(skipRecoveryCancel: bool) returns (ok: bool)
      requires Valid() && disk.outcome.Some? && disk.outcome.value.phase != AtComplete
      modifies this
      ensures Valid() && old(hist) <= hist
      ensures forall k | |old(hist)| <= k < |hist| :: CleanedFrom(old(disk), hist[k])
      ensures CleanedFrom(old(disk), disk)
      ensures skipRecoveryCancel ==> disk.recovery == old(disk).recovery
      ensures ok ==> disk.outcome.value.phase == AtComplete && disk.doc.None?
      ensures forall k | |old(hist)| - 1 <= k < |hist| - 1 :: AnyCleanupNext(hist[k], hist[k + 1])
      ensures !skipRecoveryCancel ==>
                forall k | |old(hist)| - 1 <= k < |hist| - 1 :: CleanupNext(hist[k], hist[k + 1])
      ensures faultless ==> ok
    {
      hide Inv, Next;
      if disk.outcome.value.phase == AtCheckpoint {
        ok := ApplyProfileUpdates();
        if !ok { return; }
        ok := UpdatePhase(AtCheckpoint);
        if !ok { return; }
      }
      ok := FinishCleanup(skipRecoveryCancel);
    }

    /** Cleanup from the metadata phase on: pending tree, document, recovery timer. */
    method FinishCleanup(skipRecoveryCancel: bool) returns (ok: bool)
      requires Valid() && disk.outcome.Some? && 0 < Rank(disk.outcome.value.phase) < Rank(AtComplete)
      modifies this
      ensures Valid() && old(hist) <= hist
      ensures forall k | |old(hist)| <= k < |hist| :: CleanedFrom(old(disk), hist[k])
      ensures CleanedFrom(old(disk), disk)
      ensures skipRecoveryCancel ==> disk.recovery == old(disk).recovery
      ensures ok ==> disk.outcome.value.phase == AtComplete && disk.doc.None?
      ensures forall k | |old(hist)| - 1 <= k < |hist| - 1 :: AnyCleanupNext(hist[k], hist[k + 1])
      ensures !skipRecoveryCancel ==>
                forall k | |old(hist)| - 1 <= k < |hist| - 1 :: CleanupNext(hist[k], hist[k + 1])
      ensures faultless ==> ok
    {
      hide Inv, Next;
      if disk.outcome.value.phase == AtMetadata {
        ok := DropPending();
        if !ok { return; }
      }
      if disk.outcome.value.phase == AtPending {
        ok := DropDocument();
        if !ok { return; }
      }
      ok := DropRecovery(skipRecoveryCancel);
    }

    method DropPending() returns (ok: bool)
      requires Valid() && disk.outcome.Some? && disk.outcome.value.phase == AtMetadata
      modifies this
      ensures Valid() && old(hist) <= hist
      ensures forall k | |old(hist)| <= k < |hist| :: CleanedFrom(old(disk), hist[k])
      ensures CleanedFrom(old(disk), disk) && disk.recovery == old(disk).recovery
      ensures forall k | |old(hist)| - 1 <= k < |hist| - 1 :: CleanupNext(hist[k], hist[k + 1])
      ensures ok ==> disk.outcome.value.phase == AtPending
      ensures faultless ==> ok
    {
      if disk.doc.None? { assert false; }
      ok := CleanupWrite(RemovePending(disk.outcome.value.id));
      if ok { ok := UpdatePhase(AtMetadata); }
    }

    method DropDocument() returns (ok: bool)
      requires Valid() && disk.outcome.Some? && disk.outcome.value.phase == AtPending
      modifies this
      ensures Valid() && old(hist) <= hist
      ensures forall k | |old(hist)| <= k < |hist| :: CleanedFrom(old(disk), hist[k])
      ensures CleanedFrom(old(disk), disk) && disk.recovery == old(disk).recovery
      ensures forall k | |old(hist)| - 1 <= k < |hist| - 1 :: CleanupNext(hist[k], hist[k + 1])
      ensures ok ==> disk.outcome.value.phase == AtCurrent
      ensures faultless ==> ok
    {
      hide Remembered, Next;
      ok := true;
      if disk.doc.Some? { ok := CleanupWrite(RemoveDocument); }
      if ok { ok := UpdatePhase(AtPending); }
    }

    method DropRecovery(skipRecoveryCancel: bool) returns (ok: bool)
      requires Valid() && disk.outcome.Some? && disk.outcome.value.phase == AtCurrent
      modifies this
      ensures Valid() && old(hist) <= hist
      ensures forall k | |old(hist)| <= k < |hist| :: CleanedFrom(old(disk), hist[k])
      ensures CleanedFrom(old(disk), disk)
      ensures skipRecoveryCancel ==> disk.recovery == old(disk).recovery
      ensures forall k | |old(hist)| - 1 <= k < |hist| - 1 :: AnyCleanupNext(hist[k], hist[k + 1])
      ensures !skipRecoveryCancel ==>
                forall k | |old(hist)| - 1 <= k < |hist| - 1 :: CleanupNext(hist[k], hist[k + 1])
      ensures ok ==> disk.outcome.value.phase == AtComplete && disk.doc.None?
      ensures faultless ==> ok
    {
      ok := true;
      if !skipRecoveryCancel { ok := CleanupWrite(DisarmRecovery(disk.outcome.value.id)); }
      if ok { ok := UpdatePhase(AtCurrent); }
    }

    method CleanupWrite(step: Step) returns (ok: bool)
      requires Valid() && CleanupStep(disk, step) && Enabled(disk, step)
      modifies this
      ensures Valid() && old(hist) <= hist
      ensures forall k | |old(hist)| - 1 <= k < |hist| - 1 :: CleanupNext(hist[k], hist[k + 1])
      ensures forall k | |old(hist)| <= k < |hist| :: hist[k] == disk
      ensures disk == old(disk) || disk == Apply(old(disk), step)
      ensures ok ==> disk == Apply(old(disk), step)
      ensures faultless ==> ok
    {
      ghost var last := disk;
      ok := TryWrite(step);
      if disk != last { assert CleanupNext(last, disk); }
      if |hist| > |old(hist)| { assert CleanupNext(last, hist[|hist| - 1]); }
    }

    // -------------------------------------------------------------- the commands

    ghost predicate GuardedSince(n: nat)
      reads this
    {
      forall k | n <= k < |hist| :: Guarded(hist[k])
    }

    /** Record a rollback of the current transaction and clean up after it. */
    method CompleteRolledBack(document: Document, reason: Reason, at: Time, skipRecoveryCancel: bool) returns (ok: bool)
      requires Valid() && reason != Confirmation
      requires disk.doc == Some(document) && !IsOutcome(disk, document.id) && MayRollBack(disk, reason)
      requires disk.journal.Some? ==> disk.journal.value.id == document.id
      modifies this
      ensures Valid() && old(hist) <= hist
      ensures old(disk).live == Classic ==> GuardedSince(|old(hist)|)
      ensures hist != old(hist) ==>
                var o := Outcome(document.id, RolledBack, reason, at, AtCheckpoint, []);
                |hist| > |old(hist)| && Enabled(old(disk), WriteOutcome(o)) && hist[|old(hist)|] == Apply(old(disk), WriteOutcome(o))
      ensures forall k | |old(hist)| <= k < |hist| :: hist[k].live == old(disk).live
      ensures disk.journal == old(disk).journal && disk.final == old(disk).final && disk.live == old(disk).live
      ensures ok ==> disk.doc.None? && IsOutcome(disk, document.id) && Settled(disk)
      ensures disk == old(disk) || (IsOutcome(disk, document.id) && disk.outcome.value.decision == RolledBack)
      ensures faultless && Settled(old(disk)) ==> ok
    {
      ok := BeginOutcome(document, RolledBack, reason, at, []);
      ghost var begun := hist;
      if ok { ok := ResumeCleanup(disk.doc, skipRecoveryCancel); }
      assert forall k | 0 <= k < |begun| :: hist[k] == begun[k];
    }

    /** What every lock entry does first: finish terminal cleanup, or bring a
        crash-interrupted activation back to the classic state. */
    method Reconcile(now: Time) returns (ok: bool)
      requires Valid()
      modifies this
      ensures Valid() && old(hist) <= hist
      ensures Guarded(old(disk)) ==> GuardedSince(|old(hist)|)
      ensures ok ==> Settled(disk) && disk.journal.None?
      ensures Settled(old(disk)) && old(disk).journal.None? ==> ok && hist == old(hist)
      ensures ok && disk.doc.Some? ==> hist == old(hist)
      ensures disk.outcome.Some? ==>
                if IsOutcome(old(disk), disk.outcome.value.id) then NoLaterThan(old(disk), disk, disk.outcome.value.id)
                else disk.outcome.value.decision == RolledBack
      ensures Wedged(old(disk)) ==> !ok && hist == old(hist)
      ensures faultless ==> (ok <==> !Wedged(old(disk)))
    {
      hide Remembered, Next;
      if disk.outcome.Some? && (disk.outcome.value.phase != AtComplete || IsDoc(disk, disk.outcome.value.id)) {
        ok := ResumeCleanup(if IsDoc(disk, disk.outcome.value.id) then disk.doc else None, false);
        if !ok { return; }
      }
      if disk.journal.None? { return true; }
      if IsOutcome(disk, disk.journal.value.id) {
        ok := ForgetFinished();
      } else {
        ok := RecoverActivation(now);
      }
    }

    /** The journal's transaction is already decided: only units and journal are left. */
    method ForgetFinished() returns (ok: bool)
      requires Valid() && disk.journal.Some? && IsOutcome(disk, disk.journal.value.id) && Settled(disk)
      modifies this
      ensures Valid() && old(hist) <= hist
      ensures Guarded(old(disk)) ==> GuardedSince(|old(hist)|)
      ensures disk.outcome == old(disk).outcome
      ensures ok ==> disk.journal.None? && disk.doc.None?
      ensures Wedged(old(disk)) ==> !ok && hist == old(hist)
      ensures faultless ==> (ok <==> !Wedged(old(disk)))
    {
      var id := disk.journal.value.id;
      ok := ResumeCleanup(if IsDoc(disk, id) then disk.doc else None, false);
      if ok { ok := DropUnitsAndJournal(id); }
    }

    /** The journal's transaction was cut while activating: restore classic, roll it back. */
    method RecoverActivation(now: Time) returns (ok: bool)
      requires Valid() && disk.journal.Some? && !IsOutcome(disk, disk.journal.value.id) && Settled(disk)
      modifies this
      ensures Valid() && old(hist) <= hist && GuardedSince(|old(hist)|)
      ensures disk.outcome == old(disk).outcome
              || (IsOutcome(disk, old(disk).journal.value.id) && disk.outcome.value.decision == RolledBack)
      ensures ok ==> disk.journal.None? && disk.doc.None? && Settled(disk)
      ensures faultless ==> ok
    {
      hide Remembered, Next;
      var id := disk.journal.value.id;
      if !IsDoc(disk, id) { assert false; }
      var document := disk.doc.value;
      var restored, _ := RestoreClassic();
      if !restored { return false; }
      ok := CompleteRolledBack(document, ActivationFailed, now, false);
      if ok { ok := DropUnitsAndJournal(id); }
    }

    /** Cancel both timers, tolerating failure, and forget the journal. */
    method DropUnitsAndJournal(id: Id) returns (ok: bool)
      requires Valid() && JournalNames(disk, id) && disk.doc.None? && Settled(disk)
      modifies this
      ensures Valid() && old(hist) <= hist && GuardedSince(|old(hist)|)
      ensures disk == old(disk).(recovery := disk.recovery, final := disk.final, journal := disk.journal)
      ensures ok ==> disk.journal.None?
      ensures faultless ==> ok && id !in disk.recovery && id !in disk.final
    {
      hide Inv, Next;
      var _ := RemoveTimer(id, FinalTimer);
      var _ := RemoveTimer(id, RecoveryTimer);
      ok := DeleteActivationJournal(id);
    }

    /** Prepare a transition: pending tree first, document last. `newId` is the random id. */
    method Prepare(newId: Id, profiles: seq<Entry>, now: Time) returns (ok: bool)
      requires Valid() && newId !in disk.used
      requires ValidDocument(Document(newId, false, now, profiles))
      modifies this
      ensures Valid() && old(hist) <= hist
      ensures Guarded(old(disk)) ==> GuardedSince(|old(hist)|)
      ensures ok ==> disk.doc == Some(Document(newId, false, now, profiles)) && newId in disk.pending
      ensures ok ==> disk.live == Classic && disk.journal.None? && Settled(disk)
      ensures Wedged(old(disk)) ==> !ok && hist == old(hist)
    {
      ok := Reconcile(now);
      if !ok { return; }
      var accepted := Env();
      if disk.doc.Some? || disk.live == Awg31 || !accepted { return false; }
      if newId in disk.used || newId in disk.pending { return false; }
      ok := BuildPending(Document(newId, false, now, profiles));
      if !ok { AbandonPending(newId); }
    }

    method BuildPending(document: Document) returns (ok: bool)
      requires Valid() && Enabled(disk, WriteDocument(document)) && document.id !in disk.pending
      modifies this
      ensures Valid() && old(hist) <= hist && GuardedSince(|old(hist)|)
      ensures disk.doc == None || disk.doc == Some(document)
      ensures disk == old(disk).(doc := disk.doc, live := disk.live, used := disk.used, pending := disk.pending)
      ensures if disk.doc.Some? then disk.live == Classic else disk.live == old(disk).live
      ensures ok ==> disk.doc == Some(document) && document.id in disk.pending
    {
      ok := TryWrite(MakePending(document.id));
      if !ok { return; }
      var built := Env();
      if !built { return false; }
      ok := TryWrite(WriteDocument(document));
    }

    /** A failed preparation unlinks its own document, if it got that far and can be read, and
        drops the tree in any case. */
    method AbandonPending(newId: Id)
      requires Valid() && disk.journal.None? && Settled(disk)
      requires disk.doc.Some? ==>
                 disk.doc.value.id == newId && !disk.doc.value.active && !IsOutcome(disk, newId) && disk.live == Classic
      modifies this
      ensures Valid() && old(hist) <= hist && GuardedSince(|old(hist)|)
      ensures disk == old(disk).(doc := disk.doc, pending := disk.pending)
      ensures disk.doc == old(disk).doc || disk.doc.None?
    {
      var readable := Env();
      if disk.doc.Some? && readable { var _ := TryWrite(UnlinkDocument); }
      var _ := TryWrite(RemovePending(newId));
    }

    /** The writes of a successful activation, in order; any of them may fail. */
    method InstallActive(document: Document) returns (ok: bool)
      requires Valid() && disk.doc == Some(document) && !document.active && !IsOutcome(disk, document.id)
      requires disk.journal.None? && disk.live != Awg31 && Settled(disk)
      modifies this
      ensures Valid() && old(hist) <= hist
      ensures old(disk).live == Classic ==> GuardedSince(|old(hist)|)
      ensures Guarded(old(disk)) ==>
                GuardedSince(|old(hist)|)
                || (StageOf(disk).BeforeJournal? && LostAt(hist, |old(hist)|, |hist| - 1, DisarmRecovery(document.id)))
      ensures disk.outcome == old(disk).outcome && IsDoc(disk, document.id)
      ensures disk.doc == Some(document) || disk.doc == Some(document.(active := true))
      ensures disk.journal.Some? ==> JournalNames(disk, document.id)
      ensures !ok && StageOf(disk).BeforeJournal? ==> disk == old(disk).(recovery := disk.recovery)
      ensures ok || StageOf(disk).AfterJournal? ==>
                && disk.doc == Some(document.(active := true)) && disk.live == Awg31
                && document.id in disk.final && document.id !in disk.recovery && disk.journal.None?
    {
      hide Inv, Next;
      ok := OpenJournal(document);
      if !ok { return; }
      ok := InstallArtifacts(document);
      if !ok { return; }
      ok := WriteActivationJournal(document.id, Reloaded, document.preparedAt);
      if !ok { return; }
      ok := MarkActive(document);
      if !ok { return; }
      ok := HandOverToFinalTimer(document.(active := true));
    }

    /** Recovery timer first, then the journal: nothing else has changed yet. */
    method OpenJournal(document: Document) returns (ok: bool)
      requires Valid() && disk.doc == Some(document) && disk.journal.None? && !IsOutcome(disk, document.id) && Settled(disk)
      modifies this
      ensures Valid() && old(hist) <= hist
      ensures old(disk).live == Classic ==> GuardedSince(|old(hist)|)
      ensures Guarded(old(disk)) ==>
                GuardedSince(|old(hist)|)
                || (!ok && disk.journal.None? && LostAt(hist, |old(hist)|, |hist| - 1, DisarmRecovery(document.id)))
      ensures disk == old(disk).(recovery := disk.recovery, journal := disk.journal)
      ensures disk.journal.Some? ==> JournalNames(disk, document.id)
      ensures ok ==> disk.journal == Some(Journal(document.id, RecoveryArmed, document.preparedAt))
    {
      hide Coupled, Next, ValidDocument;
      var armed, _ := ArmTimer(document.id, RecoveryTimer);
      if !armed { return false; }
      ok := WriteActivationJournal(document.id, Intent, document.preparedAt);
      if !ok { return; }
      ok := WriteActivationJournal(document.id, RecoveryArmed, document.preparedAt);
    }

    /** Install the pending artifacts, then commit and reload the server configuration. */
    method InstallArtifacts(document: Document) returns (ok: bool)
      requires Valid() && disk.doc == Some(document) && !IsOutcome(disk, document.id)
      requires JournalNames(disk, document.id) && disk.journal.value.createdAt == document.preparedAt
      modifies this
      ensures Valid() && old(hist) <= hist && GuardedSince(|old(hist)|)
      ensures disk == old(disk).(live := disk.live, journal := disk.journal)
      ensures JournalNames(disk, document.id) && disk.journal.value.createdAt == document.preparedAt
      ensures ok ==> disk.live == Awg31
    {
      hide Inv, Next;
      ok := TryWrite(SetLive(Mixed));
      if !ok { return; }
      ok := WriteActivationJournal(document.id, ArtifactsInstalled, document.preparedAt);
      if ok { ok := CommitServerConfig(); }
    }

    /** Commit and reload; a failed commit may or may not get the old text back. */
    method CommitServerConfig() returns (ok: bool)
      requires Valid() && disk.doc.Some? && !IsOutcome(disk, disk.doc.value.id) && JournalNames(disk, disk.doc.value.id)
      modifies this
      ensures Valid() && old(hist) <= hist && GuardedSince(|old(hist)|)
      ensures SameButLive(disk, old(disk))
      ensures ok ==> disk.live == Awg31
    {
      hide Inv, Next;
      ok := TryWrite(SetLive(Awg31));
      if !ok { var _ := TryWrite(SetLive(Mixed)); }
    }

    method MarkActive(document: Document) returns (ok: bool)
      requires Valid() && disk.doc == Some(document) && !document.active && !IsOutcome(disk, document.id)
      requires disk.live == Awg31
      requires JournalNames(disk, document.id) && disk.journal.value.createdAt == document.preparedAt
      modifies this
      ensures Valid() && old(hist) <= hist && GuardedSince(|old(hist)|)
      ensures disk == old(disk).(doc := disk.doc, journal := disk.journal)
      ensures disk.doc == Some(document) || disk.doc == Some(document.(active := true))
      ensures JournalNames(disk, document.id) && disk.journal.value.createdAt == document.preparedAt
      ensures ok ==> disk.doc == Some(document.(active := true))
    {
      var proven := Env();
      if !proven { return false; }
      ok := TryWrite(ActivateDocument);
      if !ok { return; }
      ok := WriteActivationJournal(document.id, Activated, document.preparedAt);
    }

    /** The final timer takes over from the recovery timer, and only then the journal goes. */
    method HandOverToFinalTimer(document: Document) returns (ok: bool)
      requires Valid() && disk.doc == Some(document) && !IsOutcome(disk, document.id)
      requires JournalNames(disk, document.id) && disk.journal.value.createdAt == document.preparedAt
      modifies this
      ensures Valid() && old(hist) <= hist && GuardedSince(|old(hist)|)
      ensures disk == old(disk).(recovery := disk.recovery, final := disk.final, journal := disk.journal)
      ensures disk.journal.Some? ==> !ok && JournalNames(disk, document.id)
      ensures disk.journal.None? ==> document.id in disk.final && document.id !in disk.recovery
    {
      hide Coupled, Next, ValidDocument;
      var armed, _ := ArmTimer(document.id, FinalTimer);
      if !armed { return false; }
      ok := WriteActivationJournal(document.id, FinalArmed, document.preparedAt);
      if !ok { return; }
      ok := DropRecoveryAndJournal(document);
    }

    method DropRecoveryAndJournal(document: Document) returns (ok: bool)
      requires Valid() && disk.doc == Some(document) && !IsOutcome(disk, document.id)
      requires JournalNames(disk, document.id) && document.id in disk.final
      modifies this
      ensures Valid() && old(hist) <= hist && GuardedSince(|old(hist)|)
      ensures disk == old(disk).(recovery := disk.recovery, journal := disk.journal)
      ensures disk.journal.Some? ==> !ok && JournalNames(disk, document.id)
      ensures disk.journal.None? ==> document.id !in disk.recovery
    {
      ok := RemoveTimer(document.id, RecoveryTimer);
      if !ok { return; }
      ok := DeleteActivationJournal(document.id);
    }

    /** Activate a prepared transaction; on any failure after the checks, put the classic
        state back. The guard is kept at every crash point if and only if the activation did
        not fail as `ActivationLoses` says. The failure handler starts at some store of this
        command and turns to the restore at another; `at` is the write that loses the guard. */
    method Activate(id: Id, now: Time) returns (r: Activation, ghost at: nat)
      requires Valid()
      modifies this
      ensures Valid() && old(hist) <= hist && |old(hist)| > 0
      ensures ActivationTold(hist, |old(hist)| - 1, id, r)
      ensures Guarded(old(disk)) ==> (GuardedSince(|old(hist)|) <==> !ActivationLoses(r, old(disk)))
      ensures Guarded(old(disk)) && ActivationLoses(r, old(disk)) ==>
                LostAt(hist, |old(hist)|, at, ActivationLosesBy(r, id, old(disk)))
      ensures Wedged(old(disk)) ==> r.ActivateRefused? && hist == old(hist)
    {
      var ready := Reconcile(now);
      if !ready { return ActivateRefused, 0; }
      var accepted := Env();
      if !IsDoc(disk, id) || disk.doc.value.active || disk.live == Awg31 || !accepted { return ActivateRefused, 0; }
      r, at := ActivatePrepared(disk.doc.value, now);
    }

    method ActivatePrepared(document: Document, now: Time) returns (r: Activation, ghost at: nat)
      requires Valid() && disk.doc == Some(document) && !document.active && !IsOutcome(disk, document.id)
      requires disk.journal.None? && disk.live != Awg31 && Settled(disk)
      modifies this
      ensures Valid() && old(hist) <= hist
      ensures ActivationTold(hist, |old(hist)| - 1, document.id, r)
      ensures Guarded(old(disk)) ==> (GuardedSince(|old(hist)|) <==> !ActivationLoses(r, old(disk)))
      ensures Guarded(old(disk)) && ActivationLoses(r, old(disk)) ==>
                LostAt(hist, |old(hist)|, at, ActivationLosesBy(r, document.id, old(disk)))
    {
      hide Coupled, Next, Turns, Enabled, Apply, ValidDocument;
      var ok := Env();
      if ok { ok := InstallActive(document); }
      if ok { return ActivatedNow, 0; }
      ghost var failed := hist;
      var stage := StageOf(disk);
      var armed, began;
      ghost var turn;
      armed, began, turn, at := UndoActivation(document, now);
      assert forall k | 0 <= k < |failed| :: hist[k] == failed[k];
      r := ActivationUndone(stage, armed, began);
      assert Turns(hist, |failed| - 1, turn, document.id, r);
      if !Guarded(failed[|failed| - 1]) {
        at := |failed| - 1;
        if Guarded(old(disk)) { LostInLonger(failed, hist, |old(hist)|, at, DisarmRecovery(document.id)); }
      } else if Guarded(old(disk)) && ActivationLoses(r, old(disk)) {
        LostLater(hist, |old(hist)|, |failed|, at, ActivationLosesBy(r, document.id, old(disk)));
      }
    }

    /** The failure handler of activation, up to the restore and through it. */
    method UndoActivation(document: Document, now: Time) returns (armed: bool, began: bool, ghost turn: nat, ghost at: nat)
      requires Valid() && IsDoc(disk, document.id) && !IsOutcome(disk, document.id) && Settled(disk)
      requires disk.journal.Some? ==> JournalNames(disk, document.id)
      requires StageOf(disk).BeforeJournal? ==> disk.live != Awg31
      requires StageOf(disk).AfterJournal? ==> disk.live == Awg31 && document.id in disk.final && document.id !in disk.recovery
      modifies this
      ensures Valid() && old(hist) <= hist
      ensures Turns(hist, |old(hist)| - 1, turn, document.id, ActivationUndone(StageOf(old(disk)), armed, began))
      ensures armed ==> document.id in old(disk).recovery || document.id in old(disk).final
      ensures var r := ActivationUndone(StageOf(old(disk)), armed, began);
              Guarded(old(disk)) ==>
                && (GuardedSince(|old(hist)|) <==> !ActivationLoses(r, old(disk)))
                && (ActivationLoses(r, old(disk)) ==>
                      && (r.stage.BeforeJournal? && old(disk).live != Classic ==> document.id in old(disk).final)
                      && LostAt(hist, |old(hist)|, at,
                                if r.stage.BeforeJournal? && old(disk).live == Classic then SetLive(Mixed)
                                else DisarmFinal(document.id)))
    {
      hide Inv, Next;
      at := |hist|;
      var _ := RemoveTimer(document.id, FinalTimer);
      armed := document.id in disk.recovery || document.id in disk.final;
      turn := |hist| - 1;
      if StageOf(old(disk)).BeforeJournal? && old(disk).live == Classic { at := |hist|; }
      ghost var cancelled := hist;
      began := RestoreAfterFailure(document.id, now);
      assert forall k | 0 <= k < |cancelled| :: hist[k] == cancelled[k];
    }

    method RestoreAfterFailure(id: Id, now: Time) returns (began: bool)
      requires Valid() && IsDoc(disk, id) && !IsOutcome(disk, id) && Settled(disk)
      requires disk.journal.Some? ==> JournalNames(disk, id)
      modifies this
      ensures Valid() && old(hist) <= hist
      ensures !began ==> hist == old(hist)
      ensures began ==> |hist| > |old(hist)| && hist[|old(hist)|] == old(disk).(live := Mixed)
      ensures HasGuard(old(disk), id) ==> GuardedSince(|old(hist)|)
      ensures began && !HasGuard(old(disk), id) ==> LostAt(hist, |old(hist)|, |old(hist)|, SetLive(Mixed))
    {
      hide Inv, Next;
      var restored;
      restored, began := RestoreClassic();
      ghost var swapped := hist;
      if restored {
        var done := CompleteRolledBack(disk.doc.value, ActivationFailed, now, false);
        if done { var _ := DeleteActivationJournal(id); }
      }
      assert forall k | 0 <= k < |swapped| :: hist[k] == swapped[k];
    }

    /** Confirm the active transaction: re-arm recovery, cancel the final timer, record the
        decision, clean up. The guard is kept at every crash point if and only if not a
        failed re-arm takes the recovery timer away when the final timer was already gone;
        then it is the last write that loses it. */
    method Confirm(id: Id, now: Time) returns (r: Confirmation)
      requires Valid()
      modifies this
      ensures Valid() && old(hist) <= hist && |old(hist)| > 0
      ensures ConfirmationTold(hist, |old(hist)| - 1, id, r)
      ensures Guarded(old(disk)) ==> (GuardedSince(|old(hist)|) <==> !ConfirmationLoses(r, id, old(disk)))
      ensures Guarded(old(disk)) && ConfirmationLoses(r, id, old(disk)) ==>
                LostAt(hist, |old(hist)|, |hist| - 1, DisarmRecovery(id))
      ensures !IsOutcome(old(disk), id) && r.ConfirmedNow? ==>
                UpdatesApplied(disk.profiles, disk.outcome.value) && disk.live != Classic
                && id !in disk.recovery && id !in disk.final && id !in disk.pending
      ensures IsOutcome(old(disk), id) && !ConfirmedFor(old(disk), id) ==> r.ConfirmRefused?
      ensures Wedged(old(disk)) ==> r.ConfirmRefused? && hist == old(hist)
    {
      hide Inv, Next;
      var ready := Reconcile(now);
      if !ready { return ConfirmRefused; }
      if IsOutcome(disk, id) {
        if disk.outcome.value.decision != Confirmed { return ConfirmRefused; }
        var resumed := ResumeCleanup(if IsDoc(disk, id) then disk.doc else None, false);
        return if resumed then ConfirmedNow else ConfirmRefused;
      }
      var accepted := Env();
      if !IsDoc(disk, id) || !disk.doc.value.active || disk.live == Classic || !accepted { return ConfirmRefused; }
      var current := RevisionsUnchanged(disk.doc.value.profiles);
      if !current { return ConfirmRefused; }
      r := ConfirmActive(disk.doc.value, now);
    }

    /** Every listed profile still has the revision it had when the transaction was prepared. */
    method RevisionsUnchanged(profiles: seq<Entry>) returns (same: bool)
      ensures same <==> forall e | e in profiles :: e.name in disk.profiles && disk.profiles[e.name].revision == e.revision
    {
      for i := 0 to |profiles|
        invariant forall j | 0 <= j < i ::
                    profiles[j].name in disk.profiles && disk.profiles[profiles[j].name].revision == profiles[j].revision
      {
        if profiles[i].name !in disk.profiles || disk.profiles[profiles[i].name].revision != profiles[i].revision {
          assert profiles[i] in profiles;
          return false;
        }
      }
      same := true;
    }

    method ConfirmActive(document: Document, now: Time) returns (r: Confirmation)
      requires Valid() && disk.doc == Some(document) && document.active && !IsOutcome(disk, document.id)
      requires disk.live != Classic && Settled(disk) && disk.journal.None?
      requires forall e | e in document.profiles :: e.name in disk.profiles && disk.profiles[e.name].revision == e.revision
      modifies this
      ensures Valid() && old(hist) <= hist
      ensures ConfirmationTold(hist, |old(hist)| - 1, document.id, r)
      ensures Guarded(old(disk)) ==> (GuardedSince(|old(hist)|) <==> !ConfirmationLoses(r, document.id, old(disk)))
      ensures Guarded(old(disk)) && ConfirmationLoses(r, document.id, old(disk)) ==>
                LostAt(hist, |old(hist)|, |hist| - 1, DisarmRecovery(document.id))
      ensures r.ConfirmedNow? ==>
                UpdatesApplied(disk.profiles, disk.outcome.value) && disk.live != Classic
                && document.id !in disk.recovery && document.id !in disk.final && document.id !in disk.pending
    {
      hide Coupled, Next, ValidDocument;
      var armed, _ := ArmTimer(document.id, RecoveryTimer);
      if !armed { return RearmFailed(document.id in disk.recovery); }
      var cancelled := RemoveTimer(document.id, FinalTimer);
      if !cancelled { return ConfirmIncomplete; }
      r := RecordConfirmation(document, now);
    }

    method RecordConfirmation(document: Document, now: Time) returns (r: Confirmation)
      requires Valid() && disk.doc == Some(document) && document.active && !IsOutcome(disk, document.id)
      requires disk.live != Classic && Settled(disk) && disk.journal.None?
      requires document.id in disk.recovery && document.id !in disk.final
      requires forall e | e in document.profiles :: e.name in disk.profiles && disk.profiles[e.name].revision == e.revision
      modifies this
      ensures Valid() && old(hist) <= hist && GuardedSince(|old(hist)|)
      ensures r.ConfirmIncomplete? || r.ConfirmedNow?
      ensures r.ConfirmedNow? ==> ConfirmedFor(disk, document.id) && Settled(disk) && disk.doc.None?
      ensures r.ConfirmedNow? ==>
                UpdatesApplied(disk.profiles, disk.outcome.value) && disk.live != Classic
                && document.id !in disk.recovery && document.id !in disk.final && document.id !in disk.pending
    {
      hide Inv, Next;
      var updates := UpdatesFor(document.profiles);
      forall u | u in updates ensures u.name in disk.profiles && disk.profiles[u.name].revision == u.before {
        var i :| 0 <= i < |updates| && updates[i] == u;
        assert document.profiles[i] in document.profiles;
      }
      var begun := BeginOutcome(document, Decision.Confirmed, Reason.Confirmation, now, updates);
      if !begun { return ConfirmIncomplete; }
      DestinationIsClean(disk);
      var cleaned := ResumeCleanup(disk.doc, false);
      r := if cleaned then ConfirmedNow else ConfirmIncomplete;
    }

    // -------------------------------------------------------------- rollback

    /** A timer's own run leaves a journal behind until its cleanup is done. */
    method EnsureCleanupJournal(id: Id, origin: Origin, createdAt: Time) returns (ok: bool)
      requires Valid() && (IsDoc(disk, id) || IsOutcome(disk, id))
      modifies this
      ensures Valid() && old(hist) <= hist
      ensures forall k | |old(hist)| <= k < |hist| :: hist[k] == disk
      ensures disk == old(disk).(journal := disk.journal)
      ensures disk.journal == old(disk).journal || (old(disk).journal.None? && !origin.ByOperator? && JournalNames(disk, id))
      ensures ok && !origin.ByOperator? ==> JournalNames(disk, id)
      ensures old(disk).journal.Some? ==> hist == old(hist)
      ensures old(disk).journal.Some? ==> (ok <==> origin.ByOperator? || JournalNames(disk, id))
      ensures faultless && old(disk).journal.None? ==> ok
      ensures origin.ByOperator? ==> ok && hist == old(hist)
    {
      if origin.ByOperator? { return true; }
      if disk.journal.None? {
        ok := WriteActivationJournal(id, if origin.ByRecoveryTimer? then RecoveryArmed else FinalArmed, createdAt);
        return;
      }
      ok := disk.journal.value.id == id;
    }

    /** Remove both timer pairs, the running one last and without stopping itself; a timer
        run then deletes the journal. */
    method CleanupUnits(id: Id, origin: Origin) returns (ok: bool)
      requires Valid() && disk.doc.None? && (origin.ByOperator? || disk.journal.None? || JournalNames(disk, id))
      modifies this
      ensures Valid() && old(hist) <= hist && GuardedSince(|old(hist)|)
      ensures disk == old(disk).(recovery := disk.recovery, final := disk.final, journal := disk.journal)
      ensures forall k | |old(hist)| <= k < |hist| :: hist[k].live == old(disk).live
      ensures ok ==> id !in disk.recovery && id !in disk.final
      ensures ok && !origin.ByOperator? ==> disk.journal.None?
      ensures old(disk).journal.None? ==> disk.journal.None?
      ensures faultless ==> ok
    {
      ok := RemoveBothTimers(id, if origin.ByFinalTimer? then FinalTimer else RecoveryTimer);
      if ok && !origin.ByOperator? { ok := DeleteActivationJournal(id); }
    }

    method RemoveBothTimers(id: Id, last: Timer) returns (ok: bool)
      requires Valid() && disk.doc.None?
      modifies this
      ensures Valid() && old(hist) <= hist && GuardedSince(|old(hist)|)
      ensures disk == old(disk).(recovery := disk.recovery, final := disk.final)
      ensures forall k | |old(hist)| <= k < |hist| :: hist[k].live == old(disk).live
      ensures ok ==> id !in disk.recovery && id !in disk.final
      ensures faultless ==> ok
    {
      hide Inv, Next;
      var first := RemoveTimer(id, if last.FinalTimer? then RecoveryTimer else FinalTimer);
      var second := RemoveTimer(id, last);
      ok := first && second;
    }

    /** Roll a transaction back, or finish the cleanup of one that is already decided.
        A timer's run is guarded at every crash point. An operator's run that gets to the
        restore is guarded at every crash point if and only if one of the transaction's
        timers is armed when it starts. A confirmed transaction is never restored. */
    method Rollback(id: Id, origin: Origin, now: Time) returns (ok: bool, began: bool)
      requires Valid()
      modifies this
      ensures Valid() && old(hist) <= hist
      ensures |old(hist)| > 0 && RollbackTold(hist, |old(hist)| - 1, id, origin, began)
      ensures Guarded(old(disk)) ==> (GuardedSince(|old(hist)|) <==> !RollbackLoses(origin, began, id, old(disk)))
      ensures Guarded(old(disk)) && RollbackLoses(origin, began, id, old(disk)) ==>
                LostAt(hist, |old(hist)|, |old(hist)|, SetLive(Mixed))
      ensures ConfirmedFor(old(disk), id) ==> !began && (ok ==> ConfirmedFor(disk, id))
      ensures ok ==> IsOutcome(disk, id) && Settled(disk) && disk.doc.None?
      ensures ok ==> id !in disk.recovery && id !in disk.final && disk.journal.None?
      ensures ok && !IsOutcome(old(disk), id) ==> disk.outcome.value.decision == RolledBack
      ensures Wedged(old(disk)) ==> !ok && hist == old(hist)
      ensures faultless && !origin.ByOperator? ==>
                (ok <==> && (old(disk).journal.None? || JournalNames(old(disk), id))
                         && if IsOutcome(old(disk), id) then old(disk).doc.None? || IsDoc(old(disk), id)
                            else IsDoc(old(disk), id) && (origin.ByFinalTimer? ==> old(disk).doc.value.active))
    {
      hide Remembered, Next;
      began := false;
      if origin.ByOperator? {
        ok := Reconcile(now);
        if !ok { return; }
      }
      if IsOutcome(disk, id) {
        ok := FinishDecided(id, origin);
        return;
      }
      if !IsDoc(disk, id) || (origin.ByFinalTimer? && !disk.doc.value.active) { return false, false; }
      ok := EnsureCleanupJournal(id, origin, disk.doc.value.preparedAt);
      if !ok { return; }
      ok, began := RestoreAndRollBack(id, origin, now);
    }

    method FinishDecided(id: Id, origin: Origin) returns (ok: bool)
      requires Valid() && IsOutcome(disk, id)
      requires origin.ByOperator? ==> disk.journal.None?
      modifies this
      ensures Valid() && old(hist) <= hist
      ensures Guarded(old(disk)) ==> GuardedSince(|old(hist)|)
      ensures forall k | |old(hist)| <= k < |hist| :: hist[k].live == old(disk).live
      ensures IsOutcome(disk, id) && disk.outcome.value.decision == old(disk).outcome.value.decision
      ensures ok ==> Settled(disk) && disk.doc.None? && id !in disk.recovery && id !in disk.final && disk.journal.None?
      ensures Wedged(old(disk)) ==> !ok && hist == old(hist)
      ensures faultless ==>
                (ok <==> && (origin.ByOperator? || old(disk).journal.None? || JournalNames(old(disk), id))
                         && (old(disk).doc.None? || IsDoc(old(disk), id)))
    {
      hide Remembered, Next;
      var matching := if IsDoc(disk, id) then disk.doc else None;
      ok := EnsureCleanupJournal(id, origin, if matching.Some? then matching.value.preparedAt else disk.outcome.value.completedAt);
      if !ok { return; }
      ok := ResumeCleanup(matching, origin.ByRecoveryTimer?);
      if !ok { return; }
      ok := CleanupUnits(id, origin);
    }

    method RestoreAndRollBack(id: Id, origin: Origin, now: Time) returns (ok: bool, began: bool)
      requires Valid() && IsDoc(disk, id) && !IsOutcome(disk, id) && Settled(disk)
      requires if origin.ByOperator? then disk.journal.None? else JournalNames(disk, id)
      modifies this
      ensures Valid() && old(hist) <= hist
      ensures !began ==> hist == old(hist) && !ok
      ensures began ==> |hist| > |old(hist)| && hist[|old(hist)|] == old(disk).(live := Mixed)
      ensures HasGuard(old(disk), id) ==> GuardedSince(|old(hist)|)
      ensures Guarded(old(disk)) && began && !HasGuard(old(disk), id) ==> LostAt(hist, |old(hist)|, |old(hist)|, SetLive(Mixed))
      ensures ok ==> IsOutcome(disk, id) && disk.outcome.value.decision == RolledBack && Settled(disk)
      ensures ok ==> disk.doc.None? && id !in disk.recovery && id !in disk.final && disk.journal.None?
      ensures faultless ==> ok
    {
      hide Coupled, Next, ValidDocument;
      ok, began := RestoreClassic();
      if began { assert old(hist) < hist; }
      ghost var first := |old(hist)|;
      ghost var mixed := if began then hist[first] else disk;
      if began && !HasGuard(old(disk), id) { assert !Guarded(mixed); }
      if !ok { return; }
      ok := CompleteRolledBack(disk.doc.value, if origin.ByOperator? then Operator else Timeout, now, origin.ByRecoveryTimer?);
      if began { assert hist[first] == mixed; }
      if !ok { return; }
      ok := CleanupUnits(id, origin);
      if began { assert hist[first] == mixed; }
    }

    /** Client expiry cancels a prepared transition, never an active one, and then writes the
        expired clients' metadata and the server configuration without them. Its checks do
        not tell whether the files are classic: the guard is kept at every crash point if and
        only if it did not record the rollback, `strayed`, over files that are not. */
    method ExpirePrepared(now: Time, due: bool, profiles: map<Name, Metadata>) returns (ok: bool, strayed: Option<Outcome>)
      requires Valid()
      modifies this
      ensures Valid() && old(hist) <= hist && |old(hist)| > 0
      ensures ExpiryTold(hist, |old(hist)| - 1, strayed)
      ensures Guarded(old(disk)) ==> (GuardedSince(|old(hist)|) <==> strayed.None?)
      ensures Guarded(old(disk)) && strayed.Some? ==> LostAt(hist, |old(hist)|, |old(hist)|, WriteOutcome(strayed.value))
      ensures ok && due ==> disk.doc.None? && disk.profiles == profiles
      ensures old(disk).doc.Some? && old(disk).doc.value.active && Settled(old(disk)) && old(disk).journal.None? ==>
                !ok && hist == old(hist)
      ensures Wedged(old(disk)) ==> !ok && hist == old(hist)
    {
      hide Remembered, Next;
      strayed := None;
      ok := Reconcile(now);
      if !ok { return; }
      if disk.doc.Some? && disk.doc.value.active { return false, None; }
      if due { ok, strayed := Expire(now, profiles); }
    }

    method Expire(now: Time, profiles: map<Name, Metadata>) returns (ok: bool, strayed: Option<Outcome>)
      requires Valid() && Settled(disk) && disk.journal.None?
      requires disk.doc.Some? ==> !disk.doc.value.active && !IsOutcome(disk, disk.doc.value.id)
      modifies this
      ensures Valid() && old(hist) <= hist
      ensures ok ==> disk.doc.None? && disk.profiles == profiles
      ensures old(disk).doc.None? || old(disk).live == Classic ==> GuardedSince(|old(hist)|)
      ensures strayed.Some? <==> old(disk).doc.Some? && old(disk).live != Classic && hist != old(hist)
      ensures strayed.Some? ==>
                && strayed.value.id == old(disk).doc.value.id && strayed.value.reason == Expiry
                && LostAt(hist, |old(hist)|, |old(hist)|, WriteOutcome(strayed.value))
    {
      hide Inv, Next, Enabled, Apply;
      strayed := None;
      ok := Env();   // reconcilable, as far as it looks
      if !ok { return; }
      if disk.doc.Some? {
        ok, strayed := CancelPrepared(disk.doc.value, now);
        if !ok { return; }
      }
      ghost var cancelled := hist;
      ok := WriteExpired(profiles);
      assert forall k | 0 <= k < |cancelled| :: hist[k] == cancelled[k];
    }

    /** The due clients' metadata and the server configuration, seen as one write. */
    method WriteExpired(profiles: map<Name, Metadata>) returns (ok: bool)
      requires Valid() && Settled(disk) && disk.journal.None? && disk.doc.None?
      modifies this
      ensures Valid() && old(hist) <= hist && GuardedSince(|old(hist)|)
      ensures disk.doc.None? && (ok ==> disk.profiles == profiles)
    {
      ok := TryWrite(OtherCommand(disk.live, profiles));
    }

    method CancelPrepared(document: Document, now: Time) returns (ok: bool, strayed: Option<Outcome>)
      requires Valid() && disk.doc == Some(document) && !document.active && !IsOutcome(disk, document.id)
      requires Settled(disk) && disk.journal.None?
      modifies this
      ensures Valid() && old(hist) <= hist
      ensures ok ==> disk.doc.None? && Settled(disk) && disk.journal.None?
      ensures old(disk).live == Classic ==> GuardedSince(|old(hist)|)
      ensures strayed.Some? <==> old(disk).live != Classic && hist != old(hist)
      ensures strayed.Some? ==>
                && strayed.value.id == document.id && strayed.value.reason == Expiry
                && LostAt(hist, |old(hist)|, |old(hist)|, WriteOutcome(strayed.value))
    {
      var before := |hist|;
      ok := CompleteRolledBack(document, Expiry, now, false);
      strayed := if |hist| > before && disk.live != Classic
                 then Some(Outcome(document.id, RolledBack, Expiry, now, AtCheckpoint, [])) else None;
    }

    /** Any other managed command: it runs only when no transition is pending. */
    method RunOther(now: Time, live: Live, profiles: map<Name, Metadata>) returns (ok: bool)
      requires Valid()
      modifies this
      ensures Valid() && old(hist) <= hist
      ensures Guarded(old(disk)) ==> GuardedSince(|old(hist)|)
      ensures ok ==> disk.doc.None? && disk.live == live && disk.profiles == profiles
      ensures Wedged(old(disk)) ==> !ok && hist == old(hist)
    {
      hide Inv, Next;
      ok := Reconcile(now);
      if !ok { return; }
      if disk.doc.Some? || (live == Mixed && disk.live != Mixed) { return false; }
      ok := TryWrite(OtherCommand(live, profiles));
    }
  }
}
