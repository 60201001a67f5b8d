/** Where the program falls short of its own guard and of progress: concrete runs from a
    fresh installation. The exact conditions are `TransitionCommands.RunCommands` for the
    guard and the contract of `Reconcile` for progress. */
module TransitionFindings {

  import opened Common
  import opened Transition
  import opened TransitionRuns
  import opened TransitionManager

  const PROFILE := Metadata(1, 0, OtherChange("client-add"), Awaiting)
  const FRESH_INSTALL := Store(None, None, None, {}, {}, {}, Classic, map["phone" := PROFILE], {}, map[])

  function Prepared(id: Id): Document { Document(id, false, 5, [Entry("phone", 1)]) }

  function Last(h: seq<Store>): Store
    requires h != []
  {
    h[|h| - 1]
  }

  lemma Extend(h: seq<Store>, step: Step) returns (g: seq<Store>)
    requires Run(h) && Enabled(Last(h), step)
    ensures Run(g) && g == h + [Apply(Last(h), step)]
  {
    g := h + [Apply(Last(h), step)];
    forall i | 0 <= i < |g| - 1 ensures Next(g[i], g[i + 1]) {
      if i < |h| - 1 { assert Next(h[i], h[i + 1]); } else { assert Enabled(g[i], step); }
    }
  }

  /** A prepared transaction has no timer and no journal, so the first component an
      operator's rollback moves leaves the managed files in between, with nothing
      durable to bring them back. */
  lemma OperatorRollbackOfPreparedIsUnguarded() returns (h: seq<Store>)
    ensures Run(h) && Init(h[0])
    ensures var s := Last(h); IsDoc(s, 1) && !s.doc.value.active && s.live == Mixed && !Guarded(s)
  {
    h := [FRESH_INSTALL];
    h := Extend(h, MakePending(1));
    h := Extend(h, WriteDocument(Prepared(1)));
    h := Extend(h, SetLive(Mixed));
  }

  lemma JournalledRun() returns (h: seq<Store>)
    ensures Run(h) && Init(h[0])
    ensures Last(h) == FRESH_INSTALL.(doc := Some(Prepared(1)), recovery := {1}, pending := {1}, used := {1},
                                      journal := Some(Journal(1, RecoveryArmed, 5)))
  {
    h := [FRESH_INSTALL];
    h := Extend(h, MakePending(1));
    h := Extend(h, WriteDocument(Prepared(1)));
    h := Extend(h, ArmRecovery(1));
    h := Extend(h, WriteJournal(Journal(1, RecoveryArmed, 5)));
  }

  /** An activation up to the write before its last. */
  lemma HandedOverRun() returns (h: seq<Store>)
    ensures Run(h) && Init(h[0])
    ensures Last(h) == FRESH_INSTALL.(doc := Some(Prepared(1).(active := true)), live := Awg31, final := {1},
                                      pending := {1}, used := {1}, journal := Some(Journal(1, RecoveryArmed, 5)))
  {
    h := JournalledRun();
    h := Extend(h, SetLive(Mixed));
    h := Extend(h, SetLive(Awg31));
    h := Extend(h, ActivateDocument);
    h := Extend(h, ArmFinal(1));
    h := Extend(h, DisarmRecovery(1));
  }

  /** An activated transaction, as a successful activation leaves it. */
  lemma ActivatedRun() returns (h: seq<Store>)
    ensures Run(h) && Init(h[0])
    ensures Last(h) == FRESH_INSTALL.(doc := Some(Prepared(1).(active := true)), live := Awg31, final := {1},
                                      pending := {1}, used := {1})
  {
    h := HandedOverRun();
    h := Extend(h, DeleteJournal);
  }

  /** An activation whose last write, the deletion of its journal, took effect but reported
      failure: the failure handler cancels the final timer first, and an active transaction
      on AWG 3.1 files is left with neither timer nor journal. */
  lemma FailedDeletionIsUnguarded() returns (h: seq<Store>)
    ensures Run(h) && Init(h[0])
    ensures var s := Last(h);
            && IsDoc(s, 1) && s.doc.value.active && s.live == Awg31 && s.outcome.None? && !Guarded(s)
            && |h| > 2 && h[|h| - 3].journal.Some? && h[|h| - 2] == Apply(h[|h| - 3], DeleteJournal)
            && s == Apply(h[|h| - 2], DisarmFinal(1))
  {
    h := HandedOverRun();
    h := Extend(h, DeleteJournal);
    h := Extend(h, DisarmFinal(1));
  }

  /** A confirmation cut after it cancelled the final timer, then retried: the retry
      re-arms the recovery timer, fails, and its compensation removes the only guard an
      active, unconfirmed transaction had left. */
  lemma RetriedConfirmationIsUnguarded() returns (h: seq<Store>)
    ensures Run(h) && Init(h[0])
    ensures var s := Last(h); IsDoc(s, 1) && s.doc.value.active && s.live == Awg31 && s.outcome.None? && !Guarded(s)
  {
    h := ActivatedRun();
    h := Extend(h, ArmRecovery(1));
    h := Extend(h, DisarmFinal(1));
    h := Extend(h, DisarmRecovery(1));
  }

  /** An activation cut after it armed the recovery timer and before its journal, then an
      operator's rollback cut while the archive of revoked clients was moved away: the timer
      still guards files that are not classic. */
  lemma DisplacedRun() returns (h: seq<Store>)
    ensures Run(h) && Init(h[0]) && Guarded(Last(h))
    ensures Last(h) == FRESH_INSTALL.(doc := Some(Prepared(1)), live := Mixed, recovery := {1}, pending := {1}, used := {1})
  {
    h := [FRESH_INSTALL];
    h := Extend(h, MakePending(1));
    h := Extend(h, WriteDocument(Prepared(1)));
    h := Extend(h, ArmRecovery(1));
    h := Extend(h, SetLive(Mixed));
  }

  /** A second activation that does not see it arms the timer again, fails, and takes away the
      only guard there was. */
  lemma ReactivationIsUnguarded() returns (h: seq<Store>)
    ensures Run(h) && Init(h[0])
    ensures var s := Last(h); IsDoc(s, 1) && !s.doc.value.active && s.live == Mixed && s.journal.None? && !Guarded(s)
  {
    h := DisplacedRun();
    h := Extend(h, ArmRecovery(1));
    h := Extend(h, DisarmRecovery(1));
  }

  const EXPIRED := Outcome(1, RolledBack, Expiry, 9, AtCheckpoint, [])

  /** Client expiry does not see it either: it records the transaction as rolled back, and from
      then on the timer would only finish the cleanup. */
  lemma ExpiryIsUnguarded() returns (h: seq<Store>)
    ensures Run(h) && Init(h[0]) && |h| > 1 && Guarded(h[|h| - 2])
    ensures Last(h) == FRESH_INSTALL.(doc := Some(Prepared(1)), live := Mixed, recovery := {1}, pending := {1}, used := {1},
                                      outcome := Some(EXPIRED), decided := map[1 := RolledBack])
    ensures !Guarded(Last(h))
  {
    h := DisplacedRun();
    h := Extend(h, WriteOutcome(EXPIRED));
  }

  lemma ExpiryGoesOn() returns (h: seq<Store>)
    ensures Run(h) && Init(h[0])
    ensures Last(h) == FRESH_INSTALL.(doc := Some(Prepared(1)), live := Mixed, recovery := {1}, used := {1},
                                      outcome := Some(EXPIRED.(phase := AtPending)), decided := map[1 := RolledBack])
  {
    h := ExpiryIsUnguarded();
    h := Extend(h, AdvancePhase);
    h := Extend(h, RemovePending(1));
    h := Extend(h, AdvancePhase);
  }

  /** What it ends in: a finished rollback over files that are not classic, and neither
      document nor timer nor journal left of the transaction. */
  lemma ExpiryLeavesFilesAstray() returns (h: seq<Store>)
    ensures Run(h) && Init(h[0])
    ensures Last(h) == FRESH_INSTALL.(live := Mixed, used := {1}, outcome := Some(EXPIRED.(phase := AtComplete)),
                                      decided := map[1 := RolledBack])
  {
    h := ExpiryGoesOn();
    h := Extend(h, RemoveDocument);
    h := Extend(h, AdvancePhase);
    h := Extend(h, DisarmRecovery(1));
    h := Extend(h, AdvancePhase);
  }

  const ROLLED_BACK := Outcome(1, RolledBack, Operator, 9, AtCheckpoint, [])

  lemma DecidedRun() returns (h: seq<Store>)
    ensures Run(h) && Init(h[0])
    ensures Last(h) == FRESH_INSTALL.(doc := Some(Prepared(1).(active := true)), final := {1}, pending := {1}, used := {1},
                                      outcome := Some(ROLLED_BACK), decided := map[1 := RolledBack])
  {
    h := ActivatedRun();
    h := Extend(h, SetLive(Mixed));
    h := Extend(h, SetLive(Classic));
    h := Extend(h, WriteOutcome(ROLLED_BACK));
  }

  lemma PendingDroppedRun() returns (h: seq<Store>)
    ensures Run(h) && Init(h[0])
    ensures Last(h) == FRESH_INSTALL.(doc := Some(Prepared(1).(active := true)), final := {1}, used := {1},
                                      outcome := Some(ROLLED_BACK.(phase := AtPending)), decided := map[1 := RolledBack])
  {
    h := DecidedRun();
    h := Extend(h, AdvancePhase);
    h := Extend(h, RemovePending(1));
    h := Extend(h, AdvancePhase);
  }

  /** An operator's rollback of it whose unit cancellation failed at the very end. */
  lemma LeftoverTimerRun() returns (h: seq<Store>)
    ensures Run(h) && Init(h[0])
    ensures Last(h) == FRESH_INSTALL.(outcome := Some(ROLLED_BACK.(phase := AtComplete)), final := {1},
                                      used := {1}, decided := map[1 := RolledBack])
  {
    h := PendingDroppedRun();
    h := Extend(h, RemoveDocument);
    h := Extend(h, AdvancePhase);
    h := Extend(h, AdvancePhase);
  }

  /** A finished transaction whose timer could not be cancelled, a second one prepared
      after it, and the old timer firing: from then on every command refuses. */
  lemma LeftoverTimerWedges() returns (h: seq<Store>)
    ensures Run(h) && Init(h[0])
    ensures var s := Last(h); Wedged(s) && IsOutcome(s, 1) && IsDoc(s, 2) && 1 in s.final
  {
    h := LeftoverTimerRun();
    h := Extend(h, MakePending(2));
    h := Extend(h, WriteDocument(Prepared(2)));
    h := Extend(h, WriteJournal(Journal(1, FinalArmed, 9)));
  }
}
