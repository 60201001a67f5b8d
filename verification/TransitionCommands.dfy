/** Any sequence of the manager's commands, each of which may crash between any two of its
    durable writes: when exactly the dead-man guard holds throughout. */
module TransitionCommands {

  import opened Common
  import opened Transition
  import opened TransitionRuns
  import opened TransitionManager

  datatype Command =
    | Prepare(newId: Id, profiles: seq<Entry>)
    | Activate(id: Id)
    | Confirm(id: Id)
    | Rollback(id: Id, origin: Origin)
    | Expire(due: bool, metadata: map<Name, Metadata>)
    | Other(live: Live, metadata: map<Name, Metadata>)

  /** What a command reported, as far as the guard depends on it. */
  datatype Report =
    | Quiet | Activating(activation: Activation) | Confirming(confirmation: Confirmation)
    | RollingBack(began: bool) | Expiring(strayed: Option<Outcome>)

  /** One command. `history` is what it would have left without the crash and `start` the store
      in it that the command found; `end` is where the crash cut it, and `at` the write that
      gives the guard away, if the report says that one does. */
  datatype Record = Record(command: Command, history: seq<Store>, start: nat, report: Report, at: nat, end: nat)

  predicate Placed(r: Record) { r.start < r.end <= |r.history| }

  /** The four commands that can give the guard away, and what they report then. */
  predicate Unguards(r: Record)
    requires r.start < |r.history|
  {
    var before := r.history[r.start];
    match (r.command, r.report)
    case (Activate(_), Activating(a)) => ActivationLoses(a, before)
    case (Confirm(id), Confirming(c)) => ConfirmationLoses(c, id, before)
    case (Rollback(id, origin), RollingBack(began)) => RollbackLoses(origin, began, id, before)
    case (Expire(_, _), Expiring(strayed)) => strayed.Some?
    case _ => false
  }

  /** The write by which they do. */
  function UnguardingWrite(r: Record): Step
    requires r.start < |r.history| && Unguards(r)
  {
    match r.command
    case Activate(id) => ActivationLosesBy(r.report.activation, id, r.history[r.start])
    case Confirm(id) => DisarmRecovery(id)
    case Rollback(_, _) => SetLive(Mixed)
    case Expire(_, _) => WriteOutcome(r.report.strayed.value)
  }

  /** The report is of this command and true of what the command did. */
  ghost predicate Told(r: Record)
    requires r.start < |r.history|
  {
    match (r.command, r.report)
    case (Activate(id), Activating(a)) => ActivationTold(r.history, r.start, id, a)
    case (Confirm(id), Confirming(c)) => ConfirmationTold(r.history, r.start, id, c)
    case (Rollback(id, origin), RollingBack(began)) => RollbackTold(r.history, r.start, id, origin, began)
    case (Expire(_, _), Expiring(strayed)) => ExpiryTold(r.history, r.start, strayed)
    case (Prepare(_, _), Quiet) => true
    case (Other(_, _), Quiet) => true
    case _ => false
  }

  /** The command gave the guard away, and before it crashed. */
  predicate Lost(r: Record)
    requires Placed(r)
  {
    Unguards(r) && r.at < r.end
  }

  predicate LostBy(h: seq<Store>, n: nat, r: Record)
    requires Placed(r)
  {
    Lost(r) && LostAt(h, n, r.at, UnguardingWrite(r))
  }

  /** What holds of one command without a crash. */
  ghost predicate Exact(r: Record)
    requires r.start < |r.history|
  {
    && TransitionRuns.Run(r.history) && Told(r)
    && (Guarded(r.history[r.start]) ==>
          if Unguards(r) then LostAt(r.history, r.start + 1, r.at, UnguardingWrite(r))
          else forall k | r.start < k < |r.history| :: Guarded(r.history[k]))
  }

  /** One command without a crash. */
  method RunCommand(m: Manager, command: Command, now: Time) returns (report: Report, ghost at: nat)
    requires m.Valid()
    modifies m
    ensures m.Valid() && old(m.hist) <= m.hist && |old(m.hist)| > 0
    ensures Exact(Record(command, m.hist, |old(m.hist)| - 1, report, at, |m.hist|))
  {
    hide Inv, Next, LostAt, Guarded, ActivationTold, ConfirmationTold, RollbackTold, ExpiryTold;
    report, at := Quiet, |m.hist|;
    match command
    case Prepare(newId, profiles) =>
      if newId !in m.disk.used && ValidDocument(Document(newId, false, now, profiles)) {
        var _ := m.Prepare(newId, profiles, now);
      }
    case Activate(id) =>
      var activation;
      activation, at := m.Activate(id, now);
      report := Activating(activation);
    case Confirm(id) =>
      var confirmation := m.Confirm(id, now);
      report, at := Confirming(confirmation), |m.hist| - 1;
    case Rollback(id, origin) =>
      var _, began := m.Rollback(id, origin, now);
      report := RollingBack(began);
    case Expire(due, metadata) =>
      var _, strayed := m.ExpirePrepared(now, due, metadata);
      report := Expiring(strayed);
    case Other(live, metadata) =>
      var _ := m.RunOther(now, live, metadata);
  }

  /** Where a command is cut does not change what it would have done. */
  lemma ExactWherever(r: Record, end: nat)
    requires r.start < |r.history| && Exact(r)
    ensures Exact(r.(end := end))
  {
  }

  /** One command, cut after any of its writes or not at all. */
  method RunAndCrash(m: Manager, command: Command) returns (ghost r: Record)
    requires m.Valid()
    modifies m
    ensures m.Valid() && old(m.hist) <= m.hist && |old(m.hist)| > 0
    ensures Placed(r) && Exact(r)
    ensures r.command == command && r.start == |old(m.hist)| - 1 && r.end == |m.hist|
    ensures m.hist == r.history[..r.end]
    ensures Guarded(old(m.disk)) ==>
              if Lost(r) then LostAt(m.hist, |old(m.hist)|, r.at, UnguardingWrite(r)) else m.GuardedSince(|old(m.hist)|)
  {
    hide Inv, Next, Guarded, Enabled, Apply, Told, UnguardingWrite;
    var n := |m.hist|;
    var now: Time := *;
    var report;
    ghost var at;
    report, at := RunCommand(m, command, now);
    ghost var full := m.hist;
    var end: nat := *;
    if end < n || end > |m.hist| { end := |m.hist|; }
    m.Cut(end);
    r := Record(command, full, n - 1, report, at, end);
    ExactWherever(Record(command, full, n - 1, report, at, |full|), end);
    assert forall k | 0 <= k < end :: m.hist[k] == full[k];
  }

  /** The records follow one another over the history `h` from store `n` on: each command
      starts from the store in which the one before it ended or crashed. */
  ghost predicate Follow(log: seq<Record>, h: seq<Store>, n: nat) {
    && (forall i | 0 <= i < |log| ::
          && Placed(log[i]) && Exact(log[i])
          && log[i].end <= |h| && h[..log[i].end] == log[i].history[..log[i].end]
          && log[i].start == if i == 0 then n else log[i - 1].end - 1)
    && |h| == if log == [] then n + 1 else log[|log| - 1].end
  }

  lemma FollowGrows(log: seq<Record>, before: seq<Store>, r: Record, h: seq<Store>, n: nat)
    requires Follow(log, before, n) && before <= h && before != []
    requires Placed(r) && Exact(r) && r.start == |before| - 1 && r.end == |h| && h == r.history[..r.end]
    ensures Follow(log + [r], h, n)
  {
    hide Exact;
    forall i | 0 <= i < |log| ensures h[..log[i].end] == log[i].history[..log[i].end] {
      assert h[..log[i].end] == before[..log[i].end];
    }
  }

  /** What lost the guard in a shorter history lost it in the longer one. */
  lemma LostStays(before: seq<Store>, h: seq<Store>, n: nat, r: Record)
    requires before <= h && Placed(r) && LostBy(before, n, r)
    ensures LostBy(h, n, r)
  {
    hide Enabled, Apply, Guarded;
    assert h[r.at - 1] == before[r.at - 1] && h[r.at] == before[r.at];
    assert forall j | n <= j < r.at :: h[j] == before[j];
  }

  ghost predicate AllGuarded(h: seq<Store>, n: nat) { forall k | n <= k < |h| :: Guarded(h[k]) }

  /** The stores from `n` on are guarded if and only if no command gave the guard away, and the
      first one that is not was left by the write of one that did. */
  ghost predicate Accounted(log: seq<Record>, h: seq<Store>, n: nat) {
    && (forall r <- log :: Placed(r))
    && (AllGuarded(h, n) <==> forall r <- log :: !Lost(r))
    && (AllGuarded(h, n) || exists r <- log :: LostBy(h, n, r))
  }

  lemma AccountedGrows(log: seq<Record>, before: seq<Store>, r: Record, h: seq<Store>, n: nat)
    requires Accounted(log, before, n) && before <= h && 0 < n <= |before| && Placed(r)
    requires AllGuarded(before, n) ==>
               if Lost(r) then LostAt(h, |before|, r.at, UnguardingWrite(r)) else AllGuarded(h, |before|)
    ensures Accounted(log + [r], h, n)
  {
    hide Guarded, Enabled, Apply, Unguards, UnguardingWrite;
    var longer := log + [r];
    assert r in longer && forall q <- log :: q in longer;
    assert forall k | 0 <= k < |before| :: h[k] == before[k];
    if AllGuarded(before, n) {
      if Lost(r) { assert LostBy(h, n, r) && !Guarded(h[r.at]); }
    } else {
      var k :| n <= k < |before| && !Guarded(before[k]);
      assert !Guarded(h[k]);
      var first :| first in log && LostBy(before, n, first);
      LostStays(before, h, n, first);
    }
  }

  /** The guard holds in every store that any sequence of commands, cut anywhere, goes
      through, if and only if none of them gives it away. When one does, the first store
      without it is the one that this command's write left. */
  method RunCommands(m: Manager, commands: seq<Command>) returns (ghost log: seq<Record>)
    requires m.Valid() && Guarded(m.disk)
    modifies m
    ensures m.Valid() && old(m.hist) <= m.hist && |old(m.hist)| > 0
    ensures |log| == |commands| && forall i | 0 <= i < |log| :: log[i].command == commands[i]
    ensures Follow(log, m.hist, |old(m.hist)| - 1)
    ensures m.GuardedSince(|old(m.hist)|) <==> forall r <- log :: !Lost(r)
    ensures m.GuardedSince(|old(m.hist)|) || exists r <- log :: LostBy(m.hist, |old(m.hist)|, r)
  {
    hide Inv, Next, Enabled, Apply, Told, Exact, Unguards, UnguardingWrite, LostAt, LostBy, Lost;
    log := [];
    ghost var n := |m.hist|;
    assert Follow(log, m.hist, n - 1) && Accounted(log, m.hist, n);
    for i := 0 to |commands|
      invariant m.Valid() && old(m.hist) <= m.hist
      invariant |log| == i && forall j | 0 <= j < i :: log[j].command == commands[j]
      invariant Follow(log, m.hist, n - 1) && Accounted(log, m.hist, n)
      invariant AllGuarded(m.hist, n) ==> Guarded(m.disk)
    {
      hide Follow, Accounted, Lost;
      ghost var before := m.hist;
      ghost var r := RunAndCrash(m, commands[i]);
      FollowGrows(log, before, r, m.hist, n - 1);
      assert AllGuarded(before, n) ==> Guarded(before[|before| - 1]);
      AccountedGrows(log, before, r, m.hist, n);
      log := log + [r];
    }
  }
}
