/** The durable side of the obfuscation transition: every file and timer a crash
    can leave behind, every single durable write, and what each write preserves.

    A `Store` is what survives a crash. A `Step` is one atomic write to it.
    `Enabled` is the protocol's rule for that write. A run is a sequence of stores
    joined by enabled steps; because a crash only forgets the running process, every
    state of a run is also a state in which some command may be cut. */
module Transition {

  import opened Common

  type Id = nat      // a transaction id: 32 random hexadecimal digits
  type Name = string
  type Time = nat

  /** The managed files seen as a whole: the protected classic prestate, what an activation
      installs and verifies, or anything else. The checks of later commands do not tell all
      of these apart: none of them looks at the archive of revoked clients. */
  datatype Live = Classic | Mixed | Awg31

  datatype Distribution = Unknown | Awaiting | Distributed(at: Time)
  datatype Change = ToAwg31 | OtherChange(reason: string)
  datatype Metadata = Metadata(revision: nat, generatedAt: Time, change: Change, distribution: Distribution)

  datatype Entry = Entry(name: Name, revision: nat)
  datatype Document = Document(id: Id, active: bool, preparedAt: Time, profiles: seq<Entry>)

  datatype Update = Update(name: Name, before: nat, after: nat)
  datatype Decision = Confirmed | RolledBack
  datatype Reason = Confirmation | Operator | Timeout | ActivationFailed | Expiry
  datatype Phase = AtCheckpoint | AtMetadata | AtPending | AtCurrent | AtComplete
  datatype Outcome = Outcome(id: Id, decision: Decision, reason: Reason, completedAt: Time,
                             phase: Phase, updates: seq<Update>)

  datatype JournalPhase = Intent | RecoveryArmed | ArtifactsInstalled | Reloaded | Activated | FinalArmed
  datatype Journal = Journal(id: Id, phase: JournalPhase, createdAt: Time)

  /** `used` and `decided` are history: no command reads them. */
  datatype Store = Store(
    doc: Option<Document>,
    outcome: Option<Outcome>,
    journal: Option<Journal>,
    recovery: set<Id>,
    final: set<Id>,
    pending: set<Id>,
    live: Live,
    profiles: map<Name, Metadata>,
    used: set<Id>,
    decided: map<Id, Decision>)

  datatype Step =
    | MakePending(id: Id)
    | RemovePending(id: Id)
    | WriteDocument(doc: Document)
    | UnlinkDocument
    | ActivateDocument
    | ArmRecovery(id: Id)
    | ArmFinal(id: Id)
    | DisarmRecovery(id: Id)
    | DisarmFinal(id: Id)
    | WriteJournal(journal: Journal)
    | DeleteJournal
    | SetLive(live: Live)
    | WriteOutcome(outcome: Outcome)
    | MarkProfile(update: Update)
    | AdvancePhase
    | RemoveDocument
    | OtherCommand(live: Live, profiles: map<Name, Metadata>)

  // ---------------------------------------------------------------- vocabulary

  predicate IsDoc(s: Store, id: Id) { s.doc.Some? && s.doc.value.id == id }

  predicate IsOutcome(s: Store, id: Id) { s.outcome.Some? && s.outcome.value.id == id }

  predicate JournalNames(s: Store, id: Id) { s.journal.Some? && s.journal.value.id == id }

  predicate ConfirmedFor(s: Store, id: Id) { IsOutcome(s, id) && s.outcome.value.decision == Confirmed }

  /** No terminal cleanup is outstanding. */
  predicate Settled(s: Store) { s.outcome.None? || s.outcome.value.phase == AtComplete }

  /** A rollback is recorded over the classic files; only client expiry records one for a
      prepared transaction without looking. */
  predicate MayRollBack(s: Store, reason: Reason) {
    s.live == Classic || (reason == Expiry && s.doc.Some? && !s.doc.value.active && s.journal.None?)
  }

  function Rank(p: Phase): nat {
    match p
    case AtCheckpoint => 0
    case AtMetadata => 1
    case AtPending => 2
    case AtCurrent => 3
    case AtComplete => 4
  }

  function NextPhase(p: Phase): (q: Phase)
    requires p != AtComplete
    ensures Rank(q) == Rank(p) + 1
  {
    match p
    case AtCheckpoint => AtMetadata
    case AtMetadata => AtPending
    case AtPending => AtCurrent
    case AtCurrent => AtComplete
  }

  function MarkRegenerated(m: Metadata, at: Time): Metadata {
    Metadata(m.revision + 1, at, ToAwg31, Awaiting)
  }

  predicate IsMarked(m: Metadata, u: Update, at: Time) {
    m.revision == u.after && m.generatedAt == at && m.change == ToAwg31 && m.distribution == Awaiting
  }

  predicate ValidDocument(d: Document) {
    && d.profiles != []
    && (forall i, j | 0 <= i < j < |d.profiles| :: d.profiles[i].name != d.profiles[j].name)
    && (forall e | e in d.profiles :: e.revision >= 1)
  }

  predicate ValidOutcome(o: Outcome) {
    && (o.decision == Confirmed <==> o.reason == Confirmation)
    && (o.decision == Confirmed <==> o.updates != [])
    && (forall i, j | 0 <= i < j < |o.updates| :: o.updates[i].name != o.updates[j].name)
    && (forall u | u in o.updates :: u.before >= 1 && u.after == u.before + 1)
  }

  /** Every listed profile is known and still at its old revision or already at its new one. */
  predicate UpdatesApply(profiles: map<Name, Metadata>, o: Outcome) {
    forall u | u in o.updates ::
      u.name in profiles && (profiles[u.name].revision == u.before || IsMarked(profiles[u.name], u, o.completedAt))
  }

  predicate UpdatesApplied(profiles: map<Name, Metadata>, o: Outcome) {
    forall u | u in o.updates :: u.name in profiles && IsMarked(profiles[u.name], u, o.completedAt)
  }

  function UpdatesFor(profiles: seq<Entry>): (us: seq<Update>)
    ensures |us| == |profiles|
    ensures forall i | 0 <= i < |us| :: us[i] == Update(profiles[i].name, profiles[i].revision, profiles[i].revision + 1)
  {
    seq(|profiles|, i requires 0 <= i < |profiles| =>
      Update(profiles[i].name, profiles[i].revision, profiles[i].revision + 1))
  }

  // ---------------------------------------------------------------- one durable write

  predicate Enabled(s: Store, step: Step) {
    match step
    case MakePending(id) => id !in s.used
    case RemovePending(id) => !IsDoc(s, id) || IsOutcome(s, id) || !s.doc.value.active
    case WriteDocument(d) =>
      && s.doc.None? && Settled(s) && s.journal.None? && s.live != Awg31
      && !d.active && d.id !in s.used && ValidDocument(d)
    case UnlinkDocument =>
      && s.doc.Some? && !s.doc.value.active && !IsOutcome(s, s.doc.value.id)
      && s.live == Classic && !JournalNames(s, s.doc.value.id)
    case ActivateDocument =>
      && s.doc.Some? && !s.doc.value.active && !IsOutcome(s, s.doc.value.id) && s.live == Awg31
    case ArmRecovery(id) => id in s.used
    case ArmFinal(id) => id in s.used
    case DisarmRecovery(_) => true
    case DisarmFinal(_) => true
    case WriteJournal(j) =>
      && (IsDoc(s, j.id) || IsOutcome(s, j.id))
      && (s.journal.Some? ==> s.journal.value.id == j.id && s.journal.value.createdAt == j.createdAt)
    case DeleteJournal => s.journal.Some?
    case SetLive(_) => s.doc.Some? && !IsOutcome(s, s.doc.value.id)
    case WriteOutcome(o) =>
      && IsDoc(s, o.id) && !IsOutcome(s, o.id) && Settled(s)
      && (s.journal.Some? ==> s.journal.value.id == o.id)
      && ValidOutcome(o) && o.phase == AtCheckpoint
      && (o.decision == RolledBack ==> MayRollBack(s, o.reason))
      && (o.decision == Confirmed ==>
            && s.doc.value.active && s.live != Classic
            && o.updates == UpdatesFor(s.doc.value.profiles)
            && forall u | u in o.updates :: u.name in s.profiles && s.profiles[u.name].revision == u.before)
    case MarkProfile(u) =>
      && s.outcome.Some? && s.outcome.value.phase == AtCheckpoint && u in s.outcome.value.updates
      && u.name in s.profiles && s.profiles[u.name].revision == u.before
    case AdvancePhase =>
      && s.outcome.Some? && s.outcome.value.phase != AtComplete
      && (s.outcome.value.phase == AtCheckpoint ==> UpdatesApplied(s.profiles, s.outcome.value))
      && (s.outcome.value.phase == AtMetadata ==> s.outcome.value.id !in s.pending)
      && (s.outcome.value.phase == AtPending ==> s.doc.None?)
    case RemoveDocument =>
      && s.doc.Some? && IsOutcome(s, s.doc.value.id) && s.outcome.value.phase == AtPending
    case OtherCommand(l, _) =>
      && s.doc.None? && Settled(s) && s.journal.None? && (l != Mixed || s.live == Mixed)
  }

  function Apply(s: Store, step: Step): Store
    requires Enabled(s, step)
  {
    match step
    case MakePending(id) => s.(pending := s.pending + {id})
    case RemovePending(id) => s.(pending := s.pending - {id})
    // The backup it names was taken of the files as they are: they are its classic prestate.
    case WriteDocument(d) => s.(doc := Some(d), live := Classic, used := s.used + {d.id})
    case UnlinkDocument => s.(doc := None)
    case ActivateDocument => s.(doc := Some(s.doc.value.(active := true)))
    case ArmRecovery(id) => s.(recovery := s.recovery + {id})
    case ArmFinal(id) => s.(final := s.final + {id})
    case DisarmRecovery(id) => s.(recovery := s.recovery - {id})
    case DisarmFinal(id) => s.(final := s.final - {id})
    case WriteJournal(j) => s.(journal := Some(j))
    case DeleteJournal => s.(journal := None)
    case SetLive(l) => s.(live := l)
    case WriteOutcome(o) => s.(outcome := Some(o), decided := s.decided[o.id := o.decision])
    case MarkProfile(u) =>
      s.(profiles := s.profiles[u.name := MarkRegenerated(s.profiles[u.name], s.outcome.value.completedAt)])
    case AdvancePhase =>
      s.(outcome := Some(s.outcome.value.(phase := NextPhase(s.outcome.value.phase))))
    case RemoveDocument => s.(doc := None)
    case OtherCommand(l, ps) => s.(live := l, profiles := ps)
  }

  // ---------------------------------------------------------------- the coupling invariant

  /** How document, outcome, journal, pending tree and live state hang together. */
  predicate Coupled(s: Store) {
    && (s.journal.Some? ==> IsDoc(s, s.journal.value.id) || IsOutcome(s, s.journal.value.id))
    && (s.outcome.Some? ==>
          var o := s.outcome.value;
          && ValidOutcome(o)
          && (o.phase != AtComplete && s.doc.Some? ==> s.doc.value.id == o.id)
          && (Rank(o.phase) < Rank(AtPending) ==> s.doc.Some?)
          && (Rank(o.phase) > Rank(AtPending) ==> !IsDoc(s, o.id))
          && (Rank(o.phase) > Rank(AtMetadata) ==> o.id !in s.pending)
          && (o.phase != AtComplete && o.decision == Confirmed ==> s.live != Classic)
          && (o.phase != AtComplete && o.decision == RolledBack && o.reason != Expiry ==> s.live == Classic)
          && (o.phase == AtCheckpoint ==> UpdatesApply(s.profiles, o))
          && (0 < Rank(o.phase) < Rank(AtComplete) ==> UpdatesApplied(s.profiles, o)))
    && (s.doc.None? && s.live == Mixed ==>
          s.outcome.Some? && (s.outcome.value.decision == Confirmed || s.outcome.value.reason == Expiry))
  }

  /** Ids are fresh and a decision, once durable, is remembered unchanged. */
  predicate Remembered(s: Store) {
    && (s.doc.Some? ==> s.doc.value.id in s.used && ValidDocument(s.doc.value))
    && (s.outcome.Some? ==> s.outcome.value.id in s.decided && s.decided[s.outcome.value.id] == s.outcome.value.decision)
    && (s.doc.Some? && s.doc.value.id in s.decided ==> IsOutcome(s, s.doc.value.id))
    && s.decided.Keys <= s.used
  }

  predicate Inv(s: Store) { Coupled(s) && Remembered(s) }

  /** No transition has ever been prepared. */
  predicate Init(s: Store) {
    && s.doc.None? && s.outcome.None? && s.journal.None?
    && s.recovery == {} && s.final == {} && s.pending == {} && s.live != Mixed
    && s.used == {} && s.decided == map[]
  }

  lemma UpdatesForIsValid(d: Document)
    requires ValidDocument(d)
    ensures var us := UpdatesFor(d.profiles);
            && us != []
            && (forall i, j | 0 <= i < j < |us| :: us[i].name != us[j].name)
            && (forall u | u in us :: u.before >= 1 && u.after == u.before + 1)
  {
    var us := UpdatesFor(d.profiles);
    forall u | u in us ensures u.before >= 1 && u.after == u.before + 1 {
      var i :| 0 <= i < |us| && us[i] == u;
      assert d.profiles[i] in d.profiles;
    }
  }

  lemma DistinctUpdates(o: Outcome, u: Update, v: Update)
    requires ValidOutcome(o) && u in o.updates && v in o.updates && u.name == v.name
    ensures u == v
  {
    var i :| 0 <= i < |o.updates| && o.updates[i] == u;
    var j :| 0 <= j < |o.updates| && o.updates[j] == v;
    assert i == j;
  }

  lemma MarkKeepsUpdates(s: Store, u: Update)
    requires Inv(s) && Enabled(s, MarkProfile(u))
    ensures UpdatesApply(Apply(s, MarkProfile(u)).profiles, s.outcome.value)
  {
    var t := Apply(s, MarkProfile(u));
    var o := s.outcome.value;
    forall v | v in o.updates
      ensures v.name in t.profiles
      ensures t.profiles[v.name].revision == v.before || IsMarked(t.profiles[v.name], v, o.completedAt)
    {
      if v.name == u.name { DistinctUpdates(o, u, v); }
    }
  }

  /** Deciding puts the record, and the updates it lists, where cleanup expects them. */
  lemma OutcomeKeepsCoupled(s: Store, o: Outcome)
    requires Inv(s) && Enabled(s, WriteOutcome(o))
    ensures Coupled(Apply(s, WriteOutcome(o)))
  {
  }

  lemma AdvanceKeepsCoupled(s: Store)
    requires Inv(s) && Enabled(s, AdvancePhase)
    ensures Coupled(Apply(s, AdvancePhase))
  {
  }

  lemma StepKeepsRemembered(s: Store, step: Step)
    requires Inv(s) && Enabled(s, step)
    ensures Remembered(Apply(s, step))
  {
    hide ValidOutcome, UpdatesApply, UpdatesApplied;
  }

  /** Every enabled write, wherever the writer is cut, keeps the coupling. */
  lemma StepKeepsInv(s: Store, step: Step)
    requires Inv(s) && Enabled(s, step)
    ensures Inv(Apply(s, step))
  {
    hide ValidDocument;
    StepKeepsRemembered(s, step);
    match step
    case MarkProfile(u) => MarkKeepsUpdates(s, u);
    case WriteOutcome(o) => OutcomeKeepsCoupled(s, o);
    case AdvancePhase => AdvanceKeepsCoupled(s);
    case _ =>
  }

}
