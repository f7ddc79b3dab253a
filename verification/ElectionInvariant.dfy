/** The inductive invariant of the transition system, and the proof that every step keeps it. */
module ElectionInvariant {
  import opened Relational
  import opened Schema
  import opened SchemaLaws
  import opened Election

  // ---------- The invariant ----------

  ghost predicate Ready(db: Database) {
    AllTables(db) && AdminSeeded(db)
  }

  ghost predicate SessionValid(db: Database, me: Session) {
    Ready(db) && HasRole(db.users, me.userId, me.role)
  }

  /** The steps a `castVote` call has taken by the time it reaches `pc`. */
  ghost function CallSteps(p: ProcessId, pc: Pc): seq<Event> {
    match pc
    case CheckingVoted(c) => [SawVoterApproved(p, c.me, c.voterProfile)]
    case Listing(c) => [SawVoterApproved(p, c.me, c.voterProfile), SawNoVote(p, c.me)]
    case Choosing(c) => [SawVoterApproved(p, c.me, c.voterProfile), SawNoVote(p, c.me), SawList(p)]
    case Inserting(c, k, u) =>
      [SawVoterApproved(p, c.me, c.voterProfile), SawNoVote(p, c.me), SawList(p), SawCandidateApproved(p, k, u)]
    case _ => []
  }

  predicate Voting(pc: Pc) {
    pc.CheckingVoted? || pc.Listing? || pc.Choosing? || pc.Inserting?
  }

  /** What a process may rely on where it stands. */
  ghost predicate ProcessValid(db: Database, log: seq<Event>, p: ProcessId, pc: Pc) {
    match pc
    case SettingUp(k) => k <= 5 && forall i | 0 <= i < k :: TABLES[i] in db.created
    case Exited => true
    case MainMenu => Ready(db)
    case Menu(me) => SessionValid(db, me)
    case ApplyingVoter(me, start) =>
      SessionValid(db, me) && me.role == Voter && start < |log| && log[start] == SawNoProfile(p, me, VoterKind)
    case ApplyingCandidate(me, start) =>
      SessionValid(db, me) && me.role == Candidate && start < |log| && log[start] == SawNoProfile(p, me, CandidateKind)
    case _ =>
      && SessionValid(db, pc.call.me)
      && pc.call.me.role == Voter
      && pc.call.start < |log|
      && log[pc.call.start] == SawVoterApproved(p, pc.call.me, pc.call.voterProfile)
      && StepsOf(log[pc.call.start..], p) == CallSteps(p, pc)
  }

  /** What the rows say about a step, now and ever after. */
  ghost predicate Witnessed(db: Database, e: Event) {
    match e
    case Decided(_, decider, kind, id, status) =>
      && HasRole(db.users, decider.userId, decider.role)
      && MayDecide(decider.role, kind)
      && HasProfile(db, kind, id)
      && status != Pending
    case SawVoterApproved(_, me, id) => HasVoterProfile(db, id, me.userId)
    case SawCandidateApproved(_, id, u) => HasCandidateProfile(db, id, u)
    case _ => true
  }

  /** What the history before a step says about it. */
  ghost predicate Justified(before: seq<Event>, e: Event) {
    match e
    case SawNoProfile(_, me, kind) => me.userId !in Applicants(before, kind)
    case SawVoterApproved(_, _, id) => LastStatus(before, VoterKind, id) == Approved
    case SawNoVote(_, me) => forall v | v in VotesCast(before) :: v.voterId != me.userId
    case SawCandidateApproved(_, id, _) => LastStatus(before, CandidateKind, id) == Approved
    case VoteCast(p, call, k, vote) =>
      && call.start < |before|
      && before[call.start] == SawVoterApproved(p, call.me, call.voterProfile)
      && vote.voterId == call.me.userId
      && StepsOf(before[call.start..], p) == CallSteps(p, Inserting(call, k, vote.candidateId))
    case _ => true
  }

  function VoterOwners(rows: seq<VoterProfile>): seq<int> {
    seq(|rows|, i requires 0 <= i < |rows| => rows[i].userId)
  }

  function CandidateOwners(rows: seq<CandidateProfile>): seq<int> {
    seq(|rows|, i requires 0 <= i < |rows| => rows[i].userId)
  }

  /** The profiles are, row for row, the submitted applications, each with its last decided status. */
  ghost predicate VotersTracked(rows: seq<VoterProfile>, log: seq<Event>) {
    && VoterOwners(rows) == Applicants(log, VoterKind)
    && forall vp | vp in rows :: vp.status == LastStatus(log, VoterKind, vp.id)
  }

  ghost predicate CandidatesTracked(rows: seq<CandidateProfile>, log: seq<Event>) {
    && CandidateOwners(rows) == Applicants(log, CandidateKind)
    && forall cp | cp in rows :: cp.status == LastStatus(log, CandidateKind, cp.id)
  }

  ghost predicate ProfilesTracked(db: Database, log: seq<Event>) {
    VotersTracked(db.voterProfiles, log) && CandidatesTracked(db.candidateProfiles, log)
  }

  ghost predicate JustifiedStep(log: seq<Event>, j: nat)
    requires j < |log|
  {
    Justified(log[..j], log[j])
  }

  ghost predicate HistoryValid(db: Database, log: seq<Event>) {
    && (forall j | 0 <= j < |log| :: JustifiedStep(log, j))
    && (forall j | 0 <= j < |log| :: Witnessed(db, log[j]))
  }

  /** What the log says about the database, and the database about the log. */
  ghost predicate Recorded(db: Database, log: seq<Event>) {
    && Consistent(db)
    && (db.users != [] ==> AdminSeeded(db))
    && HistoryValid(db, log)
    && ProfilesTracked(db, log)
    && db.votes == VotesCast(log)
  }

  ghost predicate Inv(s: System) {
    && Recorded(s.db, s.log)
    && (forall p | p in s.procs :: ProcessValid(s.db, s.log, p, s.procs[p]))
  }

  // ---------- One more event ----------

  lemma Unfold(log: seq<Event>, e: Event)
    ensures VotesCast(log + [e]) == VotesCast(log) + (if e.VoteCast? then [e.vote] else [])
    ensures forall kind :: Applicants(log + [e], kind)
              == Applicants(log, kind) + (if e.Applied? && e.kind == kind then [e.me.userId] else [])
    ensures forall p :: StepsOf(log + [e], p) == StepsOf(log, p) + (if e.p == p then [e] else [])
    ensures forall kind, id :: LastStatus(log + [e], kind, id) ==
              if e.Decided? && e.kind == kind && e.profileId == id then e.status else LastStatus(log, kind, id)
  {
  }

  lemma RolesPersist(db: Database, after: Database)
    requires Ready(db) && Grows(db, after)
    ensures Ready(after)
    ensures forall me | SessionValid(db, me) :: SessionValid(after, me)
  {
    FactsPersist(db, after);
  }

  lemma StepsSince(log: seq<Event>, start: nat, p: ProcessId, e: Event)
    requires start <= |log|
    ensures StepsOf((log + [e])[start..], p) == StepsOf(log[start..], p) + (if e.p == p then [e] else [])
  {
    assert (log + [e])[start..] == log[start..] + [e];
    Unfold(log[start..], e);
  }

  lemma CallStays(db: Database, log: seq<Event>, p: ProcessId, pc: Pc, after: Database, e: Event)
    requires ProcessValid(db, log, p, pc) && Voting(pc) && Grows(db, after) && e.p != p
    ensures ProcessValid(after, log + [e], p, pc)
  {
    RolesPersist(db, after);
    StepsSince(log, pc.call.start, p, e);
  }

  lemma ProcessStays(db: Database, log: seq<Event>, p: ProcessId, pc: Pc, after: Database, e: Event)
    requires ProcessValid(db, log, p, pc) && Grows(db, after) && e.p != p
    ensures ProcessValid(after, log + [e], p, pc)
  {
    if Voting(pc) {
      CallStays(db, log, p, pc, after, e);
    } else if Ready(db) {
      RolesPersist(db, after);
    }
  }

  lemma HistoryGrows(db: Database, log: seq<Event>, after: Database, e: Event)
    requires HistoryValid(db, log) && Grows(db, after)
    requires Justified(log, e) && Witnessed(after, e)
    ensures HistoryValid(after, log + [e])
  {
    FactsPersist(db, after);
    forall j | 0 <= j < |log + [e]| ensures JustifiedStep(log + [e], j) {
      assert (log + [e])[..j] == log[..j];
      assert j < |log| ==> JustifiedStep(log, j);
    }
    forall j | 0 <= j < |log + [e]| ensures Witnessed(after, (log + [e])[j]) {
      if j < |log| {
        assert Witnessed(db, log[j]);
      }
    }
  }

  /** The obligations of a statement, one per part of the record. */
  lemma RecordGrows(db: Database, log: seq<Event>, after: Database, e: Event)
    requires Recorded(db, log) && Consistent(after) && Grows(db, after)
    requires after.users != [] ==> AdminSeeded(after)
    requires Justified(log, e) && Witnessed(after, e)
    requires ProfilesTracked(after, log + [e])
    requires after.votes == db.votes + (if e.VoteCast? then [e.vote] else [])
    ensures Recorded(after, log + [e])
  {
    HistoryGrows(db, log, after, e);
    Unfold(log, e);
  }

  /** Steps that add no profile and decide nothing leave the profiles as recorded. */
  lemma ProfilesUntouched(db: Database, log: seq<Event>, after: Database, e: Event)
    requires ProfilesTracked(db, log) && !e.Decided? && !e.Applied?
    requires after.voterProfiles == db.voterProfiles && after.candidateProfiles == db.candidateProfiles
    ensures ProfilesTracked(after, log + [e])
  {
    Unfold(log, e);
  }

  lemma GrowsReflexive(db: Database)
    ensures Grows(db, db)
  {
  }

  /** Steps that only read leave the record as it was. */
  lemma ReadRecorded(db: Database, log: seq<Event>, e: Event)
    requires Recorded(db, log) && !e.VoteCast? && !e.Decided? && !e.Applied?
    requires Justified(log, e) && Witnessed(db, e)
    ensures Recorded(db, log + [e]) && Grows(db, db)
  {
    GrowsReflexive(db);
    ProfilesUntouched(db, log, db, e);
    RecordGrows(db, log, db, e);
  }

  // ---------- The steps ----------

  /** What a step of process `p` must leave behind. */
  ghost predicate Sound(db: Database, log: seq<Event>, p: ProcessId, next: Pc, after: Database, e: Event) {
    && e.p == p
    && Grows(db, after)
    && Recorded(after, log + [e])
    && ProcessValid(after, log + [e], p, next)
  }

  /** What the action `a`, taken at `pc`, leaves behind is sound. */
  ghost predicate SoundAction(db: Database, log: seq<Event>, pc: Pc, a: Action)
    requires Offers(db, pc, a)
  {
    var (next, e) := Move(db, |log|, pc, a);
    Sound(db, log, a.p, next, Result(StatementOutcome(db, pc, a), db), e)
  }

  /** A process about to take an action, in a database that is as recorded. */
  ghost predicate About(db: Database, log: seq<Event>, pc: Pc, a: Action) {
    Recorded(db, log) && ProcessValid(db, log, a.p, pc) && Offers(db, pc, a)
  }

  /** Steps that only read are sound when the process knows what its next position promises. */
  lemma ReadSound(db: Database, log: seq<Event>, p: ProcessId, next: Pc, e: Event)
    requires Recorded(db, log) && !e.VoteCast? && !e.Decided? && !e.Applied?
    requires Justified(log, e) && Witnessed(db, e)
    requires e.p == p && ProcessValid(db, log + [e], p, next)
    ensures Sound(db, log, p, next, db, e)
  {
    ReadRecorded(db, log, e);
  }

  lemma MenuSound(db: Database, log: seq<Event>, p: ProcessId, me: Session)
    requires Recorded(db, log) && SessionValid(db, me)
    ensures Sound(db, log, p, Menu(me), db, Other(p))
  {
    ReadSound(db, log, p, Menu(me), Other(p));
  }

  /** The next step of a call extends the steps it has taken. */
  lemma CallContinues(db: Database, log: seq<Event>, p: ProcessId, pc: Pc, next: Pc, e: Event)
    requires ProcessValid(db, log, p, pc) && Voting(pc) && Voting(next) && e.p == p
    requires next.call == pc.call
    requires CallSteps(p, next) == CallSteps(p, pc) + [e]
    ensures ProcessValid(db, log + [e], p, next)
  {
    StepsSince(log, pc.call.start, p, e);
  }

  lemma CallStarts(db: Database, log: seq<Event>, p: ProcessId, call: Call)
    requires SessionValid(db, call.me) && call.me.role == Voter && call.start == |log|
    ensures ProcessValid(db, log + [SawVoterApproved(p, call.me, call.voterProfile)], p, CheckingVoted(call))
  {
  }

  lemma VoterSeen(db: Database, log: seq<Event>, p: ProcessId, me: Session, vp: VoterProfile)
    requires Recorded(db, log) && SessionValid(db, me) && me.role == Voter
    requires vp in db.voterProfiles && vp.userId == me.userId && vp.status == Approved
    ensures Sound(db, log, p, CheckingVoted(Call(me, |log|, vp.id)), db, SawVoterApproved(p, me, vp.id))
  {
    CallStarts(db, log, p, Call(me, |log|, vp.id));
    ReadSound(db, log, p, CheckingVoted(Call(me, |log|, vp.id)), SawVoterApproved(p, me, vp.id));
  }

  lemma NoVoteSeen(db: Database, log: seq<Event>, p: ProcessId, pc: Pc)
    requires Recorded(db, log) && ProcessValid(db, log, p, pc) && pc.CheckingVoted?
    requires !HasVoted(db, pc.call.me.userId)
    ensures Sound(db, log, p, Listing(pc.call), db, SawNoVote(p, pc.call.me))
  {
    CallContinues(db, log, p, pc, Listing(pc.call), SawNoVote(p, pc.call.me));
    ReadSound(db, log, p, Listing(pc.call), SawNoVote(p, pc.call.me));
  }

  lemma ListSeen(db: Database, log: seq<Event>, p: ProcessId, pc: Pc)
    requires Recorded(db, log) && ProcessValid(db, log, p, pc) && pc.Listing?
    ensures Sound(db, log, p, Choosing(pc.call), db, SawList(p))
  {
    CallContinues(db, log, p, pc, Choosing(pc.call), SawList(p));
    ReadSound(db, log, p, Choosing(pc.call), SawList(p));
  }

  lemma CandidateChosen(db: Database, log: seq<Event>, p: ProcessId, pc: Pc, cp: CandidateProfile)
    requires Recorded(db, log) && ProcessValid(db, log, p, pc) && pc.Choosing?
    requires cp in db.candidateProfiles && cp.status == Approved
    ensures Sound(db, log, p, Inserting(pc.call, cp.id, cp.userId), db, SawCandidateApproved(p, cp.id, cp.userId))
  {
    var next, e := Inserting(pc.call, cp.id, cp.userId), SawCandidateApproved(p, cp.id, cp.userId);
    CallContinues(db, log, p, pc, next, e);
    ReadSound(db, log, p, next, e);
  }

  lemma CheckVoterStep(db: Database, log: seq<Event>, pc: Pc, a: Action)
    requires About(db, log, pc, a) && a.CheckVoter?
    ensures SoundAction(db, log, pc, a)
  {
    var row := VoterProfileOf(db, pc.me.userId);
    if row.Some? && row.value.status == Approved {
      VoterSeen(db, log, a.p, pc.me, row.value);
    } else {
      MenuSound(db, log, a.p, pc.me);
    }
  }

  lemma CheckVotedStep(db: Database, log: seq<Event>, pc: Pc, a: Action)
    requires About(db, log, pc, a) && a.CheckVoted?
    ensures SoundAction(db, log, pc, a)
  {
    if HasVoted(db, pc.call.me.userId) {
      MenuSound(db, log, a.p, pc.call.me);
    } else {
      NoVoteSeen(db, log, a.p, pc);
    }
  }

  lemma ListCandidatesStep(db: Database, log: seq<Event>, pc: Pc, a: Action)
    requires About(db, log, pc, a) && (a.ListCandidates? || (a.Fail? && pc.Listing?))
    ensures SoundAction(db, log, pc, a)
  {
    ListSeen(db, log, a.p, pc);
  }

  lemma ChooseStep(db: Database, log: seq<Event>, pc: Pc, a: Action)
    requires About(db, log, pc, a) && a.Choose?
    ensures SoundAction(db, log, pc, a)
  {
    var row := if a.choice.Some? then ApprovedCandidate(db, a.choice.value) else None;
    if row.Some? {
      CandidateChosen(db, log, a.p, pc, row.value);
    } else {
      MenuSound(db, log, a.p, pc.call.me);
    }
  }

  /** A step some process took is in the log. */
  lemma {:induction false} StepInLog(log: seq<Event>, p: ProcessId, e: Event)
    requires e in StepsOf(log, p)
    ensures e in log
  {
    var n := |log| - 1;
    if e in StepsOf(log[..n], p) {
      StepInLog(log[..n], p, e);
    }
  }

  /** The rows an about-to-vote process has seen. */
  lemma InsertingSaw(db: Database, log: seq<Event>, p: ProcessId, pc: Pc)
    requires HistoryValid(db, log) && References(db) && ProcessValid(db, log, p, pc) && pc.Inserting?
    ensures HasVoterProfile(db, pc.call.voterProfile, pc.call.me.userId)
    ensures HasCandidateProfile(db, pc.profileId, pc.candidateId)
    ensures HasRole(db.users, pc.call.me.userId, Voter) && HasRole(db.users, pc.candidateId, Candidate)
  {
    var recent := log[pc.call.start..];
    var steps := CallSteps(p, pc);
    assert steps[0] in StepsOf(recent, p) && steps[3] in StepsOf(recent, p);
    StepInLog(recent, p, steps[0]);
    StepInLog(recent, p, steps[3]);
    assert steps[0] in log && steps[3] in log;
  }

  lemma CastIsJustified(db: Database, log: seq<Event>, p: ProcessId, pc: Pc, vote: Vote)
    requires ProcessValid(db, log, p, pc) && pc.Inserting?
    requires vote.voterId == pc.call.me.userId && vote.candidateId == pc.candidateId
    ensures Justified(log, VoteCast(p, pc.call, pc.profileId, vote)) && SessionValid(db, pc.call.me)
  {
  }

  lemma StoredVoteSound(db: Database, log: seq<Event>, p: ProcessId, pc: Pc, vote: Vote)
    requires Recorded(db, log) && ProcessValid(db, log, p, pc) && pc.Inserting?
    requires vote.voterId == pc.call.me.userId && vote.candidateId == pc.candidateId
    requires FreshId(db, VotesTable, vote.id) && InsertVote(db, vote).Done?
    ensures Sound(db, log, p, Menu(pc.call.me), InsertVote(db, vote).db, VoteCast(p, pc.call, pc.profileId, vote))
  {
    var after, e := InsertVote(db, vote).db, VoteCast(p, pc.call, pc.profileId, vote);
    InsertingSaw(db, log, p, pc);
    InsertVoteSafe(db, vote);
    CastIsJustified(db, log, p, pc, vote);
    ProfilesUntouched(db, log, after, e);
    RecordGrows(db, log, after, e);
    RolesPersist(db, after);
  }

  lemma SubmitVoteStep(db: Database, log: seq<Event>, pc: Pc, a: Action)
    requires About(db, log, pc, a) && a.SubmitVote?
    ensures SoundAction(db, log, pc, a)
  {
    var vote := PendingVote(pc, a.id, a.now);
    if InsertVote(db, vote).Done? {
      StoredVoteSound(db, log, a.p, pc, vote);
    } else {
      ReadSound(db, log, a.p, Menu(pc.call.me), VoteRefused(a.p, pc.call));
    }
  }

  lemma {:induction false} NeverDecided(log: seq<Event>, kind: Kind, id: int)
    requires forall j | 0 <= j < |log| :: !(log[j].Decided? && log[j].kind == kind && log[j].profileId == id)
    ensures LastStatus(log, kind, id) == Pending
  {
    if log != [] {
      NeverDecided(log[..|log| - 1], kind, id);
    }
  }

  /** A fresh profile id has no decisions behind it, so a new row starts pending in both readings. */
  lemma FreshIsPending(db: Database, log: seq<Event>, kind: Kind, id: int)
    requires HistoryValid(db, log) && !HasProfile(db, kind, id)
    ensures LastStatus(log, kind, id) == Pending
  {
    forall j | 0 <= j < |log| && log[j].Decided? && log[j].kind == kind ensures log[j].profileId != id {
      assert Witnessed(db, log[j]);
    }
    NeverDecided(log, kind, id);
  }

  lemma NewVoterProfileTracked(db: Database, log: seq<Event>, row: VoterProfile, e: Event)
    requires ProfilesTracked(db, log) && HistoryValid(db, log)
    requires FreshId(db, VoterProfilesTable, row.id) && row.status == Pending
    requires e.Applied? && e.kind == VoterKind && e.me.userId == row.userId
    ensures ProfilesTracked(db.(voterProfiles := db.voterProfiles + [row]), log + [e])
  {
    FreshIsPending(db, log, VoterKind, row.id);
    Unfold(log, e);
    assert VoterOwners(db.voterProfiles + [row]) == VoterOwners(db.voterProfiles) + [row.userId];
  }

  lemma NewCandidateProfileTracked(db: Database, log: seq<Event>, row: CandidateProfile, e: Event)
    requires ProfilesTracked(db, log) && HistoryValid(db, log)
    requires FreshId(db, CandidateProfilesTable, row.id) && row.status == Pending
    requires e.Applied? && e.kind == CandidateKind && e.me.userId == row.userId
    ensures ProfilesTracked(db.(candidateProfiles := db.candidateProfiles + [row]), log + [e])
  {
    FreshIsPending(db, log, CandidateKind, row.id);
    Unfold(log, e);
    assert CandidateOwners(db.candidateProfiles + [row]) == CandidateOwners(db.candidateProfiles) + [row.userId];
  }

  lemma OwnersListed(db: Database, userId: int)
    ensures AppliedAsVoter(db, userId) <==> userId in VoterOwners(db.voterProfiles)
    ensures AppliedAsCandidate(db, userId) <==> userId in CandidateOwners(db.candidateProfiles)
  {
    if AppliedAsVoter(db, userId) {
      var i :| 0 <= i < |db.voterProfiles| && db.voterProfiles[i].userId == userId;
      assert VoterOwners(db.voterProfiles)[i] == userId;
    }
    if AppliedAsCandidate(db, userId) {
      var i :| 0 <= i < |db.candidateProfiles| && db.candidateProfiles[i].userId == userId;
      assert CandidateOwners(db.candidateProfiles)[i] == userId;
    }
  }

  /** The guards of the two applications. */
  lemma GuardStep(db: Database, log: seq<Event>, pc: Pc, a: Action)
    requires About(db, log, pc, a) && (a.GuardVoterApplication? || a.GuardCandidacy?)
    ensures SoundAction(db, log, pc, a)
  {
    OwnersListed(db, pc.me.userId);
    var (next, e) := Move(db, |log|, pc, a);
    ReadSound(db, log, a.p, next, e);
  }

  lemma StoredVoterProfileSound(db: Database, log: seq<Event>, p: ProcessId, me: Session, row: VoterProfile)
    requires Recorded(db, log) && SessionValid(db, me) && me.role == Voter && row.userId == me.userId
    requires FreshId(db, VoterProfilesTable, row.id) && row.status == Pending && InsertVoterProfile(db, row).Done?
    ensures Sound(db, log, p, Menu(me), InsertVoterProfile(db, row).db, Applied(p, me, VoterKind))
  {
    var after, e := InsertVoterProfile(db, row).db, Applied(p, me, VoterKind);
    InsertVoterProfileSafe(db, row);
    NewVoterProfileTracked(db, log, row, e);
    RecordGrows(db, log, after, e);
    RolesPersist(db, after);
  }

  lemma SubmitVoterApplicationStep(db: Database, log: seq<Event>, pc: Pc, a: Action)
    requires About(db, log, pc, a) && a.SubmitVoterApplication?
    ensures SoundAction(db, log, pc, a)
  {
    var row := VoterProfile(a.id, pc.me.userId, a.constituency, a.address, Pending);
    if InsertVoterProfile(db, row).Done? {
      StoredVoterProfileSound(db, log, a.p, pc.me, row);
    } else {
      MenuSound(db, log, a.p, pc.me);
    }
  }

  lemma StoredCandidateProfileSound(db: Database, log: seq<Event>, p: ProcessId, me: Session, row: CandidateProfile)
    requires Recorded(db, log) && SessionValid(db, me) && me.role == Candidate && row.userId == me.userId
    requires FreshId(db, CandidateProfilesTable, row.id) && row.status == Pending
    requires InsertCandidateProfile(db, row).Done?
    ensures Sound(db, log, p, Menu(me), InsertCandidateProfile(db, row).db, Applied(p, me, CandidateKind))
  {
    var after, e := InsertCandidateProfile(db, row).db, Applied(p, me, CandidateKind);
    InsertCandidateProfileSafe(db, row);
    NewCandidateProfileTracked(db, log, row, e);
    RecordGrows(db, log, after, e);
    RolesPersist(db, after);
  }

  lemma SubmitCandidacyStep(db: Database, log: seq<Event>, pc: Pc, a: Action)
    requires About(db, log, pc, a) && a.SubmitCandidacy?
    ensures SoundAction(db, log, pc, a)
  {
    var row := CandidateProfile(a.id, pc.me.userId, a.party, a.constituency, a.manifesto, Pending);
    if InsertCandidateProfile(db, row).Done? {
      StoredCandidateProfileSound(db, log, a.p, pc.me, row);
    } else {
      MenuSound(db, log, a.p, pc.me);
    }
  }

  lemma OwnersUnchanged(db: Database, id: int, status: Status)
    ensures VoterOwners(SetVoterStatus(db.voterProfiles, id, status)) == VoterOwners(db.voterProfiles)
    ensures CandidateOwners(SetCandidateStatus(db.candidateProfiles, id, status))
            == CandidateOwners(db.candidateProfiles)
  {
  }

  /** The profiles after an UPDATE are the profiles with its decision logged. */
  lemma DecisionTracked(db: Database, log: seq<Event>, e: Event)
    requires ProfilesTracked(db, log) && e.Decided?
    ensures ProfilesTracked(UpdateStatus(db, e.kind, e.profileId, e.status), log + [e])
  {
    Unfold(log, e);
    OwnersUnchanged(db, e.profileId, e.status);
  }

  lemma UpdateOfMissing(db: Database, kind: Kind, id: int, status: Status)
    requires !HasProfile(db, kind, id)
    ensures UpdateStatus(db, kind, id, status) == db
  {
  }

  lemma DecidedWitnessed(db: Database, me: Session, e: Event)
    requires e.Decided? && e.decider == me && e.status != Pending
    requires HasRole(db.users, me.userId, me.role) && MayDecide(me.role, e.kind) && HasProfile(db, e.kind, e.profileId)
    ensures Witnessed(UpdateStatus(db, e.kind, e.profileId, e.status), e)
  {
    UpdateStatusGrows(db, e.kind, e.profileId, e.status);
    FactsPersist(db, UpdateStatus(db, e.kind, e.profileId, e.status));
  }

  lemma DecisionSound(db: Database, log: seq<Event>, p: ProcessId, me: Session, e: Event)
    requires Recorded(db, log) && SessionValid(db, me)
    requires e.Decided? && e.p == p && e.decider == me && e.status != Pending
    requires MayDecide(me.role, e.kind) && HasProfile(db, e.kind, e.profileId)
    ensures Sound(db, log, p, Menu(me), UpdateStatus(db, e.kind, e.profileId, e.status), e)
  {
    var after := UpdateStatus(db, e.kind, e.profileId, e.status);
    UpdateStatusSafe(db, e.kind, e.profileId, e.status);
    DecidedWitnessed(db, me, e);
    DecisionTracked(db, log, e);
    RecordGrows(db, log, after, e);
    RolesPersist(db, after);
  }

  lemma DecideStep(db: Database, log: seq<Event>, pc: Pc, a: Action)
    requires About(db, log, pc, a) && a.Decide?
    ensures SoundAction(db, log, pc, a)
  {
    if HasProfile(db, a.kind, a.profileId) {
      DecisionSound(db, log, a.p, pc.me, Decided(a.p, pc.me, a.kind, a.profileId, a.status));
    } else {
      UpdateOfMissing(db, a.kind, a.profileId, a.status);
      MenuSound(db, log, a.p, pc.me);
    }
  }

  /** Where a process stands after its next start-up statement. */
  lemma SetupAdvances(db: Database, k: nat, id: int, hash: string)
    requires k <= 5 && forall i | 0 <= i < k :: TABLES[i] in db.created
    requires db.users != [] ==> AdminSeeded(db)
    ensures var after := Result(SetupStatement(db, k, id, hash), db);
            && (after.users != [] ==> AdminSeeded(after))
            && (k < 5 ==> forall i | 0 <= i <= k :: TABLES[i] in after.created)
            && (k == 5 ==> Ready(after))
  {
    var row := AdminRow(id, hash);
    if k == 5 {
      assert forall t | t in TABLES :: t in db.created;
      assert TABLES[0] == UsersTable && TABLES[1] == VoterProfilesTable && TABLES[2] == CandidateProfilesTable
          && TABLES[3] == VotesTable && TABLES[4] == ForumPostsTable;
      var after := Result(SetupStatement(db, k, id, hash), db);
      if InsertUser(db, row).Done? {
        assert row in after.users;
      }
      assert AdminSeeded(after);
    }
  }

  lemma SetupKeepsRows(db: Database, k: nat, id: int, hash: string)
    ensures var after := Result(SetupStatement(db, k, id, hash), db);
            after == db.(created := after.created, users := after.users)
  {
  }

  lemma SetupStep(db: Database, log: seq<Event>, pc: Pc, a: Action)
    requires About(db, log, pc, a) && a.Setup?
    ensures SoundAction(db, log, pc, a)
  {
    var after := Result(SetupStatement(db, pc.next, a.id, a.hash), db);
    SetupAdvances(db, pc.next, a.id, a.hash);
    SetupStatementSafe(db, pc.next, a.id, a.hash);
    SetupKeepsRows(db, pc.next, a.id, a.hash);
    ProfilesUntouched(db, log, after, Other(a.p));
    RecordGrows(db, log, after, Other(a.p));
  }

  lemma RegisterStep(db: Database, log: seq<Event>, pc: Pc, a: Action)
    requires About(db, log, pc, a) && a.Register?
    ensures SoundAction(db, log, pc, a)
  {
    var row := User(a.id, a.username, a.hash, a.name, a.role);
    var after := Result(InsertUser(db, row), db);
    InsertUserSafe(db, row);
    RolesPersist(db, after);
    ProfilesUntouched(db, log, after, Other(a.p));
    RecordGrows(db, log, after, Other(a.p));
  }

  lemma PostSound(db: Database, log: seq<Event>, p: ProcessId, me: Session, row: Post)
    requires Recorded(db, log) && SessionValid(db, me) && FreshId(db, ForumPostsTable, row.id)
    ensures Sound(db, log, p, Menu(me), Result(InsertPost(db, row), db), Other(p))
  {
    var after := Result(InsertPost(db, row), db);
    InsertPostSafe(db, row);
    ProfilesUntouched(db, log, after, Other(p));
    RecordGrows(db, log, after, Other(p));
    RolesPersist(db, after);
  }

  lemma PostMessageStep(db: Database, log: seq<Event>, pc: Pc, a: Action)
    requires About(db, log, pc, a) && a.PostMessage?
    ensures SoundAction(db, log, pc, a)
  {
    PostSound(db, log, a.p, pc.me, Post(a.id, pc.me.userId, a.content, a.now));
  }

  lemma FailStep(db: Database, log: seq<Event>, pc: Pc, a: Action)
    requires About(db, log, pc, a) && a.Fail? && !pc.Listing?
    ensures SoundAction(db, log, pc, a)
  {
    ReadSound(db, log, a.p, AfterFailure(pc), Other(a.p));
  }

  lemma LoginStep(db: Database, log: seq<Event>, pc: Pc, a: Action)
    requires About(db, log, pc, a) && a.Login?
    ensures SoundAction(db, log, pc, a)
  {
    var row := LoginRow(db, a.username, a.hash);
    if row.Some? {
      var me := Session(row.value.id, row.value.role);
      ReadSound(db, log, a.p, Menu(me), SignedIn(a.p, me, a.username, a.hash));
    } else {
      ReadSound(db, log, a.p, MainMenu, Other(a.p));
    }
  }

  lemma QuietStep(db: Database, log: seq<Event>, pc: Pc, a: Action)
    requires About(db, log, pc, a) && (a.Logout? || a.Quit? || a.Browse?)
    ensures SoundAction(db, log, pc, a)
  {
    ReadSound(db, log, a.p, Move(db, |log|, pc, a).0, Other(a.p));
  }

  /** The steps of `castVote`. */
  predicate OfCastVote(a: Action) {
    a.CheckVoter? || a.CheckVoted? || a.ListCandidates? || a.Choose? || a.SubmitVote?
  }

  lemma CastVoteActionIsSound(db: Database, log: seq<Event>, pc: Pc, a: Action)
    requires About(db, log, pc, a) && OfCastVote(a)
    ensures SoundAction(db, log, pc, a)
  {
    match a
    case CheckVoter(_) => CheckVoterStep(db, log, pc, a);
    case CheckVoted(_) => CheckVotedStep(db, log, pc, a);
    case ListCandidates(_) => ListCandidatesStep(db, log, pc, a);
    case Choose(_, _) => ChooseStep(db, log, pc, a);
    case SubmitVote(_, _, _) => SubmitVoteStep(db, log, pc, a);
  }

  /** The steps of the two applications. */
  predicate OfApplication(a: Action) {
    a.GuardVoterApplication? || a.SubmitVoterApplication? || a.GuardCandidacy? || a.SubmitCandidacy?
  }

  lemma ApplicationActionIsSound(db: Database, log: seq<Event>, pc: Pc, a: Action)
    requires About(db, log, pc, a) && OfApplication(a)
    ensures SoundAction(db, log, pc, a)
  {
    if a.SubmitVoterApplication? {
      SubmitVoterApplicationStep(db, log, pc, a);
    } else if a.SubmitCandidacy? {
      SubmitCandidacyStep(db, log, pc, a);
    } else {
      GuardStep(db, log, pc, a);
    }
  }

  lemma FailureIsSound(db: Database, log: seq<Event>, pc: Pc, a: Action)
    requires About(db, log, pc, a) && a.Fail?
    ensures SoundAction(db, log, pc, a)
  {
    if pc.Listing? {
      ListCandidatesStep(db, log, pc, a);
    } else {
      FailStep(db, log, pc, a);
    }
  }

  lemma OtherActionIsSound(db: Database, log: seq<Event>, pc: Pc, a: Action)
    requires About(db, log, pc, a) && !OfCastVote(a) && !OfApplication(a) && !a.Fail?
    ensures SoundAction(db, log, pc, a)
  {
    if a.Setup? {
      SetupStep(db, log, pc, a);
    } else if a.Login? {
      LoginStep(db, log, pc, a);
    } else if a.Register? {
      RegisterStep(db, log, pc, a);
    } else if a.Decide? {
      DecideStep(db, log, pc, a);
    } else if a.PostMessage? {
      PostMessageStep(db, log, pc, a);
    } else {
      QuietStep(db, log, pc, a);
    }
  }

  /** Every action of a process leaves a sound record behind. */
  lemma ActionIsSound(db: Database, log: seq<Event>, pc: Pc, a: Action)
    requires About(db, log, pc, a)
    ensures SoundAction(db, log, pc, a)
  {
    if OfCastVote(a) {
      CastVoteActionIsSound(db, log, pc, a);
    } else if OfApplication(a) {
      ApplicationActionIsSound(db, log, pc, a);
    } else if a.Fail? {
      FailureIsSound(db, log, pc, a);
    } else {
      OtherActionIsSound(db, log, pc, a);
    }
  }

  /** A sound step of one process disturbs no other. */
  lemma AdvanceKeepsInv(s: System, p: ProcessId, next: Pc, after: Database, e: Event)
    requires Inv(s) && Sound(s.db, s.log, p, next, after, e)
    ensures Inv(Advance(s, p, next, after, e))
  {
    var s' := Advance(s, p, next, after, e);
    forall q | q in s'.procs ensures ProcessValid(s'.db, s'.log, q, s'.procs[q]) {
      if q != p {
        ProcessStays(s.db, s.log, q, s.procs[q], after, e);
      }
    }
  }

  lemma LaunchIsSound(db: Database, log: seq<Event>, p: ProcessId)
    requires Recorded(db, log)
    ensures Sound(db, log, p, SettingUp(0), db, Other(p))
  {
    ReadRecorded(db, log, Other(p));
  }

  /** Every step of every process keeps the invariant. */
  lemma StepKeepsInv(s: System, a: Action)
    requires Inv(s) && Enabled(s, a)
    ensures Inv(Step(s, a))
  {
    if a.Launch? {
      LaunchIsSound(s.db, s.log, a.p);
      AdvanceKeepsInv(s, a.p, SettingUp(0), s.db, Other(a.p));
    } else {
      var pc := s.procs[a.p];
      ActionIsSound(s.db, s.log, pc, a);
      var (next, e) := Move(s.db, |s.log|, pc, a);
      AdvanceKeepsInv(s, a.p, next, Result(StatementOutcome(s.db, pc, a), s.db), e);
    }
  }

  /** The steps that issue an INSERT, UPDATE or CREATE TABLE. */
  predicate Writes(a: Action) {
    a.Setup? || a.Register? || a.Decide? || a.SubmitVoterApplication? || a.SubmitCandidacy? || a.SubmitVote?
    || a.PostMessage?
  }

  /** Every statement lets the database grow. */
  lemma StatementGrows(db: Database, pc: Pc, a: Action)
    requires Offers(db, pc, a)
    ensures Grows(db, Result(StatementOutcome(db, pc, a), db))
  {
    AppendGrows(db);
    GrowsReflexive(db);
    if a.Decide? {
      UpdateStatusGrows(db, a.kind, a.profileId, a.status);
    }
  }

  lemma StepGrows(s: System, a: Action)
    requires Enabled(s, a)
    ensures Grows(s.db, Step(s, a).db)
  {
    if a.Launch? {
      GrowsReflexive(s.db);
    } else {
      StatementGrows(s.db, s.procs[a.p], a);
    }
  }

  lemma StepLogs(s: System, a: Action)
    requires Enabled(s, a)
    ensures |Step(s, a).log| == |s.log| + 1 && s.log <= Step(s, a).log
  {
  }
}
