/** What holds in every run, whatever the number of processes and however they interleave. */
module ElectionTheorems {
  import opened Relational
  import opened Schema
  import opened SchemaLaws
  import opened Election
  import opened ElectionInvariant

  // ---------- Runs ----------

  lemma {:induction false} RunKeepsInv(s: System, actions: seq<Action>)
    requires Inv(s) && IsRun(s, actions)
    ensures Inv(Execute(s, actions))
  {
    if actions != [] {
      var n := |actions| - 1;
      RunKeepsInv(s, actions[..n]);
      StepKeepsInv(Execute(s, actions[..n]), actions[n]);
    }
  }

  /** A state some run from the empty database reaches. */
  ghost predicate Reachable(s: System) {
    exists actions :: IsRun(INITIAL, actions) && Execute(INITIAL, actions) == s
  }

  lemma ReachableInv(s: System)
    requires Reachable(s)
    ensures Inv(s)
  {
    var actions :| IsRun(INITIAL, actions) && Execute(INITIAL, actions) == s;
    RunKeepsInv(INITIAL, actions);
  }

  lemma {:induction false} RunsCompose(s: System, a: seq<Action>, b: seq<Action>)
    requires IsRun(s, a) && IsRun(Execute(s, a), b)
    ensures IsRun(s, a + b) && Execute(s, a + b) == Execute(Execute(s, a), b)
  {
    if b == [] {
      assert a + b == a;
    } else {
      var n := |b| - 1;
      RunsCompose(s, a, b[..n]);
      assert (a + b)[..|a + b| - 1] == a + b[..n];
    }
  }

  lemma ReachableStep(s: System, a: Action)
    requires Reachable(s) && Enabled(s, a)
    ensures Reachable(Step(s, a))
  {
    var before :| IsRun(INITIAL, before) && Execute(INITIAL, before) == s;
    assert (before + [a])[..|before|] == before;
    assert IsRun(INITIAL, before + [a]);
  }

  lemma ReachableExtends(s: System, actions: seq<Action>)
    requires Reachable(s) && IsRun(s, actions)
    ensures Reachable(Execute(s, actions))
  {
    var before :| IsRun(INITIAL, before) && Execute(INITIAL, before) == s;
    RunsCompose(INITIAL, before, actions);
  }

  /** Over any stretch of any run rows are only added: users, votes and posts stay as stored,
      profiles keep owner and content, and no status returns to pending. */
  lemma {:induction false} RunGrows(s: System, actions: seq<Action>)
    requires IsRun(s, actions)
    ensures Grows(s.db, Execute(s, actions).db)
    ensures s.log <= Execute(s, actions).log && |Execute(s, actions).log| == |s.log| + |actions|
  {
    if actions != [] {
      var n := |actions| - 1;
      var mid := Execute(s, actions[..n]);
      RunGrows(s, actions[..n]);
      StepGrows(mid, actions[n]);
      StepLogs(mid, actions[n]);
      GrowsTransitive(s.db, mid.db, Execute(s, actions).db);
    }
  }

  /** Every profile starts pending, whoever inserts it. */
  lemma NewProfilesArePending(s: System, a: Action)
    requires Enabled(s, a)
    ensures var s' := Step(s, a);
            && (forall i | |s.db.voterProfiles| <= i < |s'.db.voterProfiles| ::
                  s'.db.voterProfiles[i].status == Pending)
            && (forall i | |s.db.candidateProfiles| <= i < |s'.db.candidateProfiles| ::
                  s'.db.candidateProfiles[i].status == Pending)
  {
  }

  /** The declared keys and references hold in every reachable state; each user has at most one profile of
      each kind, the profiles are row for row the applications submitted, and each profile's status is that
      of the last decision taken on it, pending if none. */
  lemma ConstraintsAlwaysHold(s: System)
    requires Reachable(s)
    ensures UniqueKeys(s.db) && References(s.db) && RowsOnlyInTables(s.db)
    ensures VoterOwners(s.db.voterProfiles) == Applicants(s.log, VoterKind)
    ensures CandidateOwners(s.db.candidateProfiles) == Applicants(s.log, CandidateKind)
    ensures forall vp | vp in s.db.voterProfiles :: vp.status == LastStatus(s.log, VoterKind, vp.id)
    ensures forall cp | cp in s.db.candidateProfiles :: cp.status == LastStatus(s.log, CandidateKind, cp.id)
  {
    ReachableInv(s);
  }

  // ---------- Who may write what ----------

  function SessionOf(pc: Pc): Option<Session> {
    match pc
    case Menu(me) => Some(me)
    case ApplyingVoter(me, _) => Some(me)
    case ApplyingCandidate(me, _) => Some(me)
    case CheckingVoted(call) => Some(call.me)
    case Listing(call) => Some(call.me)
    case Choosing(call) => Some(call.me)
    case Inserting(call, _, _) => Some(call.me)
    case _ => None
  }

  ghost predicate HoldsRole(pc: Pc, role: Role) {
    SessionOf(pc).Some? && SessionOf(pc).value.role == role
  }

  /** Statuses of candidates change only at an administrator's hand, those of voters also at a field officer's. */
  lemma OnlyOfficialsDecide(s: System, a: Action)
    requires Enabled(s, a) && !a.Launch?
    ensures var s' := Step(s, a);
            && |s'.db.candidateProfiles| >= |s.db.candidateProfiles|
            && |s'.db.voterProfiles| >= |s.db.voterProfiles|
            && (s'.db.candidateProfiles[..|s.db.candidateProfiles|] != s.db.candidateProfiles
                ==> HoldsRole(s.procs[a.p], Admin))
            && (s'.db.voterProfiles[..|s.db.voterProfiles|] != s.db.voterProfiles
                ==> HoldsRole(s.procs[a.p], Admin) || HoldsRole(s.procs[a.p], FieldOfficer))
  {
  }

  /** The rows added to votes, profiles and posts carry the id of the session, in the role they are for. */
  ghost predicate RowsAreOnesOwn(before: Database, after: Database, me: Option<Session>) {
    && (forall i | |before.votes| <= i < |after.votes| ::
          me.Some? && after.votes[i].voterId == me.value.userId && me.value.role == Voter)
    && (forall i | |before.voterProfiles| <= i < |after.voterProfiles| ::
          me.Some? && after.voterProfiles[i].userId == me.value.userId && me.value.role == Voter)
    && (forall i | |before.candidateProfiles| <= i < |after.candidateProfiles| ::
          me.Some? && after.candidateProfiles[i].userId == me.value.userId && me.value.role == Candidate)
    && (forall i | |before.posts| <= i < |after.posts| ::
          me.Some? && after.posts[i].userId == me.value.userId && MayPost(me.value.role))
  }

  /** The rows a step adds to the votes, profiles and posts belong to the user signed in at that process,
      whose account has the role the menu is for. */
  lemma NewRowsAreOnesOwn(s: System, a: Action)
    requires Reachable(s) && Enabled(s, a) && !a.Launch?
    ensures RowsAreOnesOwn(s.db, Step(s, a).db, SessionOf(s.procs[a.p]))
    ensures var me := SessionOf(s.procs[a.p]); me.Some? ==> HasRole(s.db.users, me.value.userId, me.value.role)
  {
    SessionsAreGenuine(s, a.p);
    StatementRowsAreOnesOwn(s.db, s.procs[a.p], a);
  }

  lemma StatementRowsAreOnesOwn(db: Database, pc: Pc, a: Action)
    requires Offers(db, pc, a)
    requires pc.ApplyingVoter? || pc.Inserting? ==> HoldsRole(pc, Voter)
    requires pc.ApplyingCandidate? ==> HoldsRole(pc, Candidate)
    ensures RowsAreOnesOwn(db, Result(StatementOutcome(db, pc, a), db), SessionOf(pc))
  {
  }

  /** A process signed in as someone acts in that account's role, and guarded operations run only in the
      menu of the role they are for. */
  lemma SessionsAreGenuine(s: System, p: ProcessId)
    requires Reachable(s) && p in s.procs
    ensures var me := SessionOf(s.procs[p]); me.Some? ==> HasRole(s.db.users, me.value.userId, me.value.role)
    ensures s.procs[p].ApplyingVoter? || Voting(s.procs[p]) ==> HoldsRole(s.procs[p], Voter)
    ensures s.procs[p].ApplyingCandidate? ==> HoldsRole(s.procs[p], Candidate)
  {
    assert ProcessValid(s.db, s.log, p, s.procs[p]) by { ReachableInv(s); }
    SessionHolds(s.db, s.log, p, s.procs[p]);
  }

  lemma SessionHolds(db: Database, log: seq<Event>, p: ProcessId, pc: Pc)
    requires ProcessValid(db, log, p, pc)
    ensures var me := SessionOf(pc); me.Some? ==> HasRole(db.users, me.value.userId, me.value.role)
    ensures pc.ApplyingVoter? || Voting(pc) ==> HoldsRole(pc, Voter)
    ensures pc.ApplyingCandidate? ==> HoldsRole(pc, Candidate)
  {
  }

  // ---------- Ballots ----------

  /** The steps of a whole successful `castVote` call. */
  ghost function BallotSteps(e: Event): seq<Event>
    requires e.VoteCast?
  {
    CallSteps(e.p, Inserting(e.call, e.profileId, e.vote.candidateId)) + [e]
  }

  lemma ReceiptSteps(s: System, k: nat)
    requires HistoryValid(s.db, s.log) && k < |s.log| && s.log[k].VoteCast?
    ensures var e := s.log[k];
            && e.call.start < k
            && e.vote.voterId == e.call.me.userId
            && StepsOf(s.log[e.call.start..k + 1], e.p) == BallotSteps(e)
  {
    var e := s.log[k];
    var start := e.call.start;
    assert JustifiedStep(s.log, k);
    assert s.log[..k][start..] == s.log[start..k];
    assert s.log[start..k + 1] == s.log[start..k] + [e];
    Unfold(s.log[start..k], e);
  }

  /** The votes table is, row for row, the list of "Vote cast successfully" messages, with at most one
      per voter; each was printed by a process whose steps since the call began are exactly the
      call's checks, made for that voter and that candidate. */
  lemma BallotsMatchReceipts(s: System)
    requires Reachable(s)
    ensures s.db.votes == VotesCast(s.log)
    ensures forall i, j | 0 <= i < j < |s.db.votes| :: s.db.votes[i].voterId != s.db.votes[j].voterId
    ensures forall k | 0 <= k < |s.log| && s.log[k].VoteCast? ::
              && s.log[k].call.start < k
              && s.log[k].vote.voterId == s.log[k].call.me.userId
              && StepsOf(s.log[s.log[k].call.start..k + 1], s.log[k].p) == BallotSteps(s.log[k])
  {
    ReachableInv(s);
    forall k | 0 <= k < |s.log| && s.log[k].VoteCast?
      ensures s.log[k].call.start < k && s.log[k].vote.voterId == s.log[k].call.me.userId
      ensures StepsOf(s.log[s.log[k].call.start..k + 1], s.log[k].p) == BallotSteps(s.log[k])
    {
      ReceiptSteps(s, k);
    }
  }

  /** Step `d` approved a profile, and nothing overruled it before step `i`. */
  ghost predicate StandingApproval(s: System, d: int, i: int, kind: Kind, id: int)
    requires i <= |s.log|
  {
    && 0 <= d < i
    && s.log[d].Decided? && s.log[d].kind == kind && s.log[d].profileId == id && s.log[d].status == Approved
    && HasRole(s.db.users, s.log[d].decider.userId, s.log[d].decider.role)
    && MayDecide(s.log[d].decider.role, kind)
    && forall m | d < m < i :: !(s.log[m].Decided? && s.log[m].kind == kind && s.log[m].profileId == id)
  }

  lemma {:induction false} ApprovalStands(s: System, i: nat, kind: Kind, id: int)
    requires HistoryValid(s.db, s.log) && i <= |s.log|
    requires LastStatus(s.log[..i], kind, id) == Approved
    ensures exists d :: StandingApproval(s, d, i, kind, id)
  {
    var n := i - 1;
    assert s.log[..i][..n] == s.log[..n];
    var e := s.log[n];
    assert Witnessed(s.db, e);
    if e.Decided? && e.kind == kind && e.profileId == id {
      assert StandingApproval(s, n, i, kind, id);
    } else {
      ApprovalStands(s, n, kind, id);
      var d :| StandingApproval(s, d, n, kind, id);
      assert StandingApproval(s, d, i, kind, id);
    }
  }

  /** Step `j` of the call that cast ballot `k` saw its candidate approved. */
  ghost predicate CandidateSeen(s: System, k: int, j: int)
    requires 0 <= k < |s.log| && s.log[k].VoteCast?
  {
    && s.log[k].call.start < j < k
    && s.log[j] == SawCandidateApproved(s.log[k].p, s.log[k].profileId, s.log[k].vote.candidateId)
    && HasCandidateProfile(s.db, s.log[k].profileId, s.log[k].vote.candidateId)
    && exists d :: StandingApproval(s, d, j, CandidateKind, s.log[k].profileId)
  }

  lemma StepBetween(log: seq<Event>, lo: nat, hi: nat, p: ProcessId, e: Event) returns (j: nat)
    requires lo <= hi <= |log| && e in StepsOf(log[lo..hi], p)
    ensures lo <= j < hi && log[j] == e
  {
    StepInLog(log[lo..hi], p, e);
    var m :| 0 <= m < hi - lo && log[lo..hi][m] == e;
    j := lo + m;
  }

  lemma CandidateStepIn(e: Event)
    requires e.VoteCast?
    ensures SawCandidateApproved(e.p, e.profileId, e.vote.candidateId) in BallotSteps(e)
  {
    assert BallotSteps(e)[3] == SawCandidateApproved(e.p, e.profileId, e.vote.candidateId);
  }

  lemma CandidateStepFound(log: seq<Event>, k: nat, e: Event) returns (j: nat)
    requires k < |log| && e.VoteCast? && e.call.start <= k
    requires StepsOf(log[e.call.start..k + 1], e.p) == BallotSteps(e)
    ensures e.call.start <= j <= k && log[j] == SawCandidateApproved(e.p, e.profileId, e.vote.candidateId)
  {
    CandidateStepIn(e);
    j := StepBetween(log, e.call.start, k + 1, e.p, SawCandidateApproved(e.p, e.profileId, e.vote.candidateId));
  }

  lemma SightingIsWarranted(s: System, j: nat)
    requires HistoryValid(s.db, s.log) && j < |s.log| && s.log[j].SawCandidateApproved?
    ensures HasCandidateProfile(s.db, s.log[j].profileId, s.log[j].candidateId)
    ensures exists d :: StandingApproval(s, d, j, CandidateKind, s.log[j].profileId)
  {
    assert JustifiedStep(s.log, j) && Witnessed(s.db, s.log[j]);
    ApprovalStands(s, j, CandidateKind, s.log[j].profileId);
  }

  lemma CandidateWasSeen(s: System, k: nat)
    requires HistoryValid(s.db, s.log) && k < |s.log| && s.log[k].VoteCast?
    ensures exists j :: CandidateSeen(s, k, j)
  {
    VoterWasSeen(s, k);
    ReceiptSteps(s, k);
    var j := CandidateStepFound(s.log, k, s.log[k]);
    SightingIsWarranted(s, j);
    assert CandidateSeen(s, k, j);
  }

  lemma VoterWasSeen(s: System, k: nat)
    requires HistoryValid(s.db, s.log) && k < |s.log| && s.log[k].VoteCast?
    ensures var e := s.log[k];
            && e.call.start < k
            && s.log[e.call.start] == SawVoterApproved(e.p, e.call.me, e.call.voterProfile)
            && HasVoterProfile(s.db, e.call.voterProfile, e.vote.voterId)
            && exists d :: StandingApproval(s, d, e.call.start, VoterKind, e.call.voterProfile)
  {
    var e := s.log[k];
    var start := e.call.start;
    assert JustifiedStep(s.log, k);
    assert JustifiedStep(s.log, start) && Witnessed(s.db, s.log[start]);
    ApprovalStands(s, start, VoterKind, e.call.voterProfile);
  }

  /** Every ballot's call began by seeing the voter's own profile approved, by an administrator or a
      field officer, and later saw the chosen candidate's profile approved, by an administrator. */
  lemma BallotsArePrecededByApprovals(s: System, k: nat)
    requires Reachable(s) && k < |s.log| && s.log[k].VoteCast?
    ensures var e := s.log[k];
            && e.call.start < k
            && s.log[e.call.start] == SawVoterApproved(e.p, e.call.me, e.call.voterProfile)
            && HasVoterProfile(s.db, e.call.voterProfile, e.vote.voterId)
            && exists d :: StandingApproval(s, d, e.call.start, VoterKind, e.call.voterProfile)
    ensures exists j :: CandidateSeen(s, k, j)
  {
    ReachableInv(s);
    VoterWasSeen(s, k);
    CandidateWasSeen(s, k);
  }

  /** Votes link a voter to a different person who stood as a candidate, and nobody is both. */
  lemma RolesAreSeparate(s: System)
    requires Reachable(s)
    ensures forall v | v in s.db.votes ::
              && HasRole(s.db.users, v.voterId, Voter)
              && HasRole(s.db.users, v.candidateId, Candidate)
              && v.voterId != v.candidateId
    ensures forall vp, cp | vp in s.db.voterProfiles && cp in s.db.candidateProfiles :: vp.userId != cp.userId
    ensures forall id, r, r' | HasRole(s.db.users, id, r) && HasRole(s.db.users, id, r') :: r == r'
  {
    ReachableInv(s);
    forall id, r, r' | HasRole(s.db.users, id, r) && HasRole(s.db.users, id, r') ensures r == r' {
      var u :| u in s.db.users && u.id == id && u.role == r;
      var u' :| u' in s.db.users && u'.id == id && u'.role == r';
      var i :| 0 <= i < |s.db.users| && s.db.users[i] == u;
      var j :| 0 <= j < |s.db.users| && s.db.users[j] == u';
      assert i == j;
    }
    assert Voter != Candidate;
    forall v | v in s.db.votes ensures v.voterId != v.candidateId {
      assert HasRole(s.db.users, v.voterId, Voter) && HasRole(s.db.users, v.candidateId, Candidate);
    }
  }

  lemma NothingMissing(db: Database, log: seq<Event>, p: ProcessId, pc: Pc, a: Action)
    requires ProcessValid(db, log, p, pc) && Offers(db, pc, a)
    requires pc.Inserting? ==> HasRole(db.users, pc.candidateId, Candidate)
    ensures StatementOutcome(db, pc, a).Done? || StatementOutcome(db, pc, a).Duplicate?
  {
    if a.Setup? && pc.next == 5 {
      assert TABLES[0] in db.created;
    }
  }

  /** No reachable statement violates a foreign key or meets a missing table: only a UNIQUE key can reject it. */
  lemma OnlyUniqueKeysReject(s: System, a: Action)
    requires Reachable(s) && Enabled(s, a) && !a.Launch?
    ensures StatementOutcome(s.db, s.procs[a.p], a).Done? || StatementOutcome(s.db, s.procs[a.p], a).Duplicate?
  {
    ReachableInv(s);
    if s.procs[a.p].Inserting? {
      InsertingSaw(s.db, s.log, a.p, s.procs[a.p]);
    }
    NothingMissing(s.db, s.log, a.p, s.procs[a.p], a);
  }

  lemma {:induction false} RunStaysReady(s: System, actions: seq<Action>)
    requires Ready(s.db) && IsRun(s, actions)
    ensures Ready(Execute(s, actions).db)
  {
    RunGrows(s, actions);
    RolesPersist(s.db, Execute(s, actions).db);
  }

  /** From the moment any process has finished starting up, whatever happens next, the tables and the
      account `admin` exist, and that account is an administrator. */
  lemma AdminIsSeeded(s: System, p: ProcessId, actions: seq<Action>)
    requires Reachable(s) && p in s.procs && !s.procs[p].SettingUp? && !s.procs[p].Exited?
    requires IsRun(s, actions)
    ensures var db := Execute(s, actions).db;
            && AllTables(db)
            && UsernameTaken(db, "admin")
            && forall u | u in db.users && u.username == "admin" :: u.role == Admin
  {
    ReachableInv(s);
    assert ProcessValid(s.db, s.log, p, s.procs[p]);
    RunStaysReady(s, actions);
    RunKeepsInv(s, actions);
    UsernamesAreUnique(Execute(s, actions).db.users);
  }

  lemma UsernamesAreUnique(users: seq<User>)
    requires UniqueUsers(users)
    ensures forall u, u' | u in users && u' in users && u.username == u'.username :: u == u'
  {
  }
}
