/** `castVote` checks, prompts, checks again and then inserts without re-reading anything; the two
    applications check, prompt and insert.  What can change in between, and exactly when it does. */
module VoteWindow {
  import opened Schema
  import opened Election
  import opened ElectionInvariant
  import opened ElectionTheorems

  predicate VoterApproved(db: Database, userId: int) {
    exists vp | vp in db.voterProfiles :: vp.userId == userId && vp.status == Approved
  }

  predicate CandidateApproved(db: Database, profileId: int) {
    exists cp | cp in db.candidateProfiles :: cp.id == profileId && cp.status == Approved
  }

  /** What the log says happened since a call began. */
  function Since(s: System, start: nat): seq<Event> {
    if start <= |s.log| then s.log[start..] else []
  }

  predicate RejectedSince(s: System, call: Call, kind: Kind, id: int) {
    LastStatus(Since(s, call.start), kind, id) == Rejected
  }

  predicate VotedSince(s: System, call: Call) {
    exists v | v in VotesCast(Since(s, call.start)) :: v.voterId == call.me.userId
  }

  predicate AppliedSince(s: System, start: nat, kind: Kind, userId: int) {
    userId in Applicants(Since(s, start), kind)
  }

  ghost predicate RealDecisions(log: seq<Event>) {
    forall e | e in log :: e.Decided? ==> e.status != Pending
  }

  // ---------- Splitting the history ----------

  lemma {:induction false} LastStatusSplit(a: seq<Event>, b: seq<Event>, kind: Kind, id: int)
    requires RealDecisions(b)
    ensures LastStatus(a + b, kind, id) ==
            if LastStatus(b, kind, id) != Pending then LastStatus(b, kind, id) else LastStatus(a, kind, id)
  {
    if b == [] {
      assert a + b == a;
    } else {
      var n := |b| - 1;
      assert (a + b)[..|a + b| - 1] == a + b[..n];
      LastStatusSplit(a, b[..n], kind, id);
    }
  }

  lemma {:induction false} VotesCastSplit(a: seq<Event>, b: seq<Event>)
    ensures VotesCast(a + b) == VotesCast(a) + VotesCast(b)
  {
    if b == [] {
      assert a + b == a;
    } else {
      var n := |b| - 1;
      assert (a + b)[..|a + b| - 1] == a + b[..n];
      VotesCastSplit(a, b[..n]);
    }
  }

  lemma {:induction false} ApplicantsSplit(a: seq<Event>, b: seq<Event>, kind: Kind)
    ensures Applicants(a + b, kind) == Applicants(a, kind) + Applicants(b, kind)
  {
    if b == [] {
      assert a + b == a;
    } else {
      var n := |b| - 1;
      assert (a + b)[..|a + b| - 1] == a + b[..n];
      ApplicantsSplit(a, b[..n], kind);
    }
  }

  /** If a stretch of history decides nothing about a profile, neither does any prefix of it. */
  lemma NoDecisionInPrefix(b: seq<Event>, j: nat, kind: Kind, id: int)
    requires RealDecisions(b) && j <= |b| && LastStatus(b, kind, id) == Pending
    ensures LastStatus(b[..j], kind, id) == Pending
  {
    assert b == b[..j] + b[j..];
    assert RealDecisions(b[j..]);
    LastStatusSplit(b[..j], b[j..], kind, id);
  }

  // ---------- The window of one call ----------

  lemma LogSplits(s: System, start: nat)
    requires HistoryValid(s.db, s.log) && start <= |s.log|
    ensures s.log == s.log[..start] + Since(s, start)
    ensures RealDecisions(Since(s, start))
  {
  }

  lemma JustifiedAt(s: System, start: nat, j: nat)
    requires HistoryValid(s.db, s.log) && start <= |s.log| && j < |Since(s, start)|
    ensures Justified(s.log[..start] + Since(s, start)[..j], Since(s, start)[j])
  {
    var m := start + j;
    assert s.log[..m] == s.log[..start] + Since(s, start)[..j];
    assert JustifiedStep(s.log, m);
  }

  /** Where in the window the call took one of its steps. */
  lemma StepPosition(s: System, start: nat, p: ProcessId, e: Event) returns (j: nat)
    requires HistoryValid(s.db, s.log) && start <= |s.log| && e in StepsOf(Since(s, start), p)
    ensures j < |Since(s, start)| && Since(s, start)[j] == e
    ensures Justified(s.log[..start] + Since(s, start)[..j], e)
  {
    var recent := Since(s, start);
    StepInLog(recent, p, e);
    j :| 0 <= j < |recent| && recent[j] == e;
    JustifiedAt(s, start, j);
  }

  /** A profile's last logged decision is its status. */
  lemma CandidateStatusIs(s: System, profileId: int, userId: int)
    requires Inv(s) && HasCandidateProfile(s.db, profileId, userId)
    ensures CandidateApproved(s.db, profileId) <==> LastStatus(s.log, CandidateKind, profileId) == Approved
  {
  }

  lemma VoterStatusIs(s: System, profileId: int, userId: int)
    requires Inv(s) && HasVoterProfile(s.db, profileId, userId)
    ensures VoterApproved(s.db, userId) <==> LastStatus(s.log, VoterKind, profileId) == Approved
  {
  }

  lemma CandidateWindow(s: System, p: ProcessId)
    requires Inv(s) && p in s.procs && s.procs[p].Inserting?
    ensures CandidateApproved(s.db, s.procs[p].profileId)
            <==> !RejectedSince(s, s.procs[p].call, CandidateKind, s.procs[p].profileId)
  {
    var pc := s.procs[p];
    InsertingSaw(s.db, s.log, p, s.procs[p]);
    CandidateStatusIs(s, pc.profileId, pc.candidateId);
    var before, recent := s.log[..pc.call.start], Since(s, pc.call.start);
    assert ProcessValid(s.db, s.log, p, pc);
    var j := StepPosition(s, pc.call.start, p, CallSteps(p, pc)[3]);
    LogSplits(s, pc.call.start);
    LastStatusSplit(before, recent, CandidateKind, pc.profileId);
    if LastStatus(recent, CandidateKind, pc.profileId) == Pending {
      NoDecisionInPrefix(recent, j, CandidateKind, pc.profileId);
      assert RealDecisions(recent[..j]);
      LastStatusSplit(before, recent[..j], CandidateKind, pc.profileId);
    }
  }

  lemma VoterWindow(s: System, p: ProcessId)
    requires Inv(s) && p in s.procs && s.procs[p].Inserting?
    ensures VoterApproved(s.db, s.procs[p].call.me.userId)
            <==> !RejectedSince(s, s.procs[p].call, VoterKind, s.procs[p].call.voterProfile)
  {
    var call := s.procs[p].call;
    InsertingSaw(s.db, s.log, p, s.procs[p]);
    VoterStatusIs(s, call.voterProfile, call.me.userId);
    assert ProcessValid(s.db, s.log, p, s.procs[p]);
    assert JustifiedStep(s.log, call.start);
    LogSplits(s, call.start);
    LastStatusSplit(s.log[..call.start], Since(s, call.start), VoterKind, call.voterProfile);
  }

  lemma BallotWindow(s: System, p: ProcessId)
    requires Inv(s) && p in s.procs && s.procs[p].Inserting?
    ensures HasVoted(s.db, s.procs[p].call.me.userId) <==> VotedSince(s, s.procs[p].call)
  {
    var call := s.procs[p].call;
    var before, recent := s.log[..call.start], Since(s, call.start);
    assert ProcessValid(s.db, s.log, p, s.procs[p]);
    var j := StepPosition(s, call.start, p, CallSteps(p, s.procs[p])[1]);
    LogSplits(s, call.start);
    VotesCastSplit(before, recent);
    VotesCastSplit(before, recent[..j]);
    assert forall v | v in VotesCast(before) :: v in VotesCast(before + recent[..j]);
  }

  /** At the INSERT of a call, in any reachable state: the voter is still approved exactly when no
      rejection of the voter's profile is the last decision on it since the call began, likewise the
      candidate, and the UNIQUE key rejects the ballot exactly when another call of the same voter
      has inserted one since this call began. */
  lemma InsertWindow(s: System, p: ProcessId, id: int, now: int)
    requires Reachable(s) && p in s.procs && s.procs[p].Inserting?
    ensures var pc := s.procs[p];
            && (VoterApproved(s.db, pc.call.me.userId)
                <==> !RejectedSince(s, pc.call, VoterKind, pc.call.voterProfile))
            && (CandidateApproved(s.db, pc.profileId)
                <==> !RejectedSince(s, pc.call, CandidateKind, pc.profileId))
            && (InsertVote(s.db, PendingVote(pc, id, now)).Duplicate? <==> VotedSince(s, pc.call))
            && (InsertVote(s.db, PendingVote(pc, id, now)).Done? <==> !VotedSince(s, pc.call))
  {
    ReachableInv(s);
    VoterWindow(s, p);
    CandidateWindow(s, p);
    BallotOutcome(s, p, id, now);
  }

  /** With its table and users in place, only an earlier ballot can stop a vote. */
  lemma OnlyEarlierBallotStops(db: Database, vote: Vote)
    requires VotesTable in db.created && HasUser(db.users, vote.voterId) && HasUser(db.users, vote.candidateId)
    ensures InsertVote(db, vote).Duplicate? <==> HasVoted(db, vote.voterId)
    ensures InsertVote(db, vote).Done? <==> !HasVoted(db, vote.voterId)
  {
  }

  lemma BallotOutcome(s: System, p: ProcessId, id: int, now: int)
    requires Inv(s) && p in s.procs && s.procs[p].Inserting?
    ensures InsertVote(s.db, PendingVote(s.procs[p], id, now)).Duplicate? <==> VotedSince(s, s.procs[p].call)
    ensures InsertVote(s.db, PendingVote(s.procs[p], id, now)).Done? <==> !VotedSince(s, s.procs[p].call)
  {
    BallotWindow(s, p);
    InsertingSaw(s.db, s.log, p, s.procs[p]);
    assert VotesTable in s.db.created by {
      assert ProcessValid(s.db, s.log, p, s.procs[p]);
    }
    OnlyEarlierBallotStops(s.db, PendingVote(s.procs[p], id, now));
  }

  // ---------- The window of an application ----------

  /** The applications since a guard that found none are all there are. */
  lemma ApplicantWindow(s: System, start: nat, p: ProcessId, me: Session, kind: Kind)
    requires HistoryValid(s.db, s.log) && start < |s.log| && s.log[start] == SawNoProfile(p, me, kind)
    ensures me.userId in Applicants(s.log, kind) <==> AppliedSince(s, start, kind, me.userId)
  {
    assert JustifiedStep(s.log, start);
    LogSplits(s, start);
    ApplicantsSplit(s.log[..start], Since(s, start), kind);
  }

  lemma ApplicationOutcome(db: Database, pc: Pc, a: Action)
    requires Offers(db, pc, a) && (a.SubmitVoterApplication? || a.SubmitCandidacy?) && SessionValid(db, pc.me)
    ensures var applied := if a.SubmitVoterApplication? then AppliedAsVoter(db, pc.me.userId)
                           else AppliedAsCandidate(db, pc.me.userId);
            && (StatementOutcome(db, pc, a).Duplicate? <==> applied)
            && (StatementOutcome(db, pc, a).Done? <==> !applied)
  {
  }

  /** At the INSERT of an application, in any reachable state: the UNIQUE key rejects it exactly when an
      application of the same kind by the same user was stored since the guard ran. */
  lemma ApplicationWindow(s: System, a: Action)
    requires Reachable(s) && Enabled(s, a) && (a.SubmitVoterApplication? || a.SubmitCandidacy?)
    ensures var pc := s.procs[a.p];
            var kind := if a.SubmitVoterApplication? then VoterKind else CandidateKind;
            && (StatementOutcome(s.db, pc, a).Duplicate? <==> AppliedSince(s, pc.start, kind, pc.me.userId))
            && (StatementOutcome(s.db, pc, a).Done? <==> !AppliedSince(s, pc.start, kind, pc.me.userId))
  {
    var pc := s.procs[a.p];
    var kind := if a.SubmitVoterApplication? then VoterKind else CandidateKind;
    ReachableInv(s);
    assert ProcessValid(s.db, s.log, a.p, pc);
    ApplicationOutcome(s.db, pc, a);
    OwnersListed(s.db, pc.me.userId);
    ApplicantWindow(s, pc.start, a.p, pc.me, kind);
  }
}
