/** One process running alone: the checks still hold when the INSERT runs. */
module SoloRuns {
  import opened Relational
  import opened Schema
  import opened Election
  import opened ElectionInvariant
  import opened ElectionTheorems
  import opened VoteWindow

  /** The documented rules for casting a vote, all at one moment. */
  ghost predicate MayVote(db: Database, voterId: int, profileId: int, candidateId: int) {
    && VoterApproved(db, voterId)
    && !HasVoted(db, voterId)
    && exists cp | cp in db.candidateProfiles :: cp.id == profileId && cp.userId == candidateId && cp.status == Approved
  }

  /** Casting a vote as one indivisible step. */
  ghost predicate AtomicVote(before: Database, after: Database, profileId: int, vote: Vote) {
    && MayVote(before, vote.voterId, profileId, vote.candidateId)
    && after == before.(votes := before.votes + [vote])
  }

  /** Whatever a process has checked is still so. */
  ghost predicate Current(db: Database, pc: Pc) {
    match pc
    case ApplyingVoter(me, _) => !AppliedAsVoter(db, me.userId)
    case ApplyingCandidate(me, _) => !AppliedAsCandidate(db, me.userId)
    case CheckingVoted(call) => VoterApproved(db, call.me.userId)
    case Listing(call) => VoterApproved(db, call.me.userId) && !HasVoted(db, call.me.userId)
    case Choosing(call) => VoterApproved(db, call.me.userId) && !HasVoted(db, call.me.userId)
    case Inserting(call, k, u) => MayVote(db, call.me.userId, k, u)
    case _ => true
  }

  predicate Alone(actions: seq<Action>, p: ProcessId) {
    forall i | 0 <= i < |actions| :: actions[i].p == p
  }

  /** A process's own steps never stale its own checks. */
  lemma OwnStepKeepsCurrent(s: System, a: Action)
    requires Enabled(s, a) && !a.Launch? && Current(s.db, s.procs[a.p])
    ensures Current(Step(s, a).db, Step(s, a).procs[a.p])
  {
    MoveKeepsCurrent(s.db, |s.log|, s.procs[a.p], a);
  }

  lemma MoveKeepsCurrent(db: Database, at: nat, pc: Pc, a: Action)
    requires Offers(db, pc, a) && Current(db, pc)
    ensures Current(Result(StatementOutcome(db, pc, a), db), Move(db, at, pc, a).0)
  {
    if Writes(a) {
      assert Move(db, at, pc, a).0.Menu? || Move(db, at, pc, a).0.MainMenu? || Move(db, at, pc, a).0.SettingUp?;
    }
  }

  lemma {:induction false} AloneKeepsCurrent(s: System, p: ProcessId, actions: seq<Action>)
    requires p in s.procs && Current(s.db, s.procs[p])
    requires IsRun(s, actions) && Alone(actions, p)
    ensures p in Execute(s, actions).procs
    ensures Current(Execute(s, actions).db, Execute(s, actions).procs[p])
  {
    if actions != [] {
      var n := |actions| - 1;
      AloneKeepsCurrent(s, p, actions[..n]);
      assert actions[n].p == p;
      OwnStepKeepsCurrent(Execute(s, actions[..n]), actions[n]);
    }
  }

  lemma VotesOnlyBySubmit(s: System, a: Action)
    requires Enabled(s, a) && !a.SubmitVote?
    ensures Step(s, a).db.votes == s.db.votes
  {
  }

  /** With its checks still true, a guarded INSERT goes through. */
  lemma CurrentChecksSuffice(db: Database, pc: Pc, a: Action)
    requires Offers(db, pc, a) && Current(db, pc)
    requires a.SubmitVoterApplication? || a.SubmitCandidacy? || a.SubmitVote?
    ensures !StatementOutcome(db, pc, a).Duplicate?
  {
  }

  lemma CurrentVoteIsAtomic(s: System, a: Action)
    requires Enabled(s, a) && a.SubmitVote? && Current(s.db, s.procs[a.p])
    requires StatementOutcome(s.db, s.procs[a.p], a).Done?
    ensures AtomicVote(s.db, Step(s, a).db, s.procs[a.p].profileId, PendingVote(s.procs[a.p], a.id, a.now))
  {
  }

  /** Run alone from any point where what it has checked still holds (in a menu, say), a process never
      has an application or a ballot rejected by a UNIQUE key, every ballot it casts is an atomic vote
      with voter and candidate approved at that moment, and no other step of it touches the votes. */
  lemma AloneIsAtomic(s: System, p: ProcessId, actions: seq<Action>, a: Action)
    requires Reachable(s) && p in s.procs && Current(s.db, s.procs[p])
    requires IsRun(s, actions) && Alone(actions, p)
    requires a.p == p && !a.Launch? && Enabled(Execute(s, actions), a)
    ensures var mid := Execute(s, actions);
            var after := Step(mid, a);
            var outcome := StatementOutcome(mid.db, mid.procs[p], a);
            && (a.SubmitVoterApplication? || a.SubmitCandidacy? || a.SubmitVote? ==> outcome.Done?)
            && (a.SubmitVote? ==>
                  AtomicVote(mid.db, after.db, mid.procs[p].profileId, PendingVote(mid.procs[p], a.id, a.now)))
            && (!a.SubmitVote? ==> after.db.votes == mid.db.votes)
  {
    var mid := Execute(s, actions);
    AloneKeepsCurrent(s, p, actions);
    if a.SubmitVoterApplication? || a.SubmitCandidacy? || a.SubmitVote? {
      ReachableExtends(s, actions);
      OnlyUniqueKeysReject(mid, a);
      CurrentChecksSuffice(mid.db, mid.procs[p], a);
    }
    if a.SubmitVote? {
      CurrentVoteIsAtomic(mid, a);
    } else {
      VotesOnlyBySubmit(mid, a);
    }
  }

  /** Across processes, storing a ballot is still an atomic vote exactly when nothing has interfered since
      the call began: no rejection standing against voter or candidate, no other ballot of the voter. */
  lemma AtomicExactlyWhenUndisturbed(s: System, a: Action)
    requires Reachable(s) && Enabled(s, a) && a.SubmitVote?
    ensures var pc := s.procs[a.p];
            AtomicVote(s.db, Step(s, a).db, pc.profileId, PendingVote(pc, a.id, a.now))
            <==> && !RejectedSince(s, pc.call, VoterKind, pc.call.voterProfile)
                 && !RejectedSince(s, pc.call, CandidateKind, pc.profileId)
                 && !VotedSince(s, pc.call)
  {
    var pc := s.procs[a.p];
    InsertWindow(s, a.p, a.id, a.now);
    assert CandidateApproved(s.db, pc.profileId) ==>
        exists cp | cp in s.db.candidateProfiles ::
          cp.id == pc.profileId && cp.userId == pc.candidateId && cp.status == Approved by {
      ReachableInv(s);
      InsertingSaw(s.db, s.log, a.p, pc);
      OneProfilePerId(s.db.candidateProfiles);
    }
  }

  lemma OneProfilePerId(cps: seq<CandidateProfile>)
    requires UniqueCandidateProfiles(cps)
    ensures forall c, c' | c in cps && c' in cps && c.id == c'.id :: c == c'
  {
  }

  // ---------- A whole call, run alone ----------

  datatype VoteMessage =
    | VoteStored
    | NeedVoterId
    | VoterNotApproved
    | AlreadyVoted
    | NotANumber
    | InvalidCandidate
    | VoteRejected  // SQLException from the INSERT

  /** What a call of `castVote` tells the voter when nothing changes under it. */
  function CastVoteMessage(db: Database, voterId: int, choice: Option<int>): VoteMessage {
    if !AppliedAsVoter(db, voterId) then NeedVoterId
    else if !VoterApproved(db, voterId) then VoterNotApproved
    else if HasVoted(db, voterId) then AlreadyVoted
    else if choice.None? then NotANumber
    else if !CandidateApproved(db, choice.value) then InvalidCandidate
    else VoteStored
  }

  /** ... and what it leaves in the database. */
  function CastVoteDatabase(db: Database, voterId: int, choice: Option<int>, id: int, now: int): Database {
    if CastVoteMessage(db, voterId, choice) != VoteStored then db
    else db.(votes := db.votes + [Vote(id, voterId, ApprovedCandidate(db, choice.value).value.userId, now)])
  }

  predicate AtVoting(s: System, p: ProcessId) {
    p in s.procs && Voting(s.procs[p])
  }

  /** An action of the call: no SQL error and no exit, and with the choice, id and clock given. */
  predicate PartOfCall(a: Action, p: ProcessId, choice: Option<int>, id: int, now: int) {
    && a.p == p && !a.Fail? && !a.Quit?
    && (a.Choose? ==> a.choice == choice)
    && (a.SubmitVote? ==> a.id == id && a.now == now)
  }

  /** The actions so far are those of one `castVote` call by the voter signed in at process `p`. */
  predicate InCall(s: System, p: ProcessId, actions: seq<Action>, choice: Option<int>, id: int, now: int)
    decreases |actions|
  {
    && IsRun(s, actions) && p in s.procs && InMenuOf(s.procs[p], Voter)
    && (actions == [] || (
          var n := |actions| - 1;
          && InCall(s, p, actions[..n], choice, id, now)
          && PartOfCall(actions[n], p, choice, id, now)
          && (if n == 0 then actions[0].CheckVoter? else AtVoting(Execute(s, actions[..n]), p))))
  }

  /** ... and the call is over. */
  predicate WholeCall(s: System, p: ProcessId, actions: seq<Action>, choice: Option<int>, id: int, now: int) {
    InCall(s, p, actions, choice, id, now) && actions != [] && !AtVoting(Execute(s, actions), p)
  }

  /** How far a call has come, when the database is still the one it began with. */
  predicate Underway(db: Database, pc: Pc, me: Session, choice: Option<int>) {
    && Voting(pc) && pc.call.me == me && VoterApproved(db, me.userId)
    && (!pc.CheckingVoted? ==> !HasVoted(db, me.userId))
    && (pc.Inserting? ==>
          && choice == Some(pc.profileId) && ApprovedCandidate(db, pc.profileId).Some?
          && ApprovedCandidate(db, pc.profileId).value.userId == pc.candidateId)
  }

  lemma OnlyProfile(vps: seq<VoterProfile>, own: VoterProfile)
    requires UniqueVoterProfiles(vps) && own in vps
    ensures forall vp | vp in vps && vp.userId == own.userId :: vp == own
  {
  }

  /** The first check, in terms of the rules. */
  lemma FirstCheck(db: Database, at: nat, pc: Pc, a: Action, choice: Option<int>)
    requires UniqueVoterProfiles(db.voterProfiles) && Offers(db, pc, a) && a.CheckVoter?
    ensures var (next, e) := Move(db, at, pc, a);
            if Voting(next) then Underway(db, next, pc.me, choice)
            else next == pc && !e.VoteCast? && !VoterApproved(db, pc.me.userId)
  {
    var row := VoterProfileOf(db, pc.me.userId);
    if row.Some? {
      OnlyProfile(db.voterProfiles, row.value);
    }
  }

  /** A later step of a call goes on, or ends it the way the rules say. */
  lemma LaterStep(db: Database, at: nat, pc: Pc, a: Action, me: Session, choice: Option<int>, id: int, now: int)
    requires Underway(db, pc, me, choice) && Offers(db, pc, a) && PartOfCall(a, a.p, choice, id, now)
    requires StatementOutcome(db, pc, a).Done? || StatementOutcome(db, pc, a).Duplicate?
    ensures var (next, e) := Move(db, at, pc, a);
            var after := Result(StatementOutcome(db, pc, a), db);
            if Voting(next) then Underway(db, next, me, choice) && after == db
            else && next == Menu(me)
                 && after == CastVoteDatabase(db, me.userId, choice, id, now)
                 && (e.VoteCast? <==> CastVoteMessage(db, me.userId, choice) == VoteStored)
  {
  }

  /** The call that began in `s` has ended in `t` the way the sequential method ends. */
  predicate EndsAsCastVote(s: System, t: System, me: Session, choice: Option<int>, id: int, now: int) {
    && t.db == CastVoteDatabase(s.db, me.userId, choice, id, now)
    && t.log != []
    && (t.log[|t.log| - 1].VoteCast? <==> CastVoteMessage(s.db, me.userId, choice) == VoteStored)
  }

  /** Where the call that began in `s` has got to in `t`. */
  predicate OnTheWay(s: System, t: System, p: ProcessId, me: Session, choice: Option<int>, id: int, now: int) {
    && p in t.procs
    && if Voting(t.procs[p]) then t.db == s.db && Underway(s.db, t.procs[p], me, choice)
       else t.procs[p] == Menu(me) && EndsAsCastVote(s, t, me, choice, id, now)
  }

  lemma FirstStepOnTheWay(s: System, a: Action, choice: Option<int>, id: int, now: int)
    requires UniqueVoterProfiles(s.db.voterProfiles) && Enabled(s, a) && a.CheckVoter?
    ensures OnTheWay(s, Step(s, a), a.p, s.procs[a.p].me, choice, id, now)
  {
    FirstCheck(s.db, |s.log|, s.procs[a.p], a, choice);
  }

  lemma LaterStepOnTheWay(s: System, mid: System, a: Action, me: Session, choice: Option<int>, id: int, now: int)
    requires Enabled(mid, a) && AtVoting(mid, a.p) && OnTheWay(s, mid, a.p, me, choice, id, now)
    requires PartOfCall(a, a.p, choice, id, now)
    requires StatementOutcome(mid.db, mid.procs[a.p], a).Done? || StatementOutcome(mid.db, mid.procs[a.p], a).Duplicate?
    ensures OnTheWay(s, Step(mid, a), a.p, me, choice, id, now)
  {
    LaterStep(s.db, |mid.log|, mid.procs[a.p], a, me, choice, id, now);
  }

  lemma {:induction false} CallProgress(
    s: System, p: ProcessId, actions: seq<Action>, choice: Option<int>, id: int, now: int)
    requires Reachable(s) && InCall(s, p, actions, choice, id, now) && actions != []
    ensures OnTheWay(s, Execute(s, actions), p, s.procs[p].me, choice, id, now)
    decreases |actions|
  {
    var n := |actions| - 1;
    var mid, a := Execute(s, actions[..n]), actions[n];
    if n == 0 {
      assert UniqueVoterProfiles(s.db.voterProfiles) by { ConstraintsAlwaysHold(s); }
      FirstStepOnTheWay(s, a, choice, id, now);
    } else {
      CallProgress(s, p, actions[..n], choice, id, now);
      ReachableExtends(s, actions[..n]);
      OnlyUniqueKeysReject(mid, a);
      LaterStepOnTheWay(s, mid, a, s.procs[p].me, choice, id, now);
    }
  }

  /** A whole `castVote` call of a process that runs alone, however it ends, leaves exactly the database that
      the sequential method leaves, returns to the voter's menu, and reports success exactly when it does. */
  lemma CallAloneIsCastVote(
    s: System, p: ProcessId, actions: seq<Action>, choice: Option<int>, id: int, now: int)
    requires Reachable(s) && WholeCall(s, p, actions, choice, id, now)
    ensures var t := Execute(s, actions);
            var me := s.procs[p].me;
            && t.procs == s.procs[p := Menu(me)]
            && t.db == CastVoteDatabase(s.db, me.userId, choice, id, now)
            && t.log != []
            && (t.log[|t.log| - 1].VoteCast? <==> CastVoteMessage(s.db, me.userId, choice) == VoteStored)
  {
    CallProgress(s, p, actions, choice, id, now);
    OnlyItMoves(s, p, actions, choice, id, now);
  }

  lemma {:induction false} OnlyItMoves(
    s: System, p: ProcessId, actions: seq<Action>, choice: Option<int>, id: int, now: int)
    requires InCall(s, p, actions, choice, id, now)
    ensures p in Execute(s, actions).procs
    ensures Execute(s, actions).procs == s.procs[p := Execute(s, actions).procs[p]]
    decreases |actions|
  {
    if actions != [] {
      OnlyItMoves(s, p, actions[..|actions| - 1], choice, id, now);
    }
  }

  function Rank(pc: Pc): nat {
    match pc
    case CheckingVoted(_) => 4
    case Listing(_) => 3
    case Choosing(_) => 2
    case Inserting(_, _, _) => 1
    case _ => 0
  }

  /** The statement a call issues next. */
  function NextAction(p: ProcessId, pc: Pc, choice: Option<int>, id: int, now: int): Action {
    if pc.CheckingVoted? then CheckVoted(p)
    else if pc.Listing? then ListCandidates(p)
    else if pc.Choosing? then Choose(p, choice)
    else if pc.Inserting? then SubmitVote(p, id, now)
    else CheckVoter(p)
  }

  lemma CallExtends(s: System, p: ProcessId, actions: seq<Action>, choice: Option<int>, id: int, now: int, a: Action)
    requires InCall(s, p, actions, choice, id, now) && Enabled(Execute(s, actions), a)
    requires PartOfCall(a, p, choice, id, now)
    requires if actions == [] then a.CheckVoter? else AtVoting(Execute(s, actions), p)
    ensures InCall(s, p, actions + [a], choice, id, now)
    ensures Execute(s, actions + [a]) == Step(Execute(s, actions), a)
  {
    assert (actions + [a])[..|actions|] == actions;
  }

  lemma NextComesCloser(db: Database, at: nat, p: ProcessId, pc: Pc, choice: Option<int>, id: int, now: int)
    requires Voting(pc) && FreshId(db, VotesTable, id)
    ensures var a := NextAction(p, pc, choice, id, now);
            && Offers(db, pc, a) && PartOfCall(a, p, choice, id, now)
            && Rank(Move(db, at, pc, a).0) < Rank(pc)
  {
  }

  /** A call that has begun can always be finished, whatever the voter types. */
  lemma {:induction false} FinishCall(
    s: System, p: ProcessId, actions: seq<Action>, choice: Option<int>, id: int, now: int)
    requires Reachable(s) && InCall(s, p, actions, choice, id, now) && actions != []
    requires FreshId(s.db, VotesTable, id)
    ensures exists all :: WholeCall(s, p, all, choice, id, now)
    decreases if AtVoting(Execute(s, actions), p) then Rank(Execute(s, actions).procs[p]) else 0
  {
    var t := Execute(s, actions);
    if AtVoting(t, p) {
      assert t.db == s.db by { CallProgress(s, p, actions, choice, id, now); }
      var a := NextAction(p, t.procs[p], choice, id, now);
      NextComesCloser(t.db, |t.log|, p, t.procs[p], choice, id, now);
      CallExtends(s, p, actions, choice, id, now, a);
      FinishCall(s, p, actions + [a], choice, id, now);
    } else {
      assert WholeCall(s, p, actions, choice, id, now);
    }
  }

  /** From a voter's menu there is a whole call for every choice, id and time. */
  lemma CallAloneExists(s: System, p: ProcessId, choice: Option<int>, id: int, now: int)
    requires Reachable(s) && p in s.procs && InMenuOf(s.procs[p], Voter) && FreshId(s.db, VotesTable, id)
    ensures exists actions :: WholeCall(s, p, actions, choice, id, now)
  {
    assert InCall(s, p, [], choice, id, now);
    CallExtends(s, p, [], choice, id, now, CheckVoter(p));
    FinishCall(s, p, [] + [CheckVoter(p)], choice, id, now);
  }
}
