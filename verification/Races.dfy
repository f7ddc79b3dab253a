/** Concrete runs showing what the checks of `castVote` do not guarantee when processes interleave. */
module Races {
  import opened Relational
  import opened Schema
  import opened Election
  import opened ElectionInvariant
  import opened ElectionTheorems
  import opened VoteWindow

  const ADMIN := User(1, "admin", "h", "System Administrator", Admin)
  const VOTER := User(2, "v", "h", "V", Voter)
  const CANDIDATE := User(3, "c", "h", "C", Candidate)

  const ADMIN_SESSION := Session(1, Admin)
  const VOTER_SESSION := Session(2, Voter)

  const ALL_TABLES := {UsersTable, VoterProfilesTable, CandidateProfilesTable, VotesTable, ForumPostsTable}

  ghost function Tables(users: seq<User>, vps: seq<VoterProfile>, cps: seq<CandidateProfile>): Database {
    Database(ALL_TABLES, users, vps, cps, [], [])
  }

  function Vp(status: Status): VoterProfile {
    VoterProfile(1, 2, "", "", status)
  }

  function Cp(status: Status): CandidateProfile {
    CandidateProfile(1, 3, "", "", "", status)
  }

  /** One more action of a reachable run. */
  lemma Take(s: System, a: Action) returns (t: System)
    requires Reachable(s) && Enabled(s, a) && !a.Launch?
    ensures Reachable(t) && t == Step(s, a)
    ensures t.procs == s.procs[a.p := Move(s.db, |s.log|, s.procs[a.p], a).0]
    ensures t.db == Result(StatementOutcome(s.db, s.procs[a.p], a), s.db)
  {
    ReachableStep(s, a);
    t := Step(s, a);
  }

  lemma LaunchStep(s: System, p: ProcessId) returns (t: System)
    requires Reachable(s) && p !in s.procs
    ensures Reachable(t) && t.db == s.db && t.procs == s.procs[p := SettingUp(0)]
  {
    t := Step(s, Launch(p));
    ReachableStep(s, Launch(p));
  }

  lemma SetupOnce(s: System, p: ProcessId, k: nat) returns (t: System)
    requires Reachable(s) && p in s.procs && s.procs[p] == SettingUp(k) && k <= 5
    requires k > 0 ==> UsersTable in s.db.created
    requires s.db.users == [] || s.db.users == [ADMIN, VOTER, CANDIDATE]
    ensures Reachable(t) && t.procs == s.procs[p := if k == 5 then MainMenu else SettingUp(k + 1)]
    ensures k < 5 ==> t.db == s.db.(created := s.db.created + {TABLES[k]})
    ensures k == 5 ==> t.db == if s.db.users == [] then s.db.(users := [ADMIN]) else s.db
  {
    t := Take(s, Setup(p, if s.db.users == [] then 1 else 4, "h"));
    assert s.db.users != [] ==> ADMIN in s.db.users;
  }

  /** Starting up a process, on an empty or an already set-up database. */
  lemma {:induction false} StartUp(s: System, p: ProcessId, k: nat) returns (t: System)
    requires Reachable(s) && p in s.procs && s.procs[p] == SettingUp(k) && k <= 5
    requires k > 0 ==> UsersTable in s.db.created
    requires s.db.users == [] || s.db.users == [ADMIN, VOTER, CANDIDATE]
    ensures Reachable(t) && t.procs == s.procs[p := MainMenu]
    ensures t.db == s.db.(created := s.db.created + (set i | k <= i < 5 :: TABLES[i]), users := t.db.users)
    ensures t.db.users == if s.db.users == [] then [ADMIN] else s.db.users
    decreases 6 - k
  {
    var m := SetupOnce(s, p, k);
    if k == 5 {
      t := m;
    } else {
      t := StartUp(m, p, k + 1);
    }
  }

  lemma SignIn(s: System, p: ProcessId, user: User) returns (t: System)
    requires Reachable(s) && p in s.procs && s.procs[p] == MainMenu
    requires s.db.users == [ADMIN, VOTER, CANDIDATE] && user in s.db.users
    ensures Reachable(t) && t.db == s.db && t.procs == s.procs[p := Menu(Session(user.id, user.role))]
  {
    t := Take(s, Login(p, user.username, "h"));
    assert user.username == "admin" || user.username == "v" || user.username == "c";
    assert |"admin"| == 5 && |"v"| == 1 && |"c"| == 1 && "v"[0] != "c"[0];
  }

  lemma SignOut(s: System, p: ProcessId) returns (t: System)
    requires Reachable(s) && p in s.procs && s.procs[p].Menu?
    ensures Reachable(t) && t.db == s.db && t.procs == s.procs[p := MainMenu]
  {
    t := Take(s, Logout(p));
  }

  lemma FirstStart() returns (t: System)
    ensures Reachable(t) && t.db == Tables([ADMIN], [], []) && t.procs == map[0 := MainMenu]
  {
    assert IsRun(INITIAL, []) && Execute(INITIAL, []) == INITIAL;
    var s1 := LaunchStep(INITIAL, 0);
    t := StartUp(s1, 0, 0);
    assert t.db.created == ALL_TABLES by {
      assert TABLES[0] == UsersTable && TABLES[1] == VoterProfilesTable && TABLES[2] == CandidateProfilesTable
          && TABLES[3] == VotesTable && TABLES[4] == ForumPostsTable;
    }
  }

  lemma SignUp(s: System, user: User) returns (t: System)
    requires Reachable(s) && s.procs == map[0 := MainMenu] && UsersTable in s.db.created
    requires FreshId(s.db, UsersTable, user.id) && !UsernameTaken(s.db, user.username)
    ensures Reachable(t) && t.db == s.db.(users := s.db.users + [user]) && t.procs == s.procs
  {
    t := Take(s, Register(0, user.id, user.username, user.passwordHash, user.name, user.role));
  }

  /** Process 0 sets up the database and registers a voter and a candidate. */
  lemma Registered() returns (t: System)
    ensures Reachable(t) && t.db == Tables([ADMIN, VOTER, CANDIDATE], [], []) && t.procs == map[0 := MainMenu]
  {
    var s1 := FirstStart();
    assert |"admin"| == 5 && |"v"| == 1 && |"c"| == 1 && "v"[0] != "c"[0];
    var s2 := SignUp(s1, VOTER);
    assert s2.db.users == [ADMIN, VOTER];
    t := SignUp(s2, CANDIDATE);
  }

  lemma CandidateApplies(s: System) returns (t: System)
    requires Reachable(s) && s.db == Tables([ADMIN, VOTER, CANDIDATE], [], []) && s.procs == map[0 := MainMenu]
    ensures Reachable(t) && t.db == Tables([ADMIN, VOTER, CANDIDATE], [], [Cp(Pending)])
    ensures t.procs == map[0 := MainMenu]
  {
    var s1 := SignIn(s, 0, CANDIDATE);
    var s2 := CandidacySubmitted(s1);
    t := SignOut(s2, 0);
  }

  lemma CandidacySubmitted(s: System) returns (t: System)
    requires Reachable(s) && s.db == Tables([ADMIN, VOTER, CANDIDATE], [], [])
    requires s.procs == map[0 := Menu(Session(3, Candidate))]
    ensures Reachable(t) && t.procs == s.procs && t.db == s.db.(candidateProfiles := [Cp(Pending)])
  {
    var s1 := Take(s, GuardCandidacy(0));
    assert HasUser(s1.db.users, 3) by { assert CANDIDATE in s1.db.users; }
    t := Take(s1, SubmitCandidacy(0, 1, "", "", ""));
  }

  lemma VoterApplies(s: System) returns (t: System)
    requires Reachable(s) && s.db == Tables([ADMIN, VOTER, CANDIDATE], [], [Cp(Pending)])
    requires s.procs == map[0 := MainMenu]
    ensures Reachable(t) && t.db == Tables([ADMIN, VOTER, CANDIDATE], [Vp(Pending)], [Cp(Pending)])
    ensures t.procs == map[0 := MainMenu]
  {
    var s1 := SignIn(s, 0, VOTER);
    var s2 := VoterApplicationSubmitted(s1);
    t := SignOut(s2, 0);
  }

  lemma VoterApplicationSubmitted(s: System) returns (t: System)
    requires Reachable(s) && s.db == Tables([ADMIN, VOTER, CANDIDATE], [], [Cp(Pending)])
    requires s.procs == map[0 := Menu(VOTER_SESSION)]
    ensures Reachable(t) && t.procs == s.procs && t.db == s.db.(voterProfiles := [Vp(Pending)])
  {
    var s1 := Take(s, GuardVoterApplication(0));
    assert HasUser(s1.db.users, 2) by { assert VOTER in s1.db.users; }
    t := Take(s1, SubmitVoterApplication(0, 1, "", ""));
  }

  ghost function BothApprovedDb(): Database {
    Tables([ADMIN, VOTER, CANDIDATE], [Vp(Approved)], [Cp(Approved)])
  }

  /** The administrator, at process 0, decides on the only candidate. */
  lemma DecideCandidate(s: System, status: Status) returns (t: System)
    requires Reachable(s) && status != Pending
    requires 0 in s.procs && s.procs[0] == Menu(ADMIN_SESSION) && |s.db.candidateProfiles| == 1
    requires s.db.candidateProfiles[0].id == 1
    ensures Reachable(t) && t.procs == s.procs
    ensures t.db == s.db.(candidateProfiles := [s.db.candidateProfiles[0].(status := status)])
  {
    t := Take(s, Decide(0, CandidateKind, 1, status));
    assert t.db.candidateProfiles == [s.db.candidateProfiles[0].(status := status)];
  }

  lemma DecideVoter(s: System, status: Status) returns (t: System)
    requires Reachable(s) && status != Pending
    requires 0 in s.procs && s.procs[0] == Menu(ADMIN_SESSION) && |s.db.voterProfiles| == 1
    requires s.db.voterProfiles[0].id == 1
    ensures Reachable(t) && t.procs == s.procs
    ensures t.db == s.db.(voterProfiles := [s.db.voterProfiles[0].(status := status)])
  {
    t := Take(s, Decide(0, VoterKind, 1, status));
    assert t.db.voterProfiles == [s.db.voterProfiles[0].(status := status)];
  }

  /** An administrator, still signed in at process 0, has approved both; process 1 has started. */
  lemma BothApproved() returns (t: System)
    ensures Reachable(t) && t.db == BothApprovedDb() && t.procs == map[0 := Menu(ADMIN_SESSION), 1 := MainMenu]
  {
    var s0 := Registered();
    var s1 := CandidateApplies(s0);
    var s2 := VoterApplies(s1);
    var s3 := SignIn(s2, 0, ADMIN);
    var s4 := ApprovesBoth(s3);
    t := SecondStart(s4);
  }

  lemma ApprovesBoth(s: System) returns (t: System)
    requires Reachable(s) && s.db == Tables([ADMIN, VOTER, CANDIDATE], [Vp(Pending)], [Cp(Pending)])
    requires 0 in s.procs && s.procs[0] == Menu(ADMIN_SESSION)
    ensures Reachable(t) && t.db == BothApprovedDb() && t.procs == s.procs
  {
    var s1 := DecideVoter(s, Approved);
    t := DecideCandidate(s1, Approved);
  }

  lemma SecondStart(s: System) returns (t: System)
    requires Reachable(s) && 1 !in s.procs
    requires s.db.created == ALL_TABLES && s.db.users == [ADMIN, VOTER, CANDIDATE]
    ensures Reachable(t) && t.db == s.db && t.procs == s.procs[1 := MainMenu]
  {
    var s1 := LaunchStep(s, 1);
    t := StartUp(s1, 1, 0);
    assert t.db.created == ALL_TABLES;
  }

  lemma PassesChecks(s: System, p: ProcessId) returns (t: System)
    requires Reachable(s) && s.db == BothApprovedDb() && p in s.procs && s.procs[p] == Menu(VOTER_SESSION)
    ensures Reachable(t) && t.db == s.db && p in t.procs && t.procs == s.procs[p := t.procs[p]]
    ensures t.procs[p].Listing? && t.procs[p].call.me == VOTER_SESSION
  {
    assert Vp(Approved) in s.db.voterProfiles;
    var s1 := Take(s, CheckVoter(p));
    t := Take(s1, CheckVoted(p));
  }

  lemma Chooses(s: System, p: ProcessId) returns (t: System)
    requires Reachable(s) && s.db == BothApprovedDb() && p in s.procs && s.procs[p].Listing?
    ensures Reachable(t) && t.db == s.db && t.procs == s.procs[p := Inserting(s.procs[p].call, 1, 3)]
  {
    var s1 := Take(s, ListCandidates(p));
    assert Cp(Approved) in s1.db.candidateProfiles;
    t := Take(s1, Choose(p, Some(1)));
  }

  /** The voter, at process `p`, gets as far as the INSERT. */
  lemma ReachesInsert(s: System, p: ProcessId) returns (t: System)
    requires Reachable(s) && s.db == BothApprovedDb() && p in s.procs && s.procs[p] == MainMenu
    ensures Reachable(t) && t.db == s.db && p in t.procs && t.procs == s.procs[p := t.procs[p]]
    ensures t.procs[p].Inserting? && t.procs[p].call.me == VOTER_SESSION
    ensures t.procs[p].profileId == 1 && t.procs[p].candidateId == 3
  {
    var s1 := SignIn(s, p, VOTER);
    var s2 := PassesChecks(s1, p);
    t := Chooses(s2, p);
  }

  /** A reachable step that stores a vote although, at that moment, its candidate is not approved. */
  ghost predicate CountsForRejected(s: System, a: Action) {
    && Reachable(s) && Enabled(s, a) && a.SubmitVote?
    && !CandidateApproved(s.db, s.procs[a.p].profileId)
    && |Step(s, a).db.votes| == |s.db.votes| + 1
  }

  /** ... or its voter is not. */
  ghost predicate CountsFromRejected(s: System, a: Action) {
    && Reachable(s) && Enabled(s, a) && a.SubmitVote?
    && !VoterApproved(s.db, s.procs[a.p].call.me.userId)
    && |Step(s, a).db.votes| == |s.db.votes| + 1
  }

  /** With both users registered and no ballot yet, a pending vote is stored. */
  lemma VoteGetsStored(s: System, p: ProcessId)
    requires p in s.procs && s.procs[p].Inserting? && VotesTable in s.db.created && s.db.votes == []
    requires s.db.users == [ADMIN, VOTER, CANDIDATE]
    requires s.procs[p].call.me.userId == 2 && s.procs[p].candidateId == 3
    ensures Enabled(s, SubmitVote(p, 1, 0)) && Step(s, SubmitVote(p, 1, 0)).db.votes == [Vote(1, 2, 3, 0)]
  {
  }

  /** Approved-when-inserted fails across processes: an administrator rejects the candidate after the
      voter's last check, and the vote is stored all the same. */
  lemma RejectedCandidateReceivesVote()
    ensures exists s, a :: CountsForRejected(s, a)
  {
    var s0 := BothApproved();
    var s1 := ReachesInsert(s0, 1);
    var s2 := DecideCandidate(s1, Rejected);
    VoteGetsStored(s2, 1);
    assert CountsForRejected(s2, SubmitVote(1, 1, 0));
  }

  /** The same happens when it is the voter who is rejected in between. */
  lemma RejectedVoterIsCounted()
    ensures exists s, a :: CountsFromRejected(s, a)
  {
    var s0 := BothApproved();
    var s1 := ReachesInsert(s0, 1);
    var s2 := DecideVoter(s1, Rejected);
    VoteGetsStored(s2, 1);
    assert CountsFromRejected(s2, SubmitVote(1, 1, 0));
  }

  /** A reachable step whose ballot the UNIQUE key rejects, every check of its call having passed. */
  ghost predicate LosesRace(s: System, a: Action) {
    && Reachable(s) && Enabled(s, a) && a.SubmitVote?
    && InsertVote(s.db, PendingVote(s.procs[a.p], a.id, a.now)) == Duplicate
    && Step(s, a).db == s.db
  }

  lemma BallotStored(s: System, p: ProcessId) returns (t: System)
    requires Reachable(s) && s.db == BothApprovedDb() && p in s.procs && s.procs[p].Inserting?
    requires s.procs[p].call.me == VOTER_SESSION && s.procs[p].candidateId == 3
    ensures Reachable(t) && t.db == s.db.(votes := [Vote(1, 2, 3, 0)])
    ensures t.procs == s.procs[p := Menu(VOTER_SESSION)]
  {
    assert VOTER in s.db.users && CANDIDATE in s.db.users;
    t := Take(s, SubmitVote(p, 1, 0));
  }

  /** The checks alone do not stop a second ballot: one voter signed in twice passes them twice, and
      only the key on `voter_id` turns the second ballot away. */
  lemma OnlyTheKeyStopsASecondBallot()
    ensures exists s, a :: LosesRace(s, a)
  {
    var s0 := BothApproved();
    var s1 := SignOut(s0, 0);
    var s2 := ReachesInsert(s1, 0);
    var s3 := ReachesInsert(s2, 1);
    var s4 := BallotStored(s3, 0);
    SecondBallotRefused(s4, 1);
  }

  lemma SecondBallotRefused(s: System, p: ProcessId)
    requires Reachable(s) && p in s.procs && s.procs[p].Inserting? && s.procs[p].call.me == VOTER_SESSION
    requires VotesTable in s.db.created && s.db.votes == [Vote(1, 2, 3, 0)]
    ensures LosesRace(s, SubmitVote(p, 2, 0))
  {
  }
}
