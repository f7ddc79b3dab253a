/** The program's operations as the Java methods perform them: statement by statement on the database
    behind the connection, with no other process in between. */
module VotingApp {
  import opened Relational
  import opened Schema
  import opened SchemaLaws
  import opened Election
  import opened VoteWindow
  import opened SoloRuns
  import opened Results
  import Forum

  datatype ApplyMessage = Submitted | AlreadySubmitted | ApplicationRejected

  datatype RegisterMessage = RegisteredOk | InvalidRole | UsernameInUse | RegisterError

  datatype DecisionMessage = StatusSet | InvalidAction | IdNotANumber | IdNotFound

  datatype PostMessage = Posted | EmptyMessage | PostRejected

  datatype ResultLine = ResultLine(rank: int, row: ResultRow)

  /** The role a registration form names. */
  function ParseRole(text: string): Option<Role> {
    if text == "VOTER" then Some(Voter)
    else if text == "CANDIDATE" then Some(Candidate)
    else if text == "FIELD_OFFICER" then Some(FieldOfficer)
    else if text == "ADMIN" then Some(Admin)
    else None
  }

  /** The four texts name the four roles, and no other text names one. */
  lemma RoleTexts()
    ensures ParseRole("VOTER") == Some(Voter) && ParseRole("CANDIDATE") == Some(Candidate)
    ensures ParseRole("FIELD_OFFICER") == Some(FieldOfficer) && ParseRole("ADMIN") == Some(Admin)
    ensures forall text | text != "VOTER" && text != "CANDIDATE" && text != "FIELD_OFFICER" && text != "ADMIN" ::
              ParseRole(text).None?
  {
    assert "ADMIN"[0] != "VOTER"[0];
    assert |"CANDIDATE"| == 9 && |"FIELD_OFFICER"| == 13 && |"VOTER"| == |"ADMIN"| == 5;
  }

  function ParseDecision(action: string): Option<Status> {
    if action == "APPROVE" then Some(Approved) else if action == "REJECT" then Some(Rejected) else None
  }

  /** In the table of the given kind the rows with the id have the status, and nothing else has changed. */
  ghost predicate StatusesSet(before: Database, after: Database, kind: Kind, id: int, status: Status) {
    var vps, vps', cps, cps' :=
      before.voterProfiles, after.voterProfiles, before.candidateProfiles, after.candidateProfiles;
    if kind == VoterKind
    then && after == before.(voterProfiles := vps') && |vps'| == |vps|
         && forall i | 0 <= i < |vps| :: vps'[i] == if vps[i].id == id then vps[i].(status := status) else vps[i]
    else && after == before.(candidateProfiles := cps') && |cps'| == |cps|
         && forall i | 0 <= i < |cps| :: cps'[i] == if cps[i].id == id then cps[i].(status := status) else cps[i]
  }

  class OnlineVotingApp {
    var db: Database

    ghost predicate Valid()
      reads this
    {
      Consistent(db) && AllTables(db)
    }

    constructor (stored: Database)
      ensures db == stored
    {
      db := stored;
    }

    /** Creates what is missing and seeds the administrator; a second run finds nothing to do. */
    method SetupDatabase(id: int, passwordHash: string)
      requires Consistent(db) && FreshId(db, UsersTable, id)
      modifies this
      ensures db == SetupAll(old(db), id, passwordHash)
      ensures db == if exists u | u in old(db).users :: u.username == "admin"
                    then old(db).(created := db.created)
                    else old(db).(created := db.created,
                                  users := old(db).users
                                           + [User(id, "admin", passwordHash, "System Administrator", Admin)])
      ensures db.created == old(db).created + {UsersTable, VoterProfilesTable, CandidateProfilesTable, VotesTable,
                                               ForumPostsTable}
      ensures Valid() && Grows(old(db), db) && UsernameTaken(db, "admin")
    {
      SetupFromSafe(db, 0, id, passwordHash);
      SetupResult(db, id, passwordHash);
      SetupTwiceIsOnce(db, id, passwordHash, id, passwordHash);
      db := CreateTable(db, UsersTable);
      db := CreateTable(db, VoterProfilesTable);
      db := CreateTable(db, CandidateProfilesTable);
      db := CreateTable(db, VotesTable);
      db := CreateTable(db, ForumPostsTable);
      assert db.created == old(db).created + (set t | t in TABLES);
      assert UsernameTaken(db, "admin") == UsernameTaken(old(db), "admin");
      var outcome := InsertUser(db, AdminRow(id, passwordHash));
      db := Result(outcome, db);
    }

    method Register(id: int, name: string, username: string, passwordHash: string, roleText: string)
      returns (msg: RegisterMessage)
      requires Valid() && FreshId(db, UsersTable, id)
      modifies this
      ensures Valid() && Grows(old(db), db)
      ensures msg.InvalidRole?
              <==> roleText != "VOTER" && roleText != "CANDIDATE" && roleText != "FIELD_OFFICER" && roleText != "ADMIN"
      ensures msg.UsernameInUse? <==> !msg.InvalidRole? && exists u | u in old(db).users :: u.username == username
      ensures !msg.RegisterError?
      ensures !msg.RegisteredOk? ==> db == old(db)
      ensures roleText == "VOTER" && msg.RegisteredOk? ==>
                db == old(db).(users := old(db).users + [User(id, username, passwordHash, name, Voter)])
      ensures roleText == "CANDIDATE" && msg.RegisteredOk? ==>
                db == old(db).(users := old(db).users + [User(id, username, passwordHash, name, Candidate)])
      ensures roleText == "FIELD_OFFICER" && msg.RegisteredOk? ==>
                db == old(db).(users := old(db).users + [User(id, username, passwordHash, name, FieldOfficer)])
      ensures roleText == "ADMIN" && msg.RegisteredOk? ==>
                db == old(db).(users := old(db).users + [User(id, username, passwordHash, name, Admin)])
    {
      RoleTexts();
      var role := ParseRole(roleText);
      if role.None? {
        return InvalidRole;
      }
      var row := User(id, username, passwordHash, name, role.value);
      InsertUserSafe(db, row);
      var outcome := InsertUser(db, row);
      if outcome.Done? {
        db := outcome.db;
        msg := RegisteredOk;
      } else if outcome.Duplicate? {
        msg := UsernameInUse;
      } else {
        msg := RegisterError;
      }
    }

    /** Signs in exactly when the credentials match a row, with that row's id and role. */
    method Login(username: string, passwordHash: string) returns (session: Option<Session>)
      requires Valid()
      ensures session.None? <==> forall u | u in db.users :: !(u.username == username && u.passwordHash == passwordHash)
      ensures session.Some? ==> exists u | u in db.users ::
                u.username == username && u.passwordHash == passwordHash && session.value == Session(u.id, u.role)
    {
      var row := LoginRow(db, username, passwordHash);
      session := if row.Some? then Some(Session(row.value.id, row.value.role)) else None;
    }

    method ApplyVoterId(userId: int, constituency: string, address: string, id: int) returns (msg: ApplyMessage)
      requires Valid() && HasRole(db.users, userId, Voter) && FreshId(db, VoterProfilesTable, id)
      modifies this
      ensures Valid() && Grows(old(db), db)
      ensures msg == if AppliedAsVoter(old(db), userId) then AlreadySubmitted else Submitted
      ensures db == if msg.Submitted?
                    then old(db).(voterProfiles := old(db).voterProfiles
                                                   + [VoterProfile(id, userId, constituency, address, Pending)])
                    else old(db)
    {
      if VoterProfileOf(db, userId).Some? {
        return AlreadySubmitted;
      }
      var row := VoterProfile(id, userId, constituency, address, Pending);
      InsertVoterProfileSafe(db, row);
      var outcome := InsertVoterProfile(db, row);
      if outcome.Done? {
        db := outcome.db;
        msg := Submitted;
      } else {
        msg := ApplicationRejected;
      }
    }

    method ApplyCandidate(userId: int, party: string, constituency: string, manifesto: string, id: int)
      returns (msg: ApplyMessage)
      requires Valid() && HasRole(db.users, userId, Candidate) && FreshId(db, CandidateProfilesTable, id)
      modifies this
      ensures Valid() && Grows(old(db), db)
      ensures msg == if AppliedAsCandidate(old(db), userId) then AlreadySubmitted else Submitted
      ensures db == if msg.Submitted?
                    then old(db).(candidateProfiles :=
                                    old(db).candidateProfiles
                                    + [CandidateProfile(id, userId, party, constituency, manifesto, Pending)])
                    else old(db)
    {
      if AppliedAsCandidate(db, userId) {
        return AlreadySubmitted;
      }
      var row := CandidateProfile(id, userId, party, constituency, manifesto, Pending);
      InsertCandidateProfileSafe(db, row);
      var outcome := InsertCandidateProfile(db, row);
      if outcome.Done? {
        db := outcome.db;
        msg := Submitted;
      } else {
        msg := ApplicationRejected;
      }
    }

    /** Sets the status of the one profile with the given id and touches nothing else. */
    method ApproveReject(kind: Kind, id: Option<int>, action: string) returns (msg: DecisionMessage)
      requires Valid()
      modifies this
      ensures Valid() && Grows(old(db), db)
      ensures msg.InvalidAction? <==> action != "APPROVE" && action != "REJECT"
      ensures msg.IdNotANumber? <==> (action == "APPROVE" || action == "REJECT") && id.None?
      ensures msg.StatusSet? && kind == VoterKind ==>
                id.Some? && exists vp | vp in old(db).voterProfiles :: vp.id == id.value
      ensures msg.StatusSet? && kind == CandidateKind ==>
                id.Some? && exists cp | cp in old(db).candidateProfiles :: cp.id == id.value
      ensures msg.IdNotFound? && kind == VoterKind ==>
                id.Some? && forall vp | vp in old(db).voterProfiles :: vp.id != id.value
      ensures msg.IdNotFound? && kind == CandidateKind ==>
                id.Some? && forall cp | cp in old(db).candidateProfiles :: cp.id != id.value
      ensures !msg.StatusSet? ==> db == old(db)
      ensures msg.StatusSet? && action == "APPROVE" ==> StatusesSet(old(db), db, kind, id.value, Approved)
      ensures msg.StatusSet? && action == "REJECT" ==> StatusesSet(old(db), db, kind, id.value, Rejected)
    {
      assert |"APPROVE"| == 7 && |"REJECT"| == 6;
      var status := ParseDecision(action);
      if status.None? {
        return InvalidAction;
      }
      if id.None? {
        return IdNotANumber;
      }
      UpdateStatusSafe(db, kind, id.value, status.value);
      var found := HasProfile(db, kind, id.value);
      if found {
        db := UpdateStatus(db, kind, id.value, status.value);
        msg := StatusSet;
      } else {
        msg := IdNotFound;
      }
    }

    /** Stores a vote exactly when the three documented rules hold, and then as one atomic vote; each
        refusal has its own case, and the UNIQUE key is never what stops a vote. */
    method CastVote(voterId: int, choice: Option<int>, id: int, now: int) returns (msg: VoteMessage)
      requires Valid() && HasRole(db.users, voterId, Voter) && FreshId(db, VotesTable, id)
      modifies this
      ensures Valid() && Grows(old(db), db)
      ensures msg.VoteStored? <==> choice.Some? && exists c :: MayVote(old(db), voterId, choice.value, c)
      ensures msg.VoteStored? ==> exists c :: AtomicVote(old(db), db, choice.value, Vote(id, voterId, c, now))
      ensures !msg.VoteStored? ==> db == old(db)
      ensures msg.NeedVoterId? <==> !AppliedAsVoter(old(db), voterId)
      ensures msg.VoterNotApproved? <==> AppliedAsVoter(old(db), voterId) && !VoterApproved(old(db), voterId)
      ensures msg.AlreadyVoted? <==> VoterApproved(old(db), voterId) && HasVoted(old(db), voterId)
      ensures msg.NotANumber? <==> VoterApproved(old(db), voterId) && !HasVoted(old(db), voterId) && choice.None?
      ensures msg.InvalidCandidate? <==>
                && VoterApproved(old(db), voterId) && !HasVoted(old(db), voterId)
                && choice.Some? && !CandidateApproved(old(db), choice.value)
      ensures !msg.VoteRejected?
      ensures msg == CastVoteMessage(old(db), voterId, choice)
      ensures db == CastVoteDatabase(old(db), voterId, choice, id, now)
    {
      var profile := VoterProfileOf(db, voterId);
      if profile.None? {
        return NeedVoterId;
      }
      OnlyProfile(db.voterProfiles, profile.value);
      if profile.value.status != Approved {
        return VoterNotApproved;
      }
      if HasVoted(db, voterId) {
        return AlreadyVoted;
      }
      if choice.None? {
        return NotANumber;
      }
      var candidate := ApprovedCandidate(db, choice.value);
      if candidate.None? {
        return InvalidCandidate;
      }
      var vote := Vote(id, voterId, candidate.value.userId, now);
      InsertVoteSafe(db, vote);
      assert MayVote(db, voterId, choice.value, vote.candidateId);
      var outcome := InsertVote(db, vote);
      if outcome.Done? {
        db := outcome.db;
        msg := VoteStored;
        assert AtomicVote(old(db), db, choice.value, vote);
      } else {
        msg := VoteRejected;
      }
    }

    method PostForum(userId: int, content: string, id: int, now: int) returns (msg: PostMessage)
      requires Valid() && HasUser(db.users, userId) && FreshId(db, ForumPostsTable, id)
      modifies this
      ensures Valid() && Grows(old(db), db)
      ensures msg == if content == "" then EmptyMessage else Posted
      ensures db == if msg.Posted? then old(db).(posts := old(db).posts + [Post(id, userId, content, now)]) else old(db)
    {
      if content == "" {
        return EmptyMessage;
      }
      var row := Post(id, userId, content, now);
      InsertPostSafe(db, row);
      var outcome := InsertPost(db, row);
      if outcome.Done? {
        db := outcome.db;
        msg := Posted;
      } else {
        msg := PostRejected;
      }
    }

    /** The result loop: one line per row, numbered from 1. */
    static method PrintRanked(rs: seq<ResultRow>) returns (lines: seq<ResultLine>, any: bool)
      ensures |lines| == |rs| && forall i | 0 <= i < |lines| :: lines[i] == ResultLine(i + 1, rs[i])
      ensures any <==> rs != []
    {
      lines := [];
      var rank := 1;
      any := false;
      var next := 0;
      while next < |rs|
        invariant 0 <= next <= |rs| && rank == next + 1 && any == (next > 0)
        invariant |lines| == next && forall i | 0 <= i < next :: lines[i] == ResultLine(i + 1, rs[i])
      {
        any := true;
        lines := lines + [ResultLine(rank, rs[next])];
        rank := rank + 1;
        next := next + 1;
      }
    }

    /** Prints the answer of the results query with ranks 1..n; a better rank never shows fewer votes,
        and "No approved candidates yet" appears exactly when no candidate is approved. */
    method ViewResults(rs: seq<ResultRow>) returns (lines: seq<ResultLine>, none: bool)
      requires Valid() && AnswersResults(db, rs)
      ensures |lines| == |rs| && forall i | 0 <= i < |lines| :: lines[i] == ResultLine(i + 1, rs[i])
      ensures forall i, j | 0 <= i < j < |lines| :: lines[i].row.votes >= lines[j].row.votes
      ensures none <==> forall cp | cp in db.candidateProfiles :: cp.status != Approved
    {
      EmptyBoard(db, rs);
      BestFirst(db, rs);
      var any;
      lines, any := PrintRanked(rs);
      none := !any;
    }

    static lemma BestFirst(db: Database, rs: seq<ResultRow>)
      requires AnswersResults(db, rs)
      ensures forall i, j | 0 <= i < j < |rs| :: rs[i].votes >= rs[j].votes
    {
    }

    static lemma EmptyBoard(db: Database, rs: seq<ResultRow>)
      requires Consistent(db) && AnswersResults(db, rs)
      ensures rs == [] <==> forall cp | cp in db.candidateProfiles :: cp.status != Approved
    {
      var cps := db.candidateProfiles;
      assert Owned(cps, db.users);
      QueryShowsStandings(cps, db.users, db.votes);
      StandingsRows(cps, db.users, db.votes);
      SameRows(rs, Standings(cps, db.users, db.votes));
      if rs == [] {
        forall cp | cp in cps ensures cp.status != Approved {
          assert OnBoard(cps, cp) ==> Standing(cp, db.users, db.votes) in Standings(cps, db.users, db.votes);
        }
      } else {
        assert rs[0] in Standings(cps, db.users, db.votes);
      }
    }

    /** Prints a page of the forum; "No posts yet" appears exactly when there are none. */
    method ViewForum(page: seq<Forum.Entry>) returns (lines: seq<(int, string, string)>, none: bool)
      requires Valid() && Forum.AnswersForum(db, page)
      ensures |lines| == |page| == Forum.PageLength(|db.posts|)
      ensures forall i | 0 <= i < |lines| :: lines[i] == (page[i].0.postedAt, page[i].1.name, page[i].0.content)
      ensures none <==> db.posts == []
    {
      lines := [];
      var any := false;
      for next := 0 to |page|
        invariant any == (next > 0)
        invariant |lines| == next
        invariant forall i | 0 <= i < next :: lines[i] == (page[i].0.postedAt, page[i].1.name, page[i].0.content)
      {
        any := true;
        lines := lines + [(page[next].0.postedAt, page[next].1.name, page[next].0.content)];
      }
      none := !any;
      Forum.PageIsFilled(db, page);
    }
  }
}
