/** The program as a transition system: any number of processes, each with its own connection,
    interleaved one SQL statement at a time.  No statement runs inside a transaction. */
module Election {
  import opened Relational
  import opened Schema

  type ProcessId = nat

  /** What `login` hands to a role menu. */
  datatype Session = Session(userId: int, role: Role)

  /** A `castVote` call in progress.  `start` and `voterProfile` are history only: the log position
      of the call's first check and the profile row that check saw.  No guard reads them. */
  datatype Call = Call(me: Session, start: nat, voterProfile: int)

  /** Where a process stands between two statements.  The `start` of an application is history only too:
      the log position of its guard. */
  datatype Pc =
    | SettingUp(next: nat)                                     // `setupDatabase`, before statement `next`
    | MainMenu
    | Menu(me: Session)                                        // the menu of the session's role
    | ApplyingVoter(me: Session, start: nat)                   // `applyVoterID`, guard passed
    | ApplyingCandidate(me: Session, start: nat)               // `applyCandidate`, guard passed
    | CheckingVoted(call: Call)                                // `castVote`, voter seen approved
    | Listing(call: Call)                                      // ... and no vote found
    | Choosing(call: Call)                                     // ... candidates listed
    | Inserting(call: Call, profileId: int, candidateId: int)  // ... choice seen approved
    | Exited

  /** One statement (or menu choice) of one process, with everything the outside world supplies:
      what the user typed, the id AUTO_INCREMENT assigned, the server's clock. */
  datatype Action =
    | Launch(p: ProcessId)
    | Setup(p: ProcessId, id: int, hash: string)
    | Login(p: ProcessId, username: string, hash: string)
    | Register(p: ProcessId, id: int, username: string, hash: string, name: string, role: Role)
    | Logout(p: ProcessId)
    | Quit(p: ProcessId)                                       // Exit chosen, or the process is killed
    | Browse(p: ProcessId)                                     // any of the read-only screens
    | Decide(p: ProcessId, kind: Kind, profileId: int, status: Status)
    | GuardVoterApplication(p: ProcessId)
    | SubmitVoterApplication(p: ProcessId, id: int, constituency: string, address: string)
    | GuardCandidacy(p: ProcessId)
    | SubmitCandidacy(p: ProcessId, id: int, party: string, constituency: string, manifesto: string)
    | CheckVoter(p: ProcessId)
    | CheckVoted(p: ProcessId)
    | ListCandidates(p: ProcessId)
    | Choose(p: ProcessId, choice: Option<int>)                // None: not a number
    | SubmitVote(p: ProcessId, id: int, now: int)
    | PostMessage(p: ProcessId, id: int, content: string, now: int)
    | Fail(p: ProcessId)                                       // the pending statement throws SQLException

  /** What a step leaves in the history; `Other` covers the steps nothing is claimed about. */
  datatype Event =
    | Other(p: ProcessId)
    | SignedIn(p: ProcessId, me: Session, username: string, hash: string)
    | Decided(p: ProcessId, decider: Session, kind: Kind, profileId: int, status: Status)
    | SawNoProfile(p: ProcessId, me: Session, kind: Kind)
    | Applied(p: ProcessId, me: Session, kind: Kind)                  // "application submitted"
    | SawVoterApproved(p: ProcessId, me: Session, profileId: int)
    | SawNoVote(p: ProcessId, me: Session)
    | SawList(p: ProcessId)
    | SawCandidateApproved(p: ProcessId, profileId: int, candidateId: int)
    | VoteCast(p: ProcessId, call: Call, profileId: int, vote: Vote)  // "Vote cast successfully"
    | VoteRefused(p: ProcessId, call: Call)                           // the INSERT was rejected

  datatype System = System(db: Database, procs: map<ProcessId, Pc>, log: seq<Event>)

  const INITIAL := System(EMPTY_DATABASE, map[], [])

  // ---------- Which steps a process offers ----------

  /** The role menus: who may call `approveReject` on which table. */
  predicate MayDecide(role: Role, kind: Kind) {
    role == Admin || (role == FieldOfficer && kind == VoterKind)
  }

  predicate MayPost(role: Role) {
    role == Voter || role == Candidate
  }

  predicate InMenuOf(pc: Pc, role: Role) {
    pc.Menu? && pc.me.role == role
  }

  predicate Enabled(s: System, a: Action) {
    if a.Launch? then a.p !in s.procs else a.p in s.procs && Offers(s.db, s.procs[a.p], a)
  }

  predicate Offers(db: Database, pc: Pc, a: Action) {
    match a
    case Launch(_) => false
    case Setup(_, id, _) => pc.SettingUp? && pc.next <= 5 && FreshId(db, UsersTable, id)
    case Login(_, _, _) => pc.MainMenu?
    case Register(_, id, _, _, _, _) => pc.MainMenu? && FreshId(db, UsersTable, id)
    case Logout(_) => pc.Menu?
    case Quit(_) => true
    case Browse(_) => pc.Menu?
    case Decide(_, kind, _, status) => pc.Menu? && MayDecide(pc.me.role, kind) && status != Pending
    case GuardVoterApplication(_) => InMenuOf(pc, Voter)
    case SubmitVoterApplication(_, id, _, _) => pc.ApplyingVoter? && FreshId(db, VoterProfilesTable, id)
    case GuardCandidacy(_) => InMenuOf(pc, Candidate)
    case SubmitCandidacy(_, id, _, _, _) => pc.ApplyingCandidate? && FreshId(db, CandidateProfilesTable, id)
    case CheckVoter(_) => InMenuOf(pc, Voter)
    case CheckVoted(_) => pc.CheckingVoted?
    case ListCandidates(_) => pc.Listing?
    case Choose(_, _) => pc.Choosing?
    case SubmitVote(_, id, _) => pc.Inserting? && FreshId(db, VotesTable, id)
    case PostMessage(_, id, content, _) =>
      pc.Menu? && MayPost(pc.me.role) && content != "" && FreshId(db, ForumPostsTable, id)
    case Fail(_) => !pc.Exited?
  }

  // ---------- What each step does ----------

  function Advance(s: System, p: ProcessId, pc: Pc, db: Database, e: Event): System {
    System(db, s.procs[p := pc], s.log + [e])
  }

  /** Where an SQLException is caught: start-up gives up, every other statement returns to its menu;
      the candidate list swallows its own exception and `castVote` goes on. */
  function AfterFailure(pc: Pc): Pc {
    match pc
    case SettingUp(_) => Exited
    case MainMenu => MainMenu
    case Menu(me) => Menu(me)
    case ApplyingVoter(me, _) => Menu(me)
    case ApplyingCandidate(me, _) => Menu(me)
    case CheckingVoted(call) => Menu(call.me)
    case Listing(call) => Choosing(call)
    case Choosing(call) => Menu(call.me)
    case Inserting(call, _, _) => Menu(call.me)
    case Exited => Exited
  }

  /** The vote a process is about to insert. */
  function PendingVote(pc: Pc, id: int, now: int): Vote
    requires pc.Inserting?
  {
    Vote(id, pc.call.me.userId, pc.candidateId, now)
  }

  /** What the statement of an action does to the database.  Actions that only read are always done, and
      leave it as it is. */
  function StatementOutcome(db: Database, pc: Pc, a: Action): Outcome
    requires Offers(db, pc, a)
  {
    match a
    case Setup(_, id, hash) => SetupStatement(db, pc.next, id, hash)
    case Register(_, id, username, hash, name, role) => InsertUser(db, User(id, username, hash, name, role))
    case Decide(_, kind, profileId, status) => Done(UpdateStatus(db, kind, profileId, status))
    case SubmitVoterApplication(_, id, constituency, address) =>
      InsertVoterProfile(db, VoterProfile(id, pc.me.userId, constituency, address, Pending))
    case SubmitCandidacy(_, id, party, constituency, manifesto) =>
      InsertCandidateProfile(db, CandidateProfile(id, pc.me.userId, party, constituency, manifesto, Pending))
    case SubmitVote(_, id, now) => InsertVote(db, PendingVote(pc, id, now))
    case PostMessage(_, id, content, now) => InsertPost(db, Post(id, pc.me.userId, content, now))
    case _ => Done(db)
  }

  /** Where an action takes its process, and what the history records of it at position `at`. */
  function Move(db: Database, at: nat, pc: Pc, a: Action): (Pc, Event)
    requires Offers(db, pc, a)
  {
    var p := a.p;
    match a
    case Setup(_, _, _) => (if pc.next == 5 then MainMenu else SettingUp(pc.next + 1), Other(p))
    case Login(_, username, hash) =>
      var row := LoginRow(db, username, hash);
      if row.None? then (MainMenu, Other(p))
      else
        var me := Session(row.value.id, row.value.role);
        (Menu(me), SignedIn(p, me, username, hash))
    case Register(_, _, _, _, _, _) => (MainMenu, Other(p))
    case Logout(_) => (MainMenu, Other(p))
    case Quit(_) => (Exited, Other(p))
    case Browse(_) => (pc, Other(p))
    case Decide(_, kind, profileId, status) =>
      (pc, if HasProfile(db, kind, profileId) then Decided(p, pc.me, kind, profileId, status) else Other(p))
    case GuardVoterApplication(_) =>
      if AppliedAsVoter(db, pc.me.userId) then (pc, Other(p))
      else (ApplyingVoter(pc.me, at), SawNoProfile(p, pc.me, VoterKind))
    case SubmitVoterApplication(_, _, _, _) =>
      (Menu(pc.me), if StatementOutcome(db, pc, a).Done? then Applied(p, pc.me, VoterKind) else Other(p))
    case GuardCandidacy(_) =>
      if AppliedAsCandidate(db, pc.me.userId) then (pc, Other(p))
      else (ApplyingCandidate(pc.me, at), SawNoProfile(p, pc.me, CandidateKind))
    case SubmitCandidacy(_, _, _, _, _) =>
      (Menu(pc.me), if StatementOutcome(db, pc, a).Done? then Applied(p, pc.me, CandidateKind) else Other(p))
    case CheckVoter(_) =>
      var row := VoterProfileOf(db, pc.me.userId);
      if row.Some? && row.value.status == Approved
      then (CheckingVoted(Call(pc.me, at, row.value.id)), SawVoterApproved(p, pc.me, row.value.id))
      else (pc, Other(p))
    case CheckVoted(_) =>
      if HasVoted(db, pc.call.me.userId) then (Menu(pc.call.me), Other(p))
      else (Listing(pc.call), SawNoVote(p, pc.call.me))
    case ListCandidates(_) => (Choosing(pc.call), SawList(p))
    case Choose(_, choice) =>
      var row := if choice.Some? then ApprovedCandidate(db, choice.value) else None;
      if row.Some?
      then (Inserting(pc.call, row.value.id, row.value.userId),
            SawCandidateApproved(p, row.value.id, row.value.userId))
      else (Menu(pc.call.me), Other(p))
    case SubmitVote(_, id, now) =>
      (Menu(pc.call.me),
       if StatementOutcome(db, pc, a).Done?
       then VoteCast(p, pc.call, pc.profileId, PendingVote(pc, id, now)) else VoteRefused(p, pc.call))
    case PostMessage(_, _, _, _) => (pc, Other(p))
    case Fail(_) => (AfterFailure(pc), if pc.Listing? then SawList(p) else Other(p))
  }

  function Step(s: System, a: Action): System
    requires Enabled(s, a)
  {
    if a.Launch? then Advance(s, a.p, SettingUp(0), s.db, Other(a.p))
    else
      var pc := s.procs[a.p];
      var (next, e) := Move(s.db, |s.log|, pc, a);
      Advance(s, a.p, next, Result(StatementOutcome(s.db, pc, a), s.db), e)
  }

  // ---------- Runs ----------

  predicate IsRun(s: System, actions: seq<Action>)
    decreases |actions|, 0
  {
    actions == [] || (
      var n := |actions| - 1;
      IsRun(s, actions[..n]) && Enabled(Execute(s, actions[..n]), actions[n]))
  }

  function Execute(s: System, actions: seq<Action>): System
    requires IsRun(s, actions)
    decreases |actions|, 1
  {
    if actions == [] then s
    else
      var n := |actions| - 1;
      Step(Execute(s, actions[..n]), actions[n])
  }

  // ---------- Readings of the history ----------

  /** The votes the log says were cast, in order. */
  function VotesCast(log: seq<Event>): seq<Vote> {
    if log == [] then []
    else
      var n := |log| - 1;
      VotesCast(log[..n]) + (if log[n].VoteCast? then [log[n].vote] else [])
  }

  /** Whose applications of a kind the log says were submitted, in order. */
  function Applicants(log: seq<Event>, kind: Kind): seq<int> {
    if log == [] then []
    else
      var n := |log| - 1;
      Applicants(log[..n], kind) + (if log[n].Applied? && log[n].kind == kind then [log[n].me.userId] else [])
  }

  /** The status the log says a profile has: that of the last decision on it. */
  function LastStatus(log: seq<Event>, kind: Kind, id: int): Status {
    if log == [] then Pending
    else
      var n := |log| - 1;
      var e := log[n];
      if e.Decided? && e.kind == kind && e.profileId == id then e.status else LastStatus(log[..n], kind, id)
  }

  /** The steps one process took, in order. */
  function StepsOf(log: seq<Event>, p: ProcessId): seq<Event> {
    if log == [] then []
    else
      var n := |log| - 1;
      StepsOf(log[..n], p) + (if log[n].p == p then [log[n]] else [])
  }
}
