/** The five tables, the constraints they are declared with, and the SQL statements that change
    them.  Each statement is atomic: it applies fully or fails and changes nothing. */
module Schema {
  import opened Relational

  datatype Role = Voter | Candidate | FieldOfficer | Admin

  datatype Status = Pending | Approved | Rejected

  datatype Table = UsersTable | VoterProfilesTable | CandidateProfilesTable | VotesTable | ForumPostsTable

  /** The two tables `approveReject` works on. */
  datatype Kind = VoterKind | CandidateKind

  // Usernames stand for their classes under the database's own equality.
  datatype User = User(id: int, username: string, passwordHash: string, name: string, role: Role)

  datatype VoterProfile = VoterProfile(id: int, userId: int, constituency: string, address: string, status: Status)

  datatype CandidateProfile = CandidateProfile(
    id: int, userId: int, party: string, constituency: string, manifesto: string, status: Status)

  datatype Vote = Vote(id: int, voterId: int, candidateId: int, votedAt: int)

  datatype Post = Post(id: int, userId: int, content: string, postedAt: int)

  datatype Database = Database(
    created: set<Table>,
    users: seq<User>,
    voterProfiles: seq<VoterProfile>,
    candidateProfiles: seq<CandidateProfile>,
    votes: seq<Vote>,
    posts: seq<Post>)

  const EMPTY_DATABASE := Database({}, [], [], [], [], [])

  const TABLES := [UsersTable, VoterProfilesTable, CandidateProfilesTable, VotesTable, ForumPostsTable]

  // ---------- Conditions on rows ----------

  predicate HasUser(users: seq<User>, id: int) {
    exists u | u in users :: u.id == id
  }

  predicate HasRole(users: seq<User>, id: int, role: Role) {
    exists u | u in users :: u.id == id && u.role == role
  }

  predicate UsernameTaken(db: Database, username: string) {
    exists u | u in db.users :: u.username == username
  }

  predicate HasVoterProfile(db: Database, id: int, userId: int) {
    exists vp | vp in db.voterProfiles :: vp.id == id && vp.userId == userId
  }

  predicate HasCandidateProfile(db: Database, id: int, userId: int) {
    exists cp | cp in db.candidateProfiles :: cp.id == id && cp.userId == userId
  }

  predicate AppliedAsVoter(db: Database, userId: int) {
    exists vp | vp in db.voterProfiles :: vp.userId == userId
  }

  predicate AppliedAsCandidate(db: Database, userId: int) {
    exists cp | cp in db.candidateProfiles :: cp.userId == userId
  }

  predicate HasVoted(db: Database, userId: int) {
    exists v | v in db.votes :: v.voterId == userId
  }

  predicate HasProfile(db: Database, kind: Kind, id: int) {
    match kind
    case VoterKind => exists vp | vp in db.voterProfiles :: vp.id == id
    case CandidateKind => exists cp | cp in db.candidateProfiles :: cp.id == id
  }

  /** AUTO_INCREMENT is only assumed to hand out ids that the table does not hold. */
  predicate FreshId(db: Database, table: Table, id: int) {
    match table
    case UsersTable => forall u | u in db.users :: u.id != id
    case VoterProfilesTable => forall vp | vp in db.voterProfiles :: vp.id != id
    case CandidateProfilesTable => forall cp | cp in db.candidateProfiles :: cp.id != id
    case VotesTable => forall v | v in db.votes :: v.id != id
    case ForumPostsTable => forall fp | fp in db.posts :: fp.id != id
  }

  // ---------- SELECT statements ----------

  function LoginRow(db: Database, username: string, passwordHash: string): (r: Option<User>)
    ensures r.Some? ==> r.value in db.users && r.value.username == username
    ensures r.None? ==> forall u | u in db.users :: !(u.username == username && u.passwordHash == passwordHash)
  {
    First(db.users, (u: User) => u.username == username && u.passwordHash == passwordHash)
  }

  function VoterProfileOf(db: Database, userId: int): (r: Option<VoterProfile>)
    ensures r.Some? ==> r.value in db.voterProfiles && r.value.userId == userId
    ensures r.None? ==> !AppliedAsVoter(db, userId)
  {
    First(db.voterProfiles, (vp: VoterProfile) => vp.userId == userId)
  }

  function ApprovedCandidate(db: Database, id: int): (r: Option<CandidateProfile>)
    ensures r.Some? ==> r.value in db.candidateProfiles && r.value.id == id && r.value.status == Approved
    ensures r.None? ==> forall cp | cp in db.candidateProfiles :: !(cp.id == id && cp.status == Approved)
  {
    First(db.candidateProfiles, (cp: CandidateProfile) => cp.id == id && cp.status == Approved)
  }

  // ---------- Statements that change the database ----------

  datatype Outcome =
    | Done(db: Database)
    | Duplicate    // a UNIQUE key rejects the row
    | NoReference  // a FOREIGN KEY rejects the row
    | NoTable      // the table does not exist

  function CreateTable(db: Database, table: Table): Database {
    db.(created := db.created + {table})
  }

  function InsertUser(db: Database, row: User): Outcome {
    if UsersTable !in db.created then NoTable
    else if UsernameTaken(db, row.username) then Duplicate
    else Done(db.(users := db.users + [row]))
  }

  function InsertVoterProfile(db: Database, row: VoterProfile): Outcome {
    if VoterProfilesTable !in db.created then NoTable
    else if AppliedAsVoter(db, row.userId) then Duplicate
    else if !HasUser(db.users, row.userId) then NoReference
    else Done(db.(voterProfiles := db.voterProfiles + [row]))
  }

  function InsertCandidateProfile(db: Database, row: CandidateProfile): Outcome {
    if CandidateProfilesTable !in db.created then NoTable
    else if AppliedAsCandidate(db, row.userId) then Duplicate
    else if !HasUser(db.users, row.userId) then NoReference
    else Done(db.(candidateProfiles := db.candidateProfiles + [row]))
  }

  function InsertVote(db: Database, row: Vote): Outcome {
    if VotesTable !in db.created then NoTable
    else if HasVoted(db, row.voterId) then Duplicate
    else if !HasUser(db.users, row.voterId) || !HasUser(db.users, row.candidateId) then NoReference
    else Done(db.(votes := db.votes + [row]))
  }

  function InsertPost(db: Database, row: Post): Outcome {
    if ForumPostsTable !in db.created then NoTable
    else if !HasUser(db.users, row.userId) then NoReference
    else Done(db.(posts := db.posts + [row]))
  }

  function SetVoterStatus(rows: seq<VoterProfile>, id: int, status: Status): seq<VoterProfile> {
    seq(|rows|, i requires 0 <= i < |rows| => if rows[i].id == id then rows[i].(status := status) else rows[i])
  }

  function SetCandidateStatus(rows: seq<CandidateProfile>, id: int, status: Status): seq<CandidateProfile> {
    seq(|rows|, i requires 0 <= i < |rows| => if rows[i].id == id then rows[i].(status := status) else rows[i])
  }

  /** UPDATE <table> SET status = ? WHERE id = ?. */
  function UpdateStatus(db: Database, kind: Kind, id: int, status: Status): Database {
    match kind
    case VoterKind => db.(voterProfiles := SetVoterStatus(db.voterProfiles, id, status))
    case CandidateKind => db.(candidateProfiles := SetCandidateStatus(db.candidateProfiles, id, status))
  }

  function Result(outcome: Outcome, db: Database): Database {
    if outcome.Done? then outcome.db else db
  }

  /** The default account; the hash is that of the documented default password. */
  function AdminRow(id: int, passwordHash: string): User {
    User(id, "admin", passwordHash, "System Administrator", Admin)
  }

  /** Statement `k` of the start-up sequence: five CREATE TABLE IF NOT EXISTS, then INSERT IGNORE. */
  function SetupStatement(db: Database, k: nat, id: int, passwordHash: string): Outcome {
    if k < 5 then Done(CreateTable(db, TABLES[k])) else InsertUser(db, AdminRow(id, passwordHash))
  }

  // ---------- What a database must satisfy ----------

  ghost predicate UniqueUsers(rows: seq<User>) {
    && (forall i, j | 0 <= i < j < |rows| :: rows[i].id != rows[j].id)
    && (forall i, j | 0 <= i < j < |rows| :: rows[i].username != rows[j].username)
  }

  ghost predicate UniqueVoterProfiles(rows: seq<VoterProfile>) {
    && (forall i, j | 0 <= i < j < |rows| :: rows[i].id != rows[j].id)
    && (forall i, j | 0 <= i < j < |rows| :: rows[i].userId != rows[j].userId)
  }

  ghost predicate UniqueCandidateProfiles(rows: seq<CandidateProfile>) {
    && (forall i, j | 0 <= i < j < |rows| :: rows[i].id != rows[j].id)
    && (forall i, j | 0 <= i < j < |rows| :: rows[i].userId != rows[j].userId)
  }

  ghost predicate UniqueVotes(rows: seq<Vote>) {
    && (forall i, j | 0 <= i < j < |rows| :: rows[i].id != rows[j].id)
    && (forall i, j | 0 <= i < j < |rows| :: rows[i].voterId != rows[j].voterId)
  }

  ghost predicate UniquePosts(rows: seq<Post>) {
    forall i, j | 0 <= i < j < |rows| :: rows[i].id != rows[j].id
  }

  /** The PRIMARY KEY and UNIQUE declarations. */
  ghost predicate UniqueKeys(db: Database) {
    && UniqueUsers(db.users)
    && UniqueVoterProfiles(db.voterProfiles)
    && UniqueCandidateProfiles(db.candidateProfiles)
    && UniqueVotes(db.votes)
    && UniquePosts(db.posts)
  }

  /** The FOREIGN KEY declarations, with the role the referenced user has. */
  ghost predicate References(db: Database) {
    && (forall vp | vp in db.voterProfiles :: HasRole(db.users, vp.userId, Voter))
    && (forall cp | cp in db.candidateProfiles :: HasRole(db.users, cp.userId, Candidate))
    && (forall v | v in db.votes :: HasRole(db.users, v.voterId, Voter) && HasRole(db.users, v.candidateId, Candidate))
    && (forall fp | fp in db.posts :: HasUser(db.users, fp.userId))
  }

  ghost predicate RowsOnlyInTables(db: Database) {
    && (UsersTable !in db.created ==> db.users == [])
    && (VoterProfilesTable !in db.created ==> db.voterProfiles == [])
    && (CandidateProfilesTable !in db.created ==> db.candidateProfiles == [])
    && (VotesTable !in db.created ==> db.votes == [])
    && (ForumPostsTable !in db.created ==> db.posts == [])
  }

  ghost predicate Consistent(db: Database) {
    UniqueKeys(db) && References(db) && RowsOnlyInTables(db)
  }

  ghost predicate AdminSeeded(db: Database) {
    exists u | u in db.users :: u.username == "admin" && u.role == Admin
  }

  ghost predicate AllTables(db: Database) {
    && UsersTable in db.created
    && VoterProfilesTable in db.created
    && CandidateProfilesTable in db.created
    && VotesTable in db.created
    && ForumPostsTable in db.created
  }

  // ---------- How a database may change ----------

  /** A profile keeps everything but its status, and its status never goes back to pending. */
  ghost predicate VoterProfilesKept(before: seq<VoterProfile>, after: seq<VoterProfile>) {
    && |before| <= |after|
    && (forall i | 0 <= i < |before| :: after[i] == before[i].(status := after[i].status))
    && (forall i | 0 <= i < |before| :: before[i].status != Pending ==> after[i].status != Pending)
  }

  ghost predicate CandidateProfilesKept(before: seq<CandidateProfile>, after: seq<CandidateProfile>) {
    && |before| <= |after|
    && (forall i | 0 <= i < |before| :: after[i] == before[i].(status := after[i].status))
    && (forall i | 0 <= i < |before| :: before[i].status != Pending ==> after[i].status != Pending)
  }

  /** Rows are only added; users, votes and posts never change once stored. */
  ghost predicate Grows(before: Database, after: Database) {
    && before.created <= after.created
    && before.users <= after.users
    && VoterProfilesKept(before.voterProfiles, after.voterProfiles)
    && CandidateProfilesKept(before.candidateProfiles, after.candidateProfiles)
    && before.votes <= after.votes
    && before.posts <= after.posts
  }
}
