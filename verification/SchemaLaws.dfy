/** Every statement keeps the declared constraints and only lets the database grow. */
module SchemaLaws {
  import opened Schema

  /** Facts about stored rows survive any later change. */
  lemma FactsPersist(before: Database, after: Database)
    requires Grows(before, after)
    ensures forall id | HasUser(before.users, id) :: HasUser(after.users, id)
    ensures forall id, role | HasRole(before.users, id, role) :: HasRole(after.users, id, role)
    ensures forall id, u | HasVoterProfile(before, id, u) :: HasVoterProfile(after, id, u)
    ensures forall id, u | HasCandidateProfile(before, id, u) :: HasCandidateProfile(after, id, u)
    ensures forall kind, id | HasProfile(before, kind, id) :: HasProfile(after, kind, id)
    ensures AdminSeeded(before) ==> AdminSeeded(after)
  {
  }

  lemma GrowsTransitive(a: Database, b: Database, c: Database)
    requires Grows(a, b) && Grows(b, c)
    ensures Grows(a, c)
  {
  }

  lemma InsertUserSafe(db: Database, row: User)
    requires Consistent(db) && FreshId(db, UsersTable, row.id)
    ensures var after := Result(InsertUser(db, row), db); Consistent(after) && Grows(db, after)
  {
  }

  lemma InsertVoterProfileSafe(db: Database, row: VoterProfile)
    requires Consistent(db) && FreshId(db, VoterProfilesTable, row.id) && HasRole(db.users, row.userId, Voter)
    ensures var after := Result(InsertVoterProfile(db, row), db); Consistent(after) && Grows(db, after)
  {
  }

  lemma InsertCandidateProfileSafe(db: Database, row: CandidateProfile)
    requires Consistent(db) && FreshId(db, CandidateProfilesTable, row.id) && HasRole(db.users, row.userId, Candidate)
    ensures var after := Result(InsertCandidateProfile(db, row), db); Consistent(after) && Grows(db, after)
  {
  }

  lemma InsertVoteReferences(db: Database, row: Vote)
    requires References(db) && HasRole(db.users, row.voterId, Voter) && HasRole(db.users, row.candidateId, Candidate)
    ensures References(db.(votes := db.votes + [row]))
  {
  }

  lemma InsertVoteKeys(db: Database, row: Vote)
    requires UniqueKeys(db) && FreshId(db, VotesTable, row.id) && !HasVoted(db, row.voterId)
    ensures UniqueKeys(db.(votes := db.votes + [row]))
  {
  }

  /** Adding a row lets a database grow. */
  lemma AppendGrows(db: Database)
    ensures forall row :: Grows(db, db.(users := db.users + [row]))
    ensures forall row :: Grows(db, db.(voterProfiles := db.voterProfiles + [row]))
    ensures forall row :: Grows(db, db.(candidateProfiles := db.candidateProfiles + [row]))
    ensures forall row :: Grows(db, db.(votes := db.votes + [row]))
    ensures forall row :: Grows(db, db.(posts := db.posts + [row]))
  {
  }

  lemma InsertVoteSafe(db: Database, row: Vote)
    requires Consistent(db) && FreshId(db, VotesTable, row.id)
    requires HasRole(db.users, row.voterId, Voter) && HasRole(db.users, row.candidateId, Candidate)
    ensures var after := Result(InsertVote(db, row), db);
            Consistent(after) && Grows(db, after) && after == db.(votes := after.votes)
  {
    InsertVoteReferences(db, row);
    if !HasVoted(db, row.voterId) {
      InsertVoteKeys(db, row);
    }
    AppendGrows(db);
  }

  lemma InsertPostSafe(db: Database, row: Post)
    requires Consistent(db) && FreshId(db, ForumPostsTable, row.id)
    ensures var after := Result(InsertPost(db, row), db); Consistent(after) && Grows(db, after)
  {
  }

  lemma UpdateStatusGrows(db: Database, kind: Kind, id: int, status: Status)
    requires status != Pending
    ensures Grows(db, UpdateStatus(db, kind, id, status))
  {
  }

  lemma UpdateStatusKeys(db: Database, kind: Kind, id: int, status: Status)
    requires UniqueKeys(db)
    ensures UniqueKeys(UpdateStatus(db, kind, id, status))
  {
  }

  lemma UpdateStatusReferences(db: Database, kind: Kind, id: int, status: Status)
    requires References(db) && RowsOnlyInTables(db)
    ensures References(UpdateStatus(db, kind, id, status)) && RowsOnlyInTables(UpdateStatus(db, kind, id, status))
  {
  }

  lemma UpdateStatusSafe(db: Database, kind: Kind, id: int, status: Status)
    requires Consistent(db) && status != Pending
    ensures var after := UpdateStatus(db, kind, id, status); Consistent(after) && Grows(db, after)
  {
    UpdateStatusKeys(db, kind, id, status);
    UpdateStatusReferences(db, kind, id, status);
    UpdateStatusGrows(db, kind, id, status);
  }

  lemma SetupStatementSafe(db: Database, k: nat, id: int, hash: string)
    requires Consistent(db) && FreshId(db, UsersTable, id)
    ensures var after := Result(SetupStatement(db, k, id, hash), db); Consistent(after) && Grows(db, after)
  {
    if k < 5 {
      CreateTableSafe(db, TABLES[k]);
    } else {
      InsertUserSafe(db, AdminRow(id, hash));
    }
  }

  lemma CreateTableSafe(db: Database, table: Table)
    requires Consistent(db)
    ensures Consistent(CreateTable(db, table)) && Grows(db, CreateTable(db, table))
  {
  }

  // ---------- The whole start-up sequence ----------

  /** All six statements, as one process running alone performs them. */
  function SetupAll(db: Database, id: int, hash: string): Database {
    SetupFrom(db, 0, id, hash)
  }

  function SetupFrom(db: Database, k: nat, id: int, hash: string): Database
    requires k <= 6
    decreases 6 - k
  {
    if k == 6 then db else SetupFrom(Result(SetupStatement(db, k, id, hash), db), k + 1, id, hash)
  }

  lemma SetupResult(db: Database, id: int, hash: string)
    ensures var all := db.(created := db.created + (set t | t in TABLES));
            SetupAll(db, id, hash) == if UsernameTaken(db, "admin") then all
                                   else all.(users := db.users + [AdminRow(id, hash)])
  {
  }

  lemma {:induction false} SetupFromSafe(db: Database, k: nat, id: int, hash: string)
    requires k <= 6 && Consistent(db) && (k < 6 ==> FreshId(db, UsersTable, id))
    ensures Consistent(SetupFrom(db, k, id, hash)) && Grows(db, SetupFrom(db, k, id, hash))
    decreases 6 - k
  {
    if k < 6 {
      var next := Result(SetupStatement(db, k, id, hash), db);
      SetupStatementSafe(db, k, id, hash);
      SetupFromSafe(next, k + 1, id, hash);
      GrowsTransitive(db, next, SetupFrom(db, k, id, hash));
    }
  }

  /** Starting the program again changes nothing, and starting it never loses a row. */
  lemma SetupTwiceIsOnce(db: Database, id: int, hash: string, id': int, hash': string)
    ensures SetupAll(SetupAll(db, id, hash), id', hash') == SetupAll(db, id, hash)
    ensures Grows(db, SetupAll(db, id, hash))
    ensures AllTables(SetupAll(db, id, hash)) && UsernameTaken(SetupAll(db, id, hash), "admin")
  {
  }
}
