/** The leaderboard query, evaluated operator by operator, against the tally it is meant to show. */
module Results {
  import opened Relational
  import opened Schema
  import opened SchemaLaws
  import opened Election
  import opened ElectionInvariant
  import opened ElectionTheorems

  /** A row of the leaderboard.  `profileId` is the grouping key; it is not printed. */
  datatype ResultRow = ResultRow(profileId: int, name: string, party: string, constituency: string, votes: nat)

  // ---------- The query ----------

  type Entry = (CandidateProfile, User)

  type Joined = (Entry, Option<Vote>)

  function OnOwner(): (CandidateProfile, User) -> bool {
    (cp: CandidateProfile, u: User) => u.id == cp.userId
  }

  function OnCandidate(): (Entry, Vote) -> bool {
    (e: Entry, v: Vote) => v.candidateId == e.0.userId
  }

  function IsApproved(): Joined -> bool {
    (r: Joined) => r.0.0.status == Approved
  }

  function ProfileKey(): Joined -> int {
    (r: Joined) => r.0.0.id
  }

  function VotesKey(): ResultRow -> int {
    (r: ResultRow) => r.votes
  }

  /** COUNT(v.id): the rows of a group whose vote is not NULL. */
  function CountVotes(group: seq<Joined>): nat {
    if group == [] then 0 else (if group[0].1.Some? then 1 else 0) + CountVotes(group[1..])
  }

  function Summary(group: seq<Joined>): ResultRow
    requires group != []
  {
    var (cp, u) := group[0].0;
    ResultRow(cp.id, u.name, cp.party, cp.constituency, CountVotes(group))
  }

  function Summaries(groups: seq<seq<Joined>>): seq<ResultRow>
    requires forall i | 0 <= i < |groups| :: groups[i] != []
  {
    if groups == [] then [] else [Summary(groups[0])] + Summaries(groups[1..])
  }

  /** FROM candidate_profiles JOIN users LEFT JOIN votes WHERE status = 'APPROVED'. */
  function ApprovedEntries(cps: seq<CandidateProfile>, users: seq<User>, votes: seq<Vote>): seq<Joined> {
    Where(LeftJoin(Join(cps, users, OnOwner()), votes, OnCandidate()), IsApproved())
  }

  /** ... GROUP BY cp.id, before ORDER BY. */
  function Grouped(cps: seq<CandidateProfile>, users: seq<User>, votes: seq<Vote>): seq<ResultRow> {
    Summaries(GroupBy(ApprovedEntries(cps, users, votes), ProfileKey()))
  }

  /** `rs` is what the database may return for the query, whatever it does about ties. */
  ghost predicate AnswersResults(db: Database, rs: seq<ResultRow>) {
    OrderedAnswer(rs, Grouped(db.candidateProfiles, db.users, db.votes), VotesKey())
  }

  // ---------- What it is meant to show ----------

  /** How many votes name a user. */
  function Tally(votes: seq<Vote>, candidateId: int): nat {
    if votes == [] then 0
    else
      var n := |votes| - 1;
      Tally(votes[..n], candidateId) + (if votes[n].candidateId == candidateId then 1 else 0)
  }

  function NameOf(users: seq<User>, id: int): string {
    var row := First(users, (u: User) => u.id == id);
    if row.Some? then row.value.name else ""
  }

  function Standing(cp: CandidateProfile, users: seq<User>, votes: seq<Vote>): ResultRow {
    ResultRow(cp.id, NameOf(users, cp.userId), cp.party, cp.constituency, Tally(votes, cp.userId))
  }

  function Standings(cps: seq<CandidateProfile>, users: seq<User>, votes: seq<Vote>): seq<ResultRow> {
    if cps == [] then []
    else
      (if cps[0].status == Approved then [Standing(cps[0], users, votes)] else [])
      + Standings(cps[1..], users, votes)
  }

  // ---------- The query shows the standings ----------

  ghost predicate Owned(cps: seq<CandidateProfile>, users: seq<User>) {
    forall cp | cp in cps :: HasUser(users, cp.userId)
  }

  lemma {:induction false} MatchesConcat<A, B>(a: A, xs: seq<B>, ys: seq<B>, on: (A, B) -> bool)
    ensures Matches(a, xs + ys, on) == Matches(a, xs, on) + Matches(a, ys, on)
  {
    if xs == [] {
      assert xs + ys == ys;
    } else {
      var head := if on(a, xs[0]) then [xs[0]] else [];
      assert (xs + ys)[0] == xs[0] && (xs + ys)[1..] == xs[1..] + ys;
      MatchesConcat(a, xs[1..], ys, on);
      assert Matches(a, xs + ys, on) == head + (Matches(a, xs[1..], on) + Matches(a, ys, on));
      assert Matches(a, xs, on) == head + Matches(a, xs[1..], on);
    }
  }

  lemma {:induction false} TallyIsMatches(e: Entry, votes: seq<Vote>)
    ensures |Matches(e, votes, OnCandidate())| == Tally(votes, e.0.userId)
  {
    if votes != [] {
      var n := |votes| - 1;
      assert votes == votes[..n] + [votes[n]];
      MatchesConcat(e, votes[..n], [votes[n]], OnCandidate());
      TallyIsMatches(e, votes[..n]);
    }
  }

  lemma {:induction false} CountAllSome(group: seq<Joined>)
    requires forall r | r in group :: r.1.Some?
    ensures CountVotes(group) == |group|
  {
    if group != [] {
      CountAllSome(group[1..]);
    }
  }

  /** One candidate's block of the LEFT JOIN counts that candidate's votes, 0 when there is none. */
  lemma BlockCount(e: Entry, votes: seq<Vote>)
    ensures CountVotes(LeftPairs(e, Matches(e, votes, OnCandidate()))) == Tally(votes, e.0.userId)
  {
    TallyIsMatches(e, votes);
    var ms := Matches(e, votes, OnCandidate());
    if ms != [] {
      CountAllSome(LeftPairs(e, ms));
    }
  }

  lemma OwnerRow(cp: CandidateProfile, users: seq<User>) returns (u: User)
    requires UniqueUsers(users) && HasUser(users, cp.userId)
    ensures Matches(cp, users, OnOwner()) == [u] && u.name == NameOf(users, cp.userId)
  {
    u := First(users, (u: User) => u.id == cp.userId).value;
    UniqueMatch(cp, users, OnOwner(), u);
  }

  /** The entries of the first profile come first, as one block. */
  lemma EntriesUnfold(cps: seq<CandidateProfile>, users: seq<User>, votes: seq<Vote>, u: User)
    requires cps != [] && Matches(cps[0], users, OnOwner()) == [u]
    ensures var block := LeftPairs((cps[0], u), Matches((cps[0], u), votes, OnCandidate()));
            ApprovedEntries(cps, users, votes)
            == (if cps[0].status == Approved then block else []) + ApprovedEntries(cps[1..], users, votes)
  {
    var e := (cps[0], u);
    var block := LeftPairs(e, Matches(e, votes, OnCandidate()));
    var rest := Join(cps[1..], users, OnOwner());
    assert Join(cps, users, OnOwner()) == [e] + rest;
    assert LeftJoin([e] + rest, votes, OnCandidate()) == block + LeftJoin(rest, votes, OnCandidate());
    WhereConcat(block, LeftJoin(rest, votes, OnCandidate()), IsApproved());
    assert forall r | r in block :: r.0 == e;
    if cps[0].status == Approved {
      WhereAll(block, IsApproved());
    } else {
      WhereNone(block, IsApproved());
    }
  }

  lemma {:induction false} EntriesComeFromProfiles(cps: seq<CandidateProfile>, users: seq<User>, votes: seq<Vote>)
    requires UniqueUsers(users) && Owned(cps, users)
    ensures forall r | r in ApprovedEntries(cps, users, votes) :: r.0.0 in cps
  {
    if cps != [] {
      assert cps[0] in cps;
      var u := OwnerRow(cps[0], users);
      EntriesUnfold(cps, users, votes, u);
      EntriesComeFromProfiles(cps[1..], users, votes);
    }
  }

  /** An approved profile's entries form one group, summarised as its standing. */
  lemma ApprovedGroup(cps: seq<CandidateProfile>, users: seq<User>, votes: seq<Vote>)
    requires cps != [] && cps[0].status == Approved
    requires UniqueUsers(users) && UniqueCandidateProfiles(cps) && Owned(cps, users)
    ensures Grouped(cps, users, votes) == [Standing(cps[0], users, votes)] + Grouped(cps[1..], users, votes)
  {
    assert cps[0] in cps;
    var u := OwnerRow(cps[0], users);
    var e := (cps[0], u);
    var block := LeftPairs(e, Matches(e, votes, OnCandidate()));
    var rest := ApprovedEntries(cps[1..], users, votes);
    assert ApprovedEntries(cps, users, votes) == block + rest by { EntriesUnfold(cps, users, votes, u); }
    assert forall r | r in rest :: ProfileKey()(r) != cps[0].id by {
      EntriesComeFromProfiles(cps[1..], users, votes);
    }
    BlockIsOneGroup(e, votes, rest);
  }

  lemma BlockIsOneGroup(e: Entry, votes: seq<Vote>, rest: seq<Joined>)
    requires forall r | r in rest :: ProfileKey()(r) != e.0.id
    ensures var block := LeftPairs(e, Matches(e, votes, OnCandidate()));
            Summaries(GroupBy(block + rest, ProfileKey()))
            == [ResultRow(e.0.id, e.1.name, e.0.party, e.0.constituency, Tally(votes, e.0.userId))]
               + Summaries(GroupBy(rest, ProfileKey()))
  {
    var block := LeftPairs(e, Matches(e, votes, OnCandidate()));
    assert block != [] && forall r | r in block :: r.0 == e;
    GroupOff(block, rest, ProfileKey(), e.0.id);
    BlockCount(e, votes);
  }

  lemma UnapprovedSkipped(cps: seq<CandidateProfile>, users: seq<User>, votes: seq<Vote>)
    requires cps != [] && cps[0].status != Approved
    requires UniqueUsers(users) && Owned(cps, users)
    ensures Grouped(cps, users, votes) == Grouped(cps[1..], users, votes)
  {
    assert cps[0] in cps;
    var u := OwnerRow(cps[0], users);
    EntriesUnfold(cps, users, votes, u);
    assert [] + ApprovedEntries(cps[1..], users, votes) == ApprovedEntries(cps[1..], users, votes);
  }

  /** The relational query and the plain tally agree on every table contents that respects the keys. */
  lemma {:induction false} QueryShowsStandings(cps: seq<CandidateProfile>, users: seq<User>, votes: seq<Vote>)
    requires UniqueUsers(users) && UniqueCandidateProfiles(cps) && Owned(cps, users)
    ensures Grouped(cps, users, votes) == Standings(cps, users, votes)
  {
    if cps != [] {
      QueryShowsStandings(cps[1..], users, votes);
      if cps[0].status == Approved {
        ApprovedGroup(cps, users, votes);
      } else {
        UnapprovedSkipped(cps, users, votes);
      }
    }
  }

  // ---------- The leaderboard ----------

  ghost predicate DistinctProfiles(rows: seq<ResultRow>) {
    forall i, j | 0 <= i < j < |rows| :: rows[i].profileId != rows[j].profileId
  }

  ghost predicate OnBoard(cps: seq<CandidateProfile>, cp: CandidateProfile) {
    cp in cps && cp.status == Approved
  }

  /** Every approved profile's standing is on the board ... */
  ghost predicate ShowsAll(rs: seq<ResultRow>, db: Database) {
    forall cp | OnBoard(db.candidateProfiles, cp) :: Standing(cp, db.users, db.votes) in rs
  }

  /** ... and nothing else is. */
  ghost predicate ShowsOnly(rs: seq<ResultRow>, db: Database) {
    forall r | r in rs :: exists cp :: OnBoard(db.candidateProfiles, cp) && r == Standing(cp, db.users, db.votes)
  }

  lemma {:induction false} StandingsRows(cps: seq<CandidateProfile>, users: seq<User>, votes: seq<Vote>)
    requires UniqueCandidateProfiles(cps)
    ensures forall cp | OnBoard(cps, cp) :: Standing(cp, users, votes) in Standings(cps, users, votes)
    ensures forall r | r in Standings(cps, users, votes) ::
              exists cp :: OnBoard(cps, cp) && r == Standing(cp, users, votes)
    ensures DistinctProfiles(Standings(cps, users, votes))
  {
    if cps != [] {
      var rest := Standings(cps[1..], users, votes);
      StandingsRows(cps[1..], users, votes);
      forall r | r in rest ensures r.profileId != cps[0].id
      ensures exists cp :: OnBoard(cps, cp) && r == Standing(cp, users, votes)
      {
        var cp :| OnBoard(cps[1..], cp) && r == Standing(cp, users, votes);
        assert OnBoard(cps, cp);
      }
      assert cps[0].status == Approved ==> OnBoard(cps, cps[0]);
      forall cp | OnBoard(cps, cp) ensures Standing(cp, users, votes) in Standings(cps, users, votes) {
        if cp != cps[0] {
          assert OnBoard(cps[1..], cp);
        }
      }
    }
  }

  /** In every reachable state, whatever order the database picks among ties: one row per approved
      profile and no other, each with its owner's name and its number of votes, best first. */
  lemma LeaderboardIsCorrect(s: System, rs: seq<ResultRow>)
    requires Reachable(s) && AnswersResults(s.db, rs)
    ensures ShowsAll(rs, s.db) && ShowsOnly(rs, s.db)
    ensures DistinctProfiles(rs)
    ensures forall i, j | 0 <= i < j < |rs| :: rs[i].votes >= rs[j].votes
  {
    var standings := Standings(s.db.candidateProfiles, s.db.users, s.db.votes);
    assert UniqueCandidateProfiles(s.db.candidateProfiles) && multiset(rs) == multiset(standings) by {
      AnswerHasStandings(s, rs);
    }
    StandingsRows(s.db.candidateProfiles, s.db.users, s.db.votes);
    SameRows(rs, standings);
    UniqueAnyOrder(standings, rs, (r: ResultRow) => r.profileId);
    assert DistinctProfiles(rs);
    assert forall i, j | 0 <= i < j < |rs| :: VotesKey()(rs[i]) >= VotesKey()(rs[j]);
  }

  /** The query always has an answer. */
  lemma AnswerExists(db: Database)
    ensures exists rs :: AnswersResults(db, rs)
  {
    var rs := OrderedAnswerExists(Grouped(db.candidateProfiles, db.users, db.votes), VotesKey());
    assert AnswersResults(db, rs);
  }

  lemma AnswerHasStandings(s: System, rs: seq<ResultRow>)
    requires Reachable(s) && AnswersResults(s.db, rs)
    ensures UniqueCandidateProfiles(s.db.candidateProfiles)
    ensures multiset(rs) == multiset(Standings(s.db.candidateProfiles, s.db.users, s.db.votes))
  {
    ReachableInv(s);
    assert Owned(s.db.candidateProfiles, s.db.users);
    QueryShowsStandings(s.db.candidateProfiles, s.db.users, s.db.votes);
  }

  /** The tally is the number of rows of the votes table that name the user. */
  lemma {:induction false} TallyCountsRows(votes: seq<Vote>, userId: int)
    ensures Tally(votes, userId) == |set i | 0 <= i < |votes| && votes[i].candidateId == userId|
  {
    var rows := set i | 0 <= i < |votes| && votes[i].candidateId == userId;
    if votes == [] {
      assert rows == {};
    } else {
      var n := |votes| - 1;
      var earlier := set i | 0 <= i < |votes[..n]| && votes[..n][i].candidateId == userId;
      TallyCountsRows(votes[..n], userId);
      assert rows == earlier + (if votes[n].candidateId == userId then {n} else {});
    }
  }

  /** A row of the board, column by column, for a profile. */
  ghost predicate RowOf(r: ResultRow, cp: CandidateProfile, db: Database) {
    && r.profileId == cp.id
    && (exists u | u in db.users :: u.id == cp.userId && u.name == r.name)
    && r.party == cp.party
    && r.constituency == cp.constituency
    && r.votes == |set i | 0 <= i < |db.votes| && db.votes[i].candidateId == cp.userId|
  }

  lemma StandingIsRow(cp: CandidateProfile, db: Database)
    requires HasUser(db.users, cp.userId)
    ensures RowOf(Standing(cp, db.users, db.votes), cp, db)
  {
    TallyCountsRows(db.votes, cp.userId);
    assert First(db.users, (u: User) => u.id == cp.userId).Some?;
  }

  /** In every reachable state every approved profile has a row on the board, with its owner's name, its
      party and constituency, and the number of vote rows that name its owner ... */
  lemma ApprovedProfileHasRow(s: System, rs: seq<ResultRow>, cp: CandidateProfile)
    requires Reachable(s) && AnswersResults(s.db, rs) && cp in s.db.candidateProfiles && cp.status == Approved
    ensures exists r | r in rs :: RowOf(r, cp, s.db)
  {
    StandingIsRow(cp, s.db) by { ConstraintsAlwaysHold(s); }
    assert Standing(cp, s.db.users, s.db.votes) in rs by {
      assert OnBoard(s.db.candidateProfiles, cp);
      LeaderboardIsCorrect(s, rs);
    }
  }

  /** ... and every row on it is that of an approved profile. */
  lemma RowHasApprovedProfile(s: System, rs: seq<ResultRow>, r: ResultRow)
    requires Reachable(s) && AnswersResults(s.db, rs) && r in rs
    ensures exists cp | cp in s.db.candidateProfiles :: cp.status == Approved && RowOf(r, cp, s.db)
  {
    assert exists cp :: OnBoard(s.db.candidateProfiles, cp) && r == Standing(cp, s.db.users, s.db.votes) by {
      LeaderboardIsCorrect(s, rs);
    }
    var cp :| OnBoard(s.db.candidateProfiles, cp) && r == Standing(cp, s.db.users, s.db.votes);
    StandingIsRow(cp, s.db) by { ConstraintsAlwaysHold(s); }
  }

  // ---------- Conservation ----------

  function Total(rows: seq<ResultRow>): nat {
    if rows == [] then 0 else rows[0].votes + Total(rows[1..])
  }

  /** The votes whose candidate is not on the board at the moment. */
  function Stranded(cps: seq<CandidateProfile>, votes: seq<Vote>): nat {
    if votes == [] then 0
    else
      var n := |votes| - 1;
      Stranded(cps, votes[..n]) + (if Stands(cps, votes[n].candidateId) then 0 else 1)
  }

  predicate Stands(cps: seq<CandidateProfile>, userId: int) {
    exists cp | cp in cps :: cp.userId == userId && cp.status == Approved
  }

  lemma {:induction false} TotalConcat(a: seq<ResultRow>, b: seq<ResultRow>)
    ensures Total(a + b) == Total(a) + Total(b)
  {
    if a == [] {
      assert a + b == b;
    } else {
      assert (a + b)[1..] == a[1..] + b;
      TotalConcat(a[1..], b);
    }
  }

  lemma {:induction false} TotalAnyOrder(a: seq<ResultRow>, b: seq<ResultRow>)
    requires multiset(a) == multiset(b)
    ensures Total(a) == Total(b)
  {
    SameRows(a, b);
    if a != [] {
      assert a[0] in b;
      var n :| 0 <= n < |b| && b[n] == a[0];
      TakeOut(a, 0);
      TakeOut(b, n);
      assert Without(a, 0) == a[1..];
      TotalAnyOrder(a[1..], Without(b, n));
      TotalWithout(b, n);
    }
  }

  lemma {:induction false} TotalWithout(rows: seq<ResultRow>, n: nat)
    requires n < |rows|
    ensures Total(rows) == rows[n].votes + Total(Without(rows, n))
  {
    if n == 0 {
      assert Without(rows, 0) == rows[1..];
    } else {
      TotalWithout(rows[1..], n - 1);
      assert Without(rows, n)[0] == rows[0] && Without(rows, n)[1..] == Without(rows[1..], n - 1);
    }
  }

  lemma TotalUnfold(cps: seq<CandidateProfile>, users: seq<User>, votes: seq<Vote>)
    requires cps != []
    ensures Total(Standings(cps, users, votes))
            == (if cps[0].status == Approved then Tally(votes, cps[0].userId) else 0)
               + Total(Standings(cps[1..], users, votes))
  {
    if cps[0].status == Approved {
      TotalConcat([Standing(cps[0], users, votes)], Standings(cps[1..], users, votes));
    } else {
      assert [] + Standings(cps[1..], users, votes) == Standings(cps[1..], users, votes);
    }
  }

  /** One more ballot adds one to the board when its candidate is on it, and nothing otherwise. */
  lemma {:induction false} OneMoreBallot(cps: seq<CandidateProfile>, users: seq<User>, votes: seq<Vote>, v: Vote)
    requires UniqueCandidateProfiles(cps)
    ensures Total(Standings(cps, users, votes + [v]))
            == Total(Standings(cps, users, votes)) + (if Stands(cps, v.candidateId) then 1 else 0)
  {
    if cps != [] {
      assert (votes + [v])[..|votes|] == votes;
      OneMoreBallot(cps[1..], users, votes, v);
      TotalUnfold(cps, users, votes);
      TotalUnfold(cps, users, votes + [v]);
      StandsOnce(cps, v.candidateId);
    }
  }

  /** A user stands through the first profile or through a later one, never both. */
  lemma StandsOnce(cps: seq<CandidateProfile>, userId: int)
    requires cps != [] && UniqueCandidateProfiles(cps)
    ensures var first := cps[0].status == Approved && cps[0].userId == userId;
            (Stands(cps, userId) <==> first || Stands(cps[1..], userId)) && !(first && Stands(cps[1..], userId))
  {
  }

  lemma {:induction false} BoardAndStranded(cps: seq<CandidateProfile>, users: seq<User>, votes: seq<Vote>)
    requires UniqueCandidateProfiles(cps)
    ensures Total(Standings(cps, users, votes)) + Stranded(cps, votes) == |votes|
  {
    if votes == [] {
      NoVotesNoTotal(cps, users);
    } else {
      var n := |votes| - 1;
      assert votes == votes[..n] + [votes[n]];
      BoardAndStranded(cps, users, votes[..n]);
      OneMoreBallot(cps, users, votes[..n], votes[n]);
    }
  }

  lemma {:induction false} NoVotesNoTotal(cps: seq<CandidateProfile>, users: seq<User>)
    ensures Total(Standings(cps, users, [])) == 0
  {
    if cps != [] {
      NoVotesNoTotal(cps[1..], users);
      TotalUnfold(cps, users, []);
    }
  }

  /** "Vote cast successfully" messages printed so far. */
  function Receipts(log: seq<Event>): nat {
    if log == [] then 0 else Receipts(log[..|log| - 1]) + (if log[|log| - 1].VoteCast? then 1 else 0)
  }

  lemma {:induction false} ReceiptsAreVotes(log: seq<Event>)
    ensures Receipts(log) == |VotesCast(log)|
  {
    if log != [] {
      ReceiptsAreVotes(log[..|log| - 1]);
    }
  }

  /** No ballot is lost or invented: the displayed counts plus the votes for candidates not currently
      approved make up the votes table, one row per successful call. */
  lemma BallotsAreConserved(s: System, rs: seq<ResultRow>)
    requires Reachable(s) && AnswersResults(s.db, rs)
    ensures Total(rs) + Stranded(s.db.candidateProfiles, s.db.votes) == |s.db.votes|
    ensures |s.db.votes| == Receipts(s.log)
  {
    AnswerHasStandings(s, rs);
    TotalAnyOrder(rs, Standings(s.db.candidateProfiles, s.db.users, s.db.votes));
    BoardAndStranded(s.db.candidateProfiles, s.db.users, s.db.votes);
    BallotsMatchReceipts(s);
    ReceiptsAreVotes(s.log);
  }

  // ---------- Ballots count for the profile that was typed ----------

  lemma OwnersDiffer(cps: seq<CandidateProfile>)
    requires UniqueCandidateProfiles(cps)
    ensures forall a, b | a in cps && b in cps :: a.id == b.id <==> a.userId == b.userId
  {
  }

  /** One more vote adds one to the tally of the user it names and to no other. */
  lemma OneMoreTally(votes: seq<Vote>, v: Vote, userId: int)
    ensures Tally(votes + [v], userId) == Tally(votes, userId) + (if v.candidateId == userId then 1 else 0)
  {
    assert (votes + [v])[..|votes|] == votes;
  }

  /** What a stored ballot does to the tallies, by profile. */
  ghost predicate AddsOneTo(before: Database, after: Database, profileId: int) {
    && after.candidateProfiles == before.candidateProfiles && after.users == before.users
    && (exists cp | cp in before.candidateProfiles :: cp.id == profileId)
    && (forall cp | cp in before.candidateProfiles ::
          Tally(after.votes, cp.userId) == Tally(before.votes, cp.userId) + (if cp.id == profileId then 1 else 0))
  }

  lemma StoredBallotAddsOne(s: System, a: Action)
    requires Reachable(s) && Enabled(s, a) && a.SubmitVote?
    requires StatementOutcome(s.db, s.procs[a.p], a).Done?
    ensures AddsOneTo(s.db, Step(s, a).db, s.procs[a.p].profileId)
  {
    var pc := s.procs[a.p];
    var vote := PendingVote(pc, a.id, a.now);
    assert HasCandidateProfile(s.db, pc.profileId, pc.candidateId)
        && UniqueCandidateProfiles(s.db.candidateProfiles) by {
      ReachableInv(s);
      InsertingSaw(s.db, s.log, a.p, pc);
    }
    OwnersDiffer(s.db.candidateProfiles);
    forall cp | cp in s.db.candidateProfiles
      ensures Tally(s.db.votes + [vote], cp.userId)
              == Tally(s.db.votes, cp.userId) + (if cp.id == pc.profileId then 1 else 0)
    {
      OneMoreTally(s.db.votes, vote, cp.userId);
    }
  }

  /** What it does to the board: the same profiles, one vote more for the one and none for the others. */
  ghost predicate BoardAddsOneTo(rs: seq<ResultRow>, rs': seq<ResultRow>, profileId: int) {
    && (forall r | r in rs :: r.(votes := r.votes + (if r.profileId == profileId then 1 else 0)) in rs')
    && (forall r' | r' in rs' :: exists r | r in rs :: r.profileId == r'.profileId)
    && DistinctProfiles(rs) && DistinctProfiles(rs')
  }

  lemma RowsMoveOn(before: Database, after: Database, rs: seq<ResultRow>, rs': seq<ResultRow>, profileId: int)
    requires AddsOneTo(before, after, profileId) && ShowsOnly(rs, before) && ShowsAll(rs', after)
    ensures forall r | r in rs :: r.(votes := r.votes + (if r.profileId == profileId then 1 else 0)) in rs'
  {
    forall r | r in rs ensures r.(votes := r.votes + (if r.profileId == profileId then 1 else 0)) in rs' {
      var cp :| OnBoard(before.candidateProfiles, cp) && r == Standing(cp, before.users, before.votes);
      assert OnBoard(after.candidateProfiles, cp);
      var r' := Standing(cp, after.users, after.votes);
      assert r' == r.(votes := r.votes + (if r.profileId == profileId then 1 else 0));
    }
  }

  lemma RowsStay(before: Database, after: Database, rs: seq<ResultRow>, rs': seq<ResultRow>)
    requires after.candidateProfiles == before.candidateProfiles && ShowsAll(rs, before) && ShowsOnly(rs', after)
    ensures forall r' | r' in rs' :: exists r | r in rs :: r.profileId == r'.profileId
  {
    forall r' | r' in rs' ensures exists r | r in rs :: r.profileId == r'.profileId {
      var cp :| OnBoard(after.candidateProfiles, cp) && r' == Standing(cp, after.users, after.votes);
      assert OnBoard(before.candidateProfiles, cp);
      assert Standing(cp, before.users, before.votes) in rs;
    }
  }

  lemma BoardFollowsTallies(s: System, s': System, rs: seq<ResultRow>, rs': seq<ResultRow>, profileId: int)
    requires Reachable(s) && Reachable(s') && AddsOneTo(s.db, s'.db, profileId)
    requires AnswersResults(s.db, rs) && AnswersResults(s'.db, rs')
    ensures BoardAddsOneTo(rs, rs', profileId)
  {
    assert DistinctProfiles(rs) by { LeaderboardIsCorrect(s, rs); }
    assert DistinctProfiles(rs') by { LeaderboardIsCorrect(s', rs'); }
    RowsMoveOn(s.db, s'.db, rs, rs', profileId) by {
      assert ShowsOnly(rs, s.db) by { LeaderboardIsCorrect(s, rs); }
      assert ShowsAll(rs', s'.db) by { LeaderboardIsCorrect(s', rs'); }
    }
    RowsStay(s.db, s'.db, rs, rs') by {
      assert ShowsAll(rs, s.db) by { LeaderboardIsCorrect(s, rs); }
      assert ShowsOnly(rs', s'.db) by { LeaderboardIsCorrect(s', rs'); }
    }
  }

  /** While the others act, a process stays where it is. */
  lemma {:induction false} OthersLeaveItThere(s: System, p: ProcessId, others: seq<Action>)
    requires p in s.procs && IsRun(s, others) && forall i | 0 <= i < |others| :: others[i].p != p
    ensures p in Execute(s, others).procs && Execute(s, others).procs[p] == s.procs[p]
  {
    if others != [] {
      OthersLeaveItThere(s, p, others[..|others| - 1]);
    }
  }

  lemma ChoiceIsKept(s: System, a: Action)
    requires Enabled(s, a) && a.Choose? && Step(s, a).procs[a.p].Inserting?
    ensures a.choice == Some(Step(s, a).procs[a.p].profileId)
  {
  }

  /** A voter types a profile id, the other processes do what they like, and the ballot is stored: it adds
      exactly one to the tally of the profile typed and nothing to any other, although the row stores a
      user id; and so does every answer of the results query before and after it. */
  lemma BallotIsFaithful(
    s: System, typed: Action, others: seq<Action>, a: Action, rs: seq<ResultRow>, rs': seq<ResultRow>)
    requires Reachable(s) && Enabled(s, typed) && typed.Choose?
    requires IsRun(Step(s, typed), others) && forall i | 0 <= i < |others| :: others[i].p != typed.p
    requires var mid := Execute(Step(s, typed), others);
             && a.SubmitVote? && a.p == typed.p && Enabled(mid, a)
             && StatementOutcome(mid.db, mid.procs[a.p], a).Done?
             && AnswersResults(mid.db, rs) && AnswersResults(Step(mid, a).db, rs')
    ensures var mid := Execute(Step(s, typed), others);
            && typed.choice.Some?
            && AddsOneTo(mid.db, Step(mid, a).db, typed.choice.value)
            && BoardAddsOneTo(rs, rs', typed.choice.value)
  {
    var chosen := Step(s, typed);
    var mid := Execute(chosen, others);
    OthersLeaveItThere(chosen, typed.p, others);
    ChoiceIsKept(s, typed);
    ReachableStep(s, typed);
    ReachableExtends(chosen, others);
    ReachableStep(mid, a);
    StoredBallotAddsOne(mid, a);
    BoardFollowsTallies(mid, Step(mid, a), rs, rs', typed.choice.value);
  }

  // ---------- Standings over time ----------

  lemma {:induction false} TallyGrows(a: seq<Vote>, b: seq<Vote>, candidateId: int)
    requires a <= b
    ensures Tally(a, candidateId) <= Tally(b, candidateId)
  {
    if a != b {
      TallyGrows(a, b[..|b| - 1], candidateId);
    }
  }

  /** A later count of the same profile is no smaller. */
  lemma LaterCount(before: Database, after: Database, c: CandidateProfile, c': CandidateProfile)
    requires Grows(before, after) && UniqueCandidateProfiles(after.candidateProfiles)
    requires c in before.candidateProfiles && c' in after.candidateProfiles && c.id == c'.id
    ensures Standing(c, before.users, before.votes).votes <= Standing(c', after.users, after.votes).votes
  {
    SameOwner(before.candidateProfiles, after.candidateProfiles, c, c');
    TallyGrows(before.votes, after.votes, c.userId);
  }

  /** Two boards, the second from a later state. */
  lemma BoardsCompare(s: System, s': System, rs: seq<ResultRow>, rs': seq<ResultRow>, id: int)
    requires Reachable(s) && Reachable(s') && Grows(s.db, s'.db)
    requires AnswersResults(s.db, rs) && AnswersResults(s'.db, rs')
    ensures forall r, r' | r in rs && r' in rs' && r.profileId == id && r'.profileId == id :: r.votes <= r'.votes
  {
    LeaderboardIsCorrect(s, rs);
    LeaderboardIsCorrect(s', rs');
    assert UniqueCandidateProfiles(s'.db.candidateProfiles) by { ConstraintsAlwaysHold(s'); }
    forall r, r' | r in rs && r' in rs' && r.profileId == id && r'.profileId == id ensures r.votes <= r'.votes {
      var c :| OnBoard(s.db.candidateProfiles, c) && r == Standing(c, s.db.users, s.db.votes);
      var c' :| OnBoard(s'.db.candidateProfiles, c') && r' == Standing(c', s'.db.users, s'.db.votes);
      LaterCount(s.db, s'.db, c, c');
    }
  }

  /** However a run goes on, no tally shrinks; a candidate taken off the board and put back later
      reappears with at least the count shown before. */
  lemma StandingsNeverDrop(s: System, actions: seq<Action>, rs: seq<ResultRow>, rs': seq<ResultRow>, id: int)
    requires Reachable(s) && IsRun(s, actions)
    requires AnswersResults(s.db, rs) && AnswersResults(Execute(s, actions).db, rs')
    requires exists cp :: OnBoard(Execute(s, actions).db.candidateProfiles, cp) && cp.id == id
    ensures exists r' | r' in rs' :: r'.profileId == id
    ensures forall r, r' | r in rs && r' in rs' && r.profileId == id && r'.profileId == id :: r.votes <= r'.votes
  {
    var s' := Execute(s, actions);
    ReachableExtends(s, actions);
    RunGrows(s, actions);
    BoardsCompare(s, s', rs, rs', id);
    var cp :| OnBoard(s'.db.candidateProfiles, cp) && cp.id == id;
    assert Standing(cp, s'.db.users, s'.db.votes) in rs' by { LeaderboardIsCorrect(s', rs'); }
  }

  lemma SameOwner(
    before: seq<CandidateProfile>, after: seq<CandidateProfile>, c: CandidateProfile, c': CandidateProfile)
    requires CandidateProfilesKept(before, after) && UniqueCandidateProfiles(after)
    requires c in before && c' in after && c.id == c'.id
    ensures c.userId == c'.userId
  {
  }
}
