/** What each step of a process does, written out in rows, columns, texts and positions.  Nothing here is
    stated through the functions that define the steps. */
module Operations {
  import opened Relational
  import opened Schema
  import opened Election
  import opened ElectionInvariant
  import opened ElectionTheorems

  // ---------- What is offered where ----------

  /** The choices of the role menus, and nothing else, are offered in a menu. */
  lemma MenuOffers(s: System, a: Action)
    requires a.p in s.procs && s.procs[a.p].Menu?
    ensures var role := s.procs[a.p].me.role;
            Enabled(s, a) <==>
              || a.Logout? || a.Browse? || a.Quit? || a.Fail?
              || (a.Decide? && a.kind == VoterKind && (role == Admin || role == FieldOfficer)
                  && (a.status == Approved || a.status == Rejected))
              || (a.Decide? && a.kind == CandidateKind && role == Admin
                  && (a.status == Approved || a.status == Rejected))
              || (a.GuardVoterApplication? && role == Voter)
              || (a.GuardCandidacy? && role == Candidate)
              || (a.CheckVoter? && role == Voter)
              || (a.PostMessage? && (role == Voter || role == Candidate) && a.content != ""
                  && forall fp | fp in s.db.posts :: fp.id != a.id)
  {
  }

  /** Outside the menus a process offers its next statement (and can always fail or be killed). */
  lemma PositionOffers(s: System, a: Action)
    requires a.p in s.procs && !s.procs[a.p].Menu? && !a.Quit? && !a.Fail?
    ensures var pc := s.procs[a.p];
            Enabled(s, a) <==>
              || (pc.SettingUp? && pc.next <= 5 && a.Setup? && forall u | u in s.db.users :: u.id != a.id)
              || (pc.MainMenu? && a.Login?)
              || (pc.MainMenu? && a.Register? && forall u | u in s.db.users :: u.id != a.id)
              || (pc.ApplyingVoter? && a.SubmitVoterApplication?
                  && forall vp | vp in s.db.voterProfiles :: vp.id != a.id)
              || (pc.ApplyingCandidate? && a.SubmitCandidacy?
                  && forall cp | cp in s.db.candidateProfiles :: cp.id != a.id)
              || (pc.CheckingVoted? && a.CheckVoted?)
              || (pc.Listing? && a.ListCandidates?)
              || (pc.Choosing? && a.Choose?)
              || (pc.Inserting? && a.SubmitVote? && forall v | v in s.db.votes :: v.id != a.id)
  {
  }

  /** Where the process goes is all that changes outside the database and the log. */
  lemma OthersStay(s: System, a: Action)
    requires Enabled(s, a)
    ensures a.p in Step(s, a).procs && Step(s, a).procs == s.procs[a.p := Step(s, a).procs[a.p]]
  {
  }

  // ---------- Start-up, login, registration ----------

  /** The statements of `setupDatabase` in order: the five tables, then the administrator unless the name is
      taken. */
  lemma SetupIsExact(s: System, a: Action)
    requires Reachable(s) && Enabled(s, a) && a.Setup?
    ensures var k := s.procs[a.p].next;
            var s' := Step(s, a);
            && k <= 5
            && s'.procs[a.p] == (if k == 5 then MainMenu else SettingUp(k + 1))
            && (k == 0 ==> s'.db == s.db.(created := s.db.created + {UsersTable}))
            && (k == 1 ==> s'.db == s.db.(created := s.db.created + {VoterProfilesTable}))
            && (k == 2 ==> s'.db == s.db.(created := s.db.created + {CandidateProfilesTable}))
            && (k == 3 ==> s'.db == s.db.(created := s.db.created + {VotesTable}))
            && (k == 4 ==> s'.db == s.db.(created := s.db.created + {ForumPostsTable}))
            && (k == 5 ==> s'.db == if exists u | u in s.db.users :: u.username == "admin" then s.db
                                    else s.db.(users := s.db.users
                                                        + [User(a.id, "admin", a.hash, "System Administrator", Admin)]))
  {
    OnlyUniqueKeysReject(s, a);
  }

  /** A login reaches a role menu if and only if some stored row has that username and that hash, and then
      the menu of that row's user and role; otherwise it returns to the main menu. */
  lemma LoginIsExact(s: System, a: Action)
    requires Enabled(s, a) && a.Login?
    ensures Step(s, a).db == s.db
    ensures Step(s, a).procs[a.p].Menu?
            <==> exists u | u in s.db.users :: u.username == a.username && u.passwordHash == a.hash
    ensures Step(s, a).procs[a.p].Menu? ==>
              exists u | u in s.db.users ::
                u.username == a.username && u.passwordHash == a.hash
                && Step(s, a).procs[a.p] == Menu(Session(u.id, u.role))
    ensures !Step(s, a).procs[a.p].Menu? ==> Step(s, a).procs[a.p] == MainMenu
  {
  }

  /** A registration adds the row as typed, unless the username is taken. */
  lemma RegisterIsExact(s: System, a: Action)
    requires Reachable(s) && Enabled(s, a) && a.Register?
    ensures Step(s, a).procs[a.p] == MainMenu
    ensures Step(s, a).db
            == if exists u | u in s.db.users :: u.username == a.username then s.db
               else s.db.(users := s.db.users + [User(a.id, a.username, a.hash, a.name, a.role)])
  {
    OnlyUniqueKeysReject(s, a);
  }

  // ---------- Decisions ----------

  /** A decision sets the status of the rows with the id typed to the status decided, in the table chosen,
      and changes nothing else, whoever of those who may decide takes it. */
  lemma DecisionIsExact(s: System, a: Action)
    requires Enabled(s, a) && a.Decide?
    ensures Step(s, a).procs == s.procs
    ensures var vps, vps' := s.db.voterProfiles, Step(s, a).db.voterProfiles;
            a.kind == VoterKind ==>
              && Step(s, a).db == s.db.(voterProfiles := vps') && |vps'| == |vps|
              && forall i | 0 <= i < |vps| ::
                   vps'[i] == if vps[i].id == a.profileId then vps[i].(status := a.status) else vps[i]
    ensures var cps, cps' := s.db.candidateProfiles, Step(s, a).db.candidateProfiles;
            a.kind == CandidateKind ==>
              && Step(s, a).db == s.db.(candidateProfiles := cps') && |cps'| == |cps|
              && forall i | 0 <= i < |cps| ::
                   cps'[i] == if cps[i].id == a.profileId then cps[i].(status := a.status) else cps[i]
  {
  }

  // ---------- Applications ----------

  /** A guard lets its user go on if and only if no row of its table has that user's id. */
  lemma GuardsAreExact(s: System, a: Action)
    requires Enabled(s, a) && (a.GuardVoterApplication? || a.GuardCandidacy?)
    ensures Step(s, a).db == s.db
    ensures var me := s.procs[a.p].me;
            a.GuardVoterApplication? ==>
              Step(s, a).procs[a.p]
              == if exists vp | vp in s.db.voterProfiles :: vp.userId == me.userId then Menu(me)
                 else ApplyingVoter(me, |s.log|)
    ensures var me := s.procs[a.p].me;
            a.GuardCandidacy? ==>
              Step(s, a).procs[a.p]
              == if exists cp | cp in s.db.candidateProfiles :: cp.userId == me.userId then Menu(me)
                 else ApplyingCandidate(me, |s.log|)
  {
  }

  /** A submitted application adds one pending row for the signed-in user, each text in its own column, or
      nothing when that user has a row by then; the process is back in its menu. */
  lemma ApplicationsAreExact(s: System, a: Action)
    requires Reachable(s) && Enabled(s, a) && (a.SubmitVoterApplication? || a.SubmitCandidacy?)
    ensures Step(s, a).procs[a.p] == Menu(s.procs[a.p].me)
    ensures var me := s.procs[a.p].me;
            a.SubmitVoterApplication? ==>
              Step(s, a).db
              == if exists vp | vp in s.db.voterProfiles :: vp.userId == me.userId then s.db
                 else s.db.(voterProfiles := s.db.voterProfiles
                                             + [VoterProfile(a.id, me.userId, a.constituency, a.address, Pending)])
    ensures var me := s.procs[a.p].me;
            a.SubmitCandidacy? ==>
              Step(s, a).db
              == if exists cp | cp in s.db.candidateProfiles :: cp.userId == me.userId then s.db
                 else s.db.(candidateProfiles :=
                              s.db.candidateProfiles
                              + [CandidateProfile(a.id, me.userId, a.party, a.constituency, a.manifesto, Pending)])
  {
    OnlyUniqueKeysReject(s, a);
  }

  // ---------- castVote ----------

  /** The first check goes on if and only if the signed-in user's own profile is approved. */
  lemma FirstCheckIsExact(s: System, a: Action)
    requires Reachable(s) && Enabled(s, a) && a.CheckVoter?
    ensures var me := s.procs[a.p].me;
            var next := Step(s, a).procs[a.p];
            && Step(s, a).db == s.db
            && (next.CheckingVoted?
                <==> exists vp | vp in s.db.voterProfiles :: vp.userId == me.userId && vp.status == Approved)
            && (next.CheckingVoted? ==> next.call.me == me)
            && (!next.CheckingVoted? ==> next == Menu(me))
  {
    assert UniqueVoterProfiles(s.db.voterProfiles) by { ConstraintsAlwaysHold(s); }
    FirstCheckRow(s.db, |s.log|, s.procs[a.p], a);
  }

  lemma FirstCheckRow(db: Database, at: nat, pc: Pc, a: Action)
    requires UniqueVoterProfiles(db.voterProfiles) && Offers(db, pc, a) && a.CheckVoter?
    ensures Move(db, at, pc, a).0.CheckingVoted?
            <==> exists vp | vp in db.voterProfiles :: vp.userId == pc.me.userId && vp.status == Approved
  {
    var row := VoterProfileOf(db, pc.me.userId);
    if row.Some? {
      forall vp | vp in db.voterProfiles && vp.userId == pc.me.userId ensures vp == row.value {
        var i :| 0 <= i < |db.voterProfiles| && db.voterProfiles[i] == vp;
        var j :| 0 <= j < |db.voterProfiles| && db.voterProfiles[j] == row.value;
        assert !(i < j) && !(j < i);
      }
    }
  }

  /** The later checks: no vote of this user's yet, and the typed id an approved candidate's. */
  lemma LaterChecksAreExact(s: System, a: Action)
    requires Enabled(s, a) && (a.CheckVoted? || a.ListCandidates? || a.Choose?)
    ensures Step(s, a).db == s.db
    ensures var call := s.procs[a.p].call;
            a.CheckVoted? ==>
              Step(s, a).procs[a.p]
              == if exists v | v in s.db.votes :: v.voterId == call.me.userId then Menu(call.me) else Listing(call)
    ensures a.ListCandidates? ==> Step(s, a).procs[a.p] == Choosing(s.procs[a.p].call)
    ensures var call := s.procs[a.p].call;
            var next := Step(s, a).procs[a.p];
            a.Choose? ==>
              && (next.Inserting?
                  <==> a.choice.Some? && exists cp | cp in s.db.candidateProfiles ::
                                           cp.id == a.choice.value && cp.status == Approved)
              && (next.Inserting? ==>
                    exists cp | cp in s.db.candidateProfiles ::
                      && cp.id == a.choice.value && cp.status == Approved
                      && next == Inserting(call, a.choice.value, cp.userId))
              && (!next.Inserting? ==> next == Menu(call.me))
  {
  }

  /** The INSERT of a vote adds the row for voter and candidate, unless the voter has a row by then, and the
      success message is logged exactly then. */
  lemma VoteIsExact(s: System, a: Action)
    requires Reachable(s) && Enabled(s, a) && a.SubmitVote?
    ensures var pc := s.procs[a.p];
            var s' := Step(s, a);
            && s'.procs[a.p] == Menu(pc.call.me)
            && s'.log == s.log + [s'.log[|s.log|]]
            && if exists v | v in s.db.votes :: v.voterId == pc.call.me.userId
               then s'.db == s.db && !s'.log[|s.log|].VoteCast?
               else && s'.db == s.db.(votes := s.db.votes + [Vote(a.id, pc.call.me.userId, pc.candidateId, a.now)])
                    && s'.log[|s.log|].VoteCast?
  {
    OnlyUniqueKeysReject(s, a);
  }

  // ---------- Forum ----------

  /** A message posted is stored, with its author, its text and its time. */
  lemma PostIsExact(s: System, a: Action)
    requires Reachable(s) && Enabled(s, a) && a.PostMessage?
    ensures Step(s, a).procs == s.procs
    ensures Step(s, a).db
            == s.db.(posts := s.db.posts + [Post(a.id, s.procs[a.p].me.userId, a.content, a.now)])
  {
    OnlyUniqueKeysReject(s, a);
  }

  // ---------- The rest ----------

  /** Reading screens, leaving a menu and leaving the program touch no row. */
  lemma QuietStepsAreExact(s: System, a: Action)
    requires Enabled(s, a) && (a.Launch? || a.Logout? || a.Quit? || a.Browse?)
    ensures Step(s, a).db == s.db
    ensures a.Launch? ==> Step(s, a).procs[a.p] == SettingUp(0)
    ensures a.Logout? ==> Step(s, a).procs[a.p] == MainMenu
    ensures a.Quit? ==> Step(s, a).procs[a.p] == Exited
    ensures a.Browse? ==> Step(s, a).procs[a.p] == s.procs[a.p]
  {
  }

  /** An SQL error changes no row.  It ends the program only during start-up; while the candidates are listed
      the call goes on to the prompt; everywhere else it leads back to the menu the process came from. */
  lemma ErrorsLandInMenus(s: System, a: Action)
    requires Enabled(s, a) && a.Fail?
    ensures var pc := s.procs[a.p];
            var next := Step(s, a).procs[a.p];
            && Step(s, a).db == s.db
            && (next.Exited? <==> pc.SettingUp?)
            && (next.MainMenu? <==> pc.MainMenu?)
            && (pc.Listing? ==> next == Choosing(pc.call))
            && (pc.Menu? || pc.ApplyingVoter? || pc.ApplyingCandidate? ==> next == Menu(pc.me))
            && (pc.CheckingVoted? || pc.Choosing? || pc.Inserting? ==> next == Menu(pc.call.me))
  {
  }
}
