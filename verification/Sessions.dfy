/** Signing in: every session goes back to the credentials of a stored row. */
module Sessions {
  import opened Relational
  import opened Schema
  import opened SchemaLaws
  import opened Election
  import opened ElectionInvariant
  import opened ElectionTheorems

  ghost predicate Credentials(users: seq<User>, me: Session, username: string, hash: string) {
    exists u | u in users :: u.id == me.userId && u.role == me.role && u.username == username && u.passwordHash == hash
  }

  /** Step `j` signed `me` in at process `p`, with the username and hash of that user's stored row, and
      nobody has signed in there since. */
  ghost predicate SignedInBy(s: System, p: ProcessId, me: Session, j: int) {
    && 0 <= j < |s.log|
    && s.log[j].SignedIn? && s.log[j].p == p && s.log[j].me == me
    && Credentials(s.db.users, me, s.log[j].username, s.log[j].hash)
    && forall m | j < m < |s.log| :: !(s.log[m].SignedIn? && s.log[m].p == p)
  }

  ghost predicate SessionTraced(s: System, p: ProcessId, pc: Pc) {
    SessionOf(pc).Some? ==> exists j :: SignedInBy(s, p, SessionOf(pc).value, j)
  }

  ghost predicate Traced(s: System) {
    forall p | p in s.procs :: SessionTraced(s, p, s.procs[p])
  }

  /** An action that is not a successful login leaves the session as it is or ends it. */
  lemma SessionKept(db: Database, at: nat, pc: Pc, a: Action)
    requires Offers(db, pc, a)
    ensures var (next, e) := Move(db, at, pc, a);
            && e.p == a.p
            && (!e.SignedIn? ==> SessionOf(next).None? || SessionOf(next) == SessionOf(pc))
            && (e.SignedIn? ==> SessionOf(next) == Some(e.me) && Credentials(db.users, e.me, e.username, e.hash))
  {
  }

  /** A sign-in stays the latest one at its process while other events follow. */
  lemma StillSignedIn(s: System, s': System, p: ProcessId, me: Session, j: int, e: Event)
    requires SignedInBy(s, p, me, j) && s'.log == s.log + [e] && s.db.users <= s'.db.users
    requires !(e.SignedIn? && e.p == p)
    ensures SignedInBy(s', p, me, j)
  {
    var u :| u in s.db.users && u.id == me.userId && u.role == me.role
             && u.username == s.log[j].username && u.passwordHash == s.log[j].hash;
    assert u in s'.db.users;
  }

  lemma TracedStays(s: System, s': System, p: ProcessId, pc: Pc, e: Event)
    requires SessionTraced(s, p, pc) && s'.log == s.log + [e] && s.db.users <= s'.db.users
    requires !(e.SignedIn? && e.p == p)
    ensures SessionTraced(s', p, pc)
  {
    if SessionOf(pc).Some? {
      var j :| SignedInBy(s, p, SessionOf(pc).value, j);
      StillSignedIn(s, s', p, SessionOf(pc).value, j, e);
    }
  }

  lemma ActorTraced(s: System, a: Action)
    requires Traced(s) && Enabled(s, a) && !a.Launch?
    ensures SessionTraced(Step(s, a), a.p, Step(s, a).procs[a.p])
  {
    var s', pc := Step(s, a), s.procs[a.p];
    var (next, e) := Move(s.db, |s.log|, pc, a);
    SessionKept(s.db, |s.log|, pc, a);
    assert s.db.users <= s'.db.users by { StepGrows(s, a); }
    if e.SignedIn? {
      assert s'.db.users == s.db.users by { assert a.Login?; }
      assert SignedInBy(s', a.p, e.me, |s.log|);
    } else {
      TracedStays(s, s', a.p, pc, e);
    }
  }

  lemma StepKeepsTraced(s: System, a: Action)
    requires Traced(s) && Enabled(s, a)
    ensures Traced(Step(s, a))
  {
    var s' := Step(s, a);
    forall p | p in s'.procs ensures SessionTraced(s', p, s'.procs[p]) {
      if p != a.p {
        StepGrows(s, a);
        StepLogsOne(s, a);
        TracedStays(s, s', p, s.procs[p], s'.log[|s.log|]);
      } else if !a.Launch? {
        ActorTraced(s, a);
      }
    }
  }

  lemma StepLogsOne(s: System, a: Action)
    requires Enabled(s, a)
    ensures |Step(s, a).log| == |s.log| + 1
    ensures Step(s, a).log == s.log + [Step(s, a).log[|s.log|]] && Step(s, a).log[|s.log|].p == a.p
  {
    if !a.Launch? {
      SessionKept(s.db, |s.log|, s.procs[a.p], a);
    }
  }

  lemma {:induction false} RunKeepsTraced(s: System, actions: seq<Action>)
    requires Traced(s) && IsRun(s, actions)
    ensures Traced(Execute(s, actions))
  {
    if actions != [] {
      var n := |actions| - 1;
      RunKeepsTraced(s, actions[..n]);
      StepKeepsTraced(Execute(s, actions[..n]), actions[n]);
    }
  }

  /** In every reachable state, whoever is signed in at a process got there by the latest sign-in at it, made
      with the username and the password hash of that user's stored row. */
  lemma SessionsNeedCredentials(s: System, p: ProcessId)
    requires Reachable(s) && p in s.procs && SessionOf(s.procs[p]).Some?
    ensures exists j :: SignedInBy(s, p, SessionOf(s.procs[p]).value, j)
  {
    var actions :| IsRun(INITIAL, actions) && Execute(INITIAL, actions) == s;
    RunKeepsTraced(INITIAL, actions);
    assert SessionTraced(s, p, s.procs[p]);
  }
}
