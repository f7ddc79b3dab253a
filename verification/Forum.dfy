/** The discussion forum: the latest twenty posts, newest first. */
module Forum {
  import opened Relational
  import opened Schema
  import opened Election
  import opened ElectionInvariant
  import opened ElectionTheorems

  const PAGE := 20

  type Entry = (Post, User)

  function OnAuthor(): (Post, User) -> bool {
    (fp: Post, u: User) => u.id == fp.userId
  }

  function PostedKey(): Entry -> int {
    (e: Entry) => e.0.postedAt
  }

  function Joined(db: Database): seq<Entry> {
    Join(db.posts, db.users, OnAuthor())
  }

  /** `page` is what the database may return: the head of some newest-first order of the join. */
  ghost predicate AnswersForum(db: Database, page: seq<Entry>) {
    exists all :: OrderedAnswer(all, Joined(db), PostedKey()) && page == all[..PageLength(|all|)]
  }

  function PageLength(n: nat): nat {
    if n <= PAGE then n else PAGE
  }

  ghost predicate Authored(posts: seq<Post>, users: seq<User>) {
    forall fp | fp in posts :: HasUser(users, fp.userId)
  }

  lemma OneAuthor(fp: Post, users: seq<User>) returns (u: User)
    requires UniqueUsers(users) && HasUser(users, fp.userId)
    ensures u in users && u.id == fp.userId && Matches(fp, users, OnAuthor()) == [u]
  {
    u :| u in users && u.id == fp.userId;
    UniqueMatch(fp, users, OnAuthor(), u);
  }

  ghost predicate Aligned(rows: seq<Entry>, posts: seq<Post>, users: seq<User>) {
    && |rows| == |posts|
    && forall i | 0 <= i < |posts| :: rows[i].0 == posts[i] && rows[i].1 in users && rows[i].1.id == posts[i].userId
  }

  lemma JoinUnfold(posts: seq<Post>, users: seq<User>, u: User)
    requires posts != [] && Matches(posts[0], users, OnAuthor()) == [u]
    ensures Join(posts, users, OnAuthor()) == [(posts[0], u)] + Join(posts[1..], users, OnAuthor())
  {
    assert Pairs(posts[0], [u]) == [(posts[0], u)];
  }

  lemma AlignedPrepend(rest: seq<Entry>, posts: seq<Post>, users: seq<User>, u: User)
    requires posts != [] && Aligned(rest, posts[1..], users) && u in users && u.id == posts[0].userId
    ensures Aligned([(posts[0], u)] + rest, posts, users)
  {
  }

  /** The join lists every post exactly once, with its author. */
  lemma {:induction false} JoinKeepsPosts(posts: seq<Post>, users: seq<User>)
    requires UniqueUsers(users) && Authored(posts, users)
    ensures Aligned(Join(posts, users, OnAuthor()), posts, users)
  {
    if posts != [] {
      assert posts[0] in posts;
      var u := OneAuthor(posts[0], users);
      JoinUnfold(posts, users, u);
      JoinKeepsPosts(posts[1..], users);
      AlignedPrepend(Join(posts[1..], users, OnAuthor()), posts, users, u);
    }
  }

  ghost predicate Listed(page: seq<Entry>, fp: Post) {
    exists i | 0 <= i < |page| :: page[i].0 == fp
  }

  /** Cutting a newest-first list leaves out only entries no newer than those kept. */
  lemma LeftOutIsOlder(all: seq<Entry>, n: nat, e: Entry, i: nat)
    requires Descending(all, PostedKey()) && i < n <= |all| && e in all && !Listed(all[..n], e.0)
    ensures e.0.postedAt <= all[i].0.postedAt
  {
  }

  lemma PageOfPosts(db: Database, page: seq<Entry>, all: seq<Entry>)
    requires UniqueUsers(db.users) && UniquePosts(db.posts) && Authored(db.posts, db.users)
    requires OrderedAnswer(all, Joined(db), PostedKey()) && page == all[..PageLength(|all|)]
    ensures |page| == PageLength(|db.posts|)
    ensures forall i | 0 <= i < |page| ::
              page[i].0 in db.posts && page[i].1 in db.users && page[i].1.id == page[i].0.userId
    ensures forall fp | fp in db.posts :: exists e: Entry :: e in all && e.0 == fp
  {
    var rows := Joined(db);
    JoinKeepsPosts(db.posts, db.users);
    SameRows(all, rows);
    forall i | 0 <= i < |page|
      ensures page[i].0 in db.posts && page[i].1 in db.users && page[i].1.id == page[i].0.userId
    {
      assert page[i] == all[i] && all[i] in rows;
    }
    forall fp | fp in db.posts ensures exists e: Entry :: e in all && e.0 == fp {
      var n :| 0 <= n < |db.posts| && db.posts[n] == fp;
      assert rows[n] in all;
    }
  }

  /** The query always has an answer. */
  lemma AnswerExists(db: Database)
    ensures exists page :: AnswersForum(db, page)
  {
    var all := OrderedAnswerExists(Joined(db), PostedKey());
    assert AnswersForum(db, all[..PageLength(|all|)]);
  }

  /** A page is as long as there are posts to fill it. */
  lemma PageIsFilled(db: Database, page: seq<Entry>)
    requires Consistent(db) && AnswersForum(db, page)
    ensures |page| == PageLength(|db.posts|)
  {
    var all :| OrderedAnswer(all, Joined(db), PostedKey()) && page == all[..PageLength(|all|)];
    assert Authored(db.posts, db.users);
    JoinKeepsPosts(db.posts, db.users);
    SameRows(all, Joined(db));
  }

  lemma PageIsDistinct(db: Database, all: seq<Entry>)
    requires UniqueUsers(db.users) && UniquePosts(db.posts) && Authored(db.posts, db.users)
    requires multiset(all) == multiset(Joined(db))
    ensures forall i, j | 0 <= i < j < |all| :: all[i].0.id != all[j].0.id
  {
    JoinKeepsPosts(db.posts, db.users);
    UniqueAnyOrder(Joined(db), all, (e: Entry) => e.0.id);
  }

  /** A page lists the latest posts, up to twenty, each once, newest first, with its author; no post left
      out is newer than one listed. */
  ghost predicate ShowsLatest(db: Database, page: seq<Entry>) {
    && |page| == (if |db.posts| <= 20 then |db.posts| else 20)
    && (forall i | 0 <= i < |page| ::
          page[i].0 in db.posts && page[i].1 in db.users && page[i].1.id == page[i].0.userId)
    && (forall i, j | 0 <= i < j < |page| :: page[i].0.id != page[j].0.id)
    && (forall i, j | 0 <= i < j < |page| :: page[i].0.postedAt >= page[j].0.postedAt)
    && (forall fp, i | fp in db.posts && !Listed(page, fp) && 0 <= i < |page| ::
          fp.postedAt <= page[i].0.postedAt)
  }

  lemma PageShowsLatest(db: Database, page: seq<Entry>)
    requires UniqueUsers(db.users) && UniquePosts(db.posts) && Authored(db.posts, db.users)
    requires AnswersForum(db, page)
    ensures ShowsLatest(db, page)
  {
    var all :| OrderedAnswer(all, Joined(db), PostedKey()) && page == all[..PageLength(|all|)];
    PageOfPosts(db, page, all);
    PageIsDistinct(db, all);
    NewestFirst(all, |page|);
    NothingNewerLeftOut(db.posts, all, |page|);
  }

  /** ... in every reachable state. */
  lemma ForumShowsLatest(s: System, page: seq<Entry>)
    requires Reachable(s) && AnswersForum(s.db, page)
    ensures ShowsLatest(s.db, page)
  {
    ConstraintsAlwaysHold(s);
    PageShowsLatest(s.db, page);
  }

  lemma NothingNewerLeftOut(posts: seq<Post>, all: seq<Entry>, n: nat)
    requires Descending(all, PostedKey()) && n <= |all|
    requires forall fp | fp in posts :: exists e: Entry :: e in all && e.0 == fp
    ensures forall fp, i | fp in posts && !Listed(all[..n], fp) && 0 <= i < n :: fp.postedAt <= all[..n][i].0.postedAt
  {
    forall fp, i | fp in posts && !Listed(all[..n], fp) && 0 <= i < n
      ensures fp.postedAt <= all[..n][i].0.postedAt
    {
      var e: Entry :| e in all && e.0 == fp;
      LeftOutIsOlder(all, n, e, i);
    }
  }

  lemma NewestFirst(all: seq<Entry>, n: nat)
    requires Descending(all, PostedKey()) && n <= |all|
    ensures forall i, j | 0 <= i < j < n :: all[..n][i].0.postedAt >= all[..n][j].0.postedAt
  {
  }
}
