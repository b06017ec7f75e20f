/** One cascading delete with everything it owes: the rows, a history row for the
    versioned child, and the total of a parent that lost it. */
module CascadeHistory {
  import opened Wrappers
  import opened Ordering
  import opened CascadeModel
  import opened CascadeNative
  import opened CascadeLemmas
  import opened CascadeOutcome
  import opened CascadeConstraints
  import opened Cascade

  // A soft-deleted Author owns Posts, which are versioned without requiring it; a Site
  // counts its Posts.

  const AUTHOR_FK := Relation(BelongsTo, "Author", "author_id", OnDelete.Cascade)
  const AUTHORS := Model("Author", true, false, false, false, [])
  const POSTS := Model("Post", false, true, false, false, [AUTHOR_FK])
  const POST_VERSIONS := Model("PostHistory", false, false, false, false, [])
  const SITES := Model("Site", false, false, false, false, [])
  const POST_COUNT := Rollup("Site", "posts", "Post", "site_id")
  const PRESS := Schema([AUTHORS, POSTS, POST_VERSIONS, SITES], [POST_COUNT])

  const AUTHOR := Key("Author", "a")
  const POST := Key("Post", "p")
  const SITE := Key("Site", "s")
  const POST_EDGE := Edge(POSTS, AUTHOR_FK)
  const PUBLISHED: Rows := map[
    AUTHOR := Row(true, map[], 0, map[]),
    POST := Row(true, map["author_id" := Some("a"), "site_id" := Some("s")], 0, map[]),
    SITE := Row(true, map[], 0, map["posts" := Some(1)])]

  const COUNTING := Aggregator((c: Rollup, children: map<Key, Image>) => Some(|children|))

  lemma PressModels()
    ensures AUTHORS in PRESS.models && POSTS in PRESS.models && POST_VERSIONS in PRESS.models && SITES in PRESS.models
    ensures forall m :: m in PRESS.models ==> m == AUTHORS || m == POSTS || m == POST_VERSIONS || m == SITES
    ensures PRESS.rollups == [POST_COUNT] && POST_COUNT in PRESS.rollups
  {
    assert PRESS.models[0] == AUTHORS && PRESS.models[1] == POSTS && PRESS.models[2] == POST_VERSIONS && PRESS.models[3] == SITES;
    assert PRESS.rollups[0] == POST_COUNT;
  }

  lemma PressNames()
    ensures NulFree("Author") && NulFree("Post") && NulFree("PostHistory") && NulFree("Site") && NulFree("posts")
  {
  }

  lemma PressWellFormed()
    ensures PRESS.WellFormed()
  {
    hide NulFree;
    PressModels();
    PressNames();
    assert "Author"[0] == 'A' && "Site"[0] == 'S' && |"Post"| != |"PostHistory"| && "Post"[0] == "PostHistory"[0] == 'P';
  }

  lemma PressEdges()
    ensures forall e, name :: EdgeOnto(PRESS, e, name) ==> e == POST_EDGE && name == "Author"
    ensures forall e, name :: !NativeEdge(PRESS, e, name)
    ensures CascadeEdge(PRESS, POST_EDGE, "Author")
  {
    PressModels();
    assert PRESS.SoftDeletes("Author");
    assert POSTS.relations[0] == AUTHOR_FK;
    forall e: Edge | e.child in PRESS.models && e.rel in e.child.relations ensures e == POST_EDGE {
      assert e == Edge(e.child, e.rel);
    }
  }

  lemma NothingTaken(rows: Rows, k: Key)
    ensures NativeTaken(PRESS, rows, {k}) == {k}
  {
    hide NativeTaken, NativeEdge;
    PressEdges();
    TakenLeast(PRESS, rows, {k});
    assert NativelyClosed(PRESS, rows, {k});
  }

  lemma NothingForbids()
    ensures !Forbidden(PRESS, PUBLISHED, AUTHOR)
  {
    hide NativeTaken, NativeEdge, Reached, ReachedAtAll;
    PressEdges();
    forall q, r | r != q ensures q !in NativeTaken(PRESS, PUBLISHED, {r}) { NothingTaken(PUBLISHED, r); }
  }

  lemma PublishedRefs()
    ensures OnlySoftRowsDie(PRESS, PUBLISHED) && Live(PUBLISHED, AUTHOR) && Live(PUBLISHED, POST) && Live(PUBLISHED, SITE)
    ensures RefsVia(PUBLISHED, POST_EDGE, POST, AUTHOR)
    ensures forall c, p :: RefsVia(PUBLISHED, POST_EDGE, c, p) ==> c == POST
  {
  }

  /** What the delete takes lies within the author and the post. */
  lemma WithinTheTwo()
    ensures AllClosed(PRESS, PUBLISHED, AUTHOR, {AUTHOR, POST})
  {
    hide NativeEdge, RefsVia;
    PressEdges();
    PublishedRefs();
  }

  lemma ThePostIsVisited(after: Rows, log: seq<Event>)
    requires LoggedRemoval(PRESS, PUBLISHED, AUTHOR, after, log)
    ensures Deleted(log, POST) && !Live(after, POST) && !Live(after, AUTHOR)
  {
    hide WalkInv, Settled, NativeEdge, RefsVia;
    PressEdges();
    PublishedRefs();
    var V :| Removal(PRESS, PUBLISHED, AUTHOR, after, V) && DeletedBy(log, {}, V);
    RootVisited(PRESS, PUBLISHED, AUTHOR, after, V);
    ChildVisited(after, V);
  }

  lemma ChildVisited(after: Rows, V: set<Key>)
    requires Removal(PRESS, PUBLISHED, AUTHOR, after, V) && AUTHOR in V
    ensures POST in V
  {
    hide Closed, KeepsCascade, NullsJustified, Integrity, NativeEdge, Shrinks;
    PressEdges();
    PublishedRefs();
    assert Settled(PRESS, PUBLISHED, after, V, AUTHOR);
    assert RefsVia(PUBLISHED, POST_EDGE, POST, AUTHOR);
    assert NativelyClosed(PRESS, PUBLISHED, V);
  }

  /** A deleted row that is not the root has its own history row behind it. */
  lemma ThePostHasItsHistory(after: Rows, log: seq<Event>)
    requires DeleteLog(PRESS, AUTHOR, after, log) && HistoryOfEachWrite(PRESS, log) && NoHistoryFailed(log) && Deleted(log, POST)
    ensures exists i :: 0 <= i < |log| - 1 && IsDelete(log[i], POST) && log[i + 1] == History(OpDelete, POST)
  {
    hide DeletesOnce, SweepLog;
    PressModels();
    var i :| 0 <= i < |log| && IsDelete(log[i], POST);
    assert POSTS.versioned && POST_VERSIONS.name == POSTS.name + "History";
    assert log[i + 1] == History(OpDelete, POST);
  }

  lemma TheSiteStays(after: Rows)
    requires GoneWithin(PRESS, PUBLISHED, AUTHOR, after) && OthersKept(PRESS, PUBLISHED, after)
    ensures Live(after, SITE) && forall k :: Live(after, k) ==> Live(PUBLISHED, k)
  {
    hide AllClosed, NullsJustified;
    WithinTheTwo();
    PublishedRefs();
    assert SITE !in Gone(PUBLISHED, after) && SITE in PUBLISHED;
  }

  lemma NoChildren(after: Rows)
    requires !Live(after, POST) && forall k :: Live(after, k) ==> Live(PUBLISHED, k)
    ensures Children(after, POST_COUNT, "s") == map[]
  {
    PublishedRefs();
    assert Children(after, POST_COUNT, "s").Keys == {};
  }

  lemma TheCountIsRight(after: Rows, log: seq<Event>)
    requires GoneWithin(PRESS, PUBLISHED, AUTHOR, after) && OtherRollupsKept(PRESS, COUNTING, PUBLISHED, AUTHOR, after, log)
    requires !Live(after, POST) && OthersKept(PRESS, PUBLISHED, after)
    ensures Live(after, SITE) && "posts" in after[SITE].totals && after[SITE].totals["posts"] == Some(0)
  {
    hide GoneWithin, OthersKept, Invalidated, Children;
    PressModels();
    TheSiteStays(after);
    CountedBefore();
    NoChildren(after);
    assert RollupRight(COUNTING, PUBLISHED, after, Invalidated(PRESS, log), POST_COUNT, "s");
  }

  lemma CountedBefore()
    ensures TotalCorrect(COUNTING, PUBLISHED, POST_COUNT, "s")
  {
    var children := Children(PUBLISHED, POST_COUNT, "s");
    assert children.Keys == {POST};
    assert |children| == |children.Keys| == 1;
  }

  /** The delete of the author over a database that answers: the author is hidden and
      stays stored, the post is removed, its delete is followed by its row in
      PostHistory, and the site counts no posts. */
  method DeleteTheAuthor() returns (st: Status, rows: Rows, log: seq<Event>)
    ensures st == Done && !Live(rows, AUTHOR) && !Live(rows, POST)
    ensures AUTHOR in rows && POST !in rows
    ensures exists i :: 0 <= i < |log| - 1 && IsDelete(log[i], POST) && log[i + 1] == History(OpDelete, POST)
    ensures Live(rows, SITE) && "posts" in rows[SITE].totals && rows[SITE].totals["posts"] == Some(0)
  {
    hide *;
    PressModels();
    PressWellFormed();
    PublishedRefs();
    NothingForbids();
    AuthorKey();
    var db := new Database(PRESS, PUBLISHED, true);
    var steps := new DefaultSteps(PRESS, COUNTING);
    st := steps.DeleteRecord(db, AUTHORS, "a");
    rows, log := db.rows, db.log;
    ThePostIsVisited(rows, log);
    ThePostHasItsHistory(rows, log);
    TheCountIsRight(rows, log[..|log| - 1]);
    HiddenAndGone(rows);
  }

  lemma HiddenAndGone(after: Rows)
    requires SoftRowsStay(PRESS, PUBLISHED, after) && Removed(PRESS, PUBLISHED, AUTHOR, after) && !Live(after, POST)
    ensures AUTHOR in after && POST !in after
  {
    hide SoftRowsStay, Removed, PRESS, Schema.WellFormed;
    PressModels();
    PressWellFormed();
    PublishedRefs();
    DeadRowsStored(PRESS, PUBLISHED, AUTHOR, after, AUTHORS, AUTHOR);
    DeadRowsStored(PRESS, PUBLISHED, AUTHOR, after, POSTS, POST);
  }

  lemma AuthorKey()
    ensures Key(AUTHORS.name, "a") == AUTHOR
  {
  }
}
