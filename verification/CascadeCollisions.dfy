/** A delete that runs into its own effects: the walk comes to delete a row that a
    constraint already took along with an earlier one, finds it missing, and fails. */
module CascadeCollisions {
  import opened Wrappers
  import opened Ordering
  import opened CascadeModel
  import opened CascadeNative
  import opened CascadeLemmas
  import opened Cascade

  /** A delete with one edge to walk runs into itself only over rows that collide. */
  lemma RunsIntoCollides(schema: Schema, start: Rows, e: Edge, root: Key)
    requires OnlyEdge(schema, e, root.model) && RunsInto(schema, start, e, root)
    ensures Collides(schema, start, root)
  {
    hide NativeTaken, FrameworkEdge, RefsVia;
    var a, b :| RefsVia(start, e, a, root) && b in NativeTaken(schema, start, {a})
                && (b == root || (RefsVia(start, e, b, root) && Less(a.id, b.id)));
    OnlyEdgeChild(schema, start, e, a, root);
    if b != root { LessIrreflexive(a.id); }
    assert Reached(schema, start, root, a) && Reached(schema, start, root, b);
    assert TakenToo(schema, start, root, b);
  }

  // ---- one blog -----------------------------------------------------------------------

  // A soft-deleted Post owns Comments, which the walk deletes; a Comment owns its
  // replies through a constraint.

  const POST_FK := Relation(BelongsTo, "Post", "post_id", OnDelete.Cascade)
  const PARENT_FK := Relation(BelongsTo, "Comment", "parent_id", OnDelete.Cascade)
  const POSTS := Model("Post", true, false, false, false, [])
  const COMMENTS := Model("Comment", false, false, false, false, [POST_FK, PARENT_FK])
  const BLOG := Schema([POSTS, COMMENTS], [])

  const POST := Key("Post", "p")
  const FIRST := Key("Comment", "c1")
  const SECOND := Key("Comment", "c2")
  const POST_EDGE := Edge(COMMENTS, POST_FK)
  const PARENT_EDGE := Edge(COMMENTS, PARENT_FK)

  /** Two comments on the post, one the other's reply. */
  function Thread(firstReplies: bool): Rows {
    map[
      POST := Row(true, map[], 0, map[]),
      FIRST := Row(true, map["post_id" := Some("p"), "parent_id" := if firstReplies then Some("c2") else None], 0, map[]),
      SECOND := Row(true, map["post_id" := Some("p"), "parent_id" := if firstReplies then None else Some("c1")], 0, map[])]
  }

  lemma BlogWellFormed()
    ensures BLOG.WellFormed()
  {
    assert forall m :: m in BLOG.models ==> m == POSTS || m == COMMENTS;
    assert forall r :: r in COMMENTS.relations ==> r == POST_FK || r == PARENT_FK;
  }

  lemma BlogEdges()
    ensures POSTS in BLOG.models && COMMENTS in BLOG.models && POST_FK in COMMENTS.relations && PARENT_FK in COMMENTS.relations
    ensures BLOG.SoftDeletes("Post") && !BLOG.SoftDeletes("Comment") && BLOG.Registered("Comment")
    ensures forall e, name :: EdgeOnto(BLOG, e, name) || NativeEdge(BLOG, e, name) ==>
              (e == POST_EDGE && name == "Post") || (e == PARENT_EDGE && name == "Comment")
  {
    assert BLOG.models[0] == POSTS && BLOG.models[1] == COMMENTS;
    assert COMMENTS.relations[0] == POST_FK && COMMENTS.relations[1] == PARENT_FK;
    assert forall m :: m in BLOG.models ==> m == POSTS || m == COMMENTS;
    assert forall r :: r in COMMENTS.relations ==> r == POST_FK || r == PARENT_FK;
    forall e, name | EdgeOnto(BLOG, e, name) || NativeEdge(BLOG, e, name)
      ensures (e == POST_EDGE && name == "Post") || (e == PARENT_EDGE && name == "Comment")
    {
      assert e.child == COMMENTS && e == Edge(COMMENTS, e.rel);
    }
  }

  lemma CommentsAreAllThereIs()
    ensures OnlyEdge(BLOG, POST_EDGE, "Post")
    ensures NativeCascade(BLOG, PARENT_EDGE, "Comment")
    ensures forall e, name :: NativeEdge(BLOG, e, name) ==> e == PARENT_EDGE && name == "Comment"
  {
    BlogEdges();
  }

  lemma NothingRestricts(start: Rows)
    ensures !RefusedByConstraint(BLOG, start, POST)
  {
    hide NativeEdge, ReachedAtAll;
    CommentsAreAllThereIs();
  }

  lemma ThreadRefs(firstReplies: bool)
    ensures OnlySoftRowsDie(BLOG, Thread(firstReplies)) && Live(Thread(firstReplies), POST)
    ensures forall c :: RefsVia(Thread(firstReplies), POST_EDGE, c, POST) <==> c == FIRST || c == SECOND
    ensures forall c, p :: Names(Thread(firstReplies), PARENT_EDGE, c, p) && p.model == "Comment" <==>
              if firstReplies then c == FIRST && p == SECOND else c == SECOND && p == FIRST
    ensures |Matching(Thread(firstReplies), "Comment", "post_id", "p", "")| <= 2
  {
    var ids := Matching(Thread(firstReplies), "Comment", "post_id", "p", "");
    forall x | x in ids ensures x in {"c1", "c2"} { assert Refs(Thread(firstReplies), Key("Comment", x), "post_id", "p"); }
    SubsetCounts(ids, {"c1", "c2"});
  }

  /** The reply goes with the comment it answers, and nothing else goes with either. */
  lemma ReplyTaken(firstReplies: bool)
    ensures var reply, comment := if firstReplies then FIRST else SECOND, if firstReplies then SECOND else FIRST;
            && NativeTaken(BLOG, Thread(firstReplies), {reply}) == {reply}
            && NativeTaken(BLOG, Thread(firstReplies), {comment}) == {comment, reply}
  {
    hide NativeTaken, NativeEdge, Names, Thread;
    var rows := Thread(firstReplies);
    var reply, comment := if firstReplies then FIRST else SECOND, if firstReplies then SECOND else FIRST;
    CommentsAreAllThereIs();
    ThreadRefs(firstReplies);
    TakenLeast(BLOG, rows, {reply});
    TakenLeast(BLOG, rows, {comment});
    assert NativelyClosed(BLOG, rows, {reply});
    assert NativelyClosed(BLOG, rows, {comment, reply});
    assert Names(rows, PARENT_EDGE, reply, comment) && comment.model == "Comment";
  }

  lemma ThreadRunsIntoItself(firstReplies: bool)
    ensures RunsInto(BLOG, Thread(firstReplies), POST_EDGE, POST) <==> !firstReplies
  {
    hide NativeTaken, RefsVia, Thread;
    ThreadRefs(firstReplies);
    ReplyTaken(firstReplies);
    assert Less("c1", "c2") && !Less("c2", "c1");
    if !firstReplies {
      assert RefsVia(Thread(firstReplies), POST_EDGE, FIRST, POST) && RefsVia(Thread(firstReplies), POST_EDGE, SECOND, POST);
      assert SECOND in NativeTaken(BLOG, Thread(firstReplies), {FIRST});
    } else {
      forall a, b | RefsVia(Thread(firstReplies), POST_EDGE, a, POST) && b in NativeTaken(BLOG, Thread(firstReplies), {a})
        ensures b != POST && !Less(a.id, b.id)
      {
        LessIrreflexive(a.id);
      }
    }
  }

  lemma ThreadCollides(firstReplies: bool)
    ensures Collides(BLOG, Thread(firstReplies), POST)
  {
    hide NativeTaken, RefsVia, Thread, FrameworkEdge;
    var reply, comment := if firstReplies then FIRST else SECOND, if firstReplies then SECOND else FIRST;
    CommentsAreAllThereIs();
    ThreadRefs(firstReplies);
    ReplyTaken(firstReplies);
    assert RefsVia(Thread(firstReplies), POST_EDGE, reply, POST) && RefsVia(Thread(firstReplies), POST_EDGE, comment, POST);
    assert Reached(BLOG, Thread(firstReplies), POST, reply) && Reached(BLOG, Thread(firstReplies), POST, comment);
    assert TakenToo(BLOG, Thread(firstReplies), POST, reply);
  }

  lemma ThreadFacts(firstReplies: bool)
    ensures BLOG.WellFormed() && POSTS in BLOG.models && Key(POSTS.name, "p") == POST
    ensures OnlySoftRowsDie(BLOG, Thread(firstReplies)) && Live(Thread(firstReplies), POST)
    ensures OnlyEdge(BLOG, POST_EDGE, POSTS.name) && !Refused(BLOG, Thread(firstReplies), POST)
    ensures !RefusedByConstraint(BLOG, Thread(firstReplies), POST)
    ensures |Matching(Thread(firstReplies), POST_EDGE.child.name, POST_EDGE.rel.fkColumn, "p", "")| <= CASCADE_PAGE_SIZE
    ensures RunsInto(BLOG, Thread(firstReplies), POST_EDGE, POST) <==> !firstReplies
  {
    hide RunsInto, OnlyEdge, Refused, RefusedByConstraint, Thread, Matching;
    BlogWellFormed();
    BlogEdges();
    CommentsAreAllThereIs();
    NothingRestricts(Thread(firstReplies));
    OnlyEdgeRefusesNothing(BLOG, Thread(firstReplies), POST, POST_EDGE);
    ThreadRefs(firstReplies);
    ThreadRunsIntoItself(firstReplies);
  }

  /** Over a database that answers every statement: when the reply has the greater id
      the delete of the post reports a missing record and changes nothing, and with
      the ids the other way round it succeeds, although the comments collide either
      way. */
  method DeleteThePost(agg: Aggregator, firstReplies: bool) returns (st: Status, rows: Rows)
    ensures Collides(BLOG, Thread(firstReplies), POST)
    ensures st == if firstReplies then Done else NotFound
    ensures st == NotFound ==> rows == Thread(firstReplies)
  {
    hide *;
    ThreadFacts(firstReplies);
    ThreadCollides(firstReplies);
    var db := new Database(BLOG, Thread(firstReplies), true);
    var steps := new DefaultSteps(BLOG, agg);
    AllOnOnePage(steps, Thread(firstReplies));
    st := steps.DeleteRecord(db, POSTS, "p");
    rows := db.rows;
  }

  lemma AllOnOnePage(steps: DefaultSteps, rows: Rows)
    requires |Matching(rows, POST_EDGE.child.name, POST_EDGE.rel.fkColumn, "p", "")| <= CASCADE_PAGE_SIZE
    ensures steps.OnePage(rows, POST_EDGE, "p")
  {
  }
}
