// Walks over a forest that no longer grows: the pre-order walk of the copy, and the
// post-order walk that releases every node.
module OpWalks {
  import opened Bytes
  import opened OpForest
  import opened OpScan

  // ------------------------------------------------------------- pre-order

  // What the copy has still to visit after p and p's subtree.
  ghost function PreFollow(h: Arena, p: int): (s: seq<int>)
    requires Linked(h) && IsPtr(h, p)
    ensures forall i :: 0 <= i < |s| ==> 0 <= s[i] < |h|
    decreases p
  {
    if p == NULL then []
    else
      assert LinkedAt(h, p);
      PreIds(h, h[p].next) + PreFollow(h, h[p].parent)
  }

  // From p on, with p.
  ghost function PreRest(h: Arena, p: int): (s: seq<int>)
    requires Linked(h) && IsPtr(h, p)
    ensures forall i :: 0 <= i < |s| ==> 0 <= s[i] < |h|
  {
    if p == NULL then []
    else
      assert LinkedAt(h, p);
      [p] + PreIds(h, h[p].child) + PreFollow(h, p)
  }

  lemma PreUnfold(h: Arena, p: int)
    requires Linked(h) && 0 <= p < |h|
    ensures IsPtr(h, h[p].child) && IsPtr(h, h[p].next) && IsPtr(h, h[p].parent)
    ensures PreIds(h, p) == [p] + PreIds(h, h[p].child) + PreIds(h, h[p].next)
    ensures PreFollow(h, p) == PreIds(h, h[p].next) + PreFollow(h, h[p].parent)
    ensures PreRest(h, p) == [p] + PreIds(h, h[p].child) + PreFollow(h, p)
  {
    assert LinkedAt(h, p);
  }

  // The subtrees from p on and what follows p's parent are what is left at p.
  lemma PreFrom(h: Arena, p: int)
    requires Linked(h) && 0 <= p < |h|
    ensures IsPtr(h, h[p].parent)
    ensures PreIds(h, p) + PreFollow(h, h[p].parent) == PreRest(h, p)
  {
    PreUnfold(h, p);
    hide PreIds, PreFollow, PreRest;
    SeqAssoc([p] + PreIds(h, h[p].child), PreIds(h, h[p].next), PreFollow(h, h[p].parent));
  }

  lemma PreStart(h: Arena)
    requires Linked(h) && h != [] && h[0].parent == NULL
    ensures PreRest(h, 0) == PreIds(h, 0)
  {
    PreFrom(h, 0);
    assert PreIds(h, 0) + PreFollow(h, NULL) == PreIds(h, 0);
  }

  lemma PreAfter(h: Arena, p: int)
    requires Linked(h) && 0 <= p < |h|
    ensures PreFollow(h, p) == PreRest(h, After(h, p))
    decreases p
  {
    hide Linked, PreIds, PreFollow, PreRest;
    Links(h, p);
    PreUnfold(h, p);
    PreNull(h);
    if h[p].next != NULL {
      PreFrom(h, h[p].next);
    } else {
      assert [] + PreFollow(h, h[p].parent) == PreFollow(h, h[p].parent);
      if h[p].parent != NULL {
        PreAfter(h, h[p].parent);
      }
    }
  }

  lemma PreNull(h: Arena)
    requires Linked(h)
    ensures PreIds(h, NULL) == [] && PreFollow(h, NULL) == [] && PreRest(h, NULL) == []
  {
  }

  // One step of the walk.
  lemma PreSucc(h: Arena, p: int)
    requires Linked(h) && 0 <= p < |h|
    ensures PreRest(h, p) == [p] + PreRest(h, Succ(h, p))
  {
    hide Linked, PreIds, PreFollow, PreRest, After;
    Links(h, p);
    PreUnfold(h, p);
    if h[p].child != NULL {
      PreFrom(h, h[p].child);
      SeqAssoc([p], PreIds(h, h[p].child), PreFollow(h, p));
    } else {
      PreNull(h);
      PreAfter(h, p);
      assert [p] + [] == [p];
    }
  }

  // ------------------------------------------------------------ post-order

  // What is released after p.
  ghost function PostFollow(h: Arena, p: int): (s: seq<int>)
    requires Linked(h) && IsPtr(h, p)
    ensures forall i :: 0 <= i < |s| ==> 0 <= s[i] < |h|
    decreases p
  {
    if p == NULL then []
    else
      assert LinkedAt(h, p);
      PostIds(h, h[p].next) +
      (if h[p].parent == NULL then [] else [h[p].parent] + PostFollow(h, h[p].parent))
  }

  // What is released from p on, where p's children are released already if clear.
  ghost function PostRest(h: Arena, p: int, clear: bool): (s: seq<int>)
    requires Linked(h) && IsPtr(h, p)
    ensures forall i :: 0 <= i < |s| ==> 0 <= s[i] < |h|
  {
    if p == NULL then []
    else
      assert LinkedAt(h, p);
      (if clear then [] else PostIds(h, h[p].child)) + [p] + PostFollow(h, p)
  }

  lemma PostUnfold(h: Arena, p: int)
    requires Linked(h) && 0 <= p < |h|
    ensures IsPtr(h, h[p].child) && IsPtr(h, h[p].next) && IsPtr(h, h[p].parent)
    ensures PostIds(h, p) == PostIds(h, h[p].child) + [p] + PostIds(h, h[p].next)
    ensures PostRest(h, p, true) == [p] + PostFollow(h, p)
    ensures PostRest(h, p, false) == PostIds(h, h[p].child) + [p] + PostFollow(h, p)
    ensures PostFollow(h, p) == PostIds(h, h[p].next) + PostRest(h, h[p].parent, true)
  {
    assert LinkedAt(h, p);
    assert [] + [p] == [p];
    if h[p].parent != NULL {
      assert [] + [h[p].parent] == [h[p].parent];
    }
  }

  // The subtrees from p on and what is released with p's parent are what is left at p.
  lemma PostFrom(h: Arena, p: int)
    requires Linked(h) && 0 <= p < |h|
    ensures IsPtr(h, h[p].parent)
    ensures PostIds(h, p) + PostRest(h, h[p].parent, true) == PostRest(h, p, false)
  {
    PostUnfold(h, p);
    hide PostIds, PostFollow, PostRest;
    SeqAssoc(PostIds(h, h[p].child) + [p], PostIds(h, h[p].next), PostRest(h, h[p].parent, true));
  }

  lemma PostStart(h: Arena)
    requires Linked(h) && h != [] && h[0].parent == NULL
    ensures PostRest(h, 0, false) == PostIds(h, 0)
  {
    PostFrom(h, 0);
    assert PostIds(h, 0) + PostRest(h, NULL, true) == PostIds(h, 0);
  }

  // Going down leaves the same nodes to release.
  lemma PostDown(h: Arena, p: int)
    requires Linked(h) && 0 <= p < |h| && h[p].child != NULL
    ensures 0 <= h[p].child < |h|
    ensures PostRest(h, p, false) == PostRest(h, h[p].child, false)
  {
    hide Linked, PostIds, PostFollow, PostRest;
    Links(h, p);
    PostUnfold(h, p);
    PostFrom(h, h[p].child);
    SeqAssoc(PostIds(h, h[p].child), [p], PostFollow(h, p));
  }

  // A node without children left is released, and the walk goes on to the next sibling
  // or back to the parent.
  lemma PostNext(h: Arena, p: int)
    requires Linked(h) && 0 <= p < |h|
    ensures IsPtr(h, h[p].next) && IsPtr(h, h[p].parent)
    ensures PostRest(h, p, true) == [p] + PostFollow(h, p)
    ensures PostFollow(h, p) ==
      if h[p].next != NULL then PostRest(h, h[p].next, false) else PostRest(h, h[p].parent, true)
  {
    hide Linked, PostIds, PostFollow, PostRest;
    Links(h, p);
    PostUnfold(h, p);
    if h[p].next != NULL {
      PostFrom(h, h[p].next);
    } else {
      PostNull(h);
      assert [] + PostRest(h, h[p].parent, true) == PostRest(h, h[p].parent, true);
    }
  }

  lemma PostNull(h: Arena)
    requires Linked(h)
    ensures PostIds(h, NULL) == [] && PostFollow(h, NULL) == []
    ensures PostRest(h, NULL, true) == [] && PostRest(h, NULL, false) == []
  {
  }

  lemma PostLeaf(h: Arena, p: int)
    requires Linked(h) && 0 <= p < |h| && h[p].child == NULL
    ensures PostRest(h, p, false) == PostRest(h, p, true)
  {
    PostUnfold(h, p);
    PostNull(h);
    assert [] + [p] == [p];
  }

  lemma NotInConcat(a: seq<int>, b: seq<int>, c: int)
    requires c !in a && c !in b
    ensures c !in a + b
  {
  }

  lemma InLeft(a: seq<int>, b: seq<int>, k: int)
    requires k in a + b && k !in b
    ensures k in a
  {
  }

  // Nothing below p is released after p.
  lemma FollowNotBelow(h: Arena, p: int, c: int)
    requires Linked(h) && 0 <= p < |h| && 0 <= c < |h|
    requires Top(h, c, h[p].parent) == p && p < c
    ensures c !in PostFollow(h, p)
    decreases p
  {
    hide Linked, PostIds, PreIds, PostFollow, PostRest, Top;
    Links(h, p);
    PostUnfold(h, p);
    PostNull(h);
    var up := h[p].parent;
    if h[p].next != NULL && c in PostIds(h, h[p].next) {
      PostIsPre(h, h[p].next, c);
      PreTop(h, h[p].next, c);
      assert false;
    }
    if up != NULL {
      TopThrough(h, c, up);
      FollowNotBelow(h, up, c);
      PostUnfold(h, up);
      NotInConcat([up], PostFollow(h, up), c);
    }
    NotInConcat(PostIds(h, h[p].next), PostRest(h, up, true), c);
  }

  // The children of a node about to be released are released already.
  lemma ChildrenFirst(h: Arena, released: seq<int>, p: int, c: int)
    requires Forest(h) && 0 <= p < |h| && 0 <= c < |h| && h[c].parent == p
    requires released + PostRest(h, p, true) == PostIds(h, 0)
    ensures c in released
  {
    assert LinkedAt(h, c) && LinkedAt(h, p);
    assert Top(h, c, p) == c;
    TopThrough(h, c, p);
    FollowNotBelow(h, p, c);
    ForestOnce(h);
    ListsAll(PostIds(h, 0), |h|, c);
    hide *;
    PostNext(h, p);
    var rest := PostFollow(h, p);
    assert released + ([p] + rest) == PostIds(h, 0);
    NotInConcat([p], rest, c);
    if c !in released {
      NotInConcat(released, [p] + rest, c);
    }
  }

  // ------------------------------------------------ the walks, step by step

  // The copy walk at op: it goes through the whole forest, or only along the roots.
  ghost predicate CopyWalk(h: Arena, copied: seq<int>, op: int, descend: bool) {
    && Forest(h) && h != [] && IsPtr(h, op)
    && if descend then copied + PreRest(h, op) == PreIds(h, 0)
       else (op != NULL ==> h[op].parent == NULL) && copied + SibIds(h, op) == SibIds(h, 0)
  }

  lemma CopyStarts(h: Arena, descend: bool)
    requires Forest(h) && h != []
    ensures CopyWalk(h, [], 0, descend)
  {
    PreStart(h);
    assert [] + PreRest(h, 0) == PreRest(h, 0) && [] + SibIds(h, 0) == SibIds(h, 0);
  }

  ghost function CopyNext(h: Arena, p: int, descend: bool): int
    requires Linked(h) && 0 <= p < |h|
  {
    if descend then Succ(h, p) else After(h, p)
  }

  lemma CopyStep(h: Arena, copied: seq<int>, op: int, descend: bool)
    requires CopyWalk(h, copied, op, descend) && op != NULL
    ensures CopyWalk(h, copied + [op], CopyNext(h, op, descend), descend)
  {
    if descend {
      hide PreRest, PreIds, Linked, Succ;
      PreSucc(h, op);
      SeqAssoc(copied, [op], PreRest(h, Succ(h, op)));
    } else {
      Links(h, op);
      SibUnfold(h, op);
      SeqAssoc(copied, [op], SibIds(h, h[op].next));
    }
  }

  // No node is copied twice, and in the end all of them are.
  lemma CopyOnce(h: Arena, copied: seq<int>, op: int)
    requires CopyWalk(h, copied, op, true)
    ensures Within(copied, |h|) && |copied| <= |h| && op !in copied
    ensures op == NULL ==> forall i :: 0 <= i < |h| ==> i in copied
    ensures op != NULL ==> |copied| < |h|
  {
    ForestOnce(h);
    var all := PreIds(h, 0);
    assert forall i :: 0 <= i < |copied| ==> copied[i] == all[i];
    if op == NULL {
      assert copied == all;
      forall i | 0 <= i < |h| ensures i in copied { ListsAll(all, |h|, i); }
    } else {
      PreUnfold(h, op);
      assert all[|copied|] == op;
    }
  }

  // ------------------------------------------------------ renaming the roots only

  lemma {:induction false} SibOrdered(h: Arena, p: int)
    requires Linked(h) && IsPtr(h, p)
    ensures Distinct(SibIds(h, p))
    ensures p != NULL ==> |SibIds(h, p)| <= |h| - p
    decreases if p == NULL then 0 else |h| - p
  {
    if p != NULL {
      Links(h, p);
      SibUnfold(h, p);
      SibOrdered(h, h[p].next);
    }
  }

  // The walk along the roots meets no root twice, and in the end has met all of them.
  lemma RootsOnce(h: Arena, copied: seq<int>, op: int)
    requires CopyWalk(h, copied, op, false)
    ensures Within(copied, |h|) && |copied| <= |h| && op !in copied
    ensures op != NULL ==> |copied| < |h|
    ensures op == NULL ==> forall i :: 0 <= i < |h| && h[i].parent == NULL ==> i in copied
  {
    var all := SibIds(h, 0);
    SibOrdered(h, 0);
    assert forall i :: 0 <= i < |copied| ==> copied[i] == all[i];
    if op == NULL {
      assert copied == all;
      ForestOnce(h);
      forall i | 0 <= i < |h| && h[i].parent == NULL ensures i in copied {
        ListsAll(PreIds(h, 0), |h|, i);
        SameLevel(h, 0, i);
      }
    } else {
      SibUnfold(h, op);
      assert all[|copied|] == op;
    }
  }

  lemma {:induction false} SameLevel(h: Arena, p: int, k: int)
    requires Linked(h) && 0 <= p < |h| && k in PreIds(h, p) && h[k].parent == h[p].parent
    ensures k in SibIds(h, p)
    decreases |h| - p
  {
    Links(h, p);
    if k != p {
      if h[p].child != NULL && k in PreIds(h, h[p].child) {
        PreTop(h, h[p].child, k);
        TopThrough(h, k, p);
        TopAbove(h, k, p);
        assert false;
      }
      SameLevel(h, h[p].next, k);
    }
  }

  // A copy walk meets new nodes only, and finds all of those it should.
  lemma CopyNew(h: Arena, copied: seq<int>, op: int, descend: bool)
    requires CopyWalk(h, copied, op, descend)
    ensures Linked(h) && IsPtr(h, op)
    ensures Within(copied, |h|) && |copied| <= |h| && op !in copied
    ensures op != NULL ==> |copied| < |h| && (descend || h[op].parent == NULL)
    ensures op == NULL ==> forall i :: 0 <= i < |h| && (descend || h[i].parent == NULL) ==> i in copied
  {
    if descend {
      CopyOnce(h, copied, op);
    } else {
      RootsOnce(h, copied, op);
    }
  }

  // Nothing in the subtree of p comes after that subtree.
  lemma PreFollowNotBelow(h: Arena, p: int, c: int)
    requires Linked(h) && 0 <= p < |h| && 0 <= c < |h| && Top(h, c, h[p].parent) == p
    ensures c !in PreFollow(h, p)
    decreases p
  {
    hide Linked, PreIds, PreFollow, PreRest, Top;
    Links(h, p);
    PreUnfold(h, p);
    PreNull(h);
    var q, up := h[p].next, h[p].parent;
    if q != NULL && c in PreIds(h, q) {
      PreTop(h, q, c);
      assert false;
    }
    if up != NULL {
      TopThrough(h, c, up);
      PreFollowNotBelow(h, up, c);
    }
    NotInConcat(PreIds(h, q), PreFollow(h, up), c);
  }

  // A folder is copied before what is in it.
  lemma ParentFirst(h: Arena, copied: seq<int>, op: int, descend: bool)
    requires CopyWalk(h, copied, op, descend) && op != NULL
    ensures h[op].parent == NULL || h[op].parent in copied
  {
    var up := h[op].parent;
    if up != NULL {
      Links(h, op);
      PreUnfold(h, op);
      ForestOnce(h);
      ListsAll(PreIds(h, 0), |h|, up);
      NotAtOrBelow(h, op, up);
      if h[op].next != NULL && up in PreIds(h, h[op].next) {
        PreTop(h, h[op].next, up);
        assert false;
      }
      PreFollowNotBelow(h, up, up);
      hide *;
      NotInConcat(PreIds(h, h[op].next), PreFollow(h, up), up);
      NotInConcat([op] + PreIds(h, h[op].child), PreFollow(h, op), up);
      InLeft(copied, PreRest(h, op), up);
    }
  }

  lemma NotAtOrBelow(h: Arena, op: int, k: int)
    requires Linked(h) && 0 <= op < |h| && k < op
    ensures IsPtr(h, h[op].child) && k !in [op] + PreIds(h, h[op].child)
  {
    Links(h, op);
    if h[op].child != NULL && k in PreIds(h, h[op].child) {
      PreTop(h, h[op].child, k);
    }
    NotInConcat([op], PreIds(h, h[op].child), k);
  }

  // The releasing walk at op: g is the forest h but for the child links the walk has
  // cleared, which are those of op or of nodes released already.
  ghost predicate ReleaseWalk(h: Arena, g: Arena, released: seq<int>, op: int) {
    && Forest(h) && h != [] && IsPtr(h, op) && |g| == |h|
    && (forall k :: 0 <= k < |h| ==> ClearedAt(h, g, released, op, k))
    && released + PostRest(h, op, op != NULL && g[op].child == NULL) == PostIds(h, 0)
  }

  ghost predicate ClearedAt(h: Arena, g: Arena, released: seq<int>, op: int, k: int)
    requires 0 <= k < |h| == |g|
  {
    && g[k] == h[k].(child := g[k].child)
    && (g[k].child == h[k].child || (g[k].child == NULL && (k == op || k in released)))
  }

  lemma ReleaseStarts(h: Arena)
    requires Forest(h) && h != []
    ensures ReleaseWalk(h, h, [], 0)
  {
    PostStart(h);
    if h[0].child == NULL {
      PostLeaf(h, 0);
    }
    assert [] + PostIds(h, 0) == PostIds(h, 0);
  }

  // A node that is still to be released, other than the one the walk stands at, has its
  // child link.
  lemma NotCleared(h: Arena, g: Arena, released: seq<int>, op: int, todo: seq<int>, k: int)
    requires ReleaseWalk(h, g, released, op) && released + todo == PostIds(h, 0)
    requires k in todo && k != op
    ensures 0 <= k < |h| && g[k].child == h[k].child
  {
    ForestOnce(h);
    var all := PostIds(h, 0);
    var i :| 0 <= i < |todo| && todo[i] == k;
    assert all[|released| + i] == k;
    assert forall j :: 0 <= j < |released| ==> released[j] == all[j] != k;
    assert ClearedAt(h, g, released, op, k);
  }

  lemma InRight(a: seq<int>, b: seq<int>, k: int)
    requires k in b
    ensures k in a + b
  {
    assert b == (a + b)[|a|..];
  }

  lemma TodoNotReleased(h: Arena, released: seq<int>, todo: seq<int>, k: int)
    requires Forest(h) && h != [] && released + todo == PostIds(h, 0) && k in todo
    ensures k !in released
  {
    ForestOnce(h);
    var all := PostIds(h, 0);
    var i :| 0 <= i < |todo| && todo[i] == k;
    assert all[|released| + i] == k;
    assert forall j :: 0 <= j < |released| ==> released[j] == all[j] != k;
  }

  lemma ReleaseShape(h: Arena, g: Arena, released: seq<int>, op: int)
    requires ReleaseWalk(h, g, released, op)
    ensures Linked(h) && |g| == |h| && IsPtr(h, op)
    ensures released <= PostIds(h, 0) && |released| <= |h|
    ensures op != NULL ==> NULL <= g[op].parent < op && op !in released
    ensures op == NULL ==> released == PostIds(h, 0)
  {
    ForestOnce(h);
    if op != NULL {
      PostUnfold(h, op);
      InRight(if g[op].child == NULL then [] else PostIds(h, h[op].child), [op] + PostFollow(h, op), op);
      TodoNotReleased(h, released, PostRest(h, op, g[op].child == NULL), op);
      Links(h, op);
      assert ClearedAt(h, g, released, op, op);
    }
  }

  // The walk goes down to the first child.
  lemma ReleaseDown(h: Arena, g: Arena, released: seq<int>, op: int)
    requires ReleaseWalk(h, g, released, op) && op != NULL && g[op].child != NULL
    ensures g[op].child == h[op].child && op < g[op].child < |h|
    ensures ReleaseWalk(h, g, released, g[op].child)
  {
    assert ClearedAt(h, g, released, op, op);
    var c := h[op].child;
    Links(h, op);
    PostDown(h, op);
    PostUnfold(h, c);
    assert c in PostRest(h, c, false);
    NotCleared(h, g, released, op, PostRest(h, c, false), c);
    if g[c].child == NULL {
      PostLeaf(h, c);
    }
    forall k | 0 <= k < |h| ensures ClearedAt(h, g, released, c, k) {
      assert ClearedAt(h, g, released, op, k);
    }
  }

  // The arena after the walk has left a released node.
  function Left(g: Arena, op: int): Arena
    requires 0 <= op < |g| && NULL <= g[op].parent < |g|
  {
    if g[op].next == NULL && g[op].parent != NULL
    then g[g[op].parent := g[g[op].parent].(child := NULL)] else g
  }

  function LeftFor(g: Arena, op: int): int
    requires 0 <= op < |g|
  {
    if g[op].next != NULL then g[op].next else g[op].parent
  }

  // A node without a child link is released once, after all its children, and the walk
  // goes on to the next sibling, or to the parent, whose child link is cleared.
  lemma ReleaseNext(h: Arena, g: Arena, released: seq<int>, op: int)
    requires ReleaseWalk(h, g, released, op) && op != NULL && g[op].child == NULL
    ensures op !in released
    ensures forall c :: 0 <= c < |h| && h[c].parent == op ==> c in released
    ensures NULL <= g[op].parent < |g|
    ensures ReleaseWalk(h, Left(g, op), released + [op], LeftFor(g, op))
  {
    forall c | 0 <= c < |h| && h[c].parent == op ensures c in released {
      ChildrenFirst(h, released, op, c);
    }
    ForestOnce(h);
    Links(h, op);
    PostUnfold(h, op);
    var all := PostIds(h, 0);
    assert all[|released|] == op;
    assert forall j :: 0 <= j < |released| ==> all[j] == released[j];
    assert ClearedAt(h, g, released, op, op);
    ReleaseNextWalk(h, g, released, op);
    ReleaseNextCleared(h, g, released, op);
  }

  lemma ReleaseNextWalk(h: Arena, g: Arena, released: seq<int>, op: int)
    requires ReleaseWalk(h, g, released, op) && op != NULL && g[op].child == NULL
    requires ClearedAt(h, g, released, op, op) && NULL <= g[op].parent < op
    ensures IsPtr(h, LeftFor(g, op)) && |Left(g, op)| == |h|
    ensures var q := LeftFor(g, op);
      released + [op] + PostRest(h, q, q != NULL && Left(g, op)[q].child == NULL) == PostIds(h, 0)
  {
    hide PostIds, PostFollow, PostRest, Linked;
    var q := LeftFor(g, op);
    Links(h, op);
    PostNext(h, op);
    PostNull(h);
    SeqAssoc(released, [op], PostFollow(h, op));
    if h[op].next != NULL {
      PostUnfold(h, q);
      var todo := PostRest(h, q, false);
      assert [op] + todo == PostRest(h, op, true);
      assert q in [op] + todo by {
        assert PostRest(h, q, false)[|PostIds(h, h[q].child)|] == q;
      }
      NotCleared(h, g, released, op, [op] + todo, q);
      if g[q].child == NULL {
        PostLeaf(h, q);
      }
    }
  }

  lemma ReleaseNextCleared(h: Arena, g: Arena, released: seq<int>, op: int)
    requires Linked(h) && 0 <= op < |h| == |g|
    requires forall k :: 0 <= k < |h| ==> ClearedAt(h, g, released, op, k)
    ensures NULL <= g[op].parent < |g|
    ensures forall k :: 0 <= k < |h| ==> ClearedAt(h, Left(g, op), released + [op], LeftFor(g, op), k)
  {
    Links(h, op);
    assert ClearedAt(h, g, released, op, op);
    forall k | 0 <= k < |h| ensures ClearedAt(h, Left(g, op), released + [op], LeftFor(g, op), k) {
      assert ClearedAt(h, g, released, op, k);
      assert (released + [op])[|released|] == op;
      if k in released {
        var j :| 0 <= j < |released| && released[j] == k;
        assert (released + [op])[j] == k;
      }
    }
  }
}
