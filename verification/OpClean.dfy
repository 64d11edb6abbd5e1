// Cleaning the forest from its first node while a releasing walk is under way: the
// clean walk goes down the first children, and this says what it meets there.
module OpClean {
  import opened OpForest
  import opened OpScan
  import opened OpWalks

  // p and all its ancestors are first among their siblings.
  ghost predicate OnLine(h: Arena, p: int)
    requires Linked(h) && h != [] && IsPtr(h, p)
    decreases p
  {
    p == 0 || (
      && p > 0 && NULL < ParentOf(h, p) && h[ParentOf(h, p)].child == p && OnLine(h, ParentOf(h, p)))
  }

  ghost function ParentOf(h: Arena, p: int): (q: int)
    requires Linked(h) && 0 <= p < |h|
    ensures q == h[p].parent && NULL <= q < p
  {
    assert LinkedAt(h, p);
    h[p].parent
  }

  // e is p or an ancestor of p.
  ghost predicate Above(h: Arena, e: int, p: int)
    requires Linked(h) && IsPtr(h, p)
    decreases p
  {
    p != NULL && (e == p || Above(h, e, ParentOf(h, p)))
  }

  // Where the line of first children meets the siblings of p or of an ancestor of p.
  ghost function Meet(h: Arena, p: int): (f: int)
    requires Linked(h) && h != [] && IsPtr(h, p)
    decreases p
  {
    if p == NULL || h[p].parent == NULL then 0
    else if OnLine(h, ParentOf(h, p)) then h[ParentOf(h, p)].child
    else Meet(h, ParentOf(h, p))
  }

  lemma {:induction false} MeetIsOnLine(h: Arena, p: int)
    requires Linked(h) && h != [] && h[0].parent == NULL && IsPtr(h, p)
    ensures IsPtr(h, Meet(h, p)) && OnLine(h, Meet(h, p))
    ensures Meet(h, p) == p <==> OnLine(h, p)
    decreases p
  {
    if p > 0 && h[p].parent != NULL {
      var up := ParentOf(h, p);
      Links(h, p);
      Links(h, up);
      assert LinkedAt(h, p);
      MeetIsOnLine(h, up);
      if !OnLine(h, up) && Meet(h, p) == p {
        AboveOnLine(h, up, p);
        assert false;
      }
    }
  }

  lemma {:induction false} AboveOnLine(h: Arena, e: int, p: int)
    requires Linked(h) && h != [] && IsPtr(h, p) && h[0].parent == NULL
    requires Above(h, e, p) && OnLine(h, p)
    ensures IsPtr(h, e) && OnLine(h, e) && Above(h, 0, p)
    ensures e != p ==> IsPtr(h, h[e].child) && e < h[e].child && Above(h, h[e].child, p)
    decreases p
  {
    if p != 0 {
      var up := ParentOf(h, p);
      Links(h, up);
      if e == p {
        AboveOnLine(h, up, up);
      } else {
        AboveOnLine(h, e, up);
        if e == up {
          assert Above(h, p, p);
        }
      }
    }
  }

  // The nodes above the meeting point are above p.
  lemma {:induction false} MeetAbove(h: Arena, p: int, e: int)
    requires Linked(h) && h != [] && h[0].parent == NULL && IsPtr(h, p)
    requires IsPtr(h, Meet(h, p)) && Above(h, e, Meet(h, p)) && e != Meet(h, p)
    ensures p != NULL && Above(h, e, p) && e != p
    decreases p
  {
    if p != NULL && h[p].parent != NULL {
      var up := ParentOf(h, p);
      Links(h, up);
      if OnLine(h, up) {
        assert LinkedAt(h, up) && LinkedAt(h, p);
        assert Above(h, e, up);
        AboveLower(h, e, up);
      } else {
        MeetAbove(h, up, e);
        AboveLower(h, e, up);
      }
    }
  }

  lemma {:induction false} AboveLower(h: Arena, e: int, p: int)
    requires Linked(h) && IsPtr(h, p) && Above(h, e, p)
    ensures e <= p
    decreases p
  {
    if e != p {
      AboveLower(h, e, ParentOf(h, p));
    }
  }

  // Ancestors are released later.
  lemma {:induction false} AboveFollows(h: Arena, e: int, p: int)
    requires Linked(h) && 0 <= p < |h| && Above(h, e, p) && e != p
    ensures e in PostFollow(h, p)
    decreases p
  {
    var up := ParentOf(h, p);
    PostUnfold(h, p);
    PostUnfold(h, up);
    assert e in PostRest(h, up, true) by {
      if e != up {
        AboveFollows(h, e, up);
      } else {
        assert PostRest(h, up, true)[0] == e;
      }
    }
  }

  lemma {:induction false} TopIsAbove(h: Arena, k: int, p: int)
    requires Linked(h) && 0 <= k < |h| && 0 <= p < |h| && h[Top(h, k, p)].parent == p
    ensures Above(h, p, k)
    decreases k
  {
    Links(h, k);
    assert Above(h, p, p);
    if h[k].parent != p {
      TopIsAbove(h, h[k].parent, p);
    }
  }

  // A node met in a traversal is not before the first child of its parent.
  lemma {:induction false} FirstLeast(h: Arena, p: int, k: int)
    requires Linked(h) && 0 <= p < |h| && k in PreIds(h, p)
    ensures 0 <= k < |h|
    ensures h[k].parent != h[p].parent ==>
      0 <= h[k].parent < k && 0 <= h[h[k].parent].child <= k
    decreases |h| - p
  {
    Links(h, p);
    if k != p {
      if h[p].child != NULL && k in PreIds(h, h[p].child) {
        FirstLeast(h, h[p].child, k);
        PreTop(h, h[p].child, k);
      } else {
        FirstLeast(h, h[p].next, k);
      }
    }
  }

  // The meeting point, if it is not p itself, is not released after p.
  lemma {:induction false} MeetNotAfter(h: Arena, p: int)
    requires Forest(h) && 0 <= p < |h| && !OnLine(h, p)
    ensures Meet(h, p) !in PostFollow(h, p)
    decreases p
  {
    var f, up, q := Meet(h, p), ParentOf(h, p), h[p].next;
    MeetIsOnLine(h, p);
    Links(h, p);
    PostUnfold(h, p);
    PostNull(h);
    if q != NULL && f in PostIds(h, q) {
      MeetNotUnder(h, p);
      assert false;
    }
    if up == NULL {
      assert PostRest(h, NULL, true) == [];
    } else {
      PostUnfold(h, up);
      Links(h, up);
      if OnLine(h, up) {
        TopThrough(h, f, up);
        FollowNotBelow(h, up, f);
      } else {
        MeetIsOnLine(h, up);
        MeetNotAfter(h, up);
      }
      NotInConcat([up], PostFollow(h, up), f);
    }
    NotInConcat(PostIds(h, q), PostRest(h, up, true), f);
  }

  lemma MeetNotUnder(h: Arena, p: int)
    requires Forest(h) && 0 <= p < |h| && !OnLine(h, p)
    requires 0 <= h[p].next < |h|
    ensures Meet(h, p) !in PostIds(h, h[p].next)
  {
    var f, up, q := Meet(h, p), ParentOf(h, p), h[p].next;
    MeetIsOnLine(h, p);
    Links(h, p);
    if f in PostIds(h, q) {
      PostIsPre(h, q, f);
      PreTop(h, q, f);
      if up != NULL {
        Links(h, up);
        if OnLine(h, up) {
          ForestOnce(h);
          ListsAll(PreIds(h, 0), |h|, p);
          FirstLeast(h, 0, p);
        } else {
          TopIsAbove(h, f, up);
          AboveOnLine(h, up, f);
        }
      }
      assert false;
    }
  }

  // What the clean walk meets first is released already, unless it is the node at which
  // the releasing walk stands.
  lemma {:induction false} MeetReleased(h: Arena, released: seq<int>, at: int, clear: bool)
    requires Forest(h) && h != [] && IsPtr(h, at) && !OnLine(h, at)
    requires released + PostRest(h, at, clear) == PostIds(h, 0)
    ensures Meet(h, at) in released
    decreases |h| - at
  {
    MeetIsOnLine(h, at);
    ForestOnce(h);
    ListsAll(PostIds(h, 0), |h|, Meet(h, at));
    if at == NULL {
      PostNull(h);
      assert released + [] == released;
    } else if !clear && h[at].child != NULL {
      Links(h, at);
      PostDown(h, at);
      MeetReleased(h, released, h[at].child, false);
    } else {
      PostUnfold(h, at);
      if !clear {
        PostLeaf(h, at);
      }
      MeetNotAfter(h, at);
      NotInConcat([at], PostFollow(h, at), Meet(h, at));
      InLeft(released, PostRest(h, at, true), Meet(h, at));
    }
  }

  // The child links down to the meeting point are in place, and nothing there is
  // released, but perhaps the meeting point itself.
  lemma LineDown(h: Arena, g: Arena, released: seq<int>, at: int, e: int)
    requires ReleaseWalk(h, g, released, at)
    requires IsPtr(h, Meet(h, at)) && Above(h, e, Meet(h, at)) && e != Meet(h, at)
    ensures 0 <= e < |h| && e !in released && g[e].child == h[e].child
    ensures e < g[e].child < |h| && Above(h, g[e].child, Meet(h, at))
  {
    hide PostRest, PostFollow, PostIds, PreIds, Top, Above, OnLine;
    MeetIsOnLine(h, at);
    MeetAbove(h, at, e);
    AboveOnLine(h, e, Meet(h, at));
    AboveFollows(h, e, at);
    PostUnfold(h, at);
    var clear := g[at].child == NULL;
    var todo := PostRest(h, at, clear);
    InRight(if clear then [at] else PostIds(h, h[at].child) + [at], PostFollow(h, at), e);
    NotCleared(h, g, released, at, todo, e);
    TodoNotReleased(h, released, todo, e);
  }

  // The clean walk at e: on its way down to the meeting point, or, once there, on the
  // way the releasing walk would have taken from at.
  ghost predicate Cleaning(h: Arena, g: Arena, released: seq<int>, at: int, e: int, there: bool) {
    && Forest(h) && h != [] && IsPtr(h, at)
    && if there then OnLine(h, at) && ReleaseWalk(h, g, released, e)
       else ReleaseWalk(h, g, released, at) && IsPtr(h, Meet(h, at)) && Above(h, e, Meet(h, at))
  }

  lemma CleanStarts(h: Arena, g: Arena, released: seq<int>, at: int)
    requires ReleaseWalk(h, g, released, at)
    ensures Cleaning(h, g, released, at, 0, false)
  {
    MeetIsOnLine(h, at);
    assert Above(h, Meet(h, at), Meet(h, at));
    AboveOnLine(h, Meet(h, at), Meet(h, at));
  }

  lemma CleanDown(h: Arena, g: Arena, released: seq<int>, at: int, e: int)
    requires Cleaning(h, g, released, at, e, false) && e != at
    ensures 0 <= e < |h| == |g|
    ensures e in released ==> !OnLine(h, at)
    ensures e !in released ==> e < g[e].child < |h| && Cleaning(h, g, released, at, g[e].child, false)
  {
    hide ReleaseWalk, Above, OnLine;
    ReleaseShape(h, g, released, at);
    MeetIsOnLine(h, at);
    if e == Meet(h, at) {
      MeetHere(h, g, released, at);
    } else {
      LineDown(h, g, released, at, e);
    }
  }

  lemma MeetHere(h: Arena, g: Arena, released: seq<int>, at: int)
    requires ReleaseWalk(h, g, released, at) && Meet(h, at) != at
    ensures !OnLine(h, at) && 0 <= Meet(h, at) < |h| && Meet(h, at) in released
  {
    MeetIsOnLine(h, at);
    MeetReleased(h, released, at, at != NULL && g[at].child == NULL);
    var i :| 0 <= i < |released| && released[i] == Meet(h, at);
    assert PostIds(h, 0)[i] == Meet(h, at);
  }

  // One turn of the clean walk.
  lemma CleanTurn(h: Arena, g: Arena, released: seq<int>, at: int, e: int, there: bool)
    requires Cleaning(h, g, released, at, e, there) && (e == NULL ==> there)
    ensures |g| == |h| && |released| <= |h| && IsPtr(h, e)
    ensures e == NULL ==> OnLine(h, at) && released == PostIds(h, 0)
    ensures e != NULL ==> NULL <= g[e].parent < |g|
    ensures e != NULL && e in released ==> !OnLine(h, at)
    ensures e != NULL && e !in released && g[e].child != NULL ==>
      e < g[e].child < |h| && Cleaning(h, g, released, at, g[e].child, there || e == at)
    ensures e != NULL && e !in released && g[e].child == NULL ==>
      (there || e == at) && Cleaning(h, Left(g, e), released + [e], at, LeftFor(g, e), true)
  {
    hide ReleaseWalk, Above, OnLine, Meet, Forest;
    if there || e == at {
      if !there {
        MeetOnLine(h, at);
      }
      ReleaseShape(h, g, released, e);
      if e != NULL && g[e].child != NULL {
        ReleaseDown(h, g, released, e);
        Links(h, e);
      } else if e != NULL {
        ReleaseNext(h, g, released, e);
      }
    } else {
      CleanDown(h, g, released, at, e);
      ReleaseShape(h, g, released, at);
      ReleaseParent(h, g, released, at, e);
    }
  }

  lemma ReleaseParent(h: Arena, g: Arena, released: seq<int>, op: int, k: int)
    requires ReleaseWalk(h, g, released, op) && 0 <= k < |h|
    ensures NULL <= g[k].parent < k
  {
    assert ClearedAt(h, g, released, op, k);
    Links(h, k);
  }

  // The walk to the meeting point comes to at only if at is the meeting point.
  lemma MeetOnLine(h: Arena, at: int)
    requires Forest(h) && h != [] && IsPtr(h, at)
    requires IsPtr(h, Meet(h, at)) && Above(h, at, Meet(h, at))
    ensures OnLine(h, at)
  {
    MeetIsOnLine(h, at);
    AboveOnLine(h, at, Meet(h, at));
  }
}
