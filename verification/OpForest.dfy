// The forest of file operations: nodes linked by first child, next sibling and parent.
// Nodes live in an arena, a sequence that only grows; a pointer is an index, NULL is -1.
// A node is always allocated after its parent and after the siblings before it.
module OpForest {

  const NULL: int := -1

  datatype Node = Node(name: string, folder: bool, size: nat, parent: int, child: int, next: int)

  type Arena = seq<Node>

  // Links stay in the arena, and neighbours agree on the parent.
  ghost predicate LinkedAt(h: Arena, i: int)
    requires 0 <= i < |h|
  {
    && NULL <= h[i].parent < i
    && (h[i].parent == NULL || h[h[i].parent].child != NULL)
    && (h[i].child == NULL || (i < h[i].child < |h| && h[h[i].child].parent == i))
    && (h[i].next == NULL || (i < h[i].next < |h| && h[h[i].next].parent == h[i].parent))
  }

  ghost predicate Linked(h: Arena) {
    forall i :: 0 <= i < |h| ==> LinkedAt(h, i)
  }

  predicate IsPtr(h: Arena, p: int) {
    NULL <= p < |h|
  }

  // The siblings from p on.
  ghost function SibIds(h: Arena, p: int): (s: seq<int>)
    requires Linked(h) && IsPtr(h, p)
    ensures p == NULL <==> s == []
    ensures forall i :: 0 <= i < |s| ==> 0 <= s[i] < |h| && p <= s[i] && h[s[i]].parent == h[p].parent
    decreases if p == NULL then 0 else |h| - p
  {
    if p == NULL then []
    else
      assert LinkedAt(h, p);
      [p] + SibIds(h, h[p].next)
  }

  // What a pre-order walk that stands at p has still to visit besides p's subtree:
  // the siblings after p, those after its parent, and so on.
  ghost function Pending(h: Arena, p: int): (s: seq<int>)
    requires Linked(h) && 0 <= p < |h|
    ensures forall i :: 0 <= i < |s| ==> 0 <= s[i] < |h| && h[s[i]].parent < p
    decreases p
  {
    assert LinkedAt(h, p);
    SibIds(h, h[p].next) + if h[p].parent == NULL then [] else Pending(h, h[p].parent)
  }

  // The pre-order and the post-order of the subtrees of p and of the siblings after it.
  ghost function PreIds(h: Arena, p: int): (s: seq<int>)
    requires Linked(h) && IsPtr(h, p)
    ensures forall i :: 0 <= i < |s| ==> 0 <= s[i] < |h|
    decreases if p == NULL then 0 else |h| - p
  {
    if p == NULL then []
    else
      assert LinkedAt(h, p);
      [p] + PreIds(h, h[p].child) + PreIds(h, h[p].next)
  }

  ghost function PostIds(h: Arena, p: int): (s: seq<int>)
    requires Linked(h) && IsPtr(h, p)
    ensures forall i :: 0 <= i < |s| ==> 0 <= s[i] < |h|
    decreases if p == NULL then 0 else |h| - p
  {
    if p == NULL then []
    else
      assert LinkedAt(h, p);
      PostIds(h, h[p].child) + [p] + PostIds(h, h[p].next)
  }

  ghost predicate Distinct(s: seq<int>) {
    forall i, j :: 0 <= i < j < |s| ==> s[i] != s[j]
  }

  // s lists 0, 1, ..., n - 1, each once.
  ghost predicate Lists(s: seq<int>, n: nat) {
    |s| == n && Distinct(s) && forall i :: 0 <= i < |s| ==> 0 <= s[i] < n
  }

  // 0, 1, ..., n - 1 without i.
  ghost function Others(n: nat, i: int): (s: set<int>)
    ensures forall k :: k in s <==> 0 <= k < n && k != i
    ensures |s| == if 0 <= i < n then n - 1 else n
  {
    if n == 0 then {} else Others(n - 1, i) + if n - 1 == i then {} else {n - 1}
  }

  lemma {:induction false} DistinctFits(s: seq<int>, from: set<int>)
    requires Distinct(s) && forall i :: 0 <= i < |s| ==> s[i] in from
    ensures |s| <= |from|
  {
    if s != [] {
      var last := s[|s| - 1];
      var rest := s[..|s| - 1];
      assert forall i :: 0 <= i < |rest| ==> rest[i] == s[i] && rest[i] in from - {last};
      DistinctFits(rest, from - {last});
    }
  }

  // n different numbers below n are all of them.
  lemma ListsAll(s: seq<int>, n: nat, i: int)
    requires Lists(s, n) && 0 <= i < n
    ensures i in s
  {
    if i !in s {
      DistinctFits(s, Others(n, i));
    }
  }

  // ------------------------------------------------- changing one list only

  // Sibling lists are not touched by changes to children of another node.
  lemma SibFrame(h: Arena, g: Arena, p: int)
    requires Linked(h) && Linked(g) && |h| <= |g| && IsPtr(h, p)
    requires p != NULL ==>
      forall k :: 0 <= k < |h| && h[k].parent == h[p].parent ==>
        g[k].next == h[k].next && g[k].parent == h[k].parent
    ensures SibIds(g, p) == SibIds(h, p)
    decreases if p == NULL then 0 else |h| - p
  {
    if p != NULL {
      assert LinkedAt(h, p) && LinkedAt(g, p);
      SibFrame(h, g, h[p].next);
    }
  }

  // What is pending at p is not touched by changes below p.
  lemma PendingFrame(h: Arena, g: Arena, p: int)
    requires Linked(h) && Linked(g) && |h| <= |g| && 0 <= p < |h|
    requires forall k :: 0 <= k < |h| && h[k].parent < p ==>
      g[k].next == h[k].next && g[k].parent == h[k].parent
    ensures Pending(g, p) == Pending(h, p)
    decreases p
  {
    assert LinkedAt(h, p) && LinkedAt(g, p);
    SibFrame(h, g, h[p].next);
    if h[p].parent != NULL {
      PendingFrame(h, g, h[p].parent);
    }
  }

  // ------------------------------------------------------- growing the arena

  predicate Fresh(n: Node, parent: int) {
    n.parent == parent && n.child == NULL && n.next == NULL
  }

  // The last of the siblings from p on.
  ghost function LastId(h: Arena, p: int): (t: int)
    requires Linked(h) && 0 <= p < |h|
    ensures p <= t < |h| && h[t].next == NULL && h[t].parent == h[p].parent
    ensures t == p <==> h[p].next == NULL
    decreases |h| - p
  {
    assert LinkedAt(h, p);
    if h[p].next == NULL then p else LastId(h, h[p].next)
  }

  // A new node linked behind the last sibling.
  function LinkedBehind(h: Arena, t: int, n: Node): Arena
    requires 0 <= t < |h|
  {
    h[t := h[t].(next := |h|)] + [n]
  }

  lemma LinkBehind(h: Arena, p: int, n: Node)
    requires Linked(h) && 0 <= p < |h| && Fresh(n, h[p].parent)
    ensures var g := LinkedBehind(h, LastId(h, p), n);
      Linked(g) && SibIds(g, p) == SibIds(h, p) + [|h|]
  {
    var t := LastId(h, p);
    LinkKeeps(h, t, n);
    var g := LinkedBehind(h, t, n);
    assert g[t].next == |h| && g[|h|].next == NULL;
    assert forall i :: 0 <= i < |h| && i != t ==> g[i].next == h[i].next;
    SibGrows(h, g, p, t);
  }

  // The sibling list that ends at t gets the node t was linked to.
  lemma SibGrows(h: Arena, g: Arena, p: int, t: int)
    requires Linked(h) && Linked(g) && 0 <= p < |h| && |g| == |h| + 1 && t == LastId(h, p)
    requires g[t].next == |h| && g[|h|].next == NULL
    requires forall i :: 0 <= i < |h| && i != t ==> g[i].next == h[i].next
    ensures SibIds(g, p) == SibIds(h, p) + [|h|]
    decreases |h| - p
  {
    assert LinkedAt(h, p) && LinkedAt(g, p);
    if p == t {
      assert SibIds(h, p) == [p];
      assert SibIds(g, |h|) == [|h|];
    } else {
      SibGrows(h, g, h[p].next, t);
    }
  }

  lemma LinkKeeps(h: Arena, t: int, n: Node)
    requires Linked(h) && 0 <= t < |h| && h[t].next == NULL && Fresh(n, h[t].parent)
    ensures Linked(LinkedBehind(h, t, n))
  {
    var g := LinkedBehind(h, t, n);
    assert LinkedAt(h, t);
    forall i | 0 <= i < |g| ensures LinkedAt(g, i) {
      if i < |h| {
        assert LinkedAt(h, i);
      }
    }
  }

  // A new node as the only child of p.
  function LinkedBelow(h: Arena, p: int, n: Node): Arena
    requires 0 <= p < |h|
  {
    h[p := h[p].(child := |h|)] + [n]
  }

  lemma LinkBelow(h: Arena, p: int, n: Node)
    requires Linked(h) && 0 <= p < |h| && h[p].child == NULL && Fresh(n, p)
    ensures var g := LinkedBelow(h, p, n);
      Linked(g) && SibIds(g, g[p].child) == [|h|]
  {
    var g := LinkedBelow(h, p, n);
    forall i | 0 <= i < |g| ensures LinkedAt(g, i) {
      if i < |h| {
        assert LinkedAt(h, i);
      }
    }
    assert LinkedAt(g, |h|);
    assert SibIds(g, |h|) == [|h|];
  }

  // A node added to the children of p, wherever it is linked in.
  ghost function WithChild(h: Arena, p: int, n: Node): Arena
    requires Linked(h) && 0 <= p < |h|
  {
    assert LinkedAt(h, p);
    if h[p].child == NULL then LinkedBelow(h, p, n) else LinkedBehind(h, LastId(h, h[p].child), n)
  }

  // Adding a child to p makes its list of children one longer and changes neither what
  // is pending at p nor the children of any other node.
  lemma AddChild(h: Arena, p: int, n: Node)
    requires Linked(h) && 0 <= p < |h| && Fresh(n, p)
    ensures var g := WithChild(h, p, n);
      && Linked(g) && |g| == |h| + 1 && g[|h|] == n && IsPtr(g, g[p].child)
      && SibIds(g, g[p].child) == SibIds(h, h[p].child) + [|h|]
      && Pending(g, p) == Pending(h, p)
  {
    var g := WithChild(h, p, n);
    assert LinkedAt(h, p);
    if h[p].child == NULL {
      LinkBelow(h, p, n);
    } else {
      LinkBehind(h, h[p].child, n);
    }
    assert forall k :: 0 <= k < |h| && h[k].parent < p ==>
      g[k].next == h[k].next && g[k].parent == h[k].parent;
    PendingFrame(h, g, p);
  }

  lemma AddChildChanges(h: Arena, p: int, n: Node)
    requires Linked(h) && 0 <= p < |h|
    ensures var g := WithChild(h, p, n);
      && |g| == |h| + 1 && g[|h|] == n
      && (forall k :: 0 <= k < |h| && h[k].parent != p ==> g[k].next == h[k].next)
      && (forall k :: 0 <= k < |h| && k != p ==> g[k].child == h[k].child)
      && forall k :: 0 <= k < |h| ==> g[k] == h[k].(next := g[k].next, child := g[k].child)
  {
    assert LinkedAt(h, p);
  }

  lemma AddChildFrame(h: Arena, p: int, n: Node, i: int)
    requires Linked(h) && 0 <= p < |h| && Fresh(n, p)
    requires 0 <= i < |h| && i != p
    ensures var g := WithChild(h, p, n);
      && Linked(g) && |g| == |h| + 1 && g[i].child == h[i].child && IsPtr(h, h[i].child)
      && SibIds(g, g[i].child) == SibIds(h, h[i].child)
  {
    AddChild(h, p, n);
    AddChildChanges(h, p, n);
    hide WithChild;
    assert LinkedAt(h, i);
    SibFrame(h, WithChild(h, p, n), h[i].child);
  }

  // Adding a root behind the last one.
  lemma AddRoot(h: Arena, n: Node)
    requires Linked(h) && |h| > 0 && Fresh(n, NULL) && h[0].parent == NULL
    requires forall i :: 0 <= i < |h| ==> h[i].child == NULL
    ensures var g := LinkedBehind(h, LastId(h, 0), n);
      && Linked(g) && SibIds(g, 0) == SibIds(h, 0) + [|h|]
      && forall i :: 0 <= i < |g| ==> g[i].child == NULL
  {
    LinkBehind(h, 0, n);
  }

  // ------------------------------------------- every node once in a traversal

  // The ancestor of k, or k itself, that has the given parent, when there is one.
  ghost function Top(h: Arena, k: int, parent: int): (t: int)
    requires Linked(h) && 0 <= k < |h|
    ensures 0 <= t <= k
    decreases k
  {
    assert LinkedAt(h, k);
    if h[k].parent == parent || h[k].parent == NULL then k else Top(h, h[k].parent, parent)
  }

  lemma TopThrough(h: Arena, k: int, p: int)
    requires Linked(h) && 0 <= k < |h| && 0 <= p < |h|
    requires h[Top(h, k, p)].parent == p
    ensures Top(h, k, h[p].parent) == p
    decreases k
  {
    assert LinkedAt(h, k) && LinkedAt(h, p);
    if h[k].parent != p {
      TopThrough(h, h[k].parent, p);
      TopAbove(h, h[k].parent, p);
    }
  }

  lemma TopAbove(h: Arena, k: int, p: int)
    requires Linked(h) && 0 <= k < |h| && 0 <= p
    requires h[Top(h, k, p)].parent == p
    ensures p < k
    decreases k
  {
    assert LinkedAt(h, k);
    if h[k].parent != p {
      TopAbove(h, h[k].parent, p);
    }
  }

  // A node met below p or behind it hangs under p or under a later sibling.
  lemma {:induction false} PreTop(h: Arena, p: int, k: int)
    requires Linked(h) && 0 <= p < |h| && k in PreIds(h, p)
    ensures 0 <= k < |h| && p <= Top(h, k, h[p].parent)
    ensures h[Top(h, k, h[p].parent)].parent == h[p].parent
    decreases |h| - p
  {
    assert LinkedAt(h, p);
    var c, q := h[p].child, h[p].next;
    if k == p {
    } else if c != NULL && k in PreIds(h, c) {
      PreTop(h, c, k);
      TopThrough(h, k, p);
    } else {
      assert k in PreIds(h, q);
      PreTop(h, q, k);
    }
  }

  // The two parts of a traversal have nothing in common.
  lemma PreDisjoint(h: Arena, p: int, k: int)
    requires Linked(h) && 0 <= p < |h|
    ensures IsPtr(h, h[p].child) && IsPtr(h, h[p].next)
    ensures !(k in PreIds(h, h[p].child) && k in PreIds(h, h[p].next))
    ensures k in PreIds(h, h[p].child) || k in PreIds(h, h[p].next) ==> k != p
  {
    assert LinkedAt(h, p);
    if h[p].child != NULL && k in PreIds(h, h[p].child) {
      PreTop(h, h[p].child, k);
      TopThrough(h, k, p);
    }
    if h[p].next != NULL && k in PreIds(h, h[p].next) {
      PreTop(h, h[p].next, k);
    }
  }

  lemma DistinctConcat(a: seq<int>, b: seq<int>)
    requires Distinct(a) && Distinct(b)
    requires forall k :: k in a ==> k !in b
    ensures Distinct(a + b)
  {
    forall i, j | 0 <= i < j < |a + b| ensures (a + b)[i] != (a + b)[j] {
      if i < |a| <= j {
        assert a[i] in a && b[j - |a|] in b;
      }
    }
  }

  lemma {:induction false} PreDistinct(h: Arena, p: int)
    requires Linked(h) && IsPtr(h, p)
    ensures Distinct(PreIds(h, p))
    decreases if p == NULL then 0 else |h| - p
  {
    if p != NULL {
      assert LinkedAt(h, p);
      var a, b := PreIds(h, h[p].child), PreIds(h, h[p].next);
      PreDistinct(h, h[p].child);
      PreDistinct(h, h[p].next);
      forall k | k in a ensures k !in b && k != p { PreDisjoint(h, p, k); }
      forall k | k in b ensures k != p { PreDisjoint(h, p, k); }
      DistinctConcat([p], a);
      DistinctConcat([p] + a, b);
    }
  }

  lemma {:induction false} PostIsPre(h: Arena, p: int, k: int)
    requires Linked(h) && IsPtr(h, p)
    ensures k in PostIds(h, p) <==> k in PreIds(h, p)
    ensures |PostIds(h, p)| == |PreIds(h, p)|
    decreases if p == NULL then 0 else |h| - p
  {
    if p != NULL {
      assert LinkedAt(h, p);
      PostIsPre(h, h[p].child, k);
      PostIsPre(h, h[p].next, k);
    }
  }

  lemma {:induction false} PostDistinct(h: Arena, p: int)
    requires Linked(h) && IsPtr(h, p)
    ensures Distinct(PostIds(h, p))
    decreases if p == NULL then 0 else |h| - p
  {
    if p != NULL {
      assert LinkedAt(h, p);
      var a, b := PostIds(h, h[p].child), PostIds(h, h[p].next);
      PostDistinct(h, h[p].child);
      PostDistinct(h, h[p].next);
      forall k | k in a ensures k !in b && k != p {
        PostIsPre(h, h[p].child, k);
        PostIsPre(h, h[p].next, k);
        PreDisjoint(h, p, k);
      }
      forall k | k in b ensures k != p {
        PostIsPre(h, h[p].next, k);
        PreDisjoint(h, p, k);
      }
      DistinctConcat(a, [p]);
      DistinctConcat(a + [p], b);
    }
  }

  // All nodes are reached from the first one.
  ghost predicate Forest(h: Arena) {
    Linked(h) && (h != [] ==> h[0].parent == NULL && |PreIds(h, 0)| == |h|)
  }

  lemma ForestOnce(h: Arena)
    requires Forest(h) && h != []
    ensures Lists(PreIds(h, 0), |h|) && Lists(PostIds(h, 0), |h|)
  {
    PreDistinct(h, 0);
    PostDistinct(h, 0);
    PostIsPre(h, 0, 0);
  }
}
