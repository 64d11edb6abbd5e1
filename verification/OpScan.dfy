// Building the forest: the source directories are scanned, one entry per tick, while
// the walk that asks for the scans goes through the forest being built.
module OpScan {
  import opened Bytes
  import opened OpForest
  import opened OpItems

  // A path and a name under it: volume roots, such as 0:/, already end in a slash.
  function Join(path: string, name: string): string {
    (if |path| > 3 then path + "/" else path) + name
  }

  datatype ScanState = Cwd | Init | Dir

  predicate Within(ids: seq<int>, n: nat) {
    forall i :: 0 <= i < |ids| ==> 0 <= ids[i] < n
  }

  function Ents(ents: seq<Item>, ids: seq<int>): (s: seq<Item>)
    requires Within(ids, |ents|)
    ensures |s| == |ids|
    ensures forall i :: 0 <= i < |s| ==> s[i] == ents[ids[i]]
  {
    seq(|ids|, i requires 0 <= i < |ids| => ents[ids[i]])
  }

  lemma EntsConcat(ents: seq<Item>, a: seq<int>, b: seq<int>)
    requires Within(a, |ents|) && Within(b, |ents|)
    ensures Ents(ents, a + b) == Ents(ents, a) + Ents(ents, b)
  {
  }

  // ------------------------------------------------------------ one move

  // The node the walk goes to from p: the first child, else the next sibling, else the
  // next sibling of the nearest ancestor that has one.
  ghost function Succ(h: Arena, p: int): (q: int)
    requires Linked(h) && 0 <= p < |h|
    ensures IsPtr(h, q)
  {
    assert LinkedAt(h, p);
    if h[p].child != NULL then h[p].child else After(h, p)
  }

  ghost function After(h: Arena, p: int): (q: int)
    requires Linked(h) && 0 <= p < |h|
    ensures IsPtr(h, q)
    decreases p
  {
    assert LinkedAt(h, p);
    if h[p].next != NULL then h[p].next
    else if h[p].parent == NULL then NULL
    else After(h, h[p].parent)
  }

  ghost function Up(h: Arena, p: int): seq<int>
    requires Linked(h) && IsPtr(h, p)
  {
    if p == NULL then [] else Pending(h, p)
  }

  lemma Links(h: Arena, p: int)
    requires Linked(h) && 0 <= p < |h|
    ensures NULL <= h[p].parent < p && IsPtr(h, h[p].child) && IsPtr(h, h[p].next)
    ensures h[p].child != NULL ==> p < h[p].child && h[h[p].child].parent == p
    ensures h[p].next != NULL ==> p < h[p].next && h[h[p].next].parent == h[p].parent
  {
    assert LinkedAt(h, p);
  }

  lemma SibUnfold(h: Arena, p: int)
    requires Linked(h) && 0 <= p < |h|
    ensures IsPtr(h, h[p].next) && SibIds(h, p) == [p] + SibIds(h, h[p].next)
  {
    assert LinkedAt(h, p);
  }

  lemma PendUnfold(h: Arena, p: int)
    requires Linked(h) && 0 <= p < |h|
    ensures IsPtr(h, h[p].next) && IsPtr(h, h[p].parent)
    ensures Pending(h, p) == SibIds(h, h[p].next) + Up(h, h[p].parent)
  {
    assert LinkedAt(h, p);
  }

  lemma NextIsFirst(h: Arena, p: int)
    requires Linked(h) && 0 <= p < |h| && h[p].next != NULL
    ensures 0 <= h[p].next < |h|
    ensures Pending(h, p) == [h[p].next] + Pending(h, h[p].next)
  {
    hide Linked, SibIds, Pending, Up;
    var q := h[p].next;
    Links(h, p);
    PendUnfold(h, p);
    SibUnfold(h, q);
    PendUnfold(h, q);
    SeqAssoc([q], SibIds(h, h[q].next), Up(h, h[p].parent));
  }

  lemma UpIsPending(h: Arena, p: int)
    requires Linked(h) && 0 <= p < |h| && h[p].next == NULL
    ensures NULL <= h[p].parent < p
    ensures Pending(h, p) == if h[p].parent == NULL then [] else Pending(h, h[p].parent)
  {
    assert LinkedAt(h, p);
    assert SibIds(h, NULL) == [];
  }

  lemma AfterIsPending(h: Arena, p: int)
    requires Linked(h) && 0 <= p < |h|
    ensures var q := After(h, p);
      if q == NULL then Pending(h, p) == [] else Pending(h, p) == [q] + Pending(h, q)
    decreases p
  {
    hide LinkedAt, Linked, SibIds, Pending;
    if h[p].next != NULL {
      NextIsFirst(h, p);
    } else {
      UpIsPending(h, p);
      if h[p].parent != NULL {
        AfterIsPending(h, h[p].parent);
      }
    }
  }

  lemma ChildIsFirst(h: Arena, p: int)
    requires Linked(h) && 0 <= p < |h| && h[p].child != NULL
    ensures 0 <= h[p].child < |h|
    ensures SibIds(h, h[p].child) + Pending(h, p) == [h[p].child] + Pending(h, h[p].child)
  {
    hide Linked, SibIds, Pending;
    var c := h[p].child;
    Links(h, p);
    SibUnfold(h, c);
    PendUnfold(h, c);
    SeqAssoc([c], SibIds(h, h[c].next), Pending(h, p));
  }

  // The walk goes to the first of the nodes it has still to visit, and the rest is
  // what is pending there.
  lemma SuccIsNext(h: Arena, p: int)
    requires Linked(h) && 0 <= p < |h|
    ensures IsPtr(h, h[p].child)
    ensures var todo := SibIds(h, h[p].child) + Pending(h, p);
      var q := Succ(h, p);
      if q == NULL then todo == [] else todo == [q] + Pending(h, q)
  {
    hide Linked, Pending;
    Links(h, p);
    if h[p].child == NULL {
      AfterIsPending(h, p);
      assert SibIds(h, NULL) + Pending(h, p) == Pending(h, p);
    } else {
      ChildIsFirst(h, p);
    }
  }

  // The move, climbing with a loop.
  method GoOn(h: Arena, p: int) returns (q: int)
    requires Linked(h) && 0 <= p < |h|
    ensures q == Succ(h, p)
  {
    assert LinkedAt(h, p);
    if h[p].child != NULL {
      q := h[p].child;
    } else {
      q := GoOver(h, p);
    }
  }

  method GoOver(h: Arena, p: int) returns (q: int)
    requires Linked(h) && 0 <= p < |h|
    ensures q == After(h, p)
  {
    assert LinkedAt(h, p);
    if h[p].next != NULL {
      q := h[p].next;
    } else if h[p].parent != NULL {
      q := p;
      while h[q].parent != NULL && h[h[q].parent].next == NULL
        invariant 0 <= q < |h| && LinkedAt(h, q)
        invariant h[q].next == NULL
        invariant After(h, q) == After(h, p)
        decreases q
      {
        assert LinkedAt(h, h[q].parent);
        q := h[q].parent;
      }
      q := if h[q].parent != NULL then h[h[q].parent].next else NULL;
    } else {
      q := NULL;
    }
  }

  // ------------------------------------------------- the walk while it scans

  predicate Match(n: Node, x: Item) {
    n.name == x.name && n.folder == x.kind.Folder? && n.size == x.size
  }

  // The nodes below i are those of the entries the directory lists.
  ghost predicate FullAt(h: Arena, ents: seq<Item>, i: int)
    requires Linked(h) && |ents| == |h| && 0 <= i < |h| && IsPtr(h, h[i].child)
  {
    Ents(ents, SibIds(h, h[i].child)) == Kids(ents[i])
  }

  ghost predicate Shape(h: Arena, ents: seq<Item>, visited: seq<int>) {
    && Linked(h) && |ents| == |h|
    && Within(visited, |h|)
    && forall i :: 0 <= i < |h| ==> Match(h[i], ents[i])
  }

  // Visited nodes have all their children, the others none.
  ghost predicate FullBehind(h: Arena, ents: seq<Item>, visited: seq<int>, op: int)
    requires Shape(h, ents, visited)
  {
    && (forall i :: 0 <= i < |h| && i !in visited && i != op ==> h[i].child == NULL)
    && (forall i :: 0 <= i < |h| && i in visited ==> IsPtr(h, h[i].child) && FullAt(h, ents, i))
  }

  // The walk stands at op: every node is visited, op itself, one of its children, or
  // pending; and the visits made and to be made are the pre-order of the selection.
  ghost predicate Walking(h: Arena, ents: seq<Item>, roots: seq<Item>, visited: seq<int>, op: int) {
    && Shape(h, ents, visited)
    && 0 <= op < |h| && IsPtr(h, h[op].child)
    && Lists(visited + [op] + SibIds(h, h[op].child) + Pending(h, op), |h|)
    && Ents(ents, visited) + PreList([ents[op]] + Ents(ents, Pending(h, op))) == PreList(roots)
    && FullBehind(h, ents, visited, op)
  }

  // The walk is over.
  ghost predicate Walked(h: Arena, ents: seq<Item>, roots: seq<Item>, visited: seq<int>) {
    && Shape(h, ents, visited)
    && Lists(visited, |h|)
    && Ents(ents, visited) == PreList(roots)
    && forall i :: 0 <= i < |h| ==> IsPtr(h, h[i].child) && FullAt(h, ents, i)
  }

  // Of a directory open at op, the entries not yet looked at are dir.
  ghost predicate Scanning(h: Arena, ents: seq<Item>, op: int, dir: seq<Item>)
    requires Linked(h) && |ents| == |h| && 0 <= op < |h| && IsPtr(h, h[op].child)
  {
    Kids(ents[op]) == Ents(ents, SibIds(h, h[op].child)) + Listed(dir)
  }

  // Moving the boundary between what is visited and what is not.
  lemma MoveOnIds(visited: seq<int>, op: int, kids: seq<int>, pending: seq<int>, q: int, later: seq<int>, n: nat)
    requires Lists(visited + [op] + kids + pending, n)
    requires kids + pending == [q] + later
    ensures Lists((visited + [op]) + [q] + [] + later, n)
    ensures q !in visited + [op]
  {
    var s := visited + [op] + kids + pending;
    assert s == visited + [op] + (kids + pending);
    assert s == (visited + [op]) + [q] + [] + later;
    var k := |visited| + 1;
    assert s[k] == q;
    forall i | 0 <= i < k ensures (visited + [op])[i] != q {
      assert s[i] == (visited + [op])[i];
    }
  }

  lemma MoveOnFull(h: Arena, ents: seq<Item>, visited: seq<int>, op: int, q: int)
    requires Shape(h, ents, visited) && 0 <= op < |h| && IsPtr(h, h[op].child)
    requires FullBehind(h, ents, visited, op) && FullAt(h, ents, op)
    requires 0 <= q < |h| && q !in visited + [op]
    ensures Shape(h, ents, visited + [op])
    ensures FullBehind(h, ents, visited + [op], q) && h[q].child == NULL
  {
    hide Linked, FullAt, Match;
    assert q !in visited && q != op by {
      assert (visited + [op])[|visited|] == op;
      forall i | 0 <= i < |visited| ensures visited[i] != q {
        assert (visited + [op])[i] == visited[i];
      }
    }
    forall i | 0 <= i < |h| && i !in visited + [op] ensures i !in visited && i != op {
      assert (visited + [op])[|visited|] == op;
      forall j | 0 <= j < |visited| ensures visited[j] != i {
        assert (visited + [op])[j] == visited[j];
      }
    }
  }

  // A folder all of whose entries were looked at.
  lemma ScannedIs(h: Arena, ents: seq<Item>, op: int)
    requires Linked(h) && |ents| == |h| && 0 <= op < |h| && IsPtr(h, h[op].child)
    requires Scanning(h, ents, op, [])
    ensures FullAt(h, ents, op)
  {
    assert Listed([]) == [];
  }

  // The walk stands at a node without children.
  lemma WalkingAt(h: Arena, ents: seq<Item>, roots: seq<Item>, visited: seq<int>, q: int)
    requires Shape(h, ents, visited) && 0 <= q < |h| && h[q].child == NULL && FullBehind(h, ents, visited, q)
    requires Lists(visited + [q] + [] + Pending(h, q), |h|)
    requires Ents(ents, visited) + PreList(Ents(ents, [q] + Pending(h, q))) == PreList(roots)
    ensures Walking(h, ents, roots, visited, q)
  {
    hide PreList, Pending, Lists, Linked, Match, FullBehind;
    EntsConcat(ents, [q], Pending(h, q));
    assert Ents(ents, [q]) == [ents[q]];
    assert SibIds(h, NULL) == [];
  }

  // With all of op's entries in the forest the walk moves on.
  lemma MoveOn(h: Arena, ents: seq<Item>, roots: seq<Item>, visited: seq<int>, op: int)
    requires Walking(h, ents, roots, visited, op)
    requires Scanning(h, ents, op, [])
    ensures var q := Succ(h, op);
      q != NULL ==> Walking(h, ents, roots, visited + [op], q) && h[q].child == NULL
  {
    hide PreList, Below, Kids, SibIds, Pending, Succ, After, Lists, Linked, Match, FullBehind, Ents;
    var q := Succ(h, op);
    if q != NULL {
      var kids := SibIds(h, h[op].child);
      var pending := Pending(h, op);
      ScannedIs(h, ents, op);
      SuccIsNext(h, op);
      MoveOnItems(ents, roots, visited, op, kids, pending);
      MoveOnIds(visited, op, kids, pending, q, Pending(h, q), |h|);
      MoveOnFull(h, ents, visited, op, q);
      WalkingAt(h, ents, roots, visited + [op], q);
    }
  }

  // From the last node the walk goes nowhere, and has been everywhere.
  lemma MoveOff(h: Arena, ents: seq<Item>, roots: seq<Item>, visited: seq<int>, op: int)
    requires Walking(h, ents, roots, visited, op)
    requires Scanning(h, ents, op, [])
    ensures Succ(h, op) == NULL ==> Walked(h, ents, roots, visited + [op])
  {
    if Succ(h, op) == NULL {
      var kids := SibIds(h, h[op].child);
      var pending := Pending(h, op);
      SuccIsNext(h, op);
      MoveOnItems(ents, roots, visited, op, kids, pending);
      assert visited + [op] + kids + pending == visited + [op];
      EverywhereFull(h, ents, visited, op);
    }
  }

  lemma MoveOnItems(ents: seq<Item>, roots: seq<Item>, visited: seq<int>, op: int, kids: seq<int>, pending: seq<int>)
    requires Within(visited, |ents|) && Within(kids, |ents|) && Within(pending, |ents|) && 0 <= op < |ents|
    requires Ents(ents, visited) + PreList([ents[op]] + Ents(ents, pending)) == PreList(roots)
    requires Kids(ents[op]) == Ents(ents, kids)
    ensures Within(visited + [op], |ents|) && Within(kids + pending, |ents|)
    ensures Ents(ents, visited + [op]) + PreList(Ents(ents, kids + pending)) == PreList(roots)
  {
    hide Kids, Below, PreList;
    var x, rest := ents[op], Ents(ents, pending);
    BelowKids(x);
    PreListConcat(Kids(x), rest);
    EntsConcat(ents, visited, [op]);
    EntsConcat(ents, kids, pending);
    assert Ents(ents, [op]) == [x];
    hide Ents;
    PreListFirst(x, rest);
    SeqAssoc([x], Below(x), PreList(rest));
    SeqAssoc(Ents(ents, visited), [x], Below(x) + PreList(rest));
  }

  lemma PreListFirst(x: Item, rest: seq<Item>)
    ensures PreList([x] + rest) == [x] + Below(x) + PreList(rest)
  {
    assert ([x] + rest)[1..] == rest;
  }

  lemma EverywhereFull(h: Arena, ents: seq<Item>, visited: seq<int>, op: int)
    requires Shape(h, ents, visited) && 0 <= op < |h| && IsPtr(h, h[op].child)
    requires FullBehind(h, ents, visited, op) && FullAt(h, ents, op)
    requires Lists(visited + [op], |h|)
    ensures forall i :: 0 <= i < |h| ==> IsPtr(h, h[i].child) && FullAt(h, ents, i)
  {
    hide Linked, FullAt, Match;
    var s := visited + [op];
    forall i | 0 <= i < |h| ensures i in visited || i == op {
      ListsAll(s, |h|, i);
      var j :| 0 <= j < |s| && s[j] == i;
      assert j < |visited| ==> visited[j] == i;
    }
  }

  lemma EntsExtend(ents: seq<Item>, x: Item, ids: seq<int>)
    requires Within(ids, |ents|)
    ensures Ents(ents + [x], ids) == Ents(ents, ids)
  {
  }

  lemma ListsInsert(a: seq<int>, b: seq<int>, n: nat)
    requires Lists(a + b, n)
    ensures Lists(a + [n] + b, n + 1)
  {
    var s, t := a + b, a + [n] + b;
    forall i, j | 0 <= i < j < |t| ensures t[i] != t[j] {
      assert i != |a| ==> t[i] == s[if i < |a| then i else i - 1];
      assert j != |a| ==> t[j] == s[if j < |a| then j else j - 1];
    }
    forall i | 0 <= i < |t| ensures 0 <= t[i] < n + 1 {
      assert i != |a| ==> t[i] == s[if i < |a| then i else i - 1];
    }
  }

  lemma NotVisited(visited: seq<int>, op: int, kids: seq<int>, pending: seq<int>, n: nat)
    requires Lists(visited + [op] + kids + pending, n)
    ensures op !in visited
  {
    var all := visited + [op] + kids + pending;
    assert all[|visited|] == op;
    forall j | 0 <= j < |visited| ensures visited[j] != op {
      assert all[j] == visited[j];
    }
  }

  lemma AddEntryIds(h: Arena, visited: seq<int>, op: int, n: Node)
    requires Linked(h) && 0 <= op < |h| && IsPtr(h, h[op].child) && Fresh(n, op)
    requires Lists(visited + [op] + SibIds(h, h[op].child) + Pending(h, op), |h|)
    ensures var g := WithChild(h, op, n);
      && Linked(g) && |g| == |h| + 1 && IsPtr(g, g[op].child)
      && Lists(visited + [op] + SibIds(g, g[op].child) + Pending(g, op), |g|)
  {
    hide WithChild, Linked, Lists;
    AddChild(h, op, n);
    InsertBehind(visited + [op], SibIds(h, h[op].child), Pending(h, op), |h|);
  }

  lemma InsertBehind(head: seq<int>, kids: seq<int>, pending: seq<int>, n: nat)
    requires Lists(head + kids + pending, n)
    ensures Lists(head + (kids + [n]) + pending, n + 1)
  {
    hide Lists;
    ListsInsert(head + kids, pending, n);
    SeqAssoc(head, kids, [n]);
  }

  lemma AddEntryWalk(ents: seq<Item>, roots: seq<Item>, visited: seq<int>, op: int, pending: seq<int>, x: Item)
    requires Within(visited, |ents|) && Within(pending, |ents|) && 0 <= op < |ents|
    requires Ents(ents, visited) + PreList([ents[op]] + Ents(ents, pending)) == PreList(roots)
    ensures Within(visited, |ents + [x]|) && Within(pending, |ents + [x]|)
    ensures Ents(ents + [x], visited) + PreList([(ents + [x])[op]] + Ents(ents + [x], pending)) == PreList(roots)
  {
    EntsExtend(ents, x, visited);
    EntsExtend(ents, x, pending);
  }

  lemma AddEntryShape(h: Arena, ents: seq<Item>, visited: seq<int>, op: int, n: Node, x: Item)
    requires Shape(h, ents, visited) && 0 <= op < |h|
    requires Fresh(n, op) && Match(n, x)
    ensures Shape(WithChild(h, op, n), ents + [x], visited)
  {
    AddChild(h, op, n);
    AddChildChanges(h, op, n);
    hide WithChild, Linked;
    var g := WithChild(h, op, n);
    forall i | 0 <= i < |g| ensures Match(g[i], (ents + [x])[i]) {
      assert i < |h| ==> Match(h[i], ents[i]);
    }
  }

  lemma AddEntryFullAt(h: Arena, ents: seq<Item>, op: int, n: Node, x: Item, i: int)
    requires Linked(h) && |ents| == |h| && 0 <= op < |h| && Fresh(n, op)
    requires 0 <= i < |h| && i != op && IsPtr(h, h[i].child) && FullAt(h, ents, i)
    ensures var g := WithChild(h, op, n);
      && Linked(g) && |g| == |h| + 1 && IsPtr(g, g[i].child)
      && FullAt(g, ents + [x], i)
  {
    AddChildFrame(h, op, n, i);
    hide WithChild, Linked;
    EntsExtend(ents, x, SibIds(h, h[i].child));
  }

  lemma AddEntryFull(h: Arena, ents: seq<Item>, visited: seq<int>, op: int, n: Node, x: Item)
    requires Shape(h, ents, visited) && 0 <= op < |h| && op !in visited
    requires FullBehind(h, ents, visited, op)
    requires Fresh(n, op) && Match(n, x)
    ensures var g := WithChild(h, op, n);
      Shape(g, ents + [x], visited) && FullBehind(g, ents + [x], visited, op)
  {
    AddEntryShape(h, ents, visited, op, n, x);
    AddChildChanges(h, op, n);
    hide WithChild, Linked, FullAt, Match;
    var g := WithChild(h, op, n);
    forall i | 0 <= i < |g| && i in visited
      ensures IsPtr(g, g[i].child) && FullAt(g, ents + [x], i)
    {
      AddEntryFullAt(h, ents, op, n, x, i);
    }
  }

  lemma AddEntryScan(h: Arena, ents: seq<Item>, op: int, dir: seq<Item>, n: Node)
    requires Linked(h) && |ents| == |h| && 0 <= op < |h| && IsPtr(h, h[op].child)
    requires Scanning(h, ents, op, dir) && dir != [] && Wanted(dir[0]) && Fresh(n, op)
    ensures var g := WithChild(h, op, n);
      && Linked(g) && |g| == |h| + 1 && IsPtr(g, g[op].child)
      && Scanning(g, ents + [dir[0]], op, dir[1..])
  {
    AddChild(h, op, n);
    hide WithChild, Linked;
    var kids := SibIds(h, h[op].child);
    AddEntryKids(ents, op, kids, dir);
  }

  lemma AddEntryKids(ents: seq<Item>, op: int, kids: seq<int>, dir: seq<Item>)
    requires 0 <= op < |ents| && Within(kids, |ents|) && dir != [] && Wanted(dir[0])
    requires Kids(ents[op]) == Ents(ents, kids) + Listed(dir)
    ensures Within(kids + [|ents|], |ents| + 1)
    ensures Kids(ents[op]) == Ents(ents + [dir[0]], kids + [|ents|]) + Listed(dir[1..])
  {
    EntsSnoc(ents, kids, dir[0]);
    ListedHead(dir);
    hide *;
    SeqAssoc(Ents(ents, kids), [dir[0]], Listed(dir[1..]));
  }

  lemma EntsSnoc(ents: seq<Item>, kids: seq<int>, x: Item)
    requires Within(kids, |ents|)
    ensures Within(kids + [|ents|], |ents| + 1)
    ensures Ents(ents + [x], kids + [|ents|]) == Ents(ents, kids) + [x]
  {
  }

  lemma ListedHead(dir: seq<Item>)
    requires dir != [] && Wanted(dir[0])
    ensures Listed(dir) == [dir[0]] + Listed(dir[1..])
  {
  }


  // The node for the next directory entry goes behind op's other children; the walk
  // stands where it stood.
  lemma AddEntry(h: Arena, ents: seq<Item>, roots: seq<Item>, visited: seq<int>, op: int, dir: seq<Item>, n: Node)
    requires Walking(h, ents, roots, visited, op) && Scanning(h, ents, op, dir)
    requires dir != [] && Wanted(dir[0]) && Fresh(n, op) && Match(n, dir[0])
    ensures var g := WithChild(h, op, n);
      && Walking(g, ents + [dir[0]], roots, visited, op)
      && Scanning(g, ents + [dir[0]], op, dir[1..])
  {
    NotVisited(visited, op, SibIds(h, h[op].child), Pending(h, op), |h|);
    AddEntryIds(h, visited, op, n);
    AddEntryWalk(ents, roots, visited, op, Pending(h, op), dir[0]);
    AddEntryFull(h, ents, visited, op, n, dir[0]);
    AddEntryScan(h, ents, op, dir, n);
    AddChild(h, op, n);
  }

  // ------------------------------------------------------ the forest built

  // The subtrees from p on are the directory trees of the items, entry by entry.
  ghost predicate Mirrors(h: Arena, p: int, items: seq<Item>)
    requires Linked(h) && IsPtr(h, p)
    decreases if p == NULL then 0 else |h| - p
  {
    if p == NULL then items == []
    else
      assert LinkedAt(h, p);
      && items != [] && Match(h[p], items[0])
      && Mirrors(h, h[p].child, Kids(items[0]))
      && Mirrors(h, h[p].next, items[1..])
  }

  ghost predicate AllFull(h: Arena, ents: seq<Item>) {
    && Linked(h) && |ents| == |h|
    && (forall i :: 0 <= i < |h| ==> Match(h[i], ents[i]))
    && forall i :: 0 <= i < |h| ==> IsPtr(h, h[i].child) && FullAt(h, ents, i)
  }

  lemma EntsHead(ents: seq<Item>, p: int, rest: seq<int>)
    requires 0 <= p < |ents| && Within(rest, |ents|)
    ensures Within([p] + rest, |ents|)
    ensures var s := Ents(ents, [p] + rest);
      s != [] && s[0] == ents[p] && s[1..] == Ents(ents, rest)
  {
  }

  lemma {:induction false} FullMirrors(h: Arena, ents: seq<Item>, p: int)
    requires AllFull(h, ents) && IsPtr(h, p)
    ensures Mirrors(h, p, Ents(ents, SibIds(h, p)))
    decreases if p == NULL then 0 else |h| - p
  {
    if p != NULL {
      assert LinkedAt(h, p) && FullAt(h, ents, p);
      FullMirrors(h, ents, h[p].child);
      FullMirrors(h, ents, h[p].next);
      EntsHead(ents, p, SibIds(h, h[p].next));
    }
  }

  lemma {:induction false} MirrorsCount(h: Arena, p: int, items: seq<Item>)
    requires Linked(h) && IsPtr(h, p) && Mirrors(h, p, items)
    ensures |PreIds(h, p)| == |PreList(items)|
    decreases if p == NULL then 0 else |h| - p
  {
    if p != NULL {
      assert LinkedAt(h, p);
      MirrorsCount(h, h[p].child, Kids(items[0]));
      MirrorsCount(h, h[p].next, items[1..]);
      BelowKids(items[0]);
    }
  }

  // The selected entries are the first list of siblings.
  ghost predicate Rooted(h: Arena, ents: seq<Item>, roots: seq<Item>) {
    && Linked(h) && |ents| == |h| && h != [] && h[0].parent == NULL
    && Ents(ents, SibIds(h, 0)) == roots
  }

  lemma AddEntryRooted(h: Arena, ents: seq<Item>, roots: seq<Item>, op: int, n: Node, x: Item)
    requires Rooted(h, ents, roots) && 0 <= op < |h| && Fresh(n, op)
    ensures Rooted(WithChild(h, op, n), ents + [x], roots)
  {
    AddChild(h, op, n);
    AddChildChanges(h, op, n);
    hide WithChild, Linked;
    SibFrame(h, WithChild(h, op, n), 0);
    EntsExtend(ents, x, SibIds(h, 0));
  }

  // A selection: a list of nodes without children.
  ghost predicate Bare(h: Arena, ents: seq<Item>, roots: seq<Item>) {
    && Linked(h) && |ents| == |h|
    && (forall i :: 0 <= i < |h| ==> Match(h[i], ents[i]))
    && (forall i :: 0 <= i < |h| ==> h[i].child == NULL && h[i].parent == NULL)
    && (h == [] ==> roots == [])
    && (h != [] ==> Rooted(h, ents, roots) && Lists(SibIds(h, 0), |h|))
  }

  lemma BareIs(h: Arena, ents: seq<Item>, roots: seq<Item>)
    requires Bare(h, ents, roots)
    ensures Linked(h) && |ents| == |h|
  {
  }

  function WithRoot(h: Arena, t: int, n: Node): Arena
    requires h != [] ==> 0 <= t < |h|
  {
    if h == [] then [n] else LinkedBehind(h, t, n)
  }

  lemma BareAdd(h: Arena, ents: seq<Item>, roots: seq<Item>, n: Node, x: Item)
    requires Bare(h, ents, roots) && Fresh(n, NULL) && Match(n, x)
    ensures var g := WithRoot(h, if h == [] then NULL else LastId(h, 0), n);
      && Bare(g, ents + [x], roots + [x]) && |g| == |h| + 1 && g[|h|] == n
      && forall k :: 0 <= k < |h| ==> g[k] == h[k].(next := g[k].next, child := g[k].child)
  {
    if h == [] {
      assert LinkedAt([n], 0);
      assert SibIds([n], 0) == [0];
    } else {
      var g := LinkedBehind(h, LastId(h, 0), n);
      AddRoot(h, n);
      EntsSnoc(ents, SibIds(h, 0), x);
      ListsInsert(SibIds(h, 0), [], |h|);
      assert SibIds(h, 0) + [] == SibIds(h, 0) && SibIds(h, 0) + [|h|] + [] == SibIds(h, 0) + [|h|];
      forall i | 0 <= i < |g| ensures Match(g[i], (ents + [x])[i]) && g[i].child == NULL && g[i].parent == NULL {
        assert i < |h| ==> Match(h[i], ents[i]);
      }
    }
  }

  // The walk leaves a forest that mirrors the selection and everything listed below it,
  // with one node for every entry.
  lemma WalkedForest(h: Arena, ents: seq<Item>, roots: seq<Item>, visited: seq<int>)
    requires Walked(h, ents, roots, visited) && Rooted(h, ents, roots)
    ensures Mirrors(h, 0, roots) && Forest(h) && |h| == |PreList(roots)|
  {
    FullMirrors(h, ents, 0);
    MirrorsCount(h, 0, roots);
  }

  // ------------------------------------------------------- bytes and paths

  // Bytes of files that the scan has still to add, at op and at what is pending.
  ghost function Owed(h: Arena, ents: seq<Item>, op: int, state: ScanState, dir: seq<Item>): nat
    requires Linked(h) && |ents| == |h| && 0 <= op < |h| && IsPtr(h, h[op].child)
  {
    (if state.Dir?
     then FileBytes(Listed(dir)) + BytesBelow(Ents(ents, SibIds(h, h[op].child)) + Listed(dir))
     else BytesBelow([ents[op]]))
    + BytesBelow(Ents(ents, Pending(h, op)))
  }

  lemma OwedOpens(h: Arena, ents: seq<Item>, op: int)
    requires Linked(h) && |ents| == |h| && 0 <= op < |h| && h[op].child == NULL
    requires ents[op].kind.Folder? && ents[op].opens
    ensures Owed(h, ents, op, Dir, ents[op].items) == Owed(h, ents, op, Init, [])
  {
    var x := ents[op];
    BelowKids(x);
    PreListBytes(Kids(x));
    assert Ents(ents, SibIds(h, NULL)) + Listed(x.items) == Kids(x);
    assert BytesBelow([x]) == FileBytes(Below(x));
  }

  lemma OwedAdds(h: Arena, ents: seq<Item>, op: int, dir: seq<Item>, n: Node)
    requires Linked(h) && |ents| == |h| && 0 <= op < |h| && IsPtr(h, h[op].child)
    requires dir != [] && Wanted(dir[0]) && Fresh(n, op)
    ensures var g := WithChild(h, op, n);
      && Linked(g) && |g| == |h| + 1 && IsPtr(g, g[op].child)
      && Owed(g, ents + [dir[0]], op, Dir, dir[1..]) + (if dir[0].kind.Folder? then 0 else dir[0].size)
         == Owed(h, ents, op, Dir, dir)
  {
    AddChild(h, op, n);
    hide WithChild, Linked, Ents;
    ListedHead(dir);
    EntsSnoc(ents, SibIds(h, h[op].child), dir[0]);
    EntsExtend(ents, dir[0], Pending(h, op));
    SeqAssoc(Ents(ents, SibIds(h, h[op].child)), [dir[0]], Listed(dir[1..]));
  }

  lemma OwedMoves(h: Arena, ents: seq<Item>, op: int)
    requires Linked(h) && |ents| == |h| && 0 <= op < |h| && IsPtr(h, h[op].child)
    ensures var q := Succ(h, op);
      if q == NULL then Owed(h, ents, op, Dir, []) == 0
      else IsPtr(h, h[q].child) && Owed(h, ents, op, Dir, []) == Owed(h, ents, q, Cwd, [])
  {
    hide Linked, LinkedAt, Succ, After, Ents, SibIds, Pending, BytesBelow;
    var q, kids, pending := Succ(h, op), SibIds(h, h[op].child), Pending(h, op);
    SuccIsNext(h, op);
    if q != NULL {
      Links(h, q);
    }
    EntsConcat(ents, kids, pending);
    BytesBelowConcat(Ents(ents, kids), Ents(ents, pending));
    assert Ents(ents, kids) + Listed([]) == Ents(ents, kids);
    if q != NULL {
      OwedSplits(ents, kids + pending, q, Pending(h, q));
    }
  }

  lemma OwedSplits(ents: seq<Item>, todo: seq<int>, q: int, later: seq<int>)
    requires Within(later, |ents|) && 0 <= q < |ents| && todo == [q] + later
    ensures BytesBelow(Ents(ents, todo)) == BytesBelow([ents[q]]) + BytesBelow(Ents(ents, later))
  {
    EntsConcat(ents, [q], later);
    assert Ents(ents, [q]) == [ents[q]];
    BytesBelowConcat([ents[q]], Ents(ents, later));
  }

  // The source and destination directories of a node follow from its parent's; those of
  // a root from the directories of the selection and of the paste.
  ghost predicate PathsAt(h: Arena, src: seq<string>, dst: seq<string>, cwd: string, i: int)
    requires 0 <= i < |h| && |src| == |dst| == |h| && h[i].parent < i
  {
    var p := h[i].parent;
    if p < 0 then
      src[i] == if h[i].folder then Join(cwd, h[i].name) else cwd
    else
      && src[i] == (if h[i].folder then Join(src[p], h[i].name) else src[p])
      && dst[i] == Join(dst[p], h[p].name)
      && h[p].folder
  }

  ghost predicate PathsAll(h: Arena, src: seq<string>, dst: seq<string>, cwd: string) {
    && |src| == |dst| == |h|
    && forall k :: 0 <= k < |h| ==> h[k].parent < k && PathsAt(h, src, dst, cwd, k)
  }

  lemma PathsAtAppend(h: Arena, g: Arena, src: seq<string>, dst: seq<string>, cwd: string, s: string, d: string, k: int)
    requires |src| == |dst| == |h| && |g| == |h| + 1 && 0 <= k < |h|
    requires h[k].parent < k && PathsAt(h, src, dst, cwd, k)
    requires g[k].parent == h[k].parent && g[k].name == h[k].name && g[k].folder == h[k].folder
    requires 0 <= h[k].parent ==>
      g[h[k].parent].name == h[h[k].parent].name && g[h[k].parent].folder == h[h[k].parent].folder
    ensures PathsAt(g, src + [s], dst + [d], cwd, k)
  {
  }

  lemma PathsAppend(h: Arena, g: Arena, src: seq<string>, dst: seq<string>, cwd: string, s: string, d: string)
    requires PathsAll(h, src, dst, cwd) && |g| == |h| + 1
    requires forall k :: 0 <= k < |h| ==> g[k] == h[k].(next := g[k].next, child := g[k].child)
    requires g[|h|].parent < |h| && PathsAt(g, src + [s], dst + [d], cwd, |h|)
    ensures PathsAll(g, src + [s], dst + [d], cwd)
  {
    hide PathsAt;
    forall k | 0 <= k < |g| ensures g[k].parent < k && PathsAt(g, src + [s], dst + [d], cwd, k) {
      if k < |h| {
        PathsAtAppend(h, g, src, dst, cwd, s, d, k);
      }
    }
  }

  // Giving one more root its place in the destination.
  lemma PathsPlace(h: Arena, src: seq<string>, dst: seq<string>, cwd: string, i: int, d: string)
    requires PathsAll(h, src, dst, cwd) && 0 <= i < |h| && h[i].parent < 0
    requires forall k :: 0 <= k < |h| ==> h[k].parent != i
    ensures PathsAll(h, src, dst[i := d], cwd)
  {
    var e := dst[i := d];
    forall k | 0 <= k < |h| ensures PathsAt(h, src, e, cwd, k) {
      assert PathsAt(h, src, dst, cwd, k);
    }
  }

  // The names on the way down to node i, and where they lead from a directory.
  ghost function Chain(h: Arena, i: int): seq<string>
    requires Linked(h) && 0 <= i < |h|
    decreases i
  {
    assert LinkedAt(h, i);
    (if h[i].parent == NULL then [] else Chain(h, h[i].parent)) + [h[i].name]
  }

  // The names are names of directory entries.
  predicate Named(h: Arena) {
    forall k :: 0 <= k < |h| ==> IsName(h[k].name)
  }

  function Under(base: string, names: seq<string>): string {
    if names == [] then base else Join(Under(base, names[..|names| - 1]), names[|names| - 1])
  }

  // What stands between the slashes.
  function Parts(s: string): (parts: seq<string>)
    ensures parts != []
  {
    if s == "" then [""]
    else
      var rest := Parts(s[1..]);
      if s[0] == '/' then [""] + rest else [[s[0]] + rest[0]] + rest[1..]
  }

  predicate IsName(n: string) {
    n != "" && '/' !in n
  }

  // A volume root, or a directory below one.
  predicate IsPath(path: string) {
    |path| >= 3 && (|path| == 3 ==> path[2] == '/' && '/' !in path[..2])
  }

  // The volume and the directories on a path.
  function Dirs(path: string): seq<string>
    requires IsPath(path)
  {
    if |path| == 3 then [path[..2]] else Parts(path)
  }

  lemma {:induction false} PartsOfName(n: string)
    requires '/' !in n
    ensures Parts(n) == [n]
  {
    if n != "" {
      PartsOfName(n[1..]);
      assert n[0] in n && n == [n[0]] + n[1..];
    }
  }

  lemma {:induction false} PartsMore(path: string, n: string)
    requires '/' !in n
    ensures Parts(path + "/" + n) == Parts(path) + [n]
  {
    var all := path + "/" + n;
    if path == "" {
      PartsOfName(n);
      assert all[1..] == n;
    } else {
      PartsMore(path[1..], n);
      assert all[1..] == path[1..] + "/" + n;
    }
  }

  // The path below a directory has the directory's parts and then the names, no more and
  // no fewer, at volume roots and further down.
  lemma {:induction false} UnderParts(base: string, names: seq<string>)
    requires IsPath(base) && forall n :: n in names ==> IsName(n)
    ensures IsPath(Under(base, names)) && (names != [] ==> |Under(base, names)| > 3)
    ensures Dirs(Under(base, names)) == Dirs(base) + names
  {
    hide Parts;
    if names != [] {
      var before, last := names[..|names| - 1], names[|names| - 1];
      UnderParts(base, before);
      var dir := Under(base, before);
      assert names == before + [last] && last in names;
      if |dir| == 3 {
        PartsOfName(dir[..2]);
        PartsMore(dir[..2], last);
        assert dir == dir[..2] + "/";
      } else {
        PartsMore(dir, last);
      }
    }
  }

  // The path has the parts of the directory and then the names.
  predicate LeadsBy(path: string, base: string, names: seq<string>) {
    IsPath(base) ==> IsPath(path) && Dirs(path) == Dirs(base) + names
  }

  lemma UnderLeads(base: string, names: seq<string>)
    requires forall n :: n in names ==> IsName(n)
    ensures LeadsBy(Under(base, names), base, names)
  {
    if IsPath(base) {
      UnderParts(base, names);
    }
  }

  // So different names lead to different places.
  lemma UnderDiffers(base: string, a: seq<string>, b: seq<string>)
    requires IsPath(base) && (forall n :: n in a ==> IsName(n)) && (forall n :: n in b ==> IsName(n))
    ensures Under(base, a) == Under(base, b) ==> a == b
  {
    UnderParts(base, a);
    UnderParts(base, b);
    var m := |Dirs(base)|;
    assert (Dirs(base) + a)[m..] == a && (Dirs(base) + b)[m..] == b;
  }

  function SrcFull(h: Arena, src: seq<string>, i: int): string
    requires 0 <= i < |h| && |src| == |h|
  {
    if h[i].folder then src[i] else Join(src[i], h[i].name)
  }

  // The destination of every node is reached by the names that lead to its source.
  lemma SamePath(h: Arena, src: seq<string>, dst: seq<string>, cwd: string, to: string, i: int)
    requires Linked(h) && |src| == |dst| == |h| && 0 <= i < |h|
    requires forall k :: 0 <= k < |h| ==> LinkedAt(h, k) && PathsAt(h, src, dst, cwd, k)
    requires forall k :: 0 <= k < |h| && h[k].parent == NULL ==> dst[k] == to
    ensures SrcFull(h, src, i) == Under(cwd, Chain(h, i))
    ensures Join(dst[i], h[i].name) == Under(to, Chain(h, i))
    decreases i
  {
    assert LinkedAt(h, i) && PathsAt(h, src, dst, cwd, i);
    var p, names := h[i].parent, Chain(h, i);
    assert names[|names| - 1] == h[i].name;
    if p == NULL {
      assert names[..|names| - 1] == [];
    } else {
      SamePath(h, src, dst, cwd, to, p);
      assert names[..|names| - 1] == Chain(h, p);
    }
  }

  // The walk starts at the first selected entry.
  lemma WalkStarts(h: Arena, ents: seq<Item>, roots: seq<Item>)
    requires Bare(h, ents, roots) && h != []
    ensures Walking(h, ents, roots, [], 0) && h[0].child == NULL
    ensures Owed(h, ents, 0, Cwd, []) == BytesBelow(roots)
  {
    assert LinkedAt(h, 0);
    var rest := SibIds(h, h[0].next);
    assert SibIds(h, 0) == [0] + rest;
    assert Pending(h, 0) == rest;
    EntsConcat(ents, [0], rest);
    assert Ents(ents, [0]) == [ents[0]];
    assert [] + [0] + SibIds(h, NULL) + rest == SibIds(h, 0);
    BytesBelowConcat([ents[0]], Ents(ents, rest));
    assert Ents(ents, []) == [];
  }

  // Nothing is left to scan at a node whose entry lists nothing.
  lemma NothingListed(h: Arena, ents: seq<Item>, op: int)
    requires Linked(h) && |ents| == |h| && 0 <= op < |h| && h[op].child == NULL
    requires Kids(ents[op]) == []
    ensures Scanning(h, ents, op, [])
    ensures Owed(h, ents, op, Dir, []) == Owed(h, ents, op, Cwd, [])
  {
    BelowKids(ents[op]);
    assert Ents(ents, SibIds(h, NULL)) == [];
    assert Ents(ents, SibIds(h, NULL)) + Listed([]) == [];
    assert BytesBelow([ents[op]]) == FileBytes([]) + BytesBelow([]) by {
      assert [ents[op]][1..] == [];
    }
  }

  // The state of the paste at op: the walk, the scan of op's folder, and the bytes counted.
  ghost predicate AtNode(h: Arena, ents: seq<Item>, roots: seq<Item>, visited: seq<int>, op: int,
                         state: ScanState, dir: seq<Item>, bytes: nat) {
    && Rooted(h, ents, roots) && Walking(h, ents, roots, visited, op)
    && (state.Dir? || h[op].child == NULL)
    && (!state.Cwd? ==> ents[op].kind.Folder? && ents[op].opens)
    && (state.Dir? ==> Scanning(h, ents, op, dir))
    && bytes + Owed(h, ents, op, state, dir) == BytesBelow(roots)
  }

  lemma AtFacts(h: Arena, ents: seq<Item>, roots: seq<Item>, visited: seq<int>, op: int,
                state: ScanState, dir: seq<Item>, bytes: nat)
    requires AtNode(h, ents, roots, visited, op, state, dir, bytes)
    ensures 0 <= op < |h| && |ents| == |h| && Linked(h) && IsPtr(h, h[op].child)
    ensures h[op].folder == ents[op].kind.Folder? && h[op].name == ents[op].name
    ensures !state.Cwd? ==> h[op].folder
  {
    assert Match(h[op], ents[op]);
  }

  lemma AtAdd(h: Arena, ents: seq<Item>, roots: seq<Item>, visited: seq<int>, op: int,
              dir: seq<Item>, bytes: nat, n: Node)
    requires AtNode(h, ents, roots, visited, op, Dir, dir, bytes)
    requires dir != [] && Wanted(dir[0]) && Fresh(n, op) && Match(n, dir[0])
    ensures AtNode(WithChild(h, op, n), ents + [dir[0]], roots, visited, op, Dir, dir[1..],
                   bytes + if dir[0].kind.Folder? then 0 else dir[0].size)
  {
    AddEntry(h, ents, roots, visited, op, dir, n);
    AddEntryRooted(h, ents, roots, op, n, dir[0]);
    OwedAdds(h, ents, op, dir, n);
  }

  lemma AtSkip(h: Arena, ents: seq<Item>, roots: seq<Item>, visited: seq<int>, op: int,
               dir: seq<Item>, bytes: nat)
    requires AtNode(h, ents, roots, visited, op, Dir, dir, bytes)
    requires dir != [] && !Wanted(dir[0])
    ensures AtNode(h, ents, roots, visited, op, Dir, dir[1..], bytes)
  {
    assert Listed(dir) == Listed(dir[1..]);
  }

  // No node has a parent that has not been scanned.
  lemma AtLeaf(h: Arena, ents: seq<Item>, roots: seq<Item>, visited: seq<int>, op: int, dir: seq<Item>, bytes: nat)
    requires AtNode(h, ents, roots, visited, op, Cwd, dir, bytes)
    ensures forall k :: 0 <= k < |h| ==> h[k].parent != op
  {
    forall k | 0 <= k < |h| ensures h[k].parent != op {
      assert LinkedAt(h, k);
    }
  }

  lemma AtInit(h: Arena, ents: seq<Item>, roots: seq<Item>, visited: seq<int>, op: int, dir: seq<Item>, bytes: nat)
    requires AtNode(h, ents, roots, visited, op, Cwd, dir, bytes)
    requires ents[op].kind.Folder? && ents[op].opens
    ensures AtNode(h, ents, roots, visited, op, Init, [], bytes)
  {
  }

  lemma AtOpen(h: Arena, ents: seq<Item>, roots: seq<Item>, visited: seq<int>, op: int, dir: seq<Item>, bytes: nat)
    requires AtNode(h, ents, roots, visited, op, Init, dir, bytes)
    ensures AtNode(h, ents, roots, visited, op, Dir, ents[op].items, bytes)
  {
    OwedOpens(h, ents, op);
    assert Ents(ents, SibIds(h, NULL)) == [];
    assert Ents(ents, SibIds(h, NULL)) + Listed(ents[op].items) == Kids(ents[op]);
  }

  // op is scanned: its entry lists nothing, or its directory is at its end.
  lemma AtEnd(h: Arena, ents: seq<Item>, roots: seq<Item>, visited: seq<int>, op: int,
              state: ScanState, dir: seq<Item>, bytes: nat)
    requires AtNode(h, ents, roots, visited, op, state, dir, bytes)
    requires if state.Dir? then dir == [] else Kids(ents[op]) == []
    ensures Rooted(h, ents, roots) && Walking(h, ents, roots, visited, op) && Scanning(h, ents, op, [])
    ensures bytes + Owed(h, ents, op, Dir, []) == BytesBelow(roots)
  {
    if !state.Dir? {
      NothingListed(h, ents, op);
    }
  }

  // The move that ends a tick in which op was scanned.
  lemma AtMove(h: Arena, ents: seq<Item>, roots: seq<Item>, visited: seq<int>, op: int, bytes: nat)
    requires Rooted(h, ents, roots) && Walking(h, ents, roots, visited, op) && Scanning(h, ents, op, [])
    requires bytes + Owed(h, ents, op, Dir, []) == BytesBelow(roots)
    ensures var q := Succ(h, op);
      if q == NULL then Walked(h, ents, roots, visited + [op]) && bytes == BytesBelow(roots)
      else AtNode(h, ents, roots, visited + [op], q, Cwd, [], bytes)
  {
    MoveOn(h, ents, roots, visited, op);
    MoveOff(h, ents, roots, visited, op);
    OwedMoves(h, ents, op);
  }

  // Paths are as they should be, and roots the walk has reached have their destination.
  ghost predicate Placed(h: Arena, src: seq<string>, dst: seq<string>, cwd: string, to: string,
                         visited: seq<int>, op: int, here: bool) {
    && |src| == |dst| == |h| && PathsAll(h, src, dst, cwd)
    && forall i :: 0 <= i < |h| && h[i].parent == NULL && (i in visited || (here && i == op)) ==> dst[i] == to
  }

  lemma PlacedIs(h: Arena, src: seq<string>, dst: seq<string>, cwd: string, to: string,
                 visited: seq<int>, op: int, here: bool)
    requires Placed(h, src, dst, cwd, to, visited, op, here)
    ensures |src| == |dst| == |h|
  {
  }

  // A child's paths, as the scan computes them, are as they should be.
  lemma PlacedAdd(h: Arena, src: seq<string>, dst: seq<string>, cwd: string, to: string,
                  visited: seq<int>, op: int, n: Node)
    requires Placed(h, src, dst, cwd, to, visited, op, true)
    requires Linked(h) && 0 <= op < |h| && h[op].folder && Fresh(n, op)
    ensures Placed(WithChild(h, op, n), src + [if n.folder then Join(src[op], n.name) else src[op]],
                   dst + [Join(dst[op], h[op].name)], cwd, to, visited, op, true)
  {
    AddChildChanges(h, op, n);
    hide WithChild;
    var path := if n.folder then Join(src[op], n.name) else src[op];
    PathsAppend(h, WithChild(h, op, n), src, dst, cwd, path, Join(dst[op], h[op].name));
  }

  lemma AtCount(h: Arena, ents: seq<Item>, roots: seq<Item>, visited: seq<int>, op: int,
                state: ScanState, dir: seq<Item>, bytes: nat)
    requires AtNode(h, ents, roots, visited, op, state, dir, bytes)
    ensures |visited| < |PreList(roots)|
  {
  }

  lemma PlacedSamePath(h: Arena, src: seq<string>, dst: seq<string>, cwd: string, to: string,
                       visited: seq<int>, i: int)
    requires Linked(h) && Placed(h, src, dst, cwd, to, visited, NULL, false)
    requires Lists(visited, |h|) && 0 <= i < |h|
    ensures SrcFull(h, src, i) == Under(cwd, Chain(h, i))
    ensures Join(dst[i], h[i].name) == Under(to, Chain(h, i))
    ensures Named(h) ==>
      LeadsBy(SrcFull(h, src, i), cwd, Chain(h, i)) && LeadsBy(Join(dst[i], h[i].name), to, Chain(h, i))
  {
    hide Join, Under, Dirs;
    forall k | 0 <= k < |h| && h[k].parent == NULL ensures dst[k] == to {
      ListsAll(visited, |h|, k);
    }
    SamePath(h, src, dst, cwd, to, i);
    if Named(h) {
      ChainNamed(h, i);
      UnderLeads(cwd, Chain(h, i));
      UnderLeads(to, Chain(h, i));
    }
  }

  lemma {:induction false} ChainNamed(h: Arena, i: int)
    requires Linked(h) && 0 <= i < |h| && Named(h)
    ensures forall n :: n in Chain(h, i) ==> IsName(n)
    decreases i
  {
    assert LinkedAt(h, i);
    if h[i].parent != NULL {
      ChainNamed(h, h[i].parent);
    }
  }
}
