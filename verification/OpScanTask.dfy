// Selecting entries and scanning them into the forest of operations: the COPY and PASTE
// states of the local operations task, with its folder scan.
module OpScanTask {
  import opened OpForest
  import opened OpItems
  import opened OpScan

  class Scan {
    // Working directories when the entries were selected and when they were pasted.
    const cwd: string
    const pasteDir: string
    // The forest; the paths of its nodes, and what the file system lists under them.
    var nodes: Arena
    var src: seq<string>
    var dst: seq<string>
    var ents: seq<Item>
    // The walk, the folder scan and its directory cursor, and the two totals.
    var op: int
    var state: ScanState
    var dir: seq<Item>
    var dstStr: string
    var total: nat
    var bytes: nat
    ghost var roots: seq<Item>
    ghost var visited: seq<int>

    // While entries are selected, and afterwards.
    ghost predicate Selecting()
      reads this
    {
      Selected() && bytes == RootBytes(roots)
    }

    ghost predicate Selected()
      reads this
    {
      && Bare(nodes, ents, roots) && total == |nodes|
      && PathsAll(nodes, src, dst, cwd)
      && state.Cwd? && visited == [] && |ents| == |src| == |dst| == |nodes|
    }

    constructor (cwd: string, pasteDir: string)
      ensures Selecting() && roots == []
      ensures this.cwd == cwd && this.pasteDir == pasteDir
    {
      this.cwd := cwd;
      this.pasteDir := pasteDir;
      nodes, src, dst, ents, op := [], [], [], [], NULL;
      state, dir, dstStr, total, bytes := Cwd, [], "", 0, 0;
      roots, visited := [], [];
    }

    // LV_FM_LL_ADD on a list that is not empty.
    method AddLast(p: int, n: Node)
      requires Linked(nodes) && 0 <= p < |nodes|
      modifies this`nodes
      ensures nodes == LinkedBehind(old(nodes), LastId(old(nodes), p), n)
    {
      var t := p;
      while nodes[t].next != NULL
        invariant 0 <= t < |nodes| && nodes == old(nodes)
        invariant LastId(nodes, t) == LastId(nodes, p)
        decreases |nodes| - t
      {
        assert LinkedAt(nodes, t);
        t := nodes[t].next;
      }
      nodes := nodes[t := nodes[t].(next := |nodes|)] + [n];
    }

    // LV_FM_LL_ADD on the list of roots.
    method AddRootNode(n: Node)
      requires Linked(nodes)
      modifies this`nodes
      ensures nodes == WithRoot(old(nodes), if old(nodes) == [] then NULL else LastId(old(nodes), 0), n)
    {
      if nodes == [] {
        nodes := [n];
      } else {
        AddLast(0, n);
      }
    }

    // LV_FM_MAIN_COPY: one selected entry.
    method Select(x: Item)
      requires Selecting()
      modifies this`nodes, this`src, this`dst, this`ents, this`total, this`bytes, this`roots
      ensures Selecting() && roots == old(roots) + [x]
    {
      hide Bare, Linked, PathsAll, WithRoot, RootBytes;
      total := total + 1;
      bytes := bytes + x.size;
      var n := Node(x.name, x.kind.Folder?, x.size, NULL, NULL, NULL);
      BareIs(nodes, ents, roots);
      BareAdd(nodes, ents, roots, n, x);
      RootBytesAppend(roots, x);
      ghost var h := nodes;
      AddRootNode(n);
      var path := if n.folder then Join(cwd, n.name) else cwd;
      PathsAppend(h, nodes, src, dst, cwd, path, "");
      src, dst, ents := src + [path], dst + [""], ents + [x];
      roots := roots + [x];
    }

    // During the paste, with the walk at op, whose own paths are in place if here is true.
    ghost predicate At(here: bool)
      reads this
    {
      && total == |nodes|
      && AtNode(nodes, ents, roots, visited, op, state, dir, bytes)
      && Placed(nodes, src, dst, cwd, pasteDir, visited, op, here || !state.Cwd?)
      && (state.Dir? ==> dstStr == Join(dst[op], nodes[op].name))
    }

    // Everything op lists is in the forest.
    ghost predicate Scanned()
      reads this
    {
      && total == |nodes|
      && Rooted(nodes, ents, roots) && Walking(nodes, ents, roots, visited, op)
      && Scanning(nodes, ents, op, [])
      && bytes + Owed(nodes, ents, op, Dir, []) == BytesBelow(roots)
      && Placed(nodes, src, dst, cwd, pasteDir, visited, op, true)
    }

    // The walk is over.
    ghost predicate Done()
      reads this
    {
      if nodes == [] then
        roots == [] && total == 0 && bytes == 0 && visited == [] && |ents| == |src| == |dst| == 0
      else
        && total == |nodes| && bytes == BytesBelow(roots)
        && Rooted(nodes, ents, roots) && Walked(nodes, ents, roots, visited)
        && Placed(nodes, src, dst, cwd, pasteDir, visited, NULL, false)
    }

    // LV_FM_MAIN_PASTE, OP_INIT.
    method Start()
      requires Selected() && bytes == 0
      modifies this`op
      ensures op == if nodes == [] then NULL else 0
      ensures if nodes == [] then Done() else At(false)
    {
      op := if nodes == [] then NULL else 0;
      if nodes != [] {
        WalkStarts(nodes, ents, roots);
      }
    }

    // LV_FM_LL_ADD on op's list of children.
    method AddChildNode(n: Node)
      requires Linked(nodes) && 0 <= op < |nodes|
      modifies this`nodes
      ensures nodes == WithChild(old(nodes), op, n)
    {
      assert LinkedAt(nodes, op);
      if nodes[op].child == NULL {
        nodes := nodes[op := nodes[op].(child := |nodes|)] + [n];
      } else {
        AddLast(nodes[op].child, n);
      }
    }

    // The entry under the directory cursor becomes the last child of op.
    method AddKid()
      requires At(true) && state.Dir? && dir != [] && Wanted(dir[0])
      modifies this`nodes, this`src, this`dst, this`ents, this`total, this`bytes, this`dir
      ensures At(true) && dir == old(dir)[1..]
    {
      hide Linked, AtNode, PathsAll, WithChild, Placed;
      PlacedIs(nodes, src, dst, cwd, pasteDir, visited, op, true);
      AtFacts(nodes, ents, roots, visited, op, state, dir, bytes);
      var x := dir[0];
      var n := Node(x.name, x.kind.Folder?, x.size, op, NULL, NULL);
      AtAdd(nodes, ents, roots, visited, op, dir, bytes, n);
      PlacedAdd(nodes, src, dst, cwd, pasteDir, visited, op, n);
      AddChildChanges(nodes, op, n);
      AddChildNode(n);
      src := src + [if n.folder then Join(src[op], n.name) else src[op]];
      dst := dst + [dstStr];
      ents := ents + [x];
      total := total + 1;
      if !n.folder {
        bytes := bytes + x.size;
      }
      dir := dir[1..];
    }

    // _lv_fm_local_folder_scan: one step.  The state is Cwd again when op is scanned.
    method FolderScan()
      requires At(true) && nodes[op].folder
      modifies this`nodes, this`src, this`dst, this`ents, this`total, this`bytes
      modifies this`state, this`dir, this`dstStr
      ensures if state.Cwd? then Scanned() else At(true)
      ensures state.Cwd? || Later(old(state), old(dir), state, dir)
    {
      hide Linked, AtNode, PathsAll, Rooted, Walking, Scanning, Owed;
      AtFacts(nodes, ents, roots, visited, op, state, dir, bytes);
      match state
      case Cwd =>
        if ents[op].opens {
          AtInit(nodes, ents, roots, visited, op, dir, bytes);
          state, dir := Init, [];
        } else {
          AtEnd(nodes, ents, roots, visited, op, state, dir, bytes);
        }
      case Init =>
        dstStr := Join(dst[op], nodes[op].name);
        if ents[op].items != [] {
          AtOpen(nodes, ents, roots, visited, op, dir, bytes);
          state, dir := Dir, ents[op].items;
        } else {
          AtEnd(nodes, ents, roots, visited, op, state, dir, bytes);
          state := Cwd;
        }
      case Dir =>
        if dir == [] {
          AtEnd(nodes, ents, roots, visited, op, state, dir, bytes);
          state := Cwd;
        } else if Wanted(dir[0]) {
          AddKid();
        } else {
          AtSkip(nodes, ents, roots, visited, op, dir, bytes);
          dir := dir[1..];
        }
    }

    // LV_FM_MAIN_PASTE, OP_READ with a node to look at: one tick.
    method Tick()
      requires At(false)
      modifies this`nodes, this`src, this`dst, this`ents, this`total, this`bytes
      modifies this`op, this`state, this`dir, this`dstStr, this`visited
      ensures if op == NULL then Done() else At(false)
      ensures visited == old(visited) + [old(op)] ||
              (visited == old(visited) && Later(old(state), old(dir), state, dir))
    {
      hide Linked, AtNode, PathsAll, Scanning, Owed, Lists, FullBehind;
      AtFacts(nodes, ents, roots, visited, op, state, dir, bytes);
      if state.Cwd? && nodes[op].parent == NULL {
        AtLeaf(nodes, ents, roots, visited, op, dir, bytes);
        PathsPlace(nodes, src, dst, cwd, op, pasteDir);
        dst := dst[op := pasteDir];
      }
      if nodes[op].folder {
        FolderScan();
      } else {
        AtEnd(nodes, ents, roots, visited, op, state, dir, bytes);
      }
      if state.Cwd? {
        Move();
      }
    }

    method Move()
      requires Scanned() && state.Cwd?
      modifies this`op, this`visited, this`dir
      ensures visited == old(visited) + [old(op)]
      ensures if op == NULL then Done() else At(false)
    {
      hide Linked, PathsAll, Scanning, Owed, Lists, FullBehind, Succ, After, AtNode, Walked;
      AtMove(nodes, ents, roots, visited, op, bytes);
      var next := GoOn(nodes, op);
      visited, op, dir := visited + [op], next, [];
    }

    // The end of the selection, which sets the sum of the sizes back, and the whole paste
    // scan.  It ends with a forest that mirrors the selection and all listed descendants,
    // having visited them in pre-order, each once; the totals are the number of nodes and
    // the sum of the sizes of all files but those selected themselves, and every node's
    // destination is reached from the paste directory by the names that lead to its source.
    method Run()
      requires Selecting()
      modifies this
      ensures roots == old(roots) && total == |nodes| == |PreList(roots)|
      ensures bytes == BytesBelow(roots) && bytes + FileBytes(roots) == FileBytes(PreList(roots))
      ensures Forest(nodes) && Mirrors(nodes, if nodes == [] then NULL else 0, roots)
      ensures Lists(visited, |nodes|) && |ents| == |nodes| && Ents(ents, visited) == PreList(roots)
      ensures |src| == |dst| == |nodes|
      ensures forall i :: 0 <= i < |nodes| ==>
        && SrcFull(nodes, src, i) == Under(cwd, Chain(nodes, i))
        && Join(dst[i], nodes[i].name) == Under(pasteDir, Chain(nodes, i))
      ensures Named(nodes) ==> forall i :: 0 <= i < |nodes| ==>
        && LeadsBy(SrcFull(nodes, src, i), cwd, Chain(nodes, i))
        && LeadsBy(Join(dst[i], nodes[i].name), pasteDir, Chain(nodes, i))
    {
      hide Linked, AtNode, PathsAll, Scanning, Owed, Lists, FullBehind, Bare, Rooted, Walked, Placed;
      bytes := 0;
      Start();
      while op != NULL
        invariant if op == NULL then Done() else At(false)
        invariant roots == old(roots)
        decreases |PreList(roots)| - |visited|, Rank(state), |dir|
      {
        AtCount(nodes, ents, roots, visited, op, state, dir, bytes);
        Tick();
      }
      Finish();
    }

    lemma Finish()
      requires Done()
      ensures total == |nodes| == |PreList(roots)|
      ensures bytes == BytesBelow(roots) && bytes + FileBytes(roots) == FileBytes(PreList(roots))
      ensures Forest(nodes) && Mirrors(nodes, if nodes == [] then NULL else 0, roots)
      ensures Lists(visited, |nodes|) && |ents| == |nodes| && Ents(ents, visited) == PreList(roots)
      ensures |src| == |dst| == |nodes|
      ensures forall i :: 0 <= i < |nodes| ==>
        && SrcFull(nodes, src, i) == Under(cwd, Chain(nodes, i))
        && Join(dst[i], nodes[i].name) == Under(pasteDir, Chain(nodes, i))
      ensures Named(nodes) ==> forall i :: 0 <= i < |nodes| ==>
        && LeadsBy(SrcFull(nodes, src, i), cwd, Chain(nodes, i))
        && LeadsBy(Join(dst[i], nodes[i].name), pasteDir, Chain(nodes, i))
    {
      PreListBytes(roots);
      if nodes != [] {
        WalkedForest(nodes, ents, roots, visited);
        forall i | 0 <= i < |nodes|
          ensures SrcFull(nodes, src, i) == Under(cwd, Chain(nodes, i))
          ensures Join(dst[i], nodes[i].name) == Under(pasteDir, Chain(nodes, i))
          ensures Named(nodes) ==>
            && LeadsBy(SrcFull(nodes, src, i), cwd, Chain(nodes, i))
            && LeadsBy(Join(dst[i], nodes[i].name), pasteDir, Chain(nodes, i))
        {
          PlacedSamePath(nodes, src, dst, cwd, pasteDir, visited, i);
        }
      }
    }
  }

  // The scan of one folder goes from Cwd to Init to Dir and then through the directory.
  function Rank(state: ScanState): nat {
    match state
    case Cwd => 2
    case Init => 1
    case Dir => 0
  }

  predicate Later(state: ScanState, dir: seq<Item>, state': ScanState, dir': seq<Item>) {
    Rank(state') < Rank(state) || (state' == state && |dir'| < |dir|)
  }
}
