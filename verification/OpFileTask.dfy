// Carrying out a copy, a move or a deletion on the forest the scan built, tick by tick.
module OpFileTask {
  import opened Bytes
  import opened OpForest
  import opened OpItems
  import opened OpScan
  import opened OpWalks
  import opened OpClean

  datatype Main = Paste | Delete | Idle
  datatype Task = Init | Proc | File

  // What the file system answers in one tick: to a rename, a mkdir, an unlink, a read or
  // the first open (first), to the second open or a write (second).  A rename may find
  // the name taken, and a write may store fewer bytes than asked, both without an error.
  datatype Answer = Answer(first: bool, second: bool, taken: bool, stored: nat)

  // Node by node: folders made, destination files, destination files that missed bytes,
  // entries renamed or left where they were, sources unlinked.
  datatype Disk = Disk(made: set<int>, copies: map<int, seq<byte>>, short: set<int>,
                       renamed: set<int>, stayed: set<int>, gone: seq<int>)

  // What is at the destination comes from nodes of the right kind.
  ghost predicate Proper(h: Arena, d: Disk, descend: bool) {
    && (forall i :: i in d.made ==> 0 <= i < |h| && h[i].folder)
    && (forall i :: i in d.copies ==> 0 <= i < |h| && !h[i].folder)
    && (forall i :: i in d.renamed + d.stayed ==> 0 <= i < |h| && h[i].parent == NULL)
    && if descend then d.renamed + d.stayed == {} else d.made == {} && d.copies == map[]
  }

  lemma ProperMore(h: Arena, d: Disk, d': Disk, descend: bool, i: int)
    requires Proper(h, d, descend) && 0 <= i < |h| && (descend || h[i].parent == NULL)
    requires if descend then
        d'.renamed == d.renamed && d'.stayed == d.stayed &&
        if h[i].folder then d'.made == d.made + {i} && d'.copies == d.copies
        else d'.made == d.made && d'.copies.Keys == d.copies.Keys + {i}
      else
        d'.made == d.made && d'.copies == d.copies && d'.renamed + d'.stayed == d.renamed + d.stayed + {i}
    ensures Proper(h, d', descend)
  {
  }

  lemma ProperGone(h: Arena, d: Disk, descend: bool, gone: seq<int>)
    ensures Proper(h, d.(gone := gone), descend) == Proper(h, d, descend)
  {
  }

  const NOTHING := Disk({}, map[], {}, {}, {}, [])

  // The destination of node i: the folder, or the file, which equals its source exactly
  // if no write for it was short.
  ghost predicate CopiedAt(h: Arena, data: seq<seq<byte>>, d: Disk, i: int)
    requires 0 <= i < |h| == |data|
  {
    if h[i].folder then i in d.made
    else i in d.copies && (d.copies[i] == data[i] <==> i !in d.short)
  }

  // What the copy does with a node: it copies all of them, or renames the roots.
  ghost predicate Handled(h: Arena, data: seq<seq<byte>>, d: Disk, descend: bool, i: int)
    requires 0 <= i < |h| == |data|
  {
    if descend then CopiedAt(h, data, d, i) else i in d.renamed + d.stayed
  }

  ghost predicate HandledAll(h: Arena, data: seq<seq<byte>>, d: Disk, descend: bool, ids: seq<int>)
    requires |h| == |data|
  {
    forall k :: 0 <= k < |ids| ==> 0 <= ids[k] < |h| && Handled(h, data, d, descend, ids[k])
  }

  // The destination of a file of which pos bytes have been read.
  ghost predicate Partial(content: seq<byte>, pos: nat, copy: seq<byte>, short: bool) {
    && |copy| <= pos <= |content|
    && if short then |copy| < pos else copy == content[..pos]
  }

  lemma PartialFits(content: seq<byte>, pos: nat, copy: seq<byte>, short: bool)
    requires Partial(content, pos, copy, short)
    ensures pos <= |content|
  {
  }

  lemma PartialMore(content: seq<byte>, pos: nat, copy: seq<byte>, short: bool, n: nat, w: nat)
    requires Partial(content, pos, copy, short) && w <= n && pos + n <= |content|
    ensures Partial(content, pos + n, copy + content[pos..pos + w], short || w < n)
  {
  }

  lemma PartialEnd(content: seq<byte>, copy: seq<byte>, short: bool)
    requires Partial(content, |content|, copy, short)
    ensures copy == content <==> !short
  {
    assert content[..|content|] == content;
  }

  // A file read to its end has its copy.
  lemma FileDone(h: Arena, data: seq<seq<byte>>, d: Disk, i: int)
    requires 0 <= i < |h| == |data| && !h[i].folder && i in d.copies
    requires Partial(data[i], |data[i]|, d.copies[i], i in d.short)
    ensures Handled(h, data, d, true, i)
  {
    PartialEnd(data[i], d.copies[i], i in d.short);
  }

  // The copy phase: copied are the nodes looked at, and all but an open file are done.
  ghost predicate Pasting(h: Arena, data: seq<seq<byte>>, d: Disk, descend: bool, copied: seq<int>,
                          task: Task, op: int, last: int, pos: nat)
    requires |h| == |data|
  {
    match task
    case Init => copied == [] && d == NOTHING
    case Proc =>
      && CopyWalk(h, copied, op, descend)
      && HandledAll(h, data, d, descend, copied)
    case File =>
      && CopyWalk(h, copied, op, descend) && descend
      && copied != [] && copied[|copied| - 1] == last
      && 0 <= last < |h| && !h[last].folder && last in d.copies
      && last !in copied[..|copied| - 1]
      && Partial(data[last], pos, d.copies[last], last in d.short)
      && HandledAll(h, data, d, descend, copied[..|copied| - 1])
  }

  // ------------------------------------------------------- steps of the copy

  // d' leaves what is done for the nodes in ids as it is.
  lemma HandledStays(h: Arena, data: seq<seq<byte>>, d: Disk, d': Disk, descend: bool, ids: seq<int>, i: int)
    requires |h| == |data| && HandledAll(h, data, d, descend, ids) && i !in ids
    requires d.made <= d'.made && d.renamed <= d'.renamed && d.stayed <= d'.stayed
    requires forall k :: k != i ==> (k in d.short <==> k in d'.short)
    requires forall k :: k != i && k in d.copies ==> k in d'.copies && d'.copies[k] == d.copies[k]
    ensures HandledAll(h, data, d', descend, ids)
  {
    forall k | 0 <= k < |ids| ensures Handled(h, data, d', descend, ids[k]) {
      assert Handled(h, data, d, descend, ids[k]) && ids[k] != i;
    }
  }

  lemma HandledOneMore(h: Arena, data: seq<seq<byte>>, d: Disk, descend: bool, ids: seq<int>, i: int)
    requires |h| == |data| && HandledAll(h, data, d, descend, ids)
    requires 0 <= i < |h| && Handled(h, data, d, descend, i)
    ensures HandledAll(h, data, d, descend, ids + [i])
  {
  }

  lemma HandledNone(h: Arena, data: seq<seq<byte>>, d: Disk, descend: bool)
    requires |h| == |data|
    ensures HandledAll(h, data, d, descend, [])
  {
  }

  // A walk that is over has handled every node it should.
  lemma HandledWhole(h: Arena, data: seq<seq<byte>>, d: Disk, descend: bool, copied: seq<int>)
    requires |h| == |data| && HandledAll(h, data, d, descend, copied)
    requires CopyWalk(h, copied, NULL, descend)
    ensures forall i :: 0 <= i < |h| && (descend || h[i].parent == NULL) ==> Handled(h, data, d, descend, i)
    ensures descend ==> AllCopied(h, data, d)
  {
    CopyNew(h, copied, NULL, descend);
  }

  // Every source has its copy.
  ghost predicate AllCopied(h: Arena, data: seq<seq<byte>>, d: Disk)
    requires |h| == |data|
  {
    forall i :: 0 <= i < |h| ==> CopiedAt(h, data, d, i)
  }

  lemma GoneKeepsCopies(h: Arena, data: seq<seq<byte>>, d: Disk, gone: seq<int>)
    requires |h| == |data|
    ensures AllCopied(h, data, d.(gone := gone)) == AllCopied(h, data, d)
  {
    forall i | 0 <= i < |h|
      ensures CopiedAt(h, data, d.(gone := gone), i) == CopiedAt(h, data, d, i)
    {
    }
  }

  datatype Event = Cancelled | Answered(answer: Answer)

  // Every call succeeds and is carried out in full.
  predicate Fine(a: Answer, size: nat) {
    a.first && a.second && !a.taken && a.stored >= size
  }

  class FileTask {
    // The forest as the scan left it, and what the source files hold.
    ghost const h: Arena
    const data: seq<seq<byte>>
    // Whether sources are to go, and whether they are on another volume; the buffer size.
    const cut: bool
    const cross: bool
    const bufSize: nat
    ghost const started: Main
    var nodes: Arena
    var main: Main
    var task: Task
    var op: int
    var lastOp: int
    var count: nat
    // The position in the open source file; the volumes; the nodes given back to the heap.
    var srcPos: nat
    var disk: Disk
    var released: seq<int>
    // Whether there will be more ticks, and whether no node was given back twice.
    var live: bool
    var sound: bool
    ghost var copied: seq<int>
    ghost var at: int
    // The run ended in the copy phase, with an error or with nothing to delete.
    ghost var copyEnded: bool

    predicate Descend() {
      cross || !cut
    }

    ghost predicate Setting()
      reads this
    {
      Forest(h) && h != [] && |data| == |h| && bufSize > 0 && !started.Idle?
    }

    // Sources go in post-order, and in a run that began by copying they go only from
    // another volume and after all of them have their copy.
    ghost predicate Kept()
      reads this
    {
      && Setting() && Proper(h, disk, Descend()) && disk.gone <= PostIds(h, 0)
      && (started.Paste? && disk.gone != [] ==> cut && cross && AllCopied(h, data, disk))
      && (started.Delete? ==> disk == NOTHING.(gone := disk.gone))
      && (copyEnded ==> disk.gone == [])
    }

    // What holds whenever sources may go.
    ghost predicate MayDelete()
      requires |h| == |data|
      reads this
    {
      started.Paste? ==> cut && cross && AllCopied(h, data, disk)
    }

    ghost predicate Base()
      reads this
    {
      && Setting() && Proper(h, disk, Descend()) && live && sound && disk.gone == released && !copyEnded
      && ReleaseWalk(h, nodes, released, at)
      && (started.Delete? ==> disk == NOTHING.(gone := disk.gone))
      && (released != [] || main.Delete? ==> MayDelete())
    }

    ghost predicate Valid()
      reads this
    {
      && Base()
      && match main
         case Paste =>
           && nodes == h && released == [] && at == 0 && started.Paste? && count == |copied|
           && Pasting(h, data, disk, Descend(), copied, task, op, lastOp, srcPos)
         case Delete =>
           && !task.File? && count == |copied| + |released|
           && if task.Init? then nodes == h && released == [] && at == 0 else at == op
         case Idle => true
    }

    ghost predicate Smooth()
      reads this
    {
      disk.short == {} && disk.stayed == {}
    }

    // All that the copy should do with the nodes is done.
    ghost predicate Pasted()
      requires |h| == |data|
      reads this
    {
      forall i :: 0 <= i < |h| && (Descend() || h[i].parent == NULL) ==> Handled(h, data, disk, Descend(), i)
    }

    // A run that met no trouble is over.
    ghost predicate Complete()
      requires |h| == |data| && Linked(h) && h != []
      reads this
    {
      && Smooth() && (started.Paste? ==> Pasted())
      && disk.gone == (if (cut && cross) || started.Delete? then PostIds(h, 0) else [])
    }

    lemma AllIsPasted()
      requires |h| == |data| && Descend() && AllCopied(h, data, disk)
      ensures Pasted()
    {
    }

    // What is left to do: phases, nodes, then bytes or levels below the walk.
    ghost function Phase(): nat
      reads this
    {
      (match main case Paste => 4 case Delete => 2 case Idle => 0) + if task.Init? then 1 else 0
    }

    ghost function NodesLeft(): int
      reads this
    {
      |h| - if main.Paste? then |copied| else |released|
    }

    ghost function FileLeft(): int
      reads this
    {
      if main.Delete? then |h| - op
      else if task.File? && 0 <= lastOp < |data| then 1 + |data[lastOp]| - srcPos
      else 0
    }

    twostate predicate Further()
      reads this
    {
      || Phase() < old(Phase())
      || (Phase() == old(Phase()) && 0 <= NodesLeft() < old(NodesLeft()))
      || (Phase() == old(Phase()) && NodesLeft() == old(NodesLeft()) && 0 <= FileLeft() < old(FileLeft()))
    }

    lemma BaseKept()
      requires Base()
      ensures Kept()
    {
      ReleaseShape(h, nodes, released, at);
    }

    // The end of the paste scan, with the sum of sizes it made and the free space.
    constructor (nodes: Arena, data: seq<seq<byte>>, cut: bool, cross: bool, bufSize: nat,
                 bytes: nat, freeClusters: nat, clusterSize: nat)
      requires Forest(nodes) && nodes != [] && |data| == |nodes| && bufSize > 0
      ensures Valid() && h == nodes && this.data == data && this.cut == cut && this.cross == cross
      ensures this.bufSize == bufSize && this.nodes == nodes && main == started && task.Init? && live && sound
      ensures copied == [] && released == [] && disk == NOTHING
      ensures started == if LowSpace(cross, bytes, freeClusters, clusterSize) then Delete else Paste
      // while the free sectors fit a word, it copies if there is room for the bytes and does
      // not if they exceed it by a KB
      ensures !cross || (freeClusters * clusterSize < WORD && bytes <= 512 * (freeClusters * clusterSize)) ==>
        started.Paste?
      ensures cross && freeClusters * clusterSize < WORD && bytes >= 512 * (freeClusters * clusterSize) + 1024 ==>
        started.Delete?
    {
      this.h, this.nodes, this.data, this.cut, this.cross := nodes, nodes, data, cut, cross;
      this.bufSize := bufSize;
      var low := LowSpace(cross, bytes, freeClusters, clusterSize);
      started := if low then Delete else Paste;
      main := if low then Delete else Paste;
      task, op, lastOp, count, srcPos := Task.Init, NULL, NULL, 0, 0;
      disk, released, live, sound := NOTHING, [], true, true;
      copied, at, copyEnded := [], 0, false;
      new;
      ReleaseStarts(nodes);
      if freeClusters * clusterSize < WORD {
        SpaceCompared(cross, bytes, freeClusters, clusterSize);
      }
    }

    // LV_FM_MAIN_PASTE, one tick; stop: this was the last one.
    method PasteTick(a: Answer) returns (stop: bool)
      requires Valid() && main.Paste?
      modifies this`main, this`task, this`op, this`lastOp, this`count, this`srcPos, this`disk, this`copied
      ensures if stop then Base() && main.Paste? && released == [] && at == 0 else Valid() && Further() && !main.Idle?
      ensures Fine(a, bufSize) && old(Smooth()) ==> Smooth() && (stop ==> Pasted() && !(cut && cross))
      ensures old(task).Init? ==> !stop && main.Paste? && task.Proc? && op == 0 && disk == old(disk)
      ensures old(task).Proc? && old(op) == NULL ==>
        disk == old(disk) && (stop <==> !(cut && cross)) && (!stop ==> main.Delete? && task.Init?)
    {
      hide ReleaseWalk, CopyWalk, HandledAll, Handled;
      stop := false;
      match task
      case Init =>
        op, task := 0, Proc;
        CopyStarts(h, Descend());
        HandledNone(h, data, disk, Descend());
      case Proc =>
        if op != NULL {
          stop := Visit(a);
        } else if cut && cross {
          HandledWhole(h, data, disk, Descend(), copied);
          main, task := Delete, Task.Init;
        } else {
          HandledWhole(h, data, disk, Descend(), copied);
          stop := true;
        }
      case File =>
        stop := CopyChunk(a);
    }

    // One node: its work, and then on to the next one.
    method Visit(a: Answer) returns (stop: bool)
      requires Valid() && main.Paste? && task.Proc? && op != NULL
      modifies this`task, this`op, this`lastOp, this`count, this`srcPos, this`disk, this`copied
      ensures if stop then Base() else Valid() && !task.Init? && |copied| <= |h|
      ensures !stop ==> 0 <= old(op) < |h| && copied == old(copied) + [old(op)]
      ensures !stop ==> h[old(op)].parent == NULL || h[old(op)].parent in old(copied)
      ensures Fine(a, bufSize) && old(Smooth()) ==> !stop && Smooth()
      ensures !stop && Descend() && !h[old(op)].folder ==>
        task.File? && lastOp == old(op) && srcPos == 0 && disk.copies == old(disk).copies[lastOp := []]
      ensures !stop ==> Linked(h) && op == CopyNext(h, old(op), Descend())
    {
      hide ReleaseWalk, CopyWalk, HandledAll, Handled, Partial, Proper, CopyNext, AllCopied, Forest;
      CopyNew(h, copied, op, Descend());
      ParentFirst(h, copied, op, Descend());
      CopyStep(h, copied, op, Descend());
      lastOp, count := op, count + 1;
      stop := Work(a);
      if stop {
        return;
      }
      if task.Proc? {
        HandledOneMore(h, data, disk, Descend(), copied, op);
      }
      assert (copied + [op])[..|copied|] == copied;
      copied := copied + [op];
      Onward();
    }

    // The next node: the roots' children are passed over when the roots are renamed.
    method Onward()
      requires Linked(nodes) && 0 <= op < |nodes|
      modifies this`op
      ensures op == CopyNext(nodes, old(op), Descend())
    {
      if Descend() {
        op := GoOn(nodes, op);
      } else {
        op := GoOver(nodes, op);
      }
    }

    // Rename the node, make the folder, or open the two files.
    method Work(a: Answer) returns (err: bool)
      requires Base() && nodes == h && released == [] && task.Proc? && started.Paste? && main.Paste?
      requires 0 <= op < |h| && op !in copied && HandledAll(h, data, disk, Descend(), copied)
      requires Descend() || h[op].parent == NULL
      modifies this`task, this`srcPos, this`disk
      ensures Base() && HandledAll(h, data, disk, Descend(), copied)
      ensures !err && task.Proc? ==> Handled(h, data, disk, Descend(), op)
      ensures !err && !task.Proc? ==>
        && task.File? && Descend() && !h[op].folder && op in disk.copies
        && Partial(data[op], srcPos, disk.copies[op], op in disk.short)
      ensures Fine(a, bufSize) && old(Smooth()) ==> !err && Smooth()
      ensures err ==> disk == old(disk) && task == old(task)
      ensures !err ==>
        var d := old(disk);
        if cut && !cross then
          task.Proc? && disk == if a.taken then d.(stayed := d.stayed + {op}) else d.(renamed := d.renamed + {op})
        else if nodes[op].folder then task.Proc? && disk == d.(made := d.made + {op})
        else task.File? && srcPos == 0 && disk == d.(copies := d.copies[op := []], short := d.short - {op})
    {
      hide ReleaseWalk, HandledAll, Proper;
      if !a.first {
        return true;
      }
      var d := disk;
      if cut && !cross {
        disk := if a.taken then d.(stayed := d.stayed + {op}) else d.(renamed := d.renamed + {op});
      } else if nodes[op].folder {
        disk := d.(made := d.made + {op});
      } else {
        if !a.second {
          return true;
        }
        disk, srcPos, task := d.(copies := d.copies[op := []], short := d.short - {op}), 0, Task.File;
      }
      HandledStays(h, data, d, disk, Descend(), copied, op);
      ProperMore(h, d, disk, Descend(), op);
      err := false;
    }

    // LV_FM_FILE_TASK_FILE: the next chunk; a read that is not full ends the file.
    method CopyChunk(a: Answer) returns (stop: bool)
      requires Valid() && main.Paste? && task.File?
      modifies this`task, this`srcPos, this`disk
      ensures if stop then Base() else Valid() && (task.Proc? || (task.File? && old(srcPos) < srcPos))
      ensures Fine(a, bufSize) && old(Smooth()) ==> !stop && Smooth()
      ensures stop <==> !a.first || !a.second
      ensures !stop ==>
        && old(srcPos) <= srcPos <= |data[lastOp]| && (task.Proc? <==> srcPos - old(srcPos) < bufSize)
        && (task.Proc? ==> srcPos == |data[lastOp]|) && srcPos - old(srcPos) <= bufSize
        && disk == old(disk).(short := disk.short, copies := old(disk).copies[lastOp := disk.copies[lastOp]])
        && disk.copies[lastOp] == old(disk).copies[lastOp] +
             data[lastOp][old(srcPos)..old(srcPos) + Min(a.stored, srcPos - old(srcPos))]
    {
      hide ReleaseWalk, Pasting, Proper, Forest, AllCopied;
      FileIsOpen();
      if !a.first || !a.second {
        return true;
      }
      var left := |data[lastOp]| - srcPos;
      var n := if left < bufSize then left else bufSize;
      StoreChunk(n, if a.stored < n then a.stored else n);
      if n != bufSize {
        FinishFile();
      }
      stop := false;
    }

    lemma FileIsOpen()
      requires Valid() && main.Paste? && task.File?
      ensures 0 <= lastOp < |data| && lastOp in disk.copies && srcPos <= |data[lastOp]|
    {
      PartialFits(data[lastOp], srcPos, disk.copies[lastOp], lastOp in disk.short);
    }

    // The end of the open file.
    method FinishFile()
      requires Valid() && main.Paste? && task.File? && 0 <= lastOp < |data| && srcPos == |data[lastOp]|
      modifies this`task
      ensures Valid() && task.Proc?
    {
      hide ReleaseWalk, CopyWalk, HandledAll, Handled, Proper, Forest, Partial, AllCopied;
      ghost var before := copied[..|copied| - 1];
      FileDone(h, data, disk, lastOp);
      HandledOneMore(h, data, disk, Descend(), before, lastOp);
      assert before + [lastOp] == copied;
      task := Proc;
    }

    // n bytes read, w of them written.
    method StoreChunk(n: nat, w: nat)
      requires Valid() && main.Paste? && task.File? && w <= n
      requires 0 <= lastOp < |data| && lastOp in disk.copies && srcPos + n <= |data[lastOp]|
      modifies this`srcPos, this`disk
      ensures Valid() && srcPos == old(srcPos) + n
      ensures var d := old(disk);
        disk == d.(copies := d.copies[lastOp := d.copies[lastOp] + data[lastOp][old(srcPos)..old(srcPos) + w]],
                   short := if w < n then d.short + {lastOp} else d.short)
    {
      hide ReleaseWalk, CopyWalk, HandledAll, Handled, Proper, Forest, Partial, AllCopied;
      var content, copy := data[lastOp], disk.copies[lastOp];
      PartialMore(content, srcPos, copy, lastOp in disk.short, n, w);
      var d := disk;
      disk := d.(copies := d.copies[lastOp := copy + content[srcPos..srcPos + w]],
                 short := if w < n then d.short + {lastOp} else d.short);
      srcPos := srcPos + n;
      HandledStays(h, data, d, disk, Descend(), copied[..|copied| - 1], lastOp);
      ProperMore(h, d, disk, Descend(), lastOp);
    }

    // LV_FM_MAIN_DELETE, one tick: a node without children left is unlinked and released.
    method DeleteTick(a: Answer) returns (stop: bool)
      requires Valid() && main.Delete?
      modifies this`nodes, this`task, this`op, this`count, this`disk, this`released, this`at
      ensures Base() && main.Delete? && (!stop ==> Valid() && Further())
      ensures disk == old(disk).(gone := disk.gone) && disk.gone == released
      ensures task == if old(task).Init? then Proc else old(task)
      ensures Fine(a, bufSize) && stop ==> released == PostIds(h, 0)
      ensures released == old(released) ||
        (0 <= old(op) < |h| && released == old(released) + [old(op)] && old(op) !in old(released) &&
         forall c :: 0 <= c < |h| && h[c].parent == old(op) ==> c in old(released))
      ensures old(task).Init? ==> !stop && op == 0 == at && nodes == old(nodes) && released == old(released)
      ensures !old(task).Init? && old(op) != NULL ==>
        var g, p := old(nodes), old(op);
        && 0 <= p < |g| && NULL <= g[p].parent < |g| && (stop <==> g[p].child == NULL && !a.first)
        && (stop || at == op)
        && (stop ||
            (if g[p].child == NULL then released == old(released) + [p] && nodes == Left(g, p) && op == LeftFor(g, p)
             else released == old(released) && nodes == g && op == g[p].child))
    {
      hide ReleaseWalk, AllCopied, Linked, Proper, Left, LeftFor;
      stop := false;
      ReleaseShape(h, nodes, released, at);
      if task.Init? {
        op, task := 0, Proc;
      } else if op != NULL {
        if nodes[op].child == NULL {
          count := count + 1;
          if !a.first {
            return true;
          }
          Unlink();
        } else {
          ReleaseDown(h, nodes, released, op);
          op := nodes[op].child;
          at := op;
        }
      } else {
        stop := true;
      }
    }

    // A node without children left goes, and the walk goes on.
    method Unlink()
      requires Base() && main.Delete? && task.Proc? && at == op && 0 <= op < |nodes|
      requires nodes[op].child == NULL && count == |copied| + |released| + 1
      modifies this`nodes, this`op, this`disk, this`released, this`at
      ensures Valid() && at == op && disk == old(disk).(gone := released) && |released| <= |h|
      ensures 0 <= old(op) < |h| && released == old(released) + [old(op)] && old(op) !in old(released)
      ensures forall c :: 0 <= c < |h| && h[c].parent == old(op) ==> c in old(released)
      ensures NULL <= old(nodes)[old(op)].parent < |old(nodes)|
      ensures nodes == Left(old(nodes), old(op)) && op == LeftFor(old(nodes), old(op))
    {
      hide ReleaseWalk, AllCopied, Linked, Proper, Left, LeftFor;
      ReleaseShape(h, nodes, released, op);
      ReleaseNext(h, nodes, released, op);
      GoneKeepsCopies(h, data, disk, disk.gone + [op]);
      ProperGone(h, disk, Descend(), disk.gone + [op]);
      disk := disk.(gone := disk.gone + [op]);
      released := released + [op];
      nodes, op := Leave(nodes, op);
      ReleaseShape(h, nodes, released, op);
      at := op;
    }

    // lv_fm_local_file_task: one tick.
    method Tick(a: Answer)
      requires Valid()
      modifies this
      ensures Kept() && (live ==> Valid() && Further() && (!old(main).Idle? ==> !main.Idle?))
      ensures !live && !old(main).Idle? ==> sound
      // an error in the copy phase, like its end, leaves all sources
      ensures copyEnded <==> old(main).Paste? && !live
      ensures copyEnded ==> disk.gone == []
      ensures old(main).Idle? ==> !live
      ensures !live && old(main).Idle? ==> (sound <==> OnLine(h, old(at)))
      ensures Fine(a, bufSize) && old(Smooth()) && !old(main).Idle? ==>
        if live then !main.Idle? && Smooth() else Complete() && released == PostIds(h, 0)
    {
      hide ReleaseWalk, CopyWalk, HandledAll, Handled, PostIds, AllCopied, Pasting;
      BaseKept();
      var stop := true;
      match main {
        case Idle =>
        case Paste => stop := PasteTick(a);
        case Delete =>
          stop := DeleteTick(a);
          if started.Paste? {
            AllIsPasted();
          }
      }
      if stop {
        ghost var pasting := main.Paste?;
        End();
        copyEnded := pasting;
      } else {
        BaseKept();
      }
    }

    // The cancel button.
    method Cancel()
      requires Valid()
      modifies this`main
      ensures Valid() && main.Idle?
    {
      main := Idle;
    }

    // Any run: whatever the file system answers and whenever the user cancels.
    method Session(events: seq<Event>) returns (ended: bool)
      requires Valid()
      modifies this
      ensures Kept() && (live ==> Valid()) && (ended ==> !live)
      // ended: the last tick was one of the copy phase, stopped by an error or by its end
      ensures ended <==> copyEnded
      ensures ended ==> disk.gone == []
    {
      BaseKept();
      ended := false;
      for i := 0 to |events|
        invariant Kept() && (live ==> Valid()) && (ended ==> !live) && (ended <==> copyEnded)
      {
        if live {
          match events[i]
          case Cancelled => Cancel(); BaseKept();
          case Answered(a) =>
            var pasting := main.Paste?;
            Tick(a);
            ended := pasting && !live;
        }
      }
    }

    // A run that is not cancelled ends.  If the file system carries out every call, the
    // whole forest is copied, moved or deleted, and given back to the heap once; and all
    // sources that went had their copies if and only if the run began by copying.
    method RunToEnd(answers: nat -> Answer)
      requires Valid() && !main.Idle? && copied == [] && released == [] && Smooth()
      modifies this
      ensures !live && sound && Kept()
      ensures (forall n :: Fine(answers(n), bufSize)) ==>
        && Complete() && released == PostIds(h, 0)
        && (started.Paste? <==> disk.gone == [] || AllCopied(h, data, disk))
    {
      hide ReleaseWalk, Pasting, Proper, PostIds, AllCopied;
      BaseKept();
      var n := 0;
      while live
        invariant Kept() && (live ==> Valid() && !main.Idle?) && (!live ==> sound)
        invariant (forall m :: Fine(answers(m), bufSize)) ==>
          if live then Smooth() else Complete() && released == PostIds(h, 0)
        decreases live, Phase(), NodesLeft(), FileLeft()
      {
        Tick(answers(n));
        n := n + 1;
      }
      if forall m :: Fine(answers(m), bufSize) {
        SafeOrNot();
      }
    }

    lemma SafeOrNot()
      requires Kept() && Complete()
      ensures started.Paste? <==> disk.gone == [] || AllCopied(h, data, disk)
    {
      if started.Delete? {
        ForestOnce(h);
        assert !CopiedAt(h, data, disk, 0);
      }
    }

    // A source that went in a run that began by copying has its copy, and a file's copy
    // equals it exactly if no write for it was short.
    lemma GoneHasCopy(i: int)
      requires Kept() && started.Paste? && i in disk.gone
      ensures cut && cross && 0 <= i < |h|
      ensures h[i].folder ==> i in disk.made
      ensures !h[i].folder ==> i in disk.copies && (disk.copies[i] == data[i] <==> i !in disk.short)
    {
      var k :| 0 <= k < |disk.gone| && disk.gone[k] == i;
      assert PostIds(h, 0)[k] == i;
      assert CopiedAt(h, data, disk, i);
    }

    // The last tick: the forest is given back, except after a deletion.
    method End()
      requires Base()
      modifies this`nodes, this`released, this`main, this`task, this`live, this`sound
      ensures !live && main.Idle? && Kept()
      ensures sound <==> old(main).Delete? || OnLine(h, at)
      ensures old(main).Delete? ==> released == old(released)
      ensures !old(main).Delete? && sound ==> released == PostIds(h, 0)
    {
      BaseKept();
      if !main.Delete? {
        sound := Clean();
      }
      nodes, main, task, live := [], Idle, Task.Init, false;
    }

    // LV_FM_TREE_CLEAN: false if it comes to a node that was given back before.
    method Clean() returns (ok: bool)
      requires Base()
      modifies this`nodes, this`released
      ensures ok <==> OnLine(h, at)
      ensures ok ==> released == PostIds(h, 0)
    {
      hide ReleaseWalk, Cleaning, OnLine;
      var e := 0;
      ghost var there := false;
      CleanStarts(h, nodes, released, at);
      while e != NULL
        invariant Cleaning(h, nodes, released, at, e, there) && (e == NULL ==> there)
        decreases |h| - |released|, |h| - e
      {
        CleanTurn(h, nodes, released, at, e, there);
        if e in released {
          return false;
        }
        there := there || e == at;
        if nodes[e].child == NULL {
          released := released + [e];
        }
        if nodes[e].child != NULL {
          e := nodes[e].child;
        } else {
          nodes, e := Leave(nodes, e);
        }
      }
      CleanTurn(h, nodes, released, at, e, there);
      ok := true;
    }
  }

  // To the next sibling, or to the parent, whose children are then done.
  method Leave(g: Arena, p: int) returns (nodes: Arena, op: int)
    requires 0 <= p < |g| && NULL <= g[p].parent < |g|
    ensures nodes == Left(g, p) && op == LeftFor(g, p)
  {
    nodes := g;
    if g[p].next != NULL {
      op := g[p].next;
    } else if g[p].parent != NULL {
      op := g[p].parent;
      nodes := nodes[op := nodes[op].(child := NULL)];
    } else {
      op := NULL;
    }
  }
}
