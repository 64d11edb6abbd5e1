// Runs of the file operations that come to the states in which they do not do what the
// user asked for.
module OpWitnesses {
  import opened Bytes
  import opened OpForest
  import opened OpItems
  import opened OpWalks
  import opened OpClean
  import opened OpFileTask

  const FINE := Answer(true, true, false, 8192)

  // A folder with two files.
  function Tree(): (h: Arena)
    ensures |h| == 3
    ensures h[0] == Node("d", true, 0, NULL, 1, NULL)
    ensures h[1] == Node("a", false, 4096, 0, NULL, 2) && h[2] == Node("b", false, 4096, 0, NULL, NULL)
  {
    [Node("d", true, 0, NULL, 1, NULL), Node("a", false, 4096, 0, NULL, 2), Node("b", false, 4096, 0, NULL, NULL)]
  }

  lemma TreeIs()
    ensures Forest(Tree()) && PostIds(Tree(), 0) == [1, 2, 0]
    ensures !OnLine(Tree(), 2)
  {
    hide Tree;
    var h := Tree();
    assert Linked(h);
    assert PreIds(h, 2) == [2] && PostIds(h, 2) == [2];
    assert PreIds(h, 1) == [1, 2] && PostIds(h, 1) == [1, 2];
    assert PreIds(h, 0) == [0, 1, 2] && PostIds(h, 0) == [1, 2, 0];
    assert ParentOf(h, 2) == 0;
  }

  // The files of the tree, of which only the sizes matter, and their bytes.
  function Contents(): (data: seq<seq<byte>>)
    ensures |data| == 3
  {
    [[], seq(4096, _ => 1), seq(4096, _ => 2)]
  }

  // A copy to another volume that has no room: the sources are deleted, and nothing is
  // copied.
  method CopyDeletes() returns (t: FileTask)
    ensures !t.cut && t.cross && !t.live && t.disk.gone == [1, 2, 0] && t.disk.made == {} && t.disk.copies == map[]
  {
    hide Tree, Contents, FileTask.Valid, FileTask.Base, PostIds;
    TreeIs();
    t := new FileTask(Tree(), Contents(), false, true, 8192, 8192, 0, 8);
    t.RunToEnd(_ => FINE);
  }

  // The same of a copy with 2 TiB to go to, of which the number of sectors wraps to 0.
  method RoomDeletes() returns (t: FileTask, freeClusters: nat)
    ensures 8 * freeClusters == WORD && !t.cut && t.cross && !t.live
    ensures t.disk.gone == [1, 2, 0] && t.disk.made == {} && t.disk.copies == map[]
  {
    hide Tree, Contents, FileTask.Valid, FileTask.Base, PostIds;
    TreeIs();
    freeClusters := 0x2000_0000;
    t := new FileTask(Tree(), Contents(), false, true, 8192, 8192, freeClusters, 8);
    t.RunToEnd(_ => FINE);
  }

  // A deletion cancelled behind its first file: cleaning comes to a node already released.
  method CancelUnsound() returns (t: FileTask)
    ensures !t.live && !t.sound
  {
    hide Tree, Contents, FileTask.Valid, FileTask.Base, FileTask.Kept, FileTask.Further, PostIds, OnLine;
    TreeIs();
    t := new FileTask(Tree(), Contents(), false, true, 8192, 8192, 0, 8);
    var _ := t.DeleteTick(FINE);
    var _ := t.DeleteTick(FINE);
    var _ := t.DeleteTick(FINE);
    assert t.at == 2;
    t.Cancel();
    t.Tick(FINE);
  }

  // One file of one byte.
  function One(): (h: Arena)
    ensures h == [Node("a", false, 1, NULL, NULL, NULL)]
  {
    [Node("a", false, 1, NULL, NULL, NULL)]
  }

  lemma OneIs()
    ensures Forest(One()) && CopyNext(One(), 0, true) == NULL
  {
    var h := One();
    assert Linked(h);
    assert PreIds(h, 0) == [0];
  }

  // A move to another volume: its one file is open, and the write stores nothing, without
  // an error.
  method CopiesNothing() returns (t: FileTask)
    ensures fresh(t) && t.Valid() && t.main.Paste? && t.task.Proc? && t.op == NULL && t.cut && t.cross
    ensures t.h == t.nodes == One() && t.data == [[1]] && t.disk.copies == map[0 := []] && t.released == []
  {
    hide One, FileTask.Valid, FileTask.Base, FileTask.Further, PostIds, CopyNext;
    OneIs();
    t := new FileTask(One(), [[1]], true, true, 8192, 0, 100, 8);
    var _ := t.PasteTick(FINE);
    var _ := t.Visit(FINE);
    var _ := t.CopyChunk(Answer(true, true, false, 0));
  }

  // The source goes, and its copy is empty.
  method MoveLoses() returns (t: FileTask)
    ensures t.Kept() && t.disk.gone == [0] && 0 in t.disk.copies && t.disk.copies[0] != t.data[0] == [1]
  {
    hide One, FileTask.Valid, FileTask.Base, FileTask.Further, PostIds, CopyNext;
    OneIs();
    t := CopiesNothing();
    var _ := t.PasteTick(FINE);
    var _ := t.DeleteTick(FINE);
    var _ := t.DeleteTick(FINE);
    t.BaseKept();
  }
}
