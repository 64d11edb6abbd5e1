// The directory tree that a copy or delete operation works on, as the file system
// lists it, and the order in which a walk should meet its entries.
module OpItems {

  // AM_ARC with or without AM_RDO; AM_DIR; anything else.
  datatype Kind = File | Folder | Other

  // short: the 8.3 name; name: the long name, or the short one of an entry without.
  // opens: changing to the folder and finding its first entry succeed.
  datatype Item = Item(short: string, name: string, kind: Kind, size: nat, opens: bool, items: seq<Item>)

  // What the scan turns into a node.
  predicate Wanted(x: Item) {
    x.short != "" && x.short[0] != '.' && !x.kind.Other?
  }

  function Listed(items: seq<Item>): (s: seq<Item>)
    ensures forall x :: x in s <==>
      x in items && x.short != "" && x.short[0] != '.' && (x.kind.File? || x.kind.Folder?)
  {
    if items == [] then []
    else (if Wanted(items[0]) then [items[0]] else []) + Listed(items[1..])
  }

  function Kids(x: Item): seq<Item> {
    if x.kind.Folder? && x.opens then Listed(x.items) else []
  }

  // All listed descendants of x, in pre-order.
  function Below(x: Item): seq<Item>
    decreases x, 1
  {
    if x.kind.Folder? && x.opens then BelowAll(x.items) else []
  }

  function BelowAll(items: seq<Item>): seq<Item>
    decreases items, 0
  {
    if items == [] then []
    else (if Wanted(items[0]) then [items[0]] + Below(items[0]) else []) + BelowAll(items[1..])
  }

  // The pre-order of a list of items.
  function PreList(items: seq<Item>): seq<Item> {
    if items == [] then [] else [items[0]] + Below(items[0]) + PreList(items[1..])
  }

  lemma BelowIsPreList(items: seq<Item>)
    ensures BelowAll(items) == PreList(Listed(items))
  {
    if items != [] {
      BelowIsPreList(items[1..]);
      if Wanted(items[0]) {
        assert Listed(items) == [items[0]] + Listed(items[1..]);
        assert Listed(items)[1..] == Listed(items[1..]);
      } else {
        assert Listed(items) == Listed(items[1..]);
        assert BelowAll(items) == BelowAll(items[1..]);
      }
    }
  }

  lemma BelowKids(x: Item)
    ensures Below(x) == PreList(Kids(x))
  {
    if x.kind.Folder? && x.opens {
      BelowIsPreList(x.items);
    }
  }

  lemma PreListConcat(a: seq<Item>, b: seq<Item>)
    ensures PreList(a + b) == PreList(a) + PreList(b)
  {
    if a == [] {
      assert a + b == b;
    } else {
      assert (a + b)[1..] == a[1..] + b;
      PreListConcat(a[1..], b);
    }
  }

  // The bytes of the files in a list.
  function FileBytes(items: seq<Item>): nat {
    if items == [] then 0
    else (if items[0].kind.Folder? then 0 else items[0].size) + FileBytes(items[1..])
  }

  // A file counts with its size, and a folder with nothing.
  lemma FileBytesOne(x: Item)
    ensures FileBytes([x]) == if x.kind == Folder then 0 else x.size
  {
    assert [x][1..] == [];
  }

  lemma FileBytesConcat(a: seq<Item>, b: seq<Item>)
    ensures FileBytes(a + b) == FileBytes(a) + FileBytes(b)
  {
    if a == [] {
      assert a + b == b;
    } else {
      assert (a + b)[1..] == a[1..] + b;
      FileBytesConcat(a[1..], b);
    }
  }

  // The bytes of the files below the items of a list.
  function BytesBelow(items: seq<Item>): nat {
    if items == [] then 0 else FileBytes(Below(items[0])) + BytesBelow(items[1..])
  }

  lemma BytesBelowConcat(a: seq<Item>, b: seq<Item>)
    ensures BytesBelow(a + b) == BytesBelow(a) + BytesBelow(b)
  {
    if a == [] {
      assert a + b == b;
    } else {
      assert (a + b)[1..] == a[1..] + b;
      BytesBelowConcat(a[1..], b);
    }
  }

  // The files of a pre-order are those of the list and those below it.
  lemma PreListBytes(items: seq<Item>)
    ensures FileBytes(PreList(items)) == FileBytes(items) + BytesBelow(items)
  {
    if items != [] {
      PreListBytes(items[1..]);
      FileBytesConcat([items[0]] + Below(items[0]), PreList(items[1..]));
      FileBytesConcat([items[0]], Below(items[0]));
    }
  }

  // The sizes shown for the selected entries, folders included.
  function RootBytes(items: seq<Item>): nat {
    if items == [] then 0 else items[0].size + RootBytes(items[1..])
  }

  lemma RootBytesAppend(items: seq<Item>, x: Item)
    ensures RootBytes(items + [x]) == RootBytes(items) + x.size
  {
    if items == [] {
      assert items + [x] == [x];
    } else {
      assert (items + [x])[1..] == items[1..] + [x];
      RootBytesAppend(items[1..], x);
    }
  }

  // Nothing is below files.
  lemma {:induction false} FilesHaveNothingBelow(items: seq<Item>)
    requires forall x :: x in items ==> !x.kind.Folder?
    ensures BytesBelow(items) == 0
  {
    if items != [] {
      assert items[0] in items;
      forall x | x in items[1..] ensures !x.kind.Folder? {
        assert x in items;
      }
      FilesHaveNothingBelow(items[1..]);
    }
  }

  // One more than the largest unsigned 32-bit word.
  const WORD := 0x1_0000_0000

  // The paste is refused for lack of space: the sum is compared in KB with half the free
  // sectors, in 32-bit arithmetic, when the paste goes to another volume.
  predicate LowSpace(cross: bool, bytes: nat, freeClusters: nat, clusterSize: nat) {
    cross && bytes / 1024 > freeClusters * clusterSize % WORD / 2
  }

  // As long as the free sectors fit a word, bytes for which there is room are not refused,
  // and those that exceed it by a KB are.
  lemma SpaceCompared(cross: bool, bytes: nat, freeClusters: nat, clusterSize: nat)
    requires freeClusters * clusterSize < WORD
    ensures cross && bytes >= 512 * (freeClusters * clusterSize) + 1024 ==>
      LowSpace(cross, bytes, freeClusters, clusterSize)
    ensures !cross || bytes <= 512 * (freeClusters * clusterSize) ==> !LowSpace(cross, bytes, freeClusters, clusterSize)
  {
    var sectors := freeClusters * clusterSize;
    assert sectors % WORD == sectors;
  }

  // With more free sectors the product wraps, and what is refused for lack of space has it:
  // the comparison is with the free KB for all sums exactly if it does not wrap.
  lemma SpaceExact(freeClusters: nat, clusterSize: nat)
    ensures (forall bytes: nat :: LowSpace(true, bytes, freeClusters, clusterSize) <==>
                                  bytes / 1024 > freeClusters * clusterSize / 2)
      <==> freeClusters * clusterSize < WORD
  {
    var sectors := freeClusters * clusterSize;
    if sectors >= WORD {
      var bytes := sectors / 2 * 1024;
      assert bytes / 1024 == sectors / 2;
      assert sectors % WORD <= sectors - WORD;
      assert LowSpace(true, bytes, freeClusters, clusterSize);
    } else {
      assert sectors % WORD == sectors;
    }
  }

  // A selection of files is never refused, since the sum is set back between the
  // selection and the paste.
  lemma FilesNeverLow(roots: seq<Item>, cross: bool, freeClusters: nat, clusterSize: nat)
    requires forall x :: x in roots ==> !x.kind.Folder?
    ensures !LowSpace(cross, BytesBelow(roots), freeClusters, clusterSize)
  {
    FilesHaveNothingBelow(roots);
  }
}
