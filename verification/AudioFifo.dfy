// The byte FIFO between the player's main loop, which puts audio packets in, and the
// audio DMA interrupt, which takes them out.
module AudioFifo {
  import opened Bytes
  import opened RefillControl
  import opened StreamRing

  const FIFO_SIZE: nat := 80 * 1024

  // The buffer holds the last n bytes of the stream between the two pointers.
  ghost predicate InOrder(data: seq<byte>, readPtr: nat, writePtr: nat, n: nat,
                          stream: seq<byte>, taken: nat) {
    && |data| == FIFO_SIZE && readPtr < FIFO_SIZE && n <= FIFO_SIZE
    && writePtr == Wrap(readPtr + n, FIFO_SIZE)
    && taken + n == |stream|
    && Holds(data, stream, readPtr, taken, |stream|)
  }

  // Bytes copied in behind the last one keep every byte in place.
  lemma StagedInOrder(before: seq<byte>, after: seq<byte>, readPtr: nat, writePtr: nat, m: nat,
                      stream: seq<byte>, taken: nat, file: seq<byte>, pos: nat, n: nat)
    requires InOrder(before, readPtr, writePtr, m, stream, taken) && m + n <= FIFO_SIZE
    requires Copied(before, after, writePtr, file, pos, n)
    ensures InOrder(after, readPtr, (writePtr + n) % FIFO_SIZE, m + n, stream + file[pos..pos + n], taken)
  {
    var longer := stream + file[pos..pos + n];
    forall k | pos <= k < pos + n ensures file[k] == longer[|stream| + k - pos] {
      assert file[pos..pos + n][k - pos] == file[k];
    }
    CopiedSame(before, after, writePtr, file, pos, longer, |stream|, n);
    RefillHolds(before, after, longer, readPtr, taken, |stream|, n);
    WrapIsMod(writePtr + n, FIFO_SIZE);
  }

  lemma TakenInOrder(data: seq<byte>, readPtr: nat, writePtr: nat, m: nat,
                     stream: seq<byte>, taken: nat, n: nat)
    requires InOrder(data, readPtr, writePtr, m, stream, taken) && n <= m
    ensures InOrder(data, Wrap(readPtr + n, FIFO_SIZE), writePtr, m - n, stream, taken + n)
  {
    HoldsAdvance(data, stream, readPtr, taken, |stream|, n);
  }

  lemma TakenAround(before: seq<byte>, after: seq<byte>, at: nat, data: seq<byte>, r: nat, n: nat)
    requires Taken(before, after, at, data, r, n)
    ensures Around(before, after, at, n)
  {
  }

  class Fifo {
    const data: array<byte>
    var writePtr: nat
    var readPtr: nat
    var available: nat
    // Every byte put in since the last reset, how many of them were taken out, and how
    // many are in the buffer but not yet counted as available.
    ghost var stream: seq<byte>
    ghost var taken: nat
    ghost var staged: nat

    // The buffer is in order from index r on.
    ghost predicate From(r: nat)
      reads this, data
    {
      && data.Length == FIFO_SIZE && writePtr < FIFO_SIZE
      && available + staged <= FIFO_SIZE && taken + available + staged == |stream|
      && InOrder(data[..], r, writePtr, available + staged, stream, taken)
    }

    ghost predicate Valid()
      reads this, data
    {
      From(readPtr)
    }

    constructor ()
      ensures Valid() && fresh(data)
      ensures stream == [] && taken == 0 && available == 0 && staged == 0
    {
      data := new byte[FIFO_SIZE](_ => 0);
      writePtr, readPtr, available := 0, 0, 0;
      stream, taken, staged := [], 0, 0;
    }

    method Reset()
      requires data.Length == FIFO_SIZE
      modifies this
      ensures Valid() && stream == [] && taken == 0 && available == 0 && staged == 0
    {
      writePtr, readPtr, available := 0, 0, 0;
      stream, taken, staged := [], 0, 0;
    }

    // What the copies out of the buffer need in order to stay inside it.
    ghost predicate Safe()
      reads this`readPtr
    {
      data.Length == FIFO_SIZE && readPtr < FIFO_SIZE
    }

    lemma ValidSafe()
      requires Valid()
      ensures Safe()
    {
    }

    // One turn of the copy loops.
    method CopyByte(dst: array<byte>, i: nat)
      requires Safe() && dst != data && i < dst.Length
      modifies this`readPtr, dst
      ensures Safe() && readPtr == Wrap(old(readPtr) + 1, FIFO_SIZE)
      ensures dst[..] == old(dst[..])[i := data[old(readPtr)]]
    {
      dst[i] := data[readPtr];
      readPtr := (readPtr + 1) % FIFO_SIZE;
    }

    // The copy loop of the DMA callbacks, whatever is in the buffer.
    method CopyLoop(dst: array<byte>, at: nat, n: nat)
      requires Safe() && n <= FIFO_SIZE
      requires dst != data && at + n <= dst.Length
      modifies this`readPtr, dst
      ensures Safe() && readPtr == Wrap(old(readPtr) + n, FIFO_SIZE)
      ensures Taken(old(dst[..]), dst[..], at, data[..], old(readPtr), n)
    {
      ghost var before := dst[..];
      for i := 0 to n
        invariant Safe() && data[..] == old(data[..])
        invariant readPtr == Wrap(old(readPtr) + i, FIFO_SIZE)
        invariant Taken(before, dst[..], at, data[..], old(readPtr), i)
      {
        CopyByte(dst, at + i);
      }
    }

    // A callback's copy of n bytes that are available.  What it takes are the next bytes
    // put in if the buffer was in order.
    method Take(dst: array<byte>, at: nat, n: nat)
      requires Safe() && n <= available && n <= FIFO_SIZE
      requires dst != data && at + n <= dst.Length
      modifies this`readPtr, this`available, this`taken, dst
      ensures Safe() && available == old(available) - n && taken == old(taken) + n
      ensures Around(old(dst[..]), dst[..], at, n)
      ensures old(Valid()) ==> Valid() && Copied(old(dst[..]), dst[..], at, stream, old(taken), n)
    {
      hide Copied, Holds, Taken, Around;
      ghost var content, before, r := data[..], dst[..], readPtr;
      ghost var sound := Valid();
      if sound {
        TakenInOrder(content, r, writePtr, available + staged, stream, taken, n);
      }
      CopyLoop(dst, at, n);
      TakenAround(before, dst[..], at, content, r, n);
      if sound {
        ReadHolds(content, stream, r, taken, |stream|, before, dst[..], at, n, n);
      }
      available := available - n;
      taken := taken + n;
      assert data[..] == content;
    }

    // The priming step's subtraction, which does not look at the count: when less is there
    // than was copied, the unsigned count wraps.
    method Subtract(n: nat, ghost r: nat)
      requires n <= FIFO_SIZE && available <= FIFO_SIZE
      modifies this`available, this`taken
      ensures n > old(available) ==> available == old(available) + U32 - n > FIFO_SIZE
      ensures n <= old(available) && old(From(r)) && readPtr == Wrap(r + n, FIFO_SIZE) ==>
        Valid() && available == old(available) - n && taken == old(taken) + n
    {
      hide Holds;
      if n <= available {
        if From(r) {
          TakenInOrder(data[..], r, writePtr, available + staged, stream, taken, n);
        }
        available := available - n;
        taken := taken + n;
      } else {
        available := available + U32 - n;
      }
    }

    // Copying n bytes out of a stream behind the bytes already there, without going
    // around the end of the buffer.  They are not counted as available yet.
    method StagePiece(s: Stream, n: nat)
      requires Valid() && available + staged + n <= FIFO_SIZE && writePtr + n <= FIFO_SIZE
      requires s.Valid() && s.c.decoder.Ready? && s.c.playCur + n < s.c.fptr
      requires s.ring != data
      modifies this`writePtr, this`stream, this`staged, data, s`c
      ensures Valid() && s.Valid()
      ensures staged == old(staged) + n && writePtr == (old(writePtr) + n) % FIFO_SIZE
      ensures stream == old(stream) + s.file[old(s.c).playCur..old(s.c).playCur + n]
      ensures s.c == Advance(old(s.c), n, 2 * s.half)
    {
      hide Inv, Holds, InOrder, Turn, Copied, Fine, Put;
      s.ValidIs();
      ghost var pos, before := s.c.playCur, data[..];
      s.CopyOut(data, writePtr, n);
      StagedInOrder(before, data[..], readPtr, writePtr, available + staged, stream, taken, s.file, pos, n);
      ghost var after := data[..];
      writePtr := (writePtr + n) % FIFO_SIZE;
      stream, staged := stream + s.file[pos..pos + n], staged + n;
      assert data[..] == after;
    }

    // Copying a packet of n bytes in, in one piece or in two around the end of the buffer.
    method Stage(s: Stream, n: nat)
      requires Valid() && staged == 0
      requires s.Valid() && s.c.decoder.Ready? && s.c.playCur + n < s.c.fptr
      requires s.ring != data && available + n <= FIFO_SIZE
      modifies this`writePtr, this`stream, this`staged, data, s`c
      ensures Valid() && s.Valid()
      ensures staged == n && s.c == old(s.c).(playCur := s.c.playCur, rptr := s.c.rptr)
      ensures stream == old(stream) + s.file[old(s.c).playCur..old(s.c).playCur + n]
    {
      hide Inv, Placed, Fine, InOrder, Put;
      s.CursorInside(s.c.playCur);
      var free := FIFO_SIZE - writePtr;
      ghost var pos := s.c.playCur;
      if n <= free {
        StagePiece(s, n);
      } else {
        StagePiece(s, free);
        StagePiece(s, n - free);
        SliceMore(s.file, pos, pos + free, pos + n);
        SeqAssoc(old(stream), s.file[pos..pos + free], s.file[pos + free..pos + n]);
      }
    }

    // fifo_bytes_available += n, with interrupts off.
    method Publish(n: nat)
      requires Valid() && staged == n
      modifies this`available, this`staged
      ensures Valid() && staged == 0 && available == old(available) + n
    {
      available := available + n;
      staged := 0;
    }
  }
}
