// The read ring of a local player: the buffer task refills it half by half from
// the file while the decoder reads it.  Whatever the order of these steps, the
// reader gets the bytes of the file, in order.
module StreamRing {
  import opened Bytes
  import opened RefillControl

  // What can happen between two looks at a player that is past its first fill.
  // Change is the start of playback by the decoder, or what the user's buttons ask for.
  datatype Step = Task(ok: bool) | Proc | Change(to: Playback) | Read(n: nat)

  // The life of a player: steps, seeks, and passes through the decoder's fill.
  datatype Move = Go(s: Step) | SeekFor(ofs: nat) | Filling(ok: bool)

  // What was delivered between two fills: the position of the first, and the bytes.
  datatype Run = Run(base: nat, bytes: seq<byte>)

  // Every unread byte p of the file sits at the ring index p is due at.
  ghost predicate Holds(ring: seq<byte>, file: seq<byte>, rptr: nat, playCur: nat, fptr: nat)
    requires playCur <= fptr <= |file| && fptr <= playCur + |ring| && rptr < |ring|
  {
    forall p :: playCur <= p < fptr ==> ring[Wrap(rptr + (p - playCur), |ring|)] == file[p]
  }

  // k modulo size.
  function Turn(k: nat, size: nat): (r: nat)
    requires size > 0
    ensures r < size
  {
    if k < size then k else Turn(k - size, size)
  }

  lemma TurnAdvances(x: nat, k: nat, size: nat)
    requires size > 0 && k <= size
    ensures Turn(x + k, size) == Wrap(Turn(x, size) + k, size)
  {
    if x >= size {
      TurnAdvances(x - size, k, size);
    }
  }

  lemma TurnIsMod(k: nat, size: nat)
    requires size > 0
    ensures Turn(k, size) == k % size
  {
    if k >= size {
      TurnIsMod(k - size, size);
      ModUnique(k, (k - size) / size + 1, (k - size) % size, size);
    }
  }

  lemma ModUnique(x: nat, q: nat, r: nat, n: nat)
    requires 0 < n && r < n && x == q * n + r
    ensures x % n == r
  {
    assert x == n * (x / n) + x % n;
    var d := x / n - q;
    assert n * d == n * (x / n) - n * q;
    assert n * d == r - x % n;
    assert -1 < d < 1;
  }

  lemma NothingHeld(ring: seq<byte>, file: seq<byte>, pos: nat)
    requires pos <= |file| && |ring| > 0
    ensures Holds(ring, file, 0, pos, pos)
  {
  }

  lemma WrapIsMod(i: nat, size: nat)
    requires i < 2 * size
    ensures i % size == Wrap(i, size)
  {
    ModUnique(i, if i < size then 0 else 1, Wrap(i, size), size);
  }

  // The read cursor and the ring contents of a filled ring.
  ghost predicate Placed(c: Control, base: nat, ring: seq<byte>, file: seq<byte>) {
    && base <= c.playCur <= c.fptr <= |file|
    && c.fptr <= c.playCur + |ring| && c.rptr < |ring|
    && c.rptr == Turn(c.playCur - base, |ring|)
    && Holds(ring, file, c.rptr, c.playCur, c.fptr)
  }

  // Appending file bytes behind the last unread one keeps every unread byte in place.
  lemma RefillHolds(before: seq<byte>, after: seq<byte>, file: seq<byte>, rptr: nat, playCur: nat, fptr: nat, n: nat)
    requires playCur <= fptr && fptr + n <= |file| && fptr + n <= playCur + |before| && rptr < |before|
    requires Holds(before, file, rptr, playCur, fptr)
    requires Copied(before, after, Wrap(rptr + (fptr - playCur), |before|), file, fptr, n)
    ensures Holds(after, file, rptr, playCur, fptr + n)
  {
    var w := Wrap(rptr + (fptr - playCur), |before|);
    forall p | playCur <= p < fptr + n
      ensures after[Wrap(rptr + (p - playCur), |after|)] == file[p]
    {
      var i := Wrap(rptr + (p - playCur), |before|);
      if p < fptr {
        assert !(w <= i < w + n);
        assert before[i] == file[p];
      } else {
        assert i == w + (p - fptr);
      }
    }
  }

  lemma NothingPlaced(c: Control, ring: seq<byte>, file: seq<byte>)
    requires c.playCur == c.fptr <= |file| && c.rptr == 0 && |ring| > 0
    ensures Placed(c, c.playCur, ring, file)
  {
    NothingHeld(ring, file, c.playCur);
  }

  lemma FilledPlaced(c: Control, base: nat, ring: seq<byte>, file: seq<byte>)
    requires Placed(c, base, ring, file)
    ensures Placed(c.(empty := false, decoder := Ready), base, ring, file)
  {
  }

  lemma ChunkPlaced(c: Control, base: nat, before: seq<byte>, after: seq<byte>, file: seq<byte>, half: nat)
    requires Placed(c, base, before, file) && |before| == 2 * half
    requires Inv(c, half, |file|) && c.decoder.Ready?
    requires c.readState.Wait? && c.br < c.btr && c.fptr < |file|
    requires Copied(before, after, c.ptr + c.br, file, c.fptr, Min(CHUNK, |file| - c.fptr))
    ensures Placed(ReadChunk(c, |file|), base, after, file)
  {
    hide Inv, Holds, Copied, Turn;
    ChunkKeeps(c, half, |file|);
    CopiedLength(before, after, c.ptr + c.br, file, c.fptr, Min(CHUNK, |file| - c.fptr));
    RefillHolds(before, after, file, c.rptr, c.playCur, c.fptr, Min(CHUNK, |file| - c.fptr));
  }

  // n elements of dst from index at on are those of ring from index r on, around its end.
  ghost predicate Taken<T>(before: seq<T>, after: seq<T>, at: nat, ring: seq<T>, r: nat, n: nat) {
    && |after| == |before| && at + n <= |before| && r < |ring| && n <= |ring|
    && forall k :: 0 <= k < |before| ==>
         after[k] == if at <= k < at + n then ring[Wrap(r + (k - at), |ring|)] else before[k]
  }

  // What a reader takes are the next bytes of the file, as far as they are loaded.
  lemma ReadHolds(ring: seq<byte>, file: seq<byte>, rptr: nat, playCur: nat, fptr: nat,
                  before: seq<byte>, after: seq<byte>, at: nat, k: nat, n: nat)
    requires playCur + k <= fptr <= |file| && fptr <= playCur + |ring| && k <= n
    requires Taken(before, after, at, ring, rptr, n) && Holds(ring, file, rptr, playCur, fptr)
    ensures after[at..at + k] == file[playCur..playCur + k]
    ensures k == n ==> Copied(before, after, at, file, playCur, n)
  {
    forall i | at <= i < at + k ensures after[i] == file[playCur + i - at] {
      assert ring[Wrap(rptr + (playCur + i - at - playCur), |ring|)] == file[playCur + i - at];
    }
  }

  lemma HoldsAdvance(ring: seq<byte>, file: seq<byte>, rptr: nat, playCur: nat, fptr: nat, k: nat)
    requires playCur + k <= fptr <= |file| && fptr <= playCur + |ring| && rptr < |ring|
    requires Wrap(rptr + k, |ring|) < |ring|
    requires Holds(ring, file, rptr, playCur, fptr)
    ensures Holds(ring, file, Wrap(rptr + k, |ring|), playCur + k, fptr)
  {
    forall p | playCur + k <= p < fptr
      ensures ring[Wrap(Wrap(rptr + k, |ring|) + (p - (playCur + k)), |ring|)] == file[p]
    {
      assert ring[Wrap(rptr + (p - playCur), |ring|)] == file[p];
    }
  }

  // Moving the reader on leaves the ring filled as before.
  lemma AdvancePlaced(c: Control, base: nat, ring: seq<byte>, file: seq<byte>, k: nat)
    requires Placed(c, base, ring, file) && c.playCur + k <= c.fptr && k < |ring|
    ensures Placed(Advance(c, k, |ring|), base, ring, file)
  {
    HoldsAdvance(ring, file, c.rptr, c.playCur, c.fptr, k);
    TurnAdvances(c.playCur - base, k, |ring|);
  }

  // The state with the read cursor at position p, for a ring filled from base on.
  function Put(c: Control, p: nat, base: nat, size: nat): Control
    requires base <= p && size > 0
  {
    c.(playCur := p, rptr := Turn(p - base, size))
  }

  // A reader at p would find the cursors and the ring as they should be.
  ghost predicate Right(c: Control, p: nat, base: nat, ring: seq<byte>, file: seq<byte>, half: nat) {
    && half > 0 && |ring| == 2 * half && base <= p
    && Inv(Put(c, p, base, 2 * half), half, |file|)
    && Placed(Put(c, p, base, 2 * half), base, ring, file)
  }

  lemma PutAdvance(c: Control, p: nat, q: nat, base: nat, size: nat)
    requires base <= p <= q <= p + size && size > 0
    ensures Advance(Put(c, p, base, size), q - p, size) == Put(c, q, base, size)
  {
    TurnAdvances(p - base, q - p, size);
  }

  // What is right for a reader is right for one further on.
  lemma AdvanceRight(c: Control, p: nat, q: nat, base: nat, ring: seq<byte>, file: seq<byte>, half: nat)
    requires Right(c, p, base, ring, file, half) && c.decoder.Ready?
    requires p <= q < c.fptr
    ensures Right(c, q, base, ring, file, half)
  {
    hide Inv, Holds, Turn;
    var h := Put(c, p, base, 2 * half);
    InvIs(h, half, |file|);
    PutAdvance(c, p, q, base, 2 * half);
    AdvanceKeeps(h, q - p, half, |file|);
    AdvancePlaced(h, base, ring, file, q - p);
  }

  // One run of the buffer task, seen by a reader at p at or behind the cursor: what is
  // right for it stays right, or is right from the cursor on.
  lemma TickRight(c: Control, p: nat, base: nat, before: seq<byte>, after: seq<byte>, file: seq<byte>, half: nat)
    returns (to: nat)
    requires Right(c, p, base, before, file, half) && c.decoder.Ready?
    requires p <= c.playCur <= p + half && c == Put(c, c.playCur, base, 2 * half)
    requires if Reads(c, |file|)
             then Copied(before, after, c.ptr + c.br, file, c.fptr, Min(CHUNK, |file| - c.fptr))
             else after == before
    ensures c.fptr <= |file| && Right(Tick(c, half, |file|), to, base, after, file, half)
    ensures to == p || (to == c.playCur && c.fptr > p + half)
  {
    hide Inv, Placed, Tick, Copied, Turn;
    TickPlaced(c, p, base, before, after, file, half);
    TickBack(c, half, |file|);
    to := TickKeepsOne(c, p, base, half, |file|);
    if to != p {
      PlacedFurther(Tick(c, half, |file|), p, to, base, after, file, half);
    }
  }

  lemma TickKeepsOne(c: Control, p: nat, base: nat, half: nat, fsize: nat) returns (to: nat)
    requires half > 0 && base <= p <= c.playCur <= p + half && c == Put(c, c.playCur, base, 2 * half)
    requires Inv(Put(c, p, base, 2 * half), half, fsize) && c.decoder.Ready?
    ensures base <= to && c.fptr <= fsize
    ensures var d := Tick(c, half, fsize);
      Inv(Put(d, to, base, 2 * half), half, fsize) && d == Put(d, d.playCur, base, 2 * half)
    ensures to == p || (to == c.playCur && c.fptr > p + half)
  {
    hide Inv, Tick, Turn, Advance;
    var h := Put(c, p, base, 2 * half);
    FptrInside(h, half, fsize);
    TickBack(c, half, fsize);
    PutAdvance(c, p, c.playCur, base, 2 * half);
    var moved := AheadTickKeeps(h, c.playCur - p, half, fsize);
    to := if moved then c.playCur else p;
  }

  lemma FptrInside(c: Control, half: nat, fsize: nat)
    requires Inv(c, half, fsize)
    ensures c.fptr <= fsize
  {
  }

  lemma PlacedFurther(d: Control, p: nat, to: nat, base: nat, ring: seq<byte>, file: seq<byte>, half: nat)
    requires half > 0 && |ring| == 2 * half && base <= p <= to <= p + half && to == d.playCur
    requires Inv(d, half, |file|) && d.decoder.Ready? && d == Put(d, to, base, 2 * half)
    requires Placed(Put(d, p, base, 2 * half), base, ring, file)
    ensures Right(d, to, base, ring, file, half)
  {
    assert d.playCur <= d.fptr;
    hide Inv, Holds;
    PutAdvance(d, p, to, base, 2 * half);
    AdvancePlaced(Put(d, p, base, 2 * half), base, ring, file, to - p);
  }

  // Only the cursors matter.
  lemma PlacedLike(c: Control, d: Control, base: nat, ring: seq<byte>, file: seq<byte>)
    requires Placed(c, base, ring, file)
    requires d.playCur == c.playCur && d.rptr == c.rptr && d.fptr == c.fptr
    ensures Placed(d, base, ring, file)
  {
  }

  lemma TickPlaced(c: Control, p: nat, base: nat, before: seq<byte>, after: seq<byte>, file: seq<byte>, half: nat)
    requires Right(c, p, base, before, file, half) && c.decoder.Ready?
    requires if Reads(c, |file|)
             then Copied(before, after, c.ptr + c.br, file, c.fptr, Min(CHUNK, |file| - c.fptr))
             else after == before
    ensures c.fptr <= |file| && |after| == 2 * half
    ensures Placed(Put(Tick(c, half, |file|), p, base, 2 * half), base, after, file)
  {
    hide Inv, Copied, Tick, Placed, Noted, Turn;
    var h := Put(c, p, base, 2 * half);
    InvIs(h, half, |file|);
    var d := Tick(c, half, |file|);
    TickBack(c, half, |file|);
    NotedIs(c, half);
    if Reads(c, |file|) {
      TickIs(c, half, |file|);
      ChunkPlaced(h, base, before, after, file, half);
      CopiedLength(before, after, c.ptr + c.br, file, c.fptr, Min(CHUNK, |file| - c.fptr));
      PlacedLike(ReadChunk(h, |file|), Put(d, p, base, 2 * half), base, after, file);
    } else {
      PlacedLike(h, Put(d, p, base, 2 * half), base, after, file);
    }
  }

  lemma CopiedLength(before: seq<byte>, after: seq<byte>, i: nat, src: seq<byte>, a: nat, n: nat)
    requires Copied(before, after, i, src, a, n)
    ensures |after| == |before|
  {
  }

  ghost predicate Fine(c: Control, p: nat, base: nat, ring: seq<byte>, file: seq<byte>, half: nat, taskRead: nat) {
    && half > 0 && |ring| == 2 * half && c.fptr <= |file|
    && (c.readState.Wait? && c.br > 0 ==> taskRead > 0)
    && match c.decoder
       case FillReq => Inv(c, half, |file|)
       case FillWait => Inv(c, half, |file|) && Placed(c, base, ring, file)
       case Ready =>
         && base <= c.playCur && c == Put(c, c.playCur, base, 2 * half)
         && Right(c, p, base, ring, file, half)
  }

  // What a run of the buffer task needs for its read to fit, and not to stop playback.
  lemma TaskFits(c: Control, p: nat, base: nat, ring: seq<byte>, file: seq<byte>, half: nat, taskRead: nat)
    requires Fine(c, p, base, ring, file, half, taskRead)
    requires c.fptr < |file| && !c.playback.Idle?
    ensures Reads(c, |file|) && TaskMayRun(c, |file|) ==> c.ptr + c.br + Min(CHUNK, |file| - c.fptr) <= 2 * half
    ensures c.readState.Wait? && c.br >= c.btr ==> taskRead > 0
  {
    if c.decoder.Ready? && Reads(c, |file|) {
      ChunkKeeps(Put(c, p, base, 2 * half), half, |file|);
    }
  }

  lemma TaskBounds(c: Control, p: nat, base: nat, ring: seq<byte>, file: seq<byte>, half: nat, taskRead: nat)
    requires Fine(c, p, base, ring, file, half, taskRead)
    ensures c.fptr <= |file| && (Reads(c, |file|) && TaskMayRun(c, |file|) ==> c.decoder.Ready?)
  {
  }

  lemma TaskKeeps(c: Control, d: Control, p: nat, base: nat, before: seq<byte>, after: seq<byte>,
                  file: seq<byte>, half: nat, t: nat, taskRead: nat)
    returns (to: nat)
    requires Fine(c, p, base, before, file, half, t) && TaskMayRun(c, |file|)
    requires c.decoder.Ready? ==> p <= c.playCur <= p + half
    requires d == Tick(c, half, |file|)
    requires if Reads(c, |file|)
             then taskRead == Min(CHUNK, |file| - c.fptr) &&
                  Copied(before, after, c.ptr + c.br, file, c.fptr, taskRead)
             else taskRead == t && after == before
    ensures Fine(d, to, base, after, file, half, taskRead)
    ensures to == p || (to == c.playCur && c.fptr > p + half)
  {
    TickBack(c, half, |file|);
    if c.decoder.Ready? {
      to := TickRight(c, p, base, before, after, file, half);
    } else {
      to := p;
      TickKeeps(c, half, |file|);
    }
  }

  // Moving the cursor is nothing to a reader for whom the ring is right.
  lemma MoveIsFree(c: Control, p: nat, k: nat, q: nat, base: nat, ring: seq<byte>, file: seq<byte>, half: nat, t: nat)
    requires Fine(c, p, base, ring, file, half, t) && c.decoder.Ready? && k <= 2 * half
    requires p <= q <= c.fptr && (q == p || q < c.fptr)
    ensures Fine(Advance(c, k, 2 * half), q, base, ring, file, half, t)
  {
    if q < c.fptr {
      AdvanceRight(c, p, q, base, ring, file, half);
    }
    hide Inv, Placed, Turn;
    PutAdvance(c, c.playCur, c.playCur + k, base, 2 * half);
    assert Put(Advance(c, k, 2 * half), q, base, 2 * half) == Put(c, q, base, 2 * half);
  }

  lemma PutIsFree(c: Control, p: nat, q: nat, base: nat, ring: seq<byte>, file: seq<byte>, half: nat, t: nat)
    requires Fine(c, p, base, ring, file, half, t) && c.decoder.Ready? && base <= q
    ensures Fine(Put(c, q, base, 2 * half), p, base, ring, file, half, t)
  {
    hide Inv, Placed, Turn;
    assert Put(Put(c, q, base, 2 * half), p, base, 2 * half) == Put(c, p, base, 2 * half);
  }

  // The empty flag and the playback state have nothing to do with the ring.
  lemma MoodIsFree(c: Control, d: Control, p: nat, base: nat, ring: seq<byte>, file: seq<byte>, half: nat, t: nat)
    requires Fine(c, p, base, ring, file, half, t)
    requires d == c.(empty := d.empty, playback := d.playback)
    ensures Fine(d, p, base, ring, file, half, t)
  {
    hide Inv, Holds, Turn;
    MoodInv(c, d, half, |file|);
    if c.decoder.Ready? {
      MoodInv(Put(c, p, base, 2 * half), Put(d, p, base, 2 * half), half, |file|);
    }
  }

  lemma MoodInv(c: Control, d: Control, half: nat, fsize: nat)
    requires d == c.(empty := d.empty, playback := d.playback)
    ensures Inv(c, half, fsize) <==> Inv(d, half, fsize)
  {
  }

  // A failing read only notes the state.
  lemma NoteKeeps(c: Control, p: nat, base: nat, ring: seq<byte>, file: seq<byte>, half: nat, t: nat)
    requires Fine(c, p, base, ring, file, half, t) && c.readState.Wait?
    ensures Fine(Noted(c, half), p, base, ring, file, half, t)
  {
    hide Phase, Holds, Noted, Chunks;
    NotedIs(c, half);
    if c.decoder.Ready? {
      StateIsFree(Put(c, p, base, 2 * half), Put(Noted(c, half), p, base, 2 * half), half, |file|);
    }
  }

  lemma TickBack(c: Control, half: nat, fsize: nat)
    requires c.fptr <= fsize
    ensures var d := Tick(c, half, fsize);
      && d.playCur == c.playCur && d.rptr == c.rptr && d.decoder == c.decoder
      && c.fptr <= d.fptr <= fsize && (d.fptr > c.fptr ==> Reads(c, fsize))
      && (!Reads(c, fsize) && d.readState.Wait? && d.br > 0 ==> c.readState.Wait? && c.br == d.br)
      && (d.playback.Waiting? ==> c.playback.Waiting?)
  {
  }

  lemma SliceMore(file: seq<byte>, i: nat, j: nat, k: nat)
    requires i <= j <= k <= |file|
    ensures file[i..j] + file[j..k] == file[i..k]
  {
  }

  // The sum of the guard in 32 bits.
  lemma GuardWraps(p: nat, n: nat)
    requires p < U32 && n < U32
    ensures (p + n) % U32 == if p + n < U32 then p + n else p + n - U32
  {
  }

  lemma FilledFine(c: Control, base: nat, ring: seq<byte>, file: seq<byte>, half: nat, taskRead: nat)
    requires half > 0 && |ring| == 2 * half && c.decoder.Ready? && c.readState.Req?
    requires Inv(c, half, |file|) && Placed(c, base, ring, file)
    ensures Fine(c, c.playCur, base, ring, file, half, taskRead)
  {
    assert Put(c, c.playCur, base, 2 * half) == c;
  }

  // The two memcpy calls of a read that goes around the end of the ring.
  method CopyAround(dst: array<byte>, at: nat, ring: array<byte>, r: nat, n: nat)
    requires r < ring.Length <= r + n && n <= ring.Length
    requires dst != ring && at + n <= dst.Length
    modifies dst
    ensures Taken(old(dst[..]), dst[..], at, ring[..], r, n)
  {
    var first := ring.Length - r;
    Memcpy(dst, at, ring[..], r, first);
    Memcpy(dst, at + first, ring[..], 0, n - first);
  }

  // A read of n bytes: in one piece, or in two around the end of the ring.
  method CopyRing(dst: array<byte>, at: nat, ring: array<byte>, r: nat, n: nat) returns (rptr: nat)
    requires r < ring.Length && n <= ring.Length
    requires dst != ring && at + n <= dst.Length
    modifies dst
    ensures rptr == Wrap(r + n, ring.Length)
    ensures Taken(old(dst[..]), dst[..], at, ring[..], r, n)
  {
    if r + n < ring.Length {
      Memcpy(dst, at, ring[..], r, n);
      rptr := r + n;
    } else {
      CopyAround(dst, at, ring, r, n);
      rptr := n - (ring.Length - r);
    }
  }

  // ------------------------------------------- a cursor that is not where it should be

  // The ring index of a 32-bit sum.
  function Index(sum: nat, size: nat): nat
    requires 0 < size
  {
    sum % U32 % size
  }

  lemma IndexIs(k: nat, size: nat)
    requires 0 < size && 2 * size <= U32 && k < 2 * size
    ensures Index(k, size) == Index(U32 + k, size) == Wrap(k, size)
  {
    assert (U32 + k) % U32 == k;
    WrapIsMod(k, size);
  }

  // The correction of the cursor to position place, in the source's 32-bit arithmetic.
  function Resynced(c: Control, place: nat, size: nat): Control
    requires 0 < size && c.playCur < U32 && place < U32
  {
    if place > c.playCur then
      c.(playCur := place, rptr := Index(c.rptr + (place - c.playCur), size))
    else if place < c.playCur then
      c.(playCur := place, rptr := Index(size + c.rptr + (U32 - (c.playCur - place)), size))
    else c
  }

  lemma WrapOnce(r: nat, size: nat)
    requires r < size
    ensures Wrap(r, size) == Wrap(size + r, size) == r
  {
  }

  // The sums of the correction, for a distance of at most a ring.
  lemma ResyncIndex(c: Control, place: nat, size: nat)
    requires 0 < size && 2 * size <= U32 && c.playCur < U32 && place < U32 && c.rptr < size
    ensures c.playCur <= place <= c.playCur + size ==>
              Resynced(c, place, size) == Advance(c, place - c.playCur, size)
    ensures place <= c.playCur <= place + size ==>
              Resynced(c, place, size) ==
              c.(playCur := place, rptr := Wrap(size - (c.playCur - place) + c.rptr, size))
  {
    hide Index, Wrap;
    if c.playCur < place <= c.playCur + size {
      IndexIs(c.rptr + (place - c.playCur), size);
    } else if place < c.playCur <= place + size {
      IndexIs(size - (c.playCur - place) + c.rptr, size);
    } else if place == c.playCur {
      WrapOnce(c.rptr, size);
    }
  }

  // A place the ring was filled for, within a ring's distance: the cursor gets there.
  lemma ResyncLands(c: Control, place: nat, base: nat, size: nat)
    requires 0 < size && 2 * size <= U32 && c.playCur < U32 && place < U32
    requires base <= c.playCur && base <= place && c == Put(c, c.playCur, base, size)
    requires c.playCur <= place + size && place <= c.playCur + size
    ensures Resynced(c, place, size) == Put(c, place, base, size)
  {
    ResyncIndex(c, place, size);
    if c.playCur <= place {
      PutAdvance(c, c.playCur, place, base, size);
    } else {
      PutAdvance(c, place, c.playCur, base, size);
    }
  }

  // Every run delivered the file in order from where it began.
  ghost predicate InFile(runs: seq<Run>, file: seq<byte>) {
    forall i :: 0 <= i < |runs| ==> runs[i].base <= |file| && runs[i].bytes <= file[runs[i].base..]
  }

  // The last one began at base and has come to playCur.
  ghost predicate UpTo(runs: seq<Run>, file: seq<byte>, base: nat, playCur: nat) {
    runs != [] && base <= playCur <= |file| && runs[|runs| - 1] == Run(base, file[base..playCur])
  }

  lemma RunExtended(runs: seq<Run>, file: seq<byte>, base: nat, pos: nat, cur: nat, got: seq<byte>)
    requires InFile(runs, file) && UpTo(runs, file, base, pos) && pos <= cur <= |file| && got == file[pos..cur]
    ensures InFile(Extended(runs, got), file) && UpTo(Extended(runs, got), file, base, cur)
  {
    SliceMore(file, base, pos, cur);
    assert file[base..cur] == file[base..][..cur - base];
  }

  lemma RunBegun(runs: seq<Run>, file: seq<byte>, base: nat)
    requires InFile(runs, file) && base <= |file|
    ensures InFile(runs + [Run(base, [])], file) && UpTo(runs + [Run(base, [])], file, base, base)
  {
  }

  // Where position p is in a ring filled from base on; for one before base, the place at
  // the end of the ring that the correction takes it to.
  function Due(base: nat, p: nat, size: nat): nat
    requires base <= p + size && p < base + 2 * size
  {
    if p < base then size - (base - p) else Wrap(p - base, size)
  }

  // A reader that has its cursor put to place finds the bytes a..b of the file behind it.
  ghost predicate Yields(c: Control, place: nat, ring: seq<byte>, file: seq<byte>, a: nat, b: nat)
    requires ring != [] && c.playCur < U32 && place < U32
  {
    var r := Resynced(c, place, |ring|).rptr;
    && r < |ring| && place <= a <= b <= |file| && b <= place + |ring|
    && forall p :: a <= p < b ==> ring[Wrap(r + (p - place), |ring|)] == file[p]
  }

  // A place before the position of the last fill: the bytes a..b read from there on are
  // those of the file exactly if those before that position happen to be at the other
  // end of the ring; in a full ring these are the bytes of the file one ring further on.
  lemma ResyncBehind(c: Control, place: nat, ring: seq<byte>, file: seq<byte>, a: nat, b: nat)
    requires 2 * |ring| <= U32 && |file| < U32
    requires c.rptr == 0 && Placed(c, c.playCur, ring, file)
    requires place < c.playCur <= place + |ring| && place <= a <= b <= c.fptr && b <= place + |ring|
    ensures Yields(c, place, ring, file, a, b) <==>
      forall p :: a <= p < b && p < c.playCur ==> ring[Due(c.playCur, p, |ring|)] == file[p]
    ensures c.fptr == c.playCur + |ring| ==>
      forall p :: a <= p < c.playCur ==> ring[Due(c.playCur, p, |ring|)] == file[p + |ring|]
  {
    ResyncIndex(c, place, |ring|);
    var r := Resynced(c, place, |ring|).rptr;
    forall p | a <= p < b ensures Wrap(r + (p - place), |ring|) == Due(c.playCur, p, |ring|) {
    }
    forall p | a <= p < b && c.playCur <= p ensures ring[Due(c.playCur, p, |ring|)] == file[p] {
      assert ring[Wrap(c.rptr + (p - c.playCur), |ring|)] == file[p];
    }
    if c.fptr == c.playCur + |ring| {
      forall p | a <= p < c.playCur ensures ring[Due(c.playCur, p, |ring|)] == file[p + |ring|] {
        assert ring[Wrap(c.rptr + (p + |ring| - c.playCur), |ring|)] == file[p + |ring|];
      }
    }
  }

  class Stream {
    const half: nat
    const ring: array<byte>
    const file: seq<byte>
    // The handle's cursors and states.
    var c: Control
    var error: bool
    // The byte counts of the last f_read of the buffer task and of the decoder's fill.
    var taskRead: nat
    var fillRead: nat
    // File position at the decoder's last fill.
    ghost var base: nat

    // The ring is right for a reader at p; the cursor itself may be elsewhere.
    ghost predicate Sound(p: nat)
      reads this, ring
    {
      && ring.Length == 2 * half && |file| + 2 * half <= U32 && 4 * half <= U32
      && Fine(c, p, base, ring[..], file, half, taskRead)
    }

    ghost predicate Valid()
      reads this, ring
    {
      Sound(c.playCur)
    }

    lemma CursorInside(p: nat)
      requires Sound(p) && c.decoder.Ready?
      ensures base <= c.playCur && c.rptr < 2 * half && p <= c.fptr <= |file|
      ensures c.fptr <= p + 2 * half && CHUNK <= half
      ensures c == Put(c, c.playCur, base, 2 * half) && Right(c, p, base, ring[..], file, half)
    {
    }

    lemma ValidIs()
      requires Valid()
      ensures Inv(c, half, |file|) && c.fptr <= |file|
      ensures !c.decoder.FillReq? ==> Placed(c, base, ring[..], file)
    {
    }

    constructor (half: nat, file: seq<byte>, start: nat)
      requires GoodSize(half) && start <= |file| && |file| + 2 * half <= U32 && 4 * half <= U32
      ensures Valid() && fresh(ring)
      ensures this.half == half && this.file == file
      ensures c.decoder.FillReq? && c.fptr == start && c.playback.Idle? && !error
      ensures c.readState.Req? && !c.empty
    {
      this.half := half;
      this.file := file;
      ring := new byte[2 * half](_ => 0);
      c := Control(start, 0, 0, 0, 0, 0, Req, None, None, false, Idle, FillReq);
      error := false;
      taskRead, fillRead := 0, 0;
      base := 0;
    }

    // f_read of CHUNK bytes into the ring at ptr + br.
    method ReadIntoRing() returns (n: nat)
      requires ring.Length == 2 * half && c.fptr <= |file|
      requires c.ptr + c.br + Min(CHUNK, |file| - c.fptr) <= 2 * half
      modifies this`c, ring
      ensures n == Min(CHUNK, |file| - old(c).fptr)
      ensures c == ReadChunk(old(c), |file|)
      ensures Copied(old(ring[..]), ring[..], c.ptr + old(c).br, file, old(c).fptr, n)
    {
      n := Min(CHUNK, |file| - c.fptr);
      Memcpy(ring, c.ptr + c.br, file, c.fptr, n);
      c := c.(fptr := c.fptr + n, br := c.br + n);
    }

    // Pausing a starved player, and choosing the half that is due.
    method NoteState()
      modifies this`c
      ensures c == Noted(old(c), half)
    {
      if c.empty && c.playback.Play? {
        c := c.(playback := Pause);
      }
      if c.rptr >= half && (c.lastState.None? || c.lastState.Full?) {
        c := c.(state := Half);
      } else if c.rptr < half && c.lastState.Half? {
        c := c.(state := Full);
      }
    }

    method RequestHalf()
      modifies this`c
      ensures c == Request(old(c), half)
    {
      match c.state
      case Half =>
        c := c.(ptr := 0, btr := half, br := 0, readState := Wait, lastState := Half);
      case Full =>
        c := c.(ptr := half, btr := half, br := 0, readState := Wait, lastState := Full);
      case None =>
    }

    method RefillStep(ok: bool)
      requires ring.Length == 2 * half && c.fptr < |file|
      requires ok && c.br < c.btr ==> c.ptr + c.br + Min(CHUNK, |file| - c.fptr) <= 2 * half
      requires c.br >= c.btr ==> taskRead > 0
      modifies this`c, this`taskRead, this`error, ring
      ensures c == if old(c).br >= old(c).btr then Complete(old(c))
                   else if ok then ReadChunk(old(c), |file|) else old(c)
      ensures error == (old(error) || (old(c).br < old(c).btr && !ok))
      ensures if ok && old(c).br < old(c).btr
              then taskRead == Min(CHUNK, |file| - old(c).fptr) &&
                   Copied(old(ring[..]), ring[..], c.ptr + old(c).br, file, old(c).fptr, taskRead)
              else taskRead == old(taskRead) && ring[..] == old(ring[..])
    {
      if c.br < c.btr && c.fptr < |file| {
        if !ok {
          error := true;
          return;
        }
        taskRead := ReadIntoRing();
      } else {
        // the source stops playback when its last read got nothing, which a full half rules out
        if taskRead == 0 {
          assert false;
        }
        c := c.(state := None, readState := Req);
        if c.empty {
          c := c.(empty := false, playback := Resume);
        }
      }
    }

    // The task behind its first test, as a step of the protocol.
    method TickNow(ok: bool)
      requires ring.Length == 2 * half && c.fptr < |file| && !c.playback.Idle?
      requires ok && Reads(c, |file|) ==> c.ptr + c.br + Min(CHUNK, |file| - c.fptr) <= 2 * half
      requires c.readState.Wait? && c.br >= c.btr ==> taskRead > 0
      modifies this`c, this`taskRead, this`error, ring
      ensures if ok || !Reads(old(c), |file|)
              then c == Tick(old(c), half, |file|) && error == old(error)
              else c == Noted(old(c), half) && error
      ensures if ok && Reads(old(c), |file|)
              then taskRead == Min(CHUNK, |file| - old(c).fptr) &&
                   Copied(old(ring[..]), ring[..], old(c).ptr + old(c).br, file, old(c).fptr, taskRead)
              else taskRead == old(taskRead) && ring[..] == old(ring[..])
    {
      NotedIs(c, half);
      TickIs(c, half, |file|);
      hide Noted, Trigger, Request, Complete, Copied, Tick;
      NoteState();
      match c.readState
      case Req => RequestHalf();
      case Wait => RefillStep(ok);
    }

    // lv_fm_player_local_buffer_task: one run; ok is the outcome of f_read, if called.
    // The reader for whom the ring is kept right may be somewhat behind the cursor; if
    // the task takes the cursor's word for it, the ring is right from the cursor on, and
    // more than half a ring is loaded.
    method BufferTask(ok: bool, ghost p: nat) returns (ghost to: nat)
      requires Sound(p) && (ok ==> TaskMayRun(c, |file|))
      requires c.decoder.Ready? ==> p <= c.playCur <= p + half
      modifies this`c, this`taskRead, this`error, ring
      ensures Sound(to) && (to == p || (to == c.playCur && c.fptr > p + half))
      ensures if ok || !Reads(old(c), |file|)
              then c == Tick(old(c), half, |file|) && error == old(error)
              else c == Noted(old(c), half) && error
    {
      hide Fine, Placed, Right, Copied, Inv, Noted;
      TaskBounds(c, p, base, ring[..], file, half, taskRead);
      TickBack(c, half, |file|);
      NotedIs(c, half);
      to := p;
      if c.playback.Idle? || c.fptr == |file| {
        return;
      }
      ghost var c0, r0 := c, ring[..];
      ghost var t0 := taskRead;
      TaskFits(c, p, base, ring[..], file, half, taskRead);
      TickNow(ok);
      if ok || !Reads(c0, |file|) {
        to := TaskKeeps(c0, c, p, base, r0, ring[..], file, half, t0, taskRead);
      } else {
        NoteKeeps(c0, p, base, r0, file, half, t0);
      }
    }

    // The copy out of the ring shared by the FLAC and JMV readers.
    method CopyOut(dst: array<byte>, at: nat, n: nat)
      requires Valid() && c.decoder.Ready?
      requires c.playCur + n < c.fptr
      requires dst != ring && at + n <= dst.Length
      modifies this`c, dst
      ensures Valid()
      ensures c == Advance(old(c), n, 2 * half)
      ensures Copied(old(dst[..]), dst[..], at, file, old(c).playCur, n)
    {
      CopyOver(dst, at, n, 0);
      assert c.playCur == old(c).playCur + n;
    }

    // The same copy, of k bytes more than are known to be loaded: the cursor is then that
    // much ahead of the reader for whom the ring is right.
    method CopyOver(dst: array<byte>, at: nat, n: nat, k: nat)
      requires Valid() && c.decoder.Ready?
      requires c.playCur + n < c.fptr && n + k <= 2 * half
      requires dst != ring && at + n + k <= dst.Length
      modifies this`c, dst
      ensures Sound(old(c).playCur + n) && c == Advance(old(c), n + k, 2 * half)
      ensures dst[at..at + n] == file[old(c).playCur..old(c).playCur + n]
      ensures k == 0 ==> Copied(old(dst[..]), dst[..], at, file, old(c).playCur, n)
    {
      hide Inv, Holds, Copied, Turn, Fine, Put;
      ValidIs();
      MoveIsFree(c, c.playCur, n + k, c.playCur + n, base, ring[..], file, half, taskRead);
      ghost var before := dst[..];
      var r := CopyRing(dst, at, ring, c.rptr, n + k);
      ReadHolds(ring[..], file, c.rptr, c.playCur, c.fptr, before, dst[..], at, n, n + k);
      c := c.(rptr := r, playCur := c.playCur + n + k);
    }

    // The correction of a read cursor that is not where it should be.
    method Resync(place: nat)
      requires half > 0 && c.playCur < U32 && place < U32
      modifies this`c
      ensures c == Resynced(old(c), place, 2 * half)
    {
      if c.playCur != place {
        if place > c.playCur {
          c := c.(rptr := Index(c.rptr + (place - c.playCur), 2 * half));
        } else {
          c := c.(rptr := Index(2 * half + c.rptr + (U32 - (c.playCur - place)), 2 * half));
        }
        c := c.(playCur := place);
      }
    }

    // Moving the read cursor over k bytes without reading them, past the reader for whom
    // the ring is right.
    method Skip(k: nat, ghost p: nat)
      requires Sound(p) && c.decoder.Ready?
      requires p <= c.playCur + k < c.fptr && k <= 2 * half
      modifies this`c
      ensures Valid()
      ensures c == Advance(old(c), k, 2 * half)
    {
      hide Fine, Inv, Placed, Turn, Put;
      CursorInside(p);
      MoveIsFree(c, p, k, c.playCur + k, base, ring[..], file, half, taskRead);
      WrapIsMod(c.rptr + k, 2 * half);
      c := c.(rptr := (c.rptr + k) % (2 * half), playCur := c.playCur + k);
    }

    // FLAC_FillReadBuf: a guarded read.  A request whose 32-bit sum wraps past the guard is
    // for no fewer bytes than the ring has; the source copies them from where they are not.
    method FillReadBuf(dst: array<byte>, at: nat, n: nat) returns (br: nat, outside: bool)
      requires Valid() && c.decoder.Ready? && n < U32
      requires dst != ring && at + n <= dst.Length
      modifies this`c, dst
      ensures Valid()
      ensures outside <==> old(c).playCur + n >= U32 && old(c).playCur + n - U32 < old(c).fptr
      ensures outside ==> n >= 2 * half && c == old(c)
      ensures !outside ==>
        if old(c).playCur + n >= old(c).fptr
        then br == 0 && c == old(c).(empty := true) && dst[..] == old(dst[..])
        else br == n && c == Advance(old(c), n, 2 * half) &&
             Copied(old(dst[..]), dst[..], at, file, old(c).playCur, n)
    {
      ValidIs();
      outside, br := false, 0;
      GuardWraps(c.playCur, n);
      hide Inv, Placed, Fine, Copied;
      if (c.playCur + n) % U32 >= c.fptr {
        MarkEmpty(c.playCur);
        return;
      }
      if c.playCur + n >= c.fptr {
        outside := true;
        return;
      }
      CopyOut(dst, at, n);
      br := n;
    }

    // One pass of the decoder through its FILL_READBUFF state; ok is the outcome of f_read.
    method Fill(ok: bool)
      requires Valid() && !c.decoder.Ready?
      modifies this, ring
      ensures Valid()
      ensures old(c).decoder.FillReq? ==>
                c == FillStart(old(c), half) && base == old(c).fptr && fillRead == old(fillRead)
      ensures old(c).decoder.FillWait? ==>
                base == old(base) &&
                c == if !ok && old(c).br < old(c).btr && old(c).fptr < |file| then old(c)
                     else FillStep(old(c), |file|, old(fillRead) == 0)
      ensures old(c).decoder.FillWait? ==>
                if ok && old(c).br < old(c).btr && old(c).fptr < |file| then fillRead > 0 else fillRead == old(fillRead)
      ensures error == (old(error) || (old(c).decoder.FillWait? &&
                if old(c).br < old(c).btr && old(c).fptr < |file| then !ok else old(fillRead) == 0))
      // the decoder goes on with an empty ring only from the end of the file
      ensures old(c).decoder.FillWait? && c.decoder.Ready? && c.playCur < |file| ==> c.playCur < c.fptr
    {
      hide Phase, Holds, Chunks, Placed;
      match c.decoder
      case FillReq =>
        FillStartKeeps(c, half, |file|);
        c := c.(playCur := c.fptr, readState := Req, rptr := 0, state := None, lastState := None);
        c := c.(ptr := 0, btr := 2 * half, br := 0, decoder := FillWait);
        base := c.playCur;
        NothingPlaced(c, ring[..], file);
      case FillWait =>
        FillStepKeeps(c, half, |file|, fillRead == 0);
        if c.br < c.btr && c.fptr < |file| {
          FillMore(ok);
        } else {
          if fillRead == 0 {
            error := true;
            return;
          }
          FilledPlaced(c, base, ring[..], file);
          c := c.(empty := false, decoder := Ready);
          FilledFine(c, base, ring[..], file, half, taskRead);
        }
    }

    // The whole fill, as the decoder's process step repeats it: the ring is full, or the
    // file loaded to its end, from the file position on, and not marked empty.
    method FillUp()
      requires Valid() && c.decoder.FillReq? && c.fptr < |file|
      modifies this, ring
      ensures Valid() && c.decoder.Ready? && !c.empty && c.playback == old(c).playback
      ensures base == c.playCur == old(c).fptr && c.rptr == 0
      ensures c.fptr == Min(c.playCur + 2 * half, |file|)
    {
      hide Stream.Valid, Inv, Chunks;
      Fill(true);
      ghost var start := c.playCur;
      while !c.decoder.Ready?
        invariant Valid() && !c.decoder.FillReq? && c.playback == old(c).playback && c.rptr == 0
        invariant base == c.playCur == start && (c.br > 0 ==> fillRead > 0) && |file| > start
        invariant start + c.br == c.fptr <= |file| && c.br <= c.btr == 2 * half
        invariant c.decoder.Ready? ==> !c.empty && (c.br == 2 * half || c.fptr == |file|)
        decreases |file| - c.fptr, !c.decoder.Ready?
      {
        FillInside();
        Fill(true);
      }
    }

    lemma FillInside()
      requires Valid() && c.decoder.FillWait?
      ensures half > 0 && c.fptr <= |file|
      ensures c.br < c.btr && c.fptr < |file| ==> c.br + Min(CHUNK, |file| - c.fptr) <= c.btr
    {
      FillStepKeeps(c, half, |file|, fillRead == 0);
    }

    // One read of the decoder's fill.
    method FillMore(ok: bool)
      requires Valid() && c.decoder.FillWait? && c.br < c.btr && c.fptr < |file|
      requires c.br + Min(CHUNK, |file| - c.fptr) <= c.btr
      requires Inv(FillStep(c, |file|, fillRead == 0), half, |file|)
      modifies this`c, this`error, this`fillRead, ring
      ensures Valid() && c == if ok then ReadChunk(old(c), |file|) else old(c)
      ensures if ok then fillRead > 0 else fillRead == old(fillRead)
      ensures error == (old(error) || !ok)
    {
      hide Phase, Chunks;
      if !ok {
        error := true;
        return;
      }
      ghost var c0, r0 := c, ring[..];
      fillRead := ReadIntoRing();
      RefillHolds(r0, ring[..], file, c0.rptr, c0.playCur, c0.fptr, fillRead);
    }

    // flac_lib_seek and jmv_lib_seek, as far as the ring is concerned.
    method Seek(ofs: nat, ghost p: nat)
      requires Sound(p) && !c.decoder.FillWait?
      modifies this`c
      ensures Valid()
      ensures c == SeekTo(old(c), ofs, |file|)
    {
      c := c.(fptr := Min(ofs, |file|), decoder := FillReq);
    }

    // The decoder goes back to its fill, from where the file position is.
    method FillAnew(ghost p: nat)
      requires Sound(p)
      modifies this`c
      ensures Valid() && c == old(c).(decoder := FillReq)
    {
      c := c.(decoder := FillReq);
    }

    // A reader that finds too little loaded.
    method MarkEmpty(ghost p: nat)
      requires Sound(p)
      modifies this`c
      ensures Sound(p) && c == old(c).(empty := true)
    {
      MoodIsFree(c, c.(empty := true), p, base, ring[..], file, half, taskRead);
      hide Fine;
      c := c.(empty := true);
    }

    // A new playback state: the decoder's start, or the user's buttons.
    method SetPlayback(to: Playback, ghost p: nat)
      requires Sound(p)
      modifies this`c
      ensures Sound(p) && c == old(c).(playback := to)
    {
      MoodIsFree(c, c.(playback := to), p, base, ring[..], file, half, taskRead);
      hide Fine;
      c := c.(playback := to);
    }

    // The playback transitions of the decoder's process step.
    method Process(ghost p: nat)
      requires Sound(p)
      modifies this`c
      ensures Sound(p)
      ensures c == old(c).(playback := if old(c).playback.Pause? then Waiting
                                       else if old(c).playback.Resume? then Play
                                       else old(c).playback)
    {
      if c.playback.Pause? {
        SetPlayback(Waiting, p);
      } else if c.playback.Resume? {
        SetPlayback(Play, p);
      }
    }

    method Do(s: Step) returns (got: seq<byte>)
      requires Valid() && c.decoder.Ready?
      requires s.Read? ==> s.n + |file| < U32
      modifies this, ring
      ensures Valid() && c.decoder.Ready? && base == old(base)
      ensures old(c).playCur <= c.playCur <= |file|
      ensures got == file[old(c).playCur..c.playCur]
      ensures s.Read? ==> |got| == if old(c).playCur + s.n < old(c).fptr then s.n else 0
      ensures s.Read? ==>
        c == if got != [] || s.n == 0 then old(c).(empty := c.empty, playCur := c.playCur, rptr := c.rptr)
             else old(c).(empty := true)
      ensures s.Read? && got != [] ==> c.empty == old(c).empty
      ensures !s.Read? ==> c.playCur == old(c).playCur
      ensures s.Task? ==>
        c == if s.ok || !Reads(old(c), |file|) then Tick(old(c), half, |file|) else Noted(old(c), half)
      ensures s.Change? ==> c == old(c).(playback := s.to)
      ensures s.Proc? ==>
        c == old(c).(playback := match old(c).playback
                                 case Pause => Waiting
                                 case Resume => Play
                                 case other => other)
    {
      ValidIs();
      hide Phase, Holds, Trigger, Noted, Complete, ReadChunk, Request, Fine;
      got := [];
      match s
      case Task(ok) =>
        TickBack(c, half, |file|);
        NotedIs(c, half);
        ghost var _ := BufferTask(ok, c.playCur);
      case Proc => Process(c.playCur);
      case Change(to) => SetPlayback(to, c.playCur);
      case Read(n) =>
        got := ReadSome(n);
    }

    method ReadSome(n: nat) returns (got: seq<byte>)
      requires Valid() && c.decoder.Ready? && n + |file| < U32
      modifies this`c
      ensures Valid() && c == old(c).(empty := c.empty, playCur := c.playCur, rptr := c.rptr)
      ensures if old(c).playCur + n < old(c).fptr
              then c.playCur == old(c).playCur + n && got == file[old(c).playCur..c.playCur] &&
                   c.empty == old(c).empty
              else c == old(c).(empty := true) && got == []
    {
      ValidIs();
      hide Inv, Placed, Fine;
      got := [];
      var dst := new byte[n](_ => 0);
      ghost var pos, before := c.playCur, dst[..];
      var br, _ := FillReadBuf(dst, 0, n);
      if br != 0 {
        CopiedSlice(before, dst[..], 0, file, pos, n);
        got := dst[..];
      }
    }

    // Any interleaving of buffer task runs, process steps, playback changes and guarded
    // reads: the bytes delivered are those of the file, in order, from where the reader
    // started.
    method Session(schedule: seq<Step>) returns (out: seq<byte>)
      requires Valid() && c.decoder.Ready?
      requires forall s :: s in schedule && s.Read? ==> s.n + |file| < U32
      modifies this, ring
      ensures Valid() && c.decoder.Ready? && base == old(base)
      ensures old(c).playCur <= c.playCur <= |file|
      ensures out == file[old(c).playCur..c.playCur]
    {
      ValidIs();
      hide Inv, Placed, Tick, Fine;
      out := [];
      ghost var start := c.playCur;
      for i := 0 to |schedule|
        invariant Valid() && c.decoder.Ready? && base == old(base)
        invariant start <= c.playCur <= |file|
        invariant out == file[start..c.playCur]
      {
        ghost var pos := c.playCur;
        var got := Do(schedule[i]);
        SliceMore(file, start, pos, c.playCur);
        out := out + got;
      }
    }

    // A reader of n bytes at a time that lets the task run when it is refused gets the file
    // to the end, but for the last n bytes at most.
    method ReadThrough(n: nat) returns (out: seq<byte>)
      requires Valid() && c.decoder.Ready? && !c.playback.Idle?
      requires 0 < n <= half && n + |file| < U32
      modifies this, ring
      ensures old(c).playCur <= c.playCur <= |file| <= c.playCur + n
      ensures Valid() && out == file[old(c).playCur..c.playCur]
    {
      hide Stream.Valid, Tick;
      ReaderInside();
      out := [];
      ghost var start := c.playCur;
      while c.fptr < |file| || c.playCur + n < c.fptr
        invariant Valid() && c.decoder.Ready? && !c.playback.Idle?
        invariant start <= c.playCur <= c.fptr <= |file|
        invariant out == file[start..c.playCur]
        decreases |file| - c.playCur, |file| - c.fptr, RefillControl.Turns(c)
      {
        ghost var pos := c.playCur;
        var got := ReadOrWait(n);
        SliceMore(file, start, pos, c.playCur);
        out := out + got;
      }
    }

    // A read, and if it is refused a run of the task.
    method ReadOrWait(n: nat) returns (got: seq<byte>)
      requires Valid() && c.decoder.Ready? && !c.playback.Idle?
      requires 0 < n <= half && n + |file| < U32
      requires c.fptr < |file| || c.playCur + n < c.fptr
      modifies this, ring
      ensures Valid() && c.decoder.Ready? && !c.playback.Idle?
      ensures old(c).playCur <= c.playCur <= c.fptr <= |file| && got == file[old(c).playCur..c.playCur]
      ensures if got != [] then c.playCur > old(c).playCur
              else c.fptr > old(c).fptr ||
                   (c.fptr == old(c).fptr && RefillControl.Turns(c) < RefillControl.Turns(old(c)))
    {
      hide Stream.Valid, Tick, RefillControl.Turns;
      ghost var was := c;
      got := Do(Read(n));
      if got == [] {
        assert RefillControl.Turns(c) == RefillControl.Turns(was) by {
          TurnsSame(was, true);
        }
        TaskServes(n);
        var _ := Do(Task(true));
      }
      ReaderInside();
    }

    lemma ReaderInside()
      requires Valid() && c.decoder.Ready?
      ensures c.playCur <= c.fptr <= |file|
    {
      CursorInside(c.playCur);
    }

    lemma TurnsSame(d: Control, empty: bool)
      ensures RefillControl.Turns(d.(empty := empty)) == RefillControl.Turns(d)
    {
    }

    // The task moves on when a request is refused below the end of the file.
    lemma TaskServes(n: nat)
      requires Valid() && c.decoder.Ready? && !c.playback.Idle?
      requires n <= half && c.fptr < |file| && c.playCur + n >= c.fptr
      ensures var d := Tick(c, half, |file|);
        && !d.playback.Idle? && d.playCur == c.playCur
        && (d.fptr > c.fptr || (d.fptr == c.fptr && RefillControl.Turns(d) < RefillControl.Turns(c)))
    {
      hide Inv, Tick, Placed, Fine;
      ValidIs();
      NoDeadlock(c, n, half, |file|);
      TurnsLess(c, half, |file|);
      TickKeeps(c, half, |file|);
    }

    // What the runs say: each delivered the file in order from where it began, the last
    // one up to the read cursor.
    ghost predicate Delivered(runs: seq<Run>)
      reads this
    {
      InFile(runs, file) && (!c.decoder.FillReq? ==> UpTo(runs, file, base, c.playCur))
    }

    // Any life of a player from its first fill on, with playback started, paused, resumed
    // and stopped, and with seeks: every run delivers the file in order from the position
    // of its fill.  A seek is not made in the middle of a fill, and after a seek the
    // buffer task does not go on with a refill before the fill begins.
    method Life(moves: seq<Move>) returns (runs: seq<Run>)
      requires Valid() && c.decoder.FillReq?
      requires forall m :: m in moves && m.Go? && m.s.Read? ==> m.s.n + |file| < U32
      modifies this, ring
      ensures Valid() && Delivered(runs)
      ensures moves != [] && moves[0].Filling? ==> runs != [] && runs[0].base == old(c).fptr
    {
      runs := [];
      for i := 0 to |moves|
        invariant Valid() && Delivered(runs) && (i == 0 ==> c == old(c) && runs == [])
        invariant i > 0 && moves[0].Filling? ==> runs != [] && runs[0].base == old(c).fptr
      {
        runs := Live(moves[i], runs);
      }
    }

    lemma FillPosition()
      requires Valid() && !c.decoder.Ready?
      ensures c.fptr <= |file| && FillStart(c, half).playCur == c.fptr
      ensures c.decoder.FillWait? ==>
        FillStep(c, |file|, fillRead == 0).playCur == c.playCur &&
        !FillStep(c, |file|, fillRead == 0).decoder.FillReq?
      ensures FillStart(c, half).decoder.FillWait? && FillStart(c, half).playback == c.playback
      ensures FillStep(c, |file|, fillRead == 0).playback == c.playback
    {
    }

    method Live(m: Move, before: seq<Run>) returns (runs: seq<Run>)
      requires Valid() && Delivered(before)
      requires m.Go? && m.s.Read? ==> m.s.n + |file| < U32
      modifies this, ring
      ensures Valid() && Delivered(runs)
      ensures m.Filling? && old(c).decoder.FillReq? ==>
        c == FillStart(old(c), half) && runs == before + [Run(old(c).fptr, [])]
      ensures m.Filling? && m.ok && old(c).decoder.FillWait? ==>
        c == FillStep(old(c), |file|, old(fillRead) == 0) && runs == before
      ensures before != [] ==> runs != [] && runs[0].base == before[0].base
      ensures m.SeekFor? ==>
        runs == before && c == if old(c).decoder.FillWait? then old(c) else SeekTo(old(c), m.ofs, |file|)
      ensures m.Go? && old(c).decoder.Ready? ==>
        c.playCur == old(c).playCur + if m.s.Read? && old(c).playCur + m.s.n < old(c).fptr then m.s.n else 0
      ensures m.Go? && m.s.Task? && m.s.ok && TaskMayRun(old(c), |file|) ==> c == Tick(old(c), half, |file|)
      ensures m.Go? && m.s.Change? ==> c.playback == m.s.to
    {
      hide Inv, Placed, Tick, Fine, Reads, InFile, UpTo, FillStart, FillStep;
      runs := before;
      match m
      case Go(s) =>
        if c.decoder.Ready? {
          NotNone(before);
          ghost var pos := c.playCur;
          var got := Do(s);
          RunExtended(before, file, base, pos, c.playCur, got);
          runs := Extended(runs, got);
        } else {
          Meanwhile(s);
        }
      case SeekFor(ofs) =>
        if !c.decoder.FillWait? {
          Seek(ofs, c.playCur);
        }
      case Filling(ok) =>
        if c.decoder.FillReq? {
          FillPosition();
          RunBegun(before, file, c.fptr);
          runs := runs + [Run(c.fptr, [])];
          Fill(ok);
        } else if c.decoder.FillWait? {
          FillPosition();
          Fill(ok);
        }
    }

    lemma NotNone(runs: seq<Run>)
      requires Delivered(runs) && !c.decoder.FillReq?
      ensures runs != []
    {
    }

    // What happens besides the decoder while it is in its fill.
    method Meanwhile(s: Step)
      requires Valid() && !c.decoder.Ready?
      modifies this`c, this`taskRead, this`error, ring
      ensures Valid() && base == old(base) && c.playCur == old(c).playCur && c.decoder == old(c).decoder
      ensures s.Task? && s.ok && TaskMayRun(old(c), |file|) ==> c == Tick(old(c), half, |file|)
      ensures s.Change? ==> c.playback == s.to
    {
      if s.Change? {
        SetPlayback(s.to, c.playCur);
      } else if s.Task? && (!s.ok || TaskMayRun(c, |file|)) {
        TickBack(c, half, |file|);
        NotedIs(c, half);
        ghost var _ := BufferTask(s.ok, c.playCur);
      }
    }
  }

  // The last run with more bytes.
  function Extended(runs: seq<Run>, got: seq<byte>): seq<Run>
    requires runs != []
  {
    var n := |runs| - 1;
    runs[n := Run(runs[n].base, runs[n].bytes + got)]
  }
}
