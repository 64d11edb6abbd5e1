// The JMV video player: one read ring, read at two places.  The JPEG images are taken
// at videoPos, the audio ahead of them at fifoPos; the audio goes through a FIFO that
// the DMA interrupt drains while the main loop runs.
module JmvPlayer {
  import opened Bytes
  import opened RefillControl
  import opened StreamRing
  import opened AudioFifo
  import opened JmvLayout

  // What is assumed of movie files; the player checks none of it: the file is complete,
  // packets and images fit their buffers, and a frame is no larger than half the ring.
  predicate WellFormed(m: Movie, jpegSize: nat, half: nat) {
    && 32 <= m.pkt <= half && 2 * m.pkt <= FIFO_SIZE
    && Off(m, |m.vect|) <= |m.file| <= Off(m, |m.vect|) + m.pkt
    && Off(m, |m.vect|) + m.pkt < U32
    && jpegSize % 32 == 0
    && forall i :: 0 <= i < |m.vect| ==> m.vect[i] <= jpegSize && m.pkt + m.vect[i] <= half
  }

  // Where interrupts come in one fill of the FIFO: after the space check, after the copy
  // and after the count is raised.
  datatype Slots = Slots(checked: seq<bool>, copied: seq<bool>, counted: seq<bool>)

  const QUIET := Slots([], [], [])

  // No interrupt in the first n turns of a loop.
  predicate QuietFor(irqs: seq<seq<bool>>, n: nat) {
    forall i :: 0 <= i < |irqs| && i < n ==> irqs[i] == []
  }

  // The decoder changes neither the file position nor the playback state.
  predicate Steady(c: Control, d: Control) {
    d.fptr == c.fptr && d.playback == c.playback
  }

  // All images have sizes that the rounding leaves as they are.
  predicate Aligned(m: Movie) {
    forall i :: 0 <= i < |m.vect| ==> m.vect[i] % 32 == 0
  }

  lemma Distribute(a: nat, b: nat, c: nat)
    ensures (a + b) * c == a * c + b * c
  {
  }

  function Later(a: nat, b: nat): nat {
    if a < b then b else a
  }

  // Where a percentage of n frames is.
  function FrameAt(percent: nat, n: nat): (f: nat)
    requires percent <= 100
    ensures f == percent * n / 100 <= n
  {
    FrameAtBound(percent, n);
    percent * n / 100
  }

  lemma FrameAtBound(percent: nat, n: nat)
    requires percent <= 100
    ensures percent * n / 100 <= n
  {
    assert percent * n <= 100 * n;
  }

  // (size + 31) & ~31
  function RoundUp32(size: nat): (r: nat)
    ensures size <= r < size + 32 && r % 32 == 0
    ensures r == size <==> size % 32 == 0
  {
    (size + 31) / 32 * 32
  }

  lemma RoundUpFits(size: nat, room: nat)
    requires size <= room && room % 32 == 0
    ensures RoundUp32(size) <= room
  {
  }

  lemma NothingQueued(m: Movie, f: nat)
    requires f <= |m.vect|
    ensures AllAudio(m, []) && Audio(m, []) == [] && Packets(0, m.pkt) == 0 && Starts(m, f, f) == []
  {
  }

  class Player {
    const movie: Movie
    const s: Stream
    const q: Fifo
    // hlib->buffer->ptr, the two halves of the DMA buffer, and jpeg_frame_buff
    const dma: array<byte>
    const jpeg: array<byte>
    var framePos: nat
    var fifoPos: nat
    var videoPos: nat
    var expected: nat
    // The file positions of the packets that went into the FIFO since playback was primed
    // at frame start, how many of them were taken out, how often the DMA found too little,
    // and how often the first frame was decoded again.
    ghost var start: nat
    ghost var queue: seq<nat>
    ghost var takenPackets: nat
    ghost var underruns: nat
    ghost var retries: nat
    ghost var primed: bool
    // How far the frames are from where the frame vector puts them since the last restart.
    ghost var shift: nat
    // Every packet so far was the one of the next frame.
    ghost var ordered: bool
    // The position from which on the ring is known to be right.
    ghost var safe: nat

    ghost predicate Shape()
    {
      && WellFormed(movie, jpeg.Length, s.half)
      && s.file == movie.file && dma.Length == 2 * movie.pkt
      && q.data != s.ring && dma != s.ring && dma != q.data
      && jpeg != s.ring && jpeg != q.data && jpeg != dma
    }

    // The audio side, which interrupts may find in the middle of a fill.
    ghost predicate AudioSound()
      reads this`queue, this`takenPackets, q, q.data
    {
      && Shape() && q.Valid()
      && AllAudio(movie, queue) && q.stream == Audio(movie, queue)
      && q.taken == Packets(takenPackets, movie.pkt) && takenPackets <= |queue|
    }

    // The clock counts the halves of the DMA buffer, the first two of which are primed.
    ghost predicate Clock()
      reads this`start, this`framePos, this`takenPackets, this`underruns, this`primed
    {
      start <= framePos && takenPackets + underruns + start == framePos + (if primed then 2 else 0)
    }

    ghost predicate Track()
      reads this`start, this`framePos, this`fifoPos, this`videoPos, this`queue, this`underruns
      reads this`retries, this`primed, this`shift, this`ordered
    {
      && start <= fifoPos <= |movie.vect| && fifoPos == start + |queue|
      && videoPos <= framePos + 1 + retries && (!primed ==> videoPos == start)
      && (ordered <==> queue == Starts(movie, start, fifoPos))
      && (Aligned(movie) && shift == 0 && underruns + retries <= 1 ==> ordered)
    }

    // The read cursor is at the audio of frame videoPos, or by the padding of the last
    // image further on.
    ghost predicate Cursor()
      reads this`videoPos, this`expected, this`shift, this`safe, s, s.ring
    {
      && s.Sound(safe) && s.c.decoder.Ready?
      && videoPos <= |movie.vect| && expected == Off(movie, videoPos) + shift && s.base <= expected
      && expected <= safe < expected + 32 && expected <= s.c.playCur < expected + 32
      && (safe != expected ==> s.c.fptr > expected + s.half)
      && (Aligned(movie) ==> s.c.playCur == expected)
    }

    ghost predicate Rest()
      reads this, q, q.data, s, s.ring
    {
      AudioSound() && q.staged == 0 && Clock() && Track() && Cursor()
    }

    ghost predicate Valid()
      reads this, q, q.data, s, s.ring
    {
      Rest() && safe <= s.c.playCur
    }

    // READ_HEADER and READ_FRAMEVECT: the file position is behind the frame vector.
    constructor (movie: Movie, half: nat, jpegSize: nat)
      requires WellFormed(movie, jpegSize, half) && movie.head <= |movie.file|
      requires GoodSize(half) && |movie.file| + 2 * half <= U32 && 4 * half <= U32
      ensures Shape() && AudioSound() && q.staged == 0 && s.Valid()
      ensures this.movie == movie && s.half == half
      ensures s.c.decoder.FillReq? && s.c.fptr == movie.head && s.c.playback.Idle?
      ensures s.c.readState.Req? && !s.c.empty
      ensures framePos == fifoPos == videoPos == 0
      ensures fresh(s) && fresh(s.ring) && fresh(q) && fresh(q.data) && fresh(dma) && fresh(jpeg)
    {
      this.movie := movie;
      s := new Stream(half, movie.file, movie.head);
      q := new Fifo();
      dma := new byte[2 * movie.pkt](_ => 0);
      jpeg := new byte[jpegSize](_ => 0);
      framePos, fifoPos, videoPos, expected := 0, 0, 0, 0;
      start, queue, takenPackets, underruns, retries, primed := 0, [], 0, 0, 0, false;
      shift, ordered, safe := 0, true, 0;
    }

    // ------------------------------------------------------------- interrupts

    // jmv_lib_transfer_half_cb and jmv_lib_transfer_complete_cb, for the two halves.  They
    // may come in the middle of the priming step's copy, when the FIFO is not in order.
    method TransferCallback(second: bool)
      requires Shape() && q.Safe()
      modifies this`framePos, this`takenPackets, this`underruns
      modifies q`readPtr, q`available, q`taken, dma
      ensures q.Safe() && (old(AudioSound()) ==> AudioSound())
      ensures !s.c.playback.Play? ==>
        && framePos == old(framePos) && takenPackets == old(takenPackets) && underruns == old(underruns)
        && q.available == old(q.available) && q.taken == old(q.taken) && q.readPtr == old(q.readPtr)
        && dma[..] == old(dma[..])
      ensures s.c.playback.Play? ==>
        var at := if second then movie.pkt else 0;
        && framePos == old(framePos) + 1 && at + movie.pkt <= dma.Length
        && (if old(q.available) >= movie.pkt
            then takenPackets == old(takenPackets) + 1 && underruns == old(underruns) &&
                 q.available == old(q.available) - movie.pkt &&
                 (old(AudioSound()) ==>
                    old(takenPackets) < |queue| && HasAudio(movie, queue[old(takenPackets)]) &&
                    dma[at..at + movie.pkt] == Packet(movie, queue[old(takenPackets)]))
            else takenPackets == old(takenPackets) && underruns == old(underruns) + 1 &&
                 q.available == old(q.available) &&
                 forall k :: at <= k < at + movie.pkt ==> dma[k] == 0)
        // the other half, which is being played, stays
        && Around(old(dma[..]), dma[..], at, movie.pkt)
    {
      hide InOrder, Copied, WellFormed, Around;
      if s.c.playback.Play? {
        var btr := dma.Length / 2;
        var at := if second then btr else 0;
        if q.available >= btr {
          TakePacket(at);
        } else {
          Silence(at, btr);
          underruns := underruns + 1;
        }
        framePos := framePos + 1;
      }
    }

    // memset of n bytes of the DMA buffer.
    method Silence(at: nat, n: nat)
      requires at + n <= dma.Length
      modifies dma
      ensures forall k :: at <= k < at + n ==> dma[k] == 0
      ensures Around(old(dma[..]), dma[..], at, n)
    {
      forall k | at <= k < at + n {
        dma[k] := 0;
      }
    }

    // The callback's copy of one packet to index at of the DMA buffer.
    method TakePacket(at: nat)
      requires Shape() && q.Safe() && q.available >= movie.pkt && at + movie.pkt <= dma.Length
      modifies this`takenPackets, q`readPtr, q`available, q`taken, dma
      ensures q.Safe() && takenPackets == old(takenPackets) + 1
      ensures q.available == old(q.available) - movie.pkt
      ensures old(AudioSound()) ==>
        && AudioSound() && takenPackets <= |queue| && HasAudio(movie, queue[old(takenPackets)])
        && dma[at..at + movie.pkt] == Packet(movie, queue[old(takenPackets)])
      ensures Around(old(dma[..]), dma[..], at, movie.pkt)
    {
      hide InOrder, Copied, Audio, Around;
      ghost var t, before := q.taken, dma[..];
      ghost var sound := AudioSound();
      if sound {
        PacketsOrdered(takenPackets, |queue|, movie.pkt);
        AudioAt(movie, queue, takenPackets);
      }
      q.Take(dma, at, movie.pkt);
      takenPackets := takenPackets + 1;
      if sound {
        CopiedSlice(before, dma[..], at, q.stream, t, movie.pkt);
        assert dma[at..at + movie.pkt] == dma[..][at..at + movie.pkt];
      }
    }

    // Interrupts arriving between two steps of the main loop.
    method Interrupts(halves: seq<bool>)
      requires Shape() && q.Safe()
      modifies this`framePos, this`takenPackets, this`underruns
      modifies q`readPtr, q`available, q`taken, dma
      ensures q.Safe() && (old(AudioSound()) ==> AudioSound())
      ensures framePos == old(framePos) + if s.c.playback.Play? then |halves| else 0
      ensures underruns >= old(underruns) && takenPackets >= old(takenPackets)
      ensures takenPackets + underruns + old(framePos) == old(takenPackets + underruns) + framePos
      ensures q.available <= old(q.available)
      // a packet is taken exactly if playback is on, one is there, and an interrupt comes
      ensures takenPackets > old(takenPackets) <==>
        s.c.playback.Play? && old(q.available) >= movie.pkt && halves != []
      ensures takenPackets == old(takenPackets) <==> q.available == old(q.available)
      ensures halves == [] || !s.c.playback.Play? ==>
        && framePos == old(framePos) && underruns == old(underruns) && q.taken == old(q.taken)
        && q.readPtr == old(q.readPtr) && dma[..] == old(dma[..])
    {
      hide InOrder, Audio, AudioSound, Copied;
      for i := 0 to |halves|
        invariant q.Safe() && (old(AudioSound()) ==> AudioSound())
        invariant framePos == old(framePos) + if s.c.playback.Play? then i else 0
        invariant underruns >= old(underruns) && takenPackets >= old(takenPackets)
        invariant takenPackets + underruns + old(framePos) == old(takenPackets + underruns) + framePos
        invariant q.available <= old(q.available)
        invariant takenPackets > old(takenPackets) <==>
          s.c.playback.Play? && old(q.available) >= movie.pkt && i > 0
        invariant takenPackets == old(takenPackets) <==> q.available == old(q.available)
        invariant i == 0 || !s.c.playback.Play? ==>
          && framePos == old(framePos) && underruns == old(underruns) && q.taken == old(q.taken)
          && q.readPtr == old(q.readPtr) && dma[..] == old(dma[..])
      {
        TransferCallback(halves[i]);
      }
    }

    method InterruptsAtRest(halves: seq<bool>)
      requires Rest()
      modifies this`framePos, this`takenPackets, this`underruns
      modifies q`readPtr, q`available, q`taken, dma
      ensures Rest() && q.available <= old(q.available)
      ensures framePos == old(framePos) + if s.c.playback.Play? then |halves| else 0
      ensures takenPackets >= old(takenPackets) && underruns >= old(underruns)
      ensures takenPackets > old(takenPackets) <==>
        s.c.playback.Play? && old(q.available) >= movie.pkt && halves != []
      ensures takenPackets == old(takenPackets) <==> q.available == old(q.available)
    {
      hide InOrder, Audio, Inv, Placed, Fine, Starts, WellFormed, Off, Aligned;
      q.ValidSafe();
      Interrupts(halves);
    }

    // -------------------------------------------------------------- the audio

    // Bytes between the audio of frame videoPos and the audio of frame fifoPos; nothing
    // when the audio is behind the video.
    method AudioOffset() returns (offset: nat)
      requires WellFormed(movie, jpeg.Length, s.half)
      requires fifoPos <= |movie.vect| && videoPos <= |movie.vect|
      ensures Off(movie, videoPos) + offset == Off(movie, Later(videoPos, fifoPos))
    {
      offset := 0;
      var i := videoPos;
      while i < fifoPos
        invariant videoPos <= i <= Later(videoPos, fifoPos)
        invariant Off(movie, videoPos) + offset == Off(movie, i)
      {
        offset := offset + movie.pkt + movie.vect[i];
        i := i + 1;
      }
    }

    // The copy of the packet that starts offset bytes ahead; the read cursor is moved.
    method CopyPacket(offset: nat)
      requires AudioSound() && q.staged == 0 && q.available + movie.pkt <= FIFO_SIZE
      requires s.Sound(safe) && s.c.decoder.Ready? && safe <= s.c.playCur
      requires s.c.playCur + offset + movie.pkt < s.c.fptr
      modifies this`queue, q`writePtr, q`stream, q`staged, q.data, s`c
      ensures AudioSound() && q.staged == movie.pkt
      ensures queue == old(queue) + [old(s.c).playCur + offset]
      ensures s.c == old(s.c).(playCur := s.c.playCur, rptr := s.c.rptr)
    {
      hide InOrder, Audio, Inv, Placed, Fine, Put, Right, WellFormed;
      s.CursorInside(safe);
      ghost var p := s.c.playCur + offset;
      AudioAppend(movie, queue, p);
      s.Skip(offset, safe);
      q.Stage(s, movie.pkt);
      queue := queue + [p];
    }

    // The copy between saving and restoring the cursor.
    method CopyAhead(offset: nat)
      requires AudioSound() && q.staged == 0 && q.available + movie.pkt <= FIFO_SIZE
      requires Cursor() && safe <= s.c.playCur
      requires s.c.playCur + offset + movie.pkt < s.c.fptr
      modifies this`queue, q`writePtr, q`stream, q`staged, q.data, s`c
      ensures AudioSound() && q.staged == movie.pkt
      ensures queue == old(queue) + [s.c.playCur + offset]
      ensures s.c == old(s.c) && Cursor()
    {
      hide InOrder, Audio, Inv, Placed, Fine, Put, Right, WellFormed, AllAudio, Packets;
      var orig := s.c;
      CopyPacket(offset);
      s.c := s.c.(rptr := orig.rptr, playCur := orig.playCur);
    }

    // Raising the count by the packet copied in.
    method PublishPacket(irq1: seq<bool>, irq2: seq<bool>)
      requires AudioSound() && q.staged == movie.pkt
      modifies this`framePos, this`takenPackets, this`underruns
      modifies q`readPtr, q`available, q`taken, q`staged, dma
      ensures AudioSound() && q.staged == 0
      ensures framePos == old(framePos) + if s.c.playback.Play? then |irq1| + |irq2| else 0
      ensures underruns >= old(underruns) && takenPackets >= old(takenPackets)
      ensures takenPackets + underruns + old(framePos) == old(takenPackets + underruns) + framePos
      ensures takenPackets > old(takenPackets) <==>
        s.c.playback.Play? && ((old(q.available) >= movie.pkt && irq1 != []) || irq2 != [])
    {
      hide InOrder, Audio, WellFormed;
      q.ValidSafe();
      Interrupts(irq1);
      q.Publish(movie.pkt);
      Interrupts(irq2);
    }

    // The next packet is the one of the next frame exactly if it is not behind the video's
    // frame and the cursor is where the frame vector says.
    ghost predicate InOrderNext()
      reads this`videoPos, this`fifoPos, this`expected, this`shift, s`c
    {
      videoPos <= fifoPos && shift == 0 && s.c.playCur == expected
    }

    lemma NextPacket(offset: nat)
      requires Rest() && Off(movie, videoPos) + offset == Off(movie, Later(videoPos, fifoPos))
      requires s.c.playCur + offset + movie.pkt < s.c.fptr
      ensures fifoPos < |movie.vect|
      ensures queue + [s.c.playCur + offset] == Starts(movie, start, fifoPos + 1) <==> ordered && InOrderNext()
      ensures Aligned(movie) && shift == 0 && underruns + retries <= 1 ==> ordered && InOrderNext()
    {
      hide InOrder, Audio, Inv, Placed, Fine, Put, Right, Starts, AllAudio, Packets, Aligned;
      s.CursorInside(safe);
      StartsOn(movie, queue, start, fifoPos, s.c.playCur + offset);
      OffOrdered(movie, fifoPos, Later(videoPos, fifoPos));
    }

    // The next packet is in the FIFO, but not counted yet.
    method StageNext(offset: nat)
      requires Valid() && q.available + movie.pkt <= FIFO_SIZE
      requires Off(movie, videoPos) + offset == Off(movie, Later(videoPos, fifoPos))
      requires s.c.playCur + offset + movie.pkt < s.c.fptr
      modifies this`fifoPos, this`queue, this`ordered, q`writePtr, q`stream, q`staged, q.data, s`c
      ensures AudioSound() && q.staged == movie.pkt && Clock() && Track() && Cursor() && s.c == old(s.c)
      ensures fifoPos == old(fifoPos) + 1 && queue == old(queue) + [s.c.playCur + offset]
      ensures ordered <==> old(ordered) && old(InOrderNext())
    {
      hide InOrder, Audio, Inv, Placed, Fine, Put, Right, Starts, Off, WellFormed, AllAudio, Packets, Aligned, Cursor;
      hide InOrderNext;
      NextPacket(offset);
      ordered := ordered && InOrderNext();
      CopyAhead(offset);
      fifoPos := fifoPos + 1;
    }

    // The part of JMV_FillAudioFIFO behind its two tests.
    method AppendPacket(offset: nat, irq1: seq<bool>, irq2: seq<bool>)
      requires Valid() && q.available + movie.pkt <= FIFO_SIZE
      requires Off(movie, videoPos) + offset == Off(movie, Later(videoPos, fifoPos))
      requires s.c.playCur + offset + movie.pkt < s.c.fptr
      modifies this`framePos, this`fifoPos, this`queue, this`takenPackets, this`underruns, this`ordered
      modifies q, q.data, s`c, dma
      ensures Valid() && s.c == old(s.c) && fifoPos == old(fifoPos) + 1
      ensures framePos == old(framePos) + if s.c.playback.Play? then |irq1| + |irq2| else 0
      ensures queue == old(queue) + [s.c.playCur + offset]
      ensures ordered <==> old(ordered) && old(InOrderNext())
      ensures takenPackets >= old(takenPackets) && underruns >= old(underruns)
      ensures takenPackets > old(takenPackets) <==>
        s.c.playback.Play? && ((old(q.available) >= movie.pkt && irq1 != []) || irq2 != [])
    {
      hide InOrder, Audio, Starts, Off, WellFormed, AllAudio, Packets, Aligned, Cursor, InOrderNext;
      StageNext(offset);
      PublishPacket(irq1, irq2);
    }

    // JMV_FillAudioFIFO.
    method FillAudioFifo(irqs: Slots)
      requires Valid()
      modifies this`framePos, this`fifoPos, this`queue, this`takenPackets, this`underruns, this`ordered
      modifies q, q.data, s`c, dma
      ensures Valid() && s.c == old(s.c)
      // one more packet goes in when there is room for it and its bytes are loaded; it is
      // the packet of its frame, and the next in order, exactly in these cases
      ensures var f, slack := Later(videoPos, old(fifoPos)), shift + (s.c.playCur - expected);
        if FIFO_SIZE - old(q.available) >= movie.pkt && Off(movie, f) + slack + movie.pkt < s.c.fptr
        then fifoPos == old(fifoPos) + 1 && queue == old(queue) + [Off(movie, f) + slack] &&
             (queue[|queue| - 1] == Off(movie, f) <==> slack == 0) &&
             (ordered <==> old(ordered) && videoPos <= old(fifoPos) && slack == 0)
        else fifoPos == old(fifoPos) && queue == old(queue) && ordered == old(ordered)
      // the clock counts the interrupts that come while playing
      ensures framePos == old(framePos) +
        if !s.c.playback.Play? || FIFO_SIZE - old(q.available) < movie.pkt then 0
        else |irqs.checked| + if queue == old(queue) then 0 else |irqs.copied| + |irqs.counted|
      // and a packet is taken by one that finds one counted
      ensures takenPackets >= old(takenPackets) && underruns >= old(underruns)
      ensures takenPackets > old(takenPackets) <==>
        s.c.playback.Play? && FIFO_SIZE - old(q.available) >= movie.pkt &&
        ((old(q.available) >= movie.pkt && (irqs.checked != [] || (queue != old(queue) && irqs.copied != []))) ||
         (queue != old(queue) && irqs.counted != []))
    {
      hide InOrder, Audio, Inv, Placed, Fine, Put, Right, Starts, Off, WellFormed, AllAudio, Packets, Aligned;
      if FIFO_SIZE - q.available < movie.pkt {
        return;
      }
      InterruptsAtRest(irqs.checked);
      var offset := AudioOffset();
      if s.c.playCur + offset + movie.pkt >= s.c.fptr {
        return;
      }
      AppendPacket(offset, irqs.copied, irqs.counted);
    }

    // -------------------------------------------------------------- the video

    // The frame vector, with what lies behind it in memory.
    function Entry(i: nat, beyond: nat): nat {
      if i < |movie.vect| then movie.vect[i] else beyond
    }

    // The codec's buffer holds the image that comes as that of frame v.
    ghost predicate GotImage(v: nat)
      reads this`shift, jpeg
    {
      && v < |movie.vect| && movie.vect[v] <= jpeg.Length && Off(movie, v + 1) + shift <= |movie.file|
      && jpeg[..movie.vect[v]] == movie.file[Off(movie, v) + shift + movie.pkt..Off(movie, v + 1) + shift]
    }

    // Of a frame, packet and image, that is not loaded, the ring is right from its start.
    lemma NotLoaded(size: nat, beyond: nat)
      requires Rest() && size == Entry(videoPos, beyond)
      requires expected + movie.pkt + size >= s.c.fptr
      ensures safe == expected
      ensures videoPos < |movie.vect| ==> Off(movie, videoPos + 1) + shift >= s.c.fptr
    {
      hide InOrder, Audio, Inv, Placed, Fine, Put, Right, Starts, AllAudio, Packets, Aligned;
      s.CursorInside(safe);
    }

    // A frame that passes the test is inside the movie.
    lemma Loaded(size: nat, beyond: nat)
      requires Rest() && size == Entry(videoPos, beyond)
      requires expected + movie.pkt + size < s.c.fptr
      ensures Shape() && 32 <= movie.pkt && videoPos < |movie.vect| && size == movie.vect[videoPos]
      ensures Off(movie, videoPos + 1) + shift == expected + movie.pkt + size < s.c.fptr <= |movie.file|
      ensures size <= jpeg.Length && jpeg.Length % 32 == 0 && movie.pkt + size <= s.half
    {
      hide InOrder, Audio, Inv, Placed, Fine, Put, Right, Starts, AllAudio, Packets, Aligned;
      s.CursorInside(safe);
    }

    // One turn of the loop that discards frames the video is late by.
    method SkipOne(beyond: nat) returns (loaded: bool)
      requires Rest() && primed && s.c.playCur == expected && videoPos < framePos
      modifies this`videoPos, this`expected, this`safe, s`c
      ensures Rest() && s.c.playCur == expected == safe && Steady(old(s.c), s.c)
      ensures videoPos == old(videoPos) + (if loaded then 1 else 0) && (!loaded ==> s.c.empty)
      ensures !loaded && videoPos < |movie.vect| ==> Off(movie, videoPos + 1) + shift >= s.c.fptr
    {
      hide InOrder, Audio, Inv, Placed, Fine, Put, Right, Starts, AllAudio, Packets, Aligned;
      var size := movie.pkt + Entry(videoPos, beyond);
      if s.c.playCur + size >= s.c.fptr {
        NotLoaded(size - movie.pkt, beyond);
        s.MarkEmpty(safe);
        return false;
      }
      Loaded(size - movie.pkt, beyond);
      s.Skip(size, safe);
      expected := expected + size;
      videoPos := videoPos + 1;
      safe := expected;
      return true;
    }

    // The loop that discards the frames the video is late by, with interrupts in every
    // turn; false when their bytes are not loaded.  The entries behind the frame vector,
    // read when the clock has left the movie, are whatever beyond is.
    method SkipLate(irqs: seq<seq<bool>>, beyond: nat) returns (loaded: bool)
      requires Rest() && primed && s.c.playCur == expected
      modifies this`framePos, this`videoPos, this`expected, this`safe
      modifies this`takenPackets, this`underruns
      modifies q`readPtr, q`available, q`taken, dma, s`c
      ensures Rest() && Steady(old(s.c), s.c)
      ensures s.c.playCur == expected && (!loaded ==> Valid() && s.c.empty)
      ensures old(framePos) <= framePos && old(videoPos) <= videoPos
      ensures !s.c.playback.Play? || QuietFor(irqs, |irqs|) ==> framePos == old(framePos)
      ensures q.available <= old(q.available)
      ensures takenPackets >= old(takenPackets) && underruns >= old(underruns)
      ensures if loaded then videoPos == Later(old(videoPos), framePos)
              else videoPos < framePos &&
                   (videoPos < |movie.vect| ==> Off(movie, videoPos + 1) + shift >= s.c.fptr)
    {
      hide Rest, Off;
      var i := 0;
      while videoPos < framePos
        invariant Rest() && s.c.playCur == expected && Steady(old(s.c), s.c)
        invariant old(framePos) <= framePos && old(videoPos) <= videoPos
        invariant !s.c.playback.Play? || QuietFor(irqs, |irqs|) ==> framePos == old(framePos)
        invariant q.available <= old(q.available)
        invariant takenPackets >= old(takenPackets) && underruns >= old(underruns)
        invariant videoPos == old(videoPos) || videoPos <= framePos
        decreases if i < |irqs| then |irqs| - i else 0, framePos - videoPos
      {
        loaded := SkipOne(beyond);
        if !loaded {
          return;
        }
        if i < |irqs| {
          InterruptsAtRest(irqs[i]);
          i := i + 1;
        }
      }
      return true;
    }

    // The read cursor back to where it is expected.
    method CatchUp()
      requires Valid()
      modifies s`c
      ensures Rest() && s.c == Put(old(s.c), expected, s.base, 2 * s.half)
    {
      hide InOrder, Audio, Inv, Placed, Fine, Turn, Starts, WellFormed, AllAudio, Off, Aligned, Right, Resynced;
      s.CursorInside(safe);
      ResyncLands(s.c, expected, s.base, 2 * s.half);
      PutIsFree(s.c, safe, expected, s.base, s.ring[..], s.file, s.half, s.taskRead);
      s.Resync(expected);
    }

    // The same, and then interrupts may arrive.
    method Catch(irq: seq<bool>, ghost retry: bool)
      requires Valid() && primed
      modifies this`framePos, this`takenPackets, this`underruns, this`retries
      modifies q`readPtr, q`available, q`taken, dma, s`c
      ensures Rest() && s.c == Put(old(s.c), expected, s.base, 2 * s.half)
      ensures retries == old(retries) + if retry then 1 else 0
      ensures framePos == old(framePos) + (if s.c.playback.Play? then |irq| else 0)
      ensures retry ==> videoPos <= framePos + retries
      ensures q.available <= old(q.available)
      ensures takenPackets >= old(takenPackets) && underruns >= old(underruns)
    {
      hide InOrder, Audio, Inv, Placed, Fine, Turn, Starts, WellFormed, AllAudio, Off, Aligned;
      CatchUp();
      if retry {
        retries := retries + 1;
      }
      InterruptsAtRest(irq);
    }

    // Over the audio packet, and size bytes and the padding into the codec's buffer.
    method TakeImage(size: nat)
      requires Shape() && s.Sound(safe) && s.c.decoder.Ready?
      requires s.c.playCur == expected <= safe < expected + 32
      requires expected + movie.pkt + size < s.c.fptr
      requires size <= jpeg.Length && jpeg.Length % 32 == 0 && 32 <= movie.pkt && movie.pkt + size <= s.half
      modifies this`expected, this`safe, s`c, jpeg
      ensures s.Sound(safe) && s.c == old(s.c).(playCur := s.c.playCur, rptr := s.c.rptr)
      ensures expected == safe == old(expected) + movie.pkt + size
      ensures s.c.playCur == expected + (RoundUp32(size) - size)
      ensures expected <= |s.file| && jpeg[..size] == s.file[old(expected) + movie.pkt..expected]
    {
      hide Inv, Placed, Fine, Put, Right, WellFormed;
      s.CursorInside(safe);
      s.Skip(movie.pkt, safe);
      RoundUpFits(size, jpeg.Length);
      expected := s.c.playCur + size;
      safe := expected;
      s.CopyOver(jpeg, 0, size, RoundUp32(size) - size);
    }

    // The last part of a decode: over the audio packet, and the image into the codec's
    // buffer, with up to 31 bytes behind it by which the cursor is then too far.
    method StartJpeg(beyond: nat) returns (started: bool)
      requires Rest() && primed && s.c.playCur == expected && videoPos <= framePos + retries
      modifies this`videoPos, this`expected, this`safe, s`c, jpeg
      ensures Valid() && Steady(old(s.c), s.c)
      ensures started <==>
        old(videoPos) < |movie.vect| && Off(movie, old(videoPos) + 1) + shift < s.c.fptr
      ensures started ==>
        var v := old(videoPos);
        && videoPos == v + 1
        && s.c.playCur - expected == RoundUp32(movie.vect[v]) - movie.vect[v] && GotImage(v)
      ensures !started ==> s.c.empty && videoPos == old(videoPos) && s.c.playCur == expected
    {
      hide AudioSound, Clock, Inv, Placed, Fine, Put, Right, Starts, Off;
      var size := Entry(videoPos, beyond);
      if s.c.playCur + movie.pkt + size >= s.c.fptr {
        NotLoaded(size, beyond);
        s.MarkEmpty(safe);
        return false;
      }
      Loaded(size, beyond);
      TakeImage(size);
      videoPos := videoPos + 1;
      return true;
    }

    // JMV_DecodeFrame, with interrupts before and while late frames are discarded.  A
    // retry may decode ahead of the clock.
    method DecodeFrame(irq: seq<bool>, irqs: seq<seq<bool>>, ghost retry: bool, beyond: nat)
      returns (ghost v: nat, started: bool)
      requires Valid() && primed && (retry || videoPos <= framePos)
      modifies this`framePos, this`videoPos, this`expected, this`safe
      modifies this`takenPackets, this`underruns, this`retries
      modifies q`readPtr, q`available, q`taken, dma, s`c, jpeg
      ensures Valid() && Steady(old(s.c), s.c)
      ensures retries == old(retries) + if retry then 1 else 0
      ensures old(framePos) <= framePos && v == Later(old(videoPos), framePos)
      ensures !s.c.playback.Play? || (irq == [] && QuietFor(irqs, |irqs|)) ==> framePos == old(framePos)
      ensures q.available <= old(q.available)
      ensures takenPackets >= old(takenPackets) && underruns >= old(underruns)
      // the image of frame v goes to the codec when all of the frame is loaded
      ensures started <==> v < |movie.vect| && Off(movie, v + 1) + shift < s.c.fptr
      ensures started ==>
        && videoPos == v + 1
        && s.c.playCur - expected == RoundUp32(movie.vect[v]) - movie.vect[v] && GotImage(v)
      ensures !started ==> s.c.empty && old(videoPos) <= videoPos <= v && s.c.playCur == expected
    {
      hide Rest, Off, Turn, RoundUp32, GotImage;
      Catch(irq, retry);
      started := SkipLate(irqs, beyond);
      v := Later(old(videoPos), framePos);
      if started {
        started := StartJpeg(beyond);
      } else {
        LaterFrame(videoPos, v);
      }
    }

    lemma LaterFrame(i: nat, j: nat)
      requires i <= j
      ensures j < |movie.vect| ==> Off(movie, i + 1) <= Off(movie, j + 1)
    {
      if i < j < |movie.vect| {
        OffIncreases(movie, i + 1, j + 1);
      }
    }

    // One run of the buffer task.
    method Refill(ok: bool)
      requires Valid()
      modifies this`safe, s`c, s`taskRead, s`error, s.ring
      ensures Valid() && old(s.c.fptr) <= |s.file|
      ensures if ok || !Reads(old(s.c), |s.file|) then s.c == Tick(old(s.c), s.half, |s.file|)
              else s.c == Noted(old(s.c), s.half)
    {
      hide InOrder, Audio, Inv, Placed, Fine, Put, Starts, WellFormed, AllAudio, Off, Aligned, Noted, Reads;
      s.CursorInside(safe);
      TickBack(s.c, s.half, |s.file|);
      NotedIs(s.c, s.half);
      safe := s.BufferTask(ok, safe);
    }

    // ------------------------------------------------------- seek and first frame

    // jmv_lib_seek: the file position of the frame at a percentage of the movie.
    method Seek(percent: nat, ghost p: nat)
      requires Shape() && s.Sound(p) && percent <= 100
      modifies this`framePos, this`fifoPos, this`videoPos, s`c
      ensures old(s.c).decoder.FillWait? ==>
        s.Sound(p) && s.c == old(s.c) && framePos == old(framePos) && fifoPos == old(fifoPos) &&
        videoPos == old(videoPos)
      ensures !old(s.c).decoder.FillWait? ==>
        var f := percent * |movie.vect| / 100;
        && f <= |movie.vect| && Off(movie, f) <= |movie.file|
        && framePos == videoPos == fifoPos == f
        && s.Valid() && s.c == SeekTo(old(s.c), Off(movie, f), |movie.file|)
    {
      hide Inv, Placed, Fine;
      if s.c.decoder.FillWait? {
        return;
      }
      var f := FrameAt(percent, |movie.vect|);
      var ofs := movie.head;
      for i := 0 to f
        invariant ofs == Off(movie, i)
      {
        ofs := ofs + movie.pkt + movie.vect[i];
      }
      framePos, videoPos, fifoPos := f, f, f;
      OffOrdered(movie, |movie.vect|, f);
      s.Seek(ofs, p);
    }

    // A seek while the first image is decoded moves the positions and the file position, but
    // the FIFO, the place expected and the state of the decoder stay.  After the fill that
    // follows, and whatever interrupts have come since, the player is as it should be
    // exactly if the three positions were at the frame sought before, and that frame where
    // the frame vector puts it.
    lemma SeekWhileDecoding(f: nat, framePos0: nat, videoPos0: nat, fifoPos0: nat)
      requires AudioSound() && q.staged == 0 && primed && s.Valid() && s.c.decoder.Ready?
      // the positions of before
      requires videoPos0 <= |movie.vect| && expected == Off(movie, videoPos0) + shift
      requires start <= framePos0 && start <= fifoPos0 == start + |queue| <= |movie.vect|
      requires ordered <==> queue == Starts(movie, start, fifoPos0)
      requires Aligned(movie) && shift == 0 && underruns + retries <= 1 ==> ordered
      // those of now, and the interrupts in between
      requires videoPos == fifoPos == f <= framePos && f <= |movie.vect|
      requires takenPackets + underruns + start + f == framePos + 2 + framePos0
      requires s.c.playCur == safe == Off(movie, f)
      ensures Valid() <==> f == framePos0 == videoPos0 == fifoPos0 && shift == 0
    {
      hide InOrder, Audio, Inv, Holds, Fine, Starts, AllAudio, Packets, Aligned;
      s.CursorInside(safe);
      s.ValidIs();
      OffOrdered(movie, f, videoPos0);
      OffOrdered(movie, videoPos0, f);
    }

    // What the first frame finds after the fill that follows the header or a seek.
    ghost predicate AtFrame(f: nat)
      reads this`framePos, this`videoPos, this`fifoPos, s, s.ring
    {
      && s.Valid() && s.c.decoder.Ready?
      && videoPos == fifoPos == f <= |movie.vect| && s.c.playCur == Off(movie, f)
      && (s.c.playback.Waiting? ==> framePos == f)
    }

    // The FIFO and the DMA buffer of a new start; the interrupts since the positions were
    // set have found nothing for it.
    method ClearAudio()
      requires Shape() && q.data.Length == FIFO_SIZE && start <= framePos
      modifies this`queue, this`takenPackets, this`underruns, this`retries, this`primed, q, dma
      ensures AudioSound() && q.staged == 0 && q.available == 0 && queue == [] && !primed
      ensures takenPackets == retries == 0 && underruns == framePos - start
      ensures forall k :: 0 <= k < dma.Length ==> dma[k] == 0
    {
      hide InOrder, WellFormed;
      q.Reset();
      Silence(0, dma.Length);
      queue, takenPackets, underruns, retries, primed := [], 0, framePos - start, 0, false;
    }

    // The positions of a new start.
    method ResetPlaces(ghost f: nat)
      requires Shape() && AtFrame(f)
      modifies this`framePos, this`videoPos, this`fifoPos, this`expected
      modifies this`start, this`shift, this`ordered, this`safe
      ensures Cursor() && safe == s.c.playCur && ordered
      ensures s.c.playCur == Off(movie, videoPos) <==> s.c.playback.Waiting? || f == 0
      ensures videoPos == framePos == fifoPos == start == (if s.c.playback.Waiting? then f else 0)
      ensures start <= |movie.vect| && expected == s.c.playCur == Off(movie, start) + shift
    {
      hide Inv, Placed, Fine, WellFormed, Off, Aligned, Put, Right;
      OffFirst(f);
      s.CursorInside(s.c.playCur);
      if !s.c.playback.Waiting? {
        fifoPos, framePos, videoPos := 0, 0, 0;
      }
      expected := s.c.playCur;
      start, shift, ordered, safe := videoPos, s.c.playCur - Off(movie, videoPos), true, expected;
    }

    // FIRST_FRAME: the positions and the FIFO are restarted, with interrupts in between.
    // The positions agree with the read cursor exactly if playback waits or the frame is
    // the first; otherwise all that is played until the next restart comes from further on
    // in the file.
    method Restart(early: seq<bool>, ghost f: nat)
      requires Shape() && q.Safe() && AtFrame(f)
      modifies this, q, dma
      ensures Valid() && !primed && ordered && queue == [] && q.available == 0
      ensures s.c.playCur == Off(movie, videoPos) <==> s.c.playback.Waiting? || f == 0
      ensures videoPos == fifoPos == start == (if s.c.playback.Waiting? then f else 0)
      ensures expected == s.c.playCur == Off(movie, start) + shift
      ensures takenPackets == retries == 0
      ensures underruns == framePos - start == if s.c.playback.Play? then |early| else 0
      ensures forall k :: 0 <= k < dma.Length ==> dma[k] == 0
    {
      hide AudioSound, Cursor, Off, Starts, AtFrame, Aligned, WellFormed;
      ResetPlaces(f);
      NothingQueued(movie, start);
      Interrupts(early);
      ClearAudio();
    }

    lemma OffFirst(f: nat)
      requires Shape() && f <= |movie.vect|
      ensures Off(movie, 0) <= Off(movie, f) && (Off(movie, 0) == Off(movie, f) <==> f == 0)
    {
      OffOrdered(movie, 0, f);
      OffOrdered(movie, f, 0);
    }

    // The loop that copies to the DMA buffer, with interrupts in every turn.
    method CopyDisturbed(copying: seq<seq<bool>>)
      requires Shape() && q.Safe() && dma.Length <= FIFO_SIZE
      modifies this`framePos, this`takenPackets, this`underruns
      modifies q`readPtr, q`available, q`taken, dma
      ensures q.Safe() && q.available <= old(q.available)
      ensures if s.c.playback.Play? && !QuietFor(copying, dma.Length)
              then old(q.available) >= movie.pkt ==> q.available < old(q.available)
              else framePos == old(framePos) && takenPackets == old(takenPackets) && underruns == old(underruns) &&
                   q.available == old(q.available) && q.taken == old(q.taken) &&
                   q.readPtr == Wrap(old(q.readPtr) + dma.Length, FIFO_SIZE) &&
                   Taken(old(dma[..]), dma[..], 0, q.data[..], old(q.readPtr), dma.Length)
    {
      hide WellFormed, AudioSound;
      ghost var before := dma[..];
      for i := 0 to dma.Length
        invariant q.Safe() && q.available <= old(q.available) && q.data[..] == old(q.data[..])
        invariant if s.c.playback.Play? && !QuietFor(copying, i)
                  then old(q.available) >= movie.pkt ==> q.available < old(q.available)
                  else framePos == old(framePos) && takenPackets == old(takenPackets) && underruns == old(underruns) &&
                       q.available == old(q.available) && q.taken == old(q.taken) &&
                       q.readPtr == Wrap(old(q.readPtr) + i, FIFO_SIZE) &&
                       Taken(before, dma[..], 0, q.data[..], old(q.readPtr), i)
      {
        q.CopyByte(dma, i);
        if i < |copying| {
          Interrupts(copying[i]);
        }
      }
    }

    // The copy of the FIFO to the DMA buffer: right if the FIFO holds two packets and no
    // playing interrupt comes; otherwise the count wraps.
    method CopyToDma(copying: seq<seq<bool>>)
      requires Valid() && !primed && |queue| <= 2
      modifies this`framePos, this`takenPackets, this`underruns, this`primed
      modifies q`readPtr, q`available, q`taken, dma
      ensures if |queue| == 2 && old(takenPackets) == 0 && !(s.c.playback.Play? && !QuietFor(copying, dma.Length))
              then Valid() && primed && q.available == 0 && framePos == old(framePos) && underruns == old(underruns) &&
                   HasAudio(movie, queue[0]) && HasAudio(movie, queue[1]) &&
                   dma[..movie.pkt] == Packet(movie, queue[0]) && dma[movie.pkt..] == Packet(movie, queue[1])
              else q.available > FIFO_SIZE
    {
      hide InOrder, Copied, Taken, Cursor, WellFormed, Audio, AllAudio, Off, Starts, Aligned, QuietFor, Packets;
      ghost var r, before := q.readPtr, dma[..];
      InQueue();
      CopyDisturbed(copying);
      if q.available == dma.Length {
        TwoPackets(r, before);
      }
      SubtractBoth(r);
      primed := q.available <= FIFO_SIZE;
    }

    // The subtraction behind that loop.
    method SubtractBoth(ghost r: nat)
      requires Shape() && dma.Length == 2 * movie.pkt <= FIFO_SIZE && q.available <= dma.Length
      requires q.available == dma.Length ==>
        && q.From(r) && q.readPtr == Wrap(r + dma.Length, FIFO_SIZE) && q.taken == 0
        && |queue| == 2 && AllAudio(movie, queue) && q.stream == Audio(movie, queue)
        && Packets(2, movie.pkt) == 2 * movie.pkt
      modifies this`takenPackets, q`available, q`taken
      ensures if old(q.available) == dma.Length
              then AudioSound() && takenPackets == 2 && q.available == 0
              else q.available > FIFO_SIZE
    {
      hide InOrder, Audio, AllAudio, WellFormed, Packets;
      q.Subtract(dma.Length, r);
      takenPackets := 2;
    }

    lemma TwoPackets(r: nat, before: seq<byte>)
      requires q.From(r) && q.taken == 0 && dma.Length == 2 * movie.pkt
      requires |queue| == 2 && AllAudio(movie, queue) && q.stream == Audio(movie, queue)
      requires Taken(before, dma[..], 0, q.data[..], r, dma.Length)
      ensures HasAudio(movie, queue[0]) && HasAudio(movie, queue[1])
      ensures dma[..movie.pkt] == Packet(movie, queue[0]) && dma[movie.pkt..] == Packet(movie, queue[1])
      ensures Packets(2, movie.pkt) == 2 * movie.pkt
    {
      hide Holds, Taken, Audio;
      AudioAt(movie, queue, 0);
      AudioAt(movie, queue, 1);
      assert Packets(1, movie.pkt) == movie.pkt && Packets(2, movie.pkt) == 2 * movie.pkt;
      ReadHolds(q.data[..], q.stream, r, 0, |q.stream|, before, dma[..], 0, dma.Length, dma.Length);
      assert dma[..] == q.stream[..2 * movie.pkt];
    }

    // What the FIFO holds when at most two packets were put in.
    lemma InQueue()
      requires Valid() && |queue| <= 2
      ensures q.Safe() && q.From(q.readPtr) && dma.Length == 2 * movie.pkt <= FIFO_SIZE
      ensures q.available <= dma.Length
      ensures q.available == dma.Length <==> |queue| == 2 && takenPackets == 0
      ensures takenPackets == 0 ==> q.taken == 0
    {
      PacketsIsProduct(|queue|, movie.pkt);
      PacketsIsProduct(takenPackets, movie.pkt);
    }

    lemma PrimeBounds()
      requires Valid()
      ensures start <= |movie.vect| && 0 < 2 * movie.pkt <= FIFO_SIZE && dma.Length == 2 * movie.pkt
      ensures if start == |movie.vect| then Off(movie, start) + shift + movie.pkt >= s.c.fptr
              else Off(movie, start) <= Off(movie, start + 1)
    {
      s.CursorInside(safe);
    }

    // The two fills of a new start: the packets of two frames if they are loaded, none of
    // them taken exactly if no playing interrupt comes after the first is counted.
    method FillTwo(one: Slots, two: Slots)
      requires Valid() && !primed && queue == [] && q.available == 0 && takenPackets == 0 && ordered
      requires videoPos == fifoPos == start && expected == s.c.playCur == Off(movie, start) + shift
      modifies this`framePos, this`fifoPos, this`queue, this`takenPackets, this`underruns, this`ordered
      modifies q, q.data, s`c, dma
      ensures Valid() && s.c == old(s.c) && |queue| <= 2
      ensures var place := Off(movie, start) + shift;
        if start < |movie.vect| && Off(movie, start + 1) + shift + movie.pkt < s.c.fptr
        then fifoPos == start + 2 && queue == [place, Off(movie, start + 1) + shift] &&
             (ordered <==> shift == 0) &&
             (takenPackets == 0 <==> !(s.c.playback.Play? && (one.counted != [] || two != QUIET)))
        else |queue| <= 1
      ensures |queue| == 2 && takenPackets == 0 ==>
        framePos == old(framePos) + if s.c.playback.Play? then |one.checked| + |one.copied| else 0
    {
      hide Rest, Off;
      assert two != QUIET <==> two.checked != [] || two.copied != [] || two.counted != [];
      PrimeBounds();
      FillAudioFifo(one);
      InQueueNow();
      FillAudioFifo(two);
    }

    // FIRST_FRAME, up to the decode, with interrupts everywhere: the DMA buffer is filled
    // with the audio of two frames exactly if it is loaded and no playing interrupt comes
    // after the first packet is counted.  Otherwise the unsigned count of the FIFO's bytes
    // wraps, and the callbacks go on to take what was never put in.
    method Prime(early: seq<bool>, one: Slots, two: Slots, copying: seq<seq<bool>>, ghost f: nat)
      returns (good: bool)
      requires Shape() && q.Safe() && AtFrame(f)
      modifies this, q, q.data, s`c, dma
      ensures s.c == old(s.c) && start == (if s.c.playback.Waiting? then f else 0)
      ensures s.c.playCur == Off(movie, start) + shift
      ensures shift == 0 <==> s.c.playback.Waiting? || f == 0
      ensures good <==>
        && start < |movie.vect| && Off(movie, start + 1) + shift + movie.pkt < s.c.fptr
        && !(s.c.playback.Play? && (one.counted != [] || two != QUIET || !QuietFor(copying, dma.Length)))
      ensures good ==>
        && Valid() && primed && start == videoPos && fifoPos == start + 2
        && underruns == framePos - start
        && underruns == (if s.c.playback.Play? then |early| + |one.checked| + |one.copied| else 0)
        && retries == 0 && q.available == 0 && (ordered <==> shift == 0)
        && queue == [Off(movie, start) + shift, Off(movie, start + 1) + shift]
        && HasAudio(movie, Off(movie, start) + shift) && HasAudio(movie, Off(movie, start + 1) + shift)
        && dma[..movie.pkt] == Packet(movie, Off(movie, start) + shift)
        && dma[movie.pkt..] == Packet(movie, Off(movie, start + 1) + shift)
      ensures !good ==> q.available > FIFO_SIZE
    {
      hide Rest, Off, AtFrame, QuietFor;
      Restart(early, f);
      FillTwo(one, two);
      CopyToDma(copying);
      good := q.available <= FIFO_SIZE;
      if good {
        ClockNow();
      }
    }

    // The count, when at most one packet was put in.
    lemma InQueueNow()
      requires Valid() && |queue| <= 1
      ensures q.available == if |queue| == 1 && takenPackets == 0 then movie.pkt else 0
      ensures takenPackets <= |queue|
    {
      PacketsIsProduct(|queue|, movie.pkt);
      PacketsIsProduct(takenPackets, movie.pkt);
    }

    lemma ClockNow()
      requires Valid() && primed && |queue| == 2 && q.available == 0
      ensures underruns == framePos - start
    {
      PacketsIsProduct(|queue|, movie.pkt);
      PacketsIsProduct(takenPackets, movie.pkt);
    }

    // ------------------------------------------------------------ what is played

    // What has been played and what is still in the FIFO, in every reachable state: the
    // audio at the queued positions; in order from the frame where playback was primed
    // as long as every fill kept it, for which it is enough that the movie's images have
    // aligned sizes, that it was primed at its place, and at most one underrun or retry.
    lemma PlayedInOrder()
      requires Valid()
      ensures q.stream[..q.taken] == Audio(movie, queue[..takenPackets])
      ensures |q.stream| - q.taken == q.available
      ensures ordered ==> q.stream == Audio(movie, Starts(movie, start, fifoPos))
      ensures Aligned(movie) && shift == 0 && underruns + retries <= 1 ==> ordered
    {
      AudioPrefix(movie, queue, takenPackets);
    }

    lemma QueueIs()
      requires Valid()
      ensures AllAudio(movie, queue) && q.stream == Audio(movie, queue) && start <= fifoPos <= |movie.vect|
      ensures ordered <==> queue == Starts(movie, start, fifoPos)
    {
      hide InOrder, Audio, AllAudio, Starts, Cursor;
    }

    // The audio is two packets ahead of the clock but for underruns, and the video at
    // most one frame, but for retries.
    lemma Lockstep()
      requires Valid() && primed
      ensures fifoPos * movie.pkt - q.available == (framePos + 2 - underruns) * movie.pkt
      ensures underruns + retries <= 1 ==> videoPos <= fifoPos
      ensures underruns + retries == 0 ==> videoPos < fifoPos
    {
      hide *;
      LockstepCounts();
      PacketsIsProduct(|queue|, movie.pkt);
      PacketsIsProduct(takenPackets, movie.pkt);
      Distribute(start, |queue|, movie.pkt);
      Distribute(start, takenPackets, movie.pkt);
    }

    lemma LockstepCounts()
      requires Valid() && primed
      ensures fifoPos == start + |queue| && framePos + 2 == start + takenPackets + underruns
      ensures Packets(|queue|, movie.pkt) == Packets(takenPackets, movie.pkt) + q.available
      ensures videoPos <= framePos + 1 + retries && takenPackets <= |queue| && fifoPos <= |movie.vect|
      ensures 0 < 2 * movie.pkt <= FIFO_SIZE
    {
    }

    // One more packet was queued, exactly if there was room and its bytes are loaded.
    twostate predicate Fed()
      reads this, s`c
    {
      var f, slack := Later(old(videoPos), old(fifoPos)), shift + (old(s.c.playCur) - old(expected));
      f <= |movie.vect| &&
      if old(q.available) <= FIFO_SIZE - movie.pkt && Off(movie, f) + slack + movie.pkt < s.c.fptr
      then queue == old(queue) + [Off(movie, f) + slack] && fifoPos == old(fifoPos) + 1 &&
           (ordered <==> old(ordered) && old(videoPos) <= old(fifoPos) && slack == 0)
      else queue == old(queue) && fifoPos == old(fifoPos) && ordered == old(ordered)
    }

    // The packet that a fill would queue is loaded.
    ghost predicate NextThere()
      reads this`videoPos, this`fifoPos, this`expected, this`shift, s`c
    {
      var f, slack := Later(videoPos, fifoPos), shift + (s.c.playCur - expected);
      f <= |movie.vect| && Off(movie, f) + slack + movie.pkt < s.c.fptr
    }

    // The FIFO holds whole packets.
    lemma Held()
      requires Valid() && primed
      ensures takenPackets <= |queue| && q.available == (|queue| - takenPackets) * movie.pkt
      ensures 0 < 2 * movie.pkt <= FIFO_SIZE
      ensures q.available >= movie.pkt <==> takenPackets < |queue|
      ensures fifoPos == start + |queue| <= |movie.vect| && takenPackets + underruns + start == framePos + 2
    {
      hide *;
      LockstepCounts();
      PacketsIsProduct(|queue|, movie.pkt);
      PacketsIsProduct(takenPackets, movie.pkt);
      Distribute(|queue| - takenPackets, takenPackets, movie.pkt);
      AtLeastOne(|queue| - takenPackets, movie.pkt);
    }

    lemma AtLeastOne(n: nat, pkt: nat)
      requires pkt > 0
      ensures n * pkt >= pkt <==> n > 0
    {
      if n > 0 {
        Distribute(n - 1, 1, pkt);
      }
    }

    // An image that was due was started if it is loaded, with frames that are late left out.
    twostate predicate Shown(ready: bool)
      reads this, s`c, jpeg
    {
      if old(videoPos) > framePos || !ready then videoPos == old(videoPos) else ImageOf(framePos)
    }

    // A decode was to start the image of frame v: it did so if all of the frame is loaded.
    ghost predicate ImageOf(v: nat)
      reads this, s`c, jpeg
    {
      if v < |movie.vect| && Off(movie, v + 1) + shift < s.c.fptr then videoPos == v + 1 && GotImage(v)
      else videoPos <= v && s.c.empty
    }

    twostate predicate Still()
      reads this
    {
      framePos == old(framePos) && takenPackets == old(takenPackets) && underruns == old(underruns)
    }

    // The clock counts what is taken and what is missed.
    twostate lemma StillWhen()
      requires old(Clock()) && Clock() && start == old(start) && primed == old(primed)
      requires framePos == old(framePos) && takenPackets >= old(takenPackets) && underruns >= old(underruns)
      ensures Still()
    {
    }

    // PROC_SAMPLES while playing: the FIFO is filled when it has room, then an image is
    // decoded when the video is due and the codec is idle or has taken too long.  Behind
    // the last frame playback is stopped.
    method ProcSamples(codecReady: bool, irqs: Slots, caught: seq<bool>, late: seq<seq<bool>>, beyond: nat)
      requires Valid() && primed && s.c.playback.Play?
      modifies this`framePos, this`fifoPos, this`videoPos, this`expected, this`safe
      modifies this`queue, this`takenPackets, this`underruns, this`retries, this`ordered
      modifies q, q.data, s`c, dma, jpeg
      ensures Valid() && retries == old(retries) && old(framePos) <= framePos
      ensures s.c.playback == if old(framePos) >= |movie.vect| then Stop else Play
      ensures s.c.fptr == old(s.c.fptr)
      ensures Fed() && Shown(codecReady)
      // where no interrupt comes the clock stands still, and nothing is taken
      ensures irqs == QUIET && caught == [] && QuietFor(late, |late|) ==> Still()
    {
      hide Rest, Off, GotImage, QuietFor;
      if framePos >= |movie.vect| {
        SetPlayback(Stop);
      }
      Feed(irqs);
      Show(codecReady, caught, late, beyond);
    }

    method Feed(irqs: Slots)
      requires Valid() && primed
      modifies this`framePos, this`fifoPos, this`queue, this`takenPackets, this`underruns, this`ordered
      modifies q, q.data, s`c, dma
      ensures Valid() && s.c == old(s.c) && old(framePos) <= framePos && Fed()
      ensures irqs == QUIET ==> Still()
    {
      hide Rest, Off;
      ClockIs();
      DmaHalves();
      if q.available <= FIFO_SIZE - dma.Length / 2 {
        FillAudioFifo(irqs);
      }
      if irqs == QUIET {
        ClockIs();
        StillWhen();
      }
    }

    method Show(codecReady: bool, caught: seq<bool>, late: seq<seq<bool>>, beyond: nat)
      requires Valid() && primed
      modifies this`framePos, this`videoPos, this`expected, this`safe
      modifies this`takenPackets, this`underruns, this`retries
      modifies q`readPtr, q`available, q`taken, dma, s`c, jpeg
      ensures Valid() && Steady(old(s.c), s.c) && retries == old(retries) && old(framePos) <= framePos
      ensures Shown(codecReady)
      ensures caught == [] && QuietFor(late, |late|) ==> Still()
    {
      hide Rest, Off, GotImage, QuietFor;
      ClockIs();
      if videoPos <= framePos && codecReady {
        var _, _ := DecodeFrame(caught, late, false, beyond);
      }
      if framePos == old(framePos) {
        ClockIs();
        StillWhen();
      }
    }

    lemma ClockIs()
      requires Valid()
      ensures Clock() && fifoPos <= |movie.vect| && videoPos <= |movie.vect| && jpeg != dma
    {
    }

    lemma DmaHalves()
      requires Valid()
      ensures dma.Length / 2 == movie.pkt
    {
    }

    // A new playback state, from the decoder or the user.
    method SetPlayback(to: Playback)
      requires Valid()
      modifies s`c
      ensures Valid() && s.c == old(s.c).(playback := to)
    {
      hide InOrder, Audio, Inv, Placed, Fine, Starts, WellFormed, AllAudio, Off, Aligned, Put;
      s.SetPlayback(to, safe);
    }

    // The ring yields the image of frame v to a decode that begins by putting the cursor to
    // the frame's position, or what it holds instead.
    ghost predicate ImageThere(v: nat)
      requires v < |movie.vect| && s.ring.Length > 0
      requires s.c.playCur < U32 && Off(movie, v) + shift < U32
      reads this, s, s.ring
    {
      var place := Off(movie, v) + shift;
      Yields(s.c, place, s.ring[..], movie.file, place + movie.pkt, Off(movie, v + 1) + shift)
    }

    // After a timeout of the first frame with an empty ring, the fill that follows starts
    // behind the position at which the next decode expects its frame.  The image of that
    // frame still arrives exactly if its bytes before that fill happen to be at the other
    // end of the ring, which in a full ring are those of the file one ring further on; so
    // it does when only the packet lies before the fill.
    lemma ImageAfterRefill(v: nat)
      requires Shape() && s.Valid() && s.c.decoder.Ready? && s.c.playCur == s.base
      requires v < |movie.vect| && Off(movie, v + 1) + shift < s.c.fptr
      requires Off(movie, v) + shift < s.base <= Off(movie, v) + shift + 2 * s.half
      ensures s.c.fptr <= |movie.file| < U32 && s.ring.Length == 2 * s.half > 0
      ensures var a, b, size := Off(movie, v) + shift + movie.pkt, Off(movie, v + 1) + shift, 2 * s.half;
        && s.base <= a + size
        && (ImageThere(v) <==>
            forall p :: a <= p < b && p < s.base ==> s.ring[..][Due(s.base, p, size)] == movie.file[p])
        && (s.c.fptr == s.base + size ==>
              forall p :: a <= p < s.base ==> s.ring[..][Due(s.base, p, size)] == movie.file[p + size])
    {
      hide Inv, Holds, Fine, Right, Yields, Resynced;
      s.CursorInside(s.c.playCur);
      s.ValidIs();
      var place := Off(movie, v) + shift;
      ResyncBehind(s.c, place, s.ring[..], movie.file, place + movie.pkt, Off(movie, v + 1) + shift);
    }
  }
}
