// The control part of the half-ring refill protocol: the periodic buffer task
// that refills the two halves of the read ring in turn, the decoder's initial
// fill, and the movement of the read cursor.  Everything here is about cursors
// and states; StreamRing.dfy adds the bytes.
module RefillControl {
  import opened Bytes

  // Bytes requested by one f_read call of the buffer task.
  const CHUNK: nat := 64 * 1024
  // Cursors are unsigned 32-bit words in the source.
  const U32: nat := 0x1_0000_0000

  datatype ReadState = Req | Wait
  datatype Offset = None | Half | Full
  datatype Playback = Idle | Waiting | Play | Stop | Pause | Resume
  // Where the decoder is: about to (re)fill the ring, filling it, or past that.
  datatype Decoder = FillReq | FillWait | Ready

  datatype Control = Control(
    fptr: nat, playCur: nat, rptr: nat,
    ptr: nat, btr: nat, br: nat,
    readState: ReadState, state: Offset, lastState: Offset,
    empty: bool, playback: Playback, decoder: Decoder)

  // Ring index of position i, for positions less than two turns away.
  function Wrap(i: nat, size: nat): nat {
    if i < size then i else i - size
  }

  // Bytes between the read cursor and the producer cursor.
  function Avail(c: Control): nat
    requires c.playCur <= c.fptr
  {
    c.fptr - c.playCur
  }

  // A whole number of chunks.
  predicate Chunks(n: nat) {
    n == 0 || (n >= CHUNK && Chunks(n - CHUNK))
  }

  predicate GoodSize(half: nat) {
    half > 0 && Chunks(half)
  }

  lemma ChunksAdd(a: nat, b: nat)
    requires Chunks(a) && Chunks(b)
    ensures Chunks(a + b)
  {
    if a > 0 {
      ChunksAdd(a - CHUNK, b);
    }
  }

  // ---------------------------------------------------------------- steps

  // Which half is due: re-evaluated on every tick, whatever the read state.
  function Trigger(c: Control, half: nat): Control {
    if c.rptr >= half && (c.lastState.None? || c.lastState.Full?) then c.(state := Half)
    else if c.rptr < half && c.lastState.Half? then c.(state := Full)
    else c
  }

  // The part of a tick before the switch on the read state.
  function Noted(c: Control, half: nat): Control {
    Trigger(if c.empty && c.playback.Play? then c.(playback := Pause) else c, half)
  }

  // One f_read of CHUNK bytes at ptr + br: FatFs returns fewer only at end of file.
  function ReadChunk(c: Control, fsize: nat): Control
    requires c.fptr <= fsize
  {
    var n := Min(CHUNK, fsize - c.fptr);
    c.(fptr := c.fptr + n, br := c.br + n)
  }

  function Request(c: Control, half: nat): Control {
    match c.state
    case Half => c.(ptr := 0, btr := half, br := 0, readState := Wait, lastState := Half)
    case Full => c.(ptr := half, btr := half, br := 0, readState := Wait, lastState := Full)
    case None => c
  }

  function Complete(c: Control): Control {
    var d := c.(state := None, readState := Req);
    if d.empty then d.(empty := false, playback := Resume) else d
  }

  // One run of the buffer task in which every f_read succeeds.
  function Tick(c: Control, half: nat, fsize: nat): Control
    requires c.fptr <= fsize
  {
    if c.playback.Idle? || c.fptr == fsize then c
    else
      var c2 := Noted(c, half);
      match c2.readState
      case Req => Request(c2, half)
      case Wait => if c2.br < c2.btr then ReadChunk(c2, fsize) else Complete(c2)
  }

  // The decoder's own fill, first step: restart every cursor at the file position.
  function FillStart(c: Control, half: nat): Control {
    c.(playCur := c.fptr, readState := Req, rptr := 0, state := None, lastState := None,
       ptr := 0, btr := 2 * half, br := 0, decoder := FillWait)
  }

  // The decoder's own fill, following steps.  The source reports a read error and
  // stays where it is when its last read, of this or of an earlier fill, got nothing.
  function FillStep(c: Control, fsize: nat, gotNothing: bool): Control
    requires c.fptr <= fsize
  {
    if c.br < c.btr && c.fptr < fsize then ReadChunk(c, fsize)
    else if gotNothing then c
    else c.(empty := false, decoder := Ready)
  }

  // A seek only moves the file position; f_lseek stops at the end of a file opened for reading.
  function SeekTo(c: Control, ofs: nat, fsize: nat): Control {
    c.(fptr := Min(ofs, fsize), decoder := FillReq)
  }

  // The reader moves k bytes forward.
  function Advance(c: Control, k: nat, size: nat): Control {
    c.(playCur := c.playCur + k, rptr := Wrap(c.rptr + k, size))
  }

  // The guard of the FLAC and JMV readers, in the source's 32-bit arithmetic.
  predicate Refused(c: Control, btr: nat) {
    (c.playCur + btr) % U32 >= c.fptr
  }

  // The position a seek has set stays until the decoder's fill exactly if no tick comes
  // in between that goes on with a refill.
  lemma SeekSurvives(c: Control, ofs: nat, half: nat, fsize: nat)
    ensures var d := SeekTo(c, ofs, fsize);
      Tick(d, half, fsize).fptr == d.fptr <==> !Reads(d, fsize)
  {
  }

  // A seek in the middle of the decoder's fill, which the FLAC reader does not refuse,
  // leaves the fill sound exactly if the file position does not change.
  lemma SeekInFill(c: Control, ofs: nat, half: nat, fsize: nat)
    requires Inv(c, half, fsize) && c.decoder.FillWait?
    ensures Inv(c.(fptr := Min(ofs, fsize)), half, fsize) <==> Min(ofs, fsize) == c.fptr
  {
  }

  // ------------------------------------------------------------ invariant

  // Where the producer cursor stands in the ring, counted from the start of the
  // reader's current turn, for each state of the protocol.
  predicate Phase(c: Control, half: nat)
    requires c.playCur <= c.fptr
  {
    var v := c.rptr + Avail(c);
    match c.readState
    case Req =>
      c.state.None? &&
      (if c.lastState.Half? then v == half || v == 2 * half + half else v == 2 * half)
    case Wait =>
      match c.lastState
      case None => false
      case Half => c.ptr == 0 && (v == c.br || (v == 2 * half + c.br && c.rptr >= half))
      case Full => c.ptr == half && v == half + c.br
  }

  // Between a seek and the fill that follows it nothing is promised about the ring.
  predicate Inv(c: Control, half: nat, fsize: nat) {
    && GoodSize(half)
    && c.fptr <= fsize
    && match c.decoder
       case FillReq => c.readState.Wait? ==> c.btr == half
       case FillWait =>
         && c.readState.Req? && c.state.None? && c.lastState.None?
         && c.rptr == 0 && c.ptr == 0 && c.btr == 2 * half
         && c.playCur + c.br == c.fptr && c.br <= c.btr
         && (c.fptr < fsize ==> Chunks(c.br))
       case Ready =>
         && c.rptr < 2 * half
         && c.playCur <= c.fptr <= c.playCur + 2 * half
         && (c.readState.Wait? ==> c.btr == half && c.br <= half && c.ptr <= half)
         && (c.fptr < fsize ==>
               && c.playCur < c.fptr && Phase(c, half)
               && (c.readState.Wait? ==> Chunks(c.br)))
  }

  // A refill may be left in flight by a seek; the decoder's fill, which discards it,
  // begins before the buffer task reads on.
  predicate TaskMayRun(c: Control, fsize: nat) {
    c.decoder.FillReq? ==> !Reads(c, fsize)
  }

  // What of it is used where its phases do not matter.
  lemma InvIs(c: Control, half: nat, fsize: nat)
    requires Inv(c, half, fsize)
    ensures c.fptr <= fsize && (c.readState.Wait? ==> c.btr == half)
    ensures c.decoder.Ready? ==>
      && c.rptr < 2 * half && c.playCur <= c.fptr <= c.playCur + 2 * half
      && (c.readState.Wait? ==> c.br <= half)
      && (c.fptr < fsize ==> c.playCur < c.fptr && (c.readState.Req? ==> c.state.None?))
  {
  }

  // --------------------------------------------- what every step preserves

  lemma ChunkFits(br: nat, btr: nat)
    requires br < btr && Chunks(br) && Chunks(btr)
    ensures br + CHUNK <= btr && Chunks(br + CHUNK)
  {
    if br > 0 {
      ChunkFits(br - CHUNK, btr - CHUNK);
    }
  }

  predicate Reads(c: Control, fsize: nat) {
    c.readState.Wait? && c.br < c.btr && c.fptr < fsize && !c.playback.Idle?
  }

  // A chunk read lands exactly behind the last unread byte, inside the ring.
  lemma ChunkKeeps(c: Control, half: nat, fsize: nat)
    requires Inv(c, half, fsize) && c.decoder.Ready?
    requires c.readState.Wait? && c.br < c.btr && c.fptr < fsize
    ensures Inv(ReadChunk(c, fsize), half, fsize)
    ensures var n := Min(CHUNK, fsize - c.fptr);
      && 0 < n && c.ptr + c.br + n <= 2 * half
      && Avail(c) + n <= 2 * half && c.ptr + c.br == Wrap(c.rptr + Avail(c), 2 * half)
  {
    ChunkFits(c.br, c.btr);
  }

  lemma NotedKeeps(c: Control, half: nat, fsize: nat)
    requires Inv(c, half, fsize) && c.readState.Wait? && c.decoder.Ready?
    ensures var d := Noted(c, half);
      && Inv(d, half, fsize)
      && d == c.(state := d.state, playback := d.playback)
  {
  }

  // While a refill is in flight neither the half that is due nor the playback matter.
  lemma StateIsFree(c: Control, d: Control, half: nat, fsize: nat)
    requires Inv(c, half, fsize) && c.readState.Wait?
    requires d == c.(state := d.state, playback := d.playback)
    ensures Inv(d, half, fsize)
  {
  }

  lemma CompleteKeeps(c: Control, half: nat, fsize: nat)
    requires Inv(c, half, fsize) && c.decoder.Ready?
    requires c.readState.Wait? && c.br >= c.btr
    ensures Inv(Complete(c), half, fsize)
  {
  }

  lemma RequestKeeps(c: Control, half: nat, fsize: nat)
    requires Inv(c, half, fsize)
    requires c.readState.Req? && c.fptr < fsize
    ensures Inv(Request(Noted(c, half), half), half, fsize)
  {
    assert Chunks(0);
    hide Chunks;
    if c.decoder.FillReq? {
    } else if c.decoder.FillWait? {
    } else {
      assert Phase(c, half);
    }
  }

  lemma TickIs(c: Control, half: nat, fsize: nat)
    requires c.fptr < fsize && !c.playback.Idle?
    ensures var d := Tick(c, half, fsize);
      && (c.readState.Req? ==> d == Request(Noted(c, half), half))
      && (c.readState.Wait? && c.br < c.btr ==> d == ReadChunk(Noted(c, half), fsize))
      && (c.readState.Wait? && c.br >= c.btr ==> d == Complete(Noted(c, half)))
      && d.playCur == c.playCur && d.rptr == c.rptr && d.decoder == c.decoder
  {
  }

  // A tick keeps the invariant and never touches the reader's cursor.
  lemma TickKeeps(c: Control, half: nat, fsize: nat)
    requires Inv(c, half, fsize) && TaskMayRun(c, fsize)
    ensures Inv(Tick(c, half, fsize), half, fsize)
    ensures Tick(c, half, fsize).playCur == c.playCur && Tick(c, half, fsize).rptr == c.rptr
    ensures Tick(c, half, fsize).decoder == c.decoder
  {
    if c.playback.Idle? || c.fptr == fsize {
    } else {
      TickIs(c, half, fsize);
      if c.readState.Req? {
        RequestKeeps(c, half, fsize);
      } else if c.decoder.FillReq? {
      } else {
        NotedKeeps(c, half, fsize);
        var e := Noted(c, half);
        if c.br < c.btr {
          ChunkKeeps(e, half, fsize);
        } else {
          CompleteKeeps(e, half, fsize);
        }
      }
    }
  }

  // A tick that sees the cursor k bytes ahead of a reader requests only what it would
  // request for the reader, or what is right as more than half a ring is loaded.
  lemma AheadTriggers(h: Control, k: nat, half: nat, fsize: nat)
    requires Inv(h, half, fsize) && h.decoder.Ready? && h.readState.Req?
    requires h.fptr < fsize && k <= half
    ensures var t := Trigger(Advance(h, k, 2 * half), half).state;
      t.None? || t == Trigger(h, half).state || Avail(h) > half
  {
  }

  // The cursor of d put back to that of h.
  function Back(d: Control, h: Control): Control {
    d.(playCur := h.playCur, rptr := h.rptr)
  }

  // So a tick that sees the cursor ahead keeps the ring right for the reader, or else
  // for a reader where the cursor is.
  lemma AheadTickKeeps(h: Control, k: nat, half: nat, fsize: nat) returns (moved: bool)
    requires Inv(h, half, fsize) && h.decoder.Ready? && k <= half
    ensures var d := Tick(Advance(h, k, 2 * half), half, fsize);
      && Inv(if moved then d else Back(d, h), half, fsize)
      && Back(d, h).playCur == h.playCur && d.playCur == h.playCur + k && d.decoder.Ready?
    ensures moved ==> Avail(h) > half
  {
    hide Inv, Noted, Request, Complete, ReadChunk;
    InvIs(h, half, fsize);
    var c := Advance(h, k, 2 * half);
    moved := false;
    assert Back(c, h) == h;
    if h.fptr < fsize && !h.playback.Idle? {
      TickIs(c, half, fsize);
      if h.readState.Wait? {
        AheadTickWaits(h, k, half, fsize);
      } else {
        moved := AheadTickRequests(h, k, half, fsize);
      }
    }
  }

  lemma AheadTickRequests(h: Control, k: nat, half: nat, fsize: nat) returns (moved: bool)
    requires Inv(h, half, fsize) && h.decoder.Ready? && h.readState.Req? && k <= half
    requires h.fptr < fsize && !h.playback.Idle?
    ensures var d := Tick(Advance(h, k, 2 * half), half, fsize);
      Inv(if moved then d else Back(d, h), half, fsize)
    ensures moved ==> Avail(h) > half
  {
    hide Inv, Tick, Request;
    InvIs(h, half, fsize);
    var c := Advance(h, k, 2 * half);
    AheadTriggers(h, k, half, fsize);
    TickIs(c, half, fsize);
    moved := !Trigger(c, half).state.None? && Trigger(h, half).state.None?;
    if moved {
      AdvanceKeeps(h, k, half, fsize);
      TickKeeps(c, half, fsize);
    } else if Trigger(c, half).state.None? {
      NothingRequested(h, c, half, fsize);
    } else {
      SameRequest(h, c, half, fsize);
    }
  }

  // A tick that requests what it would request for the reader.
  lemma SameRequest(h: Control, c: Control, half: nat, fsize: nat)
    requires Inv(h, half, fsize) && h.decoder.Ready? && h.readState.Req? && h.fptr < fsize
    requires Back(c, h) == h && Trigger(c, half).state == Trigger(h, half).state
    ensures Inv(Back(Request(Noted(c, half), half), h), half, fsize)
  {
    hide Inv;
    RequestKeeps(h, half, fsize);
    assert Back(Noted(c, half), h) == Noted(h, half);
  }

  lemma NothingRequested(h: Control, c: Control, half: nat, fsize: nat)
    requires Inv(h, half, fsize) && h.decoder.Ready? && h.readState.Req?
    requires Back(c, h) == h && Trigger(c, half).state.None?
    ensures Inv(Back(Request(Noted(c, half), half), h), half, fsize)
  {
    hide Chunks;
  }

  lemma AheadTickWaits(h: Control, k: nat, half: nat, fsize: nat)
    requires Inv(h, half, fsize) && h.decoder.Ready? && h.readState.Wait?
    requires h.fptr < fsize && !h.playback.Idle?
    ensures Inv(Back(Tick(Advance(h, k, 2 * half), half, fsize), h), half, fsize)
  {
    hide Inv, Tick, Noted, Complete, ReadChunk, Chunks;
    InvIs(h, half, fsize);
    var c := Advance(h, k, 2 * half);
    var d := Noted(c, half);
    var g := h.(state := d.state, playback := d.playback);
    NotedIs(c, half);
    TickIs(c, half, fsize);
    StateIsFree(h, g, half, fsize);
    if h.br < h.btr {
      ChunkKeeps(g, half, fsize);
      BackRead(d, g, fsize);
    } else {
      CompleteKeeps(g, half, fsize);
      BackComplete(d, g);
    }
  }

  lemma NotedIs(c: Control, half: nat)
    ensures Noted(c, half) == c.(state := Noted(c, half).state, playback := Noted(c, half).playback)
    ensures Noted(c, half).playback.Waiting? ==> c.playback.Waiting?
    ensures Noted(c, half).playback.Idle? ==> c.playback.Idle?
    ensures Noted(c, half).playback.Resume? ==> c.playback.Resume?
  {
  }

  // The rest of a tick does not look at the cursor.
  lemma BackRead(d: Control, g: Control, fsize: nat)
    requires Back(d, g) == g && g.fptr <= fsize
    ensures Back(ReadChunk(d, fsize), g) == ReadChunk(g, fsize)
  {
  }

  lemma BackComplete(d: Control, g: Control)
    requires Back(d, g) == g
    ensures Back(Complete(d), g) == Complete(g)
  {
  }

  // The ring index i holds a byte the reader has still to read.
  predicate Unread(c: Control, i: nat, size: nat)
    requires c.playCur <= c.fptr
  {
    c.rptr <= i < c.rptr + Avail(c) || i + size < c.rptr + Avail(c)
  }

  // What a tick reads lands exactly behind the last unread byte, inside the ring,
  // and on no byte that has still to be read.
  lemma TickWritesFree(c: Control, half: nat, fsize: nat, i: nat)
    requires Inv(c, half, fsize) && c.decoder.Ready?
    ensures Reads(c, fsize) <==> Tick(c, half, fsize).fptr != c.fptr
    ensures Reads(c, fsize) ==>
      var n := Tick(c, half, fsize).fptr - c.fptr;
      && 0 < n && Avail(c) + n <= 2 * half
      && c.ptr + c.br + n <= 2 * half
      && c.ptr + c.br == Wrap(c.rptr + Avail(c), 2 * half)
      && (c.ptr + c.br <= i < c.ptr + c.br + n ==> !Unread(c, i, 2 * half))
  {
    hide Inv, Noted, Complete, Request, Chunks;
    InvIs(c, half, fsize);
    if c.fptr < fsize && !c.playback.Idle? {
      TickIs(c, half, fsize);
      NotedIs(c, half);
      if Reads(c, fsize) {
        ChunkKeeps(c, half, fsize);
      } else {
        NothingRead(c, half, fsize);
      }
    }
  }

  lemma NothingRead(c: Control, half: nat, fsize: nat)
    requires c.fptr <= fsize && !Reads(c, fsize)
    ensures Tick(c, half, fsize).fptr == c.fptr
  {
  }

  // Reading below the producer cursor keeps the invariant.
  lemma AdvanceKeeps(c: Control, k: nat, half: nat, fsize: nat)
    requires Inv(c, half, fsize) && c.decoder.Ready?
    requires c.playCur + k < c.fptr
    ensures Inv(Advance(c, k, 2 * half), half, fsize)
  {
  }

  lemma FillStartKeeps(c: Control, half: nat, fsize: nat)
    requires Inv(c, half, fsize) && c.decoder.FillReq?
    ensures Inv(FillStart(c, half), half, fsize)
  {
  }

  // The fill ends at the end of the ring or of the file; the ring is empty
  // afterwards only when the fill started at the end of the file.
  lemma FillStepKeeps(c: Control, half: nat, fsize: nat, gotNothing: bool)
    requires Inv(c, half, fsize) && c.decoder.FillWait?
    ensures Inv(FillStep(c, fsize, gotNothing), half, fsize)
    ensures c.br < c.btr && c.fptr < fsize ==> c.br + Min(CHUNK, fsize - c.fptr) <= c.btr
  {
    if c.br < c.btr && c.fptr < fsize {
      ChunksAdd(half, half);
      ChunkFits(c.br, c.btr);
    }
  }

  // -------------------------------------------------------- no deadlock

  // A request of at most half the ring that is refused although the file goes on
  // finds a half refill in progress or about to be requested by the next tick.
  lemma NoDeadlock(c: Control, btr: nat, half: nat, fsize: nat)
    requires Inv(c, half, fsize) && c.decoder.Ready?
    requires btr <= half && c.fptr < fsize
    requires c.playCur + btr >= c.fptr
    ensures c.readState.Wait? || !Trigger(c, half).state.None?
    ensures c.readState.Req? && !c.playback.Idle? ==> Tick(c, half, fsize).readState.Wait?
  {
    if c.readState.Req? && !c.playback.Idle? {
      TickIs(c, half, fsize);
    }
  }

  function Run(c: Control, n: nat, half: nat, fsize: nat): Control
    requires c.fptr <= fsize
    decreases n
  {
    if n == 0 then c
    else
      var d := Tick(c, half, fsize);
      if d.fptr <= fsize then Run(d, n - 1, half, fsize) else d
  }

  // However often the task runs, a refused request of at most half a ring is granted in the
  // end, or the file is loaded to its end.
  lemma {:induction false} RefusedIsServed(c: Control, btr: nat, half: nat, fsize: nat) returns (n: nat)
    requires Inv(c, half, fsize) && c.decoder.Ready? && !c.playback.Idle? && btr <= half
    ensures c.fptr <= fsize
    ensures var d := Run(c, n, half, fsize);
      d.playCur == c.playCur && (d.fptr == fsize || c.playCur + btr < d.fptr)
    decreases if c.fptr <= fsize then fsize - c.fptr else 0, Turns(c)
  {
    hide Inv, Tick;
    InvIs(c, half, fsize);
    if c.fptr == fsize || c.playCur + btr < c.fptr {
      n := 0;
    } else {
      NoDeadlock(c, btr, half, fsize);
      TickKeeps(c, half, fsize);
      TurnsLess(c, half, fsize);
      var d := Tick(c, half, fsize);
      InvIs(d, half, fsize);
      var m := RefusedIsServed(d, btr, half, fsize);
      n := m + 1;
    }
  }

  // Ticks until the next f_read.
  function Turns(c: Control): nat {
    if c.readState.Req? then 1 else if c.br < c.btr then 0 else 2
  }

  lemma TurnsLess(c: Control, half: nat, fsize: nat)
    requires Inv(c, half, fsize) && c.decoder.Ready? && !c.playback.Idle? && c.fptr < fsize
    requires c.readState.Req? ==> Tick(c, half, fsize).readState.Wait?
    ensures var d := Tick(c, half, fsize);
      && !d.playback.Idle?
      && (d.fptr > c.fptr || (d.fptr == c.fptr && Turns(d) < Turns(c)))
  {
    hide Phase, Chunks;
    TickIs(c, half, fsize);
    NotedIs(c, half);
  }

  // ------------------------------------------------- what a listener notices

  // The task changes the playback in two ways only: a player that ran dry is paused, and it
  // is resumed, and no longer marked empty, when the refill it waits for is complete.
  lemma PlaybackLaw(c: Control, half: nat, fsize: nat)
    requires c.fptr <= fsize
    ensures var d := Tick(c, half, fsize);
      var done := c.empty && c.readState.Wait? && c.br >= c.btr && c.fptr < fsize && !c.playback.Idle?;
      && (done <==> c.empty && !d.empty) && (d.empty ==> c.empty)
      && (done ==> d.playback.Resume?)
      && (!done && c.empty && c.playback.Play? && c.fptr < fsize ==> d.playback.Pause?)
      && (d.playback != c.playback ==> done || (c.empty && c.playback.Play? && d.playback.Pause?))
  {
  }

  // So playback goes on through any number of refills as long as the reader finds enough.
  lemma {:induction false} PlaysOn(c: Control, n: nat, half: nat, fsize: nat)
    requires c.fptr <= fsize && !c.empty
    ensures Run(c, n, half, fsize).playback == c.playback && !Run(c, n, half, fsize).empty
    decreases n
  {
    if n > 0 {
      PlaybackLaw(c, half, fsize);
      var d := Tick(c, half, fsize);
      if d.fptr <= fsize {
        PlaysOn(d, n - 1, half, fsize);
      }
    }
  }

  // A read that fails leaves all but the half that is due and a pause.
  lemma FailedRead(c: Control, half: nat)
    ensures var d := Noted(c, half);
      && d == c.(state := d.state, playback := d.playback)
      && (d.playback != c.playback <==> c.empty && c.playback.Play?)
      && (d.playback != c.playback ==> d.playback.Pause?)
  {
  }

  // Bytes the refill in progress, or the next one, has still to fetch.
  function Owed(c: Control, half: nat): nat {
    if c.readState.Req? then half else if c.br <= half then half - c.br else 0
  }

  predicate Starved(c: Control, half: nat, fsize: nat) {
    && Inv(c, half, fsize) && c.decoder.Ready?
    && c.empty && !c.playback.Idle? && !c.playback.Resume? && !c.playback.Stop?
    && c.playCur + half >= c.fptr
  }

  // One tick of a refill that has still something to read.
  lemma RefillAdvances(c: Control, half: nat, fsize: nat) returns (d: Control)
    requires Inv(c, half, fsize) && c.decoder.Ready? && c.readState.Wait?
    requires c.empty && !c.playback.Idle?
    requires c.br < half && c.fptr + (half - c.br) < fsize
    ensures Inv(d, half, fsize) && d.decoder.Ready? && d.readState.Wait?
    ensures d.empty && !d.playback.Idle?
    ensures d.fptr == c.fptr + CHUNK && d.br == c.br + CHUNK <= half
    ensures forall n: nat :: Run(c, n + 1, half, fsize) == Run(d, n, half, fsize)
  {
    hide Inv, Noted, Tick, Chunks;
    InvIs(c, half, fsize);
    RoomForChunk(c, half, fsize);
    TickKeeps(c, half, fsize);
    TickIs(c, half, fsize);
    NotedIs(c, half);
    d := Tick(c, half, fsize);
  }

  lemma RoomForChunk(c: Control, half: nat, fsize: nat)
    requires Inv(c, half, fsize) && c.decoder.Ready? && c.readState.Wait?
    requires c.br < half && c.fptr < fsize
    ensures c.br + CHUNK <= half
  {
    ChunkFits(c.br, half);
  }

  // The refill in flight ends by clearing the empty flag and asking to resume.
  lemma {:induction false} RefillResumes(c: Control, half: nat, fsize: nat) returns (n: nat)
    requires Inv(c, half, fsize) && c.decoder.Ready? && c.readState.Wait?
    requires c.empty && !c.playback.Idle?
    requires c.fptr + (half - c.br) < fsize
    ensures Run(c, n, half, fsize).playback.Resume?
    decreases half - c.br
  {
    hide Inv, Tick;
    InvIs(c, half, fsize);
    if c.br < half {
      var d := RefillAdvances(c, half, fsize);
      InvIs(d, half, fsize);
      var m := RefillResumes(d, half, fsize);
      n := m + 1;
    } else {
      n := 1;
      RefillEnds(c, half, fsize);
    }
  }

  // The last tick of a refill.
  lemma RefillEnds(c: Control, half: nat, fsize: nat)
    requires c.readState.Wait? && c.br >= c.btr && c.empty && !c.playback.Idle? && c.fptr < fsize
    ensures Run(c, 1, half, fsize).playback.Resume?
  {
    hide Noted;
    NotedIs(c, half);
    TickIs(c, half, fsize);
    var d := Tick(c, half, fsize);
    assert Run(d, 0, half, fsize) == d;
  }

  // The refill that the player waits for will reach the end of the file.
  predicate Doomed(c: Control, half: nat, fsize: nat) {
    && Inv(c, half, fsize) && c.decoder.Ready?
    && c.empty && !c.playback.Resume?
    && (c.fptr < fsize ==> c.readState.Wait? && c.fptr + half >= fsize + c.br)
  }

  lemma DoomedStays(c: Control, half: nat, fsize: nat) returns (d: Control)
    requires Doomed(c, half, fsize)
    ensures Doomed(d, half, fsize)
    ensures forall n: nat :: Run(c, n + 1, half, fsize) == Run(d, n, half, fsize)
  {
    TickKeeps(c, half, fsize);
    d := Tick(c, half, fsize);
    if c.fptr < fsize && !c.playback.Idle? {
      TickIs(c, half, fsize);
      NotedKeeps(c, half, fsize);
      assert c.br < half;
      assert d.fptr - d.br == c.fptr - c.br;
    }
  }

  // No number of ticks then clears the empty flag: at the end of the file the buffer
  // task returns before it looks at it.
  lemma {:induction false} RefillStuck(c: Control, n: nat, half: nat, fsize: nat)
    requires Doomed(c, half, fsize)
    ensures Run(c, n, half, fsize).empty && !Run(c, n, half, fsize).playback.Resume?
    decreases n
  {
    if n > 0 {
      var d := DoomedStays(c, half, fsize);
      RefillStuck(d, n - 1, half, fsize);
    }
  }

  // The tick that requests a refill, for a player whose reader is starved.
  lemma StarvedRequests(c: Control, half: nat, fsize: nat) returns (d: Control)
    requires Starved(c, half, fsize) && c.readState.Req? && c.fptr < fsize
    ensures Inv(d, half, fsize) && d.decoder.Ready? && d.readState.Wait?
    ensures d.empty && !d.playback.Idle? && !d.playback.Resume?
    ensures d.br == 0 && d.fptr == c.fptr
    ensures forall n: nat :: Run(c, n + 1, half, fsize) == Run(d, n, half, fsize)
  {
    NoDeadlock(c, half, half, fsize);
    TickKeeps(c, half, fsize);
    TickIs(c, half, fsize);
    d := Tick(c, half, fsize);
  }

  // A starved player is resumed by the buffer task exactly when the refill it waits
  // for ends before the end of the file.
  lemma StarvedResumesIff(c: Control, half: nat, fsize: nat)
    requires Starved(c, half, fsize) && c.fptr < fsize
    ensures (exists n: nat :: Run(c, n, half, fsize).playback.Resume?) <==>
            c.fptr + Owed(c, half) < fsize
  {
    var d, k := c, 0;
    if c.readState.Req? {
      d := StarvedRequests(c, half, fsize);
      k := 1;
    }
    if c.fptr + Owed(c, half) < fsize {
      var n := RefillResumes(d, half, fsize);
      assert Run(c, n + k, half, fsize).playback.Resume?;
    } else {
      forall n: nat ensures !Run(c, n, half, fsize).playback.Resume? {
        if k <= n {
          RefillStuck(d, n - k, half, fsize);
        }
      }
    }
  }

  // The 32-bit guard refuses exactly the requests that reach the producer cursor,
  // unless the sum wraps; a request whose sum wraps is let through.
  lemma GuardExact(c: Control, btr: nat)
    requires c.playCur < c.fptr < U32 && btr < U32
    ensures (Refused(c, btr) <==> c.playCur + btr >= c.fptr) <==> c.playCur + btr < U32
  {
    if c.playCur + btr >= U32 {
      assert (c.playCur + btr) % U32 == c.playCur + btr - U32;
    }
  }
}
