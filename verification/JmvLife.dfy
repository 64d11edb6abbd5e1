// The JMV player from opening a movie on: its process task, the DMA interrupt, the buffer
// task and the user, in any order.  What is played is followed through fills, first
// frames, pauses and seeks, up to the first of a few events after which the source no
// longer keeps its cursors or counts; each of them is named.
module JmvLife {
  import opened Bytes
  import opened RefillControl
  import opened StreamRing
  import opened AudioFifo
  import opened JmvLayout
  import opened JmvPlayer

  datatype LibState = Loading | FirstFrame | Samples
  datatype CodecState = Free | Busy | Broken
  datatype Button = PlayButton | PauseButton | Touch

  // Where interrupts come in one pass of the process task: between the positions and the
  // FIFO of a new start, in its one or two fills, in every turn of its copy to the DMA
  // buffer, behind the correction of the cursor, and in every turn of the loop over late
  // frames; and what lies behind the frame vector.
  datatype Pass = Pass(early: seq<bool>, one: Slots, two: Slots, copying: seq<seq<bool>>,
                       caught: seq<bool>, late: seq<seq<bool>>, beyond: nat)
  {
    // No interrupt between the count of the first packet and the end of the copy of n bytes.
    predicate Quiet(n: nat) {
      one.counted == [] && two == QUIET && QuietFor(copying, n)
    }
  }

  // A pass into which no interrupt comes.
  const STILL := Pass([], QUIET, QUIET, [], [], [], 0)

  datatype Event =
    | Process(codec: CodecState, timeout: bool, ok: bool, pass: Pass)
    | Interrupt(second: bool)
    | Task(ok: bool)
    | Press(button: Button)
    | Slide(percent: nat)

  // Where a life is not followed further: the count of the FIFO's bytes has wrapped; the
  // buffer task is about to move the file position that a fill is to start from; the
  // positions after a seek are not those of the FIFO, the clock and the place expected; the
  // fill after a timeout starts behind the place expected.
  datatype Fault = Sane | CountWraps | TaskAfterSeek | SeekInFirst | RefillInFirst

  lemma MovieInside(m: Movie)
    requires 2 <= |m.vect| && Off(m, |m.vect|) < |m.file|
    ensures m.head < |m.file| && Off(m, 1) + m.pkt < |m.file|
  {
    OffIncreases(m, 0, 1);
    OffIncreases(m, 1, |m.vect|);
  }

  // A movie of aligned sizes and at least two frames that the ring holds whole is played
  // whole, from opening it on: all images in turn, and all the audio in order.
  method PlayWhole(movie: Movie, half: nat, jpegSize: nat, halves: nat -> bool) returns (lib: Lib)
    requires WellFormed(movie, jpegSize, half) && Aligned(movie) && 2 <= |movie.vect|
    requires GoodSize(half) && |movie.file| + 2 * half <= U32 && 4 * half <= U32
    requires Off(movie, |movie.vect|) < |movie.file| <= movie.head + 2 * half
    ensures lib.Valid() && lib.fault.Sane? && lib.p.movie == movie
    ensures lib.p.framePos == lib.p.videoPos == |movie.vect| && lib.p.underruns == 2
    ensures lib.p.queue == Starts(movie, 0, |movie.vect|) && lib.p.takenPackets == |lib.p.queue|
    ensures AllAudio(movie, lib.p.queue) && lib.p.q.stream == Audio(movie, lib.p.queue)
  {
    hide Lib.Valid, Aligned, WellFormed, Off, Player.GotImage;
    MovieInside(movie);
    lib := new Lib(movie, half, jpegSize);
    lib.FillWhole();
    lib.FirstPass(STILL);
    lib.PrimedAt();
    lib.WaitPass(Free, false, STILL);
    lib.OnTimeNow();
    lib.PlayOut(halves);
  }

  class Lib {
    const p: Player
    // jmv_lib_state; read_state is the ring's decoder state, and decode_state is DECODE_WAIT
    // when decoding.
    var state: LibState
    var decoding: bool
    // The frame last sought, and whether the last first frame found playback waiting.
    ghost var sought: nat
    ghost var paused: bool
    var fault: Fault

    // Between a seek, or the opening of the movie, and the first frame.
    ghost predicate Starting()
      reads this`sought, p`framePos, p`videoPos, p`fifoPos, p`queue, p`takenPackets
      reads p.s, p.s.ring, p.q, p.q.data
    {
      && p.AudioSound() && p.q.staged == 0
      && if p.s.c.decoder.Ready? then p.AtFrame(sought) else
         && p.s.Valid()
         && p.videoPos == p.fifoPos == sought <= |p.movie.vect|
         && (p.s.c.playback.Waiting? ==> p.framePos == sought)
         && Off(p.movie, sought) == if p.s.c.decoder.FillReq? then p.s.c.fptr else p.s.c.playCur
    }

    // From the first frame on: playback was primed at the frame sought if it waited, and
    // at the first frame otherwise, with what the movie has further on.
    ghost predicate Primed()
      reads this`sought, this`paused, p, p.q, p.q.data, p.s, p.s.ring
    {
      && p.Valid() && p.primed && sought <= |p.movie.vect|
      && p.start == (if paused then sought else 0) <= sought
      && p.shift == Off(p.movie, sought) - Off(p.movie, p.start)
    }

    // Back in the fill while the first image is decoded: the fill starts at the place the
    // next decode expects, and all else is as it was.
    ghost predicate Reloading()
      reads this`sought, this`paused, p, p.q, p.q.data, p.s, p.s.ring
    {
      && p.AudioSound() && p.q.staged == 0 && p.Clock() && p.Track() && p.primed
      && p.s.Valid() && !p.s.c.decoder.Ready?
      && p.videoPos <= |p.movie.vect| && p.expected == Off(p.movie, p.videoPos) + p.shift
      && p.expected == (if p.s.c.decoder.FillReq? then p.s.c.fptr else p.s.c.playCur)
      && sought <= |p.movie.vect| && p.start == (if paused then sought else 0) <= sought
      && p.shift == Off(p.movie, sought) - Off(p.movie, p.start)
    }

    ghost predicate Valid()
      reads this, p, p.q, p.q.data, p.s, p.s.ring
    {
      && (state.Loading? <==> !p.s.c.decoder.Ready?) && (decoding ==> !state.Samples?)
      && if Playing() then Primed()
         else if decoding then Reloading() else Starting()
    }

    predicate Playing()
      reads this`state, this`decoding
    {
      state.Samples? || (decoding && state.FirstFrame?)
    }

    constructor (movie: Movie, half: nat, jpegSize: nat)
      requires WellFormed(movie, jpegSize, half) && movie.head <= |movie.file|
      requires GoodSize(half) && |movie.file| + 2 * half <= U32 && 4 * half <= U32
      ensures Valid() && fault.Sane? && state.Loading? && !decoding && sought == 0
      ensures p.movie == movie && p.s.file == movie.file && p.s.half == half && p.s.c.playback.Idle?
      ensures p.s.c.decoder.FillReq? && p.s.c.fptr == movie.head && p.s.c.readState.Req?
      ensures fresh(p) && fresh(p.s) && fresh(p.s.ring) && fresh(p.q) && fresh(p.q.data)
      ensures fresh(p.dma) && fresh(p.jpeg)
    {
      p := new Player(movie, half, jpegSize);
      state, decoding := Loading, false;
      sought, paused, fault := 0, false, Sane;
    }

    lemma StartIs()
      requires Valid() && Playing()
      ensures Primed() && p.s.c.decoder.Ready?
    {
    }

    // Where playback was primed, and how far the frames are from there.
    lemma PrimedAt()
      requires Valid() && Playing()
      ensures sought <= |p.movie.vect| && p.start == (if paused then sought else 0) <= sought
      ensures p.shift == Off(p.movie, sought) - Off(p.movie, p.start)
    {
    }

    lemma FillShape()
      requires Valid() && state.Loading?
      ensures p.Shape() && p.s.Valid() && !p.s.c.decoder.Ready?
    {
    }

    twostate predicate Filled(ok: bool)
      reads p.s
    {
      && old(p.s.c).fptr <= |p.s.file|
      && (old(p.s.c).decoder.FillReq? ==>
            p.s.c == FillStart(old(p.s.c), p.s.half) && p.s.fillRead == old(p.s.fillRead))
      && (old(p.s.c).decoder.FillWait? && ok ==>
            && p.s.c == FillStep(old(p.s.c), |p.s.file|, old(p.s.fillRead) == 0)
            && if old(p.s.c).br < old(p.s.c).btr && old(p.s.c).fptr < |p.s.file| then p.s.fillRead > 0
               else p.s.fillRead == old(p.s.fillRead))
    }

    // FILL_READBUFF.
    method FillPass(ok: bool)
      requires Valid() && state.Loading?
      modifies this`state, p`safe, p.s, p.s.ring
      ensures Valid() && !state.Samples? && Filled(ok)
    {
      hide Inv, Fine, Holds, Off, FillStart, FillStep, Chunks, Player.AudioSound, Player.Clock, Player.Track;
      FillShape();
      p.s.FillPosition();
      p.s.Fill(ok);
      if p.s.c.decoder.Ready? {
        p.s.ValidIs();
        p.s.CursorInside(p.s.c.playCur);
        state := FirstFrame;
        p.safe := p.expected;
      }
    }

    // The passes of a whole fill: the ring is full, or the file loaded to its end.
    method FillWhole()
      requires Valid() && state.Loading? && !decoding && p.s.c.decoder.FillReq? && p.s.c.fptr < |p.s.file|
      modifies this`state, p`safe, p.s, p.s.ring
      ensures Valid() && state.FirstFrame? && p.s.c.playback == old(p.s.c.playback) && !p.s.c.empty
      ensures p.s.c.playCur == old(p.s.c.fptr) && p.s.c.fptr == Min(old(p.s.c.fptr) + 2 * p.s.half, |p.s.file|)
    {
      hide Valid, Chunks;
      FillPass(true);
      StateIs();
      ghost var place, size := p.s.c.playCur, 2 * p.s.half;
      FillInside();
      while state.Loading?
        invariant Valid() && !state.Samples? && (state.Loading? ==> p.s.c.decoder.FillWait?)
        invariant p.s.c.playback == old(p.s.c.playback) && p.s.c.playCur == place
        invariant place + p.s.c.br == p.s.c.fptr <= |p.s.file| && p.s.c.br <= p.s.c.btr == size
        invariant p.s.c.br > 0 ==> p.s.fillRead > 0
        invariant !state.Loading? ==> !p.s.c.empty && (p.s.c.br == size || p.s.c.fptr == |p.s.file|)
        decreases |p.s.file| - p.s.c.fptr, state.Loading?
      {
        FillInside();
        FillPass(true);
        StateIs();
      }
    }

    lemma FillInside()
      requires Valid() && state.Loading? && p.s.c.decoder.FillWait?
      ensures p.s.half > 0 && p.s.c.fptr <= |p.s.file|
      ensures p.s.c.br < p.s.c.btr && p.s.c.fptr < |p.s.file| ==>
        p.s.c.br + Min(CHUNK, |p.s.file| - p.s.c.fptr) <= p.s.c.btr
    {
      FillShape();
      p.s.FillInside();
    }

    lemma StateIs()
      requires Valid()
      ensures state.Loading? <==> !p.s.c.decoder.Ready?
    {
    }

    lemma FirstFacts()
      requires Valid() && state.FirstFrame? && !decoding
      ensures p.Shape() && p.q.Safe() && p.AtFrame(sought) && sought <= |p.movie.vect|
      ensures p.s.c.playCur == Off(p.movie, sought) && p.s.c.decoder.Ready?
    {
    }

    // The first image is started, and with interrupts in between that of the clock's frame.
    twostate predicate Begun(pass: Pass)
      reads this, p, p.s`c, p.jpeg
    {
      && p.s.c.playback == old(p.s.c.playback) && p.s.c.fptr == old(p.s.c.fptr)
      && (fault.Sane? ==>
            && decoding && paused == old(p.s.c.playback.Waiting?)
            && p.videoPos <= p.framePos + 1 && p.ImageOf(p.framePos)
            && (!p.s.c.playback.Play? || pass == STILL ==> p.framePos == p.start)
            && (pass == STILL ==> p.underruns == p.retries == 0))
    }

    // FIRST_FRAME in DECODE_INIT: playback is primed and the first image started.
    method FirstPass(pass: Pass)
      requires Valid() && state.FirstFrame? && !decoding && fault.Sane?
      modifies this`decoding, this`paused, this`fault, p, p.q, p.q.data, p.s`c, p.dma, p.jpeg
      ensures Begun(pass) && (fault.Sane? ==> Valid())
      // the count of the FIFO wraps unless two packets are loaded and no playing interrupt
      // comes between the count of the first and the subtraction of both
      ensures fault.Sane? || (fault.CountWraps? && p.q.available > FIFO_SIZE)
      ensures fault.Sane? <==>
        && (old(p.s.c.playback.Play?) ==> pass.Quiet(p.dma.Length))
        && var start := if old(p.s.c.playback.Waiting?) then sought else 0;
           start < |p.movie.vect| && sought <= |p.movie.vect| &&
           Off(p.movie, start + 1) + Off(p.movie, sought) - Off(p.movie, start) + p.movie.pkt < old(p.s.c.fptr)
    {
      hide Off, QuietFor, WellFormed, Starting, Player.Valid, Player.AtFrame, Player.AudioSound;
      FirstFacts();
      paused := p.s.c.playback.Waiting?;
      var good := p.Prime(pass.early, pass.one, pass.two, pass.copying, sought);
      if !good {
        fault := CountWraps;
        return;
      }
      DecodeOn(pass);
      decoding := true;
    }

    twostate predicate Awaited(codec: CodecState, timeout: bool)
      reads this, p, p.s`c, p.jpeg
    {
      && (codec.Free? ==>
            state.Samples? && !decoding && fault.Sane? &&
            p.s.c == old(p.s.c).(playback := if old(p.s.c.playback).Waiting? then Waiting else Play))
      && (state.Loading? <==> codec.Busy? && timeout && p.s.c.empty)
      && (state.Loading? ==> p.s.c.decoder.FillReq?)
      && fault == (if state.Loading? && p.expected != p.s.c.fptr then RefillInFirst else Sane)
      && if codec.Busy? && timeout then p.ImageOf(Later(old(p.videoPos), p.framePos))
         else p.videoPos == old(p.videoPos) && p.retries == old(p.retries) && p.Still() &&
              (codec.Free? || p.s.c == old(p.s.c))
    }

    // FIRST_FRAME in DECODE_WAIT: playback starts, unless it waits, when the first image is
    // there; after a timeout the next image is decoded, or the ring filled anew if it is
    // marked empty.  That fill is right exactly if the file position is the place expected.
    method WaitPass(codec: CodecState, timeout: bool, pass: Pass)
      requires Valid() && decoding && state.FirstFrame? && fault.Sane?
      modifies this`state, this`decoding, this`fault
      modifies p`framePos, p`videoPos, p`expected, p`safe, p`takenPackets, p`underruns, p`retries
      modifies p.q`readPtr, p.q`available, p.q`taken, p.dma, p.s`c, p.jpeg
      ensures Awaited(codec, timeout) && (fault.Sane? ==> Valid())
      ensures fault.RefillInFirst? ==> p.expected < p.s.c.fptr
    {
      hide Inv, Placed, Fine, Off, Put, Right, Starts, Aligned, WellFormed, InOrder, Audio, AllAudio, Packets;
      match codec
      case Free =>
        if !p.s.c.playback.Waiting? {
          p.SetPlayback(Play);
        }
        state, decoding := Samples, false;
      case Broken =>
      case Busy =>
        if timeout {
          DecodeOn(pass);
          if p.s.c.empty {
            FillAnew();
          }
        }
    }

    method DecodeOn(pass: Pass)
      requires Primed()
      modifies p`framePos, p`videoPos, p`expected, p`safe, p`takenPackets, p`underruns, p`retries
      modifies p.q`readPtr, p.q`available, p.q`taken, p.dma, p.s`c, p.jpeg
      ensures Primed() && p.s.c.decoder.Ready? && Steady(old(p.s.c), p.s.c)
      ensures p.retries == old(p.retries) + if old(p.videoPos) > old(p.framePos) then 1 else 0
      ensures p.videoPos <= p.framePos + 1 + p.retries && p.ImageOf(Later(old(p.videoPos), p.framePos))
      ensures old(p.framePos) <= p.framePos && (pass == STILL ==> p.Still())
      ensures !p.s.c.playback.Play? ==> p.framePos == old(p.framePos)
    {
      hide Inv, Placed, Fine, Off, Put, Right, Starts, Aligned, WellFormed, InOrder, Audio, AllAudio, Packets;
      var _, _ := p.DecodeFrame(pass.caught, pass.late, p.videoPos > p.framePos, pass.beyond);
    }

    method FillAnew()
      requires Primed() && p.s.c.decoder.Ready? && decoding && fault.Sane?
      modifies this`state, this`fault, p.s`c
      ensures state.Loading? && p.s.c == old(p.s.c).(decoder := FillReq)
      ensures fault == if p.expected != p.s.c.fptr then RefillInFirst else Sane
      ensures p.expected <= p.s.c.fptr
      ensures fault.Sane? ==> Reloading()
    {
      hide Inv, Placed, Fine, Off, Put, Right, Starts, Aligned, WellFormed, InOrder, Audio, AllAudio, Packets;
      p.s.CursorInside(p.safe);
      p.s.FillAnew(p.safe);
      state := Loading;
      if p.expected != p.s.c.fptr {
        fault := RefillInFirst;
      }
    }

    // While playing the FIFO is filled and an image started that is due.
    twostate predicate Sampled(codec: CodecState, timeout: bool, pass: Pass)
      reads p, p.s`c, p.jpeg
    {
      var was := old(p.s.c.playback);
      && (pass == STILL || !was.Play? ==> p.Still())
      && (was.Play? ==>
            && p.s.c.playback == (if old(p.framePos) >= |p.movie.vect| then Stop else Play)
            && p.s.c.fptr == old(p.s.c.fptr) && p.retries == old(p.retries)
            && p.Fed() && p.Shown(codec.Free? || timeout))
      && (!was.Play? ==>
            && p.queue == old(p.queue) && p.videoPos == old(p.videoPos)
            && p.s.c == old(p.s.c).(playback := match was
                                                case Pause => Waiting
                                                case Resume => Play
                                                case other => other))
    }

    // PROC_SAMPLES.
    method SamplesPass(codec: CodecState, timeout: bool, pass: Pass)
      requires Valid() && state.Samples?
      modifies p`framePos, p`fifoPos, p`videoPos, p`expected, p`safe
      modifies p`queue, p`takenPackets, p`underruns, p`retries, p`ordered
      modifies p.q, p.q.data, p.s`c, p.dma, p.jpeg
      ensures Valid()
      ensures Sampled(codec, timeout, pass)
    {
      hide Inv, Placed, Fine, Off, Put, Right, Starts, Aligned, WellFormed, InOrder, Audio, AllAudio, Packets;
      hide Player.GotImage;
      match p.s.c.playback
      case Play =>
        p.ProcSamples(codec.Free? || timeout, pass.one, pass.caught, pass.late, pass.beyond);
      case Pause => p.SetPlayback(Waiting);
      case Resume => p.SetPlayback(Play);
      case _ =>
    }

    twostate predicate Passed(codec: CodecState, timeout: bool, ok: bool, pass: Pass)
      reads this, p, p.s, p.jpeg
    {
      match old(state)
      case Loading => Filled(ok)
      case FirstFrame => if old(decoding) then Awaited(codec, timeout) else Begun(pass)
      case Samples => Sampled(codec, timeout, pass)
    }

    // jmv_lib_process.
    method ProcessPass(codec: CodecState, timeout: bool, ok: bool, pass: Pass)
      requires Valid() && fault.Sane?
      modifies this`state, this`decoding, this`paused, this`fault
      modifies p, p.q, p.q.data, p.s, p.s.ring, p.dma, p.jpeg
      ensures Passed(codec, timeout, ok, pass) && (fault.Sane? ==> Valid())
    {
      hide Valid, Filled, Begun, Awaited, Sampled;
      match state
      case Loading => FillPass(ok);
      case FirstFrame =>
        if decoding {
          WaitPass(codec, timeout, pass);
        } else {
          FirstPass(pass);
        }
      case Samples => SamplesPass(codec, timeout, pass);
    }

    // The clock goes on, and a packet is taken if one is there.
    twostate predicate Called()
      reads p, p.s`c
    {
      var due, there := p.s.c.playback.Play?, old(p.q.available) >= p.movie.pkt;
      && p.framePos == old(p.framePos) + (if due then 1 else 0)
      && p.takenPackets == old(p.takenPackets) + (if due && there then 1 else 0)
      && p.underruns == old(p.underruns) + (if due && !there then 1 else 0)
    }

    // The DMA interrupt, which does nothing unless playback is on.
    method Callback(second: bool)
      requires Valid()
      modifies p`framePos, p`takenPackets, p`underruns, p.q`readPtr, p.q`available, p.q`taken, p.dma
      ensures Valid() && Called()
    {
      hide Inv, Placed, Fine, Off, Put, Right, Starts, Aligned, WellFormed, InOrder, Audio, AllAudio, Packets;
      if Playing() {
        p.InterruptsAtRest([second]);
      } else {
        p.q.ValidSafe();
        p.Interrupts([second]);
      }
    }

    function Chosen(was: Playback, button: Button): Playback {
      match button
      case PlayButton => Resume
      case PauseButton => Pause
      case Touch => if was.Waiting? then Stop else was
    }

    // The buttons, at any time; a touch of the image stops playback when it waits.
    method Pressed(button: Button)
      requires Valid()
      modifies p.s`c
      ensures Valid()
      ensures p.s.c == old(p.s.c).(playback := Chosen(old(p.s.c.playback), button))
    {
      hide Inv, Placed, Fine, Off, Put, Right, Starts, Aligned, WellFormed, InOrder, Audio, AllAudio, Packets;
      var to := match button
        case PlayButton => Resume
        case PauseButton => Pause
        case Touch => if p.s.c.playback.Waiting? then Stop else p.s.c.playback;
      if Playing() {
        p.SetPlayback(to);
      } else {
        p.s.SetPlayback(to, p.s.c.playCur);
      }
    }

    // What a run of the task makes of the cursors, by the outcome of its read.
    function After(c: Control, ok: bool): Control {
      if c.fptr > |p.s.file| then c
      else if ok || !Reads(c, |p.s.file|) then Tick(c, p.s.half, |p.s.file|) else Noted(c, p.s.half)
    }

    // The buffer task.  Going on with a refill between a seek and the fill, it would move
    // the file position that the fill is to start from.
    method BufferPass(ok: bool)
      requires Valid() && fault.Sane?
      modifies this`fault, p`safe, p.s`c, p.s`taskRead, p.s`error, p.s.ring
      ensures fault.Sane? ==> Valid()
      ensures fault == if ok && !TaskMayRun(old(p.s.c), |p.s.file|) then TaskAfterSeek else Sane
      ensures p.s.c == if fault.TaskAfterSeek? then old(p.s.c) else After(old(p.s.c), ok)
      ensures fault.TaskAfterSeek? ==>
        p.s.c.decoder.FillReq? && p.s.c.fptr <= |p.s.file| &&
        Tick(p.s.c, p.s.half, |p.s.file|).fptr != p.s.c.fptr ==
          if decoding then p.expected else Off(p.movie, sought)
    {
      hide Inv, Placed, Fine, Off, Put, Right, Starts, Aligned, WellFormed, InOrder, Audio, AllAudio, Packets;
      if Playing() {
        p.Refill(ok);
      } else {
        p.s.ValidIs();
        if ok && !TaskMayRun(p.s.c, |p.s.file|) {
          fault := TaskAfterSeek;
          SeekSurvives(p.s.c, p.s.c.fptr, p.s.half, |p.s.file|);
        } else {
          TaskMeanwhile(ok);
        }
      }
    }

    method TaskMeanwhile(ok: bool)
      requires Valid() && !Playing() && (ok ==> TaskMayRun(p.s.c, |p.s.file|))
      modifies p.s`c, p.s`taskRead, p.s`error, p.s.ring
      ensures Valid() && old(p.s.c.fptr) <= |p.s.file| && p.s.c == After(old(p.s.c), ok)
    {
      hide Inv, Placed, Fine, Off, Put, Right, Starts, Aligned, WellFormed, InOrder, Audio, AllAudio, Packets, Tick;
      p.s.ValidIs();
      TickBack(p.s.c, p.s.half, |p.s.file|);
      NotedIs(p.s.c, p.s.half);
      ghost var _ := p.s.BufferTask(ok, p.s.c.playCur);
    }

    twostate predicate Slid(percent: nat)
      reads this, p, p.s`c
    {
      if old(p.s.c).decoder.FillWait? then fault.Sane? && state == old(state) && p.s.c == old(p.s.c)
      else
        var f := percent * |p.movie.vect| / 100;
        && state.Loading? && f <= |p.movie.vect| && p.framePos == p.fifoPos == p.videoPos == f
        && p.s.c == SeekTo(old(p.s.c), Off(p.movie, f), |p.movie.file|) && p.s.c.fptr == Off(p.movie, f)
        && sought == (if decoding then old(sought) else f)
        && fault == (if decoding && !(f == old(p.framePos) == old(p.fifoPos) == old(p.videoPos) && p.shift == 0)
                     then SeekInFirst else Sane)
    }

    // jmv_lib_seek.  While the first image is decoded only the positions and the file
    // position go to the frame sought: that is sound exactly if they were there, with the
    // place expected.
    method SeekPass(percent: nat)
      requires Valid() && percent <= 100 && fault.Sane?
      modifies this`state, this`sought, this`fault, p`framePos, p`fifoPos, p`videoPos, p.s`c
      ensures Slid(percent) && (fault.Sane? ==> Valid())
      ensures !old(p.s.c).decoder.FillWait? ==> p.s.Valid()
    {
      hide Inv, Placed, Fine, Put, Right, Starts, Aligned, InOrder, Audio, AllAudio, Packets;
      ghost var at := if Playing() then p.safe else p.s.c.playCur;
      var idle := !p.s.c.decoder.FillWait?;
      var framePos, fifoPos, videoPos := p.framePos, p.fifoPos, p.videoPos;
      p.Seek(percent, at);
      if idle {
        state := Loading;
        if !decoding {
          sought := p.framePos;
        } else if !(p.framePos == framePos == fifoPos == videoPos && p.expected == p.s.c.fptr) {
          fault := SeekInFirst;
        }
      }
    }

    method Do(e: Event)
      requires Valid() && fault.Sane? && (e.Slide? ==> e.percent <= 100)
      modifies this, p, p.q, p.q.data, p.s, p.s.ring, p.dma, p.jpeg
      ensures fault.Sane? ==> Valid()
      ensures match e
        case Process(codec, timeout, ok, pass) => Passed(codec, timeout, ok, pass)
        case Interrupt(_) => Called()
        case Task(ok) => fault.Sane? ==> p.s.c == After(old(p.s.c), ok)
        case Press(button) => p.s.c == old(p.s.c).(playback := Chosen(old(p.s.c.playback), button))
        case Slide(percent) => Slid(percent)
    {
      hide Valid, Passed, Called, After, Slid;
      match e
      case Process(codec, timeout, ok, pass) => ProcessPass(codec, timeout, ok, pass);
      case Interrupt(second) => Callback(second);
      case Task(ok) => BufferPass(ok);
      case Press(button) => Pressed(button);
      case Slide(percent) => SeekPass(percent);
    }

    // A pass and then an interrupt, while the movie plays: there is no underrun exactly if
    // the FIFO held a packet or the next one is loaded, and the image of the clock's frame is
    // started if it was due and all of it is loaded.
    method Turn(codec: CodecState, timeout: bool, second: bool)
      requires Valid() && state.Samples? && p.s.c.playback.Play? && p.framePos < |p.movie.vect|
      modifies p`framePos, p`fifoPos, p`videoPos, p`expected, p`safe
      modifies p`queue, p`takenPackets, p`underruns, p`retries, p`ordered
      modifies p.q, p.q.data, p.s`c, p.dma, p.jpeg
      ensures Valid() && p.s.c.playback.Play? && p.s.c.fptr == old(p.s.c.fptr)
      ensures p.framePos == old(p.framePos) + 1
      ensures p.underruns == old(p.underruns) + if old(p.q.available) >= p.movie.pkt || old(p.NextThere()) then 0 else 1
      ensures codec.Free? && old(p.videoPos) <= old(p.framePos) &&
              Off(p.movie, p.framePos) + p.shift < p.s.c.fptr ==>
        p.videoPos == p.framePos && p.GotImage(p.framePos - 1)
      ensures old(p.videoPos) > old(p.framePos) ==> p.videoPos == old(p.videoPos)
      ensures p.retries == old(p.retries)
      ensures p.shift == 0 && old(p.s.c.playCur == p.expected && p.videoPos <= p.fifoPos) ==>
        p.ordered == old(p.ordered)
    {
      hide Valid, Off, Player.GotImage;
      HeldNow();
      SamplesPass(codec, timeout, STILL);
      HeldNow();
      Callback(second);
    }

    lemma HeldNow()
      requires Valid() && state.Samples?
      ensures p.takenPackets <= |p.queue| && 0 < 2 * p.movie.pkt <= FIFO_SIZE
      ensures p.q.available == (|p.queue| - p.takenPackets) * p.movie.pkt
      ensures p.q.available >= p.movie.pkt <==> p.takenPackets < |p.queue|
      ensures p.fifoPos == p.start + |p.queue| <= |p.movie.vect| && p.videoPos <= |p.movie.vect|
      ensures p.takenPackets + p.underruns + p.start == p.framePos + 2 && p.jpeg != p.dma
    {
      hide Player.Rest;
      p.Held();
      p.ClockIs();
    }

    // With the file loaded to its end and the cursor where the frame vector says, the next
    // packet is there as long as there are frames.
    lemma AllThere()
      requires Valid() && state.Samples? && Aligned(p.movie) && p.shift == 0 && p.videoPos <= p.fifoPos
      requires p.s.c.fptr == |p.movie.file| > Off(p.movie, |p.movie.vect|)
      ensures p.s.c.playCur == p.expected && p.fifoPos <= |p.movie.vect|
      ensures p.NextThere() <==> p.fifoPos < |p.movie.vect|
      ensures p.framePos < |p.movie.vect| ==> Off(p.movie, p.framePos + 1) < p.s.c.fptr
    {
      hide Player.AudioSound, Player.Clock, Fine, Inv, Aligned;
      var m := p.movie;
      MovieNow();
      OffOrdered(m, |m.vect|, p.fifoPos);
      if p.fifoPos < |m.vect| {
        OffIncreases(m, p.fifoPos, |m.vect|);
      }
      if p.framePos < |m.vect| {
        OffOrdered(m, |m.vect|, p.framePos + 1);
      }
    }

    lemma MovieNow()
      requires Valid() && state.Samples?
      ensures p.Shape() && p.movie.pkt > 0 && |p.movie.file| <= Off(p.movie, |p.movie.vect|) + p.movie.pkt
    {
    }

    lemma OrderedNow()
      requires Valid() && state.Samples? && Aligned(p.movie) && p.shift == 0 && p.underruns + p.retries <= 1
      ensures p.ordered
    {
      hide Player.AudioSound, Player.Clock, Player.Cursor, Aligned;
    }

    // All packets were taken out.
    lemma AllTaken()
      requires Valid() && state.Samples? && p.ordered && p.framePos == |p.movie.vect| && p.underruns == 2
      ensures p.takenPackets == |p.queue| && p.q.available == 0 && p.start <= |p.movie.vect|
      ensures p.queue == Starts(p.movie, p.start, |p.movie.vect|)
      ensures AllAudio(p.movie, p.queue) && p.q.stream == Audio(p.movie, p.queue)
    {
      hide Player.Rest;
      HeldNow();
      p.QueueIs();
      p.PlayedInOrder();
    }

    // The movie is loaded to its end, its images have aligned sizes, no packet has come late,
    // and the image of the clock's frame has just been started or is due.
    ghost predicate OnTime()
      reads this, p, p.q, p.q.data, p.s, p.s.ring
    {
      var last := |p.movie.vect|;
      && Valid() && state.Samples? && p.s.c.playback.Play?
      && Aligned(p.movie) && p.shift == 0 && p.ordered && p.retries == 0
      && p.s.c.fptr == |p.movie.file| > Off(p.movie, last)
      && p.framePos <= p.videoPos <= p.framePos + 1 && p.framePos <= last
      && (p.framePos + 1 >= last ==> p.videoPos == p.framePos)
      && p.underruns == Later(last, p.framePos + 2) - last
    }

    // One turn of it: the next image is started, and the next packet taken if there is one
    // left.
    method TurnOnTime(second: bool)
      requires OnTime() && p.framePos < |p.movie.vect|
      modifies p`framePos, p`fifoPos, p`videoPos, p`expected, p`safe
      modifies p`queue, p`takenPackets, p`underruns, p`retries, p`ordered
      modifies p.q, p.q.data, p.s`c, p.dma, p.jpeg
      ensures OnTime() && p.framePos == p.videoPos == old(p.framePos) + 1
      ensures old(p.videoPos) == old(p.framePos) ==> p.GotImage(p.framePos - 1)
    {
      hide Valid, Off, Player.GotImage, Aligned, Player.NextThere;
      HeldNow();
      AllThere();
      Turn(Free, false, second);
    }

    // Such a movie plays to its last frame, one pass and one interrupt after the other: every
    // frame's image is started when the clock comes to it, none is left out, and all the
    // audio is taken out in order.  The silence of the last two interrupts follows the last
    // packet.
    method PlayOut(halves: nat -> bool)
      requires OnTime() && p.framePos < |p.movie.vect|
      modifies p`framePos, p`fifoPos, p`videoPos, p`expected, p`safe
      modifies p`queue, p`takenPackets, p`underruns, p`retries, p`ordered
      modifies p.q, p.q.data, p.s`c, p.dma, p.jpeg
      ensures Valid() && p.framePos == p.videoPos == |p.movie.vect| && p.underruns == 2
      ensures p.takenPackets == |p.queue| && p.q.available == 0 && p.start <= |p.movie.vect|
      ensures p.queue == Starts(p.movie, p.start, |p.movie.vect|)
      ensures AllAudio(p.movie, p.queue) && p.q.stream == Audio(p.movie, p.queue)
    {
      var n := 0;
      while p.framePos < |p.movie.vect|
        invariant OnTime() && (n > 0 ==> p.videoPos == p.framePos)
        decreases |p.movie.vect| - p.framePos
      {
        hide OnTime;
        TurnOnTime(halves(n));
        n := n + 1;
      }
      AllTaken();
    }

    // Just behind the first frame.
    lemma OnTimeNow()
      requires Valid() && state.Samples? && p.s.c.playback.Play? && Aligned(p.movie) && p.shift == 0
      requires p.s.c.fptr == |p.movie.file| > Off(p.movie, |p.movie.vect|)
      requires p.framePos == 0 && p.videoPos == 1 && 2 <= |p.movie.vect| && p.underruns == p.retries == 0
      ensures OnTime()
    {
      hide Valid, Aligned;
      OrderedNow();
    }

    // Any life of a movie, with pauses and seeks and from one fill and first frame to the
    // next: what was taken out of the FIFO and what is in it is the audio at the queued
    // positions; it is the movie's from the frame where playback was primed as long as
    // every fill kept the order, and at the frame sought if playback waited then; the
    // audio stays two packets ahead of the clock but for underruns.
    method Live(schedule: seq<Event>)
      requires Valid() && fault.Sane?
      requires forall e :: e in schedule && e.Slide? ==> e.percent <= 100
      modifies this, p, p.q, p.q.data, p.s, p.s.ring, p.dma, p.jpeg
      ensures fault.Sane? ==> Valid()
      ensures fault.Sane? && Playing() ==> p.Valid() && p.primed && InStep()
    {
      hide Valid, InStep;
      for i := 0 to |schedule|
        invariant fault.Sane? ==> Valid()
      {
        if fault.Sane? {
          Do(schedule[i]);
        }
      }
      if fault.Sane? && Playing() {
        StaysInStep();
      }
    }

    ghost predicate InStep()
      requires p.Valid()
      reads this, p, p.q, p.q.data, p.s, p.s.ring
    {
      && p.q.stream[..p.q.taken] == Audio(p.movie, p.queue[..p.takenPackets])
      && (p.ordered ==> p.q.stream == Audio(p.movie, Starts(p.movie, p.start, p.fifoPos)))
      && (Aligned(p.movie) && (paused || sought == 0) && p.underruns + p.retries <= 1 ==>
            p.ordered && p.start == sought)
      && p.fifoPos * p.movie.pkt - p.q.available == (p.framePos + 2 - p.underruns) * p.movie.pkt
      && (p.underruns + p.retries <= 1 ==> p.videoPos <= p.fifoPos)
    }

    lemma StaysInStep()
      requires Valid() && Playing()
      ensures p.Valid() && p.primed && InStep()
    {
      hide Player.Rest, Off;
      p.PlayedInOrder();
      p.Lockstep();
    }
  }
}
