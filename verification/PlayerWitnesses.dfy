// Runs of the player that come to the states in which it does not do what its parts
// promise: for each condition proved of the streaming modules, one that fails it.
module PlayerWitnesses {
  import opened Bytes
  import opened RefillControl
  import opened StreamRing
  import opened JmvLayout
  import opened AudioFifo
  import opened JmvPlayer
  import opened JmvLife
  import J = JpegCodec

  function Blank(n: nat): (file: seq<byte>)
    ensures |file| == n
  {
    seq(n, _ => 0 as byte)
  }

  lemma OneChunk()
    ensures GoodSize(CHUNK)
  {
    assert Chunks(CHUNK);
  }

  // ------------------------------------------------------------------ the ring

  // A player of a file that has a whole ring of two chunks from start on, filled and playing.
  method Filled(file: seq<byte>, start: nat) returns (s: Stream)
    requires start + 2 * CHUNK <= |file| && |file| + 2 * CHUNK <= U32
    ensures fresh(s) && fresh(s.ring) && s.half == CHUNK && s.file == file
    ensures s.Valid()
    ensures s.c == Control(start + 2 * CHUNK, start, 0, 0, 2 * CHUNK, 2 * CHUNK, Req, None, None, false, Play, Ready)
  {
    hide Fine, Inv, Chunks;
    OneChunk();
    s := new Stream(CHUNK, file, start);
    s.Fill(true);
    s.Fill(true);
    s.Fill(true);
    s.Fill(true);
    s.SetPlayback(Play, s.c.playCur);
  }

  // The reader has left the first half, and its refill is requested.
  method HalfAsked(file: seq<byte>) returns (s: Stream)
    requires 2 * CHUNK < |file| && |file| + 2 * CHUNK <= U32
    ensures fresh(s) && fresh(s.ring) && s.half == CHUNK && s.file == file
    ensures s.Valid()
    ensures s.c == Control(2 * CHUNK, CHUNK + 1, CHUNK + 1, 0, CHUNK, 0, Wait, Half, Half, false, Play, Ready)
  {
    hide Fine, Inv, Copied;
    s := Filled(file, 0);
    var dst := new byte[2 * CHUNK](_ => 0);
    var _, _ := s.FillReadBuf(dst, 0, CHUNK + 1);
    ghost var _ := s.BufferTask(true, s.c.playCur);
  }

  // The file ends with the refill that the player comes to wait for: it is never resumed.
  method StarvesForGood() returns (s: Stream)
    ensures s.Valid() && Starved(s.c, s.half, |s.file|) && s.c.fptr < |s.file|
    ensures forall n: nat :: !RefillControl.Run(s.c, n, s.half, |s.file|).playback.Resume?
  {
    hide Fine, Inv, Copied, RefillControl.Run;
    s := HalfAsked(Blank(3 * CHUNK));
    var dst := new byte[2 * CHUNK](_ => 0);
    var _, _ := s.FillReadBuf(dst, 0, CHUNK);
    s.ValidIs();
    StarvedResumesIff(s.c, s.half, |s.file|);
  }

  // Near the end of the 32-bit range a request comes past the guard, though its bytes are
  // not loaded.
  method ReadsOutside() returns (s: Stream, outside: bool)
    ensures s.Valid() && outside && s.c.playCur < s.c.fptr < U32
    ensures exists n: nat :: n < U32 && s.c.playCur + n >= s.c.fptr && !Refused(s.c, n)
  {
    var start := 0xFFF0_0000;
    var n := 0x10_0000;
    s := Filled(Blank(start + 2 * CHUNK), start);
    var dst := new byte[n](_ => 0);
    var _, o := s.FillReadBuf(dst, 0, n);
    outside := o;
    GuardExact(s.c, n);
  }

  // A seek finds a half refill in flight: one run of the buffer task, and the position it
  // has set is gone.
  method SeekIsLost() returns (s: Stream)
    ensures s.Valid() && s.c.decoder.FillReq? && s.c.fptr == 0
    ensures Tick(s.c, s.half, |s.file|).fptr != 0
  {
    hide Fine, Inv;
    s := HalfAsked(Blank(4 * CHUNK));
    ghost var c := s.c;
    s.Seek(0, s.c.playCur);
    SeekSurvives(c, 0, s.half, |s.file|);
  }

  // A seek in the middle of the decoder's fill, which the FLAC reader takes.
  method SeekSpoilsFill() returns (s: Stream)
    ensures s.Valid() && s.c.decoder.FillWait?
    ensures !Inv(s.c.(fptr := Min(0, |s.file|)), s.half, |s.file|)
  {
    assert Chunks(CHUNK);
    s := new Stream(CHUNK, Blank(CHUNK + 1), 0);
    s.Fill(true);
    s.Fill(true);
    s.ValidIs();
    SeekInFill(s.c, 0, s.half, |s.file|);
  }

  // ----------------------------------------------------------------- the movie

  // Four frames of 32 bytes of audio and 32 bytes of image.
  function Short(): (m: Movie)
    ensures WellFormed(m, 32, CHUNK) && m.head == 0 && Aligned(m)
    ensures |m.vect| == 4 && m.pkt == 32 && |m.file| == 288
    ensures Off(m, 0) == 0 && Off(m, 1) == 64 && Off(m, 2) == 128 && Off(m, 3) == 192 && Off(m, 4) == 256
  {
    var m := Movie(Blank(288), [32, 32, 32, 32], 32, 0);
    assert Off(m, 1) == 64 && Off(m, 2) == 128;
    assert Off(m, 3) == 192 && Off(m, 4) == 256;
    m
  }

  // The movie opened, and its first frame shown.
  method Opened() returns (lib: Lib)
    ensures fresh(lib) && fresh(lib.p) && fresh(lib.p.s) && fresh(lib.p.s.ring) && fresh(lib.p.q)
    ensures fresh(lib.p.q.data) && fresh(lib.p.dma) && fresh(lib.p.jpeg)
    ensures lib.Valid() && lib.fault.Sane? && lib.p.movie == Short() && lib.p.s.half == CHUNK
    ensures lib.state.Samples? && !lib.decoding && lib.p.s.c.playback.Play?
  {
    hide Lib.Valid, FillStart, FillStep, Chunks, WellFormed, Short;
    OneChunk();
    lib := new Lib(Short(), CHUNK, 32);
    Load(lib);
    lib.FirstPass(STILL);
    lib.WaitPass(Free, false, STILL);
  }

  // The user pauses, and moves the slider to percent.
  method PausedAt(percent: nat) returns (lib: Lib)
    requires percent <= 100
    ensures fresh(lib) && fresh(lib.p) && fresh(lib.p.s) && fresh(lib.p.s.ring) && fresh(lib.p.q)
    ensures fresh(lib.p.q.data) && fresh(lib.p.dma) && fresh(lib.p.jpeg)
    ensures lib.Valid() && lib.fault.Sane? && lib.p.movie == Short() && lib.p.s.half == CHUNK
    ensures lib.state.Loading? && !lib.decoding && lib.sought == percent * 4 / 100 <= 4
    ensures lib.p.s.c.decoder.FillReq? && lib.p.s.c.playback.Waiting?
    ensures lib.p.s.c.fptr == Off(Short(), lib.sought)
  {
    hide Lib.Valid, FillStart, FillStep, Chunks, WellFormed;
    lib := Opened();
    lib.Pressed(PauseButton);
    lib.SamplesPass(Free, false, STILL);
    lib.StartIs();
    lib.SeekPass(percent);
    SeekInside(lib.sought);
  }

  lemma SeekInside(f: nat)
    requires f <= 4
    ensures Min(Off(Short(), f), |Short().file|) == Off(Short(), f)
  {
    assert f == 0 || f == 1 || f == 2 || f == 3 || f == 4;
  }

  // The fill, to the end of the movie.
  method Load(lib: Lib)
    requires lib.Valid() && lib.state.Loading? && !lib.decoding && lib.p.movie == Short() && lib.p.s.half == CHUNK
    requires lib.p.s.c.decoder.FillReq? && lib.p.s.c.fptr < 288
    modifies lib`state, lib.p`safe, lib.p.s, lib.p.s.ring
    ensures lib.Valid() && lib.state.FirstFrame?
    ensures lib.p.s.c.fptr == 288 && lib.p.s.c.playback == old(lib.p.s.c.playback)
  {
    lib.FillPass(true);
    lib.FillPass(true);
    lib.FillPass(true);
  }

  // The user presses play before the first frame: the positions go back to the first frame,
  // and what is played comes from the frame sought.
  method RestartsMisaligned() returns (lib: Lib)
    ensures lib.Valid() && lib.fault.Sane? && lib.decoding && lib.sought == 2
    ensures lib.p.start == 0 && lib.p.shift == Off(lib.p.movie, 2) != 0
  {
    hide Lib.Valid, Lib.Primed, Short;
    lib := PausedAt(50);
    lib.Pressed(PlayButton);
    Load(lib);
    lib.FirstPass(STILL);
    lib.PrimedAt();
  }

  // Behind the last frame but two no two packets are loaded, and the count of the FIFO wraps.
  method StartsShort() returns (lib: Lib)
    ensures lib.fault.CountWraps? && lib.p.q.available > FIFO_SIZE
  {
    hide Lib.Valid, Short;
    lib := PausedAt(75);
    Load(lib);
    lib.FirstPass(STILL);
  }

  // The user moves the slider while the first image is decoded: the place expected is still
  // that of the old frame, and the fill that follows starts behind it.
  method SeeksInFirst() returns (lib: Lib)
    ensures lib.fault.SeekInFirst? && lib.decoding && lib.p.s.c.decoder.Ready? && lib.p.movie == Short()
    ensures lib.p.videoPos == 2 && lib.p.shift == 0 && lib.p.s.c.playCur == lib.p.s.base == Off(lib.p.movie, 2)
    ensures lib.p.expected < lib.p.s.base
  {
    hide Lib.Valid, Short, Stream.Valid, Inv, Chunks, Player.Rest;
    lib := PausedAt(0);
    Load(lib);
    lib.FirstPass(STILL);
    lib.StartIs();
    FirstPlace(lib.p);
    lib.SeekPass(50);
    FillToEnd(lib.p.s);
  }

  lemma FirstPlace(p: Player)
    requires p.Valid() && p.movie == Short() && p.shift == 0 && p.videoPos <= 1
    ensures p.expected < 128 && |p.s.file| == 288
  {
  }

  method FillToEnd(s: Stream)
    requires s.Valid() && s.c.decoder.FillReq? && s.half == CHUNK && s.c.fptr < |s.file| == 288
    modifies s, s.ring
    ensures s.Valid() && s.c.decoder.Ready? && s.c.playCur == s.base == old(s.c).fptr
  {
    hide Inv, Chunks, Stream.Valid;
    s.Fill(true);
    s.Fill(true);
    s.Fill(true);
  }

  // A seek to the beginning while the movie plays on, with an interrupt after the first
  // packet is counted: the packet is gone, and the count of the FIFO wraps.
  method StartsInterrupted() returns (lib: Lib)
    ensures lib.fault.CountWraps? && lib.p.q.available > FIFO_SIZE
  {
    hide Lib.Valid, Lib.Primed, Short, Off, FillStart, FillStep;
    lib := Opened();
    lib.StartIs();
    lib.SeekPass(0);
    SeekInside(0);
    Load(lib);
    lib.FirstPass(Pass([], Slots([], [], [false]), QUIET, [], [], [], 0));
  }

  // Six frames of half a chunk of audio and half a chunk of image, of which the ring holds
  // two; the first two are of other bytes than the rest.
  const PART: nat := 32 * 1024

  function Long(): (m: Movie)
    ensures WellFormed(m, PART, CHUNK) && m.head == 0 && |m.file| == 12 * PART + 1
    ensures |m.vect| == 6 && m.pkt == PART && forall i :: 0 <= i < 6 ==> m.vect[i] == PART
    ensures Off(m, 0) == 0 && Off(m, 1) == 2 * PART && Off(m, 2) == 4 * PART
    ensures forall p :: 0 <= p < |m.file| ==> m.file[p] == if p < 4 * PART then 1 else 0
  {
    var file := seq(12 * PART + 1, p => if p < 4 * PART then 1 as byte else 0);
    var m := Movie(file, [PART, PART, PART, PART, PART, PART], PART, 0);
    assert Off(m, 1) == 2 * PART && Off(m, 2) == 4 * PART;
    assert Off(m, 3) == 6 * PART && Off(m, 4) == 8 * PART;
    assert Off(m, 5) == 10 * PART && Off(m, 6) == 12 * PART;
    m
  }

  // The first image takes too long; the second is not loaded, and the ring is filled anew
  // from behind it.  What the next decode takes for its image is another.
  method WrongImage() returns (p: Player)
    ensures p.s.Valid() && p.s.c.decoder.Ready? && p.s.half == CHUNK && p.movie == Long()
    ensures p.videoPos == 1 && p.expected == Off(p.movie, 1) + p.shift == 2 * PART < |p.movie.file| < U32
    ensures p.s.c.playCur < U32 && p.s.ring.Length == 2 * CHUNK && !p.ImageThere(1)
  {
    hide Player.ImageThere, Stream.Valid, Long;
    p := AwaitsSecond();
    FillAgain(p);
    p.ImageAfterRefill(1);
    ghost var a := 3 * PART;
    assert p.s.ring[..][Due(p.s.base, a, 2 * CHUNK)] == p.movie.file[a + 2 * CHUNK];
  }

  // The ring filled with the first two frames.
  method LongFilled() returns (p: Player)
    ensures fresh(p) && fresh(p.s) && fresh(p.s.ring) && fresh(p.q) && fresh(p.q.data)
    ensures fresh(p.dma) && fresh(p.jpeg)
    ensures p.Shape() && p.q.Safe() && p.AtFrame(0) && p.s.half == CHUNK && p.movie == Long()
    ensures p.s.c.playCur == 0 && p.s.c.fptr == 2 * CHUNK && p.s.c.playback.Idle?
  {
    hide Stream.Valid, Inv, Chunks, Long, Off, WellFormed;
    OneChunk();
    p := new Player(Long(), CHUNK, PART);
    p.q.ValidSafe();
    FillAgain(p);
  }

  // The first image started.
  method FirstShown() returns (p: Player)
    ensures fresh(p) && fresh(p.s) && fresh(p.s.ring) && fresh(p.q) && fresh(p.q.data)
    ensures fresh(p.dma) && fresh(p.jpeg)
    ensures p.Valid() && p.primed && p.s.half == CHUNK && p.movie == Long() && p.shift == 0
    ensures p.framePos == 0 && p.videoPos == 1 && p.s.c.fptr == 2 * CHUNK && p.s.c.playback.Idle?
  {
    hide Long, Off, Player.Rest, Player.AtFrame, Player.GotImage, Player.Shape, Packet, QuietFor;
    p := LongFilled();
    var good := p.Prime([], QUIET, QUIET, [], 0);
    var _, _ := p.DecodeFrame([], [], false, 0);
  }

  // The first frame timed out, and the second refused.
  method AwaitsSecond() returns (p: Player)
    ensures fresh(p) && fresh(p.s) && fresh(p.s.ring)
    ensures p.s.Valid() && p.s.c.decoder.FillReq? && p.s.half == CHUNK && p.movie == Long() && p.Shape()
    ensures p.shift == 0 && p.videoPos == 1 && p.expected == Off(p.movie, 1) && p.s.c.fptr == 2 * CHUNK
  {
    hide Fine, Inv, Long, Off, Starts, WellFormed, Player.AudioSound, Player.Track;
    p := FirstShown();
    Refuse(p);
    SecondPlace(p);
    p.s.FillAnew(p.safe);
  }

  lemma SecondPlace(p: Player)
    requires p.Valid() && p.videoPos == 1 && p.shift == 0
    ensures p.s.Sound(p.safe) && p.Shape() && 1 <= |p.movie.vect| && p.expected == Off(p.movie, 1)
  {
  }

  method Refuse(p: Player)
    requires p.Valid() && p.primed && p.movie == Long() && p.shift == 0
    requires p.framePos == 0 && p.videoPos == 1 && p.s.c.fptr == 2 * CHUNK && p.s.c.playback.Idle?
    modifies p`framePos, p`videoPos, p`expected, p`safe, p`takenPackets, p`underruns, p`retries
    modifies p.q`readPtr, p.q`available, p.q`taken, p.dma, p.s`c, p.jpeg
    ensures p.Valid() && p.videoPos == 1 && p.s.c.empty && p.s.c.fptr == 2 * CHUNK
  {
    hide Player.Rest, Player.GotImage;
    assert Off(p.movie, 2) == 2 * CHUNK;
    var _, _ := p.DecodeFrame([], [], true, 0);
  }

  // A fill of the whole ring.
  method FillAgain(p: Player)
    requires p.s.Valid() && p.s.c.decoder.FillReq? && p.s.half == CHUNK && |p.s.file| == 12 * PART + 1
    requires p.s.c.fptr + 2 * CHUNK <= |p.s.file|
    modifies p.s, p.s.ring
    ensures p.s.Valid() && p.s.c.decoder.Ready? && p.s.base == p.s.c.playCur == old(p.s.c).fptr
    ensures p.s.c.fptr == p.s.base + 2 * CHUNK && p.s.c.rptr == 0
    ensures p.s.c.playback == old(p.s.c.playback)
  {
    hide Stream.Valid, Inv, Chunks;
    p.s.Fill(true);
    p.s.Fill(true);
    p.s.Fill(true);
    p.s.Fill(true);
  }

  // Three frames with images of 33 bytes.
  function Odd(): (m: Movie)
    ensures WellFormed(m, 64, CHUNK) && m.head == 0 && |m.file| == 195 + 20
    ensures |m.vect| == 3 && m.vect[0] == 33 && m.pkt == 32
    ensures Off(m, 0) == 0 && Off(m, 1) == 65 && Off(m, 2) == 130
  {
    var m := Movie(Blank(215), [33, 33, 33], 32, 0);
    assert Off(m, 1) == 65 && Off(m, 2) == 130 && Off(m, 3) == 195;
    m
  }

  // The packet that follows the first image is taken 31 bytes too far.
  method PacketsAstray() returns (p: Player)
    ensures p.Valid() && p.primed && p.shift == 0 && p.retries == 0 && p.movie == Odd()
    ensures p.queue == [Off(p.movie, 0), Off(p.movie, 1), Off(p.movie, 2) + 31] && !p.ordered
  {
    hide Player.Rest, Player.GotImage, Odd, Off, Inv, Fine, Placed;
    p := OddPrimed();
    var _, _ := p.DecodeFrame([], [], false, 0);
    p.FillAudioFifo(QUIET);
  }

  method OddPrimed() returns (p: Player)
    ensures fresh(p) && fresh(p.s) && fresh(p.s.ring) && fresh(p.q) && fresh(p.q.data)
    ensures fresh(p.dma) && fresh(p.jpeg)
    ensures p.Valid() && p.primed && p.movie == Odd() && p.shift == 0 && p.retries == 0
    ensures p.s.c.fptr == 215 && p.s.c.playback.Idle? && p.framePos == p.videoPos == 0
    ensures p.fifoPos == 2 && p.q.available == 0 && p.ordered && p.queue == [Off(p.movie, 0), Off(p.movie, 1)]
  {
    hide Odd, Off, Player.Rest, Player.AtFrame, Player.Shape, Packet, QuietFor;
    p := OddFilled();
    var _ := p.Prime([], QUIET, QUIET, [], 0);
  }

  method OddFilled() returns (p: Player)
    ensures fresh(p) && fresh(p.s) && fresh(p.s.ring) && fresh(p.q) && fresh(p.q.data)
    ensures fresh(p.dma) && fresh(p.jpeg)
    ensures p.Shape() && p.q.Safe() && p.AtFrame(0) && p.s.half == CHUNK && p.movie == Odd()
    ensures p.s.c.playCur == 0 && p.s.c.fptr == 215 && p.s.c.playback.Idle?
  {
    hide Stream.Valid, Inv, Chunks, Odd, Off, WellFormed;
    OneChunk();
    p := new Player(Odd(), CHUNK, 64);
    p.q.ValidSafe();
    p.s.Fill(true);
    p.s.Fill(true);
    p.s.Fill(true);
  }

  // ------------------------------------------------------------------ the codec

  // The peripheral uses one byte of a chunk of four, and then one more: what it was given
  // is not the beginning of the chunks any more.
  method WindowSlips() returns (c: J.Codec)
    ensures c.Valid() && c.slipped && c.chunks == [[1, 2, 3, 4], [5]] && c.taken == [1, 2]
    ensures !J.Tasted(c.taken, c.chunks, c.eaten, c.input.from)
  {
    hide J.InputOk, J.OutputOk, J.Placed, J.Tasting, J.Tasted;
    c := new J.Codec(true, true);
    var _ := c.Start(J.Got([1, 2, 3, 4]), J.Got([5]));
    c.Bounds();
    c.GetDataCallback(1);
    c.Bounds();
    c.GetDataCallback(1);
    c.InStep(0);
  }
}
