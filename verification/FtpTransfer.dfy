// Block-buffered transfers over the data connection, on the server's and on the client's
// side.
module FtpTransfer {
  import opened Bytes
  import opened Decimal

  // FTPS_DATA_BUFSIZE and LV_FM_OP_BUFSIZE; FTPS_DATA_MAXSIZE and LV_FM_OP_MAXSIZE.
  const BLOCK: nat := 32 * 1024
  const ROOM: nat := 24 * 1460

  // f_read: at most n bytes from the position on.
  function Chunk(file: seq<byte>, pos: nat, n: nat): seq<byte>
    requires pos <= |file|
  {
    file[pos..pos + Min(n, |file| - pos)]
  }

  // Bytes go from what is owed to what was sent.
  lemma SentMore(sent: seq<byte>, buf: seq<byte>, r: nat, m: nat, w: nat, tail: seq<byte>)
    requires r <= m <= w <= |buf|
    ensures sent + buf[r..m] + (buf[m..w] + tail) == sent + (buf[r..w] + tail)
  {
    assert buf[r..w] == buf[r..m] + buf[m..w];
  }

  // ------------------------------------------------------- the server sends a file

  // The data connection of RETR, from where cmd_retr has put the file position.
  class Retr {
    const file: seq<byte>
    const buf: array<byte>
    var wptr: nat
    var rptr: nat
    var open: bool
    var pos: nat
    var closed: bool
    ghost var sent: seq<byte>

    ghost predicate Valid()
      reads this, buf
    {
      && buf.Length == ROOM && rptr <= wptr <= BLOCK && pos <= |file|
      && (closed ==> !open && rptr == wptr) && (!open ==> pos == |file|)
    }

    // What is still to be sent.
    ghost function Owed(): seq<byte>
      requires Valid()
      reads this, buf
    {
      buf[rptr..wptr] + file[pos..]
    }

    constructor (file: seq<byte>, offset: nat)
      requires offset <= |file|
      ensures Valid() && fresh(buf) && !closed && open && sent == [] && Owed() == file[offset..]
      ensures this.file == file
    {
      this.file := file;
      buf := new byte[ROOM];
      wptr, rptr, open, pos, closed, sent := 0, 0, true, offset, false, [];
    }

    // ftps_write into a send buffer with room for window bytes; ok: tcp_write took them.
    method Write(window: nat, ok: bool)
      requires Valid()
      modifies this`rptr, this`sent
      ensures Valid() && sent + Owed() == old(sent + Owed()) && old(sent) <= sent
      ensures ok ==> |sent| == old(|sent|) + Min(window, wptr - old(rptr))
    {
      if wptr > rptr {
        var len := if window < wptr - rptr then window else wptr - rptr;
        if !ok {
          return;
        }
        SentMore(sent, buf[..], rptr, rptr + len, wptr, file[pos..]);
        sent := sent + buf[rptr..rptr + len];
        rptr := rptr + len;
      }
    }

    // The next block is read into the empty buffer; at the end of the file the file is closed.
    method ReadBlock()
      requires Valid() && open && wptr == rptr
      modifies this`wptr, this`rptr, this`open, this`pos, buf
      ensures Valid() && Owed() == old(Owed())
      ensures open <==> old(Owed()) != []
      ensures open ==> wptr > rptr
    {
      var chunk := Chunk(file, pos, BLOCK);
      Memcpy(buf, 0, chunk, 0, |chunk|);
      assert buf[..|chunk|] == chunk;
      pos := pos + |chunk|;
      if chunk == [] {
        open := false;
      } else {
        wptr, rptr := |chunk|, 0;
      }
    }

    // ftps_file_send.
    method Send(window: nat, ok: bool)
      requires Valid() && !closed
      modifies this`wptr, this`rptr, this`open, this`pos, this`closed, this`sent, buf
      ensures Valid() && sent + Owed() == old(sent + Owed())
      ensures closed ==> Owed() == []
      ensures old(sent) <= sent
      ensures ok && window > 0 && old(Owed()) != [] ==> |Owed()| < |old(Owed())|
      ensures old(Owed()) == [] ==> if old(open) then !open else closed
    {
      if open {
        if wptr == rptr {
          ReadBlock();
          if !open {
            return;
          }
        }
        Write(window, ok);
      } else {
        if wptr > rptr {
          Write(window, ok);
          return;
        }
        closed := true;
      }
    }

    // Windows above 0 and a stack that takes what it has room for: the connection is
    // closed, and exactly the file from the offset on was sent.
    method Run(windows: nat -> nat)
      requires Valid() && !closed && forall n :: windows(n) > 0
      modifies this`wptr, this`rptr, this`open, this`pos, this`closed, this`sent, buf
      ensures closed && sent == old(sent + Owed())
    {
      var n := 0;
      while !closed
        invariant Valid() && sent + Owed() == old(sent + Owed())
        invariant closed ==> Owed() == []
        decreases |Owed()|, open, !closed
      {
        Send(windows(n), true);
        n := n + 1;
      }
    }
  }

  // What an upload will send: the next call reads a block, or hands out the rest of the
  // one in the buffer; after one that is not full nothing more is read.
  function Rest(buf: seq<byte>, rptr: int, left: nat, unread: seq<byte>): seq<byte>
    requires |buf| == ROOM && rptr <= BLOCK && (0 <= rptr < BLOCK && left < BLOCK ==> rptr + left < BLOCK)
  {
    if rptr < 0 || rptr >= BLOCK then unread
    else if left < BLOCK then buf[rptr..rptr + left]
    else buf[rptr..BLOCK] + unread
  }

  // Reading the next block changes nothing about it.
  lemma RestRead(buf: seq<byte>, file: seq<byte>, pos: nat, block: seq<byte>)
    requires |buf| == ROOM && pos <= |file| && block == Chunk(file, pos, BLOCK)
    requires forall k :: 0 <= k < |block| ==> buf[k] == block[k]
    ensures Rest(buf, 0, |block|, file[pos + |block|..]) == file[pos..]
  {
    assert buf[..|block|] == block;
    assert file[pos..] == block + file[pos + |block|..];
    if |block| < BLOCK {
      assert file[pos + |block|..] == [];
    }
  }

  // Handing out len bytes takes them from its front.
  lemma RestTaken(buf: seq<byte>, r: nat, left: nat, unread: seq<byte>, len: nat)
    requires |buf| == ROOM && r < BLOCK && left <= BLOCK && (left < BLOCK ==> r + left < BLOCK)
    requires if left < BLOCK then len <= left else r + len <= BLOCK
    ensures buf[r..r + len] + Rest(buf, r + len, if left < BLOCK then left - len else left, unread)
      == Rest(buf, r, left, unread)
    ensures Rest(buf, r, left, unread) == [] <==> left == 0
  {
    if left < BLOCK {
      assert buf[r..r + left] == buf[r..r + len] + buf[r + len..r + left];
    } else {
      assert buf[r..BLOCK] == buf[r..r + len] + buf[r + len..BLOCK];
      SeqAssoc(buf[r..r + len], buf[r + len..BLOCK], unread);
    }
  }

  // ---------------------------------------------------- the client uploads a file

  // The data source of STOR.  rptr is NULL, -1, before the first read; left is what a
  // block that is not full still holds.
  class Upload {
    const file: seq<byte>
    const buf: array<byte>
    var rptr: int
    var left: nat
    var pos: nat
    var closed: bool
    ghost var sent: seq<byte>

    // The buffer may hold anything when an upload begins.
    ghost predicate Valid()
      reads this`rptr, this`left, this`pos, buf
    {
      && buf.Length == ROOM && -1 <= rptr <= BLOCK && pos <= |file|
      && left <= BLOCK && (rptr >= 0 && left < BLOCK ==> rptr + left < BLOCK)
    }

    // What will be sent.
    ghost function Owed(): seq<byte>
      requires Valid()
      reads this`rptr, this`left, this`pos, buf
    {
      Rest(buf[..], rptr, left, file[pos..])
    }

    // The next call reads.
    predicate Again()
      reads this`rptr
    {
      rptr < 0 || rptr >= BLOCK
    }

    // An upload that begins with the buffer as the last one left it.
    constructor (file: seq<byte>, rptr: int, left: nat)
      requires -1 <= rptr <= BLOCK && left <= BLOCK && (rptr >= 0 && left < BLOCK ==> rptr + left < BLOCK)
      ensures Valid() && fresh(buf) && this.file == file && !closed && sent == []
      ensures this.rptr == rptr && this.left == left && pos == 0
    {
      this.file, this.rptr, this.left := file, rptr, left;
      buf := new byte[ROOM];
      pos, closed, sent := 0, false, [];
    }

    // lv_lwftp_file_read_cb: the next bytes, at most maxlen of them.
    method Read(maxlen: nat) returns (chunk: seq<byte>)
      requires Valid()
      modifies this`rptr, this`left, this`pos, buf
      ensures Valid() && chunk + Owed() == old(Owed()) && |chunk| <= maxlen
      ensures chunk == [] <==> maxlen == 0 || old(Owed()) == []
      // a block that is read anew is left in the buffer but for what was handed out
      ensures old(Again()) ==>
        var n := Min(BLOCK, |file| - old(pos));
        rptr == |chunk| == Min(n, maxlen) && left == if n < BLOCK then n - |chunk| else n
    {
      if Again() {
        ReadBlock();
      }
      chunk := Take(maxlen);
    }

    method ReadBlock()
      requires Valid() && Again()
      modifies this`rptr, this`left, this`pos, buf
      ensures Valid() && rptr == 0 && Owed() == old(Owed())
      ensures left == Min(BLOCK, |file| - old(pos))
    {
      var block := Chunk(file, pos, BLOCK);
      Memcpy(buf, 0, block, 0, |block|);
      RestRead(buf[..], file, pos, block);
      pos := pos + |block|;
      left, rptr := |block|, 0;
    }

    method Take(maxlen: nat) returns (chunk: seq<byte>)
      requires Valid() && 0 <= rptr < BLOCK
      modifies this`rptr, this`left
      ensures Valid() && chunk + Owed() == old(Owed()) && |chunk| <= maxlen
      ensures rptr == old(rptr) + |chunk| && left == old(left) - (if old(left) < BLOCK then |chunk| else 0)
      ensures |chunk| == Min(if old(left) < BLOCK then old(left) else BLOCK - old(rptr), maxlen)
      ensures chunk == [] <==> maxlen == 0 || old(Owed()) == []
    {
      hide Rest;
      var len := 0;
      ghost var was := left;
      if left > 0 {
        if left < BLOCK {
          if left < maxlen {
            len, left := left, 0;
          } else {
            len, left := maxlen, left - maxlen;
          }
        } else if rptr + maxlen >= BLOCK {
          len := BLOCK - rptr;
        } else {
          len := maxlen;
        }
      }
      chunk := buf[rptr..rptr + len];
      RestTaken(buf[..], rptr, was, file[pos..], len);
      assert chunk == buf[..][rptr..rptr + len];
      rptr := rptr + len;
    }

    // lwftp_send_next_data: an empty answer of the source ends the transfer.
    method SendNext(window: nat)
      requires Valid() && !closed
      modifies this`rptr, this`left, this`pos, this`closed, this`sent, buf
      ensures Valid() && sent + Owed() == old(sent + Owed())
      ensures closed <==> window == 0 || old(Owed()) == []
      ensures closed ==> Owed() == old(Owed())
      ensures !closed ==> |Owed()| < |old(Owed())|
    {
      hide Rest, Upload.Valid;
      var data := Read(window);
      SeqAssoc(sent, data, Owed());
      sent := sent + data;
      if data == [] {
        assert data + Owed() == Owed();
        closed := true;
      }
    }

    // The whole upload, with the room in the send buffer at each turn.  What is owed at
    // the start is sent in order; it is all sent exactly if no turn before the end found
    // no room, and it is the file exactly if the buffer was not left in use.
    method Run(windows: nat -> nat) returns (turns: nat)
      requires Valid() && !closed
      modifies this`rptr, this`left, this`pos, this`closed, this`sent, buf
      ensures Valid() && closed && sent + Owed() == old(sent + Owed()) && turns > 0
      ensures forall n :: 0 <= n < turns - 1 ==> windows(n) > 0
      ensures Owed() == [] || windows(turns - 1) == 0
    {
      turns := 0;
      while !closed
        invariant Valid() && sent + Owed() == old(sent + Owed())
        invariant closed ==> turns > 0 && (Owed() == [] || windows(turns - 1) == 0)
        invariant forall n :: 0 <= n < (if closed then turns - 1 else turns) ==> windows(n) > 0
        decreases !closed, |Owed()|
      {
        SendNext(windows(turns));
        turns := turns + 1;
      }
    }

    // At the start the whole file is owed, and nothing else, exactly if the buffer is to
    // be read again, or by accident.
    lemma StartsRight()
      requires Valid() && pos == 0
      ensures Owed() == file <==> Again() || (left < BLOCK && buf[rptr..rptr + left] == file)
    {
      if !Again() && left == BLOCK {
        assert |Owed()| > |file|;
      }
    }
  }

  // ------------------------------------------------------- the server stores a file

  // No segment may be longer: it must fit behind the last byte before a full block.
  const SEGMENT: nat := ROOM - BLOCK + 1

  ghost predicate Fit(segments: seq<seq<byte>>) {
    forall i :: 0 <= i < |segments| ==> |segments[i]| <= SEGMENT
  }

  // The data connection of STOR.  pBuf is where the next byte goes.
  class Stor {
    const buf: array<byte>
    var wptr: nat
    var pBuf: nat
    var file: seq<byte>
    var closed: bool

    ghost predicate Valid()
      reads this, buf
    {
      && buf.Length == ROOM && wptr < BLOCK && (wptr > 0 ==> pBuf == wptr)
    }

    // The bytes that have arrived.
    ghost function Received(): seq<byte>
      requires Valid()
      reads this, buf
    {
      file + buf[..wptr]
    }

    constructor (pBuf: nat)
      ensures Valid() && fresh(buf) && Received() == [] && !closed
    {
      buf := new byte[ROOM];
      wptr, this.pBuf, file, closed := 0, pBuf, [], false;
    }

    // ftps_data_recv_cb with a chain of segments.
    method Receive(segments: seq<seq<byte>>)
      requires Valid() && Fit(segments)
      modifies this`wptr, this`pBuf, this`file, buf
      ensures Valid() && Received() == old(Received()) + Flat(segments)
    {
      if wptr == 0 {
        pBuf := 0;
      }
      for i := 0 to |segments|
        invariant Valid() && pBuf == wptr
        invariant Received() == old(Received()) + Flat(segments[..i])
      {
        FlatMore(segments, i);
        SeqAssoc(old(Received()), Flat(segments[..i]), segments[i]);
        Append(segments[i]);
      }
      assert segments[..|segments|] == segments;
    }

    method Append(s: seq<byte>)
      requires Valid() && pBuf == wptr && |s| <= SEGMENT
      modifies this`wptr, this`pBuf, this`file, buf
      ensures Valid() && pBuf == wptr && Received() == old(Received()) + s
    {
      ghost var was := buf[..];
      Memcpy(buf, pBuf, s, 0, |s|);
      assert buf[..wptr + |s|] == was[..wptr] + s;
      pBuf, wptr := pBuf + |s|, wptr + |s|;
      if wptr >= BLOCK {
        file := file + buf[..wptr];
        pBuf, wptr := 0, 0;
        assert Received() == file;
      }
    }

    // ftps_data_recv_cb at the end of the data.
    method Finish()
      requires Valid() && !closed
      modifies this`wptr, this`pBuf, this`file, this`closed
      ensures Valid() && wptr == 0 && closed && file == old(Received())
    {
      if wptr > 0 {
        file := file + buf[..wptr];
        pBuf, wptr := 0, 0;
      }
      closed := true;
    }
  }

  // The bound on segments is the exact one: every shorter segment fits wherever the
  // buffer is, a longer one does not behind BLOCK - 1 bytes.
  lemma SegmentBound(len: nat)
    ensures (forall wptr :: 0 <= wptr < BLOCK ==> FitsAt(wptr, len)) <==> len <= SEGMENT
  {
    assert FitsAt(BLOCK - 1, len) <==> len <= SEGMENT;
  }

  predicate FitsAt(wptr: int, len: nat) {
    wptr + len <= ROOM
  }

  // -------------------------------------------------- the client downloads a file

  // The data sink of RETR, and the end of a download in the file task.  wptr is NULL, -1,
  // before the first byte.  failed: a write went wrong, and the session is quitting.
  class Download {
    const buf: array<byte>
    var wptr: int
    var file: seq<byte>
    var failed: bool
    ghost var arrived: seq<byte>

    ghost predicate Valid()
      reads this, buf
    {
      && buf.Length == ROOM && -1 <= wptr < BLOCK
      && if failed then file <= arrived && wptr == 0 else arrived == file + Buffered()
    }

    ghost function Buffered(): seq<byte>
      requires wptr <= buf.Length
      reads this, buf
    {
      if wptr > 0 then buf[..wptr] else []
    }

    // wptr as the last download left it: NULL or the start of the buffer.
    constructor (wptr: int)
      requires wptr == -1 || wptr == 0
      ensures Valid() && fresh(buf) && arrived == [] && file == [] && !failed
    {
      buf := new byte[ROOM];
      this.wptr, file, failed, arrived := wptr, [], false, [];
    }

    // lv_lwftp_file_write_cb; stored: f_write would succeed.  What arrives while the
    // session is quitting is not taken.
    method Write(s: seq<byte>, stored: bool)
      requires Valid() && |s| <= SEGMENT
      modifies this`wptr, this`file, this`failed, this`arrived, buf
      ensures Valid() && arrived == old(arrived) + s
      ensures stored ==> failed == old(failed)
    {
      if failed {
        arrived := arrived + s;
        return;
      }
      if wptr < 0 {
        wptr := 0;
      }
      Append(s);
      if wptr >= BLOCK {
        if stored {
          file := file + buf[..wptr];
        } else {
          failed := true;
        }
        wptr := 0;
      }
    }

    method Append(s: seq<byte>)
      requires buf.Length == ROOM && 0 <= wptr < BLOCK && |s| <= SEGMENT && arrived == file + buf[..wptr]
      modifies this`wptr, this`arrived, buf
      ensures wptr == old(wptr) + |s| <= ROOM && arrived == old(arrived) + s == file + buf[..wptr]
    {
      ghost var was := buf[..];
      Memcpy(buf, wptr, s, 0, |s|);
      assert buf[..wptr + |s|] == was[..wptr] + s;
      wptr, arrived := wptr + |s|, arrived + s;
    }

    // The session is over: the rest of the buffer is written.  Without an error the file
    // is what arrived; with one it is the beginning of it.
    method Finish(stored: bool)
      requires Valid()
      modifies this`wptr, this`file, this`failed
      ensures file <= arrived && (wptr == -1 || wptr == 0)
      ensures !failed ==> file == arrived
      ensures stored ==> failed == old(failed)
    {
      if wptr > 0 {
        if stored {
          file := file + buf[..wptr];
        } else {
          failed := true;
        }
        wptr := -1;
      }
    }

    // A whole download: segments, whether each write of a block would succeed, and
    // whether the last one does.
    method Run(segments: seq<seq<byte>>, stored: seq<bool>, last: bool)
      requires Valid() && !failed && arrived == [] && Fit(segments) && |stored| == |segments|
      modifies this`wptr, this`file, this`failed, this`arrived, buf
      ensures file <= Flat(segments) && (!failed ==> file == Flat(segments))
      ensures (forall i :: 0 <= i < |stored| ==> stored[i]) && last ==> !failed
    {
      for i := 0 to |segments|
        invariant Valid() && arrived == Flat(segments[..i])
        invariant (forall j :: 0 <= j < i ==> stored[j]) ==> !failed
      {
        FlatMore(segments, i);
        Write(segments[i], stored[i]);
      }
      assert segments[..|segments|] == segments;
      Finish(last);
    }
  }

  // -------------------------------------------------- the player reads a remote file

  // The bytes [at..at + br] hold the beginning of got, and the rest is as it was.
  ghost predicate Holds(was: seq<byte>, now: seq<byte>, at: nat, br: nat, got: seq<byte>) {
    && |now| == |was| && at + br <= |now| && br <= |got|
    && now[at..at + br] == got[..br] && now[..at] == was[..at] && now[at + br..] == was[at + br..]
  }

  lemma HoldsNothing(was: seq<byte>, at: nat)
    requires at <= |was|
    ensures Holds(was, was, at, 0, [])
  {
  }

  lemma FlatNone()
    ensures Flat([]) == []
  {
  }

  lemma HoldsFile(was: seq<byte>, now: seq<byte>, at: nat, br: nat, got: seq<byte>, file: seq<byte>, pos: nat)
    requires Holds(was, now, at, br, got) && pos <= |file| && got <= file[pos..]
    ensures pos + br <= |file| && now[at..at + br] == file[pos..pos + br]
    ensures now[..at] == was[..at] && now[at + br..] == was[at + br..]
  {
    assert file[pos..][..br] == file[pos..pos + br];
  }

  lemma CopiedParts(now: seq<byte>, next: seq<byte>, at: nat, br: nat, s: seq<byte>, n: nat)
    requires Copied(now, next, at + br, s, 0, n)
    ensures next[..at] == now[..at] && next[at + br + n..] == now[at + br + n..]
    ensures next[at..at + br + n] == now[at..at + br] + s[..n]
  {
  }

  lemma HoldsMore(was: seq<byte>, now: seq<byte>, next: seq<byte>, at: nat, br: nat,
                  got: seq<byte>, s: seq<byte>, n: nat)
    requires Holds(was, now, at, br, got) && Copied(now, next, at + br, s, 0, n) && (n > 0 ==> br == |got|)
    ensures Holds(was, next, at, br + n, got + s)
  {
    CopiedParts(now, next, at, br, s, n);
    assert now[at + br..][n..] == now[at + br + n..] && was[at + br..][n..] == was[at + br + n..];
    assert (got + s)[..br + n] == got[..br] + s[..n];
  }

  // One half of the player's ring, filled by sessions that each retrieve from fptr on.
  class RemoteRead {
    const dst: array<byte>
    const at: nat
    const btr: nat
    var br: nat
    var fptr: nat
    var active: bool
    var xfering: bool

    ghost predicate Valid()
      reads this
    {
      at + btr <= dst.Length && br <= btr
    }

    // LWFTP_FileRead: btr bytes are wanted at dst[at..].
    constructor (dst: array<byte>, at: nat, btr: nat, fptr: nat)
      requires at + btr <= dst.Length
      ensures Valid() && this.dst == dst && this.at == at && this.btr == btr
      ensures br == 0 && this.fptr == fptr && active && xfering
    {
      this.dst, this.at, this.btr, this.fptr := dst, at, btr, fptr;
      br, active, xfering := 0, true, true;
    }

    // LWFTP_BufferWrite_cb.  What is too much is left out, and the transfer is aborted.
    method BufferWrite(s: seq<byte>) returns (btc: nat)
      requires Valid()
      modifies this`br, this`fptr, this`xfering, dst
      ensures Valid() && btc == if active then Min(|s|, btr - old(br)) else 0
      ensures br == old(br) + btc && fptr == old(fptr) + btc
      ensures xfering == (old(xfering) && !(active && old(br) >= btr))
      ensures Copied(old(dst[..]), dst[..], at + old(br), s, 0, btc)
    {
      btc := 0;
      if active {
        if br >= btr {
          if xfering {
            xfering := false;
          }
        } else {
          btc := if br + |s| <= btr then |s| else btr - br;
          Memcpy(dst, at + br, s, 0, btc);
          br, fptr := br + btc, fptr + btc;
        }
      }
    }

    // One session: the server sends the file from fptr on, in segments, and may stop
    // anywhere.  The first bytes of what it sent are stored, in place, and fptr is past
    // them: the next session asks for the byte that follows.
    method Session(file: seq<byte>, segments: seq<seq<byte>>)
      requires Valid() && active && br == 0 && fptr <= |file| && Flat(segments) <= file[fptr..]
      modifies this`br, this`fptr, this`xfering, dst
      ensures Valid() && br == Min(|Flat(segments)|, btr) && fptr == old(fptr) + br <= |file|
      ensures dst[at..at + br] == file[old(fptr)..fptr]
      ensures dst[..at] == old(dst[..at]) && dst[at + br..] == old(dst[..])[at + br..]
    {
      hide Holds, Copied, Flat;
      HoldsNothing(dst[..], at);
      assert segments[..0] == [];
      FlatNone();
      for i := 0 to |segments|
        invariant Valid() && br == Min(|Flat(segments[..i])|, btr) && fptr == old(fptr) + br
        invariant Holds(old(dst[..]), dst[..], at, br, Flat(segments[..i]))
      {
        FlatMore(segments, i);
        ghost var now, was := dst[..], br;
        var btc := BufferWrite(segments[i]);
        HoldsMore(old(dst[..]), now, dst[..], at, was, Flat(segments[..i]), segments[i], btc);
      }
      assert segments[..|segments|] == segments;
      HoldsFile(old(dst[..]), dst[..], at, br, Flat(segments), file, old(fptr));
    }
  }

  // The offset the server takes from the text the client makes of fptr: REST is sent only
  // if the text is not 0, and a new control connection starts at 0.
  function ServerOffset(text: string): nat {
    if text == "0" then 0 else Strtoul(text).0
  }

  lemma OffsetArrives(fptr: nat)
    requires fptr < WORD
    ensures ServerOffset(Print(fptr)) == fptr
  {
    StrtoulOfPrint(fptr, "");
    assert Print(fptr) + "" == Print(fptr);
  }

  function Sum(sizes: seq<nat>): nat {
    if sizes == [] then 0 else Sum(sizes[..|sizes| - 1]) + sizes[|sizes| - 1]
  }

  // Any sequence of reads, each answered by the server from the offset it was asked for
  // and cut off anywhere: the bytes stored are the file in order, without gaps and
  // without repetition.
  method ReadAll(file: seq<byte>, start: nat, sizes: seq<nat>, serve: (nat, nat) -> seq<seq<byte>>)
    returns (stream: seq<byte>, fptr: nat)
    requires start <= |file|
    requires forall n, offset: nat :: offset <= |file| ==> Flat(serve(n, offset)) <= file[offset..]
    ensures start <= fptr <= |file| && stream == file[start..fptr]
    // if the server cuts nothing off, all that was asked for is read
    ensures (forall n, offset: nat :: offset <= |file| ==> Flat(serve(n, offset)) == file[offset..]) ==>
      fptr == Min(start + Sum(sizes), |file|)
  {
    stream, fptr := [], start;
    assert sizes[..0] == [] && sizes[..|sizes|] == sizes;
    for n := 0 to |sizes|
      invariant start <= fptr <= |file| && stream == file[start..fptr]
      invariant (forall n, offset: nat :: offset <= |file| ==> Flat(serve(n, offset)) == file[offset..]) ==>
        fptr == Min(start + Sum(sizes[..n]), |file|)
    {
      assert sizes[..n + 1][..n] == sizes[..n];
      var dst := new byte[sizes[n]];
      var r := new RemoteRead(dst, 0, sizes[n], fptr);
      r.Session(file, serve(n, fptr));
      assert file[start..fptr] + file[fptr..r.fptr] == file[start..r.fptr];
      stream, fptr := stream + dst[..r.br], r.fptr;
    }
  }
}
