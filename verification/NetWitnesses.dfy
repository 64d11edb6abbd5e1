// Runs of the FTP client, its transfers and its listings that come to the states in which
// they do not do what they promise.
module NetWitnesses {
  import opened Bytes
  import opened FtpClient
  import opened FtpTransfer
  import opened Decimal
  import L = ListLine
  import P = Passive

  // A session logs in for an upload and has sent TYPE.
  method Stores() returns (s: Session)
    ensures fresh(s) && s.Valid() && s.op.Store? && s.f.control && s.f.state.TypeSent? && s.f.data && !s.astray
  {
    hide Stage, Conforms, Allowed, NoneSent;
    s := new Session(Store, true);
    var net := Net(true, true, 1);
    s.Connect();
    s.ControlProcess(220, net);
    s.ControlProcess(331, net);
    s.ControlProcess(230, net);
  }

  // The data connection of an upload is lost before the answer 150 to STOR.
  method GoesAstray() returns (s: Session)
    ensures s.Valid() && s.op.Store? && s.astray
  {
    hide Stage, Conforms, Allowed, NoneSent;
    s := Stores();
    var net := Net(true, true, 1);
    s.ControlProcess(200, net);
    s.ControlProcess(227, net);
    s.DataFailed(net);
    s.ControlProcess(150, net);
  }

  // The transfer is refused in the end, the client sends QUIT and is logged in again; an
  // abort sends it once more.
  method QuitsTwice() returns (s: Session)
    ensures s.Valid() && |s.log| >= 2 && s.log[|s.log| - 2..] == [Sent(QUIT), Sent(QUIT)]
  {
    hide Session.Valid, Stage, Conforms, Allowed, NoneSent;
    s := AtWork();
    var net := Net(true, true, 1);
    s.ControlProcess(426, net);
    QuitAgain(s);
    ghost var past := s.log;
    assert past[|past| - 1] == Sent(QUIT);
    s.Abort(net);
    assert s.log == past + [Sent(QUIT)];
    LastTwo(s.log, Sent(QUIT), Sent(QUIT));
  }

  lemma LastTwo(log: seq<Ev>, a: Ev, b: Ev)
    requires |log| >= 2 && log[|log| - 2] == a && log[|log| - 1] == b
    ensures log[|log| - 2..] == [a, b]
  {
  }

  lemma QuitAgain(s: Session)
    requires s.Valid() && s.f.state.Logged?
    ensures s.f.control && !s.f.done.ListCb?
  {
    hide Dialogue, Moving, Conforms, Allowed, NoneSent;
  }

  method AtWork() returns (s: Session)
    ensures fresh(s) && s.Valid() && s.f.control && s.f.state.Xfering?
  {
    hide Stage, Conforms, Allowed, NoneSent;
    s := Stores();
    var net := Net(true, true, 1);
    s.ControlProcess(200, net);
    s.ControlProcess(227, net);
    s.ControlProcess(150, net);
  }

  // The first turn finds no room: the connection is closed, and nothing was sent.
  method EndsWithoutRoom() returns (u: Upload)
    ensures u.Valid() && u.closed && u.file == [1] && u.sent == []
  {
    u := new Upload([1], -1, 0);
    u.SendNext(0);
    assert |u.sent| == 0;
  }

  // An upload that was cancelled behind its first ten bytes leaves the buffer in use, and
  // the next one begins with what is left of the other file.
  method BeginsStale() returns (u: Upload)
    ensures u.Valid() && u.pos == 0 && u.sent == [] && u.Owed() != u.file
  {
    var before := new Upload(seq(100, _ => 0), -1, 0);
    var _ := before.Read(10);
    u := new Upload([1], before.rptr, before.left);
    u.StartsRight();
  }

  // An entry of the current year: its hour arrives as its year.
  lemma DateIsLost()
    ensures var e := L.Entry("a", false, 0, 40 * 512 + 33, 0);
      && L.Printable(e) && L.Year(e) == 40
      && L.Seen(e, 40).date != e.date
  {
    hide L.Date, L.Seen;
    var e := L.Entry("a", false, 0, 40 * 512 + 33, 0);
    L.DateArrives(e, 40);
  }

  lemma NameIsCut()
    ensures var e := L.Entry(" a", false, 0, 33, 0);
      L.Printable(e) && L.ParseLine(L.Line(e, 40)) == L.Seen(e, 40) && L.Seen(e, 40).name != " a"
  {
    var e := L.Entry(" a", false, 0, 33, 0);
    assert Trim(" a") != "";
    L.LineRoundTrip(e, 40);
    L.NameArrives(e, 40);
  }

  // With all ports in use the search for one comes back to none it has not tried.
  lemma SearchesOn(n: nat)
    ensures P.FIRST <= P.Tried(P.FIRST, n) <= P.LAST
    ensures !(exists k :: (_ => P.InUse)(P.Tried(P.FIRST, k)) != P.InUse)
  {
    P.TriedInRange(P.FIRST, n);
    P.SearchEnds(P.FIRST, _ => P.InUse);
  }
}
