// The FTP client's control session: one operation of the file manager or of the player,
// from the connection to the end, with the functions they pass as done_fn.
module FtpClient {

  datatype Cmd = USER | PASS | MKD | RMD | DELE | RNFR | RNTO | CWD | TYPE | PASV
               | LIST | STOR | RETR | REST | ABOR | QUIT

  // What goes over the control connection.
  datatype Ev = Sent(cmd: Cmd) | Reply(code: nat)

  // What the session is for.  A retrieval may start behind the first byte of the file.
  datatype Op = MakeDir | RemoveDir | Delete | Rename | List | Store | Retrieve(resume: bool)

  datatype State = Closed | Connected | UserSent | PassSent | Logged | TypeSent | PasvSent
                 | ListSent | RestSent | RetrSent | StorSent | RnfrSent | RntoSent | MkdSent
                 | RmdSent | CwdSent | DeleSent | AborSent | Xfering | DataEnd | Quit | QuitSent | Closing

  datatype Result = Ok | InProgress | LoggedIn | Error

  // done_fn: the callback that starts the operation, lv_lwftp_LIST_cb, and the two
  // callbacks that end the session.
  datatype DoneFn = StartCb | ListCb | QuitCb

  // Answers from below: tcp_new, the opening of the data connection, the data source.
  datatype Net = Net(pcb: bool, linked: bool, bytes: nat)

  // What a data sink does with a segment: it may fail to write it, or have enough.
  datatype Sink = Taken | WriteError | Surplus

  datatype Event = OnConnected(ok: bool) | OnReply(code: nat, net: Net) | OnClosed(net: Net)
                 | OnData(sink: Sink, net: Net) | OnDataEnd(net: Net) | OnSent(bytes: nat)
                 | OnDataError(net: Net) | OnAbort(net: Net)

  // ------------------------------------------------- what RFC 959 asks of a client

  predicate EndsWith(log: seq<Ev>, tail: seq<Ev>) {
    |tail| <= |log| && log[|log| - |tail|..] == tail
  }

  // The user is logged in: PASS was answered with 230.
  ghost predicate InAt(log: seq<Ev>, k: nat) {
    k + 1 < |log| && log[k] == Sent(PASS) && log[k + 1] == Reply(230)
  }

  ghost predicate In(log: seq<Ev>) {
    exists k: nat :: InAt(log, k)
  }

  ghost predicate NoneSent(log: seq<Ev>, c: Cmd) {
    forall k :: 0 <= k < |log| ==> log[k] != Sent(c)
  }

  const PREPARED := [Sent(TYPE), Reply(200), Sent(PASV), Reply(227)]

  predicate Begins(e: Ev) {
    e == Sent(LIST) || e == Sent(RETR) || e == Sent(STOR)
  }

  // A transfer command was answered with 150, and nothing was sent since.
  ghost predicate TransferAt(log: seq<Ev>, k: nat) {
    && k + 1 < |log| && Begins(log[k]) && log[k + 1] == Reply(150)
    && forall j :: k < j < |log| ==> log[j].Reply?
  }

  ghost predicate Transferring(log: seq<Ev>) {
    exists k: nat :: TransferAt(log, k)
  }

  // Sections 4.1.3 and 5.4: the command sequences, one command at a time.
  ghost predicate Allowed(c: Cmd, past: seq<Ev>) {
    c.QUIT? || (NoneSent(past, QUIT) && (c.USER? || c.PASS? || In(past)) && Follows(c, past))
  }

  ghost predicate Follows(c: Cmd, past: seq<Ev>) {
    if c.USER? then EndsWith(past, [Reply(220)]) && NoneSent(past, USER)
    else if c.PASS? then EndsWith(past, [Sent(USER), Reply(331)])
    else if c.RNTO? then EndsWith(past, [Sent(RNFR), Reply(350)])
    else if c.LIST? || c.STOR? || c.REST? then EndsWith(past, PREPARED)
    else if c.RETR? then EndsWith(past, PREPARED) || EndsWith(past, PREPARED + [Sent(REST), Reply(350)])
    else if c.ABOR? then Transferring(past)
    else past != [] && past[|past| - 1].Reply?
  }

  ghost predicate Conforms(log: seq<Ev>) {
    forall i :: 0 <= i < |log| && log[i].Sent? ==> Allowed(log[i].cmd, log[..i])
  }

  lemma ConformsMore(log: seq<Ev>, e: Ev)
    requires Conforms(log) && (e.Sent? ==> Allowed(e.cmd, log))
    ensures Conforms(log + [e])
  {
    forall i | 0 <= i < |log + [e]| && (log + [e])[i].Sent?
      ensures Allowed((log + [e])[i].cmd, (log + [e])[..i])
    {
      assert (log + [e])[..i] == log[..i];
      assert log[..|log|] == log;
    }
  }

  // ---------------------------------------------------- the dialogue of a session

  const LOGIN := [Reply(220), Sent(USER), Reply(331), Sent(PASS), Reply(230)]

  // The log when the transfer is to be prepared, and when it is.
  function Ready(op: Op): seq<Ev> {
    if op.List? then LOGIN + [Sent(CWD), Reply(250)] else LOGIN
  }

  function Prepared(op: Op): seq<Ev> {
    Ready(op) + PREPARED
  }

  function Command(op: Op): Cmd {
    match op
    case MakeDir => MKD
    case RemoveDir => RMD
    case Delete => DELE
    case Rename => RNFR
    case List => LIST
    case Store => STOR
    case Retrieve(resume) => if resume then REST else RETR
  }

  // The log when the transfer command has been sent.
  function Asked(op: Op): seq<Ev> {
    Prepared(op) + [Sent(Command(op))] +
    if op.Retrieve? && op.resume then [Reply(350), Sent(RETR)] else []
  }

  function Target(op: Op): State {
    match op
    case List => ListSent
    case Store => StorSent
    case Retrieve(resume) => if resume then RestSent else RetrSent
    case _ => Closed
  }

  predicate Transfers(op: Op) {
    op.List? || op.Store? || op.Retrieve?
  }

  // 150 has come, and replies at most since.
  ghost predicate Moving(op: Op, log: seq<Ev>) {
    && Transfers(op) && |Asked(op)| < |log| && log[..|Asked(op)| + 1] == Asked(op) + [Reply(150)]
    && forall j :: |Asked(op)| <= j < |log| ==> log[j].Reply?
  }

  // The dialogue up to the command whose reply a state waits for.
  function Dialogue(op: Op, state: State): seq<Ev> {
    match state
    case UserSent => LOGIN[..2]
    case PassSent => LOGIN[..4]
    case MkdSent => LOGIN + [Sent(MKD)]
    case RmdSent => LOGIN + [Sent(RMD)]
    case DeleSent => LOGIN + [Sent(DELE)]
    case RnfrSent => LOGIN + [Sent(RNFR)]
    case RntoSent => LOGIN + [Sent(RNFR)] + [Reply(350)] + [Sent(RNTO)]
    case CwdSent => LOGIN + [Sent(CWD)]
    case TypeSent => Ready(op) + [Sent(TYPE)]
    case PasvSent => Ready(op) + [Sent(TYPE)] + [Reply(200)] + [Sent(PASV)]
    case RestSent => Prepared(op) + [Sent(REST)]
    case ListSent => Asked(op)
    case StorSent => Asked(op)
    case RetrSent => Asked(op)
    case _ => []
  }

  // The states that go with an operation and its callback.
  predicate Fits(op: Op, state: State, target: State, done: DoneFn) {
    match state
    case Closed => done.StartCb?
    case Connected => done.StartCb?
    case UserSent => done.StartCb?
    case PassSent => done.StartCb?
    case MkdSent => op.MakeDir? && done.QuitCb?
    case RmdSent => op.RemoveDir? && done.QuitCb?
    case DeleSent => op.Delete? && done.QuitCb?
    case RnfrSent => op.Rename? && done.QuitCb?
    case RntoSent => op.Rename? && done.QuitCb?
    case CwdSent => op.List? && done.ListCb?
    case TypeSent => Transfers(op) && target == Target(op) && done.QuitCb?
    case PasvSent => Transfers(op) && target == Target(op) && done.QuitCb?
    case RestSent => op == Retrieve(true) && done.QuitCb?
    case ListSent => op.List? && done.QuitCb?
    case StorSent => op.Store? && done.QuitCb?
    case RetrSent => op.Retrieve? && done.QuitCb?
    case Xfering => Transfers(op) && done.QuitCb?
    case AborSent => Transfers(op) && done.QuitCb?
    case _ => false
  }

  // Where the session is, as long as no QUIT has been sent.
  ghost predicate Stage(op: Op, state: State, target: State, done: DoneFn, log: seq<Ev>) {
    && Fits(op, state, target, done)
    && if state.Xfering? then Moving(op, log)
       else if state.AborSent? then NoneSent(log, QUIT)
       else log == Dialogue(op, state)
  }

  // ------------------------------------------------ each command in its place

  lemma LoginIn(log: seq<Ev>)
    requires |log| >= 5 && log[..5] == LOGIN
    ensures In(log)
  {
    assert log[3] == log[..5][3] && log[4] == log[..5][4];
    assert InAt(log, 3);
  }

  lemma UserNext(past: seq<Ev>)
    requires past == []
    ensures Allowed(USER, past + [Reply(220)]) && past + [Reply(220)] + [Sent(USER)] == LOGIN[..2]
  {
  }

  lemma PassNext(past: seq<Ev>)
    requires past == LOGIN[..2]
    ensures Allowed(PASS, past + [Reply(331)]) && past + [Reply(331)] + [Sent(PASS)] == LOGIN[..4]
  {
  }

  lemma LoginEnds(past: seq<Ev>)
    requires past == LOGIN[..4]
    ensures past + [Reply(230)] == LOGIN && NoneSent(LOGIN, QUIT)
  {
  }

  // The commands that need no preparation, and CWD and TYPE.
  lemma OpNext(c: Cmd)
    requires c.MKD? || c.RMD? || c.DELE? || c.RNFR? || c.CWD? || c.TYPE?
    ensures Allowed(c, LOGIN)
  {
    LoginIn(LOGIN);
  }

  lemma RntoNext()
    ensures Allowed(RNTO, LOGIN + [Sent(RNFR)] + [Reply(350)])
  {
    LoginIn(LOGIN + [Sent(RNFR)] + [Reply(350)]);
  }

  lemma CwdNext(past: seq<Ev>)
    requires past == LOGIN + [Sent(CWD)]
    ensures past + [Reply(250)] == Ready(List) && NoneSent(Ready(List), QUIT)
  {
  }

  lemma TypeNext(op: Op)
    ensures Allowed(TYPE, Ready(op))
  {
    LoginIn(Ready(op));
  }

  lemma TypeStage(op: Op)
    requires Transfers(op)
    ensures Stage(op, TypeSent, Target(op), QuitCb, Ready(op) + [Sent(TYPE)])
    ensures NoneSent(Ready(op) + [Sent(TYPE)], QUIT)
  {
  }

  lemma PasvNext(op: Op)
    ensures Allowed(PASV, Ready(op) + [Sent(TYPE)] + [Reply(200)])
  {
    LoginIn(Ready(op) + [Sent(TYPE)] + [Reply(200)]);
  }

  lemma CommandNext(op: Op)
    requires Transfers(op)
    ensures Ready(op) + [Sent(TYPE)] + [Reply(200)] + [Sent(PASV)] + [Reply(227)] == Prepared(op)
    ensures Allowed(Command(op), Prepared(op))
    ensures op != Retrieve(true) ==> Prepared(op) + [Sent(Command(op))] == Asked(op)
  {
    LoginIn(Prepared(op));
  }

  lemma RetrNext()
    ensures var log := Prepared(Retrieve(true)) + [Sent(REST)] + [Reply(350)];
      Allowed(RETR, log) && log + [Sent(RETR)] == Asked(Retrieve(true))
  {
    LoginIn(Prepared(Retrieve(true)) + [Sent(REST)] + [Reply(350)]);
  }

  lemma AborNext(op: Op, log: seq<Ev>)
    requires Moving(op, log)
    ensures NoneSent(log, QUIT) && In(log) && Allowed(ABOR, log)
  {
    hide Asked;
    var n := |Asked(op)|;
    AskedIs(op);
    AskedQuiet(op);
    assert forall k :: 0 <= k <= n ==> log[k] == log[..n + 1][k];
    assert log[..5] == Asked(op)[..5];
    LoginIn(log);
    assert TransferAt(log, n - 1);
  }

  lemma AskedIs(op: Op)
    requires Transfers(op)
    ensures |Asked(op)| > 5 && Asked(op)[..5] == LOGIN && Begins(Asked(op)[|Asked(op)| - 1])
  {
  }

  lemma QuietMore(a: seq<Ev>, b: seq<Ev>)
    requires NoneSent(a, QUIT) && NoneSent(b, QUIT)
    ensures NoneSent(a + b, QUIT)
  {
  }

  lemma PreparedQuiet(op: Op)
    ensures NoneSent(Ready(op), QUIT) && NoneSent(Prepared(op), QUIT)
  {
    QuietMore(Ready(op), PREPARED);
  }

  lemma AskedQuiet(op: Op)
    ensures NoneSent(Asked(op), QUIT)
  {
    hide Prepared;
    PreparedQuiet(op);
    QuietMore(Prepared(op), [Sent(Command(op))]);
    QuietMore(Prepared(op) + [Sent(Command(op))],
              if op.Retrieve? && op.resume then [Reply(350), Sent(RETR)] else []);
  }

  lemma DialogueQuiet(op: Op, state: State)
    ensures NoneSent(Dialogue(op, state), QUIT)
  {
    hide Ready, Prepared, Asked;
    PreparedQuiet(op);
    AskedQuiet(op);
    match state
    case TypeSent => QuietMore(Ready(op), [Sent(TYPE)]);
    case PasvSent =>
      QuietMore(Ready(op), [Sent(TYPE)]);
      QuietMore(Ready(op) + [Sent(TYPE)], [Reply(200)]);
      QuietMore(Ready(op) + [Sent(TYPE)] + [Reply(200)], [Sent(PASV)]);
    case RestSent => QuietMore(Prepared(op), [Sent(REST)]);
    case _ =>
  }

  lemma MovingMore(op: Op, log: seq<Ev>, code: nat)
    requires Moving(op, log)
    ensures Moving(op, log + [Reply(code)])
  {
    assert (log + [Reply(code)])[..|Asked(op)| + 1] == log[..|Asked(op)| + 1];
  }

  lemma MovingStarts(op: Op)
    requires Transfers(op)
    ensures Moving(op, Asked(op) + [Reply(150)])
  {
  }

  // No QUIT so far.
  lemma StageQuiet(op: Op, state: State, target: State, done: DoneFn, log: seq<Ev>)
    requires Stage(op, state, target, done, log)
    ensures NoneSent(log, QUIT)
    ensures !state.Logged? && !state.DataEnd? && !state.Quit? && !state.QuitSent? && !state.Closing?
  {
    hide NoneSent, Dialogue, Moving, Allowed, In;
    if state.Xfering? {
      AborNext(op, log);
    } else {
      DialogueQuiet(op, state);
    }
  }

  lemma NoneMore(log: seq<Ev>, e: Ev)
    requires NoneSent(log, QUIT) && e != Sent(QUIT)
    ensures NoneSent(log + [e], QUIT)
  {
  }

  lemma QuitStays(log: seq<Ev>, e: Ev)
    requires !NoneSent(log, QUIT)
    ensures !NoneSent(log + [e], QUIT)
  {
    var k :| 0 <= k < |log| && log[k] == Sent(QUIT);
    assert (log + [e])[k] == Sent(QUIT);
  }

  // The session structure: its states, done_fn, and whether it has a control pcb, a data
  // pcb, and callbacks on the latter.
  datatype Ftp = Ftp(state: State, target: State, done: DoneFn, control: bool, data: bool, linked: bool)

  // Between callbacks.
  ghost predicate Between(op: Op, f: Ftp, log: seq<Ev>) {
    && Pcbs(f) && Conforms(log)
    && (!f.control ==> f.state.Closed?)
    && (f.control ==>
          || Stage(op, f.state, f.target, f.done, log)
          || (!NoneSent(log, QUIT) && (f.state.QuitSent? || (f.state.Logged? && f.done.QuitCb?))))
  }

  ghost predicate Pcbs(f: Ftp) {
    && (f.data ==> f.control && f.done.QuitCb?) && (f.linked ==> f.data)
  }

  // lwftp_close.
  function Quitting(f: Ftp): Ftp {
    if f.state.Closed? || !f.control then f else f.(state := QuitSent)
  }

  function QuitLog(f: Ftp, log: seq<Ev>): seq<Ev> {
    if f.state.Closed? || !f.control then log else log + [Sent(QUIT)]
  }

  lemma QuitSentStays(op: Op, f: Ftp, log: seq<Ev>)
    requires Pcbs(f) && Conforms(log) && f.control && !f.state.Closed?
    ensures !NoneSent(log + [Sent(QUIT)], QUIT)
    ensures Between(op, Quitting(f), QuitLog(f, log))
    ensures f.done.QuitCb? ==> Between(op, Quitting(f).(state := Logged), QuitLog(f, log))
  {
    ConformsMore(log, Sent(QUIT));
    assert (log + [Sent(QUIT)])[|log|] == Sent(QUIT);
  }

  function Rank(done: DoneFn): nat {
    match done case StartCb => 2 case ListCb => 1 case QuitCb => 0
  }

  // The callback starts an operation.
  predicate Starts(f: Ftp, r: Result) {
    (f.done.StartCb? && r.LoggedIn?) || (f.done.ListCb? && r.Ok? && f.state.CwdSent?)
  }

  // The callback ends the session.
  predicate Ends(f: Ftp, r: Result) {
    (f.done.StartCb? && !r.LoggedIn?) || (f.done.QuitCb? && !r.InProgress?)
  }

  // How a session starts its operation.
  function Begin(op: Op, net: Net): State {
    match op
    case MakeDir => MkdSent
    case RemoveDir => RmdSent
    case Delete => DeleSent
    case Rename => RnfrSent
    case List => CwdSent
    case _ => if net.pcb then TypeSent else QuitSent
  }

  // The protocol as a table: where a reply leads.
  function Answer(op: Op, f: Ftp, code: nat, net: Net): (to: State)
    ensures !to.Quit? && !to.DataEnd? && !to.Closing?
  {
    match f.state
    case Connected => if code == 220 then UserSent else QuitSent
    case UserSent => if code == 331 then PassSent else QuitSent
    case PassSent => if code == 230 then Begin(op, net) else QuitSent
    case RnfrSent => if code == 350 then RntoSent else QuitSent
    case CwdSent => if code == 250 && net.pcb then TypeSent else QuitSent
    case TypeSent => if code == 200 then PasvSent else QuitSent
    case PasvSent => if code == 227 then Target(op) else QuitSent
    case RestSent => if code == 350 then RetrSent else Logged
    case ListSent => if code == 150 then Xfering else Logged
    case RetrSent => if code == 150 then Xfering else Logged
    case StorSent => if code == 150 then Xfering else Logged
    case Xfering => if (code == 226 || code == 250) && f.data then Xfering else Logged
    case QuitSent => Closed
    case Logged => Logged
    case _ => QuitSent
  }

  lemma WhileMoving(op: Op, f: Ftp, code: nat, net: Net)
    requires f.state.Xfering?
    ensures var to := Answer(op, f, code, net);
      if (code == 226 || code == 250) && f.data then to.Xfering? && Kept(op, f, code, net)
      else to.Logged? && Saying(f.state, to) == [Sent(QUIT)]
  {
  }

  // Whether there is a data pcb before the second step: TYPE is sent with a new one, and a
  // source that has nothing to store closes it.
  function Kept(op: Op, f: Ftp, code: nat, net: Net): bool {
    if f.state.StorSent? && code == 150 && net.bytes == 0 then false
    else f.data || (!f.state.TypeSent? && Answer(op, f, code, net).TypeSent?)
  }

  // What is sent on the way to another state.
  function Saying(from: State, to: State): seq<Ev> {
    if from == to then []
    else
      match to
      case UserSent => [Sent(USER)]
      case PassSent => [Sent(PASS)]
      case MkdSent => [Sent(MKD)]
      case RmdSent => [Sent(RMD)]
      case DeleSent => [Sent(DELE)]
      case RnfrSent => [Sent(RNFR)]
      case RntoSent => [Sent(RNTO)]
      case CwdSent => [Sent(CWD)]
      case TypeSent => [Sent(TYPE)]
      case PasvSent => [Sent(PASV)]
      case ListSent => [Sent(LIST)]
      case StorSent => [Sent(STOR)]
      case RestSent => [Sent(REST)]
      case RetrSent => [Sent(RETR)]
      case QuitSent => [Sent(QUIT)]
      case Logged => [Sent(QUIT)]
      case _ => []
  }

  // ------------------------------------------------- the script of an operation

  // The commands that carry an operation out, from the login on.
  function Commands(op: Op): seq<Cmd> {
    [USER, PASS] +
    match op
    case MakeDir => [MKD]
    case RemoveDir => [RMD]
    case Delete => [DELE]
    case Rename => [RNFR, RNTO]
    case List => [CWD, TYPE, PASV, LIST]
    case Store => [TYPE, PASV, STOR]
    case Retrieve(resume) => if resume then [TYPE, PASV, REST, RETR] else [TYPE, PASV, RETR]
  }

  // The reply with which the operation goes on, by section 5.4 of RFC 959.
  function GoodReply(c: Cmd): nat {
    match c
    case USER => 331
    case PASS => 230
    case MKD => 257
    case RMD => 250
    case DELE => 250
    case RNFR => 350
    case RNTO => 250
    case CWD => 250
    case TYPE => 200
    case PASV => 227
    case REST => 350
    case LIST => 150
    case STOR => 150
    case RETR => 150
    case ABOR => 426
    case QUIT => 221
  }

  // The reply due behind k good ones, and what is said to it: the next command, and behind
  // the last one nothing while data moves, or QUIT.
  function Due(op: Op, k: nat): nat
    requires k <= |Commands(op)|
  {
    if k == 0 then 220 else GoodReply(Commands(op)[k - 1])
  }

  function Next(op: Op, k: nat): seq<Ev>
    requires k <= |Commands(op)|
  {
    if k < |Commands(op)| then [Sent(Commands(op)[k])]
    else if Transfers(op) then [] else [Sent(QUIT)]
  }

  // All that is said up to there.
  function Talk(op: Op, k: nat): seq<Ev>
    requires k <= |Commands(op)| + 1
  {
    if k == 0 then [] else Talk(op, k - 1) + [Reply(Due(op, k - 1))] + Next(op, k - 1)
  }

  predicate Agrees(op: Op, replies: seq<nat>, k: nat) {
    && k <= |replies| && k <= |Commands(op)| + 1
    && forall i :: 0 <= i < k ==> replies[i] == Due(op, i)
  }

  // The state that waits for the reply to a command.
  function Waits(c: Cmd): State {
    match c
    case USER => UserSent
    case PASS => PassSent
    case MKD => MkdSent
    case RMD => RmdSent
    case DELE => DeleSent
    case RNFR => RnfrSent
    case RNTO => RntoSent
    case CWD => CwdSent
    case TYPE => TypeSent
    case PASV => PasvSent
    case LIST => ListSent
    case STOR => StorSent
    case RETR => RetrSent
    case REST => RestSent
    case ABOR => AborSent
    case QUIT => QuitSent
  }

  function StateAt(op: Op, k: nat): State
    requires k <= |Commands(op)| + 1
  {
    if k == 0 then Connected
    else if k <= |Commands(op)| then Waits(Commands(op)[k - 1])
    else if Transfers(op) then Xfering else QuitSent
  }

  // There is a data pcb from TYPE on, and callbacks on it from the reply to PASV on.
  predicate DataAt(op: Op, k: nat) {
    Transfers(op) && k >= if op.List? then 4 else 3
  }

  predicate LinkAt(op: Op, k: nat) {
    Transfers(op) && k >= if op.List? then 6 else 5
  }

  lemma LoginAnswer(op: Op, f: Ftp, k: nat, net: Net)
    requires k <= 2 && f.state == StateAt(op, k) && net.pcb
    ensures Answer(op, f, Due(op, k), net) == StateAt(op, k + 1)
  {
    if k == 0 {
    } else if k == 1 {
    } else {
    }
  }

  lemma CommandAnswer(op: Op, f: Ftp, k: nat, net: Net)
    requires !Transfers(op) && 3 <= k <= |Commands(op)| && f.state == StateAt(op, k)
    ensures Answer(op, f, Due(op, k), net) == StateAt(op, k + 1)
  {
    if k == 3 {
    } else {
    }
  }

  lemma ListAnswer(f: Ftp, k: nat, net: Net)
    requires 3 <= k <= |Commands(List)| && f.state == StateAt(List, k) && net.pcb
    ensures Answer(List, f, Due(List, k), net) == StateAt(List, k + 1)
  {
    if k == 3 {
    } else if k == 4 {
    } else if k == 5 {
    } else {
    }
  }

  lemma StoreAnswer(f: Ftp, k: nat, net: Net)
    requires 3 <= k <= |Commands(Store)| && f.state == StateAt(Store, k)
    ensures Answer(Store, f, Due(Store, k), net) == StateAt(Store, k + 1)
  {
    if k == 3 {
    } else if k == 4 {
    } else {
    }
  }

  lemma RetrieveAnswer(resume: bool, f: Ftp, k: nat, net: Net)
    requires 3 <= k <= |Commands(Retrieve(resume))| && f.state == StateAt(Retrieve(resume), k)
    ensures Answer(Retrieve(resume), f, Due(Retrieve(resume), k), net) == StateAt(Retrieve(resume), k + 1)
  {
    if k == 3 {
    } else if k == 4 {
    } else if k == 5 {
    } else {
    }
  }

  lemma GoodAnswer(op: Op, f: Ftp, k: nat, net: Net)
    requires k <= |Commands(op)| && f.state == StateAt(op, k) && net.pcb
    ensures Answer(op, f, Due(op, k), net) == StateAt(op, k + 1)
  {
    hide Answer, StateAt, Due, Commands;
    if k <= 2 {
      LoginAnswer(op, f, k, net);
    } else if op.List? {
      ListAnswer(f, k, net);
    } else if op.Store? {
      StoreAnswer(f, k, net);
    } else if op.Retrieve? {
      RetrieveAnswer(op.resume, f, k, net);
    } else {
      CommandAnswer(op, f, k, net);
    }
  }

  lemma BadAnswer(op: Op, f: Ftp, k: nat, code: nat, net: Net)
    requires k <= |Commands(op)| && f.state == StateAt(op, k) && net.pcb && code != Due(op, k)
    ensures var to := Answer(op, f, code, net); to.QuitSent? || to.Logged?
  {
  }

  lemma SaysNext(op: Op, k: nat)
    requires k <= |Commands(op)|
    ensures Saying(StateAt(op, k), StateAt(op, k + 1)) == Next(op, k)
    ensures !StateAt(op, k).QuitSent? && !StateAt(op, k).Logged?
  {
  }

  lemma KeepsData(op: Op, f: Ftp, k: nat, net: Net)
    requires k <= |Commands(op)| && f.state == StateAt(op, k) && f.data == DataAt(op, k) && net.bytes > 0
    requires Answer(op, f, Due(op, k), net) == StateAt(op, k + 1)
    ensures Kept(op, f, Due(op, k), net) == DataAt(op, k + 1)
  {
    hide Answer, Due;
  }

  // A good reply leads on, any other to QUIT.
  lemma AnswerGoes(op: Op, f: Ftp, k: nat, code: nat, net: Net)
    requires k <= |Commands(op)| && f.state == StateAt(op, k) && f.data == DataAt(op, k) && net.pcb && net.bytes > 0
    ensures var to := Answer(op, f, code, net);
      if code == Due(op, k)
      then to == StateAt(op, k + 1) && Saying(f.state, to) == Next(op, k) && Kept(op, f, code, net) == DataAt(op, k + 1)
      else (to.QuitSent? || to.Logged?) && Saying(f.state, to) == [Sent(QUIT)]
  {
    hide Commands, Answer, Kept, Due, Next, StateAt, DataAt;
    SaysNext(op, k);
    if code == Due(op, k) {
      GoodAnswer(op, f, k, net);
      KeepsData(op, f, k, net);
    } else {
      BadAnswer(op, f, k, code, net);
    }
  }

  lemma LinkGoes(op: Op, k: nat)
    requires k <= |Commands(op)|
    ensures !StateAt(op, k).Logged? && !StateAt(op, k + 1).Closed? && !StateAt(op, k + 1).Logged?
    ensures LinkAt(op, k + 1) <==> LinkAt(op, k) || (StateAt(op, k).PasvSent? && Due(op, k) == 227)
    ensures LinkAt(op, k + 1) ==> DataAt(op, k + 1)
    ensures StateAt(op, k).PasvSent? ==> Due(op, k) == 227
  {
  }

  class Session {
    const op: Op
    var f: Ftp
    // Whether a data pcb that is not there was used.
    var astray: bool
    ghost var log: seq<Ev>

    ghost predicate Valid()
      reads this
    {
      Between(op, f, log)
    }

    // lwftp_connect on a cleared session, with whether it got a pcb and could connect.
    constructor (op: Op, pcb: bool)
      ensures Valid() && this.op == op && log == [] && !astray
      ensures f.state.Closed? && f.done.StartCb? && f.control == pcb && !f.data
    {
      this.op := op;
      f := Ftp(Closed, Closed, StartCb, pcb, false, false);
      astray, log := false, [];
    }

    // One step of a reply's handling led to a state, or is about to, with or without a
    // data pcb.
    twostate predicate Moved(to: State, data: bool)
      reads this
    {
      && f.data == data
      && (!old(f.state.PasvSent?) ==> f.linked == (old(f.linked) && f.data))
      && if to.Closed? then f.state.Closing? && log == old(log)
         else if to.Logged? && !old(f.state.Logged?) then f.state.DataEnd? && log == old(log)
         else if f.state.Quit? then to.QuitSent? && !old(f.state.QuitSent?) && log == old(log)
         else f.state == to && log == old(log) + Saying(old(f.state), to)
    }

    method SendMsg(c: Cmd)
      requires f.control && Conforms(log) && Allowed(c, log)
      modifies this`log
      ensures log == old(log) + [Sent(c)] && Conforms(log)
    {
      ConformsMore(log, Sent(c));
      log := log + [Sent(c)];
    }

    // lwftp_close.
    method Close()
      requires Conforms(log)
      modifies this`f, this`log
      ensures f == Quitting(old(f)) && log == QuitLog(old(f), old(log)) && Conforms(log)
    {
      if f.state.Closed? {
        return;
      }
      if f.control {
        SendMsg(QUIT);
        f := f.(state := QuitSent);
      }
    }

    // Where the start of the operation, or of the listing after CWD, leads.
    function Started(g: Ftp, net: Net): State {
      if g.done.StartCb? then Begin(op, net) else if net.pcb then TypeSent else QuitSent
    }

    // done_fn: the callbacks of the file manager and of the player.
    method Done(r: Result, net: Net)
      requires Pcbs(f) && Conforms(log)
      requires Starts(f, r) ==> f.control && !f.data && NoneSent(log, QUIT)
      requires Starts(f, r) && f.done.StartCb? ==> f.state.Logged? && log == LOGIN
      requires Starts(f, r) && f.done.ListCb? ==> op.List? && log == Ready(op)
      modifies this`f, this`log
      ensures Conforms(log) && f.control == old(f.control) && Pcbs(f)
      ensures old(Starts(f, r)) ==> Valid() && Moved(Started(old(f), net), Started(old(f), net).TypeSent?)
      ensures old(!Starts(f, r) && Ends(f, r)) ==> f == Quitting(old(f)) && log == QuitLog(old(f), old(log))
      ensures old(!Starts(f, r) && !Ends(f, r)) ==> f == old(f) && log == old(log)
      decreases Rank(f.done), 0
    {
      hide Conforms, Allowed, In, NoneSent, Moving, Prepared, Asked;
      match f.done
      case StartCb =>
        if !r.LoggedIn? {
          Close();
        } else {
          f := f.(done := if op.List? then ListCb else QuitCb);
          StartOp(net);
        }
      case ListCb =>
        if f.state.CwdSent? && r.Ok? {
          f := f.(done := QuitCb, state := Logged);
          Transfer(net);
        }
      case QuitCb =>
        if !r.InProgress? {
          Close();
        }
    }

    // The function for the operation, called when the login is over.
    method StartOp(net: Net)
      requires Pcbs(f) && Conforms(log) && f.control && !f.data && f.state.Logged? && log == LOGIN
      requires f.done == if op.List? then ListCb else QuitCb
      modifies this`f, this`log
      ensures Valid() && Conforms(log) && f.control && Pcbs(f)
      ensures Moved(Begin(op, net), Begin(op, net).TypeSent?)
      decreases Rank(f.done), 2
    {
      hide Conforms, Allowed, In, NoneSent, Moving, Prepared, Asked;
      match op
      case MakeDir => Command(MKD, MkdSent, net);
      case RemoveDir => Command(RMD, RmdSent, net);
      case Delete => Command(DELE, DeleSent, net);
      case Rename => Command(RNFR, RnfrSent, net);
      case List => Command(CWD, CwdSent, net);
      case Store => Transfer(net);
      case Retrieve(_) => Transfer(net);
    }

    // lwftp_newdir, lwftp_rmd, lwftp_delete, lwftp_rename and lwftp_cwd.  A session that is
    // not logged in sends nothing, or ends if its callback does that on an error.
    method Command(c: Cmd, sent: State, net: Net)
      requires Pcbs(f) && Conforms(log) && !f.done.StartCb?
      requires c.MKD? || c.RMD? || c.DELE? || c.RNFR? || c.CWD?
      requires f.state.Logged? ==> f.control && log == LOGIN
      modifies this`f, this`log
      ensures Conforms(log) && f.control == old(f.control) && Pcbs(f)
      ensures old(f.state.Logged?) ==> f == old(f).(state := sent) && log == old(log) + [Sent(c)]
      ensures !old(f.state.Logged?) && old(f.done.ListCb?) ==> f == old(f) && log == old(log)
      ensures !old(f.state.Logged?) && old(f.done.QuitCb?) ==>
        f == Quitting(old(f)) && log == QuitLog(old(f), old(log))
      decreases Rank(f.done), 1
    {
      var r := Error;
      if f.state.Logged? {
        OpNext(c);
        SendMsg(c);
        f := f.(state := sent);
        r := InProgress;
      }
      Done(r, net);
    }

    // lwftp_list, lwftp_store and lwftp_retrieve.  Refused, the session ends.
    method Transfer(net: Net)
      requires Pcbs(f) && Conforms(log) && f.done.QuitCb? && Transfers(op)
      requires f.state.Logged? && !f.data && net.pcb ==> f.control && log == Ready(op)
      modifies this`f, this`log
      ensures Conforms(log) && f.control == old(f.control) && Pcbs(f)
      ensures if old(f.state.Logged? && !f.data) && net.pcb
              then f == old(f).(data := true, state := TypeSent, target := Target(op)) &&
                   log == old(log) + [Sent(TYPE)]
              else f == Quitting(old(f)) && log == QuitLog(old(f), old(log))
      ensures old(f.state.Logged? && !f.data && f.control && log == Ready(op)) ==>
        Valid() && Moved(if net.pcb then TypeSent else QuitSent, net.pcb)
      decreases Rank(f.done), 1
    {
      hide Conforms, Allowed, Dialogue, Ready;
      if !f.state.Logged? || f.data || !net.pcb {
        if f.control && !f.state.Closed? {
          QuitSentStays(op, f, log);
        }
        Done(Error, net);
      } else {
        TypeNext(op);
        TypeStage(op);
        SendMsg(TYPE);
        f := f.(data := true, state := TypeSent, target := Target(op));
        Done(InProgress, net);
      }
    }

    // lwftp_data_close.
    method DataClose(r: Result, net: Net)
      requires Pcbs(f) && Conforms(log) && f.done.QuitCb?
      modifies this`f, this`log
      ensures Conforms(log)
      ensures var g := old(f).(data := false, linked := false);
        if r.InProgress? then f == g && log == old(log) else f == Quitting(g) && log == QuitLog(g, old(log))
    {
      f := f.(data := false, linked := false);
      Done(r, net);
    }

    // lwftp_control_close.
    method ControlClose(r: Result, net: Net)
      requires Conforms(log) && !r.LoggedIn? && (Pcbs(f.(control := true)))
      modifies this`f, this`log
      ensures Valid() && !f.control && !f.data && f.state.Closed? && log == old(log)
    {
      f := f.(control := false, data := false, linked := false, state := Closed);
      Done(r, net);
    }

    // After the first step of lwftp_control_process: its second step may be to come.
    ghost predicate Mid()
      reads this
    {
      && Pcbs(f) && Conforms(log) && f.control
      && (f.state.Quit? || f.state.Closing? || (f.state.DataEnd? && f.done.QuitCb?) || Valid())
    }

    // lwftp_control_process on a reply; code is its number.
    method ControlProcess(code: nat, net: Net)
      requires Valid() && f.control && !f.state.Closed? && code > 0
      modifies this`f, this`log, this`astray
      ensures Valid() && f.state == old(Answer(op, f, code, net)) && (!f.state.Closed? ==> f.control)
      ensures log == old(log) + [Reply(code)] + Saying(old(f.state), f.state)
      ensures f.data == (old(Kept(op, f, code, net)) && !f.state.Closed? && (f.state.Logged? ==> old(f.state.Logged?)))
      ensures f.linked == ((if code == 227 && old(f.state.PasvSent?) then net.linked else old(f.linked)) && f.data)
      ensures astray == (old(astray) || (old(f).state.StorSent? && code == 150 && !old(f).data))
      // while data moves, 226 and 250 change nothing, and any other reply ends the session
      ensures old(f.state.Xfering?) ==>
        if (code == 226 || code == 250) && old(f.data)
        then f.state.Xfering? && f.data && log == old(log) + [Reply(code)]
        else f.state.Logged? && !f.data && log == old(log) + [Reply(code), Sent(QUIT)]
    {
      hide Stage, Conforms, Allowed, NoneSent, Answer;
      ghost var was, to := f.state, Answer(op, f, code, net);
      Heard(code);
      ghost var heard := log;
      var result := FirstStep(code, net);
      SecondStep(result, net);
      assert f.state == to && log == heard + Saying(was, to);
      if old(f.state.Xfering?) {
        WhileMoving(op, old(f), code, net);
      }
    }

    // An operation to which every answer from below is favourable follows its script as
    // long as the replies are the due ones, and says QUIT to the first that is not.
    method Converse(replies: seq<nat>, net: Net) returns (k: nat)
      requires Valid() && f.control && f.state.Connected? && log == []
      requires net.pcb && net.linked && net.bytes > 0 && forall r :: r in replies ==> r > 0
      modifies this`f, this`log, this`astray
      ensures Valid() && Agrees(op, replies, k)
      ensures k == |replies| || k == |Commands(op)| + 1 || replies[k] != Due(op, k)
      ensures if k == |replies| || k == |Commands(op)| + 1
              then log == Talk(op, k) && f.state == StateAt(op, k) &&
                   f.data == DataAt(op, k) && f.linked == LinkAt(op, k)
              else log == Talk(op, k) + [Reply(replies[k]), Sent(QUIT)] && (f.state.QuitSent? || f.state.Logged?)
    {
      hide Session.Valid, Commands, Due, Next, StateAt, DataAt, LinkAt, Answer, Saying, Kept;
      StartsOff();
      k := 0;
      while k < |replies| && k < |Commands(op)| + 1
        invariant Valid() && f.control && !f.state.Closed? && Agrees(op, replies, k)
        invariant log == Talk(op, k) && f.state == StateAt(op, k)
        invariant f.data == DataAt(op, k) && f.linked == LinkAt(op, k)
      {
        AnswerGoes(op, f, k, replies[k], net);
        LinkGoes(op, k);
        assert replies[k] in replies;
        ControlProcess(replies[k], net);
        if replies[k] != Due(op, k) {
          return;
        }
        k := k + 1;
      }
    }

    lemma StartsOff()
      requires Valid() && f.control && f.state.Connected?
      ensures f.data == DataAt(op, 0) && f.linked == LinkAt(op, 0) && f.state == StateAt(op, 0)
    {
    }

    // The reply is in the log.
    ghost method Heard(code: nat)
      requires Valid() && f.control && !f.state.Closed?
      modifies this`log
      ensures log == old(log) + [Reply(code)] && log[..|log| - 1] == old(log)
      ensures Answered(code) || (Valid() && (f.state.QuitSent? || f.state.Logged?))
    {
      hide Stage, Conforms, Allowed, NoneSent;
      ConformsMore(log, Reply(code));
      if Stage(op, f.state, f.target, f.done, log) {
        StageQuiet(op, f.state, f.target, f.done, log);
      } else {
        QuitStays(log, Reply(code));
      }
      assert (log + [Reply(code)])[..|log|] == log;
      log := log + [Reply(code)];
    }

    // The first step of lwftp_control_process.
    method FirstStep(code: nat, net: Net) returns (result: Result)
      requires f.control && !f.state.Closed?
      requires Answered(code) || (Valid() && (f.state.QuitSent? || f.state.Logged?))
      modifies this`f, this`log, this`astray
      ensures Mid() && Moved(old(Answer(op, f, code, net)), old(Kept(op, f, code, net)))
      ensures result == if old(f.state.QuitSent? && code == 221) ||
                           old(f.state.Xfering? && (code == 226 || code == 250)) then Ok else Error
      ensures old(f.state.PasvSent?) ==>
        f.linked == ((if code == 227 then net.linked else old(f.linked)) && f.data)
      ensures astray == (old(astray) || (old(f).state.StorSent? && code == 150 && !old(f).data))
    {
      hide Stage, Conforms, Allowed, NoneSent, Saying;
      if Answered(code) {
        AnsweredStage(code);
      }
      result := Error;
      if f.state.QuitSent? {
        if code == 221 {
          result := Ok;
        }
        QuitAnswered(code, net);
      } else if f.state.Logged? {
        NothingToDo(code, net);
      } else {
        match f.state {
          case Connected | UserSent | PassSent => LoginReply(code, net);
          case RnfrSent => RnfrReply(code, net);
          case CwdSent => CwdReply(code, net);
          case MkdSent | RmdSent | DeleSent | RntoSent => OpReply(code, net);
          case TypeSent => TypeReply(code, net);
          case RestSent => RestReply(code, net);
          case PasvSent => PasvReply(code, net);
          case ListSent | RetrSent | StorSent => AskedReply(code, net);
          case Xfering =>
            if code == 226 || code == 250 {
              result := Ok;
            }
            TransferReply(code, net);
          case AborSent => AborReply(code, net);
          case _ => assert false;
        }
      }
    }

    lemma AnsweredStage(code: nat)
      requires Answered(code)
      ensures !f.state.Logged? && !f.state.DataEnd? && !f.state.Quit? && !f.state.QuitSent? && !f.state.Closing?
    {
      StageQuiet(op, f.state, f.target, f.done, log[..|log| - 1]);
    }

    // The answer to QUIT.
    method QuitAnswered(code: nat, net: Net)
      requires Valid() && f.control && f.state.QuitSent?
      modifies this`f
      ensures Mid() && Moved(old(Answer(op, f, code, net)), old(Kept(op, f, code, net))) && f.state.Closing?
    {
      f := f.(state := Closing);
    }

    // A reply that comes when nothing is awaited.
    lemma NothingToDo(code: nat, net: Net)
      requires Valid() && f.control && f.state.Logged?
      ensures Mid() && Answer(op, f, code, net) == f.state && Saying(f.state, f.state) == []
    {
    }

    // The replies during the login.
    method LoginReply(code: nat, net: Net)
      requires Answered(code) && (f.state.Connected? || f.state.UserSent? || f.state.PassSent?)
      modifies this`f, this`log
      ensures Mid() && Moved(old(Answer(op, f, code, net)), old(Kept(op, f, code, net)))
    {
      hide Conforms, Allowed, In, NoneSent, Moving;
      ghost var past := log[..|log| - 1];
      assert log == past + [Reply(code)];
      match f.state
      case Connected =>
        if code == 220 {
          UserNext(past);
          SendMsg(USER);
          f := f.(state := UserSent);
        } else {
          f := f.(state := Quit);
        }
      case UserSent =>
        if code == 331 {
          PassNext(past);
          SendMsg(PASS);
          f := f.(state := PassSent);
        } else {
          f := f.(state := Quit);
        }
      case PassSent =>
        if code == 230 {
          LoginEnds(past);
          f := f.(state := Logged);
          Done(LoggedIn, net);
        } else {
          f := f.(state := Quit);
        }
    }

    // A reply has come in a dialogue without QUIT.
    ghost predicate Answered(code: nat)
      reads this
    {
      && Pcbs(f) && f.control && Conforms(log) && log != [] && log[|log| - 1] == Reply(code)
      && NoneSent(log[..|log| - 1], QUIT) && Stage(op, f.state, f.target, f.done, log[..|log| - 1])
    }

    // The reply to RNFR.
    method RnfrReply(code: nat, net: Net)
      requires Answered(code) && f.state.RnfrSent?
      modifies this`f, this`log
      ensures Mid() && Moved(old(Answer(op, f, code, net)), old(Kept(op, f, code, net)))
    {
      hide Conforms, Allowed, In, NoneSent, Moving;
      assert log == log[..|log| - 1] + [Reply(code)];
      if code == 350 {
        RntoNext();
        SendMsg(RNTO);
        f := f.(state := RntoSent);
      } else {
        f := f.(state := Quit);
      }
    }

    // The reply to CWD.
    method CwdReply(code: nat, net: Net)
      requires Answered(code) && f.state.CwdSent?
      modifies this`f, this`log
      ensures Mid() && Moved(old(Answer(op, f, code, net)), old(Kept(op, f, code, net)))
    {
      hide Conforms, Allowed, In, NoneSent, Moving;
      ghost var past := log[..|log| - 1];
      assert log == past + [Reply(code)];
      if code == 250 {
        CwdNext(past);
        Done(Ok, net);
      } else {
        f := f.(state := Quit);
      }
    }

    // The replies to the commands that are the whole operation.
    method OpReply(code: nat, net: Net)
      requires Answered(code)
      requires f.state.MkdSent? || f.state.RmdSent? || f.state.DeleSent? || f.state.RntoSent?
      modifies this`f, this`log
      ensures Mid() && Moved(old(Answer(op, f, code, net)), old(Kept(op, f, code, net)))
    {
      hide Conforms, Allowed, In, NoneSent, Moving, Dialogue;
      if code == if f.state.MkdSent? then 257 else 250 {
        QuitSentStays(op, f, log);
        Done(Ok, net);
      } else {
        f := f.(state := Quit);
      }
    }

    // The reply to TYPE.
    method TypeReply(code: nat, net: Net)
      requires Answered(code) && f.state.TypeSent?
      modifies this`f, this`log
      ensures Mid() && Moved(old(Answer(op, f, code, net)), old(Kept(op, f, code, net)))
    {
      hide Conforms, Allowed, In, NoneSent, Moving, Ready, Prepared;
      assert log == log[..|log| - 1] + [Reply(code)];
      if code == 200 {
        PasvNext(op);
        SendMsg(PASV);
        f := f.(state := PasvSent);
      } else {
        f := f.(state := Quit);
      }
    }

    // The reply to REST.
    method RestReply(code: nat, net: Net)
      requires Answered(code) && f.state.RestSent?
      modifies this`f, this`log
      ensures Mid() && Moved(old(Answer(op, f, code, net)), old(Kept(op, f, code, net)))
    {
      hide Conforms, Allowed, In, NoneSent, Moving, Ready, Prepared;
      assert log == log[..|log| - 1] + [Reply(code)];
      if code == 350 {
        RetrNext();
        SendMsg(RETR);
        f := f.(state := RetrSent);
      } else {
        f := f.(state := DataEnd);
      }
    }

    // The reply to PASV.
    method PasvReply(code: nat, net: Net)
      requires Answered(code) && f.state.PasvSent?
      modifies this`f, this`log
      ensures code == 227 ==> f.state == Target(op)
      ensures f.linked == ((if code == 227 then net.linked else old(f.linked)) && f.data)
      ensures Mid() && Moved(old(Answer(op, f, code, net)), old(Kept(op, f, code, net)))
    {
      hide Conforms, Allowed, In, NoneSent, Moving, Ready, Prepared;
      ghost var past := log[..|log| - 1];
      assert log == past + [Reply(code)];
      if code == 227 {
        f := f.(linked := net.linked && f.data);
        CommandNext(op);
        match f.target {
          case ListSent => SendMsg(LIST);
          case StorSent => SendMsg(STOR);
          case RetrSent => SendMsg(RETR);
          case RestSent => SendMsg(REST);
          case _ => assert false;
        }
        f := f.(state := f.target);
      } else {
        f := f.(state := Quit);
      }
    }

    // The replies to LIST, RETR and STOR.
    method AskedReply(code: nat, net: Net)
      requires Answered(code) && (f.state.ListSent? || f.state.RetrSent? || f.state.StorSent?)
      modifies this`f, this`astray
      ensures Mid() && Moved(old(Answer(op, f, code, net)), old(Kept(op, f, code, net)))
      ensures astray == (old(astray) || (old(f).state.StorSent? && code == 150 && !old(f).data))
    {
      hide Conforms, Allowed, In, NoneSent, Moving;
      assert log == log[..|log| - 1] + [Reply(code)];
      if code == 150 {
        var store := f.state.StorSent?;
        f := f.(state := Xfering);
        MovingStarts(op);
        AborNext(op, log);
        if store {
          SendNextData(net.bytes);
        }
      } else {
        f := f.(state := DataEnd);
      }
    }

    lemma StillMoving(code: nat)
      requires Answered(code) && f.state.Xfering?
      ensures Moving(op, log)
    {
      hide Moving, Conforms, Allowed, In, NoneSent, Dialogue;
      var past := log[..|log| - 1];
      assert log == past + [Reply(code)];
      MovingMore(op, past, code);
    }

    // The replies while the data connection is at work.
    method TransferReply(code: nat, net: Net)
      requires Answered(code) && f.state.Xfering?
      modifies this`f
      ensures Mid() && Moved(old(Answer(op, f, code, net)), old(Kept(op, f, code, net)))
    {
      hide Moving, Conforms, Allowed, In, NoneSent, Dialogue;
      StillMoving(code);
      if code == 226 || code == 250 {
        if !f.data {
          f := f.(state := DataEnd);
        }
      } else {
        f := f.(state := DataEnd);
      }
    }

    method AborReply(code: nat, net: Net)
      requires Answered(code) && f.state.AborSent?
      modifies this`f, this`log
      ensures Mid() && Moved(old(Answer(op, f, code, net)), old(Kept(op, f, code, net)))
    {
      hide Moving, Conforms, Allowed, In, NoneSent, Dialogue;
      if code == 426 {
        QuitSentStays(op, f, log);
        Done(Ok, net);
      } else {
        f := f.(state := Quit);
      }
    }

    // The second step of lwftp_control_process.
    method SecondStep(result: Result, net: Net)
      requires Mid() && !result.InProgress? && !result.LoggedIn?
      modifies this`f, this`log
      ensures Valid() && f.data == (old(f.data) && !old(f.state.DataEnd?) && !old(f.state.Closing?))
      ensures f.linked == (old(f.linked) && f.data)
      ensures match old(f).state
        case Quit => f.state.QuitSent? && log == old(log) + [Sent(QUIT)]
        case DataEnd => f.state.Logged? && log == old(log) + [Sent(QUIT)]
        case Closing => f.state.Closed? && log == old(log)
        case _ => f == old(f) && log == old(log)
    {
      hide Dialogue, Moving, Conforms, In, Follows, NoneSent;
      match f.state
      case DataEnd =>
        QuitSentStays(op, f.(data := false, linked := false), log);
        DataClose(result, net);
        f := f.(state := Logged);
      case Quit =>
        QuitSentStays(op, f, log);
        SendMsg(QUIT);
        f := f.(state := QuitSent);
      case Closing =>
        ControlClose(result, net);
      case _ =>
    }

    // lwftp_send_next_data.  The data pcb is used without a check.
    method SendNextData(bytes: nat)
      modifies this`f, this`astray
      ensures astray == (old(astray) || !old(f).data)
      ensures f == if bytes == 0 then old(f).(data := false, linked := false) else old(f)
    {
      astray := astray || !f.data;
      if bytes == 0 {
        f := f.(data := false, linked := false);
      }
    }

    // lwftp_control_recv and lwftp_control_err without a reply: the connection is gone.
    method ControlLost(net: Net)
      requires Valid() && f.control
      modifies this`f, this`log
      ensures Valid() && !f.control && !f.data && f.state.Closed? && log == old(log)
    {
      ControlClose(Error, net);
    }

    // lwftp_data_recv with bytes.  The sink of a retrieval may find that it cannot write
    // them, or that it has enough.
    method DataReceived(sink: Sink, net: Net)
      requires Valid() && f.linked
      modifies this`f, this`log
      ensures Valid()
      ensures var s := old(f.state);
        if op.Retrieve? && sink.WriteError? && (s.Xfering? || s.RetrSent? || s.RestSent?)
        then f == old(f).(state := QuitSent) && log == old(log) + [Sent(QUIT)]
        else if op.Retrieve? && sink.Surplus? && s.Xfering?
        then f == old(f).(state := AborSent) && log == old(log) + [Sent(ABOR)]
        else f == old(f) && log == old(log)
    {
      hide Conforms, Allowed, NoneSent;
      if op.Retrieve? && sink.WriteError? {
        if f.state.Xfering? || f.state.RetrSent? || f.state.RestSent? {
          QuitSentStays(op, f, log);
          Close();
        }
      } else if op.Retrieve? && sink.Surplus? {
        if f.state.Xfering? {
          Abort(net);
        }
      }
    }

    // lwftp_data_recv at the end of the data.
    method DataEnded(net: Net)
      requires Valid() && f.linked
      modifies this`f, this`log
      ensures Valid() && !f.data && f.state.Logged? && log == old(log) + [Sent(QUIT)]
    {
      hide Conforms, Allowed, NoneSent;
      QuitSentStays(op, f.(data := false, linked := false), log);
      DataClose(Ok, net);
      f := f.(state := Logged);
    }

    // lwftp_data_sent.
    method DataSent(bytes: nat)
      requires Valid() && f.linked
      modifies this`f, this`astray
      ensures Valid() && astray == old(astray)
      ensures f == if bytes == 0 then old(f).(data := false, linked := false) else old(f)
    {
      SendNextData(bytes);
    }

    // lwftp_data_err.
    method DataFailed(net: Net)
      requires Valid() && f.linked
      modifies this`f, this`log
      ensures Valid() && !f.data
      ensures if old(f.state.Xfering?) then f.state.Logged? && log == old(log) + [Sent(QUIT)]
              else f == old(f).(data := false, linked := false) && log == old(log)
    {
      f := f.(data := false, linked := false);
      if f.state.Xfering? {
        f := f.(state := DataEnd);
        SecondStep(Error, net);
      }
    }

    // lwftp_abort.
    method Abort(net: Net)
      requires Valid()
      modifies this`f, this`log
      ensures Valid()
      ensures if old(f.state.Xfering?) then f == old(f).(state := AborSent) && log == old(log) + [Sent(ABOR)]
              else if old(f.done.ListCb?) then f == old(f) && log == old(log)
              else f == Quitting(old(f)) && log == QuitLog(old(f), old(log))
    {
      hide Conforms, Allowed, NoneSent;
      if !f.state.Xfering? {
        if f.control && !f.state.Closed? {
          QuitSentStays(op, f, log);
        }
        Done(Error, net);
      } else {
        AborNext(op, log);
        ghost var past := log;
        SendMsg(ABOR);
        NoneMore(past, Sent(ABOR));
        f := f.(state := AborSent);
        Done(InProgress, net);
      }
    }

    // Any run: callbacks and aborts in any order, as far as the connections allow them.
    method Run(events: seq<Event>)
      requires Valid()
      modifies this
      ensures Valid()
    {
      for i := 0 to |events|
        invariant Valid()
      {
        Handle(events[i]);
      }
    }

    method Handle(e: Event)
      requires Valid()
      modifies this
      ensures Valid()
      ensures astray ==> old(astray) || (e.OnReply? && e.code == 150 && old(f).state.StorSent? && !old(f).data)
      ensures var s := old(f);
        match e
        case OnConnected(ok) => f == if ok && s.control && s.state.Closed? then s.(state := Connected) else s
        case OnReply(code, net) =>
          if s.control && !s.state.Closed? && code > 0
          then f.state == Answer(op, s, code, net) && log == old(log) + [Reply(code)] + Saying(s.state, f.state)
          else f == s && log == old(log)
        case OnClosed(_) => !f.control && f.state.Closed? && log == old(log)
        case OnData(sink, _) =>
          (s.linked && op.Retrieve? && s.state.Xfering? ==>
             f.state == match sink case WriteError => QuitSent case Surplus => AborSent case Taken => Xfering)
        case OnDataEnd(_) => s.linked ==> !f.data && f.state.Logged? && log == old(log) + [Sent(QUIT)]
        case OnSent(bytes) => s.linked ==> f.data == (bytes > 0) && f.state == s.state && log == old(log)
        case OnDataError(_) => s.linked ==> !f.data && f.state == if s.state.Xfering? then Logged else s.state
        case OnAbort(_) => s.state.Xfering? ==> f == s.(state := AborSent) && log == old(log) + [Sent(ABOR)]
    {
      hide Stage, Conforms, Allowed, NoneSent, Answer, Saying;
      match e
      case OnConnected(ok) =>
        if f.control && f.state.Closed? && ok {
          Connect();
        }
      case OnReply(code, net) =>
        if f.control && !f.state.Closed? && code > 0 {
          ControlProcess(code, net);
        }
      case OnClosed(net) =>
        if f.control {
          ControlLost(net);
        }
      case OnData(sink, net) =>
        if f.linked {
          DataReceived(sink, net);
        }
      case OnDataEnd(net) =>
        if f.linked {
          DataEnded(net);
        }
      case OnSent(bytes) =>
        if f.linked {
          DataSent(bytes);
        }
      case OnDataError(net) =>
        if f.linked {
          DataFailed(net);
        }
      case OnAbort(net) =>
        Abort(net);
    }

    // lwftp_control_connected.
    method Connect()
      requires Valid() && f.control && f.state.Closed?
      modifies this`f
      ensures Valid() && f == old(f).(state := Connected)
    {
      f := f.(state := Connected);
    }

    // In every state a run can reach: each command sent was allowed where it was sent,
    // nothing but QUIT follows a QUIT, data moves only in the dialogue of the operation,
    // and without a control pcb all is closed.
    lemma Obeys(i: nat, j: nat)
      requires Valid()
      ensures i < |log| && log[i].Sent? ==> Allowed(log[i].cmd, log[..i])
      ensures i < j < |log| && log[i] == Sent(QUIT) && log[j].Sent? ==> log[j] == Sent(QUIT)
      ensures f.control && f.state.Xfering? ==> Moving(op, log)
      ensures !f.control ==> !f.data && !f.linked && f.state.Closed?
    {
      if i < j < |log| && log[i] == Sent(QUIT) && log[j].Sent? {
        assert log[..j][i] == Sent(QUIT);
      }
    }
  }
}
