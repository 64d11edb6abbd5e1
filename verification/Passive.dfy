// Passive mode: the reply to PASV, as the server prints it and the client parses it, and
// the search for a port to listen on.
module Passive {
  import opened Decimal

  // ------------------------------------------------------------- the reply

  datatype Parsed = Server(a: nat, b: nat, c: nat, d: nat, port: nat) | BadReply | Overrun

  // cmd_pasv's reply, as it goes over the connection.
  function Reply(a: nat, b: nat, c: nat, d: nat, port: nat): string {
    "227 Entering Passive Mode " + "(" + List([a, b, c, d, port / 256 % 256, port % 256])
  }

  // Numbers with commas between them and what follows the last one.
  function List(v: seq<nat>): string
    requires v != []
  {
    Print(v[0]) + if |v| == 1 then ").\r\n" else "," + List(v[1..])
  }

  // strchr for the opening parenthesis.
  function FromParen(t: string): string {
    if t == "" || t[0] == '(' then t else FromParen(t[1..])
  }

  // n numbers, each behind the character the pointer is at, and the new pointer; none
  // when the text is over.
  datatype Values = Values(v: seq<nat>, rest: string) | Over

  function Next(t: string, n: nat): Values {
    if n == 0 then Values([], t)
    else if t == "" then Over
    else
      var more := Next(Strtoul(t[1..]).1, n - 1);
      if more.Over? then Over else Values([Strtoul(t[1..]).0] + more.v, more.rest)
  }

  lemma {:induction false} NextCount(t: string, n: nat)
    ensures Next(t, n).Values? ==> |Next(t, n).v| == n
    decreases n
  {
    hide Strtoul;
    if n > 0 && t != "" {
      NextCount(Strtoul(t[1..]).1, n - 1);
    }
  }

  // lwftp_data_open: the address and the port in a reply.
  function Parse(text: string): Parsed {
    NextCount(FromParen(text), 6);
    var t := FromParen(text);
    var w := Next(t, 6);
    if t == "" then BadReply
    else if w.Over? then Overrun
    else if w.rest == "" || w.rest[0] != ')' then BadReply
    else Server(w.v[0] % 256, w.v[1] % 256, w.v[2] % 256, w.v[3] % 256, w.v[4] * 256 % 65536 + w.v[5] % 256)
  }

  lemma {:induction false} NextOfList(lead: char, v: seq<nat>)
    requires v != [] && forall i :: 0 <= i < |v| ==> v[i] < 256
    ensures Next([lead] + List(v), |v|) == Values(v, ").\r\n")
    decreases |v|
  {
    hide Strtoul, Print;
    var rest := if |v| == 1 then ").\r\n" else "," + List(v[1..]);
    StrtoulOfPrint(v[0], rest);
    assert ([lead] + List(v))[1..] == Print(v[0]) + rest;
    if |v| == 1 {
      assert Next(rest, 0) == Values([], rest);
      assert [v[0]] + [] == v;
    } else {
      NextOfList(',', v[1..]);
      assert [v[0]] + v[1..] == v;
    }
  }

  lemma {:induction false} SkipTo(pre: string, t: string)
    requires forall i :: 0 <= i < |pre| ==> pre[i] != '('
    requires t != "" && t[0] == '('
    ensures FromParen(pre + t) == t
  {
    if pre == "" {
      assert pre + t == t;
    } else {
      SkipTo(pre[1..], t);
      assert (pre + t)[1..] == pre[1..] + t;
    }
  }

  // The reply names the address from its first byte on and the port with its high byte first,
  // as section 4.1.2 of RFC 959 asks.
  lemma ReplyFields(a: nat, b: nat, c: nat, d: nat, high: nat, low: nat)
    requires a < 256 && b < 256 && c < 256 && d < 256 && high < 256 && low < 256
    ensures Next(FromParen(Reply(a, b, c, d, high * 256 + low)), 6) == Values([a, b, c, d, high, low], ").\r\n")
  {
    hide Next, List, FromParen;
    var v := [a, b, c, d, high, low];
    assert (high * 256 + low) / 256 % 256 == high && (high * 256 + low) % 256 == low;
    var pre := "227 Entering Passive Mode ";
    SkipTo(pre, "(" + List(v));
    assert pre + "(" + List(v) == pre + ("(" + List(v));
    NextOfList('(', v);
  }

  // The client finds the very address and port the server announces.
  lemma RoundTrip(a: nat, b: nat, c: nat, d: nat, port: nat)
    requires a < 256 && b < 256 && c < 256 && d < 256 && port < 65536
    ensures Parse(Reply(a, b, c, d, port)) == Server(a, b, c, d, port)
  {
    hide Next, List, FromParen;
    var pre := "227 Entering Passive Mode ";
    var v := [a, b, c, d, port / 256 % 256, port % 256];
    SkipTo(pre, "(" + List(v));
    assert pre + "(" + List(v) == pre + ("(" + List(v));
    NextOfList('(', v);
  }

  // ----------------------------------------------------- the port to listen on

  const FIRST: nat := 4096
  const LAST: nat := 32768

  // tcp_bind.
  datatype Bind = Bound | InUse | Failed

  // The port that is tried: behind the last comes the first.
  function Clip(port: nat): nat {
    if port > LAST then FIRST else port
  }

  // The n-th port tried when the search begins at port.
  function Tried(port: nat, n: nat): (q: nat)
    decreases n
  {
    if n == 0 then Clip(port) else Tried(Clip(port) + 1, n - 1)
  }

  lemma {:induction false} TriedInRange(port: nat, n: nat)
    requires FIRST <= port <= LAST + 1
    ensures FIRST <= Tried(port, n) <= LAST
    decreases n
  {
    if n > 0 {
      TriedInRange(Clip(port) + 1, n - 1);
    }
  }

  // How many ports are tried before q.
  function Steps(port: nat, q: nat): int {
    if q >= Clip(port) then q - Clip(port) else q - FIRST + LAST + 1 - Clip(port)
  }

  lemma {:induction false} TriedAll(port: nat, q: nat)
    requires FIRST <= port <= LAST + 1 && FIRST <= q <= LAST
    ensures 0 <= Steps(port, q) <= LAST - FIRST && Tried(port, Steps(port, q)) == q
    decreases Steps(port, q)
  {
    if Steps(port, q) > 0 {
      TriedAll(Clip(port) + 1, q);
    }
  }

  // The search comes to an end exactly if some port is not in use.
  lemma SearchEnds(port: nat, bind: nat -> Bind)
    requires FIRST <= port <= LAST + 1
    ensures (exists n :: bind(Tried(port, n)) != InUse) <==> (exists q :: FIRST <= q <= LAST && bind(q) != InUse)
  {
    if n :| bind(Tried(port, n)) != InUse {
      TriedInRange(port, n);
    }
    if q :| FIRST <= q <= LAST && bind(q) != InUse {
      TriedAll(port, q);
      assert bind(Tried(port, Steps(port, q))) != InUse;
    }
  }

  class Listener {
    // The static port of cmd_pasv: where the next search begins.
    var port: nat

    ghost predicate Valid()
      reads this
    {
      FIRST <= port <= LAST + 1
    }

    constructor ()
      ensures Valid() && port == FIRST
    {
      port := FIRST;
    }

    // The first port from the last one on, in cyclic order, that is not in use; the next
    // search begins behind it.
    method Search(bind: nat -> Bind) returns (found: nat, ghost n: nat)
      requires Valid() && exists q :: FIRST <= q <= LAST && bind(q) != InUse
      modifies this
      ensures Valid() && FIRST <= found <= LAST && port == found + 1
      ensures bind(found) != InUse && found == Tried(old(port), n)
      ensures forall k :: 0 <= k < n ==> bind(Tried(old(port), k)) == InUse
    {
      ghost var q :| FIRST <= q <= LAST && bind(q) != InUse;
      found, port, n := Clip(port), Clip(port) + 1, 0;
      while bind(found) == InUse
        invariant Valid() && FIRST <= found <= LAST && port == found + 1 && found == Tried(old(port), n)
        invariant forall k :: 0 <= k < n ==> bind(Tried(old(port), k)) == InUse
        decreases Steps(found, q)
      {
        TriedNext(old(port), n);
        found, port, n := Clip(port), Clip(port) + 1, n + 1;
      }
    }
  }

  lemma {:induction false} TriedNext(port: nat, n: nat)
    requires FIRST <= port <= LAST + 1
    ensures Tried(port, n + 1) == Clip(Tried(port, n) + 1)
    decreases n
  {
    if n > 0 {
      TriedNext(Clip(port) + 1, n - 1);
    }
  }
}
