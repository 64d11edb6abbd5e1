// Decimal numbers as printf writes them and as strtoul and sscanf read them.
module Decimal {

  predicate IsDigit(c: char) {
    '0' <= c <= '9'
  }

  // isspace.
  predicate IsBlank(c: char) {
    c == ' ' || c as int in {9, 10, 11, 12, 13}
  }

  function Digit(d: nat): (c: char)
    requires d < 10
    ensures IsDigit(c) && Value(c) == d
  {
    ('0' as int + d) as char
  }

  function Value(c: char): nat
    requires IsDigit(c)
  {
    c as int - '0' as int
  }

  predicate Digits(s: string) {
    forall i :: 0 <= i < |s| ==> IsDigit(s[i])
  }

  // %d, %i and %u of a number that is not negative.
  function Print(n: nat): (s: string)
    ensures s != "" && Digits(s)
  {
    if n < 10 then [Digit(n)] else Print(n / 10) + [Digit(n % 10)]
  }

  function Number(s: string): nat
    requires Digits(s)
  {
    if s == "" then 0 else 10 * Number(s[..|s| - 1]) + Value(s[|s| - 1])
  }

  lemma {:induction false} NumberOfPrint(n: nat)
    ensures Number(Print(n)) == n
  {
    if n >= 10 {
      NumberOfPrint(n / 10);
      assert Print(n)[..|Print(n)| - 1] == Print(n / 10);
    }
  }

  // How many digits a number below 10 to the width has.
  function Pow10(width: nat): (p: nat)
    ensures p > 0
  {
    if width == 0 then 1 else 10 * Pow10(width - 1)
  }

  lemma {:induction false} PrintWidth(n: nat, width: nat)
    requires n < Pow10(width) && width > 0
    ensures |Print(n)| <= width
  {
    if n >= 10 {
      PrintWidth(n / 10, width - 1);
    }
  }

  // Leading zeros, as %02i prints them, or leading blanks, as %11lu does.
  function Padded(s: string, c: char, width: nat): (r: string)
    ensures |r| == if |s| < width then width else |s|
    decreases width - |s|
  {
    if |s| < width then Padded([c] + s, c, width) else s
  }

  lemma {:induction false} NumberOfZeros(s: string, width: nat)
    requires Digits(s)
    ensures Digits(Padded(s, '0', width)) && Number(Padded(s, '0', width)) == Number(s)
    decreases width - |s|
  {
    if |s| < width {
      NumberOfZero(s);
      NumberOfZeros(['0'] + s, width);
    }
  }

  lemma {:induction false} NumberOfZero(s: string)
    requires Digits(s)
    ensures Digits(['0'] + s) && Number(['0'] + s) == Number(s)
  {
    if s == "" {
      assert (['0'] + s)[..0] == "";
    } else {
      NumberOfZero(s[..|s| - 1]);
      assert (['0'] + s)[..|s|] == ['0'] + s[..|s| - 1];
    }
  }

  // ---------------------------------------------------------------- reading

  function Blanks(t: string): (n: nat)
    ensures n <= |t| && (n < |t| ==> !IsBlank(t[n]))
    ensures forall i :: 0 <= i < n ==> IsBlank(t[i])
  {
    if t == "" || !IsBlank(t[0]) then 0 else 1 + Blanks(t[1..])
  }

  // The text from the first character on that is no blank.
  function Trim(t: string): (r: string)
    ensures r != "" ==> !IsBlank(r[0])
  {
    t[Blanks(t)..]
  }

  // How many digits the text starts with.
  function Run(t: string): (n: nat)
    ensures n <= |t| && Digits(t[..n]) && (n < |t| ==> !IsDigit(t[n]))
  {
    if t == "" || !IsDigit(t[0]) then 0
    else
      assert t[..1 + Run(t[1..])] == [t[0]] + t[1..][..Run(t[1..])];
      1 + Run(t[1..])
  }

  predicate EndsNumber(rest: string) {
    rest != "" ==> !IsDigit(rest[0])
  }

  lemma {:induction false} RunOf(s: string, rest: string)
    requires Digits(s) && EndsNumber(rest)
    ensures Run(s + rest) == |s|
  {
    if s == "" {
      assert s + rest == rest;
    } else {
      RunOf(s[1..], rest);
      assert (s + rest)[1..] == s[1..] + rest;
    }
  }

  const WORD: nat := 0x1_0000_0000

  // strtoul in base 10 on a 32-bit machine: the value and the text behind it, which is
  // the whole text if there is no number.
  function Strtoul(t: string): (nat, string) {
    var u := Trim(t);
    var minus := u != "" && u[0] == '-';
    var v := if u != "" && (u[0] == '-' || u[0] == '+') then u[1..] else u;
    var n := Run(v);
    if n == 0 then (0, t)
    else
      var m := Number(v[..n]);
      if m >= WORD then (WORD - 1, v[n..])
      else if minus then ((WORD - m) % WORD, v[n..])
      else (m, v[n..])
  }

  lemma TrimNone(t: string)
    requires t != "" ==> !IsBlank(t[0])
    ensures Trim(t) == t
  {
  }

  lemma StrtoulOfPrint(n: nat, rest: string)
    requires n < WORD && EndsNumber(rest)
    ensures Strtoul(Print(n) + rest) == (n, rest)
  {
    var p := Print(n);
    var t := p + rest;
    NumberOfPrint(n);
    RunOf(p, rest);
    assert IsDigit(t[0]);
    TrimNone(t);
    hide Print, Number, Run, Trim;
    assert t[..|p|] == p && t[|p|..] == rest;
  }
}
