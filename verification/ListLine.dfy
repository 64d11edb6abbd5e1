// The lines of LIST: printed by the server from directory entries, and put together and
// parsed by the client from whatever pieces the connection delivers.
module ListLine {
  import opened Bytes
  import opened Decimal

  // A directory entry: the FAT date and time are 16-bit words.
  datatype Entry = Entry(name: string, folder: bool, size: nat, date: nat, time: nat)

  // What the client lists; a folder's size is not set.  Garbage: a line whose fields are
  // not all there, so that values left from before are listed.
  datatype Obj = Obj(name: string, folder: bool, size: nat, date: nat) | Garbage

  // ------------------------------------------------------------ the server's side

  const MONTHS := ["Jan", "Feb", "Mar", "Apr", "May", "Jun", "Jul", "Aug", "Sep", "Oct", "Nov", "Dec"]

  function Year(e: Entry): nat {
    e.date / 512 % 128
  }

  function Month(e: Entry): nat {
    if e.date / 32 % 16 == 0 then 1 else e.date / 32 % 16
  }

  function Day(e: Entry): nat {
    if e.date % 32 == 0 then 1 else e.date % 32
  }

  function Hour(e: Entry): nat {
    e.time / 2048 % 32
  }

  function Minute(e: Entry): nat {
    e.time / 32 % 64
  }

  // The table of month names ends at December.
  predicate Printable(e: Entry) {
    e.size < WORD && Month(e) <= 12
  }

  function Two(n: nat): string {
    Padded(Print(n), '0', 2)
  }

  // Words with one blank behind each.
  function Words(w: seq<string>, last: string): string {
    if w == [] then last else w[0] + (" " + Words(w[1..], last))
  }

  function Head(e: Entry): seq<string>
    requires Printable(e)
  {
    [(if e.folder then "d" else "-") + "rw-rw-rw-", "1", "user", "ftp", Padded(Print(e.size), ' ', 11),
     MONTHS[Month(e) - 1], Two(Day(e))]
  }

  function Tail(e: Entry, curYear: nat): string {
    if Year(e) == curYear then Two(Hour(e)) + (":" + (Two(Minute(e)) + (" " + e.name)))
    else Padded(Print(Year(e) + 1980), ' ', 5) + (" " + e.name)
  }

  // ftps_dir_read: one line, without its end.
  function Line(e: Entry, curYear: nat): string
    requires Printable(e)
  {
    Words(Head(e), Tail(e, curYear))
  }

  // ------------------------------------------------------------ sscanf

  datatype Dir = Word | Num(width: nat)

  datatype Token = W(w: string) | N(n: int)

  datatype Scanned = Scanned(tokens: seq<Token>, rest: string) | Stopped

  // How many characters before the first blank.
  function Solid(t: string): (n: nat)
    ensures n <= |t| && (n < |t| ==> IsBlank(t[n]))
  {
    if t == "" || IsBlank(t[0]) then 0 else 1 + Solid(t[1..])
  }

  // %s, and %d with a width, sign included.
  function One(d: Dir, t: string): Scanned {
    var u := Trim(t);
    match d
    case Word =>
      if u == "" then Stopped else Scanned([W(u[..Solid(u)])], u[Solid(u)..])
    case Num(width) =>
      var signed := u != "" && (u[0] == '-' || u[0] == '+') && width > 0;
      var v := if signed then u[1..] else u;
      var w := if signed then width - 1 else width;
      var n := if Run(v) < w then Run(v) else w;
      if n == 0 then Stopped
      else
        assert Digits(v[..n]) by { assert v[..Run(v)][..n] == v[..n]; }
        Scanned([N(if signed && u[0] == '-' then 0 - Number(v[..n]) else Number(v[..n]))], v[n..])
  }

  function Scan(dirs: seq<Dir>, t: string): Scanned {
    if dirs == [] then Scanned([], t)
    else
      var a := One(dirs[0], t);
      if a.Stopped? then Stopped
      else
        var b := Scan(dirs[1..], a.rest);
        if b.Stopped? then Stopped else Scanned(a.tokens + b.tokens, b.rest)
  }

  // No number is as long as this.
  const WIDE: nat := 1000

  const HEAD := [Word, Num(WIDE), Word, Word, Num(WIDE), Word, Num(2)]

  // ------------------------------------------------------------ the client's side

  // _lv_fm_month_to_int.
  function MonthToInt(s: string): nat {
    if s == "Jan" then 1 else if s == "Feb" then 2 else if s == "Mar" then 3 else if s == "Apr" then 4
    else if s == "May" then 5 else if s == "Jun" then 6 else if s == "Jul" then 7 else if s == "Aug" then 8
    else if s == "Sep" then 9 else if s == "Oct" then 10 else if s == "Nov" then 11 else if s == "Dec" then 12
    else 0
  }

  // The bitwise or.
  function Or(a: nat, b: nat): nat {
    if a == 0 then b else if b == 0 then a
    else 2 * Or(a / 2, b / 2) + if a % 2 == 1 || b % 2 == 1 then 1 else 0
  }

  // A value as an unsigned word keeps it.
  function Unsigned(n: int): nat {
    if n < 0 then n % WORD else if n >= WORD then WORD - 1 else n
  }

  // obj->date: the fields of a FAT date put together in a 32-bit word.
  function Date(year: int, month: nat, day: nat): nat {
    Or(Or((year - 1980) % WORD * 512 % WORD, month * 32), day)
  }

  // One line, as lv_lwftp_dir_read_cb parses it: first with a year, and again with an
  // hour and a minute if that fails or if what should be the name starts with a colon.
  // The year is then the one of the first attempt.
  function ParseLine(line: string): Obj {
    var h := Scan(HEAD, line);
    if h.Stopped? || |h.tokens| < 7 then Garbage
    else
      var y := One(Num(4), h.rest);
      var name := if y.Stopped? then "" else Trim(y.rest);
      if y.Stopped? then Garbage
      else if name != "" && name[0] != ':' then Listed(h.tokens, y.tokens, name)
      else
        var time := Timed(h.rest);
        if time != "" then Listed(h.tokens, y.tokens, time)
        else if name != "" then Listed(h.tokens, y.tokens, name)
        else Garbage
  }

  // The name behind an hour and a minute, or nothing.
  function Timed(t: string): string {
    var hour := One(Num(2), t);
    if hour.Stopped? || hour.rest == "" || hour.rest[0] != ':' then ""
    else
      var minute := One(Num(2), hour.rest[1..]);
      if minute.Stopped? then "" else Trim(minute.rest)
  }

  function Listed(head: seq<Token>, year: seq<Token>, name: string): Obj {
    if |head| == 7 && head[0].W? && head[0].w != "" && head[4].N? && head[5].W? && head[6].N?
       && |year| == 1 && year[0].N?
    then
      var folder := head[0].w[0] == 'd';
      Obj(name, folder, if folder then 0 else Unsigned(head[4].n),
          Date(year[0].n, MonthToInt(head[5].w), head[6].n % 256))
    else Garbage
  }

  // ------------------------------------------------------ scanning printed lines

  predicate NoBlank(w: string) {
    forall i :: 0 <= i < |w| ==> !IsBlank(w[i])
  }

  predicate Breaks(rest: string) {
    rest != "" ==> IsBlank(rest[0])
  }

  lemma {:induction false} SolidOf(w: string, rest: string)
    requires NoBlank(w) && Breaks(rest)
    ensures Solid(w + rest) == |w|
  {
    if w == "" {
      assert w + rest == rest;
    } else {
      SolidOf(w[1..], rest);
      assert (w + rest)[1..] == w[1..] + rest;
    }
  }

  lemma {:induction false} TrimConcat(w: string, rest: string)
    requires Trim(w) != ""
    ensures Trim(w + rest) == Trim(w) + rest
  {
    if !IsBlank(w[0]) {
      TrimNone(w);
      TrimNone(w + rest);
    } else {
      assert Trim(w) == Trim(w[1..]);
      TrimConcat(w[1..], rest);
      assert (w + rest)[1..] == w[1..] + rest;
      assert Trim(w + rest) == Trim((w + rest)[1..]);
    }
  }

  lemma {:induction false} TrimPadded(s: string, n: nat)
    requires Trim(s) != ""
    ensures Trim(Padded(s, ' ', n)) == Trim(s)
    decreases n - |s|
  {
    if |s| < n {
      assert ([' '] + s)[1..] == s;
      assert Trim([' '] + s) == Trim(s);
      TrimPadded([' '] + s, n);
    }
  }

  // A word a directive takes whole.
  predicate Fits(d: Dir, w: string) {
    match d
    case Word => w != "" && NoBlank(w)
    case Num(width) => Trim(w) != "" && Digits(Trim(w)) && |Trim(w)| <= width
  }

  function TokenOf(d: Dir, w: string): Token
    requires Fits(d, w)
  {
    match d case Word => W(w) case Num(_) => N(Number(Trim(w)))
  }

  lemma OneOf(d: Dir, w: string, rest: string)
    requires Fits(d, w)
    requires if d.Word? then Breaks(rest) else EndsNumber(rest) || |Trim(w)| == d.width
    ensures One(d, w + rest) == Scanned([TokenOf(d, w)], rest)
  {
    match d
    case Word =>
      TrimNone(w + rest);
      SolidOf(w, rest);
      assert (w + rest)[..|w|] == w && (w + rest)[|w|..] == rest;
    case Num(width) =>
      TrimConcat(w, rest);
      var s := Trim(w);
      RunAtLeast(s, rest);
      assert (s + rest)[..|s|] == s && (s + rest)[|s|..] == rest;
  }

  lemma {:induction false} RunAtLeast(s: string, rest: string)
    requires Digits(s)
    ensures Run(s + rest) >= |s| && (EndsNumber(rest) ==> Run(s + rest) == |s|)
  {
    if s == "" {
      assert s + rest == rest;
    } else {
      RunAtLeast(s[1..], rest);
      assert (s + rest)[1..] == s[1..] + rest;
    }
  }

  // A blank in front makes no difference.
  lemma OneBlank(d: Dir, t: string)
    ensures One(d, " " + t) == One(d, t)
  {
    hide Trim, Solid, Run, Number;
    TrimBlank(t);
  }

  predicate FitsAll(dirs: seq<Dir>, words: seq<string>) {
    |dirs| == |words| && forall i :: 0 <= i < |dirs| ==> Fits(dirs[i], words[i])
  }

  function Tokens(dirs: seq<Dir>, words: seq<string>): (t: seq<Token>)
    requires FitsAll(dirs, words)
    ensures |t| == |dirs| && forall i :: 0 <= i < |t| ==> t[i] == TokenOf(dirs[i], words[i])
  {
    seq(|dirs|, i requires 0 <= i < |dirs| => TokenOf(dirs[i], words[i]))
  }

  // Words with blanks between them are scanned word by word.
  lemma {:induction false} ScanWords(dirs: seq<Dir>, words: seq<string>, last: string, lead: string)
    requires FitsAll(dirs, words) && words != [] && (lead == "" || lead == " ")
    ensures Scan(dirs, lead + Words(words, last)) == Scanned(Tokens(dirs, words), " " + last)
    decreases |words|
  {
    hide One, Fits, TokenOf;
    var t := Words(words, last);
    var rest := " " + Words(words[1..], last);
    OneOf(dirs[0], words[0], rest);
    OneBlank(dirs[0], t);
    assert "" + t == t;
    assert One(dirs[0], lead + t) == Scanned([TokenOf(dirs[0], words[0])], rest);
    var tokens := Tokens(dirs, words);
    var more := Tokens(dirs[1..], words[1..]);
    assert tokens == [TokenOf(dirs[0], words[0])] + more;
    if |words| == 1 {
      assert Words(words[1..], last) == last;
      assert Scan(dirs[1..], rest) == Scanned([], rest);
    } else {
      ScanWords(dirs[1..], words[1..], last, " ");
    }
  }

  // ------------------------------------------------------------ one line

  // Two digits hold every day, hour and minute.
  lemma TwoFits(n: nat)
    requires n < 100
    ensures |Two(n)| == 2 && Digits(Two(n)) && Number(Two(n)) == n && Fits(Num(2), Two(n)) && Trim(Two(n)) == Two(n)
  {
    assert Pow10(2) == 100 by { assert Pow10(1) == 10; }
    PrintWidth(n, 2);
    NumberOfZeros(Print(n), 2);
    NumberOfPrint(n);
    TrimNone(Two(n));
  }

  lemma {:induction false} PrintLonger(n: nat, k: nat)
    requires n >= Pow10(k)
    ensures |Print(n)| > k
  {
    if k > 0 {
      PrintLonger(n / 10, k - 1);
    }
  }

  lemma NumberFits(n: nat, width: nat, k: nat)
    requires n < Pow10(k) && 0 < k <= width
    ensures forall w :: Trim(Padded(Print(n), ' ', w)) == Print(n)
    ensures forall w :: Fits(Num(width), Padded(Print(n), ' ', w))
    ensures Number(Print(n)) == n
  {
    TrimNone(Print(n));
    PrintWidth(n, k);
    NumberOfPrint(n);
    forall w ensures Trim(Padded(Print(n), ' ', w)) == Print(n) {
      TrimPadded(Print(n), w);
    }
  }

  lemma MonthFits(m: nat)
    requires 1 <= m <= 12
    ensures Fits(Word, MONTHS[m - 1]) && MonthToInt(MONTHS[m - 1]) == m
  {
    assert |MONTHS[m - 1]| == 3;
  }

  lemma WordJoins(w: string, more: string)
    requires Fits(Word, w) && Fits(Word, more)
    ensures Fits(Word, w + more)
  {
  }

  lemma WordsFit()
    ensures Fits(Word, "d") && Fits(Word, "-") && Fits(Word, "rw-rw-rw-") && Fits(Word, "user") && Fits(Word, "ftp")
    ensures Fits(Num(WIDE), "1")
  {
    TrimNone("1");
  }

  lemma SizeFits(size: nat)
    requires size < WORD
    ensures Fits(Num(WIDE), Padded(Print(size), ' ', 11)) && Number(Trim(Padded(Print(size), ' ', 11))) == size
  {
    assert Pow10(3) == 1000;
    assert Pow10(6) == 1000000;
    assert Pow10(9) == 1000000000;
    NumberFits(size, WIDE, 10);
  }

  lemma DateInRange(e: Entry)
    ensures 1 <= Month(e) && Day(e) < 100
  {
  }

  lemma KindFits(folder: bool)
    ensures Fits(Word, (if folder then "d" else "-") + "rw-rw-rw-")
  {
    hide Fits;
    WordsFit();
    WordJoins(if folder then "d" else "-", "rw-rw-rw-");
  }

  lemma HeadFits(e: Entry)
    requires Printable(e)
    ensures FitsAll(HEAD, Head(e))
    ensures var t := Tokens(HEAD, Head(e));
      && t[0] == W((if e.folder then "d" else "-") + "rw-rw-rw-") && t[4] == N(e.size)
      && t[5] == W(MONTHS[Month(e) - 1]) && t[6] == N(Day(e))
  {
    hide Fits, Padded, Print, Number, Trim, Two, Month, Day;
    DateInRange(e);
    WordsFit();
    KindFits(e.folder);
    SizeFits(e.size);
    MonthFits(Month(e));
    TwoFits(Day(e));
  }

  // Three digits and more are no hour with a colon behind it.
  lemma NotTimed(s: string, rest: string, t: string)
    requires Digits(s) && |s| >= 3 && Trim(t) == s + rest
    ensures Timed(t) == ""
  {
    RunAtLeast(s, rest);
    assert (s + rest)[2..][0] == s[2];
    assert !One(Num(2), t).Stopped? ==> One(Num(2), t).rest == (s + rest)[2..];
  }

  // The year form: the name comes back even if it begins with a colon, since an hour and
  // a minute are not found then.
  lemma YearTail(e: Entry, curYear: nat)
    requires Year(e) != curYear
    ensures var t := " " + Tail(e, curYear);
      && One(Num(4), t) == Scanned([N(Year(e) + 1980)], " " + e.name)
      && Trim(" " + e.name) == Trim(e.name) && Timed(t) == ""
  {
    hide Print, Padded, Number, One, Trim, Timed;
    var y := Year(e) + 1980;
    var w, rest := Padded(Print(y), ' ', 5), " " + e.name;
    assert Pow10(3) == 1000 && Pow10(4) == 10000;
    NumberFits(y, 4, 4);
    PrintLonger(y, 3);
    TrimBlank(e.name);
    OneBlank(Num(4), w + rest);
    OneOf(Num(4), w, rest);
    TrimConcat(w, rest);
    TrimBlank(w + rest);
    NotTimed(Print(y), rest, " " + (w + rest));
  }

  lemma TrimBlank(t: string)
    ensures Trim(" " + t) == Trim(t)
  {
    assert (" " + t)[1..] == t;
  }

  // The time form: the first attempt finds a colon, the second the name.
  lemma TimeTail(e: Entry, curYear: nat)
    requires Year(e) == curYear
    ensures var t := " " + Tail(e, curYear);
      && var y := One(Num(4), t);
      y.Scanned? && y.tokens == [N(Hour(e))] && Trim(y.rest) != "" && Trim(y.rest)[0] == ':' && Timed(t) == Trim(e.name)
  {
    hide Print, Padded, Number, One, Trim, Two;
    var minute := Two(Minute(e)) + (" " + e.name);
    var rest := ":" + minute;
    TwoFits(Hour(e));
    TwoFits(Minute(e));
    TrimBlank(e.name);
    OneBlank(Num(4), Two(Hour(e)) + rest);
    OneBlank(Num(2), Two(Hour(e)) + rest);
    FourFits(Two(Hour(e)));
    OneOf(Num(4), Two(Hour(e)), rest);
    OneOf(Num(2), Two(Hour(e)), rest);
    assert rest[1..] == minute;
    OneOf(Num(2), Two(Minute(e)), " " + e.name);
    TrimNone(rest);
  }

  lemma FourFits(w: string)
    requires Fits(Num(2), w)
    ensures Fits(Num(4), w) && TokenOf(Num(4), w) == TokenOf(Num(2), w)
  {
  }

  // What the client lists for an entry.
  function Seen(e: Entry, curYear: nat): Obj {
    Obj(Trim(e.name), e.folder, if e.folder then 0 else e.size,
        Date(if Year(e) == curYear then Hour(e) else Year(e) + 1980, Month(e), Day(e)))
  }

  // Each line is parsed to the name, the kind and the size it was printed for.
  lemma LineRoundTrip(e: Entry, curYear: nat)
    requires Printable(e) && Trim(e.name) != ""
    ensures ParseLine(Line(e, curYear)) == Seen(e, curYear)
  {
    hide Scan, Words, Head, Tail, Date, Timed, One, Trim, MonthToInt, Tokens, Year, Month, Day, Hour;
    var line := Line(e, curYear);
    HeadFits(e);
    HeadShape(e);
    ScanWords(HEAD, Head(e), Tail(e, curYear), "");
    assert "" + line == line;
    MonthFits(Month(e));
    if Year(e) == curYear {
      TimeTail(e, curYear);
    } else {
      YearTail(e, curYear);
    }
  }

  // A directory's line begins with a d.
  lemma LineBegins(e: Entry, curYear: nat)
    requires Printable(e)
    ensures |Line(e, curYear)| > 11 && Line(e, curYear)[..11] == (if e.folder then "drw-rw-rw- " else "-rw-rw-rw- ")
  {
    hide Padded, Print, Two, Tail;
    var w := Head(e);
    assert Line(e, curYear) == w[0] + (" " + Words(w[1..], Tail(e, curYear)));
    assert w[1..][0] == "1" && w[1..] != [];
    assert |Words(w[1..], Tail(e, curYear))| > 0;
    assert Line(e, curYear)[..11] == w[0] + " ";
  }

  // The name is the very same exactly if it does not begin with a blank.
  lemma NameArrives(e: Entry, curYear: nat)
    requires Trim(e.name) != ""
    ensures Seen(e, curYear).name == e.name <==> !IsBlank(e.name[0])
  {
    if !IsBlank(e.name[0]) {
      TrimNone(e.name);
    }
  }

  lemma HeadShape(e: Entry)
    requires Printable(e)
    ensures |HEAD| == |Head(e)| == 7 && 1 <= Month(e) <= 12 && Day(e) < 256
  {
  }

  // ------------------------------------------------------------ the date

  function Pow2(k: nat): (p: nat)
    ensures p > 0
  {
    if k == 0 then 1 else 2 * Pow2(k - 1)
  }

  // Bits that do not overlap add up.
  lemma {:induction false} OrDisjoint(a: nat, k: nat, b: nat)
    requires b < Pow2(k)
    ensures Or(a * Pow2(k), b) == a * Pow2(k) + b
  {
    hide Or;
    if k == 0 {
      OrNothing(a);
    } else {
      OrDisjoint(a, k - 1, b / 2);
      Twice(a, Pow2(k - 1));
      OrStep(a * Pow2(k - 1), b);
    }
  }

  lemma Twice(a: nat, p: nat)
    ensures a * (2 * p) == 2 * (a * p)
  {
  }

  lemma OrNothing(a: nat)
    ensures Or(a, 0) == a
  {
  }

  lemma OrStep(x: nat, b: nat)
    requires Or(x, b / 2) == x + b / 2
    ensures Or(2 * x, b) == 2 * x + b
  {
    if x != 0 && b != 0 {
      assert 2 * x / 2 == x && 2 * x % 2 == 0;
    }
  }

  lemma {:induction false} OrAtLeast(a: nat, b: nat)
    ensures Or(a, b) >= a
  {
    if a != 0 && b != 0 {
      OrAtLeast(a / 2, b / 2);
    }
  }

  // The fields are those of the packed words, month 0 and day 0 made 1.
  lemma FieldsOf(e: Entry)
    requires e.date < 0x1_0000 && e.time < 0x1_0000
    ensures Year(e) * 512 + Month(e) * 32 + Day(e) == Shown(e.date)
    ensures Hour(e) * 2048 + Minute(e) * 32 + e.time % 32 == e.time
    ensures Year(e) < 128 && Month(e) < 16 && Day(e) < 32 && Hour(e) < 32 && Minute(e) < 64
  {
    DateParts(e.date);
    TimeParts(e.time);
  }

  lemma DateParts(date: nat)
    requires date < 0x1_0000
    ensures date / 512 % 128 == date / 512 < 128
    ensures date / 512 * 512 + date / 32 % 16 * 32 + date % 32 == date
  {
    var q := date / 32;
    assert q / 16 == date / 512;
    assert q == q / 16 * 16 + q % 16 && date == q * 32 + date % 32;
  }

  lemma TimeParts(time: nat)
    requires time < 0x1_0000
    ensures time / 2048 % 32 == time / 2048 < 32
    ensures time / 2048 * 2048 + time / 32 % 64 * 32 + time % 32 == time
  {
    var q := time / 32;
    assert q / 64 == time / 2048;
    assert q == q / 64 * 64 + q % 64 && time == q * 32 + time % 32;
  }

  // A date as it is listed, with a month and a day.
  function Shown(date: nat): nat {
    date + (if date / 32 % 16 == 0 then 32 else 0) + if date % 32 == 0 then 1 else 0
  }

  // The date arrives, month 0 and day 0 made 1, exactly if it was printed with its year:
  // otherwise the hour is taken for the year.
  lemma DateArrives(e: Entry, curYear: nat)
    requires Printable(e) && e.date < 0x1_0000 && e.time < 0x1_0000
    ensures Seen(e, curYear).date == Shown(e.date) <==> Year(e) != curYear
  {
    hide Date, Shown;
    FieldsOf(e);
    hide Year, Month, Day, Hour;
    YearDate(Year(e), Month(e), Day(e));
    HourDate(Hour(e), Month(e), Day(e));
  }

  lemma YearDate(y: nat, m: nat, d: nat)
    requires y < 128 && m < 16 && d < 32
    ensures Date(y + 1980, m, d) == y * 512 + m * 32 + d
  {
    hide Or;
    var high := (y + 1980 - 1980) % WORD * 512 % WORD;
    assert high == y * 512;
    OrBits(y, m);
    OrFive(y * 16 + m, d);
  }

  lemma OrBits(y: nat, m: nat)
    requires m < 16
    ensures Or(y * 512, m * 32) == (y * 16 + m) * 32
  {
    hide Or;
    assert Pow2(9) == 512;
    OrDisjoint(y, 9, m * 32);
  }

  lemma OrFive(a: nat, d: nat)
    requires d < 32
    ensures Or(a * 32, d) == a * 32 + d
  {
    hide Or;
    assert Pow2(5) == 32;
    OrDisjoint(a, 5, d);
  }

  lemma HourDate(hour: nat, m: nat, d: nat)
    requires hour < 32
    ensures Date(hour, m, d) > 0x10000
  {
    hide Or;
    var high := (hour - 1980) % WORD * 512 % WORD;
    HourAsYear(hour);
    OrAtLeast(high, m * 32);
    OrAtLeast(Or(high, m * 32), d);
  }

  lemma HourAsYear(hour: nat)
    requires hour < 32
    ensures (hour - 1980) % WORD * 512 % WORD == WORD - (1980 - hour) * 512 > 0x10000
  {
    assert (hour - 1980) % WORD == WORD - (1980 - hour);
    assert (WORD - (1980 - hour)) * 512 == 511 * WORD + (WORD - (1980 - hour) * 512);
  }

  // ---------------------------------------------------- lines out of pieces

  // sizeof(line_buf) - 1.
  const LONGEST: nat := 511

  // The line begun and the lines ended by a text that follows begun.
  datatype Fed = Fed(begun: string, lines: seq<string>)

  function Feed(begun: string, t: string): Fed
    decreases |t|
  {
    if t == "" then Fed(begun, [])
    else if t[0] == '\r' then Feed(begun, t[1..])
    else if t[0] == '\n' then
      var f := Feed("", t[1..]);
      Fed(f.begun, (if begun == "" then [] else [begun]) + f.lines)
    else Feed(if |begun| < LONGEST then begun + [t[0]] else begun, t[1..])
  }

  // It makes no difference where a text is cut.
  lemma {:induction false} FeedCut(begun: string, s: string, t: string)
    ensures var f := Feed(begun, s);
      Feed(begun, s + t) == Fed(Feed(f.begun, t).begun, f.lines + Feed(f.begun, t).lines)
    decreases |s|
  {
    if s == "" {
      assert s + t == t;
      assert [] + Feed(begun, t).lines == Feed(begun, t).lines;
    } else {
      assert (s + t)[1..] == s[1..] + t;
      if s[0] == '\r' {
        FeedCut(begun, s[1..], t);
      } else if s[0] == '\n' {
        FeedCut("", s[1..], t);
      } else {
        FeedCut(if |begun| < LONGEST then begun + [s[0]] else begun, s[1..], t);
      }
    }
  }

  predicate OneLine(t: string) {
    forall i :: 0 <= i < |t| ==> t[i] != '\r' && t[i] != '\n'
  }

  lemma {:induction false} FeedLine(begun: string, line: string)
    requires OneLine(line) && |begun| + |line| <= LONGEST
    ensures Feed(begun, line) == Fed(begun + line, [])
    decreases |line|
  {
    if line == "" {
      assert begun + line == begun;
    } else {
      FeedLine(begun + [line[0]], line[1..]);
      assert begun + [line[0]] + line[1..] == begun + line;
    }
  }

  function ParseAll(lines: seq<string>): (r: seq<Obj>)
    ensures |r| == |lines| && forall i :: 0 <= i < |r| ==> r[i] == ParseLine(lines[i])
  {
    seq(|lines|, i requires 0 <= i < |lines| => ParseLine(lines[i]))
  }

  lemma ParseMore(a: seq<string>, b: seq<string>)
    ensures ParseAll(a + b) == ParseAll(a) + ParseAll(b)
  {
    hide ParseLine;
  }

  lemma LeadsNowhere(begun: string, list: seq<Obj>)
    ensures Leads(begun, list, "", begun, list)
  {
  }

  // From a line begun and a list, a text leads to another line begun and a longer list.
  ghost predicate Leads(begun: string, list: seq<Obj>, t: string, begun': string, list': seq<Obj>) {
    begun' == Feed(begun, t).begun && list' == list + ParseAll(Feed(begun, t).lines)
  }

  lemma LeadsOn(begun: string, list: seq<Obj>, s: string, b: string, l: seq<Obj>,
                t: string, begun': string, list': seq<Obj>)
    requires Leads(begun, list, s, b, l) && Leads(b, l, t, begun', list')
    ensures Leads(begun, list, s + t, begun', list')
  {
    hide Feed, ParseAll, ParseLine;
    FeedCut(begun, s, t);
    ParseMore(Feed(begun, s).lines, Feed(b, t).lines);
    SeqAssoc(list, ParseAll(Feed(begun, s).lines), ParseAll(Feed(b, t).lines));
  }

  class Lister {
    const lineBuf: array<char>
    var lineLen: nat
    var list: seq<Obj>

    ghost predicate Valid()
      reads this
    {
      lineBuf.Length == LONGEST + 1 && lineLen <= LONGEST
    }

    ghost function Begun(): string
      requires Valid()
      reads this, lineBuf
    {
      lineBuf[..lineLen]
    }

    constructor ()
      ensures Valid() && fresh(lineBuf) && Begun() == "" && list == []
    {
      lineBuf := new char[LONGEST + 1];
      lineLen, list := 0, [];
    }

    // lv_lwftp_dir_read_cb: one piece of the listing.
    method Receive(piece: string)
      requires Valid()
      modifies this, lineBuf
      ensures Valid() && Leads(old(Begun()), old(list), piece, Begun(), list)
    {
      hide Leads;
      LeadsNowhere(Begun(), list);
      for i := 0 to |piece|
        invariant Valid() && Leads(old(Begun()), old(list), piece[..i], Begun(), list)
      {
        ghost var b, l := Begun(), list;
        Take(piece[i]);
        LeadsOn(old(Begun()), old(list), piece[..i], b, l, [piece[i]], Begun(), list);
        assert piece[..i + 1] == piece[..i] + [piece[i]];
      }
      assert piece[..|piece|] == piece;
    }

    method Take(c: char)
      requires Valid()
      modifies this, lineBuf
      ensures Valid() && Leads(old(Begun()), old(list), [c], Begun(), list)
    {
      if c == '\r' {
        return;
      }
      if c == '\n' {
        if lineLen > 0 {
          list := list + [ParseLine(lineBuf[..lineLen])];
        }
        lineLen := 0;
      } else if lineLen < LONGEST {
        lineBuf[lineLen] := c;
        lineLen := lineLen + 1;
      }
    }

    // A listing in pieces, however it is cut.
    method ReceiveAll(pieces: seq<string>)
      requires Valid()
      modifies this, lineBuf
      ensures Valid() && Leads(old(Begun()), old(list), Joined(pieces), Begun(), list)
    {
      hide Leads;
      LeadsNowhere(Begun(), list);
      for i := 0 to |pieces|
        invariant Valid() && Leads(old(Begun()), old(list), Joined(pieces[..i]), Begun(), list)
      {
        ghost var b, l := Begun(), list;
        Receive(pieces[i]);
        LeadsOn(old(Begun()), old(list), Joined(pieces[..i]), b, l, pieces[i], Begun(), list);
        assert pieces[..i + 1][..i] == pieces[..i];
      }
      assert pieces[..|pieces|] == pieces;
    }

    // LIST end to end: the entries of a directory come out as they were printed.
    method ReceiveListing(entries: seq<Entry>, curYear: nat, pieces: seq<string>)
      requires Valid() && Begun() == "" && AllListable(entries)
      requires Joined(pieces) == Listing(entries, curYear)
      modifies this, lineBuf
      ensures Valid() && Begun() == "" && |list| == old(|list|) + |entries|
      ensures list[..old(|list|)] == old(list)
      ensures forall i :: 0 <= i < |entries| ==> list[old(|list|) + i] == Seen(entries[i], curYear)
    {
      ListingFed(entries, curYear);
      ReceiveAll(pieces);
    }
  }

  function Joined(pieces: seq<string>): string {
    if pieces == [] then "" else Joined(pieces[..|pieces| - 1]) + pieces[|pieces| - 1]
  }

  // Entries whose line fits in the buffer, and whose name is not blank.
  predicate Listable(e: Entry) {
    Printable(e) && Trim(e.name) != "" && OneLine(e.name) && |e.name| <= 255
  }

  predicate AllListable(entries: seq<Entry>) {
    forall i :: 0 <= i < |entries| ==> Listable(entries[i])
  }

  // What the server prints for a directory.
  function Listing(entries: seq<Entry>, curYear: nat): string
    requires AllListable(entries)
  {
    if entries == [] then "" else Line(entries[0], curYear) + "\r\n" + Listing(entries[1..], curYear)
  }

  lemma {:induction false} ListingFed(entries: seq<Entry>, curYear: nat)
    requires AllListable(entries)
    ensures var f := Feed("", Listing(entries, curYear));
      && f.begun == "" && |f.lines| == |entries|
      && forall i :: 0 <= i < |entries| ==> ParseLine(f.lines[i]) == Seen(entries[i], curYear)
  {
    hide Feed, Line, ParseLine, Seen;
    if entries == [] {
      FeedNothing();
    } else {
      var e, rest := entries[0], Listing(entries[1..], curYear);
      ListingFed(entries[1..], curYear);
      EntryFed(e, curYear, rest);
      LineRoundTrip(e, curYear);
      var tail := Feed("", rest).lines;
      forall i | 0 <= i < |entries| ensures ParseLine(([Line(e, curYear)] + tail)[i]) == Seen(entries[i], curYear) {
        if i > 0 {
          assert ParseLine(tail[i - 1]) == Seen(entries[1..][i - 1], curYear);
        }
      }
    }
  }

  lemma FeedNothing()
    ensures Feed("", "") == Fed("", [])
  {
  }

  lemma EntryFed(e: Entry, curYear: nat, rest: string)
    requires Listable(e)
    ensures Feed("", Line(e, curYear) + "\r\n" + rest)
         == Fed(Feed("", rest).begun, [Line(e, curYear)] + Feed("", rest).lines)
  {
    hide Feed, Line;
    var line := Line(e, curYear);
    LineShape(e, curYear);
    FeedLine("", line);
    assert "" + line == line;
    FeedEnd(line, rest);
    FeedCut("", line, "\r\n" + rest);
    assert line + "\r\n" + rest == line + ("\r\n" + rest);
  }

  lemma FeedEnd(line: string, rest: string)
    requires line != ""
    ensures Feed(line, "\r\n" + rest) == Fed(Feed("", rest).begun, [line] + Feed("", rest).lines)
  {
    assert ("\r\n" + rest)[1..] == "\n" + rest;
    assert ("\n" + rest)[1..] == rest;
  }

  lemma LineShape(e: Entry, curYear: nat)
    requires Listable(e)
    ensures 0 < |Line(e, curYear)| <= LONGEST && OneLine(Line(e, curYear))
  {
    hide Head, Tail, Words;
    HeadShort(e);
    TailShort(e, curYear);
    WordsShape(Head(e), Tail(e, curYear));
  }

  predicate Short(w: string, n: nat) {
    OneLine(w) && |w| <= n
  }

  lemma {:induction false} WordsShape(words: seq<string>, last: string)
    requires OneLine(last) && forall i :: 0 <= i < |words| ==> Short(words[i], 11)
    ensures OneLine(Words(words, last)) && |words| <= |Words(words, last)| <= 12 * |words| + |last|
  {
    if words != [] {
      WordsShape(words[1..], last);
    }
  }

  lemma NumberShort(n: nat, k: nat, c: char, width: nat)
    requires n < Pow10(k) && 0 < k <= width && c != '\r' && c != '\n'
    ensures Short(Padded(Print(n), c, width), width)
  {
    PrintWidth(n, k);
    PaddedShort(Print(n), c, width);
  }

  lemma {:induction false} PaddedShort(s: string, c: char, width: nat)
    requires Short(s, width) && c != '\r' && c != '\n'
    ensures Short(Padded(s, c, width), width)
    decreases width - |s|
  {
    if |s| < width {
      PaddedShort([c] + s, c, width);
    }
  }

  lemma HeadShort(e: Entry)
    requires Printable(e)
    ensures |Head(e)| == 7 && forall i :: 0 <= i < 7 ==> Short(Head(e)[i], 11)
  {
    hide Padded, Print;
    assert Pow10(3) == 1000;
    assert Pow10(6) == 1000000;
    assert Pow10(9) == 1000000000;
    NumberShort(e.size, 10, ' ', 11);
    assert Pow10(2) == 100;
    NumberShort(Day(e), 2, '0', 2);
    assert Short(MONTHS[Month(e) - 1], 11);
  }

  lemma TailShort(e: Entry, curYear: nat)
    requires Listable(e)
    ensures OneLine(Tail(e, curYear)) && |Tail(e, curYear)| <= 6 + |e.name|
  {
    hide Padded, Print;
    assert Pow10(2) == 100 && Pow10(4) == 10000;
    NumberShort(Hour(e), 2, '0', 2);
    NumberShort(Minute(e), 2, '0', 2);
    NumberShort(Year(e) + 1980, 4, ' ', 5);
  }
}
