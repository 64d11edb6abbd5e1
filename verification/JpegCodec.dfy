// The two double buffers between the main loop and the JPEG peripheral: the main loop
// refills input slots and converts output slots, interrupt callbacks empty and fill them.
module JpegCodec {
  import opened Bytes

  datatype Slot = Slot(full: bool, data: seq<byte>)

  const FREE := Slot(false, [])

  datatype Read = Got(data: seq<byte>) | ReadError

  // Where the main loop stands in jpeg_decoder_io.
  datatype Pc = Check | Fill | Publish | Test | Unpause | Config | Resume | NextIn
              | Look | Convert | Release | NextOut | ResumeOut

  // A slot of the output that was converted: its first MCU, how many, and the bytes.
  datatype Drawn = Drawn(mcu: nat, count: nat, data: seq<byte>)

  // What can happen next: a step of the main loop, with the answer of read_cb and the
  // number of MCUs in the slot it converts, or a callback of the peripheral.
  datatype Move = Main(read: Read, mcus: nat) | Info(total: nat) | GetData(n: nat) | DataReady(block: seq<byte>)

  // The slots hold the items from number taken on, at most two: the first in slot read,
  // the second in the other one.  Slots without an item are not full.
  ghost predicate Holds(buf: seq<Slot>, both: bool, read: int, items: seq<seq<byte>>, taken: int) {
    && |buf| == 2 && 0 <= read < 2 && (both || read == 0)
    && 0 <= taken <= |items| <= taken + (if both then 2 else 1)
    && (if taken < |items| then buf[read] == Slot(true, items[taken]) else !buf[read].full)
    && (if taken + 1 < |items| then buf[1 - read] == Slot(true, items[taken + 1]) else !buf[1 - read].full)
  }

  // The slot that comes held slots after slot read.
  function Free(read: int, held: int): int {
    if held == 1 || held == -1 then 1 - read else read
  }

  lemma HoldsMore(buf: seq<Slot>, both: bool, read: int, items: seq<seq<byte>>, taken: int, item: seq<byte>)
    requires Holds(buf, both, read, items, taken) && (both || taken == |items|)
    requires !buf[Free(read, |items| - taken)].full
    ensures Holds(buf[Free(read, |items| - taken) := Slot(true, item)], both, read, items + [item], taken)
  {
  }

  lemma HoldsHead(buf: seq<Slot>, both: bool, read: int, items: seq<seq<byte>>, taken: int)
    requires Holds(buf, both, read, items, taken)
    ensures buf[read].full <==> taken < |items|
    ensures taken < |items| ==> buf[read].data == items[taken]
  {
  }

  lemma HoldsLess(buf: seq<Slot>, both: bool, read: int, items: seq<seq<byte>>, taken: int)
    requires Holds(buf, both, read, items, taken) && taken < |items|
    ensures Holds(buf[read := FREE], both, if both then 1 - read else read, items, taken + 1)
  {
  }

  lemma HoldsOther(buf: seq<Slot>, both: bool, read: int, items: seq<seq<byte>>, taken: int, i: int, data: seq<byte>)
    requires Holds(buf, both, read, items, taken) && 0 <= i < 2 && !buf[i].full
    ensures Holds(buf[i := Slot(false, data)], both, read, items, taken)
  {
  }

  // Input: chunks are those published by the main loop, and the peripheral has used up
  // the first eaten of them.
  datatype Input = Input(buf: seq<Slot>, read: int, write: int, pause: bool, feeding: bool, from: nat)

  ghost predicate InputOk(i: Input, both: bool, pc: Pc, chunks: seq<seq<byte>>, eaten: int) {
    var held := |chunks| - eaten;
    && Holds(i.buf, both, i.read, chunks, eaten)
    && |i.buf| == 2 && 0 <= i.read < 2 && 0 <= held <= 2 && (both || i.read == 0)
    && (held > 0 ==> i.buf[i.read] == Slot(true, chunks[eaten]))
    && (if both then i.write == Free(i.read, if Published(pc) then held - 1 else held)
        else i.write == 0 && |chunks| == 1 && !pc.Fill? && !pc.Publish? && !Published(pc))
    && (pc.Fill? || pc.Publish? ==> !i.buf[i.write].full)
    && (if i.feeding then
          !i.pause && held > 0 && i.from <= |chunks[eaten]| && !Resuming(pc)
        else
          && (i.pause <==> !(pc.Config? || pc.Resume?))
          && (if Resuming(pc) then held == 1 else held <= if pc.Test? then 1 else 0)
          && i.from == 0)
  }

  // The main loop has filled a slot and not yet gone to the other one.
  predicate Published(pc: Pc) {
    pc.Test? || Resuming(pc) || pc.NextIn?
  }

  predicate Resuming(pc: Pc) {
    pc.Unpause? || pc.Config? || pc.Resume?
  }

  // Output: blocks are those the peripheral has written.
  datatype Output = Output(buf: seq<Slot>, read: int, write: int, pause: bool, drawing: bool)

  ghost predicate OutputOk(o: Output, pc: Pc, blocks: seq<seq<byte>>, gone: int) {
    var held := |blocks| - gone;
    var first := if pc.NextOut? then 1 - o.read else o.read;
    && Holds(o.buf, true, first, blocks, gone)
    && |o.buf| == 2 && 0 <= o.read < 2 && 0 <= held <= 2
    && (pc.Convert? ==> held > 0 && o.buf[o.read].data == blocks[gone])
    && o.write == Free(first, held)
    && (pc.Release? ==> held > 0)
    && (if o.drawing then !o.pause && held <= 1 && !pc.ResumeOut?
        else (o.pause <==> !pc.ResumeOut?) && (pc.ResumeOut? ==> held == 0))
  }

  // The converted slots are the blocks in order, each placed behind those before it.
  ghost predicate Placed(converted: seq<Drawn>, blocks: seq<seq<byte>>, next: nat) {
    var n := |converted|;
    n <= |blocks| &&
    if n == 0 then next == 0
    else
      var last := converted[n - 1];
      last.data == blocks[n - 1] && next == last.mcu + last.count && Placed(converted[..n - 1], blocks, last.mcu)
  }

  lemma PlacedMore(converted: seq<Drawn>, blocks: seq<seq<byte>>, next: nat, count: nat)
    requires Placed(converted, blocks, next) && |converted| < |blocks|
    ensures Placed(converted + [Drawn(next, count, blocks[|converted|])], blocks, next + count)
  {
    var more := converted + [Drawn(next, count, blocks[|converted|])];
    assert more[..|more| - 1] == converted;
  }

  lemma {:induction false} PlacedLonger(converted: seq<Drawn>, blocks: seq<seq<byte>>, next: nat, block: seq<byte>)
    requires Placed(converted, blocks, next)
    ensures Placed(converted, blocks + [block], next)
  {
    if converted != [] {
      var n := |converted|;
      PlacedLonger(converted[..n - 1], blocks, converted[n - 1].mcu, block);
    }
  }

  function Counts(converted: seq<Drawn>): nat {
    if converted == [] then 0 else Counts(converted[..|converted| - 1]) + converted[|converted| - 1].count
  }

  // The k-th converted slot is the k-th block, drawn from the MCU after all before it.
  lemma {:induction false} PlacedAt(converted: seq<Drawn>, blocks: seq<seq<byte>>, next: nat, k: nat)
    requires Placed(converted, blocks, next)
    ensures next == Counts(converted)
    ensures k < |converted| ==>
      converted[k].data == blocks[k] && converted[k].mcu == Counts(converted[..k])
  {
    var n := |converted|;
    if n > 0 {
      PlacedAt(converted[..n - 1], blocks, converted[n - 1].mcu, k);
      if k < n - 1 {
        assert converted[..n - 1][..k] == converted[..k];
      }
    }
  }

  // The peripheral was given the chunks in order, each byte once: all of the first eaten
  // chunks, and from bytes of the next.
  ghost predicate Tasted(taken: seq<byte>, chunks: seq<seq<byte>>, eaten: int, from: nat) {
    && 0 <= eaten <= |chunks| && from <= |Current(chunks, eaten)|
    && taken == Flat(chunks[..eaten]) + Current(chunks, eaten)[..from]
  }

  ghost function Current(chunks: seq<seq<byte>>, eaten: int): seq<byte> {
    if 0 <= eaten < |chunks| then chunks[eaten] else []
  }

  // excess bytes too many were given; without them, all are in order.
  ghost predicate Tasting(taken: seq<byte>, chunks: seq<seq<byte>>, eaten: int, from: nat, excess: nat) {
    && 0 <= eaten <= |chunks| && from <= |Current(chunks, eaten)|
    && |taken| == |Flat(chunks[..eaten])| + from + excess
    && (excess == 0 ==> Tasted(taken, chunks, eaten, from))
  }

  lemma TastingStarts(chunks: seq<seq<byte>>)
    ensures Tasting([], chunks, 0, 0, 0)
  {
  }

  lemma TastingMore(taken: seq<byte>, chunks: seq<seq<byte>>, eaten: int, from: nat, excess: nat, chunk: seq<byte>)
    requires Tasting(taken, chunks, eaten, from, excess)
    ensures Tasting(taken, chunks + [chunk], eaten, from, excess)
  {
    assert (chunks + [chunk])[..eaten] == chunks[..eaten];
  }

  // n more bytes from the window; the next window starts at byte n of the chunk, or the
  // chunk is used up.  A window that did not start at the chunk's first byte gives bytes
  // a second time.
  lemma TastingOn(taken: seq<byte>, chunks: seq<seq<byte>>, eaten: int, from: nat, excess: nat, n: nat)
    requires Tasting(taken, chunks, eaten, from, excess) && eaten < |chunks| && from + n <= |chunks[eaten]|
    ensures var more := taken + chunks[eaten][from..from + n];
      if n == |chunks[eaten]| then Tasting(more, chunks, eaten + 1, 0, excess)
      else Tasting(more, chunks, eaten, n, excess + from)
  {
    var now := chunks[eaten];
    FlatMore(chunks, eaten);
    hide Flat;
    assert now[..from] + now[from..from + n] == now[..from + n];
    assert Flat(chunks[..eaten]) + now[..from] + now[from..from + n] == Flat(chunks[..eaten]) + now[..from + n];
    if n == |now| {
      assert now[..from + n] == now && from == 0;
      assert Flat(chunks[..eaten + 1]) + [] == Flat(chunks[..eaten + 1]);
    }
  }

  lemma TastedOnly(taken: seq<byte>, chunks: seq<seq<byte>>, eaten: int, from: nat, excess: nat)
    requires Tasting(taken, chunks, eaten, from, excess)
    ensures Tasted(taken, chunks, eaten, from) <==> excess == 0
  {
  }

  // The part of jpeg_decoder_io that refills the input.
  predicate AtInput(pc: Pc) {
    pc.Check? || pc.Fill? || pc.Publish? || Published(pc)
  }

  // Neither side depends on where the main loop is in the other part.
  lemma OutputQuiet(o: Output, pc: Pc, pc': Pc, blocks: seq<seq<byte>>, gone: int)
    requires OutputOk(o, pc, blocks, gone) && AtInput(pc) && (AtInput(pc') || pc'.Look?)
    ensures OutputOk(o, pc', blocks, gone)
  {
  }

  lemma InputQuiet(i: Input, both: bool, pc: Pc, pc': Pc, chunks: seq<seq<byte>>, eaten: int)
    requires InputOk(i, both, pc, chunks, eaten) && !AtInput(pc) && (!AtInput(pc') || pc'.Check?)
    ensures InputOk(i, both, pc', chunks, eaten)
  {
  }

  // Full input slots and empty output slots, and the peripheral on both of its first ones.
  function FirstInput(both: bool, chunks: seq<seq<byte>>): Input
    requires |chunks| == if both then 2 else 1
  {
    Input([Slot(true, chunks[0]), if both then Slot(true, chunks[1]) else FREE], 0, 0, false, true, 0)
  }

  const FIRST_OUTPUT := Output([FREE, FREE], 0, 0, false, true)

  lemma InputStarts(both: bool, chunks: seq<seq<byte>>)
    requires |chunks| == if both then 2 else 1
    ensures InputOk(FirstInput(both, chunks), both, Check, chunks, 0)
    ensures FirstInput(both, chunks).feeding && FirstInput(both, chunks).from == 0
  {
  }

  lemma OutputStarts(blocks: seq<seq<byte>>, converted: seq<Drawn>)
    requires blocks == [] && converted == []
    ensures OutputOk(FIRST_OUTPUT, Check, blocks, Gone(converted, Check)) && FIRST_OUTPUT.drawing
    ensures Placed(converted, blocks, 0)
  {
  }

  // The input side, with the chunks read, published and used up.
  ghost predicate Feeding(both: bool, pc: Pc, input: Input, got: seq<seq<byte>>, chunks: seq<seq<byte>>,
                          eaten: nat, taken: seq<byte>, slipped: bool, excess: nat) {
    && InputOk(input, both, pc, chunks, eaten)
    && Tasting(taken, chunks, eaten, input.from, excess) && (slipped <==> excess > 0)
    && if pc.Publish? then got == chunks + [input.buf[input.write].data] else got == chunks
  }

  // The slot with the peripheral is the oldest chunk that is not used up.
  lemma SlotFed(i: Input, both: bool, pc: Pc, chunks: seq<seq<byte>>, eaten: int)
    requires InputOk(i, both, pc, chunks, eaten) && i.feeding
    ensures |i.buf| == 2 && 0 <= i.read < 2 && 0 <= eaten < |chunks| && i.buf[i.read] == Slot(true, chunks[eaten])
    ensures i.from <= |chunks[eaten]| && (!both ==> i.read == 0)
    ensures pc.Publish? ==> 0 <= i.write < 2 && i.write != i.read
  {
  }

  // Used up: the peripheral is with the other slot, and stops if that holds nothing.
  lemma SlotGone(i: Input, j: Input, both: bool, pc: Pc, chunks: seq<seq<byte>>, eaten: int)
    requires InputOk(i, both, pc, chunks, eaten) && i.feeding
    requires |i.buf| == 2 && 0 <= i.read < 2 && j.buf == i.buf[i.read := FREE]
    requires j.write == i.write && j.from == 0 && j.read == if both then 1 - i.read else i.read
    requires if j.buf[j.read].full then j.feeding && j.pause == i.pause else j.pause && !j.feeding
    ensures InputOk(j, both, pc, chunks, eaten + 1) && (j.feeding <==> eaten + 1 < |chunks|)
  {
    hide Holds;
    HoldsLess(i.buf, both, i.read, chunks, eaten);
    HoldsHead(j.buf, both, j.read, chunks, eaten + 1);
  }

  lemma PartGone(i: Input, both: bool, pc: Pc, chunks: seq<seq<byte>>, eaten: int, n: nat)
    requires InputOk(i, both, pc, chunks, eaten) && i.feeding && 0 <= eaten < |chunks| && n < |chunks[eaten]|
    ensures InputOk(i.(from := n), both, pc, chunks, eaten)
  {
    hide Holds;
  }

  // The output side.
  ghost predicate Drawing(pc: Pc, output: Output, blocks: seq<seq<byte>>, converted: seq<Drawn>, mcuValue: nat) {
    && OutputOk(output, pc, blocks, Gone(converted, pc))
    && Placed(converted, blocks, mcuValue)
  }

  lemma CodecStarts(both: bool, all: seq<seq<byte>>)
    requires |all| == if both then 2 else 1
    ensures Feeding(both, Check, FirstInput(both, all), all, all, 0, [], false, 0)
    ensures Drawing(Check, FIRST_OUTPUT, [], [], 0)
    ensures FirstInput(both, all).feeding && FirstInput(both, all).from == 0 && FIRST_OUTPUT.drawing
  {
    hide InputOk, OutputOk, Placed, Tasting, Gone;
    TastingStarts(all);
    InputStarts(both, all);
    OutputStarts([], []);
  }

  class Codec {
    // Whether there are two input slots (the internal buffer), and interrupt mode.
    const both: bool
    const it: bool
    var input: Input
    var output: Output
    var mcuTotal: nat
    var mcuValue: nat
    var idle: bool
    var pc: Pc
    // What read_cb gave, and what of it was published and used up; the bytes used up,
    // and whether the peripheral ever went on after using a part of its window only.
    ghost var got: seq<seq<byte>>
    ghost var chunks: seq<seq<byte>>
    ghost var eaten: nat
    ghost var taken: seq<byte>
    ghost var slipped: bool
    ghost var excess: nat
    ghost var blocks: seq<seq<byte>>
    ghost var converted: seq<Drawn>

    ghost predicate Valid()
      reads this
    {
      && Feeding(both, pc, input, got, chunks, eaten, taken, slipped, excess)
      && Drawing(pc, output, blocks, converted, mcuValue)
    }

    constructor (both: bool, it: bool)
      ensures this.both == both && this.it == it
    {
      this.both, this.it := both, it;
    }

    // jpeg_decoder_start with the answers of its calls of read_cb.
    method Start(first: Read, second: Read) returns (ok: bool)
      modifies this
      ensures ok <==> first.Got? && (both ==> second.Got?)
      ensures ok ==> Started() && input.from == 0 && chunks == if both then [first.data, second.data] else [first.data]
    {
      mcuValue, mcuTotal, idle, pc := 0, 0, true, Check;
      if first.ReadError? || (both && second.ReadError?) {
        return false;
      }
      Launch(if both then [first.data, second.data] else [first.data]);
      ok := true;
    }

    ghost predicate Started()
      reads this
    {
      && Valid() && pc.Check? && eaten == 0 && taken == [] && !slipped && converted == [] && blocks == []
      && input.feeding && output.drawing && !idle
    }

    // Full slots, and the peripheral on both of its first ones.
    method Launch(all: seq<seq<byte>>)
      requires |all| == if both then 2 else 1
      requires pc.Check? && mcuValue == 0
      modifies this`input, this`output, this`idle
      modifies this`got, this`chunks, this`eaten, this`taken, this`slipped, this`excess, this`blocks, this`converted
      ensures Started() && chunks == all && input.from == 0
    {
      hide Feeding, Drawing, FirstInput;
      CodecStarts(both, all);
      input := FirstInput(both, all);
      output := FIRST_OUTPUT;
      got, chunks, eaten, taken, slipped, excess, blocks, converted := all, all, 0, [], false, 0, [], [];
      idle := false;
    }

    // Where the main loop goes after the input part.
    function ToOutput(): Pc {
      if it then Look else Check
    }

    // Refilling the input slot that is next, if it is free.
    method Refill(read: Read)
      requires Valid() && (pc.Check? || pc.Fill?)
      modifies this`input, this`pc, this`got
      ensures Valid() && input == old(input).(buf := input.buf)
      ensures input.feeding ==> input.buf[input.read] == old(input.buf[input.read])
      ensures old(pc).Check? ==> pc == if both && !old(input.buf[input.write].full) then Fill else ToOutput()
      ensures old(pc).Fill? ==>
        if read.Got? then pc.Publish? && input.buf[input.write].data == read.data else pc.Check?
    {
      hide OutputOk, Holds, Placed, Tasting;
      var i := input;
      ghost var was := pc;
      if pc.Check? {
        pc := if both && !i.buf[i.write].full then Fill else ToOutput();
      } else {
        match read {
          case ReadError => pc := Check;
          case Got(data) =>
            HoldsOther(i.buf, both, i.read, chunks, eaten, i.write, data);
            input, pc := i.(buf := i.buf[i.write := Slot(false, data)]), Publish;
            got := got + [data];
        }
      }
      OutputQuiet(output, was, pc, blocks, |converted|);
    }

    // Marking it full.
    method PublishSlot()
      requires Valid() && pc.Publish?
      modifies this`input, this`pc, this`chunks
      ensures Valid() && pc.Test? && input == old(input).(buf := input.buf)
      ensures input.feeding ==> input.buf[input.read] == old(input.buf[input.read])
      ensures chunks == old(chunks) + [old(input.buf[input.write].data)]
    {
      hide OutputOk, Holds, Placed, Tasting;
      var i := input;
      HoldsMore(i.buf, both, i.read, chunks, eaten, i.buf[i.write].data);
      TastingMore(taken, chunks, eaten, i.from, excess, i.buf[i.write].data);
      chunks := chunks + [i.buf[i.write].data];
      input, pc := i.(buf := i.buf[i.write := i.buf[i.write].(full := true)]), Test;
      OutputQuiet(output, Publish, pc, blocks, |converted|);
    }

    // Waking the peripheral if it waits for that slot, and going to the other one.
    method Wake()
      requires Valid() && Published(pc)
      modifies this`input, this`pc
      ensures Valid() && input.feeding == (old(input.feeding) || old(pc).Resume?) && input.from == old(input.from)
      ensures old(pc).Test? ==> pc == (if input.pause && input.write == input.read then Unpause else NextIn)
      ensures old(pc).Unpause? ==> pc.Config?
      ensures old(pc).Config? ==> pc.Resume?
      ensures old(pc).Resume? ==> pc.NextIn?
      ensures old(pc).NextIn? ==> pc == ToOutput()
      ensures old(pc).Test? ==> input == old(input)
    {
      hide OutputOk, Holds, Placed, Tasting;
      var i := input;
      ghost var was := pc;
      match pc {
        case Test =>
          pc := if i.pause && i.write == i.read then Unpause else NextIn;
        case Unpause =>
          input, pc := i.(pause := false), Config;
        case Config =>
          input, pc := i.(from := 0), Resume;
        case Resume =>
          input, pc := i.(feeding := true), NextIn;
        case NextIn =>
          input, pc := i.(write := if i.write + 1 >= 2 then 0 else i.write + 1), ToOutput();
      }
      OutputQuiet(output, was, pc, blocks, |converted|);
    }

    // The output slot that is next: is it full, and if not, does the peripheral wait?
    method LookOut()
      requires Valid() && pc.Look?
      modifies this`output, this`pc
      ensures Valid()
      ensures pc == if |converted| < |blocks| then Convert else if old(output.pause) then ResumeOut else Check
      ensures output == if pc.ResumeOut? then old(output).(pause := false) else old(output)
    {
      hide InputOk, Holds, Placed, Tasting;
      var o := output;
      HoldsHead(o.buf, true, o.read, blocks, |converted|);
      if o.buf[o.read].full {
        pc := Convert;
      } else if o.pause && !o.buf[o.read].full && !o.buf[o.write].full {
        output, pc := o.(pause := false), ResumeOut;
      } else {
        pc := Check;
      }
      InputQuiet(input, both, Look, pc, chunks, eaten);
    }

    // Converting it.
    method ConvertSlot(mcus: nat)
      requires Valid() && pc.Convert?
      modifies this`mcuValue, this`pc, this`converted
      ensures Valid() && pc.Release? && mcuValue == old(mcuValue) + mcus && old(|converted|) < |blocks|
      ensures converted == old(converted) + [Drawn(old(mcuValue), mcus, blocks[old(|converted|)])]
    {
      hide InputOk, Holds, Placed, Tasting;
      PlacedMore(converted, blocks, mcuValue, mcus);
      converted := converted + [Drawn(mcuValue, mcus, output.buf[output.read].data)];
      mcuValue, pc := mcuValue + mcus, Release;
      InputQuiet(input, both, Convert, pc, chunks, eaten);
    }

    // Waking the peripheral.
    method WakeOut()
      requires Valid() && pc.ResumeOut?
      modifies this`output, this`pc
      ensures Valid() && pc.Check? && output.drawing
    {
      hide InputOk, Holds, Placed, Tasting;
      output, pc := output.(drawing := true), Check;
      InputQuiet(input, both, ResumeOut, pc, chunks, eaten);
    }

    method FreeSlot()
      requires Valid() && (pc.Release? || pc.NextOut?)
      modifies this`output, this`idle, this`pc
      ensures Valid() && output.pause == old(output.pause) && output.drawing == old(output.drawing)
      ensures pc == if old(pc).Release? then NextOut else Check
      ensures idle == (old(idle) || (old(pc).NextOut? && mcuValue == mcuTotal))
    {
      hide InputOk, Holds, Placed, Tasting;
      var o := output;
      ghost var was := pc;
      match pc {
        case Release =>
          HoldsLess(o.buf, true, o.read, blocks, |converted| - 1);
          output, pc := o.(buf := o.buf[o.read := FREE]), NextOut;
        case NextOut =>
          output := o.(read := if o.read + 1 >= 2 then 0 else o.read + 1);
          idle, pc := idle || mcuValue == mcuTotal, Check;
      }
      InputQuiet(input, both, was, pc, chunks, eaten);
    }

    // Where a step of jpeg_decoder_io leads.
    ghost function After(pc: Pc, read: Read): Pc
      reads this
    {
      match pc
      case Check => if both && |input.buf| == 2 && 0 <= input.write < 2 && !input.buf[input.write].full then Fill
                    else ToOutput()
      case Fill => if read.Got? then Publish else Check
      case Publish => Test
      case Test => if input.pause && input.write == input.read then Unpause else NextIn
      case Unpause => Config
      case Config => Resume
      case Resume => NextIn
      case NextIn => ToOutput()
      case Look => if |converted| < |blocks| then Convert else if output.pause then ResumeOut else Check
      case Convert => Release
      case Release => NextOut
      case NextOut => Check
      case ResumeOut => Check
    }

    lemma Places()
      requires Valid()
      ensures |input.buf| == 2 && 0 <= input.write < 2
      ensures pc.Publish? ==> |got| == |chunks| + 1 && got[|chunks|] == input.buf[input.write].data
    {
    }

    // One step of jpeg_decoder_io.
    method Step(read: Read, mcus: nat)
      requires Valid()
      modifies this`input, this`output, this`mcuValue, this`idle, this`pc
      modifies this`got, this`chunks, this`converted
      ensures Valid() && pc == old(After(pc, read))
      ensures chunks == old(chunks) + if old(pc).Publish? then [old(got[|chunks|])] else []
      ensures got == old(got) + if old(pc).Fill? && read.Got? then [read.data] else []
      ensures converted == old(converted) +
        if old(pc).Convert? then [Drawn(old(mcuValue), mcus, blocks[old(|converted|)])] else []
      ensures input.feeding == (old(input.feeding) || old(pc).Resume?)
      ensures output.drawing == (old(output.drawing) || old(pc).ResumeOut?)
    {
      hide InputOk, OutputOk, Placed, Tasting;
      if pc.Look? || pc.Convert? || pc.Release? || pc.NextOut? || pc.ResumeOut? {
        OutputStep(mcus);
      } else {
        InputStep(read);
      }
    }

    method InputStep(read: Read)
      requires Valid() && (pc.Check? || pc.Fill? || pc.Publish? || Published(pc))
      modifies this`input, this`pc, this`got, this`chunks
      ensures Valid() && pc == old(After(pc, read))
      ensures chunks == old(chunks) + if old(pc).Publish? then [old(got[|chunks|])] else []
      ensures got == old(got) + if old(pc).Fill? && read.Got? then [read.data] else []
      ensures input.feeding == (old(input.feeding) || old(pc).Resume?)
    {
      hide InputOk, OutputOk, Placed, Tasting;
      Places();
      if pc.Check? || pc.Fill? {
        Refill(read);
      } else if pc.Publish? {
        PublishSlot();
      } else {
        Wake();
      }
    }

    method OutputStep(mcus: nat)
      requires Valid() && (pc.Look? || pc.Convert? || pc.Release? || pc.NextOut? || pc.ResumeOut?)
      modifies this`output, this`mcuValue, this`idle, this`pc, this`converted
      ensures Valid() && pc == old(After(pc, ReadError))
      ensures converted == old(converted) +
        if old(pc).Convert? then [Drawn(old(mcuValue), mcus, blocks[old(|converted|)])] else []
      ensures output.drawing == (old(output.drawing) || old(pc).ResumeOut?)
    {
      hide InputOk, OutputOk, Placed, Tasting;
      if pc.Release? || pc.NextOut? {
        FreeSlot();
      } else if pc.Look? {
        LookOut();
      } else if pc.Convert? {
        ConvertSlot(mcus);
      } else {
        WakeOut();
      }
    }

    // Between the refills, a paused input has nothing left in either slot, and the slot
    // it waits for is the next to be refilled.
    lemma PausedIsEmpty()
      requires Valid() && input.pause && both && !Published(pc)
      ensures !input.buf[0].full && !input.buf[1].full && eaten == |chunks|
      ensures 0 <= input.write < 2 && input.write == input.read
    {
    }

    // A slot of the input can be refilled.
    ghost predicate Short()
      reads this`chunks, this`eaten
    {
      both && |chunks| < eaten + 2
    }

    // Between calls of jpeg_decoder_io it is the slot that is next; and an input that does
    // not run has such a slot.
    lemma ShortNow()
      requires Valid() && pc.Check?
      ensures |input.buf| == 2 && 0 <= input.write < 2 && got == chunks
      ensures both && !input.buf[input.write].full <==> Short()
      ensures both && !input.feeding ==> Short() && input.pause
      ensures input.pause ==> !input.feeding && (both ==> |chunks| == eaten)
    {
    }

    // A whole call of jpeg_decoder_io that no callback interrupts.  If the input was
    // paused it goes on with the chunk just read; a full output slot is converted, and
    // once there is none a paused output goes on.
    method Io(read: Read, mcus: nat)
      requires Valid() && pc.Check?
      modifies this`input, this`output, this`mcuValue, this`idle, this`pc
      modifies this`got, this`chunks, this`converted
      ensures Valid() && pc.Check?
      ensures chunks == old(chunks) + if old(Short()) && read.Got? then [read.data] else []
      ensures input.feeding == (old(input.feeding) || (old(Short()) && read.Got?)) && input.from == old(input.from)
      ensures old(input.pause) && both && read.Got? ==>
        input.from == 0 && eaten < |chunks| && input.buf[input.read] == Slot(true, read.data)
      ensures var full := it && old(|converted|) < |blocks| && !(old(Short()) && read.ReadError?);
        && converted == old(converted) +
             (if full then [Drawn(old(mcuValue), mcus, blocks[old(|converted|)])] else [])
        && mcuValue == old(mcuValue) + (if full then mcus else 0)
        && idle == (old(idle) || (full && mcuValue == mcuTotal))
        && (full ==> output.pause == old(output.pause) && output.drawing == old(output.drawing))
        && (it && read.Got? && !full && old(output.pause) ==> output.drawing)
        && (old(output.drawing) ==> output.drawing)
    {
      hide InputOk, OutputOk, Placed, Tasting, Short;
      ShortNow();
      InputPart(read);
      if pc.Look? {
        LookOut();
        if pc.Convert? {
          ConvertSlot(mcus);
          FreeSlot();
          FreeSlot();
        } else if pc.ResumeOut? {
          WakeOut();
        }
      }
    }

    method InputPart(read: Read)
      requires Valid() && pc.Check?
      modifies this`input, this`pc, this`got, this`chunks
      ensures Valid() && pc == if old(Short()) && read.ReadError? then Check else ToOutput()
      ensures chunks == old(chunks) + if old(Short()) && read.Got? then [read.data] else []
      ensures input.feeding == (old(input.feeding) || (old(Short()) && read.Got?)) && input.from == old(input.from)
      ensures old(input.pause) && both && read.Got? ==>
        input.from == 0 && eaten < |chunks| && input.buf[input.read] == Slot(true, read.data)
    {
      hide InputOk, OutputOk, Placed, Tasting, Short;
      ShortNow();
      if input.pause && both {
        PausedIsEmpty();
      }
      Refill(read);
      if pc.Fill? {
        Refill(read);
        if pc.Publish? {
          PublishSlot();
          WakePart();
        }
      }
    }

    method WakePart()
      requires Valid() && pc.Test?
      modifies this`input, this`pc
      ensures Valid() && pc == ToOutput()
      ensures old(input.pause) && |chunks| == eaten + 1 ==>
        input.feeding && input.from == 0 && input.buf[input.read] == Slot(true, chunks[eaten])
      ensures input.from == old(input.from) && (!old(input.pause) ==> input.feeding == old(input.feeding))
    {
      hide InputOk, OutputOk, Placed, Tasting;
      if input.pause && |chunks| == eaten + 1 {
        WaitsHere();
      }
      Wake();
      if pc.Unpause? {
        Wake();
        Wake();
        Wake();
      }
      Wake();
      Bounds();
    }

    lemma WaitsHere()
      requires Valid() && pc.Test? && input.pause && |chunks| == eaten + 1
      ensures input.write == input.read && input.from == 0
    {
    }

    // A paused output is woken by calls of jpeg_decoder_io alone, one for each slot
    // that is full and one more.
    method Drain(chunks: nat -> seq<byte>, mcus: nat -> nat) returns (calls: nat)
      requires Valid() && pc.Check? && it && output.pause
      modifies this`input, this`output, this`mcuValue, this`idle, this`pc
      modifies this`got, this`chunks, this`converted
      ensures Valid() && output.drawing && |converted| == |blocks|
      ensures calls == old(|blocks| - |converted|) + 1
    {
      hide InputOk, Placed, Tasting;
      calls := 0;
      while output.pause
        invariant Valid() && pc.Check?
        invariant if output.pause then calls + |blocks| - |converted| == old(|blocks| - |converted|)
                  else output.drawing && |converted| == |blocks| && calls == old(|blocks| - |converted|) + 1
        decreases output.pause, |blocks| - |converted|
      {
        Io(Got(chunks(calls)), mcus(calls));
        calls := calls + 1;
      }
    }

    // HAL_JPEG_InfoReadyCallback: the number of MCUs of the image is known.
    method InfoReadyCallback(total: nat)
      requires Valid()
      modifies this`mcuTotal
      ensures Valid() && mcuTotal == if it then total else old(mcuTotal)
    {
      if it {
        mcuTotal := total;
      }
    }

    // HAL_JPEG_GetDataCallback: the peripheral has used n bytes of its window.
    method GetDataCallback(n: nat)
      requires Valid() && input.feeding && input.from + n <= |input.buf[input.read].data|
      modifies this`input, this`eaten, this`taken, this`slipped, this`excess
      ensures Valid() && slipped == (old(slipped) || old(input.from) > 0)
      ensures old(input.buf[input.read]) == Slot(true, chunks[old(eaten)])
      ensures taken == old(taken) + chunks[old(eaten)][old(input.from)..old(input.from) + n]
      ensures eaten == old(eaten) + if n == |chunks[old(eaten)]| then 1 else 0
      ensures input.feeding <==> eaten < |chunks|
      ensures input.from == if n == |chunks[old(eaten)]| then 0 else n
    {
      hide InputOk, Drawing, Tasting;
      SlotFed(input, both, pc, chunks, eaten);
      if n == |input.buf[input.read].data| {
        SlotUsed();
      } else {
        PartUsed(n);
      }
    }

    method SlotUsed()
      requires Valid() && input.feeding && input.from == 0
      modifies this`input, this`eaten, this`taken, this`slipped, this`excess
      ensures Valid() && slipped == old(slipped) && eaten == old(eaten) + 1 <= |chunks|
      ensures taken == old(taken) + chunks[old(eaten)] && input.from == 0
      ensures input.feeding <==> eaten < |chunks|
    {
      hide InputOk, Drawing, Tasting;
      var i := input;
      SlotFed(i, both, pc, chunks, eaten);
      var slot := i.buf[i.read];
      TastingOn(taken, chunks, eaten, 0, excess, |slot.data|);
      assert slot.data[0..|slot.data|] == slot.data;
      taken := taken + slot.data;
      i := i.(buf := i.buf[i.read := FREE], from := 0);
      if both {
        i := i.(read := if i.read + 1 >= 2 then 0 else i.read + 1);
      }
      if !i.buf[i.read].full {
        i := i.(pause := true, feeding := false);
      }
      SlotGone(input, i, both, pc, chunks, eaten);
      input, eaten := i, eaten + 1;
    }

    method PartUsed(n: nat)
      requires Valid() && input.feeding && input.from + n <= |input.buf[input.read].data|
      requires n < |input.buf[input.read].data|
      modifies this`input, this`taken, this`slipped, this`excess
      ensures Valid() && slipped == (old(slipped) || old(input.from) > 0) && eaten < |chunks|
      ensures old(input.from) + n <= |chunks[eaten]|
      ensures taken == old(taken) + chunks[eaten][old(input.from)..old(input.from) + n]
      ensures input == old(input).(from := n)
    {
      hide InputOk, Drawing, Tasting;
      var i := input;
      SlotFed(i, both, pc, chunks, eaten);
      PartGone(i, both, pc, chunks, eaten, n);
      TastingOn(taken, chunks, eaten, i.from, excess, n);
      taken := taken + i.buf[i.read].data[i.from..i.from + n];
      slipped, excess := slipped || i.from > 0, excess + i.from;
      input := i.(from := n);
    }

    // HAL_JPEG_DataReadyCallback: the peripheral has filled its slot.
    method DataReadyCallback(block: seq<byte>)
      requires Valid() && it && output.drawing
      modifies this`output, this`blocks
      ensures Valid() && blocks == old(blocks) + [block]
      ensures !old(output.buf[output.write].full)
      ensures output.buf[1 - old(output.write)] == old(output.buf[1 - output.write])
      // it goes on with the other slot exactly if that one is free
      ensures output.drawing <==> !old(output.buf[1 - output.write].full)
      ensures output.pause <==> !output.drawing
    {
      hide InputOk, Placed, Tasting;
      var o := output;
      HoldsMore(o.buf, true, if pc.NextOut? then 1 - o.read else o.read, blocks, Gone(converted, pc), block);
      o := o.(buf := o.buf[o.write := Slot(true, block)], write := if o.write + 1 >= 2 then 0 else o.write + 1);
      PlacedLonger(converted, blocks, mcuValue, block);
      blocks := blocks + [block];
      if o.buf[o.write].full {
        o := o.(pause := true, drawing := false);
      }
      output := o;
    }

    // Any run: steps of the main loop and callbacks in any order.  A callback comes only
    // from a side of the peripheral that runs.
    method Session(moves: seq<Move>)
      requires Valid()
      modifies this
      ensures Valid()
    {
      hide InputOk, OutputOk, Placed, Tasting;
      for i := 0 to |moves|
        invariant Valid()
      {
        match moves[i]
        case Main(read, mcus) =>
          Step(read, mcus);
        case Info(total) =>
          InfoReadyCallback(total);
        case GetData(n) =>
          Bounds();
          if input.feeding && input.from + n <= |input.buf[input.read].data| {
            GetDataCallback(n);
          }
        case DataReady(block) =>
          if it && output.drawing {
            DataReadyCallback(block);
          }
      }
    }

    // A picture decoded without a pause: in every round the peripheral uses up a window and
    // fills a slot, and a call of jpeg_decoder_io follows.  All that read_cb gave but the two
    // slots that are left is taken, in order, and every block converted, in order.
    method Decode(more: seq<seq<byte>>, slots: seq<seq<byte>>, mcus: nat -> nat)
      requires Valid() && pc.Check? && Running() && |slots| == |more|
      modifies this`input, this`output, this`mcuValue, this`idle, this`pc
      modifies this`got, this`chunks, this`eaten, this`taken, this`slipped, this`excess, this`blocks, this`converted
      ensures Valid() && pc.Check? && Running()
      ensures chunks == old(chunks) + more && eaten == old(eaten) + |more|
      ensures taken == Flat(chunks[..eaten])
      ensures blocks == old(blocks) + slots && |converted| == |blocks|
      ensures |more| > 0 && mcuValue == mcuTotal ==> idle
    {
      hide Feeding, Drawing;
      for i := 0 to |more|
        invariant Valid() && pc.Check? && Running()
        invariant chunks == old(chunks) + more[..i] && eaten == old(eaten) + i
        invariant blocks == old(blocks) + slots[..i] && |converted| == |blocks|
        invariant i > 0 && mcuValue == mcuTotal ==> idle
      {
        Round(more[i], slots[i], mcus(i));
      }
      AllTasted();
    }

    // Both input slots are full, no output slot is, and both sides of the peripheral run.
    ghost predicate Running()
      reads this
    {
      && both && it && input.feeding && output.drawing && input.from == 0 && !slipped
      && |chunks| == eaten + 2 && |converted| == |blocks|
    }

    // So it is when decoding has just been started.
    lemma StartsRunning()
      requires Started() && both && it && input.from == 0 && |chunks| == 2
      ensures Running()
    {
    }

    method Round(read: seq<byte>, slot: seq<byte>, mcus: nat)
      requires Valid() && pc.Check? && Running()
      modifies this`input, this`output, this`mcuValue, this`idle, this`pc
      modifies this`got, this`chunks, this`eaten, this`taken, this`slipped, this`excess, this`blocks, this`converted
      ensures Valid() && pc.Check? && Running()
      ensures chunks == old(chunks) + [read] && eaten == old(eaten) + 1
      ensures blocks == old(blocks) + [slot] && |converted| == |blocks|
      ensures mcuValue == mcuTotal ==> idle
    {
      hide InputOk, OutputOk, Placed, Tasting;
      Bounds();
      NoneFull();
      GetDataCallback(|input.buf[input.read].data|);
      DataReadyCallback(slot);
      Io(Got(read), mcus);
    }

    lemma NoneFull()
      requires Valid() && pc.Check? && |converted| == |blocks|
      ensures |output.buf| == 2 && 0 <= output.write < 2 && !output.buf[0].full && !output.buf[1].full
    {
    }

    lemma AllTasted()
      requires Valid() && Running()
      ensures eaten <= |chunks| && taken == Flat(chunks[..eaten])
    {
      InStep(0);
      assert chunks[eaten][..0] == [];
    }

    lemma Bounds()
      requires Valid()
      ensures 0 <= input.read < |input.buf|
      ensures eaten < |chunks| ==> input.buf[input.read] == Slot(true, chunks[eaten])
    {
    }

    // In every state a run can reach: the peripheral was given the chunks of read_cb in
    // order, each byte once, unless it went on after using a part of its window; and the
    // converted slots are the blocks it wrote, in order, each drawn behind those before.
    lemma InStep(k: nat)
      requires Valid()
      ensures chunks <= got
      ensures Tasted(taken, chunks, eaten, input.from) <==> !slipped
      ensures mcuValue == Counts(converted) && |converted| <= |blocks|
      ensures k < |converted| ==> converted[k].data == blocks[k] && converted[k].mcu == Counts(converted[..k])
    {
      TastedOnly(taken, chunks, eaten, input.from, excess);
      PlacedAt(converted, blocks, mcuValue, k);
    }
  }

  // How many converted slots are released.
  function Gone(converted: seq<Drawn>, pc: Pc): int {
    |converted| - if pc.Release? then 1 else 0
  }
}
