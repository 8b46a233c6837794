/** The block parser: markers delimit blocks and the text between them is buffered into output chunks. */
module BlockParser {
  import opened Arith
  import opened Blocks

  const OUTPUT_FLUSH_BYTES: nat := 4096

  const NEWLINE: byte := 10

  datatype Machine = Machine(
    current: Option<BlockId>,
    cmdBuf: seq<byte>,
    capturing: bool,
    outBuf: seq<byte>,
    pending: seq<BlockEvent>,
    nextId: BlockId)

  const START := Machine(None, [], false, [], [], 0)

  predicate IsSpace(b: byte) { 9 <= b <= 13 || b == 32 }

  function TrimEnd(s: seq<byte>): seq<byte> {
    if s != [] && IsSpace(s[|s| - 1]) then TrimEnd(s[..|s| - 1]) else s
  }

  /** The command is the text without the white space at its end: tabs, line ends, form feeds and blanks. */
  lemma {:induction false} TrimEndLaw(s: seq<byte>)
    ensures Trimmed(TrimEnd(s), s)
  {
    if s != [] && IsSpace(s[|s| - 1]) {
      TrimEndLaw(s[..|s| - 1]);
      assert s == s[..|s| - 1] + [s[|s| - 1]];
    }
  }

  // ---- One step of the machine ----

  function Flush(m: Machine): Machine {
    if m.current.Some? && m.outBuf != []
    then m.(outBuf := [], pending := m.pending + [OutputChunk(m.current.value, m.outBuf)])
    else m
  }

  function PushByte(m: Machine, b: byte): Machine {
    if m.current.Some? then
      var m' := m.(outBuf := m.outBuf + [b]);
      if |m'.outBuf| >= OUTPUT_FLUSH_BYTES || b == NEWLINE then Flush(m') else m'
    else if m.capturing && b != 0 then m.(cmdBuf := m.cmdBuf + [b])
    else m
  }

  function Dispatch(m: Machine, t: Token): Machine
    requires !t.Text?
  {
    match t
    case MarkA =>
      var m' := Flush(m);
      m'.(cmdBuf := [], capturing := true, current := None, pending := m'.pending + [PromptStart])
    case MarkC =>
      m.(cmdBuf := [], capturing := false, current := Some(m.nextId), nextId := m.nextId + 1,
         pending := m.pending + [CommandStart(m.nextId, TrimEnd(m.cmdBuf))])
    case MarkD(exit) =>
      var m' := Flush(m);
      if m'.current.Some?
      then m'.(current := None, pending := m'.pending + [BlockEnd(m'.current.value, exit)])
      else m'
    case _ => m
  }

  /** A token, or the end of one read from the terminal. */
  datatype Input = Tok(t: Token) | Cut

  function Step(m: Machine, i: Input): Machine {
    match i
    case Cut => Flush(m)
    case Tok(t) => if t.Text? then PushByte(m, t.b) else Dispatch(m, t)
  }

  /** The machine after the inputs, with every event it has emitted so far. */
  function Run(ins: seq<Input>): Machine {
    if ins == [] then START else Step(Run(ins[..|ins| - 1]), ins[|ins| - 1])
  }

  /** The inputs of a sequence of reads. */
  function Reads(chunks: seq<seq<Token>>): seq<Input> {
    if chunks == [] then [] else Reads(chunks[..|chunks| - 1]) + Toks(chunks[|chunks| - 1]) + [Cut]
  }

  function Toks(ts: seq<Token>): seq<Input> {
    seq(|ts|, i requires 0 <= i < |ts| => Tok(ts[i]))
  }

  /** The tokens of the inputs, without the cuts. */
  function Stream(ins: seq<Input>): seq<Token> {
    if ins == [] then []
    else
      var front, i := Stream(ins[..|ins| - 1]), ins[|ins| - 1];
      if i.Tok? then front + [i.t] else front
  }

  function Flatten(chunks: seq<seq<Token>>): seq<Token> {
    if chunks == [] then [] else Flatten(chunks[..|chunks| - 1]) + chunks[|chunks| - 1]
  }

  // ---- The parser as an object ----

  class BlockMachine {
    var currentBlock: Option<BlockId>
    var cmdBuf: seq<byte>
    var capturingCmd: bool
    var outBuf: seq<byte>
    var pending: seq<BlockEvent>
    var nextId: BlockId
    /** What was read and what was handed out so far. */
    ghost var inputs: seq<Input>
    ghost var emitted: seq<BlockEvent>

    function State(): Machine
      reads this
    {
      Machine(currentBlock, cmdBuf, capturingCmd, outBuf, pending, nextId)
    }

    ghost predicate Valid()
      reads this
    {
      State().(pending := emitted + pending) == Run(inputs)
    }

    constructor ()
      ensures Valid() && inputs == [] && emitted == [] && pending == []
    {
      currentBlock, cmdBuf, capturingCmd, outBuf, pending, nextId := None, [], false, [], [], 0;
      inputs, emitted := [], [];
    }

    method FlushOutput()
      modifies this`outBuf, this`pending
      ensures State() == Flush(old(State()))
    {
      if currentBlock.Some? {
        if outBuf != [] {
          var data := outBuf;
          outBuf := [];
          pending := pending + [OutputChunk(currentBlock.value, data)];
        }
      }
    }

    method PushByte(b: byte)
      modifies this`outBuf, this`pending, this`cmdBuf
      ensures State() == Step(old(State()), Tok(Text(b)))
    {
      if currentBlock.Some? {
        outBuf := outBuf + [b];
        if |outBuf| >= OUTPUT_FLUSH_BYTES || b == NEWLINE {
          FlushOutput();
        }
      } else if capturingCmd && b != 0 {
        cmdBuf := cmdBuf + [b];
      }
    }

    method OscDispatch(t: Token)
      requires !t.Text?
      modifies this`currentBlock, this`cmdBuf, this`capturingCmd, this`outBuf, this`pending, this`nextId
      ensures State() == Step(old(State()), Tok(t))
    {
      match t
      case MarkA =>
        FlushOutput();
        cmdBuf := [];
        capturingCmd := true;
        currentBlock := None;
        pending := pending + [PromptStart];
      case MarkC =>
        var command := TrimEnd(cmdBuf);
        cmdBuf := [];
        capturingCmd := false;
        var block := nextId;
        nextId := nextId + 1;
        currentBlock := Some(block);
        pending := pending + [CommandStart(block, command)];
      case MarkD(exit) =>
        FlushOutput();
        if currentBlock.Some? {
          pending := pending + [BlockEnd(currentBlock.value, exit)];
          currentBlock := None;
        }
      case _ =>
    }

    /** The parser hands one token to the machine. */
    method Perform(t: Token)
      requires Valid()
      modifies this
      ensures Valid() && inputs == old(inputs) + [Tok(t)] && emitted == old(emitted)
    {
      ghost var before := State();
      if t.Text? {
        PushByte(t.b);
      } else {
        OscDispatch(t);
      }
      StepKeepsPrefix(before, emitted, Tok(t));
      RunSnoc(inputs, Tok(t));
      inputs := inputs + [Tok(t)];
    }

    /** Consume one read from the terminal and hand out the events it completed. */
    method Feed(tokens: seq<Token>) returns (out: seq<BlockEvent>)
      requires Valid() && pending == []
      modifies this
      ensures Valid() && pending == []
      ensures inputs == old(inputs) + Toks(tokens) + [Cut]
      ensures emitted == old(emitted) + out
    {
      for i := 0 to |tokens|
        invariant Valid() && emitted == old(emitted)
        invariant inputs == old(inputs) + Toks(tokens[..i])
      {
        assert Toks(tokens[..i + 1]) == Toks(tokens[..i]) + [Tok(tokens[i])];
        Perform(tokens[i]);
      }
      assert tokens[..|tokens|] == tokens;
      out := HandOut();
    }

    /** The end of a read: flush, so that callers see pending chunks, and empty the list of pending events. */
    method HandOut() returns (out: seq<BlockEvent>)
      requires Valid()
      modifies this
      ensures Valid() && pending == []
      ensures inputs == old(inputs) + [Cut] && emitted == old(emitted) + out
    {
      ghost var before := State();
      FlushOutput();
      StepKeepsPrefix(before, emitted, Cut);
      RunSnoc(inputs, Cut);
      inputs := inputs + [Cut];
      out := pending;
      emitted := emitted + pending;
      pending := [];
      assert emitted + [] == emitted;
    }
  }

  lemma RunSnoc(ins: seq<Input>, i: Input)
    ensures Run(ins + [i]) == Step(Run(ins), i)
    ensures Stream(ins + [i]) == if i.Tok? then Stream(ins) + [i.t] else Stream(ins)
  {
    assert (ins + [i])[..|ins + [i]| - 1] == ins;
  }

  /** Events already handed out do not influence the machine. */
  lemma FlushKeepsPrefix(m: Machine, es: seq<BlockEvent>)
    ensures Flush(m.(pending := es + m.pending)) == Flush(m).(pending := es + Flush(m).pending)
  {
    if m.current.Some? && m.outBuf != [] {
      var e := [OutputChunk(m.current.value, m.outBuf)];
      assert es + (m.pending + e) == (es + m.pending) + e;
    }
  }

  lemma StepKeepsPrefix(m: Machine, es: seq<BlockEvent>, i: Input)
    ensures Step(m.(pending := es + m.pending), i) == Step(m, i).(pending := es + Step(m, i).pending)
  {
    FlushKeepsPrefix(m, es);
    match i
    case Cut =>
    case Tok(Text(b)) =>
      FlushKeepsPrefix(m.(outBuf := m.outBuf + [b]), es);
    case Tok(MarkA) =>
      assert es + (Flush(m).pending + [PromptStart]) == (es + Flush(m).pending) + [PromptStart];
    case Tok(MarkC) =>
      var e := [CommandStart(m.nextId, TrimEnd(m.cmdBuf))];
      assert es + (m.pending + e) == (es + m.pending) + e;
    case Tok(MarkD(exit)) =>
      if m.current.Some? {
        var e := [BlockEnd(m.current.value, exit)];
        assert es + (Flush(m).pending + e) == (es + Flush(m).pending) + e;
      }
    case _ =>
  }

  /** The events that a step adds: a byte of a block completes a chunk when it is a line end or the 4096th one
      buffered; a prompt, an end and a cut hand out what is buffered, before the marker's own event; a C hands out
      nothing else. */
  lemma StepEmits(m: Machine, i: Input)
    ensures var data := if i.Tok? && i.t.Text? then m.outBuf + [i.t.b] else m.outBuf;
            var completes := i == Cut || i == Tok(MarkA) || (i.Tok? && i.t.MarkD?)
                             || (i.Tok? && i.t.Text? && (i.t.b == 10 || |m.outBuf| + 1 >= 4096));
            var chunk :=
              if m.current.Some? && completes && data != [] then [OutputChunk(m.current.value, data)] else [];
            Step(m, i).pending == m.pending + chunk +
              if i == Cut then []
              else match i.t
                   case MarkA => [PromptStart]
                   case MarkC => [CommandStart(m.nextId, TrimEnd(m.cmdBuf))]
                   case MarkD(exit) => if m.current.Some? then [BlockEnd(m.current.value, exit)] else []
                   case _ => []
  {
  }

  /** In every run the buffer holds less than one chunk, without a line end, and only while a block is open. */
  lemma {:induction false} BufferStaysSmall(ins: seq<Input>)
    ensures |Run(ins).outBuf| < 4096 && 10 !in Run(ins).outBuf
    ensures Run(ins).current == None ==> Run(ins).outBuf == []
  {
    if ins != [] {
      BufferStaysSmall(ins[..|ins| - 1]);
    }
  }

  // ---- What the stream means, without buffers ----

  datatype Block = Block(command: seq<byte>, text: seq<byte>, end: Option<Option<int>>)

  /** The blocks of a stream in order; when `open`, the last one is still receiving text. */
  datatype Reading = Reading(
    blocks: seq<Block>,
    open: bool,
    capturing: bool,
    typed: seq<byte>,
    skeleton: seq<BlockEvent>)

  ghost predicate Sane(r: Reading) {
    r.open ==> r.blocks != [] && r.blocks[|r.blocks| - 1].end == None
  }

  function Last(r: Reading): nat
    requires r.blocks != []
  {
    |r.blocks| - 1
  }

  function Read(r: Reading, t: Token): (r': Reading)
    requires Sane(r)
    ensures Sane(r')
  {
    match t
    case Text(b) =>
      if r.open then
        var block := r.blocks[Last(r)];
        r.(blocks := r.blocks[Last(r) := block.(text := block.text + [b])])
      else if r.capturing && b != 0 then r.(typed := r.typed + [b])
      else r
    case MarkA => r.(open := false, capturing := true, typed := [], skeleton := r.skeleton + [PromptStart])
    case MarkC =>
      var command := TrimEnd(r.typed);
      Reading(r.blocks + [Block(command, [], None)], true, false, [],
              r.skeleton + [CommandStart(|r.blocks|, command)])
    case MarkD(exit) =>
      if r.open then
        r.(blocks := r.blocks[Last(r) := r.blocks[Last(r)].(end := Some(exit))], open := false,
           skeleton := r.skeleton + [BlockEnd(Last(r), exit)])
      else r
    case _ => r
  }

  function ReadAll(ts: seq<Token>): (r: Reading)
    ensures Sane(r)
  {
    if ts == [] then Reading([], false, false, [], []) else Read(ReadAll(ts[..|ts| - 1]), ts[|ts| - 1])
  }

  lemma ReadSnoc(ts: seq<Token>, t: Token)
    ensures ReadAll(ts + [t]) == Read(ReadAll(ts), t)
  {
    assert (ts + [t])[..|ts + [t]| - 1] == ts;
  }

  function Texts(blocks: seq<Block>): seq<byte> {
    if blocks == [] then [] else Texts(blocks[..|blocks| - 1]) + blocks[|blocks| - 1].text
  }

  lemma TextsUpdateLast(blocks: seq<Block>, b: Block)
    requires blocks != []
    ensures Texts(blocks[|blocks| - 1 := b]) == Texts(blocks[..|blocks| - 1]) + b.text
  {
    assert blocks[|blocks| - 1 := b][..|blocks| - 1] == blocks[..|blocks| - 1];
  }

  /** The state of the machine agrees with the reading of the stream. */
  ghost predicate Agrees(m: Machine, r: Reading) {
    && Sane(r)
    && m.nextId == |r.blocks|
    && m.current == (if r.open then Some(Last(r)) else None)
    && m.cmdBuf == r.typed && m.capturing == r.capturing
    && (!r.open ==> m.outBuf == [])
    && Skeleton(m.pending) == r.skeleton
    && Output(m.pending) + m.outBuf == Texts(r.blocks)
  }

  lemma FlushAgrees(m: Machine, r: Reading)
    requires Agrees(m, r)
    ensures Agrees(Flush(m), r) && Flush(m).outBuf == []
  {
    if m.current.Some? && m.outBuf != [] {
      Snoc(m.pending, OutputChunk(m.current.value, m.outBuf));
    }
  }

  lemma AppendAgrees(m: Machine, r: Reading, b: byte)
    requires Agrees(m, r) && r.open
    ensures Agrees(m.(outBuf := m.outBuf + [b]), Read(r, Text(b)))
  {
    var block := r.blocks[Last(r)];
    TextsUpdateLast(r.blocks, block.(text := block.text + [b]));
    assert Output(m.pending) + (m.outBuf + [b]) == (Output(m.pending) + m.outBuf) + [b];
  }

  /** A prompt closes whatever was open; the buffer has been flushed. */
  lemma PromptAgrees(m: Machine, r: Reading)
    requires Agrees(m, r) && m.outBuf == []
    ensures Agrees(m.(cmdBuf := [], capturing := true, current := None, pending := m.pending + [PromptStart]),
                   Read(r, MarkA))
  {
    Snoc(m.pending, PromptStart);
  }

  lemma StartAgrees(m: Machine, r: Reading)
    requires Agrees(m, r)
    ensures Agrees(Dispatch(m, MarkC), Read(r, MarkC))
  {
    Snoc(m.pending, CommandStart(m.nextId, TrimEnd(m.cmdBuf)));
    assert (r.blocks + [Block(TrimEnd(r.typed), [], None)])[..|r.blocks|] == r.blocks;
  }

  lemma EndAgrees(m: Machine, r: Reading, exit: Option<int>)
    requires Agrees(m, r) && m.outBuf == [] && r.open
    ensures Agrees(m.(current := None, pending := m.pending + [BlockEnd(Last(r), exit)]), Read(r, MarkD(exit)))
  {
    Snoc(m.pending, BlockEnd(Last(r), exit));
    TextsUpdateLast(r.blocks, r.blocks[Last(r)].(end := Some(exit)));
  }

  lemma StepAgrees(m: Machine, r: Reading, t: Token)
    requires Agrees(m, r)
    ensures Agrees(Step(m, Tok(t)), Read(r, t))
  {
    match t
    case Text(b) =>
      if r.open {
        AppendAgrees(m, r, b);
        FlushAgrees(m.(outBuf := m.outBuf + [b]), Read(r, t));
      }
    case MarkA =>
      FlushAgrees(m, r);
      PromptAgrees(Flush(m), r);
    case MarkC =>
      StartAgrees(m, r);
    case MarkD(exit) =>
      FlushAgrees(m, r);
      if r.open {
        EndAgrees(Flush(m), r, exit);
      }
    case _ =>
  }

  /** However the stream is cut, the machine follows its reading. */
  lemma {:induction false} RunAgrees(ins: seq<Input>)
    ensures Agrees(Run(ins), ReadAll(Stream(ins)))
  {
    if ins != [] {
      var front, i := ins[..|ins| - 1], ins[|ins| - 1];
      RunAgrees(front);
      if i.Tok? {
        ReadSnoc(Stream(front), i.t);
        StepAgrees(Run(front), ReadAll(Stream(front)), i.t);
      } else {
        FlushAgrees(Run(front), ReadAll(Stream(front)));
      }
    }
  }

  lemma {:induction false} StreamOfReads(chunks: seq<seq<Token>>)
    ensures Stream(Reads(chunks)) == Flatten(chunks)
  {
    if chunks != [] {
      var front, last := chunks[..|chunks| - 1], chunks[|chunks| - 1];
      StreamOfReads(front);
      StreamAppend(Reads(front), last);
      RunSnoc(Reads(front) + Toks(last), Cut);
    }
  }

  lemma {:induction false} StreamAppend(ins: seq<Input>, ts: seq<Token>)
    ensures Stream(ins + Toks(ts)) == Stream(ins) + ts
  {
    if ts == [] {
      assert ins + Toks(ts) == ins;
    } else {
      var front, t := ts[..|ts| - 1], ts[|ts| - 1];
      StreamAppend(ins, front);
      assert ts == front + [t];
      assert ins + Toks(ts) == (ins + Toks(front)) + [Tok(t)];
      RunSnoc(ins + Toks(front), Tok(t));
      assert Stream(ins) + front + [t] == Stream(ins) + (front + [t]);
    }
  }

  /** The events of a stream that arrives in the given reads. */
  function Events(chunks: seq<seq<Token>>): seq<BlockEvent> {
    Run(Reads(chunks)).pending
  }

  /** However the stream is cut into reads, the prompts, commands and ends are the same, and the output is exactly
      the text seen while a block was open. */
  lemma ChunkingIndependence(chunks: seq<seq<Token>>)
    ensures Skeleton(Events(chunks)) == ReadAll(Flatten(chunks)).skeleton
    ensures Output(Events(chunks)) == Texts(ReadAll(Flatten(chunks)).blocks)
  {
    StreamOfReads(chunks);
    RunAgrees(Reads(chunks));
    FlushedAfterReads(chunks);
  }

  lemma FlushedAfterReads(chunks: seq<seq<Token>>)
    ensures Run(Reads(chunks)).outBuf == []
  {
    if chunks != [] {
      var before := Reads(chunks[..|chunks| - 1]) + Toks(chunks[|chunks| - 1]);
      RunSnoc(before, Cut);
      RunAgrees(before);
      FlushAgrees(Run(before), ReadAll(Stream(before)));
    }
  }

  // ---- Attribution to blocks ----

  /** The text of block `b` that has been read so far: what was handed out, and what is still buffered. */
  function Attributed(m: Machine, b: BlockId): seq<byte> {
    OutputOf(m.pending, b) + if m.current == Some(b) then m.outBuf else []
  }

  /** Every C finds the output buffer empty. */
  ghost predicate ClearAtC(ins: seq<Input>) {
    ins == [] || (ClearAtC(ins[..|ins| - 1]) && (ins[|ins| - 1] == Tok(MarkC) ==> Run(ins[..|ins| - 1]).outBuf == []))
  }

  /** Events mention blocks that have been numbered, and the state records how each began and ended. */
  ghost predicate Recorded(es: seq<BlockEvent>, blocks: seq<Block>) {
    && WellFormed(es)
    && (forall b: nat :: b >= |blocks| ==> OutputOf(es, b) == [] && CommandOf(es, b) == None && EndOf(es, b) == None)
    && (forall b: nat :: b < |blocks| ==> CommandOf(es, b) == Some(blocks[b].command) && EndOf(es, b) == blocks[b].end)
  }

  /** The same blocks up to their text. */
  ghost predicate SameMarks(a: seq<Block>, b: seq<Block>) {
    |a| == |b| && forall k :: 0 <= k < |a| ==> a[k].command == b[k].command && a[k].end == b[k].end
  }

  lemma RecordedText(es: seq<BlockEvent>, blocks: seq<Block>, blocks': seq<Block>)
    requires Recorded(es, blocks) && SameMarks(blocks, blocks')
    ensures Recorded(es, blocks')
  {
  }

  lemma RecordChunk(es: seq<BlockEvent>, blocks: seq<Block>, b: BlockId, data: seq<byte>)
    requires Recorded(es, blocks) && b < |blocks| && blocks[b].end == None
    ensures Recorded(es + [OutputChunk(b, data)], blocks)
  {
    Snoc(es, OutputChunk(b, data));
  }

  lemma RecordPrompt(es: seq<BlockEvent>, blocks: seq<Block>)
    requires Recorded(es, blocks)
    ensures Recorded(es + [PromptStart], blocks)
  {
    Snoc(es, PromptStart);
  }

  lemma RecordStart(es: seq<BlockEvent>, blocks: seq<Block>, command: seq<byte>)
    requires Recorded(es, blocks)
    ensures Recorded(es + [CommandStart(|blocks|, command)], blocks + [Block(command, [], None)])
  {
    Snoc(es, CommandStart(|blocks|, command));
  }

  lemma RecordEnd(es: seq<BlockEvent>, blocks: seq<Block>, b: BlockId, exit: Option<int>)
    requires Recorded(es, blocks) && b < |blocks| && blocks[b].end == None
    ensures Recorded(es + [BlockEnd(b, exit)], blocks[b := blocks[b].(end := Some(exit))])
  {
    Snoc(es, BlockEnd(b, exit));
  }

  lemma FlushRecorded(m: Machine, r: Reading)
    requires Agrees(m, r) && Recorded(m.pending, r.blocks)
    ensures Recorded(Flush(m).pending, r.blocks)
  {
    if m.current.Some? && m.outBuf != [] {
      RecordChunk(m.pending, r.blocks, Last(r), m.outBuf);
    }
  }

  lemma TextRecorded(m: Machine, r: Reading, b: byte)
    requires Agrees(m, r) && Recorded(m.pending, r.blocks)
    ensures Recorded(Step(m, Tok(Text(b))).pending, Read(r, Text(b)).blocks)
  {
    if r.open {
      AppendAgrees(m, r, b);
      RecordedText(m.pending, r.blocks, Read(r, Text(b)).blocks);
      FlushRecorded(m.(outBuf := m.outBuf + [b]), Read(r, Text(b)));
    }
  }

  lemma StepRecorded(m: Machine, r: Reading, t: Token)
    requires Agrees(m, r) && Recorded(m.pending, r.blocks)
    ensures Recorded(Step(m, Tok(t)).pending, Read(r, t).blocks)
  {
    FlushRecorded(m, r);
    match t
    case Text(b) => TextRecorded(m, r, b);
    case MarkA => RecordPrompt(Flush(m).pending, r.blocks);
    case MarkC => RecordStart(m.pending, r.blocks, TrimEnd(r.typed));
    case MarkD(exit) =>
      if r.open {
        RecordEnd(Flush(m).pending, r.blocks, Last(r), exit);
      }
    case _ =>
  }

  lemma {:induction false} RunRecorded(ins: seq<Input>)
    ensures Recorded(Run(ins).pending, ReadAll(Stream(ins)).blocks)
  {
    if ins != [] {
      var front, i := ins[..|ins| - 1], ins[|ins| - 1];
      RunRecorded(front);
      RunAgrees(front);
      if i.Tok? {
        ReadSnoc(Stream(front), i.t);
        StepRecorded(Run(front), ReadAll(Stream(front)), i.t);
      } else {
        FlushRecorded(Run(front), ReadAll(Stream(front)));
      }
    }
  }

  /** Flushing hands buffered text out, and events that are not chunks attribute nothing. */
  lemma FlushAttributes(m: Machine, b: BlockId)
    ensures Attributed(Flush(m), b) == Attributed(m, b)
  {
    if m.current.Some? && m.outBuf != [] {
      Snoc(m.pending, OutputChunk(m.current.value, m.outBuf));
    }
  }

  lemma MarkAttributes(es: seq<BlockEvent>, e: BlockEvent, b: BlockId)
    requires !e.OutputChunk?
    ensures OutputOf(es + [e], b) == OutputOf(es, b)
  {
    Snoc(es, e);
  }

  /** The text that a token adds to block `b`. */
  function Added(r: Reading, t: Token, b: BlockId): seq<byte>
    requires Sane(r)
  {
    if t.Text? && r.open && b == Last(r) then [t.b] else []
  }

  lemma ReadAdds(r: Reading, t: Token, b: BlockId)
    requires Sane(r) && b < |r.blocks|
    ensures b < |Read(r, t).blocks| && Read(r, t).blocks[b].text == r.blocks[b].text + Added(r, t, b)
  {
  }

  lemma AppendAttributes(m: Machine, c: byte, b: BlockId)
    requires m.current.Some?
    ensures Attributed(m.(outBuf := m.outBuf + [c]), b)
         == Attributed(m, b) + if m.current == Some(b) then [c] else []
  {
    assert OutputOf(m.pending, b) + (m.outBuf + [c]) == (OutputOf(m.pending, b) + m.outBuf) + [c];
  }

  lemma TextAttributes(m: Machine, c: byte, b: BlockId)
    ensures Attributed(PushByte(m, c), b) == Attributed(m, b) + if m.current == Some(b) then [c] else []
  {
    if m.current.Some? {
      AppendAttributes(m, c, b);
      FlushAttributes(m.(outBuf := m.outBuf + [c]), b);
    }
  }

  lemma PromptAttributes(m: Machine, b: BlockId)
    requires m.current == None ==> m.outBuf == []
    ensures Attributed(Dispatch(m, MarkA), b) == Attributed(m, b)
  {
    FlushAttributes(m, b);
    MarkAttributes(Flush(m).pending, PromptStart, b);
  }

  lemma EndAttributes(m: Machine, exit: Option<int>, b: BlockId)
    requires m.current == None ==> m.outBuf == []
    ensures Attributed(Dispatch(m, MarkD(exit)), b) == Attributed(m, b)
  {
    FlushAttributes(m, b);
    if m.current.Some? {
      MarkAttributes(Flush(m).pending, BlockEnd(m.current.value, exit), b);
    }
  }

  /** What one step does to the text attributed to a block: it grows by the byte read into the block, except that
      a C takes the buffered bytes of the block that was open away from it. */
  lemma StepAttributes(m: Machine, r: Reading, t: Token, b: BlockId)
    requires Agrees(m, r) && b < |r.blocks|
    ensures Attributed(Step(m, Tok(t)), b)
         == if t == MarkC then OutputOf(m.pending, b) else Attributed(m, b) + Added(r, t, b)
  {
    match t
    case Text(c) => TextAttributes(m, c, b);
    case MarkA => PromptAttributes(m, b);
    case MarkC => MarkAttributes(m.pending, CommandStart(m.nextId, TrimEnd(m.cmdBuf)), b);
    case MarkD(exit) => EndAttributes(m, exit, b);
    case _ =>
  }

  /** Every block has been given exactly its own text. */
  ghost predicate Attribution(ins: seq<Input>) {
    forall b :: 0 <= b < |ReadAll(Stream(ins)).blocks| ==>
      Attributed(Run(ins), b) == ReadAll(Stream(ins)).blocks[b].text
  }

  /** Block `b` is no longer current and has been given less than its text. */
  ghost predicate Robbed(ins: seq<Input>, b: BlockId) {
    && b < |ReadAll(Stream(ins)).blocks| && Run(ins).current != Some(b)
    && |Attributed(Run(ins), b)| < |ReadAll(Stream(ins)).blocks[b].text|
  }

  lemma StillRobbed(front: seq<Input>, i: Input, b: BlockId)
    requires Robbed(front, b)
    ensures Robbed(front + [i], b)
  {
    RunSnoc(front, i);
    RunAgrees(front);
    RunAgrees(front + [i]);
    if i.Tok? {
      var r := ReadAll(Stream(front));
      ReadSnoc(Stream(front), i.t);
      StepAttributes(Run(front), r, i.t, b);
      ReadAdds(r, i.t, b);
    } else {
      FlushAttributes(Run(front), b);
    }
  }

  lemma RobbedAtC(front: seq<Input>)
    requires Attribution(front) && Run(front).outBuf != []
    ensures ReadAll(Stream(front)).open
    ensures Robbed(front + [Tok(MarkC)], Last(ReadAll(Stream(front))))
  {
    var r := ReadAll(Stream(front));
    RunSnoc(front, Tok(MarkC));
    RunAgrees(front);
    ReadSnoc(Stream(front), MarkC);
    StepAttributes(Run(front), r, MarkC, Last(r));
  }

  lemma TextKept(m: Machine, r: Reading, t: Token, b: BlockId)
    requires Agrees(m, r) && Recorded(m.pending, r.blocks)
    requires (t == MarkC ==> m.outBuf == []) && b < |Read(r, t).blocks|
    requires b < |r.blocks| ==> Attributed(m, b) == r.blocks[b].text
    ensures Attributed(Step(m, Tok(t)), b) == Read(r, t).blocks[b].text
  {
    if b < |r.blocks| {
      StepAttributes(m, r, t, b);
      ReadAdds(r, t, b);
    } else {
      MarkAttributes(m.pending, CommandStart(m.nextId, TrimEnd(m.cmdBuf)), b);
    }
  }

  lemma AttributionKept(front: seq<Input>, i: Input)
    requires Attribution(front) && (i == Tok(MarkC) ==> Run(front).outBuf == [])
    ensures Attribution(front + [i])
  {
    var m, r := Run(front), ReadAll(Stream(front));
    RunSnoc(front, i);
    RunAgrees(front);
    RunRecorded(front);
    if i == Cut {
      forall b: nat | b < |r.blocks| ensures Attributed(Step(m, i), b) == r.blocks[b].text {
        FlushAttributes(m, b);
      }
    } else {
      ReadSnoc(Stream(front), i.t);
      forall b: nat | b < |Read(r, i.t).blocks|
        ensures Attributed(Step(m, i), b) == Read(r, i.t).blocks[b].text
      {
        TextKept(m, r, i.t, b);
      }
    }
  }

  /** Output is attributed to the right blocks if and only if every C finds the buffer empty. */
  lemma {:induction false} AttributionIff(ins: seq<Input>)
    ensures Attribution(ins) <==> ClearAtC(ins)
    ensures !ClearAtC(ins) ==> exists b :: Robbed(ins, b)
  {
    if ins != [] {
      var front, i := ins[..|ins| - 1], ins[|ins| - 1];
      assert ins == front + [i];
      AttributionIff(front);
      if !ClearAtC(front) {
        var b :| Robbed(front, b);
        StillRobbed(front, i, b);
      } else if i == Tok(MarkC) && Run(front).outBuf != [] {
        RobbedAtC(front);
      } else {
        AttributionKept(front, i);
      }
    }
  }

  /** A stream in which C never arrives with a block open. */
  ghost predicate Orderly(ts: seq<Token>) {
    ts == [] || (Orderly(ts[..|ts| - 1]) && (ts[|ts| - 1] == MarkC ==> !ReadAll(ts[..|ts| - 1]).open))
  }

  lemma {:induction false} OrderlyIsClear(ins: seq<Input>)
    requires Orderly(Stream(ins))
    ensures ClearAtC(ins)
  {
    if ins != [] {
      var front, i := ins[..|ins| - 1], ins[|ins| - 1];
      if i.Tok? {
        assert Stream(ins)[..|Stream(ins)| - 1] == Stream(front);
      }
      OrderlyIsClear(front);
      RunAgrees(front);
    }
  }

  /** On an orderly stream, block by block: however it is cut, each block has its own text, command and end. */
  lemma BlockByBlock(chunks: seq<seq<Token>>)
    requires Orderly(Flatten(chunks))
    ensures WellFormed(Events(chunks))
    ensures forall b :: 0 <= b < |ReadAll(Flatten(chunks)).blocks| ==>
              var block := ReadAll(Flatten(chunks)).blocks[b];
              && OutputOf(Events(chunks), b) == block.text
              && CommandOf(Events(chunks), b) == Some(block.command)
              && EndOf(Events(chunks), b) == block.end
    ensures forall b :: b >= |ReadAll(Flatten(chunks)).blocks| ==> CommandOf(Events(chunks), b) == None
  {
    var ins := Reads(chunks);
    StreamOfReads(chunks);
    RunAgrees(ins);
    RunRecorded(ins);
    OrderlyIsClear(ins);
    AttributionIff(ins);
    FlushedAfterReads(chunks);
    assert forall b :: Attributed(Run(ins), b) == OutputOf(Events(chunks), b);
  }

  /** A C inside a block takes the unflushed text of that block along: here the byte is lost to block 0. */
  lemma TextCanMoveAcrossC()
    ensures Flatten([[MarkC, Text(65), MarkC]]) == [MarkC, Text(65), MarkC]
    ensures !Attribution(Reads([[MarkC, Text(65), MarkC]]))
  {
    var chunk := [MarkC, Text(65), MarkC];
    var ins := [Tok(MarkC), Tok(Text(65))];
    assert [chunk][..0] == [] && Flatten([chunk]) == Flatten([]) + chunk;
    assert Reads([chunk]) == Reads([]) + Toks(chunk) + [Cut] == (ins + [Tok(MarkC)]) + [Cut];
    RunSnoc([], Tok(MarkC));
    RunSnoc([Tok(MarkC)], Tok(Text(65)));
    assert [] + [Tok(MarkC)] == [Tok(MarkC)] && [Tok(MarkC)] + [Tok(Text(65))] == ins;
    assert Run(ins).outBuf == [65];
    assert (ins + [Tok(MarkC)])[..2] == ins;
    assert !ClearAtC(ins + [Tok(MarkC)]);
    assert ((ins + [Tok(MarkC)]) + [Cut])[..3] == ins + [Tok(MarkC)];
    AttributionIff(Reads([chunk]));
  }
}
