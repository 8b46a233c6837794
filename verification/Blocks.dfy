/** The byte and marker stream of a terminal, the block events cut out of it, and readings of event sequences. */
module Blocks {
  import opened Arith

  type BlockId(==, !new) = nat

  /** What the escape-sequence parser reports: a byte of text, an OSC 133 marker, or any other OSC. */
  datatype Token =
    | Text(b: byte)
    | MarkA
    | MarkB
    | MarkC
    | MarkD(exit: Option<int>)
    | OtherOsc

  datatype BlockEvent =
    | PromptStart
    | CommandStart(block: BlockId, command: seq<byte>)
    | OutputChunk(block: BlockId, data: seq<byte>)
    | BlockEnd(block: BlockId, exit: Option<int>)

  /** The bytes of `s` other than 0, in order. */
  function NonZero(s: seq<byte>): (r: seq<byte>)
    ensures 0 !in r && (0 !in s ==> r == s)
  {
    if s == [] then []
    else
      var front, b := NonZero(s[..|s| - 1]), s[|s| - 1];
      if b != 0 then front + [b] else front
  }

  /** `kept` is `s` without the white space at its end: tabs, line ends, form feeds and blanks. */
  ghost predicate Trimmed(kept: seq<byte>, s: seq<byte>) {
    && |kept| <= |s| && kept == s[..|kept|]
    && (forall i :: |kept| <= i < |s| ==> 9 <= s[i] <= 13 || s[i] == 32)
    && (kept != [] ==> kept[|kept| - 1] != 32 && !(9 <= kept[|kept| - 1] <= 13))
  }

  /** The events without the output chunks. */
  function Skeleton(es: seq<BlockEvent>): seq<BlockEvent> {
    if es == [] then []
    else
      var front, e := Skeleton(es[..|es| - 1]), es[|es| - 1];
      if e.OutputChunk? then front else front + [e]
  }

  /** All output, whatever block it was attributed to. */
  function Output(es: seq<BlockEvent>): seq<byte> {
    if es == [] then []
    else
      var front, e := Output(es[..|es| - 1]), es[|es| - 1];
      if e.OutputChunk? then front + e.data else front
  }

  /** The output attributed to block `b`. */
  function OutputOf(es: seq<BlockEvent>, b: BlockId): seq<byte> {
    if es == [] then []
    else
      var front, e := OutputOf(es[..|es| - 1], b), es[|es| - 1];
      if e.OutputChunk? && e.block == b then front + e.data else front
  }

  /** The command recorded at the start of `b`. */
  function CommandOf(es: seq<BlockEvent>, b: BlockId): Option<seq<byte>> {
    if es == [] then None
    else
      var e := es[|es| - 1];
      if e.CommandStart? && e.block == b then Some(e.command) else CommandOf(es[..|es| - 1], b)
  }

  /** The exit code recorded at the end of `b`; None while `b` has no end. */
  function EndOf(es: seq<BlockEvent>, b: BlockId): Option<Option<int>> {
    if es == [] then None
    else
      var e := es[|es| - 1];
      if e.BlockEnd? && e.block == b then Some(e.exit) else EndOf(es[..|es| - 1], b)
  }

  /** Block `b` has started and not ended. */
  predicate Open(es: seq<BlockEvent>, b: BlockId) {
    CommandOf(es, b).Some? && EndOf(es, b) == None
  }

  /** Blocks start once, and only an open block has output or ends. */
  ghost predicate WellFormed(es: seq<BlockEvent>) {
    es == [] ||
    var front, e := es[..|es| - 1], es[|es| - 1];
    && WellFormed(front)
    && match e
       case PromptStart => true
       case CommandStart(b, _) => CommandOf(front, b) == None && EndOf(front, b) == None && OutputOf(front, b) == []
       case OutputChunk(b, _) => Open(front, b)
       case BlockEnd(b, _) => Open(front, b)
  }

  /** How the readings change when an event is appended. */
  lemma Snoc(es: seq<BlockEvent>, e: BlockEvent)
    ensures (es + [e])[..|es|] == es
    ensures Skeleton(es + [e]) == if e.OutputChunk? then Skeleton(es) else Skeleton(es) + [e]
    ensures Output(es + [e]) == if e.OutputChunk? then Output(es) + e.data else Output(es)
    ensures forall b {:trigger OutputOf(es + [e], b)} {:trigger OutputOf(es, b)} ::
              OutputOf(es + [e], b)
                == if e.OutputChunk? && e.block == b then OutputOf(es, b) + e.data else OutputOf(es, b)
    ensures forall b {:trigger CommandOf(es + [e], b)} {:trigger CommandOf(es, b)} ::
              CommandOf(es + [e], b) == if e.CommandStart? && e.block == b then Some(e.command) else CommandOf(es, b)
    ensures forall b {:trigger EndOf(es + [e], b)} {:trigger EndOf(es, b)} ::
              EndOf(es + [e], b) == if e.BlockEnd? && e.block == b then Some(e.exit) else EndOf(es, b)
  {
    assert (es + [e])[..|es|] == es;
  }

  /** The same for one block. */
  lemma SnocAt(es: seq<BlockEvent>, e: BlockEvent, b: BlockId)
    ensures OutputOf(es + [e], b)
         == if e.OutputChunk? && e.block == b then OutputOf(es, b) + e.data else OutputOf(es, b)
    ensures CommandOf(es + [e], b) == if e.CommandStart? && e.block == b then Some(e.command) else CommandOf(es, b)
    ensures EndOf(es + [e], b) == if e.BlockEnd? && e.block == b then Some(e.exit) else EndOf(es, b)
  {
    Snoc(es, e);
  }

  lemma WellFormedSnoc(es: seq<BlockEvent>, e: BlockEvent)
    requires WellFormed(es + [e])
    ensures WellFormed(es)
    ensures e.CommandStart? ==>
              CommandOf(es, e.block) == None && EndOf(es, e.block) == None && OutputOf(es, e.block) == []
    ensures e.OutputChunk? || e.BlockEnd? ==> Open(es, e.block)
  {
    assert (es + [e])[..|es|] == es;
  }
}
