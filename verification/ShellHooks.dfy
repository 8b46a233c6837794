/** The two hooks that the bash integration installs, and the marker stream of every interleaving of them. */
module ShellHooks {
  import opened Arith
  import opened Blocks
  import opened BlockParser

  /** The flags PYRE_AT_PROMPT and PYRE_CMD_STARTED. */
  datatype Hooks = Hooks(atPrompt: bool, cmdStarted: bool)

  /** What can happen in a shell: the prompt hook runs with the last exit code, the DEBUG trap fires, or a byte
      reaches the terminal. */
  datatype Firing =
    | Prompt(exit: int)
    | Debug(completing: bool, subshell: bool)
    | Shows(b: byte)

  function Fire(h: Hooks, f: Firing): (Hooks, seq<Token>) {
    match f
    case Prompt(exit) => (Hooks(true, false), (if h.cmdStarted then [MarkD(Some(exit))] else []) + [MarkA])
    case Debug(completing, subshell) =>
      if completing || subshell || !h.atPrompt then (h, []) else (Hooks(false, true), [MarkC])
    case Shows(b) => (h, [Text(b)])
  }

  class BashHooks {
    var atPrompt: bool
    var cmdStarted: bool

    function State(): Hooks
      reads this
    {
      Hooks(atPrompt, cmdStarted)
    }

    constructor ()
      ensures State() == Hooks(false, false)
    {
      atPrompt, cmdStarted := false, false;
    }

    method PromptCmd(exit: int) returns (out: seq<Token>)
      modifies this
      ensures (State(), out) == Fire(old(State()), Prompt(exit))
    {
      out := [];
      if cmdStarted {
        out := [MarkD(Some(exit))];
        cmdStarted := false;
      }
      out := out + [MarkA];
      atPrompt := true;
    }

    method PreExec(completing: bool, subshell: bool) returns (out: seq<Token>)
      modifies this
      ensures (State(), out) == Fire(old(State()), Debug(completing, subshell))
    {
      if completing {
        return [];
      }
      if subshell {
        return [];
      }
      if !atPrompt {
        return [];
      }
      atPrompt := false;
      out := [MarkC];
      cmdStarted := true;
    }
  }

  function After(fs: seq<Firing>): Hooks {
    if fs == [] then Hooks(false, false) else Fire(After(fs[..|fs| - 1]), fs[|fs| - 1]).0
  }

  function Emitted(fs: seq<Firing>): seq<Token> {
    if fs == [] then [] else Emitted(fs[..|fs| - 1]) + Fire(After(fs[..|fs| - 1]), fs[|fs| - 1]).1
  }

  lemma FireSnoc(fs: seq<Firing>, f: Firing)
    ensures After(fs + [f]) == Fire(After(fs), f).0
    ensures Emitted(fs + [f]) == Emitted(fs) + Fire(After(fs), f).1
  {
    assert (fs + [f])[..|fs + [f]| - 1] == fs;
  }

  // ---- The marker grammar ----

  function Markers(ts: seq<Token>): seq<Token> {
    if ts == [] then []
    else
      var front, t := Markers(ts[..|ts| - 1]), ts[|ts| - 1];
      if t.Text? then front else front + [t]
  }

  lemma MarkersSnoc(ts: seq<Token>, t: Token)
    ensures Markers(ts + [t]) == if t.Text? then Markers(ts) else Markers(ts) + [t]
  {
    assert (ts + [t])[..|ts + [t]| - 1] == ts;
  }

  /** A(A | C D A)*, read from the right. */
  predicate InLanguage(ms: seq<Token>) {
    var n := |ms|;
    && n > 0 && ms[n - 1] == MarkA
    && (n == 1 || InLanguage(ms[..n - 1])
        || (n > 3 && ms[n - 2].MarkD? && ms[n - 3] == MarkC && InLanguage(ms[..n - 3])))
  }

  /** What the flags say about the markers so far. */
  ghost predicate FlagsMatch(h: Hooks, ms: seq<Token>) {
    && !(h.atPrompt && h.cmdStarted)
    && (h.atPrompt ==> InLanguage(ms))
    && (h.cmdStarted ==> ms != [] && ms[|ms| - 1] == MarkC && InLanguage(ms[..|ms| - 1]))
    && (!h.atPrompt && !h.cmdStarted ==> ms == [])
  }

  lemma PromptAfterPrompt(ms: seq<Token>)
    requires ms == [] || InLanguage(ms)
    ensures InLanguage(ms + [MarkA])
  {
    assert (ms + [MarkA])[..|ms|] == ms;
  }

  lemma PromptAfterCommand(ms: seq<Token>, d: Token)
    requires ms != [] && ms[|ms| - 1] == MarkC && InLanguage(ms[..|ms| - 1]) && d.MarkD?
    ensures InLanguage((ms + [d]) + [MarkA])
  {
    var all := (ms + [d]) + [MarkA];
    assert all[..|all| - 3] == ms[..|ms| - 1];
  }

  lemma PromptMarkers(h: Hooks, ts: seq<Token>, exit: int)
    requires FlagsMatch(h, Markers(ts))
    ensures InLanguage(Markers(ts + Fire(h, Prompt(exit)).1))
  {
    var ms := Markers(ts);
    if h.cmdStarted {
      var d := MarkD(Some(exit));
      assert ts + ([d] + [MarkA]) == (ts + [d]) + [MarkA];
      MarkersSnoc(ts, d);
      MarkersSnoc(ts + [d], MarkA);
      PromptAfterCommand(ms, d);
    } else {
      assert [] + [MarkA] == [MarkA];
      MarkersSnoc(ts, MarkA);
      PromptAfterPrompt(ms);
    }
  }

  lemma FireKeepsGrammar(h: Hooks, ts: seq<Token>, f: Firing)
    requires FlagsMatch(h, Markers(ts))
    ensures FlagsMatch(Fire(h, f).0, Markers(ts + Fire(h, f).1))
  {
    match f
    case Prompt(exit) =>
      PromptMarkers(h, ts, exit);
    case Debug(_, _) =>
      assert ts + [] == ts;
      MarkersSnoc(ts, MarkC);
      assert (Markers(ts) + [MarkC])[..|Markers(ts)|] == Markers(ts);
    case Shows(b) =>
      MarkersSnoc(ts, Text(b));
  }

  lemma {:induction false} FlagsAlwaysMatch(fs: seq<Firing>)
    ensures FlagsMatch(After(fs), Markers(Emitted(fs)))
  {
    if fs != [] {
      var front, f := fs[..|fs| - 1], fs[|fs| - 1];
      FlagsAlwaysMatch(front);
      FireKeepsGrammar(After(front), Emitted(front), f);
    }
  }

  /** Whatever the interleaving of hook firings, the markers are a prefix of a word of A(A | C D A)*. */
  lemma MarkersFollowGrammar(fs: seq<Firing>)
    ensures exists rest :: InLanguage(Markers(Emitted(fs)) + rest)
  {
    FlagsAlwaysMatch(fs);
    var h, ms := After(fs), Markers(Emitted(fs));
    var rest := if h.atPrompt then [] else if h.cmdStarted then [MarkD(None), MarkA] else [MarkA];
    if h.atPrompt {
      assert ms + rest == ms;
    } else if h.cmdStarted {
      assert (ms + rest)[..|ms + rest| - 3] == ms[..|ms| - 1];
    }
    assert InLanguage(ms + rest);
  }

  // ---- What the parser makes of the markers ----

  /** The parser's view follows the flags: a block is open exactly while a command runs. */
  ghost predicate InStep(h: Hooks, r: Reading) {
    Sane(r) && r.open == h.cmdStarted && r.capturing == h.atPrompt && !(h.atPrompt && h.cmdStarted)
  }

  /** What the parser's reading becomes when `f` fires under the flags `h`. */
  function Perceive(r: Reading, h: Hooks, f: Firing): Reading
    requires Sane(r)
  {
    match f
    case Prompt(exit) => Read(if h.cmdStarted then Read(r, MarkD(Some(exit))) else r, MarkA)
    case Debug(completing, subshell) => if completing || subshell || !h.atPrompt then r else Read(r, MarkC)
    case Shows(b) => Read(r, Text(b))
  }

  /** One marker or byte is read, in order. */
  lemma ReadOne(ts: seq<Token>, t: Token)
    requires Orderly(ts) && (t == MarkC ==> !ReadAll(ts).open)
    ensures ReadAll(ts + [t]) == Read(ReadAll(ts), t) && Orderly(ts + [t])
  {
    ReadSnoc(ts, t);
    OrderlySnoc(ts, t);
  }

  lemma ReadTwo(ts: seq<Token>, d: Token, a: Token)
    requires Orderly(ts) && d != MarkC && a != MarkC
    ensures ReadAll(ts + ([d] + [a])) == Read(Read(ReadAll(ts), d), a) && Orderly(ts + ([d] + [a]))
  {
    assert ts + ([d] + [a]) == (ts + [d]) + [a];
    ReadOne(ts, d);
    ReadOne(ts + [d], a);
  }

  lemma ReadPrompt(ts: seq<Token>, h: Hooks, exit: int)
    requires Orderly(ts)
    ensures var ts' := ts + Fire(h, Prompt(exit)).1;
            ReadAll(ts') == Perceive(ReadAll(ts), h, Prompt(exit)) && Orderly(ts')
  {
    if h.cmdStarted {
      ReadTwo(ts, MarkD(Some(exit)), MarkA);
    } else {
      assert [] + [MarkA] == [MarkA];
      ReadOne(ts, MarkA);
    }
  }

  lemma ReadFiring(ts: seq<Token>, h: Hooks, f: Firing)
    requires Orderly(ts) && InStep(h, ReadAll(ts))
    ensures var ts' := ts + Fire(h, f).1;
            ReadAll(ts') == Perceive(ReadAll(ts), h, f) && Orderly(ts')
  {
    match f
    case Prompt(exit) => ReadPrompt(ts, h, exit);
    case Debug(completing, subshell) =>
      if completing || subshell || !h.atPrompt {
        assert ts + [] == ts;
      } else {
        ReadOne(ts, MarkC);
      }
    case Shows(b) => ReadOne(ts, Text(b));
  }

  lemma PerceiveInStep(r: Reading, h: Hooks, f: Firing)
    requires InStep(h, r)
    ensures InStep(Fire(h, f).0, Perceive(r, h, f))
  {
  }

  lemma FireRead(fs: seq<Firing>, f: Firing)
    requires InStep(After(fs), ReadAll(Emitted(fs))) && Orderly(Emitted(fs))
    ensures InStep(After(fs + [f]), ReadAll(Emitted(fs + [f]))) && Orderly(Emitted(fs + [f]))
    ensures ReadAll(Emitted(fs + [f])) == Perceive(ReadAll(Emitted(fs)), After(fs), f)
  {
    FireSnoc(fs, f);
    ReadFiring(Emitted(fs), After(fs), f);
    PerceiveInStep(ReadAll(Emitted(fs)), After(fs), f);
  }

  lemma OrderlySnoc(ts: seq<Token>, t: Token)
    requires Orderly(ts) && (t == MarkC ==> !ReadAll(ts).open)
    ensures Orderly(ts + [t])
  {
    assert (ts + [t])[..|ts + [t]| - 1] == ts;
  }

  /** Bash never makes the parser see a C with a block open, and every D it emits finds one. */
  lemma {:induction false} BashIsOrderly(fs: seq<Firing>)
    ensures Orderly(Emitted(fs)) && InStep(After(fs), ReadAll(Emitted(fs)))
  {
    if fs != [] {
      var front, f := fs[..|fs| - 1], fs[|fs| - 1];
      assert fs == front + [f];
      BashIsOrderly(front);
      FireRead(front, f);
    }
  }

  // ---- A whole command ----

  function Shown(fs: seq<Firing>): seq<byte> {
    if fs == [] then []
    else
      var front, f := Shown(fs[..|fs| - 1]), fs[|fs| - 1];
      if f.Shows? then front + [f.b] else front
  }

  /** No prompt is drawn. */
  predicate NoPrompt(fs: seq<Firing>) {
    forall i :: 0 <= i < |fs| ==> !fs[i].Prompt?
  }

  /** No prompt is drawn and no command starts. */
  predicate OnlyTyping(fs: seq<Firing>) {
    forall i :: 0 <= i < |fs| ==> fs[i].Shows? || (fs[i].Debug? && (fs[i].completing || fs[i].subshell))
  }

  lemma ShownSnoc(fs: seq<Firing>, f: Firing)
    ensures Shown(fs + [f]) == if f.Shows? then Shown(fs) + [f.b] else Shown(fs)
    ensures NonZero(Shown(fs + [f])) == NonZero(Shown(fs)) + if f.Shows? && f.b != 0 then [f.b] else []
  {
    assert (fs + [f])[..|fs + [f]| - 1] == fs;
    if f.Shows? {
      assert (Shown(fs) + [f.b])[..|Shown(fs)|] == Shown(fs);
    }
  }

  /** `r'` is `r` with more text typed at the prompt. */
  ghost predicate Typed(r: Reading, r': Reading, text: seq<byte>) {
    r' == r.(typed := r.typed + text)
  }

  lemma TypedByte(r: Reading, r': Reading, text: seq<byte>, h: Hooks, f: Firing)
    requires InStep(h, r') && h.atPrompt && Typed(r, r', text)
    requires f.Shows? || (f.Debug? && (f.completing || f.subshell))
    ensures Fire(h, f).0 == h
    ensures Typed(r, Perceive(r', h, f), text + if f.Shows? && f.b != 0 then [f.b] else [])
  {
    if f.Shows? && f.b != 0 {
      assert r.typed + (text + [f.b]) == (r.typed + text) + [f.b];
    } else {
      assert text + [] == text;
    }
  }

  lemma {:induction false} Typing(pre: seq<Firing>, typing: seq<Firing>)
    requires After(pre).atPrompt && OnlyTyping(typing)
    ensures After(pre + typing) == After(pre)
    ensures Typed(ReadAll(Emitted(pre)), ReadAll(Emitted(pre + typing)), NonZero(Shown(typing)))
  {
    var r := ReadAll(Emitted(pre));
    if typing == [] {
      assert pre + typing == pre && r.typed + [] == r.typed;
    } else {
      var front, f := typing[..|typing| - 1], typing[|typing| - 1];
      assert pre + typing == (pre + front) + [f] && typing == front + [f];
      Typing(pre, front);
      BashIsOrderly(pre + front);
      FireRead(pre + front, f);
      FireSnoc(pre + front, f);
      ShownSnoc(front, f);
      TypedByte(r, ReadAll(Emitted(pre + front)), NonZero(Shown(front)), After(pre), f);
    }
  }

  /** `r'` is `r` with more text in the block that is open. */
  ghost predicate Grown(r: Reading, r': Reading, text: seq<byte>) {
    && r.blocks != [] && r.open && r'.open && |r'.blocks| == |r.blocks|
    && r'.blocks[Last(r)] == r.blocks[Last(r)].(text := r.blocks[Last(r)].text + text)
  }

  lemma RunningStep(r: Reading, r': Reading, text: seq<byte>, h: Hooks, f: Firing)
    requires InStep(h, r') && h.cmdStarted && !f.Prompt? && Grown(r, r', text)
    ensures Fire(h, f).0 == h
    ensures Grown(r, Perceive(r', h, f), text + if f.Shows? then [f.b] else [])
  {
    var block := r.blocks[Last(r)];
    assert f.Shows? ==> block.text + (text + [f.b]) == (block.text + text) + [f.b];
    assert text + [] == text;
  }

  lemma {:induction false} Running(pre: seq<Firing>, mid: seq<Firing>)
    requires After(pre).cmdStarted && NoPrompt(mid)
    ensures After(pre + mid) == After(pre)
    ensures Grown(ReadAll(Emitted(pre)), ReadAll(Emitted(pre + mid)), Shown(mid))
  {
    BashIsOrderly(pre);
    var r := ReadAll(Emitted(pre));
    if mid == [] {
      assert pre + mid == pre && r.blocks[Last(r)].text + [] == r.blocks[Last(r)].text;
    } else {
      var front, f := mid[..|mid| - 1], mid[|mid| - 1];
      assert pre + mid == (pre + front) + [f] && mid == front + [f];
      Running(pre, front);
      BashIsOrderly(pre + front);
      FireRead(pre + front, f);
      FireSnoc(pre + front, f);
      ShownSnoc(front, f);
      RunningStep(r, ReadAll(Emitted(pre + front)), Shown(front), After(pre), f);
      assert Shown(front) + [] == Shown(front);
    }
  }

  lemma PerceiveKeepsEnded(r: Reading, h: Hooks, f: Firing, b: BlockId)
    requires Sane(r) && b < |r.blocks| && r.blocks[b].end.Some?
    ensures b < |Perceive(r, h, f).blocks| && Perceive(r, h, f).blocks[b] == r.blocks[b]
  {
  }

  /** A block that has ended never changes again. */
  lemma {:induction false} Settled(pre: seq<Firing>, post: seq<Firing>, b: BlockId)
    requires b < |ReadAll(Emitted(pre)).blocks| && ReadAll(Emitted(pre)).blocks[b].end.Some?
    ensures b < |ReadAll(Emitted(pre + post)).blocks|
    ensures ReadAll(Emitted(pre + post)).blocks[b] == ReadAll(Emitted(pre)).blocks[b]
  {
    if post == [] {
      assert pre + post == pre;
    } else {
      var front, f := post[..|post| - 1], post[|post| - 1];
      assert pre + post == (pre + front) + [f];
      Settled(pre, front, b);
      BashIsOrderly(pre + front);
      FireRead(pre + front, f);
      PerceiveKeepsEnded(ReadAll(Emitted(pre + front)), After(pre + front), f, b);
    }
  }

  /** The trap that fires at a prompt opens a block with all the text shown since the A marker of that prompt. Bash
      draws the prompt itself after that marker, so the text includes it. */
  lemma CommandStarts(pre: seq<Firing>, before: int, typing: seq<Firing>)
    requires OnlyTyping(typing)
    ensures var start := pre + [Prompt(before)] + typing;
            var r, r' := ReadAll(Emitted(start)), ReadAll(Emitted(start + [Debug(false, false)]));
            && After(start + [Debug(false, false)]).cmdStarted
            && r'.open && r'.blocks == r.blocks + [Block(TrimEnd(NonZero(Shown(typing))), [], None)]
  {
    var p := pre + [Prompt(before)];
    var start := p + typing;
    BashIsOrderly(pre);
    FireRead(pre, Prompt(before));
    FireSnoc(pre, Prompt(before));
    Typing(p, typing);
    assert [] + NonZero(Shown(typing)) == NonZero(Shown(typing));
    BashIsOrderly(start);
    FireRead(start, Debug(false, false));
    FireSnoc(start, Debug(false, false));
  }

  /** While a command runs, its block is open with the text shown at the prompt and the output so far. */
  lemma CommandRuns(pre: seq<Firing>, before: int, typing: seq<Firing>, mid: seq<Firing>)
    requires OnlyTyping(typing) && NoPrompt(mid)
    ensures var start := pre + [Prompt(before)] + typing;
            var fs := start + [Debug(false, false)] + mid;
            var r, b := ReadAll(Emitted(fs)), |ReadAll(Emitted(start)).blocks|;
            && After(fs).cmdStarted && r.open && |r.blocks| == b + 1
            && r.blocks[b] == Block(TrimEnd(NonZero(Shown(typing))), Shown(mid), None)
  {
    var start := pre + [Prompt(before)] + typing;
    CommandStarts(pre, before, typing);
    Running(start + [Debug(false, false)], mid);
    assert [] + Shown(mid) == Shown(mid);
  }

  /** A prompt, a command typed at it, its start, its output and the next prompt: in every run that contains them
      the command is one block, with the text shown at the prompt, exactly the output shown meanwhile, and that
      prompt's code. */
  lemma OneCommandOneBlock(
      pre: seq<Firing>, before: int, typing: seq<Firing>, mid: seq<Firing>, exit: int, post: seq<Firing>)
    requires OnlyTyping(typing) && NoPrompt(mid)
    ensures var start := pre + [Prompt(before)] + typing;
            var fs := start + [Debug(false, false)] + mid + [Prompt(exit)] + post;
            var b := |ReadAll(Emitted(start)).blocks|;
            && b < |ReadAll(Emitted(fs)).blocks|
            && var command := ReadAll(Emitted(fs)).blocks[b].command;
            && ReadAll(Emitted(fs)).blocks[b] == Block(command, Shown(mid), Some(Some(exit)))
            && command == TrimEnd(NonZero(Shown(typing))) && Trimmed(command, NonZero(Shown(typing)))
  {
    var start := pre + [Prompt(before)] + typing;
    var running := start + [Debug(false, false)] + mid;
    CommandRuns(pre, before, typing, mid);
    TrimEndLaw(NonZero(Shown(typing)));
    BashIsOrderly(running);
    FireRead(running, Prompt(exit));
    Settled(running + [Prompt(exit)], post, |ReadAll(Emitted(start)).blocks|);
  }

  // ---- Which traps are marked as the start of a command ----

  /** A prompt has been drawn, and no trap has fired since then outside completions and subshells. */
  ghost predicate AwaitsCommand(fs: seq<Firing>) {
    exists k: nat :: k < |fs| && PromptAt(fs, k)
  }

  ghost predicate PromptAt(fs: seq<Firing>, k: nat)
    requires k < |fs|
  {
    fs[k].Prompt? && OnlyTyping(fs[k + 1..])
  }

  lemma AwaitsSnoc(fs: seq<Firing>, f: Firing)
    ensures AwaitsCommand(fs + [f]) <==> f.Prompt? || (AwaitsCommand(fs) && OnlyTyping([f]))
  {
    var all := fs + [f];
    forall k: nat | k < |fs| ensures PromptAt(all, k) <==> PromptAt(fs, k) && OnlyTyping([f]) {
      assert all[k + 1..] == fs[k + 1..] + [f];
      OnlyTypingSnoc(fs[k + 1..], f);
    }
    assert all[|fs| + 1..] == [];
    assert PromptAt(all, |fs|) <==> f.Prompt?;
    if AwaitsCommand(all) {
      var k: nat :| k < |all| && PromptAt(all, k);
      assert k < |fs| ==> PromptAt(fs, k);
    }
    if AwaitsCommand(fs) && OnlyTyping([f]) {
      var k: nat :| k < |fs| && PromptAt(fs, k);
      assert PromptAt(all, k);
    }
  }

  lemma OnlyTypingSnoc(fs: seq<Firing>, f: Firing)
    ensures OnlyTyping(fs + [f]) <==> OnlyTyping(fs) && OnlyTyping([f])
  {
    if OnlyTyping(fs + [f]) {
      assert forall i :: 0 <= i < |fs| ==> (fs + [f])[i] == fs[i];
      assert (fs + [f])[|fs|] == f;
    }
    if OnlyTyping([f]) {
      assert [f][0] == f;
    }
  }

  /** The sentinel is set exactly while a prompt awaits its command. */
  lemma {:induction false} AtPromptIff(fs: seq<Firing>)
    ensures After(fs).atPrompt <==> AwaitsCommand(fs)
  {
    if fs != [] {
      var front, f := fs[..|fs| - 1], fs[|fs| - 1];
      assert fs == front + [f];
      AtPromptIff(front);
      AwaitsSnoc(front, f);
      assert [f][0] == f;
    }
  }

  /** What is marked as the start of a command: a trap outside completions and subshells that is the first one since the
      last prompt, and nothing else. It does not matter what the trap fires for: a command that the user entered, or,
      when none was, the first entry of PROMPT_COMMAND. */
  lemma MarkedIff(fs: seq<Firing>, f: Firing)
    ensures MarkC in Fire(After(fs), f).1 <==> f == Debug(false, false) && AwaitsCommand(fs)
  {
    AtPromptIff(fs);
  }

  /** Enter on an empty line: the trap fires for the call of the prompt hook, before the hook runs. It is marked, and
      the drawn prompt, here a dollar sign, becomes the command of a block. */
  lemma EmptyLineIsMarked()
    ensures var fs := [Prompt(0), Shows(36), Debug(false, false), Prompt(0)];
            && Markers(Emitted(fs)) == [MarkA, MarkC, MarkD(Some(0)), MarkA]
            && ReadAll(Emitted(fs)).blocks == [Block([36], [], Some(Some(0)))]
  {
    var fs := [Prompt(0), Shows(36), Debug(false, false), Prompt(0)];
    assert fs[..3] == [Prompt(0), Shows(36), Debug(false, false)] && fs[..2] == [Prompt(0), Shows(36)];
    assert fs[..3][..2] == fs[..2] && fs[..2][..1] == [Prompt(0)] && [Prompt(0)][..0] == [];
    FireSnoc([], Prompt(0));
    FireSnoc([Prompt(0)], Shows(36));
    FireSnoc(fs[..2], Debug(false, false));
    FireSnoc(fs[..3], Prompt(0));
    assert [] + [Prompt(0)] == [Prompt(0)] && [Prompt(0)] + [Shows(36)] == fs[..2];
    assert fs[..2] + [Debug(false, false)] == fs[..3] && fs[..3] + [Prompt(0)] == fs;
    var ts := [MarkA, Text(36), MarkC, MarkD(Some(0)), MarkA];
    assert Emitted(fs) == ts;
    EmptyLineMarkers(ts);
    EmptyLineBlock(ts);
  }

  lemma EmptyLineMarkers(ts: seq<Token>)
    requires ts == [MarkA, Text(36), MarkC, MarkD(Some(0)), MarkA]
    ensures Markers(ts) == [MarkA, MarkC, MarkD(Some(0)), MarkA]
  {
    var t1, t2, t3, t4 := ts[..1], ts[..2], ts[..3], ts[..4];
    MarkersSnoc([], MarkA);
    MarkersSnoc(t1, Text(36));
    MarkersSnoc(t2, MarkC);
    MarkersSnoc(t3, MarkD(Some(0)));
    MarkersSnoc(t4, MarkA);
    assert t1 == [] + [MarkA] && t2 == t1 + [Text(36)] && t3 == t2 + [MarkC] && t4 == t3 + [MarkD(Some(0))];
    assert ts == t4 + [MarkA];
  }

  lemma EmptyLineBlock(ts: seq<Token>)
    requires ts == [MarkA, Text(36), MarkC, MarkD(Some(0)), MarkA]
    ensures ReadAll(ts).blocks == [Block([36], [], Some(Some(0)))]
  {
    var t2 := [MarkA] + [Text(36)];
    EmptyLineTyped();
    ReadSnoc(t2, MarkC);
    ReadSnoc(t2 + [MarkC], MarkD(Some(0)));
    ReadSnoc(t2 + [MarkC] + [MarkD(Some(0))], MarkA);
    assert ts == t2 + [MarkC] + [MarkD(Some(0))] + [MarkA];
    assert TrimEnd([36]) == [36] && [] + [Block([36], [], None)] == [Block([36], [], None)];
  }

  lemma EmptyLineTyped()
    ensures ReadAll([MarkA] + [Text(36)]) == Reading([], false, true, [36], [PromptStart])
  {
    assert [] + [MarkA] == [MarkA] && [] + [36] == [36] && [] + [PromptStart] == [PromptStart];
    ReadSnoc([], MarkA);
    ReadSnoc([MarkA], Text(36));
  }

  // ---- The last boundary ----

  /** The last boundary of a reading is not the end of a block. */
  ghost predicate NoEndLast(r: Reading) {
    r.skeleton != [] ==> !r.skeleton[|r.skeleton| - 1].BlockEnd?
  }

  lemma PerceiveNoEndLast(r: Reading, h: Hooks, f: Firing)
    requires Sane(r) && NoEndLast(r)
    ensures NoEndLast(Perceive(r, h, f))
  {
  }

  /** Bash draws a prompt right after each D, so the last boundary it leaves is never the end of a block. */
  lemma {:induction false} NeverEndsWithBlockEnd(fs: seq<Firing>)
    ensures NoEndLast(ReadAll(Emitted(fs)))
  {
    if fs != [] {
      var front, f := fs[..|fs| - 1], fs[|fs| - 1];
      assert fs == front + [f];
      NeverEndsWithBlockEnd(front);
      BashIsOrderly(front);
      FireRead(front, f);
      PerceiveNoEndLast(ReadAll(Emitted(front)), After(front), f);
    }
  }
}
