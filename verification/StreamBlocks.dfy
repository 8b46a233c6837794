/** The blocks of a stream, read off its tokens. */
module StreamBlocks {
  import opened Arith
  import opened Blocks
  import opened BlockParser

  /** The text among the tokens. */
  function TextIn(ts: seq<Token>): seq<byte> {
    if ts == [] then []
    else
      var front, t := TextIn(ts[..|ts| - 1]), ts[|ts| - 1];
      if t.Text? then front + [t.b] else front
  }

  /** Nothing that opens a block or draws a prompt. */
  predicate AtPrompt(ts: seq<Token>) {
    forall i :: 0 <= i < |ts| ==> ts[i] != MarkA && ts[i] != MarkC
  }

  /** Nothing that ends a block either. */
  predicate Quiet(ts: seq<Token>) {
    AtPrompt(ts) && forall i :: 0 <= i < |ts| ==> !ts[i].MarkD?
  }

  lemma TextSnoc(ts: seq<Token>, t: Token)
    ensures TextIn(ts + [t]) == if t.Text? then TextIn(ts) + [t.b] else TextIn(ts)
    ensures NonZero(TextIn(ts + [t])) == NonZero(TextIn(ts)) + if t.Text? && t.b != 0 then [t.b] else []
  {
    assert (ts + [t])[..|ts|] == ts;
    if t.Text? {
      assert (TextIn(ts) + [t.b])[..|TextIn(ts)|] == TextIn(ts);
    }
  }

  lemma CaptureOne(r: Reading, text: seq<byte>, t: Token)
    requires Sane(r) && r.capturing && !r.open && t != MarkA && t != MarkC
    ensures Read(r.(typed := r.typed + text), t)
         == r.(typed := r.typed + (text + if t.Text? && t.b != 0 then [t.b] else []))
  {
    if t.Text? && t.b != 0 {
      assert r.typed + (text + [t.b]) == (r.typed + text) + [t.b];
    } else {
      assert text + [] == text;
    }
  }

  /** At a prompt the text that is not 0 is taken for the command. */
  lemma {:induction false} Captures(ts: seq<Token>, typed: seq<Token>)
    requires AtPrompt(typed) && ReadAll(ts).capturing && !ReadAll(ts).open
    ensures ReadAll(ts + typed) == ReadAll(ts).(typed := ReadAll(ts).typed + NonZero(TextIn(typed)))
  {
    if typed == [] {
      assert ts + typed == ts && ReadAll(ts).typed + [] == ReadAll(ts).typed;
    } else {
      var front, t := typed[..|typed| - 1], typed[|typed| - 1];
      assert ts + typed == (ts + front) + [t] && typed == front + [t];
      Captures(ts, front);
      ReadSnoc(ts + front, t);
      TextSnoc(front, t);
      CaptureOne(ReadAll(ts), NonZero(TextIn(front)), t);
    }
  }

  /** `r'` is `r` with more text in its open block. */
  ghost predicate Longer(r: Reading, r': Reading, text: seq<byte>) {
    && Sane(r) && r.open && r'.open && |r'.blocks| == |r.blocks|
    && r'.blocks[Last(r)] == r.blocks[Last(r)].(text := r.blocks[Last(r)].text + text)
  }

  lemma CollectOne(r: Reading, r': Reading, text: seq<byte>, t: Token)
    requires Sane(r') && Longer(r, r', text) && Quiet([t])
    ensures Longer(r, Read(r', t), text + if t.Text? then [t.b] else [])
  {
    assert [t][0] == t;
    var before := r.blocks[Last(r)].text;
    if t.Text? {
      assert before + (text + [t.b]) == (before + text) + [t.b];
    } else {
      assert text + [] == text;
    }
  }

  /** The text of an open block grows by what is read. */
  lemma {:induction false} Collects(ts: seq<Token>, mid: seq<Token>)
    requires Quiet(mid) && ReadAll(ts).open
    ensures Longer(ReadAll(ts), ReadAll(ts + mid), TextIn(mid))
  {
    if mid == [] {
      var text := ReadAll(ts).blocks[Last(ReadAll(ts))].text;
      assert ts + mid == ts && text + [] == text;
    } else {
      var front, t := mid[..|mid| - 1], mid[|mid| - 1];
      assert ts + mid == (ts + front) + [t] && mid == front + [t];
      Collects(ts, front);
      ReadSnoc(ts + front, t);
      TextSnoc(front, t);
      CollectOne(ReadAll(ts), ReadAll(ts + front), TextIn(front), t);
      assert TextIn(front) + [] == TextIn(front);
    }
  }

  /** Block `b` receives no text any more. */
  ghost predicate Settled(r: Reading, b: BlockId) {
    Sane(r) && b < |r.blocks| && (r.open ==> b != Last(r))
  }

  lemma SettledOne(r: Reading, t: Token, b: BlockId)
    requires Settled(r, b)
    ensures Settled(Read(r, t), b) && Read(r, t).blocks[b] == r.blocks[b]
  {
  }

  /** A block that no longer receives text stays as it is. */
  lemma {:induction false} Stays(ts: seq<Token>, post: seq<Token>, b: BlockId)
    requires Settled(ReadAll(ts), b)
    ensures Settled(ReadAll(ts + post), b) && ReadAll(ts + post).blocks[b] == ReadAll(ts).blocks[b]
  {
    if post == [] {
      assert ts + post == ts;
    } else {
      var front, t := post[..|post| - 1], post[|post| - 1];
      assert ts + post == (ts + front) + [t];
      Stays(ts, front, b);
      ReadSnoc(ts + front, t);
      SettledOne(ReadAll(ts + front), t, b);
    }
  }

  /** A C at a prompt opens a block with what was typed there, and no text yet. */
  lemma Opens(pre: seq<Token>, typed: seq<Token>)
    requires AtPrompt(typed)
    ensures var before, r := ReadAll(pre + [MarkA] + typed), ReadAll(pre + [MarkA] + typed + [MarkC]);
            r.open && r.blocks == before.blocks + [Block(TrimEnd(NonZero(TextIn(typed))), [], None)]
  {
    ReadSnoc(pre, MarkA);
    Captures(pre + [MarkA], typed);
    assert [] + NonZero(TextIn(typed)) == NonZero(TextIn(typed));
    ReadSnoc(pre + [MarkA] + typed, MarkC);
  }

  lemma Uncons<T>(a: seq<T>, b: seq<T>)
    requires b != []
    ensures a + b == (a + [b[0]]) + b[1..]
  {
  }

  lemma CloseOne(r: Reading, t: Token)
    requires Sane(r) && r.open && !Quiet([t])
    ensures Settled(Read(r, t), Last(r))
    ensures Read(r, t).blocks[Last(r)] == r.blocks[Last(r)].(end := if t.MarkD? then Some(t.exit) else None)
  {
    assert [t][0] == t;
  }

  /** The next marker ends the open block, with an exit code if it is a D, and nothing changes the block after that. */
  lemma Closes(ts: seq<Token>, post: seq<Token>)
    requires ReadAll(ts).open && (post == [] || !Quiet([post[0]]))
    ensures var r, r' := ReadAll(ts), ReadAll(ts + post);
            && Last(r) < |r'.blocks|
            && r'.blocks[Last(r)]
                 == r.blocks[Last(r)].(end := if post != [] && post[0].MarkD? then Some(post[0].exit) else None)
  {
    if post == [] {
      assert ts + post == ts;
    } else {
      var t, rest := post[0], post[1..];
      ReadSnoc(ts, t);
      CloseOne(ReadAll(ts), t);
      Stays(ts + [t], rest, Last(ReadAll(ts)));
      Uncons(ts, post);
    }
  }

  /** On every stream, a prompt, what is shown at it, a C and what follows up to the next marker are one block: its
      command is the text shown at the prompt, without zero bytes and the white space at its end; its text is all that
      was shown after the C; it has an end only if that next marker is a D, and then the exit code that the D carries.
      */
  lemma BlockOfStream(pre: seq<Token>, typed: seq<Token>, mid: seq<Token>, post: seq<Token>)
    requires AtPrompt(typed) && Quiet(mid) && (post == [] || !Quiet([post[0]]))
    ensures var b := |ReadAll(pre + [MarkA] + typed).blocks|;
            var r := ReadAll(pre + [MarkA] + typed + [MarkC] + mid + post);
            && b < |r.blocks|
            && Trimmed(r.blocks[b].command, NonZero(TextIn(typed)))
            && r.blocks[b].text == TextIn(mid)
            && r.blocks[b].end == if post != [] && post[0].MarkD? then Some(post[0].exit) else None
  {
    var started := pre + [MarkA] + typed + [MarkC];
    Opens(pre, typed);
    Collects(started, mid);
    assert ReadAll(started + mid).blocks[Last(ReadAll(started))].text == [] + TextIn(mid) == TextIn(mid);
    Closes(started + mid, post);
    TrimEndLaw(NonZero(TextIn(typed)));
  }

  /** Without a prompt before it a C opens a block with no command, and blocks are numbered in the order of the C. */
  lemma {:induction false} NumberedByC(ts: seq<Token>)
    ensures |ReadAll(ts).blocks| == multiset(ts)[MarkC]
    ensures MarkA !in ts ==> forall b :: 0 <= b < |ReadAll(ts).blocks| ==> ReadAll(ts).blocks[b].command == []
    ensures MarkA !in ts ==> ReadAll(ts).typed == [] && !ReadAll(ts).capturing
  {
    if ts != [] {
      var front, t := ts[..|ts| - 1], ts[|ts| - 1];
      assert ts == front + [t];
      NumberedByC(front);
    }
  }
}
