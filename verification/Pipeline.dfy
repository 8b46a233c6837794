/** From the shell to the store: what remains of each command that was run. */
module Pipeline {
  import opened Arith
  import opened Blocks
  import opened BlockParser
  import opened ShellHooks
  import opened BlockStore
  import PaneWatch

  /** Every block that started, on any stream and in any cut, is finalised exactly once when the store works. */
  lemma EveryBlockFinalisedOnce(t: Task, chunks: seq<seq<Token>>)
    requires forall b :: Stored(t, NO_FAULTS, Events(chunks), b)
    ensures forall b: BlockId :: |FinalsOf(t.finals, b)| == if b < |ReadAll(Flatten(chunks)).blocks| then 1 else 0
    ensures forall b :: b in t.blobs ==> t.blobs[b] == OutputOf(Events(chunks), b)
  {
    StreamOfReads(chunks);
    RunRecorded(Reads(chunks));
    forall b: BlockId ensures |FinalsOf(t.finals, b)| == if b < |ReadAll(Flatten(chunks)).blocks| then 1 else 0 {
      assert Stored(t, NO_FAULTS, Events(chunks), b);
    }
    forall b | b in t.blobs ensures t.blobs[b] == OutputOf(Events(chunks), b) {
      assert Stored(t, NO_FAULTS, Events(chunks), b);
    }
  }

  /** A command run at a bash prompt, in any run of the shell and however the terminal output is cut: the store
      holds one row with the text shown at the prompt, one blob with exactly its output, one index entry with the head
      of that output, and one finalisation with the exit code of the prompt that followed. */
  lemma CommandsReachTheStore(
      t: Task, chunks: seq<seq<Token>>, pre: seq<Firing>, before: int, typing: seq<Firing>, mid: seq<Firing>,
      exit: int, post: seq<Firing>)
    requires OnlyTyping(typing) && NoPrompt(mid)
    requires Flatten(chunks)
          == Emitted(pre + [Prompt(before)] + typing + [Debug(false, false)] + mid + [Prompt(exit)] + post)
    requires forall b :: Stored(t, NO_FAULTS, Events(chunks), b)
    ensures var b := |ReadAll(Emitted(pre + [Prompt(before)] + typing)).blocks|;
            var command := TrimEnd(NonZero(Shown(typing)));
            && Trimmed(command, NonZero(Shown(typing)))
            && b in t.rows && t.rows[b] == command
            && b in t.blobs && t.blobs[b] == Shown(mid)
            && FinalsOf(t.finals, b) == [Final(b, Some(exit), |Shown(mid)|)]
            && EntriesOf(t.index, b) == [Indexed(b, command, Head(Shown(mid)))]
  {
    var start := pre + [Prompt(before)] + typing;
    var b := |ReadAll(Emitted(start)).blocks|;
    OneCommandOneBlock(pre, before, typing, mid, exit, post);
    BashIsOrderly(start + [Debug(false, false)] + mid + [Prompt(exit)] + post);
    BlockByBlock(chunks);
    assert Stored(t, NO_FAULTS, Events(chunks), b);
  }

  /** A command still running when the terminal goes away: its blob is complete, it is finalised once, by the
      drain and without an exit code, and it is not indexed. */
  lemma UnfinishedCommands(
      t: Task, chunks: seq<seq<Token>>, pre: seq<Firing>, before: int, typing: seq<Firing>, mid: seq<Firing>)
    requires OnlyTyping(typing) && NoPrompt(mid)
    requires Flatten(chunks) == Emitted(pre + [Prompt(before)] + typing + [Debug(false, false)] + mid)
    requires forall b :: Stored(t, NO_FAULTS, Events(chunks), b)
    ensures var b := |ReadAll(Emitted(pre + [Prompt(before)] + typing)).blocks|;
            && b in t.blobs && t.blobs[b] == Shown(mid)
            && FinalsOf(t.finals, b) == [Final(b, None, |Shown(mid)|)]
            && EntriesOf(t.index, b) == []
  {
    var start := pre + [Prompt(before)] + typing;
    var b := |ReadAll(Emitted(start)).blocks|;
    CommandRuns(pre, before, typing, mid);
    BashIsOrderly(start + [Debug(false, false)] + mid);
    BlockByBlock(chunks);
    assert Stored(t, NO_FAULTS, Events(chunks), b);
  }

  // ---- The whole way ----

  /** A stretch of a shell's life: what came before, a prompt, what was shown up to the command, the command, and, when
      it ended, the prompt that followed it with its exit code and the rest. */
  datatype Stretch =
    | Ended(pre: seq<Firing>, before: int, typing: seq<Firing>, mid: seq<Firing>, exit: int, post: seq<Firing>)
    | Running(pre: seq<Firing>, before: int, typing: seq<Firing>, mid: seq<Firing>)

  /** The run of the shell consists of this stretch. */
  ghost predicate Describes(c: Stretch, fs: seq<Firing>) {
    var started := c.pre + [Prompt(c.before)] + c.typing + [Debug(false, false)] + c.mid;
    && OnlyTyping(c.typing) && NoPrompt(c.mid)
    && fs == if c.Ended? then started + [Prompt(c.exit)] + c.post else started
  }

  /** What the store has kept of its command. */
  ghost predicate Kept(t: Task, c: Stretch) {
    var b := |ReadAll(Emitted(c.pre + [Prompt(c.before)] + c.typing)).blocks|;
    var command := TrimEnd(NonZero(Shown(c.typing)));
    && Trimmed(command, NonZero(Shown(c.typing)))
    && b in t.blobs && t.blobs[b] == Shown(c.mid)
    && (c.Ended? ==> b in t.rows && t.rows[b] == command)
    && FinalsOf(t.finals, b) == [Final(b, if c.Ended? then Some(c.exit) else None, |Shown(c.mid)|)]
    && EntriesOf(t.index, b) == if c.Ended? then [Indexed(b, command, Head(Shown(c.mid)))] else []
  }

  lemma StretchKept(t: Task, chunks: seq<seq<Token>>, fs: seq<Firing>, c: Stretch)
    requires Flatten(chunks) == Emitted(fs) && Describes(c, fs)
    requires forall b :: Stored(t, NO_FAULTS, Events(chunks), b)
    ensures Kept(t, c)
  {
    TrimEndLaw(NonZero(Shown(c.typing)));
    if c.Ended? {
      CommandsReachTheStore(t, chunks, c.pre, c.before, c.typing, c.mid, c.exit, c.post);
    } else {
      UnfinishedCommands(t, chunks, c.pre, c.before, c.typing, c.mid);
    }
  }

  /** The parser task of a bash pane, with a working store: however the output is cut, in the end every command of
      every run of the shell has been kept, and every block has been finalised exactly once. */
  method PersistBashPane(ghost fs: seq<Firing>, chunks: seq<seq<Token>>, store: Store)
    requires Flatten(chunks) == Emitted(fs)
    requires store.rows == map[] && store.blobs == map[] && store.finals == [] && store.index == []
    modifies store
    ensures forall c :: Describes(c, fs) ==> Kept(store.Left(), c)
    ensures forall b: BlockId ::
              |FinalsOf(store.Left().finals, b)| == if b < |ReadAll(Emitted(fs)).blocks| then 1 else 0
  {
    ParserTask(chunks, NO_FAULTS, store);
    EveryBlockFinalisedOnce(store.Left(), chunks);
    forall c | Describes(c, fs) ensures Kept(store.Left(), c) {
      StretchKept(store.Left(), chunks, fs, c);
    }
  }

  // ---- What the state tracker learns ----

  /** The tracker after the parser task has pushed the marker of each event into it. */
  function Tracked(t: PaneWatch.Tracker, es: seq<BlockEvent>, at: int): PaneWatch.Tracker {
    if es == [] then t
    else
      var front, e := Tracked(t, es[..|es| - 1], at), es[|es| - 1];
      match e
      case PromptStart => PaneWatch.Marked(front, PaneWatch.A, at)
      case CommandStart(_, _) => PaneWatch.Marked(front, PaneWatch.C, at)
      case BlockEnd(_, exit) => PaneWatch.Marked(front, PaneWatch.D(exit), at)
      case OutputChunk(_, _) => front
  }

  lemma {:induction false} TrackedMarker(t: PaneWatch.Tracker, es: seq<BlockEvent>, at: int)
    ensures var s, t' := Skeleton(es), Tracked(t, es, at);
            && t'.override == t.override && t'.rootPid == t.rootPid && t'.state == t.state
            && (if s == [] then t'.lastMarker == t.lastMarker
                else t'.lastMarker.Some? && (t'.lastMarker.value.D? <==> s[|s| - 1].BlockEnd?))
  {
    if es != [] {
      TrackedMarker(t, es[..|es| - 1], at);
    }
  }

  /** With the bash integration a pane whose process is gone and whose output has been read is reported as done,
      not as crashed, whatever the last exit code was. */
  lemma DeadBashPaneIsDone(t: PaneWatch.Tracker, fs: seq<Firing>, chunks: seq<seq<Token>>, at: int, now: int)
    requires Flatten(chunks) == Emitted(fs)
    requires t.lastMarker == None && t.rootPid > 0 && (t.override == None || now >= t.override.value.1)
    ensures PaneWatch.Evaluated(Tracked(t, Events(chunks), at), now, false).state == PaneWatch.Done
  {
    ChunkingIndependence(chunks);
    NeverEndsWithBlockEnd(fs);
    TrackedMarker(t, Events(chunks), at);
  }
}
