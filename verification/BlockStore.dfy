/** The parser task that turns block events into stored blocks: three maps of open blocks, the store, and the drain that
    runs when the terminal goes away. */
module BlockStore {
  import opened Arith
  import opened Blocks
  import opened BlockParser

  const INDEX_CAP: nat := 256 * 1024

  datatype Final = Final(block: BlockId, exit: Option<int>, stdoutLen: nat)

  datatype Indexed = Indexed(block: BlockId, command: seq<byte>, text: seq<byte>)

  /** The blocks whose row the store refuses, and those whose blob file cannot be opened. */
  datatype Faults = Faults(create: set<BlockId>, open: set<BlockId>)

  const NO_FAULTS := Faults({}, {})

  /** The maps of the parser task, and what it has written: rows, closed blobs, finalisations and index entries. */
  datatype Task = Task(
    writers: map<BlockId, seq<byte>>,
    stdoutBufs: map<BlockId, seq<byte>>,
    blockMeta: map<BlockId, seq<byte>>,
    rows: map<BlockId, seq<byte>>,
    blobs: map<BlockId, seq<byte>>,
    finals: seq<Final>,
    index: seq<Indexed>)

  const IDLE := Task(map[], map[], map[], map[], map[], [], [])

  /** The part of `data` that still fits an index buffer of length `have`. */
  function Fitting(have: nat, data: seq<byte>): seq<byte> {
    var remaining := Max(INDEX_CAP - have, 0);
    data[..Min(|data|, remaining)]
  }

  function Handle(t: Task, f: Faults, e: BlockEvent): Task {
    match e
    case PromptStart => t
    case CommandStart(b, command) =>
      if b in f.create then t
      else t.(rows := t.rows[b := command],
              writers := if b in f.open then t.writers else t.writers[b := []],
              stdoutBufs := t.stdoutBufs[b := []],
              blockMeta := t.blockMeta[b := command])
    case OutputChunk(b, data) =>
      t.(stdoutBufs := if b in t.stdoutBufs
                       then t.stdoutBufs[b := t.stdoutBufs[b] + Fitting(|t.stdoutBufs[b]|, data)]
                       else t.stdoutBufs,
         writers := if b in t.writers then t.writers[b := t.writers[b] + data] else t.writers)
    case BlockEnd(b, exit) =>
      var text := if b in t.stdoutBufs then t.stdoutBufs[b] else [];
      t.(writers := t.writers - {b}, stdoutBufs := t.stdoutBufs - {b}, blockMeta := t.blockMeta - {b},
         blobs := if b in t.writers then t.blobs[b := t.writers[b]] else t.blobs,
         finals := t.finals + [Final(b, exit, if b in t.writers then |t.writers[b]| else 0)],
         index := if b in t.blockMeta then t.index + [Indexed(b, t.blockMeta[b], text)] else t.index)
  }

  function Persist(f: Faults, es: seq<BlockEvent>): Task {
    if es == [] then IDLE else Handle(Persist(f, es[..|es| - 1]), f, es[|es| - 1])
  }

  lemma PersistSnoc(f: Faults, es: seq<BlockEvent>, e: BlockEvent)
    ensures Persist(f, es + [e]) == Handle(Persist(f, es), f, e)
  {
    assert (es + [e])[..|es + [e]| - 1] == es;
  }

  function FinalsOf(fs: seq<Final>, b: BlockId): seq<Final> {
    if fs == [] then []
    else
      var front, x := FinalsOf(fs[..|fs| - 1], b), fs[|fs| - 1];
      if x.block == b then front + [x] else front
  }

  lemma FinalsSnoc(fs: seq<Final>, x: Final, b: BlockId)
    ensures FinalsOf(fs + [x], b) == if x.block == b then FinalsOf(fs, b) + [x] else FinalsOf(fs, b)
  {
    assert (fs + [x])[..|fs|] == fs;
  }

  function EntriesOf(xs: seq<Indexed>, b: BlockId): seq<Indexed> {
    if xs == [] then []
    else
      var front, x := EntriesOf(xs[..|xs| - 1], b), xs[|xs| - 1];
      if x.block == b then front + [x] else front
  }

  lemma EntriesSnoc(xs: seq<Indexed>, x: Indexed, b: BlockId)
    ensures EntriesOf(xs + [x], b) == if x.block == b then EntriesOf(xs, b) + [x] else EntriesOf(xs, b)
  {
    assert (xs + [x])[..|xs|] == xs;
  }

  /** The first bytes of the output, as many as are indexed. */
  function Head(s: seq<byte>): (h: seq<byte>)
    ensures |h| <= 262_144 && |h| <= |s| && h == s[..|h|] && (|h| < 262_144 ==> h == s)
  {
    s[..Min(|s|, INDEX_CAP)]
  }

  lemma HeadGrows(s: seq<byte>, data: seq<byte>)
    ensures Head(s) + Fitting(|Head(s)|, data) == Head(s + data)
  {
  }

  /** Block `b` had both its row and its blob. */
  predicate Sound(f: Faults, b: BlockId) { b !in f.create && b !in f.open }

  /** What the parser task and the store hold about block `b` after the events `es`. */
  ghost predicate Tracks(t: Task, f: Faults, es: seq<BlockEvent>, b: BlockId) {
    var out, end, command := OutputOf(es, b), EndOf(es, b), CommandOf(es, b);
    && (b in t.writers <==> Open(es, b) && Sound(f, b))
    && (b in t.blockMeta <==> Open(es, b) && b !in f.create)
    && (b in t.stdoutBufs <==> b in t.blockMeta)
    && (b in t.writers ==> t.writers[b] == out)
    && (b in t.stdoutBufs ==> t.stdoutBufs[b] == Head(out) && command == Some(t.blockMeta[b]))
    && (b in t.rows <==> command.Some? && b !in f.create)
    && (b in t.rows ==> command == Some(t.rows[b]))
    && (b in t.blobs <==> end.Some? && Sound(f, b))
    && (b in t.blobs ==> t.blobs[b] == out)
    && FinalsOf(t.finals, b)
         == (if end.Some? then [Final(b, end.value, if Sound(f, b) then |out| else 0)] else [])
    && EntriesOf(t.index, b)
         == (if end.Some? && b !in f.create && command.Some? then [Indexed(b, command.value, Head(out))] else [])
    && (end.Some? ==> command.Some?)
  }

  lemma StartTracks(t: Task, f: Faults, es: seq<BlockEvent>, c: BlockId, command: seq<byte>, b: BlockId)
    requires WellFormed(es + [CommandStart(c, command)]) && Tracks(t, f, es, b) && Tracks(t, f, es, c)
    ensures Tracks(Handle(t, f, CommandStart(c, command)), f, es + [CommandStart(c, command)], b)
  {
    WellFormedSnoc(es, CommandStart(c, command));
    SnocAt(es, CommandStart(c, command), b);
  }

  lemma ChunkTracks(t: Task, f: Faults, es: seq<BlockEvent>, c: BlockId, data: seq<byte>, b: BlockId)
    requires WellFormed(es + [OutputChunk(c, data)]) && Tracks(t, f, es, b)
    ensures Tracks(Handle(t, f, OutputChunk(c, data)), f, es + [OutputChunk(c, data)], b)
  {
    WellFormedSnoc(es, OutputChunk(c, data));
    SnocAt(es, OutputChunk(c, data), b);
    HeadGrows(OutputOf(es, b), data);
  }

  lemma EndTracks(t: Task, f: Faults, es: seq<BlockEvent>, c: BlockId, exit: Option<int>, b: BlockId)
    requires WellFormed(es + [BlockEnd(c, exit)]) && Tracks(t, f, es, b) && Tracks(t, f, es, c)
    ensures Tracks(Handle(t, f, BlockEnd(c, exit)), f, es + [BlockEnd(c, exit)], b)
  {
    WellFormedSnoc(es, BlockEnd(c, exit));
    if b == c {
      EndTracksSelf(t, f, es, c, exit);
    } else {
      EndTracksOther(t, f, es, c, exit, b);
    }
  }

  lemma EndTracksSelf(t: Task, f: Faults, es: seq<BlockEvent>, c: BlockId, exit: Option<int>)
    requires Open(es, c) && Tracks(t, f, es, c)
    ensures Tracks(Handle(t, f, BlockEnd(c, exit)), f, es + [BlockEnd(c, exit)], c)
  {
    SnocAt(es, BlockEnd(c, exit), c);
    FinalsSnoc(t.finals, Final(c, exit, if c in t.writers then |t.writers[c]| else 0), c);
    if c in t.blockMeta {
      EntriesSnoc(t.index, Indexed(c, t.blockMeta[c], t.stdoutBufs[c]), c);
    }
  }

  lemma EndTracksOther(t: Task, f: Faults, es: seq<BlockEvent>, c: BlockId, exit: Option<int>, b: BlockId)
    requires b != c && Tracks(t, f, es, b) && Tracks(t, f, es, c)
    ensures Tracks(Handle(t, f, BlockEnd(c, exit)), f, es + [BlockEnd(c, exit)], b)
  {
    SnocAt(es, BlockEnd(c, exit), b);
    FinalsSnoc(t.finals, Final(c, exit, if c in t.writers then |t.writers[c]| else 0), b);
    if c in t.blockMeta {
      EntriesSnoc(t.index, Indexed(c, t.blockMeta[c], t.stdoutBufs[c]), b);
    }
  }

  lemma HandleTracks(t: Task, f: Faults, es: seq<BlockEvent>, e: BlockEvent, b: BlockId)
    requires WellFormed(es + [e]) && Tracks(t, f, es, b)
    requires !e.PromptStart? ==> Tracks(t, f, es, e.block)
    ensures Tracks(Handle(t, f, e), f, es + [e], b)
  {
    match e
    case PromptStart => SnocAt(es, e, b);
    case CommandStart(c, command) => StartTracks(t, f, es, c, command, b);
    case OutputChunk(c, data) => ChunkTracks(t, f, es, c, data, b);
    case BlockEnd(c, exit) => EndTracks(t, f, es, c, exit, b);
  }

  /** The state of the parser task, for every block, after any well-formed event sequence. */
  lemma {:induction false} PersistTracks(f: Faults, es: seq<BlockEvent>)
    requires WellFormed(es)
    ensures forall b :: Tracks(Persist(f, es), f, es, b)
  {
    if es != [] {
      var front, e := es[..|es| - 1], es[|es| - 1];
      assert es == front + [e];
      PersistTracks(f, front);
      forall b ensures Tracks(Persist(f, es), f, es, b) {
        HandleTracks(Persist(f, front), f, front, e, b);
      }
    }
  }

  /** The three maps have the same keys, at all times, exactly as long as no open block lacks its blob. */
  lemma KeySetsAgree(f: Faults, es: seq<BlockEvent>)
    requires WellFormed(es)
    ensures Persist(f, es).stdoutBufs.Keys == Persist(f, es).blockMeta.Keys
    ensures Persist(f, es).writers.Keys == Persist(f, es).blockMeta.Keys
       <==> forall b :: b in f.open && b !in f.create ==> !Open(es, b)
  {
    PersistTracks(f, es);
    var t := Persist(f, es);
    assert forall b :: Tracks(t, f, es, b) ==> (b in t.stdoutBufs <==> b in t.blockMeta);
    if forall b :: b in f.open && b !in f.create ==> !Open(es, b) {
      forall b ensures b in t.writers <==> b in t.blockMeta {
        assert Tracks(t, f, es, b);
      }
    } else {
      var b :| b in f.open && b !in f.create && Open(es, b);
      assert Tracks(t, f, es, b);
      assert b in t.blockMeta.Keys && b !in t.writers.Keys;
    }
  }

  // ---- The shutdown drain ----

  /** The drain finalised every block that still had a writer, once, in some order. */
  ghost predicate Drained(t: Task, t': Task) {
    && t'.rows == t.rows && t'.index == t.index
    && t'.blobs == t.blobs + t.writers
    && Finalises(t.finals, t'.finals, t.writers)
  }

  /** `fs'` is `fs` with one finalisation, without an exit code, for each block of `ws`. */
  ghost predicate Finalises(fs: seq<Final>, fs': seq<Final>, ws: map<BlockId, seq<byte>>) {
    forall b :: FinalsOf(fs', b) == FinalsOf(fs, b) + if b in ws then [Final(b, None, |ws[b]|)] else []
  }

  lemma FinaliseOne(fs: seq<Final>, fs': seq<Final>, ws: map<BlockId, seq<byte>>, b: BlockId, data: seq<byte>)
    requires Finalises(fs, fs', ws) && b !in ws
    ensures Finalises(fs, fs' + [Final(b, None, |data|)], ws[b := data])
  {
    forall c
      ensures FinalsOf(fs' + [Final(b, None, |data|)], c)
           == FinalsOf(fs, c) + if c in ws[b := data] then [Final(c, None, |ws[b := data][c]|)] else []
    {
      FinalsSnoc(fs', Final(b, None, |data|), c);
      assert FinalsOf(fs', c) == FinalsOf(fs, c) + if c in ws then [Final(c, None, |ws[c]|)] else [];
    }
  }

  /** What the store holds about a block in the end. */
  ghost predicate Stored(t: Task, f: Faults, es: seq<BlockEvent>, b: BlockId) {
    var out, end, command := OutputOf(es, b), EndOf(es, b), CommandOf(es, b);
    && (b in t.rows <==> command.Some? && b !in f.create)
    && (b in t.rows ==> command == Some(t.rows[b]))
    && (b in t.blobs <==> command.Some? && Sound(f, b))
    && (b in t.blobs ==> t.blobs[b] == out)
    && FinalsOf(t.finals, b)
         == (if end.Some? then [Final(b, end.value, if Sound(f, b) then |out| else 0)]
             else if command.Some? && Sound(f, b) then [Final(b, None, |out|)] else [])
    && EntriesOf(t.index, b)
         == (if end.Some? && b !in f.create && command.Some? then [Indexed(b, command.value, Head(out))] else [])
  }

  lemma DrainStores(t: Task, t': Task, f: Faults, es: seq<BlockEvent>)
    requires forall b :: Tracks(t, f, es, b)
    requires Drained(t, t')
    ensures forall b :: Stored(t', f, es, b)
  {
    forall b ensures Stored(t', f, es, b) {
      assert Tracks(t, f, es, b);
    }
  }

  /** After any well-formed events and the drain, a block that started has been finalised exactly once if and only if
      its end was seen or it had both its row and its blob; it is never finalised twice. */
  lemma FinalisedOnceIff(f: Faults, es: seq<BlockEvent>, t: Task, b: BlockId)
    requires WellFormed(es) && Drained(Persist(f, es), t) && CommandOf(es, b).Some?
    ensures |FinalsOf(t.finals, b)| <= 1
    ensures |FinalsOf(t.finals, b)| == 1 <==> EndOf(es, b).Some? || Sound(f, b)
  {
    PersistTracks(f, es);
    DrainStores(Persist(f, es), t, f, es);
    assert Stored(t, f, es, b);
  }

  // ---- The loops of the source ----

  class Store {
    var rows: map<BlockId, seq<byte>>
    var blobs: map<BlockId, seq<byte>>
    var finals: seq<Final>
    var index: seq<Indexed>

    constructor ()
      ensures rows == map[] && blobs == map[] && finals == [] && index == []
    {
      rows, blobs, finals, index := map[], map[], [], [];
    }

    /** What the parser task has left behind when its maps are gone. */
    function Left(): Task
      reads this
    {
      Task(map[], map[], map[], rows, blobs, finals, index)
    }
  }

  /** Receive the reads of one terminal until it closes, persist the blocks in them, then drain. */
  method ParserTask(chunks: seq<seq<Token>>, f: Faults, store: Store)
    requires store.rows == map[] && store.blobs == map[] && store.finals == [] && store.index == []
    modifies store
    ensures forall b :: Stored(store.Left(), f, Events(chunks), b)
  {
    var parser := new BlockMachine();
    var writers: map<BlockId, seq<byte>> := map[];
    var stdoutBufs: map<BlockId, seq<byte>> := map[];
    var blockMeta: map<BlockId, seq<byte>> := map[];
    assert chunks[..0] == [];
    for i := 0 to |chunks|
      invariant fresh(parser) && parser.Valid() && parser.pending == []
      invariant parser.inputs == Reads(chunks[..i])
      invariant Task(writers, stdoutBufs, blockMeta, store.rows, store.blobs, store.finals, store.index)
             == Persist(f, parser.emitted)
    {
      assert chunks[..i + 1][..i] == chunks[..i];
      ghost var done := parser.emitted;
      var events := parser.Feed(chunks[i]);
      writers, stdoutBufs, blockMeta := HandleAll(events, f, writers, stdoutBufs, blockMeta, store, done);
    }
    assert chunks[..|chunks|] == chunks;
    assert parser.emitted + [] == parser.emitted;
    ghost var before := Task(writers, stdoutBufs, blockMeta, store.rows, store.blobs, store.finals, store.index);
    RunRecorded(Reads(chunks));
    PersistTracks(f, Events(chunks));
    Drain(writers, store);
    DrainStores(before, store.Left(), f, Events(chunks));
  }

  /** The loop over the events of one read. */
  method HandleAll(events: seq<BlockEvent>, f: Faults, writers: map<BlockId, seq<byte>>,
                   stdoutBufs: map<BlockId, seq<byte>>, blockMeta: map<BlockId, seq<byte>>, store: Store,
                   ghost done: seq<BlockEvent>)
    returns (writers': map<BlockId, seq<byte>>, stdoutBufs': map<BlockId, seq<byte>>,
             blockMeta': map<BlockId, seq<byte>>)
    requires Task(writers, stdoutBufs, blockMeta, store.rows, store.blobs, store.finals, store.index)
          == Persist(f, done)
    modifies store
    ensures Task(writers', stdoutBufs', blockMeta', store.rows, store.blobs, store.finals, store.index)
         == Persist(f, done + events)
  {
    writers', stdoutBufs', blockMeta' := writers, stdoutBufs, blockMeta;
    assert done + events[..0] == done;
    for j := 0 to |events|
      invariant Task(writers', stdoutBufs', blockMeta', store.rows, store.blobs, store.finals, store.index)
             == Persist(f, done + events[..j])
    {
      PersistSnoc(f, done + events[..j], events[j]);
      assert done + events[..j + 1] == (done + events[..j]) + [events[j]];
      writers', stdoutBufs', blockMeta' := HandleEvent(events[j], f, writers', stdoutBufs', blockMeta', store);
    }
    assert events[..|events|] == events;
  }

  method HandleEvent(e: BlockEvent, f: Faults, writers: map<BlockId, seq<byte>>,
                     stdoutBufs: map<BlockId, seq<byte>>, blockMeta: map<BlockId, seq<byte>>, store: Store)
    returns (writers': map<BlockId, seq<byte>>, stdoutBufs': map<BlockId, seq<byte>>,
             blockMeta': map<BlockId, seq<byte>>)
    modifies store
    ensures Task(writers', stdoutBufs', blockMeta', store.rows, store.blobs, store.finals, store.index)
         == Handle(old(Task(writers, stdoutBufs, blockMeta, store.rows, store.blobs, store.finals, store.index)), f, e)
  {
    writers', stdoutBufs', blockMeta' := writers, stdoutBufs, blockMeta;
    match e
    case PromptStart =>
    case CommandStart(b, command) =>
      if b in f.create {
        return;
      }
      store.rows := store.rows[b := command];
      if b !in f.open {
        writers' := writers'[b := []];
      }
      stdoutBufs' := stdoutBufs'[b := []];
      blockMeta' := blockMeta'[b := command];
    case OutputChunk(b, data) =>
      if b in stdoutBufs' {
        var buf := stdoutBufs'[b];
        var remaining := Max(INDEX_CAP - |buf|, 0);
        if remaining > 0 {
          stdoutBufs' := stdoutBufs'[b := buf + data[..Min(|data|, remaining)]];
        } else {
          assert buf + data[..0] == buf;
        }
      }
      if b in writers' {
        writers' := writers'[b := writers'[b] + data];
      }
    case BlockEnd(b, exit) =>
      var stdoutLen := 0;
      if b in writers' {
        stdoutLen := |writers'[b]|;
        store.blobs := store.blobs[b := writers'[b]];
      }
      writers' := writers' - {b};
      store.finals := store.finals + [Final(b, exit, stdoutLen)];
      var text := if b in stdoutBufs' then stdoutBufs'[b] else [];
      stdoutBufs' := stdoutBufs' - {b};
      if b in blockMeta' {
        store.index := store.index + [Indexed(b, blockMeta'[b], text)];
      }
      blockMeta' := blockMeta' - {b};
  }

  /** Close and finalise every block that still has a writer; a hash map yields them in no particular order. */
  method Drain(writers: map<BlockId, seq<byte>>, store: Store)
    modifies store`blobs, store`finals
    ensures store.blobs == old(store.blobs) + writers
    ensures Finalises(old(store.finals), store.finals, writers)
  {
    var left := writers.Keys;
    assert writers - left == map[];
    while left != {}
      invariant left <= writers.Keys
      invariant store.blobs == old(store.blobs) + (writers - left)
      invariant Finalises(old(store.finals), store.finals, writers - left)
    {
      var b :| b in left;
      var data := writers[b];
      assert writers - (left - {b}) == (writers - left)[b := data];
      store.blobs := store.blobs[b := data];
      FinaliseOne(old(store.finals), store.finals, writers - left, b, data);
      assert old(store.blobs) + (writers - (left - {b})) == (old(store.blobs) + (writers - left))[b := data];
      store.finals := store.finals + [Final(b, None, |data|)];
      left := left - {b};
    }
    assert writers - left == writers;
  }
}
