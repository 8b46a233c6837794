/** The circular buffer that replays the tail of a pane's output. */
module RingBuf {
  import opened Arith

  /** The last `cap` bytes of `s`, or all of it. */
  function Tail(s: seq<byte>, cap: nat): seq<byte> {
    if |s| <= cap then s else s[|s| - cap..]
  }

  /** The tail is a suffix: all of it when it fits, and as long as fits otherwise. */
  lemma TailLaw(s: seq<byte>, cap: nat)
    ensures |Tail(s, cap)| <= cap && |Tail(s, cap)| <= |s| && (|Tail(s, cap)| < cap ==> Tail(s, cap) == s)
    ensures s == s[..|s| - |Tail(s, cap)|] + Tail(s, cap)
  {
  }

  /** Dropping old bytes early does not change which bytes are the last ones. */
  lemma TailOfTails(a: seq<byte>, b: seq<byte>, cap: nat)
    ensures Tail(Tail(a, cap) + Tail(b, cap), cap) == Tail(a + b, cap)
  {
  }

  /** Append one byte and drop the oldest one if there is no room. */
  function Slide(c: seq<byte>, b: byte, cap: nat): seq<byte>
    requires cap > 0
  {
    if |c| < cap then c + [b] else c[1..] + [b]
  }

  lemma SlideKeepsTail(s: seq<byte>, b: byte, cap: nat)
    requires cap > 0
    ensures Slide(Tail(s, cap), b, cap) == Tail(s + [b], cap)
  {
  }

  lemma NextTail(was: seq<byte>, kept: seq<byte>, i: nat, cap: nat)
    requires cap > 0 && i < |kept|
    ensures Slide(Tail(was + kept[..i], cap), kept[i], cap) == Tail(was + kept[..i + 1], cap)
  {
    SlideKeepsTail(was + kept[..i], kept[i], cap);
    assert was + kept[..i] + [kept[i]] == was + kept[..i + 1];
  }

  /** The `len` bytes of the circular store `s` that start at `head`. */
  function Linear(s: seq<byte>, head: nat, len: nat): seq<byte>
    requires head <= |s| && len <= |s|
  {
    if head + len <= |s| then s[head..head + len] else s[head..] + s[..head + len - |s|]
  }

  /** The position `i` of a circle of `cap` cells, at most one turn ahead. */
  function Around(i: nat, cap: nat): nat
    requires i < 2 * cap
  {
    if i < cap then i else i - cap
  }

  /** The remainder that the source computes. */
  method Wrap(i: nat, cap: nat) returns (r: nat)
    requires i < 2 * cap
    ensures r == Around(i, cap)
  {
    ModOnce(i, cap);
    r := i % cap;
  }

  /** Writing after the newest byte appends; when the store is full this overwrites the oldest byte. */
  lemma WriteSlides(s: seq<byte>, head: nat, len: nat, b: byte)
    requires head < |s| && len <= |s|
    ensures var s' := s[Around(head + len, |s|) := b];
            Slide(Linear(s, head, len), b, |s|)
              == if len < |s| then Linear(s', head, len + 1) else Linear(s', Around(head + 1, |s|), |s|)
  {
    if len < |s| {
      AppendByte(s, head, len, b);
    } else {
      ReplaceOldest(s, head, b);
    }
  }

  lemma AppendByte(s: seq<byte>, head: nat, len: nat, b: byte)
    requires head < |s| && len < |s|
    ensures Linear(s[Around(head + len, |s|) := b], head, len + 1) == Linear(s, head, len) + [b]
  {
    var s' := s[Around(head + len, |s|) := b];
    if head + len < |s| {
      assert s'[head..head + len + 1] == s[head..head + len] + [b];
    } else {
      var k := head + len - |s|;
      assert s'[head..] == s[head..] && s'[..k + 1] == s[..k] + [b];
      assert s[head..] + (s[..k] + [b]) == s[head..] + s[..k] + [b];
    }
  }

  lemma ReplaceOldest(s: seq<byte>, head: nat, b: byte)
    requires head < |s|
    ensures Linear(s[head := b], Around(head + 1, |s|), |s|) == Linear(s, head, |s|)[1..] + [b]
  {
    var s' := s[head := b];
    if head + 1 < |s| {
      assert s'[head + 1..] == s[head..][1..] && s'[..head + 1] == s[..head] + [b];
      assert (s[head..] + s[..head])[1..] == s[head..][1..] + s[..head];
      assert s[head..][1..] + (s[..head] + [b]) == s[head..][1..] + s[..head] + [b];
    } else {
      assert Linear(s, head, |s|)[1..] == s[..head];
      assert s' == s[..head] + [b];
    }
  }

  class RingBuf {
    var buf: array<byte>
    var head: nat
    var len: nat
    const cap: nat
    /** Everything pushed since the buffer was created. */
    ghost var stream: seq<byte>

    /** The stored bytes, oldest first. */
    ghost function Contents(): seq<byte>
      reads this, buf
      requires buf.Length == cap && len <= cap && head <= cap
    {
      Linear(buf[..], head, len)
    }

    ghost predicate Valid()
      reads this, buf
    {
      && buf.Length == cap && len <= cap && (if cap == 0 then head == 0 else head < cap)
      && Contents() == Tail(stream, cap)
    }

    constructor (capacity: nat)
      ensures Valid() && fresh(buf) && cap == capacity && stream == []
    {
      cap := capacity;
      buf := new byte[capacity](_ => 0);
      head, len := 0, 0;
      stream := [];
    }

    method Push(bytes: seq<byte>)
      requires Valid()
      modifies this`head, this`len, this`stream, buf
      ensures Valid() && buf == old(buf)
      ensures stream == old(stream) + bytes
    {
      if cap == 0 || bytes == [] {
        stream := stream + bytes;
        return;
      }
      var kept := if |bytes| >= cap then bytes[|bytes| - cap..] else bytes;
      assert kept == Tail(bytes, cap);
      WriteAll(kept);
      TailOfTails(stream, bytes, cap);
      stream := stream + bytes;
    }

    method WriteAll(kept: seq<byte>)
      requires buf.Length == cap && len <= cap && head < cap
      modifies this`head, this`len, buf
      ensures buf == old(buf) && stream == old(stream) && len <= cap && head < cap
      ensures Contents() == Tail(old(Contents()) + kept, cap)
    {
      ghost var was := Contents();
      assert was + kept[..0] == was;
      for i := 0 to |kept|
        invariant buf == old(buf) && stream == old(stream) && len <= cap && head < cap
        invariant Contents() == Tail(was + kept[..i], cap)
      {
        NextTail(was, kept, i, cap);
        PushByte(kept[i]);
      }
      assert kept[..|kept|] == kept;
    }

    /** The body of the loop: write after the newest byte, over the oldest one when the buffer is full. */
    method PushByte(b: byte)
      requires buf.Length == cap && len <= cap && head < cap
      modifies this`head, this`len, buf
      ensures buf == old(buf) && stream == old(stream) && len <= cap && head < cap
      ensures Contents() == Slide(old(Contents()), b, cap)
    {
      ghost var before, h, n := buf[..], head, len;
      var writePos := Wrap(head + len, cap);
      buf[writePos] := b;
      if len < cap {
        len := len + 1;
      } else {
        head := Wrap(head + 1, cap);
      }
      WriteSlides(before, h, n, b);
      assert buf[..] == before[writePos := b];
    }

    /** What a client that attaches now is sent. */
    method Snapshot() returns (out: seq<byte>)
      requires Valid()
      ensures out == Tail(stream, cap)
    {
      if len == 0 {
        return [];
      }
      if head + len <= cap {
        out := buf[head..head + len];
      } else {
        out := buf[head..] + buf[..len - (cap - head)];
      }
    }
  }

  function Flatten(chunks: seq<seq<byte>>): seq<byte> {
    if chunks == [] then [] else chunks[0] + Flatten(chunks[1..])
  }

  /** A replay depends on the bytes pushed and not on how they were cut into pushes. */
  method ReplayOf(chunks: seq<seq<byte>>, capacity: nat) returns (out: seq<byte>)
    ensures out == Tail(Flatten(chunks), capacity)
  {
    var r := new RingBuf(capacity);
    ghost var done: seq<byte> := [];
    assert chunks[0..] == chunks;
    for i := 0 to |chunks|
      invariant r.Valid() && r.cap == capacity && fresh(r) && fresh(r.buf)
      invariant r.stream == done && done + Flatten(chunks[i..]) == Flatten(chunks)
    {
      NextChunk(done, chunks, i);
      r.Push(chunks[i]);
      done := done + chunks[i];
    }
    assert done == Flatten(chunks);
    out := r.Snapshot();
  }

  lemma NextChunk(done: seq<byte>, chunks: seq<seq<byte>>, i: nat)
    requires i < |chunks|
    ensures done + Flatten(chunks[i..]) == (done + chunks[i]) + Flatten(chunks[i + 1..])
  {
    assert chunks[i..][0] == chunks[i] && chunks[i..][1..] == chunks[i + 1..];
  }
}
