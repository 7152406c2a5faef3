/** A string payload that arrives over several calls of `redis_parser_execute`.
    The parser keeps the string's record, with its `remaining` count, between
    the calls, so the second call resumes in the `bulk` state. */
module Chunks {
  import opened RespTypes
  import opened Machine
  import opened Stages
  import opened Lines

  /** The first call is given `a`, a part of the payload shorter than what
      remains. It makes one chunk callback with all of `a`, lowers the
      count by `|a|`, and returns `|a|` without completing. The second call
      is given the rest `b` of the payload, its `\r\n` and any bytes after.
      Its first callback is a chunk with all of `b` and a count of 0. It
      then reads the `\r\n` and goes on in the `done` block. The two chunks
      together are the payload. */
  lemma SplitPayload(p: Config, a: seq<Byte>, b: seq<Byte>, rest: seq<Byte>, h: Event -> bool)
    requires Valid(p) && p.stackidx >= 0 && p.state == Bulk
    requires 0 < |a| && 0 < |b| && p.stack[p.stackidx].remaining == |a| + |b|
    requires h(StringChunk(p.stack[p.stackidx].(remaining := |b|), 0, a))
    requires h(StringChunk(p.stack[p.stackidx].(remaining := 0), 0, b))
    ensures var top := p.stack[p.stackidx];
      var o1 := Execute(p, a, h);
      var p1 := p.(stack := p.stack[p.stackidx := top.(remaining := |b|)], nread := p.nread + |a|);
      o1 == Outcome(p1, |a|, Exhausted, [StringChunk(top.(remaining := |b|), 0, a)]) &&
      var buf := b + [CR, LF] + rest;
      var o2 := Execute(p1, buf, h);
      var fin := top.(remaining := 0);
      var d := p1.(state := BulkLf, stack := p.stack[p.stackidx := fin], nread := p1.nread + |b| + 1);
      Unwindable(d, p1) &&
      o2 == Prepend([StringChunk(fin, 0, b)], AfterDone(d, buf, |b| + 1, h, p1)) &&
      o1.events[0].data + o2.events[0].data == a + b
  {
    FirstPart(p, a, |b|, h);
    var top := p.stack[p.stackidx];
    var p1 := p.(stack := p.stack[p.stackidx := top.(remaining := |b|)], nread := p.nread + |a|);
    LastPart(p1, b, rest, h);
    assert p1.stack[p1.stackidx := top.(remaining := 0)] == p.stack[p.stackidx := top.(remaining := 0)];
  }

  /** A call given less of the payload than remains: one chunk with all
      of it, and the call returns having used all its input. */
  lemma FirstPart(p: Config, a: seq<Byte>, left: nat, h: Event -> bool)
    requires Valid(p) && p.stackidx >= 0 && p.state == Bulk
    requires 0 < |a| && 0 < left && p.stack[p.stackidx].remaining == |a| + left
    requires h(StringChunk(p.stack[p.stackidx].(remaining := left), 0, a))
    ensures var top := p.stack[p.stackidx];
      var p1 := p.(stack := p.stack[p.stackidx := top.(remaining := left)], nread := p.nread + |a|);
      Valid(p1) && Execute(p, a, h) == Outcome(p1, |a|, Exhausted, [StringChunk(top.(remaining := left), 0, a)])
  {
    assert a[0..] == a;
    RunBulkPart(p, a, 0, h, p);
  }

  /** A call given all that remains of the payload and its `\r\n`: one
      chunk with all of it, then the `done` block. */
  lemma LastPart(p: Config, b: seq<Byte>, rest: seq<Byte>, h: Event -> bool)
    requires Valid(p) && p.stackidx >= 0 && p.state == Bulk
    requires p.stack[p.stackidx].remaining == |b|
    requires h(StringChunk(p.stack[p.stackidx].(remaining := 0), 0, b))
    ensures var buf := b + [CR, LF] + rest;
      var fin := p.stack[p.stackidx].(remaining := 0);
      var d := p.(state := BulkLf, stack := p.stack[p.stackidx := fin], nread := p.nread + |b| + 1);
      Unwindable(d, p) &&
      Execute(p, buf, h) == Prepend([StringChunk(fin, 0, b)], AfterDone(d, buf, |b| + 1, h, p))
  {
    var buf := b + [CR, LF] + rest;
    assert buf[0..|b|] == b;
    assert Execute(p, buf, h) == Run(p, buf, 0, h, p);
    RunBulkWhole(p, buf, 0, h, p);
    var fin := p.stack[p.stackidx].(remaining := 0);
    var c2 := p.(state := BulkCr, stack := p.stack[p.stackidx := fin], nread := p.nread + |b|);
    PayloadEnd(c2, buf, |b|, h, p);
    var d := c2.(state := BulkLf, nread := c2.nread + 1);
    assert [] + AfterDone(d, buf, |b| + 1, h, p).events == AfterDone(d, buf, |b| + 1, h, p).events;
  }

  /** The parts of a payload, joined in order. */
  function Flatten(parts: seq<seq<Byte>>): seq<Byte>
  {
    if parts == [] then [] else parts[0] + Flatten(parts[1..])
  }

  /** The bytes the chunk callbacks among `evs` deliver, in order. */
  function ChunkBytes(evs: seq<Event>): seq<Byte>
  {
    if evs == [] then []
    else (if evs[0].StringChunk? then evs[0].data else []) + ChunkBytes(evs[1..])
  }

  /** The callbacks of all the calls in `os`, in order. */
  function CallEvents(os: seq<Outcome>): seq<Event>
  {
    if os == [] then [] else os[0].events + CallEvents(os[1..])
  }

  /** One call per part, each from the parser the one before it left, for
      as long as that parser can be called again. */
  function Calls(p: Config, parts: seq<seq<Byte>>, h: Event -> bool): (os: seq<Outcome>)
    requires Valid(p)
    ensures |os| <= |parts|
    decreases |parts|
  {
    if parts == [] then []
    else
      var o := Execute(p, parts[0], h);
      [o] + (if Valid(o.parser) then Calls(o.parser, parts[1..], h) else [])
  }

  /** The parser the last of the calls `os` left, or `p` when there are none. */
  function LastParser(p: Config, os: seq<Outcome>): Config
  {
    if os == [] then p else os[|os| - 1].parser
  }

  /** The chunks of a string whose record is `top` when it is given the
      parts one call each and `left` bytes of payload follow them: each
      chunk holds its part, with the count of what is still to come. */
  function PartChunks(top: Record, parts: seq<seq<Byte>>, left: nat): seq<Event>
  {
    if parts == [] then []
    else [StringChunk(top.(remaining := |Flatten(parts[1..])| + left), 0, parts[0])] + PartChunks(top, parts[1..], left)
  }

  /** The chunks of the parts deliver the parts, in order. */
  lemma {:induction false} PartChunksBytes(top: Record, parts: seq<seq<Byte>>, left: nat)
    ensures ChunkBytes(PartChunks(top, parts, left)) == Flatten(parts)
    decreases |parts|
  {
    if parts != [] {
      var evs := PartChunks(top, parts, left);
      assert evs[1..] == PartChunks(top, parts[1..], left);
      PartChunksBytes(top, parts[1..], left);
    }
  }

  /** Calls `os`, one per part, each using all its part and making exactly
      that part's chunk. */
  predicate PartCalls(os: seq<Outcome>, top: Record, parts: seq<seq<Byte>>, left: nat) {
    |os| == |parts| &&
    (forall i :: 0 <= i < |os| ==> os[i].ending == Exhausted && os[i].consumed == |parts[i]|) &&
    CallEvents(os) == PartChunks(top, parts, left)
  }

  /** A call on the first part followed by calls on the rest. */
  lemma PartCallsJoin(o: Outcome, os: seq<Outcome>, top: Record, parts: seq<seq<Byte>>, left: nat)
    requires parts != [] && o.ending == Exhausted && o.consumed == |parts[0]|
    requires o.events == [PartChunks(top, parts, left)[0]] && PartCalls(os, top, parts[1..], left)
    ensures PartCalls([o] + os, top, parts, left)
  {
    var all := [o] + os;
    assert all[1..] == os;
    forall i | 0 <= i < |all|
      ensures all[i].ending == Exhausted && all[i].consumed == |parts[i]|
    {
      if i > 0 {
        assert all[i] == os[i - 1] && parts[i] == parts[1..][i - 1];
      }
    }
  }

  /** Every part is non-empty and the handler accepts every part's chunk. */
  predicate PartsAccepted(top: Record, parts: seq<seq<Byte>>, left: nat, h: Event -> bool) {
    (forall i :: 0 <= i < |parts| ==> 0 < |parts[i]|) &&
    forall j :: 0 <= j < |PartChunks(top, parts, left)| ==> h(PartChunks(top, parts, left)[j])
  }

  /** The non-empty parts and the accepted chunks of the rest of the parts. */
  lemma RestReady(top: Record, parts: seq<seq<Byte>>, left: nat, h: Event -> bool)
    requires parts != [] && PartsAccepted(top, parts, left, h)
    ensures PartsAccepted(top, parts[1..], left, h)
    ensures h(StringChunk(top.(remaining := |Flatten(parts[1..])| + left), 0, parts[0]))
  {
    var chunks := PartChunks(top, parts, left);
    var tail := PartChunks(top, parts[1..], left);
    assert chunks == [chunks[0]] + tail;
    assert h(chunks[0]);
    forall j | 0 <= j < |tail|
      ensures h(tail[j])
    {
      assert tail[j] == chunks[j + 1];
    }
    forall i | 0 <= i < |parts[1..]|
      ensures 0 < |parts[1..][i]|
    {
      assert parts[1..][i] == parts[i + 1];
    }
  }

  /** The calls on the parts from `p` each make their part's chunk and use
      all their input, the chunks deliver the parts in order, and the last
      leaves the parser in `bulk` awaiting the `left` bytes still to come. */
  predicate CallsDone(p: Config, top: Record, parts: seq<seq<Byte>>, left: nat, h: Event -> bool)
    requires Valid(p) && p.stackidx >= 0
  {
    var os := Calls(p, parts, h);
    PartCalls(os, top, parts, left) && ChunkBytes(CallEvents(os)) == Flatten(parts) &&
    LastParser(p, os) == p.(stack := p.stack[p.stackidx := top.(remaining := left)], nread := p.nread + |Flatten(parts)|) &&
    Valid(LastParser(p, os))
  }

  /** The calls on the parts, from a string whose record is `top` with all
      the parts and `left` more bytes still to come: each makes its part's
      chunk and uses all its input, and the last leaves the parser in
      `bulk` awaiting the `left` bytes. */
  lemma {:induction false} ManyCalls(p: Config, top: Record, parts: seq<seq<Byte>>, left: nat, h: Event -> bool)
    requires Valid(p) && p.stackidx >= 0 && p.state == Bulk && 0 < left
    requires p.stack[p.stackidx] == top.(remaining := |Flatten(parts)| + left)
    requires PartsAccepted(top, parts, left, h)
    ensures CallsDone(p, top, parts, left, h)
    decreases |parts|
  {
    PartChunksBytes(top, parts, left);
    if parts == [] {
      assert p.stack[p.stackidx := top.(remaining := left)] == p.stack;
    } else {
      var o, p1 := FirstCall(p, top, parts, left, h);
      ManyCalls(p1, top, parts[1..], left, h);
      var os1 := Calls(p1, parts[1..], h);
      PartCallsJoin(o, os1, top, parts, left);
      assert LastParser(p, [o] + os1) == LastParser(p1, os1);
    }
  }

  /** The first of the calls on the parts: its outcome `o` and the parser
      `p1` it leaves, from which the calls on the rest of the parts go on. */
  lemma FirstCall(p: Config, top: Record, parts: seq<seq<Byte>>, left: nat, h: Event -> bool)
    returns (o: Outcome, p1: Config)
    requires Valid(p) && p.stackidx >= 0 && p.state == Bulk && 0 < left && parts != []
    requires p.stack[p.stackidx] == top.(remaining := |Flatten(parts)| + left)
    requires PartsAccepted(top, parts, left, h)
    ensures Valid(p1) && p1.stackidx == p.stackidx && p1.state == Bulk
    ensures p1.stack[p1.stackidx] == top.(remaining := |Flatten(parts[1..])| + left)
    ensures p1.stack[p1.stackidx := top.(remaining := left)] == p.stack[p.stackidx := top.(remaining := left)]
    ensures p1 == p.(stack := p1.stack, nread := p.nread + |parts[0]|)
    ensures PartsAccepted(top, parts[1..], left, h)
    ensures o.ending == Exhausted && o.consumed == |parts[0]| && o.events == [PartChunks(top, parts, left)[0]]
    ensures o.parser == p1 && Calls(p, parts, h) == [o] + Calls(p1, parts[1..], h)
  {
    var left1 := |Flatten(parts[1..])| + left;
    RestReady(top, parts, left, h);
    FirstPart(p, parts[0], left1, h);
    p1 := p.(stack := p.stack[p.stackidx := top.(remaining := left1)], nread := p.nread + |parts[0]|);
    o := Execute(p, parts[0], h);
  }

  /** The last call, from the parser that calls on parts of `n` bytes in
      all leave, given the rest `b` of the payload and its `\r\n`. */
  lemma LastCall(p: Config, top: Record, n: nat, b: seq<Byte>, rest: seq<Byte>, h: Event -> bool)
    requires Valid(p) && p.stackidx >= 0 && p.state == Bulk
    requires Valid(p.(stack := p.stack[p.stackidx := top.(remaining := |b|)], nread := p.nread + n))
    requires h(StringChunk(top.(remaining := 0), 0, b))
    ensures var q := p.(stack := p.stack[p.stackidx := top.(remaining := |b|)], nread := p.nread + n);
      var buf := b + [CR, LF] + rest;
      var fin := top.(remaining := 0);
      var d := q.(state := BulkLf, stack := q.stack[q.stackidx := fin], nread := q.nread + |b| + 1);
      Unwindable(d, q) &&
      Execute(q, buf, h) == Prepend([StringChunk(fin, 0, b)], AfterDone(d, buf, |b| + 1, h, q))
  {
    var q := p.(stack := p.stack[p.stackidx := top.(remaining := |b|)], nread := p.nread + n);
    assert q.stack[q.stackidx := top.(remaining := 0)] == p.stack[p.stackidx := top.(remaining := 0)];
    LastPart(q, b, rest, h);
  }

  /** A payload given over any number of calls: each call on a non-empty
      part that leaves more to come makes one chunk with all of its part
      and uses all its input; the chunks deliver the parts in order, and
      the parser after them awaits the last `|b|` bytes in `bulk`. The
      final call on `b`, the `\r\n` and any bytes after makes one chunk
      with `b` and goes on in the `done` block. */
  lemma SplitPayloadMany(p: Config, top: Record, parts: seq<seq<Byte>>, b: seq<Byte>,
                         rest: seq<Byte>, h: Event -> bool)
    requires Valid(p) && p.stackidx >= 0 && p.state == Bulk && 0 < |b|
    requires p.stack[p.stackidx] == top.(remaining := |Flatten(parts)| + |b|)
    requires PartsAccepted(top, parts, |b|, h)
    requires h(StringChunk(top.(remaining := 0), 0, b))
    ensures CallsDone(p, top, parts, |b|, h)
    ensures var q := p.(stack := p.stack[p.stackidx := top.(remaining := |b|)], nread := p.nread + |Flatten(parts)|);
      var buf := b + [CR, LF] + rest;
      var fin := top.(remaining := 0);
      var d := q.(state := BulkLf, stack := q.stack[q.stackidx := fin], nread := q.nread + |b| + 1);
      Valid(q) && Unwindable(d, q) &&
      Execute(q, buf, h) == Prepend([StringChunk(fin, 0, b)], AfterDone(d, buf, |b| + 1, h, q))
  {
    ManyCalls(p, top, parts, |b|, h);
    LastCall(p, top, |Flatten(parts)|, b, rest, h);
  }
}
