/** Decoding whole values: a run of the machine over the encoding of a
    value, spelled with its own header literals, makes exactly the value's
    callbacks and leaves its finished record in the value's stack slot.

    Some premises and conclusions here are written `(A && B && ...) == true`.
    That is the conjunction itself, but the verifier keeps it as one fact
    and takes it apart only where a proof needs its parts, instead of
    adding every conjunct to every caller's context; it keeps these proofs,
    whose predicates unfold into large terms, within their resource bound. */
module Decoding {
  import opened RespTypes
  import opened IntegerScanner
  import opened Machine
  import opened Stages
  import opened Messages
  import opened Lines

  lemma AcceptedAppend(a: seq<Event>, b: seq<Event>, h: Event -> bool)
    requires AllAccepted(a + b, h)
    ensures AllAccepted(a, h) && AllAccepted(b, h)
  {
    forall i | 0 <= i < |a|
      ensures h(a[i])
    {
      assert a[i] == (a + b)[i];
    }
    forall i | 0 <= i < |b|
      ensures h(b[i])
    {
      assert b[i] == (a + b)[|a| + i];
    }
  }

  /** What decoding a value promises about the parser at its last `\n`:
      the index is back at the value's slot, the slots below are untouched
      and still open arrays, the slot holds the finished record and every
      byte but that `\n` is counted. */
  predicate Parsed(c: Config, v: Value, d: Config) {
    0 <= c.stackidx < |c.stack| && d.stackidx == c.stackidx && |d.stack| == |c.stack| &&
    d.stack[..c.stackidx] == c.stack[..c.stackidx] &&
    d.stack[c.stackidx] == Finished(v, c.nread) &&
    d.nread == c.nread + |Encode(v)| - 1 &&
    (forall j :: 0 <= j < d.stackidx ==> IsOpenArray(d.stack[j]))
  }

  /** What decoding a value requires: the parser reads a tag into a fresh
      record with room above it for the value's nesting, the value's
      encoding is in the buffer, and every callback it makes returns true. */
  predicate Ready(c: Config, buf: seq<Byte>, pos: nat, h: Event -> bool, entry: Config, v: Value) {
    InState(c, buf, pos, entry, TypeChar) && c.stack[c.stackidx] == FreshRecord && WellFormed(v) &&
    c.stackidx + Depth(v) < |c.stack| && InBuffer(buf, pos, Encode(v)) && AllAccepted(Events(v, c.nread, pos), h)
  }

  /** A finished record expects no more children, and its protocol length
      is the length of the value's encoding. */
  lemma FinishedRecord(v: Value, off: nat)
    ensures !Pending(Finished(v, off)) && Finished(v, off).plen == |Encode(v)|
  {
  }

  /** A value whose line leaves its finished record in place is parsed. */
  lemma SettledParsed(c: Config, v: Value, r: Record, len: nat, d: Config, entry: Config)
    requires (Settled(c, r, len, d) && r == Finished(v, c.nread) && len == |Encode(v)| - 1 && Unwindable(d, entry)) == true
    ensures Parsed(c, v, d)
  {
    assert d.stack[..c.stackidx] == c.stack[..c.stackidx];
  }

  /** What an integer's line needs, and what it reports, in the terms of its
      literal `lit`. */
  lemma NumFacts(v: Value, c: Config, buf: seq<Byte>, pos: nat, h: Event -> bool, entry: Config, lit: seq<Byte>)
    requires (v.Num? && Ready(c, buf, pos, h, entry, v) && lit == v.lit) == true
    ensures LiteralValue(lit).Some? && InBuffer(buf, pos, HeaderBytes(COLON, lit))
    ensures h(Integer(Record(IntegerT, c.nread, |lit| + 3, c.nread + 1, |lit|, -1), LiteralValue(lit).value))
    ensures Events(v, c.nread, pos) ==
      [Integer(Record(IntegerT, c.nread, |lit| + 3, c.nread + 1, |lit|, -1), LiteralValue(lit).value)]
    ensures Finished(v, c.nread) == Record(IntegerT, c.nread, |lit| + 3, c.nread + 1, |lit|, -1)
    ensures |Encode(v)| - 1 == |lit| + 2 && pos + |Encode(v)| - 1 == pos + |lit| + 2
  {
    NumShape(v, c.nread, pos, lit);
    assert h(Events(v, c.nread, pos)[0]);
  }

  /** An integer's line reports the integer's callbacks and ends at its
      last byte. */
  lemma NumYields(c: Config, buf: seq<Byte>, pos: nat, h: Event -> bool, entry: Config, lit: seq<Byte>,
                  evs: seq<Event>, e: nat)
    returns (d: Config)
    requires (InState(c, buf, pos, entry, TypeChar) && c.stack[c.stackidx] == FreshRecord &&
              LiteralValue(lit).Some? && InBuffer(buf, pos, HeaderBytes(COLON, lit)) &&
              h(Integer(Record(IntegerT, c.nread, |lit| + 3, c.nread + 1, |lit|, -1), LiteralValue(lit).value)) &&
              evs == [Integer(Record(IntegerT, c.nread, |lit| + 3, c.nread + 1, |lit|, -1), LiteralValue(lit).value)] &&
              e == pos + |lit| + 2) == true
    ensures Settled(c, Record(IntegerT, c.nread, |lit| + 3, c.nread + 1, |lit|, -1), |lit| + 2, d)
    ensures Yields(c, buf, pos, h, entry, evs, d, e)
  {
    d := IntegerLine(c, buf, pos, h, entry, lit);
    assert Yields(c, buf, pos, h, entry, evs, d, e);
  }

  /** An integer: its line, with one callback reporting its value. */
  lemma ParseNum(v: Value, c: Config, buf: seq<Byte>, pos: nat, h: Event -> bool, entry: Config) returns (d: Config)
    requires v.Num? && Ready(c, buf, pos, h, entry, v)
    ensures Parsed(c, v, d)
    ensures Yields(c, buf, pos, h, entry, Events(v, c.nread, pos), d, pos + |Encode(v)| - 1)
  {
    var lit := v.lit;
    NumFacts(v, c, buf, pos, h, entry, lit);
    d := NumYields(c, buf, pos, h, entry, lit, Events(v, c.nread, pos), pos + |Encode(v)| - 1);
    SettledParsed(c, v, Record(IntegerT, c.nread, |lit| + 3, c.nread + 1, |lit|, -1), |lit| + 2, d, entry);
  }

  /** What a nil's line needs, and what it reports, in the terms of its tag
      and its literal `lit`. */
  lemma NilFacts(v: Value, c: Config, buf: seq<Byte>, pos: nat, h: Event -> bool, entry: Config, tag: Byte, lit: seq<Byte>)
    requires (v.NilStr? || v.NilArr?) && Ready(c, buf, pos, h, entry, v)
    requires tag == (if v.NilStr? then DOLLAR else STAR) && lit == v.lit
    ensures (tag == DOLLAR || tag == STAR) && LiteralValue(lit).Some? && LiteralValue(lit).value < 0
    ensures InBuffer(buf, pos, HeaderBytes(tag, lit))
    ensures h(Nil(Record(TagType(tag), c.nread, |lit| + 3, 0, 0, -1)))
    ensures Events(v, c.nread, pos) == [Nil(Record(TagType(tag), c.nread, |lit| + 3, 0, 0, -1))]
    ensures Finished(v, c.nread) == Record(TagType(tag), c.nread, |lit| + 3, 0, 0, -1)
    ensures |Encode(v)| - 1 == |lit| + 2 && pos + |Encode(v)| - 1 == pos + |lit| + 2
  {
    NilShape(v, c.nread, pos, lit);
    assert h(Events(v, c.nread, pos)[0]);
  }

  /** A nil's line reports the nil's callback and ends at its last byte. */
  lemma NilYields(c: Config, buf: seq<Byte>, pos: nat, h: Event -> bool, entry: Config, tag: Byte, lit: seq<Byte>,
                  evs: seq<Event>, e: nat)
    returns (d: Config)
    requires InState(c, buf, pos, entry, TypeChar) && c.stack[c.stackidx] == FreshRecord
    requires (tag == DOLLAR || tag == STAR) && LiteralValue(lit).Some? && LiteralValue(lit).value < 0
    requires InBuffer(buf, pos, HeaderBytes(tag, lit))
    requires h(Nil(Record(TagType(tag), c.nread, |lit| + 3, 0, 0, -1)))
    requires evs == [Nil(Record(TagType(tag), c.nread, |lit| + 3, 0, 0, -1))] && e == pos + |lit| + 2
    ensures Settled(c, Record(TagType(tag), c.nread, |lit| + 3, 0, 0, -1), |lit| + 2, d)
    ensures Yields(c, buf, pos, h, entry, evs, d, e)
  {
    d := NilLine(c, buf, pos, h, entry, tag, lit);
    assert Yields(c, buf, pos, h, entry, evs, d, e);
  }

  /** A nil string or a nil array: its header with a negative length, with
      one nil callback. */
  lemma ParseNil(v: Value, c: Config, buf: seq<Byte>, pos: nat, h: Event -> bool, entry: Config) returns (d: Config)
    requires (v.NilStr? || v.NilArr?) && Ready(c, buf, pos, h, entry, v)
    ensures Parsed(c, v, d)
    ensures Yields(c, buf, pos, h, entry, Events(v, c.nread, pos), d, pos + |Encode(v)| - 1)
  {
    var tag := if v.NilStr? then DOLLAR else STAR;
    var lit := v.lit;
    NilFacts(v, c, buf, pos, h, entry, tag, lit);
    d := NilYields(c, buf, pos, h, entry, tag, lit, Events(v, c.nread, pos), pos + |Encode(v)| - 1);
    SettledParsed(c, v, Record(TagType(tag), c.nread, |lit| + 3, 0, 0, -1), |lit| + 2, d, entry);
  }

  /** What a bulk string's lines need, and what they report, in the terms of
      its literal `lit`. */
  lemma StrFacts(v: Value, c: Config, buf: seq<Byte>, pos: nat, h: Event -> bool, entry: Config, lit: seq<Byte>)
    requires v.Str? && Ready(c, buf, pos, h, entry, v) && lit == v.lit
    ensures LiteralValue(lit) == Some(|v.data|) && InBuffer(buf, pos, HeaderBytes(DOLLAR, lit) + (v.data + [CR, LF]))
    ensures h(StringChunk(Record(StringT, c.nread, |lit| + 3 + |v.data| + 2, c.nread + |lit| + 3, |v.data|, 0),
                          pos + |lit| + 3, v.data))
    ensures Events(v, c.nread, pos) ==
      [StringChunk(Record(StringT, c.nread, |lit| + 3 + |v.data| + 2, c.nread + |lit| + 3, |v.data|, 0), pos + |lit| + 3, v.data)]
    ensures Finished(v, c.nread) == Record(StringT, c.nread, |lit| + 3 + |v.data| + 2, c.nread + |lit| + 3, |v.data|, 0)
    ensures |Encode(v)| - 1 == |lit| + 3 + |v.data| + 1 && pos + |Encode(v)| - 1 == pos + |lit| + 3 + |v.data| + 1
  {
    StrShape(v, c.nread, pos, lit);
    assert h(Events(v, c.nread, pos)[0]);
  }

  /** A bulk string's lines report its one chunk and end at its last byte. */
  lemma StrYields(c: Config, buf: seq<Byte>, pos: nat, h: Event -> bool, entry: Config, lit: seq<Byte>, data: seq<Byte>,
                  evs: seq<Event>, e: nat)
    returns (d: Config)
    requires InState(c, buf, pos, entry, TypeChar) && c.stack[c.stackidx] == FreshRecord
    requires LiteralValue(lit) == Some(|data|) && InBuffer(buf, pos, HeaderBytes(DOLLAR, lit) + (data + [CR, LF]))
    requires h(StringChunk(Record(StringT, c.nread, |lit| + 3 + |data| + 2, c.nread + |lit| + 3, |data|, 0), pos + |lit| + 3, data))
    requires evs ==
      [StringChunk(Record(StringT, c.nread, |lit| + 3 + |data| + 2, c.nread + |lit| + 3, |data|, 0), pos + |lit| + 3, data)]
    requires e == pos + |lit| + 3 + |data| + 1
    ensures Settled(c, Record(StringT, c.nread, |lit| + 3 + |data| + 2, c.nread + |lit| + 3, |data|, 0), |lit| + 3 + |data| + 1, d)
    ensures Yields(c, buf, pos, h, entry, evs, d, e)
  {
    d := StringLines(c, buf, pos, h, entry, lit, data);
    assert Yields(c, buf, pos, h, entry, evs, d, e);
  }

  /** A bulk string whose payload is all in the buffer: its header, one
      chunk callback with the whole payload, then its `\r\n`. */
  lemma ParseStr(v: Value, c: Config, buf: seq<Byte>, pos: nat, h: Event -> bool, entry: Config) returns (d: Config)
    requires v.Str? && Ready(c, buf, pos, h, entry, v)
    ensures Parsed(c, v, d)
    ensures Yields(c, buf, pos, h, entry, Events(v, c.nread, pos), d, pos + |Encode(v)| - 1)
  {
    var lit := v.lit;
    StrFacts(v, c, buf, pos, h, entry, lit);
    d := StrYields(c, buf, pos, h, entry, lit, v.data, Events(v, c.nread, pos), pos + |Encode(v)| - 1);
    SettledParsed(c, v, Record(StringT, c.nread, |lit| + 3 + |v.data| + 2, c.nread + |lit| + 3, |v.data|, 0),
      |lit| + 3 + |v.data| + 1, d, entry);
  }

  /** The array record in the current slot has taken `k` more children
      whose encodings are `len` bytes long: the index is back at its slot,
      the slots below are untouched and every byte so far is counted. */
  predicate Advanced(cA: Config, k: nat, len: nat, d: Config) {
    0 <= cA.stackidx < |cA.stack| && d.stackidx == cA.stackidx && |d.stack| == |cA.stack| &&
    d.stack[..d.stackidx] == cA.stack[..cA.stackidx] &&
    d.stack[d.stackidx] == cA.stack[cA.stackidx].(remaining := cA.stack[cA.stackidx].remaining - k,
                                                    plen := cA.stack[cA.stackidx].plen + len) &&
    d.nread == cA.nread + len
  }

  lemma AdvancedTrans(c0: Config, k1: nat, l1: nat, c1: Config, k2: nat, l2: nat, c2: Config)
    requires Advanced(c0, k1, l1, c1) && Advanced(c1, k2, l2, c2)
    ensures Advanced(c0, k1 + k2, l1 + l2, c2)
  {
  }

  /** What decoding the children of an array requires: the `done` block
      can run at `q`, the current record is an array expecting one child
      per item with room above it, the items' encodings follow `q` in the
      buffer, and every callback they make returns true; the first child's
      tag is at protocol offset `off` and at position `at` of the buffer. */
  predicate ItemsReady(cA: Config, buf: seq<Byte>, q: nat, h: Event -> bool, entry: Config, items: seq<Value>,
                       off: nat, at: nat) {
    Unwindable(cA, entry) && q < |buf| && off == cA.nread + 1 && at == q + 1 &&
    cA.stack[cA.stackidx].vtype == ArrayT && cA.stack[cA.stackidx].remaining == |items| &&
    AllWellFormed(items) && (items != [] ==> cA.stackidx + 1 + DepthAll(items) < |cA.stack|) &&
    InBuffer(buf, at, EncodeAll(items)) && AllAccepted(EventsAll(items, off, at), h)
  }

  /** The parser `done` pushes for an array's first child is ready for it. */
  lemma PushedReady(items: seq<Value>, cA: Config, buf: seq<Byte>, q: nat, h: Event -> bool, entry: Config,
                    off: nat, at: nat)
    requires items != [] && ItemsReady(cA, buf, q, h, entry, items, off, at)
    ensures Pushed(cA).nread == off && Pushed(cA).stack[..cA.stackidx] == cA.stack[..cA.stackidx]
    ensures Ready(Pushed(cA), buf, at, h, entry, items[0])
    ensures InBuffer(buf, at + |Encode(items[0])|, EncodeAll(items[1..]))
    ensures AllAccepted(EventsAll(items[1..], off + |Encode(items[0])|, at + |Encode(items[0])|), h)
  {
    var v := items[0];
    ItemsShape(items, off, at);
    ItemsMeasures(items);
    PushedValid(cA, entry);
    SliceSplit(buf, at, Encode(v), EncodeAll(items[1..]));
    AcceptedAppend(Events(v, off, at), EventsAll(items[1..], off + |Encode(v)|, at + |Encode(v)|), h);
  }

  /** Popping a parsed child adds its length to the array and takes one
      child from its count. */
  lemma PoppedAdvanced(cA: Config, v: Value, d0: Config)
    requires 0 <= cA.stackidx && cA.stackidx + 1 < |cA.stack| && Pending(cA.stack[cA.stackidx])
    requires Pushed(cA).stack[..cA.stackidx] == cA.stack[..cA.stackidx] && Parsed(Pushed(cA), v, d0)
    ensures !Pending(d0.stack[d0.stackidx]) && 0 < d0.stackidx < |d0.stack|
    ensures Advanced(cA, 1, |Encode(v)|, Popped(d0))
  {
    var i := cA.stackidx;
    var c1 := Pushed(cA);
    FinishedRecord(v, c1.nread);
    assert d0.stack[i] == d0.stack[..i + 1][i] == c1.stack[..i + 1][i];
    var d1 := Popped(d0);
    assert d1.stack[..i] == d0.stack[..i + 1][..i];
  }

  /** A child decoded from the slot the `done` block pushed ends in the
      array's slot once the `done` block pops it. */
  lemma ChildDone(cA: Config, buf: seq<Byte>, q: nat, h: Event -> bool, entry: Config,
                  evs: seq<Event>, d0: Config, p: nat, at: nat, evs': seq<Event>, p': nat)
    requires Unwindable(cA, entry) && q < |buf| && cA.stackidx + 1 < |cA.stack| && Pending(cA.stack[cA.stackidx])
    requires at == q + 1 && Yields(Pushed(cA), buf, at, h, entry, evs, d0, p)
    requires d0.stackidx == cA.stackidx + 1 && !Pending(d0.stack[d0.stackidx])
    requires evs' == evs && p' == p
    ensures Follows(cA, buf, q, h, entry, evs', Popped(d0), p')
  {
    ChildFollows(cA, buf, q, h, entry, evs, d0, p);
    assert Follows(cA, buf, q, h, entry, evs', Popped(d0), p');
  }

  /** The first child of an array: the `done` block pushes a fresh record,
      the child is decoded into it, and the `done` block pops it, adding its
      length to the array's. */
  lemma ParseFirst(items: seq<Value>, cA: Config, buf: seq<Byte>, q: nat, h: Event -> bool, entry: Config,
                   off: nat, at: nat)
    returns (d1: Config)
    requires items != [] && ItemsReady(cA, buf, q, h, entry, items, off, at)
    ensures Advanced(cA, 1, |Encode(items[0])|, d1)
    ensures Follows(cA, buf, q, h, entry, Events(items[0], off, at), d1, q + |Encode(items[0])|)
    decreases SizeAll(items), 3
  {
    var v := items[0];
    assert at == q + 1 && at + |Encode(v)| - 1 == q + |Encode(items[0])|;
    ItemsMeasures(items);
    PushedReady(items, cA, buf, q, h, entry, off, at);
    var d0 := ParseValue(v, Pushed(cA), buf, at, h, entry);
    PoppedAdvanced(cA, v, d0);
    ChildDone(cA, buf, q, h, entry, Events(v, Pushed(cA).nread, at), d0, at + |Encode(v)| - 1, at,
      Events(items[0], off, at), q + |Encode(items[0])|);
    d1 := Popped(d0);
  }

  /** After the first child, the rest of the items are ready to decode. */
  lemma RestReady(items: seq<Value>, cA: Config, buf: seq<Byte>, q: nat, h: Event -> bool, entry: Config,
                  off: nat, at: nat, d1: Config)
    requires (items != [] && ItemsReady(cA, buf, q, h, entry, items, off, at) &&
              Advanced(cA, 1, |Encode(items[0])|, d1) && Unwindable(d1, entry) && q + |Encode(items[0])| < |buf|) == true
    ensures ItemsReady(d1, buf, q + |Encode(items[0])|, h, entry, items[1..], off + |Encode(items[0])|, at + |Encode(items[0])|)
  {
    ItemsShape(items, off, at);
    ItemsMeasures(items);
    SliceSplit(buf, at, Encode(items[0]), EncodeAll(items[1..]));
    AcceptedAppend(Events(items[0], off, at), EventsAll(items[1..], off + |Encode(items[0])|, at + |Encode(items[0])|), h);
  }

  /** After the first child, the rest of the items. */
  lemma ParseRest(items: seq<Value>, cA: Config, buf: seq<Byte>, q: nat, h: Event -> bool, entry: Config,
                  off: nat, at: nat, d1: Config, e: nat)
    returns (d: Config)
    requires items != [] && ItemsReady(cA, buf, q, h, entry, items, off, at)
    requires Advanced(cA, 1, |Encode(items[0])|, d1)
    requires Follows(cA, buf, q, h, entry, Events(items[0], off, at), d1, q + |Encode(items[0])|)
    requires e == q + |Encode(items[0])| + |EncodeAll(items[1..])|
    ensures Advanced(d1, |items| - 1, |EncodeAll(items[1..])|, d)
    ensures Follows(d1, buf, q + |Encode(items[0])|, h, entry,
      EventsAll(items[1..], off + |Encode(items[0])|, at + |Encode(items[0])|), d, e)
    decreases SizeAll(items), 3
  {
    ItemsMeasures(items);
    RestReady(items, cA, buf, q, h, entry, off, at, d1);
    d := ParseItems(items[1..], d1, buf, q + |Encode(items[0])|, h, entry,
      off + |Encode(items[0])|, at + |Encode(items[0])|, e);
  }

  /** The callbacks of the first item, then those of the rest, are those of
      the items. */
  lemma FollowsJoin(items: seq<Value>, cA: Config, buf: seq<Byte>, q: nat, h: Event -> bool, entry: Config,
                    off: nat, at: nat, d1: Config, d: Config, e: nat)
    requires items != []
    requires Follows(cA, buf, q, h, entry, Events(items[0], off, at), d1, q + |Encode(items[0])|)
    requires Follows(d1, buf, q + |Encode(items[0])|, h, entry,
      EventsAll(items[1..], off + |Encode(items[0])|, at + |Encode(items[0])|), d, e)
    ensures Follows(cA, buf, q, h, entry, EventsAll(items, off, at), d, e) == true
  {
    ItemsShape(items, off, at);
    FollowsTrans(cA, buf, q, h, entry, Events(items[0], off, at), d1, q + |Encode(items[0])|,
      EventsAll(items[1..], off + |Encode(items[0])|, at + |Encode(items[0])|), d, e, EventsAll(items, off, at));
  }

  /** The children of an array whose record, in the current slot, expects
      `|items|` more: from the `done` block after the array's last `\n` so
      far, the run makes the children's callbacks and leaves the array with
      no child expected and their lengths added to its own. */
  lemma ParseItems(items: seq<Value>, cA: Config, buf: seq<Byte>, q: nat, h: Event -> bool, entry: Config,
                   off: nat, at: nat, e: nat)
    returns (d: Config)
    requires (ItemsReady(cA, buf, q, h, entry, items, off, at) && e == q + |EncodeAll(items)|) == true
    ensures Advanced(cA, |items|, |EncodeAll(items)|, d)
    ensures Follows(cA, buf, q, h, entry, EventsAll(items, off, at), d, e)
    decreases SizeAll(items), 4
  {
    if items == [] {
      d := cA;
      FollowsNothing(cA, buf, q, h, entry);
    } else {
      ItemsShape(items, off, at);
      ItemsMeasures(items);
      assert e == q + |Encode(items[0])| + |EncodeAll(items[1..])|;
      var d1 := ParseFirst(items, cA, buf, q, h, entry, off, at);
      d := ParseRest(items, cA, buf, q, h, entry, off, at, d1, e);
      AdvancedTrans(cA, 1, |Encode(items[0])|, d1, |items| - 1, |EncodeAll(items[1..])|, d);
      FollowsJoin(items, cA, buf, q, h, entry, off, at, d1, d, e);
    }
  }

  /** What decoding an array needs once its encoding is taken apart: its
      header literal `lit` then its children's bytes in the buffer at `pos`,
      the header's callback then the children's (the first child at protocol
      offset `off` and position `at`) accepted, and its last `\n` at `e`. */
  predicate ArrReady(v: Value, c: Config, buf: seq<Byte>, pos: nat, h: Event -> bool, entry: Config,
                     lit: seq<Byte>, off: nat, at: nat, e: nat) {
    v.Arr? && lit == v.lit &&
    InState(c, buf, pos, entry, TypeChar) && c.stack[c.stackidx] == FreshRecord &&
    LiteralValue(lit) == Some(|v.items|) &&
    InBuffer(buf, pos, Encode(v)) && AllAccepted(Events(v, c.nread, pos), h) &&
    AllWellFormed(v.items) && (v.items != [] ==> c.stackidx + 1 + DepthAll(v.items) < |c.stack|) &&
    off == c.nread + |lit| + 3 && at == pos + |lit| + 3 && e == pos + |lit| + 2 + |EncodeAll(v.items)| &&
    |Encode(v)| == |lit| + 3 + |EncodeAll(v.items)| &&
    Finished(v, c.nread) == Record(ArrayT, c.nread, |lit| + 3 + |EncodeAll(v.items)|, 0, 0, 0)
  }

  /** A ready array, taken apart. */
  lemma ArrHeaderFacts(v: Value, c: Config, buf: seq<Byte>, pos: nat, h: Event -> bool, entry: Config, lit: seq<Byte>)
    requires v.Arr? && Ready(c, buf, pos, h, entry, v) && lit == v.lit
    ensures ArrReady(v, c, buf, pos, h, entry, lit, c.nread + |lit| + 3, pos + |lit| + 3, pos + |Encode(v)| - 1)
    ensures SizeAll(v.items) < Size(v)
  {
    ArrShape(v, c.nread, lit);
  }

  /** An array's bytes are its header's then its children's, and so are its
      callbacks. */
  lemma ArrUnpack(v: Value, c: Config, buf: seq<Byte>, pos: nat, h: Event -> bool, lit: seq<Byte>, off: nat, at: nat)
    requires v.Arr? && WellFormed(v) && lit == v.lit
    requires off == c.nread + |lit| + 3 && at == pos + |lit| + 3
    requires InBuffer(buf, pos, Encode(v)) && AllAccepted(Events(v, c.nread, pos), h)
    ensures InBuffer(buf, pos, HeaderBytes(STAR, lit) + EncodeAll(v.items))
    ensures AllAccepted([ArrayHeader(Record(ArrayT, c.nread, |lit| + 3, 0, 0, |v.items|), |v.items|)] + EventsAll(v.items, off, at), h)
  {
    ArrShape(v, c.nread, lit);
    ArrEvents(v, c.nread, pos, lit, off, at);
  }

  /** After an array's header line, its children are ready to decode. */
  lemma ItemsStart(items: seq<Value>, c: Config, buf: seq<Byte>, pos: nat, h: Event -> bool, entry: Config,
                   lit: seq<Byte>, off: nat, at: nat, cA: Config)
    requires Settled(c, Record(ArrayT, c.nread, |lit| + 3, 0, 0, |items|), |lit| + 2, cA)
    requires Unwindable(cA, entry) && pos + |lit| + 2 < |buf|
    requires off == c.nread + |lit| + 3 && at == pos + |lit| + 3
    requires AllWellFormed(items) && (items != [] ==> c.stackidx + 1 + DepthAll(items) < |c.stack|)
    requires InBuffer(buf, at, EncodeAll(items)) && AllAccepted(EventsAll(items, off, at), h)
    ensures ItemsReady(cA, buf, pos + |lit| + 2, h, entry, items, off, at)
  {
  }

  /** The runs of an array's parts: its header line with its callback, then
      its children one after the other, each added to the array's record. */
  lemma ArrRun(items: seq<Value>, c: Config, buf: seq<Byte>, pos: nat, h: Event -> bool, entry: Config,
               lit: seq<Byte>, off: nat, at: nat, e: nat) returns (cA: Config, d: Config)
    requires InState(c, buf, pos, entry, TypeChar) && c.stack[c.stackidx] == FreshRecord
    requires LiteralValue(lit) == Some(|items|) && InBuffer(buf, pos, HeaderBytes(STAR, lit) + EncodeAll(items))
    requires AllAccepted([ArrayHeader(Record(ArrayT, c.nread, |lit| + 3, 0, 0, |items|), |items|)] + EventsAll(items, off, at), h)
    requires AllWellFormed(items) && (items != [] ==> c.stackidx + 1 + DepthAll(items) < |c.stack|)
    requires off == c.nread + |lit| + 3 && at == pos + |lit| + 3 && e == pos + |lit| + 2 + |EncodeAll(items)|
    ensures Settled(c, Record(ArrayT, c.nread, |lit| + 3, 0, 0, |items|), |lit| + 2, cA)
    ensures Advanced(cA, |items|, |EncodeAll(items)|, d) && Unwindable(d, entry)
    ensures Yields(c, buf, pos, h, entry, [ArrayHeader(Record(ArrayT, c.nread, |lit| + 3, 0, 0, |items|), |items|)],
      cA, pos + |lit| + 2)
    ensures Follows(cA, buf, pos + |lit| + 2, h, entry, EventsAll(items, off, at), d, e)
    decreases SizeAll(items), 5
  {
    var hd := ArrayHeader(Record(ArrayT, c.nread, |lit| + 3, 0, 0, |items|), |items|);
    SliceSplit(buf, pos, HeaderBytes(STAR, lit), EncodeAll(items));
    AcceptedAppend([hd], EventsAll(items, off, at), h);
    assert h([hd][0]);
    cA := ArrayLine(c, buf, pos, h, entry, lit, |items|);
    ItemsStart(items, c, buf, pos, h, entry, lit, off, at, cA);
    d := ParseItems(items, cA, buf, pos + |lit| + 2, h, entry, off, at, e);
  }

  /** An array's header callback, then its children's, are the array's. */
  lemma ArrJoin(v: Value, c: Config, buf: seq<Byte>, pos: nat, h: Event -> bool, entry: Config,
                lit: seq<Byte>, off: nat, at: nat, cA: Config, d: Config, e: nat)
    requires v.Arr? && lit == v.lit && off == c.nread + |lit| + 3 && at == pos + |lit| + 3
    requires Yields(c, buf, pos, h, entry, [ArrayHeader(Record(ArrayT, c.nread, |lit| + 3, 0, 0, |v.items|), |v.items|)],
      cA, pos + |lit| + 2)
    requires Follows(cA, buf, pos + |lit| + 2, h, entry, EventsAll(v.items, off, at), d, e)
    ensures Yields(c, buf, pos, h, entry, Events(v, c.nread, pos), d, e)
  {
    ArrEvents(v, c.nread, pos, lit, off, at);
    YieldsFollows(c, buf, pos, h, entry, [ArrayHeader(Record(ArrayT, c.nread, |lit| + 3, 0, 0, |v.items|), |v.items|)],
      cA, pos + |lit| + 2, EventsAll(v.items, off, at), d, e, Events(v, c.nread, pos));
  }

  /** An array's record once its children are decoded is its finished record. */
  lemma ArrParsed(v: Value, c: Config, lit: seq<Byte>, cA: Config, d: Config, entry: Config)
    requires v.Arr? && Finished(v, c.nread) == Record(ArrayT, c.nread, |lit| + 3 + |EncodeAll(v.items)|, 0, 0, 0)
    requires |Encode(v)| == |lit| + 3 + |EncodeAll(v.items)|
    requires Settled(c, Record(ArrayT, c.nread, |lit| + 3, 0, 0, |v.items|), |lit| + 2, cA)
    requires Advanced(cA, |v.items|, |EncodeAll(v.items)|, d) && Unwindable(d, entry)
    ensures Parsed(c, v, d)
  {
    assert cA.stack[..c.stackidx] == c.stack[..c.stackidx];
  }

  /** A taken-apart array decodes to its finished record, making its
      header's callback and then its children's. */
  lemma ArrYields(v: Value, c: Config, buf: seq<Byte>, pos: nat, h: Event -> bool, entry: Config,
                  lit: seq<Byte>, off: nat, at: nat, e: nat) returns (d: Config)
    requires ArrReady(v, c, buf, pos, h, entry, lit, off, at, e)
    ensures Parsed(c, v, d) && Yields(c, buf, pos, h, entry, Events(v, c.nread, pos), d, e)
    decreases SizeAll(v.items), 6
  {
    ArrUnpack(v, c, buf, pos, h, lit, off, at);
    var cA;
    cA, d := ArrRun(v.items, c, buf, pos, h, entry, lit, off, at, e);
    ArrJoin(v, c, buf, pos, h, entry, lit, off, at, cA, d, e);
    ArrParsed(v, c, lit, cA, d, entry);
  }

  /** An array: its header and its callback with the child count, then its
      children one after the other. */
  lemma ParseArr(v: Value, c: Config, buf: seq<Byte>, pos: nat, h: Event -> bool, entry: Config) returns (d: Config)
    requires v.Arr? && Ready(c, buf, pos, h, entry, v)
    ensures Parsed(c, v, d)
    ensures Yields(c, buf, pos, h, entry, Events(v, c.nread, pos), d, pos + |Encode(v)| - 1)
    decreases Size(v), 1
  {
    var lit := v.lit;
    ArrHeaderFacts(v, c, buf, pos, h, entry, lit);
    d := ArrYields(v, c, buf, pos, h, entry, lit, c.nread + |lit| + 3, pos + |lit| + 3, pos + |Encode(v)| - 1);
  }

  /** Decoding one value from `type_char` with a fresh record in the
      current slot, its whole encoding in the buffer and every callback it
      makes returning true: the run makes exactly its callbacks and reaches
      the `done` block at its last byte with the finished record in place. */
  lemma ParseValue(v: Value, c: Config, buf: seq<Byte>, pos: nat, h: Event -> bool, entry: Config) returns (d: Config)
    requires Ready(c, buf, pos, h, entry, v)
    ensures Parsed(c, v, d)
    ensures Yields(c, buf, pos, h, entry, Events(v, c.nread, pos), d, pos + |Encode(v)| - 1)
    decreases Size(v), 2
  {
    if v.Num? {
      d := ParseNum(v, c, buf, pos, h, entry);
    } else if v.Str? {
      d := ParseStr(v, c, buf, pos, h, entry);
    } else if v.Arr? {
      d := ParseArr(v, c, buf, pos, h, entry);
    } else {
      d := ParseNil(v, c, buf, pos, h, entry);
    }
  }
}
