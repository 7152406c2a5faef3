/** How a run of the machine goes through the parts of one value: the tag,
    the header literal, the header's `\n`, a string payload and its `\r\n`,
    and the `done` block. Each lemma replaces the first steps of a run by
    the run that follows them. */
module Stages {
  import opened RespTypes
  import opened IntegerScanner
  import opened Machine

  /** What the `done` block needs: the index is within the stack, every
      record below it is an open array, and the entry parser fits. */
  predicate Unwindable(c: Config, entry: Config) {
    1 <= |c.stack| && 0 <= c.stackidx < |c.stack| &&
    (forall i :: 0 <= i < c.stackidx ==> IsOpenArray(c.stack[i])) &&
    entry.stackidx >= 0 && |entry.stack| == |c.stack|
  }

  /** The machine is at work in state `s` with the byte at `pos` to read. */
  predicate LiveIn(c: Config, buf: seq<Byte>, pos: nat, entry: Config, s: State) {
    Live(c, buf, pos, entry) && c.state == s
  }

  /** The rest of a call from the `done` block entered at `pos`, the `\n`
      that ended a value: unwind, then run on from the next byte. */
  function AfterDone(c: Config, buf: seq<Byte>, pos: nat, h: Event -> bool, entry: Config): Outcome
    requires Unwindable(c, entry) && pos < |buf|
  {
    var r := Done(c, pos, []);
    if r.Go? then Run(r.c, buf, r.pos, h, entry) else Outcome(r.c, r.pos, Failed, [])
  }

  lemma PrependPrepend(a: seq<Event>, b: seq<Event>, o: Outcome)
    ensures Prepend(a, Prepend(b, o)) == Prepend(a + b, o)
  {
    assert a + (b + o.events) == (a + b) + o.events;
  }

  /** `type_char` on `$`, `*` or `:` records the offset and the type of the
      current record and goes on with the header literal. */
  lemma RunTag(c: Config, buf: seq<Byte>, pos: nat, h: Event -> bool, entry: Config)
    requires LiveIn(c, buf, pos, entry, TypeChar)
    requires buf[pos] == DOLLAR || buf[pos] == STAR || buf[pos] == COLON
    ensures var top := c.stack[c.stackidx].(poff := c.nread, vtype := TagType(buf[pos]));
      var c' := c.(state := IntegerStart, stack := c.stack[c.stackidx := top], nread := c.nread + 1);
      Valid(c') && Run(c, buf, pos, h, entry) == Run(c', buf, pos + 1, h, entry)
  {
    assert Run(c, buf, pos, h, entry) == Resume(c, buf, pos, h, entry);
    var r := Step(c, buf, pos, h);
    assert r == ReadTag(c, buf, pos, h);
    assert [] + Run(r.c, buf, r.pos, h, entry).events == Run(r.c, buf, r.pos, h, entry).events;
  }

  /** `type_char` on any other byte: the offset is recorded, `+` and `-`
      mark the record as an error value, and the call fails at that byte
      with no callback. */
  lemma RunBadTag(c: Config, buf: seq<Byte>, pos: nat, h: Event -> bool, entry: Config)
    requires LiveIn(c, buf, pos, entry, TypeChar)
    requires buf[pos] != DOLLAR && buf[pos] != STAR && buf[pos] != COLON
    ensures var top := c.stack[c.stackidx];
      var cur := top.(poff := c.nread, vtype := if buf[pos] == PLUS || buf[pos] == MINUS then ErrorT else top.vtype);
      Run(c, buf, pos, h, entry) == Outcome(c.(stack := c.stack[c.stackidx := cur]), pos, Failed, [])
  {
    assert Run(c, buf, pos, h, entry) == Resume(c, buf, pos, h, entry);
  }

  /** `integer_lf` on any byte but `\n`: the call fails at that byte with no
      callback. */
  lemma RunBadLf(c: Config, buf: seq<Byte>, pos: nat, h: Event -> bool, entry: Config)
    requires LiveIn(c, buf, pos, entry, IntegerLf) && buf[pos] != LF
    ensures Run(c, buf, pos, h, entry) == Outcome(c, pos, Failed, [])
  {
    assert Run(c, buf, pos, h, entry) == Resume(c, buf, pos, h, entry);
  }

  /** No byte of `t` but the last is a `\r`. */
  predicate CrOnlyLast(t: seq<Byte>) {
    |t| <= 1 || (t[0] != CR && CrOnlyLast(t[1..]))
  }

  /** The parser after the scanner read `k` more bytes and reached `r`. */
  function Scanned(c: Config, r: ScanStep, k: nat): Config
    requires r.Continue?
  {
    c.(state := r.state, acc := r.acc, nread := c.nread + k)
  }

  /** The run from `c` at `pos` is the run from `d` at `q`. */
  predicate Resumes(c: Config, buf: seq<Byte>, pos: nat, h: Event -> bool, entry: Config, d: Config, q: nat) {
    Runnable(c, buf, pos, entry) && Runnable(d, buf, q, entry) &&
    Run(c, buf, pos, h, entry) == Run(d, buf, q, h, entry)
  }

  lemma ResumesTrans(c: Config, buf: seq<Byte>, pos: nat, h: Event -> bool, entry: Config,
                     c1: Config, p1: nat, d: Config, q: nat)
    requires Resumes(c, buf, pos, h, entry, c1, p1)
    requires Resumes(c1, buf, p1, h, entry, d, q)
    ensures Resumes(c, buf, pos, h, entry, d, q)
  {
  }

  /** One byte in a scanner state: the run goes on from the scanner's next
      state, or fails at that byte. */
  lemma RunScanByte(c: Config, buf: seq<Byte>, pos: nat, h: Event -> bool, entry: Config)
    requires Live(c, buf, pos, entry) && IsScanning(c.state)
    ensures var b := ScanByte(c.state, c.acc, buf[pos]);
      b.Continue? ==> Resumes(c, buf, pos, h, entry, Scanned(c, b, 1), pos + 1)
    ensures var b := ScanByte(c.state, c.acc, buf[pos]);
      b.Reject? ==> Run(c, buf, pos, h, entry) == Outcome(c.(acc := b.acc), pos, Failed, [])
  {
    assert Run(c, buf, pos, h, entry) == Resume(c, buf, pos, h, entry);
    var r := Step(c, buf, pos, h);
    assert r == ReadInteger(c, buf, pos, h);
    var b := ScanByte(c.state, c.acc, buf[pos]);
    if b.Continue? {
      var c' := Scanned(c, b, 1);
      assert r == Go(c', pos + 1, []);
      assert [] + Run(c', buf, pos + 1, h, entry).events == Run(c', buf, pos + 1, h, entry).events;
    }
  }

  /** The scanner states are about to read the bytes `t` of the buffer. */
  predicate ScanReady(c: Config, buf: seq<Byte>, pos: nat, entry: Config, t: seq<Byte>) {
    Runnable(c, buf, pos, entry) && c.stackidx >= 0 && IsScanning(c.state) &&
    pos + |t| <= |buf| && buf[pos..pos + |t|] == t
  }

  /** The scanner states over bytes `t` of the buffer, accepted by the
      scanner: the run goes on from the state the scanner reaches. */
  lemma {:induction false} RunScanAccept(c: Config, buf: seq<Byte>, pos: nat, h: Event -> bool, entry: Config, t: seq<Byte>)
    requires ScanReady(c, buf, pos, entry, t) && ScanField(c.state, c.acc, t).Continue?
    ensures Resumes(c, buf, pos, h, entry, Scanned(c, ScanField(c.state, c.acc, t), |t|), pos + |t|)
    decreases |t|, 1
  {
    if t == [] {
      assert Scanned(c, ScanField(c.state, c.acc, t), 0) == c;
    } else {
      assert buf[pos] == t[0];
      RunScanByte(c, buf, pos, h, entry);
      var b := ScanByte(c.state, c.acc, buf[pos]);
      if IsScanning(b.state) {
        RunScanAcceptRest(c, buf, pos, h, entry, t);
      } else {
        assert ScanField(c.state, c.acc, t) == b && |t| == 1;
      }
    }
  }

  /** `RunScanAccept` when the first byte leaves the scanner scanning. */
  lemma {:induction false} RunScanAcceptRest(c: Config, buf: seq<Byte>, pos: nat, h: Event -> bool, entry: Config, t: seq<Byte>)
    requires ScanReady(c, buf, pos, entry, t) && |t| > 0 && ScanField(c.state, c.acc, t).Continue?
    requires ScanByte(c.state, c.acc, t[0]).Continue? && IsScanning(ScanByte(c.state, c.acc, t[0]).state)
    requires Resumes(c, buf, pos, h, entry, Scanned(c, ScanByte(c.state, c.acc, t[0]), 1), pos + 1)
    ensures Resumes(c, buf, pos, h, entry, Scanned(c, ScanField(c.state, c.acc, t), |t|), pos + |t|)
    decreases |t|, 0
  {
    var c1 := Scanned(c, ScanByte(c.state, c.acc, t[0]), 1);
    var tail := t[1..];
    var r := ScanField(c1.state, c1.acc, tail);
    assert buf[pos + 1..pos + 1 + |tail|] == tail;
    assert ScanField(c.state, c.acc, t) == r;
    RunScanAccept(c1, buf, pos + 1, h, entry, tail);
    var d := Scanned(c1, r, |tail|);
    assert d == Scanned(c, r, |t|) && pos + 1 + |tail| == pos + |t|;
    ResumesTrans(c, buf, pos, h, entry, c1, pos + 1, d, pos + 1 + |tail|);
  }

  /** The scanner states over bytes `t` of the buffer, none of them a `\r`
      but the last, refused by the scanner: the run fails at one of these
      bytes with no callback and the stack untouched. */
  lemma {:induction false} RunScanReject(c: Config, buf: seq<Byte>, pos: nat, h: Event -> bool, entry: Config, t: seq<Byte>)
    requires ScanReady(c, buf, pos, entry, t) && CrOnlyLast(t) && ScanField(c.state, c.acc, t).Reject?
    ensures var o := Run(c, buf, pos, h, entry);
      o.ending == Failed && o.events == [] && o.parser.stack == c.stack &&
      o.parser.stackidx == c.stackidx && pos <= o.consumed < pos + |t|
    decreases |t|
  {
    assert buf[pos] == t[0];
    RunScanByte(c, buf, pos, h, entry);
    var b := ScanByte(c.state, c.acc, buf[pos]);
    if b.Continue? {
      var c1 := Scanned(c, b, 1);
      assert IsScanning(b.state);
      assert buf[pos + 1..pos + 1 + |t[1..]|] == t[1..];
      assert ScanField(c.state, c.acc, t) == ScanField(c1.state, c1.acc, t[1..]);
      RunScanReject(c1, buf, pos + 1, h, entry, t[1..]);
    }
  }

  /** `integer_lf` of an integer: the callback reports the value with the
      record's lengths set, then `done`. */
  lemma RunIntegerEnd(c: Config, buf: seq<Byte>, pos: nat, h: Event -> bool, entry: Config)
    requires LiveIn(c, buf, pos, entry, IntegerLf)
    requires buf[pos] == LF && c.stack[c.stackidx].vtype == IntegerT
    ensures var top := c.stack[c.stackidx];
      var num := top.(plen := c.nread - top.poff + 1, coff := top.poff + 1, clen := c.nread - (top.poff + 1) - 1);
      var c' := c.(stack := c.stack[c.stackidx := num]);
      h(Integer(num, c.acc)) ==>
        Run(c, buf, pos, h, entry) == Prepend([Integer(num, c.acc)], AfterDone(c', buf, pos, h, entry))
  {
    var top := c.stack[c.stackidx];
    var num := top.(plen := c.nread - top.poff + 1, coff := top.poff + 1, clen := c.nread - (top.poff + 1) - 1);
    var c' := c.(stack := c.stack[c.stackidx := num]);
    var e := Integer(num, c.acc);
    if h(e) {
      assert Run(c, buf, pos, h, entry) == Resume(c, buf, pos, h, entry);
      var r := Step(c, buf, pos, h);
      assert r == EndHeader(c, buf, pos, h);
      assert r == Done(c', pos, [e]);
      DoneEvents(c', buf, pos, h, entry, [e]);
    }
  }

  /** `integer_lf` with a negative length: one nil callback, then `done`. */
  lemma RunNilEnd(c: Config, buf: seq<Byte>, pos: nat, h: Event -> bool, entry: Config)
    requires LiveIn(c, buf, pos, entry, IntegerLf)
    requires buf[pos] == LF && c.acc < 0
    requires c.stack[c.stackidx].vtype == StringT || c.stack[c.stackidx].vtype == ArrayT
    ensures var top := c.stack[c.stackidx];
      var cur := top.(plen := c.nread - top.poff + 1);
      var c' := c.(stack := c.stack[c.stackidx := cur]);
      h(Nil(cur)) ==> Run(c, buf, pos, h, entry) == Prepend([Nil(cur)], AfterDone(c', buf, pos, h, entry))
  {
    var top := c.stack[c.stackidx];
    var cur := top.(plen := c.nread - top.poff + 1);
    var c' := c.(stack := c.stack[c.stackidx := cur]);
    if h(Nil(cur)) {
      assert Run(c, buf, pos, h, entry) == Resume(c, buf, pos, h, entry);
      var r := Step(c, buf, pos, h);
      assert r == EndHeader(c, buf, pos, h);
      assert r == Done(c', pos, [Nil(cur)]);
      DoneEvents(c', buf, pos, h, entry, [Nil(cur)]);
    }
  }

  /** `integer_lf` of an array with a count: the array callback, then `done`. */
  lemma RunArrayEnd(c: Config, buf: seq<Byte>, pos: nat, h: Event -> bool, entry: Config)
    requires LiveIn(c, buf, pos, entry, IntegerLf)
    requires buf[pos] == LF && c.acc >= 0 && c.stack[c.stackidx].vtype == ArrayT
    ensures var top := c.stack[c.stackidx];
      var arr := top.(plen := c.nread - top.poff + 1, remaining := c.acc);
      var c' := c.(stack := c.stack[c.stackidx := arr]);
      h(ArrayHeader(arr, c.acc)) ==>
        Run(c, buf, pos, h, entry) == Prepend([ArrayHeader(arr, c.acc)], AfterDone(c', buf, pos, h, entry))
  {
    var top := c.stack[c.stackidx];
    var arr := top.(plen := c.nread - top.poff + 1, remaining := c.acc);
    var c' := c.(stack := c.stack[c.stackidx := arr]);
    var e := ArrayHeader(arr, c.acc);
    if h(e) {
      assert Run(c, buf, pos, h, entry) == Resume(c, buf, pos, h, entry);
      var r := Step(c, buf, pos, h);
      assert r == EndHeader(c, buf, pos, h);
      assert r == Done(c', pos, [e]);
      DoneEvents(c', buf, pos, h, entry, [e]);
    }
  }

  /** `integer_lf` of a string with a length: the content starts after the
      `\n`, the protocol length covers the payload and its `\r\n`, and the
      payload is expected next. */
  lemma RunStringHeaderEnd(c: Config, buf: seq<Byte>, pos: nat, h: Event -> bool, entry: Config)
    requires LiveIn(c, buf, pos, entry, IntegerLf)
    requires buf[pos] == LF && c.acc >= 0 && c.stack[c.stackidx].vtype == StringT
    ensures var top := c.stack[c.stackidx];
      var n := c.acc;
      var str := top.(plen := c.nread - top.poff + 1 + n + 2, coff := c.nread + 1, clen := n, remaining := n);
      var c' := c.(state := Bulk, stack := c.stack[c.stackidx := str], nread := c.nread + 1);
      Valid(c') && Run(c, buf, pos, h, entry) == Run(c', buf, pos + 1, h, entry)
  {
    var top := c.stack[c.stackidx];
    var n := c.acc;
    var str := top.(plen := c.nread - top.poff + 1 + n + 2, coff := c.nread + 1, clen := n, remaining := n);
    var c' := c.(state := Bulk, stack := c.stack[c.stackidx := str], nread := c.nread + 1);
    assert Run(c, buf, pos, h, entry) == Resume(c, buf, pos, h, entry);
    var r := Step(c, buf, pos, h);
    assert r == EndHeader(c, buf, pos, h);
    assert r == Go(c', pos + 1, []);
    assert [] + Run(c', buf, pos + 1, h, entry).events == Run(c', buf, pos + 1, h, entry).events;
  }

  /** `bulk` with the whole rest of the payload in the buffer: one chunk
      callback covering it, `remaining` drops to 0, and `\r` is expected. */
  lemma RunBulkWhole(c: Config, buf: seq<Byte>, pos: nat, h: Event -> bool, entry: Config)
    requires LiveIn(c, buf, pos, entry, Bulk)
    requires pos + c.stack[c.stackidx].remaining <= |buf|
    ensures var top := c.stack[c.stackidx];
      var n := top.remaining;
      var cur := top.(remaining := 0);
      var e := StringChunk(cur, pos, buf[pos..pos + n]);
      var c' := c.(state := BulkCr, stack := c.stack[c.stackidx := cur], nread := c.nread + n);
      h(e) ==> Valid(c') && Run(c, buf, pos, h, entry) == Prepend([e], Run(c', buf, pos + n, h, entry))
  {
    assert Run(c, buf, pos, h, entry) == Resume(c, buf, pos, h, entry);
    var r := Step(c, buf, pos, h);
    assert r == ReadBulk(c, buf, pos, h);
  }

  /** `bulk` with less of the payload in the buffer than remains: one chunk
      callback with the rest of the buffer, `remaining` drops by its length,
      and the call returns having used all its input. */
  lemma RunBulkPart(c: Config, buf: seq<Byte>, pos: nat, h: Event -> bool, entry: Config)
    requires LiveIn(c, buf, pos, entry, Bulk)
    requires pos + c.stack[c.stackidx].remaining > |buf|
    ensures var top := c.stack[c.stackidx];
      var cur := top.(remaining := top.remaining - (|buf| - pos));
      var e := StringChunk(cur, pos, buf[pos..]);
      var c' := c.(stack := c.stack[c.stackidx := cur], nread := c.nread + (|buf| - pos));
      h(e) ==> Valid(c') && Run(c, buf, pos, h, entry) == Outcome(c', |buf|, Exhausted, [e])
  {
    assert Run(c, buf, pos, h, entry) == Resume(c, buf, pos, h, entry);
    var r := Step(c, buf, pos, h);
    assert r == ReadBulk(c, buf, pos, h);
    if r.Go? {
      assert [r.events[0]] + [] == r.events;
    }
  }

  /** `bulk_cr` on `\r`: `\n` is expected next. */
  lemma RunBulkCr(c: Config, buf: seq<Byte>, pos: nat, h: Event -> bool, entry: Config)
    requires LiveIn(c, buf, pos, entry, BulkCr)
    requires buf[pos] == CR
    ensures var c' := c.(state := BulkLf, nread := c.nread + 1);
      Valid(c') && Run(c, buf, pos, h, entry) == Run(c', buf, pos + 1, h, entry)
  {
    assert Run(c, buf, pos, h, entry) == Resume(c, buf, pos, h, entry);
    var r := Step(c, buf, pos, h);
    assert r == EndBulk(c, buf, pos, h);
    var c' := c.(state := BulkLf, nread := c.nread + 1);
    assert r == Go(c', pos + 1, []);
    assert [] + Run(c', buf, pos + 1, h, entry).events == Run(c', buf, pos + 1, h, entry).events;
  }

  /** `bulk_lf` on `\n`: the string is complete, `done` follows. */
  lemma RunBulkLf(c: Config, buf: seq<Byte>, pos: nat, h: Event -> bool, entry: Config)
    requires LiveIn(c, buf, pos, entry, BulkLf)
    requires buf[pos] == LF
    ensures Run(c, buf, pos, h, entry) == AfterDone(c, buf, pos, h, entry)
  {
    assert Run(c, buf, pos, h, entry) == Resume(c, buf, pos, h, entry);
    var r := Step(c, buf, pos, h);
    assert r == EndBulk(c, buf, pos, h);
    assert r == Done(c, pos, []);
    DoneEvents(c, buf, pos, h, entry, []);
  }

  /** `bulk_cr` on any byte but `\r`: the call fails at that byte with no
      callback. */
  lemma RunBadBulkCr(c: Config, buf: seq<Byte>, pos: nat, h: Event -> bool, entry: Config)
    requires LiveIn(c, buf, pos, entry, BulkCr) && buf[pos] != CR
    ensures Run(c, buf, pos, h, entry) == Outcome(c, pos, Failed, [])
  {
    assert Run(c, buf, pos, h, entry) == Resume(c, buf, pos, h, entry);
  }

  /** `bulk_lf` on any byte but `\n`: the call fails at that byte with no
      callback. */
  lemma RunBadBulkLf(c: Config, buf: seq<Byte>, pos: nat, h: Event -> bool, entry: Config)
    requires LiveIn(c, buf, pos, entry, BulkLf) && buf[pos] != LF
    ensures Run(c, buf, pos, h, entry) == Outcome(c, pos, Failed, [])
  {
    assert Run(c, buf, pos, h, entry) == Resume(c, buf, pos, h, entry);
  }

  /** A step that is the `done` block: the run is its callbacks followed by
      the rest of the call from `done`. */
  lemma DoneEvents(c: Config, buf: seq<Byte>, pos: nat, h: Event -> bool, entry: Config, evs: seq<Event>)
    requires Unwindable(c, entry) && pos < |buf|
    ensures var r := Done(c, pos, evs);
      var o := if r.Go? then Prepend(evs, Run(r.c, buf, r.pos, h, entry)) else Outcome(r.c, r.pos, Failed, evs);
      o == Prepend(evs, AfterDone(c, buf, pos, h, entry))
  {
    assert evs + [] == evs;
  }

  /** `done` on a record that expects no more children, above the root: its
      length is added to the parent's and the unwinding goes on there. */
  lemma AfterDonePop(c: Config, buf: seq<Byte>, pos: nat, h: Event -> bool, entry: Config)
    requires Unwindable(c, entry) && pos < |buf| && c.stackidx > 0 && !Pending(c.stack[c.stackidx])
    ensures var i := c.stackidx;
      var c' := c.(stack := c.stack[i - 1 := c.stack[i - 1].(plen := c.stack[i - 1].plen + c.stack[i].plen)], stackidx := i - 1);
      AfterDone(c, buf, pos, h, entry) == AfterDone(c', buf, pos, h, entry)
  {
  }

  /** `done` on an array that expects more children: a fresh record is
      pushed above it, its count drops by one, and the next child's tag is
      read after the `\n`. */
  lemma AfterDonePush(c: Config, buf: seq<Byte>, pos: nat, h: Event -> bool, entry: Config)
    requires Unwindable(c, entry) && pos < |buf| && c.stackidx + 1 < |c.stack| && Pending(c.stack[c.stackidx])
    ensures var i := c.stackidx;
      var s := c.stack[i := c.stack[i].(remaining := c.stack[i].remaining - 1)][i + 1 := FreshRecord];
      var c' := c.(state := TypeChar, stack := s, stackidx := i + 1, nread := c.nread + 1);
      Valid(c') && AfterDone(c, buf, pos, h, entry) == Run(c', buf, pos + 1, h, entry)
  {
  }

  /** `done` on a root that expects no more children: the message is
      complete, with the `\n` counted, and the call returns after it. */
  lemma AfterDoneRoot(c: Config, buf: seq<Byte>, pos: nat, h: Event -> bool, entry: Config)
    requires Unwindable(c, entry) && pos < |buf| && c.stackidx == 0 && !Pending(c.stack[0])
    ensures AfterDone(c, buf, pos, h, entry) ==
      Outcome(c.(state := TypeChar, stackidx := -1, nread := c.nread + 1), pos + 1, Completed, [])
  {
  }

  /** The run from `c` at `pos` makes the callbacks `evs` and then enters
      the `done` block at `q` with the parser `d`. */
  predicate Yields(c: Config, buf: seq<Byte>, pos: nat, h: Event -> bool, entry: Config,
                   evs: seq<Event>, d: Config, q: nat) {
    Runnable(c, buf, pos, entry) && Unwindable(d, entry) && q < |buf| &&
    Run(c, buf, pos, h, entry) == Prepend(evs, AfterDone(d, buf, q, h, entry))
  }

  /** The rest of the call from the `done` block at `pos` with `c` makes
      the callbacks `evs` and then enters the `done` block at `q` with `d`. */
  predicate Follows(c: Config, buf: seq<Byte>, pos: nat, h: Event -> bool, entry: Config,
                    evs: seq<Event>, d: Config, q: nat) {
    Unwindable(c, entry) && pos < |buf| && Unwindable(d, entry) && q < |buf| &&
    AfterDone(c, buf, pos, h, entry) == Prepend(evs, AfterDone(d, buf, q, h, entry))
  }

  lemma ResumesYields(c: Config, buf: seq<Byte>, pos: nat, h: Event -> bool, entry: Config,
                      c1: Config, p1: nat, evs: seq<Event>, d: Config, q: nat)
    requires Resumes(c, buf, pos, h, entry, c1, p1) && Yields(c1, buf, p1, h, entry, evs, d, q)
    ensures Yields(c, buf, pos, h, entry, evs, d, q)
  {
  }

  /** A run that yields, then a `done` block that follows on: their
      callbacks `evs` are the first's then the second's. */
  lemma YieldsFollows(c: Config, buf: seq<Byte>, pos: nat, h: Event -> bool, entry: Config,
                      evs1: seq<Event>, d1: Config, q1: nat, evs2: seq<Event>, d2: Config, q2: nat, evs: seq<Event>)
    requires Yields(c, buf, pos, h, entry, evs1, d1, q1) && Follows(d1, buf, q1, h, entry, evs2, d2, q2)
    requires evs == evs1 + evs2
    ensures Yields(c, buf, pos, h, entry, evs, d2, q2)
  {
    PrependPrepend(evs1, evs2, AfterDone(d2, buf, q2, h, entry));
  }

  /** Two `done` blocks that follow on: their callbacks are the first's
      then the second's. The premises are written `(...) == true`, one
      fact the verifier takes apart only when it needs to, which keeps the
      callers' proofs small. */
  lemma FollowsTrans(c: Config, buf: seq<Byte>, pos: nat, h: Event -> bool, entry: Config,
                     evs1: seq<Event>, d1: Config, q1: nat, evs2: seq<Event>, d2: Config, q2: nat, evs: seq<Event>)
    requires (Follows(c, buf, pos, h, entry, evs1, d1, q1) && Follows(d1, buf, q1, h, entry, evs2, d2, q2) && evs == evs1 + evs2) == true
    ensures Follows(c, buf, pos, h, entry, evs, d2, q2)
  {
    PrependPrepend(evs1, evs2, AfterDone(d2, buf, q2, h, entry));
  }

  lemma FollowsNothing(c: Config, buf: seq<Byte>, pos: nat, h: Event -> bool, entry: Config)
    requires Unwindable(c, entry) && pos < |buf|
    ensures Follows(c, buf, pos, h, entry, [], c, pos)
  {
    var o := AfterDone(c, buf, pos, h, entry);
    assert [] + o.events == o.events;
  }

  /** The parser after `done` pushed a fresh record above an array that
      expects more children and took one from its count. */
  function Pushed(c: Config): Config
    requires 0 <= c.stackidx && c.stackidx + 1 < |c.stack|
  {
    var i := c.stackidx;
    var s := c.stack[i := c.stack[i].(remaining := c.stack[i].remaining - 1)][i + 1 := FreshRecord];
    c.(state := TypeChar, stack := s, stackidx := i + 1, nread := c.nread + 1)
  }

  /** The parser after `done` added a finished record's length to its
      parent's and moved the index down to the parent. */
  function Popped(c: Config): Config
    requires 0 < c.stackidx < |c.stack|
  {
    var i := c.stackidx;
    c.(stack := c.stack[i - 1 := c.stack[i - 1].(plen := c.stack[i - 1].plen + c.stack[i].plen)], stackidx := i - 1)
  }

  /** The record pushed for a child is ready for its tag. */
  lemma PushedValid(c: Config, entry: Config)
    requires Unwindable(c, entry) && c.stackidx + 1 < |c.stack| && Pending(c.stack[c.stackidx])
    ensures Valid(Pushed(c)) && Pushed(c).stack[..c.stackidx] == c.stack[..c.stackidx]
  {
    var i := c.stackidx;
    var d := Pushed(c);
    forall j | 0 <= j < d.stackidx
      ensures IsOpenArray(d.stack[j])
    {
      if j < i {
        assert d.stack[j] == c.stack[j];
      }
    }
  }

  /** One child of an array from the `done` block: the push, the run of
      the child to its own `done`, and the pop that adds its length to the
      array's. */
  lemma ChildFollows(c: Config, buf: seq<Byte>, q: nat, h: Event -> bool, entry: Config,
                     evs: seq<Event>, d: Config, p: nat)
    requires Unwindable(c, entry) && q < |buf| && c.stackidx + 1 < |c.stack| && Pending(c.stack[c.stackidx])
    requires Yields(Pushed(c), buf, q + 1, h, entry, evs, d, p)
    requires d.stackidx == c.stackidx + 1 && !Pending(d.stack[d.stackidx])
    ensures Follows(c, buf, q, h, entry, evs, Popped(d), p)
  {
    AfterDonePush(c, buf, q, h, entry);
    AfterDonePop(d, buf, p, h, entry);
  }

  /** Callbacks made before a run that yields. */
  lemma PrependYields(c: Config, buf: seq<Byte>, pos: nat, h: Event -> bool, entry: Config,
                      evs1: seq<Event>, c1: Config, p1: nat, evs2: seq<Event>, d: Config, q: nat)
    requires Runnable(c, buf, pos, entry) && Runnable(c1, buf, p1, entry)
    requires Run(c, buf, pos, h, entry) == Prepend(evs1, Run(c1, buf, p1, h, entry))
    requires Yields(c1, buf, p1, h, entry, evs2, d, q)
    ensures Yields(c, buf, pos, h, entry, evs1 + evs2, d, q)
  {
    PrependPrepend(evs1, evs2, AfterDone(d, buf, q, h, entry));
  }
}
