/** The lines of the protocol as the machine reads them, independent of
    any value: a header line, then for an integer, a nil, an array or a
    bulk string what the run does up to the `done` block that ends it. */
module Lines {
  import opened RespTypes
  import opened IntegerScanner
  import opened Machine
  import opened Stages
  import opened Messages

  /** The bytes `x` stand in the buffer at `pos`. */
  predicate InBuffer(buf: seq<Byte>, pos: nat, x: seq<Byte>) {
    pos + |x| <= |buf| && buf[pos..pos + |x|] == x
  }

  lemma SliceSplit(buf: seq<Byte>, pos: nat, x: seq<Byte>, y: seq<Byte>)
    requires InBuffer(buf, pos, x + y)
    ensures InBuffer(buf, pos, x) && InBuffer(buf, pos + |x|, y)
  {
    assert buf[pos..pos + |x|] == (x + y)[..|x|];
    assert buf[pos + |x|..pos + |x| + |y|] == (x + y)[|x|..];
  }

  /** The machine may run from `pos` in state `s`, inside a value. */
  predicate InState(c: Config, buf: seq<Byte>, pos: nat, entry: Config, s: State) {
    Runnable(c, buf, pos, entry) && c.stackidx >= 0 && c.state == s
  }

  /** The parser once a header line has been read up to its `\r`: the
      current record has its offset and type, and the accumulator holds the
      literal's value. */
  function HeaderRead(c: Config, tag: Byte, lit: seq<Byte>): Config
    requires 0 <= c.stackidx < |c.stack| && LiteralValue(lit).Some?
  {
    var top := c.stack[c.stackidx].(poff := c.nread, vtype := TagType(tag));
    c.(state := IntegerLf, stack := c.stack[c.stackidx := top], nread := c.nread + |lit| + 2,
       acc := LiteralValue(lit).value)
  }

  /** The parser once the tag byte has been read: the current record has
      its offset and type, and the integer states are next. */
  function TagRead(c: Config, tag: Byte): Config
    requires 0 <= c.stackidx < |c.stack|
  {
    var top := c.stack[c.stackidx].(poff := c.nread, vtype := TagType(tag));
    c.(state := IntegerStart, stack := c.stack[c.stackidx := top], nread := c.nread + 1)
  }

  /** A header line in the buffer: its tag, its literal with the `\r`, and
      its `\n`. */
  lemma HeaderSlices(buf: seq<Byte>, pos: nat, tag: Byte, lit: seq<Byte>)
    requires InBuffer(buf, pos, HeaderBytes(tag, lit))
    ensures pos + |lit| + 2 < |buf| && buf[pos] == tag && buf[pos + |lit| + 2] == LF
    ensures InBuffer(buf, pos + 1, lit + [CR])
  {
    var t := lit + [CR];
    assert HeaderBytes(tag, lit) == [tag] + t + [LF];
    SliceSplit(buf, pos, [tag], t + [LF]);
    SliceSplit(buf, pos + 1, t, [LF]);
  }

  /** `type_char` on a length or integer tag. */
  lemma ParseTag(c: Config, buf: seq<Byte>, pos: nat, h: Event -> bool, entry: Config, tag: Byte)
    requires LiveIn(c, buf, pos, entry, TypeChar) && buf[pos] == tag
    requires tag == DOLLAR || tag == STAR || tag == COLON
    ensures Resumes(c, buf, pos, h, entry, TagRead(c, tag), pos + 1)
  {
    RunTag(c, buf, pos, h, entry);
  }

  /** The integer states over a literal they accept and its `\r`. */
  lemma ParseLiteral(c: Config, buf: seq<Byte>, pos: nat, h: Event -> bool, entry: Config, lit: seq<Byte>, q: nat)
    requires InState(c, buf, pos, entry, IntegerStart)
    requires InBuffer(buf, pos, lit + [CR]) && LiteralValue(lit).Some? && q == pos + |lit| + 1
    ensures Resumes(c, buf, pos, h, entry,
      c.(state := IntegerLf, nread := c.nread + |lit| + 1, acc := LiteralValue(lit).value), q)
  {
    var t := lit + [CR];
    ScanFieldMatchesLiteral(lit, c.acc);
    RunScanAccept(c, buf, pos, h, entry, t);
  }

  /** `type_char` and the integer states over a header line whose literal
      is accepted: the run goes on at its `\n` in `integer_lf`. */
  lemma ParseHeader(c: Config, buf: seq<Byte>, pos: nat, h: Event -> bool, entry: Config, tag: Byte, lit: seq<Byte>, q: nat)
    requires InState(c, buf, pos, entry, TypeChar)
    requires (tag == DOLLAR || tag == STAR || tag == COLON) && LiteralValue(lit).Some?
    requires InBuffer(buf, pos, HeaderBytes(tag, lit)) && q == pos + |lit| + 2
    ensures q < |buf| && buf[q] == LF && HeaderRead(c, tag, lit).stackidx == c.stackidx
    ensures LiveIn(HeaderRead(c, tag, lit), buf, q, entry, IntegerLf)
    ensures Resumes(c, buf, pos, h, entry, HeaderRead(c, tag, lit), q)
  {
    HeaderSlices(buf, pos, tag, lit);
    ParseTag(c, buf, pos, h, entry, tag);
    var c1 := TagRead(c, tag);
    ParseLiteral(c1, buf, pos + 1, h, entry, lit, q);
    var d := c1.(state := IntegerLf, nread := c1.nread + |lit| + 1, acc := LiteralValue(lit).value);
    ResumesTrans(c, buf, pos, h, entry, c1, pos + 1, d, q);
    assert d == HeaderRead(c, tag, lit);
  }


  /** The run has left the current slot holding `r`, the index where it
      was, and `len` more bytes counted. */
  predicate Settled(c: Config, r: Record, len: nat, d: Config) {
    0 <= c.stackidx < |c.stack| && d.stackidx == c.stackidx &&
    d.stack == c.stack[c.stackidx := r] && d.nread == c.nread + len
  }

  /** `integer_lf` after an integer's header: one callback with the value
      and the finished record, then `done` at the `\n`. */
  lemma IntegerEnd(c: Config, buf: seq<Byte>, q: nat, h: Event -> bool, entry: Config, lit: seq<Byte>)
    returns (d: Config)
    requires 0 <= c.stackidx < |c.stack| && c.stack[c.stackidx] == FreshRecord && LiteralValue(lit).Some?
    requires LiveIn(HeaderRead(c, COLON, lit), buf, q, entry, IntegerLf) && buf[q] == LF
    requires h(Integer(Record(IntegerT, c.nread, |lit| + 3, c.nread + 1, |lit|, -1), LiteralValue(lit).value))
    ensures Settled(c, Record(IntegerT, c.nread, |lit| + 3, c.nread + 1, |lit|, -1), |lit| + 2, d)
    ensures Yields(HeaderRead(c, COLON, lit), buf, q, h, entry,
      [Integer(Record(IntegerT, c.nread, |lit| + 3, c.nread + 1, |lit|, -1), LiteralValue(lit).value)], d, q)
  {
    var cL := HeaderRead(c, COLON, lit);
    var i := c.stackidx;
    var top := cL.stack[i];
    var num := top.(plen := cL.nread - top.poff + 1, coff := top.poff + 1, clen := cL.nread - (top.poff + 1) - 1);
    assert num == Record(IntegerT, c.nread, |lit| + 3, c.nread + 1, |lit|, -1);
    assert cL.acc == LiteralValue(lit).value;
    d := cL.(stack := cL.stack[i := num]);
    assert d.stack == c.stack[i := num];
    RunIntegerEnd(cL, buf, q, h, entry);
  }

  /** An integer line `:<lit>\r\n` read into a fresh record: one callback
      with the value and the finished record, then `done` at the `\n`. */
  lemma IntegerLine(c: Config, buf: seq<Byte>, pos: nat, h: Event -> bool, entry: Config, lit: seq<Byte>)
    returns (d: Config)
    requires InState(c, buf, pos, entry, TypeChar) && c.stack[c.stackidx] == FreshRecord
    requires LiteralValue(lit).Some? && InBuffer(buf, pos, HeaderBytes(COLON, lit))
    requires h(Integer(Record(IntegerT, c.nread, |lit| + 3, c.nread + 1, |lit|, -1), LiteralValue(lit).value))
    ensures Settled(c, Record(IntegerT, c.nread, |lit| + 3, c.nread + 1, |lit|, -1), |lit| + 2, d)
    ensures Yields(c, buf, pos, h, entry,
      [Integer(Record(IntegerT, c.nread, |lit| + 3, c.nread + 1, |lit|, -1), LiteralValue(lit).value)], d, pos + |lit| + 2)
  {
    var q := pos + |lit| + 2;
    ParseHeader(c, buf, pos, h, entry, COLON, lit, q);
    d := IntegerEnd(c, buf, q, h, entry, lit);
    ResumesYields(c, buf, pos, h, entry, HeaderRead(c, COLON, lit), q,
      [Integer(Record(IntegerT, c.nread, |lit| + 3, c.nread + 1, |lit|, -1), LiteralValue(lit).value)], d, q);
  }

  /** `integer_lf` after a header with a negative length: one nil callback
      with the finished record, then `done` at the `\n`. */
  lemma NilEnd(c: Config, buf: seq<Byte>, q: nat, h: Event -> bool, entry: Config, tag: Byte, lit: seq<Byte>)
    returns (d: Config)
    requires 0 <= c.stackidx < |c.stack| && c.stack[c.stackidx] == FreshRecord
    requires (tag == DOLLAR || tag == STAR) && LiteralValue(lit).Some? && LiteralValue(lit).value < 0
    requires LiveIn(HeaderRead(c, tag, lit), buf, q, entry, IntegerLf) && buf[q] == LF
    requires h(Nil(Record(TagType(tag), c.nread, |lit| + 3, 0, 0, -1)))
    ensures Settled(c, Record(TagType(tag), c.nread, |lit| + 3, 0, 0, -1), |lit| + 2, d)
    ensures Yields(HeaderRead(c, tag, lit), buf, q, h, entry, [Nil(Record(TagType(tag), c.nread, |lit| + 3, 0, 0, -1))], d, q)
  {
    var cL := HeaderRead(c, tag, lit);
    var i := c.stackidx;
    var top := cL.stack[i];
    var cur := top.(plen := cL.nread - top.poff + 1);
    assert cur == Record(TagType(tag), c.nread, |lit| + 3, 0, 0, -1);
    d := cL.(stack := cL.stack[i := cur]);
    assert d.stack == c.stack[i := cur];
    RunNilEnd(cL, buf, q, h, entry);
  }

  /** A header line with a negative length after `$` or `*`, read into a
      fresh record: one nil callback with the finished record, then `done`. */
  lemma NilLine(c: Config, buf: seq<Byte>, pos: nat, h: Event -> bool, entry: Config, tag: Byte, lit: seq<Byte>)
    returns (d: Config)
    requires InState(c, buf, pos, entry, TypeChar) && c.stack[c.stackidx] == FreshRecord
    requires (tag == DOLLAR || tag == STAR) && LiteralValue(lit).Some? && LiteralValue(lit).value < 0
    requires InBuffer(buf, pos, HeaderBytes(tag, lit))
    requires h(Nil(Record(TagType(tag), c.nread, |lit| + 3, 0, 0, -1)))
    ensures Settled(c, Record(TagType(tag), c.nread, |lit| + 3, 0, 0, -1), |lit| + 2, d)
    ensures Yields(c, buf, pos, h, entry, [Nil(Record(TagType(tag), c.nread, |lit| + 3, 0, 0, -1))], d, pos + |lit| + 2)
  {
    var q := pos + |lit| + 2;
    ParseHeader(c, buf, pos, h, entry, tag, lit, q);
    d := NilEnd(c, buf, q, h, entry, tag, lit);
    ResumesYields(c, buf, pos, h, entry, HeaderRead(c, tag, lit), q, [Nil(Record(TagType(tag), c.nread, |lit| + 3, 0, 0, -1))], d, q);
  }

  /** `integer_lf` after an array header with a count `k`: the array
      callback, then `done` at the `\n` with `k` children expected. */
  lemma ArrayEnd(c: Config, buf: seq<Byte>, q: nat, h: Event -> bool, entry: Config, lit: seq<Byte>, k: nat)
    returns (d: Config)
    requires 0 <= c.stackidx < |c.stack| && c.stack[c.stackidx] == FreshRecord && LiteralValue(lit) == Some(k)
    requires LiveIn(HeaderRead(c, STAR, lit), buf, q, entry, IntegerLf) && buf[q] == LF
    requires h(ArrayHeader(Record(ArrayT, c.nread, |lit| + 3, 0, 0, k), k))
    ensures Settled(c, Record(ArrayT, c.nread, |lit| + 3, 0, 0, k), |lit| + 2, d)
    ensures Yields(HeaderRead(c, STAR, lit), buf, q, h, entry, [ArrayHeader(Record(ArrayT, c.nread, |lit| + 3, 0, 0, k), k)], d, q)
  {
    var cL := HeaderRead(c, STAR, lit);
    var i := c.stackidx;
    var top := cL.stack[i];
    var arr := top.(plen := cL.nread - top.poff + 1, remaining := cL.acc);
    assert cL.acc == k;
    assert arr == Record(ArrayT, c.nread, |lit| + 3, 0, 0, k);
    d := cL.(stack := cL.stack[i := arr]);
    assert d.stack == c.stack[i := arr];
    RunArrayEnd(cL, buf, q, h, entry);
  }

  /** An array header `*<lit>\r\n` with a count `k`, read into a fresh
      record: the array callback, then `done` at the `\n` with `k`
      children expected. */
  lemma ArrayLine(c: Config, buf: seq<Byte>, pos: nat, h: Event -> bool, entry: Config, lit: seq<Byte>, k: nat)
    returns (d: Config)
    requires InState(c, buf, pos, entry, TypeChar) && c.stack[c.stackidx] == FreshRecord
    requires LiteralValue(lit) == Some(k) && InBuffer(buf, pos, HeaderBytes(STAR, lit))
    requires h(ArrayHeader(Record(ArrayT, c.nread, |lit| + 3, 0, 0, k), k))
    ensures Settled(c, Record(ArrayT, c.nread, |lit| + 3, 0, 0, k), |lit| + 2, d)
    ensures Yields(c, buf, pos, h, entry, [ArrayHeader(Record(ArrayT, c.nread, |lit| + 3, 0, 0, k), k)], d, pos + |lit| + 2)
  {
    var q := pos + |lit| + 2;
    ParseHeader(c, buf, pos, h, entry, STAR, lit, q);
    d := ArrayEnd(c, buf, q, h, entry, lit, k);
    ResumesYields(c, buf, pos, h, entry, HeaderRead(c, STAR, lit), q, [ArrayHeader(Record(ArrayT, c.nread, |lit| + 3, 0, 0, k), k)], d, q);
  }

  /** The parser in `bulk` with a bulk string's record set from its header. */
  function BulkStart(c: Config, lit: seq<Byte>, n: nat): Config
    requires 0 <= c.stackidx < |c.stack|
  {
    c.(state := Bulk, stack := c.stack[c.stackidx := Record(StringT, c.nread, |lit| + 3 + n + 2, c.nread + |lit| + 3, n, n)],
       nread := c.nread + |lit| + 3, acc := n)
  }

  /** `integer_lf` after a bulk string header with a length `n`: the
      record's lengths are set from the header and `bulk` is next. */
  lemma StringStart(c: Config, buf: seq<Byte>, q: nat, h: Event -> bool, entry: Config, lit: seq<Byte>, n: nat)
    requires 0 <= c.stackidx < |c.stack| && c.stack[c.stackidx] == FreshRecord && LiteralValue(lit) == Some(n)
    requires LiveIn(HeaderRead(c, DOLLAR, lit), buf, q, entry, IntegerLf) && buf[q] == LF
    ensures Resumes(HeaderRead(c, DOLLAR, lit), buf, q, h, entry, BulkStart(c, lit, n), q + 1)
  {
    var cL := HeaderRead(c, DOLLAR, lit);
    var i := c.stackidx;
    var top := cL.stack[i];
    var m := cL.acc;
    var str := top.(plen := cL.nread - top.poff + 1 + m + 2, coff := cL.nread + 1, clen := m, remaining := m);
    var c2 := cL.(state := Bulk, stack := cL.stack[i := str], nread := cL.nread + 1);
    assert m == n;
    assert c2.stack == c.stack[i := str];
    assert c2 == BulkStart(c, lit, n);
    RunStringHeaderEnd(cL, buf, q, h, entry);
  }

  /** A bulk string header `$<lit>\r\n` with a length, read into a fresh
      record: the record's lengths are set from the header and `bulk` is
      next, after the `\n`. */
  lemma StringHeader(c: Config, buf: seq<Byte>, pos: nat, h: Event -> bool, entry: Config, lit: seq<Byte>, n: nat, p: nat)
    requires InState(c, buf, pos, entry, TypeChar) && c.stack[c.stackidx] == FreshRecord
    requires LiteralValue(lit) == Some(n) && InBuffer(buf, pos, HeaderBytes(DOLLAR, lit)) && p == pos + |lit| + 3
    ensures Resumes(c, buf, pos, h, entry, BulkStart(c, lit, n), p)
  {
    var q := pos + |lit| + 2;
    ParseHeader(c, buf, pos, h, entry, DOLLAR, lit, q);
    StringStart(c, buf, q, h, entry, lit, n);
    ResumesTrans(c, buf, pos, h, entry, HeaderRead(c, DOLLAR, lit), q, BulkStart(c, lit, n), q + 1);
  }

  /** `bulk_cr` and `bulk_lf` over the `\r\n` after a payload: no callback,
      then the `done` block at the `\n`. */
  lemma PayloadEnd(c: Config, buf: seq<Byte>, p: nat, h: Event -> bool, entry: Config)
    requires LiveIn(c, buf, p, entry, BulkCr) && p + 1 < |buf| && buf[p] == CR && buf[p + 1] == LF
    ensures Yields(c, buf, p, h, entry, [], c.(state := BulkLf, nread := c.nread + 1), p + 1)
  {
    var d := c.(state := BulkLf, nread := c.nread + 1);
    RunBulkCr(c, buf, p, h, entry);
    RunBulkLf(d, buf, p + 1, h, entry);
    var o := AfterDone(d, buf, p + 1, h, entry);
    assert [] + o.events == o.events;
  }

  /** `bulk`, `bulk_cr` and `bulk_lf` over a payload that is all in the
      buffer and its `\r\n`: one chunk callback with the payload, then the
      `done` block at the `\n`. */
  lemma Payload(c: Config, buf: seq<Byte>, p: nat, h: Event -> bool, entry: Config, data: seq<Byte>, fin: Record, q: nat)
    returns (d: Config)
    requires LiveIn(c, buf, p, entry, Bulk) && c.stack[c.stackidx].remaining == |data|
    requires fin == c.stack[c.stackidx].(remaining := 0) && q == p + |data| + 1
    requires InBuffer(buf, p, data + [CR, LF]) && h(StringChunk(fin, p, data))
    ensures Settled(c, fin, |data| + 1, d)
    ensures Yields(c, buf, p, h, entry, [StringChunk(fin, p, data)], d, q)
  {
    var n := |data|;
    var i := c.stackidx;
    var cur := c.stack[i].(remaining := 0);
    var e := StringChunk(cur, p, data);
    var c3 := c.(state := BulkCr, stack := c.stack[i := cur], nread := c.nread + n);
    d := c3.(state := BulkLf, nread := c3.nread + 1);
    assert [e] + [] == [e];
    SliceSplit(buf, p, data, [CR, LF]);
    assert buf[p + n] == CR && buf[p + n + 1] == LF by {
      assert buf[p + n..p + n + 2] == [CR, LF];
    }
    RunBulkWhole(c, buf, p, h, entry);
    PayloadEnd(c3, buf, p + n, h, entry);
    PrependYields(c, buf, p, h, entry, [e], c3, p + n, [], d, p + n + 1);
  }

  /** A bulk string whose payload is all in the buffer, read into a fresh
      record: one chunk callback with the whole payload and the finished
      record, then `done` at the `\n` after the payload's `\r`. */
  lemma StringLines(c: Config, buf: seq<Byte>, pos: nat, h: Event -> bool, entry: Config, lit: seq<Byte>, data: seq<Byte>)
    returns (d: Config)
    requires InState(c, buf, pos, entry, TypeChar) && c.stack[c.stackidx] == FreshRecord
    requires LiteralValue(lit) == Some(|data|) && InBuffer(buf, pos, HeaderBytes(DOLLAR, lit) + (data + [CR, LF]))
    requires h(StringChunk(Record(StringT, c.nread, |lit| + 3 + |data| + 2, c.nread + |lit| + 3, |data|, 0), pos + |lit| + 3, data))
    ensures Settled(c, Record(StringT, c.nread, |lit| + 3 + |data| + 2, c.nread + |lit| + 3, |data|, 0), |lit| + 3 + |data| + 1, d)
    ensures Yields(c, buf, pos, h, entry,
      [StringChunk(Record(StringT, c.nread, |lit| + 3 + |data| + 2, c.nread + |lit| + 3, |data|, 0), pos + |lit| + 3, data)],
      d, pos + |lit| + 3 + |data| + 1)
  {
    var n := |data|;
    var p := pos + |lit| + 3;
    var q := pos + |lit| + 3 + |data| + 1;
    var i := c.stackidx;
    var c2 := BulkStart(c, lit, n);
    var fin := Record(StringT, c.nread, |lit| + 3 + |data| + 2, c.nread + |lit| + 3, |data|, 0);
    assert fin == c2.stack[c2.stackidx].(remaining := 0);
    assert c2.stack[i := fin] == c.stack[i := fin];
    SliceSplit(buf, pos, HeaderBytes(DOLLAR, lit), data + [CR, LF]);
    StringHeader(c, buf, pos, h, entry, lit, n, p);
    d := Payload(c2, buf, p, h, entry, data, fin, q);
    ResumesYields(c, buf, pos, h, entry, c2, p, [StringChunk(fin, p, data)], d, q);
  }
}
