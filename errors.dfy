/** The error paths of one call: from an idle parser, a message that does
    not start with a tag the decoder reads, a header literal outside the
    grammar or the 64-bit range, and a header `\r` not followed by `\n`;
    inside a bulk string, a payload not followed by `\r\n`. Each ends the
    call in `error` at the offending byte: less is consumed than was given,
    the only callback is the chunk of a payload read before that byte, and
    the parser keeps the message in progress. */
module Errors {
  import opened RespTypes
  import opened IntegerScanner
  import opened Machine
  import opened Stages

  /** A tag the decoder reads. */
  predicate IsTag(b: Byte) {
    b == DOLLAR || b == STAR || b == COLON
  }

  /** Bytes of a header field with no `\r` among them append a `\r` that
      only the last byte is. */
  lemma {:induction false} CrAtEnd(s: seq<Byte>)
    requires forall i :: 0 <= i < |s| ==> s[i] != CR
    ensures CrOnlyLast(s + [CR])
    decreases |s|
  {
    if s != [] {
      assert (s + [CR])[1..] == s[1..] + [CR];
      CrAtEnd(s[1..]);
    }
  }

  /** A message whose first byte is not `$`, `*` or `:` (the status `+` and
      error `-` tags among them) fails on that byte: nothing is consumed, no
      callback is made, and the root record holds the offset 0 and, for `+`
      and `-`, the error type. */
  lemma BadTagFails(p: Config, buf: seq<Byte>, h: Event -> bool)
    requires Valid(p) && p.stackidx == -1 && |buf| > 0 && !IsTag(buf[0])
    ensures var o := Execute(p, buf, h);
      o.ending == Failed && o.consumed == 0 && o.events == [] &&
      o.parser.stackidx == 0 && o.parser.stack[0].poff == 0 &&
      (o.parser.stack[0].vtype == ErrorT <==> buf[0] == PLUS || buf[0] == MINUS)
  {
    var c := Begin(p);
    RunBadTag(c, buf, 0, h, c);
  }

  /** A header after a tag the decoder reads whose literal is outside the
      grammar or the 64-bit range (a sign on zero, a leading zero, a missing
      digit, a byte that is no digit, an overflow) fails on a byte of the
      literal or on its `\r`, with no callback. */
  lemma BadLiteralFails(p: Config, tag: Byte, lit: seq<Byte>, rest: seq<Byte>, h: Event -> bool)
    requires Valid(p) && p.stackidx == -1 && IsTag(tag)
    requires LiteralValue(lit).None? && forall i :: 0 <= i < |lit| ==> lit[i] != CR
    ensures var o := Execute(p, [tag] + lit + [CR] + rest, h);
      o.ending == Failed && o.events == [] && o.parser.stackidx == 0 &&
      1 <= o.consumed <= |lit| + 1
  {
    var buf := [tag] + lit + [CR] + rest;
    var c := Begin(p);
    var t := lit + [CR];
    RunTag(c, buf, 0, h, c);
    var top := c.stack[0].(poff := 0, vtype := TagType(tag));
    var c1 := c.(state := IntegerStart, stack := c.stack[0 := top], nread := 1);
    assert buf[1..1 + |t|] == t;
    CrAtEnd(lit);
    ScanFieldMatchesLiteral(lit, c1.acc);
    RunScanReject(c1, buf, 1, h, c, t);
  }

  /** A header whose literal is accepted but whose `\r` is followed by any
      byte but `\n` fails on that byte, with no callback. */
  lemma MissingLfFails(p: Config, tag: Byte, lit: seq<Byte>, b: Byte, rest: seq<Byte>, h: Event -> bool)
    requires Valid(p) && p.stackidx == -1 && IsTag(tag)
    requires LiteralValue(lit).Some? && b != LF
    ensures var o := Execute(p, [tag] + lit + [CR, b] + rest, h);
      o.ending == Failed && o.events == [] && o.parser.stackidx == 0 &&
      o.consumed == |lit| + 2
  {
    var buf := [tag] + lit + [CR, b] + rest;
    var c := Begin(p);
    var t := lit + [CR];
    RunTag(c, buf, 0, h, c);
    var top := c.stack[0].(poff := 0, vtype := TagType(tag));
    var c1 := c.(state := IntegerStart, stack := c.stack[0 := top], nread := 1);
    assert buf[1..1 + |t|] == t;
    ScanFieldMatchesLiteral(lit, c1.acc);
    var r := ScanField(c1.state, c1.acc, t);
    assert r.Continue? && r.state == IntegerLf;
    RunScanAccept(c1, buf, 1, h, c, t);
    var c2 := Scanned(c1, r, |t|);
    assert LiveIn(c2, buf, 1 + |t|, c, IntegerLf) && buf[1 + |t|] == b;
    RunBadLf(c2, buf, 1 + |t|, h, c);
    assert Execute(p, buf, h) == Outcome(c2, 1 + |t|, Failed, []);
  }

  /** A call inside a bulk string given the rest `b` of its payload and then
      a byte `x` that is not `\r`: one chunk with all of `b`, then the call
      fails on `x`, having consumed `b`, with the parser waiting in
      `bulk_cr` and the payload counted. */
  lemma BadPayloadEndFails(p: Config, b: seq<Byte>, x: Byte, rest: seq<Byte>, h: Event -> bool)
    requires Valid(p) && p.stackidx >= 0 && p.state == Bulk && p.stack[p.stackidx].remaining == |b|
    requires h(StringChunk(p.stack[p.stackidx].(remaining := 0), 0, b)) && x != CR
    ensures var fin := p.stack[p.stackidx].(remaining := 0);
      var o := Execute(p, b + [x] + rest, h);
      o.ending == Failed && o.consumed == |b| && o.events == [StringChunk(fin, 0, b)] &&
      o.parser == p.(state := BulkCr, stack := p.stack[p.stackidx := fin], nread := p.nread + |b|)
  {
    var buf := b + [x] + rest;
    assert buf[0..|b|] == b && buf[|b|] == x;
    RunBulkWhole(p, buf, 0, h, p);
    var fin := p.stack[p.stackidx].(remaining := 0);
    var c2 := p.(state := BulkCr, stack := p.stack[p.stackidx := fin], nread := p.nread + |b|);
    RunBadBulkCr(c2, buf, |b|, h, p);
  }

  /** The same with the payload followed by `\r` and then a byte `x` that is
      not `\n`: the chunk, then the call fails on `x`, having consumed `b`
      and the `\r`, with the parser waiting in `bulk_lf`. */
  lemma BadPayloadLfFails(p: Config, b: seq<Byte>, x: Byte, rest: seq<Byte>, h: Event -> bool)
    requires Valid(p) && p.stackidx >= 0 && p.state == Bulk && p.stack[p.stackidx].remaining == |b|
    requires h(StringChunk(p.stack[p.stackidx].(remaining := 0), 0, b)) && x != LF
    ensures var fin := p.stack[p.stackidx].(remaining := 0);
      var o := Execute(p, b + [CR, x] + rest, h);
      o.ending == Failed && o.consumed == |b| + 1 && o.events == [StringChunk(fin, 0, b)] &&
      o.parser == p.(state := BulkLf, stack := p.stack[p.stackidx := fin], nread := p.nread + |b| + 1)
  {
    var buf := b + [CR, x] + rest;
    assert buf[0..|b|] == b && buf[|b|] == CR && buf[|b| + 1] == x;
    RunBulkWhole(p, buf, 0, h, p);
    var fin := p.stack[p.stackidx].(remaining := 0);
    var c2 := p.(state := BulkCr, stack := p.stack[p.stackidx := fin], nread := p.nread + |b|);
    RunBulkCr(c2, buf, |b|, h, p);
    var c3 := c2.(state := BulkLf, nread := c2.nread + 1);
    RunBadBulkLf(c3, buf, |b| + 1, h, p);
  }
}
