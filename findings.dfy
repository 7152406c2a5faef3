/** Two places where the code as written departs from what it evidently
    means, each modelled as written beside the corrected definition that the
    rest of the model uses.

    The `done` loop counts an array record as expecting more children when
    its `remaining` is non-zero. A nil array keeps the reset value -1 there,
    so as written `done` pushes a child above it and a message that is a nil
    array never completes. `Machine.Unwind` tests for a positive count.

    `integer_lf` stores a string's length and an array's count through an
    `(unsigned)` conversion, which keeps the low 32 bits of a value the
    scanner checked against the 64-bit range. `Machine.EndHeader` keeps the
    value. */
module Findings {
  import opened RespTypes
  import opened Machine
  import opened Messages

  /** The test of the `done` loop as written. */
  predicate PendingAsWritten(r: Record) {
    r.vtype == ArrayT && r.remaining != 0
  }

  /** `Unwind` with the test as written. */
  function UnwindAsWritten(stack: seq<Record>, idx: int): (u: Unwound)
    requires 0 <= idx < |stack|
    ensures |u.stack| == |stack|
    decreases idx
  {
    var cur := stack[idx];
    if PendingAsWritten(cur) then
      if idx + 1 < |stack| then
        Unwound(stack[idx := cur.(remaining := cur.remaining - 1)][idx + 1 := FreshRecord], idx + 1)
      else TooDeep(stack, idx)
    else if idx > 0 then
      UnwindAsWritten(stack[idx - 1 := stack[idx - 1].(plen := stack[idx - 1].plen + cur.plen)], idx - 1)
    else Unwound(stack, -1)
  }

  /** The two tests agree on every record but one whose count is negative,
      which only a nil array (or a record not yet typed) has. */
  lemma PendingDiffers(r: Record)
    ensures PendingAsWritten(r) != Pending(r) <==> r.vtype == ArrayT && r.remaining < 0
  {
  }

  /** After a nil array (`*-1\r\n`, or any negative count) as the root: as
      written, `done` pushes a fresh record for a child that will never come
      (count -2, index 1), or fails for want of room with a stack of one
      slot; with the test for a positive count the root is popped and the
      message is complete. */
  lemma NilArrayRoot(v: Value, stack: seq<Record>)
    requires v.NilArr? && |stack| >= 1 && stack[0] == Finished(v, 0)
    ensures |stack| >= 2 ==>
      UnwindAsWritten(stack, 0) == Unwound(stack[0 := stack[0].(remaining := -2)][1 := FreshRecord], 1)
    ensures |stack| == 1 ==> UnwindAsWritten(stack, 0).TooDeep?
    ensures Unwind(stack, 0) == Unwound(stack, -1)
  {
  }

  const UINT32_MODULUS: int := 0x1_0000_0000

  /** The `(unsigned)` conversion of a header count: its low 32 bits. */
  function Unsigned(n: int): (u: nat)
    ensures u < UINT32_MODULUS
    ensures 0 <= n < UINT32_MODULUS ==> u == n
  {
    n % UINT32_MODULUS
  }

  /** `integer_lf` as written: `Machine.EndHeader` with the string's length,
      its remaining count and the array's count converted by `Unsigned`. The
      truncated counts still keep the parser invariant. */
  function EndHeaderAsWritten(c: Config, buf: seq<Byte>, pos: nat, h: Event -> bool): (r: StepResult)
    requires Valid(c) && c.stackidx >= 0 && c.state == IntegerLf && pos < |buf|
    ensures StepOk(c, buf, pos, h, r)
  {
    if buf[pos] != LF then Fail(c, pos, [])
    else
      var idx := c.stackidx;
      var top := c.stack[idx];
      var plen := c.nread - top.poff + 1;
      var cur := top.(plen := plen);
      if top.vtype == StringT then
        if c.acc < 0 then Notify(Nil(cur), c.(stack := c.stack[idx := cur]), pos, h)
        else
          var n := Unsigned(c.acc);
          var str := cur.(coff := c.nread + 1, clen := n, plen := plen + n + 2, remaining := n);
          Go(c.(state := Bulk, stack := c.stack[idx := str], nread := c.nread + 1), pos + 1, [])
      else if top.vtype == ArrayT then
        if c.acc < 0 then Notify(Nil(cur), c.(stack := c.stack[idx := cur]), pos, h)
        else
          var arr := cur.(remaining := Unsigned(c.acc));
          Notify(ArrayHeader(arr, Unsigned(c.acc)), c.(stack := c.stack[idx := arr]), pos, h)
      else if top.vtype == IntegerT then
        var num := cur.(coff := top.poff + 1, clen := c.nread - (top.poff + 1) - 1);
        Notify(Integer(num, c.acc), c.(stack := c.stack[idx := num]), pos, h)
      else
        assert false; Fail(c, pos, [])
  }

  /** Below 2^32 the conversion changes nothing: the header step as written
      is the model's. */
  lemma AsWrittenAgrees(c: Config, buf: seq<Byte>, pos: nat, h: Event -> bool)
    requires Valid(c) && c.stackidx >= 0 && c.state == IntegerLf && pos < |buf|
    requires c.acc < UINT32_MODULUS
    ensures EndHeaderAsWritten(c, buf, pos, h) == EndHeader(c, buf, pos, h)
  {
  }

  /** The header `$4294967296\r\n`, at its `\n`: as written the string's
      length and remaining count are 0, so the call takes the payload to be
      empty and expects `\r` next; the model keeps the length 2^32. */
  lemma LongStringHeader(c: Config, buf: seq<Byte>, pos: nat, h: Event -> bool)
    requires Valid(c) && c.stackidx >= 0 && c.state == IntegerLf && pos < |buf| && buf[pos] == LF
    requires c.stack[c.stackidx].vtype == StringT && c.acc == UINT32_MODULUS
    ensures var w := EndHeaderAsWritten(c, buf, pos, h);
      w.Go? && w.c.state == Bulk && w.c.stack[c.stackidx].clen == 0 && w.c.stack[c.stackidx].remaining == 0
    ensures var r := EndHeader(c, buf, pos, h);
      r.Go? && r.c.state == Bulk && r.c.stack[c.stackidx].clen == UINT32_MODULUS &&
      r.c.stack[c.stackidx].remaining == UINT32_MODULUS
  {
  }

  /** The header `*4294967296\r\n`, at its `\n`: as written the array
      callback reports no children; the model reports 2^32. */
  lemma LongArrayHeader(c: Config, buf: seq<Byte>, pos: nat, h: Event -> bool)
    requires Valid(c) && c.stackidx >= 0 && c.state == IntegerLf && pos < |buf| && buf[pos] == LF
    requires c.stack[c.stackidx].vtype == ArrayT && c.acc == UINT32_MODULUS
    ensures var w := EndHeaderAsWritten(c, buf, pos, h);
      w.events == [ArrayHeader(c.stack[c.stackidx].(plen := c.nread - c.stack[c.stackidx].poff + 1, remaining := 0), 0)]
    ensures var r := EndHeader(c, buf, pos, h);
      r.events == [ArrayHeader(c.stack[c.stackidx].(plen := c.nread - c.stack[c.stackidx].poff + 1,
                                                     remaining := UINT32_MODULUS), UINT32_MODULUS)]
  {
  }
}
