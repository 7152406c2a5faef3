/** The decoding engine of `redis_parser_execute` as pure functions: the
    resume state, one transition per state label, the `done` unwinding loop,
    and a whole call. The `Parser` class runs the same machine in place and is
    proved equal to `Execute` below. */
module Machine {
  import opened RespTypes
  import opened IntegerScanner

  /** The resume state of a parser: the current state, the record stack (its
      length is the capacity), the index of the current record (-1 when idle),
      the bytes read of the current message and the scanner's accumulator. */
  datatype Config = Config(state: State, stack: seq<Record>, stackidx: int, nread: nat, acc: int)

  /** Why a call returned. */
  datatype Ending =
    | Completed   // the root value was completed (the source sets `*dst`)
    | Exhausted   // all input was used and the message is not complete yet
    | Failed      // a protocol error, or no room on the stack for a child
    | Stopped     // a callback returned 0

  /** Result of one call: the state left in the parser, the count returned,
      why the call returned, and the callbacks made, in order. */
  datatype Outcome = Outcome(parser: Config, consumed: nat, ending: Ending, events: seq<Event>)

  predicate IsHeaderType(t: ValueType) {
    t == StringT || t == ArrayT || t == IntegerT
  }

  /** An array record that still expects children to be started. */
  predicate Pending(r: Record) {
    r.vtype == ArrayT && r.remaining > 0
  }

  /** A record that is the parent of another: an array whose child count is set. */
  predicate IsOpenArray(r: Record) {
    r.vtype == ArrayT && r.remaining >= 0
  }

  /** What holds of the current record and the accumulator in each state. */
  predicate StateInv(st: State, top: Record, nread: nat, acc: int) {
    match st
    case TypeChar => true
    case IntegerStart => IsHeaderType(top.vtype) && top.poff < nread
    case IntegerPos19 => IsHeaderType(top.vtype) && top.poff < nread
    case IntegerNeg19 => IsHeaderType(top.vtype) && top.poff < nread
    case IntegerPos09 => IsHeaderType(top.vtype) && top.poff < nread && 0 <= acc <= INT64_MAX
    case IntegerNeg09 => IsHeaderType(top.vtype) && top.poff < nread && 0 <= acc <= INT64_MIN_MAGNITUDE
    case IntegerCr => IsHeaderType(top.vtype) && top.poff < nread && acc == 0
    case IntegerLf =>
      IsHeaderType(top.vtype) && top.poff + 1 < nread && -INT64_MIN_MAGNITUDE <= acc <= INT64_MAX
    case Bulk => top.vtype == StringT && 0 <= top.remaining <= top.clen
    case BulkCr => top.vtype == StringT && top.remaining == 0
    case BulkLf => top.vtype == StringT && top.remaining == 0
  }

  /** The parser invariant: the index is within the stack or -1, every record
      below the current one is an array that is its parent, and the current
      record agrees with the state. */
  predicate Valid(c: Config) {
    1 <= |c.stack| && -1 <= c.stackidx < |c.stack| &&
    (c.stackidx >= 0 ==>
      (forall i {:trigger IsOpenArray(c.stack[i])} :: 0 <= i < c.stackidx ==> IsOpenArray(c.stack[i])) &&
      StateInv(c.state, c.stack[c.stackidx], c.nread, c.acc))
  }

  /** Total protocol length of a run of records. */
  function SumPlen(s: seq<Record>): nat {
    if s == [] then 0 else SumPlen(s[..|s| - 1]) + s[|s| - 1].plen
  }

  datatype Unwound =
    | Unwound(stack: seq<Record>, stackidx: int)
    | TooDeep(stack: seq<Record>, stackidx: int)

  /** The `done` loop after the current record completed: an array still
      expecting children gets a fresh record pushed above it and its count
      decremented; any other record adds its protocol length to its parent's
      and is popped, and the loop goes on with the parent. Popping the root
      leaves the index at -1. A push past the last slot is `TooDeep`. */
  function Unwind(stack: seq<Record>, idx: int): (u: Unwound)
    requires 0 <= idx < |stack|
    requires forall i :: 0 <= i < idx ==> IsOpenArray(stack[i])
    ensures |u.stack| == |stack|
    ensures u.Unwound? ==> -1 <= u.stackidx < |stack|
    ensures u.Unwound? && u.stackidx >= 0 ==>
      1 <= u.stackidx && u.stack[u.stackidx] == FreshRecord &&
      forall i :: 0 <= i < u.stackidx ==> IsOpenArray(u.stack[i])
    ensures u.TooDeep? ==> u.stackidx == |stack| - 1 && Pending(u.stack[u.stackidx])
    decreases idx
  {
    var cur := stack[idx];
    if Pending(cur) then
      if idx + 1 < |stack| then
        Unwound(stack[idx := cur.(remaining := cur.remaining - 1)][idx + 1 := FreshRecord], idx + 1)
      else TooDeep(stack, idx)
    else if idx > 0 then
      Unwind(stack[idx - 1 := stack[idx - 1].(plen := stack[idx - 1].plen + cur.plen)], idx - 1)
    else Unwound(stack, -1)
  }

  /** What one visit of a state label does. `Go` enters the next state at
      the given position; `Fail` is `goto error` (the parser is saved as it
      is); `Halt` is a callback that returned 0 (only the stack, which the
      engine edits in place, keeps the changes). */
  datatype StepResult =
    | Go(c: Config, pos: nat, events: seq<Event>)
    | Fail(c: Config, pos: nat, events: seq<Event>)
    | Halt(stack: seq<Record>, pos: nat, events: seq<Event>)
  {
    function Stack(): seq<Record> {
      if Halt? then stack else c.stack
    }
  }

  /** What every step promises: the stack keeps its capacity, a step that
      goes on keeps the invariant, consumes at least one byte (or leaves
      `bulk` for `bulk_cr` after the last payload byte) and counts exactly the
      bytes it consumed in `nread`; a step that returns consumes nothing;
      at most one callback is made, and the call halts exactly when it
      returned false. */
  predicate StepOk(c: Config, buf: seq<Byte>, pos: nat, h: Event -> bool, r: StepResult) {
    |r.Stack()| == |c.stack| &&
    (r.Go? ==> Valid(r.c) && r.pos <= |buf| && r.c.nread == c.nread + (r.pos - pos)) &&
    (r.Go? ==> pos < r.pos || (r.pos == pos && c.state == Bulk && r.c.state == BulkCr)) &&
    (!r.Go? ==> r.pos == pos) &&
    (r.Fail? ==> r.c.stackidx >= 0) &&
    |r.events| <= 1 &&
    (r.Halt? <==> |r.events| == 1 && !h(r.events[0]))
  }

  /** The record type a tag byte selects. */
  function TagType(b: Byte): ValueType {
    if b == DOLLAR then StringT
    else if b == STAR then ArrayT
    else if b == COLON then IntegerT
    else ErrorT
  }

  /** `type_char`: record the value's offset and select its type. `+` and `-`
      mark the record as an error value (in a release build the status case
      falls through to the error case) and, like any other byte, fail. */
  function ReadTag(c: Config, buf: seq<Byte>, pos: nat, h: Event -> bool): (r: StepResult)
    requires Valid(c) && c.stackidx >= 0 && c.state == TypeChar && pos < |buf|
    ensures StepOk(c, buf, pos, h, r)
  {
    var b := buf[pos];
    var idx := c.stackidx;
    var cur := c.stack[idx].(poff := c.nread);
    if b == DOLLAR || b == STAR || b == COLON then
      Go(c.(state := IntegerStart, stack := c.stack[idx := cur.(vtype := TagType(b))], nread := c.nread + 1),
         pos + 1, [])
    else if b == PLUS || b == MINUS then
      Fail(c.(stack := c.stack[idx := cur.(vtype := ErrorT)]), pos, [])
    else
      Fail(c.(stack := c.stack[idx := cur]), pos, [])
  }

  /** The integer states before `\n`, run by the scanner. */
  function ReadInteger(c: Config, buf: seq<Byte>, pos: nat, h: Event -> bool): (r: StepResult)
    requires Valid(c) && c.stackidx >= 0 && IsScanning(c.state) && pos < |buf|
    ensures StepOk(c, buf, pos, h, r)
  {
    match ScanByte(c.state, c.acc, buf[pos])
    case Reject(a) => Fail(c.(acc := a), pos, [])
    case Continue(st, a) => Go(c.(state := st, acc := a, nread := c.nread + 1), pos + 1, [])
  }

  /** The `done` block: unwind the stack, go back to `type_char` and consume
      the `\n` that ended the value. */
  function Done(c: Config, pos: nat, events: seq<Event>): (r: StepResult)
    requires 1 <= |c.stack| && 0 <= c.stackidx < |c.stack|
    requires forall i :: 0 <= i < c.stackidx ==> IsOpenArray(c.stack[i])
    ensures !r.Halt? && r.events == events && |r.c.stack| == |c.stack|
    ensures r.Go? ==> Valid(r.c) && r.pos == pos + 1 && r.c.nread == c.nread + 1
    ensures r.Fail? ==> r.pos == pos && r.c.stackidx >= 0
  {
    match Unwind(c.stack, c.stackidx)
    case TooDeep(s, i) => Fail(c.(stack := s, stackidx := i), pos, events)
    case Unwound(s, i) =>
      Go(c.(state := TypeChar, stack := s, stackidx := i, nread := c.nread + 1), pos + 1, events)
  }

  /** A callback: the event is reported, and a handler returning false makes
      the call return at once. */
  function Notify(e: Event, c: Config, pos: nat, h: Event -> bool): (r: StepResult)
    requires 1 <= |c.stack| && 0 <= c.stackidx < |c.stack|
    requires forall i :: 0 <= i < c.stackidx ==> IsOpenArray(c.stack[i])
    ensures r.events == [e] && |r.Stack()| == |c.stack| && (r.Halt? <==> !h(e))
    ensures r.Go? ==> Valid(r.c) && r.pos == pos + 1 && r.c.nread == c.nread + 1
    ensures !r.Go? ==> r.pos == pos
    ensures r.Fail? ==> r.c.stackidx >= 0
  {
    if h(e) then Done(c, pos, [e]) else Halt(c.stack, pos, [e])
  }

  /** `integer_lf`: the header is complete. Its protocol length runs from the
      tag through `\n`. A negative length makes a string or array nil; a
      string then streams its payload, an array reports its child count, and
      an integer reports its value with its content being the literal. */
  function EndHeader(c: Config, buf: seq<Byte>, pos: nat, h: Event -> bool): (r: StepResult)
    requires Valid(c) && c.stackidx >= 0 && c.state == IntegerLf && pos < |buf|
    ensures StepOk(c, buf, pos, h, r)
  {
    if buf[pos] != LF then Fail(c, pos, [])
    else
      var idx := c.stackidx;
      var top := c.stack[idx];
      var plen := c.nread - top.poff + 1;
      var cur := top.(plen := plen);
      if top.vtype == StringT then
        if c.acc < 0 then Notify(Nil(cur), c.(stack := c.stack[idx := cur]), pos, h)
        else
          var n := c.acc;
          var str := cur.(coff := c.nread + 1, clen := n, plen := plen + n + 2, remaining := n);
          Go(c.(state := Bulk, stack := c.stack[idx := str], nread := c.nread + 1), pos + 1, [])
      else if top.vtype == ArrayT then
        if c.acc < 0 then Notify(Nil(cur), c.(stack := c.stack[idx := cur]), pos, h)
        else
          var arr := cur.(remaining := c.acc);
          Notify(ArrayHeader(arr, c.acc), c.(stack := c.stack[idx := arr]), pos, h)
      else if top.vtype == IntegerT then
        var num := cur.(coff := top.poff + 1, clen := c.nread - (top.poff + 1) - 1);
        Notify(Integer(num, c.acc), c.(stack := c.stack[idx := num]), pos, h)
      else
        // the source's "unexpected object type" abort: the invariant rules it out
        assert false; Fail(c, pos, [])
  }

  /** `bulk`: deliver as much of the payload as this buffer holds, as one
      borrowed chunk; when the rest of it is here, expect `\r`. */
  function ReadBulk(c: Config, buf: seq<Byte>, pos: nat, h: Event -> bool): (r: StepResult)
    requires Valid(c) && c.stackidx >= 0 && c.state == Bulk && pos < |buf|
    ensures StepOk(c, buf, pos, h, r)
  {
    var idx := c.stackidx;
    var top := c.stack[idx];
    var rem := top.remaining;
    var avail := |buf| - pos;
    if rem <= avail then
      var cur := top.(remaining := 0);
      var e := StringChunk(cur, pos, buf[pos..pos + rem]);
      if h(e) then Go(c.(state := BulkCr, stack := c.stack[idx := cur], nread := c.nread + rem), pos + rem, [e])
      else Halt(c.stack[idx := cur], pos, [e])
    else
      var cur := top.(remaining := rem - avail);
      var e := StringChunk(cur, pos, buf[pos..]);
      if h(e) then Go(c.(stack := c.stack[idx := cur], nread := c.nread + avail), |buf|, [e])
      else Halt(c.stack[idx := cur], pos, [e])
  }

  /** `bulk_cr` and `bulk_lf`: the `\r\n` after a payload. */
  function EndBulk(c: Config, buf: seq<Byte>, pos: nat, h: Event -> bool): (r: StepResult)
    requires Valid(c) && c.stackidx >= 0 && (c.state == BulkCr || c.state == BulkLf) && pos < |buf|
    ensures StepOk(c, buf, pos, h, r)
  {
    if c.state == BulkCr then
      if buf[pos] == CR then Go(c.(state := BulkLf, nread := c.nread + 1), pos + 1, []) else Fail(c, pos, [])
    else
      if buf[pos] == LF then Done(c, pos, []) else Fail(c, pos, [])
  }

  /** One visit of the current state's label with a byte available. */
  function Step(c: Config, buf: seq<Byte>, pos: nat, h: Event -> bool): (r: StepResult)
    requires Valid(c) && c.stackidx >= 0 && pos < |buf|
    ensures StepOk(c, buf, pos, h, r)
  {
    match c.state
    case TypeChar => ReadTag(c, buf, pos, h)
    case IntegerLf => EndHeader(c, buf, pos, h)
    case Bulk => ReadBulk(c, buf, pos, h)
    case BulkCr => EndBulk(c, buf, pos, h)
    case BulkLf => EndBulk(c, buf, pos, h)
    case _ => ReadInteger(c, buf, pos, h)
  }

  /** What a run from `c` at `pos` needs: a valid parser, a position in
      the buffer, and an entry parser of the same capacity that was not idle. */
  predicate Runnable(c: Config, buf: seq<Byte>, pos: nat, entry: Config) {
    Valid(c) && pos <= |buf| && entry.stackidx >= 0 && |entry.stack| == |c.stack|
  }

  /** A run with a value in progress and a byte available. */
  predicate Live(c: Config, buf: seq<Byte>, pos: nat, entry: Config) {
    Runnable(c, buf, pos, entry) && c.stackidx >= 0 && pos < |buf|
  }

  /** The `while (pos < end && stackidx >= 0)` loop from position `pos`;
      `entry` is the parser as the call began, which a stopping callback
      leaves in place. */
  function Run(c: Config, buf: seq<Byte>, pos: nat, h: Event -> bool, entry: Config): (o: Outcome)
    requires Runnable(c, buf, pos, entry)
    decreases |buf| - pos, if c.state == Bulk then 1 else 0, 1
  {
    if c.stackidx < 0 then Outcome(c, pos, Completed, [])
    else if pos == |buf| then Outcome(c, pos, Exhausted, [])
    else Resume(c, buf, pos, h, entry)
  }

  /** One pass of the loop body with a byte available, then the rest of the
      call: a failure or a stopping callback ends the call at once. */
  function Resume(c: Config, buf: seq<Byte>, pos: nat, h: Event -> bool, entry: Config): (o: Outcome)
    requires Live(c, buf, pos, entry)
    decreases |buf| - pos, if c.state == Bulk then 1 else 0, 0
  {
    match Step(c, buf, pos, h)
    case Go(next, p, evs) => Prepend(evs, Run(next, buf, p, h, entry))
    case Fail(next, p, evs) => Outcome(next, p, Failed, evs)
    case Halt(s, p, evs) => Outcome(entry.(stack := s), p, Stopped, evs)
  }

  /** The rest of a call after a step `r` taken with a byte available. */
  function Continue(r: StepResult, buf: seq<Byte>, h: Event -> bool, entry: Config): Outcome
    requires r.Go? ==> Runnable(r.c, buf, r.pos, entry)
  {
    match r
    case Go(next, p, evs) => Prepend(evs, Run(next, buf, p, h, entry))
    case Fail(next, p, evs) => Outcome(next, p, Failed, evs)
    case Halt(s, p, evs) => Outcome(entry.(stack := s), p, Stopped, evs)
  }

  /** A run with a byte available is one step, of which the step contract
      is all that is said, followed by the rest of the call. */
  lemma Advance(c: Config, buf: seq<Byte>, pos: nat, h: Event -> bool, entry: Config) returns (r: StepResult)
    requires Live(c, buf, pos, entry)
    ensures StepOk(c, buf, pos, h, r)
    ensures Run(c, buf, pos, h, entry) == Continue(r, buf, h, entry)
  {
    assert Run(c, buf, pos, h, entry) == Resume(c, buf, pos, h, entry);
    r := Step(c, buf, pos, h);
  }

  /** A run consumes no more than the input and keeps the stack's
      capacity; it uses all the input when it runs out of it, and fails or
      stops only short of the end. */
  lemma {:induction false} RunBounds(c: Config, buf: seq<Byte>, pos: nat, h: Event -> bool, entry: Config)
    requires Runnable(c, buf, pos, entry)
    ensures var o := Run(c, buf, pos, h, entry);
      pos <= o.consumed <= |buf| && |o.parser.stack| == |c.stack| &&
      (o.ending.Exhausted? ==> o.consumed == |buf|) &&
      (o.ending.Failed? || o.ending.Stopped? ==> o.consumed < |buf|)
    decreases |buf| - pos, if c.state == Bulk then 1 else 0
  {
    if c.stackidx >= 0 && pos < |buf| {
      var r := Advance(c, buf, pos, h, entry);
      if r.Go? {
        RunBounds(r.c, buf, r.pos, h, entry);
      }
    }
  }

  /** A run completes exactly when the index ends at -1; then, as when it
      used all its input, the parser is valid and `nread` grew by exactly the
      bytes consumed. */
  lemma {:induction false} RunCompletion(c: Config, buf: seq<Byte>, pos: nat, h: Event -> bool, entry: Config)
    requires Runnable(c, buf, pos, entry)
    ensures var o := Run(c, buf, pos, h, entry);
      (o.ending.Completed? <==> o.parser.stackidx == -1) &&
      (o.ending.Completed? || o.ending.Exhausted? ==>
        Valid(o.parser) && o.parser.nread == c.nread + (o.consumed - pos))
    decreases |buf| - pos, if c.state == Bulk then 1 else 0
  {
    if c.stackidx >= 0 && pos < |buf| {
      var r := Advance(c, buf, pos, h, entry);
      if r.Go? {
        RunCompletion(r.c, buf, r.pos, h, entry);
      }
    }
  }

  /** A stop leaves every resume field but the stack as it was when the
      call began. */
  lemma {:induction false} RunStopParser(c: Config, buf: seq<Byte>, pos: nat, h: Event -> bool, entry: Config)
    requires Runnable(c, buf, pos, entry)
    ensures var o := Run(c, buf, pos, h, entry);
      o.ending.Stopped? ==> o.parser == entry.(stack := o.parser.stack)
    decreases |buf| - pos, if c.state == Bulk then 1 else 0
  {
    if c.stackidx >= 0 && pos < |buf| {
      var r := Advance(c, buf, pos, h, entry);
      if r.Go? {
        RunStopParser(r.c, buf, r.pos, h, entry);
      }
    }
  }

  /** The last callback of `evs` returned false. */
  predicate LastRefused(evs: seq<Event>, h: Event -> bool) {
    |evs| > 0 && !h(evs[|evs| - 1])
  }

  lemma LastRefusedAppend(a: seq<Event>, b: seq<Event>, h: Event -> bool)
    ensures LastRefused(a + b, h) == if |b| > 0 then LastRefused(b, h) else LastRefused(a, h)
  {
    if |b| > 0 {
      assert (a + b)[|a + b| - 1] == b[|b| - 1];
    } else {
      assert a + b == a;
    }
  }

  /** A run stops exactly when its last callback returned false. */
  lemma {:induction false} RunStopLast(c: Config, buf: seq<Byte>, pos: nat, h: Event -> bool, entry: Config)
    requires Runnable(c, buf, pos, entry)
    ensures var o := Run(c, buf, pos, h, entry);
      o.ending.Stopped? <==> LastRefused(o.events, h)
    decreases |buf| - pos, if c.state == Bulk then 1 else 0
  {
    if c.stackidx >= 0 && pos < |buf| {
      var r := Advance(c, buf, pos, h, entry);
      if r.Go? {
        RunStopLast(r.c, buf, r.pos, h, entry);
        var rest := Run(r.c, buf, r.pos, h, entry);
        LastRefusedAppend(r.events, rest.events, h);
      }
    }
  }

  /** Every callback of `evs` but the last returned true. */
  predicate AllButLastContinue(evs: seq<Event>, h: Event -> bool) {
    forall i :: 0 <= i < |evs| - 1 ==> h(evs[i])
  }

  /** Every callback of a run but the last returned true. */
  lemma {:induction false} RunEarlierContinue(c: Config, buf: seq<Byte>, pos: nat, h: Event -> bool, entry: Config)
    requires Runnable(c, buf, pos, entry)
    ensures AllButLastContinue(Run(c, buf, pos, h, entry).events, h)
    decreases |buf| - pos, if c.state == Bulk then 1 else 0
  {
    if c.stackidx >= 0 && pos < |buf| {
      var r := Advance(c, buf, pos, h, entry);
      if r.Go? {
        RunEarlierContinue(r.c, buf, r.pos, h, entry);
        var rest := Run(r.c, buf, r.pos, h, entry);
        var o := Run(c, buf, pos, h, entry);
        assert o.events == r.events + rest.events;
        forall i | 0 <= i < |o.events| - 1
          ensures h(o.events[i])
        {
          if i >= |r.events| {
            assert o.events[i] == rest.events[i - |r.events|];
          } else {
            assert o.events[i] == r.events[0];
          }
        }
      }
    }
  }

  /** Everything a run promises, in one place. */
  lemma RunFacts(c: Config, buf: seq<Byte>, pos: nat, h: Event -> bool, entry: Config)
    requires Runnable(c, buf, pos, entry)
    ensures var o := Run(c, buf, pos, h, entry);
      pos <= o.consumed <= |buf| && |o.parser.stack| == |c.stack| &&
      (o.ending.Completed? <==> o.parser.stackidx == -1) &&
      (o.ending.Completed? || o.ending.Exhausted? ==>
        Valid(o.parser) && o.parser.nread == c.nread + (o.consumed - pos)) &&
      (o.ending.Exhausted? ==> o.consumed == |buf|) &&
      (o.ending.Failed? || o.ending.Stopped? ==> o.consumed < |buf|) &&
      (o.ending.Stopped? ==> o.parser == entry.(stack := o.parser.stack)) &&
      (o.ending.Stopped? <==> |o.events| > 0 && !h(o.events[|o.events| - 1])) &&
      (forall i :: 0 <= i < |o.events| - 1 ==> h(o.events[i]))
  {
    RunBounds(c, buf, pos, h, entry);
    RunCompletion(c, buf, pos, h, entry);
    RunStopParser(c, buf, pos, h, entry);
    RunStopLast(c, buf, pos, h, entry);
    RunEarlierContinue(c, buf, pos, h, entry);
  }

  /** Callbacks made before those of the rest of the run. */
  function Prepend(evs: seq<Event>, o: Outcome): Outcome {
    o.(events := evs + o.events)
  }

  /** Entry of a call: an idle parser (index -1) starts a new message with a
      reset root record, `nread` at 0 and state `type_char`. */
  function Begin(p: Config): (c: Config)
    requires Valid(p)
    ensures Valid(c) && c.stackidx >= 0 && |c.stack| == |p.stack|
  {
    if p.stackidx == -1 then Config(TypeChar, p.stack[0 := FreshRecord], 0, 0, p.acc) else p
  }

  /** One call of `redis_parser_execute` on `buf` with callbacks `h`. The count
      returned never exceeds the input; the root is handed back exactly when
      the index ends at -1; and, as the source's doc comment says, a call
      that completes nothing and returns less than it was given has failed
      (an error or a stopping callback), and only such a call does. */
  function Execute(p: Config, buf: seq<Byte>, h: Event -> bool): (o: Outcome)
    requires Valid(p)
    ensures o.consumed <= |buf| && |o.parser.stack| == |p.stack|
    ensures o.ending.Completed? <==> o.parser.stackidx == -1
    ensures (o.ending.Failed? || o.ending.Stopped?) <==> (o.consumed < |buf| && !o.ending.Completed?)
    ensures !(o.ending.Failed? || o.ending.Stopped?) ==> Valid(o.parser)
    ensures o.ending.Stopped? <==> |o.events| > 0 && !h(o.events[|o.events| - 1])
    ensures forall i :: 0 <= i < |o.events| - 1 ==> h(o.events[i])
    ensures o.ending.Stopped? ==> o.parser == Begin(p).(stack := o.parser.stack)
    ensures |buf| == 0 ==> o == Outcome(Begin(p), 0, Exhausted, [])
  {
    var c := Begin(p);
    RunFacts(c, buf, 0, h, c);
    Run(c, buf, 0, h, c)
  }
}
