/** Input split across calls. The parser keeps its state, index, byte count,
    accumulator and records between calls, so a message split into two
    calls decodes as it would in one. The exception is a split inside a
    string payload, which cuts that payload into two chunks. A string chunk
    gives its start as a position in its own call's buffer. In the unsplit
    buffer every chunk of the second part therefore starts `|a|` bytes
    later, `a` being the first part. */
module Resumption {
  import opened RespTypes
  import opened Machine
  import opened Stages

  /** An event as seen from `k` bytes earlier in the buffer: a chunk's start
      moves by `k`; the other events carry no buffer position. */
  function ShiftEvent(e: Event, k: nat): Event {
    if e.StringChunk? then e.(start := e.start + k) else e
  }

  function ShiftEvents(evs: seq<Event>, k: nat): (r: seq<Event>)
    ensures |r| == |evs|
  {
    if evs == [] then [] else [ShiftEvent(evs[0], k)] + ShiftEvents(evs[1..], k)
  }

  lemma {:induction false} ShiftAppend(x: seq<Event>, y: seq<Event>, k: nat)
    ensures ShiftEvents(x + y, k) == ShiftEvents(x, k) + ShiftEvents(y, k)
    decreases |x|
  {
    if x == [] {
      assert x + y == y;
    } else {
      assert (x + y)[1..] == x[1..] + y;
      ShiftAppend(x[1..], y, k);
      var s0 := [ShiftEvent(x[0], k)];
      assert s0 + (ShiftEvents(x[1..], k) + ShiftEvents(y, k)) == (s0 + ShiftEvents(x[1..], k)) + ShiftEvents(y, k);
    }
  }

  /** The callbacks of the second call: each sees a chunk where the unsplit
      call would. */
  function Shifted(h: Event -> bool, k: nat): Event -> bool {
    e => h(ShiftEvent(e, k))
  }

  /** A step taken `k` bytes later in the buffer. */
  function ShiftStep(r: StepResult, k: nat): StepResult {
    match r
    case Go(c, p, evs) => Go(c, p + k, ShiftEvents(evs, k))
    case Fail(c, p, evs) => Fail(c, p + k, ShiftEvents(evs, k))
    case Halt(s, p, evs) => Halt(s, p + k, ShiftEvents(evs, k))
  }

  /** A call's outcome on the second part as the unsplit call sees it: the
      count and the chunks move by `k`, and a stop leaves the parser as the
      unsplit call began, `entry`, with the stack as it stands. */
  function Rebase(o: Outcome, k: nat, entry: Config): Outcome {
    Outcome(if o.ending.Stopped? then entry.(stack := o.parser.stack) else o.parser,
            o.consumed + k, o.ending, ShiftEvents(o.events, k))
  }

  /** The parser is inside a string payload that has been partly delivered. */
  predicate InPayload(c: Config) {
    0 <= c.stackidx < |c.stack| && c.state == Bulk &&
    c.stack[c.stackidx].remaining < c.stack[c.stackidx].clen
  }

  /** A callback other than a chunk is the same whatever the offset. */
  lemma NotifyShift(e: Event, c: Config, pos: nat, h: Event -> bool, k: nat)
    requires !e.StringChunk?
    requires 1 <= |c.stack| && 0 <= c.stackidx < |c.stack|
    requires forall i :: 0 <= i < c.stackidx ==> IsOpenArray(c.stack[i])
    ensures Notify(e, c, pos + k, h) == ShiftStep(Notify(e, c, pos, Shifted(h, k)), k)
  {
    assert ShiftEvents([e], k) == [e];
  }

  /** `integer_lf` reads one byte and makes no chunk. */
  lemma EndHeaderShift(c: Config, a: seq<Byte>, b: seq<Byte>, pos: nat, h: Event -> bool)
    requires Valid(c) && c.stackidx >= 0 && c.state == IntegerLf && pos < |b|
    ensures EndHeader(c, a + b, |a| + pos, h) == ShiftStep(EndHeader(c, b, pos, Shifted(h, |a|)), |a|)
  {
    var k := |a|;
    assert (a + b)[k + pos] == b[pos];
    var idx := c.stackidx;
    var top := c.stack[idx];
    var cur := top.(plen := c.nread - top.poff + 1);
    if b[pos] == LF {
      if top.vtype == StringT && c.acc < 0 {
        NotifyShift(Nil(cur), c.(stack := c.stack[idx := cur]), pos, h, k);
      } else if top.vtype == ArrayT && c.acc < 0 {
        NotifyShift(Nil(cur), c.(stack := c.stack[idx := cur]), pos, h, k);
      } else if top.vtype == ArrayT {
        var arr := cur.(remaining := c.acc);
        NotifyShift(ArrayHeader(arr, c.acc), c.(stack := c.stack[idx := arr]), pos, h, k);
      } else if top.vtype == IntegerT {
        var num := cur.(coff := top.poff + 1, clen := c.nread - (top.poff + 1) - 1);
        NotifyShift(Integer(num, c.acc), c.(stack := c.stack[idx := num]), pos, h, k);
      }
    }
  }

  /** `bulk` delivers the same bytes, at a start `k` later. */
  lemma ReadBulkShift(c: Config, a: seq<Byte>, b: seq<Byte>, pos: nat, h: Event -> bool)
    requires Valid(c) && c.stackidx >= 0 && c.state == Bulk && pos < |b|
    ensures ReadBulk(c, a + b, |a| + pos, h) == ShiftStep(ReadBulk(c, b, pos, Shifted(h, |a|)), |a|)
  {
    var k := |a|;
    var rem := c.stack[c.stackidx].remaining;
    if rem <= |b| - pos {
      assert (a + b)[k + pos..k + pos + rem] == b[pos..pos + rem];
    } else {
      assert (a + b)[k + pos..] == b[pos..];
    }
  }

  /** One step `k` bytes later in the buffer is the same step, `k` later. */
  lemma StepShift(c: Config, a: seq<Byte>, b: seq<Byte>, pos: nat, h: Event -> bool)
    requires Valid(c) && c.stackidx >= 0 && pos < |b|
    ensures Step(c, a + b, |a| + pos, h) == ShiftStep(Step(c, b, pos, Shifted(h, |a|)), |a|)
  {
    assert (a + b)[|a| + pos] == b[pos];
    match c.state
    case IntegerLf => EndHeaderShift(c, a, b, pos, h);
    case Bulk => ReadBulkShift(c, a, b, pos, h);
    case _ =>
  }

  /** A run with a byte available is its first step followed by the rest
      of the call. */
  lemma RunIsContinue(c: Config, buf: seq<Byte>, pos: nat, h: Event -> bool, entry: Config)
    requires Live(c, buf, pos, entry)
    ensures Run(c, buf, pos, h, entry) == Continue(Step(c, buf, pos, h), buf, h, entry)
  {
    assert Run(c, buf, pos, h, entry) == Resume(c, buf, pos, h, entry);
  }

  /** Callbacks made before a rebased outcome are the rebased callbacks
      made before it. */
  lemma RebasePrepend(evs: seq<Event>, o: Outcome, k: nat, entry: Config)
    ensures Prepend(ShiftEvents(evs, k), Rebase(o, k, entry)) == Rebase(Prepend(evs, o), k, entry)
  {
    ShiftAppend(evs, o.events, k);
  }

  /** The first step of a run over `b` and of the same run `|a|` bytes
      later in `a + b`: the second is the first, shifted. */
  lemma ShiftAdvance(c: Config, a: seq<Byte>, b: seq<Byte>, pos: nat, h: Event -> bool,
                     entry: Config, entry': Config) returns (r: StepResult)
    requires Live(c, b, pos, entry') && entry.stackidx >= 0 && |entry.stack| == |c.stack|
    ensures StepOk(c, b, pos, Shifted(h, |a|), r)
    ensures Run(c, b, pos, Shifted(h, |a|), entry') == Continue(r, b, Shifted(h, |a|), entry')
    ensures Run(c, a + b, |a| + pos, h, entry) == Continue(ShiftStep(r, |a|), a + b, h, entry)
  {
    RunIsContinue(c, a + b, |a| + pos, h, entry);
    RunIsContinue(c, b, pos, Shifted(h, |a|), entry');
    StepShift(c, a, b, pos, h);
    r := Step(c, b, pos, Shifted(h, |a|));
  }

  /** A run over the part `b` of the buffer `a + b` is the run over `b`
      alone, `|a|` bytes later, except that a stop leaves its own entry
      parser. */
  lemma {:induction false} RunShift(c: Config, a: seq<Byte>, b: seq<Byte>, pos: nat, h: Event -> bool,
                                    entry: Config, entry': Config)
    requires Runnable(c, b, pos, entry') && entry.stackidx >= 0 && |entry.stack| == |c.stack|
    ensures Run(c, a + b, |a| + pos, h, entry) == Rebase(Run(c, b, pos, Shifted(h, |a|), entry'), |a|, entry)
    decreases |b| - pos, if c.state == Bulk then 1 else 0
  {
    var k := |a|;
    var h' := Shifted(h, k);
    if c.stackidx >= 0 && pos < |b| {
      var r := ShiftAdvance(c, a, b, pos, h, entry, entry');
      if r.Go? {
        RunShift(r.c, a, b, r.pos, h, entry, entry');
        RebasePrepend(r.events, Run(r.c, b, r.pos, h', entry'), k, entry);
      }
    } else {
      assert ShiftEvents([], k) == [];
    }
  }

  /** A step short of the end of `a` that is not a chunk cut off by that
      end is the same with more input after `a`. */
  lemma StepPrefix(c: Config, a: seq<Byte>, b: seq<Byte>, pos: nat, h: Event -> bool)
    requires Valid(c) && c.stackidx >= 0 && pos < |a|
    requires c.state == Bulk ==> pos + c.stack[c.stackidx].remaining <= |a|
    ensures Step(c, a + b, pos, h) == Step(c, a, pos, h)
  {
    assert (a + b)[pos] == a[pos];
    if c.state == Bulk {
      var rem := c.stack[c.stackidx].remaining;
      assert (a + b)[pos..pos + rem] == a[pos..pos + rem];
    }
  }

  /** A payload cut off by the end of `a`: the run stops at its chunk, or
      uses all of `a` and ends inside the payload. */
  lemma CutPayload(c: Config, a: seq<Byte>, pos: nat, h: Event -> bool, entry: Config)
    requires LiveIn(c, a, pos, entry, Bulk) && pos + c.stack[c.stackidx].remaining > |a|
    ensures var o := Run(c, a, pos, h, entry);
      o.ending.Stopped? || (o.ending.Exhausted? && InPayload(o.parser))
  {
    RunBulkPart(c, a, pos, h, entry);
    RunIsContinue(c, a, pos, h, entry);
  }

  /** The rest of a call after the same step, with more input after `a`. */
  lemma PrefixContinue(r: StepResult, a: seq<Byte>, b: seq<Byte>, h: Event -> bool, entry: Config)
    requires r.Go? ==> Runnable(r.c, a, r.pos, entry)
    requires r.Go? ==> var o := Run(r.c, a, r.pos, h, entry);
      (o.ending.Completed? || o.ending.Failed? ==> Run(r.c, a + b, r.pos, h, entry) == o) &&
      (o.ending.Exhausted? && !InPayload(o.parser) ==>
        Runnable(o.parser, a + b, |a|, entry) &&
        Run(r.c, a + b, r.pos, h, entry) == Prepend(o.events, Run(o.parser, a + b, |a|, h, entry)))
    ensures var o := Continue(r, a, h, entry);
      (o.ending.Completed? || o.ending.Failed? ==> Continue(r, a + b, h, entry) == o) &&
      (o.ending.Exhausted? && !InPayload(o.parser) ==>
        Runnable(o.parser, a + b, |a|, entry) &&
        Continue(r, a + b, h, entry) == Prepend(o.events, Run(o.parser, a + b, |a|, h, entry)))
  {
    if r.Go? {
      var rest := Run(r.c, a, r.pos, h, entry);
      if rest.ending.Exhausted? && !InPayload(rest.parser) {
        PrependPrepend(r.events, rest.events, Run(rest.parser, a + b, |a|, h, entry));
      }
    }
  }

  /** A run over `a` that completes or fails is the same with more input
      after `a`, which it never reaches; one that uses all of `a` and does
      not end inside a payload is, with more input, the same callbacks
      followed by the run from where it ended. */
  lemma {:induction false} RunPrefix(c: Config, a: seq<Byte>, b: seq<Byte>, pos: nat, h: Event -> bool, entry: Config)
    requires Runnable(c, a, pos, entry)
    ensures var o := Run(c, a, pos, h, entry);
      (o.ending.Completed? || o.ending.Failed? ==> Run(c, a + b, pos, h, entry) == o) &&
      (o.ending.Exhausted? && !InPayload(o.parser) ==>
        Runnable(o.parser, a + b, |a|, entry) &&
        Run(c, a + b, pos, h, entry) == Prepend(o.events, Run(o.parser, a + b, |a|, h, entry)))
    decreases |a| - pos, if c.state == Bulk then 1 else 0
  {
    if c.stackidx >= 0 && pos < |a| {
      if c.state == Bulk && pos + c.stack[c.stackidx].remaining > |a| {
        CutPayload(c, a, pos, h, entry);
      } else {
        RunIsContinue(c, a, pos, h, entry);
        RunIsContinue(c, a + b, pos, h, entry);
        StepPrefix(c, a, b, pos, h);
        var r := Step(c, a, pos, h);
        if r.Go? {
          RunPrefix(r.c, a, b, r.pos, h, entry);
        }
        PrefixContinue(r, a, b, h, entry);
      }
    } else if c.stackidx >= 0 {
      assert [] + Run(c, a + b, pos, h, entry).events == Run(c, a + b, pos, h, entry).events;
    }
  }

  /** Two calls, `a` then `b`, against one call on `a + b`: when the first
      call uses all of `a` without completing, and `a` does not end inside a
      string payload, the one call makes the first call's callbacks and then
      the second call's, with the second call's count and ending, and it
      leaves the parser in the same state, except that a stop leaves the
      parser as that call began. */
  lemma SplitMessage(p: Config, a: seq<Byte>, b: seq<Byte>, h: Event -> bool)
    requires Valid(p)
    ensures var o1 := Execute(p, a, h);
      o1.ending.Exhausted? && !InPayload(o1.parser) ==>
        Valid(o1.parser) &&
        Execute(p, a + b, h) == Prepend(o1.events, Rebase(Execute(o1.parser, b, Shifted(h, |a|)), |a|, Begin(p)))
  {
    var c := Begin(p);
    var o1 := Execute(p, a, h);
    RunPrefix(c, a, b, 0, h, c);
    if o1.ending.Exhausted? && !InPayload(o1.parser) {
      var c1 := o1.parser;
      assert Begin(c1) == c1;
      RunShift(c1, a, b, 0, h, c, c1);
    }
  }

  /** A call on `a` that completes or fails leaves every byte after the
      point where it returned unread: the same call with more input after
      `a` has the same outcome. */
  lemma EndIgnoresRest(p: Config, a: seq<Byte>, b: seq<Byte>, h: Event -> bool)
    requires Valid(p)
    ensures var o1 := Execute(p, a, h);
      o1.ending.Completed? || o1.ending.Failed? ==> Execute(p, a + b, h) == o1
  {
    var c := Begin(p);
    RunPrefix(c, a, b, 0, h, c);
  }
}
