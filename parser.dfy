/** `redis_parser_init` and `redis_parser_execute`: the parser object whose
    record stack is a fixed array updated in place, and whose resume fields
    are copied into locals at the start of a call and written back at its
    end. Each method is proved to do what `Machine` specifies. */
module Parser {
  import opened RespTypes
  import opened IntegerScanner
  import opened Machine

  /** The locals of one call: position in the buffer and the working copies
      of the resume fields. */
  datatype Locals = Locals(pos: nat, nread: nat, stackidx: int, state: State, i64: int)

  /** How a state label left: on to the next one, `goto error`, or a
      callback that returned 0. */
  datatype Verdict = Next | Error | Stop

  class RedisParser {
    /** The record stack; its length is the capacity. */
    var stack: array<Record>
    /** Index of the current record; -1 when no message is in progress. */
    var stackidx: int
    var state: State
    /** Bytes of the current message read so far. */
    var nread: nat
    /** The integer scanner's accumulator. */
    var acc: int
    /** The callbacks; a missing one is a handler that always continues. */
    var callbacks: Event -> bool

    /** The resume state as the specification sees it. */
    function Snapshot(): Config
      reads this, stack
    {
      Config(state, stack[..], stackidx, nread, acc)
    }

    ghost predicate Valid()
      reads this, stack
    {
      Machine.Valid(Snapshot())
    }

    /** A parser object with a stack of `capacity` records, initialised. */
    constructor (capacity: nat, handlers: Event -> bool)
      requires capacity >= 1
      ensures Valid() && fresh(stack) && stack.Length == capacity
      ensures stackidx == -1 && callbacks == handlers
    {
      stack := new Record[capacity](_ => FreshRecord);
      stackidx := -1;
      state := TypeChar;
      nread := 0;
      acc := 0;
      callbacks := handlers;
    }

    /** `redis_parser_init`: mark the parser idle and install the callbacks;
        the next call starts a new message. */
    method Init(handlers: Event -> bool)
      requires stack.Length >= 1
      modifies this
      ensures Valid() && stackidx == -1 && callbacks == handlers
      ensures stack == old(stack) && state == old(state) && nread == old(nread) && acc == old(acc)
    {
      stackidx := -1;
      callbacks := handlers;
    }

    /** The `done` loop: push a fresh record above an array that expects
        more children, or fold the current record's length into its parent
        and pop, until a push happens or the root is popped. */
    method Unwinding(sp0: int) returns (sp: int, tooDeep: bool)
      requires 0 <= sp0 < stack.Length
      requires forall i :: 0 <= i < sp0 ==> IsOpenArray(stack[i])
      modifies stack
      ensures var u := Unwind(old(stack[..]), sp0);
        stack[..] == u.stack && sp == u.stackidx && tooDeep == u.TooDeep?
    {
      sp := sp0;
      tooDeep := false;
      while true
        invariant 0 <= sp < stack.Length
        invariant forall i :: 0 <= i < sp ==> IsOpenArray(stack[i])
        invariant Unwind(stack[..], sp) == Unwind(old(stack[..]), sp0)
        decreases sp
      {
        var cur := stack[sp];
        if Pending(cur) {
          if sp + 1 < stack.Length {
            stack[sp + 1] := FreshRecord;
            stack[sp] := cur.(remaining := cur.remaining - 1);
            sp := sp + 1;
          } else {
            tooDeep := true;
          }
          return;
        }
        if sp > 0 {
          stack[sp - 1] := stack[sp - 1].(plen := stack[sp - 1].plen + cur.plen);
        }
        sp := sp - 1;
        if sp < 0 {
          return;
        }
      }
    }

    /** The state as it stands while a call runs: the record stack and the
        call's locals. */
    ghost function Current(l: Locals): Config
      reads this, stack
    {
      Config(l.state, stack[..], l.stackidx, l.nread, l.i64)
    }

    /** The verdict of a state label, its new locals and its callbacks, as
        the specification's step result. */
    ghost function Result(v: Verdict, l: Locals, evs: seq<Event>): StepResult
      reads this, stack
    {
      match v
      case Next => Go(Current(l), l.pos, evs)
      case Error => Fail(Current(l), l.pos, evs)
      case Stop => Halt(stack[..], l.pos, evs)
    }

    /** `type_char`. */
    method TypeCharState(buf: seq<Byte>, l: Locals, h: Event -> bool) returns (v: Verdict, l': Locals, evs: seq<Event>)
      requires Machine.Valid(Current(l)) && l.stackidx >= 0 && l.state == TypeChar && l.pos < |buf|
      modifies stack
      ensures Result(v, l', evs) == ReadTag(old(Current(l)), buf, l.pos, h)
    {
      var b := buf[l.pos];
      var cur := stack[l.stackidx].(poff := l.nread);
      evs := [];
      if b == DOLLAR || b == STAR || b == COLON {
        stack[l.stackidx] := cur.(vtype := TagType(b));
        v, l' := Next, l.(pos := l.pos + 1, nread := l.nread + 1, state := IntegerStart);
      } else {
        stack[l.stackidx] := if b == PLUS || b == MINUS then cur.(vtype := ErrorT) else cur;
        v, l' := Error, l;
      }
    }

    /** `integer_start` to `integer_cr`. */
    method IntegerState(buf: seq<Byte>, l: Locals, h: Event -> bool) returns (v: Verdict, l': Locals, evs: seq<Event>)
      requires Machine.Valid(Current(l)) && l.stackidx >= 0 && IsScanning(l.state) && l.pos < |buf|
      ensures Result(v, l', evs) == ReadInteger(Current(l), buf, l.pos, h)
    {
      evs := [];
      match ScanByte(l.state, l.i64, buf[l.pos]) {
        case Reject(a) =>
          v, l' := Error, l.(i64 := a);
        case Continue(next, a) =>
          v, l' := Next, l.(pos := l.pos + 1, nread := l.nread + 1, state := next, i64 := a);
      }
    }

    /** The `done` block. */
    method DoneState(l: Locals, evs0: seq<Event>) returns (v: Verdict, l': Locals, evs: seq<Event>)
      requires 0 <= l.stackidx < stack.Length
      requires forall i :: 0 <= i < l.stackidx ==> IsOpenArray(stack[i])
      modifies stack
      ensures Result(v, l', evs) == Done(old(Current(l)), l.pos, evs0)
    {
      evs := evs0;
      var sp, tooDeep := Unwinding(l.stackidx);
      if tooDeep {
        v, l' := Error, l.(stackidx := sp);
      } else {
        v, l' := Next, l.(pos := l.pos + 1, nread := l.nread + 1, stackidx := sp, state := TypeChar);
      }
    }

    /** The `CALLBACK` macro followed by `goto done`. */
    method Callback(e: Event, l: Locals, h: Event -> bool) returns (v: Verdict, l': Locals, evs: seq<Event>)
      requires 0 <= l.stackidx < stack.Length
      requires forall i :: 0 <= i < l.stackidx ==> IsOpenArray(stack[i])
      modifies stack
      ensures Result(v, l', evs) == Notify(e, old(Current(l)), l.pos, h)
    {
      if h(e) {
        v, l', evs := DoneState(l, [e]);
      } else {
        v, l', evs := Stop, l, [e];
      }
    }

    /** `integer_lf`. */
    method IntegerLfState(buf: seq<Byte>, l: Locals, h: Event -> bool) returns (v: Verdict, l': Locals, evs: seq<Event>)
      requires Machine.Valid(Current(l)) && l.stackidx >= 0 && l.state == IntegerLf && l.pos < |buf|
      modifies stack
      ensures Result(v, l', evs) == EndHeader(old(Current(l)), buf, l.pos, h)
    {
      if buf[l.pos] != LF {
        return Error, l, [];
      }
      var sp, count, n := l.stackidx, l.nread, l.i64;
      var top := stack[sp];
      var plen := count - top.poff + 1;
      var cur := top.(plen := plen);
      if top.vtype == StringT && n >= 0 {
        stack[sp] := cur.(coff := count + 1, clen := n, plen := plen + n + 2, remaining := n);
        return Next, l.(pos := l.pos + 1, nread := count + 1, state := Bulk), [];
      }
      var e;
      if top.vtype == ArrayT && n >= 0 {
        cur := cur.(remaining := n);
        e := ArrayHeader(cur, n);
      } else if top.vtype == IntegerT {
        cur := cur.(coff := top.poff + 1, clen := count - (top.poff + 1) - 1);
        e := Integer(cur, n);
      } else {
        e := Nil(cur);
      }
      stack[sp] := cur;
      v, l', evs := Callback(e, l, h);
    }

    /** `bulk`. */
    method BulkState(buf: seq<Byte>, l: Locals, h: Event -> bool) returns (v: Verdict, l': Locals, evs: seq<Event>)
      requires Machine.Valid(Current(l)) && l.stackidx >= 0 && l.state == Bulk && l.pos < |buf|
      modifies stack
      ensures Result(v, l', evs) == ReadBulk(old(Current(l)), buf, l.pos, h)
    {
      var sp, pos := l.stackidx, l.pos;
      var cur := stack[sp];
      var remaining := cur.remaining;
      var available := |buf| - pos;
      if remaining <= available {
        cur := cur.(remaining := 0);
        stack[sp] := cur;
        var e := StringChunk(cur, pos, buf[pos..pos + remaining]);
        if !h(e) {
          return Stop, l, [e];
        }
        return Next, l.(pos := pos + remaining, nread := l.nread + remaining, state := BulkCr), [e];
      }
      cur := cur.(remaining := remaining - available);
      stack[sp] := cur;
      var e := StringChunk(cur, pos, buf[pos..]);
      if !h(e) {
        return Stop, l, [e];
      }
      return Next, l.(pos := |buf|, nread := l.nread + available), [e];
    }

    /** `bulk_cr` and `bulk_lf`. */
    method BulkEndState(buf: seq<Byte>, l: Locals, h: Event -> bool) returns (v: Verdict, l': Locals, evs: seq<Event>)
      requires Machine.Valid(Current(l)) && l.stackidx >= 0 && (l.state == BulkCr || l.state == BulkLf)
      requires l.pos < |buf|
      modifies stack
      ensures Result(v, l', evs) == EndBulk(old(Current(l)), buf, l.pos, h)
    {
      if l.state == BulkCr {
        if buf[l.pos] == CR {
          return Next, l.(pos := l.pos + 1, nread := l.nread + 1, state := BulkLf), [];
        }
        return Error, l, [];
      }
      if buf[l.pos] == LF {
        v, l', evs := DoneState(l, []);
      } else {
        v, l', evs := Error, l, [];
      }
    }

    /** The `switch (state)` of the loop: one visit of the current label. */
    method StepState(buf: seq<Byte>, l: Locals, h: Event -> bool) returns (v: Verdict, l': Locals, evs: seq<Event>)
      requires Machine.Valid(Current(l)) && l.stackidx >= 0 && l.pos < |buf|
      modifies stack
      ensures Result(v, l', evs) == Step(old(Current(l)), buf, l.pos, h)
    {
      match l.state {
        case TypeChar => v, l', evs := TypeCharState(buf, l, h);
        case IntegerLf => v, l', evs := IntegerLfState(buf, l, h);
        case Bulk => v, l', evs := BulkState(buf, l, h);
        case BulkCr => v, l', evs := BulkEndState(buf, l, h);
        case BulkLf => v, l', evs := BulkEndState(buf, l, h);
        case _ => v, l', evs := IntegerState(buf, l, h);
      }
    }

    /** One iteration of the loop, stated as the run it leaves: going on,
        the rest of the run continues from the new locals; `goto error` and
        a stopping callback end it. */
    method Iteration(buf: seq<Byte>, l: Locals, h: Event -> bool, ghost entry: Config)
      returns (v: Verdict, l': Locals, evs: seq<Event>)
      requires Machine.Valid(Current(l)) && l.stackidx >= 0 && l.pos < |buf|
      requires entry.stackidx >= 0 && |entry.stack| == stack.Length
      modifies stack
      ensures v == Next ==> Machine.Valid(Current(l')) && l'.pos <= |buf|
      ensures v == Next ==> l.pos < l'.pos || (l'.pos == l.pos && l.state == Bulk && l'.state == BulkCr)
      ensures var o := old(Run(Current(l), buf, l.pos, h, entry));
        match v
        case Next => o == Prepend(evs, Run(Current(l'), buf, l'.pos, h, entry))
        case Error => o == Outcome(Current(l'), l'.pos, Failed, evs)
        case Stop => o == Outcome(entry.(stack := stack[..]), l'.pos, Stopped, evs)
    {
      ghost var c := Current(l);
      assert Run(c, buf, l.pos, h, entry) == Resume(c, buf, l.pos, h, entry);
      v, l', evs := StepState(buf, l, h);
      ghost var r := Step(c, buf, l.pos, h);
      assert r == Result(v, l', evs);
      assert StepOk(c, buf, l.pos, h, r);
    }

    /** The `while (pos < end && stackidx >= 0)` loop, from the locals `l0`
        the call starts with: it ends with the locals it leaves and whether a
        callback stopped it, in which case only the stack edits survive. */
    method RunLoop(buf: seq<Byte>, l0: Locals, h: Event -> bool, ghost entry: Config)
      returns (l: Locals, stopped: bool, events: seq<Event>)
      requires l0.pos == 0 && Current(l0) == entry && Machine.Valid(entry) && entry.stackidx >= 0
      modifies stack
      ensures var o := Run(entry, buf, 0, h, entry);
        l.pos == o.consumed && events == o.events && stopped == (o.ending == Stopped) &&
        (if stopped then stack[..] == o.parser.stack else Current(l) == o.parser)
    {
      l, stopped, events := l0, false, [];
      ghost var whole := Run(entry, buf, 0, h, entry);
      ghost var rest := whole;
      while l.pos < |buf| && l.stackidx >= 0
        invariant l.pos <= |buf| && Machine.Valid(Current(l)) && |entry.stack| == stack.Length
        invariant rest == Run(Current(l), buf, l.pos, h, entry)
        invariant whole == Prepend(events, rest)
        decreases |buf| - l.pos, if l.state == Bulk then 1 else 0
      {
        var v, next, evs := Iteration(buf, l, h, entry);
        if v != Next {
          events, l, stopped := events + evs, next, v == Stop;
          return;
        }
        ghost var rest' := Run(Current(next), buf, next.pos, h, entry);
        assert (events + evs) + rest'.events == events + rest.events;
        events, l, rest := events + evs, next, rest';
      }
    }

    /** `redis_parser_execute`: feed `buf`, returning the count of bytes
        used, the root record when a message was completed, and the
        callbacks made. An idle parser first resets the root record; the
        resume fields are written back unless a callback stopped the call. */
    method Execute(buf: seq<Byte>) returns (consumed: nat, root: Option<Record>, events: seq<Event>)
      requires Valid()
      modifies this, stack
      ensures stack == old(stack) && callbacks == old(callbacks)
      ensures var o := Machine.Execute(old(Snapshot()), buf, callbacks);
        Snapshot() == o.parser && consumed == o.consumed && events == o.events &&
        root == (if o.ending == Completed then Some(o.parser.stack[0]) else None)
    {
      if stackidx == -1 {
        stack[0] := FreshRecord;
        nread := 0;
        stackidx := 0;
        state := TypeChar;
      }
      ghost var entry := Snapshot();
      assert entry == Begin(old(Snapshot()));
      RunFacts(entry, buf, 0, callbacks, entry);
      var l, stopped;
      l, stopped, events := RunLoop(buf, Locals(0, nread, stackidx, state, acc), callbacks, entry);
      consumed := l.pos;
      if !stopped {
        nread, stackidx, state, acc := l.nread, l.stackidx, l.state, l.i64;
      }
      root := None;
      if l.stackidx == -1 && !stopped {
        root := Some(stack[0]);
      }
    }
  }
}
