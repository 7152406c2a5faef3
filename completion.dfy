/** Whole messages: one call of `redis_parser_execute` from an idle parser,
    on the encoding of a value, in any spelling of its headers the parser
    accepts, followed by any bytes, completes exactly that value, makes
    exactly its callbacks and stops after its last byte, with the value's
    finished record in the root slot.

    As in `Decoding`, a contract written `(A && B) == true` is the
    conjunction, kept as one fact to hold the proofs' cost down. */
module Completion {
  import opened RespTypes
  import opened IntegerScanner
  import opened Machine
  import opened Stages
  import opened Messages
  import opened Lines
  import opened Decoding

  /** The entry of a call from an idle parser reads a tag into a fresh
      root record with the value's bytes at the start of the buffer. */
  lemma StartReady(p: Config, v: Value, buf: seq<Byte>, h: Event -> bool)
    requires Valid(p) && p.stackidx == -1 && WellFormed(v) && Depth(v) < |p.stack|
    requires InBuffer(buf, 0, Encode(v)) && AllAccepted(Events(v, 0, 0), h)
    ensures Ready(Begin(p), buf, 0, h, Begin(p), v) == true
    ensures Begin(p).stackidx == 0 && Begin(p).nread == 0
  {
  }

  /** A run from the entry that yields the value's callbacks and ends in
      the `done` block at the value's last byte with its finished record in
      the root slot completes the message. */
  lemma RootDone(c: Config, v: Value, buf: seq<Byte>, h: Event -> bool, d: Config)
    requires (c.stackidx == 0 && c.nread == 0 && Parsed(c, v, d) &&
              Yields(c, buf, 0, h, c, Events(v, 0, 0), d, |Encode(v)| - 1)) == true
    ensures Run(c, buf, 0, h, c) ==
      Outcome(d.(state := TypeChar, stackidx := -1, nread := |Encode(v)|), |Encode(v)|, Completed, Events(v, 0, 0))
  {
    FinishedRecord(v, 0);
    AfterDoneRoot(d, buf, |Encode(v)| - 1, h, c);
  }

  /** Decoding a whole message: the call completes, returns the length of
      the value's encoding (the bytes after it are left for the next call),
      makes the value's callbacks in order, leaves the parser idle and hands
      back the root record, which is the value's finished record. */
  lemma DecodeMessage(p: Config, v: Value, rest: seq<Byte>, h: Event -> bool)
    requires Valid(p) && p.stackidx == -1 && WellFormed(v) && Depth(v) < |p.stack|
    requires AllAccepted(Events(v, 0, 0), h)
    ensures var o := Execute(p, Encode(v) + rest, h);
      o.ending == Completed && o.consumed == |Encode(v)| && o.events == Events(v, 0, 0) &&
      o.parser.stackidx == -1 && o.parser.state == TypeChar && o.parser.nread == |Encode(v)| &&
      |o.parser.stack| == |p.stack| && o.parser.stack[0] == Finished(v, 0)
  {
    var buf := Encode(v) + rest;
    var c := Begin(p);
    assert buf[0..|Encode(v)|] == Encode(v);
    StartReady(p, v, buf, h);
    var d := ParseValue(v, c, buf, 0, h, c);
    RootDone(c, v, buf, h, d);
  }

  /** A nil array on its own, `*` then any negative literal then `\r\n`,
      is a whole message: the call reports it through the nil callback and
      completes after its header. */
  lemma NilArrayCompletes(p: Config, lit: seq<Byte>, rest: seq<Byte>, h: Event -> bool)
    requires Valid(p) && p.stackidx == -1 && LiteralValue(lit).Some? && LiteralValue(lit).value < 0
    requires h(Nil(Record(ArrayT, 0, |lit| + 3, 0, 0, -1)))
    ensures var o := Execute(p, [STAR] + lit + [CR, LF] + rest, h);
      o.ending == Completed && o.consumed == |lit| + 3 && o.events == [Nil(Record(ArrayT, 0, |lit| + 3, 0, 0, -1))] &&
      o.parser.stackidx == -1
  {
    var v := NilArr(lit);
    assert Encode(v) == [STAR] + lit + [CR, LF];
    assert Events(v, 0, 0) == [Nil(Record(ArrayT, 0, |lit| + 3, 0, 0, -1))];
    DecodeMessage(p, v, rest, h);
  }

  /** Headers spelled with a `+` sign or with a nil length other than -1
      are read like the canonical ones: `*+1\r\n:+5\r\n` is a one-element
      array holding 5, and `$-7\r\n` is a nil string. */
  lemma SignedSpellings()
    ensures WellFormed(Arr([PLUS, ZERO + 1], [Num([PLUS, ZERO + 5], 5)]))
    ensures Encode(Arr([PLUS, ZERO + 1], [Num([PLUS, ZERO + 5], 5)])) ==
      [STAR, PLUS, ZERO + 1, CR, LF, COLON, PLUS, ZERO + 5, CR, LF]
    ensures Depth(Arr([PLUS, ZERO + 1], [Num([PLUS, ZERO + 5], 5)])) == 1
    ensures WellFormed(NilStr([MINUS, ZERO + 7])) && Encode(NilStr([MINUS, ZERO + 7])) == [DOLLAR, MINUS, ZERO + 7, CR, LF]
  {
    var five := Num([PLUS, ZERO + 5], 5);
    var items := [five];
    assert items[1..] == [];
    CanonicalLiteralRoundTrip(1);
    CanonicalLiteralRoundTrip(5);
    CanonicalLiteralRoundTrip(-7);
    assert CanonicalLiteral(1) == [ZERO + 1] && CanonicalLiteral(5) == [ZERO + 5];
    assert CanonicalLiteral(-7) == [MINUS, ZERO + 7];
    assert [PLUS, ZERO + 5][1..] == [ZERO + 5] && [PLUS, ZERO + 1][1..] == [ZERO + 1];
    assert WellFormed(five) && Depth(five) == 0;
    assert DepthAll(items) == 0 by {
      assert DepthAll(items[1..]) == 0;
    }
    assert EncodeAll(items) == Encode(five);
  }

  /** The nil array `*-1\r\n` with a callback that accepts everything, then
      any bytes: the call completes after its five bytes. */
  lemma NilArrayMinusOne(p: Config, rest: seq<Byte>)
    requires Valid(p) && p.stackidx == -1
    ensures var o := Execute(p, [STAR, MINUS, ZERO + 1, CR, LF] + rest, e => true);
      o.ending == Completed && o.consumed == 5
  {
    CanonicalLiteralRoundTrip(-1);
    assert CanonicalLiteral(-1) == [MINUS, ZERO + 1];
    assert [STAR] + [MINUS, ZERO + 1] + [CR, LF] == [STAR, MINUS, ZERO + 1, CR, LF];
    NilArrayCompletes(p, [MINUS, ZERO + 1], rest, e => true);
  }
}
