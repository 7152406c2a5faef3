/** RESP2 messages as values with their spelling, their encoding, and what decoding
    one of them reports: the callbacks in order and the record the value
    leaves on the stack once complete. */
module Messages {
  import opened RespTypes
  import opened IntegerScanner

  /** A RESP2 value the parser reads, as it is spelled: an integer, a bulk
      string, a nil bulk string, an array of values or a nil array, each
      with the literal `lit` its header carries between the tag and `\r\n`.
      The same value has several spellings (`:5`, `:+5`; `$-1`, `$-7`). */
  datatype Value =
    | Num(lit: seq<Byte>, n: int)
    | Str(lit: seq<Byte>, data: seq<Byte>)
    | NilStr(lit: seq<Byte>)
    | Arr(lit: seq<Byte>, items: seq<Value>)
    | NilArr(lit: seq<Byte>)

  /** Number of constructors in a value, for termination. */
  function Size(v: Value): (r: nat)
    ensures r >= 1
  {
    match v
    case Arr(_, items) => 1 + SizeAll(items)
    case _ => 1
  }

  function SizeAll(s: seq<Value>): nat
  {
    if s == [] then 0 else Size(s[0]) + SizeAll(s[1..])
  }

  /** What a value's headers must be for the parser to read them: each
      literal is one the scanner accepts, and its value is the integer, the
      payload length or the child count; any negative length makes a nil. */
  predicate WellFormed(v: Value)
    decreases Size(v), 0
  {
    match v
    case Num(lit, n) => LiteralValue(lit) == Some(n)
    case Str(lit, d) => LiteralValue(lit) == Some(|d|)
    case Arr(lit, items) => LiteralValue(lit) == Some(|items|) && AllWellFormed(items)
    case NilStr(lit) => LiteralValue(lit).Some? && LiteralValue(lit).value < 0
    case NilArr(lit) => LiteralValue(lit).Some? && LiteralValue(lit).value < 0
  }

  predicate AllWellFormed(s: seq<Value>)
    decreases SizeAll(s), 1
  {
    s == [] || (WellFormed(s[0]) && AllWellFormed(s[1..]))
  }

  /** How many stack slots above its own a value needs: a non-empty array
      pushes its children one slot higher. */
  function Depth(v: Value): nat
    decreases Size(v), 0
  {
    match v
    case Arr(_, items) => if items == [] then 0 else 1 + DepthAll(items)
    case _ => 0
  }

  function DepthAll(s: seq<Value>): nat
    decreases SizeAll(s), 1
  {
    if s == [] then 0
    else
      var d := Depth(s[0]);
      var e := DepthAll(s[1..]);
      if d < e then e else d
  }

  /** A header line: the tag, the literal, `\r\n`. */
  function HeaderBytes(tag: Byte, lit: seq<Byte>): seq<Byte> {
    [tag] + lit + [CR, LF]
  }

  /** The encoding of a value, spelled with its own header literals. */
  function Encode(v: Value): (e: seq<Byte>)
    ensures |e| >= 3
    decreases Size(v), 0
  {
    match v
    case Num(lit, _) => HeaderBytes(COLON, lit)
    case Str(lit, d) => HeaderBytes(DOLLAR, lit) + d + [CR, LF]
    case NilStr(lit) => HeaderBytes(DOLLAR, lit)
    case Arr(lit, items) => HeaderBytes(STAR, lit) + EncodeAll(items)
    case NilArr(lit) => HeaderBytes(STAR, lit)
  }

  function EncodeAll(s: seq<Value>): seq<Byte>
    decreases SizeAll(s), 1
  {
    if s == [] then [] else Encode(s[0]) + EncodeAll(s[1..])
  }

  /** The record a value leaves in its stack slot once complete, when its
      tag is the byte at protocol offset `off`. */
  function Finished(v: Value, off: nat): (r: Record)
  {
    var len := |Encode(v)|;
    match v
    case Num(lit, _) => Record(IntegerT, off, len, off + 1, |lit|, -1)
    case Str(lit, d) => Record(StringT, off, len, off + |lit| + 3, |d|, 0)
    case NilStr(_) => Record(StringT, off, len, 0, 0, -1)
    case Arr(_, _) => Record(ArrayT, off, len, 0, 0, 0)
    case NilArr(_) => Record(ArrayT, off, len, 0, 0, -1)
  }

  /** The callbacks decoding a value makes, when its tag is at protocol
      offset `off` and at position `at` of the buffer: an integer or a nil
      reports its finished record; a string is one chunk holding its whole
      payload; an array reports its header record with the child count, then
      its children in order. */
  function Events(v: Value, off: nat, at: nat): seq<Event>
    decreases Size(v), 0
  {
    match v
    case Num(_, n) => [Integer(Finished(v, off), n)]
    case Str(lit, d) => [StringChunk(Finished(v, off), at + |lit| + 3, d)]
    case NilStr(_) => [Nil(Finished(v, off))]
    case NilArr(_) => [Nil(Finished(v, off))]
    case Arr(lit, items) =>
      var hl := |lit| + 3;
      [ArrayHeader(Record(ArrayT, off, hl, 0, 0, |items|), |items|)] + EventsAll(items, off + hl, at + hl)
  }

  function EventsAll(s: seq<Value>, off: nat, at: nat): seq<Event>
    decreases SizeAll(s), 1
  {
    if s == [] then []
    else Events(s[0], off, at) + EventsAll(s[1..], off + |Encode(s[0])|, at + |Encode(s[0])|)
  }

  /** Every 64-bit integer, and every payload or child count within that
      range, has a spelling the parser reads: its canonical literal. */
  lemma CanonicalSpelling(n: int, d: seq<Byte>, items: seq<Value>)
    ensures WellFormed(Num(CanonicalLiteral(n), n)) <==> -INT64_MIN_MAGNITUDE <= n <= INT64_MAX
    ensures WellFormed(Str(CanonicalLiteral(|d|), d)) <==> |d| <= INT64_MAX
    ensures AllWellFormed(items) ==> (WellFormed(Arr(CanonicalLiteral(|items|), items)) <==> |items| <= INT64_MAX)
    ensures WellFormed(NilStr(CanonicalLiteral(-1))) && WellFormed(NilArr(CanonicalLiteral(-1)))
  {
    CanonicalLiteralRoundTrip(n);
    CanonicalLiteralRoundTrip(|d|);
    CanonicalLiteralRoundTrip(|items|);
    CanonicalLiteralRoundTrip(-1);
  }

  /** Every callback in `evs` returns true. */
  predicate AllAccepted(evs: seq<Event>, h: Event -> bool) {
    forall i :: 0 <= i < |evs| ==> h(evs[i])
  }

  /** An integer is its header; it reports one integer callback with its
      value, and its record spans the literal between the tag and `\r\n`. */
  lemma {:induction false} NumShape(v: Value, off: nat, at: nat, lit: seq<Byte>)
    requires v.Num? && WellFormed(v) && lit == v.lit
    ensures LiteralValue(lit) == Some(v.n)
    ensures Encode(v) == HeaderBytes(COLON, lit) && |Encode(v)| == |lit| + 3
    ensures Finished(v, off) == Record(IntegerT, off, |lit| + 3, off + 1, |lit|, -1)
    ensures Events(v, off, at) == [Integer(Record(IntegerT, off, |lit| + 3, off + 1, |lit|, -1), v.n)]
  {
  }

  /** A nil is a header with a negative length; it reports one nil callback. */
  lemma {:induction false} NilShape(v: Value, off: nat, at: nat, lit: seq<Byte>)
    requires (v.NilStr? || v.NilArr?) && WellFormed(v) && lit == v.lit
    ensures LiteralValue(lit).Some? && LiteralValue(lit).value < 0
    ensures Encode(v) == HeaderBytes(if v.NilStr? then DOLLAR else STAR, lit) && |Encode(v)| == |lit| + 3
    ensures Finished(v, off) == Record(if v.NilStr? then StringT else ArrayT, off, |lit| + 3, 0, 0, -1)
    ensures Events(v, off, at) == [Nil(Record(if v.NilStr? then StringT else ArrayT, off, |lit| + 3, 0, 0, -1))]
  {
  }

  /** A bulk string is its header, its payload and `\r\n`; it reports one
      chunk holding the payload, which starts after the header. */
  lemma {:induction false} StrShape(v: Value, off: nat, at: nat, lit: seq<Byte>)
    requires v.Str? && WellFormed(v) && lit == v.lit
    ensures LiteralValue(lit) == Some(|v.data|)
    ensures Encode(v) == HeaderBytes(DOLLAR, lit) + (v.data + [CR, LF]) && |Encode(v)| == |lit| + 3 + |v.data| + 2
    ensures Finished(v, off) == Record(StringT, off, |lit| + 3 + |v.data| + 2, off + |lit| + 3, |v.data|, 0)
    ensures Events(v, off, at) ==
      [StringChunk(Record(StringT, off, |lit| + 3 + |v.data| + 2, off + |lit| + 3, |v.data|, 0), at + |lit| + 3, v.data)]
  {
    var hb := HeaderBytes(DOLLAR, lit);
    assert |hb| == |lit| + 3;
    assert Encode(v) == hb + v.data + [CR, LF];
    assert hb + v.data + [CR, LF] == hb + (v.data + [CR, LF]);
  }

  /** An array is its header followed by its items' encodings, and its
      finished record spans both. */
  lemma {:induction false} ArrShape(v: Value, off: nat, lit: seq<Byte>)
    requires v.Arr? && WellFormed(v) && lit == v.lit
    ensures LiteralValue(lit) == Some(|v.items|)
    ensures Encode(v) == HeaderBytes(STAR, lit) + EncodeAll(v.items) && |Encode(v)| == |lit| + 3 + |EncodeAll(v.items)|
    ensures Finished(v, off) == Record(ArrayT, off, |lit| + 3 + |EncodeAll(v.items)|, 0, 0, 0)
    ensures AllWellFormed(v.items) && SizeAll(v.items) < Size(v)
    ensures v.items != [] ==> Depth(v) == 1 + DepthAll(v.items)
  {
    assert v == Arr(v.lit, v.items);
  }

  /** An array reports its header record with the count, then its items'
      callbacks. */
  lemma {:induction false} ArrEvents(v: Value, off: nat, at: nat, lit: seq<Byte>, off': nat, at': nat)
    requires v.Arr? && lit == v.lit && off' == off + |lit| + 3 && at' == at + |lit| + 3
    ensures Events(v, off, at) ==
      [ArrayHeader(Record(ArrayT, off, |lit| + 3, 0, 0, |v.items|), |v.items|)] + EventsAll(v.items, off', at')
  {
    assert v == Arr(v.lit, v.items);
  }

  /** A non-empty run of items is its first item followed by the rest. */
  lemma {:induction false} ItemsShape(s: seq<Value>, off: nat, at: nat)
    requires s != []
    ensures EncodeAll(s) == Encode(s[0]) + EncodeAll(s[1..])
    ensures EventsAll(s, off, at) == Events(s[0], off, at) + EventsAll(s[1..], off + |Encode(s[0])|, at + |Encode(s[0])|)
  {
  }

  /** The first item and the rest of a non-empty run are each well formed
      when the run is, need no more depth and are smaller. */
  lemma {:induction false} ItemsMeasures(s: seq<Value>)
    requires s != []
    ensures AllWellFormed(s) ==> WellFormed(s[0]) && AllWellFormed(s[1..])
    ensures Depth(s[0]) <= DepthAll(s) && DepthAll(s[1..]) <= DepthAll(s)
    ensures Size(s[0]) <= SizeAll(s) && SizeAll(s[1..]) < SizeAll(s)
  {
    var n := Size(s[0]);
    assert SizeAll(s) == n + SizeAll(s[1..]);
  }
}
