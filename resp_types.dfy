/** Values shared by every part of the RESP2 decoder: bytes, the protocol
    characters it recognises, the value record kept on the parser's stack,
    the parser states and the events it reports to its callbacks. */
module RespTypes {

  datatype Option<T> = None | Some(value: T)

  /** One byte of input, as the C code reads it through `const char *`. */
  type Byte = b: int | 0 <= b < 256

  const LF: Byte := 10
  const CR: Byte := 13
  const DOLLAR: Byte := 36
  const STAR: Byte := 42
  const PLUS: Byte := 43
  const MINUS: Byte := 45
  const ZERO: Byte := 48
  const NINE: Byte := 57
  const COLON: Byte := 58

  const INT64_MAX: int := 0x7FFF_FFFF_FFFF_FFFF
  /** Magnitude of INT64_MIN, the bound of a negative literal. */
  const INT64_MIN_MAGNITUDE: int := 0x8000_0000_0000_0000

  predicate IsDigit(b: Byte) { ZERO <= b <= NINE }

  predicate IsNonZeroDigit(b: Byte) { ZERO < b <= NINE }

  function DigitValue(b: Byte): (d: int)
    requires IsDigit(b)
    ensures 0 <= d <= 9
  {
    b - ZERO
  }

  /** The type tag of a record; `Unset` is the zero the reset macro stores. */
  datatype ValueType = Unset | StringT | ArrayT | IntegerT | StatusT | ErrorT

  /** One decoded or in-progress value: protocol offset and length (header,
      payload and, for arrays, all descendants), content offset and length,
      and the overloaded `remaining` counter (payload bytes still to deliver
      for a string, children not yet started for an array, -1 when unset).
      The `parent` field is the record one slot lower on the stack and the
      user `data` slot is never read, so neither is a field here. */
  datatype Record = Record(vtype: ValueType, poff: nat, plen: nat, coff: nat, clen: nat, remaining: int)

  /** What the reset macro stores in a stack slot before a value is read. */
  const FreshRecord: Record := Record(Unset, 0, 0, 0, 0, -1)

  /** The four callbacks, each carrying the record it is called with. A
      string chunk is a borrowed slice of the current call's buffer: the
      index it starts at and the bytes it covers. */
  datatype Event =
    | Nil(rec: Record)
    | ArrayHeader(rec: Record, count: nat)
    | Integer(rec: Record, value: int)
    | StringChunk(rec: Record, start: nat, data: seq<Byte>)

  /** The parser states that the engine can enter (the enum's placeholder
      `unused` and the never-entered `line`/`line_lf` states are not here). */
  datatype State =
    | TypeChar
    | IntegerStart
    | IntegerPos19
    | IntegerPos09
    | IntegerNeg19
    | IntegerNeg09
    | IntegerCr
    | IntegerLf
    | Bulk
    | BulkCr
    | BulkLf

  /** The states handled by the integer scanner, before the final `\n`. */
  predicate IsScanning(s: State) {
    s.IntegerStart? || s.IntegerPos19? || s.IntegerPos09? || s.IntegerNeg19? ||
    s.IntegerNeg09? || s.IntegerCr?
  }
}
