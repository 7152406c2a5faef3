/** The integer scanner that reads the signed decimal field after a type tag
    (`integer_start` up to the `\r`), and the grammar it implements. */
module IntegerScanner {
  import opened RespTypes

  predicate AllDigits(s: seq<Byte>) {
    forall i :: 0 <= i < |s| ==> IsDigit(s[i])
  }

  /** Decimal value of a digit string, most significant digit first. */
  function DigitsValue(s: seq<Byte>): nat
    requires AllDigits(s)
  {
    if s == [] then 0 else 10 * DigitsValue(s[..|s| - 1]) + DigitValue(s[|s| - 1])
  }

  /** A magnitude: a nonzero digit followed by any number of digits. */
  function Magnitude(s: seq<Byte>): (r: Option<nat>)
    ensures r.Some? ==> r.value >= 1
  {
    if |s| >= 1 && IsNonZeroDigit(s[0]) && AllDigits(s) then
      DigitsAtLeastFirst(s);
      Some(DigitsValue(s))
    else None
  }

  /** The value of a header literal (the bytes between the tag and the `\r`):
      a lone `0`, or an optionally signed magnitude, and then only within the
      signed 64-bit range. `None` for every other byte string. */
  function LiteralValue(s: seq<Byte>): (r: Option<int>)
    ensures r.Some? ==> -INT64_MIN_MAGNITUDE <= r.value <= INT64_MAX
  {
    if s == [ZERO] then Some(0)
    else if |s| >= 1 && s[0] == MINUS then
      match Magnitude(s[1..])
      case Some(m) => if m <= INT64_MIN_MAGNITUDE then Some(-(m as int)) else None
      case None => None
    else if |s| >= 1 && s[0] == PLUS then
      match Magnitude(s[1..])
      case Some(m) => if m <= INT64_MAX then Some(m) else None
      case None => None
    else
      match Magnitude(s)
      case Some(m) => if m <= INT64_MAX then Some(m) else None
      case None => None
  }

  /** Outcome of feeding bytes to the scanner: the state entered and the
      accumulator, or a rejection with the accumulator as it was saved. */
  datatype ScanStep = Continue(state: State, acc: int) | Reject(acc: int)

  /** One more digit of a magnitude bounded by `limit`, with the source's two
      overflow checks: before the multiplication by ten and after it. */
  function AccumulateDigit(st: State, acc: int, d: int, limit: int): (r: ScanStep)
    requires 0 <= d <= 9 && limit >= 9
    ensures r.Continue? <==> acc * 10 + d <= limit
    ensures r.Continue? ==> r == Continue(st, acc * 10 + d)
  {
    if acc > limit / 10 then
      assert acc * 10 >= (limit / 10) * 10 + 10;
      Reject(acc)
    else if acc * 10 > limit - d then Reject(acc * 10)
    else Continue(st, acc * 10 + d)
  }

  /** One byte in one of the scanner states. A positive magnitude is bounded
      by INT64_MAX, a negative one by the magnitude of INT64_MIN; the `\r`
      that ends the literal moves to `IntegerLf` with the signed value. */
  function ScanByte(st: State, acc: int, b: Byte): (r: ScanStep)
    requires IsScanning(st)
    ensures r.Continue? ==> IsScanning(r.state) || r.state == IntegerLf
    ensures r.Continue? && r.state == IntegerLf ==> b == CR
  {
    match st
    case IntegerStart =>
      if IsNonZeroDigit(b) then Continue(IntegerPos09, DigitValue(b))
      else if b == MINUS then Continue(IntegerNeg19, 0)
      else if b == PLUS then Continue(IntegerPos19, 0)
      else if b == ZERO then Continue(IntegerCr, 0)
      else Reject(0)
    case IntegerPos19 =>
      if IsNonZeroDigit(b) then Continue(IntegerPos09, DigitValue(b)) else Reject(acc)
    case IntegerPos09 =>
      if IsDigit(b) then AccumulateDigit(IntegerPos09, acc, DigitValue(b), INT64_MAX)
      else if b == CR then Continue(IntegerLf, acc)
      else Reject(acc)
    case IntegerNeg19 =>
      if IsNonZeroDigit(b) then Continue(IntegerNeg09, DigitValue(b)) else Reject(acc)
    case IntegerNeg09 =>
      if IsDigit(b) then AccumulateDigit(IntegerNeg09, acc, DigitValue(b), INT64_MIN_MAGNITUDE)
      else if b == CR then Continue(IntegerLf, -acc)
      else Reject(acc)
    case IntegerCr =>
      if b == CR then Continue(IntegerLf, acc) else Reject(acc)
  }

  /** The scanner run over a whole field `s`, which must end exactly with the
      `\r` that closes the literal: reaching `IntegerLf` before the last
      byte is a rejection here. */
  function ScanField(st: State, acc: int, s: seq<Byte>): ScanStep
    requires IsScanning(st)
    decreases |s|
  {
    if s == [] then Continue(st, acc)
    else
      match ScanByte(st, acc, s[0])
      case Reject(a) => Reject(a)
      case Continue(next, a) =>
        if IsScanning(next) then ScanField(next, a, s[1..])
        else if |s| == 1 then Continue(next, a)
        else Reject(a)
  }

  /** The quotient of `n` by ten, by repeated subtraction: unfolding the
      decimal spelling then stays within linear arithmetic. */
  function Tens(n: nat): (q: nat)
    ensures 10 * q <= n < 10 * q + 10
  {
    if n < 10 then 0 else 1 + Tens(n - 10)
  }

  /** The canonical decimal spelling of a natural number: the spelling of
      its tens, then its last digit. */
  function DecimalDigits(n: nat): seq<Byte>
  {
    if n < 10 then [ZERO + n]
    else var q := Tens(n); DecimalDigits(q) + [ZERO + (n - 10 * q)]
  }

  /** The digits of `n` are a non-empty run of digits worth `n`, with no
      leading zero. */
  lemma {:induction false} DecimalDigitsSpec(n: nat)
    ensures var s := DecimalDigits(n);
      |s| >= 1 && AllDigits(s) && DigitsValue(s) == n &&
      (n >= 1 ==> IsNonZeroDigit(s[0])) && (n == 0 ==> s == [ZERO])
  {
    if n >= 10 {
      var q := Tens(n);
      var p := DecimalDigits(q);
      DecimalDigitsSpec(q);
      DigitsAppend(p, ZERO + (n - 10 * q));
      assert (p + [ZERO + (n - 10 * q)])[0] == p[0];
    }
  }

  /** The canonical literal of an integer: its digits, after `-` if negative. */
  function CanonicalLiteral(v: int): seq<Byte>
  {
    if v < 0 then [MINUS] + DecimalDigits(-v) else DecimalDigits(v)
  }

  lemma {:induction false} DigitsAtLeastFirst(s: seq<Byte>)
    requires |s| >= 1 && AllDigits(s)
    ensures DigitsValue(s) >= DigitValue(s[0])
    decreases |s|
  {
    if |s| > 1 {
      var p := s[..|s| - 1];
      DigitsAtLeastFirst(p);
      assert p[0] == s[0];
    }
  }

  lemma DigitsAppend(p: seq<Byte>, d: Byte)
    requires AllDigits(p) && IsDigit(d)
    ensures AllDigits(p + [d])
    ensures DigitsValue(p + [d]) == 10 * DigitsValue(p) + DigitValue(d)
  {
    assert (p + [d])[..|p|] == p;
  }

  /** Appending digits never makes a magnitude smaller. */
  lemma {:induction false} DigitsMonotone(p: seq<Byte>, q: seq<Byte>)
    requires AllDigits(p) && AllDigits(q)
    ensures AllDigits(p + q) && DigitsValue(p + q) >= DigitsValue(p)
    decreases |q|
  {
    if q != [] {
      var q' := q[..|q| - 1];
      DigitsMonotone(p, q');
      assert p + q == (p + q') + [q[|q| - 1]];
      DigitsAppend(p + q', q[|q| - 1]);
    } else {
      assert p + q == p;
    }
  }

  function Limit(neg: bool): int { if neg then INT64_MIN_MAGNITUDE else INT64_MAX }

  function DigitState(neg: bool): State { if neg then IntegerNeg09 else IntegerPos09 }

  /** From a digit state holding the value of the digits `p` read so far, the
      rest `s` of the field is accepted exactly when it is all digits and the
      whole magnitude stays within the bound, and then the accumulator holds
      the signed value. */
  lemma {:induction false} ScanDigits(neg: bool, p: seq<Byte>, s: seq<Byte>)
    requires |p| >= 1 && AllDigits(p) && DigitsValue(p) <= Limit(neg)
    ensures AllDigits(s) ==> AllDigits(p + s)
    ensures var r := ScanField(DigitState(neg), DigitsValue(p), s + [CR]);
      (r.Reject? || r.state == IntegerLf) &&
      (r.Continue? <==> AllDigits(s) && DigitsValue(p + s) <= Limit(neg)) &&
      (r.Continue? ==> r.acc == (if neg then -(DigitsValue(p + s) as int) else DigitsValue(p + s)))
    decreases |s|
  {
    var st, acc := DigitState(neg), DigitsValue(p);
    var t := s + [CR];
    if s == [] {
      assert p + s == p;
      assert t == [CR];
    } else {
      var d := s[0];
      assert t[0] == d && t[1..] == s[1..] + [CR];
      if IsDigit(d) {
        DigitsAppend(p, d);
        var p' := p + [d];
        assert p' + s[1..] == p + s;
        if acc * 10 + DigitValue(d) <= Limit(neg) {
          ScanDigits(neg, p', s[1..]);
          if AllDigits(s) {
            assert AllDigits(s[1..]);
          }
          if AllDigits(s[1..]) {
            assert AllDigits(s);
          }
        } else {
          if AllDigits(s) {
            assert AllDigits(s[1..]);
            DigitsMonotone(p', s[1..]);
          }
        }
      } else {
        assert !AllDigits(s);
      }
    }
  }

  /** The scanner accepts a field `s` followed by `\r` exactly when `s` is a
      literal of the grammar within the 64-bit range, and then it holds the
      literal's value; otherwise it rejects. */
  lemma {:induction false} ScanFieldMatchesLiteral(s: seq<Byte>, acc: int)
    ensures var r := ScanField(IntegerStart, acc, s + [CR]);
      (r.Reject? || r.state == IntegerLf) &&
      (r.Continue? <==> LiteralValue(s).Some?) &&
      (r.Continue? ==> r.acc == LiteralValue(s).value)
  {
    var t := s + [CR];
    if s == [] {
      assert t == [CR];
    } else {
      var b := s[0];
      assert t[0] == b && t[1..] == s[1..] + [CR];
      if IsNonZeroDigit(b) {
        ScanDigits(false, [b], s[1..]);
        assert [b] + s[1..] == s;
        assert AllDigits(s) ==> AllDigits(s[1..]);
      } else if b == MINUS || b == PLUS {
        var neg := b == MINUS;
        var u := s[1..];
        if u == [] {
          assert t[1..] == [CR];
        } else {
          var c := u[0];
          assert t[1..][0] == c && t[1..][1..] == u[1..] + [CR];
          if IsNonZeroDigit(c) {
            ScanDigits(neg, [c], u[1..]);
            assert [c] + u[1..] == u;
            assert AllDigits(u) ==> AllDigits(u[1..]);
          }
        }
      } else if b == ZERO {
        if |s| > 1 {
          assert t[1..][0] == s[1];
        } else {
          assert s == [ZERO];
          assert t[1..] == [CR];
        }
      }
    }
  }

  /** The canonical literal of every 64-bit integer reads back as that
      integer, and that of every integer outside the range is refused. */
  lemma CanonicalLiteralRoundTrip(v: int)
    ensures LiteralValue(CanonicalLiteral(v)) ==
      (if -INT64_MIN_MAGNITUDE <= v <= INT64_MAX then Some(v) else None)
  {
    var s := CanonicalLiteral(v);
    DecimalDigitsSpec(if v < 0 then -v else v);
    if v < 0 {
      assert s[1..] == DecimalDigits(-v);
      assert s != [ZERO];
    } else if v == 0 {
    } else {
      assert s[0] != MINUS && s[0] != PLUS;
    }
  }
}
