/** parseString as the source writes it, with size_t arithmetic: the range
    check m_pos + len > size() and the advance m_pos += len both wrap modulo
    2^64. A length prefix close to 2^64 passes the check, and the cursor
    lands before the string it has just read. BencodeGrammar.DecodeString is
    the intended reading (no wrap), and the whole model uses it. */
module BencodeFindings {
  import opened Bytes
  import opened Errors
  import opened CppLib
  import opened BencodeValue
  import opened BencodeGrammar

  /** parseString with the wrapping check and advance, and substr clipping
      the count at the end of the data. */
  function DecodeStringAsWritten(data: Bytes, pos: nat): (r: Result<Parsed>)
    ensures r.Ok? ==> r.value.value.Str? && r.value.end < TWO_64
  {
    var q := DigitRunEnd(data, pos, |data|);
    if q >= |data| then Err(EndOfData)
    else match StoulIn(data, pos, q)
      case Err(x) => Err(x)
      case Ok(len) =>
        if data[q] != ':' then Err(ExpectedColon)
        else if (q + 1 + len) % TWO_64 > |data| then Err(StringOutOfRange)
        else Ok(Parsed(Str(Substr(data, q + 1, len)), (q + 1 + len) % TWO_64))
  }

  /** Whenever the end of the declared string stays below 2^64, the two
      readings agree. */
  lemma {:induction false} AsWrittenAgreesWithoutWrap(data: Bytes, pos: nat)
    requires |data| < TWO_64
    requires var q := DigitRunEnd(data, pos, |data|);
      q < |data| && StoulIn(data, pos, q).Ok? ==> q + 1 + StoulIn(data, pos, q).value < TWO_64
    ensures DecodeStringAsWritten(data, pos) == DecodeString(data, pos)
  {
    var q := DigitRunEnd(data, pos, |data|);
    if q < |data| && StoulIn(data, pos, q).Ok? {
      var n := q + 1 + StoulIn(data, pos, q).value;
      assert n % TWO_64 == n;
      if n <= |data| {
        assert Substr(data, q + 1, n - q - 1) == data[q + 1..n];
      }
    }
  }

  /** The twenty digits of 2^64 - 21, in four groups of five. */
  const WRAPPING_LENGTH: Bytes := WRAP_HIGH + WRAP_UPPER + WRAP_LOWER + WRAP_LOW
  const WRAP_HIGH: Bytes := ['1', '8', '4', '4', '6']
  const WRAP_UPPER: Bytes := ['7', '4', '4', '0', '7']
  const WRAP_LOWER: Bytes := ['3', '7', '0', '9', '5']
  const WRAP_LOW: Bytes := ['5', '1', '5', '9', '5']

  function Pow10(k: nat): (r: nat)
    ensures r > 0
  {
    if k == 0 then 1 else 10 * Pow10(k - 1)
  }

  /** The value of digits written after other digits: the front ones are
      worth 10^|b| times as much. */
  lemma {:induction false} DecimalConcat(a: Bytes, b: Bytes)
    ensures DecimalValue(a + b) == DecimalValue(a) * Pow10(|b|) + DecimalValue(b)
    decreases |b|
  {
    if b == [] {
      assert a + b == a;
    } else {
      var b', c := b[..|b| - 1], b[|b| - 1];
      assert b == b' + [c];
      assert a + b == (a + b') + [c];
      DecimalConcat(a, b');
      DecimalSnoc(a + b', c);
      DecimalSnoc(b', c);
      ShiftOneDigit(DecimalValue(a), Pow10(|b'|), DecimalValue(b'), DigitValue(c));
    }
  }

  /** One more digit at the end: ten times the value, plus the digit. */
  lemma {:induction false} DecimalSnoc(s: Bytes, c: Byte)
    ensures DecimalValue(s + [c]) == DecimalValue(s) * 10 + DigitValue(c)
  {
    DigitsValueAppend(s, [c], 0, |s|);
    assert (s + [c])[|s|] == c;
  }

  lemma {:induction false} ShiftOneDigit(x: nat, p: nat, y: nat, d: nat)
    ensures (x * p + y) * 10 + d == x * (p * 10) + (y * 10 + d)
  {
  }

  /** The value of five digits, place by place. */
  lemma {:induction false} FiveDigits(s: Bytes)
    requires |s| == 5
    ensures DecimalValue(s) == DigitValue(s[0]) * 10000 + DigitValue(s[1]) * 1000 +
      DigitValue(s[2]) * 100 + DigitValue(s[3]) * 10 + DigitValue(s[4])
  {
    assert DigitsValue(s, 0, 1) == DigitValue(s[0]);
    assert DigitsValue(s, 0, 2) == DigitValue(s[0]) * 10 + DigitValue(s[1]);
    assert DigitsValue(s, 0, 3) == DigitValue(s[0]) * 100 + DigitValue(s[1]) * 10 + DigitValue(s[2]);
    assert DigitsValue(s, 0, 4) == DigitValue(s[0]) * 1000 + DigitValue(s[1]) * 100 + DigitValue(s[2]) * 10 + DigitValue(s[3]);
  }

  lemma {:induction false} WrappingLengthValue()
    ensures AllDigits(WRAPPING_LENGTH) && |WRAPPING_LENGTH| == 20
    ensures DecimalValue(WRAPPING_LENGTH) == TWO_64 - 21
  {
    WrappingLengthDigits();
    var a, b, c, d := WRAP_HIGH, WRAP_UPPER, WRAP_LOWER, WRAP_LOW;
    FiveDigits(a);
    FiveDigits(b);
    FiveDigits(c);
    FiveDigits(d);
    assert Pow10(5) == 100000;
    DecimalConcat(a, b);
    DecimalConcat(a + b, c);
    DecimalConcat(a + b + c, d);
  }

  lemma {:induction false} WrappingLengthDigits()
    ensures AllDigits(WRAPPING_LENGTH) && |WRAPPING_LENGTH| == 20
  {
    var s := WRAPPING_LENGTH;
    forall i | 0 <= i < 20
      ensures IsDigit(s[i])
    {
    }
  }

  /** "l18446744073709551595:": a list whose first element declares 2^64 - 21
      bytes. */
  const WRAP_DATA: Bytes := ['l'] + WRAPPING_LENGTH + [':']

  /** The length prefix of WRAP_DATA: digits from 1 to 21, then ':', and
      stoul reads them as 2^64 - 21. */
  lemma {:induction false} WrapDataPrefix()
    ensures |WRAP_DATA| == 22 && WRAP_DATA[1] != 'e' && WRAP_DATA[21] == ':'
    ensures DigitRunEnd(WRAP_DATA, 1, 22) == 21
    ensures StoulIn(WRAP_DATA, 1, 21) == Ok(TWO_64 - 21)
  {
    WrappingLengthValue();
    var data := WRAP_DATA;
    forall k | 1 <= k < 21
      ensures IsDigit(data[k])
    {
      assert data[k] == WRAPPING_LENGTH[k - 1];
    }
    assert data[1..21] == WRAPPING_LENGTH;
    DigitRunEndIs(data, 1, 22, 21);
    WrapDataDigits();
    StoulOfDigitRun(data, 1, 21, 21);
  }

  lemma {:induction false} WrapDataDigits()
    ensures |WRAP_DATA| == 22
    ensures DigitsValue(WRAP_DATA, 1, 21) == DecimalValue(WRAPPING_LENGTH)
  {
    DigitsValueShift(['l'], WRAPPING_LENGTH);
    DigitsValueAppend(['l'] + WRAPPING_LENGTH, [':'], 1, 21);
  }

  /** After the ':' the cursor is at 22, and 22 + 2^64 - 21 wraps to 1, which
      is within the data: the as-written parseString returns an empty string
      and moves the cursor back to 1, the start of the same string.
      parseList's loop then sees the same lookahead at the same position and
      never ends. The intended reading rejects the length. */
  lemma {:induction false} WrapCounterexample()
    ensures WRAP_DATA[1] != 'e'
    ensures DecodeStringAsWritten(WRAP_DATA, 1) == Ok(Parsed(Str([]), 1))
    ensures DecodeString(WRAP_DATA, 1) == Err(StringOutOfRange)
  {
    WrapDataPrefix();
    assert Substr(WRAP_DATA, 22, TWO_64 - 21) == [];
  }
}
