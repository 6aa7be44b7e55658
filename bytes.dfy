/** The byte strings, integer widths and character classes the torrent core
    works with. Every std::string of the source (raw descriptor data,
    dictionary keys, URLs, query parameters) is a sequence of bytes. */
module Bytes {

  /** One byte of a std::string, written as the char with that code, so
      that literals such as "4:info" read as in the source. */
  type Byte = c: char | c as int < 256

  type Bytes = seq<Byte>

  const TWO_64: int := 0x1_0000_0000_0000_0000

  /** uint64_t, and size_t on the 64-bit targets the source is built for. */
  type U64 = n: int | 0 <= n < TWO_64

  /** std::isdigit in the "C" locale. */
  predicate IsDigit(c: Byte) { '0' <= c <= '9' }

  /** std::isalnum in the "C" locale. */
  predicate IsAlnum(c: Byte) { IsDigit(c) || 'A' <= c <= 'Z' || 'a' <= c <= 'z' }

  /** std::isspace in the "C" locale: space, \t, \n, \v, \f and \r. */
  predicate IsSpace(c: Byte) { c == ' ' || '\t' <= c <= '\r' }

  predicate AllDigits(s: Bytes) { forall i :: 0 <= i < |s| ==> IsDigit(s[i]) }

  /** The value of a decimal digit (0 for any other byte, which no caller
      passes). */
  function DigitValue(c: Byte): (d: nat)
    ensures d < 10
  {
    if IsDigit(c) then c as int - '0' as int else 0
  }

  function DigitChar(d: nat): (c: Byte)
    requires d < 10
    ensures IsDigit(c) && DigitValue(c) == d
  {
    ('0' as int + d) as char
  }

  /** The first index at or after from that is past the run of digits
      starting there, looking no further than hi. */
  function DigitRunEnd(s: Bytes, from: nat, hi: nat): (r: nat)
    requires hi <= |s|
    decreases hi - from
    ensures from <= r && (from <= hi ==> r <= hi)
    ensures r < hi ==> !IsDigit(s[r])
  {
    if from < hi && IsDigit(s[from]) then DigitRunEnd(s, from + 1, hi) else from
  }

  /** DigitRunEnd returns i when digits fill from..i and, short of hi, i
      holds no digit. */
  lemma {:induction false} DigitRunEndIs(s: Bytes, from: nat, hi: nat, i: nat)
    requires from <= i <= hi <= |s|
    requires forall k :: from <= k < i ==> IsDigit(s[k])
    requires i < hi ==> !IsDigit(s[i])
    ensures DigitRunEnd(s, from, hi) == i
    decreases i - from
  {
    if from < i {
      DigitRunEndIs(s, from + 1, hi, i);
    }
  }

  /** Every byte DigitRunEnd steps over is a digit. */
  lemma {:induction false} DigitRunAllDigits(s: Bytes, from: nat, hi: nat)
    requires hi <= |s|
    ensures forall k :: from <= k < DigitRunEnd(s, from, hi) ==> k < hi && IsDigit(s[k])
    decreases hi - from
  {
    if from < hi && IsDigit(s[from]) {
      var r := DigitRunEnd(s, from + 1, hi);
      assert DigitRunEnd(s, from, hi) == r;
      DigitRunAllDigits(s, from + 1, hi);
      forall k | from <= k < r
        ensures k < hi && IsDigit(s[k])
      {
        if k > from {
          assert from + 1 <= k < DigitRunEnd(s, from + 1, hi);
        }
      }
    } else {
      assert DigitRunEnd(s, from, hi) == from;
    }
  }

  /** The number the digits s[a..b] denote, most significant first. */
  function DigitsValue(s: Bytes, a: nat, b: nat): nat
    requires a <= b <= |s|
    decreases b - a
  {
    if a == b then 0 else DigitsValue(s, a, b - 1) * 10 + DigitValue(s[b - 1])
  }

  /** The number a run of decimal digits denotes. */
  function DecimalValue(s: Bytes): nat {
    DigitsValue(s, 0, |s|)
  }

  /** Bytes appended after b do not change the value of s[a..b]. */
  lemma {:induction false} DigitsValueAppend(s: Bytes, t: Bytes, a: nat, b: nat)
    requires a <= b <= |s|
    ensures DigitsValue(s + t, a, b) == DigitsValue(s, a, b)
    decreases b - a
  {
    if a < b {
      DigitsValueAppend(s, t, a, b - 1);
      assert (s + t)[b - 1] == s[b - 1];
    }
  }

  /** The decimal spelling of n without leading zeros, as std::to_string
      writes it and as a bencoded length prefix or integer body carries it. */
  function DecimalString(n: nat): (r: Bytes)
    ensures |r| > 0 && AllDigits(r)
    ensures DecimalValue(r) == n
  {
    if n < 10 then
      var r := [DigitChar(n)];
      assert DigitsValue(r, 0, 0) == 0;
      r
    else
      var prefix := DecimalString(n / 10);
      var r := prefix + [DigitChar(n % 10)];
      DigitsValueAppend(prefix, [DigitChar(n % 10)], 0, |prefix|);
      r
  }

  /** std::string::substr(pos, count): at most count bytes from pos on,
      clipped at the end of the string. */
  function Substr(s: Bytes, pos: nat, count: nat): (r: Bytes)
    requires pos <= |s|
    ensures |r| == if pos + count <= |s| then count else |s| - pos
    ensures r == s[pos..pos + |r|]
  {
    if pos + count <= |s| then s[pos..pos + count] else s[pos..]
  }
}
