/** urlEncode from MetaUtils: percent-encoding as section 2.1 of RFC 3986
    describes it, leaving alone exactly the unreserved characters of its
    section 2.3 (ASCII letters and digits, '-', '.', '_' and '~'). Every
    other byte becomes '%' and two upper-case hexadecimal digits. */
module UrlEncoding {
  import opened Bytes
  import opened Errors

  /** The characters urlEncode copies unchanged. */
  predicate IsUnreserved(c: Byte) {
    IsAlnum(c) || c == '-' || c == '_' || c == '.' || c == '~'
  }

  /** The source's lookup table for the hexadecimal digits. */
  const HEX: Bytes := ['0', '1', '2', '3', '4', '5', '6', '7', '8', '9', 'A', 'B', 'C', 'D', 'E', 'F']

  /** What one byte becomes: itself, or '%' and the table entries of its high
      and low four bits (c >> 4 and c & 15). */
  function EncodeByte(c: Byte): (r: Bytes)
    ensures IsUnreserved(c) ==> r == [c]
    ensures !IsUnreserved(c) ==> |r| == 3 && r[0] == '%'
  {
    if IsUnreserved(c) then [c] else ['%', HEX[c as int / 16], HEX[c as int % 16]]
  }

  /** The encoding of a whole string, byte by byte. */
  function Encoded(s: Bytes): Bytes {
    if s == [] then [] else Encoded(s[..|s| - 1]) + EncodeByte(s[|s| - 1])
  }

  /** urlEncode: append each byte's encoding to the output. */
  method UrlEncode(s: Bytes) returns (out: Bytes)
    ensures out == Encoded(s)
  {
    out := [];
    for i := 0 to |s|
      invariant out == Encoded(s[..i])
    {
      assert s[..i + 1][..i] == s[..i];
      var c := s[i];
      if IsUnreserved(c) {
        out := out + [c];
      } else {
        out := out + ['%'];
        out := out + [HEX[c as int / 16]];
        out := out + [HEX[c as int % 16]];
      }
    }
    assert s[..|s|] == s;
  }

  /** The number of bytes that get escaped. */
  function EscapedCount(s: Bytes): (n: nat)
    ensures n <= |s|
  {
    if s == [] then 0 else EscapedCount(s[..|s| - 1]) + if IsUnreserved(s[|s| - 1]) then 0 else 1
  }

  /** Every escaped byte costs two extra bytes. */
  lemma {:induction false} EncodedLength(s: Bytes)
    ensures |Encoded(s)| == |s| + 2 * EscapedCount(s)
  {
    if s != [] {
      EncodedLength(s[..|s| - 1]);
    }
  }

  /** Encoding distributes over concatenation. */
  lemma {:induction false} EncodedAppend(a: Bytes, b: Bytes)
    ensures Encoded(a + b) == Encoded(a) + Encoded(b)
    decreases |b|
  {
    if b == [] {
      assert a + b == a;
    } else {
      var b' := b[..|b| - 1];
      assert (a + b)[..|a + b| - 1] == a + b';
      assert (a + b)[|a + b| - 1] == b[|b| - 1];
      EncodedAppend(a, b');
      assert Encoded(a + b) == Encoded(a) + Encoded(b') + EncodeByte(b[|b| - 1]);
    }
  }

  /** A string is left unchanged exactly when all its bytes are unreserved. */
  lemma {:induction false} EncodedUnchanged(s: Bytes)
    ensures Encoded(s) == s <==> forall i :: 0 <= i < |s| ==> IsUnreserved(s[i])
  {
    EncodedLength(s);
    if forall i :: 0 <= i < |s| ==> IsUnreserved(s[i]) {
      AllUnreservedUnchanged(s);
    } else if Encoded(s) == s {
      NoneEscapedAllUnreserved(s);
    }
  }

  lemma {:induction false} AllUnreservedUnchanged(s: Bytes)
    requires forall i :: 0 <= i < |s| ==> IsUnreserved(s[i])
    ensures Encoded(s) == s
  {
    if s != [] {
      var p := s[..|s| - 1];
      assert forall i :: 0 <= i < |p| ==> IsUnreserved(p[i]) by {
        forall i | 0 <= i < |p| ensures IsUnreserved(p[i]) {
          assert p[i] == s[i];
        }
      }
      AllUnreservedUnchanged(p);
      assert p + [s[|s| - 1]] == s;
    }
  }

  /** When nothing is escaped, every byte is unreserved. */
  lemma {:induction false} NoneEscapedAllUnreserved(s: Bytes)
    requires EscapedCount(s) == 0
    ensures forall i :: 0 <= i < |s| ==> IsUnreserved(s[i])
  {
    if s != [] {
      var p := s[..|s| - 1];
      NoneEscapedAllUnreserved(p);
      forall i | 0 <= i < |s| ensures IsUnreserved(s[i]) {
        if i < |p| {
          assert s[i] == p[i];
        }
      }
    }
  }

  /** Every output byte is unreserved or '%': the output is safe in a query. */
  lemma {:induction false} EncodedIsSafe(s: Bytes)
    ensures forall i :: 0 <= i < |Encoded(s)| ==> IsUnreserved(Encoded(s)[i]) || Encoded(s)[i] == '%'
  {
    if s != [] {
      var p := s[..|s| - 1];
      EncodedIsSafe(p);
      var e := EncodeByte(s[|s| - 1]);
      forall i | 0 <= i < |e| ensures IsUnreserved(e[i]) || e[i] == '%' {
        HexDigitIsUnreserved(s[|s| - 1] as int / 16);
        HexDigitIsUnreserved(s[|s| - 1] as int % 16);
      }
      var r := Encoded(p) + e;
      assert Encoded(s) == r;
      forall i | 0 <= i < |r| ensures IsUnreserved(r[i]) || r[i] == '%' {
        if i >= |Encoded(p)| {
          assert r[i] == e[i - |Encoded(p)|];
        }
      }
    }
  }

  /** The value of a hexadecimal digit, upper or lower case, or None. */
  function HexValue(c: Byte): (r: Option<nat>)
    ensures r.Some? ==> r.value < 16
  {
    if '0' <= c <= '9' then Some(c as int - '0' as int)
    else if 'A' <= c <= 'F' then Some(c as int - 'A' as int + 10)
    else if 'a' <= c <= 'f' then Some(c as int - 'a' as int + 10)
    else None
  }

  /** The table entry for d is the upper-case digit whose value is d. */
  lemma {:induction false} HexTable(d: nat)
    requires d < 16
    ensures HEX[d] as int == if d < 10 then '0' as int + d else 'A' as int + d - 10
    ensures HexValue(HEX[d]) == Some(d)
  {
    if d < 10 {
      assert HEX[d] as int == '0' as int + d by {
        if d == 0 {} else if d == 1 {} else if d == 2 {} else if d == 3 {} else if d == 4 {}
        else if d == 5 {} else if d == 6 {} else if d == 7 {} else if d == 8 {} else {}
      }
    } else {
      assert HEX[d] as int == 'A' as int + d - 10 by {
        if d == 10 {} else if d == 11 {} else if d == 12 {} else if d == 13 {} else if d == 14 {} else {}
      }
    }
  }

  lemma {:induction false} HexDigitIsUnreserved(d: nat)
    requires d < 16
    ensures IsUnreserved(HEX[d]) && HEX[d] != '%'
  {
    HexTable(d);
  }

  /** Percent-decoding, the inverse RFC 3986 describes: "%XY" is the byte
      with hexadecimal value XY, every other byte stands for itself, and a
      '%' not followed by two hexadecimal digits is malformed. */
  function PercentDecode(t: Bytes): (r: Option<Bytes>)
    decreases |t|
  {
    if t == [] then Some([])
    else if t[0] != '%' then
      match PercentDecode(t[1..])
      case None => None
      case Some(rest) => Some([t[0]] + rest)
    else if |t| < 3 || HexValue(t[1]).None? || HexValue(t[2]).None? then None
    else
      match PercentDecode(t[3..])
      case None => None
      case Some(rest) => Some([(HexValue(t[1]).value * 16 + HexValue(t[2]).value) as char] + rest)
  }

  /** Decoding the encoding gives back the original bytes. */
  lemma {:induction false} DecodeEncoded(s: Bytes)
    ensures PercentDecode(Encoded(s)) == Some(s)
    decreases |s|
  {
    if s != [] {
      var c := s[0];
      var rest := s[1..];
      assert [c] + rest == s;
      EncodedAppend([c], rest);
      assert Encoded([c]) == EncodeByte(c) by {
        assert [c][..0] == [];
      }
      DecodeEncoded(rest);
      DecodeByteThen(c, Encoded(rest), rest);
    }
  }

  /** One encoded byte in front of an encoding that decodes to rest. */
  lemma {:induction false} DecodeByteThen(c: Byte, t: Bytes, rest: Bytes)
    requires PercentDecode(t) == Some(rest)
    ensures PercentDecode(EncodeByte(c) + t) == Some([c] + rest)
  {
    var u := EncodeByte(c) + t;
    if IsUnreserved(c) {
      assert u[0] == c && u[1..] == t;
    } else {
      var hi, lo := c as int / 16, c as int % 16;
      assert u[0] == '%' && u[1] == HEX[hi] && u[2] == HEX[lo] && u[3..] == t;
      HexTable(hi);
      HexTable(lo);
      assert (hi * 16 + lo) as char == c;
    }
  }

  /** Distinct strings have distinct encodings. */
  lemma {:induction false} EncodedInjective(s: Bytes, u: Bytes)
    requires Encoded(s) == Encoded(u)
    ensures s == u
  {
    DecodeEncoded(s);
    DecodeEncoded(u);
  }
}
