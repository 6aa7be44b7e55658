/** skipElement and its skipString helper from MetaUtils: a scanner that
    steps over one bencoded element without decoding or validating it, used
    to cut the raw bytes of the info dictionary out of a descriptor. The
    functions give its meaning; the methods, written with the source's
    loops, are proved to compute it. */
module RawScanner {
  import opened Bytes
  import opened Errors
  import opened CppLib
  import opened BencodeValue
  import opened BencodeGrammar

  /** data[i] as the scanner reads it, never checking the index; a read at or
      past the end is where the source has undefined behaviour. */
  function ByteAt(data: Bytes, i: nat): (r: Result<Byte>)
    ensures r.Ok? <==> i < |data|
    ensures r.Ok? ==> r.value == data[i]
    ensures r.Err? ==> r.error == ScanPastEnd
  {
    if i < |data| then Ok(data[i]) else Err(ScanPastEnd)
  }

  /** The ways the scan can fail: a read past the end, a wrapping length,
      or stoul rejecting a length. */
  predicate ScanFailure(e: Error) {
    e == ScanPastEnd || e == LengthWraps || e == InvalidArgument || e == OutOfRange
  }

  /** The termination measure of the scan: how many bytes are left at i. */
  function Left(data: Bytes, i: nat): nat {
    if i <= |data| then |data| - i else 0
  }

  /** skipString: step to the first ':' collecting the bytes before it, then
      add their stoul value to the position of the ':'. The result is the
      index of the string's last byte (of the ':' for an empty string).
      Both callers step one byte further at once, so a last index that is
      2^64 - 1 or beyond would wrap size_t on the addition or on that step:
      the scan then stops with LengthWraps. */
  function ScanString(data: Bytes, pos: nat): (r: Result<nat>)
    ensures r.Ok? ==> pos <= r.value && r.value + 1 < TWO_64
    ensures r.Err? ==> ScanFailure(r.error)
  {
    match FindByte(data, pos, ':')
    case None => Err(ScanPastEnd)
    case Some(c) =>
      match StoulIn(data, pos, c)
      case Err(x) => Err(x)
      case Ok(n) => if c + n + 1 >= TWO_64 then Err(LengthWraps) else Ok(c + n)
  }

  /** skipElement: the index just past the element starting at pos. A digit
      starts a string; 'i' is stepped over up to the first 'e'; 'l' and 'd'
      step over their elements up to the 'e' closing them; any other byte is
      a one-byte element. */
  function ScanEnd(data: Bytes, pos: nat): (r: Result<nat>)
    decreases Left(data, pos), 1
    ensures r.Ok? ==> pos < r.value
    ensures r.Err? ==> ScanFailure(r.error)
  {
    match ByteAt(data, pos)
    case Err(x) => Err(x)
    case Ok(b) =>
      if IsDigit(b) then ScanStringEnd(data, pos)
      else if b == 'i' then ScanInt(data, pos)
      else if b == 'l' then ScanList(data, pos)
      else if b == 'd' then ScanDict(data, pos)
      else Ok(pos + 1)
  }

  /** The digit case: one past the string's last byte. */
  function ScanStringEnd(data: Bytes, pos: nat): (r: Result<nat>)
    ensures r.Ok? ==> pos < r.value
    ensures r.Err? ==> ScanFailure(r.error)
  {
    match ScanString(data, pos)
    case Err(x) => Err(x)
    case Ok(last) => Ok(last + 1)
  }

  /** The 'i' case: one past the first 'e' from pos on. */
  function ScanInt(data: Bytes, pos: nat): (r: Result<nat>)
    ensures r.Ok? ==> pos < r.value
    ensures r.Err? ==> ScanFailure(r.error)
  {
    match FindByte(data, pos, 'e')
    case None => Err(ScanPastEnd)
    case Some(e) => Ok(e + 1)
  }

  /** The 'l' case: one past the 'e' that closes the elements after pos. */
  function ScanList(data: Bytes, pos: nat): (r: Result<nat>)
    requires pos < |data|
    decreases Left(data, pos), 0
    ensures r.Ok? ==> pos < r.value
    ensures r.Err? ==> ScanFailure(r.error)
  {
    match ScanListItems(data, pos + 1)
    case Err(x) => Err(x)
    case Ok(e) => Ok(e + 1)
  }

  /** The 'd' case: one past the 'e' that closes the entries after pos. */
  function ScanDict(data: Bytes, pos: nat): (r: Result<nat>)
    requires pos < |data|
    decreases Left(data, pos), 0
    ensures r.Ok? ==> pos < r.value
    ensures r.Err? ==> ScanFailure(r.error)
  {
    match ScanDictItems(data, pos + 1)
    case Err(x) => Err(x)
    case Ok(e) => Ok(e + 1)
  }

  /** The loop of the 'l' case: skip elements until the lookahead is 'e';
      the result is the index of that 'e'. */
  function ScanListItems(data: Bytes, pos: nat): (r: Result<nat>)
    decreases Left(data, pos), 2
    ensures r.Ok? ==> pos <= r.value < |data| && data[r.value] == 'e'
    ensures r.Err? ==> ScanFailure(r.error)
  {
    match ByteAt(data, pos)
    case Err(x) => Err(x)
    case Ok(b) =>
      if b == 'e' then Ok(pos)
      else
        match ScanEnd(data, pos)
        case Err(x) => Err(x)
        case Ok(next) => ScanListItems(data, next)
  }

  /** The loop of the 'd' case: skip a key with skipString, step once, skip
      a value, until the lookahead is 'e'; the result is the index of that 'e'. */
  function ScanDictItems(data: Bytes, pos: nat): (r: Result<nat>)
    decreases Left(data, pos), 2
    ensures r.Ok? ==> pos <= r.value < |data| && data[r.value] == 'e'
    ensures r.Err? ==> ScanFailure(r.error)
  {
    match ByteAt(data, pos)
    case Err(x) => Err(x)
    case Ok(b) =>
      if b == 'e' then Ok(pos)
      else
        match ScanString(data, pos)
        case Err(x) => Err(x)
        case Ok(last) =>
          match ScanEnd(data, last + 1)
          case Err(x) => Err(x)
          case Ok(next) => ScanDictItems(data, next)
  }

  /** The skipString lambda, with its loop. */
  method SkipString(data: Bytes, pos: nat) returns (r: Result<nat>)
    ensures r == ScanString(data, pos)
  {
    var len: Bytes := [];
    var p := pos;
    while true
      invariant pos <= p && (pos < p ==> p <= |data|)
      invariant p <= |data| ==> len == data[pos..p]
      invariant FindByte(data, pos, ':') == FindByte(data, p, ':')
      decreases Left(data, p)
    {
      var b := ByteAt(data, p);
      if b.Err? {
        return Err(ScanPastEnd);
      }
      if b.value == ':' {
        break;
      }
      len := len + [b.value];
      p := p + 1;
    }
    StoulSlice(data, pos, p);
    var n := Stoul(len);
    if n.Err? {
      return Err(n.error);
    }
    if p + n.value + 1 >= TWO_64 {
      return Err(LengthWraps);
    }
    r := Ok(p + n.value);
  }

  /** skipElement, with its recursion; the loops of its 'l' and 'd' cases
      are SkipListItems and SkipDictItems. */
  method SkipElement(data: Bytes, pos: nat) returns (r: Result<nat>)
    decreases Left(data, pos), 1
    ensures r == ScanEnd(data, pos)
  {
    var b := ByteAt(data, pos);
    if b.Err? {
      return Err(b.error);
    }
    var retpos := pos;
    if IsDigit(b.value) {
      var last := SkipString(data, retpos);
      if last.Err? {
        return Err(last.error);
      }
      retpos := last.value;
    } else if b.value == 'i' {
      while true
        invariant pos <= retpos <= |data|
        invariant FindByte(data, pos, 'e') == FindByte(data, retpos, 'e')
        decreases |data| - retpos
      {
        var c := ByteAt(data, retpos);
        if c.Err? {
          return Err(ScanPastEnd);
        }
        if c.value == 'e' {
          break;
        }
        retpos := retpos + 1;
      }
    } else if b.value == 'l' {
      var e := SkipListItems(data, retpos + 1);
      if e.Err? {
        return Err(e.error);
      }
      retpos := e.value;
    } else if b.value == 'd' {
      var e := SkipDictItems(data, retpos + 1);
      if e.Err? {
        return Err(e.error);
      }
      retpos := e.value;
    }
    r := Ok(retpos + 1);
  }

  /** The loop of the 'l' case: skip elements while the lookahead is not 'e'. */
  method SkipListItems(data: Bytes, pos: nat) returns (r: Result<nat>)
    decreases Left(data, pos), 2
    ensures r == ScanListItems(data, pos)
  {
    var retpos := pos;
    while true
      invariant pos <= retpos
      invariant ScanListItems(data, retpos) == ScanListItems(data, pos)
      decreases Left(data, retpos)
    {
      var c := ByteAt(data, retpos);
      if c.Err? {
        return Err(c.error);
      }
      if c.value == 'e' {
        break;
      }
      var next := SkipElement(data, retpos);
      if next.Err? {
        return Err(next.error);
      }
      retpos := next.value;
    }
    r := Ok(retpos);
  }

  /** The loop of the 'd' case: skip a key, step once, skip a value, while
      the lookahead is not 'e'. */
  method SkipDictItems(data: Bytes, pos: nat) returns (r: Result<nat>)
    decreases Left(data, pos), 2
    ensures r == ScanDictItems(data, pos)
  {
    var retpos := pos;
    while true
      invariant pos <= retpos
      invariant ScanDictItems(data, retpos) == ScanDictItems(data, pos)
      decreases Left(data, retpos)
    {
      var c := ByteAt(data, retpos);
      if c.Err? {
        return Err(c.error);
      }
      if c.value == 'e' {
        break;
      }
      var last := SkipString(data, retpos);
      if last.Err? {
        return Err(last.error);
      }
      retpos := last.value + 1;
      var next := SkipElement(data, retpos);
      if next.Err? {
        return Err(next.error);
      }
      retpos := next.value;
    }
    r := Ok(retpos);
  }

  /** On a string parseString accepts, skipString stops at its last byte
      (the data's length is a size_t, so the cursor arithmetic cannot wrap). */
  lemma {:induction false} ScanStringAgrees(data: Bytes, pos: nat, v: Value, end: nat)
    requires |data| < TWO_64 && DecodeString(data, pos) == Ok(Parsed(v, end))
    ensures ScanString(data, pos) == Ok(end - 1)
  {
    var q := DigitRunEnd(data, pos, |data|);
    DigitRunAllDigits(data, pos, |data|);
    FindByteIs(data, pos, ':', q);
  }

  /** The dispatch of skipElement on each lookahead. */
  lemma {:induction false} ScanDispatch(data: Bytes, pos: nat)
    requires pos < |data|
    ensures IsDigit(data[pos]) ==> ScanEnd(data, pos) == ScanStringEnd(data, pos)
    ensures data[pos] == 'i' ==> ScanEnd(data, pos) == ScanInt(data, pos)
    ensures data[pos] == 'l' ==> ScanEnd(data, pos) == ScanList(data, pos)
    ensures data[pos] == 'd' ==> ScanEnd(data, pos) == ScanDict(data, pos)
  {
  }

  /** Whatever parseValue accepts, skipElement steps over exactly: it ends
      where the decoder's cursor ends. */
  lemma {:induction false} ScanValueAgrees(data: Bytes, pos: nat, v: Value, end: nat)
    requires |data| < TWO_64 && DecodeValue(data, pos) == Ok(Parsed(v, end))
    ensures ScanEnd(data, pos) == Ok(end)
    decreases |data| - pos, 1
  {
    ValueDispatch(data, pos);
    ScanDispatch(data, pos);
    var b := data[pos];
    if IsDigit(b) {
      ScanStringEndAgrees(data, pos, v, end);
    } else if b == 'i' {
      ScanIntAgrees(data, pos, v, end);
    } else if b == 'l' {
      ScanListAgrees(data, pos + 1, [], v, end);
      ScanListCase(data, pos, end);
    } else if b == 'd' {
      ScanDictAgrees(data, pos + 1, map[], v, end);
      ScanDictCase(data, pos, end);
    }
  }

  lemma {:induction false} ScanStringEndAgrees(data: Bytes, pos: nat, v: Value, end: nat)
    requires |data| < TWO_64 && DecodeString(data, pos) == Ok(Parsed(v, end))
    ensures ScanStringEnd(data, pos) == Ok(end)
  {
    ScanStringAgrees(data, pos, v, end);
  }

  lemma {:induction false} ScanIntAgrees(data: Bytes, pos: nat, v: Value, end: nat)
    requires pos < |data| && data[pos] == 'i' && DecodeInt(data, pos) == Ok(Parsed(v, end))
    ensures ScanInt(data, pos) == Ok(end)
  {
    assert FindByte(data, pos, 'e') == FindByte(data, pos + 1, 'e');
  }

  lemma {:induction false} ScanListCase(data: Bytes, pos: nat, end: nat)
    requires pos < |data| && ScanListItems(data, pos + 1) == Ok(end - 1) && end > 0
    ensures ScanList(data, pos) == Ok(end)
  {
  }

  lemma {:induction false} ScanDictCase(data: Bytes, pos: nat, end: nat)
    requires pos < |data| && ScanDictItems(data, pos + 1) == Ok(end - 1) && end > 0
    ensures ScanDict(data, pos) == Ok(end)
  {
  }

  /** The loop of the 'l' case agrees with the loop of parseList: it stops on
      the 'e' just before where the decoder's cursor ends. */
  lemma {:induction false} ScanListAgrees(data: Bytes, pos: nat, acc: seq<Value>, v: Value, end: nat)
    requires |data| < TWO_64 && DecodeListItems(data, pos, acc) == Ok(Parsed(v, end))
    ensures ScanListItems(data, pos) == Ok(end - 1)
    decreases |data| - pos, 2
  {
    if data[pos] != 'e' {
      var p := DecodeValue(data, pos).value;
      ListItemsStep(data, pos, acc, p.value, p.end);
      ScanValueAgrees(data, pos, p.value, p.end);
      ScanListAgrees(data, p.end, acc + [p.value], v, end);
      ScanListStep(data, pos, p.end);
    }
  }

  /** One step of the 'l' loop: an element skipped. */
  lemma {:induction false} ScanListStep(data: Bytes, pos: nat, next: nat)
    requires pos < |data| && data[pos] != 'e' && ScanEnd(data, pos) == Ok(next)
    ensures ScanListItems(data, pos) == ScanListItems(data, next)
  {
  }

  /** The loop of the 'd' case agrees with the loop of parseDict. */
  lemma {:induction false} ScanDictAgrees(data: Bytes, pos: nat, acc: map<Bytes, Value>, v: Value, end: nat)
    requires |data| < TWO_64 && DecodeDictItems(data, pos, acc) == Ok(Parsed(v, end))
    ensures ScanDictItems(data, pos) == Ok(end - 1)
    decreases |data| - pos, 2
  {
    if data[pos] != 'e' {
      var k := DecodeString(data, pos).value;
      var p := DecodeValue(data, k.end).value;
      DictItemsStep(data, pos, acc, k.value.s, k.end, p.value, p.end);
      ScanStringAgrees(data, pos, k.value, k.end);
      ScanValueAgrees(data, k.end, p.value, p.end);
      ScanDictStep(data, pos, k.end - 1, p.end);
      ScanDictAgrees(data, p.end, acc[k.value.s := p.value], v, end);
    }
  }

  /** One step of the 'd' loop: a key and a value skipped. */
  lemma {:induction false} ScanDictStep(data: Bytes, pos: nat, last: nat, next: nat)
    requires pos < |data| && data[pos] != 'e'
    requires ScanString(data, pos) == Ok(last) && ScanEnd(data, last + 1) == Ok(next)
    ensures ScanDictItems(data, pos) == ScanDictItems(data, next)
  {
  }

  /** skipElement on "<digits>:": the index of the ':' plus the declared
      length plus one, "0:" included; the bytes of the string itself are not
      looked at. */
  lemma {:induction false} ScanOfLengthPrefix(data: Bytes, pos: nat, digits: Bytes)
    requires digits != [] && AllDigits(digits)
    requires pos + |digits| < |data| && data[pos..pos + |digits|] == digits && data[pos + |digits|] == ':'
    requires pos + |digits| + DecimalValue(digits) + 1 < TWO_64
    ensures ScanEnd(data, pos) == Ok(pos + |digits| + DecimalValue(digits) + 1)
  {
    var q := pos + |digits|;
    forall k | pos <= k < q
      ensures IsDigit(data[k]) && data[k] != ':'
    {
      assert data[k] == digits[k - pos];
    }
    FindByteIs(data, pos, ':', q);
    DigitsValueWindow(data, digits, pos, q, pos, q);
    StoulOfDigitRun(data, pos, q, q);
    assert data[pos] == digits[0];
    ScanDispatch(data, pos);
  }

  /** skipElement on 'i': one past the first 'e' after it, whatever lies in
      between. */
  lemma {:induction false} ScanOfInt(data: Bytes, pos: nat, e: nat)
    requires pos < e < |data| && data[pos] == 'i' && data[e] == 'e'
    requires forall k :: pos < k < e ==> data[k] != 'e'
    ensures ScanEnd(data, pos) == Ok(e + 1)
  {
    FindByteIs(data, pos, 'e', e);
    ScanDispatch(data, pos);
  }
}
