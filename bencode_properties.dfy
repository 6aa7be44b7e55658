/** Properties of the decoder's grammar, stated about the functions of
    BencodeGrammar (and so, through the parse methods' contracts, about
    Parser): what each production yields on well-formed text, how each
    fails, and how lists and dictionaries are assembled from the values
    decoded one after another. */
module BencodeProperties {
  import opened Bytes
  import opened Errors
  import opened CppLib
  import opened BencodeValue
  import opened BencodeGrammar

  /** The text occurs in data at pos. */
  predicate WrittenAt(data: Bytes, pos: nat, text: Bytes) {
    pos + |text| <= |data| && data[pos..pos + |text|] == text
  }

  lemma {:induction false} WrittenAtSplit(data: Bytes, pos: nat, a: Bytes, b: Bytes)
    requires WrittenAt(data, pos, a + b)
    ensures WrittenAt(data, pos, a) && WrittenAt(data, pos + |a|, b)
  {
    assert data[pos..pos + |a|] == (a + b)[..|a|];
    assert data[pos + |a|..pos + |a| + |b|] == (a + b)[|a|..];
  }

  lemma {:induction false} WrittenAtIndex(data: Bytes, pos: nat, text: Bytes, i: nat)
    requires WrittenAt(data, pos, text) && i < |text|
    ensures data[pos + i] == text[i]
  {
    assert data[pos..pos + |text|][i] == data[pos + i];
  }

  /** Whatever parseValue accepts starts, inside the data, with a byte that
      selects a production: 'i', 'l', 'd' or a digit (never the 'e' that
      closes a list or a dictionary). */
  lemma {:induction false} ValueStart(data: Bytes, pos: nat)
    ensures DecodeValue(data, pos).Ok? ==>
      pos < |data| && (data[pos] == 'i' || data[pos] == 'l' || data[pos] == 'd' || IsDigit(data[pos]))
  {
  }

  /** parseValue at or past the end of the data fails with end-of-data, and
      on a byte that selects no production it fails naming that byte. */
  lemma {:induction false} ValueLookaheadErrors(data: Bytes, pos: nat)
    ensures pos >= |data| ==> DecodeValue(data, pos) == Err(EndOfData)
    ensures pos < |data| && data[pos] != 'i' && data[pos] != 'l' && data[pos] != 'd' && !IsDigit(data[pos]) ==>
      DecodeValue(data, pos) == Err(UnexpectedCharacter(data[pos]))
  {
  }

  /** The layout of "<digits><c>" in the data, c not a digit: the digit run
      at pos ends at c. */
  lemma {:induction false} DigitsLayout(data: Bytes, pos: nat, digits: Bytes, c: Byte)
    requires AllDigits(digits) && !IsDigit(c)
    requires WrittenAt(data, pos, digits + [c])
    ensures DigitRunEnd(data, pos, |data|) == pos + |digits| < |data|
    ensures data[pos..pos + |digits|] == digits
    ensures data[pos + |digits|] == c
  {
    var q := pos + |digits|;
    WrittenAtSplit(data, pos, digits, [c]);
    WrittenAtIndex(data, q, [c], 0);
    forall k | pos <= k < q
      ensures IsDigit(data[k])
    {
      WrittenAtIndex(data, pos, digits, k - pos);
    }
    DigitRunEndIs(data, pos, |data|, q);
  }

  /** parseString on a non-empty digit run followed by a byte c that is not
      a digit, in full: a length above 2^64 - 1 is out-of-range, a c other
      than ':' is the missing-colon error, a declared length running past the
      end of the data is the string-out-of-range error, and otherwise the
      result is that many bytes after ':', the cursor just past them. */
  lemma {:induction false} StringOfDigitsFollowedBy(data: Bytes, pos: nat, digits: Bytes, c: Byte)
    requires digits != [] && AllDigits(digits) && !IsDigit(c)
    requires WrittenAt(data, pos, digits + [c])
    ensures var q := pos + |digits|; var n := DecimalValue(digits);
      DecodeString(data, pos) ==
        if n >= TWO_64 then Err(OutOfRange)
        else if c != ':' then Err(ExpectedColon)
        else if q + 1 + n > |data| then Err(StringOutOfRange)
        else Ok(Parsed(Str(data[q + 1..q + 1 + n]), q + 1 + n))
  {
    DigitsLayout(data, pos, digits, c);
    StoulSlice(data, pos, pos + |digits|);
    StoulOfDigits(digits);
  }

  /** parseString where no digit starts the text (a dictionary key that is
      not a string, say): the empty length is std::invalid_argument. */
  lemma {:induction false} StringWithoutDigits(data: Bytes, pos: nat)
    requires pos < |data| && !IsDigit(data[pos])
    ensures DecodeString(data, pos) == Err(InvalidArgument)
  {
    assert DigitRunEnd(data, pos, |data|) == pos;
    assert StoulIn(data, pos, pos) == Err(InvalidArgument);
  }

  /** parseString on digits that run to the end of the data: peek fails. */
  lemma {:induction false} StringDigitsToEnd(data: Bytes, pos: nat)
    requires pos <= |data| && forall k :: pos <= k < |data| ==> IsDigit(data[k])
    ensures DecodeString(data, pos) == Err(EndOfData)
  {
    DigitRunEndIs(data, pos, |data|, |data|);
  }

  /** Whatever parseString accepts starts with a digit inside the data. */
  lemma {:induction false} StringStart(data: Bytes, pos: nat)
    ensures DecodeString(data, pos).Ok? ==> pos < |data| && IsDigit(data[pos])
  {
    if pos < |data| && !IsDigit(data[pos]) {
      StringWithoutDigits(data, pos);
    }
  }

  /** parseString on "<digits>:<s>" with the digits denoting |s|: exactly s,
      with the cursor advanced by the digit count plus 1 plus |s|. Leading
      zeros in the length are accepted. */
  lemma {:induction false} StringOfDigitsDecodes(data: Bytes, pos: nat, digits: Bytes, s: Bytes)
    requires digits != [] && AllDigits(digits) && DecimalValue(digits) == |s| < TWO_64
    requires WrittenAt(data, pos, digits + [':'] + s)
    ensures DecodeString(data, pos) == Ok(Parsed(Str(s), pos + |digits| + 1 + |s|))
  {
    var q := pos + |digits|;
    WrittenAtSplit(data, pos, digits + [':'], s);
    assert data[q + 1..q + 1 + |s|] == s;
    StringOfDigitsFollowedBy(data, pos, digits, ':');
  }

  /** parseInt with no 'e' after the 'i': the scan for 'e' runs into the
      end of the data. */
  lemma {:induction false} IntMissingEnd(data: Bytes, pos: nat)
    requires pos < |data| && forall k :: pos + 1 <= k < |data| ==> data[k] != 'e'
    ensures DecodeInt(data, pos) == Err(EndOfData)
  {
  }

  /** The layout of "i<body>e" in the data, no 'e' in body: the scan for the
      closing 'e' stops right after body. */
  lemma {:induction false} IntLayout(data: Bytes, pos: nat, body: Bytes)
    requires forall k :: 0 <= k < |body| ==> body[k] != 'e'
    requires WrittenAt(data, pos, ['i'] + body + ['e'])
    ensures pos < |data| && data[pos] == 'i'
    ensures FindByte(data, pos + 1, 'e') == Some(pos + 1 + |body|)
    ensures data[pos + 1..pos + 1 + |body|] == body
  {
    var e := pos + 1 + |body|;
    WrittenAtSplit(data, pos, ['i'] + body, ['e']);
    WrittenAtSplit(data, pos, ['i'], body);
    WrittenAtIndex(data, pos, ['i'], 0);
    WrittenAtIndex(data, e, ['e'], 0);
    forall k | pos + 1 <= k < e
      ensures data[k] != 'e'
    {
      WrittenAtIndex(data, pos + 1, body, k - pos - 1);
    }
    FindByteIs(data, pos + 1, 'e', e);
  }

  /** parseValue on "i<body>e", no 'e' in body: whatever stoull makes of
      body, with the cursor just past 'e'. */
  lemma {:induction false} IntOfBodyDecodes(data: Bytes, pos: nat, body: Bytes)
    requires forall k :: 0 <= k < |body| ==> body[k] != 'e'
    requires WrittenAt(data, pos, ['i'] + body + ['e'])
    ensures DecodeValue(data, pos) ==
      match Stoul(body)
      case Err(x) => Err(x)
      case Ok(n) => Ok(Parsed(Int(n), pos + |body| + 2))
  {
    IntLayout(data, pos, body);
    StoulSlice(data, pos + 1, pos + 1 + |body|);
    ValueDispatch(data, pos);
  }

  /** parseValue on "i<digits>e": the number the digits denote, with the
      cursor just past 'e'; out-of-range when it exceeds 2^64 - 1. Leading
      zeros are accepted. */
  lemma {:induction false} IntOfDigitsDecodes(data: Bytes, pos: nat, digits: Bytes)
    requires digits != [] && AllDigits(digits)
    requires WrittenAt(data, pos, ['i'] + digits + ['e'])
    ensures DecodeValue(data, pos) ==
      if DecimalValue(digits) < TWO_64 then Ok(Parsed(Int(DecimalValue(digits)), pos + |digits| + 2))
      else Err(OutOfRange)
  {
    StoulOfDigits(digits);
    IntOfBodyDecodes(data, pos, digits);
  }

  /** "ie": stoull of nothing is std::invalid_argument. */
  lemma {:induction false} IntEmptyFails(data: Bytes, pos: nat)
    requires WrittenAt(data, pos, ['i', 'e'])
    ensures DecodeValue(data, pos) == Err(InvalidArgument)
  {
    assert ['i', 'e'] == ['i'] + [] + ['e'];
    StoulOfDigits([]);
    IntOfBodyDecodes(data, pos, []);
  }

  /** "i-<digits>e": the unsigned 64-bit negation of the digits' value,
      2^64 - n for n > 0, because the value type holds no negative number. */
  lemma {:induction false} IntNegativeWraps(data: Bytes, pos: nat, digits: Bytes)
    requires digits != [] && AllDigits(digits) && DecimalValue(digits) < TWO_64
    requires WrittenAt(data, pos, ['i'] + (['-'] + digits) + ['e'])
    ensures DecodeValue(data, pos) == Ok(Parsed(Int(Negate(DecimalValue(digits))), pos + |digits| + 3))
  {
    StoulNegative(digits);
    IntOfBodyDecodes(data, pos, ['-'] + digits);
  }

  /** vs decode one after another starting at pos, the last ending at end. */
  predicate Consecutive(data: Bytes, pos: nat, vs: seq<Value>, end: nat)
    decreases |vs|
  {
    if vs == [] then pos == end
    else match DecodeValue(data, pos)
      case Err(_) => false
      case Ok(p) => p.value == vs[0] && Consecutive(data, p.end, vs[1..], end)
  }

  /** The loop of parseList on values decoding one after another up to an
      'e': they are appended in order, the cursor just past the 'e'. */
  lemma {:induction false} ListItemsOfConsecutive(data: Bytes, pos: nat, acc: seq<Value>, vs: seq<Value>, end: nat)
    requires Consecutive(data, pos, vs, end) && end < |data| && data[end] == 'e'
    ensures DecodeListItems(data, pos, acc) == Ok(Parsed(List(acc + vs), end + 1))
    decreases |vs|
  {
    if vs == [] {
      assert acc + vs == acc;
    } else {
      var p := DecodeValue(data, pos).value;
      ValueStart(data, pos);
      ListItemsOfConsecutive(data, p.end, acc + [vs[0]], vs[1..], end);
      assert acc + [vs[0]] + vs[1..] == acc + vs;
    }
  }

  /** Conversely, whatever the loop of parseList returns extends acc by values
      decoding one after another up to the 'e' just before its end. */
  lemma {:induction false} ConsecutiveOfListItems(data: Bytes, pos: nat, acc: seq<Value>, ws: seq<Value>, end: nat)
    requires DecodeListItems(data, pos, acc) == Ok(Parsed(List(ws), end))
    ensures |acc| <= |ws| && ws[..|acc|] == acc
    ensures pos < end <= |data| && data[end - 1] == 'e'
    ensures Consecutive(data, pos, ws[|acc|..], end - 1)
    decreases |data| - pos
  {
    if data[pos] == 'e' {
      assert ws[|acc|..] == [];
    } else {
      var p := DecodeValue(data, pos).value;
      ConsecutiveOfListItems(data, p.end, acc + [p.value], ws, end);
      var rest := ws[|acc|..];
      assert rest[0] == p.value && rest[1..] == ws[|acc| + 1..];
      assert ws[..|acc|] == (acc + [p.value])[..|acc|];
    }
  }

  /** parseValue on 'l' yields List(vs) ending at end + 1 exactly when vs
      decode one after another from just past the 'l' up to an 'e' at end. */
  lemma {:induction false} ListDecodes(data: Bytes, pos: nat, vs: seq<Value>, end: nat)
    requires pos < |data| && data[pos] == 'l'
    ensures DecodeValue(data, pos) == Ok(Parsed(List(vs), end + 1)) <==>
      end < |data| && data[end] == 'e' && Consecutive(data, pos + 1, vs, end)
  {
    ValueDispatch(data, pos);
    ListItemsDecode(data, pos + 1, vs, end);
  }

  lemma {:induction false} ListItemsDecode(data: Bytes, pos: nat, vs: seq<Value>, end: nat)
    ensures DecodeListItems(data, pos, []) == Ok(Parsed(List(vs), end + 1)) <==>
      end < |data| && data[end] == 'e' && Consecutive(data, pos, vs, end)
  {
    if DecodeListItems(data, pos, []) == Ok(Parsed(List(vs), end + 1)) {
      ConsecutiveOfListItems(data, pos, [], vs, end + 1);
      assert vs[0..] == vs;
    }
    if end < |data| && data[end] == 'e' && Consecutive(data, pos, vs, end) {
      ListItemsOfConsecutive(data, pos, [], vs, end);
      assert [] + vs == vs;
    }
  }

  /** One dictionary entry as it appears in the text: a key, then a value. */
  datatype Entry = Entry(key: Bytes, value: Value)

  /** es decode one after another starting at pos, each key through
      parseString and each value through parseValue, the last ending at end. */
  predicate ConsecutiveEntries(data: Bytes, pos: nat, es: seq<Entry>, end: nat)
    decreases |es|
  {
    if es == [] then pos == end
    else match DecodeString(data, pos)
      case Err(_) => false
      case Ok(k) =>
        k.value == Str(es[0].key) &&
        match DecodeValue(data, k.end)
        case Err(_) => false
        case Ok(p) => p.value == es[0].value && ConsecutiveEntries(data, p.end, es[1..], end)
  }

  /** The entries stored into acc in text order: dict[key] = val, so a key
      written again replaces the value stored before. */
  function Stored(acc: map<Bytes, Value>, es: seq<Entry>): map<Bytes, Value>
    decreases |es|
  {
    if es == [] then acc else Stored(acc[es[0].key := es[0].value], es[1..])
  }

  /** The keys written in es. */
  function KeysOf(es: seq<Entry>): set<Bytes>
    decreases |es|
  {
    if es == [] then {} else {es[0].key} + KeysOf(es[1..])
  }

  /** Storing keeps the keys already there and adds exactly those written. */
  lemma {:induction false} StoredKeys(acc: map<Bytes, Value>, es: seq<Entry>)
    ensures Stored(acc, es).Keys == acc.Keys + KeysOf(es)
    decreases |es|
  {
    if es != [] {
      StoredKeys(acc[es[0].key := es[0].value], es[1..]);
    }
  }

  /** A key that no entry writes keeps the value it had. */
  lemma {:induction false} StoredUntouched(acc: map<Bytes, Value>, es: seq<Entry>, k: Bytes)
    requires forall j :: 0 <= j < |es| ==> es[j].key != k
    ensures k in Stored(acc, es) <==> k in acc
    ensures k in acc ==> Stored(acc, es)[k] == acc[k]
    decreases |es|
  {
    if es != [] {
      assert es[0].key != k;
      forall j | 0 <= j < |es[1..]|
        ensures es[1..][j].key != k
      {
        assert es[1..][j] == es[j + 1];
      }
      StoredUntouched(acc[es[0].key := es[0].value], es[1..], k);
    }
  }

  /** The last entry written for a key decides its value. */
  lemma {:induction false} StoredLastWins(acc: map<Bytes, Value>, es: seq<Entry>, i: nat)
    requires i < |es|
    requires forall j :: i < j < |es| ==> es[j].key != es[i].key
    ensures es[i].key in Stored(acc, es) && Stored(acc, es)[es[i].key] == es[i].value
    decreases |es|
  {
    var next := acc[es[0].key := es[0].value];
    if i == 0 {
      forall j | 0 <= j < |es[1..]|
        ensures es[1..][j].key != es[0].key
      {
        assert es[1..][j] == es[j + 1];
      }
      StoredUntouched(next, es[1..], es[0].key);
    } else {
      forall j | i - 1 < j < |es[1..]|
        ensures es[1..][j].key != es[1..][i - 1].key
      {
        assert es[1..][j] == es[j + 1];
      }
      StoredLastWins(next, es[1..], i - 1);
    }
  }

  /** The loop of parseDict on entries decoding one after another up to an
      'e': each is stored in order, the cursor just past the 'e'. */
  lemma {:induction false} DictItemsOfConsecutive(data: Bytes, pos: nat, acc: map<Bytes, Value>, es: seq<Entry>, end: nat)
    requires ConsecutiveEntries(data, pos, es, end) && end < |data| && data[end] == 'e'
    ensures DecodeDictItems(data, pos, acc) == Ok(Parsed(Dict(Stored(acc, es)), end + 1))
    decreases |es|
  {
    if es != [] {
      var k := DecodeString(data, pos).value;
      var p := DecodeValue(data, k.end).value;
      StringStart(data, pos);
      DictItemsStep(data, pos, acc, es[0].key, k.end, es[0].value, p.end);
      DictItemsOfConsecutive(data, p.end, acc[es[0].key := es[0].value], es[1..], end);
    }
  }

  /** Conversely, whatever the loop of parseDict returns stores, into acc,
      entries decoding one after another up to the 'e' just before its end. */
  lemma {:induction false} ConsecutiveOfDictItems(data: Bytes, pos: nat, acc: map<Bytes, Value>, m: map<Bytes, Value>, end: nat)
    returns (es: seq<Entry>)
    requires DecodeDictItems(data, pos, acc) == Ok(Parsed(Dict(m), end))
    ensures pos < end <= |data| && data[end - 1] == 'e'
    ensures ConsecutiveEntries(data, pos, es, end - 1) && Stored(acc, es) == m
    decreases |data| - pos
  {
    if data[pos] == 'e' {
      es := [];
    } else {
      var k := DecodeString(data, pos).value;
      var p := DecodeValue(data, k.end).value;
      var first := Entry(k.value.s, p.value);
      var rest := ConsecutiveOfDictItems(data, p.end, acc[first.key := first.value], m, end);
      es := [first] + rest;
      assert es[0] == first && es[1..] == rest;
    }
  }

  /** A dictionary entry that starts neither with a digit nor with the
      closing 'e' fails as stoul of an empty length: keys are only ever
      parsed as strings. */
  lemma {:induction false} DictKeyNotString(data: Bytes, pos: nat, acc: map<Bytes, Value>)
    requires pos < |data| && data[pos] != 'e' && !IsDigit(data[pos])
    ensures DecodeDictItems(data, pos, acc) == Err(InvalidArgument)
  {
    StringWithoutDigits(data, pos);
  }

  /** parseValue on 'd' followed by entries decoding one after another up to
      an 'e': the dictionary storing them in order. */
  lemma {:induction false} DictOfConsecutive(data: Bytes, pos: nat, es: seq<Entry>, end: nat)
    requires pos < |data| && data[pos] == 'd'
    requires ConsecutiveEntries(data, pos + 1, es, end) && end < |data| && data[end] == 'e'
    ensures DecodeValue(data, pos) == Ok(Parsed(Dict(Stored(map[], es)), end + 1))
  {
    ValueDispatch(data, pos);
    DictItemsOfConsecutive(data, pos + 1, map[], es, end);
  }

  /** Conversely, a dictionary parseValue returns is the entries written
      between its 'd' and its 'e', stored in order. */
  lemma {:induction false} ConsecutiveOfDict(data: Bytes, pos: nat, m: map<Bytes, Value>, end: nat) returns (es: seq<Entry>)
    requires pos < |data| && data[pos] == 'd'
    requires DecodeValue(data, pos) == Ok(Parsed(Dict(m), end + 1))
    ensures end < |data| && data[end] == 'e'
    ensures ConsecutiveEntries(data, pos + 1, es, end) && Stored(map[], es) == m
  {
    assert DecodeValue(data, pos) == DecodeDictItems(data, pos + 1, map[]);
    es := ConsecutiveOfDictItems(data, pos + 1, map[], m, end + 1);
  }
}
