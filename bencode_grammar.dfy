/** The decoder's grammar as functions of the data and a cursor position:
    what Parser (in BencodeParser) computes, one function per parse method,
    each loop of the source written as a recursion over the cursor.
    Decoding never reads a byte it has not bounds-checked, and a success
    leaves the cursor strictly after the start and at most at the end. */
module BencodeGrammar {
  import opened Bytes
  import opened Errors
  import opened CppLib
  import opened BencodeValue

  /** A decoded value and the cursor just past its encoding. */
  datatype Parsed = Parsed(value: Value, end: nat)

  /** The first index at or after from that holds b: where a loop stepping
      the cursor until it sees b stops. */
  function FindByte(data: Bytes, from: nat, b: Byte): (r: Option<nat>)
    decreases |data| - from
    ensures r.Some? ==> from <= r.value < |data| && data[r.value] == b
  {
    if from >= |data| then None
    else if data[from] == b then Some(from)
    else FindByte(data, from + 1, b)
  }

  /** FindByte returns i when i holds b and nothing between from and i does. */
  lemma {:induction false} FindByteIs(data: Bytes, from: nat, b: Byte, i: nat)
    requires from <= i < |data| && data[i] == b
    requires forall k :: from <= k < i ==> data[k] != b
    ensures FindByte(data, from, b) == Some(i)
    decreases i - from
  {
    if from < i {
      FindByteIs(data, from + 1, b, i);
    }
  }

  /** Nothing before the index FindByte returns holds b; when it returns no
      index, nothing from there on does. */
  lemma {:induction false} FindByteFirst(data: Bytes, from: nat, b: Byte)
    ensures FindByte(data, from, b).Some? ==>
      forall k :: from <= k < FindByte(data, from, b).value ==> data[k] != b
    ensures FindByte(data, from, b).None? ==> forall k :: from <= k < |data| ==> data[k] != b
    decreases |data| - from
  {
    if from < |data| && data[from] != b {
      FindByteFirst(data, from + 1, b);
    }
  }

  /** parseValue: dispatch on the lookahead byte. */
  function DecodeValue(data: Bytes, pos: nat): (r: Result<Parsed>)
    decreases |data| - pos, 1
    ensures r.Ok? ==> pos < r.value.end <= |data|
  {
    if pos >= |data| then Err(EndOfData)
    else
      var c := data[pos];
      if c == 'i' then DecodeInt(data, pos)
      else if c == 'l' then DecodeList(data, pos)
      else if c == 'd' then DecodeDict(data, pos)
      else if IsDigit(c) then DecodeString(data, pos)
      else Err(UnexpectedCharacter(c))
  }

  /** parseInt: consume one byte (the 'i'), step to the first 'e', convert
      the bytes in between with stoull, consume the 'e'. */
  function DecodeInt(data: Bytes, pos: nat): (r: Result<Parsed>)
    ensures r.Ok? ==> r.value.value.Int? && pos < r.value.end <= |data|
  {
    if pos >= |data| then Err(EndOfData)
    else match FindByte(data, pos + 1, 'e')
      case None => Err(EndOfData)
      case Some(e) =>
        match StoulIn(data, pos + 1, e)
        case Err(x) => Err(x)
        case Ok(n) => Ok(Parsed(Int(n), e + 1))
  }

  /** parseString: step over the digits, convert them with stoul, demand
      ':', demand that the declared length fits, take that many bytes. */
  function DecodeString(data: Bytes, pos: nat): (r: Result<Parsed>)
    ensures r.Ok? ==> r.value.value.Str? && pos < r.value.end <= |data|
  {
    var q := DigitRunEnd(data, pos, |data|);
    if q >= |data| then Err(EndOfData)
    else match StoulIn(data, pos, q)
      case Err(x) => Err(x)
      case Ok(len) =>
        if data[q] != ':' then Err(ExpectedColon)
        else if q + 1 + len > |data| then Err(StringOutOfRange)
        else Ok(Parsed(Str(data[q + 1..q + 1 + len]), q + 1 + len))
  }

  /** parseList: consume one byte (the 'l'), then the elements. */
  function DecodeList(data: Bytes, pos: nat): (r: Result<Parsed>)
    decreases |data| - pos, 0
    ensures r.Ok? ==> r.value.value.List? && pos < r.value.end <= |data|
  {
    if pos >= |data| then Err(EndOfData) else DecodeListItems(data, pos + 1, [])
  }

  /** The loop of parseList: elements decoded so far are acc; stop at 'e'. */
  function DecodeListItems(data: Bytes, pos: nat, acc: seq<Value>): (r: Result<Parsed>)
    decreases |data| - pos, 2
    ensures r.Ok? ==> r.value.value.List? && pos < r.value.end <= |data|
  {
    if pos >= |data| then Err(EndOfData)
    else if data[pos] == 'e' then Ok(Parsed(List(acc), pos + 1))
    else match DecodeValue(data, pos)
      case Err(x) => Err(x)
      case Ok(Parsed(v, next)) => DecodeListItems(data, next, acc + [v])
  }

  /** parseDict: consume one byte (the 'd'), then the entries. */
  function DecodeDict(data: Bytes, pos: nat): (r: Result<Parsed>)
    decreases |data| - pos, 0
    ensures r.Ok? ==> r.value.value.Dict? && pos < r.value.end <= |data|
  {
    if pos >= |data| then Err(EndOfData) else DecodeDictItems(data, pos + 1, map[])
  }

  /** The loop of parseDict: entries decoded so far are acc; every key goes
      through parseString, and a repeated key overwrites the earlier value. */
  function DecodeDictItems(data: Bytes, pos: nat, acc: map<Bytes, Value>): (r: Result<Parsed>)
    decreases |data| - pos, 2
    ensures r.Ok? ==> r.value.value.Dict? && pos < r.value.end <= |data|
  {
    if pos >= |data| then Err(EndOfData)
    else if data[pos] == 'e' then Ok(Parsed(Dict(acc), pos + 1))
    else match DecodeString(data, pos)
      case Err(x) => Err(x)
      case Ok(Parsed(key, afterKey)) =>
        match DecodeValue(data, afterKey)
        case Err(x) => Err(x)
        case Ok(Parsed(v, next)) => DecodeDictItems(data, next, acc[key.s := v])
  }

  /** One step of parseList's loop: an element that decodes is appended. */
  lemma {:induction false} ListItemsStep(data: Bytes, pos: nat, acc: seq<Value>, v: Value, next: nat)
    requires pos < |data| && data[pos] != 'e'
    requires DecodeValue(data, pos) == Ok(Parsed(v, next))
    ensures DecodeListItems(data, pos, acc) == DecodeListItems(data, next, acc + [v])
  {
  }

  /** One step of parseDict's loop: a key and a value that decode are stored. */
  lemma {:induction false} DictItemsStep(data: Bytes, pos: nat, acc: map<Bytes, Value>, key: Bytes, afterKey: nat, v: Value, next: nat)
    requires pos < |data| && data[pos] != 'e'
    requires DecodeString(data, pos) == Ok(Parsed(Str(key), afterKey))
    requires DecodeValue(data, afterKey) == Ok(Parsed(v, next))
    ensures DecodeDictItems(data, pos, acc) == DecodeDictItems(data, next, acc[key := v])
  {
  }

  /** The dispatch of parseValue on each lookahead. */
  lemma {:induction false} ValueDispatch(data: Bytes, pos: nat)
    requires pos < |data|
    ensures data[pos] == 'i' ==> DecodeValue(data, pos) == DecodeInt(data, pos)
    ensures data[pos] == 'l' ==> DecodeValue(data, pos) == DecodeListItems(data, pos + 1, [])
    ensures data[pos] == 'd' ==> DecodeValue(data, pos) == DecodeDictItems(data, pos + 1, map[])
    ensures IsDigit(data[pos]) ==> DecodeValue(data, pos) == DecodeString(data, pos)
  {
  }

  /** Parser::parse on fresh data: the first complete value. */
  function Decode(data: Bytes): Result<Value> {
    match DecodeValue(data, 0)
    case Err(x) => Err(x)
    case Ok(p) => Ok(p.value)
  }
}
