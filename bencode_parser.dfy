/** The recursive-descent decoder: a cursor over fixed data, advanced by
    Get, and one method per production. Each method is proved to compute
    what the matching function of BencodeGrammar describes, from the cursor
    it starts at: the same value on success, the same error on failure, and
    the cursor left just past the production. */
module BencodeParser {
  import opened Bytes
  import opened Errors
  import opened CppLib
  import opened BencodeValue
  import opened BencodeGrammar

  /** A method's result paired with where it left the cursor. */
  function Outcome(r: Result<Value>, end: nat): Result<Parsed> {
    if r.Ok? then Ok(Parsed(r.value, end)) else Err(r.error)
  }

  class Parser {
    const data: Bytes
    var pos: nat

    constructor (data: Bytes)
      ensures this.data == data && pos == 0
    {
      this.data := data;
      pos := 0;
    }

    /** peek: the byte under the cursor; at or past the end it fails. */
    function Peek(): (r: Result<Byte>)
      reads this
      ensures r.Ok? <==> pos < |data|
      ensures r.Ok? ==> r.value == data[pos]
      ensures r.Err? ==> r.error == EndOfData
    {
      if pos >= |data| then Err(EndOfData) else Ok(data[pos])
    }

    /** get: peek, then advance the cursor by one. */
    method Get() returns (r: Result<Byte>)
      modifies this
      ensures r == old(Peek())
      ensures pos == if r.Ok? then old(pos) + 1 else old(pos)
    {
      r := Peek();
      if r.Ok? {
        pos := pos + 1;
      }
    }

    /** parse: decode one value from the cursor; trailing bytes are not looked at. */
    method Parse() returns (r: Result<Value>)
      modifies this
      ensures Outcome(r, pos) == DecodeValue(data, old(pos))
    {
      r := ParseValue();
    }

    method ParseValue() returns (r: Result<Value>)
      modifies this
      decreases |data| - pos, 1
      ensures Outcome(r, pos) == DecodeValue(data, old(pos))
    {
      var c :- Peek();
      if c == 'i' {
        r := ParseInt();
      } else if c == 'l' {
        r := ParseList();
      } else if c == 'd' {
        r := ParseDict();
      } else if IsDigit(c) {
        r := ParseString();
      } else {
        r := Err(UnexpectedCharacter(c));
      }
    }

    method ParseInt() returns (r: Result<Value>)
      modifies this
      ensures Outcome(r, pos) == DecodeInt(data, old(pos))
    {
      var c :- Get();  // 'i'
      var start := pos;
      while Peek() != Ok('e')
        invariant start == old(pos) + 1 && start <= pos <= |data|
        invariant FindByte(data, start, 'e') == FindByte(data, pos, 'e')
        decreases |data| - pos
      {
        c :- Get();
      }
      var numStr := data[start..pos];
      StoulSlice(data, start, pos);
      var closing := Get();  // the 'e' the loop stopped at
      var n :- Stoul(numStr);
      r := Ok(Int(n));
    }

    /** The loop of parseString: get while the lookahead is a digit. Running
        out of data before a non-digit is the end-of-data error of peek. */
    method SkipDigits() returns (r: Result<nat>)
      modifies this
      ensures r.Ok? <==> DigitRunEnd(data, old(pos), |data|) < |data|
      ensures r.Ok? ==> r.value == pos == DigitRunEnd(data, old(pos), |data|)
      ensures r.Err? ==> r.error == EndOfData
    {
      while true
        invariant old(pos) <= pos
        invariant old(pos) < pos ==> pos <= |data|
        invariant DigitRunEnd(data, old(pos), |data|) == DigitRunEnd(data, pos, |data|)
        decreases |data| - pos
      {
        var c :- Peek();
        if !IsDigit(c) {
          return Ok(pos);
        }
        var digit := Get();
      }
    }

    method ParseString() returns (r: Result<Value>)
      modifies this
      ensures Outcome(r, pos) == DecodeString(data, old(pos))
    {
      var start := pos;
      var q :- SkipDigits();
      var lenStr := data[start..q];
      StoulSlice(data, start, q);
      var len :- Stoul(lenStr);
      var colon := Get();  // inside the data: SkipDigits stopped on a byte
      if colon != Ok(':') {
        return Err(ExpectedColon);
      }
      if pos + len > |data| {
        return Err(StringOutOfRange);
      }
      var s := data[pos..pos + len];
      pos := pos + len;
      r := Ok(Str(s));
    }

    method ParseList() returns (r: Result<Value>)
      modifies this
      decreases |data| - pos, 0
      ensures Outcome(r, pos) == DecodeList(data, old(pos))
    {
      var c :- Get();  // 'l'
      var list: seq<Value> := [];
      while Peek() != Ok('e')
        invariant old(pos) < pos
        invariant DecodeListItems(data, pos, list) == DecodeListItems(data, old(pos) + 1, [])
        decreases |data| - pos
      {
        var v :- ParseValue();
        list := list + [v];
      }
      var closing := Get();  // the 'e' the loop stopped at
      r := Ok(List(list));
    }

    method ParseDict() returns (r: Result<Value>)
      modifies this
      decreases |data| - pos, 0
      ensures Outcome(r, pos) == DecodeDict(data, old(pos))
    {
      var c :- Get();  // 'd'
      var dict: map<Bytes, Value> := map[];
      while Peek() != Ok('e')
        invariant old(pos) < pos
        invariant DecodeDictItems(data, pos, dict) == DecodeDictItems(data, old(pos) + 1, map[])
        decreases |data| - pos
      {
        var key :- ParseString();
        // parseString only ever builds a string, so the source's
        // "Dictionary key must be string" branch cannot be taken.
        assert key.IsStr();
        var val :- ParseValue();
        dict := dict[key.s := val];
      }
      var closing := Get();  // the 'e' the loop stopped at
      r := Ok(Dict(dict));
    }
  }
}
