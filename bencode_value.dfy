/** The decoded bencode value: one of the four productions of the grammar. */
module BencodeValue {
  import opened Bytes
  import opened Errors

  /** An unsigned 64-bit integer, a byte string, an ordered list, or a
      dictionary from byte-string keys to values. The dictionary is a
      std::map in the source; nothing in the core observes its order, so it
      is a map here. */
  datatype Value =
    | Int(n: U64)
    | Str(s: Bytes)
    | List(items: seq<Value>)
    | Dict(entries: map<Bytes, Value>)
  {
    predicate IsInt() { Int? }
    predicate IsStr() { Str? }
    predicate IsList() { List? }
    predicate IsDict() { Dict? }

    /** asInt: the integer when the value holds one, std::bad_variant_access otherwise. */
    function AsInt(): (r: Result<U64>)
      ensures r.Ok? <==> IsInt()
      ensures r.Ok? ==> this == Int(r.value)
      ensures r.Err? ==> r.error == TypeMismatch
    {
      if Int? then Ok(n) else Err(TypeMismatch)
    }

    /** asStr: the bytes when the value holds a string. */
    function AsStr(): (r: Result<Bytes>)
      ensures r.Ok? <==> IsStr()
      ensures r.Ok? ==> this == Str(r.value)
      ensures r.Err? ==> r.error == TypeMismatch
    {
      if Str? then Ok(s) else Err(TypeMismatch)
    }

    /** asList: the elements when the value holds a list. */
    function AsList(): (r: Result<seq<Value>>)
      ensures r.Ok? <==> IsList()
      ensures r.Ok? ==> this == List(r.value)
      ensures r.Err? ==> r.error == TypeMismatch
    {
      if List? then Ok(items) else Err(TypeMismatch)
    }

    /** asDict: the entries when the value holds a dictionary. */
    function AsDict(): (r: Result<map<Bytes, Value>>)
      ensures r.Ok? <==> IsDict()
      ensures r.Ok? ==> this == Dict(r.value)
      ensures r.Err? ==> r.error == TypeMismatch
    {
      if Dict? then Ok(entries) else Err(TypeMismatch)
    }
  }

  /** Exactly one of the four tag tests holds of any value. */
  lemma {:induction false} ExactlyOneTag(v: Value)
    ensures v.IsInt() <==> !(v.IsStr() || v.IsList() || v.IsDict())
    ensures v.IsStr() <==> !(v.IsInt() || v.IsList() || v.IsDict())
    ensures v.IsList() <==> !(v.IsInt() || v.IsStr() || v.IsDict())
    ensures v.IsDict() <==> !(v.IsInt() || v.IsStr() || v.IsList())
  {
  }
}
