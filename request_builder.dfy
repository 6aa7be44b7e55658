/** RequestBuilder: the query string of a tracker announce request. It keeps
    a URL and a std::map from parameter names to values; build writes the
    URL, '?', and "key=value" for every parameter in ascending key order,
    separated by '&'. The std::map is modelled as the sequence of its
    entries in iteration order: keys strictly ascending, so each key occurs
    once. */
module QueryBuilder {
  import opened Bytes
  import opened Errors
  import opened CppLib

  /** std::string's operator<: lexicographic on unsigned bytes, a proper
      prefix before the longer string. */
  predicate Less(a: Bytes, b: Bytes)
    decreases |a|
  {
    if |a| == 0 then |b| > 0
    else if |b| == 0 then false
    else if a[0] != b[0] then a[0] < b[0]
    else Less(a[1..], b[1..])
  }

  lemma {:induction false} LessIrreflexive(a: Bytes)
    ensures !Less(a, a)
    decreases |a|
  {
    if |a| > 0 {
      LessIrreflexive(a[1..]);
    }
  }

  lemma {:induction false} LessTransitive(a: Bytes, b: Bytes, c: Bytes)
    requires Less(a, b) && Less(b, c)
    ensures Less(a, c)
    decreases |a|
  {
    if |a| > 0 && a[0] == b[0] && b[0] == c[0] {
      LessTransitive(a[1..], b[1..], c[1..]);
    }
  }

  /** Any two keys are equal or ordered one way, and never both ways. */
  lemma {:induction false} LessTotal(a: Bytes, b: Bytes)
    ensures a == b || Less(a, b) || Less(b, a)
    ensures !(Less(a, b) && Less(b, a))
    decreases |a|
  {
    if |a| > 0 && |b| > 0 && a[0] == b[0] {
      LessTotal(a[1..], b[1..]);
      if a[1..] == b[1..] {
        assert a == [a[0]] + a[1..] && b == [b[0]] + b[1..];
      }
    }
  }

  /** One entry of the map. */
  datatype Param = Param(key: Bytes, value: Bytes)

  /** The entries in strictly ascending key order, as a std::map holds them. */
  predicate Sorted(ps: seq<Param>) {
    forall i, j :: 0 <= i < j < |ps| ==> Less(ps[i].key, ps[j].key)
  }

  /** The mapping the entries stand for. */
  function ToMap(ps: seq<Param>): (m: map<Bytes, Bytes>)
    decreases |ps|
  {
    if ps == [] then map[] else ToMap(ps[1..])[ps[0].key := ps[0].value]
  }

  /** A key carried by no entry is not mapped. */
  lemma {:induction false} KeyAbsent(ps: seq<Param>, k: Bytes)
    requires forall i :: 0 <= i < |ps| ==> ps[i].key != k
    ensures k !in ToMap(ps)
    decreases |ps|
  {
    if ps != [] {
      KeyAbsent(ps[1..], k);
    }
  }

  /** A mapped key is carried by some entry. */
  lemma {:induction false} KeyIndex(ps: seq<Param>, k: Bytes) returns (j: nat)
    requires k in ToMap(ps)
    ensures j < |ps| && ps[j].key == k
    decreases |ps|
  {
    if ps[0].key == k {
      j := 0;
    } else {
      var j' := KeyIndex(ps[1..], k);
      j := j' + 1;
    }
  }

  /** Dropping the first (smallest) entry removes just its key. */
  lemma {:induction false} TailMap(ps: seq<Param>)
    requires Sorted(ps) && ps != []
    ensures ToMap(ps[1..]) == ToMap(ps) - {ps[0].key}
  {
    var t := ps[1..];
    forall i | 0 <= i < |t| ensures t[i].key != ps[0].key {
      assert Less(ps[0].key, ps[i + 1].key);
      LessIrreflexive(ps[0].key);
    }
    KeyAbsent(t, ps[0].key);
  }

  /** The first entry's key is mapped. */
  lemma {:induction false} HeadMapped(ps: seq<Param>)
    requires ps != []
    ensures ps[0].key in ToMap(ps)
  {
  }

  /** The map determines its sorted entries: the iteration order of build
      does not depend on the order in which parameters were added. */
  lemma {:induction false} SortedUnique(ps: seq<Param>, qs: seq<Param>)
    requires Sorted(ps) && Sorted(qs) && ToMap(ps) == ToMap(qs)
    ensures ps == qs
    decreases |ps|
  {
    if ps == [] {
      if qs != [] {
        HeadMapped(qs);
      }
    } else {
      assert ps[0].key in ToMap(ps);
      var j := KeyIndex(qs, ps[0].key);
      var i := KeyIndex(ps, qs[0].key);
      var k, k' := ps[0].key, qs[0].key;
      LessIrreflexive(k);
      LessTotal(k, k');
      assert i > 0 ==> Less(k, k');
      assert j > 0 ==> Less(k', k);
      assert k == k';
      TailMap(ps);
      TailMap(qs);
      assert Sorted(ps[1..]) && Sorted(qs[1..]);
      SortedUnique(ps[1..], qs[1..]);
      assert ps == [ps[0]] + ps[1..] && qs == [qs[0]] + qs[1..];
    }
  }

  /** The map of a concatenation: an entry of the front wins. */
  lemma {:induction false} ToMapAppend(a: seq<Param>, b: seq<Param>)
    ensures ToMap(a + b) == ToMap(b) + ToMap(a)
    decreases |a|
  {
    if a == [] {
      assert a + b == b;
    } else {
      assert (a + b)[1..] == a[1..] + b;
      ToMapAppend(a[1..], b);
    }
  }

  /** Inserting a new key between smaller and larger ones. */
  lemma {:induction false} InsertEntry(ps: seq<Param>, i: nat, p: Param)
    requires Sorted(ps) && i <= |ps|
    requires forall j :: 0 <= j < i ==> Less(ps[j].key, p.key)
    requires i < |ps| ==> Less(p.key, ps[i].key)
    ensures var qs := ps[..i] + [p] + ps[i..];
      Sorted(qs) && ToMap(qs) == ToMap(ps)[p.key := p.value]
  {
    var a, b := ps[..i], ps[i..];
    var qs := a + [p] + b;
    forall x, y | 0 <= x < y < |qs| ensures Less(qs[x].key, qs[y].key) {
      if y < i {
        assert qs[x] == ps[x] && qs[y] == ps[y];
      } else if y == i {
        assert qs[x] == ps[x];
      } else if x < i {
        assert qs[x] == ps[x] && qs[y] == ps[y - 1];
      } else if x == i {
        assert qs[y] == ps[y - 1];
        if y - 1 > i {
          LessTransitive(p.key, ps[i].key, ps[y - 1].key);
        }
      } else {
        assert qs[x] == ps[x - 1] && qs[y] == ps[y - 1];
      }
    }
    forall j | 0 <= j < |a| ensures a[j].key != p.key {
      LessIrreflexive(p.key);
    }
    KeyAbsent(a, p.key);
    assert a + b == ps;
    MapAfterSplice(a, p, b);
    ToMapAppend(a, b);
  }

  /** The map of entries spliced around p, when no earlier entry carries its key. */
  lemma {:induction false} MapAfterSplice(a: seq<Param>, p: Param, b: seq<Param>)
    requires p.key !in ToMap(a)
    ensures ToMap(a + [p] + b) == (ToMap(b) + ToMap(a))[p.key := p.value]
  {
    ToMapAppend(a + [p], b);
    ToMapAppend(a, [p]);
    assert ToMap([p]) == map[p.key := p.value];
    MapOverride(ToMap(a), ToMap(b), p.key, p.value);
  }

  lemma {:induction false} MapOverride(front: map<Bytes, Bytes>, back: map<Bytes, Bytes>, k: Bytes, v: Bytes)
    requires k !in front
    ensures back + (map[k := v] + front) == (back + front)[k := v]
  {
  }

  /** Overwriting the value of the key at i. */
  lemma {:induction false} ReplaceEntry(ps: seq<Param>, i: nat, p: Param)
    requires Sorted(ps) && i < |ps| && ps[i].key == p.key
    ensures var qs := ps[..i] + [p] + ps[i + 1..];
      Sorted(qs) && ToMap(qs) == ToMap(ps)[p.key := p.value]
  {
    var a, b := ps[..i], ps[i + 1..];
    var qs := a + [p] + b;
    forall x, y | 0 <= x < y < |qs| ensures Less(qs[x].key, qs[y].key) {
      assert qs[x].key == ps[x].key && qs[y].key == ps[y].key;
    }
    forall j | 0 <= j < |a| ensures a[j].key != p.key {
      assert Less(ps[j].key, ps[i].key);
      LessIrreflexive(p.key);
    }
    KeyAbsent(a, p.key);
    assert a + [ps[i]] + b == ps;
    MapAfterSplice(a, p, b);
    MapAfterSplice(a, ps[i], b);
  }

  /** "key=value". */
  function Pair(p: Param): Bytes {
    p.key + ['='] + p.value
  }

  /** What build's loop has appended after the entries ps: "key=value&" each. */
  function Terminated(ps: seq<Param>): Bytes {
    if ps == [] then [] else Terminated(ps[..|ps| - 1]) + Pair(ps[|ps| - 1]) + ['&']
  }

  /** The entries joined with '&' between them. */
  function Joined(ps: seq<Param>): Bytes
    requires ps != []
  {
    if |ps| == 1 then Pair(ps[0]) else Joined(ps[..|ps| - 1]) + ['&'] + Pair(ps[|ps| - 1])
  }

  /** The request: the URL alone without parameters, otherwise the URL, '?'
      and the joined parameters. */
  function Request(url: Bytes, ps: seq<Param>): Bytes {
    if ps == [] then url else url + ['?'] + Joined(ps)
  }

  /** Terminating every entry with '&' is joining them and adding one '&'. */
  lemma {:induction false} TerminatedJoined(ps: seq<Param>)
    requires ps != []
    ensures Terminated(ps) == Joined(ps) + ['&']
  {
    if |ps| > 1 {
      TerminatedJoined(ps[..|ps| - 1]);
    } else {
      assert ps[..0] == [];
    }
  }

  /** std::to_string of an integer: an optional '-' and the decimal digits. */
  function ToString(n: int): (r: Bytes)
    ensures |r| > 0
  {
    if n < 0 then ['-'] + DecimalString(-n) else DecimalString(n)
  }

  /** to_string and stoul undo each other on the unsigned 64-bit range, ... */
  lemma {:induction false} StoulToString(n: U64)
    ensures Stoul(ToString(n)) == Ok(n)
  {
    StoulOfDigits(ToString(n));
  }

  /** ... and a negative number comes back negated modulo 2^64. */
  lemma {:induction false} StoulToStringNegative(n: int)
    requires -TWO_64 < n < 0
    ensures Stoul(ToString(n)) == Ok(TWO_64 + n)
  {
    StoulNegative(DecimalString(-n));
  }

  class RequestBuilder {
    var url: Bytes
    var parameters: seq<Param>

    /** The entries are kept as the std::map keeps them. */
    predicate Valid()
      reads this
    {
      Sorted(parameters)
    }

    /** The parameters as a mapping from names to values. */
    function Parameters(): map<Bytes, Bytes>
      reads this
    {
      ToMap(parameters)
    }

    /** The defaulted constructor: empty URL, no parameters. */
    constructor ()
      ensures Valid() && url == [] && Parameters() == map[]
    {
      url := [];
      parameters := [];
    }

    /** addParameter for a string value: m_parameters[key] = value, which
        adds the key or replaces the value it had. */
    method AddParameter(key: Bytes, value: Bytes)
      requires Valid()
      modifies this
      ensures Valid() && url == old(url)
      ensures Parameters() == old(Parameters())[key := value]
    {
      var i := 0;
      while i < |parameters| && Less(parameters[i].key, key)
        invariant i <= |parameters|
        invariant forall j :: 0 <= j < i ==> Less(parameters[j].key, key)
      {
        i := i + 1;
      }
      var p := Param(key, value);
      if i < |parameters| && parameters[i].key == key {
        ReplaceEntry(parameters, i, p);
        parameters := parameters[..i] + [p] + parameters[i + 1..];
      } else {
        if i < |parameters| {
          LessTotal(key, parameters[i].key);
        }
        InsertEntry(parameters, i, p);
        parameters := parameters[..i] + [p] + parameters[i..];
      }
    }

    /** addParameter for a number: the value is its std::to_string. */
    method AddNumberParameter(key: Bytes, n: int)
      requires Valid()
      modifies this
      ensures Valid() && url == old(url)
      ensures Parameters() == old(Parameters())[key := ToString(n)]
    {
      AddParameter(key, ToString(n));
    }

    /** setUrl: replaces the URL and nothing else. */
    method SetUrl(u: Bytes)
      modifies this
      ensures url == u && parameters == old(parameters)
    {
      url := u;
    }

    /** build: the URL and '?', "key=value&" for each entry in order, and the
        last byte dropped again; the builder itself is left as it was. */
    method Build() returns (req: Bytes)
      ensures req == Request(url, parameters)
    {
      req := url + ['?'];
      for i := 0 to |parameters|
        invariant req == url + ['?'] + Terminated(parameters[..i])
      {
        var p := parameters[i];
        assert parameters[..i + 1][..i] == parameters[..i];
        req := req + p.key + ['='] + p.value + ['&'];
      }
      assert parameters[..|parameters|] == parameters;
      if parameters != [] {
        TerminatedJoined(parameters);
      }
      req := req[..|req| - 1];
    }
  }

  /** Two builders with the same URL and the same parameters build the same
      request, whatever order the parameters were added in. */
  lemma {:induction false} RequestDeterminedByMap(url: Bytes, ps: seq<Param>, qs: seq<Param>)
    requires Sorted(ps) && Sorted(qs) && ToMap(ps) == ToMap(qs)
    ensures Request(url, ps) == Request(url, qs)
  {
    SortedUnique(ps, qs);
  }
}
