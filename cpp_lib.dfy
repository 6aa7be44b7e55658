/** The C++ standard-library calls the core makes on byte strings:
    std::stoul / std::stoull (base 10) and std::string::find. */
module CppLib {
  import opened Bytes
  import opened Errors

  /** std::stoul and std::stoull in base 10 (unsigned long and unsigned long
      long are both 64 bits wide on the targets of the source, so both calls
      behave alike): leading white space is skipped, one '+' or '-' is
      accepted, the longest digit run is converted and whatever follows it is
      ignored. No digit at all is std::invalid_argument, a magnitude above
      2^64 - 1 is std::out_of_range, and a '-' negates in unsigned arithmetic. */
  function Stoul(s: Bytes): (r: Result<U64>)
    ensures r.Err? ==> r.error == InvalidArgument || r.error == OutOfRange
  {
    StoulIn(s, 0, |s|)
  }

  /** Stoul of s[a..b], reading the bytes where they are. */
  function StoulIn(s: Bytes, a: nat, b: nat): (r: Result<U64>)
    requires a <= b <= |s|
    ensures r.Err? ==> r.error == InvalidArgument || r.error == OutOfRange
  {
    var i := SpaceRunEnd(s, a, b);
    var signed := i < b && (s[i] == '-' || s[i] == '+');
    var d := if signed then i + 1 else i;
    var m := Magnitude(s, d, DigitRunEnd(s, d, b));
    if signed && s[i] == '-' then Negated(m) else m
  }

  /** The first index at or after from past the run of white space there,
      looking no further than hi. */
  function SpaceRunEnd(s: Bytes, from: nat, hi: nat): (r: nat)
    requires hi <= |s|
    decreases hi - from
    ensures from <= r && (from <= hi ==> r <= hi)
  {
    if from < hi && IsSpace(s[from]) then SpaceRunEnd(s, from + 1, hi) else from
  }

  /** The value of the digit run s[a..b], or why there is none. */
  function Magnitude(s: Bytes, a: nat, b: nat): (r: Result<U64>)
    requires a <= b <= |s|
    ensures r.Err? ==> r.error == InvalidArgument || r.error == OutOfRange
  {
    if a == b then Err(InvalidArgument)
    else if DigitsValue(s, a, b) >= TWO_64 then Err(OutOfRange)
    else Ok(DigitsValue(s, a, b))
  }

  /** A '-' sign applied to a converted magnitude. */
  function Negated(m: Result<U64>): (r: Result<U64>)
    ensures r.Err? <==> m.Err?
    ensures r.Err? ==> r == m
  {
    if m.Ok? then Ok(Negate(m.value)) else m
  }

  /** Unsigned negation: 2^64 - n, wrapping 0 to 0. */
  function Negate(n: U64): (r: U64)
    ensures (n + r) % TWO_64 == 0
  {
    if n == 0 then 0 else TWO_64 - n
  }

  /** Converting a copy of s[a..b], as the source does once it has
      collected the bytes into a std::string, is converting them in place. */
  lemma {:induction false} StoulSlice(s: Bytes, a: nat, b: nat)
    requires a <= b <= |s|
    ensures Stoul(s[a..b]) == StoulIn(s, a, b)
  {
    var t := s[a..b];
    SpaceRunShift(s, t, a, b, a);
    var i := SpaceRunEnd(s, a, b);
    if i < b {
      assert t[i - a] == s[i];
    }
    var d := if i < b && (s[i] == '-' || s[i] == '+') then i + 1 else i;
    DigitRunShift(s, t, a, b, d);
    var e := DigitRunEnd(s, d, b);
    DigitsValueWindow(s, t, a, b, d, e);
    assert Magnitude(t, d - a, e - a) == Magnitude(s, d, e);
  }

  lemma {:induction false} SpaceRunShift(s: Bytes, t: Bytes, a: nat, b: nat, i: nat)
    requires a <= i <= b <= |s| && t == s[a..b]
    ensures SpaceRunEnd(t, i - a, |t|) + a == SpaceRunEnd(s, i, b)
    decreases b - i
  {
    if i < b {
      assert t[i - a] == s[i];
      SpaceRunShift(s, t, a, b, i + 1);
    }
  }

  lemma {:induction false} DigitRunShift(s: Bytes, t: Bytes, a: nat, b: nat, i: nat)
    requires a <= i <= b <= |s| && t == s[a..b]
    ensures DigitRunEnd(t, i - a, |t|) + a == DigitRunEnd(s, i, b)
    decreases b - i
  {
    if i < b {
      assert t[i - a] == s[i];
      DigitRunShift(s, t, a, b, i + 1);
    }
  }

  lemma {:induction false} DigitsValueWindow(s: Bytes, t: Bytes, a: nat, b: nat, x: nat, y: nat)
    requires a <= x <= y <= b <= |s| && t == s[a..b]
    ensures DigitsValue(t, x - a, y - a) == DigitsValue(s, x, y)
    decreases y - x
  {
    if x < y {
      assert t[y - 1 - a] == s[y - 1];
      DigitsValueWindow(s, t, a, b, x, y - 1);
    }
  }

  /** A run of at least one digit from a, ending at n before a byte that is
      not a digit (or at b): stoull converts those digits and ignores what
      follows, so "12x" is 12. */
  lemma {:induction false} StoulOfDigitRun(s: Bytes, a: nat, n: nat, b: nat)
    requires a < n <= b <= |s| && forall k :: a <= k < n ==> IsDigit(s[k])
    requires n < b ==> !IsDigit(s[n])
    ensures StoulIn(s, a, b) == if DigitsValue(s, a, n) >= TWO_64 then Err(OutOfRange) else Ok(DigitsValue(s, a, n))
  {
    DigitRunEndIs(s, a, b, n);
    assert IsDigit(s[a]);
  }

  /** On a run of digits (all the length prefix of a bencoded string can
      hold) the conversion fails exactly when the run is empty or too large,
      and otherwise yields the number the digits spell. */
  lemma {:induction false} StoulOfDigits(s: Bytes)
    requires AllDigits(s)
    ensures Stoul(s).Ok? <==> s != [] && DecimalValue(s) < TWO_64
    ensures Stoul(s).Ok? ==> Stoul(s).value == DecimalValue(s)
    ensures Stoul(s).Err? ==> Stoul(s).error == if s == [] then InvalidArgument else OutOfRange
  {
    if s != [] {
      StoulOfDigitRun(s, 0, |s|, |s|);
    }
  }

  /** A '-' before the digits negates modulo 2^64, which is how "i-123e"
      decodes to 2^64 - 123. */
  lemma {:induction false} StoulNegative(digits: Bytes)
    requires |digits| > 0 && AllDigits(digits) && DecimalValue(digits) < TWO_64
    ensures Stoul(['-'] + digits) == Ok(Negate(DecimalValue(digits)))
  {
    var s := ['-'] + digits;
    assert SpaceRunEnd(s, 0, |s|) == 0;
    forall k | 1 <= k < |s|
      ensures IsDigit(s[k])
    {
      assert s[k] == digits[k - 1];
    }
    DigitRunEndIs(s, 1, |s|, |s|);
    DigitsValueShift(['-'], digits);
  }

  /** Bytes put in front shift where digits sit, not what they denote. */
  lemma {:induction false} DigitsValueShift(prefix: Bytes, digits: Bytes)
    ensures DigitsValue(prefix + digits, |prefix|, |prefix| + |digits|) == DecimalValue(digits)
  {
    DigitsValueShiftUpTo(prefix, digits, |digits|);
  }

  lemma {:induction false} DigitsValueShiftUpTo(prefix: Bytes, digits: Bytes, n: nat)
    requires n <= |digits|
    ensures DigitsValue(prefix + digits, |prefix|, |prefix| + n) == DigitsValue(digits, 0, n)
    decreases n
  {
    if n > 0 {
      DigitsValueShiftUpTo(prefix, digits, n - 1);
      assert (prefix + digits)[|prefix| + n - 1] == digits[n - 1];
    }
  }

  /** The pattern occurs in data at index i. */
  predicate OccursAt(data: Bytes, pattern: Bytes, i: nat) {
    i + |pattern| <= |data| && data[i..i + |pattern|] == pattern
  }

  /** FindFrom(data, pattern, from): the first occurrence at or after from. */
  function FindFrom(data: Bytes, pattern: Bytes, from: nat): (r: Option<nat>)
    decreases |data| - from
    ensures r.Some? ==> from <= r.value && OccursAt(data, pattern, r.value)
    ensures r.Some? ==> forall i :: from <= i < r.value ==> !OccursAt(data, pattern, i)
    ensures r.None? ==> forall i :: from <= i ==> !OccursAt(data, pattern, i)
  {
    if from + |pattern| > |data| then None
    else if data[from..from + |pattern|] == pattern then Some(from)
    else FindFrom(data, pattern, from + 1)
  }

  /** std::string::find: the index of the first occurrence of the pattern,
      or None for std::string::npos. */
  function Find(data: Bytes, pattern: Bytes): (r: Option<nat>)
    ensures r.Some? ==> OccursAt(data, pattern, r.value)
    ensures r.Some? ==> forall i :: 0 <= i < r.value ==> !OccursAt(data, pattern, i)
    ensures r.None? ==> forall i :: 0 <= i ==> !OccursAt(data, pattern, i)
  {
    FindFrom(data, pattern, 0)
  }
}
