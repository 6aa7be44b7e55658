/** extractRawInfoSection from MetaUtils: the raw bytes of the info
    dictionary, found by searching the text for the key "4:info" and
    stepping over the element after it with skipElement. The info hash of a
    descriptor is the SHA-1 of these bytes. */
module InfoSection {
  import opened Bytes
  import opened Errors
  import opened CppLib
  import opened BencodeValue
  import opened BencodeGrammar
  import opened RawScanner

  /** The key searched for: a bencoded "info". */
  const INFO_KEY: Bytes := ['4', ':', 'i', 'n', 'f', 'o']

  /** extractRawInfoSection: everything from the 'd' after the first
      "4:info" up to where skipElement stops, cut with substr. */
  function RawInfoSection(data: Bytes): (r: Result<Bytes>)
    ensures r.Ok? ==> |r.value| > 0 && r.value[0] == 'd'
    ensures r.Err? ==> r.error == InfoNotFound || r.error == InfoInvalidStart || ScanFailure(r.error)
  {
    match Find(data, INFO_KEY)
    case None => Err(InfoNotFound)
    case Some(k) =>
      var start := k + |INFO_KEY|;
      if start >= |data| || data[start] != 'd' then Err(InfoInvalidStart)
      else
        match ScanEnd(data, start)
        case Err(x) => Err(x)
        case Ok(e) => Ok(Substr(data, start, e - start))
  }

  /** k is where "4:info" first occurs. */
  predicate FirstOccurrence(data: Bytes, k: nat) {
    OccursAt(data, INFO_KEY, k) && forall i :: 0 <= i < k ==> !OccursAt(data, INFO_KEY, i)
  }

  /** The section is missing exactly when "4:info" occurs nowhere. */
  lemma {:induction false} NotFoundExactly(data: Bytes)
    ensures RawInfoSection(data) == Err(InfoNotFound) <==> forall i :: !OccursAt(data, INFO_KEY, i)
  {
    var f := Find(data, INFO_KEY);
    if f.Some? {
      assert OccursAt(data, INFO_KEY, f.value);
    }
  }

  /** The start is invalid exactly when the first "4:info" is the last thing
      in the data or is followed by a byte other than 'd'. */
  lemma {:induction false} InvalidStartExactly(data: Bytes, k: nat)
    requires FirstOccurrence(data, k)
    ensures RawInfoSection(data) == Err(InfoInvalidStart) <==> k + 6 >= |data| || data[k + 6] != 'd'
  {
    FirstOccurrenceIsFound(data, k);
  }

  /** Find returns the first occurrence. */
  lemma {:induction false} FirstOccurrenceIsFound(data: Bytes, k: nat)
    requires FirstOccurrence(data, k)
    ensures Find(data, INFO_KEY) == Some(k)
  {
    assert OccursAt(data, INFO_KEY, k);
  }

  /** A section that is cut out lies right after the first "4:info", starts
      with 'd' and ends with 'e'. */
  lemma {:induction false} SectionShape(data: Bytes, k: nat)
    requires FirstOccurrence(data, k) && RawInfoSection(data).Ok?
    ensures var s := RawInfoSection(data).value;
      2 <= |s| && k + 6 + |s| <= |data| && s == data[k + 6..k + 6 + |s|] &&
      s[0] == 'd' && s[|s| - 1] == 'e'
  {
    FirstOccurrenceIsFound(data, k);
    var start := k + 6;
    DictScanShape(data, start);
    var e := ScanEnd(data, start).value;
    assert RawInfoSection(data) == Ok(Substr(data, start, e - start));
  }

  /** skipElement on a 'd' stops one past an 'e' inside the data. */
  lemma {:induction false} DictScanShape(data: Bytes, pos: nat)
    requires pos < |data| && data[pos] == 'd' && ScanEnd(data, pos).Ok?
    ensures pos + 2 <= ScanEnd(data, pos).value <= |data|
    ensures data[ScanEnd(data, pos).value - 1] == 'e'
  {
    assert ScanEnd(data, pos) == ScanDict(data, pos);
  }

  /** When the element after the first "4:info" is a dictionary the decoder
      accepts, the section is exactly the bytes the decoder consumed for it. */
  lemma {:induction false} SectionOfDecoded(data: Bytes, k: nat, m: map<Bytes, Value>, end: nat)
    requires |data| < TWO_64 && FirstOccurrence(data, k)
    requires DecodeValue(data, k + 6) == Ok(Parsed(Dict(m), end))
    ensures RawInfoSection(data) == Ok(data[k + 6..end])
  {
    FirstOccurrenceIsFound(data, k);
    var start := k + 6;
    ValueDispatch(data, start);
    assert data[start] == 'd';
    ScanValueAgrees(data, start, Dict(m), end);
  }
}
