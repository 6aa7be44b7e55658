/** The info section found by a text search, set against the info entry of
    the decoded descriptor. extractRawInfoSection takes the first "4:info"
    in the text, which may sit inside an earlier string value; the info
    hash is meant to cover the bytes of the top-level "info" entry. */
module InfoFindings {
  import opened Bytes
  import opened Errors
  import opened CppLib
  import opened BencodeValue
  import opened BencodeGrammar
  import opened BencodeProperties
  import opened InfoSection
  import opened TorrentMetadata

  /** Where a value lies in the data: data[start..end]. */
  datatype Span = Span(start: nat, end: nat)

  /** found records where the value stored under "info" in acc was decoded,
      and there is a record exactly when acc has an "info" entry. */
  predicate Tracks(data: Bytes, acc: map<Bytes, Value>, found: Option<Span>) {
    (found.Some? <==> INFO in acc) &&
    (found.Some? ==>
      found.value.start < found.value.end <= |data| &&
      DecodeValue(data, found.value.start) == Ok(Parsed(acc[INFO], found.value.end)))
  }

  /** parseDict's loop over the top-level entries, keeping the span of the
      last value stored under "info" instead of the values. */
  function InfoSpanItems(data: Bytes, pos: nat, found: Option<Span>): (r: Result<Option<Span>>)
    requires found.Some? ==> found.value.start < found.value.end <= |data|
    decreases |data| - pos
    ensures r.Ok? && r.value.Some? ==> r.value.value.start < r.value.value.end <= |data|
  {
    if pos >= |data| then Err(EndOfData)
    else if data[pos] == 'e' then Ok(found)
    else match DecodeString(data, pos)
      case Err(x) => Err(x)
      case Ok(Parsed(key, afterKey)) =>
        match DecodeValue(data, afterKey)
        case Err(x) => Err(x)
        case Ok(Parsed(_, next)) =>
          InfoSpanItems(data, next, if key.s == INFO then Some(Span(afterKey, next)) else found)
  }

  /** The info section as intended: the bytes of the top-level "info"
      entry, located by decoding the descriptor rather than by a text
      search. A descriptor that is not a dictionary fails as asDict does,
      one without "info" with InfoNotFound, and one whose "info" is not a
      dictionary with InfoInvalidStart. */
  function InfoEntrySection(data: Bytes): (r: Result<Bytes>)
    ensures r.Ok? ==> |r.value| > 0 && r.value[0] == 'd'
  {
    if |data| == 0 then Err(EndOfData)
    else if data[0] != 'd' then
      match DecodeValue(data, 0)
      case Err(x) => Err(x)
      case Ok(_) => Err(TypeMismatch)
    else match InfoSpanItems(data, 1, None)
      case Err(x) => Err(x)
      case Ok(None) => Err(InfoNotFound)
      case Ok(Some(sp)) =>
        if data[sp.start] != 'd' then Err(InfoInvalidStart) else Ok(data[sp.start..sp.end])
  }

  /** The loop keeps its record in step with the entries parseDict stores. */
  lemma {:induction false} InfoSpanItemsTracks(data: Bytes, pos: nat, acc: map<Bytes, Value>, found: Option<Span>, m: map<Bytes, Value>, end: nat)
    requires Tracks(data, acc, found)
    requires DecodeDictItems(data, pos, acc) == Ok(Parsed(Dict(m), end))
    decreases |data| - pos
    ensures InfoSpanItems(data, pos, found).Ok? && Tracks(data, m, InfoSpanItems(data, pos, found).value)
  {
    if data[pos] != 'e' {
      var k := DecodeString(data, pos).value;
      var p := DecodeValue(data, k.end).value;
      var acc' := acc[k.value.s := p.value];
      var found' := if k.value.s == INFO then Some(Span(k.end, p.end)) else found;
      assert InfoSpanItems(data, pos, found) == InfoSpanItems(data, p.end, found');
      InfoSpanItemsTracks(data, p.end, acc', found', m, end);
    }
  }

  /** Only a 'd' starts a value that decodes to a dictionary. */
  lemma {:induction false} DictStartsWithD(data: Bytes, pos: nat)
    requires DecodeValue(data, pos).Ok? && DecodeValue(data, pos).value.value.Dict?
    ensures pos < |data| && data[pos] == 'd'
  {
  }

  /** For every descriptor that decodes to a dictionary, the intended
      section is the very bytes its "info" entry was decoded from, and it
      fails exactly when there is no such entry or the entry is no
      dictionary. */
  lemma {:induction false} InfoEntrySectionIsEntry(data: Bytes, m: map<Bytes, Value>, end: nat) returns (sp: Span)
    requires DecodeValue(data, 0) == Ok(Parsed(Dict(m), end))
    ensures INFO !in m ==> InfoEntrySection(data) == Err(InfoNotFound)
    ensures INFO in m && !m[INFO].Dict? ==> InfoEntrySection(data) == Err(InfoInvalidStart)
    ensures INFO in m && m[INFO].Dict? ==>
      sp.start < sp.end <= |data| &&
      DecodeValue(data, sp.start) == Ok(Parsed(m[INFO], sp.end)) &&
      InfoEntrySection(data) == Ok(data[sp.start..sp.end])
  {
    DictStartsWithD(data, 0);
    ValueDispatch(data, 0);
    InfoSpanItemsTracks(data, 1, map[], None, m, end);
    var found := InfoSpanItems(data, 1, None).value;
    sp := if found.Some? then found.value else Span(0, 0);
  }

  /** The strings of the example, each spelled as parseString reads it. */
  const COMMENT_KEY: Bytes := "7" + ":" + "comment"
  const COMMENT: Bytes := "7" + ":" + "4:infox"
  const INFO_NAME: Bytes := "4" + ":" + "info"
  const NAME_KEY: Bytes := "4" + ":" + "name"
  const NAME: Bytes := "1" + ":" + "a"

  /** The info dictionary of the example: d4:name1:ae. */
  const INNER: Bytes := "d" + NAME_KEY + NAME + "e"

  /** d7:comment7:4:infox4:infod4:name1:aee: the comment, whose text
      "4:infox" holds the searched key, sorts before "info" and so is
      written first. */
  const MISLEADING: Bytes := "d" + COMMENT_KEY + COMMENT + INFO_NAME + INNER + "e"

  /** Each part of a concatenation is written where the parts before it end. */
  lemma {:induction false} PartsWritten(p0: Bytes, p1: Bytes, p2: Bytes, p3: Bytes, p4: Bytes, p5: Bytes)
    ensures var d := p0 + p1 + p2 + p3 + p4 + p5;
      WrittenAt(d, |p0|, p1) && WrittenAt(d, |p0 + p1|, p2) &&
      WrittenAt(d, |p0 + p1 + p2|, p3) && WrittenAt(d, |p0 + p1 + p2 + p3|, p4)
  {
    var d := p0 + p1 + p2 + p3 + p4 + p5;
    assert d[|p0|..|p0| + |p1|] == p1;
    assert d[|p0 + p1|..|p0 + p1| + |p2|] == p2;
    assert d[|p0 + p1 + p2|..|p0 + p1 + p2| + |p3|] == p3;
    assert d[|p0 + p1 + p2 + p3|..|p0 + p1 + p2 + p3| + |p4|] == p4;
  }

  /** Text written inside text that is written at pos. */
  lemma {:induction false} WrittenWithin(data: Bytes, pos: nat, t: Bytes, off: nat, u: Bytes)
    requires WrittenAt(data, pos, t) && WrittenAt(t, off, u)
    ensures WrittenAt(data, pos + off, u)
  {
    forall j | 0 <= j < |u|
      ensures data[pos + off..pos + off + |u|][j] == u[j]
    {
      assert data[pos..pos + |t|][off + j] == data[pos + off + j];
      assert t[off..off + |u|][j] == t[off + j];
    }
  }

  /** A single digit denotes its value. */
  lemma {:induction false} OneDigit(c: Byte)
    requires IsDigit(c)
    ensures DecimalValue([c]) == DigitValue(c)
  {
    assert DigitsValue([c], 0, 0) == 0;
  }

  /** The example opens a dictionary and closes it with its last byte. */
  lemma {:induction false} MisleadingEnds()
    ensures |MISLEADING| == 37 && MISLEADING[0] == 'd' && MISLEADING[36] == 'e'
  {
  }

  /** Where the parts of the example are written. */
  lemma {:induction false} MisleadingLayout()
    ensures |MISLEADING| == 37 && MISLEADING[36] == 'e'
    ensures WrittenAt(MISLEADING, 1, COMMENT_KEY) && WrittenAt(MISLEADING, 10, COMMENT)
    ensures WrittenAt(MISLEADING, 19, INFO_NAME) && WrittenAt(MISLEADING, 25, INNER)
    ensures WrittenAt(MISLEADING, 26, NAME_KEY) && WrittenAt(MISLEADING, 32, NAME)
  {
    PartsWritten("d", COMMENT_KEY, COMMENT, INFO_NAME, INNER, "e");
    PartsWritten("d", NAME_KEY, NAME, "e", [], []);
    WrittenWithin(MISLEADING, 25, INNER, 1, NAME_KEY);
    WrittenWithin(MISLEADING, 25, INNER, 7, NAME);
  }

  /** The strings of the example's outer dictionary, read by parseString. */
  lemma {:induction false} MisleadingStrings()
    ensures DecodeString(MISLEADING, 1) == Ok(Parsed(Str("comment"), 10))
    ensures DecodeString(MISLEADING, 10) == Ok(Parsed(Str("4:infox"), 19))
    ensures DecodeString(MISLEADING, 19) == Ok(Parsed(Str("info"), 25))
  {
    MisleadingLayout();
    OneDigit('7');
    OneDigit('4');
    StringOfDigitsDecodes(MISLEADING, 1, "7", "comment");
    StringOfDigitsDecodes(MISLEADING, 10, "7", "4:infox");
    StringOfDigitsDecodes(MISLEADING, 19, "4", "info");
  }

  /** The strings of the example's info dictionary, read by parseString. */
  lemma {:induction false} MisleadingInnerStrings()
    ensures DecodeString(MISLEADING, 26) == Ok(Parsed(Str("name"), 32))
    ensures DecodeString(MISLEADING, 32) == Ok(Parsed(Str("a"), 35))
  {
    MisleadingLayout();
    OneDigit('4');
    OneDigit('1');
    StringOfDigitsDecodes(MISLEADING, 26, "4", "name");
    StringOfDigitsDecodes(MISLEADING, 32, "1", "a");
  }

  /** The info dictionary of the example, decoded from MISLEADING[25..36]. */
  lemma {:induction false} MisleadingInnerDecodes()
    ensures DecodeValue(MISLEADING, 25) == Ok(Parsed(Dict(map["name" := Str("a")]), 36))
  {
    var d := MISLEADING;
    MisleadingLayout();
    MisleadingInnerStrings();
    WrittenAtIndex(d, 25, INNER, 0);
    WrittenAtIndex(d, 25, INNER, 7);
    WrittenAtIndex(d, 25, INNER, 10);
    ValueDispatch(d, 32);
    var inner := [Entry("name", Str("a"))];
    assert ConsecutiveEntries(d, 35, inner[1..], 35);
    assert ConsecutiveEntries(d, 26, inner, 35);
    DictOfConsecutive(d, 25, inner, 35);
    assert Stored(map[], inner) == map["name" := Str("a")];
  }

  /** The entries of the example's outer dictionary, written one after
      another. */
  lemma {:induction false} MisleadingEntries() returns (outer: seq<Entry>)
    ensures outer == [Entry("comment", Str("4:infox")), Entry("info", Dict(map["name" := Str("a")]))]
    ensures ConsecutiveEntries(MISLEADING, 1, outer, 36)
    ensures DecodeValue(MISLEADING, 10) == Ok(Parsed(Str("4:infox"), 19))
  {
    var d := MISLEADING;
    MisleadingLayout();
    MisleadingStrings();
    MisleadingInnerDecodes();
    WrittenAtIndex(d, 10, COMMENT, 0);
    ValueDispatch(d, 10);
    outer := [Entry("comment", Str("4:infox")), Entry("info", Dict(map["name" := Str("a")]))];
    assert ConsecutiveEntries(d, 36, outer[2..], 36);
    assert ConsecutiveEntries(d, 19, outer[1..], 36);
  }

  /** Two entries stored one after the other. */
  lemma {:induction false} StoredTwo(acc: map<Bytes, Value>, e0: Entry, e1: Entry)
    ensures Stored(acc, [e0, e1]) == acc[e0.key := e0.value][e1.key := e1.value]
  {
    var a0 := acc[e0.key := e0.value];
    var a1 := a0[e1.key := e1.value];
    assert [e0, e1][1..] == [e1];
    assert [e1][1..] == [];
    assert Stored(a1, []) == a1;
    assert Stored(a0, [e1]) == Stored(a1, []);
  }

  /** How the example decodes: a dictionary with a comment and an "info"
      entry that is a dictionary. */
  lemma {:induction false} MisleadingDecodes()
    ensures DecodeValue(MISLEADING, 0) ==
      Ok(Parsed(Dict(map["comment" := Str("4:infox"), "info" := Dict(map["name" := Str("a")])]), 37))
    ensures DecodeValue(MISLEADING, 10) == Ok(Parsed(Str("4:infox"), 19))
  {
    var outer := MisleadingEntries();
    MisleadingEnds();
    DictOfConsecutive(MISLEADING, 0, outer, 36);
    StoredTwo(map[], outer[0], outer[1]);
    assert outer == [outer[0], outer[1]];
  }

  /** The first "4:info" of the example is inside the comment, at 12, and
      is followed by 'x'. */
  lemma {:induction false} MisleadingFirstOccurrence()
    ensures FirstOccurrence(MISLEADING, 12) && MISLEADING[18] == 'x'
  {
    var d := MISLEADING;
    MisleadingLayout();
    WrittenWithin(d, 10, COMMENT, 2, INFO_KEY);
    WrittenAtIndex(d, 10, COMMENT, 8);
    forall i | 0 <= i < 12
      ensures !OccursAt(d, INFO_KEY, i)
    {
      assert d[i] != '4';
      assert d[i..i + 6][0] == d[i];
    }
  }

  /** The intended section of the example is its info dictionary. */
  lemma {:induction false} MisleadingEntrySection()
    ensures InfoEntrySection(MISLEADING) == Ok(INNER)
  {
    var d := MISLEADING;
    MisleadingLayout();
    MisleadingStrings();
    MisleadingDecodes();
    MisleadingInnerDecodes();
    assert InfoSpanItems(d, 1, None) == InfoSpanItems(d, 19, None);
    assert InfoSpanItems(d, 19, None) == InfoSpanItems(d, 36, Some(Span(25, 36)));
  }

  /** As written, extractRawInfoSection rejects a descriptor whose decoded
      dictionary does have a dictionary under "info", because the comment
      before it holds the text "4:info"; the intended section is that
      entry's bytes. */
  lemma {:induction false} MisleadingCounterexample()
    ensures Decode(MISLEADING).Ok? && Decode(MISLEADING).value.Dict?
    ensures INFO in Decode(MISLEADING).value.entries && Decode(MISLEADING).value.entries[INFO].Dict?
    ensures RawInfoSection(MISLEADING) == Err(InfoInvalidStart)
    ensures InfoEntrySection(MISLEADING) == Ok(INNER)
  {
    MisleadingDecodes();
    MisleadingFirstOccurrence();
    InvalidStartExactly(MISLEADING, 12);
    MisleadingEntrySection();
  }
}
