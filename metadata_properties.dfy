/** What fillMetadata promises about the record it fills, stated about
    TorrentMetadata.MetadataOf (and so, through FillMetadata's contract,
    about the method). */
module MetadataProperties {
  import opened Bytes
  import opened Errors
  import opened BencodeValue
  import opened BencodeGrammar
  import opened InfoSection
  import opened TorrentMetadata

  /** The info hash is computed before anything is decoded: a descriptor
      whose info section cannot be cut out fails with that error, even when
      it would not decode either ("xyz" fails because "4:info" is missing). */
  lemma {:induction false} ExtractionComesFirst(data: Bytes, sha1: Bytes -> Bytes)
    requires RawInfoSection(data).Err?
    ensures MetadataOf(Some(data), sha1) == Err(RawInfoSection(data).error)
  {
  }

  lemma {:induction false} NotADescriptor(sha1: Bytes -> Bytes)
    ensures MetadataOf(Some(['x', 'y', 'z']), sha1) == Err(InfoNotFound)
  {
    NotFoundExactly(['x', 'y', 'z']);
  }

  /** A decoding failure is reported wrapped, keeping its cause. */
  lemma {:induction false} ParseFailureWrapped(data: Bytes, sha1: Bytes -> Bytes)
    requires RawInfoSection(data).Ok? && Decode(data).Err?
    ensures MetadataOf(Some(data), sha1) == Err(ParseFailed(Decode(data).error))
  {
  }

  /** The info hash is the hash of the bytes the decoder consumed for the
      dictionary after the first "4:info", exactly as they are written. */
  lemma {:induction false} InfoHashOfOriginalBytes(data: Bytes, sha1: Bytes -> Bytes, md: Metadata, k: nat, m: map<Bytes, Value>, end: nat)
    requires MetadataOf(Some(data), sha1) == Ok(md)
    requires |data| < TWO_64 && FirstOccurrence(data, k)
    requires DecodeValue(data, k + 6) == Ok(Parsed(Dict(m), end))
    ensures md.infoHash == sha1(data[k + 6..end])
  {
    InfoHashOfSection(data, sha1, md);
    SectionOfDecoded(data, k, m, end);
  }

  /** The info hash is the hash of the cut-out section. */
  lemma {:induction false} InfoHashOfSection(data: Bytes, sha1: Bytes -> Bytes, md: Metadata)
    requires MetadataOf(Some(data), sha1) == Ok(md)
    ensures RawInfoSection(data).Ok? && md.infoHash == sha1(RawInfoSection(data).value)
  {
  }

  /** The descriptor decodes to a dictionary top whose "info" is the
      dictionary info. */
  predicate Describes(data: Bytes, top: map<Bytes, Value>, info: map<Bytes, Value>) {
    Decode(data) == Ok(Dict(top)) && INFO in top && top[INFO] == Dict(info)
  }

  /** Name, announce URL and piece length are copied when present and keep
      their defaults (empty, empty, 0) when absent. */
  lemma {:induction false} CopiedFields(data: Bytes, sha1: Bytes -> Bytes, md: Metadata, top: map<Bytes, Value>, info: map<Bytes, Value>)
    requires MetadataOf(Some(data), sha1) == Ok(md) && Describes(data, top, info)
    ensures md.announce == if ANNOUNCE in top then top[ANNOUNCE].s else []
    ensures md.name == if NAME in info then info[NAME].s else []
    ensures md.pieceLength == if PIECE_LENGTH in info then info[PIECE_LENGTH].n else 0
    ensures ANNOUNCE in top ==> top[ANNOUNCE].Str?
    ensures NAME in info ==> info[NAME].Str?
    ensures PIECE_LENGTH in info ==> info[PIECE_LENGTH].Int?
  {
  }

  /** The piece hashes are the "pieces" string cut into 20-byte chunks, in
      order, or none when there is no such key. */
  lemma {:induction false} PieceHashes(data: Bytes, sha1: Bytes -> Bytes, md: Metadata, top: map<Bytes, Value>, info: map<Bytes, Value>)
    requires MetadataOf(Some(data), sha1) == Ok(md) && Describes(data, top, info)
    ensures PIECES !in info ==> md.pieceHashes == []
    ensures PIECES in info ==> info[PIECES].Str? && Concat(md.pieceHashes) == info[PIECES].s
    ensures PIECES in info ==> |md.pieceHashes| == (|info[PIECES].s| + HASH_SIZE - 1) / HASH_SIZE
    ensures forall i :: 0 <= i < |md.pieceHashes| - 1 ==> |md.pieceHashes[i]| == HASH_SIZE
  {
    if PIECES in info {
      PiecesSplit(info[PIECES].s);
    }
  }

  /** The files and total size of a record come from LayoutOf. */
  lemma {:induction false} RecordLayout(data: Bytes, sha1: Bytes -> Bytes, md: Metadata, top: map<Bytes, Value>, info: map<Bytes, Value>)
    requires MetadataOf(Some(data), sha1) == Ok(md) && Describes(data, top, info)
    ensures LayoutOf(info, md.name) == Ok(Layout(md.files, md.totalSize))
  {
  }

  /** A "length" key makes a single-file torrent: one file named after the
      torrent with that size, which is also the total size; "files" is then
      not looked at. */
  lemma {:induction false} SingleFileLayout(data: Bytes, sha1: Bytes -> Bytes, md: Metadata, top: map<Bytes, Value>, info: map<Bytes, Value>)
    requires MetadataOf(Some(data), sha1) == Ok(md) && Describes(data, top, info)
    requires LENGTH in info
    ensures info[LENGTH].Int?
    ensures md.files == [FileEntry(md.name, info[LENGTH].n)]
    ensures md.totalSize == info[LENGTH].n
  {
    RecordLayout(data, sha1, md, top, info);
  }

  /** Without "length", a "files" list gives one entry per element, in
      order, and the total is the sum of their sizes modulo 2^64. */
  lemma {:induction false} MultiFileLayout(data: Bytes, sha1: Bytes -> Bytes, md: Metadata, top: map<Bytes, Value>, info: map<Bytes, Value>)
    requires MetadataOf(Some(data), sha1) == Ok(md) && Describes(data, top, info)
    requires LENGTH !in info && FILES in info
    ensures info[FILES].List? && |md.files| == |info[FILES].items|
    ensures forall i :: 0 <= i < |md.files| ==> FileOf(info[FILES].items[i]) == Ok(md.files[i])
    ensures md.totalSize == Total(md.files) % TWO_64
  {
    RecordLayout(data, sha1, md, top, info);
    FilesMeaning(info[FILES].items);
    WrappedTotalIsTotal(md.files);
  }

  /** With neither key there are no files and the total is 0. */
  lemma {:induction false} NoFileLayout(data: Bytes, sha1: Bytes -> Bytes, md: Metadata, top: map<Bytes, Value>, info: map<Bytes, Value>)
    requires MetadataOf(Some(data), sha1) == Ok(md) && Describes(data, top, info)
    requires LENGTH !in info && FILES !in info
    ensures md.files == [] && md.totalSize == 0
  {
    RecordLayout(data, sha1, md, top, info);
  }

  /** A file dictionary with a "path" list of strings: its entry has the
      components joined with '/', and the "length" value, 0 when missing. */
  lemma {:induction false} FileEntryOf(d: map<Bytes, Value>, parts: seq<Bytes>)
    requires PATH in d && d[PATH].List? && Strings(d[PATH].items) == Ok(parts)
    requires LENGTH in d ==> d[LENGTH].Int?
    ensures FileOf(Dict(d)) == Ok(FileEntry(JoinPath(parts), if LENGTH in d then d[LENGTH].n else 0))
  {
  }

  /** A file dictionary without "path" fails: the default Integer 0 is not
      a list. */
  lemma {:induction false} FileWithoutPath(d: map<Bytes, Value>)
    requires PATH !in d
    ensures FileOf(Dict(d)) == Err(TypeMismatch)
  {
  }

  /** The index of the last '/' in p, if any. */
  function LastSlash(p: Bytes): (r: Option<nat>)
    decreases |p|
    ensures r.Some? ==> r.value < |p| && p[r.value] == '/'
  {
    if p == [] then None
    else if p[|p| - 1] == '/' then Some(|p| - 1)
    else LastSlash(p[..|p| - 1])
  }

  /** Splitting a path at every '/'. */
  function SplitPath(p: Bytes): seq<Bytes>
    decreases |p|
  {
    match LastSlash(p)
    case None => [p]
    case Some(i) => SplitPath(p[..i]) + [p[i + 1..]]
  }

  predicate NoSlash(s: Bytes) {
    forall i :: 0 <= i < |s| ==> s[i] != '/'
  }

  lemma {:induction false} LastSlashAfter(a: Bytes, b: Bytes)
    requires NoSlash(b)
    ensures LastSlash(a + ['/'] + b) == Some(|a|)
    decreases |b|
  {
    var p := a + ['/'] + b;
    if b != [] {
      var b' := b[..|b| - 1];
      assert p[..|p| - 1] == a + ['/'] + b';
      assert p[|p| - 1] == b[|b| - 1];
      LastSlashAfter(a, b');
    }
  }

  lemma {:induction false} LastSlashNone(b: Bytes)
    requires NoSlash(b)
    ensures LastSlash(b) == None
    decreases |b|
  {
    if b != [] {
      LastSlashNone(b[..|b| - 1]);
    }
  }

  /** Components without '/' are recovered from the joined path. */
  lemma {:induction false} SplitJoinPath(parts: seq<Bytes>)
    requires parts != [] && forall i :: 0 <= i < |parts| ==> NoSlash(parts[i])
    ensures SplitPath(JoinPath(parts)) == parts
    decreases |parts|
  {
    if |parts| == 1 {
      LastSlashNone(parts[0]);
    } else {
      var init, last := parts[..|parts| - 1], parts[|parts| - 1];
      var a := JoinPath(init);
      var p := a + ['/'] + last;
      LastSlashAfter(a, last);
      assert p[..|a|] == a;
      assert p[|a| + 1..] == last;
      SplitJoinPath(init);
      assert init + [last] == parts;
    }
  }
}
