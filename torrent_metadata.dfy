/** fillMetadata from MetaUtils: the descriptor's bytes become a Metadata
    record. The raw info section is cut out and hashed first; then the whole
    descriptor is decoded and the record is filled from the top-level
    dictionary and its "info" dictionary. Reading the file and SHA-1 are
    inputs: the file's bytes, or None when it cannot be opened, and the hash
    function. */
module TorrentMetadata {
  import opened Bytes
  import opened Errors
  import opened BencodeValue
  import opened BencodeGrammar
  import opened BencodeParser
  import opened InfoSection

  /** One file of the torrent: its path, components joined with '/', and its size. */
  datatype FileEntry = FileEntry(path: Bytes, size: U64)

  /** The Metadata record, plus the announce-list field the implementation
      fills although the record's declaration lacks it. */
  datatype Metadata = Metadata(
    announce: Bytes,
    name: Bytes,
    pieceLength: U64,
    totalSize: U64,
    pieceHashes: seq<Bytes>,
    files: seq<FileEntry>,
    infoHash: Bytes,
    announceList: seq<Bytes>)

  const ANNOUNCE: Bytes := "announce"
  const INFO: Bytes := "info"
  const NAME: Bytes := "name"
  const ANNOUNCE_LIST: Bytes := "announce-list"
  const PIECE_LENGTH: Bytes := "piece length"
  const PIECES: Bytes := "pieces"
  const LENGTH: Bytes := "length"
  const FILES: Bytes := "files"
  const PATH: Bytes := "path"

  /** The size of one SHA-1 piece hash. */
  const HASH_SIZE: nat := 20

  /** std::map::operator[] on a copy of a dictionary: a missing key reads as
      a default-constructed Value, which holds Integer 0. */
  function Index(m: map<Bytes, Value>, k: Bytes): Value {
    if k in m then m[k] else Int(0)
  }

  // ---------------------------------------------------------------------
  // Piece hashes

  /** The pieces string cut into consecutive 20-byte chunks from i on, the
      last one possibly shorter. */
  function PiecesFrom(raw: Bytes, i: nat): seq<Bytes>
    decreases |raw| - i
  {
    if i >= |raw| then [] else [Substr(raw, i, HASH_SIZE)] + PiecesFrom(raw, i + HASH_SIZE)
  }

  function Pieces(raw: Bytes): seq<Bytes> {
    PiecesFrom(raw, 0)
  }

  /** The loop over the pieces string, stepping i by 20 and pushing substr(i, 20). */
  method SplitPieces(raw: Bytes) returns (hashes: seq<Bytes>)
    ensures hashes == Pieces(raw)
  {
    hashes := [];
    var i := 0;
    while i < |raw|
      invariant hashes + PiecesFrom(raw, i) == Pieces(raw)
      decreases |raw| - i
    {
      assert PiecesFrom(raw, i) == [Substr(raw, i, HASH_SIZE)] + PiecesFrom(raw, i + HASH_SIZE);
      hashes := hashes + [Substr(raw, i, HASH_SIZE)];
      i := i + HASH_SIZE;
    }
  }

  /** The concatenation of a sequence of byte strings. */
  function Concat(ss: seq<Bytes>): Bytes
    decreases |ss|
  {
    if ss == [] then [] else ss[0] + Concat(ss[1..])
  }

  /** The chunks put back together are the pieces string; there are
      ceil(n / 20) of them, each of 20 bytes but the last, which holds
      between 1 and 20. */
  lemma {:induction false} PiecesSplit(raw: Bytes)
    ensures Concat(Pieces(raw)) == raw
    ensures |Pieces(raw)| == (|raw| + HASH_SIZE - 1) / HASH_SIZE
    ensures forall k :: 0 <= k < |Pieces(raw)| - 1 ==> |Pieces(raw)[k]| == HASH_SIZE
    ensures |Pieces(raw)| > 0 ==> 0 < |Pieces(raw)[|Pieces(raw)| - 1]| <= HASH_SIZE
  {
    PiecesFromSplit(raw, 0);
    assert raw[0..] == raw;
  }

  lemma {:induction false} PiecesFromSplit(raw: Bytes, i: nat)
    requires i <= |raw|
    ensures Concat(PiecesFrom(raw, i)) == raw[i..]
    ensures |PiecesFrom(raw, i)| == (|raw| - i + HASH_SIZE - 1) / HASH_SIZE
    ensures forall k :: 0 <= k < |PiecesFrom(raw, i)| - 1 ==> |PiecesFrom(raw, i)[k]| == HASH_SIZE
    ensures |PiecesFrom(raw, i)| > 0 ==> 0 < |PiecesFrom(raw, i)[|PiecesFrom(raw, i)| - 1]| <= HASH_SIZE
    decreases |raw| - i
  {
    if i < |raw| {
      var c := Substr(raw, i, HASH_SIZE);
      var ps := PiecesFrom(raw, i);
      if i + HASH_SIZE <= |raw| {
        var rest := PiecesFrom(raw, i + HASH_SIZE);
        PiecesFromSplit(raw, i + HASH_SIZE);
        assert ps == [c] + rest;
        assert ps[1..] == rest;
        assert raw[i..] == c + raw[i + HASH_SIZE..];
        forall k | 0 <= k < |ps| - 1 ensures |ps[k]| == HASH_SIZE {
          if k > 0 {
            assert ps[k] == rest[k - 1];
          }
        }
      } else {
        assert PiecesFrom(raw, i + HASH_SIZE) == [];
        assert ps == [c];
        assert ps[1..] == [];
      }
    }
  }

  // ---------------------------------------------------------------------
  // Strings out of lists, and file paths

  /** asStr on each element, in order; the first that is not a string fails. */
  function Strings(vs: seq<Value>): (r: Result<seq<Bytes>>)
    decreases |vs|
  {
    if vs == [] then Ok([])
    else
      var init :- Strings(vs[..|vs| - 1]);
      var s :- vs[|vs| - 1].AsStr();
      Ok(init + [s])
  }

  /** Strings succeeds exactly when every element is a string, and then
      yields their bytes, one per element. */
  lemma {:induction false} StringsMeaning(vs: seq<Value>)
    ensures Strings(vs).Ok? <==> forall i :: 0 <= i < |vs| ==> vs[i].IsStr()
    ensures Strings(vs).Ok? ==> |Strings(vs).value| == |vs|
    ensures Strings(vs).Ok? ==> forall i :: 0 <= i < |vs| ==> vs[i] == Str(Strings(vs).value[i])
    ensures Strings(vs).Err? ==> Strings(vs).error == TypeMismatch
    decreases |vs|
  {
    if vs != [] {
      var init := vs[..|vs| - 1];
      StringsMeaning(init);
      assert forall i :: 0 <= i < |init| ==> init[i] == vs[i];
    }
  }

  /** The loop reading a list of strings, such as the announce-list. */
  method ReadStrings(vs: seq<Value>) returns (r: Result<seq<Bytes>>)
    ensures r == Strings(vs)
  {
    var out: seq<Bytes> := [];
    for i := 0 to |vs|
      invariant Strings(vs[..i]) == Ok(out)
    {
      assert vs[..i + 1][..i] == vs[..i];
      var s := vs[i].AsStr();
      if s.Err? {
        StringsFailFrom(vs, i + 1);
        return Err(s.error);
      }
      out := out + [s.value];
    }
    assert vs[..|vs|] == vs;
    r := Ok(out);
  }

  /** A prefix that fails makes the whole sequence fail. */
  lemma {:induction false} StringsFailFrom(vs: seq<Value>, n: nat)
    requires n <= |vs| && Strings(vs[..n]).Err?
    ensures Strings(vs) == Err(TypeMismatch)
  {
    StringsMeaning(vs[..n]);
    StringsMeaning(vs);
    var i :| 0 <= i < n && !vs[..n][i].IsStr();
    assert vs[i] == vs[..n][i];
  }

  /** The components joined with '/' between them. */
  function JoinPath(parts: seq<Bytes>): Bytes
    decreases |parts|
  {
    if parts == [] then []
    else if |parts| == 1 then parts[0]
    else JoinPath(parts[..|parts| - 1]) + ['/'] + parts[|parts| - 1]
  }

  /** What the path loop has built: every component followed by '/'. */
  function Slashed(parts: seq<Bytes>): Bytes
    decreases |parts|
  {
    if parts == [] then [] else Slashed(parts[..|parts| - 1]) + parts[|parts| - 1] + ['/']
  }

  /** Dropping the last '/' from the slashed components is joining them. */
  lemma {:induction false} SlashedJoined(parts: seq<Bytes>)
    requires parts != []
    ensures Slashed(parts) == JoinPath(parts) + ['/']
    decreases |parts|
  {
    if |parts| > 1 {
      SlashedJoined(parts[..|parts| - 1]);
    } else {
      assert parts[..0] == [];
    }
  }

  /** A file's path: asStr of every element of its "path" list, joined. */
  function PathOf(parts: seq<Value>): Result<Bytes> {
    var strs :- Strings(parts);
    Ok(JoinPath(strs))
  }

  /** The path loop: append each component and '/', then pop_back when the
      result is not empty. */
  method BuildPath(parts: seq<Value>) returns (r: Result<Bytes>)
    ensures r == PathOf(parts)
  {
    var path: Bytes := [];
    var strs: seq<Bytes> := [];
    for i := 0 to |parts|
      invariant Strings(parts[..i]) == Ok(strs) && path == Slashed(strs)
    {
      assert parts[..i + 1][..i] == parts[..i];
      var s := parts[i].AsStr();
      if s.Err? {
        StringsFailFrom(parts, i + 1);
        return Err(s.error);
      }
      path := path + s.value + ['/'];
      assert (strs + [s.value])[..|strs|] == strs;
      strs := strs + [s.value];
    }
    assert parts[..|parts|] == parts;
    if path != [] {
      SlashedJoined(strs);
      path := path[..|path| - 1];
    }
    r := Ok(path);
  }

  // ---------------------------------------------------------------------
  // Files

  /** One element of "files": a dictionary whose "length" (0 when missing)
      and "path" give the entry. */
  function FileOf(v: Value): Result<FileEntry> {
    var d :- v.AsDict();
    var len :- Index(d, LENGTH).AsInt();
    var parts :- Index(d, PATH).AsList();
    var path :- PathOf(parts);
    Ok(FileEntry(path, len))
  }

  /** FileOf on each element, in order; the first failure is the result. */
  function FilesOf(vs: seq<Value>): Result<seq<FileEntry>>
    decreases |vs|
  {
    if vs == [] then Ok([])
    else
      var init :- FilesOf(vs[..|vs| - 1]);
      var f :- FileOf(vs[|vs| - 1]);
      Ok(init + [f])
  }

  /** uint64_t addition, wrapping modulo 2^64. */
  function AddU64(a: U64, b: U64): U64 {
    (a + b) % TWO_64
  }

  /** totalSize += len for each file, in uint64_t arithmetic. */
  function WrappedTotal(fs: seq<FileEntry>): (t: U64)
    decreases |fs|
  {
    if fs == [] then 0 else AddU64(WrappedTotal(fs[..|fs| - 1]), fs[|fs| - 1].size)
  }

  /** The exact total of the file sizes. */
  function Total(fs: seq<FileEntry>): nat
    decreases |fs|
  {
    if fs == [] then 0 else Total(fs[..|fs| - 1]) + fs[|fs| - 1].size
  }

  /** The running total is the exact total reduced modulo 2^64, so it is the
      exact total whenever that fits. */
  lemma {:induction false} WrappedTotalIsTotal(fs: seq<FileEntry>)
    ensures WrappedTotal(fs) == Total(fs) % TWO_64
    decreases |fs|
  {
    if fs != [] {
      WrappedTotalIsTotal(fs[..|fs| - 1]);
      ModAdd(Total(fs[..|fs| - 1]), fs[|fs| - 1].size);
    }
  }

  lemma {:induction false} ModAdd(a: nat, b: nat)
    ensures (a % TWO_64 + b) % TWO_64 == (a + b) % TWO_64
  {
    var q := a / TWO_64;
    assert a == q * TWO_64 + a % TWO_64;
    assert a + b == q * TWO_64 + (a % TWO_64 + b);
  }

  /** FilesOf succeeds exactly when every element yields a file, and then
      gives one entry per element, in order. */
  lemma {:induction false} FilesMeaning(vs: seq<Value>)
    ensures FilesOf(vs).Ok? <==> forall i :: 0 <= i < |vs| ==> FileOf(vs[i]).Ok?
    ensures FilesOf(vs).Ok? ==> |FilesOf(vs).value| == |vs|
    ensures FilesOf(vs).Ok? ==> forall i :: 0 <= i < |vs| ==> FileOf(vs[i]) == Ok(FilesOf(vs).value[i])
    decreases |vs|
  {
    if vs != [] {
      var init := vs[..|vs| - 1];
      FilesMeaning(init);
      assert forall i :: 0 <= i < |init| ==> init[i] == vs[i];
    }
  }

  /** The files loop with its running total. */
  method CollectFiles(vs: seq<Value>) returns (r: Result<seq<FileEntry>>, total: U64)
    ensures r == FilesOf(vs)
    ensures r.Ok? ==> total == WrappedTotal(r.value)
  {
    var files: seq<FileEntry> := [];
    total := 0;
    for i := 0 to |vs|
      invariant FilesOf(vs[..i]) == Ok(files) && total == WrappedTotal(files)
    {
      var f := ReadFile(vs[i]);
      if f.Err? {
        FilesFailAt(vs, i, files);
        return Err(f.error), total;
      }
      FilesStep(vs, i, files, f.value);
      files := files + [f.value];
      total := AddU64(total, f.value.size);
    }
    assert vs[..|vs|] == vs;
    r := Ok(files);
  }

  /** One more element that yields a file extends the files and the total. */
  lemma {:induction false} FilesStep(vs: seq<Value>, i: nat, files: seq<FileEntry>, f: FileEntry)
    requires i < |vs| && FilesOf(vs[..i]) == Ok(files) && FileOf(vs[i]) == Ok(f)
    ensures FilesOf(vs[..i + 1]) == Ok(files + [f])
    ensures WrappedTotal(files + [f]) == AddU64(WrappedTotal(files), f.size)
  {
    assert vs[..i + 1][..i] == vs[..i];
    assert (files + [f])[..|files|] == files;
  }

  /** The body of the files loop: one element to one entry. */
  method ReadFile(v: Value) returns (r: Result<FileEntry>)
    ensures r == FileOf(v)
  {
    var d :- v.AsDict();
    var len :- Index(d, LENGTH).AsInt();
    var parts :- Index(d, PATH).AsList();
    var path :- BuildPath(parts);
    r := Ok(FileEntry(path, len));
  }

  /** The first element that yields no file decides the failure. */
  lemma {:induction false} FilesFailAt(vs: seq<Value>, i: nat, files: seq<FileEntry>)
    requires i < |vs| && FilesOf(vs[..i]) == Ok(files) && FileOf(vs[i]).Err?
    ensures FilesOf(vs) == Err(FileOf(vs[i]).error)
  {
    assert vs[..i + 1][..i] == vs[..i];
    FileErrors(vs[i]);
    FilesFailFrom(vs, i + 1);
  }

  /** A prefix that fails makes the whole sequence fail the same way. */
  lemma {:induction false} FilesFailFrom(vs: seq<Value>, n: nat)
    requires n <= |vs| && FilesOf(vs[..n]).Err?
    ensures FilesOf(vs) == Err(TypeMismatch)
  {
    FilesMeaning(vs[..n]);
    FilesMeaning(vs);
    var i :| 0 <= i < n && FileOf(vs[..n][i]).Err?;
    assert vs[i] == vs[..n][i];
    FileErrors(vs[i]);
    FilesOnlyMismatch(vs);
  }

  /** Every failure of FileOf is an asX on the wrong variant. */
  lemma {:induction false} FileErrors(v: Value)
    ensures FileOf(v).Err? ==> FileOf(v).error == TypeMismatch
  {
    if v.Dict? && Index(v.entries, PATH).List? {
      StringsMeaning(Index(v.entries, PATH).items);
    }
  }

  lemma {:induction false} FilesOnlyMismatch(vs: seq<Value>)
    ensures FilesOf(vs).Err? ==> FilesOf(vs).error == TypeMismatch
    decreases |vs|
  {
    if vs != [] {
      FilesOnlyMismatch(vs[..|vs| - 1]);
      FileErrors(vs[|vs| - 1]);
    }
  }

  // ---------------------------------------------------------------------
  // The record

  /** The files and total size: a "length" key means one file named after
      the torrent; otherwise a "files" list; otherwise none. */
  datatype Layout = Layout(files: seq<FileEntry>, totalSize: U64)

  function LayoutOf(info: map<Bytes, Value>, name: Bytes): Result<Layout> {
    if LENGTH in info then
      var len :- info[LENGTH].AsInt();
      Ok(Layout([FileEntry(name, len)], len))
    else if FILES in info then
      var list :- info[FILES].AsList();
      var files :- FilesOf(list);
      Ok(Layout(files, WrappedTotal(files)))
    else Ok(Layout([], 0))
  }

  /** The value of key in m read with asStr when present, or the default. */
  function OptionalStr(m: map<Bytes, Value>, key: Bytes): Result<Bytes> {
    if key in m then m[key].AsStr() else Ok([])
  }

  /** Parser::parse, its failure wrapped as fillMetadata rethrows it. */
  function ParseDescriptor(data: Bytes): Result<Value> {
    match Decode(data)
    case Err(e) => Err(ParseFailed(e))
    case Ok(v) => Ok(v)
  }

  /** fillMetadata on the file's bytes (None: the file cannot be opened). */
  function MetadataOf(file: Option<Bytes>, sha1: Bytes -> Bytes): Result<Metadata> {
    match file
    case None => Err(CannotOpenFile)
    case Some(data) =>
      var raw :- RawInfoSection(data);
      var value :- ParseDescriptor(data);
      var top :- value.AsDict();
      var announce :- OptionalStr(top, ANNOUNCE);
      var info :- Index(top, INFO).AsDict();
      var name :- OptionalStr(info, NAME);
      var announceList :- if ANNOUNCE_LIST in info then
          var l :- info[ANNOUNCE_LIST].AsList(); Strings(l)
        else Ok([]);
      var pieceLength :- if PIECE_LENGTH in info then info[PIECE_LENGTH].AsInt() else Ok(0);
      var pieceHashes :- if PIECES in info then
          var p :- info[PIECES].AsStr(); Ok(Pieces(p))
        else Ok([]);
      var layout :- LayoutOf(info, name);
      Ok(Metadata(announce, name, pieceLength, layout.totalSize, pieceHashes, layout.files, sha1(raw), announceList))
  }

  /** fillMetadata, step by step. */
  method FillMetadata(file: Option<Bytes>, sha1: Bytes -> Bytes) returns (r: Result<Metadata>)
    ensures r == MetadataOf(file, sha1)
  {
    if file.None? {
      return Err(CannotOpenFile);
    }
    var data := file.value;
    var raw :- RawInfoSection(data);
    var infoHash := sha1(raw);
    var parser := new Parser(data);
    var value := parser.Parse();
    if value.Err? {
      return Err(ParseFailed(value.error));
    }
    assert ParseDescriptor(data) == Ok(value.value);
    var top :- value.value.AsDict();
    var announce :- OptionalStr(top, ANNOUNCE);
    var info :- Index(top, INFO).AsDict();
    var name :- OptionalStr(info, NAME);
    var announceList: seq<Bytes> := [];
    if ANNOUNCE_LIST in info {
      var l :- info[ANNOUNCE_LIST].AsList();
      announceList :- ReadStrings(l);
    }
    var pieceLength: U64 := 0;
    if PIECE_LENGTH in info {
      pieceLength :- info[PIECE_LENGTH].AsInt();
    }
    var pieceHashes: seq<Bytes> := [];
    if PIECES in info {
      var p :- info[PIECES].AsStr();
      pieceHashes := SplitPieces(p);
    }
    var files: seq<FileEntry> := [];
    var totalSize: U64 := 0;
    if LENGTH in info {
      totalSize :- info[LENGTH].AsInt();
      files := [FileEntry(name, totalSize)];
    } else if FILES in info {
      var list :- info[FILES].AsList();
      var collected, total := CollectFiles(list);
      files :- collected;
      totalSize := total;
    }
    r := Ok(Metadata(announce, name, pieceLength, totalSize, pieceHashes, files, infoHash, announceList));
  }
}
