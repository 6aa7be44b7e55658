# skTorrent core in Dafny

This project models the sequential core of skTorrent, a small BitTorrent
client written in C++. The core has three parts.

- **The bencode decoder** (`Value` and `Parser`). A recursive-descent parser
  reads the four bencode productions from a byte buffer, using a cursor
  `m_pos`. The productions are integers `i…e`, strings `<len>:<bytes>`,
  lists `l…e` and dictionaries `d…e`. The model is the class
  `BencodeParser.Parser`, with the cursor as a mutable field and one method
  per parse function. Each method is proved equal to a grammar function in
  `BencodeGrammar`. `BencodeProperties` states what those functions do on
  well-formed text and how they fail.
- **The descriptor helpers in MetaUtils.**
  - `skipElement` and its `skipString` lambda step over one element without
    decoding it. They are modelled as loop methods in `RawScanner`, each
    proved equal to a scan function. The scan is proved to end exactly
    where the decoder's cursor ends, for every value the decoder accepts.
  - `extractRawInfoSection` cuts out the raw bytes of the `info`
    dictionary; it is `InfoSection.RawInfoSection`.
  - `urlEncode` is percent-encoding as in section 2.1 of RFC 3986, with the
    unreserved set of section 2.3. It is `UrlEncoding.UrlEncode`.
  - `fillMetadata` turns the decoded tree into the `Metadata` record. It is
    `TorrentMetadata.FillMetadata`, with its loops: piece splitting, path
    joining and the files list. Its properties are in `MetadataProperties`.
- **The query-string builder** (`RequestBuilder`). It is the class
  `QueryBuilder.RequestBuilder`. The `std::map` of parameters is the
  sequence of its entries in iteration order, with keys strictly ascending.

Some shared building blocks:

- All strings are byte sequences (`Bytes.Bytes`).
- `uint64_t` and `size_t` are `Bytes.U64`.
- `std::stoul` and `std::stoull` are modelled in full by `CppLib.Stoul`.
  That covers leading white space, a sign, a digit prefix, out-of-range,
  and a `-` negating modulo 2^64. This is why `i-123e` decodes to
  2^64 - 123.
- Every exception becomes an `Errors.Error` in a `Result`.

The code departs from the BitTorrent metainfo format (BEP 3, and BEP 12
for `announce-list`) in the following ways, and the model follows the code:

- `announce-list` is read from the `info` dictionary. BEP 12 places it at
  the top level of the metainfo file. Each element is read as a string.
- A metainfo file is one bencoded dictionary, but bytes after the first
  complete value are not looked at.
- BEP 3 integers are signed. A `-` in an integer body is accepted by
  `stoull` and wraps modulo 2^64.
- BEP 3 makes the length of `pieces` a multiple of 20. A length that is
  not gives a shorter last chunk instead of an error.
- BEP 3 defines the info hash over the bencoded `info` value.
  `extractRawInfoSection` instead looks for the text `4:info` anywhere in
  the data. `4:info` written inside an earlier string value (a comment, say) is
  found first. `InfoSection.SectionOfDecoded` therefore assumes that the
  first occurrence is the key of the dictionary it describes. The second
  row of "Findings" shows a descriptor this rejects, and `InfoFindings`
  gives the section located through the decoded tree instead.

## Model

| member | source | states |
|---|---|---|
| Bytes.DigitRunEnd | skTorrent/Utils/BencodeParser.hpp:133-136 | the digit loop stops at or after its start, within the bound, on a byte that is not a digit |
| Bytes.DigitRunEndIs | skTorrent/Utils/BencodeParser.hpp:133-136 | the loop stops exactly at the first non-digit after a run of digits |
| Bytes.DigitRunAllDigits | skTorrent/Utils/BencodeParser.hpp:133-136 | every byte the loop steps over is a digit |
| Bytes.DigitsValueAppend | skTorrent/Utils/BencodeParser.hpp:138 | bytes after a digit run do not change its value |
| Bytes.DecimalString | skTorrent/Core/RequestBuilder.hpp:36 | std::to_string of a non-negative number is a non-empty digit string denoting it |
| Bytes.Substr | skTorrent/Utils/MetaUtils.cpp:106 | substr yields count bytes from pos, clipped at the end of the string |
| CppLib.Stoul | skTorrent/Utils/BencodeParser.hpp:138 | stoul and stoull fail only with invalid_argument or out_of_range |
| CppLib.StoulIn | skTorrent/Utils/BencodeParser.hpp:125-127 | converting bytes in place fails only with invalid_argument or out_of_range |
| CppLib.SpaceRunEnd | skTorrent/Utils/BencodeParser.hpp:138 | leading white space skipped by stoul stays within bounds |
| CppLib.Magnitude | skTorrent/Utils/BencodeParser.hpp:138 | an empty digit run or one above 2^64 - 1 fails with the matching exception |
| CppLib.Negated | skTorrent/Utils/BencodeParser.hpp:127 | a sign fails exactly when the magnitude fails, with the same error |
| CppLib.Negate | skTorrent/Utils/BencodeParser.hpp:127 | unsigned negation: n plus its negation is 0 modulo 2^64 |
| CppLib.StoulSlice | skTorrent/Utils/BencodeParser.hpp:125-127 | converting the copied substring is converting the bytes in place |
| CppLib.SpaceRunShift | skTorrent/Utils/BencodeParser.hpp:125 | the white-space run of a copied substring sits at the same place, shifted |
| CppLib.DigitRunShift | skTorrent/Utils/BencodeParser.hpp:125 | the digit run of a copied substring sits at the same place, shifted |
| CppLib.DigitsValueWindow | skTorrent/Utils/BencodeParser.hpp:125 | the digits of a copied substring have the same value |
| CppLib.StoulOfDigitRun | skTorrent/Utils/MetaUtils.cpp:44 | a digit run followed by other bytes converts to the run's value or is out_of_range |
| CppLib.StoulOfDigits | skTorrent/Utils/BencodeParser.hpp:137-138 | on digits, conversion succeeds iff the run is non-empty and below 2^64, gives their value, and otherwise names the exception |
| CppLib.StoulNegative | Test/BencodeTest.cpp:14-20 | "-" and digits convert to the unsigned negation of their value |
| CppLib.DigitsValueShiftUpTo | Test/BencodeTest.cpp:14-20 | every prefix of digits after a prefix keeps its value |
| CppLib.FindFrom | skTorrent/Utils/MetaUtils.cpp:93 | find from an index returns the first occurrence there or after, or none when there is none |
| CppLib.Find | skTorrent/Utils/MetaUtils.cpp:93 | std::string::find returns the first occurrence, or npos exactly when the pattern occurs nowhere |
| BencodeValue.Value.AsInt | skTorrent/Utils/BencodeParser.hpp:42-45 | asInt succeeds exactly on an integer and gives it back; otherwise TypeMismatch |
| BencodeValue.Value.AsStr | skTorrent/Utils/BencodeParser.hpp:47-50 | asStr succeeds exactly on a string and gives it back; otherwise TypeMismatch |
| BencodeValue.Value.AsList | skTorrent/Utils/BencodeParser.hpp:52-55 | asList succeeds exactly on a list and gives it back; otherwise TypeMismatch |
| BencodeValue.Value.AsDict | skTorrent/Utils/BencodeParser.hpp:57-60 | asDict succeeds exactly on a dictionary and gives it back; otherwise TypeMismatch |
| BencodeValue.ExactlyOneTag | skTorrent/Utils/BencodeParser.hpp:22-40 | exactly one of isInt, isStr, isList, isDict holds |
| BencodeGrammar.FindByte | skTorrent/Utils/BencodeParser.hpp:121-124 | the loop stepping to a byte stops on that byte, inside the data |
| BencodeGrammar.FindByteIs | skTorrent/Utils/BencodeParser.hpp:121-124 | it stops on the first such byte |
| BencodeGrammar.FindByteFirst | skTorrent/Utils/BencodeParser.hpp:121-124 | no byte it steps over is the one sought, and none after the start is when it finds none |
| BencodeGrammar.DecodeValue | skTorrent/Utils/BencodeParser.hpp:95-115 | on success the cursor strictly advances and stays within the data |
| BencodeGrammar.DecodeInt | skTorrent/Utils/BencodeParser.hpp:117-128 | on success an integer, with the cursor advanced and within the data |
| BencodeGrammar.DecodeString | skTorrent/Utils/BencodeParser.hpp:130-153 | on success a string, with the cursor strictly advanced and within the data |
| BencodeGrammar.DecodeList | skTorrent/Utils/BencodeParser.hpp:155-165 | on success a list, with the cursor advanced and within the data |
| BencodeGrammar.DecodeListItems | skTorrent/Utils/BencodeParser.hpp:158-163 | the loop yields a list and leaves the cursor within the data |
| BencodeGrammar.DecodeDict | skTorrent/Utils/BencodeParser.hpp:167-183 | on success a dictionary, with the cursor advanced and within the data |
| BencodeGrammar.DecodeDictItems | skTorrent/Utils/BencodeParser.hpp:170-180 | the loop yields a dictionary and leaves the cursor within the data |
| BencodeGrammar.ListItemsStep | skTorrent/Utils/BencodeParser.hpp:160-163 | an element that decodes is appended and the loop continues after it |
| BencodeGrammar.DictItemsStep | skTorrent/Utils/BencodeParser.hpp:172-180 | a key and value that decode are stored and the loop continues after them |
| BencodeGrammar.ValueDispatch | skTorrent/Utils/BencodeParser.hpp:97-113 | parseValue dispatches on 'i', 'l', 'd' and digits |
| BencodeParser.Parser.constructor | skTorrent/Utils/BencodeParser.hpp:66-68 | a parser over the data with the cursor at 0 |
| BencodeParser.Parser.Peek | skTorrent/Utils/BencodeParser.hpp:79-86 | peek gives the byte under the cursor exactly when the cursor is inside the data, and fails with end-of-data otherwise |
| BencodeParser.Parser.Get | skTorrent/Utils/BencodeParser.hpp:88-93 | get returns what peek returns and advances the cursor by one when it succeeds |
| BencodeParser.Parser.Parse | skTorrent/Utils/BencodeParser.hpp:70-73 | the value or error and the final cursor are those of the grammar from the starting cursor |
| BencodeParser.Parser.ParseValue | skTorrent/Utils/BencodeParser.hpp:95-115 | outcome and final cursor equal DecodeValue |
| BencodeParser.Parser.ParseInt | skTorrent/Utils/BencodeParser.hpp:117-128 | outcome and final cursor equal DecodeInt |
| BencodeParser.Parser.SkipDigits | skTorrent/Utils/BencodeParser.hpp:133-136 | the loop ends on the first non-digit when there is one inside the data, and fails with end-of-data otherwise |
| BencodeParser.Parser.ParseString | skTorrent/Utils/BencodeParser.hpp:130-153 | outcome and final cursor equal DecodeString |
| BencodeParser.Parser.ParseList | skTorrent/Utils/BencodeParser.hpp:155-165 | outcome and final cursor equal DecodeList |
| BencodeParser.Parser.ParseDict | skTorrent/Utils/BencodeParser.hpp:167-183 | outcome and final cursor equal DecodeDict; the non-string key branch is unreachable |
| BencodeProperties.ValueStart | skTorrent/Utils/BencodeParser.hpp:95-115 | every accepted value starts inside the data with 'i', 'l', 'd' or a digit |
| BencodeProperties.ValueLookaheadErrors | skTorrent/Utils/BencodeParser.hpp:79-86 | at or past the end parseValue fails with end-of-data; on any other lookahead it fails naming the byte |
| BencodeProperties.DigitsLayout | skTorrent/Utils/BencodeParser.hpp:133-136 | a digit run written before a non-digit ends at that byte |
| BencodeProperties.StringOfDigitsFollowedBy | skTorrent/Utils/BencodeParser.hpp:130-153 | digits then c: out_of_range, missing colon, out of range of the data, or exactly the declared bytes with the cursor after them, in the source's order |
| BencodeProperties.StringWithoutDigits | skTorrent/Utils/BencodeParser.hpp:137-138 | no digits means stoul of an empty string, invalid_argument |
| BencodeProperties.StringDigitsToEnd | skTorrent/Utils/BencodeParser.hpp:133-136 | digits running to the end fail in peek |
| BencodeProperties.StringStart | skTorrent/Utils/BencodeParser.hpp:130-153 | an accepted string starts with a digit inside the data |
| BencodeProperties.StringOfDigitsDecodes | Test/BencodeTest.cpp:22-28 | "<n>:" and n bytes decode to exactly those bytes, with the cursor advanced by digit count + 1 + n |
| BencodeProperties.IntMissingEnd | skTorrent/Utils/BencodeParser.hpp:121-124 | an integer without 'e' fails with end-of-data |
| BencodeProperties.IntLayout | skTorrent/Utils/BencodeParser.hpp:119-126 | the loop of parseInt stops on the 'e' after the body |
| BencodeProperties.IntOfBodyDecodes | skTorrent/Utils/BencodeParser.hpp:117-128 | "i<body>e" is whatever stoull makes of the body, with the cursor after 'e' |
| BencodeProperties.IntOfDigitsDecodes | Test/BencodeTest.cpp:6-12 | "i<digits>e" is their value with the cursor after 'e', or out_of_range |
| BencodeProperties.IntEmptyFails | skTorrent/Utils/BencodeParser.hpp:125-127 | "ie" fails with invalid_argument |
| BencodeProperties.IntNegativeWraps | Test/BencodeTest.cpp:14-20 | "i-<digits>e" is 2^64 minus their value |
| BencodeProperties.ListItemsOfConsecutive | skTorrent/Utils/BencodeParser.hpp:158-163 | values decoding one after another up to 'e' are collected in order |
| BencodeProperties.ConsecutiveOfListItems | skTorrent/Utils/BencodeParser.hpp:158-163 | whatever the list loop returns is such a sequence of values |
| BencodeProperties.ListDecodes | Test/BencodeTest.cpp:30-39 | a list decodes to vs iff vs decode one after another from after 'l' up to an 'e' |
| BencodeProperties.ListItemsDecode | skTorrent/Utils/BencodeParser.hpp:158-164 | the list loop yields vs iff vs decode one after another up to an 'e' |
| BencodeProperties.StoredKeys | skTorrent/Utils/BencodeParser.hpp:179 | storing entries adds exactly the keys written |
| BencodeProperties.StoredUntouched | skTorrent/Utils/BencodeParser.hpp:179 | a key not written keeps its value (lookup is by key) |
| BencodeProperties.StoredLastWins | skTorrent/Utils/BencodeParser.hpp:179 | a repeated key keeps the last value written |
| BencodeProperties.DictItemsOfConsecutive | skTorrent/Utils/BencodeParser.hpp:170-182 | entries decoding one after another up to 'e' are stored in order |
| BencodeProperties.ConsecutiveOfDictItems | skTorrent/Utils/BencodeParser.hpp:170-182 | whatever the dictionary loop returns stores such entries |
| BencodeProperties.DictKeyNotString | skTorrent/Utils/BencodeParser.hpp:172-174 | a key not starting with a digit fails with invalid_argument from stoul |
| BencodeProperties.DictOfConsecutive | Test/BencodeTest.cpp:41-49 | a dictionary of entries written one after another stores them in order |
| BencodeProperties.ConsecutiveOfDict | skTorrent/Utils/BencodeParser.hpp:167-183 | every decoded dictionary is the entries written between 'd' and 'e', stored in order |
| BencodeFindings.DecodeStringAsWritten | skTorrent/Utils/BencodeParser.hpp:145-152 | parseString with size_t wrap-around yields a string and a cursor below 2^64 |
| BencodeFindings.AsWrittenAgreesWithoutWrap | skTorrent/Utils/BencodeParser.hpp:145-152 | without the wrap the as-written and intended readings agree |
| BencodeFindings.WrappingLengthValue | skTorrent/Utils/BencodeParser.hpp:138 | the twenty digits denote 2^64 - 21 |
| BencodeFindings.WrapDataPrefix | skTorrent/Utils/BencodeParser.hpp:133-138 | in the counterexample the digit loop stops on the ':' at 21 and stoul reads 2^64 - 21 |
| BencodeFindings.WrapCounterexample | skTorrent/Utils/BencodeParser.hpp:145-152 | on "l18446744073709551595:" the as-written string ends where it began; the intended one is out of range |
| RawScanner.ByteAt | skTorrent/Utils/MetaUtils.cpp:39 | an unchecked read succeeds exactly inside the data |
| RawScanner.ScanString | skTorrent/Utils/MetaUtils.cpp:36-46 | skipString's result is at or after its start, and one past it is below 2^64; it fails only by scanning, wrapping or stoul |
| RawScanner.ScanEnd | skTorrent/Utils/MetaUtils.cpp:32-89 | skipElement moves strictly forward, or fails only by scanning, wrapping or stoul |
| RawScanner.ScanStringEnd | skTorrent/Utils/MetaUtils.cpp:48-51 | the digit case moves strictly forward; the ++retpos after skipString never wraps |
| RawScanner.ScanInt | skTorrent/Utils/MetaUtils.cpp:56-63 | the 'i' case moves strictly forward |
| RawScanner.ScanList | skTorrent/Utils/MetaUtils.cpp:64-72 | the 'l' case moves strictly forward |
| RawScanner.ScanDict | skTorrent/Utils/MetaUtils.cpp:73-83 | the 'd' case moves strictly forward |
| RawScanner.ScanListItems | skTorrent/Utils/MetaUtils.cpp:67-70 | the 'l' loop stops on an 'e' inside the data |
| RawScanner.ScanDictItems | skTorrent/Utils/MetaUtils.cpp:76-81 | the 'd' loop stops on an 'e' inside the data |
| RawScanner.SkipString | skTorrent/Utils/MetaUtils.cpp:36-46 | the lambda's loop computes ScanString |
| RawScanner.SkipElement | skTorrent/Utils/MetaUtils.cpp:32-89 | skipElement computes ScanEnd |
| RawScanner.SkipListItems | skTorrent/Utils/MetaUtils.cpp:67-70 | the 'l' loop computes ScanListItems |
| RawScanner.SkipDictItems | skTorrent/Utils/MetaUtils.cpp:76-81 | the 'd' loop computes ScanDictItems |
| RawScanner.ScanStringAgrees | skTorrent/Utils/MetaUtils.cpp:36-46 | on a string parseString accepts, skipString stops at its last byte |
| RawScanner.ScanDispatch | skTorrent/Utils/MetaUtils.cpp:48-85 | skipElement dispatches on digits, 'i', 'l' and 'd' |
| RawScanner.ScanValueAgrees | skTorrent/Utils/MetaUtils.cpp:32-89 | for every value parseValue accepts, skipElement ends where the parser's cursor ends |
| RawScanner.ScanStringEndAgrees | skTorrent/Utils/MetaUtils.cpp:48-51 | the digit case ends where parseString ends |
| RawScanner.ScanIntAgrees | skTorrent/Utils/MetaUtils.cpp:56-63 | the 'i' case ends where parseInt ends |
| RawScanner.ScanListCase | skTorrent/Utils/MetaUtils.cpp:64-72 | the 'l' case ends one past its loop's 'e' |
| RawScanner.ScanDictCase | skTorrent/Utils/MetaUtils.cpp:73-83 | the 'd' case ends one past its loop's 'e' |
| RawScanner.ScanListAgrees | skTorrent/Utils/MetaUtils.cpp:67-70 | the 'l' loop stops on the 'e' where parseList's loop stops |
| RawScanner.ScanListStep | skTorrent/Utils/MetaUtils.cpp:67-70 | one element skipped, the loop continues after it |
| RawScanner.ScanDictAgrees | skTorrent/Utils/MetaUtils.cpp:76-81 | the 'd' loop stops on the 'e' where parseDict's loop stops |
| RawScanner.ScanDictStep | skTorrent/Utils/MetaUtils.cpp:76-81 | one key and value skipped, the loop continues after them |
| RawScanner.ScanOfLengthPrefix | skTorrent/Utils/MetaUtils.cpp:36-51 | for a string, skipElement returns the index of ':' + len + 1, "0:" included |
| RawScanner.ScanOfInt | skTorrent/Utils/MetaUtils.cpp:56-63 | for an integer, skipElement returns one past the first 'e' |
| InfoSection.RawInfoSection | skTorrent/Utils/MetaUtils.cpp:91-107 | the section starts with 'd'; failures are not-found, invalid start or a scan failure |
| InfoSection.NotFoundExactly | skTorrent/Utils/MetaUtils.cpp:93-97 | the not-found error happens exactly when "4:info" occurs nowhere |
| InfoSection.InvalidStartExactly | skTorrent/Utils/MetaUtils.cpp:99-103 | the invalid-start error happens exactly when the byte after the first "4:info" is missing or not 'd' |
| InfoSection.FirstOccurrenceIsFound | skTorrent/Utils/MetaUtils.cpp:93 | find returns the first occurrence |
| InfoSection.SectionShape | skTorrent/Utils/MetaUtils.cpp:99-106 | the section is the bytes right after the first "4:info", starts with 'd' and ends with 'e' |
| InfoSection.DictScanShape | skTorrent/Utils/MetaUtils.cpp:73-87 | skipElement on a 'd' stops one past an 'e' inside the data, at least two bytes on |
| InfoSection.SectionOfDecoded | skTorrent/Utils/MetaUtils.cpp:105-106 | when the decoder accepts the dictionary there, the section is exactly the bytes it consumed |
| InfoFindings.InfoEntrySection | skTorrent/Utils/MetaUtils.cpp:91-107 | the info section located through the decoded tree (the corrected half of the second finding); a section it returns starts with 'd' |
| InfoFindings.InfoSpanItems | skTorrent/Utils/BencodeParser.hpp:167-183 | parseDict's loop over the top-level entries, keeping where the last "info" value was decoded; a span it returns lies inside the data |
| InfoFindings.InfoSpanItemsTracks | skTorrent/Utils/BencodeParser.hpp:167-183 | the loop's span is where the value parseDict stores under "info" was decoded, and there is one exactly when that key is stored |
| InfoFindings.DictStartsWithD | skTorrent/Utils/BencodeParser.hpp:95-115 | only a 'd' starts a value that decodes to a dictionary |
| InfoFindings.InfoEntrySectionIsEntry | skTorrent/Utils/MetaUtils.cpp:91-107 | for every descriptor that decodes to a dictionary, the section is exactly the bytes its top-level "info" entry was decoded from; InfoNotFound without that entry, InfoInvalidStart when it is no dictionary |
| InfoFindings.MisleadingStrings | skTorrent/Utils/BencodeParser.hpp:130-153 | parseString reads the comment key, the comment and the "info" key of the example |
| InfoFindings.MisleadingInnerStrings | skTorrent/Utils/BencodeParser.hpp:130-153 | parseString reads the strings of the example's info dictionary |
| InfoFindings.MisleadingInnerDecodes | skTorrent/Utils/BencodeParser.hpp:167-183 | the example's info entry decodes to the dictionary {name: a} |
| InfoFindings.MisleadingEntries | skTorrent/Utils/BencodeParser.hpp:167-183 | the example's top-level entries are a comment "4:infox" and then "info" |
| InfoFindings.MisleadingDecodes | skTorrent/Utils/BencodeParser.hpp:155-183 | the example decodes to a dictionary whose "info" entry is a dictionary |
| InfoFindings.MisleadingFirstOccurrence | skTorrent/Utils/MetaUtils.cpp:93 | the example's first "4:info" lies inside the comment, followed by 'x' |
| InfoFindings.MisleadingEntrySection | skTorrent/Utils/MetaUtils.cpp:91-107 | the corrected section of the example is its info dictionary |
| InfoFindings.MisleadingCounterexample | skTorrent/Utils/MetaUtils.cpp:93-103 | as written, a descriptor that decodes with a dictionary under "info" is rejected with InfoInvalidStart; the corrected section is that entry |
| UrlEncoding.EncodeByte | skTorrent/Utils/MetaUtils.cpp:18-27 | an unreserved byte is copied; any other becomes three bytes starting with '%' |
| UrlEncoding.UrlEncode | skTorrent/Utils/MetaUtils.cpp:12-30 | the loop computes the byte-by-byte encoding |
| UrlEncoding.EscapedCount | skTorrent/Utils/MetaUtils.cpp:22-27 | at most one escape per byte |
| UrlEncoding.EncodedLength | skTorrent/Utils/MetaUtils.cpp:12-30 | the output length is the input length plus 2 per escaped byte |
| UrlEncoding.EncodedAppend | skTorrent/Utils/MetaUtils.cpp:16-28 | encoding distributes over concatenation |
| UrlEncoding.EncodedUnchanged | skTorrent/Utils/MetaUtils.cpp:18-21 | a string is left unchanged iff all its bytes are unreserved |
| UrlEncoding.AllUnreservedUnchanged | skTorrent/Utils/MetaUtils.cpp:18-21 | unreserved bytes are copied |
| UrlEncoding.NoneEscapedAllUnreserved | skTorrent/Utils/MetaUtils.cpp:18-21 | nothing escaped means every byte is unreserved |
| UrlEncoding.EncodedIsSafe | skTorrent/Utils/MetaUtils.cpp:12-30 | every output byte is unreserved or '%' |
| UrlEncoding.HexValue | skTorrent/Utils/MetaUtils.cpp:14 | a hexadecimal digit's value is below 16 |
| UrlEncoding.HexTable | skTorrent/Utils/MetaUtils.cpp:14 | the table entry for d is the upper-case hexadecimal digit d ('0'-'9', then 'A'-'F') and reads back as d |
| UrlEncoding.HexDigitIsUnreserved | skTorrent/Utils/MetaUtils.cpp:14 | table entries are unreserved and not '%' |
| UrlEncoding.DecodeEncoded | skTorrent/Utils/MetaUtils.cpp:12-30 | percent-decoding the output gives back the input |
| UrlEncoding.DecodeByteThen | skTorrent/Utils/MetaUtils.cpp:24-26 | one encoded byte decodes back, whatever follows |
| UrlEncoding.EncodedInjective | skTorrent/Utils/MetaUtils.cpp:12-30 | distinct inputs have distinct encodings |
| QueryBuilder.LessIrreflexive | skTorrent/Core/RequestBuilder.hpp:58 | no key is ordered before itself |
| QueryBuilder.LessTransitive | skTorrent/Core/RequestBuilder.hpp:58 | the key order is transitive |
| QueryBuilder.LessTotal | skTorrent/Core/RequestBuilder.hpp:58 | two keys are equal or ordered exactly one way |
| QueryBuilder.KeyAbsent | skTorrent/Core/RequestBuilder.hpp:58 | a key on no entry is not mapped |
| QueryBuilder.KeyIndex | skTorrent/Core/RequestBuilder.hpp:58 | a mapped key is on some entry |
| QueryBuilder.TailMap | skTorrent/Core/RequestBuilder.hpp:58 | dropping the smallest entry removes just its key |
| QueryBuilder.HeadMapped | skTorrent/Core/RequestBuilder.hpp:58 | the first entry's key is mapped |
| QueryBuilder.SortedUnique | skTorrent/Core/RequestBuilder.hpp:49-52 | the parameters determine the iteration order, whatever the insertion order |
| QueryBuilder.ToMapAppend | skTorrent/Core/RequestBuilder.hpp:58 | the mapping of concatenated entries |
| QueryBuilder.InsertEntry | skTorrent/Core/RequestBuilder.hpp:32 | inserting a new key keeps the order and adds that key only |
| QueryBuilder.MapAfterSplice | skTorrent/Core/RequestBuilder.hpp:32 | the mapping after an entry is spliced in |
| QueryBuilder.MapOverride | skTorrent/Core/RequestBuilder.hpp:32 | overriding a key not in front of it |
| QueryBuilder.ReplaceEntry | skTorrent/Core/RequestBuilder.hpp:32 | overwriting a present key keeps the order and changes that value only |
| QueryBuilder.TerminatedJoined | skTorrent/Core/RequestBuilder.hpp:49-53 | "k=v&" for each entry, minus the last '&', is the entries joined with '&' |
| QueryBuilder.ToString | skTorrent/Core/RequestBuilder.hpp:36 | std::to_string of an integer is never empty |
| QueryBuilder.StoulToString | skTorrent/Core/RequestBuilder.hpp:36 | stoul reads back any unsigned 64-bit number written by to_string |
| QueryBuilder.StoulToStringNegative | skTorrent/Core/RequestBuilder.hpp:36 | a negative number reads back negated modulo 2^64 |
| QueryBuilder.RequestBuilder.constructor | skTorrent/Core/RequestBuilder.hpp:24 | empty URL and no parameters |
| QueryBuilder.RequestBuilder.AddParameter | skTorrent/Core/RequestBuilder.hpp:27-38 | the key gets the value, other keys keep theirs, the URL is unchanged and the order is kept |
| QueryBuilder.RequestBuilder.AddNumberParameter | skTorrent/Core/RequestBuilder.hpp:34-37 | the key gets the number's to_string |
| QueryBuilder.RequestBuilder.SetUrl | skTorrent/Core/RequestBuilder.hpp:40-43 | only the URL changes |
| QueryBuilder.RequestBuilder.Build | skTorrent/Core/RequestBuilder.hpp:45-55 | the URL alone without parameters, else URL '?' k1=v1&…&kn=vn in key order; nothing changes |
| QueryBuilder.RequestDeterminedByMap | skTorrent/Core/RequestBuilder.hpp:49-52 | the same URL and parameters give the same request, whatever the insertion order |
| TorrentMetadata.SplitPieces | skTorrent/Utils/MetaUtils.cpp:172-179 | the loop computes the 20-byte chunks |
| TorrentMetadata.PiecesSplit | skTorrent/Utils/MetaUtils.cpp:175-178 | the chunks concatenate to the pieces string; there are ceil(n/20), all of 20 bytes but the last, which holds 1 to 20 |
| TorrentMetadata.PiecesFromSplit | skTorrent/Utils/MetaUtils.cpp:175-178 | the same from any index on |
| TorrentMetadata.StringsMeaning | skTorrent/Utils/MetaUtils.cpp:160-164 | reading a list of strings succeeds iff every element is a string, gives one per element, else TypeMismatch |
| TorrentMetadata.ReadStrings | skTorrent/Utils/MetaUtils.cpp:160-164 | the announce-list loop computes Strings |
| TorrentMetadata.StringsFailFrom | skTorrent/Utils/MetaUtils.cpp:161-164 | a failing prefix fails the whole list |
| TorrentMetadata.SlashedJoined | skTorrent/Utils/MetaUtils.cpp:196-204 | components each followed by '/', minus the last '/', are the components joined by '/' |
| TorrentMetadata.BuildPath | skTorrent/Utils/MetaUtils.cpp:194-204 | the path loop computes the joined path, or TypeMismatch on a non-string |
| TorrentMetadata.WrappedTotalIsTotal | skTorrent/Utils/MetaUtils.cpp:207 | the uint64_t running total is the exact sum modulo 2^64 |
| TorrentMetadata.FilesMeaning | skTorrent/Utils/MetaUtils.cpp:190-208 | the files succeed iff every element yields a file, one entry per element in order |
| TorrentMetadata.CollectFiles | skTorrent/Utils/MetaUtils.cpp:186-209 | the files loop computes the entries and their wrapped total |
| TorrentMetadata.FilesStep | skTorrent/Utils/MetaUtils.cpp:206-207 | one more file extends the entries and the total |
| TorrentMetadata.ReadFile | skTorrent/Utils/MetaUtils.cpp:192-206 | the loop body computes FileOf |
| TorrentMetadata.FilesFailFrom | skTorrent/Utils/MetaUtils.cpp:190-208 | a failing prefix fails the whole list |
| TorrentMetadata.FilesFailAt | skTorrent/Utils/MetaUtils.cpp:190-208 | the first element that yields no file decides the failure of the whole list |
| TorrentMetadata.FileErrors | skTorrent/Utils/MetaUtils.cpp:192-198 | a file fails only with TypeMismatch |
| TorrentMetadata.FilesOnlyMismatch | skTorrent/Utils/MetaUtils.cpp:190-208 | the files fail only with TypeMismatch |
| TorrentMetadata.FillMetadata | skTorrent/Utils/MetaUtils.cpp:117-211 | the method computes MetadataOf |
| MetadataProperties.ExtractionComesFirst | skTorrent/Utils/MetaUtils.cpp:129 | a failure to cut out the info section is reported before any decoding |
| MetadataProperties.NotADescriptor | Test/TorrentMetaTest.cpp:218-223 | "xyz" fails because "4:info" is missing |
| MetadataProperties.ParseFailureWrapped | skTorrent/Utils/MetaUtils.cpp:131-144 | a decoding failure is reported wrapped with its cause |
| MetadataProperties.InfoHashOfOriginalBytes | skTorrent/Utils/MetaUtils.cpp:129 | the info hash is the hash of the bytes, as written, of the dictionary the decoder reads after the first "4:info" |
| MetadataProperties.InfoHashOfSection | skTorrent/Utils/MetaUtils.cpp:129 | a filled record's info hash is the hash of the cut-out info section |
| MetadataProperties.CopiedFields | skTorrent/Utils/MetaUtils.cpp:148-170 | announce, name and piece length are copied when present, defaults otherwise, and are of the right variant |
| MetadataProperties.PieceHashes | skTorrent/Utils/MetaUtils.cpp:172-179 | the hashes are the pieces string in 20-byte chunks, in order, their number ceil(n/20); none without "pieces" |
| MetadataProperties.RecordLayout | skTorrent/Utils/MetaUtils.cpp:181-209 | files and total size come from the layout of the info dictionary |
| MetadataProperties.SingleFileLayout | skTorrent/Utils/MetaUtils.cpp:181-185 | with "length": one file named after the torrent with that size, which is the total |
| MetadataProperties.MultiFileLayout | skTorrent/Utils/MetaUtils.cpp:186-209 | with "files" and no "length": one entry per element in order, total the sum modulo 2^64 |
| MetadataProperties.NoFileLayout | skTorrent/Utils/MetaUtils.cpp:181-209 | with neither: no files and total 0 |
| MetadataProperties.FileEntryOf | skTorrent/Utils/MetaUtils.cpp:192-206 | a file's path is its components joined with '/' and its size is "length", 0 when missing |
| MetadataProperties.FileWithoutPath | skTorrent/Utils/MetaUtils.cpp:194 | a file without "path" fails, the default Integer 0 not being a list |
| MetadataProperties.LastSlash | skTorrent/Utils/MetaUtils.cpp:198 | the index found holds '/' |
| MetadataProperties.LastSlashAfter | skTorrent/Utils/MetaUtils.cpp:198 | the last '/' of a joined path is the one before the last component |
| MetadataProperties.LastSlashNone | skTorrent/Utils/MetaUtils.cpp:198 | a component without '/' has no last slash |
| MetadataProperties.SplitJoinPath | skTorrent/Utils/MetaUtils.cpp:196-204 | components without '/' are recovered by splitting the joined path |

## Left out

- Reading the descriptor file is an input: its bytes, or `None` when it cannot be opened. The first read and the `std::cout` line are not modelled.
- SHA-1 (`computeInfoHash`) is a function parameter; SHA-1 itself is not modelled.
- Logger, TorrentSession, its background thread and main.cpp are not part of this model.
- Exception messages are not modelled; only the kind of failure is kept.
- `std::string` yields a NUL at index `size()`. A top-level `skipElement` at `size()` would read it and return `size() + 1`; the model fails instead.
- `skipElement` never checks bounds; reading past the end is undefined behaviour. The model fails with `ScanPastEnd` instead.
- RawScanner.ScanString: when `pos += stoul(len)`, or the `++retpos` that always follows `skipString` (MetaUtils.cpp:79 and :87), would wrap `size_t`, the source carries on from the wrapped position. The model stops with `LengthWraps`, so a last index of 2^64 - 1 or more is never returned.
- An unknown byte in `skipElement` steps one byte, as the source does (`default: break`).
- `std::isdigit`, `std::isalnum` and `std::isspace` are their "C" locale ASCII versions.
- Bytes.DigitValue is total (0 for a non-digit) because no caller passes a non-digit.
- BencodeParser.Parser.ParseDict: the "Dictionary key must be string" branch cannot be taken; the model asserts this instead of modelling the throw.
- The pieces loop steps `i += 20` in `size_t`. A wrap for strings within 20 bytes of 2^64 is not modelled.
- QueryBuilder.RequestBuilder.AddNumberParameter: `std::to_string` of floating-point values is not modelled, only integers.
- The `std::map` of `RequestBuilder::m_parameters` is modelled as a sorted entry sequence, not as a balanced tree. Only its iteration order and contents are kept.
- The decoder's `Dict` (a `std::map`) is a Dafny `map`, which has no order. The core never iterates a decoded dictionary, so nothing observes the order it drops.
- MetadataProperties.InfoHashOfOriginalBytes and InfoSection.SectionOfDecoded speak of the dictionary after the first "4:info" in the text, as the source hashes it; they do not promise that this is the top-level "info" entry. The second finding shows a descriptor where it is not.
- `Parser` keeps a `std::string_view`; the lifetime of the viewed buffer is not modelled.
- `Metadata` has an `announceList` field because the implementation writes one, although the declared struct has no such field.

## Findings

| source | as written | input that shows it | evidently intended | confidence | as-written member | corrected member |
|---|---|---|---|---|---|---|
| skTorrent/Utils/BencodeParser.hpp:145-152 | `m_pos + len > m_data.size()` and `m_pos += len` are computed in `size_t` and wrap modulo 2^64 | `l18446744073709551595:`: after the ':' the cursor is 22, and 22 + (2^64 - 21) wraps to 1. The check passes, and the cursor goes back to the start of the same string, so parseList loops forever | reject any declared length running past the end of the data | not executed | BencodeFindings.WrapCounterexample | BencodeGrammar.DecodeString |
| skTorrent/Utils/MetaUtils.cpp:93-103 | the info section is found by searching the whole text for `4:info`, so a string value written before the `info` key can hold that text | `d7:comment7:4:infox4:infod4:name1:aee`: it decodes to a dictionary whose "info" entry is a dictionary, but the first `4:info` is inside the comment and is followed by 'x', so the extraction fails with "invalid start" | hash the bytes of the top-level "info" entry | not executed | InfoFindings.MisleadingCounterexample | InfoFindings.InfoEntrySectionIsEntry |
