# tnef2mime in Dafny

This project models the decoding core of tnef2mime in Dafny and proves properties of the model. tnef2mime reads Microsoft mail containers: TNEF attribute streams (`winmail.dat`) and the property stream of CFB-backed `.msg` files. It decodes the MAPI properties inside them.

The tools modelled:

- `tnef2mime` reads a TNEF stream and walks its attributes. It switches the 8-bit charset on an OEM codepage attribute and decodes the property lists of message-property and attachment attributes. It keeps the transport headers (trailing NULs trimmed), the HTML body and the attachment data. It hexdumps every attribute it cannot decode. It writes an e-mail only when both headers and body were found.
- `ftdump` splits a file into typed chunks. It parses the message chunks (type 2) into markers and property records.
- `props_md2attr` and `docx2attr_common` build the property-id table. The entries come from the paragraphs of the property reference document and from per-property Markdown pages. The document is read first, so it wins.

Every byte-reading layer is modelled on a cursor: an immutable `seq<byte>` and a position. Every read returns the value and the next position, or a failure. The loops that walk a stream or a table are `method`s with a `while` or `for` loop: the record, property, value-count, chunk, entry, element-stream, word, checksum, paragraph, page and event loops. Two loops of ftdump run inside the reading of one element and are part of element functions instead, which `FtDump.DecodeValue` and `FtDump.ReadMany` call: the `chunks(2)` word loop of a UTF-16 value (ftdump/src/main.rs:254-257) is `Words` inside `FtDump.WideEl`, and the `for _ in 0..value_count` loop of a single-valued String8 or String (ftdump/src/main.rs:217, 243) is `FtDump.SingleAt`. Each method is proved equal to a recursive specification function, and the lemmas state what those functions promise:

- bounds and consumption;
- the error cases;
- checksums;
- round trips against an encoder that writes the same layout.

`PropertyCollection`, which the source mutates through `add_property`, is a `class`. Its methods keep an invariant: names unique, one defined entry per id, aliases pointing at defined names.

Modules, in dependency order:

- `Wrappers`: `Option`, `Result`.
- `BinRead`: integer reads and padding.
- `Slices`: slice algebra helpers.
- `Hex`: hex formatting.
- `Utf16`: `String::from_utf16` and its inverse.
- `Guids`: the GUID type.
- `Msox`: property types and values.
- `Tnef`: records.
- `TnefProps`: property decoding.
- `CfbMsg`: the `.msg` property stream.
- `FtDump`: ftdump.
- `HexDump` and `Tnef2Mime`: `tnef2mime`'s `main.rs`.
- `PropsMd2Attr`, `Docx2Attr`.

Where the repository's documentation and its code disagree, the model follows the code:

- A TNEF record's level is one byte, not two.
- A checksum mismatch always fails the read. There is no lenient mode.
- A property of an unknown type is not kept as an opaque value. `decode_property` reads 128 bytes and panics; the model returns `UnknownType` after those 128 bytes.
- An unknown OEM codepage keeps the current charset, the initial one being UTF-8.
- `tnef2mime` creates no MIME structure. The e-mail file is the trimmed headers followed by the HTML body bytes.
- The input is always read as TNEF. There is no sniffing of the format by signature.

## Model

| member | source | states |
|---|---|---|
| BinRead.ReadU8 | tnef2mime/src/binread.rs:49-53 | succeeds exactly when a byte remains; returns it and advances by one |
| BinRead.ReadU16Le | tnef2mime/src/binread.rs:64-71 | succeeds iff two bytes remain; the value is the little-endian value of those bytes; advances by two |
| BinRead.ReadU16Be | tnef2mime/src/binread.rs:55-62 | succeeds iff two bytes remain; the value is the big-endian value of those bytes |
| BinRead.ReadU32Le | tnef2mime/src/binread.rs:84-93 | succeeds iff four bytes remain; little-endian value of those bytes; advances by four |
| BinRead.ReadU32Be | tnef2mime/src/binread.rs:73-82 | succeeds iff four bytes remain; big-endian value of those bytes |
| BinRead.ReadU64Le | tnef2mime/src/binread.rs:110-123 | succeeds iff eight bytes remain; little-endian value of those bytes |
| BinRead.ReadU64Be | tnef2mime/src/binread.rs:95-108 | succeeds iff eight bytes remain; big-endian value of those bytes |
| BinRead.ReadI8 | tnef2mime/src/binread.rs:18-21 | succeeds exactly when the unsigned read does; the value is its two's-complement reinterpretation |
| BinRead.ReadI16Le | tnef2mime/src/binread.rs:26-29 | same bounds as the u16 read; the value is the two's complement of the unsigned value |
| BinRead.ReadI16Be | tnef2mime/src/binread.rs:22-25 | big-endian counterpart of ReadI16Le |
| BinRead.ReadI32Le | tnef2mime/src/binread.rs:34-37 | same bounds as the u32 read; two's complement of the unsigned value |
| BinRead.ReadI32Be | tnef2mime/src/binread.rs:30-33 | big-endian counterpart of ReadI32Le |
| BinRead.ReadI64Le | tnef2mime/src/binread.rs:42-45 | same bounds as the u64 read; two's complement of the unsigned value |
| BinRead.ReadI64Be | tnef2mime/src/binread.rs:38-41 | big-endian counterpart of ReadI64Le |
| BinRead.TwosComplement | tnef2mime/src/binread.rs:18-45 | the signed result lies in the signed range and is either the unsigned value or that value minus the modulus |
| BinRead.TwosComplementUnique | tnef2mime/src/binread.rs:18-45 | that signed value is the only one with both properties |
| BinRead.ReadBytes | tnef2mime/src/tnef/mod.rs:204-205 | `read_exact` of n bytes: succeeds iff n bytes remain and returns exactly those bytes |
| BinRead.ReadU16LeOrEof | tnef2mime/src/tnef/cfb_msg.rs:57 | returns end-of-input iff no byte remains, a value iff two bytes remain (the same value as ReadU16Le), and a failure otherwise |
| BinRead.ReadU32LeOrEof | ftdump/src/main.rs:62-63 | four-byte counterpart of ReadU16LeOrEof |
| BinRead.LeValueBound | tnef2mime/src/binread.rs:84-123 | an n-byte little-endian value is below 256^n |
| BinRead.LeValueInjective | tnef2mime/src/binread.rs:84-123 | equal-length byte strings with equal little-endian values are equal |
| BinRead.BeIsLeOfReverse | tnef2mime/src/binread.rs:55-108 | the big-endian value is the little-endian value of the reversed bytes |
| BinRead.ReverseInvolution | tnef2mime/src/binread.rs:55-108 | reversing the byte order twice gives the bytes back |
| BinRead.ReadU32BeIsLeReversed | tnef2mime/src/binread.rs:73-93 | a big-endian u32 read equals a little-endian read of the reversed four bytes |
| BinRead.ReadU64BeIsLeReversed | tnef2mime/src/binread.rs:95-123 | the same for u64 |
| BinRead.ReadU64LeIsSum | tnef2mime/src/binread.rs:110-123 | the u64 read is the weighted byte sum and is below 2^64 |
| BinRead.PadLen | tnef2mime/src/binread.rs:151-158 | the padding is at most three bytes, brings the count to a multiple of four, and is zero iff the count already is one |
| BinRead.PadLenLeast | tnef2mime/src/binread.rs:151-158 | no smaller padding reaches a multiple of four |
| BinRead.PadTo4 | tnef2mime/src/binread.rs:151-158 | `pad_to_4`: already aligned means nothing is read; otherwise succeeds iff the padding bytes remain, and then lands on a multiple of four at most three bytes on |
| BinRead.PadToLen | tnef2mime/src/binread.rs:151-158 | whenever the padding fits, the position after padding is exactly pos plus PadLen |
| BinRead.LeBytes | tnef2mime/src/binread.rs:84-123 | the n-byte little-endian encoding is n bytes long |
| BinRead.LeValueOfLeBytes | tnef2mime/src/binread.rs:84-123 | reading back an encoded value yields the value |
| BinRead.LeBytesOfLeValue | tnef2mime/src/binread.rs:84-123 | encoding a read value yields the bytes read |
| BinRead.ReadsOfLeBytes | tnef2mime/src/binread.rs:64-123 | the 2-, 4- and 8-byte reads of an encoded value return that value and advance by its width |
| BinRead.Words | tnef2mime/src/tnef/mod.rs:274-279 | pairing bytes into little-endian words gives half as many words |
| BinRead.WordsAt | tnef2mime/src/tnef/mod.rs:274-279 | reading n words succeeds iff 2n bytes remain and yields n words |
| BinRead.ReadWords | tnef2mime/src/tnef/mod.rs:274-279 | the word loop computes WordsAt |
| BinRead.ReadSeq | tnef2mime/src/tnef/mod.rs:378-447 | a counted repetition that succeeds yields exactly n elements |
| BinRead.ReadSeqAt | tnef2mime/src/tnef/mod.rs:378-447 | element i of a successful repetition is what the element reader returns at the position reached after i elements |
| BinRead.ReadSeqAdvances | tnef2mime/src/tnef/mod.rs:378-447 | with element readers that never move back, the repetition never moves back |
| BinRead.ReadValues | tnef2mime/src/tnef/mod.rs:378-447 | the `for _ in 0..count` loop computes ReadSeq and stops at the first failing element |
| Hex.Format | tnef2mime/src/guid.rs:78-82 | `{:0Nx}`/`{:0NX}`: at least N characters, all hex digits of the chosen case |
| Hex.FormatWidth | tnef2mime/src/guid.rs:78-82 | a value below 16^N is printed in exactly N digits |
| Hex.FormatValue | tnef2mime/src/guid.rs:78-82 | reading the digits back gives the value |
| Hex.FormatInjective | tnef2mime/src/guid.rs:78-82 | different values print differently |
| Utf16.Decode | tnef2mime/src/tnef/mod.rs:284-287 | definition: `String::from_utf16`, failing on a surrogate that is not in a high-low pair; DecodeSucceedsIffWellFormed, DecodeEncode and EncodeDecode state its properties |
| Utf16.Encode | tnef2mime/src/tnef/mod.rs:284-287 | definition: the UTF-16 encoding of a string, the inverse against which Decode is proved |
| Utf16.Pair | tnef2mime/src/tnef/mod.rs:284-287 | a high-low surrogate pair decodes to a supplementary-plane character |
| Utf16.Cons | tnef2mime/src/tnef/mod.rs:284-287 | prepending a decoded character keeps success and failure as they were |
| Utf16.EncodeChar | tnef2mime/src/tnef/mod.rs:284-287 | a character is one or two code units |
| Utf16.DecodeSucceedsIffWellFormed | tnef2mime/src/tnef/mod.rs:284-287 | `String::from_utf16` succeeds exactly when every surrogate is in a high-low pair |
| Utf16.DecodeEncode | tnef2mime/src/tnef/mod.rs:477-516 | decoding the encoding of a string gives the string back |
| Utf16.EncodeDecode | tnef2mime/src/tnef/mod.rs:477-516 | a decoded string encodes back to the code units it came from |
| Guids.Display | tnef2mime/src/guid.rs:76-84 | definition: the `Display` of a GUID, the three fields in 8, 4 and 4 uppercase digits, then data4 as 2 and 6 bytes, dash-separated; its properties are DisplayFields, DisplayShape and DisplayInjective |
| Guids.FromLeBytes | tnef2mime/src/guid.rs:12-42 | succeeds iff 16 bytes are given; data1, data2 and data3 are little-endian; data4 is bytes 8-15 verbatim |
| Guids.FromBeBytes | tnef2mime/src/guid.rs:44-74 | the same, with big-endian fields |
| Guids.ToLeBytes | tnef2mime/src/guid.rs:12-42 | the inverse layout is 16 bytes |
| Guids.FromLeBytesOfToLeBytes | tnef2mime/src/guid.rs:12-42 | decoding the layout of a GUID gives the GUID |
| Guids.ToLeBytesOfFromLeBytes | tnef2mime/src/guid.rs:12-42 | re-encoding a decoded GUID gives the 16 bytes back |
| Guids.FromLeBytesInjective | tnef2mime/src/guid.rs:12-42 | different byte strings decode to different GUIDs |
| Guids.FromBeIsSwappedFromLe | tnef2mime/src/guid.rs:12-74 | the big-endian reading is the little-endian one with data1, data2 and data3 byte-swapped and data4 unchanged |
| Guids.HexBytesFaithful | tnef2mime/src/guid.rs:80-82 | each byte prints as two digits, and equal-length byte strings that print alike are equal |
| Guids.DisplayFields | tnef2mime/src/guid.rs:76-84 | the display is 36 characters: the three fields in 8, 4 and 4 uppercase digits, then two and six bytes of data4, with dashes at 8, 13, 18 and 23 |
| Guids.DisplayShape | tnef2mime/src/guid.rs:76-84 | a character is a dash exactly at those four positions; every other is an uppercase hex digit |
| Guids.DisplayInjective | tnef2mime/src/guid.rs:76-84 | different GUIDs display differently |
| Msox.FromCode | msox/src/lib.rs:12-46 | a code outside the table becomes `Other` carrying that code, and only such codes do |
| Msox.ToCodeOfFromCode | msox/src/lib.rs:12-46 | every code survives the trip through the enum |
| Msox.FromCodeToCode | msox/src/lib.rs:12-46 | a type survives the trip through its code exactly when it is canonical (not `Other` holding a listed code) |
| Msox.ToCodeInjective | msox/src/lib.rs:12-46 | canonical types have distinct codes |
| Msox.SingleOf | msox/src/lib.rs:12-46 | the element type of a multi-valued type is single-valued and listed |
| Msox.MultipleCodeIsSingleWithBit | msox/src/lib.rs:12-46 | a multi-valued code is its element type's code plus 0x1000, and the element code lacks that bit |
| Msox.MultipleIffBit | msox/src/lib.rs:12-46 | a listed type is multi-valued iff bit 0x1000 of its code is set |
| Msox.TypeOf | msox/src/lib.rs:48-80 | every value has a listed type |
| Msox.Sample | msox/src/lib.rs:48-80 | every listed type has a value of that type |
| Msox.ElementsHaveSingleType | msox/src/lib.rs:48-80 | each element of a multi-valued value has the element type |
| Tnef.ChecksumIsSumMod | tnef2mime/src/tnef/mod.rs:207-217 | the wrapping u16 accumulation is the byte sum modulo 2^16 |
| Tnef.ComputeChecksum | tnef2mime/src/tnef/mod.rs:207-217 | the checksum loop computes the byte sum modulo 2^16 |
| Tnef.ReadTnefSpec | tnef2mime/src/tnef/mod.rs:170-231 | definition: `read_tnef` as a function, the signature check, the legacy key, then the records until end of input; ReadTnefValid, SignatureChecked and the round trips state its properties |
| Tnef.ReadRecord | tnef2mime/src/tnef/mod.rs:181-225 | end of input at the level byte ends the list; a record read consumes at least its 11 fixed bytes and stays in the input |
| Tnef.ReadOneRecord | tnef2mime/src/tnef/mod.rs:181-225 | one pass of the loop computes ReadRecord |
| Tnef.ReadTnef | tnef2mime/src/tnef/mod.rs:170-231 | `read_tnef` computes the specification: signature, legacy key, then records until end of input |
| Tnef.AttributesValid | tnef2mime/src/tnef/mod.rs:198-217 | every attribute read has a checksum equal to its data sum modulo 2^16 and fewer than 2^31 data bytes |
| Tnef.ReadTnefValid | tnef2mime/src/tnef/mod.rs:170-231 | a successful read began with the signature, reports the legacy key stored after it, and every attribute's checksum matches |
| Tnef.SignatureChecked | tnef2mime/src/tnef/mod.rs:172-175 | a wrong signature fails, reporting the expected and the actual value |
| Tnef.EncodeAttribute | tnef2mime/src/tnef/mod.rs:183-217 | a record is 11 bytes plus its data |
| Tnef.ReadRecordOfEncoded | tnef2mime/src/tnef/mod.rs:183-224 | reading an encoded well-formed attribute returns it and moves past it |
| Tnef.ReadAttributesOfEncoded | tnef2mime/src/tnef/mod.rs:181-225 | reading encoded attributes returns them, in order |
| Tnef.ReadEncodedTnef | tnef2mime/src/tnef/mod.rs:170-231 | reading an encoded file returns that file |
| Tnef.EncodedOfReadRecord | tnef2mime/src/tnef/mod.rs:183-224 | the bytes a record read consumed are exactly the encoding of the attribute it returned |
| Tnef.EncodedOfReadAttributes | tnef2mime/src/tnef/mod.rs:181-225 | a successful attribute read consumes all input, and re-encoding gives it back |
| Tnef.EncodeReadTnef | tnef2mime/src/tnef/mod.rs:170-231 | a file that reads successfully re-encodes to the input bytes |
| TnefProps.ThenPad | tnef2mime/src/tnef/mod.rs:301-320 | a value followed by padding to four fails with an I/O error iff the value or its padding is short; it advances by PadLen |
| TnefProps.PaddedTo | tnef2mime/src/tnef/mod.rs:301-320 | whenever the padding fits, the value is returned after it |
| TnefProps.ReadMany | tnef2mime/src/tnef/mod.rs:378-447 | the count-then-elements loop computes Many |
| TnefProps.ReadOne | tnef2mime/src/tnef/mod.rs:448-516 | the single-valued read of a counted type computes One |
| TnefProps.ReadWideString | tnef2mime/src/tnef/mod.rs:477-516 | the UTF-16 string read computes WideAt |
| TnefProps.ValueAt | tnef2mime/src/tnef/mod.rs:298-573 | definition: the per-type value decode of `decode_property`; the value lemmas below state its cases |
| TnefProps.NamedIdAt | tnef2mime/src/tnef/mod.rs:246-296 | definition: the GUID, the kind word, then a number or the `length/2` name words and padding, failing on a kind above 1 |
| TnefProps.PropertyAt | tnef2mime/src/tnef/mod.rs:233-581 | definition: the type word, the tag word, the named id for tags at and above 0x8000, then the value |
| TnefProps.PropertiesAt | tnef2mime/src/tnef/mod.rs:583-592 | definition: a u32 count, then that many properties |
| TnefProps.PropertyListsAt | tnef2mime/src/tnef/mod.rs:594-602 | definition: a u32 count, then that many property lists |
| TnefProps.DecodeValue | tnef2mime/src/tnef/mod.rs:298-573 | the value dispatch computes ValueAt |
| TnefProps.DecodeNamedId | tnef2mime/src/tnef/mod.rs:246-296 | the named-id read computes NamedIdAt |
| TnefProps.DecodeProperty | tnef2mime/src/tnef/mod.rs:233-581 | `decode_property` computes PropertyAt |
| TnefProps.DecodeProperties | tnef2mime/src/tnef/mod.rs:583-592 | `decode_properties` computes PropertiesAt |
| TnefProps.DecodePropertyLists | tnef2mime/src/tnef/mod.rs:594-602 | `decode_property_lists` computes PropertyListsAt |
| TnefProps.UnknownTypeFails | tnef2mime/src/tnef/mod.rs:566-572 | an unknown type code fails after 128 bytes, or with an I/O error when fewer remain |
| TnefProps.BooleanValue | tnef2mime/src/tnef/mod.rs:336-345 | a first byte above 1 is an invalid boolean; 0 or 1 gives false or true and skips four bytes; otherwise the read is short |
| TnefProps.SingleValuedCountChecked | tnef2mime/src/tnef/mod.rs:448-565 | a single-valued string, binary or object with a count other than 1 fails with that count |
| TnefProps.OddWideStringFails | tnef2mime/src/tnef/mod.rs:477-516 | a UTF-16 string with an odd byte length fails |
| TnefProps.CountedConsumes | tnef2mime/src/tnef/mod.rs:448-565 | a counted byte string is the bytes after its length, and the read moves past them and their padding |
| TnefProps.WideConsumes | tnef2mime/src/tnef/mod.rs:477-516 | a UTF-16 string read has an even length, moves past the bytes and padding, and the string encodes to the words read |
| TnefProps.ManyCount | tnef2mime/src/tnef/mod.rs:378-447 | a multi-valued read returns exactly the declared count of elements, element i being the element read at the i-th position |
| TnefProps.PropertyCounts | tnef2mime/src/tnef/mod.rs:583-602 | property lists and lists of lists hold exactly the declared count |
| TnefProps.PropertyIds | tnef2mime/src/tnef/mod.rs:236-296 | the tag is the high word; a named id exists iff the tag is at least 0x8000, and then it carries the GUID after the tag and is a number iff the kind word is 0 |
| TnefProps.InvalidIdTypeFails | tnef2mime/src/tnef/mod.rs:255-258 | an id kind above 1 fails with that kind |
| TnefProps.EncodeCounted | tnef2mime/src/tnef/mod.rs:448-565 | the length, data and padding layout has length 4 + n + PadLen(n) |
| TnefProps.CountedOfEncoded | tnef2mime/src/tnef/mod.rs:448-476 | reading that layout returns the bytes, and as an 8-bit string their decoding |
| TnefProps.WordsOfWordBytes | tnef2mime/src/tnef/mod.rs:274-279 | splitting words into bytes and pairing them again gives the words back |
| TnefProps.WordsOfEncoded | tnef2mime/src/tnef/mod.rs:274-279 | the word reader returns the words whose bytes are in the input |
| TnefProps.WideLayout | tnef2mime/src/tnef/mod.rs:477-516 | the byte-length, words and padding layout has length 4 + 2n + PadLen(2n) |
| TnefProps.EncodeWide | tnef2mime/src/tnef/mod.rs:477-516 | the layout of a string's UTF-16 encoding has that length |
| TnefProps.WideOfLayout | tnef2mime/src/tnef/mod.rs:477-516 | reading the layout of well-formed words returns their string and moves past the layout |
| TnefProps.WideOfEncoded | tnef2mime/src/tnef/mod.rs:477-516 | reading the encoding of any string returns that string |
| CfbMsg.HeaderAt | tnef2mime/src/tnef/cfb_msg.rs:49-55 | succeeds iff 32 bytes are present; the four counters are the little-endian words at 8, 12, 16 and 20 |
| CfbMsg.EncodeHeader | tnef2mime/src/tnef/cfb_msg.rs:49-55 | the header layout is 32 bytes |
| CfbMsg.HeaderOfEncoded | tnef2mime/src/tnef/cfb_msg.rs:49-55 | reading an encoded header returns it, whatever the reserved bytes and the rest |
| CfbMsg.Normalize | tnef2mime/src/tnef/cfb_msg.rs:49 | a leading slash is dropped; other paths are relative already |
| CfbMsg.OpenStream | tnef2mime/src/tnef/cfb_msg.rs:99-105 | opening succeeds iff the normalized path names a stream, and yields its bytes |
| CfbMsg.StreamName | tnef2mime/src/tnef/cfb_msg.rs:98 | definition: `__substg1.0_` followed by the tag and the type in four uppercase hex digits each; StreamNameShape and StreamNameInjective state its properties |
| CfbMsg.StreamNameShape | tnef2mime/src/tnef/cfb_msg.rs:98 | `__substg1.0_TTTTYYYY` is 20 characters with that prefix |
| CfbMsg.StreamNameInjective | tnef2mime/src/tnef/cfb_msg.rs:98 | distinct tag and type pairs name distinct streams |
| CfbMsg.ElementStreamNameInjective | tnef2mime/src/tnef/cfb_msg.rs:225 | distinct (tag, type, index) triples name distinct element streams |
| CfbMsg.ElementStreamNameLength | tnef2mime/src/tnef/cfb_msg.rs:225 | an element stream name is 30 characters |
| CfbMsg.StorageClasses | tnef2mime/src/tnef/cfb_msg.rs:65-236 | every type is exactly one of: invalid, inline, single external, multiple fixed, multiple variable |
| CfbMsg.InlineValue | tnef2mime/src/tnef/cfb_msg.rs:68-90 | an inline value has its entry's type, and an inline boolean is true iff its first byte is non-zero |
| CfbMsg.InlineWidth | tnef2mime/src/tnef/cfb_msg.rs:68-90 | an inline type occupies 1, 2, 4 or 8 of the eight value bytes |
| CfbMsg.InlineUsesPrefix | tnef2mime/src/tnef/cfb_msg.rs:68-90 | an inline value depends only on that prefix and has the entry's type |
| CfbMsg.SingleValue | tnef2mime/src/tnef/cfb_msg.rs:106-152 | definition: the decode of a single-valued stream, or the reason it is skipped |
| CfbMsg.SingleValueSkips | tnef2mime/src/tnef/cfb_msg.rs:106-152 | a UTF-16 string is skipped iff it has an odd length or is ill-formed; an 8-bit string iff it is not UTF-8; a GUID iff it is not 16 bytes; binary and object never; every value has the entry's type |
| CfbMsg.SingleValueOfEncoded | tnef2mime/src/tnef/cfb_msg.rs:110-148 | a stream holding a string's UTF-16 bytes or a GUID's 16 bytes decodes to that string or GUID |
| CfbMsg.DecodeSingleValue | tnef2mime/src/tnef/cfb_msg.rs:106-152 | the single-stream decode computes SingleValue |
| CfbMsg.ChunkSize | tnef2mime/src/tnef/cfb_msg.rs:153-185 | a multiple fixed type has 2-, 4-, 8- or 16-byte elements |
| CfbMsg.FlattenSlices | tnef2mime/src/tnef/cfb_msg.rs:26-35 | the element slices concatenate back to the buffer |
| CfbMsg.DecodeChunks | tnef2mime/src/tnef/cfb_msg.rs:26-35 | the `chunks` loop computes the per-slice values |
| CfbMsg.MultipleFixedValue | tnef2mime/src/tnef/cfb_msg.rs:153-185 | definition: a multiple fixed-width stream cut into elements of the type's size, skipped when the length is not a multiple |
| CfbMsg.MultipleFixedShape | tnef2mime/src/tnef/cfb_msg.rs:17-41 | skipped iff the buffer is not a whole number of elements; otherwise as many elements as fit, of the entry's type |
| CfbMsg.DecodeMultipleFixed | tnef2mime/src/tnef/cfb_msg.rs:153-185 | the multiple fixed decode computes MultipleFixedValue |
| CfbMsg.LengthUnit | tnef2mime/src/tnef/cfb_msg.rs:203-221 | a length-stream entry is 4 or 8 bytes: 8 for MultipleBinary, 4 for MultipleString and MultipleString8 |
| CfbMsg.ValueCount | tnef2mime/src/tnef/cfb_msg.rs:203-221 | the count exists iff the length stream is a whole number of entries, and then count times unit is its length; otherwise the skip reports length and unit |
| CfbMsg.ElementBufs | tnef2mime/src/tnef/cfb_msg.rs:223-236 | at most n buffers are collected, missing streams being skipped |
| CfbMsg.ElementBufsComplete | tnef2mime/src/tnef/cfb_msg.rs:223-236 | when all n element streams exist, buffer i is the contents of element stream i |
| CfbMsg.CollectElementBufs | tnef2mime/src/tnef/cfb_msg.rs:223-236 | the element-stream loop computes ElementBufs |
| CfbMsg.EntryAt | tnef2mime/src/tnef/cfb_msg.rs:57-236 | a decoded entry consumes exactly 14 bytes after its type code |
| CfbMsg.InvalidTypeFails | tnef2mime/src/tnef/cfb_msg.rs:66-67 | an entry of an invalid type fails with that type code once tag and flags are read |
| CfbMsg.EntriesAreWhole | tnef2mime/src/tnef/cfb_msg.rs:57-286 | a successful entry list spans a whole number of 16-byte entries, one outcome each |
| CfbMsg.TrailingBytesFail | tnef2mime/src/tnef/cfb_msg.rs:57-286 | a stream whose entries are not a whole number of 16-byte entries fails |
| CfbMsg.DecodeEntry | tnef2mime/src/tnef/cfb_msg.rs:57-236 | one pass of the entry loop computes EntryAt |
| CfbMsg.ReadPropertiesStream | tnef2mime/src/tnef/cfb_msg.rs:44-286 | the header-then-entries loop computes PropertiesStream |
| FtDump.MarkerOf | ftdump/src/main.rs:13-44 | definition: the marker a record word names, if any; MarkerRoundTrip states it is the inverse of the marker codes |
| FtDump.MarkerRoundTrip | ftdump/src/main.rs:13-44 | every marker's code maps back to it, and a code that maps to a marker is that marker's code |
| FtDump.NulTerminatedAt | ftdump/src/main.rs:97-108 | a name holds no NUL word and ends two bytes after its last word |
| FtDump.NulOfEncoded | ftdump/src/main.rs:97-108 | NUL-free words followed by a NUL word are read back exactly |
| FtDump.ReadNulTerminated | ftdump/src/main.rs:97-108 | the word loop computes NulTerminatedAt |
| FtDump.IdAt | ftdump/src/main.rs:75-115 | an id read never moves back |
| FtDump.TaggedReadsNothing | ftdump/src/main.rs:75-77 | an id number below 0x8000 is a tag and reads no bytes |
| FtDump.NamedIds | ftdump/src/main.rs:78-115 | a kind byte above 1 fails; a named id carries the GUID read, is a display id iff the kind is 0, and otherwise its name encodes to the NUL-terminated words, read to the NUL |
| FtDump.Fixed | ftdump/src/main.rs:121-183 | a fixed-width read fails exactly when the bytes are short |
| FtDump.BytesEl | ftdump/src/main.rs:199-208 | a counted byte string is the bytes after its length, with no padding |
| FtDump.BooleanWord | ftdump/src/main.rs:156-166 | a word 0 or 1 is false or true, read in two bytes; a larger word is an invalid boolean |
| FtDump.SingleCountChecked | ftdump/src/main.rs:184-268 | a single-valued 8-bit string, string or object with a count other than 1 fails |
| FtDump.OddStringFails | ftdump/src/main.rs:235-268 | a UTF-16 string of odd byte size fails |
| FtDump.BinaryHasNoCount | ftdump/src/main.rs:199-208 | a single binary value is read with no value count in front |
| FtDump.CodepageBits | ftdump/src/main.rs:390-433 | an unlisted type below 0x8000 is unknown; at and above 0x8000 the low bits name a codepage, unknown ones failing, known ones decoding the counted bytes |
| FtDump.ManyCount | ftdump/src/main.rs:269-389 | a multi-valued read returns exactly the declared count of elements, element i read at the i-th position |
| FtDump.WordHalves | ftdump/src/main.rs:70-73 | the low and high halves of the record word are its first and second little-endian u16 |
| FtDump.RecordKinds | ftdump/src/main.rs:62-118 | a marker word is recorded as a marker and nothing more is read; otherwise the low half is the type and the high half the id, tagged iff below 0x8000 |
| FtDump.TruncatedWordFails | ftdump/src/main.rs:62-63 | one to three bytes left at a record boundary is an I/O failure |
| FtDump.EncodeMarkers | ftdump/src/main.rs:13-44 | each marker is four bytes |
| FtDump.MarkersOfEncoded | ftdump/src/main.rs:60-67 | a stream of encoded markers parses to those markers |
| FtDump.ChunkOf | ftdump/src/main.rs:458-466 | a chunk of type 2 is a parsed message, failing iff its parse fails; any other type is kept as raw data |
| FtDump.NextChunk | ftdump/src/main.rs:450-457 | a chunk read consumes at least its 8-byte header and stays in the input |
| FtDump.EncodeChunk | ftdump/src/main.rs:450-457 | a chunk is 8 bytes plus its data |
| FtDump.ChunkOfEncoded | ftdump/src/main.rs:450-467 | an encoded chunk is read as its decoding, and the loop continues after it |
| FtDump.DecodeId | ftdump/src/main.rs:75-115 | the id branch computes IdAt |
| FtDump.ReadMany | ftdump/src/main.rs:289-389 | the count-then-elements loop computes ManyAt |
| FtDump.ValueAt | ftdump/src/main.rs:118-433 | a value read never moves back; otherwise the definition of the per-type value decode, whose cases the value lemmas above state |
| FtDump.RecordAfter | ftdump/src/main.rs:68-433 | a record read after its word never moves back; a marker word reads nothing more |
| FtDump.MessageFrom | ftdump/src/main.rs:59-437 | definition: records until end of input, failing on a truncated word or a failing record |
| FtDump.ChunksFrom | ftdump/src/main.rs:450-467 | definition: chunks until end of input; ChunkOfEncoded states it reads encoded chunks back |
| FtDump.DecodeValue | ftdump/src/main.rs:118-433 | the value dispatch computes ValueAt |
| FtDump.DecodeRecord | ftdump/src/main.rs:68-433 | one non-marker record computes RecordAfter |
| FtDump.ParseMessage | ftdump/src/main.rs:59-437 | `parse_message` computes MessageFrom from the start |
| FtDump.DecodeChunk | ftdump/src/main.rs:458-466 | the chunk-type branch computes ChunkOf |
| FtDump.ReadChunk | ftdump/src/main.rs:450-466 | one pass of the chunk loop computes NextChunk |
| FtDump.DumpChunks | ftdump/src/main.rs:450-467 | the chunk loop computes ChunksFrom from the start |
| HexDump.Cell | tnef2mime/src/main.rs:24-33 | a byte cell is three characters, four after the eighth byte |
| HexDump.Cells | tnef2mime/src/main.rs:24-33 | the hex columns have the layout's width |
| HexDump.HexColumns | tnef2mime/src/main.rs:24-33 | the hex loop computes Cells |
| HexDump.TextColumn | tnef2mime/src/main.rs:35-45 | the text loop computes Text |
| HexDump.Hexdump | tnef2mime/src/main.rs:19-50 | `hexdump` computes DumpLines |
| HexDump.LineCountCovers | tnef2mime/src/main.rs:19-50 | the lines cover every byte, each starts inside the data, and empty data gives no line |
| HexDump.CellsAt | tnef2mime/src/main.rs:24-33 | cell j sits at its offset in the hex columns |
| HexDump.CellsGap | tnef2mime/src/main.rs:28-30 | an extra space separates the two groups of eight |
| HexDump.TextAt | tnef2mime/src/main.rs:35-45 | the text column shows each present byte, at most sixteen |
| HexDump.LineLayout | tnef2mime/src/main.rs:19-50 | line k is the prefix, the offset 16k in eight lowercase hex digits, the hex columns, " \|", the text column and a closing "\|" |
| Tnef2Mime.CodepageId | tnef2mime/src/main.rs:85-89 | definition: `data[0] \| data[1] << 8`, written as a sum since the bytes do not overlap; CodepageIdIsLe states it is the little-endian u16 |
| Tnef2Mime.CodepageIdIsLe | tnef2mime/src/main.rs:85-89 | the codepage id is the little-endian u16 of the first two data bytes |
| Tnef2Mime.TrimNul | tnef2mime/src/main.rs:104-107 | `trim_end_matches('\0')` yields a prefix not ending in NUL, and everything removed is NUL |
| Tnef2Mime.TrimNulIdempotent | tnef2mime/src/main.rs:104-107 | trimming twice is trimming once |
| Tnef2Mime.ApplyAttribute | tnef2mime/src/main.rs:84-124 | definition: one attribute's effect, the codepage switch, the decoded property block (an unknown property type ending the run), or a hexdump; CodepageSwitch, ShortCodepageDumped and UnknownTypeAborts state its cases |
| Tnef2Mime.RunSpec | tnef2mime/src/main.rs:74-136 | definition: `run` as a function, read the TNEF, fold the attributes, and write the e-mail only with both headers and body; EmailNeedsBoth and UnknownTypeAborts state its properties |
| Tnef2Mime.GatherProperties | tnef2mime/src/main.rs:95-111 | the per-property loop computes ApplyProperties |
| Tnef2Mime.GatherAttribute | tnef2mime/src/main.rs:84-124 | one pass of the attribute loop computes ApplyAttribute |
| Tnef2Mime.GatherAttributes | tnef2mime/src/main.rs:83-125 | the attribute loop computes ApplyAttributes |
| Tnef2Mime.Run | tnef2mime/src/main.rs:74-136 | `run` computes RunSpec: read the TNEF, fold the attributes from UTF-8 and nothing found, then finish |
| Tnef2Mime.DumpAll | tnef2mime/src/main.rs:116-124 | each attribute kept for dumping becomes its hexdump with a four-space prefix |
| Tnef2Mime.PropertiesFailFast | tnef2mime/src/main.rs:97-103 | once a short attachment object fails the property loop, later properties change nothing |
| Tnef2Mime.AttributesFailFast | tnef2mime/src/main.rs:83-125 | once an attribute fails, later attributes change nothing |
| Tnef2Mime.PropertiesKeepTrimmed | tnef2mime/src/main.rs:93-111 | properties keep the stored headers NUL-trimmed and never touch the charset or the dump list |
| Tnef2Mime.AttributesKeepTrimmed | tnef2mime/src/main.rs:83-125 | the attribute loop keeps the headers NUL-trimmed |
| Tnef2Mime.EmailNeedsBoth | tnef2mime/src/main.rs:127-136 | an e-mail is produced iff both headers and body were found, and its headers do not end in NUL |
| Tnef2Mime.CodepageSwitch | tnef2mime/src/main.rs:85-92 | a codepage attribute with two bytes switches the charset when the id is known and otherwise changes nothing |
| Tnef2Mime.UnknownTypeAborts | tnef2mime/src/tnef/mod.rs:566-571 | a message or attachment property block holding a property of unknown type ends `run` with that type code: no e-mail, and later attributes are not looked at |
| Tnef2Mime.ShortCodepageDumped | tnef2mime/src/main.rs:85-124 | a codepage attribute shorter than two bytes is hexdumped |
| PropsMd2Attr.EscapeKey | props_md2attr/src/main.rs:99-102 | a key starting with a digit gets a leading underscore, any other key is unchanged, and the result never starts with a digit |
| PropsMd2Attr.PropertyCollection.constructor | props_md2attr/src/main.rs:90-96 | a new collection is empty and valid |
| PropsMd2Attr.Add | props_md2attr/src/main.rs:98-124 | definition: `add_property` on the table's value, a known name changing nothing, a new name becoming an alias of the id's first name or the id's defined entry; AddKeepsValid states the invariant it keeps |
| PropsMd2Attr.PropertyCollection.AddProperty | props_md2attr/src/main.rs:98-124 | a known name changes nothing; a new name becomes an alias of the id's first name, or the id's defined entry; the table stays valid |
| PropsMd2Attr.AddKeepsValid | props_md2attr/src/main.rs:98-124 | adding keeps names unique and known, one defined entry per id named by the id map, and aliases pointing at defined names |
| PropsMd2Attr.OneDefinedPerValue | props_md2attr/src/main.rs:109-123 | in a valid table no two defined entries share an id |
| PropsMd2Attr.AddAllKeepsValid | props_md2attr/src/main.rs:98-124 | any run of additions keeps the table valid |
| PropsMd2Attr.AddAllExtends | props_md2attr/src/main.rs:98-124 | later additions only append, keep known names, and never rename an id |
| PropsMd2Attr.AddAllSplit | props_md2attr/src/main.rs:281-285 | adding two runs in sequence is adding their concatenation |
| PropsMd2Attr.ParseHex16 | props_md2attr/src/main.rs:208-214 | `u16::from_str_radix(_, 16)` of the captured digits: a value iff the digits are non-empty, all hex, and below 0x10000; the value is theirs |
| PropsMd2Attr.ParseOfFormat | props_md2attr/src/main.rs:148-150 | an id printed as four hex digits parses back to itself |
| PropsMd2Attr.ToEnumVariant | props_md2attr/src/main.rs:134-161 | definition: the enum line of an entry; DefinedVariantLayout and AliasedVariantLayout state its layout |
| PropsMd2Attr.DefinedVariantLayout | props_md2attr/src/main.rs:147-150 | a defined line is four spaces, the name, " = 0x", four uppercase digits reading back as the id, and a comma |
| PropsMd2Attr.AliasedVariantLayout | props_md2attr/src/main.rs:158-161 | an alias line is a comment naming the alias and its target |
| PropsMd2Attr.StripPrefix | props_md2attr/src/main.rs:197-200 | the remainder exists iff the name starts with "Pid", and prefix plus remainder is the name |
| PropsMd2Attr.PairStep | props_md2attr/src/main.rs:229-255 | definition: one paragraph of the document loop, a name line committing the pending pair, a parsed id line replacing the value |
| PropsMd2Attr.DocxPairs | props_md2attr/src/main.rs:229-264 | definition: the pairs the document loop hands over, the last one after the loop; DocxPairsFromLines, NoValueNoPairs and ValueCarriesOver state its properties |
| PropsMd2Attr.AddDocxProperties | props_md2attr/src/main.rs:221-265 | the paragraph loop adds exactly the pairs of DocxPairs, in order, keeping the table valid |
| PropsMd2Attr.DocxPairsFromLines | props_md2attr/src/main.rs:229-264 | every pair added comes from a "Pid" name line, prefix removed, and from a parsed id line |
| PropsMd2Attr.NoValueNoPairs | props_md2attr/src/main.rs:246-264 | without an id line that parses, nothing is added |
| PropsMd2Attr.ValueCarriesOver | props_md2attr/src/main.rs:231-255 | the id is not reset when a name is committed: for every document, a "Pid" name line after a parsed id line is added with that id, when no other id parses before the name line that follows it (or the end) |
| PropsMd2Attr.MarkdownPairs | props_md2attr/src/main.rs:165-218 | definition: the pairs of the pages with a "Pid" name and an id that parses, stopping at a page without a name; StoppedStays states the stop |
| PropsMd2Attr.AddMarkdownProperties | props_md2attr/src/main.rs:165-218 | the page loop adds exactly the pairs of MarkdownPairs and reports whether it stopped at a page without a name |
| PropsMd2Attr.StoppedStays | props_md2attr/src/main.rs:193-196 | after the page without a name, no later page is looked at |
| PropsMd2Attr.Collect | props_md2attr/src/main.rs:281-285 | definition: the document's pairs then the pages' pairs, added to an empty table; DocxWins states that the document wins |
| PropsMd2Attr.Run | props_md2attr/src/main.rs:281-285 | `run` collects the document's pairs and then the pages' pairs into one table |
| PropsMd2Attr.DocxWins | props_md2attr/src/main.rs:283-285 | the final table is valid, keeps every entry and name the document produced, and every id the document defined keeps the document's name |
| Docx2Attr.ByteStringToLeIntString | docx2attr_common/src/lib.rs:93-97 | definition: the dot-separated pieces concatenated in reverse order; LeIntStringShape and PiecesReversed state its properties |
| Docx2Attr.Split | docx2attr_common/src/lib.rs:94 | `split('.')` yields at least one piece and no piece holds a dot |
| Docx2Attr.JoinOfSplit | docx2attr_common/src/lib.rs:94 | joining the pieces with dots gives the input back, and there is one more piece than dots |
| Docx2Attr.SplitOfJoin | docx2attr_common/src/lib.rs:94 | dot-free pieces, joined, split back into themselves |
| Docx2Attr.LeIntStringShape | docx2attr_common/src/lib.rs:93-97 | the result has no dot, is as long as the input without its dots, and an input without dots is returned unchanged |
| Docx2Attr.PiecesReversed | docx2attr_common/src/lib.rs:93-97 | dot-separated pieces come out concatenated in reverse order |
| Docx2Attr.WalkStep | docx2attr_common/src/lib.rs:51-84 | definition: one event of the walk, push on start, pop on end (failing on an empty stack), the word `p` and `t` cases, and text kept while collecting |
| Docx2Attr.Paragraphs | docx2attr_common/src/lib.rs:44-89 | definition: the paragraphs of the whole walk; PredicateFilters, StackDepth and TextOnlyInsideT state its properties |
| Docx2Attr.DocxToParagraphs | docx2attr_common/src/lib.rs:44-89 | the event loop computes Paragraphs, failing on an end event with an empty stack |
| Docx2Attr.WalkFailFast | docx2attr_common/src/lib.rs:65-66 | once the walk fails, later events change nothing |
| Docx2Attr.StackDepth | docx2attr_common/src/lib.rs:51-79 | the walk fails iff some prefix has more ends than starts; otherwise the stack depth is starts minus ends |
| Docx2Attr.Filter | docx2attr_common/src/lib.rs:71-73 | every paragraph kept satisfies the predicate |
| Docx2Attr.PredicateFilters | docx2attr_common/src/lib.rs:65-79 | the result is, in document order, the ended word paragraphs that the predicate accepts, and the predicate cannot change whether the walk fails |
| Docx2Attr.TextOnlyInsideT | docx2attr_common/src/lib.rs:58-84 | for every event list, a text event that arrives while no word `t` element is open can be removed without changing the paragraphs |
| Docx2Attr.ParagraphStartClears | docx2attr_common/src/lib.rs:51-84 | a word paragraph start clears the text, and text is appended only while collecting |

## Left out

- The compound-file container (FAT, mini-FAT, directory tree): the `cfb` crate is not part of this model. The streams of a `.msg` file are a map from stream name to bytes.
- `read_cfb_msg_as_tnef`: as written, it does not compile past the element-buffer loop. `value_bufs` and `value_buf` are not `mut`, the final `match` (cfb_msg.rs:238-283) reads `lengths_buf` and breaks out of nothing, and the function ends in `todo!()`. The model reads each element stream the loop names and stops there: a multiple-variable entry yields its element buffers, not a value. No TNEF file is assembled from a `.msg`.
- Floating-point values (`Floating32`, `Floating64`, `FloatingTime`) are kept as their IEEE bit patterns, because no arithmetic is done on them. An f32 element is therefore read by the same `FtDump.U32El` as a u32 one.
- `encoding_rs` charsets, `String::from_utf8` and the codepage decoder loop are function-typed parameters: `Decode8`, `Utf8`, `FtDump.Charsets`. `to_encoding` is a parameter of `Tnef2Mime.Run`. UTF-16 is modelled concretely.
- The `unknown type` branch of `decode_property` prints a hexdump and panics. The model returns `UnknownType` after the 128 bytes are read, and `Tnef2Mime.ApplyAttribute` turns it into the error `UnknownPropertyType`, so the run ends there as the program does (`Tnef2Mime.UnknownTypeAborts`). Every other panic or `expect` in the core is likewise an error value of the model: a short attachment object, an unbalanced XML end, a Markdown page without a name, and the `expect`s of ftdump.
- The generated enums `PropTag` and `TnefAttributeId` are not modelled as tables. Tags and attribute ids stay raw numbers, and the few the program compares against are fields of `Tnef2Mime.Ids`.
- Output: printing, `debug!`/`error!` logging, the command line arguments, and writing `attachment.bin` and `email.eml`. The model returns the attachment, e-mail and hexdump lines the program would write. A hexdump is a sequence of lines, without its line breaks.
- `Tnef2Mime.Run`: when the run fails on a short attachment object or on a property of unknown type, the program has already written `attachment.bin` for any earlier attachment, and it creates the file before `&val[16..]` panics. The model reports only the failure, not the files left behind.
- The ZIP archive and XML parsing behind `docx_to_paragraphs`. The model takes the namespace-resolved events of a `word/document.xml` that parses. The panic on a parse error (lib.rs:86) is not part of the model, and neither are the text unescaping and lossy UTF-8.
- The regular expressions of `props_md2attr`. The document's paragraphs arrive classified as name lines or id lines with their captures. The Markdown pages are the ones whose lower-cased file name starts with `pidtag`, each with its two captures. The order of `read_dir` is taken as given.
- `props_md2attr` output: `sort_unstable` and the printing of the enum lines. `PropsMd2Attr.Run` returns the table before sorting.
- The msox crate's `BinaryReader` `_or_eof` helpers are not part of this model. They appear as `ReadU16LeOrEof`/`ReadU32LeOrEof` at their call sites.
- `ErrorCode` is a u64 in TNEF property streams and a u32 in `.msg` streams, as the two readers have it. `PropValue` is generic over that width.
- The warning about an odd byte length in a string-named id (mod.rs:271-273) is not an error. That length is read as `length / 2` words and padded by the full length, as the code does.
- ftdump's `MultipleBinary` branch checks the element count only for `Binary`, a type that never reaches it (ftdump/src/main.rs:272). The model carries no check there.
- Conversions between `usize` and the u32 counts cannot fail on the platforms the program targets. They are not modelled.
- `Uuid` in ftdump is the same 16-byte little-endian GUID as `tnef2mime`'s `Guid`.
- CFB stream paths are normalized by dropping one leading slash, the only difference between the names the program opens.
