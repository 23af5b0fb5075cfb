/**
 * The per-entry rules of the Outlook .msg reader (`read_cfb_msg_as_tnef` in
 * tnef2mime/src/tnef/cfb_msg.rs): the 32-byte header of the top-level
 * `__properties_version1.0` stream, its 16-byte property entries, the names of
 * the streams that hold values stored outside an entry, and the decoding and
 * skip rules for those values.  The compound-file container is not modelled:
 * its streams are given as a map from stream name to contents.
 */
module CfbMsg {
  import opened Wrappers
  import opened BinRead
  import Hex
  import Guids
  import Utf16
  import Msox
  import TnefProps
  import Slices

  const CfbSignature: u64 := 0xE11A_B1A1_E011_CFD0
  /** The low four bytes of the signature, as the source derives them. */
  const CfbSignature4Bytes: u32 := CfbSignature % 0x1_0000_0000

  /** `String::from_utf8`, which may refuse its input. */
  type Utf8 = seq<byte> -> Option<string>

  /** The streams of the compound file, by name relative to the root storage. */
  type Streams = map<string, seq<byte>>

  datatype MsgError = Io | InvalidPropertyType(propertyType: u16)

  /** Why a property is passed over without failing the read. */
  datatype SkipReason =
    | NoValueStream
    | NoLengthStream
    | OddByteCount(count: nat)
    | InvalidUtf16
    | InvalidUtf8
    | GuidLength(count: nat)
    | ChunkMismatch(count: nat, chunkSize: nat)
    | LengthsMismatch(count: nat, unit: nat)

  /** What one property entry yields: a value; a skip; or, for the types stored in
      one stream per element, the element buffers that were found. */
  datatype Outcome =
    | Value(tag: u16, flags: u32, value: Msox.PropValue<u32>)
    | Skipped(tag: u16, typeCode: u16, reason: SkipReason)
    | ElementBuffers(tag: u16, flags: u32, typeCode: u16, buffers: seq<seq<byte>>)

  datatype Header = Header(nextRecipientId: u32, nextAttachmentId: u32, recipientCount: u32, attachmentCount: u32)

  // ---------------------------------------------------------------------
  // The header (cfb_msg.rs:50-55)

  /** Eight reserved bytes, four little-endian u32 counters, eight reserved bytes. */
  function HeaderAt(s: seq<byte>): (r: Option<(Header, nat)>)
    ensures r.Some? <==> 32 <= |s|
    ensures r.Some? ==> r.value.1 == 32
    ensures r.Some? ==> r.value.0.nextRecipientId == LeValue(s[8..12]) && r.value.0.nextAttachmentId == LeValue(s[12..16])
    ensures r.Some? ==> r.value.0.recipientCount == LeValue(s[16..20]) && r.value.0.attachmentCount == LeValue(s[20..24])
  {
    match ReadU64Le(s, 0)
    case None => None
    case Some((_, p0)) =>
      match ReadU32Le(s, p0)
      case None => None
      case Some((a, p1)) =>
        match ReadU32Le(s, p1)
        case None => None
        case Some((b, p2)) =>
          match ReadU32Le(s, p2)
          case None => None
          case Some((c, p3)) =>
            match ReadU32Le(s, p3)
            case None => None
            case Some((d, p4)) =>
              match ReadU64Le(s, p4)
              case None => None
              case Some((_, p5)) => Some((Header(a, b, c, d), p5))
  }

  /** The header as a writer lays it out, with the reserved bytes given. */
  function EncodeHeader(h: Header, reserved0: seq<byte>, reserved1: seq<byte>): (e: seq<byte>)
    requires |reserved0| == 8 && |reserved1| == 8
    ensures |e| == 32
  {
    reserved0 + LeBytes(h.nextRecipientId, 4) + LeBytes(h.nextAttachmentId, 4)
    + LeBytes(h.recipientCount, 4) + LeBytes(h.attachmentCount, 4) + reserved1
  }

  /** Every header is read back from its layout, whatever the reserved bytes hold. */
  lemma HeaderOfEncoded(h: Header, reserved0: seq<byte>, reserved1: seq<byte>, rest: seq<byte>)
    requires |reserved0| == 8 && |reserved1| == 8
    ensures HeaderAt(EncodeHeader(h, reserved0, reserved1) + rest) == Some((h, 32))
  {
    var s := EncodeHeader(h, reserved0, reserved1) + rest;
    Pow256Widths();
    assert s[8..12] == LeBytes(h.nextRecipientId, 4);
    assert s[12..16] == LeBytes(h.nextAttachmentId, 4);
    assert s[16..20] == LeBytes(h.recipientCount, 4);
    assert s[20..24] == LeBytes(h.attachmentCount, 4);
    LeValueOfLeBytes(h.nextRecipientId, 4);
    LeValueOfLeBytes(h.nextAttachmentId, 4);
    LeValueOfLeBytes(h.recipientCount, 4);
    LeValueOfLeBytes(h.attachmentCount, 4);
  }

  // ---------------------------------------------------------------------
  // Stream names (cfb_msg.rs:98,162,192,225)

  const SubstgPrefix: string := "__substg1.0_"

  /** `__substg1.0_` followed by the tag and the type code, four uppercase hex digits each. */
  function StreamName(tag: u16, typeCode: u16): (name: string)
  {
    SubstgPrefix + Hex.Format(tag, 4, true) + Hex.Format(typeCode, 4, true)
  }

  /** The stream of element i of a value stored one stream per element. */
  function ElementStreamName(tag: u16, typeCode: u16, i: nat): (name: string)
  {
    "/" + StreamName(tag, typeCode) + "-" + Hex.Format(i, 8, true)
  }

  /** Paths with a leading '/' name the same stream as those without: all are
      resolved from the root storage. */
  function Normalize(path: string): (p: string)
    ensures |path| > 0 && path[0] == '/' ==> path == "/" + p
    ensures !(|path| > 0 && path[0] == '/') ==> p == path
  {
    if |path| > 0 && path[0] == '/' then path[1..] else path
  }

  /** `open_stream` followed by `read_to_end`. */
  function OpenStream(streams: Streams, path: string): (r: Option<seq<byte>>)
    ensures r.Some? <==> Normalize(path) in streams
    ensures r.Some? ==> r.value == streams[Normalize(path)]
  {
    if Normalize(path) in streams then Some(streams[Normalize(path)]) else None
  }

  /** A value-stream name is 20 characters long and names exactly one (tag, type) pair. */
  lemma StreamNameShape(tag: u16, typeCode: u16)
    ensures |StreamName(tag, typeCode)| == 20
    ensures StreamName(tag, typeCode)[..12] == SubstgPrefix
  {
    Hex.FormatWidth(tag, 4, true);
    Hex.FormatWidth(typeCode, 4, true);
  }

  lemma StreamNameInjective(tag1: u16, type1: u16, tag2: u16, type2: u16)
    requires StreamName(tag1, type1) == StreamName(tag2, type2)
    ensures tag1 == tag2 && type1 == type2
  {
    Hex.FormatWidth(tag1, 4, true);
    Hex.FormatWidth(type1, 4, true);
    Hex.FormatWidth(tag2, 4, true);
    Hex.FormatWidth(type2, 4, true);
    var n1, n2 := StreamName(tag1, type1), StreamName(tag2, type2);
    assert n1[12..16] == Hex.Format(tag1, 4, true) && n2[12..16] == Hex.Format(tag2, 4, true);
    assert n1[16..20] == Hex.Format(type1, 4, true) && n2[16..20] == Hex.Format(type2, 4, true);
    Hex.FormatInjective(tag1, tag2, 4, true);
    Hex.FormatInjective(type1, type2, 4, true);
  }

  /** Element streams of distinct properties or distinct indices have distinct names;
      below 2^32 elements the index takes exactly eight digits. */
  lemma ElementStreamNameInjective(tag1: u16, type1: u16, i: nat, tag2: u16, type2: u16, j: nat)
    requires ElementStreamName(tag1, type1, i) == ElementStreamName(tag2, type2, j)
    ensures tag1 == tag2 && type1 == type2 && i == j
  {
    StreamNameShape(tag1, type1);
    StreamNameShape(tag2, type2);
    var n1, n2 := ElementStreamName(tag1, type1, i), ElementStreamName(tag2, type2, j);
    assert n1[1..21] == StreamName(tag1, type1) && n2[1..21] == StreamName(tag2, type2);
    StreamNameInjective(tag1, type1, tag2, type2);
    assert n1[22..] == Hex.Format(i, 8, true) && n2[22..] == Hex.Format(j, 8, true);
    Hex.FormatInjective(i, j, 8, true);
  }

  lemma ElementStreamNameLength(tag: u16, typeCode: u16, i: nat)
    requires i < 0x1_0000_0000
    ensures |ElementStreamName(tag, typeCode, i)| == 30
  {
    StreamNameShape(tag, typeCode);
    assert Hex.Pow16(8) == 0x1_0000_0000;
    Hex.FormatWidth(i, 8, true);
  }

  // ---------------------------------------------------------------------
  // How each type is stored (cfb_msg.rs:65-72,91-93,153-157,186-187)

  predicate IsInline(t: Msox.PropType)
  {
    t.Integer16? || t.Integer32? || t.Floating32? || t.Floating64? || t.Boolean?
    || t.Currency? || t.FloatingTime? || t.Time? || t.Integer64? || t.ErrorCode?
  }

  predicate IsExternalSingle(t: Msox.PropType)
  {
    t.String? || t.Binary? || t.String8? || t.Guid? || t.Object?
  }

  predicate IsMultipleFixed(t: Msox.PropType)
  {
    t.MultipleInteger16? || t.MultipleInteger32? || t.MultipleFloating32? || t.MultipleFloating64?
    || t.MultipleCurrency? || t.MultipleFloatingTime? || t.MultipleTime? || t.MultipleGuid?
    || t.MultipleInteger64?
  }

  predicate IsMultipleVariable(t: Msox.PropType)
  {
    t.MultipleBinary? || t.MultipleString8? || t.MultipleString?
  }

  predicate IsInvalid(t: Msox.PropType)
  {
    t.Unspecified? || t.Null? || t.Other?
  }

  /** Every type falls in exactly one of the five storage classes. */
  lemma StorageClasses(t: Msox.PropType)
    ensures IsInvalid(t) || IsInline(t) || IsExternalSingle(t) || IsMultipleFixed(t) || IsMultipleVariable(t)
    ensures !(IsInline(t) && (IsInvalid(t) || IsExternalSingle(t) || IsMultipleFixed(t) || IsMultipleVariable(t)))
    ensures !(IsExternalSingle(t) && (IsInvalid(t) || IsMultipleFixed(t) || IsMultipleVariable(t)))
    ensures !(IsMultipleFixed(t) && (IsInvalid(t) || IsMultipleVariable(t)))
    ensures !(IsMultipleVariable(t) && IsInvalid(t))
  {
  }

  // ---------------------------------------------------------------------
  // Inline values (cfb_msg.rs:74-89)

  /** How many of the eight value bytes an inline type uses. */
  function InlineWidth(t: Msox.PropType): (w: nat)
    requires IsInline(t)
    ensures w == 1 || w == 2 || w == 4 || w == 8
  {
    if t.Boolean? then 1
    else if t.Integer16? then 2
    else if t.Integer32? || t.Floating32? || t.ErrorCode? then 4
    else 8
  }

  /** The value of an inline entry, from the start of its eight value bytes;
      floating-point values are kept as their bit patterns. */
  function InlineValue(t: Msox.PropType, buf: seq<byte>): (v: Msox.PropValue<u32>)
    requires IsInline(t) && |buf| == 8
    ensures Msox.TypeOf(v) == t
    ensures t.Boolean? ==> (v == Msox.PropValue.Boolean(true) <==> buf[0] != 0)
  {
    if t.Integer16? then Msox.PropValue.Integer16(ReadI16Le(buf, 0).value.0)
    else if t.Integer32? then Msox.PropValue.Integer32(ReadI32Le(buf, 0).value.0)
    else if t.Floating32? then Msox.PropValue.Floating32(ReadU32Le(buf, 0).value.0)
    else if t.Floating64? then Msox.PropValue.Floating64(ReadU64Le(buf, 0).value.0)
    else if t.Boolean? then Msox.PropValue.Boolean(buf[0] != 0)
    else if t.Currency? then Msox.PropValue.Currency(ReadI64Le(buf, 0).value.0)
    else if t.FloatingTime? then Msox.PropValue.FloatingTime(ReadU64Le(buf, 0).value.0)
    else if t.Time? then Msox.PropValue.Time(ReadI64Le(buf, 0).value.0)
    else if t.Integer64? then Msox.PropValue.Integer64(ReadI64Le(buf, 0).value.0)
    else Msox.PropValue.ErrorCode(ReadU32Le(buf, 0).value.0)
  }

  /** An inline value is of its entry's type and depends only on the first
      InlineWidth(t) bytes of the value field. */
  lemma InlineUsesPrefix(t: Msox.PropType, buf1: seq<byte>, buf2: seq<byte>)
    requires IsInline(t) && |buf1| == 8 && |buf2| == 8
    requires buf1[..InlineWidth(t)] == buf2[..InlineWidth(t)]
    ensures InlineValue(t, buf1) == InlineValue(t, buf2)
    ensures Msox.TypeOf(InlineValue(t, buf1)) == t
  {
    var w := InlineWidth(t);
    assert buf1[0] == buf1[..w][0];
    assert buf1[0..w] == buf1[..w] && buf2[0..w] == buf2[..w];
    if w >= 2 {
      assert buf1[0..2] == buf1[..w][0..2] && buf2[0..2] == buf2[..w][0..2];
    }
    if w >= 4 {
      assert buf1[0..4] == buf1[..w][0..4] && buf2[0..4] == buf2[..w][0..4];
    }
  }

  // ---------------------------------------------------------------------
  // Values held in one stream (cfb_msg.rs:106-151)

  /** A String, Binary, String8, GUID or Object value from the whole of its stream;
      bad contents skip the property. */
  function SingleValue(t: Msox.PropType, buf: seq<byte>, utf8: Utf8): (r: Result<Msox.PropValue<u32>, SkipReason>)
    requires IsExternalSingle(t)
  {
    if t.String? then
      if |buf| % 2 != 0 then Err(OddByteCount(|buf|))
      else match Utf16.Decode(Words(buf))
        case None => Err(InvalidUtf16)
        case Some(str) => Ok(Msox.PropValue.String(str))
    else if t.Binary? then Ok(Msox.PropValue.Binary(buf))
    else if t.String8? then
      match utf8(buf)
      case None => Err(InvalidUtf8)
      case Some(str) => Ok(Msox.PropValue.String8(str))
    else if t.Guid? then
      if |buf| != 16 then Err(GuidLength(|buf|)) else Ok(Msox.PropValue.Guid(Guids.FromLeBytes(buf).value))
    else Ok(Msox.PropValue.Object(buf))
  }

  /** The per-type skip rules: odd-length or ill-formed UTF-16, refused 8-bit text and a
      GUID stream that is not 16 bytes; Binary and Object take any bytes. */
  lemma SingleValueSkips(t: Msox.PropType, buf: seq<byte>, utf8: Utf8)
    requires IsExternalSingle(t)
    ensures t.String? ==> (SingleValue(t, buf, utf8).Err? <==> |buf| % 2 != 0 || !Utf16.WellFormed(Words(buf)))
    ensures t.String8? ==> (SingleValue(t, buf, utf8).Err? <==> utf8(buf).None?)
    ensures t.Guid? ==> (SingleValue(t, buf, utf8).Err? <==> |buf| != 16)
    ensures t.Binary? || t.Object? ==> SingleValue(t, buf, utf8).Ok?
    ensures SingleValue(t, buf, utf8).Ok? ==> Msox.TypeOf(SingleValue(t, buf, utf8).value) == t
  {
    if t.String? {
      Utf16.DecodeSucceedsIffWellFormed(Words(buf));
    }
  }

  /** A string is read back from its UTF-16 stream, and a GUID from its 16 bytes. */
  lemma SingleValueOfEncoded(str: string, g: Guids.Guid, utf8: Utf8)
    ensures SingleValue(Msox.PropType.String, TnefProps.WordBytes(Utf16.Encode(str)), utf8) == Ok(Msox.PropValue.String(str))
    ensures SingleValue(Msox.PropType.Guid, Guids.ToLeBytes(g), utf8) == Ok(Msox.PropValue.Guid(g))
  {
    TnefProps.WordsOfWordBytes(Utf16.Encode(str));
    Utf16.DecodeEncode(str);
    Guids.FromLeBytesOfToLeBytes(g);
  }

  /** The String branch splits the stream into 16-bit words with `chunks(2)`. */
  method DecodeSingleValue(t: Msox.PropType, buf: seq<byte>, utf8: Utf8) returns (r: Result<Msox.PropValue<u32>, SkipReason>)
    requires IsExternalSingle(t)
    ensures r == SingleValue(t, buf, utf8)
  {
    if t.String? {
      if |buf| % 2 != 0 {
        return Err(OddByteCount(|buf|));
      }
      var words := ReadWords(buf, 0, |buf| / 2);
      assert buf[0..|buf|] == buf;
      match Utf16.Decode(words.value.0) {
        case None => return Err(InvalidUtf16);
        case Some(str) => return Ok(Msox.PropValue.String(str));
      }
    }
    r := SingleValue(t, buf, utf8);
  }

  // ---------------------------------------------------------------------
  // Fixed-size elements held in one stream (cfb_msg.rs:17-41,153-185)

  /** The element size the splitter is given for each type. */
  function ChunkSize(t: Msox.PropType): (size: nat)
    requires IsMultipleFixed(t)
    ensures size == 2 || size == 4 || size == 8 || size == 16
  {
    if t.MultipleInteger16? then 2
    else if t.MultipleInteger32? || t.MultipleFloating32? then 4
    else if t.MultipleGuid? then 16
    else 8
  }

  /** The consecutive size-byte slices of buf. */
  function ChunkSlices(buf: seq<byte>, size: nat): (cs: seq<seq<byte>>)
    requires size > 0 && |buf| % size == 0
  {
    seq(|buf| / size, i requires 0 <= i < |buf| / size => buf[i * size..(i + 1) * size])
  }

  /** The elements f decodes from the consecutive size-byte slices of buf. */
  function ChunkValues<T>(buf: seq<byte>, size: nat, f: seq<byte> --> T): (xs: seq<T>)
    requires size > 0 && |buf| % size == 0
    requires forall c: seq<byte> :: |c| == size ==> f.requires(c)
  {
    var cs := ChunkSlices(buf, size);
    SliceLengths(buf, size);
    seq(|cs|, i requires 0 <= i < |cs| => f(cs[i]))
  }

  lemma SliceLengths(buf: seq<byte>, size: nat)
    requires size > 0 && |buf| % size == 0
    ensures forall i :: 0 <= i < |ChunkSlices(buf, size)| ==> |ChunkSlices(buf, size)[i]| == size
  {
    forall i | 0 <= i < |ChunkSlices(buf, size)| ensures |ChunkSlices(buf, size)[i]| == size {
      WholeChunks(|buf|, size, i);
    }
  }

  /** The slices the decoded elements come from tile the buffer in order. */
  function Flatten(cs: seq<seq<byte>>): (b: seq<byte>)
  {
    if cs == [] then [] else cs[0] + Flatten(cs[1..])
  }

  lemma WholeChunks(len: nat, size: nat, i: nat)
    requires size > 0 && len % size == 0 && i < len / size
    ensures (i + 1) * size <= len && (i + 1) * size == i * size + size
  {
    assert len == len / size * size;
    MulMonotone(i + 1, len / size, size);
  }

  lemma MulMonotone(a: int, b: int, c: int)
    requires a <= b && c >= 0
    ensures a * c <= b * c
  {
  }

  lemma WholeOf(len: nat, size: nat)
    requires size > 0 && len % size == 0
    ensures len == len / size * size
  {
  }

  lemma MulCancel(x: int, y: int, c: int)
    requires c > 0
    ensures x * c < (y + 1) * c ==> x <= y
  {
    assert (y + 1) * c == y * c + c;
    if x > y {
      MulMonotone(y + 1, x, c);
    }
  }

  lemma DivUnique(a: int, size: int, q: int, r: int)
    requires size > 0 && a == q * size + r && 0 <= r < size
    ensures a / size == q && a % size == r
  {
    var d := a / size;
    MulCancel(d, q, size);
    MulCancel(q, d, size);
  }

  lemma OneFewer(len: nat, size: nat)
    requires size > 0 && len % size == 0 && len > 0
    ensures len >= size && (len - size) % size == 0 && (len - size) / size == len / size - 1
  {
    var k := len / size;
    WholeOf(len, size);
    assert k >= 1;
    assert len - size == (k - 1) * size;
    DivUnique(len - size, size, k - 1, 0);
  }

  /** Past its first slice, a whole buffer of slices is a whole buffer of one slice fewer. */
  lemma SlicesTail(buf: seq<byte>, size: nat)
    requires size > 0 && |buf| % size == 0 && |buf| > 0
    ensures |buf| >= size && |buf[size..]| % size == 0
    ensures ChunkSlices(buf, size) == [buf[..size]] + ChunkSlices(buf[size..], size)
  {
    OneFewer(|buf|, size);
    var k := |buf| / size;
    var rest := buf[size..];
    var cs, ts := ChunkSlices(buf, size), ChunkSlices(rest, size);
    assert |ts| == k - 1;
    forall i | 0 <= i < k - 1
      ensures cs[i + 1] == ts[i]
    {
      WholeChunks(|rest|, size, i);
      WholeChunks(|buf|, size, i + 1);
      Slices.SliceOfSlice(buf, size, |buf|, i * size, (i + 1) * size);
      assert rest == buf[size..|buf|];
    }
    assert cs == [buf[..size]] + ts;
  }

  lemma {:induction false} FlattenSlices(buf: seq<byte>, size: nat)
    requires size > 0 && |buf| % size == 0
    ensures Flatten(ChunkSlices(buf, size)) == buf
    decreases |buf|
  {
    if |buf| > 0 {
      SlicesTail(buf, size);
      FlattenSlices(buf[size..], size);
      assert buf == buf[..size] + buf[size..];
    }
  }

  /** The `for slice in value_buf.chunks(size)` loop of the splitter. */
  method DecodeChunks<T>(buf: seq<byte>, size: nat, f: seq<byte> --> T) returns (xs: seq<T>)
    requires size > 0 && |buf| % size == 0
    requires forall c: seq<byte> :: |c| == size ==> f.requires(c)
    ensures xs == ChunkValues(buf, size, f)
  {
    ghost var all := ChunkValues(buf, size, f);
    xs := [];
    var i := 0;
    while i < |buf| / size
      invariant 0 <= i <= |buf| / size
      invariant xs == all[..i]
    {
      WholeChunks(|buf|, size, i);
      var x := f(buf[i * size..(i + 1) * size]);
      assert all[..i + 1] == all[..i] + [x];
      xs := xs + [x];
      i := i + 1;
    }
    assert all[..i] == all;
  }

  function I16Of(c: seq<byte>): i16 requires |c| == 2 { ReadI16Le(c, 0).value.0 }
  function I32Of(c: seq<byte>): i32 requires |c| == 4 { ReadI32Le(c, 0).value.0 }
  function U32Of(c: seq<byte>): u32 requires |c| == 4 { ReadU32Le(c, 0).value.0 }
  function I64Of(c: seq<byte>): i64 requires |c| == 8 { ReadI64Le(c, 0).value.0 }
  function U64Of(c: seq<byte>): u64 requires |c| == 8 { ReadU64Le(c, 0).value.0 }
  function GuidOf(c: seq<byte>): Guids.Guid requires |c| == 16 { Guids.FromLeBytes(c).value }

  /** `match_multiple_fixed_property_type!`: a buffer whose length is not a whole
      number of elements skips the property; otherwise every slice is one element. */
  function MultipleFixedValue(t: Msox.PropType, buf: seq<byte>): (r: Result<Msox.PropValue<u32>, SkipReason>)
    requires IsMultipleFixed(t)
  {
    var size := ChunkSize(t);
    if |buf| % size != 0 then Err(ChunkMismatch(|buf|, size))
    else if t.MultipleInteger16? then Ok(Msox.PropValue.MultipleInteger16(ChunkValues(buf, 2, I16Of)))
    else if t.MultipleInteger32? then Ok(Msox.PropValue.MultipleInteger32(ChunkValues(buf, 4, I32Of)))
    else if t.MultipleFloating32? then Ok(Msox.PropValue.MultipleFloating32(ChunkValues(buf, 4, U32Of)))
    else if t.MultipleFloating64? then Ok(Msox.PropValue.MultipleFloating64(ChunkValues(buf, 8, U64Of)))
    else if t.MultipleCurrency? then Ok(Msox.PropValue.MultipleCurrency(ChunkValues(buf, 8, I64Of)))
    else if t.MultipleFloatingTime? then Ok(Msox.PropValue.MultipleFloatingTime(ChunkValues(buf, 8, U64Of)))
    else if t.MultipleTime? then Ok(Msox.PropValue.MultipleTime(ChunkValues(buf, 8, I64Of)))
    else if t.MultipleGuid? then Ok(Msox.PropValue.MultipleGuid(ChunkValues(buf, 16, GuidOf)))
    else Ok(Msox.PropValue.MultipleInteger64(ChunkValues(buf, 8, I64Of)))
  }

  /** A fixed multi-valued property is skipped exactly when its stream is not a whole
      number of elements; otherwise it has |buf| / size elements of its type. */
  lemma MultipleFixedShape(t: Msox.PropType, buf: seq<byte>)
    requires IsMultipleFixed(t)
    ensures MultipleFixedValue(t, buf).Err? <==> |buf| % ChunkSize(t) != 0
    ensures MultipleFixedValue(t, buf).Ok? ==>
              && Msox.TypeOf(MultipleFixedValue(t, buf).value) == t
              && |Msox.Elements(MultipleFixedValue(t, buf).value)| == |buf| / ChunkSize(t)
  {
  }

  method DecodeMultipleFixed(t: Msox.PropType, buf: seq<byte>) returns (r: Result<Msox.PropValue<u32>, SkipReason>)
    requires IsMultipleFixed(t)
    ensures r == MultipleFixedValue(t, buf)
  {
    var size := ChunkSize(t);
    if |buf| % size != 0 {
      return Err(ChunkMismatch(|buf|, size));
    }
    if t.MultipleInteger16? {
      var xs := DecodeChunks(buf, 2, I16Of);
      r := Ok(Msox.PropValue.MultipleInteger16(xs));
    } else if t.MultipleInteger32? {
      var xs := DecodeChunks(buf, 4, I32Of);
      r := Ok(Msox.PropValue.MultipleInteger32(xs));
    } else if t.MultipleFloating32? {
      var xs := DecodeChunks(buf, 4, U32Of);
      r := Ok(Msox.PropValue.MultipleFloating32(xs));
    } else if t.MultipleFloating64? {
      var xs := DecodeChunks(buf, 8, U64Of);
      r := Ok(Msox.PropValue.MultipleFloating64(xs));
    } else if t.MultipleCurrency? {
      var xs := DecodeChunks(buf, 8, I64Of);
      r := Ok(Msox.PropValue.MultipleCurrency(xs));
    } else if t.MultipleFloatingTime? {
      var xs := DecodeChunks(buf, 8, U64Of);
      r := Ok(Msox.PropValue.MultipleFloatingTime(xs));
    } else if t.MultipleTime? {
      var xs := DecodeChunks(buf, 8, I64Of);
      r := Ok(Msox.PropValue.MultipleTime(xs));
    } else if t.MultipleGuid? {
      var xs := DecodeChunks(buf, 16, GuidOf);
      r := Ok(Msox.PropValue.MultipleGuid(xs));
    } else {
      var xs := DecodeChunks(buf, 8, I64Of);
      r := Ok(Msox.PropValue.MultipleInteger64(xs));
    }
  }

  // ---------------------------------------------------------------------
  // Variable-size elements, one stream each (cfb_msg.rs:186-236)

  /** Bytes per element in the lengths stream: four for the string types, eight
      (four of them reserved) for MultipleBinary. */
  function LengthUnit(t: Msox.PropType): (u: nat)
    requires IsMultipleVariable(t)
    ensures u == 4 || u == 8
  {
    if t.MultipleBinary? then 8 else 4
  }

  /** The element count a lengths stream of `len` bytes announces, if it is a whole
      number of entries. */
  function ValueCount(t: Msox.PropType, len: nat): (r: Result<nat, SkipReason>)
    requires IsMultipleVariable(t)
    ensures r.Ok? <==> len % LengthUnit(t) == 0
    ensures r.Ok? ==> r.value * LengthUnit(t) == len
    ensures r.Err? ==> r.error == LengthsMismatch(len, LengthUnit(t))
  {
    var unit := LengthUnit(t);
    if len % unit != 0 then Err(LengthsMismatch(len, unit)) else Ok(len / unit)
  }

  /** The contents of the element streams 0 .. n-1 that exist, in index order; a
      missing element stream is passed over. */
  function ElementBufs(streams: Streams, tag: u16, typeCode: u16, n: nat): (bufs: seq<seq<byte>>)
    ensures |bufs| <= n
  {
    if n == 0 then []
    else
      ElementBufs(streams, tag, typeCode, n - 1)
      + match OpenStream(streams, ElementStreamName(tag, typeCode, n - 1))
        case None => []
        case Some(b) => [b]
  }

  /** When every element stream exists, buffer i is the contents of stream i. */
  lemma {:induction false} ElementBufsComplete(streams: Streams, tag: u16, typeCode: u16, n: nat)
    requires forall i :: 0 <= i < n ==> OpenStream(streams, ElementStreamName(tag, typeCode, i)).Some?
    ensures |ElementBufs(streams, tag, typeCode, n)| == n
    ensures forall i :: 0 <= i < n ==>
              ElementBufs(streams, tag, typeCode, n)[i] == OpenStream(streams, ElementStreamName(tag, typeCode, i)).value
  {
    if n > 0 {
      ElementBufsComplete(streams, tag, typeCode, n - 1);
    }
  }

  /** The `for value_index in 0..value_count` loop that gathers `value_bufs`. */
  method CollectElementBufs(streams: Streams, tag: u16, typeCode: u16, n: nat) returns (bufs: seq<seq<byte>>)
    ensures bufs == ElementBufs(streams, tag, typeCode, n)
  {
    bufs := [];
    for i := 0 to n
      invariant bufs == ElementBufs(streams, tag, typeCode, i)
    {
      var path := ElementStreamName(tag, typeCode, i);
      match OpenStream(streams, path) {
        case None =>
        case Some(b) => bufs := bufs + [b];
      }
    }
  }

  // ---------------------------------------------------------------------
  // One entry (cfb_msg.rs:57-236)

  /** What an entry of a valid type yields, given its tag, flags and value field. */
  function EntryOutcome(t: Msox.PropType, typeCode: u16, tag: u16, flags: u32, buf: seq<byte>,
                        streams: Streams, utf8: Utf8): (o: Outcome)
    requires !IsInvalid(t) && |buf| == 8
  {
    if IsInline(t) then Value(tag, flags, InlineValue(t, buf))
    else if IsExternalSingle(t) then
      match OpenStream(streams, StreamName(tag, typeCode))
      case None => Skipped(tag, typeCode, NoValueStream)
      case Some(vb) =>
        match SingleValue(t, vb, utf8)
        case Err(why) => Skipped(tag, typeCode, why)
        case Ok(v) => Value(tag, flags, v)
    else if IsMultipleFixed(t) then
      match OpenStream(streams, StreamName(tag, typeCode))
      case None => Skipped(tag, typeCode, NoValueStream)
      case Some(vb) =>
        match MultipleFixedValue(t, vb)
        case Err(why) => Skipped(tag, typeCode, why)
        case Ok(v) => Value(tag, flags, v)
    else
      match OpenStream(streams, "/" + StreamName(tag, typeCode))
      case None => Skipped(tag, typeCode, NoLengthStream)
      case Some(lb) =>
        match ValueCount(t, |lb|)
        case Err(why) => Skipped(tag, typeCode, why)
        case Ok(n) => ElementBuffers(tag, flags, typeCode, ElementBufs(streams, tag, typeCode, n))
  }

  /** An entry after its type code: tag u16, flags u32, then (for a valid type) eight
      value bytes, either inline data or a length and a reserved word. */
  function EntryAt(s: seq<byte>, p: nat, typeCode: u16, streams: Streams, utf8: Utf8): (r: Result<(Outcome, nat), MsgError>)
    ensures r.Ok? ==> r.value.1 == p + 14 <= |s|
  {
    var t := Msox.FromCode(typeCode);
    match ReadU16Le(s, p)
    case None => Err(Io)
    case Some((tag, p1)) =>
      match ReadU32Le(s, p1)
      case None => Err(Io)
      case Some((flags, p2)) =>
        if IsInvalid(t) then Err(InvalidPropertyType(typeCode))
        else match ReadBytes(s, p2, 8)
          case None => Err(Io)
          case Some((buf, q)) => Ok((EntryOutcome(t, typeCode, tag, flags, buf, streams, utf8), q))
  }

  /** The `while let Some(type_u16) = read_u16_le_or_eof()` loop from pos on. */
  function EntriesFrom(s: seq<byte>, pos: nat, streams: Streams, utf8: Utf8): (r: Result<seq<Outcome>, MsgError>)
    decreases |s| - pos
  {
    match ReadU16LeOrEof(s, pos)
    case AtEnd => Ok([])
    case Short => Err(Io)
    case Got(typeCode, p) =>
      match EntryAt(s, p, typeCode, streams, utf8)
      case Err(e) => Err(e)
      case Ok((o, q)) =>
        match EntriesFrom(s, q, streams, utf8)
        case Err(e) => Err(e)
        case Ok(os) => Ok([o] + os)
  }

  /** The properties stream: the header, then entries to its end. */
  function PropertiesStream(s: seq<byte>, streams: Streams, utf8: Utf8): (r: Result<(Header, seq<Outcome>), MsgError>)
  {
    match HeaderAt(s)
    case None => Err(Io)
    case Some((h, p)) =>
      match EntriesFrom(s, p, streams, utf8)
      case Err(e) => Err(e)
      case Ok(os) => Ok((h, os))
  }

  /** The types Unspecified and Null and every unlisted code are refused, once the
      tag and flags are read. */
  lemma InvalidTypeFails(s: seq<byte>, p: nat, typeCode: u16, streams: Streams, utf8: Utf8)
    requires IsInvalid(Msox.FromCode(typeCode)) && p + 6 <= |s|
    ensures EntryAt(s, p, typeCode, streams, utf8) == Err(InvalidPropertyType(typeCode))
  {
  }

  /** A read that succeeds used whole 16-byte entries only, one outcome each, and
      stopped exactly at the end of the stream. */
  lemma {:induction false} EntriesAreWhole(s: seq<byte>, pos: nat, streams: Streams, utf8: Utf8)
    requires pos <= |s| && EntriesFrom(s, pos, streams, utf8).Ok?
    ensures (|s| - pos) % 16 == 0
    ensures |EntriesFrom(s, pos, streams, utf8).value| == (|s| - pos) / 16
    decreases |s| - pos
  {
    if pos < |s| {
      EntriesStepOk(s, pos, streams, utf8);
      EntriesAreWhole(s, pos + 16, streams, utf8);
      var n := |s| - pos - 16;
      DivUnique(n + 16, 16, n / 16 + 1, n % 16);
    }
  }

  lemma EntriesStepOk(s: seq<byte>, pos: nat, streams: Streams, utf8: Utf8)
    requires pos < |s| && EntriesFrom(s, pos, streams, utf8).Ok?
    ensures pos + 16 <= |s| && EntriesFrom(s, pos + 16, streams, utf8).Ok?
    ensures |EntriesFrom(s, pos, streams, utf8).value| == 1 + |EntriesFrom(s, pos + 16, streams, utf8).value|
  {
    var r := ReadU16LeOrEof(s, pos);
    assert r.Got? && r.next == pos + 2 by {
      assert Some((r.value, r.next)) == ReadU16Le(s, pos);
    }
    var e := EntryAt(s, pos + 2, r.value, streams, utf8);
    assert e.Ok? && e.value.1 == pos + 16;
  }

  /** A property stream with at least one byte after the last whole entry fails. */
  lemma TrailingBytesFail(s: seq<byte>, streams: Streams, utf8: Utf8)
    requires 32 <= |s| && (|s| - 32) % 16 != 0
    ensures PropertiesStream(s, streams, utf8).Err?
  {
    if EntriesFrom(s, 32, streams, utf8).Ok? {
      EntriesAreWhole(s, 32, streams, utf8);
    }
  }

  // ---------------------------------------------------------------------
  // The loop itself

  method DecodeEntry(s: seq<byte>, p: nat, typeCode: u16, streams: Streams, utf8: Utf8) returns (r: Result<(Outcome, nat), MsgError>)
    ensures r == EntryAt(s, p, typeCode, streams, utf8)
  {
    var t := Msox.FromCode(typeCode);
    if p + 6 > |s| {
      return Err(Io);
    }
    var tag: u16 := ReadU16Le(s, p).value.0;
    var flags: u32 := ReadU32Le(s, p + 2).value.0;
    if IsInvalid(t) {
      return Err(InvalidPropertyType(typeCode));
    }
    if p + 14 > |s| {
      return Err(Io);
    }
    var buf := s[p + 6..p + 14];
    var o: Outcome;
    if IsInline(t) {
      o := Value(tag, flags, InlineValue(t, buf));
    } else if IsExternalSingle(t) || IsMultipleFixed(t) {
      match OpenStream(streams, StreamName(tag, typeCode)) {
        case None =>
          o := Skipped(tag, typeCode, NoValueStream);
        case Some(vb) =>
          var v;
          if IsExternalSingle(t) {
            v := DecodeSingleValue(t, vb, utf8);
          } else {
            v := DecodeMultipleFixed(t, vb);
          }
          match v {
            case Err(why) => o := Skipped(tag, typeCode, why);
            case Ok(x) => o := Value(tag, flags, x);
          }
      }
    } else {
      match OpenStream(streams, "/" + StreamName(tag, typeCode)) {
        case None =>
          o := Skipped(tag, typeCode, NoLengthStream);
        case Some(lb) =>
          match ValueCount(t, |lb|) {
            case Err(why) =>
              o := Skipped(tag, typeCode, why);
            case Ok(n) =>
              var bufs := CollectElementBufs(streams, tag, typeCode, n);
              o := ElementBuffers(tag, flags, typeCode, bufs);
          }
      }
    }
    return Ok((o, p + 14));
  }

  function PrependOutcomes(xs: seq<Outcome>, r: Result<seq<Outcome>, MsgError>): Result<seq<Outcome>, MsgError>
  {
    match r
    case Err(e) => Err(e)
    case Ok(ys) => Ok(xs + ys)
  }

  /** One pass of the loop keeps its invariant. */
  lemma EntriesStep(s: seq<byte>, pos: nat, typeCode: u16, p: nat, o: Outcome, q: nat,
                    streams: Streams, utf8: Utf8, os: seq<Outcome>)
    requires ReadU16LeOrEof(s, pos) == Got(typeCode, p)
    requires EntryAt(s, p, typeCode, streams, utf8) == Ok((o, q))
    requires EntriesFrom(s, 32, streams, utf8) == PrependOutcomes(os, EntriesFrom(s, pos, streams, utf8))
    ensures EntriesFrom(s, 32, streams, utf8) == PrependOutcomes(os + [o], EntriesFrom(s, q, streams, utf8))
  {
    match EntriesFrom(s, q, streams, utf8) {
      case Err(_) =>
      case Ok(ys) => assert os + ([o] + ys) == (os + [o]) + ys;
    }
  }

  /** The ways the loop stops. */
  lemma EntriesStop(s: seq<byte>, pos: nat, streams: Streams, utf8: Utf8, os: seq<Outcome>)
    requires EntriesFrom(s, 32, streams, utf8) == PrependOutcomes(os, EntriesFrom(s, pos, streams, utf8))
    ensures ReadU16LeOrEof(s, pos).AtEnd? ==> EntriesFrom(s, 32, streams, utf8) == Ok(os)
    ensures ReadU16LeOrEof(s, pos).Short? ==> EntriesFrom(s, 32, streams, utf8) == Err(Io)
    ensures ReadU16LeOrEof(s, pos).Got? && EntryAt(s, ReadU16LeOrEof(s, pos).next, ReadU16LeOrEof(s, pos).value, streams, utf8).Err? ==>
              EntriesFrom(s, 32, streams, utf8) == Err(EntryAt(s, ReadU16LeOrEof(s, pos).next, ReadU16LeOrEof(s, pos).value, streams, utf8).error)
  {
    assert os + [] == os;
  }

  /** `read_cfb_msg_as_tnef` as far as the source takes it: the header, then
      one outcome per entry until the properties stream ends. */
  method ReadPropertiesStream(s: seq<byte>, streams: Streams, utf8: Utf8) returns (r: Result<(Header, seq<Outcome>), MsgError>)
    ensures r == PropertiesStream(s, streams, utf8)
  {
    if |s| < 32 {
      return Err(Io);
    }
    var header := HeaderAt(s).value.0;
    var outcomes: seq<Outcome> := [];
    var pos: nat := 32;
    match EntriesFrom(s, pos, streams, utf8) {
      case Err(_) =>
      case Ok(ys) => assert [] + ys == ys;
    }
    while true
      invariant EntriesFrom(s, 32, streams, utf8) == PrependOutcomes(outcomes, EntriesFrom(s, pos, streams, utf8))
      decreases |s| - pos
    {
      EntriesStop(s, pos, streams, utf8, outcomes);
      match ReadU16LeOrEof(s, pos) {
        case AtEnd =>
          break;
        case Short =>
          return Err(Io);
        case Got(typeCode, p) =>
          var entry := DecodeEntry(s, p, typeCode, streams, utf8);
          match entry {
            case Err(e) =>
              return Err(e);
            case Ok((o, q)) =>
              EntriesStep(s, pos, typeCode, p, o, q, streams, utf8, outcomes);
              outcomes := outcomes + [o];
              pos := q;
          }
      }
    }
    return Ok((header, outcomes));
  }
}
