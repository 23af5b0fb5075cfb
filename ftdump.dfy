/**
 * ftdump (ftdump/src/main.rs): a dump of Exchange fast-transfer streams.  The
 * file is a run of (type, length, payload) chunks; a chunk of type 2 is a
 * message, read as a run of 32-bit words that are either stream markers or
 * property tags followed by the property's id and value.  Everything that
 * `expect`s or `panic!`s in the source ends the dump; here it is an `FtError`.
 * What the tool prints is not modelled; the records it prints are the result.
 */
module FtDump {
  import opened Wrappers
  import opened BinRead
  import opened Slices
  import Guids
  import Utf16
  import Msox
  import TnefProps

  /** The charset decoders the dump relies on: `String::from_utf8`, whether
      `codepage::to_encoding` knows a codepage, and decoding in that codepage. */
  datatype Charsets = Charsets(utf8: seq<byte> -> Option<string>,
                               knownCodepage: u16 -> bool,
                               decodeCodepage: (u16, seq<byte>) -> Option<string>)

  datatype FtError =
    | Io
    | UnknownIdentifierType(identifierType: byte)
    | InvalidName(words: seq<u16>)
    | InvalidBoolean(word: u16)
    | CountNotOne(propType: Msox.PropType, count: u32)
    | OddStringSize(size: u32)
    | InvalidUtf8
    | InvalidUtf16(words: seq<u16>)
    | UnknownPropertyType(code: u16)
    | UnknownCodepage(codepage: u16)
    | MalformedString

  // ---------------------------------------------------------------------
  // Markers (main.rs:13-44)

  datatype Marker =
    | StartTopFld | StartSubFld | EndFolder
    | StartMessage | EndMessage | StartFAIMsg | StartEmbed | EndEmbed
    | StartRecip | EndToRecip | NewAttach | EndAttach
    | IncrSyncChg | IncrSyncChgPartial | IncrSyncDel | IncrSyncEnd | IncrSyncRead
    | IncrSyncStateBegin | IncrSyncStateEnd | IncrSyncProgressMode | IncrSyncProgressPerMsg
    | IncrSyncMessage | IncrSyncGroupInfo
    | FXErrorInfo

  function MarkerCode(m: Marker): u32
  {
    match m
    case StartTopFld => 0x4009_0003
    case StartSubFld => 0x400A_0003
    case EndFolder => 0x400B_0003
    case StartMessage => 0x400C_0003
    case EndMessage => 0x400D_0003
    case StartFAIMsg => 0x4010_0003
    case StartEmbed => 0x4001_0003
    case EndEmbed => 0x4002_0003
    case StartRecip => 0x4003_0003
    case EndToRecip => 0x4004_0003
    case NewAttach => 0x4000_0003
    case EndAttach => 0x400E_0003
    case IncrSyncChg => 0x4012_0003
    case IncrSyncChgPartial => 0x407D_0003
    case IncrSyncDel => 0x4013_0003
    case IncrSyncEnd => 0x4014_0003
    case IncrSyncRead => 0x402F_0003
    case IncrSyncStateBegin => 0x403A_0003
    case IncrSyncStateEnd => 0x403B_0003
    case IncrSyncProgressMode => 0x4074_000B
    case IncrSyncProgressPerMsg => 0x4075_000B
    case IncrSyncMessage => 0x4015_0003
    case IncrSyncGroupInfo => 0x407B_0102
    case FXErrorInfo => 0x4018_0003
  }

  /** `Marker::try_from_repr`. */
  function MarkerOf(w: u32): (r: Option<Marker>)
  {
    match w
    case 0x4009_0003 => Some(StartTopFld)
    case 0x400A_0003 => Some(StartSubFld)
    case 0x400B_0003 => Some(EndFolder)
    case 0x400C_0003 => Some(StartMessage)
    case 0x400D_0003 => Some(EndMessage)
    case 0x4010_0003 => Some(StartFAIMsg)
    case 0x4001_0003 => Some(StartEmbed)
    case 0x4002_0003 => Some(EndEmbed)
    case 0x4003_0003 => Some(StartRecip)
    case 0x4004_0003 => Some(EndToRecip)
    case 0x4000_0003 => Some(NewAttach)
    case 0x400E_0003 => Some(EndAttach)
    case 0x4012_0003 => Some(IncrSyncChg)
    case 0x407D_0003 => Some(IncrSyncChgPartial)
    case 0x4013_0003 => Some(IncrSyncDel)
    case 0x4014_0003 => Some(IncrSyncEnd)
    case 0x402F_0003 => Some(IncrSyncRead)
    case 0x403A_0003 => Some(IncrSyncStateBegin)
    case 0x403B_0003 => Some(IncrSyncStateEnd)
    case 0x4074_000B => Some(IncrSyncProgressMode)
    case 0x4075_000B => Some(IncrSyncProgressPerMsg)
    case 0x4015_0003 => Some(IncrSyncMessage)
    case 0x407B_0102 => Some(IncrSyncGroupInfo)
    case 0x4018_0003 => Some(FXErrorInfo)
    case _ => None
  }

  /** The marker table is a bijection between the markers and their codes. */
  lemma MarkerRoundTrip(m: Marker, w: u32)
    ensures MarkerOf(MarkerCode(m)) == Some(m)
    ensures MarkerOf(w).Some? ==> MarkerCode(MarkerOf(w).value) == w
  {
  }

  // ---------------------------------------------------------------------
  // Property ids (main.rs:46-56,75-115)

  datatype NameInfo = DisplayId(displayId: u32) | Name(name: string)
  datatype PropertyId = Tagged(tag: u16) | Named(propertySet: Guids.Guid, nameInfo: NameInfo)

  /** UTF-16 words up to, not including, the first 0x0000 word. */
  function NulTerminatedAt(s: seq<byte>, pos: nat): (r: Option<(seq<u16>, nat)>)
    ensures r.Some? ==> forall k :: 0 <= k < |r.value.0| ==> r.value.0[k] != 0
    ensures r.Some? ==> r.value.1 == pos + 2 * |r.value.0| + 2 <= |s|
    decreases |s| - pos
  {
    match ReadU16Le(s, pos)
    case None => None
    case Some((w, p)) =>
      if w == 0 then Some(([], p))
      else match NulTerminatedAt(s, p)
        case None => None
        case Some((ws, q)) => Some(([w] + ws, q))
  }

  /** The words a NUL-terminated name ends with, as a writer lays them out. */
  function EncodeNulTerminated(ws: seq<u16>): (b: seq<byte>)
    ensures |b| == 2 * |ws| + 2
  {
    TnefProps.WordBytes(ws) + [0, 0]
  }

  /** Any words without a 0x0000 word are read back from their NUL-terminated layout. */
  lemma {:induction false} NulOfEncoded(s: seq<byte>, pos: nat, ws: seq<u16>)
    requires forall k :: 0 <= k < |ws| ==> ws[k] != 0
    requires pos + 2 * |ws| + 2 <= |s| && s[pos..pos + 2 * |ws| + 2] == EncodeNulTerminated(ws)
    ensures NulTerminatedAt(s, pos) == Some((ws, pos + 2 * |ws| + 2))
    decreases |ws|
  {
    Pow256Widths();
    if ws == [] {
      assert s[pos..pos + 2] == [0, 0];
    } else {
      var tail := TnefProps.WordBytes(ws[1..]) + [0, 0];
      TnefProps.WordBytesCons(ws);
      assert EncodeNulTerminated(ws) == LeBytes(ws[0], 2) + tail;
      SlicesAt2(s, pos, LeBytes(ws[0], 2), tail);
      ReadsOfLeBytes(s, pos, ws[0], 2);
      NulOfEncoded(s, pos + 2, ws[1..]);
      assert ws == [ws[0]] + ws[1..];
    }
  }

  function PrependWords(ws: seq<u16>, r: Option<(seq<u16>, nat)>): Option<(seq<u16>, nat)>
  {
    match r
    case None => None
    case Some((vs, q)) => Some((ws + vs, q))
  }

  /** The `loop { read_u16_le; if word == 0 break; words.push(word) }` of a name. */
  method ReadNulTerminated(s: seq<byte>, pos: nat) returns (r: Option<(seq<u16>, nat)>)
    ensures r == NulTerminatedAt(s, pos)
  {
    var words: seq<u16> := [];
    var p := pos;
    match NulTerminatedAt(s, pos) {
      case None =>
      case Some((vs, _)) => assert [] + vs == vs;
    }
    while true
      invariant NulTerminatedAt(s, pos) == PrependWords(words, NulTerminatedAt(s, p))
      decreases |s| - p
    {
      match ReadU16Le(s, p) {
        case None =>
          return None;
        case Some((w, q)) =>
          if w == 0 {
            assert words + [] == words;
            return Some((words, q));
          }
          match NulTerminatedAt(s, q) {
            case None =>
            case Some((vs, _)) => assert words + ([w] + vs) == (words + [w]) + vs;
          }
          words := words + [w];
          p := q;
      }
    }
  }

  /** The id of a property whose id number is idNum, read from pos. */
  function IdAt(s: seq<byte>, pos: nat, idNum: u16): (r: Result<(PropertyId, nat), FtError>)
    ensures r.Ok? ==> r.value.1 >= pos
  {
    if idNum < 0x8000 then Ok((Tagged(idNum), pos))
    else match ReadBytes(s, pos, 16)
      case None => Err(Io)
      case Some((g, p)) =>
        match ReadU8(s, p)
        case None => Err(Io)
        case Some((k, p2)) =>
          if k == 0 then
            match ReadU32Le(s, p2)
            case None => Err(Io)
            case Some((d, p3)) => Ok((Named(Guids.FromLeBytes(g).value, DisplayId(d)), p3))
          else if k == 1 then
            match NulTerminatedAt(s, p2)
            case None => Err(Io)
            case Some((ws, p3)) =>
              match Utf16.Decode(ws)
              case None => Err(InvalidName(ws))
              case Some(name) => Ok((Named(Guids.FromLeBytes(g).value, Name(name)), p3))
          else Err(UnknownIdentifierType(k))
  }

  /** An id number below 0x8000 is a tag and reads nothing more. */
  lemma TaggedReadsNothing(s: seq<byte>, pos: nat, idNum: u16)
    requires idNum < 0x8000
    ensures IdAt(s, pos, idNum) == Ok((Tagged(idNum), pos))
  {
  }

  /** From 0x8000 on: a little-endian GUID, then identifier type 0 (a display id),
      1 (a name ending at the first NUL word) or a failure. */
  lemma NamedIds(s: seq<byte>, pos: nat, idNum: u16)
    requires idNum >= 0x8000 && pos + 17 <= |s|
    ensures s[pos + 16] > 1 ==> IdAt(s, pos, idNum) == Err(UnknownIdentifierType(s[pos + 16]))
    ensures IdAt(s, pos, idNum).Ok? ==>
              && IdAt(s, pos, idNum).value.0.Named?
              && IdAt(s, pos, idNum).value.0.propertySet == Guids.FromLeBytes(s[pos..pos + 16]).value
              && (IdAt(s, pos, idNum).value.0.nameInfo.DisplayId? <==> s[pos + 16] == 0)
    ensures s[pos + 16] == 1 && IdAt(s, pos, idNum).Ok? ==>
              var ws := NulTerminatedAt(s, pos + 17).value.0;
              && Utf16.Encode(IdAt(s, pos, idNum).value.0.nameInfo.name) == ws
              && IdAt(s, pos, idNum).value.1 == pos + 17 + 2 * |ws| + 2
  {
    if s[pos + 16] == 1 && IdAt(s, pos, idNum).Ok? {
      Utf16.EncodeDecode(NulTerminatedAt(s, pos + 17).value.0);
    }
  }

  // ---------------------------------------------------------------------
  // Values (main.rs:118-433)

  type FtElem<T> = (Charsets, seq<byte>, nat) -> Result<(T, nat), FtError>

  function Fixed<T>(r: Option<(T, nat)>): (out: Result<(T, nat), FtError>)
    ensures out.Ok? <==> r.Some?
    ensures out.Ok? ==> out.value == r.value
  {
    match r
    case None => Err(Io)
    case Some(v) => Ok(v)
  }

  function I16El(c: Charsets, s: seq<byte>, pos: nat): (r: Result<(i16, nat), FtError>)
    ensures r.Ok? ==> r.value.1 == pos + 2
  {
    Fixed(ReadI16Le(s, pos))
  }

  function I32El(c: Charsets, s: seq<byte>, pos: nat): (r: Result<(i32, nat), FtError>)
    ensures r.Ok? ==> r.value.1 == pos + 4
  {
    Fixed(ReadI32Le(s, pos))
  }

  function U32El(c: Charsets, s: seq<byte>, pos: nat): (r: Result<(u32, nat), FtError>)
    ensures r.Ok? ==> r.value.1 == pos + 4
  {
    Fixed(ReadU32Le(s, pos))
  }

  /** The bit pattern of an f64 (floating point is not modelled; an f32 is read as
      its bit pattern by `U32El`). */
  function F64El(c: Charsets, s: seq<byte>, pos: nat): (r: Result<(u64, nat), FtError>)
    ensures r.Ok? ==> r.value.1 == pos + 8
  {
    Fixed(ReadU64Le(s, pos))
  }

  function I64El(c: Charsets, s: seq<byte>, pos: nat): (r: Result<(i64, nat), FtError>)
    ensures r.Ok? ==> r.value.1 == pos + 8
  {
    Fixed(ReadI64Le(s, pos))
  }

  function GuidEl(c: Charsets, s: seq<byte>, pos: nat): (r: Result<(Guids.Guid, nat), FtError>)
    ensures r.Ok? ==> r.value.1 == pos + 16
  {
    match ReadBytes(s, pos, 16)
    case None => Err(Io)
    case Some((b, p)) => Ok((Guids.FromLeBytes(b).value, p))
  }

  /** A u32 byte count, then that many bytes; no padding. */
  function BytesEl(c: Charsets, s: seq<byte>, pos: nat): (r: Result<(seq<byte>, nat), FtError>)
    ensures r.Ok? ==> r.value.1 == pos + 4 + |r.value.0| <= |s|
    ensures r.Ok? ==> LeValue(s[pos..pos + 4]) == |r.value.0| && r.value.0 == s[pos + 4..r.value.1]
  {
    match ReadU32Le(s, pos)
    case None => Err(Io)
    case Some((n, p)) =>
      match ReadBytes(s, p, n)
      case None => Err(Io)
      case Some((b, q)) => Ok((b, q))
  }

  function String8El(c: Charsets, s: seq<byte>, pos: nat): (r: Result<(string, nat), FtError>)
    ensures r.Ok? ==> r.value.1 >= pos
  {
    match BytesEl(c, s, pos)
    case Err(e) => Err(e)
    case Ok((b, q)) =>
      match c.utf8(b)
      case None => Err(InvalidUtf8)
      case Some(str) => Ok((str, q))
  }

  /** A u32 byte count that must be even, then that many bytes of UTF-16. */
  function WideEl(c: Charsets, s: seq<byte>, pos: nat): (r: Result<(string, nat), FtError>)
    ensures r.Ok? ==> r.value.1 >= pos
  {
    match ReadU32Le(s, pos)
    case None => Err(Io)
    case Some((n, p)) =>
      if n % 2 != 0 then Err(OddStringSize(n))
      else match ReadBytes(s, p, n)
        case None => Err(Io)
        case Some((b, q)) =>
          match Utf16.Decode(Words(b))
          case None => Err(InvalidUtf16(Words(b)))
          case Some(str) => Ok((str, q))
  }

  /** A u32 value count, then that many elements. */
  function ManyAt<T>(c: Charsets, s: seq<byte>, pos: nat, elem: FtElem<T>): (r: Result<(seq<T>, nat), FtError>)
    requires Advancing(c, s, elem)
    ensures r.Ok? ==> r.value.1 >= pos + 4
  {
    match ReadU32Le(s, pos)
    case None => Err(Io)
    case Some((n, p)) =>
      ReadSeqAdvances(c, s, p, n, elem);
      ReadSeq(c, s, p, n, elem)
  }

  /** A u32 value count that must be 1 for the single-valued type t, then the element. */
  function SingleAt<T>(c: Charsets, s: seq<byte>, pos: nat, t: Msox.PropType, elem: FtElem<T>): (r: Result<(T, nat), FtError>)
    requires Advancing(c, s, elem)
    ensures r.Ok? ==> r.value.1 >= pos + 4
  {
    match ReadU32Le(s, pos)
    case None => Err(Io)
    case Some((n, p)) =>
      if n != 1 then Err(CountNotOne(t, n))
      else
        ReadSeqAdvances(c, s, p, n, elem);
        match ReadSeq(c, s, p, n, elem)
        case Err(e) => Err(e)
        case Ok((xs, q)) => Ok((xs[0], q))
  }

  /** An Object: a value count that must be 1, then a byte count and the bytes. */
  function ObjectAt(c: Charsets, s: seq<byte>, pos: nat): (r: Result<(seq<byte>, nat), FtError>)
    ensures r.Ok? ==> r.value.1 >= pos + 4
  {
    match ReadU32Le(s, pos)
    case None => Err(Io)
    case Some((n, p)) =>
      if n != 1 then Err(CountNotOne(Msox.PropType.Object, n)) else BytesEl(c, s, p)
  }

  /** A type code outside the table with bit 0x8000 set: one string in codepage
      `code & 0x7FFF`, written here as `code % 0x8000`. */
  function CodepageStringAt(c: Charsets, s: seq<byte>, pos: nat, code: u16): (r: Result<(string, nat), FtError>)
    ensures r.Ok? ==> r.value.1 >= pos
  {
    if code / 0x8000 == 0 then Err(UnknownPropertyType(code))
    else
      var cp: u16 := code % 0x8000;
      if !c.knownCodepage(cp) then Err(UnknownCodepage(cp))
      else match BytesEl(c, s, pos)
        case Err(e) => Err(e)
        case Ok((b, q)) =>
          match c.decodeCodepage(cp, b)
          case None => Err(MalformedString)
          case Some(str) => Ok((str, q))
  }

  /** The value of a property of type t at pos. */
  function ValueAt(c: Charsets, t: Msox.PropType, s: seq<byte>, pos: nat): (r: Result<(Msox.PropValue<u32>, nat), FtError>)
    ensures r.Ok? ==> r.value.1 >= pos
  {
    match t
    case Unspecified => Ok((Msox.PropValue.Unspecified, pos))
    case Null => Ok((Msox.PropValue.Null, pos))
    case Integer16 =>
      (match I16El(c, s, pos) case Err(e) => Err(e) case Ok((x, p)) => Ok((Msox.PropValue.Integer16(x), p)))
    case Integer32 =>
      (match I32El(c, s, pos) case Err(e) => Err(e) case Ok((x, p)) => Ok((Msox.PropValue.Integer32(x), p)))
    case Floating32 =>
      (match U32El(c, s, pos) case Err(e) => Err(e) case Ok((x, p)) => Ok((Msox.PropValue.Floating32(x), p)))
    case Floating64 =>
      (match F64El(c, s, pos) case Err(e) => Err(e) case Ok((x, p)) => Ok((Msox.PropValue.Floating64(x), p)))
    case Currency =>
      (match I64El(c, s, pos) case Err(e) => Err(e) case Ok((x, p)) => Ok((Msox.PropValue.Currency(x), p)))
    case FloatingTime =>
      (match F64El(c, s, pos) case Err(e) => Err(e) case Ok((x, p)) => Ok((Msox.PropValue.FloatingTime(x), p)))
    case ErrorCode =>
      (match U32El(c, s, pos) case Err(e) => Err(e) case Ok((x, p)) => Ok((Msox.PropValue.ErrorCode(x), p)))
    case Boolean =>
      (match ReadU16Le(s, pos)
       case None => Err(Io)
       case Some((w, p)) =>
         if w == 0 then Ok((Msox.PropValue.Boolean(false), p))
         else if w == 1 then Ok((Msox.PropValue.Boolean(true), p))
         else Err(InvalidBoolean(w)))
    case Integer64 =>
      (match I64El(c, s, pos) case Err(e) => Err(e) case Ok((x, p)) => Ok((Msox.PropValue.Integer64(x), p)))
    case Time =>
      (match I64El(c, s, pos) case Err(e) => Err(e) case Ok((x, p)) => Ok((Msox.PropValue.Time(x), p)))
    case Guid =>
      (match GuidEl(c, s, pos) case Err(e) => Err(e) case Ok((x, p)) => Ok((Msox.PropValue.Guid(x), p)))
    case Object =>
      (match ObjectAt(c, s, pos) case Err(e) => Err(e) case Ok((x, p)) => Ok((Msox.PropValue.Object(x), p)))
    case Binary =>
      (match BytesEl(c, s, pos) case Err(e) => Err(e) case Ok((x, p)) => Ok((Msox.PropValue.Binary(x), p)))
    case String8 =>
      (match SingleAt(c, s, pos, t, String8El) case Err(e) => Err(e) case Ok((x, p)) => Ok((Msox.PropValue.String8(x), p)))
    case MultipleString8 =>
      (match ManyAt(c, s, pos, String8El) case Err(e) => Err(e) case Ok((xs, p)) => Ok((Msox.PropValue.MultipleString8(xs), p)))
    case String =>
      (match SingleAt(c, s, pos, t, WideEl) case Err(e) => Err(e) case Ok((x, p)) => Ok((Msox.PropValue.String(x), p)))
    case MultipleString =>
      (match ManyAt(c, s, pos, WideEl) case Err(e) => Err(e) case Ok((xs, p)) => Ok((Msox.PropValue.MultipleString(xs), p)))
    case MultipleBinary =>
      (match ManyAt(c, s, pos, BytesEl) case Err(e) => Err(e) case Ok((xs, p)) => Ok((Msox.PropValue.MultipleBinary(xs), p)))
    case MultipleInteger16 =>
      (match ManyAt(c, s, pos, I16El) case Err(e) => Err(e) case Ok((xs, p)) => Ok((Msox.PropValue.MultipleInteger16(xs), p)))
    case MultipleInteger32 =>
      (match ManyAt(c, s, pos, I32El) case Err(e) => Err(e) case Ok((xs, p)) => Ok((Msox.PropValue.MultipleInteger32(xs), p)))
    case MultipleFloating32 =>
      (match ManyAt(c, s, pos, U32El) case Err(e) => Err(e) case Ok((xs, p)) => Ok((Msox.PropValue.MultipleFloating32(xs), p)))
    case MultipleFloating64 =>
      (match ManyAt(c, s, pos, F64El) case Err(e) => Err(e) case Ok((xs, p)) => Ok((Msox.PropValue.MultipleFloating64(xs), p)))
    case MultipleCurrency =>
      (match ManyAt(c, s, pos, I64El) case Err(e) => Err(e) case Ok((xs, p)) => Ok((Msox.PropValue.MultipleCurrency(xs), p)))
    case MultipleFloatingTime =>
      (match ManyAt(c, s, pos, F64El) case Err(e) => Err(e) case Ok((xs, p)) => Ok((Msox.PropValue.MultipleFloatingTime(xs), p)))
    case MultipleInteger64 =>
      (match ManyAt(c, s, pos, I64El) case Err(e) => Err(e) case Ok((xs, p)) => Ok((Msox.PropValue.MultipleInteger64(xs), p)))
    case MultipleTime =>
      (match ManyAt(c, s, pos, I64El) case Err(e) => Err(e) case Ok((xs, p)) => Ok((Msox.PropValue.MultipleTime(xs), p)))
    case MultipleGuid =>
      (match ManyAt(c, s, pos, GuidEl) case Err(e) => Err(e) case Ok((xs, p)) => Ok((Msox.PropValue.MultipleGuid(xs), p)))
    case Other(code) =>
      (match CodepageStringAt(c, s, pos, code) case Err(e) => Err(e) case Ok((x, p)) => Ok((Msox.PropValue.String(x), p)))
  }

  /** A Boolean is a 16-bit word that must be 0 or 1. */
  lemma BooleanWord(c: Charsets, s: seq<byte>, pos: nat, w: u16)
    requires ReadU16Le(s, pos) == Some((w, pos + 2))
    ensures w <= 1 ==> ValueAt(c, Msox.PropType.Boolean, s, pos) == Ok((Msox.PropValue.Boolean(w == 1), pos + 2))
    ensures w > 1 ==> ValueAt(c, Msox.PropType.Boolean, s, pos) == Err(InvalidBoolean(w))
  {
  }

  /** String8, String and Object demand a value count of 1; a UTF-16 element's byte
      count must be even. */
  lemma SingleCountChecked(c: Charsets, t: Msox.PropType, s: seq<byte>, pos: nat, n: u32)
    requires t.String8? || t.String? || t.Object?
    requires ReadU32Le(s, pos) == Some((n, pos + 4)) && n != 1
    ensures ValueAt(c, t, s, pos) == Err(CountNotOne(t, n))
  {
  }

  lemma OddStringFails(c: Charsets, s: seq<byte>, pos: nat, n: u32)
    requires ReadU32Le(s, pos) == Some((n, pos + 4)) && n % 2 == 1
    ensures WideEl(c, s, pos) == Err(OddStringSize(n))
  {
  }

  /** A single Binary is a byte count and the bytes, with no value count before them. */
  lemma BinaryHasNoCount(c: Charsets, s: seq<byte>, pos: nat, n: u32)
    requires ReadU32Le(s, pos) == Some((n, pos + 4)) && pos + 4 + n <= |s|
    ensures ValueAt(c, Msox.PropType.Binary, s, pos) == Ok((Msox.PropValue.Binary(s[pos + 4..pos + 4 + n]), pos + 4 + n))
  {
  }

  /** A type outside the table is a codepage string exactly when bit 0x8000 is set,
      the codepage being the other fifteen bits. */
  lemma CodepageBits(c: Charsets, s: seq<byte>, pos: nat, code: u16)
    requires !Msox.Listed(code)
    ensures code < 0x8000 ==> ValueAt(c, Msox.FromCode(code), s, pos) == Err(UnknownPropertyType(code))
    ensures code >= 0x8000 && !c.knownCodepage(code - 0x8000) ==>
              ValueAt(c, Msox.FromCode(code), s, pos) == Err(UnknownCodepage(code - 0x8000))
    ensures ValueAt(c, Msox.FromCode(code), s, pos).Ok? ==>
              && code >= 0x8000
              && var (str, q) := BytesEl(c, s, pos).value;
                 ValueAt(c, Msox.FromCode(code), s, pos) == Ok((Msox.PropValue.String(c.decodeCodepage(code - 0x8000, str).value), q))
  {
  }

  /** A multi-valued value has exactly its count of elements, in order: element i
      is the one read where the first i end. */
  lemma ManyCount<T>(c: Charsets, s: seq<byte>, pos: nat, elem: FtElem<T>, i: nat)
    requires Advancing(c, s, elem) && ManyAt(c, s, pos, elem).Ok?
    ensures pos + 4 <= |s| && |ManyAt(c, s, pos, elem).value.0| == LeValue(s[pos..pos + 4])
    ensures i < LeValue(s[pos..pos + 4]) ==>
              && ReadSeq(c, s, pos + 4, i, elem).Ok?
              && var p := ReadSeq(c, s, pos + 4, i, elem).value.1;
                 elem(c, s, p).Ok? && elem(c, s, p).value.0 == ManyAt(c, s, pos, elem).value.0[i]
  {
    if i < LeValue(s[pos..pos + 4]) {
      ReadSeqAt(c, s, pos + 4, LeValue(s[pos..pos + 4]), elem, i);
    }
  }

  // ---------------------------------------------------------------------
  // Records and the message loop (main.rs:59-116,434-437)

  datatype Item =
    | MarkerItem(marker: Marker)
    | PropertyItem(propType: Msox.PropType, id: PropertyId, value: Msox.PropValue<u32>)

  /** What follows the 32-bit word w: nothing for a marker; otherwise the low 16 bits
      are the type, the high 16 bits the id number, and the id and value follow. */
  function RecordAfter(c: Charsets, s: seq<byte>, pos: nat, w: u32): (r: Result<(Item, nat), FtError>)
    ensures r.Ok? ==> r.value.1 >= pos
  {
    match MarkerOf(w)
    case Some(m) => Ok((MarkerItem(m), pos))
    case None =>
      var t := Msox.FromCode(w % 0x1_0000);
      match IdAt(s, pos, w / 0x1_0000)
      case Err(e) => Err(e)
      case Ok((id, p)) =>
        match ValueAt(c, t, s, p)
        case Err(e) => Err(e)
        case Ok((v, q)) => Ok((PropertyItem(t, id, v), q))
  }

  /** `parse_message` from pos: records until the input ends at a record start. */
  function MessageFrom(c: Charsets, s: seq<byte>, pos: nat): (r: Result<seq<Item>, FtError>)
    decreases |s| - pos
  {
    match ReadU32LeOrEof(s, pos)
    case AtEnd => Ok([])
    case Short => Err(Io)
    case Got(w, p) =>
      match RecordAfter(c, s, p, w)
      case Err(e) => Err(e)
      case Ok((item, q)) =>
        match MessageFrom(c, s, q)
        case Err(e) => Err(e)
        case Ok(items) => Ok([item] + items)
  }

  function PrependItems(xs: seq<Item>, r: Result<seq<Item>, FtError>): Result<seq<Item>, FtError>
  {
    match r
    case Err(e) => Err(e)
    case Ok(ys) => Ok(xs + ys)
  }

  /** The little-endian u32 at pos splits into the type (its first two bytes) and
      the id number (its last two). */
  lemma WordHalves(s: seq<byte>, pos: nat)
    requires pos + 4 <= |s|
    ensures LeValue(s[pos..pos + 4]) % 0x1_0000 == LeValue(s[pos..pos + 2])
    ensures LeValue(s[pos..pos + 4]) / 0x1_0000 == LeValue(s[pos + 2..pos + 4])
  {
    var b := s[pos..pos + 4];
    assert s[pos..pos + 2] == b[..2] && s[pos + 2..pos + 4] == b[2..];
    LeValue4(b);
    LeValue2(b[..2]);
    LeValue2(b[2..]);
    SplitWord(LeValue(b[..2]), LeValue(b[2..]));
  }

  lemma SplitWord(lo: nat, hi: nat)
    requires lo < 0x1_0000
    ensures (lo + 0x1_0000 * hi) % 0x1_0000 == lo && (lo + 0x1_0000 * hi) / 0x1_0000 == hi
  {
  }

  /** A marker word is consumed on its own; a property word is split into type and id. */
  lemma RecordKinds(c: Charsets, s: seq<byte>, pos: nat, w: u32)
    requires ReadU32Le(s, pos) == Some((w, pos + 4))
    ensures MarkerOf(w).Some? ==>
              MessageFrom(c, s, pos) == PrependItems([MarkerItem(MarkerOf(w).value)], MessageFrom(c, s, pos + 4))
    ensures w % 0x1_0000 == LeValue(s[pos..pos + 2]) && w / 0x1_0000 == LeValue(s[pos + 2..pos + 4])
    ensures MarkerOf(w).None? && RecordAfter(c, s, pos + 4, w).Ok? ==>
              var item := RecordAfter(c, s, pos + 4, w).value.0;
              && item.PropertyItem?
              && item.propType == Msox.FromCode(w % 0x1_0000)
              && (w / 0x1_0000 < 0x8000 <==> item.id.Tagged?)
  {
    WordHalves(s, pos);
    var p := pos + 4;
    match MessageFrom(c, s, p) {
      case Err(_) =>
      case Ok(ys) =>
    }
  }

  /** Running out of input inside a record's first word fails the message. */
  lemma TruncatedWordFails(c: Charsets, s: seq<byte>, pos: nat)
    requires pos < |s| < pos + 4
    ensures MessageFrom(c, s, pos) == Err(Io)
  {
  }

  /** A run of markers, as a writer lays it out. */
  function EncodeMarkers(ms: seq<Marker>): (b: seq<byte>)
    ensures |b| == 4 * |ms|
  {
    if ms == [] then [] else LeBytes(MarkerCode(ms[0]), 4) + EncodeMarkers(ms[1..])
  }

  /** Every run of markers is read back as exactly those markers. */
  lemma {:induction false} MarkersOfEncoded(c: Charsets, ms: seq<Marker>)
    ensures MessageFrom(c, EncodeMarkers(ms), 0) == Ok(seq(|ms|, i requires 0 <= i < |ms| => MarkerItem(ms[i])))
  {
    MarkersAt(c, EncodeMarkers(ms), 0, ms);
  }

  lemma {:induction false} MarkersAt(c: Charsets, s: seq<byte>, pos: nat, ms: seq<Marker>)
    requires pos + 4 * |ms| == |s| && s[pos..] == EncodeMarkers(ms)
    ensures MessageFrom(c, s, pos) == Ok(seq(|ms|, i requires 0 <= i < |ms| => MarkerItem(ms[i])))
    decreases |ms|
  {
    if ms != [] {
      var head := LeBytes(MarkerCode(ms[0]), 4);
      SuffixHalves(s, pos, head, EncodeMarkers(ms[1..]));
      Pow256Widths();
      ReadsOfLeBytes(s, pos, MarkerCode(ms[0]), 4);
      MarkerRoundTrip(ms[0], 0);
      MarkersAt(c, s, pos + 4, ms[1..]);
      assert ReadU32LeOrEof(s, pos) == Got(MarkerCode(ms[0]), pos + 4);
      assert RecordAfter(c, s, pos + 4, MarkerCode(ms[0])) == Ok((MarkerItem(ms[0]), pos + 4));
      var tail := ms[1..];
      var items := seq(|ms|, i requires 0 <= i < |ms| => MarkerItem(ms[i]));
      var rest := seq(|tail|, i requires 0 <= i < |tail| => MarkerItem(tail[i]));
      assert MessageFrom(c, s, pos + 4) == Ok(rest);
      assert MessageFrom(c, s, pos) == Ok([MarkerItem(ms[0])] + rest);
      assert items == [MarkerItem(ms[0])] + rest;
    } else {
      assert seq(|ms|, i requires 0 <= i < |ms| => MarkerItem(ms[i])) == [];
    }
  }

  // ---------------------------------------------------------------------
  // The chunk loop of `main` (main.rs:450-467)

  datatype Chunk = MessageChunk(items: seq<Item>) | OtherChunk(chunkType: u32, data: seq<byte>)

  const MessageChunkType: u32 := 0x0000_0002

  /** How the loop parses the data of a message chunk. */
  type MessageParser = seq<byte> -> Result<seq<Item>, FtError>

  /** `parse_message` over the whole chunk. */
  function ParseWith(c: Charsets): MessageParser
  {
    data => MessageFrom(c, data, 0)
  }

  /** Only chunks of type 2 are parsed; any other chunk is kept as its bytes. */
  function ChunkOf(parse: MessageParser, chunkType: u32, data: seq<byte>): (r: Result<Chunk, FtError>)
    ensures chunkType != MessageChunkType ==> r == Ok(OtherChunk(chunkType, data))
    ensures chunkType == MessageChunkType ==>
              (r.Ok? <==> parse(data).Ok?)
              && (r.Ok? ==> r.value == MessageChunk(parse(data).value))
  {
    if chunkType == MessageChunkType then
      match parse(data)
      case Err(e) => Err(e)
      case Ok(items) => Ok(MessageChunk(items))
    else Ok(OtherChunk(chunkType, data))
  }

  /** One turn of the loop: no chunk at the end of the input, otherwise the chunk
      and where the next one starts, or why it could not be read. */
  function NextChunk(parse: MessageParser, s: seq<byte>, pos: nat): (r: Result<Option<(Chunk, nat)>, FtError>)
    ensures r.Ok? && r.value.Some? ==> pos + 8 <= r.value.value.1 <= |s|
  {
    match ReadU32LeOrEof(s, pos)
    case AtEnd => Ok(None)
    case Short => Err(Io)
    case Got(t, p) =>
      match ReadU32Le(s, p)
      case None => Err(Io)
      case Some((n, p2)) =>
        match ReadBytes(s, p2, n)
        case None => Err(Io)
        case Some((data, q)) =>
          match ChunkOf(parse, t, data)
          case Err(e) => Err(e)
          case Ok(chunk) => Ok(Some((chunk, q)))
  }

  function ChunksFrom(parse: MessageParser, s: seq<byte>, pos: nat): (r: Result<seq<Chunk>, FtError>)
    decreases |s| - pos
  {
    match NextChunk(parse, s, pos)
    case Err(e) => Err(e)
    case Ok(None) => Ok([])
    case Ok(Some((chunk, q))) => PrependChunks([chunk], ChunksFrom(parse, s, q))
  }

  function PrependChunks(xs: seq<Chunk>, r: Result<seq<Chunk>, FtError>): Result<seq<Chunk>, FtError>
  {
    match r
    case Err(e) => Err(e)
    case Ok(ys) => Ok(xs + ys)
  }

  /** A chunk as a writer lays it out. */
  function EncodeChunk(chunkType: u32, data: seq<byte>): (b: seq<byte>)
    requires |data| < 0x1_0000_0000
    ensures |b| == 8 + |data|
  {
    LeBytes(chunkType, 4) + LeBytes(|data|, 4) + data
  }

  /** One chunk, given what the reads of its fields return. */
  lemma ChunkRead(parse: MessageParser, s: seq<byte>, pos: nat, chunkType: u32, data: seq<byte>, chunk: Chunk)
    requires ReadU32LeOrEof(s, pos) == Got(chunkType, pos + 4)
    requires ReadU32Le(s, pos + 4) == Some((|data|, pos + 8))
    requires ReadBytes(s, pos + 8, |data|) == Some((data, pos + 8 + |data|))
    requires ChunkOf(parse, chunkType, data) == Ok(chunk)
    ensures NextChunk(parse, s, pos) == Ok(Some((chunk, pos + 8 + |data|)))
  {
  }

  /** The loop is the first chunk followed by the loop from where the next one starts. */
  lemma ChunksUnfold(parse: MessageParser, s: seq<byte>, pos: nat, chunk: Chunk, q: nat)
    requires NextChunk(parse, s, pos) == Ok(Some((chunk, q)))
    ensures ChunksFrom(parse, s, pos) == PrependChunks([chunk], ChunksFrom(parse, s, q))
  {
  }

  /** The chunk at pos, when the bytes there are its layout: a chunk of any type but
      2 is given back as it was written, one of type 2 as its parsed message. */
  lemma ChunkOfEncoded(parse: MessageParser, s: seq<byte>, pos: nat, chunkType: u32, data: seq<byte>)
    requires |data| < 0x1_0000_0000 && pos + 8 + |data| <= |s|
    requires s[pos..pos + 8 + |data|] == EncodeChunk(chunkType, data)
    requires ChunkOf(parse, chunkType, data).Ok?
    ensures ChunksFrom(parse, s, pos) == PrependChunks([ChunkOf(parse, chunkType, data).value], ChunksFrom(parse, s, pos + 8 + |data|))
  {
    SlicesAt3(s, pos, LeBytes(chunkType, 4), LeBytes(|data|, 4), data);
    Pow256Widths();
    ReadsOfLeBytes(s, pos, chunkType, 4);
    ReadsOfLeBytes(s, pos + 4, |data|, 4);
    ChunkRead(parse, s, pos, chunkType, data, ChunkOf(parse, chunkType, data).value);
    ChunksUnfold(parse, s, pos, ChunkOf(parse, chunkType, data).value, pos + 8 + |data|);
  }

  // ---------------------------------------------------------------------
  // The loops themselves

  /** One property id: for a name, the NUL-terminated word loop. */
  method DecodeId(s: seq<byte>, pos: nat, idNum: u16) returns (r: Result<(PropertyId, nat), FtError>)
    ensures r == IdAt(s, pos, idNum)
  {
    if idNum < 0x8000 || pos + 17 > |s| || s[pos + 16] != 1 {
      return IdAt(s, pos, idNum);
    }
    var g := Guids.FromLeBytes(s[pos..pos + 16]).value;
    var name := ReadNulTerminated(s, pos + 17);
    match name {
      case None => return Err(Io);
      case Some((ws, p3)) =>
        match Utf16.Decode(ws) {
          case None => return Err(InvalidName(ws));
          case Some(str) => return Ok((Named(g, Name(str)), p3));
        }
    }
  }

  /** `for _ in 0..value_count { values.push(...) }`. */
  method ReadMany<T>(c: Charsets, s: seq<byte>, pos: nat, elem: FtElem<T>) returns (r: Result<(seq<T>, nat), FtError>)
    requires Advancing(c, s, elem)
    ensures r == ManyAt(c, s, pos, elem)
  {
    match ReadU32Le(s, pos) {
      case None => return Err(Io);
      case Some((n, p)) => r := ReadValues(c, s, p, n, elem);
    }
  }

  /** The value of one property: the multi-valued types go through the count loop. */
  method DecodeValue(c: Charsets, t: Msox.PropType, s: seq<byte>, pos: nat) returns (r: Result<(Msox.PropValue<u32>, nat), FtError>)
    ensures r == ValueAt(c, t, s, pos)
  {
    match t {
      case MultipleString8 =>
        var xs := ReadMany(c, s, pos, String8El);
        match xs { case Err(e) => r := Err(e); case Ok((v, p)) => r := Ok((Msox.PropValue.MultipleString8(v), p)); }
      case MultipleString =>
        var xs := ReadMany(c, s, pos, WideEl);
        match xs { case Err(e) => r := Err(e); case Ok((v, p)) => r := Ok((Msox.PropValue.MultipleString(v), p)); }
      case MultipleBinary =>
        var xs := ReadMany(c, s, pos, BytesEl);
        match xs { case Err(e) => r := Err(e); case Ok((v, p)) => r := Ok((Msox.PropValue.MultipleBinary(v), p)); }
      case MultipleInteger16 =>
        var xs := ReadMany(c, s, pos, I16El);
        match xs { case Err(e) => r := Err(e); case Ok((v, p)) => r := Ok((Msox.PropValue.MultipleInteger16(v), p)); }
      case MultipleInteger32 =>
        var xs := ReadMany(c, s, pos, I32El);
        match xs { case Err(e) => r := Err(e); case Ok((v, p)) => r := Ok((Msox.PropValue.MultipleInteger32(v), p)); }
      case MultipleFloating32 =>
        var xs := ReadMany(c, s, pos, U32El);
        match xs { case Err(e) => r := Err(e); case Ok((v, p)) => r := Ok((Msox.PropValue.MultipleFloating32(v), p)); }
      case MultipleFloating64 =>
        var xs := ReadMany(c, s, pos, F64El);
        match xs { case Err(e) => r := Err(e); case Ok((v, p)) => r := Ok((Msox.PropValue.MultipleFloating64(v), p)); }
      case MultipleCurrency =>
        var xs := ReadMany(c, s, pos, I64El);
        match xs { case Err(e) => r := Err(e); case Ok((v, p)) => r := Ok((Msox.PropValue.MultipleCurrency(v), p)); }
      case MultipleFloatingTime =>
        var xs := ReadMany(c, s, pos, F64El);
        match xs { case Err(e) => r := Err(e); case Ok((v, p)) => r := Ok((Msox.PropValue.MultipleFloatingTime(v), p)); }
      case MultipleInteger64 =>
        var xs := ReadMany(c, s, pos, I64El);
        match xs { case Err(e) => r := Err(e); case Ok((v, p)) => r := Ok((Msox.PropValue.MultipleInteger64(v), p)); }
      case MultipleTime =>
        var xs := ReadMany(c, s, pos, I64El);
        match xs { case Err(e) => r := Err(e); case Ok((v, p)) => r := Ok((Msox.PropValue.MultipleTime(v), p)); }
      case MultipleGuid =>
        var xs := ReadMany(c, s, pos, GuidEl);
        match xs { case Err(e) => r := Err(e); case Ok((v, p)) => r := Ok((Msox.PropValue.MultipleGuid(v), p)); }
      case _ =>
        r := ValueAt(c, t, s, pos);
    }
  }

  method DecodeRecord(c: Charsets, s: seq<byte>, pos: nat, w: u32) returns (r: Result<(Item, nat), FtError>)
    ensures r == RecordAfter(c, s, pos, w)
  {
    match MarkerOf(w) {
      case Some(m) =>
        return Ok((MarkerItem(m), pos));
      case None =>
    }
    var t := Msox.FromCode(w % 0x1_0000);
    var id := DecodeId(s, pos, w / 0x1_0000);
    match id {
      case Err(e) =>
        return Err(e);
      case Ok((pid, p)) =>
        var value := DecodeValue(c, t, s, p);
        match value {
          case Err(e) => return Err(e);
          case Ok((v, q)) => return Ok((PropertyItem(t, pid, v), q));
        }
    }
  }

  /** One record of the message, given what its reads return. */
  lemma MessageUnfold(c: Charsets, s: seq<byte>, pos: nat, w: u32, p: nat, item: Item, q: nat)
    requires ReadU32LeOrEof(s, pos) == Got(w, p) && RecordAfter(c, s, p, w) == Ok((item, q))
    ensures MessageFrom(c, s, pos) == PrependItems([item], MessageFrom(c, s, q))
  {
  }

  lemma MessageStep(c: Charsets, s: seq<byte>, pos: nat, w: u32, p: nat, item: Item, q: nat, items: seq<Item>)
    requires ReadU32LeOrEof(s, pos) == Got(w, p) && RecordAfter(c, s, p, w) == Ok((item, q))
    requires MessageFrom(c, s, 0) == PrependItems(items, MessageFrom(c, s, pos))
    ensures MessageFrom(c, s, 0) == PrependItems(items + [item], MessageFrom(c, s, q))
  {
    MessageUnfold(c, s, pos, w, p, item, q);
    PrependTwice(items, [item], MessageFrom(c, s, q));
  }

  lemma PrependTwice(xs: seq<Item>, ys: seq<Item>, r: Result<seq<Item>, FtError>)
    ensures PrependItems(xs, PrependItems(ys, r)) == PrependItems(xs + ys, r)
  {
    if r.Ok? {
      assert xs + (ys + r.value) == (xs + ys) + r.value;
    }
  }

  lemma MessageStop(c: Charsets, s: seq<byte>, pos: nat, items: seq<Item>)
    requires MessageFrom(c, s, 0) == PrependItems(items, MessageFrom(c, s, pos))
    ensures ReadU32LeOrEof(s, pos).AtEnd? ==> MessageFrom(c, s, 0) == Ok(items)
    ensures ReadU32LeOrEof(s, pos).Short? ==> MessageFrom(c, s, 0) == Err(Io)
    ensures ReadU32LeOrEof(s, pos).Got? && RecordAfter(c, s, ReadU32LeOrEof(s, pos).next, ReadU32LeOrEof(s, pos).value).Err? ==>
              MessageFrom(c, s, 0) == Err(RecordAfter(c, s, ReadU32LeOrEof(s, pos).next, ReadU32LeOrEof(s, pos).value).error)
  {
    assert items + [] == items;
  }

  /** `parse_message`. */
  method ParseMessage(c: Charsets, s: seq<byte>) returns (r: Result<seq<Item>, FtError>)
    ensures r == MessageFrom(c, s, 0)
  {
    var items: seq<Item> := [];
    var pos: nat := 0;
    match MessageFrom(c, s, 0) {
      case Err(_) =>
      case Ok(ys) => assert [] + ys == ys;
    }
    while true
      invariant MessageFrom(c, s, 0) == PrependItems(items, MessageFrom(c, s, pos))
      decreases |s| - pos
    {
      MessageStop(c, s, pos, items);
      match ReadU32LeOrEof(s, pos) {
        case AtEnd =>
          return Ok(items);
        case Short =>
          return Err(Io);
        case Got(w, p) =>
          var record := DecodeRecord(c, s, p, w);
          match record {
            case Err(e) =>
              return Err(e);
            case Ok((item, q)) =>
              MessageStep(c, s, pos, w, p, item, q, items);
              items := items + [item];
              pos := q;
          }
      }
    }
  }

  method DecodeChunk(c: Charsets, chunkType: u32, data: seq<byte>) returns (r: Result<Chunk, FtError>)
    ensures r == ChunkOf(ParseWith(c), chunkType, data)
  {
    if chunkType == MessageChunkType {
      var items := ParseMessage(c, data);
      match items {
        case Err(e) => return Err(e);
        case Ok(xs) => return Ok(MessageChunk(xs));
      }
    }
    return Ok(OtherChunk(chunkType, data));
  }

  /** One turn of the chunk loop. */
  method ReadChunk(c: Charsets, s: seq<byte>, pos: nat) returns (r: Result<Option<(Chunk, nat)>, FtError>)
    ensures r == NextChunk(ParseWith(c), s, pos)
  {
    if pos >= |s| {
      return Ok(None);
    }
    if pos + 8 > |s| {
      return Err(Io);
    }
    var t: u32 := ReadU32Le(s, pos).value.0;
    var n: u32 := ReadU32Le(s, pos + 4).value.0;
    if pos + 8 + n > |s| {
      return Err(Io);
    }
    var data := s[pos + 8..pos + 8 + n];
    assert ReadU32LeOrEof(s, pos) == Got(t, pos + 4);
    assert ReadU32Le(s, pos + 4) == Some((|data|, pos + 8));
    assert ReadBytes(s, pos + 8, |data|) == Some((data, pos + 8 + |data|));
    var chunk := DecodeChunk(c, t, data);
    match chunk {
      case Err(e) => return Err(e);
      case Ok(ch) => return Ok(Some((ch, pos + 8 + n)));
    }
  }

  /** Where the loop stops, the whole result is known. */
  lemma ChunksStop(parse: MessageParser, s: seq<byte>, pos: nat, chunks: seq<Chunk>)
    requires ChunksFrom(parse, s, 0) == PrependChunks(chunks, ChunksFrom(parse, s, pos))
    ensures NextChunk(parse, s, pos) == Ok(None) ==> ChunksFrom(parse, s, 0) == Ok(chunks)
    ensures NextChunk(parse, s, pos).Err? ==> ChunksFrom(parse, s, 0) == Err(NextChunk(parse, s, pos).error)
  {
    assert chunks + [] == chunks;
  }

  /** A chunk that decodes extends the loop's list by one. */
  lemma ChunksAdvance(parse: MessageParser, s: seq<byte>, pos: nat, chunk: Chunk, q: nat, chunks: seq<Chunk>)
    requires ChunksFrom(parse, s, 0) == PrependChunks(chunks, ChunksFrom(parse, s, pos))
    requires NextChunk(parse, s, pos) == Ok(Some((chunk, q)))
    ensures ChunksFrom(parse, s, 0) == PrependChunks(chunks + [chunk], ChunksFrom(parse, s, q))
  {
    ChunksUnfold(parse, s, pos, chunk, q);
    match ChunksFrom(parse, s, q) {
      case Err(_) =>
      case Ok(ys) => assert chunks + ([chunk] + ys) == (chunks + [chunk]) + ys;
    }
  }

  /** The chunk loop of `main`. */
  method DumpChunks(c: Charsets, s: seq<byte>) returns (r: Result<seq<Chunk>, FtError>)
    ensures r == ChunksFrom(ParseWith(c), s, 0)
  {
    ghost var parse := ParseWith(c);
    var chunks: seq<Chunk> := [];
    var pos: nat := 0;
    match ChunksFrom(parse, s, 0) {
      case Err(_) =>
      case Ok(ys) => assert [] + ys == ys;
    }
    while true
      invariant ChunksFrom(parse, s, 0) == PrependChunks(chunks, ChunksFrom(parse, s, pos))
      decreases |s| - pos
    {
      var next := ReadChunk(c, s, pos);
      ChunksStop(parse, s, pos, chunks);
      match next {
        case Err(e) => return Err(e);
        case Ok(None) => return Ok(chunks);
        case Ok(Some((ch, q))) =>
          ChunksAdvance(parse, s, pos, ch, q, chunks);
          chunks := chunks + [ch];
          pos := q;
      }
    }
  }
}
