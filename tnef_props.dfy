/**
 * The MAPI property decoder of tnef2mime/src/tnef/mod.rs (`decode_property`,
 * `decode_properties`, `decode_property_lists`): the property-list encoding of
 * section 2.1.3.4 of [MS-OXTNEF].  A property is a type, a tag, a named-property
 * id when the tag is 0x8000 or above, and a value laid out by its type, every
 * fixed-size value padded to a multiple of 4 bytes.
 */
module TnefProps {
  import opened Wrappers
  import opened BinRead
  import opened Tnef
  import opened Slices
  import Msox
  import Guids
  import Utf16

  /** The charset decoder of String8 values (`decode_with_bom_removal` of the
      encoding in force); it never fails, bad sequences are replaced. */
  type Decode8 = seq<byte> -> string

  datatype PropId = Number(number: u32) | String(name: string)

  /** The tag is kept as its raw code: its enumeration is a generated table. */
  datatype Property = Property(tag: u16, id: Option<(Guids.Guid, PropId)>, value: Msox.PropValue<u64>)

  /** An element reader: the charset decoder, the input and the position. */
  type Elem<T> = (Decode8, seq<byte>, nat) -> Result<(T, nat), TnefError>

  // ---------------------------------------------------------------------
  // Elements (mod.rs:301-377, 378-565)

  /** A read followed by `pad_to_4(bytesRead)`; running out of input is `Io`. */
  function ThenPad<T>(s: seq<byte>, r: Option<(T, nat)>, bytesRead: nat): (out: Result<(T, nat), TnefError>)
    ensures out.Err? ==> out.error == Io
    ensures out.Ok? <==> r.Some? && PadTo4(s, r.value.1, bytesRead).Some?
    ensures out.Ok? ==> out.value.0 == r.value.0 && out.value.1 == r.value.1 + PadLen(bytesRead)
  {
    match r
    case None => Err(Io)
    case Some((v, p)) =>
      match PadTo4(s, p, bytesRead)
      case None => Err(Io)
      case Some(q) => Ok((v, q))
  }

  /** With the padding bytes present, a value read is followed by exactly PadLen of them. */
  lemma PaddedTo<T>(s: seq<byte>, v: T, p: nat, bytesRead: nat)
    requires p + PadLen(bytesRead) <= |s|
    ensures ThenPad(s, Some((v, p)), bytesRead) == Ok((v, p + PadLen(bytesRead)))
  {
    PadToLen(s, p, bytesRead);
  }

  function I16Padded(d: Decode8, s: seq<byte>, pos: nat): Result<(i16, nat), TnefError>
  {
    ThenPad(s, ReadI16Le(s, pos), 2)
  }

  function I32Padded(d: Decode8, s: seq<byte>, pos: nat): Result<(i32, nat), TnefError>
  {
    ThenPad(s, ReadI32Le(s, pos), 4)
  }

  /** A 32-bit float, kept as its bit pattern. */
  function F32Padded(d: Decode8, s: seq<byte>, pos: nat): Result<(u32, nat), TnefError>
  {
    ThenPad(s, ReadU32Le(s, pos), 4)
  }

  /** A 64-bit float, kept as its bit pattern. */
  function F64Padded(d: Decode8, s: seq<byte>, pos: nat): Result<(u64, nat), TnefError>
  {
    ThenPad(s, ReadU64Le(s, pos), 8)
  }

  /** An i64 followed by `pad_to_4(8)`, as the single-valued 64-bit types read it. */
  function I64Pad8(d: Decode8, s: seq<byte>, pos: nat): Result<(i64, nat), TnefError>
  {
    ThenPad(s, ReadI64Le(s, pos), 8)
  }

  /** An i64 followed by `pad_to_4(4)`, as MultipleInteger64 and MultipleTime read it. */
  function I64Pad4(d: Decode8, s: seq<byte>, pos: nat): Result<(i64, nat), TnefError>
  {
    ThenPad(s, ReadI64Le(s, pos), 4)
  }

  /** 16 bytes in the little-endian field order, with no padding. */
  function GuidAt(d: Decode8, s: seq<byte>, pos: nat): Result<(Guids.Guid, nat), TnefError>
  {
    match ReadBytes(s, pos, 16)
    case None => Err(Io)
    case Some((b, p)) => Ok((Guids.FromLeBytes(b).value, p))
  }

  /** A u32 byte count, that many bytes, then padding to 4 (Object, String8, Binary). */
  function Counted(d: Decode8, s: seq<byte>, pos: nat): Result<(seq<byte>, nat), TnefError>
  {
    match ReadU32Le(s, pos)
    case None => Err(Io)
    case Some((n, p)) => ThenPad(s, ReadBytes(s, p, n), n)
  }

  /** A counted byte string decoded by the charset in force. */
  function String8At(d: Decode8, s: seq<byte>, pos: nat): Result<(string, nat), TnefError>
  {
    match Counted(d, s, pos)
    case Err(e) => Err(e)
    case Ok((b, p)) => Ok((d(b), p))
  }

  /** A u32 byte count that must be even, that many bytes of UTF-16, then padding. */
  function WideAt(d: Decode8, s: seq<byte>, pos: nat): Result<(string, nat), TnefError>
  {
    match ReadU32Le(s, pos)
    case None => Err(Io)
    case Some((n, p)) =>
      if n % 2 != 0 then Err(OddStringLength(n))
      else match WordsAt(s, p, n / 2)
        case None => Err(Io)
        case Some((ws, q)) =>
          match Utf16.Decode(ws)
          case None => Err(InvalidString(ws))
          case Some(str) => ThenPad(s, Some((str, q)), n / 2 * 2)
  }

  /** A u32 value count, then that many elements. */
  function Many<T>(d: Decode8, s: seq<byte>, pos: nat, elem: Elem<T>): (r: Result<(seq<T>, nat), TnefError>)
  {
    match ReadU32Le(s, pos)
    case None => Err(Io)
    case Some((n, p)) => ReadSeq(d, s, p, n, elem)
  }

  /** A u32 value count that a single-valued type t requires to be 1, then the one element. */
  function One<T>(d: Decode8, s: seq<byte>, pos: nat, t: Msox.PropType, elem: Elem<T>): (r: Result<(T, nat), TnefError>)
  {
    match ReadU32Le(s, pos)
    case None => Err(Io)
    case Some((n, p)) =>
      if n != 1 then Err(MultipleValuesSingleType(t, n))
      else match ReadSeq(d, s, p, 1, elem)
        case Err(e) => Err(e)
        case Ok((xs, q)) => Ok((xs[0], q))
  }

  // ---------------------------------------------------------------------
  // Values (mod.rs:298-573)

  /** The value of type t at pos and the position after it. */
  function ValueAt(d: Decode8, t: Msox.PropType, s: seq<byte>, pos: nat): (r: Result<(Msox.PropValue<u64>, nat), TnefError>)
  {
    match t
    case Unspecified => Ok((Msox.PropValue.Unspecified, pos))
    case Null => Ok((Msox.PropValue.Null, pos))
    case Integer16 =>
      (match I16Padded(d, s, pos) case Err(e) => Err(e) case Ok((x, p)) => Ok((Msox.PropValue.Integer16(x), p)))
    case Integer32 =>
      (match I32Padded(d, s, pos) case Err(e) => Err(e) case Ok((x, p)) => Ok((Msox.PropValue.Integer32(x), p)))
    case Floating32 =>
      (match F32Padded(d, s, pos) case Err(e) => Err(e) case Ok((x, p)) => Ok((Msox.PropValue.Floating32(x), p)))
    case Floating64 =>
      (match F64Padded(d, s, pos) case Err(e) => Err(e) case Ok((x, p)) => Ok((Msox.PropValue.Floating64(x), p)))
    case Currency =>
      (match I64Pad8(d, s, pos) case Err(e) => Err(e) case Ok((x, p)) => Ok((Msox.PropValue.Currency(x), p)))
    case FloatingTime =>
      (match F64Padded(d, s, pos) case Err(e) => Err(e) case Ok((x, p)) => Ok((Msox.PropValue.FloatingTime(x), p)))
    case ErrorCode =>
      (match ThenPad(s, ReadU64Le(s, pos), 8) case Err(e) => Err(e) case Ok((x, p)) => Ok((Msox.PropValue.ErrorCode(x), p)))
    case Boolean =>
      (match ReadU8(s, pos)
       case None => Err(Io)
       case Some((b, p)) =>
         if b > 1 then Err(InvalidBoolean(b))
         else match PadTo4(s, p, 1)
           case None => Err(Io)
           case Some(q) => Ok((Msox.PropValue.Boolean(b == 1), q)))
    case Object =>
      (match One(d, s, pos, t, Counted) case Err(e) => Err(e) case Ok((x, p)) => Ok((Msox.PropValue.Object(x), p)))
    case Integer64 =>
      (match I64Pad8(d, s, pos) case Err(e) => Err(e) case Ok((x, p)) => Ok((Msox.PropValue.Integer64(x), p)))
    case Time =>
      (match I64Pad8(d, s, pos) case Err(e) => Err(e) case Ok((x, p)) => Ok((Msox.PropValue.Time(x), p)))
    case Guid =>
      (match GuidAt(d, s, pos) case Err(e) => Err(e) case Ok((x, p)) => Ok((Msox.PropValue.Guid(x), p)))
    case MultipleInteger16 =>
      (match Many(d, s, pos, I16Padded) case Err(e) => Err(e) case Ok((xs, p)) => Ok((Msox.PropValue.MultipleInteger16(xs), p)))
    case MultipleInteger32 =>
      (match Many(d, s, pos, I32Padded) case Err(e) => Err(e) case Ok((xs, p)) => Ok((Msox.PropValue.MultipleInteger32(xs), p)))
    case MultipleFloating32 =>
      (match Many(d, s, pos, F32Padded) case Err(e) => Err(e) case Ok((xs, p)) => Ok((Msox.PropValue.MultipleFloating32(xs), p)))
    case MultipleFloating64 =>
      (match Many(d, s, pos, F64Padded) case Err(e) => Err(e) case Ok((xs, p)) => Ok((Msox.PropValue.MultipleFloating64(xs), p)))
    case MultipleCurrency =>
      (match Many(d, s, pos, I64Pad8) case Err(e) => Err(e) case Ok((xs, p)) => Ok((Msox.PropValue.MultipleCurrency(xs), p)))
    case MultipleFloatingTime =>
      (match Many(d, s, pos, F64Padded) case Err(e) => Err(e) case Ok((xs, p)) => Ok((Msox.PropValue.MultipleFloatingTime(xs), p)))
    case MultipleInteger64 =>
      (match Many(d, s, pos, I64Pad4) case Err(e) => Err(e) case Ok((xs, p)) => Ok((Msox.PropValue.MultipleInteger64(xs), p)))
    case String8 =>
      (match One(d, s, pos, t, String8At) case Err(e) => Err(e) case Ok((x, p)) => Ok((Msox.PropValue.String8(x), p)))
    case MultipleString8 =>
      (match Many(d, s, pos, String8At) case Err(e) => Err(e) case Ok((xs, p)) => Ok((Msox.PropValue.MultipleString8(xs), p)))
    case String =>
      (match One(d, s, pos, t, WideAt) case Err(e) => Err(e) case Ok((x, p)) => Ok((Msox.PropValue.String(x), p)))
    case MultipleString =>
      (match Many(d, s, pos, WideAt) case Err(e) => Err(e) case Ok((xs, p)) => Ok((Msox.PropValue.MultipleString(xs), p)))
    case MultipleTime =>
      (match Many(d, s, pos, I64Pad4) case Err(e) => Err(e) case Ok((xs, p)) => Ok((Msox.PropValue.MultipleTime(xs), p)))
    case MultipleGuid =>
      (match Many(d, s, pos, GuidAt) case Err(e) => Err(e) case Ok((xs, p)) => Ok((Msox.PropValue.MultipleGuid(xs), p)))
    case Binary =>
      (match One(d, s, pos, t, Counted) case Err(e) => Err(e) case Ok((x, p)) => Ok((Msox.PropValue.Binary(x), p)))
    case MultipleBinary =>
      (match Many(d, s, pos, Counted) case Err(e) => Err(e) case Ok((xs, p)) => Ok((Msox.PropValue.MultipleBinary(xs), p)))
    case Other(code) =>
      (match ReadBytes(s, pos, 128) case None => Err(Io) case Some(_) => Err(UnknownType(code)))
  }

  // ---------------------------------------------------------------------
  // Named-property ids (mod.rs:246-296)

  /** The GUID and the numeric or UTF-16 name of a named property. */
  function NamedIdAt(s: seq<byte>, pos: nat): (r: Result<((Guids.Guid, PropId), nat), TnefError>)
  {
    match ReadBytes(s, pos, 16)
    case None => Err(Io)
    case Some((g, p)) =>
      var guid := Guids.FromLeBytes(g).value;
      match ReadU32Le(s, p)
      case None => Err(Io)
      case Some((idType, p1)) =>
        if idType == 0 then
          match ThenPad(s, ReadU32Le(s, p1), 4)
          case Err(e) => Err(e)
          case Ok((number, p2)) => Ok(((guid, PropId.Number(number)), p2))
        else if idType == 1 then
          match ReadU32Le(s, p1)
          case None => Err(Io)
          case Some((lengthBytes, p2)) =>
            match WordsAt(s, p2, lengthBytes / 2)
            case None => Err(Io)
            case Some((ws, p3)) =>
              match PadTo4(s, p3, lengthBytes)
              case None => Err(Io)
              case Some(p4) =>
                match Utf16.Decode(ws)
                case None => Err(InvalidStringId(ws))
                case Some(name) => Ok(((guid, PropId.String(name)), p4))
        else Err(InvalidIdType(idType))
  }

  /** `decode_property`: type, tag, the id of a named property, then the value. */
  function PropertyAt(d: Decode8, s: seq<byte>, pos: nat): (r: Result<(Property, nat), TnefError>)
  {
    match ReadU16Le(s, pos)
    case None => Err(Io)
    case Some((typeCode, p1)) =>
      match ReadU16Le(s, p1)
      case None => Err(Io)
      case Some((tag, p2)) =>
        var t := Msox.FromCode(typeCode);
        if tag >= 0x8000 then
          match NamedIdAt(s, p2)
          case Err(e) => Err(e)
          case Ok((id, p3)) =>
            match ValueAt(d, t, s, p3)
            case Err(e) => Err(e)
            case Ok((v, p4)) => Ok((Property(tag, Some(id), v), p4))
        else
          match ValueAt(d, t, s, p2)
          case Err(e) => Err(e)
          case Ok((v, p3)) => Ok((Property(tag, None, v), p3))
  }

  /** `decode_properties`: a u32 count of properties, then the properties. */
  function PropertiesAt(d: Decode8, s: seq<byte>, pos: nat): Result<(seq<Property>, nat), TnefError>
  {
    Many(d, s, pos, PropertyAt)
  }

  /** `decode_property_lists`: a u32 count of lists, then the lists. */
  function PropertyListsAt(d: Decode8, s: seq<byte>, pos: nat): Result<(seq<seq<Property>>, nat), TnefError>
  {
    Many(d, s, pos, PropertiesAt)
  }

  // ---------------------------------------------------------------------
  // The decoder loops

  /** The value-count loop of the multi-valued fixed types and of String8 and Binary. */
  method ReadMany<T>(d: Decode8, s: seq<byte>, pos: nat, elem: Elem<T>) returns (r: Result<(seq<T>, nat), TnefError>)
    ensures r == Many(d, s, pos, elem)
  {
    match ReadU32Le(s, pos) {
      case None => return Err(Io);
      case Some((n, p)) => r := ReadValues(d, s, p, n, elem);
    }
  }

  /** The value-count loop of a single-valued type, after the count check. */
  method ReadOne<T>(d: Decode8, s: seq<byte>, pos: nat, t: Msox.PropType, elem: Elem<T>) returns (r: Result<(T, nat), TnefError>)
    ensures r == One(d, s, pos, t, elem)
  {
    match ReadU32Le(s, pos) {
      case None => return Err(Io);
      case Some((n, p)) =>
        if n != 1 {
          return Err(MultipleValuesSingleType(t, n));
        }
        var values := ReadValues(d, s, p, n, elem);
        match values {
          case Err(e) => return Err(e);
          case Ok((xs, q)) => return Ok((xs[0], q));
        }
    }
  }

  /** One UTF-16 string value: the count, the word loop, the decode, the padding. */
  method ReadWideString(d: Decode8, s: seq<byte>, pos: nat) returns (r: Result<(string, nat), TnefError>)
    ensures r == WideAt(d, s, pos)
  {
    var byteCount: u32, p: nat;
    match ReadU32Le(s, pos) {
      case None => return Err(Io);
      case Some((v, q)) => byteCount, p := v, q;
    }
    if byteCount % 2 != 0 {
      return Err(OddStringLength(byteCount));
    }
    var charCount := byteCount / 2;
    var chars := ReadWords(s, p, charCount);
    match chars {
      case None => return Err(Io);
      case Some((ws, q)) =>
        match Utf16.Decode(ws) {
          case None => return Err(InvalidString(ws));
          case Some(str) =>
            match PadTo4(s, q, charCount * 2) {
              case None => return Err(Io);
              case Some(q') => return Ok((str, q'));
            }
        }
    }
  }

  /** The value of type t, with the loops of the multi-valued and counted types run as loops. */
  method DecodeValue(d: Decode8, t: Msox.PropType, s: seq<byte>, pos: nat) returns (r: Result<(Msox.PropValue<u64>, nat), TnefError>)
    ensures r == ValueAt(d, t, s, pos)
  {
    match t {
      case Object =>
        var x := ReadOne(d, s, pos, t, Counted);
        match x { case Err(e) => return Err(e); case Ok((b, p)) => return Ok((Msox.PropValue.Object(b), p)); }
      case String8 =>
        var x := ReadOne(d, s, pos, t, String8At);
        match x { case Err(e) => return Err(e); case Ok((v, p)) => return Ok((Msox.PropValue.String8(v), p)); }
      case Binary =>
        var x := ReadOne(d, s, pos, t, Counted);
        match x { case Err(e) => return Err(e); case Ok((b, p)) => return Ok((Msox.PropValue.Binary(b), p)); }
      case String =>
        match ReadU32Le(s, pos) {
          case None => return Err(Io);
          case Some((n, p)) =>
            if n != 1 {
              return Err(MultipleValuesSingleType(t, n));
            }
            var x := ReadWideString(d, s, p);
            match x {
              case Err(e) => return Err(e);
              case Ok((v, q)) =>
                assert ReadSeq(d, s, q, 0, WideAt) == Ok(([], q));
                return Ok((Msox.PropValue.String(v), q));
            }
        }
      case MultipleString =>
        var xs := ReadMany(d, s, pos, WideAt);
        match xs { case Err(e) => return Err(e); case Ok((vs, p)) => return Ok((Msox.PropValue.MultipleString(vs), p)); }
      case MultipleInteger16 =>
        var xs := ReadMany(d, s, pos, I16Padded);
        match xs { case Err(e) => return Err(e); case Ok((vs, p)) => return Ok((Msox.PropValue.MultipleInteger16(vs), p)); }
      case MultipleInteger32 =>
        var xs := ReadMany(d, s, pos, I32Padded);
        match xs { case Err(e) => return Err(e); case Ok((vs, p)) => return Ok((Msox.PropValue.MultipleInteger32(vs), p)); }
      case MultipleFloating32 =>
        var xs := ReadMany(d, s, pos, F32Padded);
        match xs { case Err(e) => return Err(e); case Ok((vs, p)) => return Ok((Msox.PropValue.MultipleFloating32(vs), p)); }
      case MultipleFloating64 =>
        var xs := ReadMany(d, s, pos, F64Padded);
        match xs { case Err(e) => return Err(e); case Ok((vs, p)) => return Ok((Msox.PropValue.MultipleFloating64(vs), p)); }
      case MultipleCurrency =>
        var xs := ReadMany(d, s, pos, I64Pad8);
        match xs { case Err(e) => return Err(e); case Ok((vs, p)) => return Ok((Msox.PropValue.MultipleCurrency(vs), p)); }
      case MultipleFloatingTime =>
        var xs := ReadMany(d, s, pos, F64Padded);
        match xs { case Err(e) => return Err(e); case Ok((vs, p)) => return Ok((Msox.PropValue.MultipleFloatingTime(vs), p)); }
      case MultipleInteger64 =>
        var xs := ReadMany(d, s, pos, I64Pad4);
        match xs { case Err(e) => return Err(e); case Ok((vs, p)) => return Ok((Msox.PropValue.MultipleInteger64(vs), p)); }
      case MultipleString8 =>
        var xs := ReadMany(d, s, pos, String8At);
        match xs { case Err(e) => return Err(e); case Ok((vs, p)) => return Ok((Msox.PropValue.MultipleString8(vs), p)); }
      case MultipleTime =>
        var xs := ReadMany(d, s, pos, I64Pad4);
        match xs { case Err(e) => return Err(e); case Ok((vs, p)) => return Ok((Msox.PropValue.MultipleTime(vs), p)); }
      case MultipleGuid =>
        var xs := ReadMany(d, s, pos, GuidAt);
        match xs { case Err(e) => return Err(e); case Ok((vs, p)) => return Ok((Msox.PropValue.MultipleGuid(vs), p)); }
      case MultipleBinary =>
        var xs := ReadMany(d, s, pos, Counted);
        match xs { case Err(e) => return Err(e); case Ok((vs, p)) => return Ok((Msox.PropValue.MultipleBinary(vs), p)); }
      case _ =>
        // the types read without a loop
        r := ValueAt(d, t, s, pos);
    }
  }

  /** The named-property id, its UTF-16 name read by the word loop. */
  method DecodeNamedId(s: seq<byte>, pos: nat) returns (r: Result<((Guids.Guid, PropId), nat), TnefError>)
    ensures r == NamedIdAt(s, pos)
  {
    if pos + 16 > |s| {
      return Err(Io);
    }
    var guid := Guids.FromLeBytes(s[pos..pos + 16]).value;
    var idType: u32, p1: nat;
    match ReadU32Le(s, pos + 16) {
      case None => return Err(Io);
      case Some((v, q)) => idType, p1 := v, q;
    }
    if idType == 0 {
      match ThenPad(s, ReadU32Le(s, p1), 4) {
        case Err(e) => return Err(e);
        case Ok((number, p2)) => return Ok(((guid, PropId.Number(number)), p2));
      }
    } else if idType == 1 {
      var lengthBytes: u32, p2: nat;
      match ReadU32Le(s, p1) {
        case None => return Err(Io);
        case Some((v, q)) => lengthBytes, p2 := v, q;
      }
      var chars := ReadWords(s, p2, lengthBytes / 2);
      match chars {
        case None => return Err(Io);
        case Some((ws, p3)) =>
          match PadTo4(s, p3, lengthBytes) {
            case None => return Err(Io);
            case Some(p4) =>
              match Utf16.Decode(ws) {
                case None => return Err(InvalidStringId(ws));
                case Some(name) => return Ok(((guid, PropId.String(name)), p4));
              }
          }
      }
    } else {
      return Err(InvalidIdType(idType));
    }
  }

  /** `decode_property`. */
  method DecodeProperty(d: Decode8, s: seq<byte>, pos: nat) returns (r: Result<(Property, nat), TnefError>)
    ensures r == PropertyAt(d, s, pos)
  {
    var typeCode: u16, tag: u16, p: nat;
    match ReadU16Le(s, pos) {
      case None => return Err(Io);
      case Some((v, _)) => typeCode := v;
    }
    match ReadU16Le(s, pos + 2) {
      case None => return Err(Io);
      case Some((v, q)) => tag, p := v, q;
    }
    var t := Msox.FromCode(typeCode);
    var id: Option<(Guids.Guid, PropId)> := None;
    if tag >= 0x8000 {
      var named := DecodeNamedId(s, p);
      match named {
        case Err(e) => return Err(e);
        case Ok((x, q)) => id, p := Some(x), q;
      }
    }
    var value := DecodeValue(d, t, s, p);
    match value {
      case Err(e) => return Err(e);
      case Ok((v, q)) => return Ok((Property(tag, id, v), q));
    }
  }

  /** `decode_properties`: the count, then the loop of `decode_property` calls. */
  method DecodeProperties(d: Decode8, s: seq<byte>, pos: nat) returns (r: Result<(seq<Property>, nat), TnefError>)
    ensures r == PropertiesAt(d, s, pos)
  {
    r := ReadMany(d, s, pos, PropertyAt);
  }

  /** `decode_property_lists`: the count, then the loop of `decode_properties` calls. */
  method DecodePropertyLists(d: Decode8, s: seq<byte>, pos: nat) returns (r: Result<(seq<seq<Property>>, nat), TnefError>)
    ensures r == PropertyListsAt(d, s, pos)
  {
    r := ReadMany(d, s, pos, PropertiesAt);
  }

  // ---------------------------------------------------------------------
  // What a successful decode guarantees

  /** A value of a type outside the table is an error once its 128 bytes are read. */
  lemma UnknownTypeFails(d: Decode8, code: u16, s: seq<byte>, pos: nat)
    requires !Msox.Listed(code)
    ensures ValueAt(d, Msox.FromCode(code), s, pos) == if pos + 128 <= |s| then Err(UnknownType(code)) else Err(Io)
  {
  }

  /** A Boolean is one byte, 0 or 1, padded to four; any other byte is refused. */
  lemma BooleanValue(d: Decode8, s: seq<byte>, pos: nat)
    requires pos < |s|
    ensures s[pos] > 1 ==> ValueAt(d, Msox.PropType.Boolean, s, pos) == Err(InvalidBoolean(s[pos]))
    ensures s[pos] <= 1 && pos + 4 <= |s| ==>
              ValueAt(d, Msox.PropType.Boolean, s, pos) == Ok((Msox.PropValue.Boolean(s[pos] == 1), pos + 4))
    ensures s[pos] <= 1 && pos + 4 > |s| ==> ValueAt(d, Msox.PropType.Boolean, s, pos) == Err(Io)
  {
  }

  predicate CountChecked(t: Msox.PropType)
  {
    t.Object? || t.String8? || t.String? || t.Binary?
  }

  /** Object, String8, String and Binary carry a value count that must be 1. */
  lemma SingleValuedCountChecked(d: Decode8, t: Msox.PropType, s: seq<byte>, pos: nat, n: u32)
    requires CountChecked(t) && ReadU32Le(s, pos) == Some((n, pos + 4)) && n != 1
    ensures ValueAt(d, t, s, pos) == Err(MultipleValuesSingleType(t, n))
  {
  }

  /** A UTF-16 value with an odd byte count is refused before its bytes are read. */
  lemma OddWideStringFails(d: Decode8, s: seq<byte>, pos: nat, n: u32)
    requires ReadU32Le(s, pos) == Some((n, pos + 4)) && n % 2 == 1
    ensures WideAt(d, s, pos) == Err(OddStringLength(n))
  {
  }

  /** A counted value occupies its 4-byte count, its n bytes and the padding of n. */
  lemma CountedConsumes(d: Decode8, s: seq<byte>, pos: nat)
    requires Counted(d, s, pos).Ok?
    ensures var (b, next) := Counted(d, s, pos).value;
            && LeValue(s[pos..pos + 4]) == |b| && b == s[pos + 4..pos + 4 + |b|]
            && next == pos + 4 + |b| + PadLen(|b|) <= |s|
  {
  }

  /** A UTF-16 value occupies its count n (even), n bytes of well-formed UTF-16 and
      the padding of n; its string re-encodes to exactly those bytes' words. */
  lemma WideConsumes(d: Decode8, s: seq<byte>, pos: nat)
    requires WideAt(d, s, pos).Ok?
    ensures var (str, next) := WideAt(d, s, pos).value;
            var n := LeValue(s[pos..pos + 4]);
            && n % 2 == 0 && next == pos + 4 + n + PadLen(n) <= |s|
            && Utf16.Encode(str) == Words(s[pos + 4..pos + 4 + n])
  {
    var n := LeValue(s[pos..pos + 4]);
    var ws := WordsAt(s, pos + 4, n / 2).value.0;
    Utf16.EncodeDecode(ws);
  }

  /** A multi-valued value has exactly the count of elements its count field gives,
      element i being the one read where the first i end. */
  lemma ManyCount<T>(d: Decode8, s: seq<byte>, pos: nat, elem: Elem<T>, i: nat)
    requires Many(d, s, pos, elem).Ok?
    ensures pos + 4 <= |s| && |Many(d, s, pos, elem).value.0| == LeValue(s[pos..pos + 4])
    ensures i < LeValue(s[pos..pos + 4]) ==>
              && ReadSeq(d, s, pos + 4, i, elem).Ok?
              && var p := ReadSeq(d, s, pos + 4, i, elem).value.1;
                 elem(d, s, p).Ok? && elem(d, s, p).value.0 == Many(d, s, pos, elem).value.0[i]
  {
    if i < LeValue(s[pos..pos + 4]) {
      ReadSeqAt(d, s, pos + 4, LeValue(s[pos..pos + 4]), elem, i);
    }
  }

  /** `decode_properties` and `decode_property_lists` return exactly their count of items. */
  lemma PropertyCounts(d: Decode8, s: seq<byte>, pos: nat)
    ensures PropertiesAt(d, s, pos).Ok? ==> |PropertiesAt(d, s, pos).value.0| == LeValue(s[pos..pos + 4])
    ensures PropertyListsAt(d, s, pos).Ok? ==> |PropertyListsAt(d, s, pos).value.0| == LeValue(s[pos..pos + 4])
  {
    if PropertiesAt(d, s, pos).Ok? {
      ManyCount(d, s, pos, PropertyAt, 0);
    }
    if PropertyListsAt(d, s, pos).Ok? {
      ManyCount(d, s, pos, PropertiesAt, 0);
    }
  }

  /** A tag below 0x8000 has no named id; from 0x8000 on the id follows the tag:
      a GUID in little-endian field order, then id type 0 or 1. */
  lemma PropertyIds(d: Decode8, s: seq<byte>, pos: nat)
    requires pos + 4 <= |s|
    ensures var tag := LeValue(s[pos + 2..pos + 4]);
            PropertyAt(d, s, pos).Ok? ==>
              (PropertyAt(d, s, pos).value.0.tag == tag
               && (PropertyAt(d, s, pos).value.0.id.None? <==> tag < 0x8000)
               && (tag >= 0x8000 ==>
                     pos + 24 <= |s|
                     && PropertyAt(d, s, pos).value.0.id.value.0 == Guids.FromLeBytes(s[pos + 4..pos + 20]).value
                     && LeValue(s[pos + 20..pos + 24]) <= 1
                     && (PropertyAt(d, s, pos).value.0.id.value.1.Number? <==> LeValue(s[pos + 20..pos + 24]) == 0)))
  {
  }

  /** Any id type but 0 and 1 is refused. */
  lemma InvalidIdTypeFails(s: seq<byte>, pos: nat, k: u32)
    requires ReadU32Le(s, pos + 16) == Some((k, pos + 20)) && k > 1
    ensures NamedIdAt(s, pos) == Err(InvalidIdType(k))
  {
  }

  // ---------------------------------------------------------------------
  // Writing counted and UTF-16 values: the partners of the readers

  function Zeros(k: nat): (z: seq<byte>)
    ensures |z| == k
  {
    seq(k, _ => 0)
  }

  /** A byte string as Object, String8 and Binary values lay it out. */
  function EncodeCounted(b: seq<byte>): (e: seq<byte>)
    requires |b| < 0x1_0000_0000
    ensures |e| == 4 + |b| + PadLen(|b|)
  {
    LeBytes(|b|, 4) + b + Zeros(PadLen(|b|))
  }

  /** Every byte string is read back from its counted layout. */
  lemma CountedOfEncoded(d: Decode8, s: seq<byte>, pos: nat, b: seq<byte>)
    requires |b| < 0x1_0000_0000 && pos + |EncodeCounted(b)| <= |s|
    requires s[pos..pos + |EncodeCounted(b)|] == EncodeCounted(b)
    ensures Counted(d, s, pos) == Ok((b, pos + |EncodeCounted(b)|))
    ensures String8At(d, s, pos) == Ok((d(b), pos + |EncodeCounted(b)|))
  {
    SlicesAt3(s, pos, LeBytes(|b|, 4), b, Zeros(PadLen(|b|)));
    Pow256Widths();
    ReadsOfLeBytes(s, pos, |b|, 4);
  }

  /** The little-endian bytes of each word in turn. */
  function WordBytes(ws: seq<u16>): (b: seq<byte>)
    ensures |b| == 2 * |ws|
  {
    seq(2 * |ws|, i requires 0 <= i < 2 * |ws| => if i % 2 == 0 then ws[i / 2] % 256 else ws[i / 2] / 256)
  }

  lemma WordBytesAt(ws: seq<u16>, k: nat)
    requires k < |ws|
    ensures WordBytes(ws)[2 * k] == ws[k] % 256 && WordBytes(ws)[2 * k + 1] == ws[k] / 256
  {
    assert (2 * k) / 2 == k && (2 * k + 1) / 2 == k;
  }

  /** The first word's two bytes, then the bytes of the others. */
  lemma WordBytesCons(ws: seq<u16>)
    requires |ws| > 0
    ensures WordBytes(ws) == LeBytes(ws[0], 2) + WordBytes(ws[1..])
  {
    var b, rest := WordBytes(ws), WordBytes(ws[1..]);
    assert LeBytes(ws[0], 2) == [ws[0] % 256, (ws[0] / 256) % 256];
    forall i | 2 <= i < |b| ensures b[i] == rest[i - 2] {
      assert (i - 2) / 2 == i / 2 - 1 && (i - 2) % 2 == i % 2;
    }
    assert b[0] == ws[0] % 256 && b[1] == ws[0] / 256;
  }

  /** Reading words back from their bytes gives the words. */
  lemma WordsOfWordBytes(ws: seq<u16>)
    ensures Words(WordBytes(ws)) == ws
  {
    var b := WordBytes(ws);
    forall k | 0 <= k < |ws|
      ensures Words(b)[k] == ws[k]
    {
      WordBytesAt(ws, k);
    }
  }

  lemma WordsOfEncoded(s: seq<byte>, p: nat, ws: seq<u16>)
    requires p + 2 * |ws| <= |s| && s[p..p + 2 * |ws|] == WordBytes(ws)
    ensures WordsAt(s, p, |ws|) == Some((ws, p + 2 * |ws|))
  {
    WordsOfWordBytes(ws);
  }

  /** The layout of a UTF-16 word sequence in String and MultipleString values:
      its byte count, the words' bytes, then padding. */
  function WideLayout(ws: seq<u16>): (e: seq<byte>)
    requires 2 * |ws| < 0x1_0000_0000
    ensures |e| == 4 + 2 * |ws| + PadLen(2 * |ws|)
  {
    LeBytes(2 * |ws|, 4) + WordBytes(ws) + Zeros(PadLen(2 * |ws|))
  }

  /** A string as String and MultipleString values lay it out: the layout of its UTF-16 form. */
  function EncodeWide(str: string): (e: seq<byte>)
    requires 2 * |Utf16.Encode(str)| < 0x1_0000_0000
    ensures |e| == 4 + 2 * |Utf16.Encode(str)| + PadLen(2 * |Utf16.Encode(str)|)
  {
    WideLayout(Utf16.Encode(str))
  }

  lemma WideOfWords(d: Decode8, s: seq<byte>, pos: nat, ws: seq<u16>, str: string)
    requires 2 * |ws| < 0x1_0000_0000 && pos + 4 + 2 * |ws| + PadLen(2 * |ws|) <= |s|
    requires ReadU32Le(s, pos) == Some((2 * |ws|, pos + 4))
    requires WordsAt(s, pos + 4, |ws|) == Some((ws, pos + 4 + 2 * |ws|))
    requires Utf16.Decode(ws) == Some(str)
    ensures WideAt(d, s, pos) == Ok((str, pos + 4 + 2 * |ws| + PadLen(2 * |ws|)))
  {
    EvenHalves(|ws|);
    var n, q := 2 * |ws|, pos + 4 + 2 * |ws|;
    assert n / 2 * 2 == n && pos + 4 + n / 2 * 2 == q;
    WideAtOfParts(d, s, pos, n, ws, str);
    PaddedTo(s, str, q, n);
  }

  /** What WideAt does once the count, the words and their decoding are known. */
  lemma WideAtOfParts(d: Decode8, s: seq<byte>, pos: nat, n: u32, ws: seq<u16>, str: string)
    requires n % 2 == 0 && ReadU32Le(s, pos) == Some((n, pos + 4))
    requires WordsAt(s, pos + 4, n / 2) == Some((ws, pos + 4 + n / 2 * 2))
    requires Utf16.Decode(ws) == Some(str)
    ensures WideAt(d, s, pos) == ThenPad(s, Some((str, pos + 4 + n / 2 * 2)), n / 2 * 2)
  {
  }

  /** Every well-formed word sequence is read back from its layout as the string it decodes to. */
  lemma WideOfLayout(d: Decode8, s: seq<byte>, pos: nat, ws: seq<u16>, str: string)
    requires 2 * |ws| < 0x1_0000_0000 && pos + |WideLayout(ws)| <= |s|
    requires s[pos..pos + |WideLayout(ws)|] == WideLayout(ws)
    requires Utf16.Decode(ws) == Some(str)
    ensures WideAt(d, s, pos) == Ok((str, pos + 4 + 2 * |ws| + PadLen(2 * |ws|)))
  {
    LayoutFields(s, pos, ws);
    WideOfWords(d, s, pos, ws, str);
  }

  /** Every string is read back from its UTF-16 layout. */
  lemma WideOfEncoded(d: Decode8, s: seq<byte>, pos: nat, str: string)
    requires 2 * |Utf16.Encode(str)| < 0x1_0000_0000 && pos + |EncodeWide(str)| <= |s|
    requires s[pos..pos + |EncodeWide(str)|] == EncodeWide(str)
    ensures WideAt(d, s, pos) == Ok((str, pos + |EncodeWide(str)|))
  {
    var ws := Utf16.Encode(str);
    assert EncodeWide(str) == WideLayout(ws);
    Utf16.DecodeEncode(str);
    WideOfLayout(d, s, pos, ws, str);
  }

  /** The count and the words of a layout read back as they were written. */
  lemma LayoutFields(s: seq<byte>, pos: nat, ws: seq<u16>)
    requires 2 * |ws| < 0x1_0000_0000 && pos + |WideLayout(ws)| <= |s|
    requires s[pos..pos + |WideLayout(ws)|] == WideLayout(ws)
    ensures ReadU32Le(s, pos) == Some((2 * |ws|, pos + 4))
    ensures WordsAt(s, pos + 4, |ws|) == Some((ws, pos + 4 + 2 * |ws|))
  {
    var count, words, pad := LeBytes(2 * |ws|, 4), WordBytes(ws), Zeros(PadLen(2 * |ws|));
    SlicesAt3(s, pos, count, words, pad);
    CountOfEncoded(s, pos, 2 * |ws|);
    WordsOfEncoded(s, pos + 4, ws);
  }

  lemma CountOfEncoded(s: seq<byte>, pos: nat, n: nat)
    requires n < 0x1_0000_0000 && pos + 4 <= |s| && s[pos..pos + 4] == LeBytes(n, 4)
    ensures ReadU32Le(s, pos) == Some((n, pos + 4))
  {
    Pow256Widths();
    ReadsOfLeBytes(s, pos, n, 4);
  }
}
