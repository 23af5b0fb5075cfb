/**
 * The Exchange property types of msox/src/lib.rs (repeated verbatim in
 * tnef2mime/src/tnef/mod.rs): the u16 type-code table and the shape of the
 * value each type carries.
 */
module Msox {
  import opened BinRead
  import Guids

  datatype PropType =
    | Unspecified | Null | Integer16 | Integer32 | Floating32 | Floating64
    | Currency | FloatingTime | ErrorCode | Boolean | Object | Integer64
    | String8 | String | Time | Guid | Binary
    | MultipleInteger16 | MultipleInteger32 | MultipleFloating32 | MultipleFloating64
    | MultipleCurrency | MultipleFloatingTime | MultipleInteger64 | MultipleString8
    | MultipleString | MultipleTime | MultipleGuid | MultipleBinary
    | Other(code: u16)

  /** The codes of the listed variants. */
  predicate Listed(c: u16)
  {
    c == 0x0000 || c == 0x0001 || c == 0x0002 || c == 0x0003 || c == 0x0004 || c == 0x0005
    || c == 0x0006 || c == 0x0007 || c == 0x000A || c == 0x000B || c == 0x000D || c == 0x0014
    || c == 0x001E || c == 0x001F || c == 0x0040 || c == 0x0048 || c == 0x0102 || c == 0x1002
    || c == 0x1003 || c == 0x1004 || c == 0x1005 || c == 0x1006 || c == 0x1007 || c == 0x1014
    || c == 0x101E || c == 0x101F || c == 0x1040 || c == 0x1048 || c == 0x1102
  }

  /** The u16 a type converts to. */
  function ToCode(t: PropType): u16
  {
    match t
    case Unspecified => 0x0000
    case Null => 0x0001
    case Integer16 => 0x0002
    case Integer32 => 0x0003
    case Floating32 => 0x0004
    case Floating64 => 0x0005
    case Currency => 0x0006
    case FloatingTime => 0x0007
    case ErrorCode => 0x000A
    case Boolean => 0x000B
    case Object => 0x000D
    case Integer64 => 0x0014
    case String8 => 0x001E
    case String => 0x001F
    case Time => 0x0040
    case Guid => 0x0048
    case Binary => 0x0102
    case MultipleInteger16 => 0x1002
    case MultipleInteger32 => 0x1003
    case MultipleFloating32 => 0x1004
    case MultipleFloating64 => 0x1005
    case MultipleCurrency => 0x1006
    case MultipleFloatingTime => 0x1007
    case MultipleInteger64 => 0x1014
    case MultipleString8 => 0x101E
    case MultipleString => 0x101F
    case MultipleTime => 0x1040
    case MultipleGuid => 0x1048
    case MultipleBinary => 0x1102
    case Other(c) => c
  }

  /** The type a u16 converts to: the listed variant with that code, else Other. */
  function FromCode(c: u16): (t: PropType)
    ensures t.Other? <==> !Listed(c)
    ensures t.Other? ==> t.code == c
  {
    match c
    case 0x0000 => PropType.Unspecified
    case 0x0001 => PropType.Null
    case 0x0002 => PropType.Integer16
    case 0x0003 => PropType.Integer32
    case 0x0004 => PropType.Floating32
    case 0x0005 => PropType.Floating64
    case 0x0006 => PropType.Currency
    case 0x0007 => PropType.FloatingTime
    case 0x000A => PropType.ErrorCode
    case 0x000B => PropType.Boolean
    case 0x000D => PropType.Object
    case 0x0014 => PropType.Integer64
    case 0x001E => PropType.String8
    case 0x001F => PropType.String
    case 0x0040 => PropType.Time
    case 0x0048 => PropType.Guid
    case 0x0102 => PropType.Binary
    case 0x1002 => PropType.MultipleInteger16
    case 0x1003 => PropType.MultipleInteger32
    case 0x1004 => PropType.MultipleFloating32
    case 0x1005 => PropType.MultipleFloating64
    case 0x1006 => PropType.MultipleCurrency
    case 0x1007 => PropType.MultipleFloatingTime
    case 0x1014 => PropType.MultipleInteger64
    case 0x101E => PropType.MultipleString8
    case 0x101F => PropType.MultipleString
    case 0x1040 => PropType.MultipleTime
    case 0x1048 => PropType.MultipleGuid
    case 0x1102 => PropType.MultipleBinary
    case _ => PropType.Other(c)
  }

  /** Converting from u16 and back gives the code back: no code is lost. */
  lemma ToCodeOfFromCode(c: u16)
    ensures ToCode(FromCode(c)) == c
  {
  }

  /** The types a conversion from u16 can produce: Other never carries a listed code. */
  predicate Canonical(t: PropType)
  {
    t.Other? ==> !Listed(t.code)
  }

  /** Converting to u16 and back is the identity on exactly the canonical types;
      so the listed codes and the named variants correspond one to one. */
  lemma FromCodeToCode(t: PropType)
    ensures FromCode(ToCode(t)) == t <==> Canonical(t)
  {
  }

  lemma ToCodeInjective(t: PropType, u: PropType)
    requires Canonical(t) && Canonical(u) && ToCode(t) == ToCode(u)
    ensures t == u
  {
    FromCodeToCode(t);
    FromCodeToCode(u);
  }

  predicate IsMultiple(t: PropType)
  {
    t.MultipleInteger16? || t.MultipleInteger32? || t.MultipleFloating32? || t.MultipleFloating64?
    || t.MultipleCurrency? || t.MultipleFloatingTime? || t.MultipleInteger64? || t.MultipleString8?
    || t.MultipleString? || t.MultipleTime? || t.MultipleGuid? || t.MultipleBinary?
  }

  /** The single-valued type whose values a multi-valued type holds. */
  function SingleOf(t: PropType): (u: PropType)
    requires IsMultiple(t)
    ensures !IsMultiple(u) && !u.Other?
  {
    match t
    case MultipleInteger16 => PropType.Integer16
    case MultipleInteger32 => PropType.Integer32
    case MultipleFloating32 => PropType.Floating32
    case MultipleFloating64 => PropType.Floating64
    case MultipleCurrency => PropType.Currency
    case MultipleFloatingTime => PropType.FloatingTime
    case MultipleInteger64 => PropType.Integer64
    case MultipleString8 => PropType.String8
    case MultipleString => PropType.String
    case MultipleTime => PropType.Time
    case MultipleGuid => PropType.Guid
    case MultipleBinary => PropType.Binary
  }

  /** A multi-valued code is its single-valued code with bit 0x1000 set, a bit
      that no single-valued listed code has. */
  lemma MultipleCodeIsSingleWithBit(t: PropType)
    requires IsMultiple(t)
    ensures ToCode(t) == ToCode(SingleOf(t)) + 0x1000
    ensures ToCode(SingleOf(t)) / 0x1000 % 2 == 0
  {
  }

  /** The multi-valued listed codes are exactly the listed codes with bit 0x1000 set. */
  lemma MultipleIffBit(t: PropType)
    requires !t.Other?
    ensures IsMultiple(t) <==> ToCode(t) / 0x1000 % 2 == 1
  {
  }

  /** A property value; E is the width of the error code, u32 in msox and u64 in
      tnef2mime.  Floating-point values are kept as their bit patterns. */
  datatype PropValue<E> =
    | Unspecified
    | Null
    | Integer16(i16)
    | Integer32(i32)
    | Floating32(u32)
    | Floating64(u64)
    | Currency(i64)
    | FloatingTime(u64)
    | ErrorCode(E)
    | Boolean(bool)
    | Object(seq<byte>)
    | Integer64(i64)
    | String8(string)
    | String(string)
    | Time(i64)
    | Guid(Guids.Guid)
    | Binary(seq<byte>)
    | MultipleInteger16(seq<i16>)
    | MultipleInteger32(seq<i32>)
    | MultipleFloating32(seq<u32>)
    | MultipleFloating64(seq<u64>)
    | MultipleCurrency(seq<i64>)
    | MultipleFloatingTime(seq<u64>)
    | MultipleInteger64(seq<i64>)
    | MultipleString8(seq<string>)
    | MultipleString(seq<string>)
    | MultipleTime(seq<i64>)
    | MultipleGuid(seq<Guids.Guid>)
    | MultipleBinary(seq<seq<byte>>)

  /** The same-named type of a value. */
  function TypeOf<E>(v: PropValue<E>): (t: PropType)
    ensures !t.Other?
  {
    match v
    case Unspecified => PropType.Unspecified
    case Null => PropType.Null
    case Integer16(_) => PropType.Integer16
    case Integer32(_) => PropType.Integer32
    case Floating32(_) => PropType.Floating32
    case Floating64(_) => PropType.Floating64
    case Currency(_) => PropType.Currency
    case FloatingTime(_) => PropType.FloatingTime
    case ErrorCode(_) => PropType.ErrorCode
    case Boolean(_) => PropType.Boolean
    case Object(_) => PropType.Object
    case Integer64(_) => PropType.Integer64
    case String8(_) => PropType.String8
    case String(_) => PropType.String
    case Time(_) => PropType.Time
    case Guid(_) => PropType.Guid
    case Binary(_) => PropType.Binary
    case MultipleInteger16(_) => PropType.MultipleInteger16
    case MultipleInteger32(_) => PropType.MultipleInteger32
    case MultipleFloating32(_) => PropType.MultipleFloating32
    case MultipleFloating64(_) => PropType.MultipleFloating64
    case MultipleCurrency(_) => PropType.MultipleCurrency
    case MultipleFloatingTime(_) => PropType.MultipleFloatingTime
    case MultipleInteger64(_) => PropType.MultipleInteger64
    case MultipleString8(_) => PropType.MultipleString8
    case MultipleString(_) => PropType.MultipleString
    case MultipleTime(_) => PropType.MultipleTime
    case MultipleGuid(_) => PropType.MultipleGuid
    case MultipleBinary(_) => PropType.MultipleBinary
  }

  /** A value of each named type, so every type but Other has a value variant. */
  function Sample<E>(t: PropType, e: E): (v: PropValue<E>)
    requires !t.Other?
    ensures TypeOf(v) == t
  {
    match t
    case Unspecified => PropValue.Unspecified
    case Null => PropValue.Null
    case Integer16 => PropValue.Integer16(0)
    case Integer32 => PropValue.Integer32(0)
    case Floating32 => PropValue.Floating32(0)
    case Floating64 => PropValue.Floating64(0)
    case Currency => PropValue.Currency(0)
    case FloatingTime => PropValue.FloatingTime(0)
    case ErrorCode => PropValue.ErrorCode(e)
    case Boolean => PropValue.Boolean(false)
    case Object => PropValue.Object([])
    case Integer64 => PropValue.Integer64(0)
    case String8 => PropValue.String8("")
    case String => PropValue.String("")
    case Time => PropValue.Time(0)
    case Guid => PropValue.Guid(Guids.Guid(0, 0, 0, [0, 0, 0, 0, 0, 0, 0, 0]))
    case Binary => PropValue.Binary([])
    case MultipleInteger16 => PropValue.MultipleInteger16([])
    case MultipleInteger32 => PropValue.MultipleInteger32([])
    case MultipleFloating32 => PropValue.MultipleFloating32([])
    case MultipleFloating64 => PropValue.MultipleFloating64([])
    case MultipleCurrency => PropValue.MultipleCurrency([])
    case MultipleFloatingTime => PropValue.MultipleFloatingTime([])
    case MultipleInteger64 => PropValue.MultipleInteger64([])
    case MultipleString8 => PropValue.MultipleString8([])
    case MultipleString => PropValue.MultipleString([])
    case MultipleTime => PropValue.MultipleTime([])
    case MultipleGuid => PropValue.MultipleGuid([])
    case MultipleBinary => PropValue.MultipleBinary([])
  }

  /** The values a multi-valued value holds, each as a single value; none for a
      single value. */
  function Elements<E>(v: PropValue<E>): (es: seq<PropValue<E>>)
  {
    match v
    case MultipleInteger16(xs) => seq(|xs|, i requires 0 <= i < |xs| => PropValue.Integer16(xs[i]))
    case MultipleInteger32(xs) => seq(|xs|, i requires 0 <= i < |xs| => PropValue.Integer32(xs[i]))
    case MultipleFloating32(xs) => seq(|xs|, i requires 0 <= i < |xs| => PropValue.Floating32(xs[i]))
    case MultipleFloating64(xs) => seq(|xs|, i requires 0 <= i < |xs| => PropValue.Floating64(xs[i]))
    case MultipleCurrency(xs) => seq(|xs|, i requires 0 <= i < |xs| => PropValue.Currency(xs[i]))
    case MultipleFloatingTime(xs) => seq(|xs|, i requires 0 <= i < |xs| => PropValue.FloatingTime(xs[i]))
    case MultipleInteger64(xs) => seq(|xs|, i requires 0 <= i < |xs| => PropValue.Integer64(xs[i]))
    case MultipleString8(xs) => seq(|xs|, i requires 0 <= i < |xs| => PropValue.String8(xs[i]))
    case MultipleString(xs) => seq(|xs|, i requires 0 <= i < |xs| => PropValue.String(xs[i]))
    case MultipleTime(xs) => seq(|xs|, i requires 0 <= i < |xs| => PropValue.Time(xs[i]))
    case MultipleGuid(xs) => seq(|xs|, i requires 0 <= i < |xs| => PropValue.Guid(xs[i]))
    case MultipleBinary(xs) => seq(|xs|, i requires 0 <= i < |xs| => PropValue.Binary(xs[i]))
    case _ => []
  }

  /** Every element of a multi-valued value has the single-valued type of its list. */
  lemma ElementsHaveSingleType<E>(v: PropValue<E>)
    requires IsMultiple(TypeOf(v))
    ensures forall i :: 0 <= i < |Elements(v)| ==> TypeOf(Elements(v)[i]) == SingleOf(TypeOf(v))
  {
  }
}
