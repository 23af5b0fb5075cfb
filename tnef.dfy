/**
 * The TNEF attribute stream of tnef2mime/src/tnef/mod.rs (`read_tnef`), the
 * layout of section 2.1.3 of [MS-OXTNEF]: a 4-byte signature, a 2-byte legacy
 * key, then records of level (1 byte), id (4), length (4, signed), data and a
 * 2-byte checksum that is the sum of the data bytes modulo 2^16.
 */
module Tnef {
  import opened Wrappers
  import opened BinRead
  import opened Slices
  import Msox

  const TnefSignature: u32 := 0x223E9F78

  /** Level and id are kept as their raw codes: their enumerations are generated tables. */
  datatype Attribute = Attribute(level: byte, id: u32, data: seq<byte>, checksum: u16)

  datatype TnefFile = TnefFile(legacyKey: u16, attributes: seq<Attribute>)

  /** `TnefReadError`.  `Io` is the reader's end-of-input error, the only I/O
      error left once the input is a byte string. */
  datatype TnefError =
    | Io
    | Signature(expected: u32, obtained: u32)
    | LengthConversion(length: i32)
    | ChecksumMismatch(stored: u16, calculated: u16)
    | InvalidIdType(idType: u32)
    | InvalidStringId(idWords: seq<u16>)
    | InvalidBoolean(boolByte: byte)
    | MultipleValuesSingleType(propType: Msox.PropType, count: u32)
    | InvalidString(stringWords: seq<u16>)
    | OddStringLength(byteLength: nat)
    | UnknownType(typeCode: u16)

  // ---------------------------------------------------------------------
  // Checksum (mod.rs:209-213)

  /** Reference definition: the plain sum of the bytes. */
  function Sum(d: seq<byte>): nat
  {
    if d == [] then 0 else d[0] + Sum(d[1..])
  }

  /** `my_checksum.wrapping_add(b)` over the bytes in order. */
  function Checksum(d: seq<byte>): u16
  {
    if d == [] then 0 else (Checksum(d[..|d| - 1]) + d[|d| - 1]) % 0x1_0000
  }

  lemma {:induction false} SumLast(d: seq<byte>)
    requires d != []
    ensures Sum(d) == Sum(d[..|d| - 1]) + d[|d| - 1]
  {
    if |d| > 1 {
      SumLast(d[1..]);
      assert d[1..][..|d| - 2] == d[..|d| - 1][1..];
    }
  }

  /** Adding with wrap-around at every step is the sum taken modulo 2^16 at the end. */
  lemma {:induction false} ChecksumIsSumMod(d: seq<byte>)
    ensures Checksum(d) == Sum(d) % 0x1_0000
  {
    if d != [] {
      ChecksumIsSumMod(d[..|d| - 1]);
      SumLast(d);
    }
  }

  method ComputeChecksum(data: seq<byte>) returns (c: u16)
    ensures c == Checksum(data)
    ensures c == Sum(data) % 0x1_0000
  {
    c := 0;
    var i := 0;
    while i < |data|
      invariant 0 <= i <= |data|
      invariant c == Checksum(data[..i])
    {
      assert data[..i + 1][..i] == data[..i];
      c := (c + data[i]) % 0x1_0000;
      i := i + 1;
    }
    assert data[..|data|] == data;
    ChecksumIsSumMod(data);
  }

  // ---------------------------------------------------------------------
  // Records (mod.rs:181-225)

  /** One record at pos, after its level byte has been read: None is a clean
      end of input at the level byte. */
  function ReadRecord(s: seq<byte>, pos: nat): (r: Result<Option<(Attribute, nat)>, TnefError>)
    ensures r.Ok? && r.value.Some? ==> pos + 11 <= r.value.value.1 <= |s|
    ensures r.Ok? && r.value.None? <==> pos >= |s|
  {
    if pos >= |s| then Ok(None)
    else
      var level := s[pos];
      match ReadU32Le(s, pos + 1)
      case None => Err(Io)
      case Some((id, p1)) =>
        match ReadI32Le(s, p1)
        case None => Err(Io)
        case Some((length, p2)) =>
          if length < 0 then Err(LengthConversion(length))
          else match ReadBytes(s, p2, length)
            case None => Err(Io)
            case Some((data, p3)) =>
              match ReadU16Le(s, p3)
              case None => Err(Io)
              case Some((checksum, p4)) =>
                if checksum != Checksum(data) then Err(ChecksumMismatch(checksum, Checksum(data)))
                else Ok(Some((Attribute(level, id, data, checksum), p4)))
  }

  /** All records from pos to the end of input. */
  function ReadAttributes(s: seq<byte>, pos: nat): Result<seq<Attribute>, TnefError>
    decreases |s| - pos
  {
    match ReadRecord(s, pos)
    case Err(e) => Err(e)
    case Ok(None) => Ok([])
    case Ok(Some((a, p))) =>
      match ReadAttributes(s, p)
      case Err(e) => Err(e)
      case Ok(rest) => Ok([a] + rest)
  }

  /** `read_tnef` as a function of the whole input. */
  function ReadTnefSpec(s: seq<byte>): Result<TnefFile, TnefError>
  {
    match ReadU32Le(s, 0)
    case None => Err(Io)
    case Some((signature, p)) =>
      if signature != TnefSignature then Err(Signature(TnefSignature, signature))
      else match ReadU16Le(s, p)
        case None => Err(Io)
        case Some((key, q)) =>
          match ReadAttributes(s, q)
          case Err(e) => Err(e)
          case Ok(attrs) => Ok(TnefFile(key, attrs))
  }

  function PrependAttributes(xs: seq<Attribute>, r: Result<seq<Attribute>, TnefError>): Result<seq<Attribute>, TnefError>
  {
    match r
    case Err(e) => Err(e)
    case Ok(ys) => Ok(xs + ys)
  }

  /** One pass of the loop body of `read_tnef`, level byte included. */
  method ReadOneRecord(s: seq<byte>, pos: nat) returns (r: Result<Option<(Attribute, nat)>, TnefError>)
    ensures r == ReadRecord(s, pos)
  {
    if pos >= |s| {
      return Ok(None);
    }
    var level := s[pos];
    var id: u32, length: i32, checksum: u16;
    match ReadU32Le(s, pos + 1) {
      case None => return Err(Io);
      case Some((v, _)) => id := v;
    }
    match ReadI32Le(s, pos + 5) {
      case None => return Err(Io);
      case Some((v, _)) => length := v;
    }
    if length < 0 {
      return Err(LengthConversion(length));
    }
    var dataEnd := pos + 9 + length;
    if dataEnd > |s| {
      return Err(Io);
    }
    var data := s[pos + 9..dataEnd];
    match ReadU16Le(s, dataEnd) {
      case None => return Err(Io);
      case Some((v, _)) => checksum := v;
    }
    var myChecksum := ComputeChecksum(data);
    if checksum != myChecksum {
      return Err(ChecksumMismatch(checksum, myChecksum));
    }
    return Ok(Some((Attribute(level, id, data, checksum), dataEnd + 2)));
  }

  /** `read_tnef`: signature, legacy key, then records until the input ends at a level byte. */
  method ReadTnef(s: seq<byte>) returns (r: Result<TnefFile, TnefError>)
    ensures r == ReadTnefSpec(s)
  {
    var signature: u32, legacyKey: u16;
    match ReadU32Le(s, 0) {
      case None => return Err(Io);
      case Some((v, _)) => signature := v;
    }
    if signature != TnefSignature {
      return Err(Signature(TnefSignature, signature));
    }
    match ReadU16Le(s, 4) {
      case None => return Err(Io);
      case Some((v, _)) => legacyKey := v;
    }
    var attributes: seq<Attribute> := [];
    var pos: nat := 6;
    match ReadAttributes(s, pos) {
      case Err(_) =>
      case Ok(ys) => assert [] + ys == ys;
    }
    while true
      invariant ReadAttributes(s, 6) == PrependAttributes(attributes, ReadAttributes(s, pos))
      decreases |s| - pos
    {
      var record := ReadOneRecord(s, pos);
      AttributesStop(s, pos, attributes);
      match record {
        case Err(e) =>
          return Err(e);
        case Ok(None) =>
          break;
        case Ok(Some((a, next))) =>
          AttributesAdvance(s, pos, attributes, a, next);
          attributes := attributes + [a];
          pos := next;
      }
    }
    return Ok(TnefFile(legacyKey, attributes));
  }

  // ---------------------------------------------------------------------
  // What a successful read guarantees

  /** Every attribute read carries the checksum of its data and a length that
      fits a non-negative i32, and the attributes follow the input order. */
  lemma {:induction false} AttributesValid(s: seq<byte>, pos: nat)
    requires ReadAttributes(s, pos).Ok?
    ensures forall a :: a in ReadAttributes(s, pos).value ==>
              a.checksum == Sum(a.data) % 0x1_0000 && |a.data| < 0x8000_0000
    decreases |s| - pos
  {
    match ReadRecord(s, pos)
    case Ok(None) =>
    case Ok(Some((a, p))) =>
      AttributesValid(s, p);
      ChecksumIsSumMod(a.data);
  }

  lemma ReadTnefValid(s: seq<byte>)
    requires ReadTnefSpec(s).Ok?
    ensures |s| >= 6 && LeValue(s[0..4]) == TnefSignature
    ensures ReadTnefSpec(s).value.legacyKey == LeValue(s[4..6])
    ensures forall a :: a in ReadTnefSpec(s).value.attributes ==>
              a.checksum == Sum(a.data) % 0x1_0000 && |a.data| < 0x8000_0000
  {
    AttributesValid(s, 6);
  }

  /** The signature check: anything but the TNEF signature in the first four
      little-endian bytes is refused with that signature. */
  lemma SignatureChecked(s: seq<byte>)
    requires |s| >= 4 && LeValue(s[0..4]) != TnefSignature
    ensures ReadTnefSpec(s) == Err(Signature(TnefSignature, ReadU32Le(s, 0).value.0))
  {
  }

  // ---------------------------------------------------------------------
  // Writing a TNEF stream: the partner of the reader

  predicate WellFormedAttribute(a: Attribute)
  {
    a.checksum == Checksum(a.data) && |a.data| < 0x8000_0000
  }

  predicate AllWellFormed(attrs: seq<Attribute>)
  {
    forall i :: 0 <= i < |attrs| ==> WellFormedAttribute(attrs[i])
  }

  function EncodeAttribute(a: Attribute): (b: seq<byte>)
    requires |a.data| < 0x8000_0000
    ensures |b| == 11 + |a.data|
  {
    [a.level] + LeBytes(a.id, 4) + LeBytes(|a.data|, 4) + a.data + LeBytes(a.checksum, 2)
  }

  function EncodeAttributes(attrs: seq<Attribute>): seq<byte>
    requires AllWellFormed(attrs)
  {
    if attrs == [] then []
    else EncodeAttribute(attrs[0]) + EncodeAttributes(attrs[1..])
  }

  function EncodeTnef(f: TnefFile): seq<byte>
    requires AllWellFormed(f.attributes)
  {
    LeBytes(TnefSignature, 4) + LeBytes(f.legacyKey, 2) + EncodeAttributes(f.attributes)
  }

  /** One record read successfully is followed by the records after it. */
  lemma ReadAttributesStep(s: seq<byte>, pos: nat)
    requires ReadRecord(s, pos).Ok? && ReadRecord(s, pos).value.Some?
    ensures var (a, p) := ReadRecord(s, pos).value.value;
            ReadAttributes(s, pos) == PrependAttributes([a], ReadAttributes(s, p))
  {
  }

  lemma PrependAttributesTwice(xs: seq<Attribute>, ys: seq<Attribute>, r: Result<seq<Attribute>, TnefError>)
    ensures PrependAttributes(xs, PrependAttributes(ys, r)) == PrependAttributes(xs + ys, r)
  {
    if r.Ok? {
      assert xs + (ys + r.value) == (xs + ys) + r.value;
    }
  }

  /** The reading loop's invariant survives one more record. */
  lemma AttributesAdvance(s: seq<byte>, pos: nat, attributes: seq<Attribute>, a: Attribute, next: nat)
    requires ReadAttributes(s, 6) == PrependAttributes(attributes, ReadAttributes(s, pos))
    requires ReadRecord(s, pos) == Ok(Some((a, next)))
    ensures ReadAttributes(s, 6) == PrependAttributes(attributes + [a], ReadAttributes(s, next))
  {
    ReadAttributesStep(s, pos);
    assert ReadRecord(s, pos).value.value == (a, next);
    PrependAttributesTwice(attributes, [a], ReadAttributes(s, next));
  }

  /** The reading loop's invariant at a failed read or at the end of input. */
  lemma AttributesStop(s: seq<byte>, pos: nat, attributes: seq<Attribute>)
    requires ReadAttributes(s, 6) == PrependAttributes(attributes, ReadAttributes(s, pos))
    ensures ReadRecord(s, pos).Err? ==> ReadAttributes(s, 6) == Err(ReadRecord(s, pos).error)
    ensures ReadRecord(s, pos) == Ok(None) ==> ReadAttributes(s, 6) == Ok(attributes)
  {
    assert attributes + [] == attributes;
  }

  /** The record reader, given what the reads of each field of a at p return. */
  lemma ReadRecordOfFields(s: seq<byte>, p: nat, a: Attribute)
    requires WellFormedAttribute(a) && p + 11 + |a.data| <= |s|
    requires s[p] == a.level && ReadU32Le(s, p + 1) == Some((a.id, p + 5))
    requires ReadU32Le(s, p + 5) == Some((|a.data|, p + 9))
    requires s[p + 9..p + 9 + |a.data|] == a.data
    requires ReadU16Le(s, p + 9 + |a.data|) == Some((a.checksum, p + 11 + |a.data|))
    ensures ReadRecord(s, p) == Ok(Some((a, p + 11 + |a.data|)))
  {
    var n := |a.data|;
    assert ReadI32Le(s, p + 5) == Some((n, p + 9));
    assert ReadBytes(s, p + 9, n) == Some((a.data, p + 9 + n));
    assert Attribute(s[p], a.id, a.data, a.checksum) == a;
  }

  /** The record reader at p, when the bytes at p are the encoding of a. */
  lemma ReadRecordOfEncoded(s: seq<byte>, p: nat, a: Attribute)
    requires WellFormedAttribute(a) && p + 11 + |a.data| <= |s|
    requires s[p..p + 11 + |a.data|] == EncodeAttribute(a)
    ensures ReadRecord(s, p) == Ok(Some((a, p + 11 + |a.data|)))
  {
    var n := |a.data|;
    SlicesAt(s, p, [a.level], LeBytes(a.id, 4), LeBytes(n, 4), a.data, LeBytes(a.checksum, 2));
    assert s[p] == s[p..p + 1][0];
    Pow256Widths();
    ReadsOfLeBytes(s, p + 1, a.id, 4);
    ReadsOfLeBytes(s, p + 5, n, 4);
    ReadsOfLeBytes(s, p + 9 + n, a.checksum, 2);
    ReadRecordOfFields(s, p, a);
  }

  lemma {:induction false} ReadAttributesOfEncoded(s: seq<byte>, pos: nat, attrs: seq<Attribute>)
    requires AllWellFormed(attrs) && pos <= |s| && s[pos..] == EncodeAttributes(attrs)
    ensures ReadAttributes(s, pos) == Ok(attrs)
    decreases |attrs|
  {
    if attrs == [] {
      assert |s[pos..]| == 0;
    } else {
      var a := attrs[0];
      var e := EncodeAttribute(a);
      SuffixHalves(s, pos, e, EncodeAttributes(attrs[1..]));
      ReadRecordOfEncoded(s, pos, a);
      ReadAttributesStep(s, pos);
      ReadAttributesOfEncoded(s, pos + |e|, attrs[1..]);
      assert attrs == [a] + attrs[1..];
    }
  }

  /** Every well-formed file is read back from its encoding. */
  lemma ReadEncodedTnef(f: TnefFile)
    requires AllWellFormed(f.attributes)
    ensures ReadTnefSpec(EncodeTnef(f)) == Ok(f)
  {
    var head := LeBytes(TnefSignature, 4) + LeBytes(f.legacyKey, 2);
    var s := EncodeTnef(f);
    Pow256Widths();
    assert s == head + EncodeAttributes(f.attributes);
    assert s[0..4] == LeBytes(TnefSignature, 4);
    ReadsOfLeBytes(s, 0, TnefSignature, 4);
    assert s[4..6] == LeBytes(f.legacyKey, 2);
    ReadsOfLeBytes(s, 4, f.legacyKey, 2);
    assert s[6..] == EncodeAttributes(f.attributes);
    ReadAttributesOfEncoded(s, 6, f.attributes);
  }

  /** What a successful record read found at each field. */
  lemma FieldsOfReadRecord(s: seq<byte>, pos: nat)
    requires ReadRecord(s, pos).Ok? && ReadRecord(s, pos).value.Some?
    ensures var (a, p) := ReadRecord(s, pos).value.value;
            && WellFormedAttribute(a) && p == pos + 11 + |a.data| <= |s|
            && s[pos] == a.level && ReadU32Le(s, pos + 1) == Some((a.id, pos + 5))
            && ReadU32Le(s, pos + 5) == Some((|a.data|, pos + 9))
            && s[pos + 9..pos + 9 + |a.data|] == a.data
            && ReadU16Le(s, pos + 9 + |a.data|) == Some((a.checksum, p))
  {
  }

  /** A field read as a little-endian integer holds that integer's bytes. */
  lemma LeBytesOfRead(s: seq<byte>, q: nat, x: nat, n: nat)
    requires (n == 2 && ReadU16Le(s, q) == Some((x, q + 2))) || (n == 4 && ReadU32Le(s, q) == Some((x, q + 4)))
    ensures q + n <= |s| && s[q..q + n] == LeBytes(x, n)
  {
    LeBytesOfLeValue(s[q..q + n]);
  }

  /** The bytes a successful record read consumed are the encoding of what it read. */
  lemma EncodedOfReadRecord(s: seq<byte>, pos: nat)
    requires ReadRecord(s, pos).Ok? && ReadRecord(s, pos).value.Some?
    ensures var (a, p) := ReadRecord(s, pos).value.value;
            && WellFormedAttribute(a) && p == pos + 11 + |a.data| <= |s|
            && s[pos..p] == EncodeAttribute(a)
  {
    var (a, p) := ReadRecord(s, pos).value.value;
    FieldsOfReadRecord(s, pos);
    LeBytesOfRead(s, pos + 1, a.id, 4);
    LeBytesOfRead(s, pos + 5, |a.data|, 4);
    LeBytesOfRead(s, pos + 9 + |a.data|, a.checksum, 2);
    EncodingOfFields(s, pos, a);
  }

  /** Bytes holding the fields of an attribute are its encoding. */
  lemma EncodingOfFields(s: seq<byte>, p: nat, a: Attribute)
    requires |a.data| < 0x8000_0000 && p + 11 + |a.data| <= |s|
    requires s[p] == a.level && s[p + 1..p + 5] == LeBytes(a.id, 4)
    requires s[p + 5..p + 9] == LeBytes(|a.data|, 4)
    requires s[p + 9..p + 9 + |a.data|] == a.data
    requires s[p + 9 + |a.data|..p + 11 + |a.data|] == LeBytes(a.checksum, 2)
    ensures EncodeAttribute(a) == s[p..p + 11 + |a.data|]
  {
    assert s[p..p + 1] == [a.level];
    FiveAt(s, p, [a.level], LeBytes(a.id, 4), LeBytes(|a.data|, 4), a.data, LeBytes(a.checksum, 2));
  }

  lemma {:induction false} EncodedOfReadAttributes(s: seq<byte>, pos: nat)
    requires pos <= |s| && ReadAttributes(s, pos).Ok?
    ensures AllWellFormed(ReadAttributes(s, pos).value)
    ensures EncodeAttributes(ReadAttributes(s, pos).value) == s[pos..]
    decreases |s| - pos
  {
    if pos < |s| {
      var (a, p) := ReadRecord(s, pos).value.value;
      ReadAttributesStep(s, pos);
      EncodedOfReadAttributes(s, p);
      EncodedOfReadRecord(s, pos);
      var attrs, rest := ReadAttributes(s, pos).value, ReadAttributes(s, p).value;
      assert attrs == [a] + rest;
      assert attrs[0] == a && attrs[1..] == rest;
      SliceSplit(s, pos, p, |s|);
    }
  }

  /** A successful read consumes the whole input: it is the encoding of what
      was read, so two inputs that read the same are the same. */
  lemma EncodeReadTnef(s: seq<byte>)
    requires ReadTnefSpec(s).Ok?
    ensures AllWellFormed(ReadTnefSpec(s).value.attributes)
    ensures EncodeTnef(ReadTnefSpec(s).value) == s
  {
    var f := ReadTnefSpec(s).value;
    EncodedOfReadAttributes(s, 6);
    Pow256Widths();
    LeBytesOfLeValue(s[0..4]);
    LeBytesOfLeValue(s[4..6]);
    assert s == s[0..4] + s[4..6] + s[6..];
  }
}
