/**
 * The GUID of tnef2mime/src/guid.rs: a 32-bit, two 16-bit and eight single-byte
 * fields, built from 16 bytes in either field byte order and displayed in the
 * usual 8-4-4-4-12 upper-case form.
 */
module Guids {
  import opened Wrappers
  import opened BinRead
  import Hex

  type Bytes8 = s: seq<byte> | |s| == 8 witness [0, 0, 0, 0, 0, 0, 0, 0]

  datatype Guid = Guid(data1: u32, data2: u16, data3: u16, data4: Bytes8)

  /** `Guid::from_le_bytes`: the three integer fields are little-endian. */
  function FromLeBytes(bytes: seq<byte>): (r: Option<Guid>)
    ensures r.Some? <==> |bytes| == 16
    ensures r.Some? ==>
              && r.value.data1 == LeValue(bytes[0..4])
              && r.value.data2 == LeValue(bytes[4..6])
              && r.value.data3 == LeValue(bytes[6..8])
              && r.value.data4 == bytes[8..16]
  {
    if |bytes| != 16 then None
    else Some(Guid(ReadU32Le(bytes, 0).value.0, ReadU16Le(bytes, 4).value.0,
                   ReadU16Le(bytes, 6).value.0, bytes[8..16]))
  }

  /** `Guid::from_be_bytes`: the three integer fields are big-endian. */
  function FromBeBytes(bytes: seq<byte>): (r: Option<Guid>)
    ensures r.Some? <==> |bytes| == 16
    ensures r.Some? ==>
              && r.value.data1 == BeValue(bytes[0..4])
              && r.value.data2 == BeValue(bytes[4..6])
              && r.value.data3 == BeValue(bytes[6..8])
              && r.value.data4 == bytes[8..16]
  {
    if |bytes| != 16 then None
    else Some(Guid(ReadU32Be(bytes, 0).value.0, ReadU16Be(bytes, 4).value.0,
                   ReadU16Be(bytes, 6).value.0, bytes[8..16]))
  }

  /** The 16 bytes `from_le_bytes` reads a GUID from. */
  function ToLeBytes(g: Guid): (b: seq<byte>)
    ensures |b| == 16
  {
    var x1 := g.data1 / 0x100;
    var x2 := x1 / 0x100;
    [g.data1 % 0x100, x1 % 0x100, x2 % 0x100, x2 / 0x100,
     g.data2 % 0x100, g.data2 / 0x100, g.data3 % 0x100, g.data3 / 0x100] + g.data4
  }

  function Swap16(x: u16): u16
  {
    x % 0x100 * 0x100 + x / 0x100
  }

  function Swap32(x: u32): u32
  {
    var y1 := x / 0x100;
    var y2 := y1 / 0x100;
    x % 0x100 * 0x100_0000 + y1 % 0x100 * 0x1_0000 + y2 % 0x100 * 0x100 + y2 / 0x100
  }

  lemma SplitByte(b: int, y: int)
    requires 0 <= b < 0x100 && y >= 0
    ensures (b + 0x100 * y) % 0x100 == b && (b + 0x100 * y) / 0x100 == y
  {
  }

  /** Every GUID is read back from its little-endian bytes. */
  lemma FromLeBytesOfToLeBytes(g: Guid)
    ensures FromLeBytes(ToLeBytes(g)) == Some(g)
  {
    var b := ToLeBytes(g);
    var x := g.data1;
    var x1 := x / 0x100;
    var x2 := x1 / 0x100;
    assert x == x % 0x100 + 0x100 * x1;
    assert x1 == x1 % 0x100 + 0x100 * x2;
    assert x2 == x2 % 0x100 + 0x100 * (x2 / 0x100);
    LeValue4(b[0..4]);
    LeValue2(b[4..6]);
    LeValue2(b[6..8]);
    assert b[8..16] == g.data4;
  }

  /** Reading then writing gives back the bytes, so `from_le_bytes` is injective. */
  lemma ToLeBytesOfFromLeBytes(bytes: seq<byte>)
    requires |bytes| == 16
    ensures ToLeBytes(FromLeBytes(bytes).value) == bytes
  {
    var g := FromLeBytes(bytes).value;
    LeValue4(bytes[0..4]);
    LeValue2(bytes[4..6]);
    LeValue2(bytes[6..8]);
    var b0, b1, b2, b3 := bytes[0] as int, bytes[1] as int, bytes[2] as int, bytes[3] as int;
    SplitByte(b0, b1 + 0x100 * (b2 + 0x100 * b3));
    SplitByte(b1, b2 + 0x100 * b3);
    SplitByte(b2, b3);
    SplitByte(bytes[4], bytes[5]);
    SplitByte(bytes[6], bytes[7]);
    assert ToLeBytes(g)[..8] == bytes[..8];
    assert bytes == bytes[..8] + bytes[8..16];
  }

  lemma FromLeBytesInjective(a: seq<byte>, b: seq<byte>)
    requires |a| == 16 && |b| == 16 && FromLeBytes(a) == FromLeBytes(b)
    ensures a == b
  {
    ToLeBytesOfFromLeBytes(a);
    ToLeBytesOfFromLeBytes(b);
  }

  lemma Swap16OfBytes(t: seq<byte>)
    requires |t| == 2
    ensures LeValue(t) < 0x1_0000 && BeValue(t) == Swap16(LeValue(t))
  {
    LeValue2(t);
    SplitByte(t[0], t[1]);
    assert t[..1][..0] == [];
    assert BeValue(t[..1]) == t[0];
  }

  lemma Swap32OfBytes(t: seq<byte>)
    requires |t| == 4
    ensures LeValue(t) < 0x1_0000_0000 && BeValue(t) == Swap32(LeValue(t))
  {
    LeValue4(t);
    var b0, b1, b2, b3 := t[0] as int, t[1] as int, t[2] as int, t[3] as int;
    SplitByte(b0, b1 + 0x100 * (b2 + 0x100 * b3));
    SplitByte(b1, b2 + 0x100 * b3);
    SplitByte(b2, b3);
    assert t[..3][..2][..1][..0] == [];
    assert t[..3][..2] == t[..2] && t[..2][..1] == t[..1];
    assert BeValue(t[..1]) == b0;
    assert BeValue(t[..2]) == b0 * 0x100 + b1;
    assert BeValue(t[..3]) == (b0 * 0x100 + b1) * 0x100 + b2;
  }

  /** The big-endian constructor differs from the little-endian one only by
      swapping the bytes of each integer field. */
  lemma FromBeIsSwappedFromLe(bytes: seq<byte>)
    requires |bytes| == 16
    ensures var le, be := FromLeBytes(bytes).value, FromBeBytes(bytes).value;
            be.data1 == Swap32(le.data1) && be.data2 == Swap16(le.data2)
            && be.data3 == Swap16(le.data3) && be.data4 == le.data4
  {
    Swap32OfBytes(bytes[0..4]);
    Swap16OfBytes(bytes[4..6]);
    Swap16OfBytes(bytes[6..8]);
  }

  // ---------------------------------------------------------------------
  // Display (guid.rs:78-82)

  /** Each byte as two upper-case digits, `{:02X}` repeated. */
  function HexBytes(bs: seq<byte>): (r: string)
  {
    if bs == [] then "" else Hex.Format(bs[0], 2, true) + HexBytes(bs[1..])
  }

  lemma {:induction false} HexBytesFaithful(bs: seq<byte>, cs: seq<byte>)
    ensures |HexBytes(bs)| == 2 * |bs|
    ensures |bs| == |cs| && HexBytes(bs) == HexBytes(cs) ==> bs == cs
  {
    if bs != [] {
      Hex.FormatWidth(bs[0], 2, true);
      HexBytesFaithful(bs[1..], if cs == [] then [] else cs[1..]);
      if |bs| == |cs| && HexBytes(bs) == HexBytes(cs) {
        Hex.FormatWidth(cs[0], 2, true);
        var p, q := HexBytes(bs), HexBytes(cs);
        assert p[..2] == Hex.Format(bs[0], 2, true) && q[..2] == Hex.Format(cs[0], 2, true);
        assert p[2..] == HexBytes(bs[1..]) && q[2..] == HexBytes(cs[1..]);
        Hex.FormatInjective(bs[0], cs[0], 2, true);
        assert bs == [bs[0]] + bs[1..] && cs == [cs[0]] + cs[1..];
      }
    }
  }

  /** `format!("{}", guid)`: `{:08X}-{:04X}-{:04X}-{:02X}{:02X}-{:02X}` and five more `{:02X}`. */
  function Display(g: Guid): (r: string)
  {
    Hex.Format(g.data1, 8, true) + "-" + Hex.Format(g.data2, 4, true) + "-"
    + Hex.Format(g.data3, 4, true) + "-" + HexBytes(g.data4[..2]) + "-" + HexBytes(g.data4[2..])
  }

  predicate IsDash(i: int) { i == 8 || i == 13 || i == 18 || i == 23 }

  lemma {:induction false} HexBytesDigits(bs: seq<byte>)
    ensures forall i :: 0 <= i < |HexBytes(bs)| ==> Hex.IsDigit(HexBytes(bs)[i], true)
  {
    if bs != [] {
      HexBytesDigits(bs[1..]);
    }
  }

  lemma DashedFields<T>(a: seq<T>, b: seq<T>, c: seq<T>, d: seq<T>, e: seq<T>, dash: T)
    requires |a| == 8 && |b| == 4 && |c| == 4 && |d| == 4 && |e| == 12
    ensures var x := a + [dash] + b + [dash] + c + [dash] + d + [dash] + e;
            && |x| == 36 && x[0..8] == a && x[9..13] == b && x[14..18] == c
            && x[19..23] == d && x[24..36] == e
            && x[8] == dash && x[13] == dash && x[18] == dash && x[23] == dash
  {
  }

  /** Where each field appears in the display form. */
  lemma DisplayFields(g: Guid)
    ensures |Display(g)| == 36
    ensures Display(g)[0..8] == Hex.Format(g.data1, 8, true)
    ensures Display(g)[9..13] == Hex.Format(g.data2, 4, true)
    ensures Display(g)[14..18] == Hex.Format(g.data3, 4, true)
    ensures Display(g)[19..23] == HexBytes(g.data4[..2])
    ensures Display(g)[24..36] == HexBytes(g.data4[2..])
    ensures Display(g)[8] == '-' && Display(g)[13] == '-' && Display(g)[18] == '-' && Display(g)[23] == '-'
  {
    assert Hex.Pow16(2) == 0x100;
    assert Hex.Pow16(4) == 0x1_0000;
    assert Hex.Pow16(8) == 0x1_0000_0000;
    Hex.FormatWidth(g.data1, 8, true);
    Hex.FormatWidth(g.data2, 4, true);
    Hex.FormatWidth(g.data3, 4, true);
    HexBytesFaithful(g.data4[..2], []);
    HexBytesFaithful(g.data4[2..], []);
    DashedFields(Hex.Format(g.data1, 8, true), Hex.Format(g.data2, 4, true), Hex.Format(g.data3, 4, true),
                 HexBytes(g.data4[..2]), HexBytes(g.data4[2..]), '-');
  }

  /** The display form is 36 characters: dashes at 8, 13, 18 and 23, upper-case
      hexadecimal digits everywhere else. */
  lemma DisplayShape(g: Guid)
    ensures |Display(g)| == 36
    ensures forall i :: 0 <= i < 36 ==> (Display(g)[i] == '-' <==> IsDash(i))
    ensures forall i :: 0 <= i < 36 && !IsDash(i) ==> Hex.IsDigit(Display(g)[i], true)
  {
    DisplayFields(g);
    HexBytesDigits(g.data4[..2]);
    HexBytesDigits(g.data4[2..]);
  }

  /** Distinct GUIDs display differently: the display form is a faithful name. */
  lemma DisplayInjective(g: Guid, h: Guid)
    requires Display(g) == Display(h)
    ensures g == h
  {
    DisplayFields(g);
    DisplayFields(h);
    Hex.FormatInjective(g.data1, h.data1, 8, true);
    Hex.FormatInjective(g.data2, h.data2, 4, true);
    Hex.FormatInjective(g.data3, h.data3, 4, true);
    HexBytesFaithful(g.data4[..2], h.data4[..2]);
    HexBytesFaithful(g.data4[2..], h.data4[2..]);
    assert g.data4 == g.data4[..2] + g.data4[2..];
    assert h.data4 == h.data4[..2] + h.data4[2..];
  }
}
