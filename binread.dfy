/**
 * The binary cursor of tnef2mime/src/binread.rs.  A reader that consumes bytes
 * is a byte string plus a position; every read returns the value and the
 * position after it, or None where `read_exact` would report end of input.
 */
module BinRead {
  import opened Wrappers

  type byte = b: int | 0 <= b < 0x100
  type u16 = x: int | 0 <= x < 0x1_0000
  type u32 = x: int | 0 <= x < 0x1_0000_0000
  type u64 = x: int | 0 <= x < 0x1_0000_0000_0000_0000
  type i8 = x: int | -0x80 <= x < 0x80
  type i16 = x: int | -0x8000 <= x < 0x8000
  type i32 = x: int | -0x8000_0000 <= x < 0x8000_0000
  type i64 = x: int | -0x8000_0000_0000_0000 <= x < 0x8000_0000_0000_0000

  /** What the `_or_eof` reads return: a clean end, a value, or a partial item. */
  datatype Peek<T> = AtEnd | Got(value: T, next: nat) | Short

  // ---------------------------------------------------------------------
  // Reference definitions of byte order

  function Pow256(n: nat): (r: nat)
    ensures r >= 1
  {
    if n == 0 then 1 else 256 * Pow256(n - 1)
  }

  lemma Pow256Widths()
    ensures Pow256(1) == 0x100 && Pow256(2) == 0x1_0000
    ensures Pow256(4) == 0x1_0000_0000
    ensures Pow256(8) == 0x1_0000_0000_0000_0000
  {
    assert Pow256(1) == 0x100;
    assert Pow256(2) == 0x1_0000;
    assert Pow256(3) == 0x100_0000;
    assert Pow256(4) == 0x1_0000_0000;
    assert Pow256(5) == 0x100_0000_0000;
    assert Pow256(6) == 0x1_0000_0000_0000;
    assert Pow256(7) == 0x100_0000_0000_0000;
  }

  /** The little-endian value of a byte string: the sum of s[i] * 256^i. */
  function LeValue(s: seq<byte>): nat
  {
    if s == [] then 0 else s[0] + 256 * LeValue(s[1..])
  }

  /** The big-endian value of a byte string: the last byte is the least significant. */
  function BeValue(s: seq<byte>): nat
  {
    if s == [] then 0 else BeValue(s[..|s| - 1]) * 256 + s[|s| - 1]
  }

  function Reverse<T>(s: seq<T>): (r: seq<T>)
    ensures |r| == |s|
  {
    if s == [] then [] else [s[|s| - 1]] + Reverse(s[..|s| - 1])
  }

  lemma {:induction false} ReverseAt<T>(s: seq<T>, k: nat)
    requires k < |s|
    ensures Reverse(s)[k] == s[|s| - 1 - k]
  {
    if k > 0 {
      ReverseAt(s[..|s| - 1], k - 1);
    }
  }

  lemma ReverseInvolution<T>(s: seq<T>)
    ensures Reverse(Reverse(s)) == s
  {
    forall k | 0 <= k < |s|
      ensures Reverse(Reverse(s))[k] == s[k]
    {
      ReverseAt(Reverse(s), k);
      ReverseAt(s, |s| - 1 - k);
    }
  }

  /** A byte string of width w has a value below 256^w. */
  lemma {:induction false} LeValueBound(s: seq<byte>)
    ensures LeValue(s) < Pow256(|s|)
  {
    if s != [] {
      LeValueBound(s[1..]);
    }
  }

  /** Big-endian order is little-endian order of the reversed bytes. */
  lemma {:induction false} BeIsLeOfReverse(s: seq<byte>)
    ensures BeValue(s) == LeValue(Reverse(s))
  {
    if s != [] {
      var init := s[..|s| - 1];
      BeIsLeOfReverse(init);
      assert Reverse(s)[1..] == Reverse(init);
    }
  }

  /** LeValue is injective on strings of one width: equal values mean equal bytes. */
  lemma {:induction false} LeValueInjective(s: seq<byte>, t: seq<byte>)
    requires |s| == |t| && LeValue(s) == LeValue(t)
    ensures s == t
  {
    if s != [] {
      assert s[0] == LeValue(s) % 256 && t[0] == LeValue(t) % 256;
      LeValueInjective(s[1..], t[1..]);
      assert s == [s[0]] + s[1..];
      assert t == [t[0]] + t[1..];
    }
  }

  lemma LeValue2(t: seq<byte>)
    requires |t| == 2
    ensures LeValue(t) == (t[0] as int) + (t[1] as int) * 0x100
  {
    var rest := t[1..];
    assert rest[1..] == [];
    assert LeValue(rest) == rest[0] + 256 * LeValue(rest[1..]);
  }

  lemma LeValue4(t: seq<byte>)
    requires |t| == 4
    ensures LeValue(t) == (t[0] as int) + (t[1] as int) * 0x100 + (t[2] as int) * 0x1_0000 + (t[3] as int) * 0x100_0000
  {
    LeValue2(t[2..]);
    assert t[1..][1..] == t[2..];
    assert LeValue(t[1..]) == (t[1] as int) + 256 * LeValue(t[2..]);
  }

  lemma LeValue8(t: seq<byte>)
    requires |t| == 8
    ensures LeValue(t) == (t[0] as int) + (t[1] as int) * 0x100 + (t[2] as int) * 0x1_0000 + (t[3] as int) * 0x100_0000
                         + (t[4] as int) * 0x1_0000_0000 + (t[5] as int) * 0x100_0000_0000
                         + (t[6] as int) * 0x1_0000_0000_0000 + (t[7] as int) * 0x100_0000_0000_0000
  {
    LeValue4(t[4..]);
    assert t[1..][1..] == t[2..];
    assert t[2..][1..] == t[3..];
    assert t[3..][1..] == t[4..];
    assert LeValue(t[3..]) == (t[3] as int) + 256 * LeValue(t[4..]);
    assert LeValue(t[2..]) == (t[2] as int) + 256 * LeValue(t[3..]);
    assert LeValue(t[1..]) == (t[1] as int) + 256 * LeValue(t[2..]);
  }

  // ---------------------------------------------------------------------
  // Unsigned reads (binread.rs:49-123); each is the shift/or assembly of the
  // source, written as a sum because the shifted bytes never overlap.

  function ReadU8(s: seq<byte>, pos: nat): (r: Option<(byte, nat)>)
    ensures r.Some? <==> pos + 1 <= |s|
    ensures r.Some? ==> r.value == (s[pos], pos + 1)
  {
    if pos + 1 <= |s| then Some((s[pos], pos + 1)) else None
  }

  function ReadU16Le(s: seq<byte>, pos: nat): (r: Option<(u16, nat)>)
    ensures r.Some? <==> pos + 2 <= |s|
    ensures r.Some? ==> r.value.1 == pos + 2 && r.value.0 == LeValue(s[pos..pos + 2])
  {
    if pos + 2 <= |s| then
      LeValue2(s[pos..pos + 2]);
      Some(((s[pos] as int) + (s[pos + 1] as int) * 0x100, pos + 2))
    else None
  }

  function ReadU16Be(s: seq<byte>, pos: nat): (r: Option<(u16, nat)>)
    ensures r.Some? <==> pos + 2 <= |s|
    ensures r.Some? ==> r.value.1 == pos + 2 && r.value.0 == BeValue(s[pos..pos + 2])
  {
    if pos + 2 <= |s| then
      var t := s[pos..pos + 2];
      assert t[..1][..0] == [] && t[..1][0] == t[0];
      assert BeValue(t[..1]) == t[0];
      Some(((s[pos] as int) * 0x100 + (s[pos + 1] as int), pos + 2))
    else None
  }

  function ReadU32Le(s: seq<byte>, pos: nat): (r: Option<(u32, nat)>)
    ensures r.Some? <==> pos + 4 <= |s|
    ensures r.Some? ==> r.value.1 == pos + 4 && r.value.0 == LeValue(s[pos..pos + 4])
  {
    if pos + 4 <= |s| then
      LeValue4(s[pos..pos + 4]);
      Some(((s[pos] as int) + (s[pos + 1] as int) * 0x100 + (s[pos + 2] as int) * 0x1_0000 + (s[pos + 3] as int) * 0x100_0000, pos + 4))
    else None
  }

  function ReadU32Be(s: seq<byte>, pos: nat): (r: Option<(u32, nat)>)
    ensures r.Some? <==> pos + 4 <= |s|
    ensures r.Some? ==> r.value.1 == pos + 4 && r.value.0 == BeValue(s[pos..pos + 4])
  {
    if pos + 4 <= |s| then
      var t := s[pos..pos + 4];
      BeIsLeOfReverse(t);
      LeValue4(Reverse(t));
      ReverseAt(t, 0); ReverseAt(t, 1); ReverseAt(t, 2); ReverseAt(t, 3);
      Some(((s[pos] as int) * 0x100_0000 + (s[pos + 1] as int) * 0x1_0000 + (s[pos + 2] as int) * 0x100 + (s[pos + 3] as int), pos + 4))
    else None
  }

  function ReadU64Le(s: seq<byte>, pos: nat): (r: Option<(u64, nat)>)
    ensures r.Some? <==> pos + 8 <= |s|
    ensures r.Some? ==> r.value.1 == pos + 8 && r.value.0 == LeValue(s[pos..pos + 8])
  {
    if pos + 8 <= |s| then
      LeValue8(s[pos..pos + 8]);
      Some(((s[pos] as int) + (s[pos + 1] as int) * 0x100 + (s[pos + 2] as int) * 0x1_0000 + (s[pos + 3] as int) * 0x100_0000
            + (s[pos + 4] as int) * 0x1_0000_0000 + (s[pos + 5] as int) * 0x100_0000_0000
            + (s[pos + 6] as int) * 0x1_0000_0000_0000 + (s[pos + 7] as int) * 0x100_0000_0000_0000, pos + 8))
    else None
  }

  function ReadU64Be(s: seq<byte>, pos: nat): (r: Option<(u64, nat)>)
    ensures r.Some? <==> pos + 8 <= |s|
    ensures r.Some? ==> r.value.1 == pos + 8 && r.value.0 == BeValue(s[pos..pos + 8])
  {
    if pos + 8 <= |s| then
      var t := s[pos..pos + 8];
      BeIsLeOfReverse(t);
      LeValue8(Reverse(t));
      ReverseAt(t, 0); ReverseAt(t, 1); ReverseAt(t, 2); ReverseAt(t, 3);
      ReverseAt(t, 4); ReverseAt(t, 5); ReverseAt(t, 6); ReverseAt(t, 7);
      Some(((s[pos] as int) * 0x100_0000_0000_0000 + (s[pos + 1] as int) * 0x1_0000_0000_0000
            + (s[pos + 2] as int) * 0x100_0000_0000 + (s[pos + 3] as int) * 0x1_0000_0000
            + (s[pos + 4] as int) * 0x100_0000 + (s[pos + 5] as int) * 0x1_0000
            + (s[pos + 6] as int) * 0x100 + (s[pos + 7] as int), pos + 8))
    else None
  }

  /** `read_exact` into a buffer of n bytes; the floating-point reads are this
      with n = 4 or 8, the value kept as its bit pattern. */
  function ReadBytes(s: seq<byte>, pos: nat, n: nat): (r: Option<(seq<byte>, nat)>)
    ensures r.Some? <==> pos + n <= |s|
    ensures r.Some? ==> r.value == (s[pos..pos + n], pos + n)
  {
    if pos + n <= |s| then Some((s[pos..pos + n], pos + n)) else None
  }

  /** The msox reader's `read_u16_le_or_eof`: a clean end only when no byte is left. */
  function ReadU16LeOrEof(s: seq<byte>, pos: nat): (r: Peek<u16>)
    ensures r.AtEnd? <==> pos >= |s|
    ensures r.Got? <==> pos + 2 <= |s|
    ensures r.Got? ==> Some((r.value, r.next)) == ReadU16Le(s, pos)
  {
    if pos >= |s| then AtEnd
    else match ReadU16Le(s, pos)
      case Some((v, p)) => Got(v, p)
      case None => Short
  }

  /** The msox reader's `read_u32_le_or_eof`. */
  function ReadU32LeOrEof(s: seq<byte>, pos: nat): (r: Peek<u32>)
    ensures r.AtEnd? <==> pos >= |s|
    ensures r.Got? <==> pos + 4 <= |s|
    ensures r.Got? ==> Some((r.value, r.next)) == ReadU32Le(s, pos)
  {
    if pos >= |s| then AtEnd
    else match ReadU32Le(s, pos)
      case Some((v, p)) => Got(v, p)
      case None => Short
  }

  // ---------------------------------------------------------------------
  // Signed reads (binread.rs:18-45): `val as iN` reinterprets the bits.

  /** The two's-complement reading of an unsigned value v of modulus m = 2^w:
      the one value in [-m/2, m/2) that is congruent to v modulo m. */
  function TwosComplement(v: nat, m: nat): (r: int)
    requires m >= 2 && m % 2 == 0 && v < m
    ensures -(m / 2) <= r < m / 2
    ensures r == v || r == v - m
  {
    if v < m / 2 then v else v - m
  }

  /** No other value in the signed range is congruent to v, so the cast is determined. */
  lemma TwosComplementUnique(v: nat, m: nat, x: int)
    requires m >= 2 && m % 2 == 0 && v < m
    requires -(m / 2) <= x < m / 2 && (x == v || x == v - m)
    ensures x == TwosComplement(v, m)
  {
  }

  function ReadI8(s: seq<byte>, pos: nat): (r: Option<(i8, nat)>)
    ensures r.Some? <==> ReadU8(s, pos).Some?
    ensures r.Some? ==> r.value == (TwosComplement(ReadU8(s, pos).value.0, 0x100), pos + 1)
  {
    match ReadU8(s, pos)
    case Some((v, p)) => Some((TwosComplement(v, 0x100), p))
    case None => None
  }

  function ReadI16Le(s: seq<byte>, pos: nat): (r: Option<(i16, nat)>)
    ensures r.Some? <==> ReadU16Le(s, pos).Some?
    ensures r.Some? ==> r.value == (TwosComplement(ReadU16Le(s, pos).value.0, 0x1_0000), pos + 2)
  {
    match ReadU16Le(s, pos)
    case Some((v, p)) => Some((TwosComplement(v, 0x1_0000), p))
    case None => None
  }

  function ReadI16Be(s: seq<byte>, pos: nat): (r: Option<(i16, nat)>)
    ensures r.Some? <==> ReadU16Be(s, pos).Some?
    ensures r.Some? ==> r.value == (TwosComplement(ReadU16Be(s, pos).value.0, 0x1_0000), pos + 2)
  {
    match ReadU16Be(s, pos)
    case Some((v, p)) => Some((TwosComplement(v, 0x1_0000), p))
    case None => None
  }

  function ReadI32Le(s: seq<byte>, pos: nat): (r: Option<(i32, nat)>)
    ensures r.Some? <==> ReadU32Le(s, pos).Some?
    ensures r.Some? ==> r.value == (TwosComplement(ReadU32Le(s, pos).value.0, 0x1_0000_0000), pos + 4)
  {
    match ReadU32Le(s, pos)
    case Some((v, p)) => Some((TwosComplement(v, 0x1_0000_0000), p))
    case None => None
  }

  function ReadI32Be(s: seq<byte>, pos: nat): (r: Option<(i32, nat)>)
    ensures r.Some? <==> ReadU32Be(s, pos).Some?
    ensures r.Some? ==> r.value == (TwosComplement(ReadU32Be(s, pos).value.0, 0x1_0000_0000), pos + 4)
  {
    match ReadU32Be(s, pos)
    case Some((v, p)) => Some((TwosComplement(v, 0x1_0000_0000), p))
    case None => None
  }

  function ReadI64Le(s: seq<byte>, pos: nat): (r: Option<(i64, nat)>)
    ensures r.Some? <==> ReadU64Le(s, pos).Some?
    ensures r.Some? ==> r.value == (TwosComplement(ReadU64Le(s, pos).value.0, 0x1_0000_0000_0000_0000), pos + 8)
  {
    match ReadU64Le(s, pos)
    case Some((v, p)) => Some((TwosComplement(v, 0x1_0000_0000_0000_0000), p))
    case None => None
  }

  function ReadI64Be(s: seq<byte>, pos: nat): (r: Option<(i64, nat)>)
    ensures r.Some? <==> ReadU64Be(s, pos).Some?
    ensures r.Some? ==> r.value == (TwosComplement(ReadU64Be(s, pos).value.0, 0x1_0000_0000_0000_0000), pos + 8)
  {
    match ReadU64Be(s, pos)
    case Some((v, p)) => Some((TwosComplement(v, 0x1_0000_0000_0000_0000), p))
    case None => None
  }

  // ---------------------------------------------------------------------
  // Byte-order relations between the reads

  /** A big-endian read sees the same value as a little-endian read of the reversed bytes. */
  lemma ReadU32BeIsLeReversed(s: seq<byte>, pos: nat)
    requires pos + 4 <= |s|
    ensures ReadU32Be(s, pos).value.0 == ReadU32Le(Reverse(s[pos..pos + 4]), 0).value.0
  {
    var t := s[pos..pos + 4];
    BeIsLeOfReverse(t);
    assert Reverse(t)[0..4] == Reverse(t);
  }

  lemma ReadU64BeIsLeReversed(s: seq<byte>, pos: nat)
    requires pos + 8 <= |s|
    ensures ReadU64Be(s, pos).value.0 == ReadU64Le(Reverse(s[pos..pos + 8]), 0).value.0
  {
    var t := s[pos..pos + 8];
    BeIsLeOfReverse(t);
    assert Reverse(t)[0..8] == Reverse(t);
  }

  /** read_u64_le is the positional sum of its eight bytes and fits in 64 bits. */
  lemma ReadU64LeIsSum(s: seq<byte>, pos: nat)
    requires pos + 8 <= |s|
    ensures ReadU64Le(s, pos).value.0 == LeValue(s[pos..pos + 8]) < Pow256(8)
  {
    LeValueBound(s[pos..pos + 8]);
  }

  // ---------------------------------------------------------------------
  // Alignment (binread.rs:151-158)

  /** The number of padding bytes after `bytesRead` bytes: up to the next multiple of 4. */
  function PadLen(bytesRead: nat): (k: nat)
    ensures k <= 3 && (bytesRead + k) % 4 == 0
    ensures bytesRead % 4 == 0 <==> k == 0
  {
    if bytesRead % 4 == 0 then 0 else 4 - bytesRead % 4
  }

  /** An even byte count is a whole number of 16-bit words. */
  lemma EvenHalves(k: nat)
    ensures (2 * k) % 2 == 0 && (2 * k) / 2 == k
  {
  }

  /** No smaller skip reaches the alignment, so PadLen is the least one. */
  lemma PadLenLeast(bytesRead: nat, k: nat)
    requires (bytesRead + k) % 4 == 0
    ensures PadLen(bytesRead) <= k
  {
  }

  function PadTo4(s: seq<byte>, pos: nat, bytesRead: nat): (r: Option<nat>)
    ensures bytesRead % 4 == 0 ==> r == Some(pos)
    ensures r.Some? <==> (bytesRead % 4 == 0 || pos + PadLen(bytesRead) <= |s|)
    ensures r.Some? ==> pos <= r.value <= pos + 3 && (bytesRead + (r.value - pos)) % 4 == 0
  {
    if bytesRead % 4 == 0 then Some(pos)
    else
      var padCount := 4 - bytesRead % 4;
      if pos + padCount <= |s| then Some(pos + padCount) else None
  }

  /** With the padding bytes present, PadTo4 skips exactly PadLen of them. */
  lemma PadToLen(s: seq<byte>, pos: nat, bytesRead: nat)
    requires pos + PadLen(bytesRead) <= |s|
    ensures PadTo4(s, pos, bytesRead) == Some(pos + PadLen(bytesRead))
  {
  }

  // ---------------------------------------------------------------------
  // Writing little-endian values: the inverse of the reads above

  /** The n little-endian bytes of x (x modulo 256^n). */
  function LeBytes(x: nat, n: nat): (r: seq<byte>)
    ensures |r| == n
  {
    if n == 0 then [] else [x % 256] + LeBytes(x / 256, n - 1)
  }

  lemma {:induction false} LeValueOfLeBytes(x: nat, n: nat)
    requires x < Pow256(n)
    ensures LeValue(LeBytes(x, n)) == x
  {
    if n > 0 {
      LeValueOfLeBytes(x / 256, n - 1);
      assert LeBytes(x, n)[1..] == LeBytes(x / 256, n - 1);
    }
  }

  lemma {:induction false} LeBytesOfLeValue(t: seq<byte>)
    ensures LeBytes(LeValue(t), |t|) == t
  {
    if t != [] {
      LeBytesOfLeValue(t[1..]);
      assert LeValue(t) % 256 == t[0] && LeValue(t) / 256 == LeValue(t[1..]);
      assert t == [t[0]] + t[1..];
    }
  }

  /** A read at pos of a field written with LeBytes gives back the value. */
  lemma ReadsOfLeBytes(s: seq<byte>, pos: nat, x: nat, n: nat)
    requires x < Pow256(n) && pos + n <= |s| && s[pos..pos + n] == LeBytes(x, n)
    ensures n == 2 ==> ReadU16Le(s, pos) == Some((x, pos + 2))
    ensures n == 4 ==> ReadU32Le(s, pos) == Some((x, pos + 4))
    ensures n == 8 ==> ReadU64Le(s, pos) == Some((x, pos + 8))
  {
    LeValueOfLeBytes(x, n);
  }

  // ---------------------------------------------------------------------
  // Runs of 16-bit words: `read_u16_le` n times, or `chunks(2)` of a buffer

  /** The little-endian 16-bit words of a byte string, one per pair of bytes. */
  function Words(b: seq<byte>): (ws: seq<u16>)
    ensures |ws| == |b| / 2
  {
    seq(|b| / 2, k requires 0 <= k < |b| / 2 => (b[2 * k] as int) + 256 * (b[2 * k + 1] as int))
  }

  /** n words read one after the other from pos. */
  function WordsAt(s: seq<byte>, pos: nat, n: nat): (r: Option<(seq<u16>, nat)>)
    ensures r.Some? <==> pos + 2 * n <= |s|
    ensures r.Some? ==> r.value.1 == pos + 2 * n && |r.value.0| == n
  {
    if pos + 2 * n <= |s| then Some((Words(s[pos..pos + 2 * n]), pos + 2 * n)) else None
  }

  /** The loop `for _ in 0..n { words.push(read_u16_le()?) }`. */
  method ReadWords(s: seq<byte>, pos: nat, n: nat) returns (r: Option<(seq<u16>, nat)>)
    requires pos <= |s|
    ensures r == WordsAt(s, pos, n)
  {
    var ws: seq<u16> := [];
    var p := pos;
    var i := 0;
    while i < n
      invariant 0 <= i <= n && p == pos + 2 * i && p <= |s|
      invariant |ws| == i
      invariant forall k :: 0 <= k < i ==> ws[k] == (s[pos + 2 * k] as int) + 256 * (s[pos + 2 * k + 1] as int)
    {
      match ReadU16Le(s, p) {
        case None =>
          return None;
        case Some((w, q)) =>
          ws := ws + [w];
          p := q;
          i := i + 1;
      }
    }
    var b := s[pos..pos + 2 * n];
    assert forall k :: 0 <= k < n ==> b[2 * k] == s[pos + 2 * k] && b[2 * k + 1] == s[pos + 2 * k + 1];
    assert forall k :: 0 <= k < n ==> ws[k] == Words(b)[k];
    assert ws == Words(b);
    return Some((ws, p));
  }

  // ---------------------------------------------------------------------
  // Counted repetition: `for _ in 0..count { values.push(elem()?) }`

  /** n elements read one after another; the first failure is the result. */
  function ReadSeq<C(!new), T, E>(c: C, s: seq<byte>, pos: nat, n: nat,
                            elem: (C, seq<byte>, nat) -> Result<(T, nat), E>): (r: Result<(seq<T>, nat), E>)
    ensures r.Ok? ==> |r.value.0| == n
    decreases n
  {
    if n == 0 then Ok(([], pos))
    else match elem(c, s, pos)
      case Err(e) => Err(e)
      case Ok((x, p)) =>
        match ReadSeq(c, s, p, n - 1, elem)
        case Err(e) => Err(e)
        case Ok((xs, q)) => Ok(([x] + xs, q))
  }

  /** The result of reading more elements after xs have been read. */
  function Prepend<T, E>(xs: seq<T>, r: Result<(seq<T>, nat), E>): Result<(seq<T>, nat), E>
  {
    match r
    case Err(e) => Err(e)
    case Ok((ys, q)) => Ok((xs + ys, q))
  }

  /** Element i of a successful repetition is the element read where the first i end. */
  lemma {:induction false} ReadSeqAt<C(!new), T, E>(c: C, s: seq<byte>, pos: nat, n: nat,
                                               elem: (C, seq<byte>, nat) -> Result<(T, nat), E>, i: nat)
    requires ReadSeq(c, s, pos, n, elem).Ok? && i < n
    ensures ReadSeq(c, s, pos, i, elem).Ok?
    ensures var p := ReadSeq(c, s, pos, i, elem).value.1;
            elem(c, s, p).Ok? && elem(c, s, p).value.0 == ReadSeq(c, s, pos, n, elem).value.0[i]
    decreases i
  {
    if i > 0 {
      var p := elem(c, s, pos).value.1;
      ReadSeqAt(c, s, p, n - 1, elem, i - 1);
    }
  }

  /** The loop invariant of a repetition, established: nothing read yet. */
  lemma ReadSeqStart<C(!new), T, E>(c: C, s: seq<byte>, pos: nat, n: nat, elem: (C, seq<byte>, nat) -> Result<(T, nat), E>)
    ensures ReadSeq(c, s, pos, n, elem) == Prepend([], ReadSeq(c, s, pos, n, elem))
  {
    match ReadSeq(c, s, pos, n, elem)
    case Err(_) =>
    case Ok((ys, _)) => assert [] + ys == ys;
  }

  /** The loop invariant of a repetition, kept by one successful element. */
  lemma ReadSeqStep<C(!new), T, E>(c: C, s: seq<byte>, p: nat, m: nat, elem: (C, seq<byte>, nat) -> Result<(T, nat), E>,
                                   xs: seq<T>, x: T, q: nat)
    requires m > 0 && elem(c, s, p) == Ok((x, q))
    ensures Prepend(xs, ReadSeq(c, s, p, m, elem)) == Prepend(xs + [x], ReadSeq(c, s, q, m - 1, elem))
  {
    match ReadSeq(c, s, q, m - 1, elem)
    case Err(_) =>
    case Ok((ys, _)) => assert xs + ([x] + ys) == (xs + [x]) + ys;
  }

  /** A failing element fails the whole repetition with its error. */
  lemma ReadSeqFail<C(!new), T, E>(c: C, s: seq<byte>, p: nat, m: nat, elem: (C, seq<byte>, nat) -> Result<(T, nat), E>, xs: seq<T>)
    requires m > 0 && elem(c, s, p).Err?
    ensures Prepend(xs, ReadSeq(c, s, p, m, elem)) == Err(elem(c, s, p).error)
  {
  }

  /** The loop invariant of a repetition at its end: all elements are read. */
  lemma ReadSeqDone<C(!new), T, E>(c: C, s: seq<byte>, p: nat, elem: (C, seq<byte>, nat) -> Result<(T, nat), E>, xs: seq<T>)
    ensures Prepend(xs, ReadSeq(c, s, p, 0, elem)) == Ok((xs, p))
  {
    assert xs + [] == xs;
  }

  /** An element reader that never moves backwards. */
  ghost predicate Advancing<C(!new), T, E>(c: C, s: seq<byte>, elem: (C, seq<byte>, nat) -> Result<(T, nat), E>)
  {
    forall p: nat :: elem(c, s, p).Ok? ==> elem(c, s, p).value.1 >= p
  }

  /** Repeating a reader that never moves backwards never moves backwards. */
  lemma {:induction false} ReadSeqAdvances<C(!new), T, E>(c: C, s: seq<byte>, pos: nat, n: nat,
                                                     elem: (C, seq<byte>, nat) -> Result<(T, nat), E>)
    requires Advancing(c, s, elem)
    ensures ReadSeq(c, s, pos, n, elem).Ok? ==> ReadSeq(c, s, pos, n, elem).value.1 >= pos
    decreases n
  {
    if n > 0 && elem(c, s, pos).Ok? {
      ReadSeqAdvances(c, s, elem(c, s, pos).value.1, n - 1, elem);
    }
  }

  method ReadValues<C(!new), T, E>(c: C, s: seq<byte>, pos: nat, n: nat,
                             elem: (C, seq<byte>, nat) -> Result<(T, nat), E>) returns (r: Result<(seq<T>, nat), E>)
    ensures r == ReadSeq(c, s, pos, n, elem)
  {
    var xs: seq<T> := [];
    var p := pos;
    var left: nat := n;
    ReadSeqStart(c, s, pos, n, elem);
    while left > 0
      invariant left <= n
      invariant ReadSeq(c, s, pos, n, elem) == Prepend(xs, ReadSeq(c, s, p, left, elem))
    {
      match elem(c, s, p) {
        case Err(e) =>
          ReadSeqFail(c, s, p, left, elem, xs);
          return Err(e);
        case Ok((x, q)) =>
          ReadSeqStep(c, s, p, left, elem, xs, x, q);
          xs := xs + [x];
          p := q;
          left := left - 1;
      }
    }
    ReadSeqDone(c, s, p, elem, xs);
    return Ok((xs, p));
  }

}
