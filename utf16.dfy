/**
 * UTF-16 decoding as `String::from_utf16` performs it: a code unit outside the
 * surrogate range is one character, a high surrogate followed by a low one is
 * one supplementary character, and any other surrogate makes the decode fail.
 */
module Utf16 {
  import opened Wrappers
  import opened BinRead

  predicate IsHigh(w: u16) { 0xD800 <= w < 0xDC00 }
  predicate IsLow(w: u16) { 0xDC00 <= w < 0xE000 }
  predicate IsSurrogate(w: u16) { 0xD800 <= w < 0xE000 }

  /** A code-unit string is well formed when every surrogate is in a high-low pair. */
  predicate WellFormed(ws: seq<u16>)
    decreases |ws|
  {
    if ws == [] then true
    else if !IsSurrogate(ws[0]) then WellFormed(ws[1..])
    else IsHigh(ws[0]) && |ws| >= 2 && IsLow(ws[1]) && WellFormed(ws[2..])
  }

  function Pair(hi: u16, lo: u16): (c: char)
    requires IsHigh(hi) && IsLow(lo)
    ensures 0x10000 <= c as int <= 0x10FFFF
  {
    (0x10000 + (hi - 0xD800) * 0x400 + (lo - 0xDC00)) as char
  }

  function Cons(c: char, rest: Option<string>): (r: Option<string>)
    ensures r.Some? <==> rest.Some?
    ensures r.Some? ==> r.value == [c] + rest.value
  {
    match rest
    case Some(s) => Some([c] + s)
    case None => None
  }

  /** `String::from_utf16`. */
  function Decode(ws: seq<u16>): (r: Option<string>)
    decreases |ws|
  {
    if ws == [] then Some("")
    else if !IsSurrogate(ws[0]) then Cons(ws[0] as char, Decode(ws[1..]))
    else if IsHigh(ws[0]) && |ws| >= 2 && IsLow(ws[1]) then Cons(Pair(ws[0], ws[1]), Decode(ws[2..]))
    else None
  }

  /** The UTF-16 code units of one character. */
  function EncodeChar(c: char): (ws: seq<u16>)
    ensures 1 <= |ws| <= 2
  {
    if c as int < 0x10000 then [c as int]
    else
      var v := c as int - 0x10000;
      [0xD800 + v / 0x400, 0xDC00 + v % 0x400]
  }

  function Encode(s: string): (ws: seq<u16>)
  {
    if s == [] then [] else EncodeChar(s[0]) + Encode(s[1..])
  }

  /** Decoding fails exactly on the strings with an unpaired surrogate. */
  lemma {:induction false} DecodeSucceedsIffWellFormed(ws: seq<u16>)
    ensures Decode(ws).Some? <==> WellFormed(ws)
    decreases |ws|
  {
    if ws != [] {
      if !IsSurrogate(ws[0]) {
        DecodeSucceedsIffWellFormed(ws[1..]);
      } else if IsHigh(ws[0]) && |ws| >= 2 && IsLow(ws[1]) {
        DecodeSucceedsIffWellFormed(ws[2..]);
      }
    }
  }

  /** Decoding undoes encoding. */
  lemma {:induction false} DecodeEncode(s: string)
    ensures Decode(Encode(s)) == Some(s)
  {
    if s != [] {
      DecodeEncode(s[1..]);
      var c := s[0];
      var ws := Encode(s);
      assert ws == EncodeChar(c) + Encode(s[1..]);
      if c as int < 0x10000 {
        assert ws[1..] == Encode(s[1..]);
      } else {
        assert ws[2..] == Encode(s[1..]);
        assert Pair(ws[0], ws[1]) == c;
      }
      assert s == [c] + s[1..];
    }
  }

  /** Encoding undoes a successful decode, so from_utf16 is injective. */
  lemma {:induction false} EncodeDecode(ws: seq<u16>)
    requires Decode(ws).Some?
    ensures Encode(Decode(ws).value) == ws
    decreases |ws|
  {
    if ws != [] {
      var s := Decode(ws).value;
      if !IsSurrogate(ws[0]) {
        EncodeDecode(ws[1..]);
        assert s[1..] == Decode(ws[1..]).value;
        assert ws == [ws[0]] + ws[1..];
      } else {
        EncodeDecode(ws[2..]);
        assert s[1..] == Decode(ws[2..]).value;
        assert EncodeChar(s[0]) == ws[..2];
        assert ws == ws[..2] + ws[2..];
      }
    }
  }
}
