/**
 * Zero-padded hexadecimal formatting, as Rust's `{:0Nx}` and `{:0NX}` render an
 * unsigned integer: at least N digits, more if the value needs them.  Used by the
 * GUID display, the .msg stream names, the hexdump and the enum generator.
 */
module Hex {

  function Pow16(n: nat): (r: nat)
    ensures r >= 1
  {
    if n == 0 then 1 else 16 * Pow16(n - 1)
  }

  function Digit(d: nat, upper: bool): (c: char)
    requires d < 16
  {
    if d < 10 then ('0' as int + d) as char
    else if upper then ('A' as int + d - 10) as char
    else ('a' as int + d - 10) as char
  }

  /** The characters `{:X}` (upper) or `{:x}` (lower) may print. */
  predicate IsDigit(c: char, upper: bool)
  {
    ('0' <= c <= '9') || (upper && 'A' <= c <= 'F') || (!upper && 'a' <= c <= 'f')
  }

  function DigitValue(c: char): nat
  {
    if '0' <= c <= '9' then c as int - '0' as int
    else if 'A' <= c <= 'F' then c as int - 'A' as int + 10
    else if 'a' <= c <= 'f' then c as int - 'a' as int + 10
    else 0
  }

  /** The value a string of hexadecimal digits denotes, most significant first. */
  function Value(s: string): nat
  {
    if s == [] then 0 else Value(s[..|s| - 1]) * 16 + DigitValue(s[|s| - 1])
  }

  /** `format!("{:0width$X}", n)` (upper) or `{:0width$x}` (lower). */
  function Format(n: nat, width: nat, upper: bool): (r: string)
    requires width >= 1
    ensures |r| >= width
    ensures forall i :: 0 <= i < |r| ==> IsDigit(r[i], upper)
    decreases n + width
  {
    if n < 16 && width <= 1 then [Digit(n, upper)]
    else Format(n / 16, if width > 1 then width - 1 else 1, upper) + [Digit(n % 16, upper)]
  }

  /** A value that fits in `width` digits is printed in exactly `width` digits. */
  lemma {:induction false} FormatWidth(n: nat, width: nat, upper: bool)
    requires width >= 1 && n < Pow16(width)
    ensures |Format(n, width, upper)| == width
    decreases width
  {
    if width > 1 {
      FormatWidth(n / 16, width - 1, upper);
    }
  }

  /** Reading the digits back gives the value: formatting loses nothing. */
  lemma {:induction false} FormatValue(n: nat, width: nat, upper: bool)
    requires width >= 1
    ensures Value(Format(n, width, upper)) == n
    decreases n + width
  {
    var r := Format(n, width, upper);
    if n < 16 && width <= 1 {
      assert r[..0] == [];
    } else {
      var w' := if width > 1 then width - 1 else 1;
      FormatValue(n / 16, w', upper);
      assert r[..|r| - 1] == Format(n / 16, w', upper);
    }
  }

  /** Two values printed in the same case and width differ in print. */
  lemma FormatInjective(m: nat, n: nat, width: nat, upper: bool)
    requires width >= 1 && Format(m, width, upper) == Format(n, width, upper)
    ensures m == n
  {
    FormatValue(m, width, upper);
    FormatValue(n, width, upper);
  }
}
