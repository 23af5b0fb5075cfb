// The two pieces of logic in the `tnef2mime` program itself (tnef2mime/src/main.rs):
// `hexdump`, modelled as a producer of the lines it prints, and the attribute
// loop of `run`, modelled as a fold over the decoded attributes whose result is
// what the program writes out.

module HexDump {
  import opened BinRead
  import Hex

  /** The bytes the text column shows as themselves. */
  predicate Printable(b: byte)
  {
    (0x20 <= b <= 0x7E) || b >= 0xA0
  }

  /** A byte in the text column. */
  function Shown(b: byte): char
  {
    if Printable(b) then b as char else '.'
  }

  /** Column j of the hex part of the line at offset i: " xx" for a byte, three
      spaces past the end, and one more space after the eighth column. */
  function Cell(b: seq<byte>, i: nat, j: nat): (r: string)
    ensures |r| == (if j == 7 then 4 else 3)
  {
    (if i + j < |b| then Hex.FormatWidth(b[i + j], 2, false); " " + Hex.Format(b[i + j], 2, false) else "   ")
    + (if j == 7 then " " else "")
  }

  /** The first n columns of the hex part. */
  function Cells(b: seq<byte>, i: nat, n: nat): (r: string)
    ensures |r| == CellOffset(n)
  {
    if n == 0 then "" else Cells(b, i, n - 1) + Cell(b, i, n - 1)
  }

  /** The first n columns of the text part: present bytes only. */
  function Text(b: seq<byte>, i: nat, n: nat): string
  {
    if n == 0 then "" else Text(b, i, n - 1) + (if i + n - 1 < |b| then [Shown(b[i + n - 1])] else "")
  }

  /** The line printed for the sixteen bytes from offset i, without its line break. */
  function Line(b: seq<byte>, prefix: string, i: nat): string
  {
    prefix + Hex.Format(i, 8, false) + Cells(b, i, 16) + " |" + Text(b, i, 16) + "|"
  }

  function LineCount(n: nat): nat
  {
    (n + 15) / 16
  }

  /** Every line `hexdump` prints, in order. */
  function DumpLines(b: seq<byte>, prefix: string): seq<string>
  {
    seq(LineCount(|b|), k requires 0 <= k < LineCount(|b|) => Line(b, prefix, 16 * k))
  }

  /** Where column j of the hex part starts. */
  function CellOffset(j: nat): nat
  {
    3 * j + (if j >= 8 then 1 else 0)
  }

  /** The characters of column j, without the extra space after the eighth. */
  function CellText(b: seq<byte>, i: nat, j: nat): string
  {
    if i + j < |b| then " " + Hex.Format(b[i + j], 2, false) else "   "
  }

  /** The first inner loop of `hexdump`: the hex columns of one line. */
  method HexColumns(bytes: seq<byte>, i: nat) returns (cols: string)
    ensures cols == Cells(bytes, i, 16)
  {
    cols := "";
    for j := 0 to 16
      invariant cols == Cells(bytes, i, j)
    {
      if i + j < |bytes| {
        cols := cols + " " + Hex.Format(bytes[i + j], 2, false);
      } else {
        cols := cols + "   ";
      }
      if j == 7 {
        cols := cols + " ";
      }
    }
  }

  /** The second inner loop of `hexdump`: the text column of one line. */
  method TextColumn(bytes: seq<byte>, i: nat) returns (text: string)
    ensures text == Text(bytes, i, 16)
  {
    text := "";
    for j := 0 to 16
      invariant text == Text(bytes, i, j)
    {
      if i + j < |bytes| {
        text := text + [Shown(bytes[i + j])];
      }
    }
  }

  /** `hexdump`: one line per started block of sixteen bytes. */
  method Hexdump(bytes: seq<byte>, prefix: string) returns (lines: seq<string>)
    ensures lines == DumpLines(bytes, prefix)
  {
    lines := [];
    var i: nat := 0;
    while i < |bytes|
      invariant i == 16 * |lines| && |lines| <= LineCount(|bytes|)
      invariant forall k :: 0 <= k < |lines| ==> lines[k] == Line(bytes, prefix, 16 * k)
      decreases |bytes| - i
    {
      var cols := HexColumns(bytes, i);
      var text := TextColumn(bytes, i);
      lines := lines + [prefix + Hex.Format(i, 8, false) + cols + " |" + text + "|"];
      i := i + 16;
    }
  }

  // ---------------------------------------------------------------------
  // The layout of the lines

  /** ⌈len/16⌉ lines: enough to cover every byte, and none that starts past the end. */
  lemma LineCountCovers(b: seq<byte>, prefix: string)
    ensures 16 * |DumpLines(b, prefix)| >= |b|
    ensures forall k :: 0 <= k < |DumpLines(b, prefix)| ==> 16 * k < |b|
    ensures |DumpLines(b, prefix)| == 0 <==> b == []
  {
  }

  lemma {:induction false} CellsPrefix(b: seq<byte>, i: nat, m: nat, n: nat)
    requires m <= n
    ensures Cells(b, i, n)[..CellOffset(m)] == Cells(b, i, m)
    decreases n
  {
    if m < n {
      CellsPrefix(b, i, m, n - 1);
      assert Cells(b, i, n)[..CellOffset(n - 1)] == Cells(b, i, n - 1);
    }
  }

  /** Column j of the hex part holds " xx" for a present byte and three spaces
      for an absent one. */
  lemma CellsAt(b: seq<byte>, i: nat, j: nat)
    requires j < 16
    ensures Cells(b, i, 16)[CellOffset(j)..CellOffset(j) + 3] == CellText(b, i, j)
  {
    CellsPrefix(b, i, j + 1, 16);
    var x := Cells(b, i, 16);
    assert x[CellOffset(j)..CellOffset(j) + 3] == x[..CellOffset(j + 1)][CellOffset(j)..CellOffset(j) + 3];
  }

  /** One extra space follows the eighth column. */
  lemma CellsGap(b: seq<byte>, i: nat)
    ensures Cells(b, i, 16)[CellOffset(8) - 1] == ' '
  {
    CellsPrefix(b, i, 8, 16);
    var x := Cells(b, i, 16);
    assert x[CellOffset(8) - 1] == x[..CellOffset(8)][CellOffset(8) - 1];
  }

  /** The text column holds exactly the bytes present from offset i, each as `Shown`. */
  lemma {:induction false} TextAt(b: seq<byte>, i: nat, n: nat)
    ensures |Text(b, i, n)| == (if i >= |b| then 0 else if n < |b| - i then n else |b| - i)
    ensures forall j :: 0 <= j < |Text(b, i, n)| ==> Text(b, i, n)[j] == Shown(b[i + j])
  {
    if n > 0 {
      TextAt(b, i, n - 1);
    }
  }

  /** Line k of the dump: the prefix, the offset 16k in (at least) eight lowercase hex
      digits, the hex columns, " |", the text column, and a closing "|". */
  lemma LineLayout(b: seq<byte>, prefix: string, k: nat)
    requires k < |DumpLines(b, prefix)|
    ensures var line := DumpLines(b, prefix)[k];
            var offset := Hex.Format(16 * k, 8, false);
            var text := |prefix| + |offset| + CellOffset(16) + 2;
            && line[..|prefix|] == prefix
            && line[|prefix|..|prefix| + |offset|] == offset
            && Hex.Value(offset) == 16 * k
            && line[|prefix| + |offset|..text] == Cells(b, 16 * k, 16) + " |"
            && line[text..|line| - 1] == Text(b, 16 * k, 16)
            && line[|line| - 1] == '|'
  {
    var offset := Hex.Format(16 * k, 8, false);
    Hex.FormatValue(16 * k, 8, false);
    var line := DumpLines(b, prefix)[k];
    var cells := Cells(b, 16 * k, 16) + " |";
    var text := Text(b, 16 * k, 16);
    assert line == prefix + offset + cells + text + "|";
    assert line[..|prefix|] == prefix;
    assert line[|prefix|..|prefix| + |offset|] == offset;
    assert line[|prefix| + |offset|..|prefix| + |offset| + |cells|] == cells;
  }
}

module Tnef2Mime {
  import opened Wrappers
  import opened BinRead
  import opened Msox
  import opened Tnef
  import opened TnefProps
  import HexDump

  /** The attribute ids and property tags `run` looks for. Their numeric values come
      from generated tables, so they are parameters of the model. */
  datatype Ids = Ids(
    oemCodepage: u32, msgProps: u32, attachment: u32,
    attachDataBinary: u16, transportMessageHeaders: u16, bodyHtml: u16)

  /** `codepage::to_encoding`: the decoder for a codepage id, if there is one. */
  type ToEncoding = u16 -> Option<Decode8>

  /** What `run` has gathered so far: the current string decoder, the last transport
      headers and HTML body seen, the bytes written to attachment.bin, and the data of
      every attribute it hexdumped. */
  datatype Gathered = Gathered(
    encoder: Decode8,
    headers: Option<string>,
    body: Option<seq<byte>>,
    attachment: Option<seq<byte>>,
    dumped: seq<seq<byte>>)

  /** What `run` leaves behind: attachment.bin, email.eml as (headers, body), and the
      hexdumps it printed. */
  datatype Output = Output(attachment: Option<seq<byte>>, email: Option<(string, seq<byte>)>, dumps: seq<seq<string>>)

  datatype RunError =
    | TnefFailed(TnefError)        // `read_tnef(...).expect(...)` panics
    | ShortAttachment              // `&val[16..]` on an Object of fewer than 16 bytes panics
    | UnknownPropertyType(typeCode: u16)  // `decode_property` panics on a type code it does not know

  /** `data[0] << 0 | data[1] << 8`: the two bytes do not overlap, so the or is a sum. */
  function CodepageId(data: seq<byte>): u16
    requires |data| >= 2
  {
    data[0] as int + (data[1] as int) * 0x100
  }

  /** The codepage id is the little-endian u16 at the start of the data. */
  lemma CodepageIdIsLe(data: seq<byte>)
    requires |data| >= 2
    ensures ReadU16Le(data, 0) == Some((CodepageId(data), 2))
  {
  }

  /** `trim_end_matches('\0')`. */
  function TrimNul(s: string): (r: string)
    ensures r <= s
    ensures r == [] || r[|r| - 1] != '\0'
    ensures forall i :: |r| <= i < |s| ==> s[i] == '\0'
  {
    if s != [] && s[|s| - 1] == '\0' then TrimNul(s[..|s| - 1]) else s
  }

  /** Trimming what is already trimmed changes nothing. */
  lemma TrimNulIdempotent(s: string)
    ensures TrimNul(TrimNul(s)) == TrimNul(s)
  {
  }

  /** The effect of one decoded property on what `run` gathers. */
  function ApplyProperty(ids: Ids, g: Gathered, p: Property): Result<Gathered, RunError>
  {
    if p.tag == ids.attachDataBinary then
      match p.value
      case Object(val) => if |val| < 16 then Err(ShortAttachment) else Ok(g.(attachment := Some(val[16..])))
      case _ => Ok(g)
    else if p.tag == ids.transportMessageHeaders then
      match p.value
      case String8(h) => Ok(g.(headers := Some(TrimNul(h))))
      case _ => Ok(g)
    else if p.tag == ids.bodyHtml then
      match p.value
      case Binary(b) => Ok(g.(body := Some(b)))
      case _ => Ok(g)
    else Ok(g)
  }

  /** The property loop of `run`, over the first properties first. */
  function ApplyProperties(ids: Ids, g: Gathered, props: seq<Property>): Result<Gathered, RunError>
  {
    if props == [] then Ok(g)
    else
      match ApplyProperties(ids, g, props[..|props| - 1])
      case Err(e) => Err(e)
      case Ok(h) => ApplyProperty(ids, h, props[|props| - 1])
  }

  /** The effect of one attribute: an OemCodepage attribute of at least two bytes may
      switch the decoder, a message or attachment property block is decoded with the
      current decoder (and hexdumped if that fails, unless it failed on an unknown
      property type, where the program panics), and anything else is hexdumped. */
  function ApplyAttribute(ids: Ids, toEncoding: ToEncoding, g: Gathered, a: Attribute): Result<Gathered, RunError>
  {
    if a.id == ids.oemCodepage && |a.data| >= 2 then
      match toEncoding(CodepageId(a.data))
      case Some(e) => Ok(g.(encoder := e))
      case None => Ok(g)
    else if a.id == ids.msgProps || a.id == ids.attachment then
      match PropertiesAt(g.encoder, a.data, 0)
      case Ok((props, _)) => ApplyProperties(ids, g, props)
      case Err(UnknownType(code)) => Err(UnknownPropertyType(code))
      case Err(_) => Ok(g.(dumped := g.dumped + [a.data]))
    else Ok(g.(dumped := g.dumped + [a.data]))
  }

  /** The attribute loop of `run`, over the first attributes first. */
  function ApplyAttributes(ids: Ids, toEncoding: ToEncoding, g: Gathered, attrs: seq<Attribute>): Result<Gathered, RunError>
  {
    if attrs == [] then Ok(g)
    else
      match ApplyAttributes(ids, toEncoding, g, attrs[..|attrs| - 1])
      case Err(e) => Err(e)
      case Ok(h) => ApplyAttribute(ids, toEncoding, h, attrs[|attrs| - 1])
  }

  /** email.eml is written only when both the headers and the body were found. */
  function Finish(g: Gathered): Output
  {
    Output(
      g.attachment,
      if g.headers.Some? && g.body.Some? then Some((g.headers.value, g.body.value)) else None,
      seq(|g.dumped|, i requires 0 <= i < |g.dumped| => HexDump.DumpLines(g.dumped[i], "    ")))
  }

  /** `run` on the bytes of the message file, starting with the UTF-8 decoder. */
  function RunSpec(ids: Ids, toEncoding: ToEncoding, utf8: Decode8, buf: seq<byte>): Result<Output, RunError>
  {
    match ReadTnefSpec(buf)
    case Err(e) => Err(TnefFailed(e))
    case Ok(f) =>
      match ApplyAttributes(ids, toEncoding, Gathered(utf8, None, None, None, []), f.attributes)
      case Err(e) => Err(e)
      case Ok(g) => Ok(Finish(g))
  }

  // ---------------------------------------------------------------------
  // The loops

  /** Once the property loop has failed, the rest of the properties do not matter. */
  lemma {:induction false} PropertiesFailFast(ids: Ids, g: Gathered, props: seq<Property>, j: nat)
    requires j <= |props| && ApplyProperties(ids, g, props[..j]).Err?
    ensures ApplyProperties(ids, g, props) == ApplyProperties(ids, g, props[..j])
    decreases |props| - j
  {
    if j < |props| {
      assert props[..j + 1][..j] == props[..j];
      PropertiesFailFast(ids, g, props, j + 1);
    } else {
      assert props[..j] == props;
    }
  }

  method GatherProperties(ids: Ids, g0: Gathered, props: seq<Property>) returns (r: Result<Gathered, RunError>)
    ensures r == ApplyProperties(ids, g0, props)
  {
    var g := g0;
    for j := 0 to |props|
      invariant ApplyProperties(ids, g0, props[..j]) == Ok(g)
    {
      assert props[..j + 1][..j] == props[..j];
      var p := props[j];
      if p.tag == ids.attachDataBinary {
        match p.value {
          case Object(val) =>
            if |val| < 16 {
              PropertiesFailFast(ids, g0, props, j + 1);
              return Err(ShortAttachment);
            }
            g := g.(attachment := Some(val[16..]));
          case _ =>
        }
      } else if p.tag == ids.transportMessageHeaders {
        match p.value {
          case String8(h) => g := g.(headers := Some(TrimNul(h)));
          case _ =>
        }
      } else if p.tag == ids.bodyHtml {
        match p.value {
          case Binary(b) => g := g.(body := Some(b));
          case _ =>
        }
      }
    }
    assert props[..|props|] == props;
    return Ok(g);
  }

  /** One pass of the attribute loop of `run`. */
  method GatherAttribute(ids: Ids, toEncoding: ToEncoding, g: Gathered, a: Attribute) returns (r: Result<Gathered, RunError>)
    ensures r == ApplyAttribute(ids, toEncoding, g, a)
  {
    if a.id == ids.oemCodepage && |a.data| >= 2 {
      var codepageId := CodepageId(a.data);
      match toEncoding(codepageId) {
        case Some(e) => return Ok(g.(encoder := e));
        case None => return Ok(g);
      }
    } else if a.id == ids.msgProps || a.id == ids.attachment {
      var props := DecodeProperties(g.encoder, a.data, 0);
      match props {
        case Ok((ps, _)) =>
          r := GatherProperties(ids, g, ps);
        case Err(UnknownType(code)) =>
          return Err(UnknownPropertyType(code));
        case Err(_) =>
          return Ok(g.(dumped := g.dumped + [a.data]));
      }
    } else {
      return Ok(g.(dumped := g.dumped + [a.data]));
    }
  }

  lemma {:induction false} AttributesFailFast(ids: Ids, toEncoding: ToEncoding, g: Gathered, attrs: seq<Attribute>, k: nat)
    requires k <= |attrs| && ApplyAttributes(ids, toEncoding, g, attrs[..k]).Err?
    ensures ApplyAttributes(ids, toEncoding, g, attrs) == ApplyAttributes(ids, toEncoding, g, attrs[..k])
    decreases |attrs| - k
  {
    if k < |attrs| {
      assert attrs[..k + 1][..k] == attrs[..k];
      AttributesFailFast(ids, toEncoding, g, attrs, k + 1);
    } else {
      assert attrs[..k] == attrs;
    }
  }

  /** The attribute loop of `run`. */
  method GatherAttributes(ids: Ids, toEncoding: ToEncoding, g0: Gathered, attrs: seq<Attribute>) returns (r: Result<Gathered, RunError>)
    ensures r == ApplyAttributes(ids, toEncoding, g0, attrs)
  {
    var g := g0;
    for k := 0 to |attrs|
      invariant ApplyAttributes(ids, toEncoding, g0, attrs[..k]) == Ok(g)
    {
      assert attrs[..k + 1][..k] == attrs[..k];
      var next := GatherAttribute(ids, toEncoding, g, attrs[k]);
      if next.Err? {
        AttributesFailFast(ids, toEncoding, g0, attrs, k + 1);
        return Err(next.error);
      }
      g := next.value;
    }
    assert attrs[..|attrs|] == attrs;
    return Ok(g);
  }

  /** `run`, after the command line and the file read. */
  method Run(ids: Ids, toEncoding: ToEncoding, utf8: Decode8, buf: seq<byte>) returns (r: Result<Output, RunError>)
    ensures r == RunSpec(ids, toEncoding, utf8, buf)
  {
    var tnef := ReadTnef(buf);
    if tnef.Err? {
      return Err(TnefFailed(tnef.error));
    }
    var gathered := GatherAttributes(ids, toEncoding, Gathered(utf8, None, None, None, []), tnef.value.attributes);
    if gathered.Err? {
      return Err(gathered.error);
    }
    var g := gathered.value;
    var dumps := DumpAll(g.dumped);
    var email: Option<(string, seq<byte>)> := None;
    if g.headers.Some? {
      if g.body.Some? {
        email := Some((g.headers.value, g.body.value));
      }
    }
    assert Output(g.attachment, email, dumps) == Finish(g);
    return Ok(Output(g.attachment, email, dumps));
  }

  /** The hexdumps of the attributes `run` did not decode, in order. */
  method DumpAll(dumped: seq<seq<byte>>) returns (dumps: seq<seq<string>>)
    ensures |dumps| == |dumped|
    ensures forall n :: 0 <= n < |dumped| ==> dumps[n] == HexDump.DumpLines(dumped[n], "    ")
  {
    dumps := [];
    for i := 0 to |dumped|
      invariant |dumps| == i
      invariant forall n :: 0 <= n < i ==> dumps[n] == HexDump.DumpLines(dumped[n], "    ")
    {
      var lines := HexDump.Hexdump(dumped[i], "    ");
      dumps := dumps + [lines];
    }
  }

  // ---------------------------------------------------------------------
  // Properties of `run`

  /** Headers are kept without their trailing NULs. */
  predicate HeadersTrimmed(g: Gathered)
  {
    g.headers.Some? ==> var h := g.headers.value; h == [] || h[|h| - 1] != '\0'
  }

  lemma {:induction false} PropertiesKeepTrimmed(ids: Ids, g: Gathered, props: seq<Property>)
    requires HeadersTrimmed(g)
    ensures ApplyProperties(ids, g, props).Ok? ==> HeadersTrimmed(ApplyProperties(ids, g, props).value)
    ensures ApplyProperties(ids, g, props).Ok? ==> ApplyProperties(ids, g, props).value.encoder == g.encoder
    ensures ApplyProperties(ids, g, props).Ok? ==> ApplyProperties(ids, g, props).value.dumped == g.dumped
  {
    if props != [] {
      PropertiesKeepTrimmed(ids, g, props[..|props| - 1]);
    }
  }

  lemma {:induction false} AttributesKeepTrimmed(ids: Ids, toEncoding: ToEncoding, g: Gathered, attrs: seq<Attribute>)
    requires HeadersTrimmed(g)
    ensures ApplyAttributes(ids, toEncoding, g, attrs).Ok? ==> HeadersTrimmed(ApplyAttributes(ids, toEncoding, g, attrs).value)
  {
    if attrs != [] {
      AttributesKeepTrimmed(ids, toEncoding, g, attrs[..|attrs| - 1]);
      match ApplyAttributes(ids, toEncoding, g, attrs[..|attrs| - 1]) {
        case Err(_) =>
        case Ok(h) =>
          var a := attrs[|attrs| - 1];
          if !(a.id == ids.oemCodepage && |a.data| >= 2) && (a.id == ids.msgProps || a.id == ids.attachment) {
            match PropertiesAt(h.encoder, a.data, 0) {
              case Err(_) =>
              case Ok((props, _)) => PropertiesKeepTrimmed(ids, h, props);
            }
          }
      }
    }
  }

  /** email.eml appears exactly when headers and a body were both found, and its
      headers never end in a NUL. */
  lemma EmailNeedsBoth(ids: Ids, toEncoding: ToEncoding, utf8: Decode8, buf: seq<byte>)
    requires RunSpec(ids, toEncoding, utf8, buf).Ok?
    ensures var f := ReadTnefSpec(buf).value;
            var g := ApplyAttributes(ids, toEncoding, Gathered(utf8, None, None, None, []), f.attributes).value;
            && (RunSpec(ids, toEncoding, utf8, buf).value.email.Some? <==> g.headers.Some? && g.body.Some?)
            && (RunSpec(ids, toEncoding, utf8, buf).value.email.Some? ==>
                  var h := RunSpec(ids, toEncoding, utf8, buf).value.email.value.0; h == [] || h[|h| - 1] != '\0')
  {
    var f := ReadTnefSpec(buf).value;
    AttributesKeepTrimmed(ids, toEncoding, Gathered(utf8, None, None, None, []), f.attributes);
  }

  /** An OemCodepage attribute with at least two bytes only ever changes the decoder,
      and keeps the previous one when its codepage is unknown. */
  lemma CodepageSwitch(ids: Ids, toEncoding: ToEncoding, g: Gathered, a: Attribute)
    requires a.id == ids.oemCodepage && |a.data| >= 2
    ensures toEncoding(a.data[0] as int + 256 * (a.data[1] as int)).None? ==> ApplyAttribute(ids, toEncoding, g, a) == Ok(g)
    ensures toEncoding(a.data[0] as int + 256 * (a.data[1] as int)).Some? ==>
              ApplyAttribute(ids, toEncoding, g, a) == Ok(g.(encoder := toEncoding(a.data[0] as int + 256 * (a.data[1] as int)).value))
  {
  }

  /** A shorter OemCodepage attribute is not a codepage switch: unless its id is also
      a property block id, it is hexdumped. */
  lemma ShortCodepageDumped(ids: Ids, toEncoding: ToEncoding, g: Gathered, a: Attribute)
    requires a.id == ids.oemCodepage && |a.data| < 2
    requires a.id != ids.msgProps && a.id != ids.attachment
    ensures ApplyAttribute(ids, toEncoding, g, a) == Ok(g.(dumped := g.dumped + [a.data]))
  {
  }

  /** A property of an unknown type in a message or attachment property block ends
      `run`: the attributes after it are not looked at and nothing is written. */
  lemma {:induction false} UnknownTypeAborts(ids: Ids, toEncoding: ToEncoding, utf8: Decode8, buf: seq<byte>, k: nat, code: u16)
    requires ReadTnefSpec(buf).Ok? && k < |ReadTnefSpec(buf).value.attributes|
    requires var attrs := ReadTnefSpec(buf).value.attributes;
             var a := attrs[k];
             var prior := ApplyAttributes(ids, toEncoding, Gathered(utf8, None, None, None, []), attrs[..k]);
             && prior.Ok?
             && !(a.id == ids.oemCodepage && |a.data| >= 2)
             && (a.id == ids.msgProps || a.id == ids.attachment)
             && PropertiesAt(prior.value.encoder, a.data, 0) == Err(UnknownType(code))
    ensures RunSpec(ids, toEncoding, utf8, buf) == Err(UnknownPropertyType(code))
  {
    var attrs := ReadTnefSpec(buf).value.attributes;
    var g0 := Gathered(utf8, None, None, None, []);
    assert attrs[..k + 1][..k] == attrs[..k];
    assert ApplyAttributes(ids, toEncoding, g0, attrs[..k + 1]) == Err(UnknownPropertyType(code));
    AttributesFailFast(ids, toEncoding, g0, attrs, k + 1);
  }
}
