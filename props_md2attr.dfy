// props_md2attr (props_md2attr/src/main.rs): builds the table of MAPI property ids
// from the paragraphs of the property reference document and from per-property
// Markdown pages, dropping repeated names and turning repeated ids into aliases.
// Paragraphs and pages arrive already matched against the program's patterns.

module PropsMd2Attr {
  import opened Wrappers
  import opened BinRead
  import Hex

  const PropertyPrefix: string := "Pid"

  datatype Property =
    | Defined(name: string, value: u16)
    | Aliased(name: string, target: string)

  /** The three collections of `PropertyCollection`, as a value. */
  datatype Table = Table(properties: seq<Property>, valueToName: map<u16, string>, knownNames: set<string>)

  function EmptyTable(): Table
  {
    Table([], map[], {})
  }

  ghost predicate NamesUnique(t: Table)
  {
    forall i, j :: 0 <= i < j < |t.properties| ==> t.properties[i].name != t.properties[j].name
  }

  ghost predicate NamesKnown(t: Table)
  {
    forall n :: n in t.knownNames <==> exists i :: 0 <= i < |t.properties| && t.properties[i].name == n
  }

  ghost predicate DefinedMapped(t: Table)
  {
    forall i :: 0 <= i < |t.properties| && t.properties[i].Defined? ==>
      t.properties[i].value in t.valueToName && t.valueToName[t.properties[i].value] == t.properties[i].name
  }

  ghost predicate MappedDefined(t: Table)
  {
    forall v :: v in t.valueToName ==> exists i :: 0 <= i < |t.properties| && t.properties[i] == Defined(t.valueToName[v], v)
  }

  ghost predicate AliasesTargeted(t: Table)
  {
    forall i :: 0 <= i < |t.properties| && t.properties[i].Aliased? ==> t.properties[i].target in t.valueToName.Values
  }

  /** Names in the list are unique and are exactly the known names; each id has one
      Defined entry, named by the id map; every alias points at a Defined name. */
  ghost predicate TableValid(t: Table)
  {
    NamesUnique(t) && NamesKnown(t) && DefinedMapped(t) && MappedDefined(t) && AliasesTargeted(t)
  }

  predicate StartsWithDigit(s: string)
  {
    |s| > 0 && '0' <= s[0] <= '9'
  }

  /** Enum variants may not start with a digit: such a key gets a leading '_'. */
  function EscapeKey(key: string): (r: string)
    ensures !StartsWithDigit(r)
    ensures StartsWithDigit(key) ==> r == "_" + key
    ensures !StartsWithDigit(key) ==> r == key
  {
    if StartsWithDigit(key) then "_" + key else key
  }

  /** `add_property` on the table as a value. */
  function Add(t: Table, key: string, value: u16): Table
  {
    var name := EscapeKey(key);
    if name in t.knownNames then t
    else if value in t.valueToName then
      Table(t.properties + [Aliased(name, t.valueToName[value])], t.valueToName, t.knownNames + {name})
    else
      Table(t.properties + [Defined(name, value)], t.valueToName[value := name], t.knownNames + {name})
  }

  /** `add_property` keeps the table valid. */
  lemma AddKeepsValid(t: Table, key: string, value: u16)
    requires TableValid(t)
    ensures TableValid(Add(t, key, value))
  {
    if EscapeKey(key) !in t.knownNames {
      AddKeepsNames(t, key, value);
      AddKeepsDefined(t, key, value);
      AddKeepsMapped(t, key, value);
      AddKeepsAliases(t, key, value);
    }
  }

  lemma AddKeepsNames(t: Table, key: string, value: u16)
    requires TableValid(t) && EscapeKey(key) !in t.knownNames
    ensures NamesUnique(Add(t, key, value)) && NamesKnown(Add(t, key, value))
  {
    var name := EscapeKey(key);
    var u := Add(t, key, value);
    var k := |t.properties|;
    assert forall i :: 0 <= i < k ==> u.properties[i] == t.properties[i];
    assert u.properties[k].name == name;
    forall i | 0 <= i < k
      ensures u.properties[i].name != name
    {
      assert t.properties[i].name in t.knownNames;
    }
    forall n | n in u.knownNames
      ensures exists i :: 0 <= i < |u.properties| && u.properties[i].name == n
    {
      if n == name {
        assert u.properties[k].name == n;
      } else {
        var i :| 0 <= i < |t.properties| && t.properties[i].name == n;
        assert u.properties[i].name == n;
      }
    }
  }

  lemma AddKeepsDefined(t: Table, key: string, value: u16)
    requires TableValid(t) && EscapeKey(key) !in t.knownNames
    ensures DefinedMapped(Add(t, key, value))
  {
    var u := Add(t, key, value);
    var k := |t.properties|;
    assert forall i :: 0 <= i < k ==> u.properties[i] == t.properties[i];
  }

  lemma AddKeepsMapped(t: Table, key: string, value: u16)
    requires TableValid(t) && EscapeKey(key) !in t.knownNames
    ensures MappedDefined(Add(t, key, value))
  {
    var u := Add(t, key, value);
    var k := |t.properties|;
    forall v | v in u.valueToName
      ensures exists i :: 0 <= i < |u.properties| && u.properties[i] == Defined(u.valueToName[v], v)
    {
      if v == value && value !in t.valueToName {
        assert u.properties[k] == Defined(u.valueToName[v], v);
      } else {
        var i :| 0 <= i < |t.properties| && t.properties[i] == Defined(t.valueToName[v], v);
        assert u.properties[i] == Defined(u.valueToName[v], v);
      }
    }
  }

  lemma AddKeepsAliases(t: Table, key: string, value: u16)
    requires TableValid(t) && EscapeKey(key) !in t.knownNames
    ensures AliasesTargeted(Add(t, key, value))
  {
    var u := Add(t, key, value);
    var k := |t.properties|;
    forall i | 0 <= i < |u.properties| && u.properties[i].Aliased?
      ensures u.properties[i].target in u.valueToName.Values
    {
      if i < k {
        assert u.properties[i] == t.properties[i];
        var v :| v in t.valueToName && t.valueToName[v] == t.properties[i].target;
        if value !in t.valueToName {
          assert v != value;
        }
        assert u.valueToName[v] == u.properties[i].target;
      } else {
        assert u.valueToName[value] == u.properties[i].target;
      }
    }
  }

  /** At most one Defined entry per id. */
  lemma OneDefinedPerValue(t: Table, i: nat, j: nat)
    requires TableValid(t)
    requires i < j < |t.properties| && t.properties[i].Defined? && t.properties[j].Defined?
    ensures t.properties[i].value != t.properties[j].value
  {
  }

  /** `PropertyCollection`. */
  class PropertyCollection {
    var properties: seq<Property>
    var knownValueToName: map<u16, string>
    var knownNames: set<string>

    function Snapshot(): Table
      reads this
    {
      Table(properties, knownValueToName, knownNames)
    }

    ghost predicate Valid()
      reads this
    {
      TableValid(Snapshot())
    }

    constructor ()
      ensures Valid() && Snapshot() == EmptyTable()
    {
      properties := [];
      knownValueToName := map[];
      knownNames := {};
    }

    /** `add_property`: a known name changes nothing; a new name becomes the Defined
        entry of an id not seen before, or an alias of the id's Defined name. */
    method AddProperty(key: string, value: u16)
      modifies this
      requires Valid()
      ensures Valid()
      ensures Snapshot() == Add(old(Snapshot()), key, value)
      ensures EscapeKey(key) in old(knownNames) ==> Snapshot() == old(Snapshot())
      ensures EscapeKey(key) !in old(knownNames) && value in old(knownValueToName) ==>
                && properties == old(properties) + [Aliased(EscapeKey(key), old(knownValueToName)[value])]
                && knownValueToName == old(knownValueToName)
                && knownNames == old(knownNames) + {EscapeKey(key)}
      ensures EscapeKey(key) !in old(knownNames) && value !in old(knownValueToName) ==>
                && properties == old(properties) + [Defined(EscapeKey(key), value)]
                && knownValueToName == old(knownValueToName)[value := EscapeKey(key)]
                && knownNames == old(knownNames) + {EscapeKey(key)}
    {
      AddKeepsValid(Snapshot(), key, value);
      var name := key;
      if StartsWithDigit(name) {
        name := "_" + name;
      }
      if name in knownNames {
        return;
      }
      knownNames := knownNames + {name};
      if value in knownValueToName {
        properties := properties + [Aliased(name, knownValueToName[value])];
      } else {
        knownValueToName := knownValueToName[value := name];
        properties := properties + [Defined(name, value)];
      }
    }
  }

  /** A run of `add_property` calls, first pair first. */
  function AddAll(t: Table, pairs: seq<(string, u16)>): Table
  {
    if pairs == [] then t else Add(AddAll(t, pairs[..|pairs| - 1]), pairs[|pairs| - 1].0, pairs[|pairs| - 1].1)
  }

  lemma {:induction false} AddAllKeepsValid(t: Table, pairs: seq<(string, u16)>)
    requires TableValid(t)
    ensures TableValid(AddAll(t, pairs))
  {
    if pairs != [] {
      AddAllKeepsValid(t, pairs[..|pairs| - 1]);
      AddKeepsValid(AddAll(t, pairs[..|pairs| - 1]), pairs[|pairs| - 1].0, pairs[|pairs| - 1].1);
    }
  }

  /** Later additions never change what is already in the table: the list only
      grows at its end, and an id keeps the name it was first defined with. */
  lemma {:induction false} AddAllExtends(t: Table, pairs: seq<(string, u16)>)
    ensures t.properties <= AddAll(t, pairs).properties
    ensures t.knownNames <= AddAll(t, pairs).knownNames
    ensures forall v :: v in t.valueToName ==> v in AddAll(t, pairs).valueToName && AddAll(t, pairs).valueToName[v] == t.valueToName[v]
  {
    if pairs != [] {
      AddAllExtends(t, pairs[..|pairs| - 1]);
    }
  }

  lemma {:induction false} AddAllSplit(t: Table, xs: seq<(string, u16)>, ys: seq<(string, u16)>)
    ensures AddAll(t, xs + ys) == AddAll(AddAll(t, xs), ys)
    decreases |ys|
  {
    if ys == [] {
      assert xs + ys == xs;
    } else {
      assert (xs + ys)[..|xs + ys| - 1] == xs + ys[..|ys| - 1];
      AddAllSplit(t, xs, ys[..|ys| - 1]);
    }
  }

  // ---------------------------------------------------------------------
  // Id values: `u16::from_str_radix(value, 16)` on the captured hex digits

  predicate IsHexDigit(c: char)
  {
    ('0' <= c <= '9') || ('A' <= c <= 'F') || ('a' <= c <= 'f')
  }

  /** The id written in hex, or None when the digits are not a u16. */
  function ParseHex16(digits: string): (r: Option<u16>)
    ensures r.Some? ==> Hex.Value(digits) == r.value
    ensures r.None? <==> digits == [] || (exists i :: 0 <= i < |digits| && !IsHexDigit(digits[i])) || Hex.Value(digits) >= 0x1_0000
  {
    if digits != [] && (forall i :: 0 <= i < |digits| ==> IsHexDigit(digits[i])) && Hex.Value(digits) < 0x1_0000
    then Some(Hex.Value(digits)) else None
  }

  /** An id printed as four hex digits parses back to itself. */
  lemma ParseOfFormat(v: u16)
    ensures ParseHex16(Hex.Format(v, 4, true)) == Some(v)
  {
    Hex.FormatValue(v, 4, true);
    Hex.FormatWidth(v, 4, true);
  }

  // ---------------------------------------------------------------------
  // `to_enum_variant`

  /** `    NAME = 0xVVVV,` and `    // NAME = TARGET`. */
  function ToEnumVariant(p: Property): string
  {
    match p
    case Defined(name, value) => "    " + name + " = 0x" + Hex.Format(value, 4, true) + ","
    case Aliased(name, target) => "    // " + name + " = " + target
  }

  /** A Defined line carries the name and exactly four uppercase hex digits that read
      back as the id. */
  lemma DefinedVariantLayout(name: string, value: u16)
    ensures var line := ToEnumVariant(Defined(name, value));
            && |line| == |name| + 14
            && line[..4] == "    " && line[4..4 + |name|] == name
            && line[4 + |name|..|name| + 9] == " = 0x"
            && Hex.Value(line[|name| + 9..|name| + 13]) == value
            && (forall i :: |name| + 9 <= i < |name| + 13 ==> Hex.IsDigit(line[i], true))
            && line[|line| - 1] == ','
  {
    var digits := Hex.Format(value, 4, true);
    Hex.FormatWidth(value, 4, true);
    Hex.FormatValue(value, 4, true);
    var line := ToEnumVariant(Defined(name, value));
    assert line == "    " + name + " = 0x" + digits + ",";
    assert line[|name| + 9..|name| + 13] == digits;
  }

  /** An alias line is a comment naming the alias and its target. */
  lemma AliasedVariantLayout(name: string, target: string)
    ensures var line := ToEnumVariant(Aliased(name, target));
            && line[..7] == "    // " && line[7..7 + |name|] == name
            && line[7 + |name|..10 + |name|] == " = " && line[10 + |name|..] == target
  {
    var line := ToEnumVariant(Aliased(name, target));
    assert line == "    // " + name + " = " + target;
  }

  // ---------------------------------------------------------------------
  // `add_docx_properties`

  /** A paragraph the document filter kept: a canonical-name line (its captured name)
      or a property-id line (its captured hex digits). */
  datatype DocxParagraph = NameLine(captured: string) | ValueLine(digits: string)

  /** The loop's `name` and `value`, and the pairs it has handed to `add_property`. */
  datatype Pairing = Pairing(name: Option<string>, value: Option<u16>, pairs: seq<(string, u16)>)

  function StripPrefix(s: string): (r: Option<string>)
    ensures r.Some? <==> PropertyPrefix <= s
    ensures r.Some? ==> s == PropertyPrefix + r.value
  {
    if PropertyPrefix <= s then Some(s[|PropertyPrefix|..]) else None
  }

  /** One paragraph: a name line commits the pending name if a value was seen, then
      becomes the pending name (or none, without the "Pid" prefix); a value line that
      parses replaces the value, which a commit does not reset. */
  function PairStep(p: Pairing, para: DocxParagraph): Pairing
  {
    match para
    case NameLine(captured) =>
      var pairs := if p.name.Some? && p.value.Some? then p.pairs + [(p.name.value, p.value.value)] else p.pairs;
      Pairing(StripPrefix(captured), p.value, pairs)
    case ValueLine(digits) =>
      match ParseHex16(digits)
      case None => p
      case Some(v) => p.(value := Some(v))
  }

  function PairScan(paras: seq<DocxParagraph>): Pairing
  {
    if paras == [] then Pairing(None, None, [])
    else PairStep(PairScan(paras[..|paras| - 1]), paras[|paras| - 1])
  }

  /** The pairs the loop adds, including the final commit after the last paragraph. */
  function DocxPairs(paras: seq<DocxParagraph>): seq<(string, u16)>
  {
    var p := PairScan(paras);
    if p.name.Some? && p.value.Some? then p.pairs + [(p.name.value, p.value.value)] else p.pairs
  }

  /** One paragraph of the loop, given the scan of the ones before it. */
  lemma ScanStep(paras: seq<DocxParagraph>, i: nat)
    requires i < |paras|
    ensures PairScan(paras[..i + 1]) == PairStep(PairScan(paras[..i]), paras[i])
  {
    assert paras[..i + 1][..i] == paras[..i];
  }

  /** Adding one more pair is one more `add_property`. */
  lemma AddAllSnoc(t: Table, pairs: seq<(string, u16)>, name: string, value: u16)
    ensures AddAll(t, pairs + [(name, value)]) == Add(AddAll(t, pairs), name, value)
  {
    assert (pairs + [(name, value)])[..|pairs|] == pairs;
  }

  method AddDocxProperties(paras: seq<DocxParagraph>, properties: PropertyCollection)
    modifies properties
    requires properties.Valid()
    ensures properties.Valid()
    ensures properties.Snapshot() == AddAll(old(properties.Snapshot()), DocxPairs(paras))
  {
    ghost var t0 := properties.Snapshot();
    var name: Option<string> := None;
    var value: Option<u16> := None;
    ghost var pairs: seq<(string, u16)> := [];
    for i := 0 to |paras|
      invariant properties.Valid()
      invariant PairScan(paras[..i]) == Pairing(name, value, pairs)
      invariant properties.Snapshot() == AddAll(t0, pairs)
    {
      ScanStep(paras, i);
      match paras[i] {
        case NameLine(captured) =>
          if name.Some? && value.Some? {
            properties.AddProperty(name.value, value.value);
            AddAllSnoc(t0, pairs, name.value, value.value);
            pairs := pairs + [(name.value, value.value)];
          }
          name := StripPrefix(captured);
        case ValueLine(digits) =>
          var parsed := ParseHex16(digits);
          if parsed.Some? {
            value := parsed;
          }
      }
    }
    assert paras[..|paras|] == paras;
    if name.Some? && value.Some? {
      properties.AddProperty(name.value, value.value);
      AddAllSnoc(t0, pairs, name.value, value.value);
    }
  }

  /** Some value line of the paragraphs parses to v. */
  ghost predicate ValueSeen(paras: seq<DocxParagraph>, v: u16)
  {
    exists d :: ValueLine(d) in paras && ParseHex16(d) == Some(v)
  }

  /** What the scan holds came from the paragraphs. */
  ghost predicate FromLines(paras: seq<DocxParagraph>, p: Pairing)
  {
    && (p.name.Some? ==> NameLine(PropertyPrefix + p.name.value) in paras)
    && (p.value.Some? ==> ValueSeen(paras, p.value.value))
    && (forall k :: 0 <= k < |p.pairs| ==> NameLine(PropertyPrefix + p.pairs[k].0) in paras)
    && (forall k :: 0 <= k < |p.pairs| ==> ValueSeen(paras, p.pairs[k].1))
  }

  /** Every pair added comes from a "Pid" name line, without the prefix, and from a
      value line. */
  lemma DocxPairsFromLines(paras: seq<DocxParagraph>)
    ensures forall k :: 0 <= k < |DocxPairs(paras)| ==> NameLine(PropertyPrefix + DocxPairs(paras)[k].0) in paras
    ensures forall k :: 0 <= k < |DocxPairs(paras)| ==> ValueSeen(paras, DocxPairs(paras)[k].1)
  {
    ScanFromLines(paras);
    var p := PairScan(paras);
    if p.name.Some? && p.value.Some? {
      CommitFromLines(paras, p);
    }
  }

  lemma CommitFromLines(paras: seq<DocxParagraph>, p: Pairing)
    requires FromLines(paras, p) && p.name.Some? && p.value.Some?
    ensures FromLines(paras, p.(pairs := p.pairs + [(p.name.value, p.value.value)]))
  {
    var q := p.(pairs := p.pairs + [(p.name.value, p.value.value)]);
    forall k | 0 <= k < |q.pairs|
      ensures NameLine(PropertyPrefix + q.pairs[k].0) in paras
      ensures ValueSeen(paras, q.pairs[k].1)
    {
      if k < |p.pairs| {
        assert q.pairs[k] == p.pairs[k];
      }
    }
  }

  lemma FromLinesGrow(paras: seq<DocxParagraph>, p: Pairing)
    requires paras != [] && FromLines(paras[..|paras| - 1], p)
    ensures FromLines(paras, p)
  {
    var q := paras[..|paras| - 1];
    assert paras == q + [paras[|paras| - 1]];
    forall v: u16 | ValueSeen(q, v)
      ensures ValueSeen(paras, v)
    {
      var d :| ValueLine(d) in q && ParseHex16(d) == Some(v);
      assert ValueLine(d) in paras;
    }
  }

  lemma {:induction false} ScanFromLines(paras: seq<DocxParagraph>)
    ensures FromLines(paras, PairScan(paras))
  {
    if paras != [] {
      var q := paras[..|paras| - 1];
      var last := paras[|paras| - 1];
      assert last in paras;
      ScanFromLines(q);
      var p := PairScan(q);
      FromLinesGrow(paras, p);
      if p.name.Some? && p.value.Some? {
        CommitFromLines(paras, p);
      }
      match last {
        case NameLine(captured) =>
          if PropertyPrefix <= captured {
            assert last == NameLine(PropertyPrefix + StripPrefix(captured).value);
          }
        case ValueLine(digits) =>
          assert ValueLine(digits) in paras;
          if ParseHex16(digits).Some? {
            assert ValueSeen(paras, ParseHex16(digits).value);
          }
      }
    }
  }

  /** Without a value line that parses, nothing is added. */
  lemma NoValueNoPairs(paras: seq<DocxParagraph>)
    requires forall d :: ValueLine(d) in paras ==> ParseHex16(d).None?
    ensures DocxPairs(paras) == []
  {
    NoValueScan(paras);
  }

  lemma {:induction false} NoValueScan(paras: seq<DocxParagraph>)
    requires forall d :: ValueLine(d) in paras ==> ParseHex16(d).None?
    ensures PairScan(paras).value.None? && PairScan(paras).pairs == []
  {
    if paras != [] {
      var q := paras[..|paras| - 1];
      assert paras == q + [paras[|paras| - 1]];
      assert paras[|paras| - 1] in paras;
      NoValueScan(q);
    }
  }

  /** A value line whose digits parse. */
  predicate ParsedValue(para: DocxParagraph)
  {
    para.ValueLine? && ParseHex16(para.digits).Some?
  }

  /** The scan keeps its value across paragraphs that are not parsed value lines. */
  lemma {:induction false} ValueKept(paras: seq<DocxParagraph>, a: nat, b: nat, v: u16)
    requires a <= b <= |paras| && PairScan(paras[..a]).value == Some(v)
    requires forall x :: a <= x < b ==> !ParsedValue(paras[x])
    ensures PairScan(paras[..b]).value == Some(v)
    decreases b - a
  {
    if a < b {
      ScanStep(paras, a);
      ValueKept(paras, a + 1, b, v);
    }
  }

  /** The scan keeps its name across value lines. */
  lemma {:induction false} NameKept(paras: seq<DocxParagraph>, a: nat, b: nat, n: string)
    requires a <= b <= |paras| && PairScan(paras[..a]).name == Some(n)
    requires forall x :: a <= x < b ==> paras[x].ValueLine?
    ensures PairScan(paras[..b]).name == Some(n)
    decreases b - a
  {
    if a < b {
      ScanStep(paras, a);
      NameKept(paras, a + 1, b, n);
    }
  }

  /** The pairs handed over only grow. */
  lemma {:induction false} PairsGrow(paras: seq<DocxParagraph>, a: nat, b: nat)
    requires a <= b <= |paras|
    ensures PairScan(paras[..a]).pairs <= PairScan(paras[..b]).pairs
    decreases b - a
  {
    if a < b {
      ScanStep(paras, a);
      PairsGrow(paras, a + 1, b);
    }
  }

  /** A pending name and value are handed over, at the next name line or at the end. */
  lemma CommitAt(paras: seq<DocxParagraph>, k: nat, n: string, v: u16)
    requires k <= |paras| && PairScan(paras[..k]).name == Some(n) && PairScan(paras[..k]).value == Some(v)
    requires k == |paras| || paras[k].NameLine?
    ensures (n, v) in DocxPairs(paras)
  {
    if k == |paras| {
      assert paras[..k] == paras;
    } else {
      var before := PairScan(paras[..k]).pairs;
      ScanStep(paras, k);
      assert PairScan(paras[..k + 1]).pairs == before + [(n, v)];
      PairsGrow(paras, k + 1, |paras|);
      assert paras[..|paras|] == paras;
      assert PairScan(paras).pairs[|before|] == (n, v);
    }
  }

  /** The value is not reset by a commit: a name line j gets the value of the last
      parsed value line i before it, even when names before j already took that value,
      provided no other value parses before the next name line k (or the end). */
  lemma ValueCarriesOver(paras: seq<DocxParagraph>, i: nat, j: nat, k: nat, n: string, v: u16)
    requires i < j < k <= |paras|
    requires paras[i].ValueLine? && ParseHex16(paras[i].digits) == Some(v)
    requires forall x :: i < x < k ==> !ParsedValue(paras[x])
    requires paras[j].NameLine? && StripPrefix(paras[j].captured) == Some(n)
    requires forall x :: j < x < k ==> paras[x].ValueLine?
    requires k == |paras| || paras[k].NameLine?
    ensures (n, v) in DocxPairs(paras)
  {
    ScanStep(paras, i);
    ValueKept(paras, i + 1, j, v);
    ScanStep(paras, j);
    ValueKept(paras, i + 1, k, v);
    NameKept(paras, j + 1, k, n);
    CommitAt(paras, k, n, v);
  }

  // ---------------------------------------------------------------------
  // `add_markdown_properties`

  /** A Markdown page whose file name starts with "pidtag": the name its heading
      pattern captured, if any, and the hex digits its id-row pattern captured, if any. */
  datatype MarkdownPage = MarkdownPage(name: Option<string>, digits: Option<string>)

  /** The pairs handed to `add_property` and whether the loop stopped at a page without
      a name (where the program panics). */
  function MarkdownPairs(pages: seq<MarkdownPage>): (seq<(string, u16)>, bool)
  {
    if pages == [] then ([], false)
    else
      var (pairs, stopped) := MarkdownPairs(pages[..|pages| - 1]);
      var page := pages[|pages| - 1];
      if stopped then (pairs, true)
      else if page.name.None? then (pairs, true)
      else
        var stripped := StripPrefix(page.name.value);
        if stripped.None? || page.digits.None? then (pairs, false)
        else
          match ParseHex16(page.digits.value)
          case Some(v) => (pairs + [(stripped.value, v)], false)
          case None => (pairs, false)
  }

  /** The loop of `add_markdown_properties`; false when it stopped at a page without
      a name. */
  method AddMarkdownProperties(pages: seq<MarkdownPage>, properties: PropertyCollection) returns (ok: bool)
    modifies properties
    requires properties.Valid()
    ensures properties.Valid()
    ensures properties.Snapshot() == AddAll(old(properties.Snapshot()), MarkdownPairs(pages).0)
    ensures ok == !MarkdownPairs(pages).1
  {
    ghost var t0 := properties.Snapshot();
    ghost var pairs: seq<(string, u16)> := [];
    for i := 0 to |pages|
      invariant properties.Valid()
      invariant MarkdownPairs(pages[..i]) == (pairs, false)
      invariant properties.Snapshot() == AddAll(t0, pairs)
    {
      assert pages[..i + 1][..i] == pages[..i];
      var page := pages[i];
      if page.name.None? {
        StoppedStays(pages, i + 1);
        return false;
      }
      var stripped := StripPrefix(page.name.value);
      if stripped.None? || page.digits.None? {
        continue;
      }
      var value := ParseHex16(page.digits.value);
      if value.None? {
        continue;
      }
      properties.AddProperty(stripped.value, value.value);
      assert (pairs + [(stripped.value, value.value)])[..|pairs|] == pairs;
      pairs := pairs + [(stripped.value, value.value)];
    }
    assert pages[..|pages|] == pages;
    return true;
  }

  /** Once stopped, the remaining pages are not looked at. */
  lemma {:induction false} StoppedStays(pages: seq<MarkdownPage>, i: nat)
    requires i <= |pages| && MarkdownPairs(pages[..i]).1
    ensures MarkdownPairs(pages) == MarkdownPairs(pages[..i])
    decreases |pages| - i
  {
    if i < |pages| {
      assert pages[..i + 1][..i] == pages[..i];
      StoppedStays(pages, i + 1);
    } else {
      assert pages[..i] == pages;
    }
  }

  // ---------------------------------------------------------------------
  // `run`: DOCX before Markdown

  /** The table `run` prints (before sorting), and whether it got that far. */
  function Collect(paras: seq<DocxParagraph>, pages: seq<MarkdownPage>): (Table, bool)
  {
    var (pairs, stopped) := MarkdownPairs(pages);
    (AddAll(EmptyTable(), DocxPairs(paras) + pairs), !stopped)
  }

  method Run(paras: seq<DocxParagraph>, pages: seq<MarkdownPage>) returns (t: Table, ok: bool)
    ensures (t, ok) == Collect(paras, pages)
  {
    var properties := new PropertyCollection();
    AddDocxProperties(paras, properties);
    ok := AddMarkdownProperties(pages, properties);
    t := properties.Snapshot();
    AddAllSplit(EmptyTable(), DocxPairs(paras), MarkdownPairs(pages).0);
  }

  /** The result is a valid table, and the document wins: every entry it produced is
      kept as it was, and every id it defined keeps the document's name. */
  lemma DocxWins(paras: seq<DocxParagraph>, pages: seq<MarkdownPage>)
    ensures TableValid(Collect(paras, pages).0)
    ensures var docx := AddAll(EmptyTable(), DocxPairs(paras));
            var all := Collect(paras, pages).0;
            && docx.properties <= all.properties
            && docx.knownNames <= all.knownNames
            && (forall v :: v in docx.valueToName ==> v in all.valueToName && all.valueToName[v] == docx.valueToName[v])
  {
    var docx := AddAll(EmptyTable(), DocxPairs(paras));
    AddAllSplit(EmptyTable(), DocxPairs(paras), MarkdownPairs(pages).0);
    AddAllKeepsValid(EmptyTable(), DocxPairs(paras) + MarkdownPairs(pages).0);
    AddAllExtends(docx, MarkdownPairs(pages).0);
  }
}
