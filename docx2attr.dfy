// docx2attr_common (docx2attr_common/src/lib.rs): the paragraph collector that walks
// the XML events of a Word document body, and the helper that turns a dotted byte
// string into its little-endian digit string. The XML events arrive already
// parsed and namespace-resolved.

module Docx2Attr {
  import opened Wrappers
  import opened BinRead

  // ---------------------------------------------------------------------
  // `byte_string_to_le_int_string`

  /** `split('.')`: the pieces between the dots, empty ones included. */
  function Split(s: string): (r: seq<string>)
    ensures |r| >= 1
    ensures forall k :: 0 <= k < |r| ==> '.' !in r[k]
  {
    if s == [] then [[]]
    else
      var rest := Split(s[1..]);
      if s[0] == '.' then [[]] + rest else [[s[0]] + rest[0]] + rest[1..]
  }

  /** The pieces with a dot between each two: the inverse of `Split`. */
  function JoinDots(ps: seq<string>): string
    requires |ps| >= 1
  {
    if |ps| == 1 then ps[0] else ps[0] + "." + JoinDots(ps[1..])
  }

  /** `concat`. */
  function Concat(ps: seq<string>): string
  {
    if ps == [] then [] else ps[0] + Concat(ps[1..])
  }

  function ByteStringToLeIntString(s: string): string
  {
    Concat(Reverse(Split(s)))
  }

  function Dots(s: string): nat
  {
    if s == [] then 0 else (if s[0] == '.' then 1 else 0) + Dots(s[1..])
  }

  /** Splitting loses nothing: joining the pieces gives the input back, and there is
      one piece more than there are dots. */
  lemma {:induction false} JoinOfSplit(s: string)
    ensures JoinDots(Split(s)) == s
    ensures |Split(s)| == Dots(s) + 1
  {
    if s != [] {
      JoinOfSplit(s[1..]);
      var rest := Split(s[1..]);
      if s[0] == '.' {
        assert s == [] + "." + s[1..];
      } else if |rest| == 1 {
        assert s == [s[0]] + rest[0];
      } else {
        assert ([s[0]] + rest[0] + "." + JoinDots(rest[1..])) == [s[0]] + JoinDots(rest);
        assert s == [s[0]] + s[1..];
      }
    }
  }

  /** Pieces without dots are split back into themselves. */
  lemma {:induction false} SplitOfJoin(ps: seq<string>)
    requires |ps| >= 1 && forall k :: 0 <= k < |ps| ==> '.' !in ps[k]
    ensures Split(JoinDots(ps)) == ps
    decreases |ps|, |ps[0]|
  {
    if |ps| == 1 {
      SplitNoDot(ps[0]);
    } else if ps[0] == [] {
      var s := JoinDots(ps);
      assert s == "." + JoinDots(ps[1..]);
      assert s[1..] == JoinDots(ps[1..]);
      SplitOfJoin(ps[1..]);
      assert ps == [[]] + ps[1..];
    } else {
      var s := JoinDots(ps);
      var ps' := [ps[0][1..]] + ps[1..];
      assert ps'[1..] == ps[1..];
      assert forall k :: 1 <= k < |ps'| ==> ps'[k] == ps[k];
      assert '.' !in ps'[0] by {
        forall i | 0 <= i < |ps'[0]| ensures ps'[0][i] != '.' {
          assert ps'[0][i] == ps[0][i + 1];
        }
      }
      assert s == [ps[0][0]] + JoinDots(ps') by {
        assert ps[0] == [ps[0][0]] + ps'[0];
      }
      SplitOfJoin(ps');
      assert s[0] == ps[0][0] && s[1..] == JoinDots(ps');
      assert ps[0] == [ps[0][0]] + ps'[0];
    }
  }

  lemma {:induction false} SplitNoDot(s: string)
    requires '.' !in s
    ensures Split(s) == [s]
  {
    if s != [] {
      assert '.' !in s[1..] by {
        forall i | 0 <= i < |s[1..]| ensures s[1..][i] != '.' {
          assert s[1..][i] == s[i + 1];
        }
      }
      SplitNoDot(s[1..]);
      assert s == [s[0]] + s[1..];
    }
  }

  lemma {:induction false} ConcatLength(ps: seq<string>)
    ensures |Concat(ps)| == Sum(ps)
  {
    if ps != [] {
      ConcatLength(ps[1..]);
    }
  }

  function Sum(ps: seq<string>): nat
  {
    if ps == [] then 0 else |ps[0]| + Sum(ps[1..])
  }

  /** Joined pieces are as long as the pieces and the dots between them. */
  lemma {:induction false} JoinLength(ps: seq<string>)
    requires |ps| >= 1
    ensures |JoinDots(ps)| == Sum(ps) + |ps| - 1
  {
    if |ps| > 1 {
      JoinLength(ps[1..]);
    }
  }

  lemma {:induction false} SumReverse(ps: seq<string>)
    ensures Sum(Reverse(ps)) == Sum(ps)
  {
    if ps != [] {
      var init := ps[..|ps| - 1];
      SumReverse(init);
      assert ps == init + [ps[|ps| - 1]];
      SumAppend(init, [ps[|ps| - 1]]);
    }
  }

  lemma {:induction false} SumAppend(xs: seq<string>, ys: seq<string>)
    ensures Sum(xs + ys) == Sum(xs) + Sum(ys)
  {
    if xs != [] {
      assert (xs + ys)[1..] == xs[1..] + ys;
      SumAppend(xs[1..], ys);
    } else {
      assert xs + ys == ys;
    }
  }

  lemma {:induction false} ConcatNoDot(ps: seq<string>)
    requires forall k :: 0 <= k < |ps| ==> '.' !in ps[k]
    ensures '.' !in Concat(ps)
  {
    if ps != [] {
      ConcatNoDot(ps[1..]);
    }
  }

  /** The result has no dots and is as long as the input without its dots; an input
      without dots comes back unchanged. */
  lemma LeIntStringShape(s: string)
    ensures '.' !in ByteStringToLeIntString(s)
    ensures |ByteStringToLeIntString(s)| == |s| - Dots(s)
    ensures Dots(s) == 0 ==> ByteStringToLeIntString(s) == s
  {
    var ps := Split(s);
    JoinOfSplit(s);
    JoinLength(ps);
    ConcatLength(Reverse(ps));
    SumReverse(ps);
    forall k | 0 <= k < |Reverse(ps)| ensures '.' !in Reverse(ps)[k] {
      ReverseAt(ps, k);
    }
    ConcatNoDot(Reverse(ps));
    if Dots(s) == 0 {
      assert ps == [ps[0]];
      assert Reverse(ps) == Reverse(ps[1..]) + [ps[0]];
      assert Concat(Reverse(ps)) == ps[0] + Concat([]);
    }
  }

  /** Dot-separated pieces come out in reverse order, without the dots. */
  lemma PiecesReversed(ps: seq<string>)
    requires |ps| >= 1 && forall k :: 0 <= k < |ps| ==> '.' !in ps[k]
    ensures ByteStringToLeIntString(JoinDots(ps)) == Concat(Reverse(ps))
  {
    SplitOfJoin(ps);
  }

  // ---------------------------------------------------------------------
  // `docx_to_paragraphs`

  const WordNamespace: string := "http://schemas.openxmlformats.org/wordprocessingml/2006/main"

  /** The resolved XML events the loop looks at; the end of the list is `Eof`. An
      unbound or unknown namespace is None. */
  datatype Event =
    | Start(ns: Option<string>, local: string)
    | End
    | Text(text: string)
    | OtherEvent

  datatype DocxError = UnbalancedEnd   // `name_stack.pop().unwrap()` on an empty stack

  /** The loop's `name_stack`, `current_text`, `collect_text` and `ret`. */
  datatype Walk = Walk(stack: seq<(Option<string>, string)>, text: string, collecting: bool, out: seq<string>)

  predicate InWord(ns: Option<string>)
  {
    ns == Some(WordNamespace)
  }

  /** One event. A word-namespace `p` start clears the text and its end hands the
      text to the predicate; a `t` start or end switches collecting on or off; text
      is kept only while collecting. Every start pushes and every end pops. */
  function WalkStep(accept: string -> bool, w: Walk, e: Event): Result<Walk, DocxError>
  {
    match e
    case Start(ns, local) =>
      var w' := if InWord(ns) && local == "p" then w.(text := [])
                else if InWord(ns) && local == "t" then w.(collecting := true)
                else w;
      Ok(w'.(stack := w.stack + [(ns, local)]))
    case End =>
      if w.stack == [] then Err(UnbalancedEnd)
      else
        var (ns, local) := w.stack[|w.stack| - 1];
        var popped := w.(stack := w.stack[..|w.stack| - 1]);
        if InWord(ns) && local == "p" then
          Ok(popped.(text := [], out := if accept(w.text) then w.out + [w.text] else w.out))
        else if InWord(ns) && local == "t" then Ok(popped.(collecting := false))
        else Ok(popped)
    case Text(t) =>
      Ok(if w.collecting then w.(text := w.text + t) else w)
    case OtherEvent => Ok(w)
  }

  function Initial(): Walk
  {
    Walk([], [], false, [])
  }

  /** The walk over the events, first event first. */
  function WalkAll(accept: string -> bool, events: seq<Event>): Result<Walk, DocxError>
  {
    if events == [] then Ok(Initial())
    else
      match WalkAll(accept, events[..|events| - 1])
      case Err(e) => Err(e)
      case Ok(w) => WalkStep(accept, w, events[|events| - 1])
  }

  /** `docx_to_paragraphs` on the events of the document body. */
  function Paragraphs(accept: string -> bool, events: seq<Event>): Result<seq<string>, DocxError>
  {
    match WalkAll(accept, events)
    case Err(e) => Err(e)
    case Ok(w) => Ok(w.out)
  }

  lemma {:induction false} WalkFailFast(accept: string -> bool, events: seq<Event>, i: nat)
    requires i <= |events| && WalkAll(accept, events[..i]).Err?
    ensures WalkAll(accept, events) == WalkAll(accept, events[..i])
    decreases |events| - i
  {
    if i < |events| {
      assert events[..i + 1][..i] == events[..i];
      WalkFailFast(accept, events, i + 1);
    } else {
      assert events[..i] == events;
    }
  }

  method DocxToParagraphs(accept: string -> bool, events: seq<Event>) returns (r: Result<seq<string>, DocxError>)
    ensures r == Paragraphs(accept, events)
  {
    var nameStack: seq<(Option<string>, string)> := [];
    var ret: seq<string> := [];
    var currentText: string := [];
    var collectText := false;
    for i := 0 to |events|
      invariant WalkAll(accept, events[..i]) == Ok(Walk(nameStack, currentText, collectText, ret))
    {
      assert events[..i + 1][..i] == events[..i];
      match events[i] {
        case Start(ns, local) =>
          if InWord(ns) {
            if local == "p" {
              currentText := [];
            } else if local == "t" {
              collectText := true;
            }
          }
          nameStack := nameStack + [(ns, local)];
        case End =>
          if nameStack == [] {
            WalkFailFast(accept, events, i + 1);
            return Err(UnbalancedEnd);
          }
          var (ns, local) := nameStack[|nameStack| - 1];
          nameStack := nameStack[..|nameStack| - 1];
          if InWord(ns) {
            if local == "p" {
              var paragraph := currentText;
              currentText := [];
              if accept(paragraph) {
                ret := ret + [paragraph];
              }
            } else if local == "t" {
              collectText := false;
            }
          }
        case Text(t) =>
          if collectText {
            currentText := currentText + t;
          }
        case OtherEvent =>
      }
    }
    assert events[..|events|] == events;
    return Ok(ret);
  }

  // ---------------------------------------------------------------------
  // Properties of the walk

  function Starts(events: seq<Event>): nat
  {
    if events == [] then 0 else Starts(events[..|events| - 1]) + (if events[|events| - 1].Start? then 1 else 0)
  }

  function Ends(events: seq<Event>): nat
  {
    if events == [] then 0 else Ends(events[..|events| - 1]) + (if events[|events| - 1].End? then 1 else 0)
  }

  /** Every start pushes and every end pops, whatever the namespace: the walk fails
      exactly when some prefix has more ends than starts, and otherwise the stack
      is as deep as the starts outnumber the ends. */
  lemma {:induction false} StackDepth(accept: string -> bool, events: seq<Event>)
    ensures WalkAll(accept, events).Ok? <==> forall i :: 0 <= i <= |events| ==> Ends(events[..i]) <= Starts(events[..i])
    ensures WalkAll(accept, events).Ok? ==> |WalkAll(accept, events).value.stack| == Starts(events) - Ends(events)
  {
    if events != [] {
      var q := events[..|events| - 1];
      StackDepth(accept, q);
      assert events[..|events|] == events;
      forall i | 0 <= i <= |q| ensures events[..i] == q[..i] { }
      if WalkAll(accept, q).Err? {
        assert !(forall i :: 0 <= i <= |q| ==> Ends(q[..i]) <= Starts(q[..i]));
        var i :| 0 <= i <= |q| && Ends(q[..i]) > Starts(q[..i]);
        assert Ends(events[..i]) > Starts(events[..i]);
      } else {
        assert forall i :: 0 <= i <= |q| ==> Ends(events[..i]) <= Starts(events[..i]);
      }
    } else {
      assert events[..0] == [];
    }
  }

  function Filter(accept: string -> bool, xs: seq<string>): (r: seq<string>)
    ensures forall k :: 0 <= k < |r| ==> accept(r[k])
  {
    if xs == [] then [] else Filter(accept, xs[..|xs| - 1]) + (if accept(xs[|xs| - 1]) then [xs[|xs| - 1]] else [])
  }

  function AcceptAll(s: string): bool
  {
    true
  }

  /** The two walks agree on everything but `out`, where one is the other filtered. */
  ghost predicate Filtered(accept: string -> bool, w: Walk, all: Walk)
  {
    && w.stack == all.stack && w.text == all.text && w.collecting == all.collecting
    && w.out == Filter(accept, all.out)
  }

  lemma FilteredStep(accept: string -> bool, w: Walk, all: Walk, e: Event)
    requires Filtered(accept, w, all)
    ensures WalkStep(accept, w, e).Ok? <==> WalkStep(AcceptAll, all, e).Ok?
    ensures WalkStep(accept, w, e).Ok? ==> Filtered(accept, WalkStep(accept, w, e).value, WalkStep(AcceptAll, all, e).value)
  {
    if e.End? && w.stack != [] {
      var (ns, local) := w.stack[|w.stack| - 1];
      if InWord(ns) && local == "p" {
        assert (all.out + [all.text])[..|all.out|] == all.out;
      }
    }
  }

  /** The predicate only filters: the paragraphs kept are, in document order, those of
      all ended word paragraphs that it accepts. */
  lemma {:induction false} PredicateFilters(accept: string -> bool, events: seq<Event>)
    ensures WalkAll(accept, events).Ok? <==> WalkAll(AcceptAll, events).Ok?
    ensures WalkAll(accept, events).Ok? ==> Filtered(accept, WalkAll(accept, events).value, WalkAll(AcceptAll, events).value)
  {
    if events != [] {
      var q := events[..|events| - 1];
      PredicateFilters(accept, q);
      if WalkAll(accept, q).Ok? {
        FilteredStep(accept, WalkAll(accept, q).value, WalkAll(AcceptAll, q).value, events[|events| - 1]);
      }
    }
  }

  /** The walk over some events and one more is one more step. */
  lemma WalkAllSnoc(accept: string -> bool, p: seq<Event>, e: Event)
    ensures WalkAll(accept, p + [e]) == match WalkAll(accept, p) case Err(x) => Err(x) case Ok(w) => WalkStep(accept, w, e)
  {
    assert (p + [e])[..|p + [e]| - 1] == p;
  }

  /** Two event prefixes that leave the walk in the same state lead to the same walk
      whatever follows them. */
  lemma {:induction false} WalkAllSameFrom(accept: string -> bool, a: seq<Event>, a': seq<Event>, b: seq<Event>)
    requires WalkAll(accept, a) == WalkAll(accept, a')
    ensures WalkAll(accept, a + b) == WalkAll(accept, a' + b)
    decreases |b|
  {
    if b == [] {
      assert a + b == a && a' + b == a';
    } else {
      var b0 := b[..|b| - 1];
      var e := b[|b| - 1];
      WalkAllSameFrom(accept, a, a', b0);
      assert a + b == (a + b0) + [e];
      assert a' + b == (a' + b0) + [e];
      WalkAllSnoc(accept, a + b0, e);
      WalkAllSnoc(accept, a' + b0, e);
    }
  }

  /** Text outside a `t` element is dropped: a text event that arrives while the walk
      is not collecting (no word-namespace `t` element is open) can be removed from the
      events without changing the paragraphs. */
  lemma TextOnlyInsideT(accept: string -> bool, events: seq<Event>, i: nat)
    requires i < |events| && events[i].Text?
    requires WalkAll(accept, events[..i]).Ok? && !WalkAll(accept, events[..i]).value.collecting
    ensures Paragraphs(accept, events) == Paragraphs(accept, events[..i] + events[i + 1..])
  {
    assert events[..i + 1][..i] == events[..i];
    assert WalkAll(accept, events[..i + 1]) == WalkAll(accept, events[..i]);
    WalkAllSameFrom(accept, events[..i + 1], events[..i], events[i + 1..]);
    assert events[..i + 1] + events[i + 1..] == events;
  }

  /** A paragraph start clears the text gathered so far, whatever state the walk is in. */
  lemma ParagraphStartClears(accept: string -> bool, w: Walk, local: string)
    ensures WalkStep(accept, w, Start(Some(WordNamespace), "p")) == Ok(w.(text := [], stack := w.stack + [(Some(WordNamespace), "p")]))
    ensures WalkStep(accept, w, Text(local)).value.text == (if w.collecting then w.text + local else w.text)
  {
  }
}
