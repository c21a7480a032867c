/** Printed Python lists, and that the parser accepts exactly these with their values. */
module PythonListGrammar {
  import opened Common
  import opened Utf8
  import opened PythonList

  // ----- the grammar -----

  datatype Piece = Raw(b: byte) | Escaped(b: byte) | HexEscape(letter: byte, digits: seq<byte>)

  /** A string with the white space around it. */
  datatype Elem = Elem(before: seq<byte>, quote: byte, pieces: seq<Piece>, after: seq<byte>)

  /** A list: `trailing` is the white space behind a trailing comma, if there is one. */
  datatype Body = Empty(white: seq<byte>) | Listed(elems: seq<Elem>, trailing: Option<seq<byte>>)

  datatype Layout = Layout(lead: seq<byte>, body: Body, tail: seq<byte>)

  predicate GoodPiece(p: Piece, quote: byte) {
    match p
    case Raw(b) => b != quote && b != Backslash && !Control(b)
    case Escaped(b) => b in {Backslash, Quote, DoubleQuote, Slash}
    case HexEscape(letter, digits) =>
      HexDigits(letter) > 0 && |digits| == HexDigits(letter) && AllHex(digits) && RuneAllowed(AsRune(HexNumber(digits)))
  }

  predicate GoodPieces(ps: seq<Piece>, quote: byte) { forall i :: 0 <= i < |ps| ==> GoodPiece(ps[i], quote) }

  function PieceText(p: Piece): seq<byte> {
    match p
    case Raw(b) => [b]
    case Escaped(b) => [Backslash, b]
    case HexEscape(letter, digits) => [Backslash, letter] + digits
  }

  function PieceMeaning(p: Piece, quote: byte): seq<byte>
    requires GoodPiece(p, quote)
  {
    match p
    case Raw(b) => [b]
    case Escaped(b) => [b]
    case HexEscape(_, digits) => EncodeRune(AsRune(HexNumber(digits)))
  }

  function Text(ps: seq<Piece>): seq<byte> { if ps == [] then [] else PieceText(ps[0]) + Text(ps[1..]) }

  function Meaning(ps: seq<Piece>, quote: byte): seq<byte>
    requires GoodPieces(ps, quote)
  {
    if ps == [] then [] else PieceMeaning(ps[0], quote) + Meaning(ps[1..], quote)
  }

  predicate GoodElem(e: Elem) {
    AllWhite(e.before) && AllWhite(e.after) && e.quote in {Quote, DoubleQuote} && GoodPieces(e.pieces, e.quote) && Clean(Meaning(e.pieces, e.quote))
  }

  predicate GoodElems(es: seq<Elem>) { forall i :: 0 <= i < |es| ==> GoodElem(es[i]) }

  function ElemText(e: Elem): seq<byte> { e.before + ([e.quote] + (Text(e.pieces) + ([e.quote] + e.after))) }

  function Values(es: seq<Elem>): (vs: seq<seq<byte>>)
    requires GoodElems(es)
    ensures |vs| == |es|
  {
    if es == [] then [] else [Meaning(es[0].pieces, es[0].quote)] + Values(es[1..])
  }

  function Closing(trailing: Option<seq<byte>>): seq<byte> {
    (if trailing.Some? then [Comma] + trailing.value else []) + [CloseBracket]
  }

  function ElemsText(es: seq<Elem>, trailing: Option<seq<byte>>): seq<byte>
    requires es != []
  {
    ElemText(es[0]) + if |es| == 1 then Closing(trailing) else [Comma] + ElemsText(es[1..], trailing)
  }

  predicate Distinct(vs: seq<seq<byte>>) { forall i, j :: 0 <= i < j < |vs| ==> vs[i] != vs[j] }

  predicate GoodBody(b: Body) {
    match b
    case Empty(white) => AllWhite(white)
    case Listed(es, trailing) => es != [] && GoodElems(es) && Distinct(Values(es)) && (trailing.Some? ==> AllWhite(trailing.value))
  }

  predicate GoodLayout(l: Layout) { AllWhite(l.lead) && GoodBody(l.body) && AllWhite(l.tail) }

  function BodyText(b: Body): seq<byte>
    requires GoodBody(b)
  {
    match b
    case Empty(white) => white + [CloseBracket]
    case Listed(es, trailing) => ElemsText(es, trailing)
  }

  function LayoutText(l: Layout): seq<byte>
    requires GoodLayout(l)
  {
    l.lead + ([OpenBracket] + (BodyText(l.body) + l.tail))
  }

  function LayoutValues(l: Layout): seq<seq<byte>>
    requires GoodLayout(l)
  {
    if l.body.Empty? then [] else Values(l.body.elems)
  }

  // ----- taking lists apart -----

  lemma PiecesCons(p: Piece, ps: seq<Piece>, quote: byte)
    requires GoodPiece(p, quote) && GoodPieces(ps, quote)
    ensures GoodPieces([p] + ps, quote)
    ensures Text([p] + ps) == PieceText(p) + Text(ps) && Meaning([p] + ps, quote) == PieceMeaning(p, quote) + Meaning(ps, quote)
  {
    assert ([p] + ps)[1..] == ps;
  }

  lemma Assoc<T>(a: seq<T>, b: seq<T>, c: seq<T>)
    ensures a + b + c == a + (b + c)
  {
  }

  lemma ElemsCons(e: Elem, es: seq<Elem>, trailing: Option<seq<byte>>)
    requires GoodElem(e) && GoodElems(es)
    ensures GoodElems([e] + es) && Values([e] + es) == [Meaning(e.pieces, e.quote)] + Values(es)
    ensures ElemsText([e] + es, trailing) == ElemText(e) + if es == [] then Closing(trailing) else [Comma] + ElemsText(es, trailing)
  {
    assert ([e] + es)[1..] == es;
  }

  // ----- white space -----

  lemma {:induction false} SpaceSkips(white: seq<byte>, s: seq<byte>)
    requires AllWhite(white) && (s == [] || !White(s[0]))
    ensures Space(white + s) == s
  {
    if white == [] {
      assert white + s == s;
    } else {
      assert (white + s)[1..] == white[1..] + s;
      SpaceSkips(white[1..], s);
    }
  }

  lemma SpaceTwice(white: seq<byte>, s: seq<byte>)
    requires AllWhite(white)
    ensures Space(white + s) == Space(s)
  {
    if white == [] {
      assert white + s == s;
    } else {
      assert (white + s)[1..] == white[1..] + s;
      SpaceTwice(white[1..], s);
    }
  }

  /** The white space in front of `s`. */
  function Front(s: seq<byte>): (w: seq<byte>)
    ensures AllWhite(w) && s == w + Space(s)
  {
    if s == [] || !White(s[0]) then [] else
      assert s == [s[0]] + s[1..];
      [s[0]] + Front(s[1..])
  }

  // ----- printed lists parse to their values -----

  lemma CharsOfHex(letter: byte, digits: seq<byte>, quote: byte, read: seq<byte>, s: seq<byte>)
    requires GoodPiece(HexEscape(letter, digits), quote) && quote in {Quote, DoubleQuote}
    ensures Chars([Backslash, letter] + digits + s, quote, read) == Chars(s, quote, read + EncodeRune(AsRune(HexNumber(digits))))
  {
    var t := [Backslash, letter] + digits + s;
    var n := HexDigits(letter);
    assert t[2..] == digits + s && t[2 + n..] == s && (digits + s)[..n] == digits;
    assert t[0] == Backslash && t[1] == letter;
    assert Hex(t[2..], n) == Good(AsRune(HexNumber(digits)), (digits + s)[n..]);
  }

  lemma {:induction false} CharsOfPiece(p: Piece, quote: byte, read: seq<byte>, s: seq<byte>)
    requires GoodPiece(p, quote) && quote in {Quote, DoubleQuote}
    ensures Chars(PieceText(p) + s, quote, read) == Chars(s, quote, read + PieceMeaning(p, quote))
  {
    match p
    case Raw(b) => assert ([b] + s)[1..] == s;
    case Escaped(b) => assert ([Backslash, b] + s)[2..] == s;
    case HexEscape(letter, digits) => CharsOfHex(letter, digits, quote, read, s);
  }

  lemma {:induction false} CharsOfPieces(ps: seq<Piece>, quote: byte, read: seq<byte>, rest: seq<byte>)
    requires GoodPieces(ps, quote) && quote in {Quote, DoubleQuote} && Clean(read + Meaning(ps, quote))
    ensures Chars(Text(ps) + ([quote] + rest), quote, read) == Good(read + Meaning(ps, quote), rest)
  {
    var closed := [quote] + rest;
    if ps == [] {
      assert Text(ps) + closed == closed && closed[1..] == rest && read + [] == read;
    } else {
      var p, more := ps[0], ps[1..];
      var m := PieceMeaning(p, quote);
      assert ps == [p] + more;
      PiecesCons(p, more, quote);
      Assoc(read, m, Meaning(more, quote));
      CharsOfPieces(more, quote, read + m, rest);
      CharsOfPiece(p, quote, read, Text(more) + closed);
      Assoc(PieceText(p), Text(more), closed);
    }
  }

  lemma {:induction false} StringOfElem(e: Elem, rest: seq<byte>)
    requires GoodElem(e)
    ensures String(Space(ElemText(e) + rest)) == Good(Meaning(e.pieces, e.quote), e.after + rest)
  {
    var inner := Text(e.pieces) + ([e.quote] + (e.after + rest));
    assert ElemText(e) + rest == e.before + ([e.quote] + inner);
    SpaceSkips(e.before, [e.quote] + inner);
    assert ([e.quote] + inner)[1..] == inner;
    assert [] + Meaning(e.pieces, e.quote) == Meaning(e.pieces, e.quote);
    CharsOfPieces(e.pieces, e.quote, [], e.after + rest);
  }

  lemma SpaceBefore(after: seq<byte>, b: byte, s: seq<byte>)
    requires AllWhite(after) && !White(b)
    ensures Space(after + ([b] + s)) == [b] + s && ([b] + s)[1..] == s
  {
    SpaceSkips(after, [b] + s);
  }

  lemma AfterLast(after: seq<byte>, trailing: Option<seq<byte>>, tail: seq<byte>)
    requires AllWhite(after) && (trailing.Some? ==> AllWhite(trailing.value)) && AllWhite(tail)
    ensures var s := Space(after + (Closing(trailing) + tail));
            if trailing.None? then s == [CloseBracket] + tail
            else StartsWith(s, Comma) && Space(s[1..]) == [CloseBracket] + tail
    ensures Space(tail) == []
  {
    SpaceSkips(tail, []);
    assert tail + [] == tail;
    if trailing.None? {
      assert Closing(trailing) + tail == [CloseBracket] + tail;
      SpaceBefore(after, CloseBracket, tail);
    } else {
      assert Closing(trailing) + tail == [Comma] + (trailing.value + ([CloseBracket] + tail));
      SpaceBefore(after, Comma, trailing.value + ([CloseBracket] + tail));
      SpaceBefore(trailing.value, CloseBracket, tail);
    }
  }

  lemma {:induction false} LastElement(e: Elem, trailing: Option<seq<byte>>, tail: seq<byte>, values: seq<seq<byte>>)
    requires GoodElem(e) && (trailing.Some? ==> AllWhite(trailing.value)) && AllWhite(tail)
    requires Meaning(e.pieces, e.quote) !in values
    ensures Elements(ElemText(e) + Closing(trailing) + tail, values) == Good(values + [Meaning(e.pieces, e.quote)], [])
  {
    assert ElemText(e) + Closing(trailing) + tail == ElemText(e) + (Closing(trailing) + tail);
    StringOfElem(e, Closing(trailing) + tail);
    AfterLast(e.after, trailing, tail);
    assert ([CloseBracket] + tail)[1..] == tail;
  }

  lemma ElementsSkip(white: seq<byte>, s: seq<byte>, values: seq<seq<byte>>)
    requires AllWhite(white)
    ensures Elements(white + s, values) == Elements(s, values)
  {
    SpaceTwice(white, s);
  }

  lemma {:induction false} FrontElement(e: Elem, s: seq<byte>, values: seq<seq<byte>>)
    requires GoodElem(e) && Meaning(e.pieces, e.quote) !in values && !StartsWith(Space(s), CloseBracket)
    ensures Elements(ElemText(e) + ([Comma] + s), values) == Elements(s, values + [Meaning(e.pieces, e.quote)])
  {
    StringOfElem(e, [Comma] + s);
    SpaceBefore(e.after, Comma, s);
    ElementsSkip(Front(s), Space(s), values + [Meaning(e.pieces, e.quote)]);
  }

  lemma ElemStarts(e: Elem, rest: seq<byte>)
    requires GoodElem(e)
    ensures !StartsWith(Space(ElemText(e) + rest), CloseBracket)
  {
    StringOfElem(e, rest);
  }

  lemma NoCloseYet(es: seq<Elem>, trailing: Option<seq<byte>>, tail: seq<byte>)
    requires es != [] && GoodElems(es)
    ensures !StartsWith(Space(ElemsText(es, trailing) + tail), CloseBracket)
  {
    var rest := if |es| == 1 then Closing(trailing) else [Comma] + ElemsText(es[1..], trailing);
    Assoc(ElemText(es[0]), rest, tail);
    ElemStarts(es[0], rest + tail);
  }

  lemma NotBefore(values: seq<seq<byte>>, v: seq<byte>, rest: seq<seq<byte>>)
    requires Distinct(values + ([v] + rest))
    ensures v !in values && values + ([v] + rest) == values + [v] + rest
  {
    var all := values + ([v] + rest);
    assert all[|values|] == v && forall i :: 0 <= i < |values| ==> all[i] == values[i];
  }

  lemma {:induction false} ElementsOf(es: seq<Elem>, trailing: Option<seq<byte>>, tail: seq<byte>, values: seq<seq<byte>>)
    requires es != [] && GoodElems(es) && (trailing.Some? ==> AllWhite(trailing.value)) && AllWhite(tail)
    requires Distinct(values + Values(es))
    ensures Elements(ElemsText(es, trailing) + tail, values) == Good(values + Values(es), [])
  {
    var e, rest := es[0], es[1..];
    var v := Meaning(e.pieces, e.quote);
    assert es == [e] + rest;
    ElemsCons(e, rest, trailing);
    NotBefore(values, v, Values(rest));
    if rest == [] {
      LastElement(e, trailing, tail, values);
      assert values + [v] + [] == values + [v];
    } else {
      var s := ElemsText(rest, trailing) + tail;
      Assoc(ElemText(e), [Comma] + ElemsText(rest, trailing), tail);
      Assoc([Comma], ElemsText(rest, trailing), tail);
      NoCloseYet(rest, trailing, tail);
      FrontElement(e, s, values);
      ElementsOf(rest, trailing, tail, values + [v]);
    }
  }

  lemma {:induction false} PrintedIsAccepted(l: Layout)
    requires GoodLayout(l)
    ensures Parse(LayoutText(l)) == Good(LayoutValues(l), [])
  {
    var inner := BodyText(l.body) + l.tail;
    SpaceBefore(l.lead, OpenBracket, inner);
    match l.body {
      case Empty(white) =>
        assert inner == white + ([CloseBracket] + l.tail);
        SpaceBefore(white, CloseBracket, l.tail);
        SpaceSkips(l.tail, []);
        assert l.tail + [] == l.tail;
      case Listed(es, trailing) =>
        NoCloseYet(es, trailing, l.tail);
        ElementsSkip(Front(inner), Space(inner), []);
        assert [] + Values(es) == Values(es);
        ElementsOf(es, trailing, l.tail, []);
    }
  }

  // ----- nothing else is accepted -----

  lemma {:induction false} PiecesOf(s: seq<byte>, quote: byte, read: seq<byte>) returns (ps: seq<Piece>)
    requires quote in {Quote, DoubleQuote} && Chars(s, quote, read).Good?
    ensures GoodPieces(ps, quote) && s == Text(ps) + ([quote] + Chars(s, quote, read).rest)
    ensures Chars(s, quote, read).value == read + Meaning(ps, quote)
    decreases |s|
  {
    if s[0] == quote {
      ps := [];
      assert s == [s[0]] + s[1..] && read + [] == read;
    } else {
      var p, n := FirstPiece(s, quote, read);
      var m := PieceMeaning(p, quote);
      var rest := PiecesOf(s[n..], quote, read + m);
      ps := [p] + rest;
      PiecesCons(p, rest, quote);
      assert s == s[..n] + s[n..];
      Assoc(s[..n], Text(rest), [quote] + Chars(s, quote, read).rest);
      Assoc(read, m, Meaning(rest, quote));
    }
  }

  lemma FirstPiece(s: seq<byte>, quote: byte, read: seq<byte>) returns (p: Piece, n: nat)
    requires Chars(s, quote, read).Good? && s[0] != quote
    ensures 0 < n <= |s| && GoodPiece(p, quote) && PieceText(p) == s[..n]
    ensures Chars(s, quote, read) == Chars(s[n..], quote, read + PieceMeaning(p, quote))
  {
    if s[0] != Backslash {
      p, n := Raw(s[0]), 1;
    } else if s[1] in {Backslash, Quote, DoubleQuote, Slash} {
      p, n := Escaped(s[1]), 2;
    } else {
      n := 2 + HexDigits(s[1]);
      p := HexEscape(s[1], s[2..n]);
      assert s[2..][..HexDigits(s[1])] == s[2..n];
    }
  }

  lemma {:induction false} ElemOf(s: seq<byte>) returns (e: Elem, rest: seq<byte>)
    requires String(Space(s)).Good?
    ensures GoodElem(e) && s == ElemText(e) + rest && (rest == [] || !White(rest[0]))
    ensures Meaning(e.pieces, e.quote) == String(Space(s)).value && rest == Space(String(Space(s)).rest)
  {
    var inner := Space(s);
    var ps := StringPieces(inner);
    var after := String(inner).rest;
    SpaceShrinks(after);
    e, rest := Elem(Front(s), inner[0], ps, Front(after)), Space(after);
    Layered(e.before, e.quote, Text(ps), e.after, rest);
  }

  lemma StringPieces(inner: seq<byte>) returns (ps: seq<Piece>)
    requires String(inner).Good?
    ensures inner[0] in {Quote, DoubleQuote} && GoodPieces(ps, inner[0]) && Meaning(ps, inner[0]) == String(inner).value
    ensures Clean(String(inner).value) && inner == [inner[0]] + (Text(ps) + ([inner[0]] + String(inner).rest))
  {
    StringShrinks(inner);
    ps := PiecesOf(inner[1..], inner[0], []);
    assert [] + Meaning(ps, inner[0]) == Meaning(ps, inner[0]);
    assert inner == [inner[0]] + inner[1..];
  }

  lemma Layered(a: seq<byte>, q: byte, t: seq<byte>, b: seq<byte>, rest: seq<byte>)
    ensures a + ([q] + (t + ([q] + (b + rest)))) == a + ([q] + (t + ([q] + b))) + rest
  {
  }

  lemma DistinctSnoc(vs: seq<seq<byte>>, v: seq<byte>)
    requires Distinct(vs) && v !in vs
    ensures Distinct(vs + [v])
  {
  }

  /** How an accepted list goes on behind an element. */
  lemma ElementsGoOn(s: seq<byte>, values: seq<seq<byte>>, v: seq<byte>, rest: seq<byte>)
    requires Elements(s, values).Good? && String(Space(s)).Good? && v == String(Space(s)).value && rest == Space(String(Space(s)).rest)
    ensures v !in values && (StartsWith(rest, CloseBracket) || StartsWith(rest, Comma))
    ensures StartsWith(rest, CloseBracket) ==> Elements(s, values) == End(rest[1..], values + [v])
    ensures !StartsWith(rest, CloseBracket) ==>
              Elements(s, values) == var next := Space(rest[1..]);
                if StartsWith(next, CloseBracket) then End(next[1..], values + [v]) else Elements(next, values + [v])
  {
  }

  lemma CloseAt(e: Elem, rest: seq<byte>, trailing: Option<seq<byte>>, tail: seq<byte>)
    requires GoodElem(e)
    requires rest == Closing(trailing) + tail
    ensures ElemText(e) + rest == ElemsText([e], trailing) + tail && GoodElems([e]) && Values([e]) == [Meaning(e.pieces, e.quote)]
  {
    ElemsCons(e, [], trailing);
    assert [e] + [] == [e];
    Assoc(ElemText(e), Closing(trailing), tail);
  }

  lemma MoreElems(e: Elem, others: seq<Elem>, trailing: Option<seq<byte>>, tail: seq<byte>)
    requires GoodElem(e) && GoodElems(others) && others != []
    ensures GoodElems([e] + others) && Values([e] + others) == [Meaning(e.pieces, e.quote)] + Values(others)
    ensures ElemText(e) + ([Comma] + (ElemsText(others, trailing) + tail)) == ElemsText([e] + others, trailing) + tail
  {
    ElemsCons(e, others, trailing);
    Assoc([Comma], ElemsText(others, trailing), tail);
    Assoc(ElemText(e), [Comma] + ElemsText(others, trailing), tail);
  }

  lemma TrailingClose(rest: seq<byte>, more: seq<byte>, next: seq<byte>)
    requires rest == [Comma] + more && next == Space(more) && StartsWith(next, CloseBracket)
    ensures rest == Closing(Some(Front(more))) + next[1..]
  {
    assert next == [CloseBracket] + next[1..];
    Assoc([Comma] + Front(more), [CloseBracket], next[1..]);
    Assoc([Comma], Front(more), [CloseBracket] + next[1..]);
  }

  /** `s` is printed elements with `vs` as the values so far and theirs. */
  predicate Read(s: seq<byte>, values: seq<seq<byte>>, vs: seq<seq<byte>>, es: seq<Elem>, trailing: Option<seq<byte>>, tail: seq<byte>) {
    && es != [] && GoodElems(es) && (trailing.Some? ==> AllWhite(trailing.value)) && AllWhite(tail)
    && s == ElemsText(es, trailing) + tail
    && vs == values + Values(es) && Distinct(vs)
  }

  lemma ReadLast(e: Elem, rest: seq<byte>, values: seq<seq<byte>>, trailing: Option<seq<byte>>, tail: seq<byte>)
    requires GoodElem(e) && rest == Closing(trailing) + tail && (trailing.Some? ==> AllWhite(trailing.value)) && AllWhite(tail)
    requires Distinct(values) && Meaning(e.pieces, e.quote) !in values
    ensures Read(ElemText(e) + rest, values, values + [Meaning(e.pieces, e.quote)], [e], trailing, tail)
  {
    CloseAt(e, rest, trailing, tail);
    DistinctSnoc(values, Meaning(e.pieces, e.quote));
  }

  lemma ReadMore(e: Elem, more: seq<byte>, values: seq<seq<byte>>, vs: seq<seq<byte>>, others: seq<Elem>, trailing: Option<seq<byte>>, tail: seq<byte>)
    requires GoodElem(e) && Read(more, values + [Meaning(e.pieces, e.quote)], vs, others, trailing, tail)
    ensures Read(ElemText(e) + ([Comma] + more), values, vs, [e] + others, trailing, tail)
  {
    MoreElems(e, others, trailing, tail);
    Assoc(values, [Meaning(e.pieces, e.quote)], Values(others));
  }

  lemma {:induction false} ElementsGrammar(s: seq<byte>, values: seq<seq<byte>>) returns (es: seq<Elem>, trailing: Option<seq<byte>>, tail: seq<byte>)
    requires Elements(s, values).Good? && Distinct(values)
    ensures Read(s, values, Elements(s, values).value, es, trailing, tail)
    decreases |s|
  {
    var e, rest := ElemOf(s);
    var v := Meaning(e.pieces, e.quote);
    ElementsGoOn(s, values, v, rest);
    var more := rest[1..];
    var next := Space(more);
    if StartsWith(rest, CloseBracket) {
      es, trailing, tail := [e], None, more;
      AllSpace(tail);
      assert rest == Closing(None) + tail;
      ReadLast(e, rest, values, trailing, tail);
    } else if StartsWith(next, CloseBracket) {
      es, trailing, tail := [e], Some(Front(more)), next[1..];
      AllSpace(tail);
      assert rest == [Comma] + more;
      TrailingClose(rest, more, next);
      ReadLast(e, rest, values, trailing, tail);
    } else {
      ElementsSkip(Front(more), next, values + [v]);
      DistinctSnoc(values, v);
      var others;
      others, trailing, tail := ElementsGrammar(more, values + [v]);
      es := [e] + others;
      assert rest == [Comma] + more;
      ReadMore(e, more, values, Elements(s, values).value, others, trailing, tail);
    }
  }

  lemma AllSpace(s: seq<byte>)
    requires Space(s) == []
    ensures AllWhite(s)
  {
    assert s == Front(s) + [];
  }

  lemma {:induction false} AcceptedIsPrinted(s: seq<byte>) returns (l: Layout)
    requires Parse(s).Good?
    ensures GoodLayout(l) && s == LayoutText(l) && Parse(s).value == LayoutValues(l)
  {
    var open := Space(s);
    var inner := open[1..];
    var next := Space(inner);
    assert open == [OpenBracket] + inner;
    if StartsWith(next, CloseBracket) {
      AllSpace(next[1..]);
      l := Layout(Front(s), Empty(Front(inner)), next[1..]);
      assert next == [CloseBracket] + next[1..];
      Assoc(Front(inner), [CloseBracket], next[1..]);
    } else {
      ElementsSkip(Front(inner), next, []);
      var es, trailing, tail := ElementsGrammar(inner, []);
      assert [] + Values(es) == Values(es);
      l := Layout(Front(s), Listed(es, trailing), tail);
    }
  }

  /** The parser decides the grammar: it returns some values exactly when its input is a printed
      list of them, with any white space, quotes, escapes and trailing comma. */
  lemma {:induction false} ParserDecidesGrammar(s: seq<byte>, values: seq<seq<byte>>)
    ensures Parse(s) == Good(values, []) <==> exists l :: GoodLayout(l) && s == LayoutText(l) && values == LayoutValues(l)
  {
    if Parse(s) == Good(values, []) {
      var l := AcceptedIsPrinted(s);
    }
    if exists l :: GoodLayout(l) && s == LayoutText(l) && values == LayoutValues(l) {
      var l :| GoodLayout(l) && s == LayoutText(l) && values == LayoutValues(l);
      PrintedIsAccepted(l);
    }
  }

  lemma {:induction false} ValuesAreClean(es: seq<Elem>, i: nat)
    requires GoodElems(es) && i < |es|
    ensures Clean(Values(es)[i])
  {
    if i > 0 { ValuesAreClean(es[1..], i - 1); }
  }

  /** Accepted values are distinct, nonempty, valid UTF-8 and free of control characters. */
  lemma {:induction false} AcceptedValuesAreSound(s: seq<byte>)
    requires Parse(s).Good?
    ensures var vs := Parse(s).value; Distinct(vs) && forall i :: 0 <= i < |vs| ==> Clean(vs[i])
  {
    var l := AcceptedIsPrinted(s);
    if l.body.Listed? {
      forall i | 0 <= i < |l.body.elems| ensures Clean(Values(l.body.elems)[i]) { ValuesAreClean(l.body.elems, i); }
    }
  }

  // ----- a printer -----

  function Print(v: seq<byte>): seq<Piece> {
    if v == [] then [] else [if v[0] in {Quote, Backslash} then Escaped(v[0]) else Raw(v[0])] + Print(v[1..])
  }

  predicate NoControl(v: seq<byte>) { forall i :: 0 <= i < |v| ==> !Control(v[i]) }

  lemma {:induction false} PrintMeans(v: seq<byte>)
    requires NoControl(v)
    ensures GoodPieces(Print(v), Quote) && Meaning(Print(v), Quote) == v
  {
    if v != [] { PrintMeans(v[1..]); }
  }

  /** In valid text, a rune is a control character exactly when its bytes hold one. */
  lemma {:induction false} ControlsAreBytes(s: seq<byte>)
    requires ValidText(s)
    ensures NoControl(s) <==> forall i :: 0 <= i < |Runes(s)| ==> Runes(s)[i] >= 0x20 && Runes(s)[i] != 0x7F
  {
    if s != [] {
      var n := HeadLength(s);
      var rest := s[n..];
      ControlsAreBytes(rest);
      HeadControl(s);
      assert Runes(s) == [HeadRune(s)] + Runes(rest);
      assert forall i :: 0 <= i < |Runes(rest)| ==> Runes(s)[i + 1] == Runes(rest)[i];
      assert Runes(s)[0] == HeadRune(s);
      assert s == s[..n] + rest;
      assert forall i :: 0 <= i < |rest| ==> s[i + n] == rest[i];
    }
  }

  lemma HeadControl(s: seq<byte>)
    requires HeadLength(s) > 0
    ensures NoControl(s[..HeadLength(s)]) <==> HeadRune(s) >= 0x20 && HeadRune(s) != 0x7F
  {
  }

  function PrintedElems(values: seq<seq<byte>>, white: seq<byte>): (es: seq<Elem>)
    ensures |es| == |values|
  {
    if values == [] then [] else [Elem(white, Quote, Print(values[0]), white)] + PrintedElems(values[1..], white)
  }

  predicate AllClean(values: seq<seq<byte>>) { forall i :: 0 <= i < |values| ==> Clean(values[i]) }

  lemma {:induction false} PrintedElemsMean(values: seq<seq<byte>>, white: seq<byte>)
    requires AllWhite(white) && AllClean(values)
    ensures GoodElems(PrintedElems(values, white)) && Values(PrintedElems(values, white)) == values
  {
    if values != [] {
      PrintedElemsMean(values[1..], white);
      ControlsAreBytes(values[0]);
      PrintMeans(values[0]);
      var e, es := Elem(white, Quote, Print(values[0]), white), PrintedElems(values[1..], white);
      assert ([e] + es)[1..] == es;
    }
  }

  /** Printing any distinct clean strings parses back to them. */
  lemma {:induction false} PrintRoundTrip(values: seq<seq<byte>>, white: seq<byte>, trailing: Option<seq<byte>>)
    requires Distinct(values) && AllClean(values) && AllWhite(white) && (trailing.Some? ==> AllWhite(trailing.value))
    ensures var body := if values == [] then Empty(white) else Listed(PrintedElems(values, white), trailing);
            GoodLayout(Layout(white, body, white)) && Parse(LayoutText(Layout(white, body, white))) == Good(values, [])
  {
    PrintedElemsMean(values, white);
    PrintedIsAccepted(Layout(white, if values == [] then Empty(white) else Listed(PrintedElems(values, white), trailing), white));
  }
}
