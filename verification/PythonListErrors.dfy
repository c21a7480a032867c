/** Hex escapes read back what was printed, and which error a rejected Python list gets. */
module PythonListErrors {
  import opened Common
  import opened Utf8
  import opened PythonList
  import opened PythonListGrammar

  // ----- hex escapes -----

  /** The digit characters 0 to 9 and a to f, or A to F. */
  function Digit(d: nat, upper: bool): byte
    requires d < 16
  {
    if d < 10 then 48 + d else if upper then 55 + d else 87 + d
  }

  function HexText(v: nat, n: nat, upper: bool): (s: seq<byte>)
    ensures |s| == n
  {
    if n == 0 then [] else HexText(v / 16, n - 1, upper) + [Digit(v % 16, upper)]
  }

  function Power16(n: nat): nat { if n == 0 then 1 else 16 * Power16(n - 1) }

  lemma {:induction false} HexReadsBack(v: nat, n: nat, upper: bool)
    requires v < Power16(n)
    ensures AllHex(HexText(v, n, upper)) && HexNumber(HexText(v, n, upper)) == v
  {
    if n > 0 {
      HexReadsBack(v / 16, n - 1, upper);
      var before, last := HexText(v / 16, n - 1, upper), Digit(v % 16, upper);
      assert (before + [last])[..n - 1] == before;
      assert HexValue(last) == Some(v % 16);
    }
  }

  /** The letters x, u and U announce two, four and eight digits. */
  predicate Announces(letter: byte, n: nat) { (letter == 120 && n == 2) || (letter == 117 && n == 4) || (letter == 85 && n == 8) }

  /** The runes that must not come from an escape. */
  predicate Forbidden(v: nat) { v < 0x20 || v == 0x7F || 0xD800 <= v < 0xE000 || v > 0x10FFFF }

  /** An escape of any other rune, printed with enough digits, adds the UTF-8 of that rune. */
  lemma EscapeRoundTrip(letter: byte, n: nat, v: nat, upper: bool, quote: byte, read: seq<byte>, s: seq<byte>)
    requires Announces(letter, n) && v < Power16(n) && !Forbidden(v) && quote in {39, 34}
    ensures Chars([92, letter] + HexText(v, n, upper) + s, quote, read) == Chars(s, quote, read + EncodeRune(v))
  {
    HexReadsBack(v, n, upper);
    CharsOfHex(letter, HexText(v, n, upper), quote, read, s);
  }

  lemma {:induction false} HexBounded(s: seq<byte>)
    requires AllHex(s)
    ensures HexNumber(s) < Power16(|s|)
  {
    if s != [] { HexBounded(s[..|s| - 1]); }
  }

  /** The digits of an escape give their own number, and are refused exactly for a forbidden one. */
  lemma HexExactly(s: seq<byte>, n: nat)
    requires n in {2, 4, 8} && n <= |s| && AllHex(s[..n])
    ensures Hex(s, n) == if Forbidden(HexNumber(s[..n])) then Bad(RuneNotAllowed) else Good(HexNumber(s[..n]), s[n..])
  {
    HexBounded(s[..n]);
    assert Power16(2) == 0x100 && Power16(4) == 0x1_0000 && Power16(8) == 0x1_0000_0000 by { assert Power16(2) == 16 * Power16(1); }
  }

  // ----- what can be wrong with a string -----

  predicate HexCharacter(b: byte) { 48 <= b <= 57 || 97 <= b <= 102 || 65 <= b <= 70 }

  lemma HexCharacters(s: seq<byte>)
    ensures AllHex(s) <==> forall i :: 0 <= i < |s| ==> HexCharacter(s[i])
  {
  }

  function Announced(letter: byte): nat { if letter == 120 then 2 else if letter == 117 then 4 else if letter == 85 then 8 else 0 }

  predicate Escape(rest: seq<byte>) { |rest| >= 2 && rest[0] == 92 }

  /** The digits are all there. */
  predicate Complete(rest: seq<byte>) { Escape(rest) && Announced(rest[1]) > 0 && |rest| >= 2 + Announced(rest[1]) }

  /** What is wrong at the beginning of `rest`, inside a string that has said `meaning` so far. */
  ghost predicate StringFlaw(rest: seq<byte>, quote: byte, meaning: seq<byte>, e: Error) {
    match e
    case UnterminatedString => rest == []
    case NotCleanText => rest != [] && rest[0] == quote && !Clean(meaning)
    case ControlCharacter => rest != [] && (rest[0] < 32 || rest[0] == 127)
    case UnterminatedEscape => rest == [92]
    case ControlEscape => Escape(rest) && rest[1] in {97, 98, 102, 110, 114, 116, 118}
    case UnsupportedEscape => Escape(rest) && rest[1] !in {92, 39, 34, 47, 120, 117, 85, 97, 98, 102, 110, 114, 116, 118}
    case ShortHex => Escape(rest) && Announced(rest[1]) > 0 && |rest| < 2 + Announced(rest[1])
    case InvalidHex => Complete(rest) && exists i :: 2 <= i < 2 + Announced(rest[1]) && !HexCharacter(rest[i])
    case RuneNotAllowed => Complete(rest) && AllHex(rest[2..2 + Announced(rest[1])]) && Forbidden(HexNumber(rest[2..2 + Announced(rest[1])]))
    case _ => false
  }

  lemma HexSlice(rest: seq<byte>, n: nat)
    requires |rest| >= 2 + n
    ensures rest[2..][..n] == rest[2..2 + n]
    ensures AllHex(rest[2..2 + n]) <==> forall i :: 2 <= i < 2 + n ==> HexCharacter(rest[i])
  {
    HexCharacters(rest[2..2 + n]);
    forall i | 2 <= i < 2 + n && AllHex(rest[2..2 + n]) ensures HexCharacter(rest[i]) { assert rest[i] == rest[2..2 + n][i - 2]; }
  }

  lemma EscapeStops(rest: seq<byte>, quote: byte, meaning: seq<byte>, e: Error)
    requires quote in {39, 34} && Escape(rest) && StringFlaw(rest, quote, meaning, e)
    ensures Chars(rest, quote, meaning) == Bad(e)
  {
    if Complete(rest) {
      HexSlice(rest, Announced(rest[1]));
      if AllHex(rest[2..2 + Announced(rest[1])]) { HexExactly(rest[2..], Announced(rest[1])); }
    }
  }

  lemma FlawStops(rest: seq<byte>, quote: byte, meaning: seq<byte>, e: Error)
    requires quote in {39, 34} && StringFlaw(rest, quote, meaning, e)
    ensures Chars(rest, quote, meaning) == Bad(e)
  {
    if Escape(rest) { EscapeStops(rest, quote, meaning, e); }
  }

  /** Good pieces are read over, with their meaning. */
  lemma {:induction false} CharsAfter(ps: seq<Piece>, quote: byte, read: seq<byte>, rest: seq<byte>)
    requires GoodPieces(ps, quote) && quote in {39, 34}
    ensures Chars(Text(ps) + rest, quote, read) == Chars(rest, quote, read + Meaning(ps, quote))
  {
    if ps == [] {
      assert Text(ps) + rest == rest && read + [] == read;
    } else {
      var p, more := ps[0], ps[1..];
      assert ps == [p] + more;
      PiecesCons(p, more, quote);
      PythonListGrammar.Assoc(read, PieceMeaning(p, quote), Meaning(more, quote));
      CharsAfter(more, quote, read + PieceMeaning(p, quote), rest);
      CharsOfPiece(p, quote, read, Text(more) + rest);
      PythonListGrammar.Assoc(PieceText(p), Text(more), rest);
    }
  }

  /** A rejected string goes wrong right here, or has a good piece in front. */
  lemma PieceOrFlaw(s: seq<byte>, quote: byte, read: seq<byte>) returns (p: Option<Piece>, n: nat)
    requires quote in {39, 34} && Chars(s, quote, read).Bad?
    ensures p.None? ==> StringFlaw(s, quote, read, Chars(s, quote, read).error)
    ensures p.Some? ==> 0 < n <= |s| && GoodPiece(p.value, quote) && PieceText(p.value) == s[..n]
                        && Chars(s, quote, read) == Chars(s[n..], quote, read + PieceMeaning(p.value, quote))
  {
    p, n := None, 0;
    if s != [] && s[0] != quote && s[0] != 92 {
      if !Control(s[0]) { p, n := Some(Raw(s[0])), 1; }
    } else if Escape(s) {
      p, n := EscapeOrFlaw(s, quote, read);
    }
  }

  lemma EscapeOrFlaw(s: seq<byte>, quote: byte, read: seq<byte>) returns (p: Option<Piece>, n: nat)
    requires quote in {39, 34} && Escape(s) && Chars(s, quote, read).Bad?
    ensures p.None? ==> StringFlaw(s, quote, read, Chars(s, quote, read).error)
    ensures p.Some? ==> 0 < n <= |s| && GoodPiece(p.value, quote) && PieceText(p.value) == s[..n]
                        && Chars(s, quote, read) == Chars(s[n..], quote, read + PieceMeaning(p.value, quote))
  {
    p, n := None, 0;
    if s[1] in {92, 39, 34, 47} {
      p, n := Some(Escaped(s[1])), 2;
    } else if Complete(s) {
      var digits := s[2..2 + Announced(s[1])];
      HexSlice(s, Announced(s[1]));
      if AllHex(digits) {
        HexExactly(s[2..], Announced(s[1]));
        if !Forbidden(HexNumber(digits)) {
          p, n := Some(HexEscape(s[1], digits)), 2 + Announced(s[1]);
          assert s[..n] == [92, s[1]] + digits;
        }
      }
    }
  }

  ghost predicate BadString(s: seq<byte>, quote: byte, read: seq<byte>, ps: seq<Piece>, rest: seq<byte>, e: Error) {
    GoodPieces(ps, quote) && s == Text(ps) + rest && StringFlaw(rest, quote, read + Meaning(ps, quote), e)
  }

  lemma {:induction false} FlawOf(s: seq<byte>, quote: byte, read: seq<byte>) returns (ps: seq<Piece>, rest: seq<byte>)
    requires quote in {39, 34} && Chars(s, quote, read).Bad?
    ensures BadString(s, quote, read, ps, rest, Chars(s, quote, read).error)
    decreases |s|
  {
    var p, n := PieceOrFlaw(s, quote, read);
    if p.None? {
      ps, rest := [], s;
      assert [] + s == s && read + [] == read;
    } else {
      var more;
      more, rest := FlawOf(s[n..], quote, read + PieceMeaning(p.value, quote));
      ps := [p.value] + more;
      BadStringCons(s, n, p.value, quote, read, more, rest, Chars(s, quote, read).error);
    }
  }

  lemma BadStringCons(s: seq<byte>, n: nat, p: Piece, quote: byte, read: seq<byte>, ps: seq<Piece>, rest: seq<byte>, e: Error)
    requires n <= |s| && GoodPiece(p, quote) && PieceText(p) == s[..n] && BadString(s[n..], quote, read + PieceMeaning(p, quote), ps, rest, e)
    ensures BadString(s, quote, read, [p] + ps, rest, e)
  {
    PiecesCons(p, ps, quote);
    PythonListGrammar.Assoc(read, PieceMeaning(p, quote), Meaning(ps, quote));
    PythonListGrammar.Assoc(PieceText(p), Text(ps), rest);
    assert s == s[..n] + s[n..];
  }

  /** Behind its opening quote, a string is rejected with an error exactly when good pieces are followed
      by that flaw. */
  lemma StringRejectedExactly(s: seq<byte>, quote: byte, e: Error)
    requires quote in {39, 34}
    ensures Chars(s, quote, []) == Bad(e) <==> exists ps, rest :: BadString(s, quote, [], ps, rest, e)
  {
    if Chars(s, quote, []) == Bad(e) { var ps, rest := FlawOf(s, quote, []); }
    if exists ps, rest :: BadString(s, quote, [], ps, rest, e) {
      var ps, rest :| BadString(s, quote, [], ps, rest, e);
      CharsAfter(ps, quote, [], rest);
      FlawStops(rest, quote, [] + Meaning(ps, quote), e);
    }
  }

  // ----- what can be wrong with a list -----

  /** Elements, each with its comma. */
  function Separated(es: seq<Elem>): seq<byte> {
    if es == [] then [] else ElemText(es[0]) + ([Comma] + Separated(es[1..]))
  }

  /** Blanks, tabs, newlines and carriage returns. */
  predicate Blanks(s: seq<byte>) { forall i :: 0 <= i < |s| ==> s[i] in {32, 9, 10, 13} }

  /** The white space that is skipped is all there is in front. */
  lemma SpaceExactly(s: seq<byte>)
    ensures |Space(s)| <= |s| && Blanks(s[..|s| - |Space(s)|]) && s[|s| - |Space(s)|..] == Space(s)
    ensures Space(s) != [] ==> Space(s)[0] !in {32, 9, 10, 13}
  {
    SpaceShrinks(s);
    assert s[..|s| - |Space(s)|] == Front(s) by { assert s == Front(s) + Space(s); }
  }

  /** What is wrong where an element should be, when the list has `seen` these values. */
  ghost predicate ElementFlaw(rest: seq<byte>, seen: seq<seq<byte>>, e: Error) {
    var text := String(Space(rest));
    if text.Bad? then e == text.error
    else if text.value in seen then e == Duplicate
    else
      var after := Space(text.rest);
      if after == [] || after[0] !in {44, 93} then e == ExpectedCommaOrClose
      else
        var close := if after[0] == 93 then after else Space(after[1..]);
        e == TrailingContent && close != [] && close[0] == 93 && !Blanks(close[1..])
  }

  lemma {:induction false} SpaceIsWhite(s: seq<byte>)
    ensures Space(s) == [] <==> Blanks(s)
  {
    if Space(s) == [] { AllSpace(s); }
    if Blanks(s) {
      assert s + [] == s;
      SpaceSkips(s, []);
    }
  }

  lemma ElementStops(rest: seq<byte>, seen: seq<seq<byte>>, e: Error)
    requires ElementFlaw(rest, seen, e)
    ensures Elements(rest, seen) == Bad(e)
  {
    var text := String(Space(rest));
    if text.Good? {
      var after := Space(text.rest);
      if StartsWith(after, CloseBracket) { SpaceIsWhite(after[1..]); }
      if StartsWith(after, Comma) && StartsWith(Space(after[1..]), CloseBracket) { SpaceIsWhite(Space(after[1..])[1..]); }
    }
  }

  ghost predicate BadElements(s: seq<byte>, values: seq<seq<byte>>, es: seq<Elem>, rest: seq<byte>, e: Error) {
    && GoodElems(es) && Distinct(values + Values(es)) && s == Separated(es) + rest
    && (es != [] ==> !StartsWith(Space(rest), CloseBracket)) && ElementFlaw(rest, values + Values(es), e)
  }

  lemma SeparatedStarts(es: seq<Elem>, rest: seq<byte>)
    requires GoodElems(es) && !StartsWith(Space(rest), CloseBracket)
    ensures !StartsWith(Space(Separated(es) + rest), CloseBracket)
  {
    if es == [] {
      assert Separated(es) + rest == rest;
    } else {
      PythonListGrammar.Assoc(ElemText(es[0]), [Comma] + Separated(es[1..]), rest);
      ElemStarts(es[0], [Comma] + Separated(es[1..]) + rest);
    }
  }

  /** Good new elements are read over, with their values. */
  lemma {:induction false} ElementsAfter(es: seq<Elem>, rest: seq<byte>, values: seq<seq<byte>>)
    requires GoodElems(es) && Distinct(values + Values(es)) && (es != [] ==> !StartsWith(Space(rest), CloseBracket))
    ensures Elements(Separated(es) + rest, values) == Elements(rest, values + Values(es))
  {
    if es == [] {
      assert Separated(es) + rest == rest && values + [] == values;
    } else {
      var e, more := es[0], es[1..];
      var v := Meaning(e.pieces, e.quote);
      NotBefore(values, v, Values(more));
      SeparatedStarts(more, rest);
      FrontElement(e, Separated(more) + rest, values);
      ElementsAfter(more, rest, values + [v]);
      PythonListGrammar.Assoc(ElemText(e), [Comma] + Separated(more), rest);
      PythonListGrammar.Assoc([Comma], Separated(more), rest);
    }
  }

  /** A rejected list goes wrong right here, or has a good new element with its comma in front. */
  lemma ElementOrFlaw(s: seq<byte>, values: seq<seq<byte>>) returns (e: Option<Elem>, more: seq<byte>)
    requires Elements(s, values).Bad?
    ensures e.None? ==> ElementFlaw(s, values, Elements(s, values).error)
    ensures e.Some? ==> GoodElem(e.value) && s == ElemText(e.value) + ([Comma] + more) && !StartsWith(Space(more), CloseBracket)
                        && Meaning(e.value.pieces, e.value.quote) !in values
                        && Elements(s, values) == Elements(more, values + [Meaning(e.value.pieces, e.value.quote)])
  {
    e, more := None, [];
    var text := String(Space(s));
    if text.Good? {
      var after := Space(text.rest);
      if StartsWith(after, CloseBracket) { SpaceIsWhite(after[1..]); }
      if StartsWith(after, Comma) {
        if StartsWith(Space(after[1..]), CloseBracket) { SpaceIsWhite(Space(after[1..])[1..]); }
        else if text.value !in values {
          var elem, rest := ElemOf(s);
          e, more := Some(elem), rest[1..];
          assert rest == [Comma] + more;
          FrontElement(elem, more, values);
        }
      }
    }
  }

  lemma {:induction false} ListFlawOf(s: seq<byte>, values: seq<seq<byte>>) returns (es: seq<Elem>, rest: seq<byte>)
    requires Elements(s, values).Bad? && Distinct(values)
    ensures BadElements(s, values, es, rest, Elements(s, values).error)
    ensures !StartsWith(Space(s), CloseBracket) ==> !StartsWith(Space(rest), CloseBracket)
    decreases |s|
  {
    var e, more := ElementOrFlaw(s, values);
    if e.None? {
      es, rest := [], s;
      assert [] + s == s && values + [] == values;
    } else {
      var v := Meaning(e.value.pieces, e.value.quote);
      DistinctSnoc(values, v);
      var others;
      others, rest := ListFlawOf(more, values + [v]);
      es := [e.value] + others;
      ConsElem(e.value, others, values);
      PythonListGrammar.Assoc([Comma], Separated(others), rest);
      PythonListGrammar.Assoc(ElemText(e.value), [Comma] + Separated(others), rest);
    }
  }

  lemma ConsElem(e: Elem, es: seq<Elem>, values: seq<seq<byte>>)
    requires GoodElem(e) && GoodElems(es)
    ensures GoodElems([e] + es) && Values([e] + es) == [Meaning(e.pieces, e.quote)] + Values(es)
    ensures Separated([e] + es) == ElemText(e) + ([Comma] + Separated(es))
    ensures values + Values([e] + es) == values + [Meaning(e.pieces, e.quote)] + Values(es)
  {
    assert ([e] + es)[1..] == es;
  }

  /** What is wrong with a list: no opening bracket; something behind an empty one; or, behind good
      distinct elements, something wrong with the next. */
  ghost predicate ListFlaw(s: seq<byte>, e: Error) {
    var open := Space(s);
    if open == [] || open[0] != 91 then e == ExpectedOpen
    else
      var inner := Space(open[1..]);
      if inner != [] && inner[0] == 93 then e == TrailingContent && !Blanks(inner[1..])
      else exists es, rest :: BadElements(inner, [], es, rest, e)
  }

  /** An input is rejected with an error exactly when it has that flaw. */
  lemma ListRejectedExactly(s: seq<byte>, e: Error)
    ensures Parse(s) == Bad(e) <==> ListFlaw(s, e)
  {
    var open := Space(s);
    if StartsWith(open, OpenBracket) {
      var inner := Space(open[1..]);
      if StartsWith(inner, CloseBracket) { SpaceIsWhite(inner[1..]); } else { ElementsRejectedExactly(inner, e); }
    }
  }

  lemma ElementsRejectedExactly(s: seq<byte>, e: Error)
    ensures Elements(s, []) == Bad(e) <==> exists es, rest :: BadElements(s, [], es, rest, e)
  {
    if Elements(s, []) == Bad(e) { var es, rest := ListFlawOf(s, []); }
    if exists es, rest :: BadElements(s, [], es, rest, e) {
      var es, rest :| BadElements(s, [], es, rest, e);
      ElementsAfter(es, rest, []);
      ElementStops(rest, [] + Values(es), e);
    }
  }
}
