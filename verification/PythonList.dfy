/** The Python list parser (pkg/benchmark/swebenchpro/dataset.go:233-371) over bytes. The parser
    object is proved equal to a recursive-descent function, and that function to accept exactly
    a grammar of printed lists. */
module PythonList {
  import opened Common
  import opened Utf8

  // ----- characters -----

  const Quote: byte := 39
  const DoubleQuote: byte := 34
  const Backslash: byte := 92
  const Slash: byte := 47
  const Comma: byte := 44
  const OpenBracket: byte := 91
  const CloseBracket: byte := 93

  predicate White(b: byte) { b in {32, 9, 13, 10} }

  predicate Control(b: byte) { b < 0x20 || b == 0x7F }

  function HexValue(b: byte): Option<nat> {
    if 48 <= b <= 57 then Some(b - 48)
    else if 97 <= b <= 102 then Some(b - 97 + 10)
    else if 65 <= b <= 70 then Some(b - 65 + 10)
    else None
  }

  predicate AllHex(s: seq<byte>) { forall i :: 0 <= i < |s| ==> HexValue(s[i]).Some? }

  function HexNumber(s: seq<byte>): nat
    requires AllHex(s)
  {
    if s == [] then 0 else 16 * HexNumber(s[..|s| - 1]) + HexValue(s[|s| - 1]).value
  }

  /** The conversion of an unsigned 32-bit number to a signed rune. */
  function AsRune(v: nat): int { if v >= 0x8000_0000 then v - 0x1_0000_0000 else v }

  predicate RuneAllowed(r: int) { ValidRune(r) && r >= 0x20 && r != 0x7F }

  /** Digits after \x, \u and \U. */
  function HexDigits(letter: byte): nat {
    if letter == 120 then 2 else if letter == 117 then 4 else if letter == 85 then 8 else 0
  }

  // ----- the parser as a function of the remaining input -----

  datatype Error =
    | ExpectedOpen | TrailingContent | ExpectedString | Duplicate | ExpectedCommaOrClose
    | NotCleanText | ControlCharacter | UnterminatedEscape | ShortHex | InvalidHex | RuneNotAllowed
    | ControlEscape | UnsupportedEscape | UnterminatedString

  datatype Result<T> = Good(value: T, rest: seq<byte>) | Bad(error: Error)

  predicate Clean(s: seq<byte>) { s != [] && ValidText(s) && forall i :: 0 <= i < |Runes(s)| ==> Runes(s)[i] >= 0x20 && Runes(s)[i] != 0x7F }

  function Space(s: seq<byte>): seq<byte> { if s == [] || !White(s[0]) then s else Space(s[1..]) }

  predicate StartsWith(s: seq<byte>, b: byte) { s != [] && s[0] == b }

  function Hex(s: seq<byte>, digits: nat): Result<int> {
    if |s| < digits then Bad(ShortHex)
    else if digits == 0 || !AllHex(s[..digits]) then Bad(InvalidHex)
    else
      var r := AsRune(HexNumber(s[..digits]));
      if RuneAllowed(r) then Good(r, s[digits..]) else Bad(RuneNotAllowed)
  }

  function Chars(s: seq<byte>, quote: byte, read: seq<byte>): Result<seq<byte>>
    decreases |s|
  {
    if s == [] then Bad(UnterminatedString)
    else if s[0] == quote then if Clean(read) then Good(read, s[1..]) else Bad(NotCleanText)
    else if s[0] != Backslash then
      if Control(s[0]) then Bad(ControlCharacter) else Chars(s[1..], quote, read + [s[0]])
    else if |s| == 1 then Bad(UnterminatedEscape)
    else if s[1] in {Backslash, Quote, DoubleQuote, Slash} then Chars(s[2..], quote, read + [s[1]])
    else if HexDigits(s[1]) > 0 then
      match Hex(s[2..], HexDigits(s[1]))
      case Bad(e) => Bad(e)
      case Good(r, rest) => Chars(s[2 + HexDigits(s[1])..], quote, read + EncodeRune(r))
    else if s[1] in {97, 98, 102, 110, 114, 116, 118} then Bad(ControlEscape)
    else Bad(UnsupportedEscape)
  }

  function String(s: seq<byte>): Result<seq<byte>> {
    if s == [] || s[0] !in {Quote, DoubleQuote} then Bad(ExpectedString) else Chars(s[1..], s[0], [])
  }

  function End(s: seq<byte>, values: seq<seq<byte>>): Result<seq<seq<byte>>> {
    if Space(s) == [] then Good(values, []) else Bad(TrailingContent)
  }

  function Elements(s: seq<byte>, values: seq<seq<byte>>): Result<seq<seq<byte>>>
    decreases |s|
  {
    SpaceShrinks(s);
    match String(Space(s))
    case Bad(e) => Bad(e)
    case Good(value, rest) =>
      StringShrinks(Space(s));
      SpaceShrinks(rest);
      var after := Space(rest);
      if value in values then Bad(Duplicate)
      else if StartsWith(after, CloseBracket) then End(after[1..], values + [value])
      else if !StartsWith(after, Comma) then Bad(ExpectedCommaOrClose)
      else
        SpaceShrinks(after[1..]);
        var next := Space(after[1..]);
        if StartsWith(next, CloseBracket) then End(next[1..], values + [value]) else Elements(next, values + [value])
  }

  function Parse(s: seq<byte>): Result<seq<seq<byte>>> {
    var open := Space(s);
    if !StartsWith(open, OpenBracket) then Bad(ExpectedOpen)
    else
      var next := Space(open[1..]);
      if StartsWith(next, CloseBracket) then End(next[1..], []) else Elements(next, [])
  }

  lemma {:induction false} SpaceShrinks(s: seq<byte>)
    ensures |Space(s)| <= |s| && Space(s) == s[|s| - |Space(s)|..] && (Space(s) == [] || !White(Space(s)[0]))
  {
    if s != [] && White(s[0]) { SpaceShrinks(s[1..]); }
  }

  predicate AllWhite(s: seq<byte>) { forall i :: 0 <= i < |s| ==> White(s[i]) }

  lemma {:induction false} CharsShrink(s: seq<byte>, quote: byte, read: seq<byte>)
    requires Chars(s, quote, read).Good?
    ensures var r := Chars(s, quote, read); |r.rest| < |s| && r.rest == s[|s| - |r.rest|..] && Clean(r.value)
    decreases |s|
  {
    if s[0] != quote {
      if s[0] != Backslash { CharsShrink(s[1..], quote, read + [s[0]]); }
      else if s[1] in {Backslash, Quote, DoubleQuote, Slash} { CharsShrink(s[2..], quote, read + [s[1]]); }
      else {
        var n := HexDigits(s[1]);
        CharsShrink(s[2 + n..], quote, read + EncodeRune(Hex(s[2..], n).value));
      }
    }
  }

  lemma StringShrinks(s: seq<byte>)
    requires String(s).Good?
    ensures var r := String(s); |r.rest| < |s| && r.rest == s[|s| - |r.rest|..] && Clean(r.value)
  {
    CharsShrink(s[1..], s[0], []);
  }

  // ----- the parser object -----

  class PythonListParser {
    const input: seq<byte>
    var index: nat

    ghost predicate Valid() reads this { index <= |input| }

    /** What is still to be read. */
    ghost function Left(): seq<byte>
      requires Valid()
      reads this
    {
      input[index..]
    }

    constructor (input: seq<byte>)
      ensures Valid() && this.input == input && Left() == input
    {
      this.input := input;
      index := 0;
    }

    method SkipSpace()
      requires Valid()
      modifies this
      ensures Valid() && index >= old(index) && Left() == Space(old(Left()))
    {
      while index < |input| && White(input[index])
        invariant Valid() && index >= old(index) && Space(Left()) == Space(old(Left()))
      {
        assert Left()[1..] == input[index + 1..];
        index := index + 1;
      }
    }

    method Take(b: byte) returns (taken: bool)
      requires Valid()
      modifies this
      ensures Valid() && (taken <==> StartsWith(old(Left()), b))
      ensures index == old(index) + if taken then 1 else 0
      ensures Left() == if taken then old(Left())[1..] else old(Left())
    {
      taken := index < |input| && input[index] == b;
      if taken { index := index + 1; }
    }

    method HexRune(digits: nat) returns (r: Result<int>)
      requires Valid() && digits > 0
      modifies this
      ensures Valid() && index >= old(index) && r == Hex(old(Left()), digits)
      ensures r.Good? ==> Left() == r.rest
    {
      if index + digits > |input| { return Bad(ShortHex); }
      var text := input[index..index + digits];
      assert Left()[..digits] == text && Left()[digits..] == input[index + digits..];
      if !AllHex(text) { return Bad(InvalidHex); }
      index := index + digits;
      var rune := AsRune(HexNumber(text));
      if !RuneAllowed(rune) { return Bad(RuneNotAllowed); }
      r := Good(rune, input[index..]);
    }

    /** The method string: a quoted string from its opening to its closing quote. */
    method ReadString() returns (r: Result<seq<byte>>)
      requires Valid()
      modifies this
      ensures Valid() && index >= old(index) && r == String(old(Left()))
      ensures r.Good? ==> Left() == r.rest
    {
      if index >= |input| || (input[index] != Quote && input[index] != DoubleQuote) { return Bad(ExpectedString); }
      var quote := input[index];
      assert Left()[1..] == input[index + 1..];
      index := index + 1;
      var value: seq<byte> := [];
      while index < |input|
        invariant Valid() && index > old(index) && Chars(Left(), quote, value) == String(old(Left()))
      {
        ghost var left := Left();
        var c := input[index];
        index := index + 1;
        assert left[0] == c && left[1..] == Left();
        if c == quote {
          return if Clean(value) then Good(value, input[index..]) else Bad(NotCleanText);
        }
        if c != Backslash {
          if Control(c) { return Bad(ControlCharacter); }
          value := value + [c];
          continue;
        }
        if index >= |input| { return Bad(UnterminatedEscape); }
        var escaped := input[index];
        index := index + 1;
        assert left[1] == escaped && left[2..] == Left();
        if escaped in {Backslash, Quote, DoubleQuote, Slash} {
          value := value + [escaped];
        } else if HexDigits(escaped) > 0 {
          assert |left| >= 2 + HexDigits(escaped) ==> left[2..][HexDigits(escaped)..] == left[2 + HexDigits(escaped)..];
          var h := HexRune(HexDigits(escaped));
          if h.Bad? { return Bad(h.error); }
          value := value + EncodeRune(h.value);
        } else if escaped in {97, 98, 102, 110, 114, 116, 118} {
          return Bad(ControlEscape);
        } else {
          return Bad(UnsupportedEscape);
        }
      }
      r := Bad(UnterminatedString);
    }

    method Finish(values: seq<seq<byte>>) returns (r: Result<seq<seq<byte>>>)
      requires Valid()
      modifies this
      ensures r == End(old(Left()), values)
    {
      SkipSpace();
      r := if index != |input| then Bad(TrailingContent) else Good(values, []);
    }

    method ParseList() returns (r: Result<seq<seq<byte>>>)
      requires Valid()
      modifies this
      ensures r == Parse(old(Left()))
    {
      SkipSpace();
      var bracket := Take(OpenBracket);
      if !bracket { return Bad(ExpectedOpen); }
      SkipSpace();
      var closed := Take(CloseBracket);
      if closed { r := Finish([]); return; }
      r := ParseElements();
    }

    /** The element loop with its duplicate set. */
    method ParseElements() returns (r: Result<seq<seq<byte>>>)
      requires Valid()
      modifies this
      ensures r == Elements(old(Left()), [])
    {
      var values: seq<seq<byte>> := [];
      var seen: set<seq<byte>> := {};
      while true
        invariant Valid() && Elements(Left(), values) == Elements(old(Left()), [])
        invariant forall v :: v in seen <==> v in values
        decreases |input| - index
      {
        ghost var before := index;
        SkipSpace();
        var text := ReadString();
        if text.Bad? { return Bad(text.error); }
        if text.value in seen { return Bad(Duplicate); }
        seen, values := seen + {text.value}, values + [text.value];
        SkipSpace();
        var closed := Take(CloseBracket);
        if closed { break; }
        var comma := Take(Comma);
        if !comma { return Bad(ExpectedCommaOrClose); }
        SkipSpace();
        closed := Take(CloseBracket);
        if closed { break; }
      }
      r := Finish(values);
    }
  }
}
