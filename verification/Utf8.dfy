/** UTF-8 as the parsers use it: the validity scan, the encoder, and that they agree. */
module Utf8 {
  import opened Common

  predicate ValidRune(r: int) { 0 <= r < 0xD800 || 0xE000 <= r <= 0x10FFFF }

  function EncodeRune(r: int): (s: seq<byte>)
    requires ValidRune(r)
    ensures 1 <= |s| <= 4
  {
    var a, b, c := r / 64, r / 64 / 64, r / 64 / 64 / 64;
    if r < 0x80 then [r]
    else if r < 0x800 then [0xC0 + a, 0x80 + r % 64]
    else if r < 0x10000 then [0xE0 + b, 0x80 + a % 64, 0x80 + r % 64]
    else [0xF0 + c, 0x80 + b % 64, 0x80 + a % 64, 0x80 + r % 64]
  }

  predicate Tail(b: byte) { 0x80 <= b < 0xC0 }

  /** The second bytes allowed behind a lead byte of three or four. */
  predicate Second(lead: byte, b: byte) {
    if lead == 0xE0 then 0xA0 <= b < 0xC0
    else if lead == 0xED then 0x80 <= b < 0xA0
    else if lead == 0xF0 then 0x90 <= b < 0xC0
    else if lead == 0xF4 then 0x80 <= b < 0x90
    else Tail(b)
  }

  /** The length of the encoded rune in front, or zero if there is none. */
  function HeadLength(s: seq<byte>): (n: nat)
    ensures n <= |s|
  {
    if s == [] then 0
    else if s[0] < 0x80 then 1
    else if 0xC2 <= s[0] < 0xE0 then if |s| >= 2 && Tail(s[1]) then 2 else 0
    else if 0xE0 <= s[0] < 0xF0 then if |s| >= 3 && Second(s[0], s[1]) && Tail(s[2]) then 3 else 0
    else if 0xF0 <= s[0] <= 0xF4 then if |s| >= 4 && Second(s[0], s[1]) && Tail(s[2]) && Tail(s[3]) then 4 else 0
    else 0
  }

  function HeadRune(s: seq<byte>): (r: int)
    requires HeadLength(s) > 0
    ensures ValidRune(r)
  {
    var n := HeadLength(s);
    var b0: int := s[0];
    if n == 1 then b0
    else if n == 2 then (b0 - 0xC0) * 64 + Low(s[1])
    else if n == 3 then ((b0 - 0xE0) * 64 + Low(s[1])) * 64 + Low(s[2])
    else (((b0 - 0xF0) * 64 + Low(s[1])) * 64 + Low(s[2])) * 64 + Low(s[3])
  }

  /** The six payload bits of a continuation byte. */
  function Low(b: byte): int { b - 0x80 }

  lemma Base64(a: nat, d: nat)
    requires d < 64
    ensures (a * 64 + d) / 64 == a && (a * 64 + d) % 64 == d
  {
  }

  lemma TwoBytes(s: seq<byte>)
    requires HeadLength(s) == 2
    ensures EncodeRune(HeadRune(s)) == s[..2]
  {
    Base64(s[0] - 0xC0, Low(s[1]));
  }

  lemma ThreeBytes(s: seq<byte>)
    requires HeadLength(s) == 3
    ensures EncodeRune(HeadRune(s)) == s[..3]
  {
    Base64(s[0] - 0xE0, Low(s[1]));
    Base64((s[0] as int - 0xE0) * 64 + Low(s[1]), Low(s[2]));
  }

  lemma FourBytes(s: seq<byte>)
    requires HeadLength(s) == 4
    ensures EncodeRune(HeadRune(s)) == s[..4]
  {
    var a: int := s[0] - 0xF0;
    var b := a * 64 + Low(s[1]);
    var c := b * 64 + Low(s[2]);
    Base64(a, Low(s[1]));
    Base64(b, Low(s[2]));
    Base64(c, Low(s[3]));
    assert HeadRune(s) == c * 64 + Low(s[3]);
  }

  lemma HeadIsEncoded(s: seq<byte>)
    requires HeadLength(s) > 0
    ensures EncodeRune(HeadRune(s)) == s[..HeadLength(s)]
  {
    var n := HeadLength(s);
    if n == 2 { TwoBytes(s); } else if n == 3 { ThreeBytes(s); } else if n == 4 { FourBytes(s); }
  }

  predicate ValidText(s: seq<byte>) {
    s == [] || (HeadLength(s) > 0 && ValidText(s[HeadLength(s)..]))
  }

  function Runes(s: seq<byte>): (rs: seq<int>)
    requires ValidText(s)
    ensures forall i :: 0 <= i < |rs| ==> ValidRune(rs[i])
  {
    if s == [] then [] else [HeadRune(s)] + Runes(s[HeadLength(s)..])
  }

  function EncodeAll(rs: seq<int>): seq<byte>
    requires forall i :: 0 <= i < |rs| ==> ValidRune(rs[i])
  {
    if rs == [] then [] else EncodeRune(rs[0]) + EncodeAll(rs[1..])
  }

  lemma HeadOfEncoded(r: int, rest: seq<byte>)
    requires ValidRune(r)
    ensures HeadLength(EncodeRune(r) + rest) == |EncodeRune(r)| && HeadRune(EncodeRune(r) + rest) == r
  {
    var e := EncodeRune(r);
    var s := e + rest;
    assert forall i :: 0 <= i < |e| ==> s[i] == e[i];
    if r < 0x80 {
      assert s[0] == r;
    } else if r < 0x800 {
      assert HeadLength(s) == 2;
    } else if r < 0x10000 {
      assert HeadLength(s) == 3;
    } else {
      assert HeadLength(s) == 4;
    }
  }

  lemma EncodeCons(r: int, rs: seq<int>)
    requires ValidRune(r) && forall i :: 0 <= i < |rs| ==> ValidRune(rs[i])
    ensures forall i :: 0 <= i < |[r] + rs| ==> ValidRune(([r] + rs)[i])
    ensures EncodeAll([r] + rs) == EncodeRune(r) + EncodeAll(rs)
  {
    assert ([r] + rs)[1..] == rs;
  }

  lemma HeadThenRest(s: seq<byte>, rs: seq<int>)
    requires HeadLength(s) > 0 && (forall i :: 0 <= i < |rs| ==> ValidRune(rs[i])) && EncodeAll(rs) == s[HeadLength(s)..]
    ensures forall i :: 0 <= i < |[HeadRune(s)] + rs| ==> ValidRune(([HeadRune(s)] + rs)[i])
    ensures EncodeAll([HeadRune(s)] + rs) == s
  {
    var n, r := HeadLength(s), HeadRune(s);
    assert EncodeRune(r) == s[..n] by { HeadIsEncoded(s); }
    EncodeCons(r, rs);
    assert s == s[..n] + s[n..];
  }

  /** Text is valid exactly when it encodes some runes, and then it encodes its own. */
  lemma {:induction false} ValidMeansEncoded(s: seq<byte>)
    requires ValidText(s)
    ensures EncodeAll(Runes(s)) == s
  {
    if s != [] {
      ValidMeansEncoded(s[HeadLength(s)..]);
      HeadThenRest(s, Runes(s[HeadLength(s)..]));
    }
  }

  lemma {:induction false} EncodedIsValid(rs: seq<int>)
    requires forall i :: 0 <= i < |rs| ==> ValidRune(rs[i])
    ensures ValidText(EncodeAll(rs)) && Runes(EncodeAll(rs)) == rs
  {
    if rs != [] {
      EncodedIsValid(rs[1..]);
      var head, rest := EncodeRune(rs[0]), EncodeAll(rs[1..]);
      HeadOfEncoded(rs[0], rest);
      assert (head + rest)[|head|..] == rest;
    }
  }

  /** One rune of each length, as everybody encodes it: A, e acute, the euro sign and a face. */
  lemma KnownEncodings()
    ensures EncodeRune(0x41) == [0x41] && EncodeRune(0xE9) == [0xC3, 0xA9]
    ensures EncodeRune(0x20AC) == [0xE2, 0x82, 0xAC] && EncodeRune(0x1F600) == [0xF0, 0x9F, 0x98, 0x80]
  {
  }
}
