/** The binary patch filter (pkg/benchmark/swebenchpro/evaluate.go:376-421). A string holds one
    character per byte. */
module PatchFilter {
  import opened Common

  const MaxCandidatePatchSize := 0x100_0000

  const Header := "diff --git "

  // ----- sections of a patch -----

  predicate HeaderAt(s: string, p: nat) { p + |Header| <= |s| && s[p..p + |Header|] == Header }

  /** A section starts at a header that opens a line. */
  predicate IsStart(s: string, p: nat) { HeaderAt(s, p) && (p == 0 || s[p - 1] == '\n') }

  function NextStart(s: string, from: nat): (e: nat)
    requires from <= |s|
    ensures from <= e <= |s| && (e < |s| ==> IsStart(s, e))
    ensures forall p :: from <= p < e ==> !IsStart(s, p)
    decreases |s| - from
  {
    if from == |s| || IsStart(s, from) then from else NextStart(s, from + 1)
  }

  function Preamble(s: string): string { s[..NextStart(s, 0)] }

  /** The sections of a text that is empty or begins with one. */
  function SectionsFrom(s: string): seq<string> {
    if s == [] then [] else var e := NextStart(s, 1); [s[..e]] + SectionsFrom(s[e..])
  }

  function Sections(s: string): seq<string> { SectionsFrom(s[NextStart(s, 0)..]) }

  // ----- binary sections -----

  function Lines(s: string): (ls: seq<string>)
    ensures ls != []
  {
    if s == [] then [[]]
    else
      var rest := Lines(s[1..]);
      if s[0] == '\n' then [[]] + rest else [[s[0]] + rest[0]] + rest[1..]
  }

  predicate EndsWith(s: string, t: string) { |t| <= |s| && s[|s| - |t|..] == t }

  predicate BinaryLine(line: string) {
    line == "GIT binary patch" || ("Binary files " <= line && EndsWith(line, " differ"))
  }

  predicate Binary(section: string) { exists i :: 0 <= i < |Lines(section)| && BinaryLine(Lines(section)[i]) }

  method BinaryPatchSection(section: string) returns (binary: bool)
    ensures binary == Binary(section)
  {
    var lines := Lines(section);
    for i := 0 to |lines|
      invariant forall j :: 0 <= j < i ==> !BinaryLine(lines[j])
    {
      if BinaryLine(lines[i]) { return true; }
    }
    binary := false;
  }

  // ----- what the filter keeps -----

  function Keep(sections: seq<string>): seq<string> {
    if sections == [] then [] else (if Binary(sections[0]) then [] else [sections[0]]) + Keep(sections[1..])
  }

  /** The preamble and the text sections, in order. */
  function Filter(patch: string): string { Preamble(patch) + Concat(Keep(Sections(patch))) }

  // ----- finding the starts -----

  lemma {:induction false} NextIs(s: string, from: nat, e: nat)
    requires from <= e <= |s| && (e < |s| ==> IsStart(s, e)) && (forall p :: from <= p < e ==> !IsStart(s, p))
    ensures NextStart(s, from) == e
    decreases e - from
  {
    if from < e { NextIs(s, from + 1, e); }
  }

  lemma StartInSuffix(s: string, a: nat, q: nat)
    requires a <= |s| && 0 < q
    ensures IsStart(s[a..], q) <==> IsStart(s, a + q)
  {
    if q + |Header| <= |s[a..]| { assert s[a..][q..q + |Header|] == s[a + q..a + q + |Header|]; }
  }

  /** bytes.Index for the newline that opens a header line. */
  function IndexOfHeader(s: string): (r: Option<nat>)
    ensures r.Some? ==> IsStart(s, r.value + 1) && (forall p :: 1 <= p <= r.value ==> !IsStart(s, p))
    ensures r.None? ==> forall p: nat :: 1 <= p ==> !IsStart(s, p)
  {
    if s == [] then None
    else
      var e := NextStart(s, 1);
      if e == |s| then None else Some(e - 1)
  }

  ghost predicate Increasing(starts: seq<nat>) { forall i, j :: 0 <= i < j < |starts| ==> starts[i] < starts[j] }

  /** `starts` are the starts up to `limit`, in order. */
  ghost predicate StartsUpTo(s: string, starts: seq<nat>, limit: nat) {
    && Increasing(starts)
    && (forall i :: 0 <= i < |starts| ==> starts[i] <= limit && IsStart(s, starts[i]))
    && (forall p: nat :: p <= limit && IsStart(s, p) ==> p in starts)
  }

  lemma NoStartPastEnd(s: string, p: nat)
    ensures IsStart(s, p) ==> p < |s|
  {
  }

  lemma OneMoreStart(s: string, starts: seq<nat>, limit: nat, next: nat)
    requires StartsUpTo(s, starts, limit) && limit < next && IsStart(s, next) && (forall p :: limit < p < next ==> !IsStart(s, p))
    ensures StartsUpTo(s, starts + [next], next)
  {
    forall p: nat | p <= next && IsStart(s, p) ensures p in starts + [next] {
      if p <= limit { assert p in starts; }
    }
  }

  /** What the rest of the text says about the starts behind `a`. */
  lemma StartsBehind(s: string, a: nat, n: nat)
    requires a <= |s| && forall q :: 1 <= q < n ==> !IsStart(s[a..], q)
    ensures forall p :: a < p < a + n ==> !IsStart(s, p)
  {
    forall p | a < p < a + n ensures !IsStart(s, p) {
      StartInSuffix(s, a, p - a);
    }
  }

  lemma NoMoreStarts(s: string, starts: seq<nat>, limit: nat)
    requires limit <= |s| && StartsUpTo(s, starts, limit) && (forall p: nat :: 1 <= p ==> !IsStart(s[limit..], p))
    ensures StartsUpTo(s, starts, |s|)
  {
    StartsBehind(s, limit, |s| + 1);
    forall p: nat | p <= |s| && IsStart(s, p) ensures p in starts {
      assert p <= limit;
    }
  }

  method FindStarts(patch: string) returns (starts: seq<nat>)
    ensures StartsUpTo(patch, starts, |patch|)
  {
    starts := [];
    if Header <= patch { starts := [0]; }
    var offset := 0;
    while true
      invariant 0 <= offset <= |patch| && StartsUpTo(patch, starts, offset)
      decreases |patch| - offset
    {
      var index := IndexOfHeader(patch[offset..]);
      if index.None? {
        NoMoreStarts(patch, starts, offset);
        break;
      }
      var next := offset + index.value + 1;
      StartsBehind(patch, offset, index.value + 1);
      StartInSuffix(patch, offset, index.value + 1);
      OneMoreStart(patch, starts, offset, next);
      NoStartPastEnd(patch, next);
      offset, starts := next, starts + [next];
    }
  }

  // ----- the filter -----

  lemma FirstStart(s: string, starts: seq<nat>)
    requires StartsUpTo(s, starts, |s|)
    ensures NextStart(s, 0) == if starts == [] then |s| else starts[0]
  {
    var e := if starts == [] then |s| else starts[0];
    if starts != [] { NoStartPastEnd(s, e); }
    forall p | 0 <= p < e ensures !IsStart(s, p) {
      assert IsStart(s, p) ==> p in starts;
      assert p !in starts by { assert forall j :: 0 < j < |starts| ==> starts[0] < starts[j]; }
    }
    NextIs(s, 0, e);
  }

  function EndOf(s: string, starts: seq<nat>, i: nat): nat
    requires i < |starts|
  {
    if i + 1 < |starts| then starts[i + 1] else |s|
  }

  lemma NotBetween(starts: seq<nat>, i: nat, p: nat)
    requires Increasing(starts) && i < |starts| && starts[i] < p && (i + 1 < |starts| ==> p < starts[i + 1])
    ensures p !in starts
  {
    assert forall j :: 0 <= j < i ==> starts[j] < starts[i];
    assert forall j :: i + 1 < j < |starts| ==> starts[i + 1] < starts[j];
  }

  lemma SectionAt(s: string, starts: seq<nat>, i: nat)
    requires StartsUpTo(s, starts, |s|) && i < |starts|
    ensures starts[i] < EndOf(s, starts, i) <= |s|
    ensures SectionsFrom(s[starts[i]..]) == [s[starts[i]..EndOf(s, starts, i)]] + SectionsFrom(s[EndOf(s, starts, i)..])
  {
    var a, e := starts[i], EndOf(s, starts, i);
    NoStartPastEnd(s, a);
    var t := s[a..];
    forall q | 1 <= q < e - a ensures !IsStart(t, q) {
      StartInSuffix(s, a, q);
      assert IsStart(s, a + q) ==> a + q in starts;
      NotBetween(starts, i, a + q);
    }
    if e < |s| { StartInSuffix(s, a, e - a); }
    NextIs(t, 1, e - a);
    assert t[..e - a] == s[a..e] && t[e - a..] == s[e..];
  }

  function At(s: string, starts: seq<nat>, i: nat): nat { if i < |starts| then starts[i] else |s| }

  /** What the loop still has to write from start `i` on. */
  ghost function Pending(s: string, starts: seq<nat>, i: nat): string
    requires StartsUpTo(s, starts, |s|)
  {
    Concat(Keep(SectionsFrom(s[At(s, starts, i)..])))
  }

  lemma PendingStep(s: string, starts: seq<nat>, i: nat)
    requires StartsUpTo(s, starts, |s|) && i < |starts|
    ensures var end := At(s, starts, i + 1);
            && starts[i] < end <= |s|
            && Pending(s, starts, i) == (if Binary(s[starts[i]..end]) then [] else s[starts[i]..end]) + Pending(s, starts, i + 1)
  {
    SectionAt(s, starts, i);
    KeepOne(s[starts[i]..At(s, starts, i + 1)], SectionsFrom(s[At(s, starts, i + 1)..]));
  }

  lemma PendingStart(s: string, starts: seq<nat>)
    requires StartsUpTo(s, starts, |s|)
    ensures At(s, starts, 0) <= |s| && Filter(s) == s[..At(s, starts, 0)] + Pending(s, starts, 0)
    ensures Pending(s, starts, |starts|) == []
  {
    FirstStart(s, starts);
    assert s[|s|..] == [];
  }

  method StripBinaryPatchSections(patch: string) returns (r: Option<string>)
    ensures r == if |patch| > 16 * 1024 * 1024 then None else Some(Filter(patch))
  {
    if |patch| > MaxCandidatePatchSize { return None; }
    var starts := FindStarts(patch);
    PendingStart(patch, starts);
    if |starts| == 0 {
      assert patch[..|patch|] == patch && patch + [] == patch;
      return Some(patch);
    }
    var result := if starts[0] != 0 then patch[..starts[0]] else [];
    result := WriteText(patch, starts, result);
    r := Some(result);
  }

  /** The loop over the sections, writing those that are not binary. */
  method WriteText(patch: string, starts: seq<nat>, before: string) returns (result: string)
    requires StartsUpTo(patch, starts, |patch|)
    ensures result == before + Pending(patch, starts, 0)
  {
    PendingStart(patch, starts);
    result := before;
    ghost var want := before + Pending(patch, starts, 0);
    for index := 0 to |starts|
      invariant want == result + Pending(patch, starts, index)
    {
      PendingStep(patch, starts, index);
      var end := |patch|;
      if index + 1 < |starts| { end := starts[index + 1]; }
      var section := patch[starts[index]..end];
      var binary := BinaryPatchSection(section);
      Move(result, if binary then [] else section, Pending(patch, starts, index + 1));
      if !binary { result := result + section; } else { assert result + [] == result; }
    }
    assert result + [] == result;
  }

  lemma Move(a: string, b: string, c: string)
    ensures a + (b + c) == a + b + c
  {
  }

  lemma KeepOne(section: string, rest: seq<string>)
    ensures Concat(Keep([section] + rest)) == (if Binary(section) then [] else section) + Concat(Keep(rest))
  {
    assert ([section] + rest)[1..] == rest && [] + Keep(rest) == Keep(rest) && [] + Concat(Keep(rest)) == Concat(Keep(rest));
    ConcatFront(section, Keep(rest));
  }

  lemma ConcatFront(x: string, rest: seq<string>)
    ensures Concat([x] + rest) == x + Concat(rest)
  {
    ConcatAppend([x], rest);
    assert [x][..0] == [] && Concat([]) + x == x;
  }

  // ----- what the filter guarantees -----

  /** Sections in a row: each begins with a header and holds no other start, and each but the last
      ends its line. */
  predicate Section(s: string) { HeaderAt(s, 0) && forall p :: 1 <= p < |s| ==> !IsStart(s, p) }

  predicate EndsLine(s: string) { s != [] && s[|s| - 1] == '\n' }

  predicate Chain(sections: seq<string>) {
    && (forall i :: 0 <= i < |sections| ==> Section(sections[i]))
    && (forall i :: 0 <= i < |sections| - 1 ==> EndsLine(sections[i]))
  }

  /** A header never runs over the end of a line, so no start is hidden where texts meet. */
  lemma StartInFront(x: string, r: string, p: nat)
    requires p < |x| && (r == [] || EndsLine(x))
    ensures IsStart(x + r, p) <==> IsStart(x, p)
  {
    var s := x + r;
    if r == [] {
      assert s == x;
    } else if p + |Header| <= |x| {
      assert s[p..p + |Header|] == x[p..p + |Header|];
    } else if p + |Header| <= |s| {
      assert s[|x| - 1] == '\n' && s[p..p + |Header|][|x| - 1 - p] == '\n';
      assert forall i :: 0 <= i < |Header| ==> Header[i] != '\n';
    }
  }

  lemma {:induction false} JoinStarts(x: string, r: string, from: nat)
    requires from <= |x| && (forall p :: from <= p < |x| ==> !IsStart(x, p))
    requires r == [] || (HeaderAt(r, 0) && (x == [] || EndsLine(x)))
    ensures NextStart(x + r, from) == |x| && (x + r)[..|x|] == x && (x + r)[|x|..] == r
  {
    var s := x + r;
    forall p | from <= p < |x| ensures !IsStart(s, p) { StartInFront(x, r, p); }
    if r != [] { assert s[|x|..|x| + |Header|] == r[..|Header|]; }
    NextIs(s, from, |x|);
  }

  lemma ChainTail(sections: seq<string>)
    requires Chain(sections) && sections != []
    ensures Section(sections[0]) && Chain(sections[1..]) && (sections[1..] != [] ==> EndsLine(sections[0]))
    ensures Concat(sections) == sections[0] + Concat(sections[1..])
    ensures sections[1..] != [] ==> HeaderAt(Concat(sections[1..]), 0)
    ensures sections[1..] == [] ==> Concat(sections[1..]) == []
  {
    assert sections == [sections[0]] + sections[1..];
    ConcatFront(sections[0], sections[1..]);
    if |sections| > 1 {
      var rest := sections[1..];
      assert rest == [rest[0]] + rest[1..];
      ConcatFront(rest[0], rest[1..]);
      assert Concat(rest)[..|Header|] == rest[0][..|Header|];
    }
  }

  /** The sections of joined sections are those sections. */
  lemma {:induction false} SectionsOfChain(sections: seq<string>)
    requires Chain(sections)
    ensures SectionsFrom(Concat(sections)) == sections
  {
    if sections != [] {
      ChainTail(sections);
      SectionsOfChain(sections[1..]);
      JoinStarts(sections[0], Concat(sections[1..]), 1);
    }
  }

  lemma HeaderIsOneLine(s: string, i: nat)
    requires HeaderAt(s, 0) && i < |s| && s[i] == '\n'
    ensures i >= |Header|
  {
    assert forall k :: 0 <= k < |Header| ==> s[k] == s[0..|Header|][k] && Header[k] != '\n';
  }

  /** A text cut in front of a start keeps its other starts and ends its line. */
  lemma CutAtStart(s: string, e: nat, from: nat)
    requires from <= e <= |s| && (e < |s| ==> IsStart(s, e)) && (forall p :: from <= p < e ==> !IsStart(s, p))
    ensures forall p :: from <= p < e ==> !IsStart(s[..e], p)
    ensures e < |s| ==> (e == 0 || EndsLine(s[..e])) && HeaderAt(s[e..], 0)
  {
    var x, r := s[..e], s[e..];
    assert s == x + r;
    if e < |s| { assert r[0..|Header|] == s[e..e + |Header|]; }
    forall p | from <= p < e ensures !IsStart(x, p) { StartInFront(x, r, p); }
  }

  lemma FirstSection(s: string)
    requires HeaderAt(s, 0)
    ensures var e := NextStart(s, 1); Section(s[..e]) && (e < |s| ==> EndsLine(s[..e]) && HeaderAt(s[e..], 0))
  {
    var e := NextStart(s, 1);
    CutAtStart(s, e, 1);
    if e < |s| { HeaderIsOneLine(s, e - 1); }
    HeaderStays(s, e);
  }

  lemma HeaderStays(s: string, e: nat)
    requires HeaderAt(s, 0) && |Header| <= e <= |s|
    ensures HeaderAt(s[..e], 0)
  {
    assert s[..e][0..|Header|] == s[0..|Header|];
  }

  /** The sections of any text join to it. */
  lemma {:induction false} ChainOfSections(s: string)
    requires s == [] || HeaderAt(s, 0)
    ensures Chain(SectionsFrom(s)) && Concat(SectionsFrom(s)) == s
  {
    if s != [] {
      var e := NextStart(s, 1);
      FirstSection(s);
      var x, r := s[..e], s[e..];
      ChainOfSections(r);
      JoinFront(x, r);
      assert SectionsFrom(s) == [x] + SectionsFrom(r) && s == x + r;
    }
  }

  lemma JoinFront(x: string, r: string)
    requires Section(x) && (r != [] ==> EndsLine(x)) && Chain(SectionsFrom(r)) && Concat(SectionsFrom(r)) == r
    ensures Chain([x] + SectionsFrom(r)) && Concat([x] + SectionsFrom(r)) == x + r
  {
    ChainFront(x, SectionsFrom(r));
    ConcatFront(x, SectionsFrom(r));
  }

  lemma ChainFront(x: string, rest: seq<string>)
    requires Section(x) && Chain(rest) && (rest != [] ==> EndsLine(x))
    ensures Chain([x] + rest)
  {
    var all := [x] + rest;
    assert forall i :: 0 < i < |all| ==> all[i] == rest[i - 1];
  }

  lemma {:induction false} KeepIsChain(sections: seq<string>)
    requires Chain(sections)
    ensures Chain(Keep(sections)) && Keep(Keep(sections)) == Keep(sections)
    ensures forall i :: 0 <= i < |Keep(sections)| ==> !Binary(Keep(sections)[i])
    ensures sections == [] ==> Keep(sections) == []
  {
    if sections != [] {
      ChainTail(sections);
      KeepIsChain(sections[1..]);
      var rest := Keep(sections[1..]);
      if !Binary(sections[0]) {
        ChainFront(sections[0], rest);
        assert ([sections[0]] + rest)[1..] == rest;
      } else {
        assert [] + rest == rest;
      }
    }
  }

  /** A patch is its preamble and its sections. */
  lemma {:induction false} PatchIsItsParts(patch: string)
    ensures patch == Preamble(patch) + Concat(Sections(patch)) && Chain(Sections(patch))
    ensures forall p :: 0 <= p < |Preamble(patch)| ==> !IsStart(Preamble(patch), p)
    ensures Sections(patch) != [] ==> Preamble(patch) == [] || EndsLine(Preamble(patch))
  {
    CutAtStart(patch, NextStart(patch, 0), 0);
    ChainOfSections(patch[NextStart(patch, 0)..]);
  }

  /** The parts of the filtered patch are the same preamble and exactly the text sections. */
  lemma {:induction false} FilterKeepsText(patch: string)
    ensures Preamble(Filter(patch)) == Preamble(patch) && Sections(Filter(patch)) == Keep(Sections(patch))
    ensures forall i :: 0 <= i < |Sections(Filter(patch))| ==> !Binary(Sections(Filter(patch))[i])
  {
    PatchIsItsParts(patch);
    var pre, kept := Preamble(patch), Keep(Sections(patch));
    KeepIsChain(Sections(patch));
    if kept != [] { ChainTail(kept); assert HeaderAt(Concat(kept), 0) by { HeaderOfChain(kept); } }
    JoinStarts(pre, Concat(kept), 0);
    SectionsOfChain(kept);
  }

  lemma HeaderOfChain(sections: seq<string>)
    requires Chain(sections) && sections != []
    ensures HeaderAt(Concat(sections), 0)
  {
    ChainTail(sections);
    assert Concat(sections)[..|Header|] == sections[0][..|Header|];
  }

  /** Filtering again changes nothing, and never makes a patch longer. */
  lemma {:induction false} FilterTwice(patch: string)
    ensures Filter(Filter(patch)) == Filter(patch) && |Filter(patch)| <= |patch|
  {
    FilterKeepsText(patch);
    PatchIsItsParts(patch);
    KeepIsChain(Sections(patch));
    KeepIsShorter(Sections(patch));
  }

  lemma {:induction false} KeepIsShorter(sections: seq<string>)
    ensures |Concat(Keep(sections))| <= |Concat(sections)|
  {
    if sections != [] {
      assert sections == [sections[0]] + sections[1..];
      KeepOne(sections[0], sections[1..]);
      ConcatFront(sections[0], sections[1..]);
      KeepIsShorter(sections[1..]);
    }
  }
}
