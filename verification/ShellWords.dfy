/** The shell-word parser (pkg/benchmark/swebenchpro/command.go:47-99), proved equal to a
    character automaton, and the automaton proved to accept exactly a grammar. */
module ShellWords {
  import opened Common

  datatype Error = UnterminatedQuotedEscape | UnterminatedQuote | UnterminatedEscape | Metacharacter | EmptyWord

  datatype Parsed = Words(words: seq<string>) | Rejected(error: Error)

  predicate Blank(c: char) { c == ' ' || c == '\t' }

  predicate Meta(c: char) { c in {';', '$', '|', '&', '<', '>', '`', '\n', '\r', '\0'} }

  // ----- the automaton -----

  datatype Mode = Gap | Bare | Single | Double | DoubleEscape | Escape

  datatype Auto = Auto(words: seq<string>, word: string, mode: Mode) | Stuck(error: Error)

  const Start := Auto([], [], Gap)

  function BareStep(words: seq<string>, word: string, c: char): Auto {
    if c == '\'' then Auto(words, word, Single)
    else if c == '"' then Auto(words, word, Double)
    else if c == '\\' then Auto(words, word, Escape)
    else if Meta(c) then Stuck(Metacharacter)
    else Auto(words, word + [c], Bare)
  }

  function EndWord(words: seq<string>, word: string): Auto {
    if word == [] then Stuck(EmptyWord) else Auto(words + [word], [], Gap)
  }

  function Step(a: Auto, c: char): Auto {
    if a.Stuck? then a else
      match a.mode
      case Gap => if Blank(c) then a else BareStep(a.words, [], c)
      case Bare => if Blank(c) then EndWord(a.words, a.word) else BareStep(a.words, a.word, c)
      case Single => if c == '\'' then a.(mode := Bare) else a.(word := a.word + [c])
      case Double => if c == '"' then a.(mode := Bare) else if c == '\\' then a.(mode := DoubleEscape) else a.(word := a.word + [c])
      case DoubleEscape => a.(word := a.word + [c], mode := Double)
      case Escape => a.(word := a.word + [c], mode := Bare)
  }

  function Run(a: Auto, s: string): Auto
    decreases |s|
  {
    if s == [] then a else Run(Step(a, s[0]), s[1..])
  }

  function Finish(a: Auto): Parsed {
    if a.Stuck? then Rejected(a.error) else
      match a.mode
      case Gap => Words(a.words)
      case Bare => if a.word == [] then Rejected(EmptyWord) else Words(a.words + [a.word])
      case Single => Rejected(UnterminatedQuote)
      case Double => Rejected(UnterminatedQuote)
      case DoubleEscape => Rejected(UnterminatedQuotedEscape)
      case Escape => Rejected(UnterminatedEscape)
  }

  function Parse(line: string): Parsed { Finish(Run(Start, line)) }

  lemma {:induction false} RunConcat(a: Auto, s: string, t: string)
    ensures Run(a, s + t) == Run(Run(a, s), t)
    decreases |s|
  {
    if s == [] {
      assert s + t == t;
    } else {
      assert (s + t)[1..] == s[1..] + t;
      RunConcat(Step(a, s[0]), s[1..], t);
    }
  }

  lemma {:induction false} StuckStays(e: Error, s: string)
    ensures Run(Stuck(e), s) == Stuck(e)
  {
    if s != [] { StuckStays(e, s[1..]); }
  }

  // ----- the parser -----

  lemma Peel(a: Auto, line: string, i: nat)
    requires i < |line|
    ensures Run(a, line[i..]) == Run(Step(a, line[i]), line[i + 1..])
  {
    assert line[i..][0] == line[i] && line[i..][1..] == line[i + 1..];
  }

  /** parseShellWords, with its nested index loops. */
  method ParseShellWords(line: string) returns (r: Parsed)
    ensures r == Parse(line)
  {
    var words: seq<string> := [];
    var index := 0;
    assert line[0..] == line;
    while index < |line|
      invariant 0 <= index <= |line| && Parse(line) == Finish(Run(Auto(words, [], Gap), line[index..]))
    {
      while index < |line| && Blank(line[index])
        invariant 0 <= index <= |line| && Parse(line) == Finish(Run(Auto(words, [], Gap), line[index..]))
      {
        Peel(Auto(words, [], Gap), line, index);
        index := index + 1;
      }
      if index == |line| { break; }
      var word, next, error := ReadWord(words, line, index);
      if error.Some? { return Rejected(error.value); }
      if word == [] {
        if next < |line| { Peel(Auto(words, word, Bare), line, next); StuckStays(EmptyWord, line[next + 1..]); }
        return Rejected(EmptyWord);
      }
      if next < |line| { WordEnds(words, word, line, next); }
      words, index := words + [word], next;
    }
    r := Words(words);
  }

  lemma WordEnds(words: seq<string>, word: string, line: string, i: nat)
    requires i < |line| && Blank(line[i]) && word != []
    ensures Run(Auto(words, word, Bare), line[i..]) == Run(Auto(words + [word], [], Gap), line[i..])
  {
    Peel(Auto(words, word, Bare), line, i);
    Peel(Auto(words + [word], [], Gap), line, i);
  }

  /** One word, from its first character to the blank or end behind it. */
  method ReadWord(ghost words: seq<string>, line: string, start: nat) returns (word: string, index: nat, error: Option<Error>)
    requires start < |line| && !Blank(line[start])
    ensures error.Some? ==> Finish(Run(Auto(words, [], Gap), line[start..])) == Rejected(error.value)
    ensures error.None? ==> start < index <= |line| && (index < |line| ==> Blank(line[index]))
    ensures error.None? ==> Run(Auto(words, [], Gap), line[start..]) == Run(Auto(words, word, Bare), line[index..])
  {
    word, index, error := [], start, None;
    Peel(Auto(words, [], Gap), line, start);
    Peel(Auto(words, [], Bare), line, start);
    while index < |line| && !Blank(line[index])
      invariant start <= index <= |line| && error.None?
      invariant Run(Auto(words, [], Gap), line[start..]) == Run(Auto(words, word, Bare), line[index..])
    {
      Peel(Auto(words, word, Bare), line, index);
      var c := line[index];
      index := index + 1;
      if c == '\'' || c == '"' {
        word, index, error := ReadQuoted(words, word, line, index, c);
        if error.Some? { return; }
      } else if c == '\\' {
        if index == |line| { error := Some(UnterminatedEscape); return; }
        Peel(Auto(words, word, Escape), line, index);
        word, index := word + [line[index]], index + 1;
      } else if Meta(c) {
        StuckStays(Metacharacter, line[index..]);
        error := Some(Metacharacter);
        return;
      } else {
        word := word + [c];
      }
    }
  }

  function Inside(quote: char): Mode { if quote == '"' then Double else Single }

  /** The rest of a quoted piece, up to and over its closing quote. */
  method ReadQuoted(ghost words: seq<string>, before: string, line: string, start: nat, quote: char)
    returns (word: string, index: nat, error: Option<Error>)
    requires start <= |line| && quote in {'\'', '"'}
    ensures error.Some? ==> Finish(Run(Auto(words, before, Inside(quote)), line[start..])) == Rejected(error.value)
    ensures error.None? ==> start < index <= |line|
    ensures error.None? ==> Run(Auto(words, before, Inside(quote)), line[start..]) == Run(Auto(words, word, Bare), line[index..])
  {
    word, index, error := before, start, None;
    while index < |line| && line[index] != quote
      invariant start <= index <= |line| && error.None?
      invariant Run(Auto(words, before, Inside(quote)), line[start..]) == Run(Auto(words, word, Inside(quote)), line[index..])
    {
      Peel(Auto(words, word, Inside(quote)), line, index);
      if quote == '"' && line[index] == '\\' {
        index := index + 1;
        if index == |line| { error := Some(UnterminatedQuotedEscape); return; }
        Peel(Auto(words, word, DoubleEscape), line, index);
      }
      word, index := word + [line[index]], index + 1;
    }
    if index == |line| { error := Some(UnterminatedQuote); return; }
    Peel(Auto(words, word, Inside(quote)), line, index);
    index := index + 1;
  }

  // ----- the grammar -----

  /** A character inside double quotes, possibly behind a backslash. */
  datatype Part = Part(escaped: bool, c: char)

  datatype Piece = Plain(c: char) | Escaped(c: char) | SingleQuoted(s: string) | DoubleQuoted(parts: seq<Part>)

  /** A word with the blanks in front of it. */
  datatype Item = Item(gap: string, pieces: seq<Piece>)

  predicate GoodPart(p: Part) { p.escaped || p.c !in {'"', '\\'} }

  predicate GoodParts(parts: seq<Part>) { forall i :: 0 <= i < |parts| ==> GoodPart(parts[i]) }

  predicate GoodPiece(p: Piece) {
    match p
    case Plain(c) => !Blank(c) && !Meta(c) && c !in {'\'', '"', '\\'}
    case Escaped(_) => true
    case SingleQuoted(s) => '\'' !in s
    case DoubleQuoted(parts) => GoodParts(parts)
  }

  predicate AllBlank(s: string) { forall i :: 0 <= i < |s| ==> Blank(s[i]) }

  predicate GoodPieces(pieces: seq<Piece>) { forall i :: 0 <= i < |pieces| ==> GoodPiece(pieces[i]) }

  predicate GoodItem(item: Item) { AllBlank(item.gap) && GoodPieces(item.pieces) && Meaning(item.pieces) != [] }

  /** Words are separated by blanks; the first needs none in front. */
  predicate GoodItems(items: seq<Item>) {
    (forall i :: 0 <= i < |items| ==> GoodItem(items[i])) && (forall i :: 1 <= i < |items| ==> items[i].gap != [])
  }

  function PartsText(parts: seq<Part>): string {
    if parts == [] then [] else
      var p := parts[|parts| - 1];
      PartsText(parts[..|parts| - 1]) + (if p.escaped then ['\\', p.c] else [p.c])
  }

  function PartsMeaning(parts: seq<Part>): string {
    if parts == [] then [] else PartsMeaning(parts[..|parts| - 1]) + [parts[|parts| - 1].c]
  }

  function PieceText(p: Piece): string {
    match p
    case Plain(c) => [c]
    case Escaped(c) => ['\\', c]
    case SingleQuoted(s) => ['\''] + s + ['\'']
    case DoubleQuoted(parts) => ['"'] + PartsText(parts) + ['"']
  }

  function PieceMeaning(p: Piece): string {
    match p
    case Plain(c) => [c]
    case Escaped(c) => [c]
    case SingleQuoted(s) => s
    case DoubleQuoted(parts) => PartsMeaning(parts)
  }

  function Text(pieces: seq<Piece>): string {
    if pieces == [] then [] else Text(pieces[..|pieces| - 1]) + PieceText(pieces[|pieces| - 1])
  }

  function Meaning(pieces: seq<Piece>): string {
    if pieces == [] then [] else Meaning(pieces[..|pieces| - 1]) + PieceMeaning(pieces[|pieces| - 1])
  }

  function ItemsText(items: seq<Item>): string {
    if items == [] then [] else
      var item := items[|items| - 1];
      ItemsText(items[..|items| - 1]) + (item.gap + Text(item.pieces))
  }

  function ItemsWords(items: seq<Item>): seq<string> {
    if items == [] then [] else ItemsWords(items[..|items| - 1]) + [Meaning(items[|items| - 1].pieces)]
  }

  // ----- everything in the grammar is accepted, with its meaning -----

  lemma {:induction false} RunSingle(words: seq<string>, word: string, s: string)
    requires '\'' !in s
    ensures Run(Auto(words, word, Single), s) == Auto(words, word + s, Single)
    decreases |s|
  {
    if s == [] {
      assert word + s == word;
    } else {
      RunSingle(words, word + [s[0]], s[1..]);
      assert word + [s[0]] + s[1..] == word + s;
    }
  }

  lemma {:induction false} RunParts(words: seq<string>, word: string, parts: seq<Part>)
    requires GoodParts(parts)
    ensures Run(Auto(words, word, Double), PartsText(parts)) == Auto(words, word + PartsMeaning(parts), Double)
  {
    if parts == [] {
      assert word + PartsMeaning(parts) == word;
    } else {
      var before, p := parts[..|parts| - 1], parts[|parts| - 1];
      RunParts(words, word, before);
      var piece := if p.escaped then ['\\', p.c] else [p.c];
      RunConcat(Auto(words, word, Double), PartsText(before), piece);
      RunPart(words, word + PartsMeaning(before), p);
      assert word + PartsMeaning(before) + [p.c] == word + PartsMeaning(parts);
    }
  }

  lemma RunOne(a: Auto, c: char)
    ensures Run(a, [c]) == Step(a, c)
  {
    assert [c][1..] == [];
  }

  lemma RunTwo(a: Auto, c: char, d: char)
    ensures Run(a, [c, d]) == Step(Step(a, c), d)
  {
    assert [c, d][1..] == [d];
    RunOne(Step(a, c), d);
  }

  lemma RunPart(words: seq<string>, word: string, p: Part)
    requires GoodPart(p)
    ensures Run(Auto(words, word, Double), if p.escaped then ['\\', p.c] else [p.c]) == Auto(words, word + [p.c], Double)
  {
    if p.escaped { RunTwo(Auto(words, word, Double), '\\', p.c); } else { RunOne(Auto(words, word, Double), p.c); }
  }

  lemma {:induction false} RunPiece(words: seq<string>, word: string, p: Piece)
    requires GoodPiece(p)
    ensures Run(Auto(words, word, Bare), PieceText(p)) == Auto(words, word + PieceMeaning(p), Bare)
  {
    var a := Auto(words, word, Bare);
    match p
    case Plain(c) => RunOne(a, c);
    case Escaped(c) => RunTwo(a, '\\', c);
    case SingleQuoted(s) =>
      RunConcat(a, ['\''] + s, ['\'']);
      RunConcat(a, ['\''], s);
      RunOne(a, '\'');
      RunSingle(words, word, s);
      RunOne(Auto(words, word + s, Single), '\'');
    case DoubleQuoted(parts) =>
      RunConcat(a, ['"'] + PartsText(parts), ['"']);
      RunConcat(a, ['"'], PartsText(parts));
      RunOne(a, '"');
      RunParts(words, word, parts);
      RunOne(Auto(words, word + PartsMeaning(parts), Double), '"');
  }

  lemma {:induction false} RunPieces(words: seq<string>, pieces: seq<Piece>)
    requires GoodPieces(pieces)
    ensures Run(Auto(words, [], Bare), Text(pieces)) == Auto(words, Meaning(pieces), Bare)
  {
    if pieces != [] {
      var before, p := pieces[..|pieces| - 1], pieces[|pieces| - 1];
      RunPieces(words, before);
      RunConcat(Auto(words, [], Bare), Text(before), PieceText(p));
      RunPiece(words, Meaning(before), p);
    }
  }

  lemma {:induction false} RunGap(words: seq<string>, gap: string)
    requires AllBlank(gap)
    ensures Run(Auto(words, [], Gap), gap) == Auto(words, [], Gap)
    decreases |gap|
  {
    if gap != [] { RunGap(words, gap[1..]); }
  }

  /** A word may as well start in the gap: its first character is not a blank. */
  lemma {:induction false} TextStart(pieces: seq<Piece>)
    requires pieces != [] && GoodPieces(pieces)
    ensures Text(pieces) != [] && !Blank(Text(pieces)[0])
  {
    var before := pieces[..|pieces| - 1];
    if before == [] {
      assert Text(pieces) == [] + PieceText(pieces[0]);
    } else {
      TextStart(before);
    }
  }

  lemma GapOrBare(words: seq<string>, s: string)
    requires s != [] && !Blank(s[0])
    ensures Run(Auto(words, [], Gap), s) == Run(Auto(words, [], Bare), s)
  {
  }

  lemma BareOrGap(words: seq<string>, word: string, s: string)
    requires s != [] && Blank(s[0]) && word != []
    ensures Run(Auto(words, word, Bare), s) == Run(Auto(words + [word], [], Gap), s)
  {
    assert Step(Auto(words, word, Bare), s[0]) == Step(Auto(words + [word], [], Gap), s[0]);
  }

  /** After the items, the automaton is behind their last word. */
  function Behind(items: seq<Item>): Auto {
    if items == [] then Start
    else Auto(ItemsWords(items[..|items| - 1]), Meaning(items[|items| - 1].pieces), Bare)
  }

  lemma {:induction false} RunItem(before: Auto, words: seq<string>, item: Item)
    requires GoodItem(item)
    requires before == Auto(words, [], Gap) || (words != [] && before == Auto(words[..|words| - 1], words[|words| - 1], Bare) && words[|words| - 1] != [] && item.gap != [])
    ensures Run(before, item.gap + Text(item.pieces)) == Auto(words, Meaning(item.pieces), Bare)
  {
    RunConcat(before, item.gap, Text(item.pieces));
    if before.mode == Bare {
      BareOrGap(before.words, before.word, item.gap);
      assert before.words + [before.word] == words;
    }
    RunGap(words, item.gap);
    TextStart(item.pieces);
    GapOrBare(words, Text(item.pieces));
    RunPieces(words, item.pieces);
  }

  lemma {:induction false} RunItems(items: seq<Item>)
    requires GoodItems(items)
    ensures Run(Start, ItemsText(items)) == Behind(items)
  {
    if items != [] {
      var before, item := items[..|items| - 1], items[|items| - 1];
      RunItems(before);
      RunConcat(Start, ItemsText(before), item.gap + Text(item.pieces));
      if before != [] { assert before[|before| - 1] == items[|before| - 1]; }
      assert GoodItem(item);
      RunItem(Behind(before), ItemsWords(before), item);
    }
  }

  lemma {:induction false} GrammarIsAccepted(items: seq<Item>, tail: string)
    requires GoodItems(items) && AllBlank(tail)
    ensures Parse(ItemsText(items) + tail) == Words(ItemsWords(items))
  {
    RunItems(items);
    RunConcat(Start, ItemsText(items), tail);
    if items == [] {
      RunGap([], tail);
    } else {
      var last := items[|items| - 1];
      assert GoodItem(last);
      if tail != [] {
        BareOrGap(ItemsWords(items[..|items| - 1]), Meaning(last.pieces), tail);
        RunGap(ItemsWords(items), tail);
      }
    }
  }

  // ----- nothing else is accepted -----

  /** What is still open at the end of a prefix. */
  datatype Open = Between | InWord | InSingle(s: string) | InDouble(parts: seq<Part>) | InDoubleEscape(parts: seq<Part>) | InEscape

  /** A prefix taken apart: whole items, then the gap and the pieces of the current word. */
  datatype Sketch = Sketch(items: seq<Item>, gap: string, pieces: seq<Piece>, open: Open)

  function OpenText(o: Open): string {
    match o
    case Between => []
    case InWord => []
    case InSingle(s) => ['\''] + s
    case InDouble(parts) => ['"'] + PartsText(parts)
    case InDoubleEscape(parts) => ['"'] + PartsText(parts) + ['\\']
    case InEscape => ['\\']
  }

  function OpenMeaning(o: Open): string {
    match o
    case InSingle(s) => s
    case InDouble(parts) => PartsMeaning(parts)
    case InDoubleEscape(parts) => PartsMeaning(parts)
    case _ => []
  }

  function OpenMode(o: Open): Mode {
    match o
    case Between => Gap
    case InWord => Bare
    case InSingle(_) => Single
    case InDouble(_) => Double
    case InDoubleEscape(_) => DoubleEscape
    case InEscape => Escape
  }

  predicate GoodOpen(o: Open) {
    match o
    case InSingle(s) => '\'' !in s
    case InDouble(parts) => GoodParts(parts)
    case InDoubleEscape(parts) => GoodParts(parts)
    case _ => true
  }

  predicate GoodSketch(k: Sketch) {
    && GoodItems(k.items) && AllBlank(k.gap) && (k.items != [] ==> k.gap != []) && GoodPieces(k.pieces) && GoodOpen(k.open)
    && (k.open == Between ==> k.pieces == [])
  }

  function SketchText(k: Sketch): string { ItemsText(k.items) + (k.gap + (Text(k.pieces) + OpenText(k.open))) }

  function SketchState(k: Sketch): Auto {
    Auto(ItemsWords(k.items), Meaning(k.pieces) + OpenMeaning(k.open), OpenMode(k.open))
  }

  function GrowWord(k: Sketch, c: char): Sketch {
    if c == '\'' then k.(open := InSingle([]))
    else if c == '"' then k.(open := InDouble([]))
    else if c == '\\' then k.(open := InEscape)
    else k.(pieces := k.pieces + [Plain(c)], open := InWord)
  }

  function Grow(k: Sketch, c: char): Sketch {
    match k.open
    case Between => if Blank(c) then k.(gap := k.gap + [c]) else GrowWord(k, c)
    case InWord => if Blank(c) then Sketch(k.items + [Item(k.gap, k.pieces)], [c], [], Between) else GrowWord(k, c)
    case InSingle(s) => if c == '\'' then k.(pieces := k.pieces + [SingleQuoted(s)], open := InWord) else k.(open := InSingle(s + [c]))
    case InDouble(parts) =>
      if c == '"' then k.(pieces := k.pieces + [DoubleQuoted(parts)], open := InWord)
      else if c == '\\' then k.(open := InDoubleEscape(parts))
      else k.(open := InDouble(parts + [Part(false, c)]))
    case InDoubleEscape(parts) => k.(open := InDouble(parts + [Part(true, c)]))
    case InEscape => k.(pieces := k.pieces + [Escaped(c)], open := InWord)
  }

  lemma PartsSnoc(parts: seq<Part>, p: Part)
    ensures PartsText(parts + [p]) == PartsText(parts) + (if p.escaped then ['\\', p.c] else [p.c])
    ensures PartsMeaning(parts + [p]) == PartsMeaning(parts) + [p.c]
  {
    assert (parts + [p])[..|parts|] == parts;
  }

  lemma PiecesSnoc(pieces: seq<Piece>, p: Piece)
    ensures Text(pieces + [p]) == Text(pieces) + PieceText(p) && Meaning(pieces + [p]) == Meaning(pieces) + PieceMeaning(p)
  {
    assert (pieces + [p])[..|pieces|] == pieces;
  }

  lemma ItemsSnoc(items: seq<Item>, item: Item)
    ensures ItemsText(items + [item]) == ItemsText(items) + (item.gap + Text(item.pieces))
    ensures ItemsWords(items + [item]) == ItemsWords(items) + [Meaning(item.pieces)]
  {
    assert (items + [item])[..|items|] == items;
  }

  lemma Assoc(a: string, b: string, c: string)
    ensures a + b + c == a + (b + c)
  {
  }

  lemma GoodPiecesSnoc(pieces: seq<Piece>, p: Piece)
    requires GoodPieces(pieces) && GoodPiece(p)
    ensures GoodPieces(pieces + [p])
  {
  }

  lemma GoodItemsSnoc(items: seq<Item>, item: Item)
    requires GoodItems(items) && GoodItem(item) && (items != [] ==> item.gap != [])
    ensures GoodItems(items + [item])
  {
  }

  /** The piece a character completes, if it completes one. */
  function Completed(o: Open, c: char): seq<Piece> {
    match o
    case Between => if c in {'\'', '"', '\\'} then [] else [Plain(c)]
    case InWord => if c in {'\'', '"', '\\'} then [] else [Plain(c)]
    case InSingle(s) => if c == '\'' then [SingleQuoted(s)] else []
    case InDouble(parts) => if c == '"' then [DoubleQuoted(parts)] else []
    case InDoubleEscape(_) => []
    case InEscape => [Escaped(c)]
  }

  predicate InsideWord(o: Open, c: char) { !(o in {Between, InWord} && Blank(c)) }

  lemma GrowShape(k: Sketch, c: char)
    requires InsideWord(k.open, c)
    ensures var g := Grow(k, c); g == Sketch(k.items, k.gap, k.pieces + Completed(k.open, c), g.open)
  {
    if Completed(k.open, c) == [] { assert k.pieces + [] == k.pieces; }
  }

  lemma GrowOpens(k: Sketch, c: char)
    requires InsideWord(k.open, c)
    ensures Completed(k.open, c) == [] ==> OpenText(Grow(k, c).open) == OpenText(k.open) + [c]
    ensures Completed(k.open, c) != [] ==> OpenText(Grow(k, c).open) == [] && PieceText(Completed(k.open, c)[0]) == OpenText(k.open) + [c]
  {
    match k.open
    case Between => assert [] + [c] == [c];
    case InWord => assert [] + [c] == [c];
    case InSingle(s) => assert ['\''] + s + [c] == ['\''] + (s + [c]);
    case InDouble(parts) => OpensDouble(parts, c);
    case InDoubleEscape(parts) => OpensEscape(parts, c);
    case InEscape => assert ['\\'] + [c] == ['\\', c];
  }

  lemma OpensDouble(parts: seq<Part>, c: char)
    ensures c != '"' && c != '\\' ==> OpenText(InDouble(parts + [Part(false, c)])) == OpenText(InDouble(parts)) + [c]
  {
    if c != '"' && c != '\\' { PartsSnoc(parts, Part(false, c)); }
  }

  lemma OpensEscape(parts: seq<Part>, c: char)
    ensures OpenText(InDouble(parts + [Part(true, c)])) == OpenText(InDoubleEscape(parts)) + [c]
  {
    PartsSnoc(parts, Part(true, c));
  }

  lemma GoodPartsSnoc(parts: seq<Part>, p: Part)
    requires GoodParts(parts) && GoodPart(p)
    ensures GoodParts(parts + [p])
  {
  }

  /** A character that the automaton takes leaves good pieces and a good rest. */
  lemma GrowOpenGood(k: Sketch, c: char)
    requires InsideWord(k.open, c) && GoodOpen(k.open) && !BareMeta(k.open, c)
    ensures GoodOpen(Grow(k, c).open) && Grow(k, c).open != Between
    ensures Completed(k.open, c) != [] ==> GoodPiece(Completed(k.open, c)[0])
  {
    match k.open
    case InDouble(parts) => if c != '"' && c != '\\' { GoodPartsSnoc(parts, Part(false, c)); }
    case InDoubleEscape(parts) => GoodPartsSnoc(parts, Part(true, c));
    case _ =>
  }

  /** An unquoted metacharacter. */
  predicate BareMeta(o: Open, c: char) { o in {Between, InWord} && Meta(c) }

  lemma NotMeta(k: Sketch, c: char)
    requires InsideWord(k.open, c) && !Step(SketchState(k), c).Stuck?
    ensures !BareMeta(k.open, c)
  {
  }

  lemma GrowGood(k: Sketch, c: char)
    requires InsideWord(k.open, c) && GoodSketch(k) && !Step(SketchState(k), c).Stuck?
    ensures GoodOpen(Grow(k, c).open) && GoodPieces(k.pieces + Completed(k.open, c)) && Grow(k, c).open != Between
  {
    NotMeta(k, c);
    GrowOpenGood(k, c);
    if Completed(k.open, c) != [] { GoodPiecesSnoc(k.pieces, Completed(k.open, c)[0]); }
  }

  /** What a character adds to the word. */
  function Added(o: Open, c: char): string {
    match o
    case Between => if c in {'\'', '"', '\\'} then [] else [c]
    case InWord => if c in {'\'', '"', '\\'} then [] else [c]
    case InSingle(_) => if c == '\'' then [] else [c]
    case InDouble(_) => if c in {'"', '\\'} then [] else [c]
    case InDoubleEscape(_) => [c]
    case InEscape => [c]
  }

  lemma StepAdds(k: Sketch, words: seq<string>, word: string, c: char)
    requires InsideWord(k.open, c) && (k.open == Between ==> word == [])
    requires !Step(Auto(words, word, OpenMode(k.open)), c).Stuck?
    ensures Step(Auto(words, word, OpenMode(k.open)), c) == Auto(words, word + Added(k.open, c), OpenMode(Grow(k, c).open))
  {
    assert word + [] == word;
  }

  lemma OpensAdd(k: Sketch, c: char)
    requires InsideWord(k.open, c)
    ensures Completed(k.open, c) == [] ==> OpenMeaning(Grow(k, c).open) == OpenMeaning(k.open) + Added(k.open, c)
    ensures Completed(k.open, c) != [] ==> OpenMeaning(Grow(k, c).open) == [] && PieceMeaning(Completed(k.open, c)[0]) == OpenMeaning(k.open) + Added(k.open, c)
  {
    match k.open
    case InDouble(parts) => if c != '"' && c != '\\' { PartsSnoc(parts, Part(false, c)); }
    case InDoubleEscape(parts) => PartsSnoc(parts, Part(true, c));
    case _ =>
  }

  lemma GrowMeaning(k: Sketch, c: char)
    requires InsideWord(k.open, c) && !Step(SketchState(k), c).Stuck? && (k.open == Between ==> k.pieces == [])
    ensures SketchState(Grow(k, c)) == Step(SketchState(k), c)
  {
    var m, o := Meaning(k.pieces), OpenMeaning(k.open);
    StepAdds(k, ItemsWords(k.items), m + o, c);
    GrowShape(k, c);
    GrowOpens(k, c);
    OpensAdd(k, c);
    Assoc(m, o, Added(k.open, c));
    JoinGrown(k, c);
  }

  /** A completed piece moves its text and meaning from what is open to the pieces. */
  lemma JoinGrown(k: Sketch, c: char)
    requires InsideWord(k.open, c)
    ensures var g := Grow(k, c);
            && Text(g.pieces) + OpenText(g.open) == Text(k.pieces) + (OpenText(k.open) + [c])
            && Meaning(g.pieces) + OpenMeaning(g.open) == Meaning(k.pieces) + (OpenMeaning(k.open) + Added(k.open, c))
  {
    GrowShape(k, c);
    GrowOpens(k, c);
    OpensAdd(k, c);
    var done := Completed(k.open, c);
    if done != [] {
      assert done == [done[0]];
      PiecesSnoc(k.pieces, done[0]);
    } else {
      assert k.pieces + done == k.pieces;
    }
  }

  lemma GrowInWord(k: Sketch, c: char)
    requires InsideWord(k.open, c) && GoodSketch(k) && !Step(SketchState(k), c).Stuck?
    ensures GoodSketch(Grow(k, c)) && SketchText(Grow(k, c)) == SketchText(k) + [c]
  {
    GrowShape(k, c);
    GrowOpens(k, c);
    assert GoodSketch(Grow(k, c)) by { GrowGood(k, c); }
    JoinGrown(k, c);
    AppendDeep(ItemsText(k.items), k.gap, Text(k.pieces), OpenText(k.open), [c]);
  }

  lemma AppendDeep(i: string, g: string, t: string, o: string, c: string)
    ensures i + (g + (t + (o + c))) == i + (g + (t + o)) + c
  {
    Assoc(t, o, c);
    Assoc(g, t + o, c);
    Assoc(i, g + (t + o), c);
  }

  lemma GrowGap(k: Sketch, c: char)
    requires k.open == Between && Blank(c) && GoodSketch(k)
    ensures GoodSketch(Grow(k, c)) && SketchText(Grow(k, c)) == SketchText(k) + [c] && SketchState(Grow(k, c)) == Step(SketchState(k), c)
  {
    assert Text([]) + [] == [] && k.gap + [] == k.gap && k.gap + [c] + [] == k.gap + [c];
    Assoc(ItemsText(k.items), k.gap, [c]);
  }

  lemma GrowItemGood(k: Sketch, c: char)
    requires k.open == InWord && Blank(c) && GoodSketch(k) && Meaning(k.pieces) != []
    ensures GoodSketch(Sketch(k.items + [Item(k.gap, k.pieces)], [c], [], Between))
  {
    GoodItemsSnoc(k.items, Item(k.gap, k.pieces));
  }

  lemma GrowItemState(k: Sketch, c: char)
    requires k.open == InWord && Blank(c) && Meaning(k.pieces) != []
    ensures SketchState(Grow(k, c)) == Step(SketchState(k), c)
  {
    var words, word := ItemsWords(k.items), Meaning(k.pieces);
    assert word + [] == word && Meaning([]) + [] == [];
    assert SketchState(k) == Auto(words, word, Bare);
    ItemsSnoc(k.items, Item(k.gap, k.pieces));
    assert SketchState(Grow(k, c)) == Auto(words + [word], [], Gap);
  }

  lemma GrowItemText(k: Sketch, c: char)
    requires k.open == InWord && Blank(c)
    ensures SketchText(Grow(k, c)) == SketchText(k) + [c]
  {
    assert Text(k.pieces) + [] == Text(k.pieces);
    ClosedText(k.items, Item(k.gap, k.pieces), c);
  }

  lemma WordIsNotEmpty(k: Sketch, c: char)
    requires k.open == InWord && Blank(c) && !Step(SketchState(k), c).Stuck?
    ensures Meaning(k.pieces) != []
  {
    assert Meaning(k.pieces) + [] == Meaning(k.pieces);
  }

  lemma GrowItem(k: Sketch, c: char)
    requires k.open == InWord && Blank(c) && GoodSketch(k) && !Step(SketchState(k), c).Stuck?
    ensures GoodSketch(Grow(k, c)) && SketchText(Grow(k, c)) == SketchText(k) + [c] && SketchState(Grow(k, c)) == Step(SketchState(k), c)
  {
    WordIsNotEmpty(k, c);
    GrowItemGood(k, c);
    GrowItemText(k, c);
    GrowItemState(k, c);
  }

  lemma ClosedText(items: seq<Item>, item: Item, c: char)
    ensures SketchText(Sketch(items + [item], [c], [], Between)) == ItemsText(items) + (item.gap + Text(item.pieces)) + [c]
  {
    ItemsSnoc(items, item);
    assert Text([]) + OpenText(Between) == [] && [c] + [] == [c];
  }

  lemma GrowStep(k: Sketch, c: char)
    requires GoodSketch(k) && !Step(SketchState(k), c).Stuck?
    ensures GoodSketch(Grow(k, c)) && SketchText(Grow(k, c)) == SketchText(k) + [c] && SketchState(Grow(k, c)) == Step(SketchState(k), c)
  {
    if InsideWord(k.open, c) {
      GrowInWord(k, c);
      GrowMeaning(k, c);
    } else if k.open == Between {
      GrowGap(k, c);
    } else {
      GrowItem(k, c);
    }
  }

  lemma {:induction false} TakeApart(line: string) returns (k: Sketch)
    requires !Run(Start, line).Stuck?
    ensures GoodSketch(k) && SketchText(k) == line && SketchState(k) == Run(Start, line)
  {
    if line == [] {
      k := Sketch([], [], [], Between);
    } else {
      var before, c := line[..|line| - 1], line[|line| - 1];
      assert line == before + [c];
      RunConcat(Start, before, [c]);
      RunOne(Run(Start, before), c);
      k := TakeApart(before);
      GrowStep(k, c);
      k := Grow(k, c);
    }
  }

  lemma {:induction false} AcceptedIsGrammar(line: string) returns (items: seq<Item>, tail: string)
    requires Parse(line).Words?
    ensures GoodItems(items) && AllBlank(tail) && line == ItemsText(items) + tail && Parse(line) == Words(ItemsWords(items))
  {
    var k := TakeApart(line);
    assert k.open in {Between, InWord} && SketchState(k).word == Meaning(k.pieces) by { assert Meaning(k.pieces) + [] == Meaning(k.pieces); }
    assert Text(k.pieces) + [] == Text(k.pieces);
    if k.open == Between {
      items, tail := k.items, k.gap;
      assert k.gap + [] == k.gap;
    } else {
      var item := Item(k.gap, k.pieces);
      items, tail := k.items + [item], [];
      ItemsSnoc(k.items, item);
      GoodItemsSnoc(k.items, item);
      assert ItemsText(items) + [] == ItemsText(items);
    }
  }

  /** The parser decides the grammar: it accepts a line with some words exactly when the line is
      blanks and words of plain, escaped and quoted pieces with those meanings. */
  lemma {:induction false} ParserDecidesGrammar(line: string, words: seq<string>)
    ensures Parse(line) == Words(words) <==>
            exists items, tail :: GoodItems(items) && AllBlank(tail) && line == ItemsText(items) + tail && words == ItemsWords(items)
  {
    if Parse(line) == Words(words) {
      var items, tail := AcceptedIsGrammar(line);
    }
    if exists items, tail :: GoodItems(items) && AllBlank(tail) && line == ItemsText(items) + tail && words == ItemsWords(items) {
      var items, tail :| GoodItems(items) && AllBlank(tail) && line == ItemsText(items) + tail && words == ItemsWords(items);
      GrammarIsAccepted(items, tail);
    }
  }

  /** No accepted line has a metacharacter outside quotes and escapes. */
  lemma {:induction false} NoUnquotedMeta(line: string, i: nat)
    requires Parse(line).Words? && i < |line| && line[i] in ";$|&<>`\n\r\0"
    ensures var a := Run(Start, line[..i]); a.Auto? && a.mode in {Single, Double, DoubleEscape, Escape}
  {
    var a := Run(Start, line[..i]);
    assert line == line[..i] + line[i..];
    RunConcat(Start, line[..i], line[i..]);
    Peel(a, line, i);
    if a.Stuck? { StuckStays(a.error, line[i..]); }
    if Step(a, line[i]).Stuck? { StuckStays(Step(a, line[i]).error, line[i + 1..]); }
  }

  // ----- quoting -----

  function Quoted(word: string): string { ['"'] + EscapedText(word) + ['"'] }

  function EscapedText(word: string): string {
    if word == [] then [] else
      var c := word[|word| - 1];
      EscapedText(word[..|word| - 1]) + if c in {'"', '\\'} then ['\\', c] else [c]
  }

  function QuotedLine(words: seq<string>, gap: string): string {
    if words == [] then []
    else QuotedLine(words[..|words| - 1], gap) + ((if |words| == 1 then [] else gap) + Quoted(words[|words| - 1]))
  }

  function PartsOf(word: string): seq<Part> {
    if word == [] then [] else
      var c := word[|word| - 1];
      PartsOf(word[..|word| - 1]) + [Part(c in {'"', '\\'}, c)]
  }

  lemma {:induction false} PartsOfWord(word: string)
    ensures PartsText(PartsOf(word)) == EscapedText(word) && PartsMeaning(PartsOf(word)) == word && GoodParts(PartsOf(word))
  {
    if word != [] {
      var before, c := word[..|word| - 1], word[|word| - 1];
      PartsOfWord(before);
      PartsSnoc(PartsOf(before), Part(c in {'"', '\\'}, c));
      assert word == before + [c];
    }
  }

  lemma OnePiece(p: Piece)
    ensures Text([p]) == PieceText(p) && Meaning([p]) == PieceMeaning(p)
  {
    assert [p][..0] == [] && [] + PieceText(p) == PieceText(p) && [] + PieceMeaning(p) == PieceMeaning(p);
  }

  lemma OneQuoted(word: string)
    ensures var p := DoubleQuoted(PartsOf(word)); Text([p]) == Quoted(word) && Meaning([p]) == word && GoodPiece(p)
  {
    OnePiece(DoubleQuoted(PartsOf(word)));
    PartsOfWord(word);
  }

  predicate NonEmpty(words: seq<string>) { forall i :: 0 <= i < |words| ==> words[i] != [] }

  function QuotedItem(word: string, gap: string): Item { Item(gap, [DoubleQuoted(PartsOf(word))]) }

  lemma QuotedItemIs(word: string, gap: string)
    requires word != [] && AllBlank(gap)
    ensures var item := QuotedItem(word, gap); GoodItem(item) && item.gap + Text(item.pieces) == gap + Quoted(word) && Meaning(item.pieces) == word
  {
    OneQuoted(word);
  }

  lemma QuotedLineSnoc(words: seq<string>, word: string, gap: string)
    ensures QuotedLine(words + [word], gap) == QuotedLine(words, gap) + ((if words == [] then [] else gap) + Quoted(word))
  {
    assert (words + [word])[..|words|] == words;
  }

  predicate Prints(items: seq<Item>, words: seq<string>, gap: string) {
    GoodItems(items) && |items| == |words| && ItemsText(items) == QuotedLine(words, gap) && ItemsWords(items) == words
  }

  lemma PrintsSnoc(items: seq<Item>, words: seq<string>, word: string, gap: string)
    requires Prints(items, words, gap) && word != [] && gap != [] && AllBlank(gap)
    ensures Prints(items + [QuotedItem(word, if words == [] then [] else gap)], words + [word], gap)
  {
    var front := if words == [] then [] else gap;
    var item := QuotedItem(word, front);
    QuotedItemIs(word, front);
    assert GoodItems(items + [item]) by { GoodItemsSnoc(items, item); }
    assert ItemsText(items + [item]) == QuotedLine(words + [word], gap) && ItemsWords(items + [item]) == words + [word] by {
      PrintedTogether(items, item, words, word, gap);
    }
  }

  lemma PrintedTogether(items: seq<Item>, item: Item, words: seq<string>, word: string, gap: string)
    requires ItemsText(items) == QuotedLine(words, gap) && ItemsWords(items) == words
    requires item.gap + Text(item.pieces) == (if words == [] then [] else gap) + Quoted(word) && Meaning(item.pieces) == word
    ensures ItemsText(items + [item]) == QuotedLine(words + [word], gap) && ItemsWords(items + [item]) == words + [word]
  {
    ItemsSnoc(items, item);
    QuotedLineSnoc(words, word, gap);
  }

  lemma {:induction false} QuotedItems(words: seq<string>, gap: string) returns (items: seq<Item>)
    requires gap != [] && AllBlank(gap) && NonEmpty(words)
    ensures Prints(items, words, gap)
  {
    if words == [] { return []; }
    var before, word := words[..|words| - 1], words[|words| - 1];
    assert words == before + [word];
    var rest := QuotedItems(before, gap);
    PrintsSnoc(rest, before, word, gap);
    items := rest + [QuotedItem(word, if before == [] then [] else gap)];
  }

  /** Quoting and joining any nonempty words parses back to them. */
  lemma {:induction false} QuotingRoundTrip(words: seq<string>, gap: string)
    requires gap != [] && AllBlank(gap) && NonEmpty(words)
    ensures Parse(QuotedLine(words, gap)) == Words(words)
  {
    var items := QuotedItems(words, gap);
    GrammarIsAccepted(items, []);
    assert ItemsText(items) + [] == ItemsText(items);
  }
}
