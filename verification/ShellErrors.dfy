/** Which error a rejected shell line gets, told by the grammar: every line is either words of the
    grammar or has one of these flaws, its first. */
module ShellErrors {
  import opened Common
  import opened ShellWords

  /** A beginning of a line, taken apart; inside a word there is a piece of it. */
  predicate Proper(k: Sketch) { GoodSketch(k) && (k.open == InWord ==> k.pieces != []) }

  /** What is wrong with a line. */
  ghost predicate Flawed(line: string, e: Error) {
    match e
    case UnterminatedQuote => exists k :: Proper(k) && SketchText(k) == line && (k.open.InSingle? || k.open.InDouble?)
    case UnterminatedQuotedEscape => exists k :: Proper(k) && SketchText(k) == line && k.open.InDoubleEscape?
    case UnterminatedEscape => exists k :: Proper(k) && SketchText(k) == line && k.open.InEscape?
    case Metacharacter => exists k, c, rest :: MetaAt(line, k, c, rest)
    case EmptyWord => exists k, rest :: EmptyAt(line, k, rest)
  }

  /** An unquoted metacharacter behind a good beginning. */
  ghost predicate MetaAt(line: string, k: Sketch, c: char, rest: string) {
    Proper(k) && line == SketchText(k) + [c] + rest && c in ";$|&<>`\n\r\0" && (k.open.Between? || k.open.InWord?)
  }

  lemma MetaCharacters(c: char)
    ensures Meta(c) <==> c in ";$|&<>`\n\r\0"
  {
  }

  /** A word of quotes alone, with nothing in them, behind a good beginning. */
  ghost predicate EmptyAt(line: string, k: Sketch, rest: string) {
    Proper(k) && line == SketchText(k) + rest && k.open.InWord? && Meaning(k.pieces) == [] && (rest == [] || rest[0] == ' ' || rest[0] == '\t')
  }

  // ----- the automaton behind a good beginning -----

  lemma RunOpen(words: seq<string>, word: string, o: Open)
    requires GoodOpen(o) && o != Between
    ensures Run(Auto(words, word, Bare), OpenText(o)) == Auto(words, word + OpenMeaning(o), OpenMode(o))
  {
    var a := Auto(words, word, Bare);
    match o
    case InWord => assert word + [] == word;
    case InSingle(s) =>
      RunConcat(a, ['\''], s);
      RunOne(a, '\'');
      RunSingle(words, word, s);
    case InDouble(parts) =>
      RunConcat(a, ['"'], PartsText(parts));
      RunOne(a, '"');
      RunParts(words, word, parts);
    case InDoubleEscape(parts) =>
      RunConcat(a, ['"'] + PartsText(parts), ['\\']);
      RunConcat(a, ['"'], PartsText(parts));
      RunOne(a, '"');
      RunParts(words, word, parts);
      RunOne(Auto(words, word + PartsMeaning(parts), Double), '\\');
    case InEscape =>
      RunOne(a, '\\');
      assert word + [] == word;
  }

  lemma RunItemsGap(items: seq<Item>, gap: string)
    requires GoodItems(items) && AllBlank(gap) && (items != [] ==> gap != [])
    ensures Run(Start, ItemsText(items) + gap) == Auto(ItemsWords(items), [], Gap)
  {
    RunItems(items);
    RunConcat(Start, ItemsText(items), gap);
    if items == [] {
      RunGap([], gap);
    } else {
      var last := items[|items| - 1];
      assert GoodItem(last);
      BareOrGap(ItemsWords(items[..|items| - 1]), Meaning(last.pieces), gap);
      RunGap(ItemsWords(items), gap);
    }
  }

  lemma WordStart(pieces: seq<Piece>, o: Open)
    requires GoodPieces(pieces) && o != Between && (o == InWord ==> pieces != [])
    ensures var text := Text(pieces) + OpenText(o); text != [] && !Blank(text[0])
  {
    if pieces != [] {
      TextStart(pieces);
    } else {
      assert [] + OpenText(o) == OpenText(o);
    }
  }

  /** A good beginning takes the automaton where the beginning says. */
  lemma RunSketch(k: Sketch)
    requires Proper(k)
    ensures Run(Start, SketchText(k)) == SketchState(k)
  {
    var front, words, text := ItemsText(k.items) + k.gap, ItemsWords(k.items), Text(k.pieces) + OpenText(k.open);
    Assoc(ItemsText(k.items), k.gap, text);
    RunItemsGap(k.items, k.gap);
    RunConcat(Start, front, text);
    if k.open == Between {
      assert text == [] && Meaning(k.pieces) + [] == [];
    } else {
      WordStart(k.pieces, k.open);
      GapOrBare(words, text);
      RunConcat(Auto(words, [], Bare), Text(k.pieces), OpenText(k.open));
      RunPieces(words, k.pieces);
      RunOpen(words, Meaning(k.pieces), k.open);
    }
  }

  // ----- the beginning of any line -----

  lemma GrowProper(k: Sketch, c: char)
    ensures Grow(k, c).open == InWord ==> Grow(k, c).pieces != []
  {
  }

  lemma {:induction false} Beginning(line: string) returns (k: Sketch)
    requires !Run(Start, line).Stuck?
    ensures Proper(k) && SketchText(k) == line && SketchState(k) == Run(Start, line)
  {
    if line == [] {
      k := Sketch([], [], [], Between);
    } else {
      var before, c := line[..|line| - 1], line[|line| - 1];
      assert line == before + [c];
      RunConcat(Start, before, [c]);
      RunOne(Run(Start, before), c);
      k := Beginning(before);
      GrowStep(k, c);
      GrowProper(k, c);
      k := Grow(k, c);
    }
  }

  /** Where the automaton got stuck first. */
  lemma {:induction false} FirstStuck(line: string) returns (k: Sketch, c: char, rest: string)
    requires Run(Start, line).Stuck?
    ensures Proper(k) && line == SketchText(k) + [c] + rest && Step(SketchState(k), c) == Run(Start, line)
  {
    var before, last := line[..|line| - 1], line[|line| - 1];
    assert line == before + [last];
    RunConcat(Start, before, [last]);
    RunOne(Run(Start, before), last);
    if Run(Start, before).Stuck? {
      var rest';
      k, c, rest' := FirstStuck(before);
      rest := rest' + [last];
    } else {
      k := Beginning(before);
      c, rest := last, [];
    }
  }

  lemma StuckTells(k: Sketch, c: char)
    requires Proper(k) && Step(SketchState(k), c).Stuck?
    ensures Step(SketchState(k), c).error == Metacharacter ==> Meta(c) && (k.open.Between? || k.open.InWord?)
    ensures Step(SketchState(k), c).error == EmptyWord ==> k.open.InWord? && Blank(c) && Meaning(k.pieces) == []
    ensures Step(SketchState(k), c).error in {Metacharacter, EmptyWord}
  {
    assert k.open.InWord? ==> Meaning(k.pieces) + [] == Meaning(k.pieces);
  }

  lemma MetaIsFlawed(line: string, k: Sketch, c: char, rest: string)
    requires MetaAt(line, k, c, rest)
    ensures Flawed(line, Metacharacter)
  {
  }

  lemma EmptyIsFlawed(line: string, k: Sketch, rest: string)
    requires EmptyAt(line, k, rest)
    ensures Flawed(line, EmptyWord)
  {
  }

  lemma StuckIsFlawed(line: string, k: Sketch, c: char, rest: string)
    requires Proper(k) && line == SketchText(k) + [c] + rest && Step(SketchState(k), c).Stuck?
    ensures Flawed(line, Step(SketchState(k), c).error)
  {
    StuckTells(k, c);
    if Step(SketchState(k), c).error == Metacharacter {
      MetaCharacters(c);
      MetaIsFlawed(line, k, c, rest);
    } else {
      Assoc(SketchText(k), [c], rest);
      EmptyIsFlawed(line, k, [c] + rest);
    }
  }

  lemma UnfinishedIsFlawed(k: Sketch)
    requires Proper(k) && Finish(SketchState(k)).Rejected?
    ensures Flawed(SketchText(k), Finish(SketchState(k)).error)
  {
    if k.open == InWord {
      assert Meaning(k.pieces) + [] == Meaning(k.pieces) && SketchText(k) + [] == SketchText(k);
      EmptyIsFlawed(SketchText(k), k, []);
    }
  }

  lemma RejectedIsFlawed(line: string)
    requires Parse(line).Rejected?
    ensures Flawed(line, Parse(line).error)
  {
    if Run(Start, line).Stuck? {
      var k, c, rest := FirstStuck(line);
      StuckIsFlawed(line, k, c, rest);
    } else {
      var k := Beginning(line);
      UnfinishedIsFlawed(k);
    }
  }

  lemma OpenIsRejected(k: Sketch)
    requires Proper(k)
    ensures k.open.InSingle? || k.open.InDouble? ==> Parse(SketchText(k)) == Rejected(UnterminatedQuote)
    ensures k.open.InDoubleEscape? ==> Parse(SketchText(k)) == Rejected(UnterminatedQuotedEscape)
    ensures k.open.InEscape? ==> Parse(SketchText(k)) == Rejected(UnterminatedEscape)
  {
    RunSketch(k);
  }

  lemma MetaIsRejected(line: string, k: Sketch, c: char, rest: string)
    requires Proper(k) && line == SketchText(k) + [c] + rest && Meta(c) && (k.open.Between? || k.open.InWord?)
    ensures Parse(line) == Rejected(Metacharacter)
  {
    RunSketch(k);
    RunConcat(Start, SketchText(k) + [c], rest);
    RunConcat(Start, SketchText(k), [c]);
    RunOne(SketchState(k), c);
    StuckStays(Metacharacter, rest);
  }

  lemma EmptyIsRejected(line: string, k: Sketch, rest: string)
    requires EmptyAt(line, k, rest)
    ensures Parse(line) == Rejected(EmptyWord)
  {
    RunSketch(k);
    assert Meaning(k.pieces) + [] == [];
    RunConcat(Start, SketchText(k), rest);
    if rest != [] { StuckStays(EmptyWord, rest[1..]); }
  }

  /** A line is rejected with an error exactly when it has that flaw. */
  lemma RejectedExactly(line: string, e: Error)
    ensures Parse(line) == Rejected(e) <==> Flawed(line, e)
  {
    if Parse(line) == Rejected(e) { RejectedIsFlawed(line); }
    if Flawed(line, e) { FlawedIsRejected(line, e); }
  }

  lemma FlawedIsRejected(line: string, e: Error)
    requires Flawed(line, e)
    ensures Parse(line) == Rejected(e)
  {
    match e
    case Metacharacter =>
      var k, c, rest :| MetaAt(line, k, c, rest);
      MetaCharacters(c);
      MetaIsRejected(line, k, c, rest);
    case EmptyWord =>
      var k, rest :| EmptyAt(line, k, rest);
      EmptyIsRejected(line, k, rest);
    case UnterminatedQuote =>
      var k :| Proper(k) && SketchText(k) == line && (k.open.InSingle? || k.open.InDouble?);
      OpenIsRejected(k);
    case UnterminatedQuotedEscape =>
      var k :| Proper(k) && SketchText(k) == line && k.open.InDoubleEscape?;
      OpenIsRejected(k);
    case UnterminatedEscape =>
      var k :| Proper(k) && SketchText(k) == line && k.open.InEscape?;
      OpenIsRejected(k);
  }
}
