/** What makes a section of a patch binary, told by its text, and which sections are kept. */
module PatchLines {
  import opened Common
  import opened PatchFilter

  // ----- the lines of a text -----

  function Joined(lines: seq<string>): string
    requires lines != []
  {
    if |lines| == 1 then lines[0] else lines[0] + "\n" + Joined(lines[1..])
  }

  /** The lines are what stands between the newlines. */
  lemma {:induction false} LinesAreBetweenNewlines(s: string)
    ensures Joined(Lines(s)) == s && forall i :: 0 <= i < |Lines(s)| ==> '\n' !in Lines(s)[i]
  {
    if s != [] {
      var rest := Lines(s[1..]);
      LinesAreBetweenNewlines(s[1..]);
      assert s == [s[0]] + s[1..];
      if s[0] == '\n' {
        assert ([[]] + rest)[1..] == rest;
      } else {
        assert ([[s[0]] + rest[0]] + rest[1..])[1..] == rest[1..];
        if |rest| > 1 { assert [s[0]] + (rest[0] + "\n" + Joined(rest[1..])) == [s[0]] + rest[0] + "\n" + Joined(rest[1..]); }
      }
    }
  }

  lemma ConsEmpty(rest: seq<string>)
    requires rest != [] && Lines(Joined(rest)) == rest
    ensures Lines(Joined([[]] + rest)) == [[]] + rest
  {
    assert ([[]] + rest)[1..] == rest;
    assert Joined([[]] + rest) == ['\n'] + Joined(rest);
    assert Joined([[]] + rest)[1..] == Joined(rest);
  }

  lemma LinesOfChar(c: char, t: string)
    requires c != '\n'
    ensures Lines([c] + t) == [[c] + Lines(t)[0]] + Lines(t)[1..]
  {
    assert ([c] + t)[1..] == t;
  }

  lemma JoinedChar(c: char, lines: seq<string>)
    requires lines != []
    ensures Joined([[c] + lines[0]] + lines[1..]) == [c] + Joined(lines)
  {
    assert ([[c] + lines[0]] + lines[1..])[1..] == lines[1..];
    if |lines| > 1 { assert [c] + (lines[0] + "\n" + Joined(lines[1..])) == [c] + lines[0] + "\n" + Joined(lines[1..]); }
  }

  lemma ConsChar(c: char, lines: seq<string>)
    requires lines != [] && c != '\n' && Lines(Joined(lines)) == lines
    ensures Lines(Joined([[c] + lines[0]] + lines[1..])) == [[c] + lines[0]] + lines[1..]
  {
    JoinedChar(c, lines);
    LinesOfChar(c, Joined(lines));
  }

  /** No other lines join to the same text. */
  lemma {:induction false} LinesAreDetermined(lines: seq<string>)
    requires lines != [] && forall i :: 0 <= i < |lines| ==> '\n' !in lines[i]
    ensures Lines(Joined(lines)) == lines
    decreases |lines|, |lines[0]|
  {
    if lines[0] == [] {
      if |lines| > 1 {
        LinesAreDetermined(lines[1..]);
        ConsEmpty(lines[1..]);
        assert lines == [[]] + lines[1..];
      } else {
        assert lines == [[]];
      }
    } else {
      var c, shorter := lines[0][0], [lines[0][1..]] + lines[1..];
      assert c != '\n' && shorter[1..] == lines[1..];
      LinesAreDetermined(shorter);
      ConsChar(c, shorter);
      assert lines[0] == [c] + lines[0][1..] && lines == [lines[0]] + lines[1..];
    }
  }

  // ----- binary lines -----

  /** A line marks its section as binary exactly when it announces a binary patch, or says of some
      files that they differ. */
  lemma MarkExactly(line: string)
    ensures BinaryLine(line) <==>
              line == "GIT binary patch" || line == "Binary files differ" || exists files: string :: line == "Binary files " + files + " differ"
  {
    if "Binary files " <= line && EndsWith(line, " differ") { MarkHasFiles(line); }
    if exists files: string :: line == "Binary files " + files + " differ" {
      var files: string :| line == "Binary files " + files + " differ";
      assert line[|line| - 7..] == " differ";
      assert line[..13] == "Binary files ";
    }
  }

  lemma MarkHasFiles(line: string)
    requires "Binary files " <= line && EndsWith(line, " differ")
    ensures line == "Binary files differ" || exists files: string :: line == "Binary files " + files + " differ"
  {
    assert |"Binary files "| == 13 && |" differ"| == 7;
    var end := |line| - 7;
    assert forall i :: 0 <= i < 13 ==> line[i] == "Binary files "[i];
    assert forall i :: 0 <= i < 7 ==> line[end + i] == line[end..][i];
    assert line[end + 1] == 'd' && line[end] == ' ';
    if end >= 13 {
      assert line == "Binary files " + line[13..end] + " differ";
    } else {
      assert end == 12;
      assert line == line[..12] + line[12..];
      assert line[..12] == "Binary files " [..12];
      assert line == "Binary files" + " differ";
    }
  }

  // ----- what is kept -----

  lemma KeepsOne(section: string)
    ensures Keep([section]) == if Binary(section) then [] else [section]
  {
  }

  /** Keeping goes section by section. */
  lemma {:induction false} KeepsEach(a: seq<string>, b: seq<string>)
    ensures Keep(a + b) == Keep(a) + Keep(b)
  {
    if a == [] {
      assert a + b == b;
    } else {
      assert (a + b)[1..] == a[1..] + b;
      KeepsEach(a[1..], b);
    }
  }

  /** The filter in one: the preamble, then each section unless one of its lines is such a mark. */
  lemma FilterExactly(patch: string)
    ensures Filter(patch) == Preamble(patch) + Concat(Keep(Sections(patch)))
    ensures forall k :: 0 <= k < |Sections(patch)| ==>
              Keep(Sections(patch)) == Keep(Sections(patch)[..k]) + (if Binary(Sections(patch)[k]) then [] else [Sections(patch)[k]]) + Keep(Sections(patch)[k + 1..])
  {
    var all := Sections(patch);
    forall k | 0 <= k < |all|
      ensures Keep(all) == Keep(all[..k]) + (if Binary(all[k]) then [] else [all[k]]) + Keep(all[k + 1..])
    {
      assert all == all[..k] + [all[k]] + all[k + 1..];
      KeepsEach(all[..k] + [all[k]], all[k + 1..]);
      KeepsEach(all[..k], [all[k]]);
      KeepsOne(all[k]);
    }
  }

  /** A section starts where git's header opens a line. */
  lemma StartExactly(s: string, p: nat)
    ensures IsStart(s, p) <==>
              exists before: string, after: string :: s == before + "diff --git " + after && |before| == p && (before == "" || before[p - 1] == '\n')
  {
    if IsStart(s, p) {
      assert s == s[..p] + s[p..p + |Header|] + s[p + |Header|..];
      assert s == s[..p] + "diff --git " + s[p + |Header|..];
    }
    if exists before: string, after: string :: s == before + "diff --git " + after && |before| == p && (before == "" || before[p - 1] == '\n') {
      var before: string, after: string :| s == before + "diff --git " + after && |before| == p && (before == "" || before[p - 1] == '\n');
      assert s[p..p + |Header|] == "diff --git ";
    }
  }
}
