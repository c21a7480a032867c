/** The window of ReadLines, told by line numbers instead of counting through the content. */
module LineNumbers {
  import opened LineWindow

  /** What the clamp leaves of a line: its newline, if it has one, and of its body the first `clamp`
      bytes, or all of it without a clamp. */
  lemma CutExactly(line: string, clamp: nat, body: string)
    requires NewlineFree(body) && (line == body || line == body + "\n")
    ensures var kept := if clamp == 0 || |body| <= clamp then body else body[..clamp];
            Cut(line, clamp) == if line == body then kept else kept + "\n"
  {
    if line == body { assert !Terminated(line); } else { assert line[..|line| - 1] == body; }
  }

  function Cutter(clamp: nat): string -> string { (line: string) => Cut(line, clamp) }

  function Holder(w: Frame): nat -> bool { (number: nat) => w.Has(number) }

  /** The lines one behind the other, each cut. */
  function Joined(lines: seq<string>, cut: string -> string): string {
    if lines == [] then "" else cut(lines[0]) + Joined(lines[1..], cut)
  }

  function Taken(lines: seq<string>, count: int): seq<string> {
    if count <= 0 then [] else if count < |lines| then lines[..count] else lines
  }

  /** The lines with numbers from `first` on, at most `count` of them. */
  function Numbered(lines: seq<string>, first: nat, count: nat): seq<string>
    requires first >= 1
  {
    Taken(if first <= |lines| then lines[first - 1..] else [], count)
  }

  /** The selection, for any way to cut and to choose. */
  function Selected(lines: seq<string>, number: nat, has: nat -> bool, cut: string -> string): string
    decreases |lines|
  {
    if lines == [] then "" else (if has(number) then cut(lines[0]) else "") + Selected(lines[1..], number + 1, has, cut)
  }

  lemma {:induction false} SelectIsSelected(lines: seq<string>, number: nat, w: Frame)
    ensures Select(lines, number, w) == Selected(lines, number, Holder(w), Cutter(w.clamp))
    decreases |lines|
  {
    if lines != [] { SelectIsSelected(lines[1..], number + 1, w); }
  }

  ghost predicate IsWindow(has: nat -> bool, first: nat, count: nat) {
    forall n: nat :: has(n) <==> first <= n < first + count
  }

  /** A line outside the window adds nothing. */
  lemma Skips(lines: seq<string>, number: nat, has: nat -> bool, cut: string -> string)
    requires lines != [] && !has(number)
    ensures Selected(lines, number, has, cut) == Selected(lines[1..], number + 1, has, cut)
  {
    assert "" + Selected(lines[1..], number + 1, has, cut) == Selected(lines[1..], number + 1, has, cut);
  }

  lemma TakenFirst(lines: seq<string>, n: int)
    requires lines != [] && n > 0
    ensures Taken(lines, n) != [] && Taken(lines, n)[0] == lines[0] && Taken(lines, n)[1..] == Taken(lines[1..], n - 1)
  {
    assert n < |lines| ==> lines[..n][1..] == lines[1..][..n - 1];
    assert n == |lines| ==> lines[1..][..n - 1] == lines[1..];
  }

  /** Inside the window the next lines are taken as long as it lasts. */
  lemma {:induction false} Takes(lines: seq<string>, number: nat, first: nat, count: nat, has: nat -> bool, cut: string -> string)
    requires first <= number && IsWindow(has, first, count)
    ensures Selected(lines, number, has, cut) == Joined(Taken(lines, first + count - number), cut)
    decreases |lines|
  {
    if lines != [] {
      var n := first + count - number;
      Takes(lines[1..], number + 1, first, count, has, cut);
      if n > 0 {
        TakenFirst(lines, n);
        assert has(number);
      } else {
        assert !has(number);
        Skips(lines, number, has, cut);
      }
    }
  }

  lemma NumberedLater(lines: seq<string>, first: nat, count: nat)
    requires first >= 2 && lines != []
    ensures Numbered(lines, first, count) == Numbered(lines[1..], first - 1, count)
  {
    assert first <= |lines| ==> lines[first - 1..] == lines[1..][first - 2..];
  }

  lemma {:induction false} SelectedIsNumbered(lines: seq<string>, number: nat, first: nat, count: nat, has: nat -> bool, cut: string -> string)
    requires number <= first && IsWindow(has, first, count)
    ensures Selected(lines, number, has, cut) == Joined(Numbered(lines, first - number + 1, count), cut)
    decreases |lines|
  {
    if lines != [] && number < first {
      SelectedIsNumbered(lines[1..], number + 1, first, count, has, cut);
      NumberedLater(lines, first - number + 1, count);
      assert !has(number);
      Skips(lines, number, has, cut);
    } else if lines != [] {
      assert lines[0..] == lines;
      Takes(lines, number, first, count, has, cut);
    }
  }

  lemma SelectFromFirst(lines: seq<string>, w: Frame)
    requires w.first >= 1
    ensures Select(lines, 1, w) == Joined(Numbered(lines, w.first, w.count), Cutter(w.clamp))
  {
    SelectIsSelected(lines, 1, w);
    assert IsWindow(Holder(w), w.first, w.count);
    SelectedIsNumbered(lines, 1, w.first, w.count, Holder(w), Cutter(w.clamp));
  }

  /** The window is the lines with its numbers, each cut, one behind the other. */
  lemma WindowIsItsLines(content: string, w: Frame)
    requires w.first >= 1
    ensures Window(content, w) == Joined(Numbered(Lines(content), w.first, w.count), Cutter(w.clamp))
  {
    SelectFromFirst(Lines(content), w);
  }
}
