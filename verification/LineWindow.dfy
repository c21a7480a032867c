/** ReadLines (pkg/bridge/grpc/files.go): a window of lines in one pass over any buffering. */
module LineWindow {
  import opened Common
  import opened FileStreams

  /** The requested window: `count` lines from line `first`, each cut to `clamp` bytes (0 means
      unclamped). */
  datatype Frame = Frame(first: nat, count: nat, clamp: nat) {
    predicate Has(number: nat) { first <= number < first + count }
  }

  predicate Fits64(x: int) { -0x8000_0000_0000_0000 <= x < 0x8000_0000_0000_0000 }

  // ----- the line-based specification -----

  predicate Terminated(line: string) { line != "" && line[|line| - 1] == '\n' }

  ghost predicate NewlineFree(s: string) { forall i :: 0 <= i < |s| ==> s[i] != '\n' }

  /** A piece whose only newline, if any, is its last byte. */
  ghost predicate Slice(s: string) { s != "" ==> NewlineFree(s[..|s| - 1]) }

  /** Length of the first line, its newline included. */
  function FirstLine(s: string): (n: nat)
    requires s != ""
    ensures 0 < n <= |s| && (n < |s| ==> s[n - 1] == '\n')
  {
    if s[0] == '\n' || |s| == 1 then 1 else 1 + FirstLine(s[1..])
  }

  lemma {:induction false} FirstLineIsFree(s: string, i: nat)
    requires s != "" && i < FirstLine(s) - 1
    ensures s[i] != '\n'
  {
    assert FirstLine(s) == 1 + FirstLine(s[1..]);
    if i > 0 { FirstLineIsFree(s[1..], i - 1); }
  }

  lemma FirstLineIsSlice(s: string)
    requires s != ""
    ensures Slice(s[..FirstLine(s)])
  {
    forall i | 0 <= i < FirstLine(s) - 1 ensures s[i] != '\n' { FirstLineIsFree(s, i); }
  }

  /** The lines of a content, each with its newline; the last one may be unterminated. */
  function Lines(s: string): seq<string>
    decreases |s|
  {
    if s == "" then [] else var n := FirstLine(s); [s[..n]] + Lines(s[n..])
  }

  /** A line cut to the clamp, its newline kept. */
  function Cut(line: string, clamp: nat): string {
    if Terminated(line) then Clamp(line[..|line| - 1], clamp) + "\n" else Clamp(line, clamp)
  }

  function Clamp(body: string, clamp: nat): string { if 0 < clamp < |body| then body[..clamp] else body }

  /** The selected lines, where the first of `lines` has the given number. */
  function Select(lines: seq<string>, number: nat, w: Frame): string
    decreases |lines|
  {
    if lines == [] then "" else Chosen(lines[0], number, w) + Select(lines[1..], number + 1, w)
  }

  function Chosen(line: string, number: nat, w: Frame): string { if w.Has(number) then Cut(line, w.clamp) else "" }

  function Window(content: string, w: Frame): string { Select(Lines(content), 1, w) }

  function Newlines(s: string): nat {
    if s == "" then 0 else Newlines(s[..|s| - 1]) + if s[|s| - 1] == '\n' then 1 else 0
  }

  // ----- the byte-at-a-time form -----

  /** Progress of a pass: newlines seen, bytes kept of the current line, output so far. */
  datatype Pass = Pass(total: nat, written: nat, output: string)

  function Feed(p: Pass, c: char, w: Frame): Pass {
    var selected := w.Has(p.total + 1);
    if c == '\n' then Pass(p.total + 1, 0, if selected then p.output + [c] else p.output)
    else if selected && (w.clamp == 0 || p.written < w.clamp) then Pass(p.total, p.written + 1, p.output + [c])
    else p
  }

  function FeedAll(p: Pass, s: string, w: Frame): Pass {
    if s == "" then p else Feed(FeedAll(p, s[..|s| - 1], w), s[|s| - 1], w)
  }

  lemma FeedAppend(p: Pass, s: string, t: string, w: Frame)
    ensures FeedAll(p, s + t, w) == FeedAll(FeedAll(p, s, w), t, w)
  {
    if t == "" {
      assert s + t == s;
    } else {
      assert (s + t)[..|s + t| - 1] == s + t[..|t| - 1];
      FeedAppend(p, s, t[..|t| - 1], w);
    }
  }

  /** How many bytes of a newline-free piece the window keeps. */
  function Kept(p: Pass, size: nat, w: Frame): (keep: nat)
    ensures keep <= size
  {
    if !w.Has(p.total + 1) then 0
    else if w.clamp > 0 && p.written <= w.clamp && size > w.clamp - p.written then w.clamp - p.written
    else size
  }

  lemma FeedBody(p: Pass, body: string, w: Frame)
    requires NewlineFree(body) && (w.clamp == 0 || p.written <= w.clamp)
    ensures FeedAll(p, body, w) == Pass(p.total, p.written + Kept(p, |body|, w), p.output + body[..Kept(p, |body|, w)])
  {
    if body != "" {
      var n := |body| - 1;
      var init, k := body[..n], Kept(p, n, w);
      FeedBody(p, init, w);
      KeptGrows(p, n, w);
      assert body[..k] == init[..k];
      assert k == n ==> body[..n + 1] == init[..k] + [body[n]];
    }
  }

  /** One more byte is kept exactly while all before it were and the clamp has room. */
  lemma KeptGrows(p: Pass, n: nat, w: Frame)
    requires w.clamp == 0 || p.written <= w.clamp
    ensures var k := Kept(p, n, w);
            if w.Has(p.total + 1) && (w.clamp == 0 || p.written + k < w.clamp) then k == n && Kept(p, n + 1, w) == n + 1
            else Kept(p, n + 1, w) == k
  {
  }

  /** What one buffered slice adds to the output, and the counters after it. */
  function Emits(p: Pass, slice: string, w: Frame): string
    requires slice != ""
  {
    if !Terminated(slice) then slice[..Kept(p, |slice|, w)]
    else slice[..Kept(p, |slice| - 1, w)] + if w.Has(p.total + 1) then "\n" else ""
  }

  function After(p: Pass, slice: string, w: Frame): Pass
    requires slice != ""
  {
    var output := p.output + Emits(p, slice, w);
    if Terminated(slice) then Pass(p.total + 1, 0, output) else Pass(p.total, p.written + Kept(p, |slice|, w), output)
  }

  lemma FeedSlice(p: Pass, slice: string, w: Frame)
    requires slice != "" && Slice(slice) && (w.clamp == 0 || p.written <= w.clamp)
    ensures FeedAll(p, slice, w) == After(p, slice, w)
  {
    var body := slice[..|slice| - 1];
    if Terminated(slice) {
      FeedBody(p, body, w);
      var kept := body[..Kept(p, |body|, w)];
      assert kept == slice[..Kept(p, |body|, w)];
      assert p.output + kept + "\n" == p.output + (kept + "\n");
      assert p.output + kept == p.output + (kept + "");
    } else {
      assert NewlineFree(slice);
      FeedBody(p, slice, w);
    }
  }

  /** One whole line, from a line boundary. */
  lemma FeedLine(line: string, total: nat, output: string, w: Frame)
    requires line != "" && Slice(line)
    ensures var q := FeedAll(Pass(total, 0, output), line, w);
            q.output == output + Chosen(line, total + 1, w) && (Terminated(line) ==> q == Pass(total + 1, 0, q.output))
  {
    FeedSlice(Pass(total, 0, output), line, w);
    var body := if Terminated(line) then line[..|line| - 1] else line;
    assert w.Has(total + 1) ==> body[..Kept(Pass(total, 0, output), |body|, w)] == Clamp(body, w.clamp);
  }

  lemma SelectFirst(s: string, number: nat, w: Frame)
    requires s != ""
    ensures Select(Lines(s), number, w) == Chosen(s[..FirstLine(s)], number, w) + Select(Lines(s[FirstLine(s)..]), number + 1, w)
  {
    assert Lines(s)[0] == s[..FirstLine(s)] && Lines(s)[1..] == Lines(s[FirstLine(s)..]);
  }

  lemma FeedFirst(s: string, total: nat, output: string, w: Frame)
    requires s != ""
    ensures var line, rest := s[..FirstLine(s)], s[FirstLine(s)..];
            if rest == "" then FeedAll(Pass(total, 0, output), s, w).output == output + Chosen(line, total + 1, w)
            else FeedAll(Pass(total, 0, output), s, w) == FeedAll(Pass(total + 1, 0, output + Chosen(line, total + 1, w)), rest, w)
  {
    var line, rest := s[..FirstLine(s)], s[FirstLine(s)..];
    FirstLineIsSlice(s);
    assert s == line + rest;
    FeedLineThen(line, rest, total, output, w);
  }

  lemma FeedLineThen(line: string, rest: string, total: nat, output: string, w: Frame)
    requires line != "" && Slice(line) && (rest != "" ==> Terminated(line))
    ensures if rest == "" then FeedAll(Pass(total, 0, output), line + rest, w).output == output + Chosen(line, total + 1, w)
            else FeedAll(Pass(total, 0, output), line + rest, w) == FeedAll(Pass(total + 1, 0, output + Chosen(line, total + 1, w)), rest, w)
  {
    FeedLine(line, total, output, w);
    FeedAppend(Pass(total, 0, output), line, rest, w);
  }

  /** The byte form equals the line form, from any line boundary. */
  lemma {:induction false} BytesMatchLines(s: string, total: nat, output: string, w: Frame)
    ensures FeedAll(Pass(total, 0, output), s, w).output == output + Select(Lines(s), total + 1, w)
    decreases |s|
  {
    if s == "" {
    } else {
      var line, rest := s[..FirstLine(s)], s[FirstLine(s)..];
      var chosen, tail := Chosen(line, total + 1, w), Select(Lines(rest), total + 2, w);
      SelectFirst(s, total + 1, w);
      FeedFirst(s, total, output, w);
      Regroup(output, output, chosen, tail);
      if rest != "" {
        BytesMatchLines(rest, total + 1, output + chosen, w);
      } else {
        assert tail == "" && chosen + tail == chosen;
      }
    }
  }

  lemma {:induction false} BytesCountNewlines(s: string, p: Pass, w: Frame)
    ensures FeedAll(p, s, w).total == p.total + Newlines(s)
    decreases |s|
  {
    if s != "" { BytesCountNewlines(s[..|s| - 1], p, w); }
  }

  // ----- the program -----

  datatype Summary = Summary(totalLines: nat, endsWithNewline: bool, more: bool)

  /** What the summary says about a content. */
  ghost predicate Describes(summary: Summary, content: string, w: Frame) {
    && summary.totalLines == Newlines(content)
    && summary.endsWithNewline == Terminated(content)
    && (summary.more <==> Newlines(content) >= w.first + w.count)
  }

  /** The body of the loop for one non-empty slice: writes what the window keeps of it. The
      asserted bounds say that the 64-bit differences do not overflow. */
  method EmitSlice(chunk: string, sink: ContentSink, p: Pass, w: Frame) returns (ok: bool, total: nat, written: nat)
    requires chunk != "" && Slice(chunk) && w.first >= 1 && w.count >= 1 && (w.clamp == 0 || p.written <= w.clamp)
    requires Fits64(w.first) && Fits64(w.count) && Fits64(w.clamp) && Fits64(p.total + p.written + |chunk|)
    requires sink.Valid() && sink.next != null
    modifies sink, sink.next
    ensures ok ==> total == After(p, chunk, w).total && written == After(p, chunk, w).written
    ensures ok ==> sink.Valid() && sink.hashed == old(sink.hashed) + Emits(p, chunk, w)
    ensures ok ==> sink.next.Accepted() == old(sink.next.Accepted()) + Emits(p, chunk, w)
    ensures !ok ==> |sink.next.sent| >= sink.next.failAt
  {
    var newline := chunk[|chunk| - 1] == '\n';
    var line := p.total + 1;
    var body := if newline then chunk[..|chunk| - 1] else chunk;
    ok, total, written := true, p.total, p.written;
    assert Fits64(line) && Fits64(line - w.first) && Fits64(w.clamp - written);
    if line >= w.first && line - w.first < w.count {
      if w.clamp > 0 && |body| > w.clamp - written {
        body := body[..w.clamp - written];
      }
      assert body == chunk[..|body|] && |body| == Kept(p, if newline then |chunk| - 1 else |chunk|, w);
      assert Emits(p, chunk, w) == body + (if newline then "\n" else "");
      ok := WritePiece(sink, body, newline);
      if !ok { return; }
      written := written + |body|;
    } else {
      assert Emits(p, chunk, w) == "";
    }
    if newline {
      total, written := total + 1, 0;
    }
  }

  method WritePiece(sink: ContentSink, body: string, newline: bool) returns (ok: bool)
    requires sink.Valid() && sink.next != null
    modifies sink, sink.next
    ensures ok ==> sink.Valid() && sink.hashed == old(sink.hashed) + (body + (if newline then "\n" else ""))
    ensures ok ==> sink.next.Accepted() == old(sink.next.Accepted()) + (body + (if newline then "\n" else ""))
    ensures !ok ==> |sink.next.sent| >= sink.next.failAt
  {
    ok := sink.Write(body);
    if !ok { return; }
    if newline {
      ghost var hashed, accepted := sink.hashed, sink.next.Accepted();
      ok := sink.Write("\n");
      if !ok { return; }
      assert hashed + "\n" == old(sink.hashed) + (body + "\n");
      assert accepted + "\n" == old(sink.next.Accepted()) + (body + "\n");
    } else {
      assert body + "" == body;
    }
  }

  /** The one-pass loop over whatever slices the buffer returns. */
  method Pump(chunks: seq<string>, sink: ContentSink, w: Frame) returns (ok: bool, total: nat, last: char, ghost p: Pass)
    requires (forall k :: 0 <= k < |chunks| ==> Slice(chunks[k])) && Fits64(|Concat(chunks)|)
    requires w.first >= 1 && w.count >= 1 && Fits64(w.first) && Fits64(w.count) && Fits64(w.clamp)
    requires sink.Valid() && sink.next != null
    modifies sink, sink.next
    ensures ok ==> sink.Valid() && total == p.total && Progress(chunks, |chunks|, w, p, last)
    ensures ok ==> sink.next.Accepted() == old(sink.next.Accepted()) + p.output && sink.hashed == old(sink.hashed) + p.output
    ensures !ok ==> |sink.next.sent| >= sink.next.failAt
  {
    total, last, p, ok := 0, '\0', Pass(0, 0, ""), true;
    var written := 0;
    ghost var accepted, hashed := sink.next.Accepted(), sink.hashed;
    assert chunks[..0] == [];
    for k := 0 to |chunks|
      invariant sink.Valid() && p.total == total && p.written == written && Progress(chunks, k, w, p, last)
      invariant sink.next.Accepted() == accepted + p.output && sink.hashed == hashed + p.output
    {
      var chunk := chunks[k];
      ProgressStep(chunks, k, w, p, last);
      if |chunk| > 0 {
        last := chunk[|chunk| - 1];
        ok, total, written := EmitSlice(chunk, sink, Pass(total, written, ""), w);
        if !ok { return; }
        Regroup(accepted, hashed, p.output, Emits(p, chunk, w));
        p := After(p, chunk, w);
      }
    }
  }

  /** readLines: `readFails` ends the input with a read error instead of end-of-file. */
  method ReadLines(chunks: seq<string>, readFails: bool, sink: ContentSink, w: Frame) returns (summary: Option<Summary>)
    requires (forall k :: 0 <= k < |chunks| ==> Slice(chunks[k])) && Fits64(|Concat(chunks)|)
    requires w.first >= 1 && w.count >= 1 && Fits64(w.first) && Fits64(w.count) && Fits64(w.clamp)
    requires sink.Valid() && sink.next != null
    modifies sink, sink.next
    ensures summary.Some? ==> !readFails && sink.Valid() && Describes(summary.value, Concat(chunks), w)
    ensures summary.Some? ==> sink.next.Accepted() == old(sink.next.Accepted()) + Window(Concat(chunks), w)
    ensures summary.Some? ==> sink.hashed == old(sink.hashed) + Window(Concat(chunks), w)
    ensures summary.None? ==> readFails || |sink.next.sent| >= sink.next.failAt
  {
    var ok, total, last, p := Pump(chunks, sink, w);
    if !ok || readFails { return None; }
    Completed(chunks, w, p, last);
    return Some(Summary(total, last == '\n', total - w.first >= w.count));
  }

  lemma Completed(chunks: seq<string>, w: Frame, p: Pass, last: char)
    requires Progress(chunks, |chunks|, w, p, last)
    ensures p.output == Window(Concat(chunks), w) && p.total == Newlines(Concat(chunks)) && ((last == '\n') == Terminated(Concat(chunks)))
  {
    assert chunks[..|chunks|] == chunks;
    WholeContent(Concat(chunks), w);
  }

  /** One pass over a content from its start. */
  lemma WholeContent(content: string, w: Frame)
    ensures var p := FeedAll(Pass(0, 0, ""), content, w); p.output == Window(content, w) && p.total == Newlines(content)
  {
    BytesMatchLines(content, 0, "", w);
    assert "" + Select(Lines(content), 1, w) == Select(Lines(content), 1, w);
    BytesCountNewlines(content, Pass(0, 0, ""), w);
  }

  /** Where the loop stands after k slices. */
  ghost predicate Progress(chunks: seq<string>, k: nat, w: Frame, p: Pass, last: char)
    requires k <= |chunks|
  {
    var seen := Concat(chunks[..k]);
    && p == FeedAll(Pass(0, 0, ""), seen, w)
    && p.total + p.written <= |seen| <= |Concat(chunks)|
    && (w.clamp == 0 || p.written <= w.clamp)
    && ((last == '\n') == Terminated(seen))
  }

  lemma ProgressStep(chunks: seq<string>, k: nat, w: Frame, p: Pass, last: char)
    requires k < |chunks| && Slice(chunks[k]) && Progress(chunks, k, w, p, last)
    ensures |Concat(chunks[..k])| + |chunks[k]| <= |Concat(chunks)|
    ensures chunks[k] == "" ==> Progress(chunks, k + 1, w, p, last)
    ensures chunks[k] != "" ==>
              && Progress(chunks, k + 1, w, After(p, chunks[k], w), chunks[k][|chunks[k]| - 1])
              && Emits(p, chunks[k], w) == Emits(Pass(p.total, p.written, ""), chunks[k], w)
  {
    ConcatNext(chunks, k);
    if chunks[k] != "" {
      FeedSlice(p, chunks[k], w);
      FeedAppend(Pass(0, 0, ""), Concat(chunks[..k]), chunks[k], w);
    }
  }

  lemma Regroup(a: string, b: string, c: string, d: string)
    ensures (a + c) + d == a + (c + d) && (b + c) + d == b + (c + d)
  {
  }

  lemma ConcatNext(chunks: seq<string>, k: nat)
    requires k < |chunks|
    ensures Concat(chunks[..k + 1]) == Concat(chunks[..k]) + chunks[k]
    ensures |Concat(chunks[..k + 1])| <= |Concat(chunks)|
    ensures chunks[k] == "" ==> Concat(chunks[..k + 1]) == Concat(chunks[..k])
  {
    assert chunks[..k + 1][..k] == chunks[..k];
    assert chunks == chunks[..k + 1] + chunks[k + 1..];
    ConcatAppend(chunks[..k + 1], chunks[k + 1..]);
  }

  /** The whole ReadLines answer: the messages it streams and the summary. Every message is
      full except possibly the last, none is empty, and together they are exactly the window. */
  method StreamLines(chunks: seq<string>, readFails: bool, failAt: nat, w: Frame) returns (summary: Option<Summary>, messages: seq<string>)
    requires (forall k :: 0 <= k < |chunks| ==> Slice(chunks[k])) && Fits64(|Concat(chunks)|)
    requires w.first >= 1 && w.count >= 1 && Fits64(w.first) && Fits64(w.count) && Fits64(w.clamp)
    ensures summary.Some? ==> Describes(summary.value, Concat(chunks), w) && Concat(messages) == Window(Concat(chunks), w)
    ensures summary.Some? ==> forall i :: 0 <= i < |messages| ==> 0 < |messages[i]| <= 65536
    ensures summary.Some? ==> forall i :: 0 <= i < |messages| - 1 ==> |messages[i]| == 65536
    ensures summary.None? ==> readFails || |messages| >= failAt
  {
    var writer := new ChunkWriter(failAt);
    var sink := new ContentSink(writer, false);
    summary := ReadLines(chunks, readFails, sink, w);
    messages := writer.sent;
    if summary.Some? {
      var flushed;
      flushed, messages := SendRest(writer);
      if !flushed { return None, messages; }
    }
  }

  /** The final flush: all messages are full but possibly the last, and none is empty. */
  method SendRest(writer: ChunkWriter) returns (ok: bool, messages: seq<string>)
    requires writer.Valid()
    modifies writer
    ensures ok ==> Concat(messages) == old(writer.Accepted())
    ensures ok ==> forall i :: 0 <= i < |messages| ==> 0 < |messages[i]| <= CHUNK_BYTES
    ensures ok ==> forall i :: 0 <= i < |messages| - 1 ==> |messages[i]| == CHUNK_BYTES
    ensures !ok ==> |messages| >= writer.failAt
  {
    ok := writer.Flush();
    messages := writer.sent;
    assert Concat(messages) + "" == Concat(messages);
  }

  // ----- what the specification says about a content -----

  /** The lines concatenated are the content; each has no inner newline; all but the last are terminated. */
  lemma {:induction false} LinesAreTheContent(s: string)
    ensures Concat(Lines(s)) == s
    decreases |s|
  {
    if s == "" {
    } else {
      var line, rest := s[..FirstLine(s)], s[FirstLine(s)..];
      LinesAreTheContent(rest);
      ConcatAppend([line], Lines(rest));
      assert Concat([line]) == line by { assert [line][..0] == []; }
    }
  }

  lemma {:induction false} LinesPartition(s: string)
    ensures forall k :: 0 <= k < |Lines(s)| ==> Lines(s)[k] != "" && Slice(Lines(s)[k])
    ensures forall k :: 0 <= k < |Lines(s)| - 1 ==> Terminated(Lines(s)[k])
    decreases |s|
  {
    if s == "" {
    } else {
      var line, rest := s[..FirstLine(s)], s[FirstLine(s)..];
      FirstLineIsSlice(s);
      LinesPartition(rest);
      var all, tail := Lines(s), Lines(rest);
      assert all == [line] + tail;
      forall k | 0 <= k < |all| ensures all[k] != "" && Slice(all[k]) && (k < |all| - 1 ==> Terminated(all[k])) {
        if k > 0 { assert all[k] == tail[k - 1]; }
      }
    }
  }

  lemma {:induction false} TerminatedLines(s: string)
    ensures Newlines(s) == |Lines(s)| - (if s != "" && !Terminated(s) then 1 else 0)
    ensures s != "" ==> Lines(s) != [] && (Terminated(s) <==> Terminated(Lines(s)[|Lines(s)| - 1]))
    decreases |s|
  {
    if s != "" {
      var n := FirstLine(s);
      var line, rest, tail := s[..n], s[n..], Lines(s[n..]);
      assert s == line + rest && Lines(s) == [line] + tail;
      TerminatedLines(rest);
      FirstLineIsSlice(s);
      LineNewlines(line, rest);
      LastOfLines(line, rest, tail);
    }
  }

  lemma LineNewlines(line: string, rest: string)
    requires line != "" && Slice(line)
    ensures Newlines(line + rest) == Newlines(rest) + (if Terminated(line) then 1 else 0)
  {
    NewlinesAppend(line, rest);
    NoNewlines(line[..|line| - 1]);
  }

  lemma LastOfLines(line: string, rest: string, tail: seq<string>)
    requires line != "" && (rest == "" <==> tail == []) && (rest != "" ==> (Terminated(rest) <==> Terminated(tail[|tail| - 1])))
    ensures Terminated(line + rest) <==> Terminated(([line] + tail)[|tail|])
  {
    if rest == "" { assert line + rest == line; } else { assert (line + rest)[|line + rest| - 1] == rest[|rest| - 1]; }
  }

  /** What a summary tells of a content: how many lines are terminated, all or all but the last;
      whether the content ends with a newline; and whether a terminated line lies behind the window. */
  lemma MoreMeansTerminatedLineBehind(summary: Summary, s: string, w: Frame)
    requires w.first >= 1 && w.count >= 1
    ensures Describes(summary, s, w) <==>
              && summary.totalLines == |Lines(s)| - (if s != "" && s[|s| - 1] != '\n' then 1 else 0)
              && (summary.endsWithNewline <==> s != "" && s[|s| - 1] == '\n')
              && (summary.more <==> exists k :: w.first + w.count - 1 <= k < |Lines(s)| && Terminated(Lines(s)[k]))
  {
    TerminatedLines(s);
    LinesPartition(s);
    var n := w.first + w.count - 1;
    assert Newlines(s) > n ==> Terminated(Lines(s)[n]);
  }

  lemma NewlinesAppend(s: string, t: string)
    ensures Newlines(s + t) == Newlines(s) + Newlines(t)
  {
    if t == "" {
      assert s + t == s;
    } else {
      assert (s + t)[..|s + t| - 1] == s + t[..|t| - 1];
      NewlinesAppend(s, t[..|t| - 1]);
    }
  }

  lemma NoNewlines(s: string)
    requires NewlineFree(s)
    ensures Newlines(s) == 0
  {
  }
}
