/** The body of a WriteFile stream as the target reads it (pkg/bridge/grpc/files.go). */
module WriteBody {
  import opened FileStreams

  /** One stream message; an empty chunk is allowed. The stream ends with the client's
      half-close or breaks. */
  datatype Message = Message(header: bool, chunk: string)
  datatype Ending = HalfClose | Broken

  /** `sunk` is what the audit sink has seen. */
  datatype ReaderView = ReaderView(remaining: nat, pending: string, incoming: seq<Message>, ending: Ending, sunk: string)

  datatype ReadResult = Data(bytes: string) | Eof | Mismatch | ReceiveFailed

  function Opened(size: nat, incoming: seq<Message>, ending: Ending): ReaderView {
    ReaderView(size, "", incoming, ending, "")
  }

  /** One Read with a buffer of the given size. */
  function Read(v: ReaderView, size: nat): (ReaderView, ReadResult)
    decreases |v.incoming|
  {
    if v.pending != "" then
      var n := if size < |v.pending| then size else |v.pending|;
      (v.(pending := v.pending[n..]), Data(v.pending[..n]))
    else if v.incoming == [] then
      (v, if v.ending == Broken then ReceiveFailed else if v.remaining != 0 then Mismatch else Eof)
    else
      var m, v1 := v.incoming[0], v.(incoming := v.incoming[1..]);
      if m.header || |m.chunk| > v.remaining then (v1, Mismatch)
      else Read(v1.(remaining := v.remaining - |m.chunk|, pending := m.chunk, sunk := v.sunk + m.chunk), size)
  }

  class StreamReader {
    var remaining: nat
    var pending: string
    var incoming: seq<Message>
    const ending: Ending
    const sink: ContentSink

    ghost predicate Valid() reads this, sink { sink.next == null && sink.keeping && sink.Valid() }

    ghost function View(): ReaderView reads this, sink { ReaderView(remaining, pending, incoming, ending, sink.hashed) }

    constructor (size: nat, incoming: seq<Message>, ending: Ending)
      ensures Valid() && fresh(sink) && View() == Opened(size, incoming, ending)
    {
      remaining, pending, this.incoming, this.ending := size, "", incoming, ending;
      sink := new ContentSink(null, true);
    }

    method ReadInto(size: nat) returns (result: ReadResult)
      requires Valid()
      modifies this, sink
      ensures Valid() && (View(), result) == Read(old(View()), size)
    {
      while |pending| == 0
        invariant Valid() && Read(View(), size) == Read(old(View()), size)
        decreases |incoming|
      {
        if |incoming| == 0 {
          if ending == Broken { return ReceiveFailed; }
          if remaining != 0 { return Mismatch; }
          return Eof;
        }
        var message := incoming[0];
        incoming := incoming[1..];
        if message.header || |message.chunk| > remaining { return Mismatch; }
        remaining, pending := remaining - |message.chunk|, message.chunk;
        var _ := sink.Write(message.chunk);
      }
      var n := if size < |pending| then size else |pending|;
      result := Data(pending[..n]);
      pending := pending[n..];
    }
  }

  /** A sequence of Reads with any buffer sizes. */
  function Reads(v: ReaderView, sizes: seq<nat>): seq<ReadResult>
    decreases |sizes|
  {
    if sizes == [] then [] else [Read(v, sizes[0]).1] + Reads(Read(v, sizes[0]).0, sizes[1..])
  }

  function AfterReads(v: ReaderView, sizes: seq<nat>): ReaderView
    decreases |sizes|
  {
    if sizes == [] then v else AfterReads(Read(v, sizes[0]).0, sizes[1..])
  }

  function Delivered(results: seq<ReadResult>): string {
    if results == [] then "" else Bytes(results[0]) + Delivered(results[1..])
  }

  function Body(messages: seq<Message>): string {
    if messages == [] then "" else messages[0].chunk + Body(messages[1..])
  }

  /** The client sent exactly what its header declared, and closed. */
  ghost predicate Exact(messages: seq<Message>, size: nat, ending: Ending) {
    && ending == HalfClose
    && (forall i :: 0 <= i < |messages| ==> !messages[i].header)
    && |Body(messages)| == size
  }

  function Bytes(r: ReadResult): string { if r.Data? then r.bytes else "" }

  lemma {:induction false} ReadConserves(v: ReaderView, size: nat, before: string)
    requires before + v.pending == v.sunk
    ensures var (u, r) := Read(v, size);
            && |u.sunk| + u.remaining == |v.sunk| + v.remaining
            && (before + Bytes(r)) + u.pending == u.sunk
            && (r == Eof ==> u.remaining == 0 && u.pending == "")
    decreases |v.incoming|
  {
    if v.pending != "" {
    } else if v.incoming != [] && !v.incoming[0].header && |v.incoming[0].chunk| <= v.remaining {
      var m := v.incoming[0];
      ReadConserves(v.(incoming := v.incoming[1..], remaining := v.remaining - |m.chunk|, pending := m.chunk, sunk := v.sunk + m.chunk), size, before);
    } else {
      assert before + "" == before;
    }
  }

  lemma DeliveredFirst(before: string, r: ReadResult, rest: seq<ReadResult>)
    ensures before + Delivered([r] + rest) == (before + Bytes(r)) + Delivered(rest)
  {
    assert ([r] + rest)[1..] == rest;
  }

  /** Over any number of Reads nothing is lost, repeated or reordered: what was delivered and
      what is pending is what the sink saw, and sink and remainder add up to the header. */
  lemma {:induction false} ReadsConserve(v: ReaderView, sizes: seq<nat>, before: string)
    requires before + v.pending == v.sunk
    ensures var u := AfterReads(v, sizes);
            && |u.sunk| + u.remaining == |v.sunk| + v.remaining
            && (before + Delivered(Reads(v, sizes))) + u.pending == u.sunk
    decreases |sizes|
  {
    if sizes == [] {
      assert before + "" == before;
    } else {
      var (w, r) := Read(v, sizes[0]);
      ReadConserves(v, sizes[0], before);
      ReadsConserve(w, sizes[1..], before + Bytes(r));
      DeliveredFirst(before, r, Reads(w, sizes[1..]));
    }
  }

  /** Whenever a Read reports end-of-file, the target has received exactly the declared number
      of bytes, and they are exactly what the sink saw. */
  lemma EofMeansDeclaredBytes(size: nat, messages: seq<Message>, ending: Ending, sizes: seq<nat>, last: nat)
    requires var v := Opened(size, messages, ending); Read(AfterReads(v, sizes), last).1 == Eof
    ensures var v := Opened(size, messages, ending);
            && |Delivered(Reads(v, sizes))| == size
            && Delivered(Reads(v, sizes)) == Read(AfterReads(v, sizes), last).0.sunk
  {
    var v := Opened(size, messages, ending);
    var d := Delivered(Reads(v, sizes));
    ReadsConserve(v, sizes, "");
    assert "" + d == d && d + "" == d;
    ReadConserves(AfterReads(v, sizes), last, d);
  }

  /** What the stream still has to say, whatever the buffer sizes: the first result that is not
      data, given the messages that are left. */
  function Verdict(messages: seq<Message>, remaining: nat, ending: Ending): ReadResult {
    if messages == [] then (if ending == Broken then ReceiveFailed else if remaining != 0 then Mismatch else Eof)
    else if messages[0].header || |messages[0].chunk| > remaining then Mismatch
    else Verdict(messages[1..], remaining - |messages[0].chunk|, ending)
  }

  lemma {:induction false} ReadFollowsVerdict(v: ReaderView, size: nat)
    ensures var (u, r) := Read(v, size); var verdict := Verdict(v.incoming, v.remaining, v.ending);
            if r.Data? then Verdict(u.incoming, u.remaining, u.ending) == verdict && u.ending == v.ending && u.sunk + Body(u.incoming) == v.sunk + Body(v.incoming)
            else r == verdict && (r == Eof ==> u.sunk == v.sunk + Body(v.incoming))
    decreases |v.incoming|
  {
    if v.pending == "" && v.incoming != [] && !v.incoming[0].header && |v.incoming[0].chunk| <= v.remaining {
      var m := v.incoming[0];
      var v1 := v.(incoming := v.incoming[1..], remaining := v.remaining - |m.chunk|, pending := m.chunk, sunk := v.sunk + m.chunk);
      ReadFollowsVerdict(v1, size);
      assert (v.sunk + m.chunk) + Body(v1.incoming) == v.sunk + (m.chunk + Body(v1.incoming));
    }
  }

  lemma {:induction false} VerdictIsExact(messages: seq<Message>, size: nat, ending: Ending)
    ensures Verdict(messages, size, ending) == Eof <==> Exact(messages, size, ending)
    ensures ending == HalfClose ==> Verdict(messages, size, ending) in {Eof, Mismatch}
  {
    if messages == [] {
    } else if messages[0].header || |messages[0].chunk| > size {
    } else {
      VerdictIsExact(messages[1..], size - |messages[0].chunk|, ending);
      var rest := messages[1..];
      assert messages == [messages[0]] + rest;
      assert Exact(messages, size, ending) <==> Exact(rest, size - |messages[0].chunk|, ending) by {
        assert forall i :: 0 <= i < |rest| ==> rest[i] == messages[i + 1];
        assert forall i :: 1 <= i < |messages| ==> messages[i] == rest[i - 1];
      }
    }
  }

  /** Every message can be taken: no second header, and no more bytes than declared. */
  ghost predicate Fits(messages: seq<Message>, size: nat) {
    (forall i :: 0 <= i < |messages| ==> !messages[i].header) && |Body(messages)| <= size
  }

  /** The first result that is not data: a mismatch as soon as a message cannot be taken; otherwise
      the stream's own end decides, and a closed one matches only with the declared length. */
  lemma {:induction false} VerdictTells(messages: seq<Message>, size: nat, ending: Ending)
    ensures !Fits(messages, size) ==> Verdict(messages, size, ending) == Mismatch
    ensures Fits(messages, size) && ending == Broken ==> Verdict(messages, size, ending) == ReceiveFailed
    ensures Fits(messages, size) && ending == HalfClose ==> Verdict(messages, size, ending) == if |Body(messages)| == size then Eof else Mismatch
  {
    if messages != [] && !messages[0].header && |messages[0].chunk| <= size {
      var rest, left := messages[1..], size - |messages[0].chunk|;
      VerdictTells(rest, left, ending);
      assert messages == [messages[0]] + rest;
      assert forall i :: 0 <= i < |rest| ==> rest[i] == messages[i + 1];
      if !Fits(messages, size) && (forall i :: 0 <= i < |rest| ==> !rest[i].header) {
        assert forall i :: 0 < i < |messages| ==> messages[i] == rest[i - 1];
      }
    }
  }

  /** A Read that gives data gives what fits into the buffer: all that is pending or the buffer full, and
      never nothing for a real buffer. Data that is there is given before any end or error. */
  lemma {:induction false} ReadFills(v: ReaderView, size: nat)
    ensures var (u, r) := Read(v, size);
            && (r.Data? ==> |r.bytes| <= size && (|r.bytes| < size ==> u.pending == "") && (size > 0 ==> r.bytes != ""))
            && (v.pending != "" ==> r.Data? && u.incoming == v.incoming)
            && (v.pending == "" && v.incoming != [] && v.incoming[0].chunk != "" && !v.incoming[0].header && |v.incoming[0].chunk| <= v.remaining ==> r.Data?)
    decreases |v.incoming|
  {
    if v.pending == "" && v.incoming != [] && !v.incoming[0].header && |v.incoming[0].chunk| <= v.remaining {
      var m := v.incoming[0];
      ReadFills(v.(incoming := v.incoming[1..], remaining := v.remaining - |m.chunk|, pending := m.chunk, sunk := v.sunk + m.chunk), size);
    }
  }

  ghost predicate AllData(results: seq<ReadResult>) { forall i :: 0 <= i < |results| ==> results[i].Data? }

  lemma {:induction false} DataKeepsVerdict(v: ReaderView, sizes: seq<nat>)
    requires AllData(Reads(v, sizes))
    ensures var u := AfterReads(v, sizes);
            && u.ending == v.ending && Verdict(u.incoming, u.remaining, u.ending) == Verdict(v.incoming, v.remaining, v.ending)
            && u.sunk + Body(u.incoming) == v.sunk + Body(v.incoming)
    decreases |sizes|
  {
    if sizes == [] {
    } else {
      ReadFollowsVerdict(v, sizes[0]);
      var rest := Reads(Read(v, sizes[0]).0, sizes[1..]);
      assert Reads(v, sizes)[0].Data? && rest == Reads(v, sizes)[1..];
      DataKeepsVerdict(Read(v, sizes[0]).0, sizes[1..]);
    }
  }

  /** A target that stops at the first result that is not data sees end-of-file exactly when the
      client sent a matching body, and then it has received precisely that body; a second
      header, an overrun or an early close is always an error. */
  lemma FirstEndIsExact(size: nat, messages: seq<Message>, ending: Ending, sizes: seq<nat>, last: nat)
    requires var v := Opened(size, messages, ending);
             AllData(Reads(v, sizes)) && !Read(AfterReads(v, sizes), last).1.Data?
    ensures var v := Opened(size, messages, ending); var end := Read(AfterReads(v, sizes), last).1;
            && (end == Eof <==> Exact(messages, size, ending))
            && (end == Eof ==> Delivered(Reads(v, sizes)) == Body(messages))
            && (ending == HalfClose && !Exact(messages, size, ending) ==> end == Mismatch)
            && (end == ReceiveFailed <==> ending == Broken && Fits(messages, size))
  {
    var v := Opened(size, messages, ending);
    var u := AfterReads(v, sizes);
    DataKeepsVerdict(v, sizes);
    ReadFollowsVerdict(u, last);
    VerdictIsExact(messages, size, ending);
    VerdictTells(messages, size, ending);
    if Read(u, last).1 == Eof {
      EofMeansDeclaredBytes(size, messages, ending, sizes, last);
      assert "" + Body(messages) == Body(messages);
    }
  }

  /** Stopping matters: a target that reads on after the error can be told end-of-file although
      a message was refused. */
  lemma ReadingPastAnErrorCanEnd()
    ensures var v := Opened(0, [Message(false, "x")], HalfClose);
            Read(v, 1).1 == Mismatch && Read(Read(v, 1).0, 1).1 == Eof && !Exact(v.incoming, 0, HalfClose)
  {
    var v := Opened(0, [Message(false, "x")], HalfClose);
    assert v.incoming[1..] == [];
    assert Body(v.incoming) == "x" + Body([]);
  }

  // ----- targets that read on after an error -----

  /** What is left of the declared size when refused messages are skipped. */
  function Left(messages: seq<Message>, remaining: nat): nat {
    if messages == [] then remaining
    else if messages[0].header || |messages[0].chunk| > remaining then Left(messages[1..], remaining)
    else Left(messages[1..], remaining - |messages[0].chunk|)
  }

  lemma {:induction false} ReadKeepsLeft(v: ReaderView, size: nat)
    ensures var (u, r) := Read(v, size);
            && u.ending == v.ending && Left(u.incoming, u.remaining) == Left(v.incoming, v.remaining)
            && (r == Eof ==> v.ending == HalfClose && Left(v.incoming, v.remaining) == 0)
    decreases |v.incoming|
  {
    if v.pending == "" && v.incoming != [] && !v.incoming[0].header && |v.incoming[0].chunk| <= v.remaining {
      var m := v.incoming[0];
      ReadKeepsLeft(v.(incoming := v.incoming[1..], remaining := v.remaining - |m.chunk|, pending := m.chunk, sunk := v.sunk + m.chunk), size);
    }
  }

  lemma {:induction false} ReadsKeepLeft(v: ReaderView, sizes: seq<nat>)
    ensures var u := AfterReads(v, sizes); u.ending == v.ending && Left(u.incoming, u.remaining) == Left(v.incoming, v.remaining)
    decreases |sizes|
  {
    if sizes != [] {
      ReadKeepsLeft(v, sizes[0]);
      ReadsKeepLeft(Read(v, sizes[0]).0, sizes[1..]);
    }
  }

  function Weight(messages: seq<Message>): nat {
    if messages == [] then 0 else 1 + |messages[0].chunk| + Weight(messages[1..])
  }

  /** Until end-of-file, every Read of a closed stream makes progress. */
  lemma {:induction false} ReadShrinks(v: ReaderView)
    requires v.ending == HalfClose && Left(v.incoming, v.remaining) == 0 && Read(v, 1).1 != Eof
    ensures var u := Read(v, 1).0; |u.pending| + Weight(u.incoming) < |v.pending| + Weight(v.incoming)
    decreases |v.incoming|
  {
    if v.pending == "" && v.incoming != [] && !v.incoming[0].header && |v.incoming[0].chunk| <= v.remaining {
      var m := v.incoming[0];
      ReadShrinks(v.(incoming := v.incoming[1..], remaining := v.remaining - |m.chunk|, pending := m.chunk, sunk := v.sunk + m.chunk));
    }
  }

  lemma {:induction false} ReadToTheEnd(v: ReaderView) returns (sizes: seq<nat>)
    requires v.ending == HalfClose && Left(v.incoming, v.remaining) == 0
    ensures Read(AfterReads(v, sizes), 1).1 == Eof
    decreases |v.pending| + Weight(v.incoming)
  {
    sizes := [];
    if Read(v, 1).1 != Eof {
      ReadShrinks(v);
      ReadKeepsLeft(v, 1);
      var rest := ReadToTheEnd(Read(v, 1).0);
      sizes := [1] + rest;
      assert sizes[1..] == rest;
    }
  }

  ghost predicate CanEnd(size: nat, messages: seq<Message>, ending: Ending) {
    exists sizes, last :: Read(AfterReads(Opened(size, messages, ending), sizes), last).1 == Eof
  }

  /** Some way to read a stream ends it exactly when the client closed it and its messages add up to
      the declared size, the refused ones skipped. */
  lemma {:induction false} CanEndExactly(size: nat, messages: seq<Message>, ending: Ending)
    ensures CanEnd(size, messages, ending) <==> ending == HalfClose && Left(messages, size) == 0
  {
    var v := Opened(size, messages, ending);
    if CanEnd(size, messages, ending) {
      var sizes, last :| Read(AfterReads(v, sizes), last).1 == Eof;
      ReadsKeepLeft(v, sizes);
      ReadKeepsLeft(AfterReads(v, sizes), last);
    }
    if ending == HalfClose && Left(messages, size) == 0 {
      var sizes := ReadToTheEnd(v);
    }
  }

  /** So, for targets that read on after errors, only matching bodies can end exactly when the stream
      matches, breaks, or does not add up once its refused messages are skipped. */
  lemma {:induction false} OnlyExactBodiesEndExactly(size: nat, messages: seq<Message>, ending: Ending)
    ensures (CanEnd(size, messages, ending) ==> Exact(messages, size, ending))
       <==> Exact(messages, size, ending) || ending == Broken || Left(messages, size) != 0
  {
    CanEndExactly(size, messages, ending);
  }
}
