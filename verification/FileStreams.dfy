/** Byte sinks of the file procedures (pkg/bridge/grpc/files.go). A string holds one character
    per byte. */
module FileStreams {
  import opened Common

  const CHUNK_BYTES := 65536
  const MAX_RECORDED_INPUT_BYTES := 16 * 1024 * 1024

  /** Batches content into stream messages; the send numbered `failAt` and all later ones fail. */
  class ChunkWriter {
    const failAt: nat
    var sent: seq<string>
    var pending: string

    /** Every message sent so far is full, and a full batch never stays pending. */
    ghost predicate Valid() reads this {
      |pending| < CHUNK_BYTES && forall i :: 0 <= i < |sent| ==> |sent[i]| == CHUNK_BYTES
    }

    /** All content accepted so far. */
    ghost function Accepted(): string reads this { Concat(sent) + pending }

    constructor (failAt: nat)
      ensures Valid() && Accepted() == "" && this.failAt == failAt
    {
      this.failAt := failAt;
      sent, pending := [], "";
    }

    method Flush() returns (ok: bool)
      modifies this
      ensures pending == ""
      ensures ok ==> sent == old(sent) + (if old(pending) == "" then [] else [old(pending)])
      ensures ok ==> Accepted() == old(Accepted())
      ensures !ok ==> sent == old(sent) && |sent| >= failAt
    {
      if |pending| == 0 { return true; }
      if |sent| >= failAt {
        pending := "";
        return false;
      }
      ConcatAppend(sent, [pending]);
      assert Concat([pending]) == pending by { assert [pending][..0] == []; }
      sent, pending := sent + [pending], "";
      assert Concat(sent) + "" == Concat(sent);
      return true;
    }

    method Write(content: string) returns (ok: bool)
      requires Valid()
      modifies this
      ensures ok ==> Valid() && Accepted() == old(Accepted()) + content
      ensures !ok ==> |sent| >= failAt
    {
      var rest := content;
      while |rest| > 0
        invariant Valid() && Accepted() + rest == old(Accepted()) + content
        decreases |rest|
      {
        var room := CHUNK_BYTES - |pending|;
        var take := if room < |rest| then room else |rest|;
        ghost var before := Accepted();
        pending := pending + rest[..take];
        assert Accepted() == before + rest[..take];
        assert rest == rest[..take] + rest[take..];
        rest := rest[take..];
        if |pending| == CHUNK_BYTES {
          var flushed := Flush();
          if !flushed { return false; }
        }
      }
      return true;
    }
  }

  /** Sees every content byte once: counts and hashes it (`hashed` is what the hash was fed),
      keeps written content up to the bound, and passes it on. */
  class ContentSink {
    const next: ChunkWriter?
    const keeping: bool
    var hashed: string
    var keep: bool
    var kept: string
    var count: nat

    /** The retained copy is the whole content, or nothing once the bound was passed. */
    ghost predicate Valid() reads this, next {
      && (next != null ==> next.Valid())
      && count == |hashed|
      && keep == (keeping && count <= MAX_RECORDED_INPUT_BYTES)
      && kept == if keep then hashed else ""
    }

    constructor (next: ChunkWriter?, keep: bool)
      requires next != null ==> next.Valid()
      ensures Valid() && this.next == next && keeping == keep && hashed == ""
    {
      this.next := next;
      keeping, this.keep := keep, keep;
      hashed, kept, count := "", "", 0;
    }

    method Write(content: string) returns (ok: bool)
      requires Valid()
      modifies this, next
      ensures ok ==> Valid() && hashed == old(hashed) + content
      ensures ok && next != null ==> next.Accepted() == old(next.Accepted()) + content
      ensures !ok ==> next != null && hashed == old(hashed) && |next.sent| >= next.failAt
    {
      if next != null {
        var passed := next.Write(content);
        if !passed { return false; }
      }
      hashed, count := hashed + content, count + |content|;
      if keep && count <= MAX_RECORDED_INPUT_BYTES {
        kept := kept + content;
      } else if keep {
        keep, kept := false, "";
      }
      return true;
    }
  }
}
