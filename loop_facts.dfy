/** Facts about the chunk loop of `uploadLargeItem`. */
module LoopFacts {
  import opened Wrappers
  import opened Wire
  import opened ChunkSession
  import opened SessionFacts

  /**
   * One turn of the loop: after the chunk at `cursor` is sent, an exception
   * ends the loop with that error, an item ends it with the item, and false
   * goes on from the next read position.
   */
  lemma UploadFromUnfold(m: Machine, file: seq<byte>, cursor: nat)
    requires cursor < |file|
    ensures var chunk := NextChunkOf(file, cursor);
            var st := Send(m, |file|, chunk);
            && (st.out.Fail? ==> UploadFrom(m, file, cursor) == Step(Fail(st.out.error), st.after))
            && (st.out == Ok(Pending) ==> UploadFrom(m, file, cursor) == UploadFrom(st.after, file, cursor + |chunk|))
            && (st.out.Ok? && st.out.value.Uploaded? ==>
                  UploadFrom(m, file, cursor) == Step(Ok(Some(st.out.value.item)), st.after))
  {
  }

  /**
   * With the end-of-file test taken as the read position reaching the
   * file's length, an empty file sends nothing and yields no item.
   */
  lemma EmptyFileSendsNothing(m: Machine)
    ensures UploadFrom(m, [], 0) == Step(Ok(None), m)
  {
  }

  /** The loop only appends to the requests the server has received. */
  lemma {:induction false} UploadFromExtendsSent(m: Machine, file: seq<byte>, cursor: nat)
    requires cursor <= |file|
    ensures |m.sent| <= |UploadFrom(m, file, cursor).after.sent|
    ensures UploadFrom(m, file, cursor).after.sent[..|m.sent|] == m.sent
    decreases |file| - cursor
  {
    if cursor < |file| {
      var chunk := NextChunkOf(file, cursor);
      var st := Send(m, |file|, chunk);
      SendResendsSameRequest(m, |file|, chunk);
      if st.out == Ok(Pending) {
        UploadFromExtendsSent(st.after, file, cursor + |chunk|);
        var final := UploadFrom(st.after, file, cursor + |chunk|).after.sent;
        assert final[..|m.sent|] == final[..|st.after.sent|][..|m.sent|];
      }
    }
  }

  /**
   * The loop reads the file at its own cursor, which moves by the chunk's
   * length, while the range it announces starts at the offset the server
   * declared. After a first 202 naming `start`, the second request's range
   * starts at `start` but its body is the file's second 10 MiB, whatever
   * `start` is.
   */
  lemma ServerOffsetDoesNotMoveReadCursor(m: Machine, file: seq<byte>, start: nat, end: nat)
    requires |file| > ChunkSizeBytes
    requires m.replies != [] && m.replies[0] == Response(202, AcceptedBody(start, end))
    requires !IsLastChunk(ChunkRequest(m.progress, NextChunkOf(file, 0), |file|))
    ensures var sent := UploadFrom(m, file, 0).after.sent;
            && |sent| >= |m.sent| + 2
            && sent[|m.sent| + 1].range.first == start
            && sent[|m.sent| + 1].body == NextChunkOf(file, ChunkSizeBytes)
  {
    var first := NextChunkOf(file, 0);
    assert |first| == ChunkSizeBytes;
    AcceptedIff(m, |file|, first);
    var m1 := Send(m, |file|, first).after;
    assert m1.progress == start && |m1.sent| == |m.sent| + 1;
    UploadFromUnfold(m, file, 0);
    SecondRequestAnnouncesStart(m1, file, start, |m.sent| + 1);
  }

  /** From a progress of `start` at the second read position, the next request announces `start` and carries the second chunk. */
  lemma SecondRequestAnnouncesStart(m1: Machine, file: seq<byte>, start: nat, n: nat)
    requires |file| > ChunkSizeBytes && m1.progress == start && |m1.sent| == n
    ensures var sent := UploadFrom(m1, file, ChunkSizeBytes).after.sent;
            && |sent| >= n + 1
            && sent[n].range.first == start
            && sent[n].body == NextChunkOf(file, ChunkSizeBytes)
  {
    var second := NextChunkOf(file, ChunkSizeBytes);
    var st := Send(m1, |file|, second);
    SendResendsSameRequest(m1, |file|, second);
    assert st.after.sent[n] == ChunkRequest(start, second, |file|);
    UploadFromUnfold(m1, file, ChunkSizeBytes);
    UploadFromExtendsSent(st.after, file, ChunkSizeBytes + |second|);
    if st.out == Ok(Pending) {
      var final := UploadFrom(st.after, file, ChunkSizeBytes + |second|).after.sent;
      assert final[n] == final[..|st.after.sent|][n];
    }
  }

  /**
   * The requests `rs` carry, in order, the chunks the loop reads from
   * `cursor` on: each carries the chunk at the current read position (its
   * announced start is whatever the progress was), and the next one carries
   * the same chunk again (a resend) or the chunk at the next read position.
   */
  ghost predicate ReadsFrom(rs: seq<Request>, file: seq<byte>, cursor: nat)
    decreases |rs|
  {
    rs == [] ||
    (&& cursor < |file|
     && rs[0] == ChunkRequest(rs[0].range.first, NextChunkOf(file, cursor), |file|)
     && (|| ReadsFrom(rs[1..], file, cursor)
         || ReadsFrom(rs[1..], file, cursor + |NextChunkOf(file, cursor)|)))
  }

  /** k copies of the request for the chunk at `cursor`, then requests read from the next position on. */
  lemma {:induction false} RepeatThenReads(req: Request, k: nat, rest: seq<Request>, file: seq<byte>, cursor: nat)
    requires cursor < |file| && k > 0
    requires req == ChunkRequest(req.range.first, NextChunkOf(file, cursor), |file|)
    requires ReadsFrom(rest, file, cursor + |NextChunkOf(file, cursor)|)
    ensures ReadsFrom(Repeat(req, k) + rest, file, cursor)
    decreases k
  {
    var rs := Repeat(req, k) + rest;
    assert rs[0] == req;
    if k == 1 {
      assert rs[1..] == rest;
    } else {
      RepeatThenReads(req, k - 1, rest, file, cursor);
      assert rs[1..] == Repeat(req, k - 1) + rest;
    }
  }

  /**
   * Whatever the server replies, the requests the loop sends carry the
   * file's chunks in reading order: the read position moves by one chunk
   * after each call that returns false, and never by the offset the server
   * names.
   */
  lemma {:induction false} UploadFromReadsInOrder(m: Machine, file: seq<byte>, cursor: nat)
    requires cursor <= |file|
    ensures var sent := UploadFrom(m, file, cursor).after.sent;
            |m.sent| <= |sent| && ReadsFrom(sent[|m.sent|..], file, cursor)
    decreases |file| - cursor
  {
    UploadFromExtendsSent(m, file, cursor);
    var sent := UploadFrom(m, file, cursor).after.sent;
    if cursor == |file| {
      assert sent[|m.sent|..] == [];
    } else {
      var chunk := NextChunkOf(file, cursor);
      var st := Send(m, |file|, chunk);
      var req := ChunkRequest(m.progress, chunk, |file|);
      var k := st.after.retry - m.retry + 1;
      SendResendsSameRequest(m, |file|, chunk);
      UploadFromUnfold(m, file, cursor);
      if st.out == Ok(Pending) {
        UploadFromReadsInOrder(st.after, file, cursor + |chunk|);
        UploadFromExtendsSent(st.after, file, cursor + |chunk|);
        var rest := sent[|st.after.sent|..];
        assert sent == st.after.sent + rest;
        assert sent[|m.sent|..] == Repeat(req, k) + rest;
        RepeatThenReads(req, k, rest, file, cursor);
      } else {
        assert sent[|m.sent|..] == Repeat(req, k) + [];
        RepeatThenReads(req, k, [], file, cursor);
      }
    }
  }

  /** The read position of the chunk that reaches the end of the file, reading from `cursor` on. */
  function LastReadAt(file: seq<byte>, cursor: nat): (c: nat)
    requires cursor < |file|
    ensures cursor <= c < |file| && c + |NextChunkOf(file, c)| == |file|
    ensures (c - cursor) % ChunkSizeBytes == 0
    decreases |file| - cursor
  {
    if cursor + |NextChunkOf(file, cursor)| == |file| then cursor
    else
      var c := LastReadAt(file, cursor + ChunkSizeBytes);
      assert c - cursor == (c - (cursor + ChunkSizeBytes)) + ChunkSizeBytes;
      c
  }

  /**
   * A non-empty file yields no item (PHP's null) only when the call for the
   * chunk that reaches the end of the file returned false: the loop ends
   * then because the file is exhausted.
   */
  lemma {:induction false} NoItemOnlyAfterLastChunkReturnsFalse(m: Machine, file: seq<byte>, cursor: nat)
    requires cursor < |file|
    ensures var r := UploadFrom(m, file, cursor);
            r.out == Ok(None) ==>
              exists m' :: Send(m', |file|, NextChunkOf(file, LastReadAt(file, cursor))) == Step(Ok(Pending), r.after)
    decreases |file| - cursor
  {
    var chunk := NextChunkOf(file, cursor);
    var st := Send(m, |file|, chunk);
    UploadFromUnfold(m, file, cursor);
    if st.out == Ok(Pending) {
      if cursor + |chunk| == |file| {
        assert UploadFrom(m, file, cursor) == Step(Ok(None), st.after);
        assert Send(m, |file|, NextChunkOf(file, LastReadAt(file, cursor))) == Step(Ok(Pending), st.after);
      } else {
        assert LastReadAt(file, cursor) == LastReadAt(file, cursor + |chunk|);
        assert UploadFrom(m, file, cursor) == UploadFrom(st.after, file, cursor + |chunk|);
        NoItemOnlyAfterLastChunkReturnsFalse(st.after, file, cursor + |chunk|);
      }
    }
  }
}
