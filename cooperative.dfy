/**
 * The upload loop against a server that accepts every chunk in full: each
 * 202 names the byte after the chunk as the next start, and the last chunk
 * gets 201 with the item. Then the sent ranges cut the file into consecutive
 * 10 MiB pieces with no gap and no overlap.
 */
module Cooperative {
  import opened Wrappers
  import opened Wire
  import opened ChunkSession
  import opened SessionFacts
  import opened LoopFacts

  /** The replies of a server that accepts every chunk from `cursor` on in full. */
  function CooperativeReplies(size: nat, cursor: nat, item: PropDict): (rs: seq<Response>)
    requires cursor < size
    ensures |rs| > 0
    decreases size - cursor
  {
    var end := Min(cursor + ChunkSizeBytes, size);
    if end == size then [Response(201, item)]
    else [Response(202, AcceptedBody(end, size - 1))] + CooperativeReplies(size, end, item)
  }

  /** The requests the loop sends from `cursor` on when every chunk is accepted in full. */
  function ExpectedRequests(file: seq<byte>, cursor: nat): (rs: seq<Request>)
    requires cursor < |file|
    ensures |rs| > 0 && rs[0].range.first == cursor
    decreases |file| - cursor
  {
    var chunk := NextChunkOf(file, cursor);
    var req := ChunkRequest(cursor, chunk, |file|);
    if cursor + |chunk| == |file| then [req] else [req] + ExpectedRequests(file, cursor + |chunk|)
  }

  /** Each range starts right after the previous one ends. */
  predicate Contiguous(rs: seq<Request>) {
    forall i :: 0 <= i < |rs| - 1 ==> rs[i + 1].range.first == rs[i].range.last + 1
  }

  /** Each request lies within [lo, |file|), names the file's size, and carries the file's bytes of its range. */
  predicate CarriesFile(rs: seq<Request>, file: seq<byte>, lo: nat) {
    forall i :: 0 <= i < |rs| ==>
      && lo <= rs[i].range.first <= rs[i].range.last < |file|
      && rs[i].range.complete == |file|
      && rs[i].body == file[rs[i].range.first..rs[i].range.last + 1]
      && rs[i].contentLength == |rs[i].body|
  }

  /** Every request but the last carries a full 10 MiB. */
  predicate FullChunks(rs: seq<Request>) {
    forall i :: 0 <= i < |rs| - 1 ==> |rs[i].body| == ChunkSizeBytes
  }

  /** A run of expected requests is the first chunk's request followed by the run from the next chunk on. */
  lemma ExpectedRequestsUnfold(file: seq<byte>, cursor: nat)
    requires cursor < |file|
    ensures var chunk := NextChunkOf(file, cursor);
            var rs := ExpectedRequests(file, cursor);
            && rs[0] == ChunkRequest(cursor, chunk, |file|)
            && (cursor + |chunk| == |file| ==> |rs| == 1)
            && (cursor + |chunk| < |file| ==> rs[1..] == ExpectedRequests(file, cursor + |chunk|))
  {
  }

  /** The expected requests end at the file's last byte. */
  lemma {:induction false} ExpectedRequestsEnd(file: seq<byte>, cursor: nat)
    requires cursor < |file|
    ensures var rs := ExpectedRequests(file, cursor); rs[|rs| - 1].range.last == |file| - 1
    decreases |file| - cursor
  {
    var rs := ExpectedRequests(file, cursor);
    var chunk := NextChunkOf(file, cursor);
    ExpectedRequestsUnfold(file, cursor);
    if cursor + |chunk| < |file| {
      ExpectedRequestsEnd(file, cursor + |chunk|);
      assert rs[|rs| - 1] == rs[1..][|rs| - 2];
    }
  }

  /** Each expected range starts right after the previous one ends. */
  lemma {:induction false} ExpectedRequestsContiguous(file: seq<byte>, cursor: nat)
    requires cursor < |file|
    ensures Contiguous(ExpectedRequests(file, cursor))
    decreases |file| - cursor
  {
    var rs := ExpectedRequests(file, cursor);
    var chunk := NextChunkOf(file, cursor);
    ExpectedRequestsUnfold(file, cursor);
    if cursor + |chunk| < |file| {
      var tail := rs[1..];
      ExpectedRequestsContiguous(file, cursor + |chunk|);
      forall i | 0 <= i < |rs| - 1
        ensures rs[i + 1].range.first == rs[i].range.last + 1
      {
        if i > 0 {
          assert rs[i] == tail[i - 1] && rs[i + 1] == tail[i];
        }
      }
    }
  }

  /** Each expected request carries the file's bytes of its range, and all but the last are 10 MiB. */
  lemma {:induction false} ExpectedRequestsCarryFile(file: seq<byte>, cursor: nat)
    requires cursor < |file|
    ensures CarriesFile(ExpectedRequests(file, cursor), file, cursor)
    ensures FullChunks(ExpectedRequests(file, cursor))
    decreases |file| - cursor
  {
    var rs := ExpectedRequests(file, cursor);
    var chunk := NextChunkOf(file, cursor);
    ExpectedRequestsUnfold(file, cursor);
    if cursor + |chunk| < |file| {
      var tail := rs[1..];
      ExpectedRequestsCarryFile(file, cursor + |chunk|);
      forall i | 0 <= i < |rs|
        ensures && cursor <= rs[i].range.first <= rs[i].range.last < |file|
                && rs[i].range.complete == |file|
                && rs[i].body == file[rs[i].range.first..rs[i].range.last + 1]
                && rs[i].contentLength == |rs[i].body|
      {
        if i > 0 { assert rs[i] == tail[i - 1]; }
      }
      forall i | 0 <= i < |rs| - 1
        ensures |rs[i].body| == ChunkSizeBytes
      {
        if i > 0 { assert rs[i] == tail[i - 1]; }
      }
    }
  }

  /** In a contiguous run whose ranges are non-empty, a later range starts after an earlier one ends. */
  lemma {:induction false} ContiguousDisjoint(rs: seq<Request>, i: nat, k: nat)
    requires Contiguous(rs)
    requires forall j :: 0 <= j < |rs| ==> rs[j].range.first <= rs[j].range.last
    requires i < k < |rs|
    ensures rs[i].range.last < rs[k].range.first
    decreases k - i
  {
    if k > i + 1 {
      ContiguousDisjoint(rs, i, k - 1);
    }
  }

  /** The bodies of a run of requests, joined in order. */
  function Bodies(rs: seq<Request>): (bytes: seq<byte>)
    ensures |bytes| == if rs == [] then 0 else |rs[0].body| + |Bodies(rs[1..])|
  {
    if rs == [] then [] else rs[0].body + Bodies(rs[1..])
  }

  /** Joined together, the expected requests' bodies are the file from `cursor` on. */
  lemma {:induction false} ExpectedBodiesAreFile(file: seq<byte>, cursor: nat)
    requires cursor < |file|
    ensures Bodies(ExpectedRequests(file, cursor)) == file[cursor..]
    decreases |file| - cursor
  {
    var rs := ExpectedRequests(file, cursor);
    var chunk := NextChunkOf(file, cursor);
    if cursor + |chunk| == |file| {
      assert rs[1..] == [];
      assert Bodies(rs) == chunk + [];
    } else {
      var tail := ExpectedRequests(file, cursor + |chunk|);
      assert rs[1..] == tail;
      ExpectedBodiesAreFile(file, cursor + |chunk|);
      assert Bodies(rs) == chunk + file[cursor + |chunk|..];
      assert file[cursor..] == chunk + file[cursor + |chunk|..];
    }
  }

  /** Against the cooperative server, the chunk that reaches the end of the file gets 201 and returns the item. */
  lemma CooperativeLastSend(m: Machine, file: seq<byte>, cursor: nat, item: PropDict, rest: seq<Response>)
    requires cursor < |file| && m.progress == cursor
    requires m.replies == CooperativeReplies(|file|, cursor, item) + rest
    requires cursor + |NextChunkOf(file, cursor)| == |file|
    ensures var chunk := NextChunkOf(file, cursor);
            Send(m, |file|, chunk)
            == Step(Ok(Uploaded(item)), m.(replies := rest, sent := m.sent + [ChunkRequest(cursor, chunk, |file|)]))
  {
    var chunk := NextChunkOf(file, cursor);
    assert Min(cursor + ChunkSizeBytes, |file|) == |file|;
    assert CooperativeReplies(|file|, cursor, item) == [Response(201, item)];
    assert m.replies[0] == Response(201, item);
    assert m.replies[1..] == rest;
    LastChunkOutcome(m, |file|, chunk);
  }

  /** A 202 whose body names `start` next moves the progress to `start` and consumes that one reply. */
  lemma AcceptedSend(m: Machine, fileSize: nat, chunk: seq<byte>, body: PropDict, start: nat, tail: seq<Response>)
    requires |chunk| > 0 && !IsLastChunk(ChunkRequest(m.progress, chunk, fileSize))
    requires m.replies == [Response(202, body)] + tail && NextRangeStart(body) == Some(start)
    ensures Send(m, fileSize, chunk)
            == Step(Ok(Pending), m.(progress := start, replies := tail,
                                    sent := m.sent + [ChunkRequest(m.progress, chunk, fileSize)]))
  {
    assert m.replies[0] == Response(202, body) && m.replies[1..] == tail;
    AcceptedIff(m, fileSize, chunk);
  }

  /** Short of the end of the file, the cooperative server's next reply is a 202 naming the next read position. */
  lemma CooperativeRepliesAccepted(size: nat, cursor: nat, end: nat, item: PropDict)
    requires cursor < end < size && end == Min(cursor + ChunkSizeBytes, size)
    ensures CooperativeReplies(size, cursor, item)
            == [Response(202, AcceptedBody(end, size - 1))] + CooperativeReplies(size, end, item)
  {
  }

  lemma PrependAssoc<T>(x: T, a: seq<T>, b: seq<T>)
    ensures [x] + a + b == [x] + (a + b)
  {
  }

  /** Against the cooperative server, any earlier chunk gets 202 and moves the progress to the next read position. */
  lemma CooperativeAcceptedSend(m: Machine, file: seq<byte>, cursor: nat, item: PropDict, rest: seq<Response>)
    requires cursor < |file| && m.progress == cursor
    requires m.replies == CooperativeReplies(|file|, cursor, item) + rest
    requires cursor + |NextChunkOf(file, cursor)| < |file|
    ensures var chunk := NextChunkOf(file, cursor);
            Send(m, |file|, chunk)
            == Step(Ok(Pending), m.(progress := cursor + |chunk|,
                                    replies := CooperativeReplies(|file|, cursor + |chunk|, item) + rest,
                                    sent := m.sent + [ChunkRequest(cursor, chunk, |file|)]))
  {
    var chunk := NextChunkOf(file, cursor);
    var end := cursor + |chunk|;
    var body := AcceptedBody(end, |file| - 1);
    var tail := CooperativeReplies(|file|, end, item) + rest;
    assert Min(cursor + ChunkSizeBytes, |file|) == end;
    CooperativeRepliesAccepted(|file|, cursor, end, item);
    PrependAssoc(Response(202, body), CooperativeReplies(|file|, end, item), rest);
    assert !IsLastChunk(ChunkRequest(cursor, chunk, |file|));
    AcceptedSend(m, |file|, chunk, body, end, tail);
  }

  /** Against the cooperative server, the chunk at `cursor` is answered as the server intends. */
  lemma CooperativeSend(m: Machine, file: seq<byte>, cursor: nat, item: PropDict, rest: seq<Response>)
    requires cursor < |file| && m.progress == cursor
    requires m.replies == CooperativeReplies(|file|, cursor, item) + rest
    ensures var chunk := NextChunkOf(file, cursor);
            var st := Send(m, |file|, chunk);
            var req := ChunkRequest(cursor, chunk, |file|);
            && (cursor + |chunk| == |file| ==>
                  st == Step(Ok(Uploaded(item)), m.(replies := rest, sent := m.sent + [req])))
            && (cursor + |chunk| < |file| ==>
                  st == Step(Ok(Pending), m.(progress := cursor + |chunk|,
                                             replies := CooperativeReplies(|file|, cursor + |chunk|, item) + rest,
                                             sent := m.sent + [req])))
  {
    if cursor + |NextChunkOf(file, cursor)| == |file| {
      CooperativeLastSend(m, file, cursor, item, rest);
    } else {
      CooperativeAcceptedSend(m, file, cursor, item, rest);
    }
  }

  /**
   * Against the cooperative server, the loop from `cursor` on returns the
   * item, uses exactly the cooperative replies, and never touches the retry
   * counter or sleeps.
   */
  lemma {:induction false} CooperativeUploadFrom(m: Machine, file: seq<byte>, cursor: nat, item: PropDict, rest: seq<Response>)
    requires cursor < |file| && m.progress == cursor
    requires m.replies == CooperativeReplies(|file|, cursor, item) + rest
    ensures var r := UploadFrom(m, file, cursor);
            && r.out == Ok(Some(item))
            && r.after.replies == rest
            && r.after.retry == m.retry
            && r.after.sleeps == m.sleeps
    decreases |file| - cursor
  {
    var chunk := NextChunkOf(file, cursor);
    var end := cursor + |chunk|;
    var st := Send(m, |file|, chunk);
    var rs := ExpectedRequests(file, cursor);
    CooperativeSend(m, file, cursor, item, rest);
    UploadFromUnfold(m, file, cursor);
    ExpectedRequestsUnfold(file, cursor);
    if end < |file| {
      CooperativeUploadFrom(st.after, file, end, item, rest);
    }
  }

  /** Against the cooperative server, the loop from `cursor` on sends exactly the expected requests. */
  lemma {:induction false} CooperativeUploadSends(m: Machine, file: seq<byte>, cursor: nat, item: PropDict, rest: seq<Response>)
    requires cursor < |file| && m.progress == cursor
    requires m.replies == CooperativeReplies(|file|, cursor, item) + rest
    ensures UploadFrom(m, file, cursor).after.sent == m.sent + ExpectedRequests(file, cursor)
    decreases |file| - cursor
  {
    var chunk := NextChunkOf(file, cursor);
    var end := cursor + |chunk|;
    var st := Send(m, |file|, chunk);
    var rs := ExpectedRequests(file, cursor);
    CooperativeSend(m, file, cursor, item, rest);
    UploadFromUnfold(m, file, cursor);
    ExpectedRequestsUnfold(file, cursor);
    if end < |file| {
      CooperativeUploadSends(st.after, file, end, item, rest);
      AppendFirst(m.sent, rs);
    } else {
      AppendFirst(m.sent, rs);
    }
  }

  lemma AppendFirst(a: seq<Request>, rs: seq<Request>)
    requires |rs| > 0
    ensures a + rs == (a + [rs[0]]) + rs[1..]
    ensures |rs| == 1 ==> a + rs == a + [rs[0]]
  {
    assert rs == [rs[0]] + rs[1..];
  }

  /**
   * A whole upload of a non-empty file from progress 0 against the
   * cooperative server returns the item, and the requests sent partition the
   * file: the first starts at 0, the last ends at its last byte, each starts
   * right after the previous one, and their bodies joined are the file.
   */
  lemma CooperativeUploadPartitions(m: Machine, file: seq<byte>, item: PropDict)
    requires |file| > 0 && m.progress == 0 && m.sent == []
    requires m.replies == CooperativeReplies(|file|, 0, item)
    ensures UploadFrom(m, file, 0).out == Ok(Some(item))
    ensures var sent := UploadFrom(m, file, 0).after.sent;
            && |sent| > 0
            && sent[0].range.first == 0
            && sent[|sent| - 1].range.last == |file| - 1
            && Contiguous(sent)
            && CarriesFile(sent, file, 0)
            && Bodies(sent) == file
  {
    assert m.replies == CooperativeReplies(|file|, 0, item) + [];
    CooperativeUploadFrom(m, file, 0, item, []);
    CooperativeUploadSends(m, file, 0, item, []);
    assert UploadFrom(m, file, 0).after.sent == ExpectedRequests(file, 0);
    ExpectedRequestsEnd(file, 0);
    ExpectedRequestsContiguous(file, 0);
    ExpectedRequestsCarryFile(file, 0);
    ExpectedBodiesAreFile(file, 0);
  }

  /** A 25 MiB file goes up in three chunks of 10 MiB, 10 MiB and 5 MiB. */
  lemma TwentyFiveMiBInThreeChunks(file: seq<byte>)
    requires |file| == 26214400
    ensures var rs := ExpectedRequests(file, 0);
            |rs| == 3 && |rs[0].body| == 10485760 && |rs[1].body| == 10485760 && |rs[2].body| == 5242880
  {
    var rs2 := ExpectedRequests(file, 20971520);
    assert |rs2| == 1;
    var rs1 := ExpectedRequests(file, 10485760);
    assert rs1 == [rs1[0]] + rs2;
  }
}
