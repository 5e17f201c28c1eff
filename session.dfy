/**
 * The chunk-upload client as functions of its state: `Send` is one call of
 * `nextChunk` (with its recursive retry), `UploadFrom` the chunk loop of
 * `uploadLargeItem`. The server is the sequence of replies it will give.
 */
module ChunkSession {
  import opened Wrappers
  import opened Wire

  /** Bytes read from the file for each chunk: 10 MiB, a multiple of 320 KiB. */
  const ChunkSizeBytes: nat := 10485760

  /** Seconds slept before the n-th resend after a server error. */
  const RetryIntervals: seq<nat> := [0, 1, 1, 2, 3, 5, 8, 13, 21, 34]

  predicate IsServerError(status: int) {
    status == 500 || status == 502 || status == 503 || status == 504
  }

  /** The exceptions `nextChunk` throws, and a transport failure of the HTTP client. */
  datatype UploadError =
    | SessionExpired              // 404: the upload URL has expired
    | RetriesExhausted            // a server error with the retry counter above 9
    | NameConflict                // 409 on the last chunk
    | LastChunkFailed(code: int)  // any other status on the last chunk
    | ChunkFailed(code: int)      // any status but 202 on another chunk
    | MalformedRanges             // a 202 reply without a usable `nextExpectedRanges[0]`
    | NoResponse                  // the server gave no reply

  /** What `nextChunk` returns when it does not throw: false, or the uploaded item. */
  datatype ChunkStatus = Pending | Uploaded(item: PropDict)

  datatype Outcome<+T> = Ok(value: T) | Fail(error: UploadError)

  /**
   * The client's state together with the server's: the upload progress and
   * retry counter (the service's two fields), the replies the server has yet
   * to give, the requests it has received, and the sleeps requested so far.
   */
  datatype Machine = Machine(progress: nat, retry: nat, replies: seq<Response>, sent: seq<Request>, sleeps: seq<nat>)

  datatype Step<+T> = Step(out: Outcome<T>, after: Machine)

  predicate IsLastChunk(req: Request) {
    req.range.complete - 1 == req.range.last
  }

  /**
   * Everything `nextChunk` does with a reply after the server-error branch:
   * the last-chunk checks, the 202 check and the adoption of the server's
   * next offset.
   */
  function Conclude(response: Response, req: Request, m: Machine): (r: Step<ChunkStatus>)
    ensures r.after.retry == m.retry && r.after.replies == m.replies
    ensures r.after.sent == m.sent && r.after.sleeps == m.sleeps
    ensures r.out.Ok? && r.out.value.Uploaded? <==> IsLastChunk(req) && response.status in {200, 201}
    ensures r.out == Ok(Pending) <==> !IsLastChunk(req) && response.status == 202 && NextRangeStart(response.body).Some?
    ensures r.out == Ok(Pending) ==> r.after.progress == NextRangeStart(response.body).value
    ensures r.out != Ok(Pending) ==> r.after.progress == m.progress
  {
    var code := response.status;
    if IsLastChunk(req) then
      if code == 409 then Step(Fail(NameConflict), m)
      else if code == 200 || code == 201 then Step(Ok(Uploaded(response.body)), m)
      else Step(Fail(LastChunkFailed(code)), m)
    else if code != 202 then Step(Fail(ChunkFailed(code)), m)
    else match NextRangeStart(response.body)
      case None => Step(Fail(MalformedRanges), m)
      case Some(start) => Step(Ok(Pending), m.(progress := start))
  }

  /**
   * One call of `nextChunk` with a non-empty chunk. After a server error it
   * sleeps, counts the retry and resends the same chunk, keeping only an
   * exception of the resend; then it goes on with the server error's own
   * status, which always ends in an exception.
   */
  function Send(m: Machine, fileSize: nat, chunk: seq<byte>): (r: Step<ChunkStatus>)
    requires |chunk| > 0
    ensures r.after.retry >= m.retry
    ensures m.retry <= 10 ==> r.after.retry <= 10
    decreases |m.replies|
  {
    var req := ChunkRequest(m.progress, chunk, fileSize);
    var m1 := m.(sent := m.sent + [req]);
    if m.replies == [] then Step(Fail(NoResponse), m1)
    else
      var response := m.replies[0];
      var m2 := m1.(replies := m.replies[1..]);
      if response.status == 404 then Step(Fail(SessionExpired), m2)
      else if IsServerError(response.status) then
        if m2.retry > 9 then Step(Fail(RetriesExhausted), m2)
        else
          var inner := Send(m2.(sleeps := m2.sleeps + [RetryIntervals[m2.retry]], retry := m2.retry + 1), fileSize, chunk);
          if inner.out.Fail? then inner
          else Conclude(response, req, inner.after)
      else Conclude(response, req, m2)
  }

  /** The chunk the loop reads at `cursor`: up to `ChunkSizeBytes` bytes. */
  function NextChunkOf(file: seq<byte>, cursor: nat): (chunk: seq<byte>)
    requires cursor < |file|
    ensures 0 < |chunk| <= ChunkSizeBytes && cursor + |chunk| <= |file|
    ensures chunk == file[cursor..cursor + |chunk|]
    ensures |chunk| < ChunkSizeBytes ==> cursor + |chunk| == |file|
  {
    file[cursor..Min(cursor + ChunkSizeBytes, |file|)]
  }

  /**
   * The loop of `uploadLargeItem` from read position `cursor` on: read the
   * next chunk, send it, and stop at an exception, at an uploaded item, or
   * when the file is exhausted (then with no item).
   */
  function UploadFrom(m: Machine, file: seq<byte>, cursor: nat): (r: Step<Option<PropDict>>)
    requires cursor <= |file|
    ensures r.after.retry >= m.retry
    decreases |file| - cursor
  {
    if cursor == |file| then Step(Ok(None), m)
    else
      var chunk := NextChunkOf(file, cursor);
      var st := Send(m, |file|, chunk);
      match st.out
      case Fail(e) => Step(Fail(e), st.after)
      case Ok(Uploaded(item)) => Step(Ok(Some(item)), st.after)
      case Ok(Pending) => UploadFrom(st.after, file, cursor + |chunk|)
  }
}
