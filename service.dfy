/**
 * The upload service as the source has it: an object whose two fields, the
 * upload progress and the retry counter, are updated in place by
 * `NextChunk`, which calls itself to resend after a server error, and
 * `UploadLargeItem`, which reads the file chunk by chunk in a loop.
 */
module OneDrive {
  import opened Wrappers
  import opened Wire
  import opened ChunkSession

  /**
   * The upload-session URL as the client sees it: the replies the server
   * will give, in order, and the requests it has received so far.
   */
  class UploadEndpoint {
    var replies: seq<Response>
    ghost var received: seq<Request>

    constructor (replies: seq<Response>)
      ensures this.replies == replies && received == []
    {
      this.replies := replies;
      received := [];
    }

    /** One PUT to the session URL: the server records the request and gives its next reply, if it has one left. */
    method Put(request: Request) returns (response: Option<Response>)
      modifies this
      ensures received == old(received) + [request]
      ensures old(replies) == [] ==> response == None && replies == []
      ensures old(replies) != [] ==> response == Some(old(replies)[0]) && replies == old(replies)[1..]
    {
      received := received + [request];
      if replies == [] {
        response := None;
      } else {
        response := Some(replies[0]);
        replies := replies[1..];
      }
    }
  }

  /**
   * An open file read from its start: the bytes it holds, the read
   * position, and whether it is still open.
   */
  class FileHandle {
    const contents: seq<byte>
    var position: nat
    var isOpen: bool

    /** Opens the file for reading at its first byte. */
    constructor Open(contents: seq<byte>)
      ensures this.contents == contents && position == 0 && isOpen
    {
      this.contents := contents;
      position := 0;
      isOpen := true;
    }

    /** The end-of-file test, taken as the read position having reached the file's length. */
    predicate AtEnd()
      reads this
    {
      position >= |contents|
    }

    /** Reads up to n bytes at the read position and moves past them. */
    method Read(n: nat) returns (bytes: seq<byte>)
      requires isOpen && position <= |contents|
      modifies this
      ensures bytes == contents[old(position)..Min(old(position) + n, |contents|)]
      ensures position == old(position) + |bytes| && isOpen
    {
      bytes := contents[position..Min(position + n, |contents|)];
      position := position + |bytes|;
    }

    /** Closes the file; the read position stays where it was. */
    method Close()
      requires isOpen
      modifies this
      ensures !isOpen && position == old(position)
    {
      isOpen := false;
    }
  }

  class OneDriveService {
    var largeFileUploadProgress: nat
    var currentLargeFileRetryInterval: nat
    const retryIntervals: seq<nat> := RetryIntervals
    /** The delays passed to `sleep`, in order. */
    ghost var sleeps: seq<nat>

    constructor ()
      ensures largeFileUploadProgress == 0 && currentLargeFileRetryInterval == 0 && sleeps == []
    {
      largeFileUploadProgress := 0;
      currentLargeFileRetryInterval := 0;
      sleeps := [];
    }

    /** The service and the server as one value. */
    ghost function State(endpoint: UploadEndpoint): Machine
      reads this, endpoint
    {
      Machine(largeFileUploadProgress, currentLargeFileRetryInterval, endpoint.replies, endpoint.received, sleeps)
    }

    /**
     * Sends one chunk at the current progress and reacts to the reply; the
     * outcome and the new state of service and server are those of `Send`.
     */
    method NextChunk(endpoint: UploadEndpoint, fileSize: nat, chunk: seq<byte>) returns (r: Outcome<ChunkStatus>)
      requires |chunk| > 0
      modifies this, endpoint
      ensures Step(r, State(endpoint)) == Send(old(State(endpoint)), fileSize, chunk)
      decreases |endpoint.replies|
    {
      var lastBytePos: int := largeFileUploadProgress + |chunk| - 1;
      var request := ChunkRequest(largeFileUploadProgress, chunk, fileSize);
      var response := endpoint.Put(request);
      if response.None? {
        return Fail(NoResponse);
      }
      var status := response.value.status;
      if status == 404 {
        return Fail(SessionExpired);
      }
      if IsServerError(status) {
        if currentLargeFileRetryInterval > 9 {
          return Fail(RetriesExhausted);
        }
        sleeps := sleeps + [retryIntervals[currentLargeFileRetryInterval]];
        currentLargeFileRetryInterval := currentLargeFileRetryInterval + 1;
        var resent := NextChunk(endpoint, fileSize, chunk);
        if resent.Fail? {
          return resent;
        }
      }
      if fileSize - 1 == lastBytePos {
        if status == 409 {
          return Fail(NameConflict);
        }
        if status == 200 || status == 201 {
          return Ok(Uploaded(response.value.body));
        }
        return Fail(LastChunkFailed(status));
      }
      if status != 202 {
        return Fail(ChunkFailed(status));
      }
      var start := NextRangeStart(response.value.body);
      if start.None? {
        return Fail(MalformedRanges);
      }
      largeFileUploadProgress := start.value;
      return Ok(Pending);
    }

    /**
     * Uploads a file held as bytes: opens it, reads 10 MiB chunks in order
     * and sends each until one returns the item or the end of the file is
     * reached, then closes it. The outcome and new state are those of
     * `UploadFrom` from read position 0; the handle returned is the one
     * opened, left open exactly when an exception escapes.
     */
    method UploadLargeItem(endpoint: UploadEndpoint, file: seq<byte>)
      returns (r: Outcome<Option<PropDict>>, handle: FileHandle)
      modifies this, endpoint
      ensures fresh(handle) && handle.contents == file
      ensures Step(r, State(endpoint)) == UploadFrom(old(State(endpoint)), file, 0)
      ensures handle.isOpen <==> r.Fail?
    {
      var fileSize := |file|;
      var status: ChunkStatus := Pending;
      handle := new FileHandle.Open(file);
      while status.Pending? && !handle.AtEnd()
        invariant fresh(handle) && handle.contents == file && handle.isOpen
        invariant handle.position <= |file|
        invariant status.Pending? ==>
                    UploadFrom(State(endpoint), file, handle.position) == UploadFrom(old(State(endpoint)), file, 0)
        invariant status.Uploaded? ==>
                    Step(Ok(Some(status.item)), State(endpoint)) == UploadFrom(old(State(endpoint)), file, 0)
        decreases |file| - handle.position
      {
        ghost var cursor := handle.position;
        var chunk := handle.Read(ChunkSizeBytes);
        assert chunk == NextChunkOf(file, cursor);
        var result := NextChunk(endpoint, fileSize, chunk);
        if result.Fail? {
          // The exception leaves the method before the handle is closed.
          return Fail(result.error), handle;
        }
        status := result.value;
      }
      var item := if status.Uploaded? then Some(status.item) else None;
      handle.Close();
      return Ok(item), handle;
    }
  }
}
