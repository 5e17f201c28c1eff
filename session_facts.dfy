/** What one call of `nextChunk` does with each kind of reply. */
module SessionFacts {
  import opened Wrappers
  import opened Wire
  import opened ChunkSession

  /** n copies of the same request. */
  function Repeat(req: Request, n: nat): (rs: seq<Request>)
    ensures |rs| == n && forall i :: 0 <= i < n ==> rs[i] == req
  {
    seq(n, _ => req)
  }

  /**
   * A 404 reply throws the expired-session error straight away: one request,
   * no sleep, and the progress and retry counter stay as they were.
   */
  lemma ExpiredOn404(m: Machine, fileSize: nat, chunk: seq<byte>)
    requires |chunk| > 0
    requires m.replies != [] && m.replies[0].status == 404
    ensures Send(m, fileSize, chunk)
         == Step(Fail(SessionExpired),
                 m.(replies := m.replies[1..], sent := m.sent + [ChunkRequest(m.progress, chunk, fileSize)]))
  {
  }

  /** The machine a server error hands to the recursive resend. */
  function RetryMachine(m: Machine, req: Request): (m3: Machine)
    requires m.replies != [] && m.retry <= 9
    ensures m3.retry == m.retry + 1 && m3.progress == m.progress
    ensures m3.sent == m.sent + [req] && m3.replies == m.replies[1..]
    ensures m3.sleeps == m.sleeps + [RetryIntervals[m.retry]]
  {
    m.(sent := m.sent + [req], replies := m.replies[1..],
       sleeps := m.sleeps + [RetryIntervals[m.retry]], retry := m.retry + 1)
  }

  /** Whether the first reply makes `Send` sleep and resend. */
  predicate Retries(m: Machine) {
    m.replies != [] && IsServerError(m.replies[0].status) && m.retry <= 9
  }

  /** A call that does not retry sends one request and leaves the counter and the sleeps alone. */
  lemma SendWithoutRetry(m: Machine, fileSize: nat, chunk: seq<byte>)
    requires |chunk| > 0 && !Retries(m)
    ensures var after := Send(m, fileSize, chunk).after;
            && after.retry == m.retry
            && after.sleeps == m.sleeps
            && after.sent == m.sent + [ChunkRequest(m.progress, chunk, fileSize)]
            && after.replies == if m.replies == [] then [] else m.replies[1..]
  {
    var req := ChunkRequest(m.progress, chunk, fileSize);
    if m.replies != [] {
      var m2 := m.(sent := m.sent + [req], replies := m.replies[1..]);
      if m.replies[0].status != 404 && !IsServerError(m.replies[0].status) {
        assert Send(m, fileSize, chunk) == Conclude(m.replies[0], req, m2);
      }
    }
  }

  /** A call that retries ends where its resend ends. */
  lemma SendWithRetry(m: Machine, fileSize: nat, chunk: seq<byte>)
    requires |chunk| > 0 && Retries(m)
    ensures Send(m, fileSize, chunk).after
            == Send(RetryMachine(m, ChunkRequest(m.progress, chunk, fileSize)), fileSize, chunk).after
  {
  }

  /** A call whose resend throws ends exactly as that resend does. */
  lemma SendWithFailedRetry(m: Machine, fileSize: nat, chunk: seq<byte>)
    requires |chunk| > 0 && Retries(m)
    requires Send(RetryMachine(m, ChunkRequest(m.progress, chunk, fileSize)), fileSize, chunk).out.Fail?
    ensures Send(m, fileSize, chunk) == Send(RetryMachine(m, ChunkRequest(m.progress, chunk, fileSize)), fileSize, chunk)
  {
    var req := ChunkRequest(m.progress, chunk, fileSize);
    var m2 := m.(sent := m.sent + [req], replies := m.replies[1..]);
    assert m2.(sleeps := m2.sleeps + [RetryIntervals[m2.retry]], retry := m2.retry + 1) == RetryMachine(m, req);
  }

  /** A call ends as `SendWithoutRetry` or `SendWithRetry` says. */
  lemma SendUnfold(m: Machine, fileSize: nat, chunk: seq<byte>)
    requires |chunk| > 0
    ensures !Retries(m) ==> Send(m, fileSize, chunk).after.retry == m.retry
    ensures !Retries(m) ==> Send(m, fileSize, chunk).after.sleeps == m.sleeps
    ensures !Retries(m) ==> Send(m, fileSize, chunk).after.sent == m.sent + [ChunkRequest(m.progress, chunk, fileSize)]
    ensures !Retries(m) ==> Send(m, fileSize, chunk).after.replies == if m.replies == [] then [] else m.replies[1..]
    ensures Retries(m) ==> Send(m, fileSize, chunk).after
                           == Send(RetryMachine(m, ChunkRequest(m.progress, chunk, fileSize)), fileSize, chunk).after
  {
    if Retries(m) {
      SendWithRetry(m, fileSize, chunk);
    } else {
      SendWithoutRetry(m, fileSize, chunk);
    }
  }

  /**
   * Across the recursive resends of one call, every request carries the same
   * range and body: one request per level of recursion, and the counter
   * rises by one per resend.
   */
  lemma {:induction false} SendResendsSameRequest(m: Machine, fileSize: nat, chunk: seq<byte>)
    requires |chunk| > 0
    ensures var r := Send(m, fileSize, chunk);
            r.after.sent == m.sent + Repeat(ChunkRequest(m.progress, chunk, fileSize), r.after.retry - m.retry + 1)
    decreases |m.replies|
  {
    var req := ChunkRequest(m.progress, chunk, fileSize);
    SendUnfold(m, fileSize, chunk);
    if Retries(m) {
      var m3 := RetryMachine(m, req);
      var after := Send(m3, fileSize, chunk).after;
      SendResendsSameRequest(m3, fileSize, chunk);
      var k := after.retry - m3.retry + 1;
      assert [req] + Repeat(req, k) == Repeat(req, k + 1);
      assert m.sent + Repeat(req, k + 1) == m3.sent + Repeat(req, k);
    } else {
      assert Repeat(req, 1) == [req];
    }
  }

  /**
   * The sleeps of one call are the retry schedule from the counter's old
   * value up to its new one; with the counter at 10 or more there is none.
   */
  lemma {:induction false} SendSleepsFollowSchedule(m: Machine, fileSize: nat, chunk: seq<byte>)
    requires |chunk| > 0
    ensures var r := Send(m, fileSize, chunk);
            m.retry <= 10 ==> r.after.sleeps == m.sleeps + RetryIntervals[m.retry..r.after.retry]
    ensures var r := Send(m, fileSize, chunk);
            m.retry >= 10 ==> r.after.retry == m.retry && r.after.sleeps == m.sleeps
    decreases |m.replies|
  {
    SendUnfold(m, fileSize, chunk);
    if Retries(m) {
      var m3 := RetryMachine(m, ChunkRequest(m.progress, chunk, fileSize));
      var after := Send(m3, fileSize, chunk).after;
      SendSleepsFollowSchedule(m3, fileSize, chunk);
      assert RetryIntervals[m.retry..after.retry]
          == [RetryIntervals[m.retry]] + RetryIntervals[m.retry + 1..after.retry];
    }
  }

  /** A call uses replies from the front of the server's sequence and nothing else. */
  lemma {:induction false} SendConsumesPrefix(m: Machine, fileSize: nat, chunk: seq<byte>)
    requires |chunk| > 0
    ensures var r := Send(m, fileSize, chunk);
            |r.after.replies| <= |m.replies| && r.after.replies == m.replies[|m.replies| - |r.after.replies|..]
    decreases |m.replies|
  {
    SendUnfold(m, fileSize, chunk);
    if Retries(m) {
      var m3 := RetryMachine(m, ChunkRequest(m.progress, chunk, fileSize));
      var after := Send(m3, fileSize, chunk).after;
      SendConsumesPrefix(m3, fileSize, chunk);
      assert m.replies[1..][|m.replies[1..]| - |after.replies|..] == m.replies[|m.replies| - |after.replies|..];
    }
  }

  /**
   * A server error never leads to success: if the resend does not throw, the
   * call throws with the server error's own status, so the whole call fails.
   */
  lemma ServerErrorFails(m: Machine, fileSize: nat, chunk: seq<byte>)
    requires |chunk| > 0
    requires m.replies != [] && IsServerError(m.replies[0].status)
    ensures Send(m, fileSize, chunk).out.Fail?
    ensures m.retry > 9 ==> Send(m, fileSize, chunk).out == Fail(RetriesExhausted)
  {
  }

  /**
   * Starting with the retry counter at c <= 10, a run of 11 - c server errors
   * exhausts the retries: 11 - c identical requests, the sleeps of the
   * schedule from position c on, and the counter left at 10. From a fresh
   * counter that is 11 requests and 10 sleeps.
   */
  lemma {:induction false} RetryExhaustion(m: Machine, fileSize: nat, chunk: seq<byte>)
    requires |chunk| > 0
    requires m.retry <= 10
    requires |m.replies| >= 11 - m.retry
    requires forall i :: 0 <= i < 11 - m.retry ==> IsServerError(m.replies[i].status)
    ensures Send(m, fileSize, chunk)
         == Step(Fail(RetriesExhausted),
                 m.(retry := 10,
                    replies := m.replies[11 - m.retry..],
                    sent := m.sent + Repeat(ChunkRequest(m.progress, chunk, fileSize), 11 - m.retry),
                    sleeps := m.sleeps + RetryIntervals[m.retry..]))
    decreases 10 - m.retry
  {
    var req := ChunkRequest(m.progress, chunk, fileSize);
    if m.retry == 10 {
      assert Repeat(req, 1) == [req];
      assert RetryIntervals[10..] == [];
    } else {
      assert IsServerError(m.replies[0].status);
      var m3 := RetryMachine(m, req);
      assert forall i :: 0 <= i < 11 - m3.retry ==> m3.replies[i] == m.replies[i + 1];
      RetryExhaustion(m3, fileSize, chunk);
      SendWithFailedRetry(m, fileSize, chunk);
      ExhaustedAfterRetry(m, req);
    }
  }

  /** The state after exhaustion is the same whether counted from before or after one resend. */
  lemma ExhaustedAfterRetry(m: Machine, req: Request)
    requires m.retry <= 9 && |m.replies| >= 11 - m.retry
    ensures var m3 := RetryMachine(m, req);
            m3.(retry := 10,
                replies := m3.replies[11 - m3.retry..],
                sent := m3.sent + Repeat(req, 11 - m3.retry),
                sleeps := m3.sleeps + RetryIntervals[m3.retry..])
            == m.(retry := 10,
                  replies := m.replies[11 - m.retry..],
                  sent := m.sent + Repeat(req, 11 - m.retry),
                  sleeps := m.sleeps + RetryIntervals[m.retry..])
  {
    assert [req] + Repeat(req, 10 - m.retry) == Repeat(req, 11 - m.retry);
    assert [RetryIntervals[m.retry]] + RetryIntervals[m.retry + 1..] == RetryIntervals[m.retry..];
    assert m.replies[1..][10 - m.retry..] == m.replies[11 - m.retry..];
  }


  /** From a fresh counter, eleven server errors in a row end in the retry error after eleven sends and 88 seconds of sleep. */
  lemma FreshCounterExhaustion(m: Machine, fileSize: nat, chunk: seq<byte>)
    requires |chunk| > 0 && m.retry == 0
    requires |m.replies| >= 11 && forall i :: 0 <= i < 11 ==> IsServerError(m.replies[i].status)
    ensures Send(m, fileSize, chunk).out == Fail(RetriesExhausted)
    ensures |Send(m, fileSize, chunk).after.sent| == |m.sent| + 11
    ensures Send(m, fileSize, chunk).after.sleeps == m.sleeps + [0, 1, 1, 2, 3, 5, 8, 13, 21, 34]
  {
    RetryExhaustion(m, fileSize, chunk);
  }

  /**
   * Starting with the retry counter at c <= 10, 10 - c server errors 503
   * followed by a 202 do not exhaust the retries: the last resend is
   * accepted and moves the progress, and, when there was at least one server
   * error, the call then throws with that 503 status.
   */
  lemma {:induction false} ErrorsThenAccepted(m: Machine, fileSize: nat, chunk: seq<byte>, start: nat)
    requires |chunk| > 0 && m.retry <= 10
    requires !IsLastChunk(ChunkRequest(m.progress, chunk, fileSize))
    requires |m.replies| > 10 - m.retry
    requires forall i :: 0 <= i < 10 - m.retry ==> m.replies[i].status == 503
    requires m.replies[10 - m.retry].status == 202 && NextRangeStart(m.replies[10 - m.retry].body) == Some(start)
    ensures Send(m, fileSize, chunk).out == if m.retry == 10 then Ok(Pending) else Fail(ChunkFailed(503))
    ensures Send(m, fileSize, chunk).after.progress == start
    ensures Send(m, fileSize, chunk).after.retry == 10
    decreases 10 - m.retry
  {
    if m.retry < 10 {
      var req := ChunkRequest(m.progress, chunk, fileSize);
      var m3 := m.(sent := m.sent + [req], replies := m.replies[1..],
                   sleeps := m.sleeps + [RetryIntervals[m.retry]], retry := m.retry + 1);
      assert forall i :: 0 <= i < 10 - m3.retry ==> m3.replies[i] == m.replies[i + 1];
      assert m3.replies[10 - m3.retry] == m.replies[10 - m.retry];
      ErrorsThenAccepted(m3, fileSize, chunk, start);
    }
  }

  /** From a fresh counter, ten 503 replies and then a 202 end in the 503 error, with the progress moved by the 202. */
  lemma TenErrorsThenAccepted(m: Machine, fileSize: nat, chunk: seq<byte>, start: nat)
    requires |chunk| > 0 && m.retry == 0
    requires !IsLastChunk(ChunkRequest(m.progress, chunk, fileSize))
    requires |m.replies| >= 11 && forall i :: 0 <= i < 10 ==> m.replies[i].status == 503
    requires m.replies[10].status == 202 && NextRangeStart(m.replies[10].body) == Some(start)
    ensures Send(m, fileSize, chunk).out == Fail(ChunkFailed(503))
    ensures Send(m, fileSize, chunk).after.progress == start
  {
    ErrorsThenAccepted(m, fileSize, chunk, start);
  }

  /**
   * On the last chunk (its last byte is the file's last byte), a reply that
   * is neither 404 nor a server error decides the call alone: 409 is the
   * name conflict, 200 and 201 return the reply's body as the item, anything
   * else throws with its code. Progress, counter and sleeps do not change.
   */
  lemma LastChunkOutcome(m: Machine, fileSize: nat, chunk: seq<byte>)
    requires |chunk| > 0
    requires IsLastChunk(ChunkRequest(m.progress, chunk, fileSize))
    requires m.replies != [] && m.replies[0].status != 404 && !IsServerError(m.replies[0].status)
    ensures var code := m.replies[0].status;
            Send(m, fileSize, chunk).out
            == if code == 409 then Fail(NameConflict)
               else if code == 200 || code == 201 then Ok(Uploaded(m.replies[0].body))
               else Fail(LastChunkFailed(code))
    ensures Send(m, fileSize, chunk).after
            == m.(replies := m.replies[1..], sent := m.sent + [ChunkRequest(m.progress, chunk, fileSize)])
  {
  }

  /**
   * On any other chunk, a reply that is neither 404 nor a server error must
   * be 202; every other status, 409 included, throws the generic chunk error
   * with its code.
   */
  lemma OtherChunkNeeds202(m: Machine, fileSize: nat, chunk: seq<byte>)
    requires |chunk| > 0
    requires !IsLastChunk(ChunkRequest(m.progress, chunk, fileSize))
    requires m.replies != [] && m.replies[0].status !in {202, 404} && !IsServerError(m.replies[0].status)
    ensures Send(m, fileSize, chunk).out == Fail(ChunkFailed(m.replies[0].status))
    ensures Send(m, fileSize, chunk).after.progress == m.progress
  {
  }

  /**
   * A call returns an item exactly when the first reply is 200 or 201 and
   * the chunk is the last one; the item is that reply's body.
   */
  lemma UploadedIff(m: Machine, fileSize: nat, chunk: seq<byte>)
    requires |chunk| > 0
    ensures var out := Send(m, fileSize, chunk).out;
            (out.Ok? && out.value.Uploaded?)
            <==> (m.replies != [] && m.replies[0].status in {200, 201}
                  && IsLastChunk(ChunkRequest(m.progress, chunk, fileSize)))
    ensures var out := Send(m, fileSize, chunk).out;
            out.Ok? && out.value.Uploaded? ==> out.value.item == m.replies[0].body
  {
    if m.replies != [] && IsServerError(m.replies[0].status) {
      ServerErrorFails(m, fileSize, chunk);
    }
  }

  /**
   * A call returns false exactly when the chunk is not the last, the first
   * reply is 202 and its first expected range starts with a number. Then the
   * progress becomes that number and nothing else of the client changes:
   * the retry counter keeps its value and there is no sleep.
   */
  lemma AcceptedIff(m: Machine, fileSize: nat, chunk: seq<byte>)
    requires |chunk| > 0
    ensures Send(m, fileSize, chunk).out == Ok(Pending)
            <==> (m.replies != [] && m.replies[0].status == 202
                  && !IsLastChunk(ChunkRequest(m.progress, chunk, fileSize))
                  && NextRangeStart(m.replies[0].body).Some?)
    ensures Send(m, fileSize, chunk).out == Ok(Pending)
            ==> Send(m, fileSize, chunk).after
                == m.(progress := NextRangeStart(m.replies[0].body).value,
                      replies := m.replies[1..],
                      sent := m.sent + [ChunkRequest(m.progress, chunk, fileSize)])
  {
    if m.replies != [] && IsServerError(m.replies[0].status) {
      ServerErrorFails(m, fileSize, chunk);
    }
  }

  /**
   * The resend's result is not returned: when a server error on the last
   * chunk is followed by a 200 or 201 for the resend, the item the server
   * created is dropped and the call throws with the server error's status.
   */
  lemma ResentUploadIsDiscarded(m: Machine, fileSize: nat, chunk: seq<byte>)
    requires |chunk| > 0 && m.retry <= 9
    requires IsLastChunk(ChunkRequest(m.progress, chunk, fileSize))
    requires |m.replies| >= 2 && IsServerError(m.replies[0].status) && m.replies[1].status in {200, 201}
    ensures Send(m, fileSize, chunk).out == Fail(LastChunkFailed(m.replies[0].status))
    ensures Send(m, fileSize, chunk).after.retry == m.retry + 1
  {
    var m3 := RetryMachine(m, ChunkRequest(m.progress, chunk, fileSize));
    assert m3.replies[0] == m.replies[1];
    LastChunkOutcome(m3, fileSize, chunk);
  }

  /**
   * In a run of server errors, the status the call throws with is that of
   * the last error in the run, the one whose resend did not throw: 5xx, 5xx,
   * then a readable 202 on an earlier chunk throws with the second status.
   */
  lemma LastServerErrorStatusWins(m: Machine, fileSize: nat, chunk: seq<byte>)
    requires |chunk| > 0 && m.retry <= 8
    requires !IsLastChunk(ChunkRequest(m.progress, chunk, fileSize))
    requires |m.replies| >= 3
    requires IsServerError(m.replies[0].status) && IsServerError(m.replies[1].status)
    requires m.replies[2].status == 202 && NextRangeStart(m.replies[2].body).Some?
    ensures Send(m, fileSize, chunk).out == Fail(ChunkFailed(m.replies[1].status))
  {
    var req := ChunkRequest(m.progress, chunk, fileSize);
    var m3 := RetryMachine(m, req);
    assert m3.replies[0] == m.replies[1] && m3.replies[1] == m.replies[2];
    var m4 := RetryMachine(m3, req);
    assert m4.replies[0] == m.replies[2] && m4.progress == m.progress;
    AcceptedIff(m4, fileSize, chunk);
    assert Send(m4, fileSize, chunk).out == Ok(Pending);
    assert Send(m3, fileSize, chunk).out == Fail(ChunkFailed(m.replies[1].status));
  }
}
