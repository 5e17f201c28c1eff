# Resumable chunked upload to OneDrive — a Dafny model

This project models the large-file upload client of `OneDriveService`, a
Laravel service that moves a local file into OneDrive through a Microsoft
Graph upload session. After the session URL is created, the client does two
things:

- `uploadLargeItem` reads the file in 10 MiB chunks and passes each one to
  `nextChunk`. It stops when an item comes back or the file runs out.
- `nextChunk` sends one chunk with the header
  `Content-Range: bytes P-L/S` (the byte-range form of section 14.4 of
  RFC 9110) and handles the reply:
  - 404: the session has expired.
  - 500/502/503/504: sleep for the time in the retry schedule
    `[0, 1, 1, 2, 3, 5, 8, 13, 21, 34]`, count the retry and resend the
    same chunk.
  - Last chunk: 409 is a name conflict, 200/201 returns the item, and any
    other status is an error.
  - Any other chunk: 202 is required. The next offset is the start of the
    first `nextExpectedRanges` entry.

The server is modelled as the sequence of replies it will give. The file is
a byte sequence.

Modules:

- `Wrappers` (wrappers.dfy): the `Option` type and `Min`.
- `Decimal` (decimal.dfy): decimal spelling and reading of natural numbers,
  as PHP interpolates and reads them. It includes the round trip.
- `Wire` (wire.dfy): the chunk request and its headers, parsing of the
  `Content-Range` header, the `start-end` split of `nextExpectedRanges`, and
  `GetWebUrl`.
- `ChunkSession` (session.dfy): the client as functions of its state.
  - `Send` is one call of `nextChunk`, including its recursive resend.
  - `UploadFrom` is the chunk loop.
  - `Machine` holds the service's two fields, the server's remaining
    replies, the requests the server has received and the sleeps requested.
- `SessionFacts` (session_facts.dfy): what one call does with each kind of
  reply. This covers retry exhaustion, the retry schedule and the
  discarded resend result.
- `Cooperative` (cooperative.dfy): the loop against a server that accepts
  every chunk in full. The sent ranges partition the file.
- `LoopFacts` (loop_facts.dfy): the loop against any server. The chunks go
  out in reading order whatever the server replies, and no item comes back
  only after the chunk that reaches the end of the file returned false.
- `OneDrive` (service.dfy): the imperative model.
  - `OneDriveService` is a class whose fields `largeFileUploadProgress` and
    `currentLargeFileRetryInterval` are updated in place.
  - `NextChunk` is a recursive method. `UploadLargeItem` is a `while` loop.
    Each is proved equal to its specification function.
  - `UploadEndpoint` stands for the session URL.
  - `FileHandle` is the file opened for reading, with its read position and
    whether it is still open.

Behaviours of the code that the model keeps, some of them surprising:

- The retry counter is never reset after a successful chunk. It is set to 0
  only in the constructor.
- Retries run out on the 11th server error in a row, after 11 identical
  requests. The check is `> 9`, and it comes before the sleep.
- The result of the resend after a server error is thrown away. If the
  resend does not throw, the call throws anyway, with the status of the
  server error whose resend did not throw. In a run of server errors that is
  the last one: 503, 502 and then 202 end the call with 502. A server error
  therefore always ends the upload with an exception, even when the resend
  succeeded.
- The file is read at a local cursor that moves by each chunk's length. It
  does not seek to the offset the server names. When the two differ, the
  announced range and the bytes sent disagree.
- The file handle is closed only on a normal return. An exception leaves it
  open.
- The upload progress is not reset when an upload starts. A second upload on
  the same service object starts at the previous progress.

## Model

| member | source | states |
|---|---|---|
| `Decimal.NatToString` | app/Services/OneDriveService.php:95 | An integer interpolated into a header is a non-empty run of decimal digits, with a leading `0` only for zero |
| `Decimal.DigitsValueOfNatToString` | app/Services/OneDriveService.php:95 | Reading back the decimal spelling of n gives n |
| `Decimal.ScanNatToString` | app/Services/OneDriveService.php:183 | Reading the leading digits of a spelled number followed by a non-digit gives the number and exactly the text after it |
| `Decimal.ScanDigits` | app/Services/OneDriveService.php:183 | Reading a run of digits followed by a non-digit gives the run's value and exactly the text after it, leading zeros included |
| `Decimal.ScanNat` | app/Services/OneDriveService.php:183 | There is a leading number exactly when the text starts with a digit; what remains is a proper suffix that does not start with a digit |
| `Wire.ChunkRequest` | app/Services/OneDriveService.php:93-97 | For progress P, chunk c and file size S, the range is P to P+\|c\|−1 of S, and `Content-Length` and the body are the chunk's |
| `Wire.ContentRangeRoundTrip` | app/Services/OneDriveService.php:95 | The `bytes P-L/S` header text parses back to exactly (P, L, S) |
| `Wire.Headers` | app/Services/OneDriveService.php:94-97 | The request has exactly the two headers. `Content-Range` parses back to the request's range and `Content-Length` to its length |
| `Wire.RangeStart` | app/Services/OneDriveService.php:181-183 | The start of a `start-end` entry is the number before the first `-`. It is absent exactly when the entry does not start with a digit |
| `Wire.RangeStartOfDigits` | app/Services/OneDriveService.php:181-183 | An entry that starts with a run of digits yields that run's value, whatever follows: `-end`, a bare `-`, or other text |
| `Wire.RangeStartOfRendered` | app/Services/OneDriveService.php:179-183 | An entry written as `start-end` yields `start` |
| `Wire.NextRangeStart` | app/Services/OneDriveService.php:178-181 | A next offset is found only when the body has the `nextExpectedRanges` key |
| `Wire.NextRangeStartPresent` | app/Services/OneDriveService.php:178-183 | There is a next offset exactly when `nextExpectedRanges` is a non-empty list whose first entry is text starting with a digit |
| `Wire.NextRangeStartOfFirstEntry` | app/Services/OneDriveService.php:178-183 | For any body and any entries after the first, the next offset is the leading number of the first entry |
| `Wire.NextRangeStartIgnoresOtherKeys` | app/Services/OneDriveService.php:178-183 | Adding, changing or removing any other key of the body does not change the next offset |
| `Wire.GetWebUrl` | app/Services/OneDriveService.php:195-202 | Returns the `webUrl` value when the key is present and None (null) exactly when it is missing. It is total. A present `webUrl` holding JSON null gives `Some(JNull)`, which also stands for PHP's null |
| `Wire.GetWebUrlUpdate` | app/Services/OneDriveService.php:195-202 | Setting `webUrl` makes it the answer, removing it gives None, and no other property changes the answer |
| `ChunkSession.Conclude` | app/Services/OneDriveService.php:134-186 | After the server-error branch: an item exactly for 200/201 on the last chunk; false exactly for 202 with a readable range on another chunk, and then the progress is that range's start; otherwise an exception with the progress unchanged. The counter and sleeps are untouched |
| `ChunkSession.Send` | app/Services/OneDriveService.php:88-187 | One `nextChunk` call never lowers the retry counter, and from a counter of at most 10 it leaves it at most 10 |
| `ChunkSession.NextChunkOf` | app/Services/OneDriveService.php:39-59 | A chunk read at the cursor is a non-empty slice of the file of at most 10 MiB. It is shorter only when it reaches the end of the file |
| `ChunkSession.UploadFrom` | app/Services/OneDriveService.php:56-77 | The loop never lowers the retry counter |
| `SessionFacts.ExpiredOn404` | app/Services/OneDriveService.php:115-117 | A 404 throws the expired-session error after one request. There is no sleep, and progress and counter are unchanged |
| `SessionFacts.SendResendsSameRequest` | app/Services/OneDriveService.php:120-128 | Every request of one call, resends included, has the same range and body. There is one per level of recursion, and the counter rises by one per resend |
| `SessionFacts.SendSleepsFollowSchedule` | app/Services/OneDriveService.php:120-128 | The sleeps of one call are the schedule from the counter's old value to its new one. A counter at 10 or more gives no sleep and no change |
| `SessionFacts.SendConsumesPrefix` | app/Services/OneDriveService.php:104-112 | A call uses replies only from the front of the server's sequence |
| `SessionFacts.ServerErrorFails` | app/Services/OneDriveService.php:120-172 | A reply of 500/502/503/504 always ends the call in an exception. With the counter above 9 that exception is the retry error |
| `SessionFacts.RetryExhaustion` | app/Services/OneDriveService.php:120-128 | From a counter c ≤ 10, 11−c server errors give the retry error after 11−c identical requests. The sleeps are the schedule from c on, and the counter is left at 10 |
| `SessionFacts.FreshCounterExhaustion` | app/Services/OneDriveService.php:120-128 | From a fresh counter, 11 server errors give the retry error after 11 sends and sleeps of 0,1,1,2,3,5,8,13,21,34 s |
| `SessionFacts.ErrorsThenAccepted` | app/Services/OneDriveService.php:120-186 | From a counter c ≤ 10, 10−c 503 replies and then a 202 move the progress to the 202's start and leave the counter at 10. The call still throws with 503 when c < 10 |
| `SessionFacts.TenErrorsThenAccepted` | app/Services/OneDriveService.php:120-186 | From a fresh counter, ten 503 replies and then a 202 move the progress but the call throws with 503 |
| `SessionFacts.LastChunkOutcome` | app/Services/OneDriveService.php:134-161 | On the last chunk, for a reply other than 404 or a server error: 409 is the conflict error, 200/201 returns the reply's body as the item, and any other code throws with that code. Only the request is added |
| `SessionFacts.OtherChunkNeeds202` | app/Services/OneDriveService.php:164-172 | On any other chunk, every status but 202, 404 and the server errors (409 included) throws the generic chunk error with its code. The progress is unchanged |
| `SessionFacts.UploadedIff` | app/Services/OneDriveService.php:134-156 | A call returns an item if and only if the first reply is 200/201 and the chunk ends at byte S−1. The item is that reply's body |
| `SessionFacts.AcceptedIff` | app/Services/OneDriveService.php:164-186 | A call returns false if and only if the chunk is not last, the reply is 202 and its first range starts with a number. Then only the progress changes (to that number); the counter is not reset and there is no sleep |
| `SessionFacts.LastServerErrorStatusWins` | app/Services/OneDriveService.php:120-172 | Two server errors and then a readable 202 on an earlier chunk throw with the second error's status, the one whose resend did not throw |
| `SessionFacts.ResentUploadIsDiscarded` | app/Services/OneDriveService.php:120-161 | A server error on the last chunk whose resend gets 200/201 still throws with the server error's status. The created item is dropped |
| `Cooperative.ExpectedRequestsEnd` | app/Services/OneDriveService.php:93-95 | The ranges a fully accepting server sees end at the file's last byte |
| `Cooperative.ExpectedRequestsContiguous` | app/Services/OneDriveService.php:93-95 | Each of those ranges starts right after the previous one ends |
| `Cooperative.ExpectedRequestsCarryFile` | app/Services/OneDriveService.php:57-61 | Each of those requests lies inside the file, names its size, and carries exactly the file's bytes of its range. All but the last are 10 MiB |
| `Cooperative.ContiguousDisjoint` | app/Services/OneDriveService.php:93-95 | In contiguous non-empty ranges, a later range starts after an earlier one ends, so no two overlap |
| `Cooperative.ExpectedBodiesAreFile` | app/Services/OneDriveService.php:57-61 | The bodies of those requests, joined, are the file from the cursor on |
| `Cooperative.CooperativeSend` | app/Services/OneDriveService.php:164-186 | Against a server that answers 202 with `L+1` as the next start, a chunk advances the progress to the next read position. The last chunk returns the 201 item |
| `Cooperative.CooperativeLastSend` | app/Services/OneDriveService.php:134-156 | Against that server the chunk reaching the end of the file gets 201 and returns the item, with one request and one reply used |
| `Cooperative.CooperativeAcceptedSend` | app/Services/OneDriveService.php:164-186 | Against that server an earlier chunk gets 202 and the progress moves to the next read position, with one request and one reply used |
| `LoopFacts.UploadFromUnfold` | app/Services/OneDriveService.php:58-61 | After a chunk, an exception ends the loop with that error, an item ends it with the item, and false continues from the next read position |
| `Cooperative.CooperativeUploadFrom` | app/Services/OneDriveService.php:56-77 | Against that server the loop returns the item and uses exactly its replies. The counter and the sleeps are untouched |
| `Cooperative.CooperativeUploadSends` | app/Services/OneDriveService.php:56-61 | Against that server the loop sends exactly the expected requests |
| `Cooperative.CooperativeUploadPartitions` | app/Services/OneDriveService.php:39-95 | A whole upload against that server returns the item. The sent ranges run from 0 to S−1 without gap or overlap, and their bodies joined are the file |
| `Cooperative.TwentyFiveMiBInThreeChunks` | app/Services/OneDriveService.php:39-59 | A 25 MiB file goes up as chunks of 10 MiB, 10 MiB and 5 MiB |
| `LoopFacts.EmptyFileSendsNothing` | app/Services/OneDriveService.php:58 | With the end-of-file test taken as the read position reaching the file's length, an empty file sends no request and yields no item |
| `LoopFacts.UploadFromExtendsSent` | app/Services/OneDriveService.php:58-61 | The loop only appends to the requests the server has received |
| `LoopFacts.ServerOffsetDoesNotMoveReadCursor` | app/Services/OneDriveService.php:59-183 | After a first 202 naming `start`, the second request announces `start` but carries the file's second 10 MiB, whatever `start` is |
| `LoopFacts.SecondRequestAnnouncesStart` | app/Services/OneDriveService.php:59-95 | With the progress at `start` and the read position at 10 MiB, the next request announces `start` and carries the file's second chunk |
| `LoopFacts.UploadFromReadsInOrder` | app/Services/OneDriveService.php:58-61 | For any replies, the requests sent carry the file's chunks in reading order. Each next request carries the same chunk or the next one, so the read position never goes back and never follows the server's offset |
| `LoopFacts.RepeatThenReads` | app/Services/OneDriveService.php:120-128 | The resends of one chunk followed by the requests for the next position still carry the chunks in reading order |
| `LoopFacts.LastReadAt` | app/Services/OneDriveService.php:58-60 | The chunk that ends the file is read at the cursor plus a whole number of 10 MiB chunks, and it reaches the file's last byte |
| `LoopFacts.NoItemOnlyAfterLastChunkReturnsFalse` | app/Services/OneDriveService.php:58-77 | For any replies, a non-empty file yields no item only after the call for the chunk reaching the end of the file returned false |
| `OneDrive.UploadEndpoint.Put` | app/Services/OneDriveService.php:103-112 | A PUT is recorded by the server and gets the server's next reply, or none when it has no reply left |
| `OneDrive.OneDriveService.constructor` | app/Services/OneDriveService.php:25-31 | The progress and the retry counter start at 0, and there are no sleeps |
| `OneDrive.OneDriveService.NextChunk` | app/Services/OneDriveService.php:88-187 | The in-place method gives the outcome and new state that `Send` gives for the old state |
| `OneDrive.FileHandle.Open` | app/Services/OneDriveService.php:57 | The opened file is read from its first byte and is open |
| `OneDrive.FileHandle.Read` | app/Services/OneDriveService.php:59 | A read returns up to n bytes at the read position and moves past exactly those bytes |
| `OneDrive.FileHandle.Close` | app/Services/OneDriveService.php:71 | Closing leaves the handle closed and the read position unchanged |
| `OneDrive.OneDriveService.UploadLargeItem` | app/Services/OneDriveService.php:36-78 | The loop gives the outcome and new state of `UploadFrom` from read position 0. The handle it opens is left open exactly when an exception escapes |

## Left out

- Session creation is not modelled: the Graph `createRequest(...)->execute()` call at app/Services/OneDriveService.php:46-52, with the conflict-behaviour body `rename`. `UploadEndpoint` stands for the session URL that call returns.
- The Guzzle HTTP client is not modelled (lines 103-112). It is replaced by `UploadEndpoint.Put`, which returns the server's next reply. No reply is the `NoResponse` error. The 90-second timeout is not modelled. The model assumes every status reaches the code at lines 115-172. In PHP it does not: Guzzle's `http_errors` option is on by default, and lines 103-112 do not turn it off. So a 404, 409 or 5xx reply throws Guzzle's own exception inside `$client->request` at line 104, before any of the status branches run. The model describes the status handling as written, which takes effect only with that option off.
- `GraphResponse` and `getResponseAsObject` (lines 147-155) are not modelled. The item is the decoded reply body, kept as a property dictionary. The JSON decoding of bodies is not modelled either: replies arrive already decoded.
- `sleep` (line 125) is not modelled as time. The requested delays are recorded in `sleeps`.
- File I/O is modelled only as `FileHandle`: a byte sequence read at a position, with an open flag. `filesize` is the sequence's length. The end-of-file test `AtEnd` is the position reaching the length. PHP's `feof` reports the end only after a read that came up short, which is not modelled.
- LoopFacts.EmptyFileSendsNothing: holds under the idealised end-of-file test only. With PHP's `feof`, an empty file is read once and gives `""`. `nextChunk` then sends `Content-Range: bytes 0--1/0` with `Content-Length: 0`. Since the last byte position −1 equals the size minus one, that request is handled as the last chunk, and a 200/201 returns an item. When the last chunk is read to exactly the end of the file and its call returns false, PHP's `feof` may not yet report the end, and one more empty chunk can go out in the same way. Empty chunks are outside the model, because `Send` takes a non-empty chunk.
- The fallback at lines 90-91 is not modelled. It runs when the chunk compares equal to false, which also includes the one-character chunk `"0"`. It calls `substr` on null with a chunk-size field that is never set. The model requires a non-empty chunk. Its loop, with the idealised end-of-file test, always supplies one; the PHP loop can pass an empty chunk, as the line above describes.
- `getGraph` and `TokenCache` (lines 204-214) are authentication plumbing and are not modelled. The constructor ignores its `$graph` argument.
- `GetWebUrl` takes the property dictionary it looks in as its argument. The service object's own dictionary is not modelled, since its constructor never calls the parent constructor that would fill it.
- ChunkSession.Send: a 202 reply whose `nextExpectedRanges` is missing, is not a list, or whose first entry does not start with a digit ends the call with `MalformedRanges`. PHP instead stores the non-numeric text with warnings and coerces or rejects it later. A leading-numeric entry such as `12a-40` gives 12 in both. The header always prints the parsed number, not PHP's stored string (e.g. `007` is printed as `7`).
- ChunkSession.Send: integers are unbounded. PHP's 64-bit integers never overflow for real file sizes, so the model does not treat overflow.
- The controller, the Blade view and the route table are not part of this model (app/Http/Controllers/MigrationController.php, resources/views/migration.blade.php, routes/web.php).
