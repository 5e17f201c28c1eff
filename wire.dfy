/**
 * What travels between the upload client and the upload-session URL: the
 * chunk PUT request with its `Content-Range` and `Content-Length` headers,
 * and the decoded JSON reply.
 */
module Wire {
  import opened Wrappers
  import opened Decimal

  newtype byte = x: int | 0 <= x < 256

  /** A decoded JSON value. */
  datatype Json =
    | JNull
    | JBool(b: bool)
    | JNumber(n: int)
    | JString(str: string)
    | JArray(items: seq<Json>)
    | JObject(fields: map<string, Json>)

  /** A decoded JSON object: a reply body, or the property dictionary of a drive item. */
  type PropDict = map<string, Json>

  /** An HTTP reply from the upload-session URL. */
  datatype Response = Response(status: int, body: PropDict)

  /** The numbers of a `bytes first-last/complete` range, in the form of section 14.4 of RFC 9110. */
  datatype ByteRange = ByteRange(first: nat, last: nat, complete: nat)

  /** One chunk PUT: the range its `Content-Range` header names, its `Content-Length`, and its body. */
  datatype Request = Request(range: ByteRange, contentLength: nat, body: seq<byte>)

  /** The text of the `Content-Range` header for a range. */
  function ContentRange(r: ByteRange): (h: string)
    ensures |h| > 6 && h[..6] == "bytes "
  {
    "bytes " + NatToString(r.first) + "-" + NatToString(r.last) + "/" + NatToString(r.complete)
  }

  /** Reads a `Content-Range` header of the form `bytes first-last/complete`. */
  function ParseContentRange(h: string): (r: Option<ByteRange>)
    ensures r.Some? ==> |h| > 6 && h[..6] == "bytes "
  {
    if |h| < 6 || h[..6] != "bytes " then None
    else match ScanNat(h[6..])
      case None => None
      case Some(a) => ParseRangeEnd(a.value, a.rest)
  }

  /** Reads `-last/complete` after the first number. */
  function ParseRangeEnd(first: nat, t: string): (r: Option<ByteRange>)
    ensures r.Some? ==> r.value.first == first && t != [] && t[0] == '-'
  {
    if t == [] || t[0] != '-' then None
    else match ScanNat(t[1..])
      case None => None
      case Some(b) => ParseRangeTotal(first, b.value, b.rest)
  }

  /** Reads `/complete` after the last number; nothing may follow. */
  function ParseRangeTotal(first: nat, last: nat, t: string): (r: Option<ByteRange>)
    ensures r.Some? ==> r.value.first == first && r.value.last == last && t != [] && t[0] == '/'
  {
    if t == [] || t[0] != '/' then None
    else match ScanNat(t[1..])
      case None => None
      case Some(c) => if c.rest != [] then None else Some(ByteRange(first, last, c.value))
  }

  /** `-` followed by text that scans to `last` then `rest` reads on as `rest` after `last`. */
  lemma ParseRangeEndStep(first: nat, u: string, last: nat, rest: string)
    requires ScanNat(u) == Some(Scan(last, rest))
    ensures ParseRangeEnd(first, ['-'] + u) == ParseRangeTotal(first, last, rest)
  {
    assert (['-'] + u)[1..] == u;
  }

  lemma ParseRangeTotalOfRendered(first: nat, last: nat, complete: nat)
    ensures ParseRangeTotal(first, last, "/" + NatToString(complete)) == Some(ByteRange(first, last, complete))
  {
    var t := "/" + NatToString(complete);
    assert t[1..] == NatToString(complete) + [];
    ScanNatToString(complete, []);
  }

  lemma ParseRangeEndOfRendered(first: nat, last: nat, tail: string)
    requires tail != [] && tail[0] == '/'
    ensures ParseRangeEnd(first, "-" + NatToString(last) + tail) == ParseRangeTotal(first, last, tail)
  {
    var d := NatToString(last);
    ScanNatToString(last, tail);
    ParseRangeEndStep(first, d + tail, last, tail);
    ConsAssoc('-', d, tail);
  }

  lemma ConsAssoc(c: char, d: string, tail: string)
    ensures [c] + d + tail == [c] + (d + tail)
  {
  }

  /** `bytes ` followed by text that scans to `first` then `rest` reads on from `rest`. */
  lemma ParseContentRangeStep(u: string, first: nat, rest: string)
    requires ScanNat(u) == Some(Scan(first, rest))
    ensures ParseContentRange("bytes " + u) == ParseRangeEnd(first, rest)
  {
    var h := "bytes " + u;
    assert h[..6] == "bytes ";
    assert h[6..] == u;
  }

  /** The header the client writes is read back as exactly the range it was written from. */
  lemma ContentRangeRoundTrip(r: ByteRange)
    ensures ParseContentRange(ContentRange(r)) == Some(r)
  {
    var tail := "/" + NatToString(r.complete);
    var rest := "-" + NatToString(r.last) + tail;
    ParseRangeTotalOfRendered(r.first, r.last, r.complete);
    ParseRangeEndOfRendered(r.first, r.last, tail);
    ScanNatToString(r.first, rest);
    ParseContentRangeStep(NatToString(r.first) + rest, r.first, rest);
    ConcatShape("bytes ", NatToString(r.first), "-", NatToString(r.last), "/", NatToString(r.complete));
  }

  lemma ConcatShape(a: string, b: string, c: string, d: string, e: string, f: string)
    ensures a + b + c + d + e + f == a + (b + (c + d + (e + f)))
  {
  }

  /**
   * The request sent for a chunk when the upload progress is `progress` and
   * the file holds `fileSize` bytes: the range runs from the progress to the
   * chunk's last byte, and the length is the chunk's.
   */
  function ChunkRequest(progress: nat, chunk: seq<byte>, fileSize: nat): (req: Request)
    requires |chunk| > 0
    ensures req.range.first == progress && req.range.last - req.range.first + 1 == |chunk|
    ensures req.range.complete == fileSize
    ensures req.contentLength == |req.body| == |chunk| && req.body == chunk
  {
    Request(ByteRange(progress, progress + |chunk| - 1, fileSize), |chunk|, chunk)
  }

  /** The request's header lines. */
  function Headers(req: Request): (hs: map<string, string>)
    ensures hs.Keys == {"Content-Range", "Content-Length"}
    ensures ParseContentRange(hs["Content-Range"]) == Some(req.range)
    ensures ScanNat(hs["Content-Length"]) == Some(Scan(req.contentLength, []))
  {
    ContentRangeRoundTrip(req.range);
    ScanNatToString(req.contentLength, []);
    assert NatToString(req.contentLength) + [] == NatToString(req.contentLength);
    map["Content-Range" := ContentRange(req.range), "Content-Length" := NatToString(req.contentLength)]
  }

  /** The text before the first `-` of s (the first piece of splitting s at `-`). */
  function BeforeDash(s: string): (p: string)
    ensures '-' !in p && p <= s
    ensures |p| < |s| ==> s[|p|] == '-'
  {
    if s == [] || s[0] == '-' then [] else [s[0]] + BeforeDash(s[1..])
  }

  /**
   * The start offset of a `start-end` entry of `nextExpectedRanges`: the
   * number spelled by the leading digits of the text before the first `-`,
   * or None when that text does not start with a digit.
   */
  function RangeStart(range: string): (r: Option<nat>)
    ensures r.None? <==> (range == [] || !IsDigit(range[0]))
  {
    match ScanNat(BeforeDash(range))
    case None => None
    case Some(sc) => Some(sc.value)
  }

  /**
   * An entry that starts with a run of digits yields the value of that run,
   * whatever follows it: `-end`, a bare `-`, or other text.
   */
  lemma RangeStartOfDigits(d: string, tail: string)
    requires |d| > 0 && AllDigits(d)
    requires tail == [] || !IsDigit(tail[0])
    ensures RangeStart(d + tail) == Some(DigitsValue(d))
  {
    BeforeDashOfDigits(d, tail);
    var p := BeforeDash(tail);
    assert p == [] || p[0] == tail[0];
    ScanDigits(d, p);
  }

  /** An entry written as `start-end` yields `start`. */
  lemma RangeStartOfRendered(start: nat, end: nat)
    ensures RangeStart(NatToString(start) + "-" + NatToString(end)) == Some(start)
  {
    var a := NatToString(start);
    var tail := "-" + NatToString(end);
    assert a + "-" + NatToString(end) == a + tail;
    RangeStartOfDigits(a, tail);
    DigitsValueOfNatToString(start);
  }

  /** Cutting at the first `-` keeps a leading run of digits whole. */
  lemma {:induction false} BeforeDashOfDigits(d: string, rest: string)
    requires AllDigits(d)
    ensures BeforeDash(d + rest) == d + BeforeDash(rest)
    decreases |d|
  {
    if d == [] {
      assert d + rest == rest;
    } else {
      assert (d + rest)[1..] == d[1..] + rest;
      BeforeDashOfDigits(d[1..], rest);
      assert d == [d[0]] + d[1..];
    }
  }

  /** The offset the server asks for next in a 202 reply: the start of the first `nextExpectedRanges` entry. */
  function NextRangeStart(body: PropDict): (r: Option<nat>)
    ensures r.Some? ==> "nextExpectedRanges" in body
  {
    if "nextExpectedRanges" in body
       && body["nextExpectedRanges"].JArray?
       && |body["nextExpectedRanges"].items| > 0
       && body["nextExpectedRanges"].items[0].JString?
    then RangeStart(body["nextExpectedRanges"].items[0].str)
    else None
  }

  /**
   * There is a next offset exactly when `nextExpectedRanges` holds a
   * non-empty list whose first entry is text starting with a digit.
   */
  lemma NextRangeStartPresent(body: PropDict)
    ensures NextRangeStart(body).Some? <==>
              && "nextExpectedRanges" in body
              && body["nextExpectedRanges"].JArray?
              && |body["nextExpectedRanges"].items| > 0
              && body["nextExpectedRanges"].items[0].JString?
              && body["nextExpectedRanges"].items[0].str != []
              && IsDigit(body["nextExpectedRanges"].items[0].str[0])
  {
  }

  /**
   * Whatever else the body holds and however many entries follow, the next
   * offset is the leading number of the first entry.
   */
  lemma NextRangeStartOfFirstEntry(body: PropDict, d: string, tail: string, more: seq<Json>)
    requires |d| > 0 && AllDigits(d)
    requires tail == [] || !IsDigit(tail[0])
    ensures NextRangeStart(body["nextExpectedRanges" := JArray([JString(d + tail)] + more)]) == Some(DigitsValue(d))
  {
    RangeStartOfDigits(d, tail);
  }

  /** Keys other than `nextExpectedRanges` do not change the next offset. */
  lemma NextRangeStartIgnoresOtherKeys(body: PropDict, key: string, v: Json)
    requires key != "nextExpectedRanges"
    ensures NextRangeStart(body[key := v]) == NextRangeStart(body)
    ensures NextRangeStart(body - {key}) == NextRangeStart(body)
  {
    var b1 := body[key := v];
    var b2 := body - {key};
    assert ("nextExpectedRanges" in b1) == ("nextExpectedRanges" in body);
    assert ("nextExpectedRanges" in b2) == ("nextExpectedRanges" in body);
    if "nextExpectedRanges" in body {
      assert b1["nextExpectedRanges"] == body["nextExpectedRanges"];
      assert b2["nextExpectedRanges"] == body["nextExpectedRanges"];
    }
  }

  /** A 202 body whose first expected range is `start-end`. */
  function AcceptedBody(start: nat, end: nat): (body: PropDict)
    ensures NextRangeStart(body) == Some(start)
  {
    RangeStartOfRendered(start, end);
    map["nextExpectedRanges" := JArray([JString(NatToString(start) + "-" + NatToString(end))])]
  }

  /**
   * The item's browser URL: the `webUrl` property when the item has one,
   * None (PHP's null) when it does not. It never fails. A `webUrl` that
   * holds JSON null gives `Some(JNull)`, which is PHP's null as well.
   */
  function GetWebUrl(item: PropDict): (r: Option<Json>)
    ensures r.None? <==> "webUrl" !in item
    ensures r.Some? ==> r.value == item["webUrl"]
  {
    if "webUrl" in item then Some(item["webUrl"]) else None
  }

  /** Setting `webUrl` makes it the answer; removing it makes the answer None; no other property matters. */
  lemma GetWebUrlUpdate(item: PropDict, key: string, v: Json)
    ensures GetWebUrl(item["webUrl" := v]) == Some(v)
    ensures GetWebUrl(item - {"webUrl"}) == None
    ensures key != "webUrl" ==> GetWebUrl(item[key := v]) == GetWebUrl(item)
  {
  }
}
