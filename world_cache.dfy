/**
 * The world-file endpoint (`GET /api/world`): a single world save file, held in
 * memory together with the modification time of the version held, and served with
 * support for the `If-Modified-Since` conditional request (section 13.1.3 of
 * RFC 9110; the matching `Last-Modified` field is section 8.8.2).
 *
 * The filesystem is reduced to inputs: what a stat reports and what a full read
 * would yield. `Serve` is the specification of one request as a function on the
 * cache state; the class `WorldCache` is the module-level pair of variables that
 * the handler updates in place, and `Run` folds `Serve` over a series of requests.
 * A 304 can come from two places: the handler's own comparison before any read,
 * and the freshness check that Express's `res.send` makes when the body is sent.
 */
module WorldFile {
  import opened Wrappers

  newtype byte = x: int | 0 <= x < 256

  /** What the existence check and the stat of the world file report. */
  datatype FileStat =
    | Missing                // the file does not exist
    | StatFailed             // it exists, but the stat threw
    | Present(modTime: int)  // its modification time, in milliseconds

  /**
   * One request to the endpoint, with the outcome of every I/O call it may make.
   * `clientTime` is the `If-Modified-Since` time: None when the header is absent,
   * empty, or does not parse as a date (a NaN time never compares as later).
   * `readResult` is what a full read of the file would return: None if it throws.
   */
  datatype Request = Request(stat: FileStat, clientTime: Option<int>, readResult: Option<seq<byte>>)

  datatype Response =
    | NotFound                                       // 404 with `{error, path}`
    | NotModified                                    // 304, empty body
    | Artifact(bytes: seq<byte>, lastModified: int)  // 200, octet-stream body
    | ReadError                                      // 500 with `{error}`

  /**
   * The cached version: its modification time and its bytes (None while nothing
   * is cached). An empty file read is `Some([])`, which still counts as cached.
   */
  datatype CacheState = CacheState(lastModTime: int, buffer: Option<seq<byte>>)

  /** The state at process start. */
  const Empty := CacheState(0, None)

  /** What one request answers, whether it read the file, and the cache after it. */
  datatype Outcome = Outcome(response: Response, didRead: bool, next: CacheState)

  /** The client's copy is current: it sent a time no earlier than the file's. */
  predicate ClientIsCurrent(modTime: int, clientTime: Option<int>) {
    clientTime.Some? && modTime <= clientTime.value
  }

  /** The cache does not hold the version with this modification time. */
  predicate IsStale(s: CacheState, modTime: int) {
    modTime != s.lastModTime || s.buffer.None?
  }

  /**
   * The `Last-Modified` field carries the modification time at whole-second
   * resolution (an HTTP-date has no fraction of a second).
   */
  function HttpDateMillis(t: int): (h: int)
    ensures h <= t < h + 1000 && h % 1000 == 0
  {
    t - t % 1000
  }

  /**
   * The answer to a request that has got as far as sending the file. Express's
   * `res.send` runs its own freshness check: it compares the `If-Modified-Since`
   * time with the `Last-Modified` field just set, and answers 304 with no body when
   * the client's time is no earlier.
   */
  function Send(bytes: seq<byte>, modTime: int, clientTime: Option<int>): (r: Response)
    ensures r == NotModified <==> ClientIsCurrent(HttpDateMillis(modTime), clientTime)
    ensures r != NotModified ==> r == Artifact(bytes, modTime)
  {
    if ClientIsCurrent(HttpDateMillis(modTime), clientTime) then NotModified
    else Artifact(bytes, modTime)
  }

  /** One request to the world-file endpoint against the cache state `s`. */
  function Serve(s: CacheState, req: Request): (o: Outcome)
    // which answer is given: 304 from the handler's own check or from `res.send`'s,
    // unless a read that was needed failed
    ensures o.response == NotFound <==> req.stat.Missing?
    ensures o.response == ReadError <==> req.stat.StatFailed? || (o.didRead && req.readResult.None?)
    ensures o.response == NotModified <==>
              req.stat.Present? && ClientIsCurrent(HttpDateMillis(req.stat.modTime), req.clientTime) &&
              !(o.didRead && req.readResult.None?)
    ensures o.response.Artifact? ==> req.stat.Present? && o.response.lastModified == req.stat.modTime
    // a read happens exactly when the handler's check lets the request through and
    // the cache is stale
    ensures o.didRead <==>
              req.stat.Present? && !ClientIsCurrent(req.stat.modTime, req.clientTime) &&
              IsStale(s, req.stat.modTime)
    // a successful read replaces the cache with the version the stat reported
    ensures o.didRead && req.readResult.Some? ==>
              o.next == CacheState(req.stat.modTime, req.readResult)
    // what is served is exactly the cache afterwards
    ensures o.response.Artifact? ==>
              o.next == CacheState(o.response.lastModified, Some(o.response.bytes))
    // the cache changes only through a successful read
    ensures !(o.didRead && req.readResult.Some?) ==> o.next == s
  {
    match req.stat
    case Missing => Outcome(NotFound, false, s)
    case StatFailed => Outcome(ReadError, false, s)
    case Present(modTime) =>
      if ClientIsCurrent(modTime, req.clientTime) then
        Outcome(NotModified, false, s)
      else if IsStale(s, modTime) then
        match req.readResult
        case None => Outcome(ReadError, true, s)
        case Some(data) => Outcome(Send(data, modTime, req.clientTime), true, CacheState(modTime, Some(data)))
      else
        Outcome(Send(s.buffer.value, modTime, req.clientTime), false, s)
  }

  /** The module-level cache variables of the server process. */
  class WorldCache {
    var lastModTime: int
    var buffer: Option<seq<byte>>

    function State(): CacheState
      reads this
    {
      CacheState(lastModTime, buffer)
    }

    constructor ()
      ensures State() == Empty
    {
      lastModTime := 0;
      buffer := None;
    }

    /** Handles one request, updating the cache in place as the handler does. */
    method Fetch(stat: FileStat, clientTime: Option<int>, readResult: Option<seq<byte>>)
      returns (r: Response, didRead: bool)
      modifies this
      ensures Outcome(r, didRead, State()) == Serve(old(State()), Request(stat, clientTime, readResult))
      ensures r.Artifact? ==> buffer == Some(r.bytes) && lastModTime == r.lastModified
      ensures didRead && readResult.Some? ==> buffer == readResult && lastModTime == stat.modTime
      ensures !(didRead && readResult.Some?) ==> unchanged(this)
    {
      if stat.Missing? {
        return NotFound, false;
      }
      if stat.StatFailed? {
        return ReadError, false;
      }
      var modTime := stat.modTime;
      if clientTime.Some? && modTime <= clientTime.value {
        return NotModified, false;
      }
      didRead := false;
      if modTime != lastModTime || buffer.None? {
        didRead := true;
        if readResult.None? {
          return ReadError, didRead;
        }
        buffer := readResult;
        lastModTime := modTime;
      }
      // the freshness check of `res.send`, against the `Last-Modified` just set
      if clientTime.Some? && HttpDateMillis(modTime) <= clientTime.value {
        r := NotModified;
      } else {
        r := Artifact(buffer.value, modTime);
      }
    }
  }

  /** The answers to a series of requests, the number of full reads, and the final cache. */
  datatype Trace = Trace(responses: seq<Response>, readCount: nat, final: CacheState)

  /** A series of requests served one after another from the cache state `s`. */
  function Run(s: CacheState, reqs: seq<Request>): (t: Trace)
    ensures |t.responses| == |reqs|
    ensures t.readCount <= |reqs|
    ensures t.readCount == 0 ==> t.final == s
    decreases |reqs|
  {
    if reqs == [] then Trace([], 0, s)
    else
      var o := Serve(s, reqs[0]);
      var rest := Run(o.next, reqs[1..]);
      var responses := [o.response] + rest.responses;
      Trace(responses, (if o.didRead then 1 else 0) + rest.readCount, rest.final)
  }

  /**
   * A plain poll: the file is there, the handler's own check does not answer 304
   * (no conditional header, or one older than the file), and reading it succeeds.
   */
  predicate PlainPoll(req: Request) {
    req.stat.Present? && !ClientIsCurrent(req.stat.modTime, req.clientTime) && req.readResult.Some?
  }

  /** How often the modification time differs between consecutive requests. */
  function Changes(reqs: seq<Request>): nat
    requires forall i :: 0 <= i < |reqs| ==> reqs[i].stat.Present?
  {
    if |reqs| < 2 then 0
    else (if reqs[0].stat.modTime != reqs[1].stat.modTime then 1 else 0) + Changes(reqs[1..])
  }

  /**
   * Plain polls read the file once for the first poll if the cache does not hold
   * that version, and then once for each change of modification time: the cache is
   * refreshed exactly once per distinct modification.
   */
  lemma {:induction false} ReadsFollowModifications(s: CacheState, reqs: seq<Request>)
    requires forall i :: 0 <= i < |reqs| ==> reqs[i].stat.Present? && PlainPoll(reqs[i])
    ensures Run(s, reqs).readCount ==
              (if reqs != [] && IsStale(s, reqs[0].stat.modTime) then 1 else 0) + Changes(reqs)
    decreases |reqs|
  {
    if reqs != [] {
      assert PlainPoll(reqs[0]);
      var o := Serve(s, reqs[0]);
      assert o.next.lastModTime == reqs[0].stat.modTime && o.next.buffer.Some?;
      ReadsFollowModifications(o.next, reqs[1..]);
    }
  }

  /** Two plain polls that see the same modification time read the file at most once. */
  lemma TwoPollsReadOnce(s: CacheState, first: Request, second: Request)
    requires PlainPoll(first) && PlainPoll(second)
    requires first.stat.modTime == second.stat.modTime
    ensures Run(s, [first, second]).readCount == if IsStale(s, first.stat.modTime) then 1 else 0
  {
    ReadsFollowModifications(s, [first, second]);
  }

  /**
   * The cache is coherent with the file when the bytes it holds are the file's
   * content at the modification time it records. `content` gives the file's
   * content for each modification time.
   */
  predicate Coherent(s: CacheState, content: int -> seq<byte>) {
    s.buffer.Some? ==> s.buffer.value == content(s.lastModTime)
  }

  /** A read returns the version of the file that the stat just before it reported. */
  predicate ReadsReportedVersion(req: Request, content: int -> seq<byte>) {
    req.stat.Present? && req.readResult.Some? ==> req.readResult.value == content(req.stat.modTime)
  }

  /**
   * Whatever the headers and whichever reads fail, a coherent cache stays coherent,
   * and every body served is the file's content at the modification time reported
   * by that request's stat.
   */
  lemma {:induction false} RunStaysCoherent(s: CacheState, content: int -> seq<byte>, reqs: seq<Request>)
    requires Coherent(s, content)
    requires forall i :: 0 <= i < |reqs| ==> ReadsReportedVersion(reqs[i], content)
    ensures Coherent(Run(s, reqs).final, content)
    ensures forall i :: 0 <= i < |reqs| && Run(s, reqs).responses[i].Artifact? ==>
              reqs[i].stat.Present? && Run(s, reqs).responses[i].bytes == content(reqs[i].stat.modTime)
    decreases |reqs|
  {
    if reqs != [] {
      var o := Serve(s, reqs[0]);
      assert Coherent(o.next, content);
      RunStaysCoherent(o.next, content, reqs[1..]);
      var t := Run(s, reqs);
      var rest := Run(o.next, reqs[1..]);
      forall i | 0 <= i < |reqs| && t.responses[i].Artifact?
        ensures reqs[i].stat.Present? && t.responses[i].bytes == content(reqs[i].stat.modTime)
      {
        if i > 0 {
          assert t.responses[i] == rest.responses[i - 1];
          assert reqs[i] == reqs[1..][i - 1];
        }
      }
    }
  }

  /**
   * A client that echoes the `Last-Modified` time it was given gets 304 whenever
   * the needed read (if any) succeeds. The handler's own check lets the request
   * through unless the modification time is a whole second, so the file is read
   * exactly when the cache is stale and the time has a fraction of a second; the
   * 304 of `res.send` then follows that read.
   */
  lemma EchoedLastModified(s: CacheState, modTime: int, readResult: Option<seq<byte>>)
    ensures var o := Serve(s, Request(Present(modTime), Some(HttpDateMillis(modTime)), readResult));
            && (o.didRead <==> IsStale(s, modTime) && modTime % 1000 != 0)
            && o.response == (if o.didRead && readResult.None? then ReadError else NotModified)
  {
  }

  /**
   * A missing file, a first fetch that reads, a second that is served from memory,
   * a conditional fetch answered 304, a failed read, a touched file that is read
   * again, and a conditional fetch answered 304 by `res.send` after a read.
   */
  method CacheLifecycle(v1: seq<byte>, v2: seq<byte>)
  {
    var cache := new WorldCache();
    var r, didRead := cache.Fetch(Missing, None, Some(v1));
    assert r == NotFound && !didRead;
    r, didRead := cache.Fetch(Present(5000), None, Some(v1));
    assert r == Artifact(v1, 5000) && didRead;
    r, didRead := cache.Fetch(Present(5000), None, Some(v2));
    assert r == Artifact(v1, 5000) && !didRead;
    r, didRead := cache.Fetch(Present(5000), Some(5000), Some(v2));
    assert r == NotModified && !didRead;
    r, didRead := cache.Fetch(Present(9000), None, None);
    assert r == ReadError && didRead && cache.State() == CacheState(5000, Some(v1));
    r, didRead := cache.Fetch(Present(9000), Some(5000), Some(v2));
    assert r == Artifact(v2, 9000) && didRead;
    r, didRead := cache.Fetch(Present(10500), Some(10000), Some(v1));
    assert r == NotModified && didRead && cache.State() == CacheState(10500, Some(v1));
  }
}
