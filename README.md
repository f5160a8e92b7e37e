# TerraMap server core, modelled in Dafny

The server of the Terraria live map does two things beyond routing. It serves the
world save file with an in-memory cache keyed by the file's modification time,
answering `If-Modified-Since` conditional requests (section 13.1.3 of RFC 9110)
with 304. Such a 304 comes from one of two checks. The handler compares the
client's time with the file's modification time before any read. Express's
`res.send` compares the client's time with the whole-second `Last-Modified`
field when the body is sent, which can be after a read. It also reports the game server's player status through an ordered
policy: the game server's REST API when a token and a host are configured, a TCP
liveness probe when only the host is known or the REST call failed, and an
"unconfigured" answer otherwise.

- `wrappers.dfy`: `Option`, for `null`, absent headers and I/O calls that throw.
- `world_cache.dfy` (module `WorldFile`): one request as the function `Serve`
  on the cache state; the module-level pair `lastModTime`/`cachedWorldBuffer` as
  the class `WorldCache`, whose `Fetch` updates it in place and is proved to agree
  with `Serve`; `Run` folds `Serve` over a series of requests, and the lemmas about
  it cover reads per modification and coherence of the cache with the file.
- `players.dfy` (module `Players`): the `/api/players` decision table as the pure
  function `PlayerStats`. It takes the outcomes of the REST call and of the TCP
  probe as inputs and also returns which of the two calls it made.

The filesystem is reduced to inputs. A `FileStat` is `Missing` (the existence check
is false), `StatFailed` (the stat threw) or `Present(modTime)`. A read's outcome is
`Option<seq<byte>>`, with None when the read throws. `Serve` and `Fetch` also
return whether they read the file. Modification times are integers in
milliseconds. The `If-Modified-Since` time is an `Option<int>`. It is None when the
header is absent or empty, and also when it does not parse: a NaN time makes the
comparison false, so the request goes on to be served.

The three branches of the player-status endpoint answer with different fields:

- The REST branch's answer carries only `online`, `players` and `maxPlayers`.
- The probe branch's answer adds `serverOnline`.
- The unconfigured answer adds `serverOnline` and `configured`.

`PlayerStatus` therefore has `Option<bool>` for those two fields.

## Model

| member | source | states |
|---|---|---|
| WorldFile.HttpDateMillis | server.js:79 | The `Last-Modified` time is the modification time cut to the whole second at or below it. |
| WorldFile.Send | server.js:83 | `res.send` answers 304 exactly when the client's time is no earlier than the whole-second `Last-Modified` time, and otherwise sends the bytes with the modification time. |
| WorldFile.Serve | server.js:49-88 | 404 exactly when the file is missing. 500 exactly when the stat throws or a needed read throws. 304 exactly when the client's time is no earlier than the whole-second modification time and no needed read failed. A read happens exactly when the handler's own check (client time no earlier than the exact modification time) does not answer 304 and the cache is stale. A successful read replaces the cache with that version; nothing else changes it. Served bytes are the cache afterwards. |
| WorldFile.WorldCache.constructor | server.js:20-21 | The cache starts with modification time 0 and no bytes. |
| WorldFile.WorldCache.Fetch | server.js:49-88 | Updating the two fields in place gives the answer, the read flag and the new state that `Serve` specifies. A successful read sets both fields to the version read. Anything else leaves both fields unchanged. |
| WorldFile.Run | server.js:71-74 | A series of requests gives one answer per request and at most one read each. If no read happened, the cache is as it was. |
| WorldFile.ReadsFollowModifications | server.js:71-74 | Polls that pass the handler's own check and whose reads succeed read once for the first poll if the cache lacks that version, then once per change of modification time between consecutive polls, and never otherwise. |
| WorldFile.TwoPollsReadOnce | server.js:71-74 | Two such polls that see the same modification time read the file at most once, and not at all if that version is already cached. |
| WorldFile.RunStaysCoherent | server.js:71-83 | If reads return the version the stat reported, the cached bytes always equal the file's content at the cached modification time. This holds for any headers and any failing reads. Every served body is the file's content at the time that request's stat reported. |
| WorldFile.EchoedLastModified | server.js:62-83 | A client that echoes the `Last-Modified` it got gets 304 unless a needed read fails. The file is read exactly when the cache is stale and the modification time is not a whole second; the 304 then comes from `res.send` after that read. |
| Players.FromRest | server.js:126-130 | The count equals the roster length: the reply's roster, or empty and 0 when missing. The capacity is the reply's `maxplayers` when present and non-zero, else 8, and never 0. |
| Players.FromProbe | server.js:138-145 | The count is -1 exactly when the probe connected and 0 exactly when it did not. The roster is empty, the capacity is 8, and `serverOnline` is the probe's outcome. |
| Players.Unconfigured | server.js:148-155 | The unconfigured answer has count 0, an empty roster, capacity 0, and `serverOnline` and `configured` both false. |
| Players.PlayerStats | server.js:113-156 | The REST call is made exactly when token and host are set. The probe is made exactly when a host is set and REST did not answer. No call is made exactly when no host is set. Each branch's answer is the matching record. -1 appears exactly for a probe that connected. `configured: false` appears exactly when no host is set. |
| Players.StatsFlagMatchesRestBranch | server.js:44 | When `hasPlayerStatsEnabled` is false and a host is set, only the probe runs and its answer is given. (That the flag is true exactly when the REST call is made is stated by `PlayerStats`.) |
| Players.RestFailureFallsBackToProbe | server.js:131-145 | A failed REST call is followed by exactly one probe. The answer is the same as with no token configured. |

## Left out

- Express routing, static file hosting and the root page. Also `/health`, `/ready`, `/api/config` apart from its `hasPlayerStatsEnabled` flag, and startup logging (server.js:23-46, 182-209). These are framework plumbing.
- `/api/world/status` (server.js:91-110): an existence check and a stat, with no read and no cache access. Its result is just the stat, so it is not modelled.
- `checkServerOnline` (server.js:159-180): the socket, its 3000 ms timeout and the connect/timeout/error race. Only its boolean outcome is modelled, as an input.
- The REST `fetch` and JSON decoding (server.js:117-125): reduced to `Option<RestReply>`. A `players` field that is present but not an array, and a `maxplayers` that is not a number, are not modelled.
- Serve (and with it WorldCache.Fetch and EchoedLastModified): models only the `If-Modified-Since` part of `res.send`'s freshness check (server.js:83). The weak ETag that Express adds and the request's `If-None-Match` are not modelled, nor a request `Cache-Control: no-cache` that turns the check off. Such requests can get a 304 or a 200 that `Serve` does not predict.
- Parsing the `If-Modified-Since` date and formatting `Last-Modified` (server.js:64, 79): library date handling. Only the whole-second resolution of the formatted time is modelled, by `HttpDateMillis`.
- Fractional `mtimeMs` (server.js:59): modification times are whole milliseconds.
- The headers of the 200 answer (content type, attachment file name from `path.basename`, `no-cache`), the error bodies, and the environment configuration (server.js:9-17, 76-81). These are fixed strings or configuration plumbing.
- RunStaysCoherent: assumes each read returns the version that the stat just before it reported. If the file is rewritten between the stat and the read, the cache can hold content under another version's time. The source accepts that race.
- Error logging to the console (server.js:85, 132).
