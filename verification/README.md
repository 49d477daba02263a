# download-from-youtube: the `/download` route in Dafny

The service has one route with real logic. `GET /download?url=…&format=…`
runs the `yt-dlp` tool on the URL and streams the tool's standard output back
as the response body. This project models that route as pure functions over
immutable data. The modules are:

- `Common`: `Option`, bytes, and JavaScript truthiness of an optional string.
- `Text`: ASCII lower-casing, plus the `"; "` join of `set-cookie` values with
  a splitting inverse.
- `Format`: how the `format` parameter is read. It is the case-insensitive
  `mp3` alias, a raw selector, or nothing.
- `Arguments`: the argument vector passed to the tool. A positional parser
  proves that rendering the vector loses nothing. A small model of the
  tool's option parser shows which elements it reads as operands.
- `Headers`: the `Content-Type` and `Content-Disposition` values, and which
  header values Node's `writeHead` accepts.
- `Cookies`: the background cookie fetch's effect on the cookie slot, and the
  temporary cookie-file path.
- `Bridge`: the handlers for stdout, stderr, `close` and `error`, written as
  a transition function over process events. The state is `hasData`,
  `headersSent`, the written chunks, `ended`, the error replies sent, the
  cookie file and the number of unlink calls.
- `Handler`: the synchronous part of the route, from validation to
  `writeHead`, followed by the bridge run over an arbitrary event sequence.

Every side effect is an input. The `Handler.Env` record holds whether the
binary exists, the value of `YOUTUBE_COOKIES` when it is read, `os.tmpdir()`,
`Date.now()`, and whether the cookie-file write succeeds. The process is a
sequence of `Bridge.Event`s. Whether `spawn` or `writeHead` throws is decided
by the request itself. `spawn` throws when an argument contains a NUL
character. `writeHead` throws when the filename carries a character outside
tab, 0x20-0x7E and 0x80-0xFF.

## Behaviour worth knowing

- `writeHead(200)` (src/routes/download.ts:110) runs synchronously right after
  `spawn`, before any process event can fire. So in the running handler
  `headersSent` is already true whenever the `close` or `error` handler runs.
  The 500 replies at lines 141-143 and 152-154 can never be sent. The bridge
  models them for a general state, but `Handler.StreamingDelivers` proves
  that no error reply is ever sent once streaming starts.
- A failing `close` after `writeHead` neither ends the response nor replies
  (src/routes/download.ts:139-143). This covers a non-zero exit, a signal,
  and exit 0 with no data. `Bridge.FailedCloseLeavesResponseOpen` and
  `Handler.StreamingEnds` state this. So a tool that exits 0 without output
  yields a 200 that is never ended.
- The cookie file is unlinked only by the `close` handler
  (src/routes/download.ts:130-137). A spawn `error` without a `close`
  removes nothing. A throw caught at lines 156-161 leaves the file on disk
  (`Handler.ThrowLeavesJar`). A format containing a line break reaches that
  catch after the process has started (`Handler.RequestDecidesThrows`).
- The cookie file holds whatever the `YOUTUBE_COOKIES` slot holds when the
  route reads it (src/routes/download.ts:77-81). That is the operator's own
  value until some earlier request's background fetch has succeeded, and
  from then on the raw `"; "`-joined `set-cookie` values (lines 58-64),
  which are not Netscape cookie-jar text.
- The url is pushed last with no `--` before it (src/routes/download.ts:103).
  A url that starts with `-` is read by the tool as an option (see
  "## Findings").

## Model

| member | source | states |
|---|---|---|
| `Text.Join` | src/routes/download.ts:61 | the joined string starts with the first cookie and is as long as all cookies plus one two-character separator between neighbours; no cookies give the empty string |
| `Text.SplitJoin` | src/routes/download.ts:61 | splitting the `"; "`-joined string gives back exactly the cookies, in order, for a non-empty list in which no cookie contains `;` |
| `Text.JoinLosesAttributes` | src/routes/download.ts:61 | a cookie with a `; Path=/` attribute joins to the same string as two separate cookies, so the split does not give it back |
| `Cookies.Collect` | src/routes/download.ts:53-70 | a failed fetch or a missing `set-cookie` header leaves the cookie slot as it was; a header list always sets it |
| `Cookies.CollectKeepsCookies` | src/routes/download.ts:58-64 | the string stored in the slot keeps every semicolon-free cookie, recoverable by splitting |
| `Cookies.EmptyHeaderClearsCookies` | src/routes/download.ts:61-77 | an empty `set-cookie` list stores `""`, which the route then treats as no cookies |
| `Cookies.JarPath` | src/routes/download.ts:79 | the cookie-file path is the temporary directory, a `/` (the POSIX separator), then `cookies_`, the decimal timestamp and `.txt` |
| `Cookies.JarPathCollision` | src/routes/download.ts:79 | two requests get the same cookie-file path iff they read the clock in the same millisecond |
| `Format.Mp3AliasSpellings` | src/routes/download.ts:94 | `format.toLowerCase() === "mp3"` holds exactly for `mp3`, `mP3`, `Mp3` and `MP3` |
| `Format.Classify` | src/routes/download.ts:93-100 | an absent or empty format asks for nothing, the mp3 alias asks for audio, and any other string is a selector equal to the raw format |
| `Arguments.BuildArgs` | src/routes/download.ts:44-103 | the argument vector starts with the fixed five flags and ends with `-o - url`; `--cookies path` follows the prefix exactly when a cookie file exists; the mp3 alias then gives `-x --audio-format mp3` and no `-f`, any other non-empty format gives `-f format` verbatim, and no format gives nothing |
| `Arguments.ParseRender` | src/routes/download.ts:44-103 | every vector the route builds parses back positionally to its url, format choice and cookie path, so each of them stays one element in its place |
| `Arguments.RenderParse` | src/routes/download.ts:44-103 | every vector that parses is exactly the one built from what it parses to |
| `Arguments.OptionUrlBecomesOption` | src/routes/download.ts:44-103 | for the tool's option parser, the only operand of the vector is the url, unless the url looks like an option; then there is no operand at all, whatever the format and cookie file |
| `Arguments.BuildArgsGuarded` | src/routes/download.ts:103 | the guarded vector is the route's vector with `--` inserted before the url |
| `Arguments.GuardedUrlIsOperand` | src/routes/download.ts:103 | with `--` before it, the url is the one operand for every url, format and cookie file |
| `Arguments.BuildArgsInjective` | src/routes/download.ts:44-103 | two requests get the same argument vector iff they have the same url, the same cookie file and formats that ask for the same thing |
| `Headers.ContentType` | src/routes/download.ts:109 | the content type is `audio/mpeg` exactly when the format lower-cases to `mp3`, and `video/mp4` otherwise |
| `Headers.Extension` | src/routes/download.ts:111 | the filename extension is the raw, un-lower-cased format when it is non-empty, and `mp4` otherwise |
| `Headers.DispositionCarriesFormat` | src/routes/download.ts:111 | the Content-Disposition value is the fixed `attachment; filename="video.` head, then the extension, then a closing quote |
| `Headers.HeadersValidity` | src/routes/download.ts:109-113 | the content type is always a valid header value; the disposition is valid iff the raw format (or `mp4`) is |
| `Headers.HeadersAgreeWithArgs` | src/routes/download.ts:93-111 | the audio type is announced iff the tool gets the audio flags; a raw selector is both the `-f` argument and the file extension; no format gives no flags and `video.mp4` |
| `Bridge.Step` | src/routes/download.ts:115-155 | a non-empty chunk is written and sets `hasData`, and an empty one changes nothing; writing a chunk commits the headers, as Node's `write` sends them implicitly, and stdout never sends a reply; stderr changes nothing; `close` and `error` leave the written chunks and `hasData` alone; `close` unlinks an existing cookie file for any exit code and ends the response iff the code is 0 and data was seen; a 500 is sent iff headers were not sent and the event was a spawn error or a failing close, and for `close` and `error` the headers become committed iff they were already, that 500 was sent, or the close succeeded and called `end`, which sends the implicit headers |
| `Bridge.RunWritten` | src/routes/download.ts:117-124 | after any event sequence the written chunks are exactly the non-empty stdout chunks, in arrival order |
| `Bridge.DeliveredBytes` | src/routes/download.ts:117-124 | the bytes written equal the in-order concatenation of all stdout chunks |
| `Bridge.RunHasData` | src/routes/download.ts:115-124 | `hasData` holds after a run iff some stdout chunk was non-empty (or it held already) |
| `Bridge.StderrIgnored` | src/routes/download.ts:126-128 | removing every stderr event from a run leaves the final state unchanged |
| `Bridge.RunUnlinks` | src/routes/download.ts:130-137 | the cookie file is unlinked once per `close` when it exists, whatever the exit code, and never otherwise |
| `Bridge.RunRepliesConsistent` | src/routes/download.ts:139-155 | at most one 500 is ever sent, and only before headers were committed; once they are, or once body bytes were written or the response ended, no reply is sent |
| `Bridge.RunKeepsHeaders` | src/routes/download.ts:141-153 | committed headers stay committed through any events |
| `Bridge.RunEnded` | src/routes/download.ts:139-147 | the response is ended iff some `close` reported exit code 0 after at least one non-empty chunk |
| `Bridge.FailedCloseLeavesResponseOpen` | src/routes/download.ts:139-147 | a failing `close` after headers were sent neither ends the response nor replies |
| `Handler.Handle` | src/routes/download.ts:25-113 | a 400 is sent iff `url` is absent or empty, and then nothing is built, spawned or written; a missing binary, and then a wanted cookie file that cannot be written, each give their own 500 with no process started and no file left; streaming starts iff the binary exists, the cookie file (when wanted) is written, no argument has a NUL and the disposition is a valid header value, and then with the built vector, the format's headers and committed headers; a leftover cookie file only comes with the catch-all 500 |
| `Handler.StreamingDelivers` | src/routes/download.ts:106-124 | once streaming, the headers stay committed, the body is the in-order concatenation of the stdout chunks, and no 500 can be sent |
| `Handler.StreamingIgnoresStderr` | src/routes/download.ts:115-128 | once streaming, `hasData` holds iff some stdout chunk was non-empty, and dropping every stderr event changes nothing about the request |
| `Handler.StreamingEnds` | src/routes/download.ts:106-148 | a streaming response is ended iff a `close` with code 0 follows some non-empty chunk |
| `Handler.StreamingRemovesJar` | src/routes/download.ts:76-137 | a streaming request's cookie file is unlinked once per `close`, so exactly once for a process that closes, and no unlink happens without a file |
| `Handler.ThrowLeavesJar` | src/routes/download.ts:80-161 | a throw from `spawn` or `writeHead` after the cookie file was written gives the catch-all 500 and leaves the file behind; the process is running only if `spawn` accepted the arguments |
| `Handler.RequestDecidesThrows` | src/routes/download.ts:103-113 | a NUL in the url makes `spawn` throw, so the catch-all 500 follows with no process; a line break in the format lets the process start and then makes `writeHead` throw |

## Findings

| source | as written | input that shows it | evidently intended | confidence | as-written member | corrected member |
|---|---|---|---|---|---|---|
| src/routes/download.ts:103 | `args.push("-o", "-", url)` puts the caller's url after the options with no `--` | `url = "--exec=touch x"`: the tool reads it as an option and gets no url | the url is always read as the one url operand | not executed; medium | `Arguments.OptionUrlBecomesOption` | `Arguments.GuardedUrlIsOperand` |

The corrected vector is `Arguments.BuildArgsGuarded`. `Handler.Handle` keeps
the as-written `Arguments.BuildArgs`, because it describes what the route
sends.

## Left out

- The HTTP framework wiring in `src/server.ts`, `server.ts` and `server.js`
  (CORS, Swagger, static files, rate limiting, listen). None of it has logic
  of its own.
- The background `axios` fetch of youtube.com (src/routes/download.ts:53-73).
  Only its effect on the cookie slot is modelled, as `Cookies.Collect`. The
  call is not awaited, so the route reads the slot before this request's
  fetch completes. `Handler.Env.cookieSource` is the slot's value at that
  read.
- The real filesystem, process, and socket calls (`existsSync`,
  `writeFileSync`, `unlink`, `spawn`, `reply.raw`). They are boolean inputs,
  events and state fields. An unlink that fails is only logged, so it counts
  as an attempt.
- A cookie file left partly written by a failed `writeFileSync`. The model
  says no file was created.
- Cookie-file name uniqueness. The name comes only from `Date.now()`, so two
  requests in the same millisecond share a path (`Cookies.JarPathCollision`).
  `path.join` normalisation of
  the temporary directory is not modelled, and the path is built with the
  POSIX separator `/`; on win32 `path.join` uses `\`.
- Choosing the executable name per platform (src/routes/download.ts:33-35).
  The name is an input.
- Logging to the console.
- Concurrency between the stdout and stderr pipes, and backpressure.
  Client-disconnect cancellation is also left out, because the route does
  not implement it.
- An `error` event with no listener after a caught `writeHead` throw, which
  would crash the process.
- `toLowerCase` is modelled on ASCII only. Unicode
  lower-case mappings send no other character to `m`, `p` or `3`, so the
  mp3 test is unaffected. A raw non-ASCII format still goes verbatim into
  the argument vector and the filename.
- Text.SplitJoin: the round trip holds only for a non-empty list of cookies
  without `;`. The empty list joins to `""`, like `[""]`, and splits back to
  `[""]`; the route treats that string as no cookies
  (`Cookies.EmptyHeaderClearsCookies`). Real
  `set-cookie` values carry `; Path=/`-style attributes, and for those the
  join is lossy (`Text.JoinLosesAttributes`).
- Other ways `spawn` or `writeHead` can throw synchronously (an invalid
  executable path, for one). Only the NUL and header-character rules are
  modelled.
- A repeated query parameter arriving as an array. The query is modelled as
  two optional strings.
