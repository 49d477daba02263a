/** The `/download` route: validation, cookie file, argument vector, spawn,
    headers, then the stream bridge until the tool's events run out. */
module Handler {
  import opened Common
  import Arguments
  import Headers
  import Cookies
  import Bridge

  /** The query string: `url` and `format`, each possibly absent. */
  datatype Query = Query(url: Option<string>, format: Option<string>)

  /** What the handler learns from the machine it runs on. */
  datatype Env = Env(
    binaryPresent: bool,           // `fs.existsSync(ytDlpPath)`
    executableName: string,        // `yt-dlp` or `yt-dlp.exe`
    cookieSource: Option<string>,  // `process.env.YOUTUBE_COOKIES` when it is read
    tmpDir: string,                // `os.tmpdir()`
    now: nat,                      // `Date.now()`
    jarWriteOk: bool)              // `fs.writeFileSync` of the cookie file succeeds

  /** `s` contains a NUL character. */
  predicate HasNul(s: string)
  {
    exists i :: 0 <= i < |s| && s[i] == '\0'
  }

  /** Node's `spawn` throws synchronously, starting no process, when an
      argument contains a NUL character. */
  predicate SpawnRejects(argv: seq<string>)
  {
    exists k :: 0 <= k < |argv| && HasNul(argv[k])
  }

  /** A JSON error reply `{ error: message }` with its status code. */
  datatype Reply = Reply(status: int, message: string)

  const MissingUrl: string := "URL do vídeo não fornecida!"
  const JarWriteFailure: string := "Erro ao criar arquivo de cookies."
  const InternalFailure: string := "Erro interno ao processar o download."

  function BinaryMissing(executableName: string): string
  {
    executableName + " não encontrado no diretório bin."
  }

  /** Where the synchronous part of the handler leaves the request. */
  datatype Start =
    | Refused(reply: Reply,
              spawned: Option<seq<string>>,  // the argv of a process left running, if any
              leftover: Option<string>)      // a cookie file written and never removed
    | Streaming(argv: seq<string>, contentType: string, disposition: string, bridge: Bridge.State)

  /** The cookie file this request writes, if any. */
  function JarFor(env: Env): Option<string>
  {
    if Cookies.WantsJar(env.cookieSource) then Some(Cookies.JarPath(env.tmpDir, env.now)) else None
  }

  /** The bridge right after `writeHead(200)`: headers committed, nothing
      written, the cookie file (if any) not yet removed. */
  function Committed(jar: Option<string>): Bridge.State
  {
    Bridge.State(false, true, [], false, [], jar, 0)
  }

  /** Everything the route does before the first event of the process. A
      throw from `spawn` or `writeHead` (lines 106 and 110) is caught by the
      outer `catch`, which replies 500 since no header was sent yet. */
  function Handle(q: Query, env: Env): (r: Start)
    ensures r.Refused? && r.reply.status == 400 <==> !Truthy(q.url)
    ensures !Truthy(q.url) ==> r == Refused(Reply(400, MissingUrl), None, None)
    ensures Truthy(q.url) && !env.binaryPresent ==>
              r == Refused(Reply(500, BinaryMissing(env.executableName)), None, None)
    ensures Truthy(q.url) && env.binaryPresent && Cookies.WantsJar(env.cookieSource) && !env.jarWriteOk ==>
              r == Refused(Reply(500, JarWriteFailure), None, None)
    ensures r.Refused? ==> r.reply.status == 400 || r.reply.status == 500
    ensures r.Streaming? <==>
              && Truthy(q.url) && env.binaryPresent
              && (Cookies.WantsJar(env.cookieSource) ==> env.jarWriteOk)
              && !SpawnRejects(Arguments.BuildArgs(q.url.value, q.format, JarFor(env)))
              && Headers.HeaderValueValid(Headers.Disposition(q.format))
    ensures r.Streaming? ==>
              && r.argv == Arguments.BuildArgs(q.url.value, q.format, JarFor(env))
              && r.contentType == Headers.ContentType(q.format)
              && r.disposition == Headers.Disposition(q.format)
              && r.bridge == Committed(JarFor(env))
    ensures r.Refused? && r.spawned.Some? ==>
              && Truthy(q.url)
              && r.spawned.value == Arguments.BuildArgs(q.url.value, q.format, JarFor(env))
              && !SpawnRejects(r.spawned.value)
              && !Headers.HeaderValueValid(Headers.Disposition(q.format))
    ensures r.Refused? && r.leftover.Some? ==>
              r.reply == Reply(500, InternalFailure) && r.leftover == JarFor(env)
  {
    if !Truthy(q.url) then
      Refused(Reply(400, MissingUrl), None, None)
    else if !env.binaryPresent then
      Refused(Reply(500, BinaryMissing(env.executableName)), None, None)
    else
      var jar := JarFor(env);
      if jar.Some? && !env.jarWriteOk then
        Refused(Reply(500, JarWriteFailure), None, None)
      else
        var argv := Arguments.BuildArgs(q.url.value, q.format, jar);
        var disposition := Headers.Disposition(q.format);
        if SpawnRejects(argv) then Refused(Reply(500, InternalFailure), None, jar)
        else if !Headers.HeaderValueValid(disposition) then Refused(Reply(500, InternalFailure), Some(argv), jar)
        else Streaming(argv, Headers.ContentType(q.format), disposition, Committed(jar))
  }

  /** The whole request: the synchronous part, then every process event. */
  function Serve(q: Query, env: Env, events: seq<Bridge.Event>): Start
  {
    var start := Handle(q, env);
    if start.Streaming? then start.(bridge := Bridge.Run(start.bridge, events)) else start
  }

  /** Once streaming, the client gets status 200 and the tool's stdout bytes
      in order, and no handler can reply 500 any more,
      because the headers were committed before any event. */
  lemma StreamingDelivers(q: Query, env: Env, events: seq<Bridge.Event>)
    requires Handle(q, env).Streaming?
    ensures var b := Serve(q, env, events).bridge;
            && b.headersSent
            && b.written == Bridge.Delivered(events)
            && Bridge.Flatten(b.written) == Bridge.Flatten(Bridge.StdoutChunks(events))
            && b.errorReplies == []
  {
    var s := Handle(q, env).bridge;
    Bridge.RunWritten(s, events);
    Bridge.DeliveredBytes(events);
    Bridge.RunRepliesConsistent(s, events);
    Bridge.RunKeepsHeaders(s, events);
  }

  /** Once streaming, `hasData` records whether any stdout chunk was
      non-empty, and the tool's stderr has no effect on the request. */
  lemma StreamingIgnoresStderr(q: Query, env: Env, events: seq<Bridge.Event>)
    requires Handle(q, env).Streaming?
    ensures Serve(q, env, events).bridge.hasData <==> Bridge.SawData(events)
    ensures Serve(q, env, Bridge.DropStderr(events)) == Serve(q, env, events)
  {
    var s := Handle(q, env).bridge;
    Bridge.RunHasData(s, events);
    Bridge.StderrIgnored(s, events);
  }

  /** The response is ended exactly when some `close` reported exit code 0
      after at least one non-empty chunk; a failing close leaves it open. */
  lemma StreamingEnds(q: Query, env: Env, events: seq<Bridge.Event>)
    requires Handle(q, env).Streaming?
    ensures Serve(q, env, events).bridge.ended <==>
              exists i :: 0 <= i < |events| && events[i] == Bridge.Close(Some(0))
                                            && Bridge.SawData(events[..i])
  {
    var s := Handle(q, env).bridge;
    Bridge.RunEnded(s, events);
    assert forall i :: 0 <= i < |events| ==>
             (Bridge.SucceedsAt(s, events, i) <==>
                events[i] == Bridge.Close(Some(0)) && Bridge.SawData(events[..i]));
  }

  /** The cookie file written for a streaming request is unlinked once for
      each `close` of the process, whatever its exit code, and not before;
      the single `close` of a process therefore removes it exactly once. */
  lemma {:induction false} StreamingRemovesJar(q: Query, env: Env, events: seq<Bridge.Event>)
    requires Handle(q, env).Streaming?
    ensures Serve(q, env, events).bridge.cookieFile == JarFor(env)
    ensures JarFor(env).Some? ==> Serve(q, env, events).bridge.unlinks == Bridge.Closes(events)
    ensures JarFor(env).None? ==> Serve(q, env, events).bridge.unlinks == 0
  {
    var s := Handle(q, env).bridge;
    Bridge.RunUnlinks(s, events);
  }

  /** A synchronous exception after the cookie file was written is answered
      with a 500 by the outer `catch`, but the close handler was never
      registered, so the file is never removed; when `writeHead` threw, the
      process is running with nobody listening. */
  lemma ThrowLeavesJar(q: Query, env: Env)
    requires Truthy(q.url) && env.binaryPresent && env.jarWriteOk
    requires Cookies.WantsJar(env.cookieSource)
    requires SpawnRejects(Arguments.BuildArgs(q.url.value, q.format, JarFor(env)))
             || !Headers.HeaderValueValid(Headers.Disposition(q.format))
    ensures Handle(q, env).Refused?
    ensures Handle(q, env).reply == Reply(500, InternalFailure)
    ensures Handle(q, env).leftover == Some(Cookies.JarPath(env.tmpDir, env.now))
    ensures Handle(q, env).spawned.Some? <==>
              !SpawnRejects(Arguments.BuildArgs(q.url.value, q.format, JarFor(env)))
  {
  }

  /** The request decides both throws: a NUL in the url stops `spawn`, and a
      format with a character `writeHead` refuses (a line break, say) starts
      the process and then fails at the headers. */
  lemma RequestDecidesThrows(q: Query, env: Env)
    requires Truthy(q.url) && env.binaryPresent
    requires Cookies.WantsJar(env.cookieSource) ==> env.jarWriteOk
    ensures HasNul(q.url.value) ==> Handle(q, env) == Refused(Reply(500, InternalFailure), None, JarFor(env))
    ensures q.format.Some? && '\n' in q.format.value
              && !SpawnRejects(Arguments.BuildArgs(q.url.value, q.format, JarFor(env))) ==>
              && Handle(q, env).Refused?
              && Handle(q, env).spawned == Some(Arguments.BuildArgs(q.url.value, q.format, JarFor(env)))
  {
    var argv := Arguments.BuildArgs(q.url.value, q.format, JarFor(env));
    if HasNul(q.url.value) {
      assert argv[|argv| - 1] == q.url.value;
    }
    if q.format.Some? && '\n' in q.format.value {
      Headers.HeadersValidity(q.format);
      var j :| 0 <= j < |q.format.value| && q.format.value[j] == '\n';
      assert !Headers.HeaderChar(Headers.Extension(q.format)[j]);
    }
  }
}
