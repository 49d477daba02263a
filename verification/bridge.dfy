/** The stream bridge: the handlers registered on the spawned tool's stdout,
    stderr, `close` and `error` events, as a state machine over those events. */
module Bridge {
  import opened Common

  type Chunk = seq<byte>

  /** What the child process can report to the handler. */
  datatype Event =
    | Stdout(chunk: Chunk)          // a `data` event on stdout
    | Stderr(data: Chunk)           // a `data` event on stderr
    | Close(code: Option<int>)      // `close`; `None` when a signal ended the process
    | SpawnError                    // the process `error` event

  /** Error bodies the bridge can send with status 500. */
  const CloseFailure: string := "Erro ao processar o download."
  const SpawnFailure: string := "Erro interno ao processar o download."

  /** The response and cookie-file bookkeeping the handlers touch. */
  datatype State = State(
    hasData: bool,               // some non-empty stdout chunk was forwarded
    headersSent: bool,           // `reply.raw.headersSent`
    written: seq<Chunk>,         // chunks written to the response body, in order
    ended: bool,                 // `reply.raw.end()` was called
    errorReplies: seq<string>,   // bodies of the 500 replies sent by the handlers
    cookieFile: Option<string>,  // `cookieFilePath`
    unlinks: nat)                // `fs.unlink` calls on the cookie file

  /** Replies 500 with `message`; sending commits the headers. */
  function SendError(s: State, message: string): State
  {
    s.(headersSent := true, errorReplies := s.errorReplies + [message])
  }

  /** The close handler's outcome test: the download failed when the exit
      code is not 0 (a signal counts as failure) or nothing was received. */
  predicate Failed(code: Option<int>, hasData: bool)
  {
    code != Some(0) || !hasData
  }

  /** One event through the registered handlers. */
  function Step(s: State, e: Event): (t: State)
    ensures t.cookieFile == s.cookieFile && (s.headersSent ==> t.headersSent)
    ensures e.Stdout? ==> t.hasData == (s.hasData || |e.chunk| > 0)
    ensures e.Stdout? ==> t.written == s.written + (if |e.chunk| > 0 then [e.chunk] else [])
    ensures e.Stderr? ==> t == s
    ensures e.Stdout? && |e.chunk| == 0 ==> t == s
    ensures e.Stdout? ==> t.headersSent == (s.headersSent || |e.chunk| > 0) && t.errorReplies == s.errorReplies
    ensures !e.Stdout? ==>
              (t.headersSent <==> s.headersSent || |t.errorReplies| > |s.errorReplies| || (e.Close? && !Failed(e.code, s.hasData)))
    ensures !e.Stdout? ==> t.written == s.written && t.hasData == s.hasData
    ensures e.Close? ==> t.unlinks == s.unlinks + (if Truthy(s.cookieFile) then 1 else 0)
    ensures e.Close? ==> (t.ended <==> s.ended || !Failed(e.code, s.hasData))
    ensures !e.Close? ==> t.unlinks == s.unlinks && t.ended == s.ended
    ensures |t.errorReplies| > |s.errorReplies| <==>
              !s.headersSent && (e.SpawnError? || (e.Close? && Failed(e.code, s.hasData)))
    ensures t.errorReplies == s.errorReplies || t.errorReplies == s.errorReplies + [
              if e.SpawnError? then SpawnFailure else CloseFailure]
  {
    match e
    case Stdout(chunk) =>
      // `write` sends the implicit headers when none were sent yet
      if |chunk| > 0 then s.(hasData := true, headersSent := true, written := s.written + [chunk]) else s
    case Stderr(_) => s
    case Close(code) =>
      var s1 := if Truthy(s.cookieFile) then s.(unlinks := s.unlinks + 1) else s;
      if Failed(code, s1.hasData) then
        (if !s1.headersSent then SendError(s1, CloseFailure) else s1)
      else s1.(ended := true, headersSent := true)  // `end` sends the implicit headers too
    case SpawnError =>
      if !s.headersSent then SendError(s, SpawnFailure) else s
  }

  /** The state after `events`, handled in order. */
  function Run(s: State, events: seq<Event>): State
    decreases |events|
  {
    if |events| == 0 then s else Step(Run(s, events[..|events| - 1]), events[|events| - 1])
  }

  /** The non-empty stdout chunks of `events`, in order. */
  function Delivered(events: seq<Event>): seq<Chunk>
    decreases |events|
  {
    if |events| == 0 then []
    else
      var e := events[|events| - 1];
      Delivered(events[..|events| - 1]) + (if e.Stdout? && |e.chunk| > 0 then [e.chunk] else [])
  }

  /** Some stdout chunk among `events` is non-empty. */
  predicate SawData(events: seq<Event>)
  {
    exists i :: 0 <= i < |events| && events[i].Stdout? && |events[i].chunk| > 0
  }

  /** Number of `close` events. */
  function Closes(events: seq<Event>): nat
    decreases |events|
  {
    if |events| == 0 then 0
    else Closes(events[..|events| - 1]) + (if events[|events| - 1].Close? then 1 else 0)
  }

  /** `events` without its stderr events. */
  function DropStderr(events: seq<Event>): (r: seq<Event>)
    ensures forall i :: 0 <= i < |r| ==> !r[i].Stderr?
    decreases |events|
  {
    if |events| == 0 then []
    else
      var e := events[|events| - 1];
      DropStderr(events[..|events| - 1]) + (if e.Stderr? then [] else [e])
  }

  /** Concatenation of chunks: the bytes the client receives. */
  function Flatten(chunks: seq<Chunk>): seq<byte>
    decreases |chunks|
  {
    if |chunks| == 0 then [] else Flatten(chunks[..|chunks| - 1]) + chunks[|chunks| - 1]
  }

  /** Exactly the non-empty stdout chunks are written, in arrival order, and
      nothing else is. */
  lemma {:induction false} RunWritten(s: State, events: seq<Event>)
    ensures Run(s, events).written == s.written + Delivered(events)
    decreases |events|
  {
    if |events| > 0 {
      RunWritten(s, events[..|events| - 1]);
    }
  }

  /** Dropping the empty chunks does not change the bytes: the client's body
      is the concatenation of every stdout chunk in order. */
  lemma {:induction false} DeliveredBytes(events: seq<Event>)
    ensures Flatten(Delivered(events)) == Flatten(StdoutChunks(events))
    decreases |events|
  {
    if |events| > 0 {
      var init := events[..|events| - 1];
      var e := events[|events| - 1];
      DeliveredBytes(init);
      FlattenSnoc(Delivered(init), if e.Stdout? && |e.chunk| > 0 then [e.chunk] else []);
      FlattenSnoc(StdoutChunks(init), if e.Stdout? then [e.chunk] else []);
      if e.Stdout? && |e.chunk| == 0 {
        assert e.chunk == [];
      }
    }
  }

  /** Every stdout chunk of `events`, empty ones included. */
  function StdoutChunks(events: seq<Event>): seq<Chunk>
    decreases |events|
  {
    if |events| == 0 then []
    else
      var e := events[|events| - 1];
      StdoutChunks(events[..|events| - 1]) + (if e.Stdout? then [e.chunk] else [])
  }

  /** Flattening distributes over appending at most one chunk. */
  lemma FlattenSnoc(chunks: seq<Chunk>, more: seq<Chunk>)
    requires |more| <= 1
    ensures Flatten(chunks + more) == Flatten(chunks) + (if |more| == 1 then more[0] else [])
  {
    if |more| == 0 {
      assert chunks + more == chunks;
    } else {
      assert (chunks + more)[..|chunks + more| - 1] == chunks;
    }
  }

  /** `hasData` holds after a run exactly when it held before or some stdout
      chunk of the run was non-empty. */
  lemma {:induction false} RunHasData(s: State, events: seq<Event>)
    ensures Run(s, events).hasData <==> s.hasData || SawData(events)
    decreases |events|
  {
    if |events| > 0 {
      var init := events[..|events| - 1];
      RunHasData(s, init);
      if SawData(init) {
        var i :| 0 <= i < |init| && init[i].Stdout? && |init[i].chunk| > 0;
        assert events[i] == init[i];
      }
    }
  }

  /** The cookie file is unlinked once per `close` event when it exists, and
      never otherwise; in particular never on a spawn error alone. */
  lemma {:induction false} RunUnlinks(s: State, events: seq<Event>)
    ensures Run(s, events).cookieFile == s.cookieFile
    ensures Run(s, events).unlinks == s.unlinks + (if Truthy(s.cookieFile) then Closes(events) else 0)
    decreases |events|
  {
    if |events| > 0 {
      RunUnlinks(s, events[..|events| - 1]);
    }
  }

  /** Stderr output never reaches the response or any other part of the state. */
  lemma {:induction false} StderrIgnored(s: State, events: seq<Event>)
    ensures Run(s, DropStderr(events)) == Run(s, events)
    decreases |events|
  {
    if |events| > 0 {
      var init := events[..|events| - 1];
      var e := events[|events| - 1];
      StderrIgnored(s, init);
      var d := DropStderr(init);
      if e.Stderr? {
        assert DropStderr(events) == d + [];
        assert d + [] == d;
      } else {
        assert DropStderr(events) == d + [e];
        assert (d + [e])[..|d + [e]| - 1] == d;
      }
    }
  }

  /** At most one error reply is ever sent, and only before the headers were
      committed: once they are, no handler replies 500. Body bytes and `end`
      commit the headers too, so no 500 follows them. */
  predicate RepliesConsistent(s: State)
  {
    |s.errorReplies| <= 1 && (|s.errorReplies| == 1 ==> s.headersSent) &&
    (|s.written| > 0 ==> s.headersSent) && (s.hasData ==> s.headersSent) &&
    (s.ended ==> s.headersSent)
  }

  lemma {:induction false} RunRepliesConsistent(s: State, events: seq<Event>)
    requires RepliesConsistent(s)
    ensures RepliesConsistent(Run(s, events))
    ensures s.headersSent ==> Run(s, events).errorReplies == s.errorReplies
    ensures |s.written| > 0 ==> Run(s, events).errorReplies == s.errorReplies
    ensures s.ended ==> Run(s, events).errorReplies == s.errorReplies
    decreases |events|
  {
    if |events| > 0 {
      RunRepliesConsistent(s, events[..|events| - 1]);
      RunKeepsHeaders(s, events[..|events| - 1]);
    }
  }

  /** Once committed, the headers stay committed. */
  lemma {:induction false} RunKeepsHeaders(s: State, events: seq<Event>)
    ensures s.headersSent ==> Run(s, events).headersSent
    decreases |events|
  {
    if |events| > 0 {
      RunKeepsHeaders(s, events[..|events| - 1]);
    }
  }

  /** A successful close: exit code 0 after data was received. */
  predicate SucceedsAt(s: State, events: seq<Event>, i: int)
    requires 0 <= i < |events|
  {
    events[i] == Close(Some(0)) && (s.hasData || SawData(events[..i]))
  }

  /** The response is ended exactly when some `close` reported exit code 0
      after at least one non-empty chunk. */
  lemma {:induction false} RunEnded(s: State, events: seq<Event>)
    ensures Run(s, events).ended <==>
              s.ended || exists i :: 0 <= i < |events| && SucceedsAt(s, events, i)
    decreases |events|
  {
    if |events| > 0 {
      var n := |events| - 1;
      var init := events[..n];
      RunEnded(s, init);
      RunHasData(s, init);
      assert events[..n] == init;
      forall i | 0 <= i < n
        ensures SucceedsAt(s, events, i) <==> SucceedsAt(s, init, i)
      {
        assert events[i] == init[i];
        assert events[..i] == init[..i];
      }
      if Run(s, events).ended && !s.ended && !Run(s, init).ended {
        assert SucceedsAt(s, events, n);
      }
      if !Run(s, events).ended {
        forall i | 0 <= i < |events|
          ensures !SucceedsAt(s, events, i)
        {
          if i == n {
            assert !(events[n] == Close(Some(0)) && Run(s, init).hasData);
          }
        }
      }
    }
  }

  /** A failed close once the headers are committed changes nothing about the
      response: it is neither ended nor answered with an error. */
  lemma FailedCloseLeavesResponseOpen(s: State, code: Option<int>)
    requires s.headersSent && !s.ended && Failed(code, s.hasData)
    ensures var t := Step(s, Close(code));
            !t.ended && t.errorReplies == s.errorReplies && t.written == s.written
  {
  }
}
