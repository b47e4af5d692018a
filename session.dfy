/** `send_log_data`: one client session. The request is validated, the
    snapshot sent, the file tailed when asked, and the exception that ends
    the session decides what the client sees and what is logged. */
module SessionHandler {
  import opened Errors
  import opened PathValidator
  import opened TailQuery
  import opened Lines
  import opened LogFile
  import opened Snapshot
  import opened Channel
  import opened TailFollower

  const RECHECK_FAILED: string := "Forbidden or not found"

  /** What `urlparse` makes of the request path: nothing, when it raises,
      or the path and the query that `parse_qs` reads. */
  datatype Request = Unparseable | Url(path: string, query: Query)

  /** The server's surroundings: the working directory, the allowed
      prefixes, and the regular files with their contents. */
  datatype Env = Env(cwd: string, roots: seq<string>, files: map<string, string>)

  /** How a session ends, as the disconnect log line records it. */
  datatype Outcome =
    | Finished                    // returned normally; logged without an exception
    | Reported(error: Exception)  // a `ValueError`: sent to the client, then logged
    | Logged(error: Exception)    // any other exception: only logged
    | StillFollowing              // the tail loop has not ended when the ticks run out

  /** What the client was sent, whether the server closed the connection,
      and how the session ended. */
  datatype Transcript = Transcript(msgs: seq<Msg>, closed: bool, outcome: Outcome)

  /** Lines 33-40: parse the request, resolve and check the path, check it
      again, and read the tail flag, stopping at the first exception. */
  function Admit(env: Env, req: Request): (r: Result<(string, bool)>)
    requires IsAbsolute(env.cwd)
    ensures r.Ok? ==> req.Url? && r.value.0 == Resolve(env.cwd, req.path) &&
                      IsFileAccessible(env.roots, env.files.Keys, r.value.0) &&
                      TailFlag(req.query) == Ok(r.value.1)
    ensures r.Err? ==> r.error.ValueError? || r.error == KeyError(TAIL_KEY)
    ensures req.Unparseable? ==> r == Err(ValueError(PARSE_FAILED))
    ensures r.Ok? <==> req.Url? && IsFileAccessible(env.roots, env.files.Keys, Resolve(env.cwd, req.path)) &&
                       TailFlag(req.query).Ok?
  {
    match req
    case Unparseable => Err(ValueError(PARSE_FAILED))
    case Url(path, query) =>
      match GetAbsoluteFilePath(env.cwd, env.roots, env.files.Keys, path)
      case Err(e) => Err(e)
      case Ok(filePath) =>
        if !IsFileAccessible(env.roots, env.files.Keys, filePath) then Err(ValueError(RECHECK_FAILED))
        else
          match TailFlag(query)
          case Err(e) => Err(e)
          case Ok(tail) => Ok((filePath, tail))
  }

  /** `handle_error`: the error payload and then `close()`; a failed send
      skips the close, and either failure is swallowed. */
  function ReportError(open: bool, message: string): (t: Transcript)
    ensures |t.msgs| <= 1 && (t.msgs != [] <==> open)
    ensures t.closed ==> t.msgs == [ErrorPayload(message)]
    ensures t.outcome == Reported(ValueError(message))
  {
    Transcript(if open then [ErrorPayload(message)] else [], open, Reported(ValueError(message)))
  }

  /** `send_file_content` on a file with `contents`: the snapshot, then, when
      asked, the tail loop on the same handle, from the end of the file. */
  function Deliver(contents: string, tail: bool, open: bool, start: int, ticks: seq<Tick>): (t: Transcript)
    ensures !t.closed
    ensures open <==> t.msgs != []
    ensures open ==> t.msgs[0] == Snapshot(LastLines(contents))
    ensures t.outcome == Finished <==> open && !tail
    ensures t.outcome.Logged? ==> t.outcome.error == ConnectionClosed || t.outcome.error == PingError
  {
    if !open then Transcript([], false, Logged(ConnectionClosed))
    else if !tail then Transcript([Snapshot(LastLines(contents))], false, Finished)
    else
      var r := Run(TailState(contents, |contents|, start, start, true), ticks);
      Transcript([Snapshot(LastLines(contents))] + r.out, false,
                 if r.status.Following? then StillFollowing else Logged(r.status.error))
  }

  /** `send_log_data`: a `ValueError` is reported to the client, any other
      exception only logged. */
  function Session(env: Env, req: Request, open: bool, start: int, ticks: seq<Tick>): (t: Transcript)
    requires IsAbsolute(env.cwd)
    ensures t.outcome == Finished <==> open && Admit(env, req).Ok? && !Admit(env, req).value.1
    ensures t.outcome.Logged? ==> t.outcome.error in {ConnectionClosed, PingError, KeyError(TAIL_KEY)}
    ensures t.outcome.Reported? <==> Admit(env, req).Err? && Admit(env, req).error.ValueError?
  {
    match Admit(env, req)
    case Ok((filePath, tail)) => Deliver(env.files[filePath], tail, open, start, ticks)
    case Err(e) =>
      if e.ValueError? then ReportError(open, e.message) else Transcript([], false, Logged(e))
  }

  /** A path that resolves outside every allowed prefix is refused with
      `Forbidden` before anything else is looked at: whether the file exists,
      and whether the query would raise. No file content is sent. */
  lemma ForbiddenIsNeverRead(env: Env, path: string, query: Query, open: bool, start: int, ticks: seq<Tick>)
    requires IsAbsolute(env.cwd)
    requires !IsFilePathAllowed(env.roots, Resolve(env.cwd, path))
    ensures Session(env, Url(path, query), open, start, ticks) ==
              Transcript(if open then [ErrorPayload(FORBIDDEN)] else [], open, Reported(ValueError(FORBIDDEN)))
  {
  }

  /** A directory-traversal attempt from a server started at most two
      directories below the root, with `/data` the only allowed prefix: the
      client gets the `Forbidden` payload and nothing from `/etc/passwd`,
      even when that file exists. */
  lemma TraversalIsReported(segs: seq<string>, files: map<string, string>, query: Query,
                            open: bool, start: int, ticks: seq<Tick>)
    requires AllClean(segs) && |segs| <= 2
    ensures Session(Env("/" + JoinSlash(segs), ["/data"], files), Url("/../../etc/passwd", query), open, start, ticks)
            == Transcript(if open then [ErrorPayload(FORBIDDEN)] else [], open, Reported(ValueError(FORBIDDEN)))
  {
    var env := Env("/" + JoinSlash(segs), ["/data"], files);
    TraversalForbidden(segs, files.Keys);
    assert !IsFilePathAllowed(env.roots, Resolve(env.cwd, "/../../etc/passwd"));
    ForbiddenIsNeverRead(env, "/../../etc/passwd", query, open, start, ticks);
  }

  /** `Not Found` comes only from inside the allowed prefixes: the path
      passed the prefix test and names no regular file. */
  lemma NotFoundOnlyInsideRoots(env: Env, req: Request, open: bool, start: int, ticks: seq<Tick>)
    requires IsAbsolute(env.cwd)
    ensures Session(env, req, open, start, ticks).outcome == Reported(ValueError(NOT_FOUND)) <==>
              req.Url? && IsFilePathAllowed(env.roots, Resolve(env.cwd, req.path)) &&
              Resolve(env.cwd, req.path) !in env.files
  {
    if req.Url? {
      var a := Admit(env, req);
      var g := GetAbsoluteFilePath(env.cwd, env.roots, env.files.Keys, req.path);
      if g.Ok? {
        assert IsFileAccessible(env.roots, env.files.Keys, g.value);
        assert a.Ok? || a == Err(KeyError(TAIL_KEY));
      }
    }
  }

  /** The second accessibility check at line 36 never fails: with the
      filesystem unchanged, what `get_absolute_file_path` returns is a
      regular file inside the allowed prefixes. */
  lemma RecheckNeverFails(env: Env, req: Request)
    requires IsAbsolute(env.cwd)
    ensures Admit(env, req) != Err(ValueError(RECHECK_FAILED))
  {
    if req.Url? {
      var g := GetAbsoluteFilePath(env.cwd, env.roots, env.files.Keys, req.path);
      if g.Ok? {
        ServedPathIsContained(env.cwd, env.roots, env.files.Keys, req.path);
      }
    }
  }

  /** A request whose query has parameters but no `tail` raises `KeyError`
      after the path checks pass: the client gets neither the snapshot nor
      an error payload, and the connection is left open. */
  lemma MissingTailKeySendsNothing(env: Env, path: string, query: Query, open: bool, start: int, ticks: seq<Tick>)
    requires IsAbsolute(env.cwd)
    requires IsFilePathAllowed(env.roots, Resolve(env.cwd, path)) && Resolve(env.cwd, path) in env.files
    requires |query| > 0 && TAIL_KEY !in query
    ensures Session(env, Url(path, query), open, start, ticks) == Transcript([], false, Logged(KeyError(TAIL_KEY)))
  {
    RecheckNeverFails(env, Url(path, query));
  }

  /** The snapshot is the first payload and is sent at most once, and it
      holds the last lines of the resolved file inside the allowed prefixes. */
  lemma SnapshotFirstAndOnce(env: Env, req: Request, open: bool, start: int, ticks: seq<Tick>)
    requires IsAbsolute(env.cwd)
    ensures var t := Session(env, req, open, start, ticks);
      forall i :: 0 <= i < |t.msgs| && t.msgs[i].Snapshot? ==>
        i == 0 && req.Url? &&
        IsFileAccessible(env.roots, env.files.Keys, Resolve(env.cwd, req.path)) &&
        t.msgs[i].lines == LastLines(env.files[Resolve(env.cwd, req.path)])
  {
    var a := Admit(env, req);
    if a.Ok? {
      DeliverTailIsChunksAndPings(env.files[a.value.0], a.value.1, open, start, ticks);
    }
  }

  /** After the snapshot, `send_file_content` sends only file text and probes. */
  lemma DeliverTailIsChunksAndPings(contents: string, tail: bool, open: bool, start: int, ticks: seq<Tick>)
    ensures var t := Deliver(contents, tail, open, start, ticks);
      forall i :: 0 < i < |t.msgs| ==> t.msgs[i].Chunk? || t.msgs[i].Ping?
  {
    if open && tail {
      var st := TailState(contents, |contents|, start, start, true);
      var r := Run(st, ticks);
      RunSendsChunksAndPings(st, ticks);
      var msgs := [Snapshot(LastLines(contents))] + r.out;
      forall i | 0 < i < |msgs|
        ensures msgs[i].Chunk? || msgs[i].Ping?
      {
        assert msgs[i] == r.out[i - 1] && r.out[i - 1] in r.out;
      }
    }
  }

  /** A request for a regular file inside the allowed prefixes, with a
      readable tail flag, on an open connection, is served: the snapshot of
      the resolved file is the first payload, and without tailing it is the
      only one and the session returns normally. */
  lemma AdmittedIsServed(env: Env, req: Request, open: bool, start: int, ticks: seq<Tick>)
    requires IsAbsolute(env.cwd) && open && req.Url?
    requires IsFileAccessible(env.roots, env.files.Keys, Resolve(env.cwd, req.path))
    requires TailFlag(req.query).Ok?
    ensures var t := Session(env, req, open, start, ticks);
      var snap := Snapshot(LastLines(env.files[Resolve(env.cwd, req.path)]));
      t.msgs != [] && t.msgs[0] == snap &&
      (TailFlag(req.query) == Ok(false) ==> t == Transcript([snap], false, Finished))
  {
    var a := Admit(env, req);
    assert a == Ok((Resolve(env.cwd, req.path), TailFlag(req.query).value));
  }

  /** Chunks and probes go out only when the query asked for tailing. */
  lemma TailOnlyWhenRequested(env: Env, req: Request, open: bool, start: int, ticks: seq<Tick>)
    requires IsAbsolute(env.cwd)
    ensures var t := Session(env, req, open, start, ticks);
      (exists i :: 0 <= i < |t.msgs| && (t.msgs[i].Chunk? || t.msgs[i].Ping?)) ==>
        req.Url? && TailFlag(req.query) == Ok(true)
  {
    var a := Admit(env, req);
    var t := Session(env, req, open, start, ticks);
    if !(a.Ok? && open && a.value.1) {
      forall i | 0 <= i < |t.msgs|
        ensures !(t.msgs[i].Chunk? || t.msgs[i].Ping?)
      {
      }
    }
  }

  /** An error payload is sent exactly when a `ValueError` ends the session
      and the connection is still open, and then it is the only payload,
      it carries the exception's message, and the server closes. */
  lemma ErrorPayloadOnlyForRejections(env: Env, req: Request, open: bool, start: int, ticks: seq<Tick>)
    requires IsAbsolute(env.cwd)
    ensures var t := Session(env, req, open, start, ticks);
      ((exists i :: 0 <= i < |t.msgs| && t.msgs[i].ErrorPayload?) <==> open && t.outcome.Reported?) &&
      (t.outcome.Reported? ==>
        t.outcome.error.ValueError? && t.closed == open &&
        t.msgs == if open then [ErrorPayload(t.outcome.error.message)] else []) &&
      (!t.outcome.Reported? ==> !t.closed)
  {
    var a := Admit(env, req);
    if a.Ok? {
      DeliverTailIsChunksAndPings(env.files[a.value.0], a.value.1, open, start, ticks);
    } else if a.error.ValueError? && open {
      assert Session(env, req, open, start, ticks).msgs[0].ErrorPayload?;
    }
  }

  /** A session still following its file has sent the snapshot of the file
      as it was at connect time and then every text appended since, in
      order, with nothing lost or repeated. */
  lemma FollowingSessionDeliversEverything(env: Env, req: Request, open: bool, start: int, ticks: seq<Tick>)
    requires IsAbsolute(env.cwd)
    requires Session(env, req, open, start, ticks).outcome == StillFollowing
    ensures var t := Session(env, req, open, start, ticks);
      req.Url? && |t.msgs| >= 1 &&
      t.msgs[0] == Snapshot(LastLines(env.files[Resolve(env.cwd, req.path)])) &&
      Delivered(t.msgs[1..]) == Appended(ticks)
  {
    var a := Admit(env, req);
    var contents := env.files[a.value.0];
    var st := TailState(contents, |contents|, start, start, true);
    var r := Run(st, ticks);
    TailDeliversAppended(st, ticks);
    var msgs := [Snapshot(LastLines(contents))] + r.out;
    assert msgs[1..] == r.out;
  }

  /** `handle_error(websocket, path, exception)`: send the error payload,
      close only when the send succeeded, and swallow either failure. */
  method HandleError(conn: Connection, message: string)
    modifies conn
    ensures conn.sent == old(conn.sent) + (if old(conn.open) then [ErrorMarkup(message)] else [])
    ensures conn.closed == (old(conn.closed) || old(conn.open))
  {
    var delivered := conn.Send(ErrorMarkup(message));
    if delivered {
      conn.Close();
    }
  }

  /** `send_file_content(websocket, file_path, tail)` on a file holding
      `contents`: what the connection receives and how the session ends are
      what `Deliver` says. */
  method SendFileContent(conn: Connection, contents: string, tail: bool, start: int, ticks: seq<Tick>, convert: string -> string)
    returns (outcome: Outcome)
    modifies conn
    ensures var t := Deliver(contents, tail, old(conn.open), start, ticks);
      outcome == t.outcome && conn.sent == old(conn.sent) + RenderAll(t.msgs, convert)
    ensures conn.closed == old(conn.closed)
  {
    ghost var sent0 := conn.sent;
    ghost var first := [Snapshot(LastLines(contents))];
    var f := new LogHandle.Open(contents);
    var snapshot := GetLastLines(f, convert);
    var delivered := conn.Send(snapshot);
    if !delivered {
      assert conn.sent == sent0 + RenderAll([], convert);
      return Logged(ConnectionClosed);
    }
    assert conn.sent == sent0 + RenderAll(first, convert);
    if tail {
      ghost var r := Run(TailState(contents, |contents|, start, start, true), ticks);
      var status, now, last := TailFile(conn, f, start, ticks, convert);
      SentGrows(sent0, first, r.out, convert);
      outcome := if status.Following? then StillFollowing else Logged(status.error);
    } else {
      outcome := Finished;
    }
  }

  /** `send_log_data(websocket, path)`: what the connection receives, whether
      it is closed and how the session ends are what `Session` says. */
  method SendLogData(conn: Connection, env: Env, req: Request, start: int, ticks: seq<Tick>, convert: string -> string)
    returns (outcome: Outcome)
    requires IsAbsolute(env.cwd)
    modifies conn
    ensures var t := Session(env, req, old(conn.open), start, ticks);
      outcome == t.outcome && conn.sent == old(conn.sent) + RenderAll(t.msgs, convert) &&
      conn.closed == (old(conn.closed) || t.closed)
  {
    var admitted := Admit(env, req);
    match admitted
    case Ok((filePath, tail)) =>
      outcome := SendFileContent(conn, env.files[filePath], tail, start, ticks, convert);
    case Err(e) =>
      if e.ValueError? {
        HandleError(conn, e.message);
        outcome := Reported(e);
      } else {
        outcome := Logged(e);
      }
  }
}
