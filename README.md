# long-bottom: a verified model of the log-tail session

`app.py` is a websocket server. A client connects with a path such as
`/logs/app.log?tail=1` and gets back two things:

1. a snapshot: the last 1000 lines of that file, joined with spaces and converted from
   terminal colours to HTML;
2. when `tail=1` is given, every text appended to the file afterwards.

While tailing, the server sends a text heartbeat `ping` when it has heard nothing for 15
seconds. It drops a peer that does not answer `pong` within 5 seconds. The server resolves
the request path against its working directory and serves a file only when the resolved
path starts with one of the allowed prefixes.

This project models the session logic in Dafny, one module per part:

| file | module | what it models |
|---|---|---|
| `errors.dfy` | `Errors` | the exceptions the session tells apart (`ValueError`, `KeyError`, the `Ping Error`, a send on a closed connection) and a `Result` type |
| `paths.dfy` | `PathValidator` | `os.path.abspath("." + path)` as a pure function. It covers `str.split('/')`, `posixpath.join` and the component loop of `posixpath.normpath`, including POSIX's two-leading-slash rule. It also has `is_file_path_allowed`, `get_absolute_file_path` and `is_file_accessible` |
| `query.dfy` | `TailQuery` | the tail-flag expression of line 40 over the map `parse_qs` returns |
| `lines.dfy` | `Lines` | Python's line iteration over a text file, with each line keeping its `'\n'`. It also has the last-`n` window and `' '.join` |
| `logfile.dfy` | `LogFile` | an open text file as a class with a read cursor (`readline`, `read`), and the external writer that appends to it |
| `snapshot.dfy` | `Snapshot` | `deque(file, NUM_LINES)` as a ring buffer over an array, filled in place by a loop, and `get_last_lines` |
| `channel.dfy` | `Channel` | the payloads, the error markup, and the connection as a class that records what it delivered |
| `tail.dfy` | `TailFollower` | `tail_file` and `send_heartbeat`. A reference state machine (`Step`, `Run`) over an integer clock is driven by environment ticks. The imperative loop is proved to follow it |
| `session.dfy` | `SessionHandler` | `send_log_data`, `send_file_content` and `handle_error`: a reference function `Session` from a request to a transcript, and the imperative handler proved against it |

Parts of the surroundings are parameters:

- The working directory, the allowed prefixes and the regular files with their contents form `Env`.
- What `urlparse` and `parse_qs` produce is `Request`.
- The terminal-colour converter is `convert`, an uninterpreted `string -> string`.
- The clock, the text other processes append, the peer hanging up and the peer's replies to probes come as a sequence of `Tick`s.

Quirks of `app.py` that the model keeps:

- **A query with parameters but no `tail` key raises `KeyError`.** Tailing is not simply turned off. Line 40 evaluates `query['tail']` on a non-empty map. The `KeyError` reaches the generic handler, so the client gets neither the snapshot nor an error payload (`SessionHandler.MissingTailKeySendsNothing`). An empty query gives `false`.
- **After a failed heartbeat the handler does not close the connection.** The `Ping Error` and a send on a closed connection are only logged, through lines 47-48. The model's `closed` flag records only the server's own `close()` call (`SessionHandler.ErrorPayloadOnlyForRejections`). Whatever the websocket library does once the handler returns is not part of this model.
- **The heartbeat clock is reset only after a successful probe.** A failed probe raises, which ends the loop, so the difference cannot be observed.
- **The two converter calls differ.** The snapshot calls the converter's `convert` method (line 161). The tail loop calls the converter object itself (line 191). Whether the second call works depends on the converter library, which is not part of this model. Both are modelled as the same `convert`.
- **A reply after exactly 5 seconds counts as in time.** This is a modelling choice: `asyncio.wait_for(..., 5)` at line 214 is the only timeout, and at its boundary whether the reply or the timeout wins is a race. A reply counts when its delay is at most `HEARTBEAT_TIMEOUT`.

## Model

| member | source | states |
|---|---|---|
| PathValidator.SplitJoin | app.py:90 | joining slash-free pieces with `/` and splitting again gives the pieces back (the inverse of `JoinSplit`) |
| PathValidator.JoinSplit | app.py:90 | splitting a path on `/` and joining again gives the path back |
| PathValidator.JoinPath | app.py:90 | `posixpath.join`: an absolute second part replaces the first; otherwise the result starts with the first part, ends with the second, and between them adds a single `/` exactly when the first part is non-empty and does not already end in `/`, and nothing otherwise |
| PathValidator.NormPath | app.py:90 | `posixpath.normpath` of an absolute path is absolute, and it starts with exactly two slashes if and only if the input starts with exactly two (the POSIX rule) |
| PathValidator.Resolve | app.py:90 | `os.path.abspath("." + path)` is absolute, has no `.` or `..` component, and is a fixed point of normalisation |
| PathValidator.Normalize | app.py:90 | normalising a stack of clean components yields only clean components: none empty, `.`, `..` or holding a slash |
| PathValidator.NormalizeClean | app.py:90 | clean components pass through normalisation unchanged, in order |
| PathValidator.ClimbWithin | app.py:90 | each `..` pops exactly one kept component: `k` of them over at least `k` kept components leave the stack without its last `k`, and what follows is normalised from there |
| PathValidator.ClimbToRoot | app.py:90 | `k` `..` components climb past every one of at most `k` kept components, and whatever follows is resolved from the root |
| PathValidator.ResolvedHasNoDotSegments | app.py:90 | a resolved path has no `.` or `..` component, so the prefix test sees the path the file is read from |
| PathValidator.NormPathIdempotent | app.py:90 | resolving is idempotent: a resolved path normalises to itself |
| PathValidator.ResolveDescends | app.py:90 | a request path of clean components is resolved below the working directory: `/sub/app.log` from `/data` is `/data/sub/app.log` |
| PathValidator.ResolveClimbsWithin | app.py:90 | `k` `..` components, at most as many as the working directory has levels, remove its last `k` levels, and the clean components after them are appended to what is left |
| PathValidator.TraversalReachesRoot | app.py:90-93 | from any working directory at most `k` levels deep, `k` `..` components followed by clean ones resolve to the root followed by those clean components |
| PathValidator.TraversalForbidden | app.py:90-93 | `/../../etc/passwd` with the only prefix `/data`, from a working directory at most two levels deep, is refused with `Forbidden` whether or not the file exists |
| PathValidator.IsFilePathAllowed | app.py:112 | a path is allowed if and only if some configured prefix is a string prefix of it; an empty prefix list allows nothing |
| PathValidator.RelativeRootIsInert | app.py:112 | a prefix that does not start with `/` never matches a resolved path: dropping it from the list changes no decision |
| PathValidator.DefaultRootIsInert | app.py:18 | the default prefix `./long-bottom` admits nothing by itself, and keeping it beside the command-line prefixes changes no decision |
| PathValidator.SiblingDirectoryAdmitted | app.py:112 | the prefix is compared letter by letter: with `/data` allowed, `/../database/x`, from any working directory one level below the root, resolves to `/database/x` and is admitted |
| PathValidator.IsFileAccessible | app.py:126 | a path is accessible if and only if it names a regular file and some allowed prefix is a string prefix of it |
| PathValidator.GetAbsoluteFilePath | app.py:90-98 | `Forbidden` if and only if the resolved path is outside every prefix, whether or not it exists; `Not Found` if and only if it is inside some prefix and no regular file; otherwise the resolved path itself |
| PathValidator.ServedPathIsContained | app.py:90-98 | a returned path passes `is_file_accessible` again, is absolute, has no `.` or `..` component and resolves to itself |
| TailQuery.TailFlag | app.py:39-40 | true if and only if the query is non-empty, has `tail`, and its first value is exactly `1`; `KeyError('tail')` if and only if the query is non-empty and has no `tail` key |
| TailQuery.QueryWithoutTail | app.py:40 | an empty query does not tail and does not raise; a query with only another parameter raises `KeyError` |
| TailQuery.FirstValueDecides | app.py:40 | only the first `tail` value counts: `tail=1&tail=0` tails, `tail=0&tail=1` does not |
| Lines.SplitLines | app.py:158 | file iteration yields no line exactly when the text is empty |
| Lines.SplitLinesShape | app.py:158 | file iteration yields non-empty lines, each ending with its `'\n'` except possibly the last, with no `'\n'` inside |
| Lines.SplitLinesConcat | app.py:158 | the lines concatenate back to the whole text: nothing lost or added |
| Lines.LastNSnoc | app.py:158 | appending to a bounded window of `n` items drops the oldest item once the window is full, and otherwise only grows |
| Lines.SnapshotIsTextTail | app.py:158 | the snapshot keeps min(n, 1000) lines, in order, which are exactly the end of the text; a file of at most 1000 lines is kept whole |
| Lines.JoinWithSpace | app.py:159 | `' '.join` starts with the first line, ends with the last, and puts a space right after the first line when there are two or more |
| Lines.JoinWithSpaceAppend | app.py:159 | joining two non-empty runs of lines is joining each and putting exactly one space between them, so every pair of neighbours is separated by one space |
| Lines.JoinWithSpaceLength | app.py:159 | joining k lines adds exactly k - 1 single spaces |
| Lines.JoinKeepsTerminators | app.py:159 | the line terminators stay in the joined text (`a\n b\n`) |
| LogFile.LogHandle.ReadLine | app.py:158 | `readline` returns the next line with its terminator and advances the cursor past it, or returns the empty string exactly at the end of the file |
| LogFile.LogHandle.Read | app.py:188 | `read` returns everything from the cursor to the end and leaves the cursor at the end |
| Snapshot.LineDeque.Append | app.py:158 | a deque of capacity `capacity` holds the last `capacity` lines ever appended, oldest first; appending to a full deque drops the oldest |
| Snapshot.LineDeque.Extend | app.py:158 | extending from a file appends every line left in it, in order, and leaves the cursor at the end of the file |
| Snapshot.LineDeque.Items | app.py:159 | iteration yields the deque's lines, oldest first |
| Snapshot.ReadLastLines | app.py:158 | `deque(file, NUM_LINES)` holds exactly the last 1000 lines of the unread text and leaves the handle at the end of the file, where tailing starts |
| Snapshot.GetLastLines | app.py:158-161 | the snapshot text is the converted space-join of the last 1000 lines, and the handle is left at the end of the file |
| Channel.ErrorMarkup | app.py:234 | the error payload is the message wrapped in exactly `<font color="red"><strong>` and `</strong></font>` |
| Channel.ErrorMarkupRoundTrip | app.py:234 | the message can be recovered exactly from its payload, so different errors always give different payloads |
| Channel.RenderAllAppend | app.py:173 | sending two runs of payloads one after the other puts their texts on the wire in that order |
| Channel.Connection.Send | app.py:173 | a send delivers its text only while the connection is open, and fails otherwise |
| TailFollower.Heartbeat | app.py:212-220 | the probe succeeds if and only if the ping was delivered and the reply was exactly `pong` within 5 seconds; the server never waits longer than 5 seconds |
| TailFollower.SendHeartbeat | app.py:212-220 | on the connection: `ping` is delivered exactly when the connection is open, and the result is that of `Heartbeat` |
| TailFollower.Step | app.py:187-198 | a pass reads the file to its end |
| TailFollower.StepContract | app.py:187-198 | in one pass: read text goes out whole unless the send fails on a closed connection, which raises; a probe goes out only when more than 15 seconds have passed since the last heartbeat; a missing or wrong reply raises `Ping Error`; after a successful probe the heartbeat clock restarts, so a loop that goes on is never more than 15 seconds behind |
| TailFollower.StepClock | app.py:187-198 | on the clock: a pass that sent text does not sleep, an empty read sleeps one second, a probe adds the time spent waiting for the reply, and the heartbeat time changes only after an answered probe |
| TailFollower.Run | app.py:187-198 | the loop only ever ends by a send on a closed connection or by `Ping Error`, and a closed connection never reopens |
| TailFollower.RunSendsChunksAndPings | app.py:187-198 | the loop sends nothing but appended file text and probes |
| TailFollower.TailDeliversAppended | app.py:187-192 | starting at the end of the file, the text sent is always a prefix of what was appended, and while the loop follows it is all of it, in order, with nothing repeated |
| TailFollower.AnsweringPeerKeepsFollowing | app.py:196-220 | a peer that stays connected and always answers `pong` in time is never dropped |
| TailFollower.SilentPeerIsDropped | app.py:194-220 | on an idle file, a peer that never answers is sent a probe within 16 polls of the last heartbeat and dropped with `Ping Error` |
| TailFollower.TailPass | app.py:187-198 | one pass on the real connection and file does what `Step` says: same file cursor, clock, heartbeat time, status and delivered texts |
| TailFollower.TailFile | app.py:185-198 | the loop on the connection and the file does what `Run` says, from `last_heartbeat` set to the start time |
| SessionHandler.Admit | app.py:32-40 | a request is admitted if and only if it parses, its resolved path passes `is_file_accessible`, and its tail flag can be read; it then names that path and carries the flag. An unparseable request fails with `Fail to parse URL`, and every failure is a `ValueError` or `KeyError('tail')` |
| SessionHandler.ReportError | app.py:233-239 | `handle_error` sends at most the one error payload, and only while the connection is open; it closes only after that payload; the session ends reporting the message |
| SessionHandler.Deliver | app.py:139-144 | `send_file_content` never closes the connection; on an open connection the snapshot of the file is the first payload; it returns normally exactly when the connection is open and no tailing was asked; of the failures modelled, the only exceptions it lets through are a send on a closed connection and `Ping Error` |
| SessionHandler.Session | app.py:32-51 | a session returns normally exactly when the request is admitted without tailing on an open connection; it reports an error exactly when admission raised a `ValueError`; otherwise, of the failures modelled, it only logs a send on a closed connection, `Ping Error` or `KeyError('tail')` |
| SessionHandler.AdmittedIsServed | app.py:32-40 | an accessible request with a readable tail flag on an open connection is served: the snapshot of the resolved file is the first payload, and without tailing it is the only payload and the session returns normally |
| SessionHandler.ForbiddenIsNeverRead | app.py:32-45 | a path outside every prefix ends with the `Forbidden` payload and a close, whatever the file system or the query hold; no content is sent |
| SessionHandler.TraversalIsReported | app.py:32-45 | `/../../etc/passwd` with the only prefix `/data` sends only the `Forbidden` payload and closes, even when `/etc/passwd` exists |
| SessionHandler.NotFoundOnlyInsideRoots | app.py:95-96 | `Not Found` is reported if and only if the resolved path is inside some prefix and no regular file |
| SessionHandler.RecheckNeverFails | app.py:36-37 | with the file system unchanged, the second accessibility check never raises `Forbidden or not found` |
| SessionHandler.MissingTailKeySendsNothing | app.py:39-48 | a query with parameters but no `tail` key ends the session with a logged `KeyError`: no snapshot, no error payload, no close |
| SessionHandler.SnapshotFirstAndOnce | app.py:139-144 | a snapshot is sent at most once and only as the first payload, and it holds the last lines of the accessible resolved file; with `AdmittedIsServed`, an admitted request on an open connection gets it exactly once |
| SessionHandler.DeliverTailIsChunksAndPings | app.py:139-144 | after the snapshot, `send_file_content` sends only file text and probes |
| SessionHandler.TailOnlyWhenRequested | app.py:143-144 | file text after the snapshot and probes are sent only when the tail flag is true |
| SessionHandler.ErrorPayloadOnlyForRejections | app.py:44-51 | an error payload is sent if and only if a `ValueError` ends the session on an open connection. It is then the only payload and carries the exception's message. The server closes exactly then; other exceptions and normal ends close nothing |
| SessionHandler.FollowingSessionDeliversEverything | app.py:139-144 | a session still following has sent the snapshot of the file at connect time and then every appended text, in order |
| SessionHandler.HandleError | app.py:233-239 | the payload is sent while the connection is open, and the close happens only after a successful send; failures are swallowed |
| SessionHandler.SendFileContent | app.py:139-144 | the snapshot first, then the tail loop on the same handle when asked; a send on a closed connection ends the session as a logged error |
| SessionHandler.SendLogData | app.py:21-51 | what the connection receives, whether it is closed, and how the session ends are exactly what `Session` says |

## Left out

- The transport is left out: the websockets server, `start_server`, `main` and argument parsing. `Env.roots` is the prefix list after `allowed_directories.extend(args.prefix)` (line 298).
- Logging is left out. The disconnect log line (lines 255-270) is reduced to `Outcome`, which records whether and which exception was attached.
- `urlparse` and `parse_qs` are library parsing; their internals are left out. A request is either `Unparseable` or a parsed path and query map. `Unparseable` stands for the `Fail to parse URL` case.
- The terminal-colour converter is an uninterpreted parameter.
- Text decoding is left out. A `UnicodeDecodeError` while reading the file would be caught as a `ValueError`; the model reads text, and such a read never fails.
- Time and concurrency are left out. Real time, `asyncio` scheduling and the other sessions running beside this one are replaced by an integer clock and ticks. The loop is followed for as many ticks as are given; `StillFollowing` marks a session whose ticks ran out.
- The file system is a single view, with no change between the two accessibility checks. That makes the recheck at line 36 dead (`SessionHandler.RecheckNeverFails`); a race that removes the file in between is not modelled.
- `os.path.abspath` is modelled only for its lexical work. Symbolic links are not followed, since `abspath` does not follow them either, and the working directory is an absolute parameter.
- The closing of the file handle by the `with` block (line 139) is left out: nothing in the model reads the handle after the session.
- SessionHandler.Deliver: failures of `open` and of reads other than decoding are not modelled. Every regular file in `Env.files` can be opened and read, so an `OSError` such as a `PermissionError` on an unreadable file inside a prefix (line 139), which the generic handler at lines 47-48 would only log, does not arise in the model; `SessionHandler.Session` inherits this.
- SessionHandler.SendFileContent: the snapshot is read from a fresh handle over the file's contents. What another process writes between `open` and the end of the snapshot read is not modelled; appends are modelled only during tailing.
- Channel.RenderAll: states only that each payload has one text; the texts themselves are given by `Render` and related through `Channel.RenderAllAppend`.
