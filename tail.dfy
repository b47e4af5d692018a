/** `tail_file` and `send_heartbeat`: after the snapshot, the server keeps
    reading the open file, sends whatever was appended, and probes the peer
    with a text heartbeat when it has heard nothing for too long. */
module TailFollower {
  import opened Errors
  import opened LogFile
  import opened Channel

  const HEARTBEAT_INTERVAL: nat := 15  // seconds between probes
  const HEARTBEAT_TIMEOUT: nat := 5    // seconds to wait for the reply
  const POLL_INTERVAL: nat := 1        // seconds slept after an empty read

  /** What the peer does with a probe: answers `text` after `delay`
      seconds, or never answers. */
  datatype Reply = Answer(text: string, delay: nat) | Silence

  /** The environment during one pass of the loop: text another process
      appended to the file, whether the peer hung up, the seconds the read
      and the send took, and the peer's reply should a probe be sent. */
  datatype Tick = Tick(appended: string, hangup: bool, elapsed: nat, reply: Reply)

  /** The loop's state: the file and its cursor, the clock, the time of the
      last heartbeat (`last_heartbeat`) and whether the connection is open. */
  datatype TailState = TailState(data: string, pos: nat, now: int, last: int, open: bool)

  /** The loop goes on, or has raised `error`. */
  datatype Status = Following | Stopped(error: Exception)

  /** The payloads sent so far and where the loop stands. */
  datatype Progress = Progress(state: TailState, out: seq<Msg>, status: Status)

  /** One probe: whether the ping reached the peer, whether the right
      answer came in time, and how long the server waited. */
  datatype Probe = Probe(delivered: bool, ok: bool, waited: nat)

  /** `send_heartbeat`: send `'ping'`, then wait at most five seconds for
      exactly `'pong'`. Every failure, including the send's, is `Ping Error`. */
  function Heartbeat(open: bool, reply: Reply): (p: Probe)
    ensures p.delivered == open
    ensures p.ok <==> open && reply.Answer? && reply.text == PONG && reply.delay <= HEARTBEAT_TIMEOUT
    ensures p.waited <= HEARTBEAT_TIMEOUT
    ensures p.ok ==> p.waited == reply.delay
  {
    if !open then Probe(false, false, 0)
    else match reply
      case Answer(text, delay) =>
        if delay <= HEARTBEAT_TIMEOUT then Probe(true, text == PONG, delay)
        else Probe(true, false, HEARTBEAT_TIMEOUT)
      case Silence => Probe(true, false, HEARTBEAT_TIMEOUT)
  }

  /** The text a read returns during this pass. */
  function NewText(st: TailState, t: Tick): string
    requires st.pos <= |st.data|
  {
    (st.data + t.appended)[st.pos..]
  }

  /** The clock when the heartbeat test runs: after the read, the send and,
      when the read was empty, the one-second sleep. */
  function WakeTime(st: TailState, t: Tick): int
    requires st.pos <= |st.data|
  {
    st.now + t.elapsed + (if NewText(st, t) == [] then POLL_INTERVAL else 0)
  }

  /** `time.time() - last_heartbeat > HEARTBEAT_INTERVAL`. */
  predicate Due(st: TailState, t: Tick)
    requires st.pos <= |st.data|
  {
    WakeTime(st, t) - st.last > HEARTBEAT_INTERVAL
  }

  /** The text of the chunks among `msgs`, in order. */
  function Delivered(msgs: seq<Msg>): string {
    if msgs == [] then ""
    else (if msgs[0].Chunk? then msgs[0].text else "") + Delivered(msgs[1..])
  }

  lemma {:induction false} DeliveredAppend(a: seq<Msg>, b: seq<Msg>)
    ensures Delivered(a + b) == Delivered(a) + Delivered(b)
  {
    if a == [] {
      assert a + b == b;
    } else {
      assert (a + b)[1..] == a[1..] + b;
      DeliveredAppend(a[1..], b);
    }
  }

  /** One pass of the `while True` loop. */
  function Step(st: TailState, t: Tick): (r: Progress)
    requires st.pos <= |st.data|
    ensures r.state.data == st.data + t.appended && r.state.pos == |r.state.data|
  {
    var open := st.open && !t.hangup;
    var data := st.data + t.appended;
    var text := data[st.pos..];
    var moved := st.(data := data, pos := |data|, open := open);
    if text != [] && !open then
      Progress(moved.(now := st.now + t.elapsed), [], Stopped(ConnectionClosed))
    else
      var out := if text != [] then [Chunk(text)] else [];
      var now := WakeTime(st, t);
      if now - st.last > HEARTBEAT_INTERVAL then
        var p := Heartbeat(open, t.reply);
        var probed := out + (if p.delivered then [Ping] else []);
        if p.ok then Progress(moved.(now := now + p.waited, last := now + p.waited), probed, Following)
        else Progress(moved.(now := now + p.waited), probed, Stopped(PingError))
      else Progress(moved.(now := now), out, Following)
  }

  /** One pass: the cursor ends at the end of the file; the read text goes
      out whole unless the send fails on a closed connection; a probe goes
      out only when one is due, and after it the heartbeat clock restarts,
      so a following loop is never more than `HEARTBEAT_INTERVAL` behind. */
  lemma StepContract(st: TailState, t: Tick)
    requires st.pos <= |st.data|
    ensures var r := Step(st, t);
      && r.state.open == (st.open && !t.hangup)
      && (r.status != Stopped(ConnectionClosed) ==> Delivered(r.out) == NewText(st, t))
      && (r.status == Stopped(ConnectionClosed) <==> NewText(st, t) != [] && !r.state.open)
      && (r.status == Stopped(ConnectionClosed) ==> r.out == [])
      && (Ping in r.out ==> Due(st, t) && r.state.open)
      && (r.status == Following && Due(st, t) ==> Ping in r.out && r.state.last == r.state.now)
      && (r.status == Following ==> r.state.now - r.state.last <= HEARTBEAT_INTERVAL)
      && (r.status == Stopped(PingError) <==>
            r.status != Stopped(ConnectionClosed) && Due(st, t) && !Heartbeat(r.state.open, t.reply).ok)
      && (r.status.Stopped? ==> r.status.error in {ConnectionClosed, PingError})
      && (forall m :: m in r.out ==> m.Chunk? || m.Ping?)
  {
    var text := NewText(st, t);
    var out := if text != [] then [Chunk(text)] else [];
    assert Delivered(out) == text;
    var open := st.open && !t.hangup;
    if !(text != [] && !open) && WakeTime(st, t) - st.last > HEARTBEAT_INTERVAL {
      var p := Heartbeat(open, t.reply);
      DeliveredAppend(out, if p.delivered then [Ping] else []);
    }
  }

  /** One pass on the clock: the read and the send take `t.elapsed`; only
      an empty read is followed by the one-second sleep; a probe adds the
      time spent waiting for the reply; and the heartbeat clock restarts
      only after a probe that was answered. */
  lemma StepClock(st: TailState, t: Tick)
    requires st.pos <= |st.data|
    ensures var r := Step(st, t);
      var sleep := if NewText(st, t) == [] then POLL_INTERVAL else 0;
      && (r.status == Stopped(ConnectionClosed) ==> r.state.now == st.now + t.elapsed)
      && (r.status != Stopped(ConnectionClosed) && !Due(st, t) ==>
            r.state.now == st.now + t.elapsed + sleep)
      && (r.status != Stopped(ConnectionClosed) && Due(st, t) ==>
            r.state.now == st.now + t.elapsed + sleep + Heartbeat(r.state.open, t.reply).waited)
      && (r.state.last == st.last || (Due(st, t) && r.status == Following))
  {
  }

  /** Ticks the loop through the environment until it raises or the ticks
      run out. */
  function Run(st: TailState, ticks: seq<Tick>): (r: Progress)
    requires st.pos <= |st.data|
    ensures r.state.pos <= |r.state.data|
    ensures r.status.Stopped? ==> r.status.error == ConnectionClosed || r.status.error == PingError
    ensures r.state.open ==> st.open
    decreases |ticks|
  {
    if ticks == [] then Progress(st, [], Following)
    else
      var p := Step(st, ticks[0]);
      if p.status.Stopped? then p
      else
        var q := Run(p.state, ticks[1..]);
        Progress(q.state, p.out + q.out, q.status)
  }

  /** The loop sends nothing but chunks of the file and probes. */
  lemma {:induction false} RunSendsChunksAndPings(st: TailState, ticks: seq<Tick>)
    requires st.pos <= |st.data|
    ensures forall m :: m in Run(st, ticks).out ==> m.Chunk? || m.Ping?
    decreases |ticks|
  {
    if ticks != [] {
      var p := Step(st, ticks[0]);
      StepContract(st, ticks[0]);
      if p.status == Following {
        RunSendsChunksAndPings(p.state, ticks[1..]);
      }
    }
  }

  /** Everything the environment appended, in order. */
  function Appended(ticks: seq<Tick>): string {
    if ticks == [] then "" else ticks[0].appended + Appended(ticks[1..])
  }

  /** From the end of the file, one pass sends exactly the appended text,
      unless the send fails, and ends at the end of the longer file. */
  lemma StepDelivers(st: TailState, t: Tick)
    requires st.pos == |st.data|
    ensures var p := Step(st, t);
      Delivered(p.out) == (if p.status == Stopped(ConnectionClosed) then "" else t.appended) &&
      p.state.data == st.data + t.appended && p.state.pos == |p.state.data|
  {
    StepContract(st, t);
    assert NewText(st, t) == t.appended;
  }

  /** Text before a prefix stays before it. */
  lemma PrefixAfter(c: string, a: string, b: string)
    requires a <= b
    ensures c + a <= c + b
  {
    assert (c + b)[..|c + a|] == c + a;
  }

  /** Nothing is lost, repeated or reordered: from the end of the file, the
      chunks sent while the loop follows are exactly the text appended
      since, and when it stops they are a prefix of it. */
  lemma {:induction false} TailDeliversAppended(st: TailState, ticks: seq<Tick>)
    requires st.pos == |st.data|
    ensures var r := Run(st, ticks);
      Delivered(r.out) <= Appended(ticks) &&
      (r.status == Following ==> Delivered(r.out) == Appended(ticks))
    decreases |ticks|, 2
  {
    if ticks == [] {
      assert Delivered([]) == "";
    } else {
      TailDeliversFirst(st, ticks);
    }
  }

  /** The first pass of a non-empty run, and the rest of it by induction. */
  lemma {:induction false} TailDeliversFirst(st: TailState, ticks: seq<Tick>)
    requires st.pos == |st.data| && ticks != []
    ensures var r := Run(st, ticks);
      Delivered(r.out) <= Appended(ticks) &&
      (r.status == Following ==> Delivered(r.out) == Appended(ticks))
    decreases |ticks|, 1
  {
    if Step(st, ticks[0]).status.Stopped? {
      TailStopsFirst(st, ticks);
    } else {
      TailFollowsFirst(st, ticks);
    }
  }

  /** A run whose first pass raises has sent at most that pass's text. */
  lemma TailStopsFirst(st: TailState, ticks: seq<Tick>)
    requires st.pos == |st.data| && ticks != []
    requires Step(st, ticks[0]).status.Stopped?
    ensures var r := Run(st, ticks);
      r.status.Stopped? && Delivered(r.out) <= Appended(ticks)
  {
    var t := ticks[0];
    var p := Step(st, t);
    assert Run(st, ticks) == p;
    assert Appended(ticks) == t.appended + Appended(ticks[1..]);
    StepDelivers(st, t);
    assert t.appended <= Appended(ticks);
  }

  /** A run whose first pass goes on sends that pass's text, then the rest's. */
  lemma {:induction false} TailFollowsFirst(st: TailState, ticks: seq<Tick>)
    requires st.pos == |st.data| && ticks != []
    requires Step(st, ticks[0]).status == Following
    ensures var r := Run(st, ticks);
      Delivered(r.out) <= Appended(ticks) &&
      (r.status == Following ==> Delivered(r.out) == Appended(ticks))
    decreases |ticks|, 0
  {
    var t := ticks[0];
    var p := Step(st, t);
    var q := Run(p.state, ticks[1..]);
    var later := Appended(ticks[1..]);
    assert Appended(ticks) == t.appended + later;
    assert Run(st, ticks) == Progress(q.state, p.out + q.out, q.status);
    StepDelivers(st, t);
    TailDeliversAppended(p.state, ticks[1..]);
    DeliveredAppend(p.out, q.out);
    PrefixAfter(t.appended, Delivered(q.out), later);
  }

  /** A peer that stays connected and answers every probe with `'pong'`
      within the timeout is followed for as long as the ticks last. */
  lemma {:induction false} AnsweringPeerKeepsFollowing(st: TailState, ticks: seq<Tick>)
    requires st.pos <= |st.data| && st.open
    requires forall i :: 0 <= i < |ticks| ==> !ticks[i].hangup
    requires forall i :: 0 <= i < |ticks| ==>
               ticks[i].reply.Answer? && ticks[i].reply.text == PONG && ticks[i].reply.delay <= HEARTBEAT_TIMEOUT
    ensures Run(st, ticks).status == Following && Run(st, ticks).state.open
    decreases |ticks|
  {
    if ticks != [] {
      var p := Step(st, ticks[0]);
      StepContract(st, ticks[0]);
      assert p.status == Following && p.state.open;
      AnsweringPeerKeepsFollowing(p.state, ticks[1..]);
    }
  }

  /** A peer that never answers is dropped: on an idle file, at most
      `HEARTBEAT_INTERVAL + 1` polls after the last heartbeat the loop sends
      a probe, gets no `'pong'`, and raises `Ping Error`. */
  lemma {:induction false} SilentPeerIsDropped(st: TailState, ticks: seq<Tick>)
    requires st.pos == |st.data| && st.open
    requires 0 <= st.now - st.last <= HEARTBEAT_INTERVAL
    requires |ticks| > HEARTBEAT_INTERVAL - (st.now - st.last)
    requires forall i :: 0 <= i < |ticks| ==>
               ticks[i].appended == [] && !ticks[i].hangup && ticks[i].reply == Silence
    ensures var r := Run(st, ticks);
      r.status == Stopped(PingError) && r.out != [] && r.out[|r.out| - 1] == Ping
    decreases |ticks|
  {
    var t := ticks[0];
    var p := Step(st, t);
    StepContract(st, t);
    assert NewText(st, t) == [];
    if Due(st, t) {
      assert p.status == Stopped(PingError);
      assert p.out == [Ping];
    } else {
      assert p.status == Following && p.out == [];
      SilentPeerIsDropped(p.state, ticks[1..]);
      assert p.out + Run(p.state, ticks[1..]).out == Run(p.state, ticks[1..]).out;
    }
  }

  /** `send_heartbeat(websocket)` on the connection; `ok == false` is the
      raised `Ping Error`. */
  method SendHeartbeat(conn: Connection, reply: Reply) returns (ok: bool, waited: nat)
    modifies conn
    ensures var p := Heartbeat(old(conn.open), reply);
      ok == p.ok && waited == p.waited &&
      conn.sent == old(conn.sent) + (if p.delivered then [PING] else [])
    ensures conn.open == old(conn.open) && conn.closed == old(conn.closed)
  {
    var delivered := conn.Send(PING);
    if !delivered {
      return false, 0;
    }
    match reply
    case Answer(text, delay) =>
      if delay <= HEARTBEAT_TIMEOUT {
        ok, waited := text == PONG, delay;
      } else {
        ok, waited := false, HEARTBEAT_TIMEOUT;  // `asyncio.wait_for` times out
      }
    case Silence =>
      ok, waited := false, HEARTBEAT_TIMEOUT;
  }

  /** The payloads `first` followed by the run `r`. */
  function After(first: seq<Msg>, r: Progress): Progress {
    Progress(r.state, first + r.out, r.status)
  }

  /** One pass of `tail_file`'s loop on the connection and the file: the
      environment acts, then the file is read, the text sent or the loop
      sleeps, and a heartbeat goes out when one is due. */
  method TailPass(conn: Connection, f: LogHandle, now0: int, last0: int, t: Tick, convert: string -> string)
    returns (status: Status, now: int, last: int)
    requires f.Valid()
    modifies conn, f
    ensures var r := Step(TailState(old(f.data), old(f.pos), now0, last0, old(conn.open)), t);
      status == r.status && f.Valid() &&
      TailState(f.data, f.pos, now, last, conn.open) == r.state &&
      conn.sent == old(conn.sent) + RenderAll(r.out, convert)
    ensures conn.closed == old(conn.closed)
  {
    ghost var step := Step(TailState(f.data, f.pos, now0, last0, conn.open), t);
    ghost var text := NewText(TailState(f.data, f.pos, now0, last0, conn.open), t);
    // the environment's part of this pass
    if t.hangup {
      conn.Hangup();
    }
    f.Append(t.appended);
    // content = file.read()
    var content := f.Read();
    assert content == text;
    now, last := now0 + t.elapsed, last0;
    status := Following;
    if content != [] {
      var delivered := conn.Send(convert(content));
      if !delivered {
        status := Stopped(ConnectionClosed);
        return;
      }
    } else {
      now := now + POLL_INTERVAL;  // asyncio.sleep(1)
    }
    if now - last > HEARTBEAT_INTERVAL {
      var ok, waited := SendHeartbeat(conn, t.reply);
      now := now + waited;
      if !ok {
        status := Stopped(PingError);
        return;
      }
      last := now;
    }
  }

  /** One more pass of the loop from `cur`: either it raises, and the run
      ends there, or its payloads come first and the run goes on. */
  lemma RunAdvance(acc: seq<Msg>, cur: TailState, rest: seq<Tick>)
    requires cur.pos <= |cur.data| && rest != []
    ensures var p := Step(cur, rest[0]);
      (p.status.Stopped? ==> After(acc, Run(cur, rest)) == After(acc, p)) &&
      (p.status == Following ==> After(acc, Run(cur, rest)) == After(acc + p.out, Run(p.state, rest[1..])))
  {
    var p := Step(cur, rest[0]);
    if p.status == Following {
      var q := Run(p.state, rest[1..]);
      assert acc + (p.out + q.out) == (acc + p.out) + q.out;
    }
  }

  lemma SentGrows(sent0: seq<string>, acc: seq<Msg>, out: seq<Msg>, convert: string -> string)
    ensures (sent0 + RenderAll(acc, convert)) + RenderAll(out, convert) == sent0 + RenderAll(acc + out, convert)
  {
    RenderAllAppend(acc, out, convert);
  }

  /** `tail_file(websocket, file)` from clock time `start`, driven by `ticks`:
      the file, the connection and the clock end as `Run` says, and the
      connection has received the rendering of `Run`'s payloads. */
  method TailFile(conn: Connection, f: LogHandle, start: int, ticks: seq<Tick>, convert: string -> string)
    returns (status: Status, now: int, last: int)
    requires f.Valid()
    modifies conn, f
    ensures var r := Run(TailState(old(f.data), old(f.pos), start, start, old(conn.open)), ticks);
      status == r.status && f.Valid() &&
      TailState(f.data, f.pos, now, last, conn.open) == r.state &&
      conn.sent == old(conn.sent) + RenderAll(r.out, convert)
    ensures conn.closed == old(conn.closed)
  {
    ghost var goal := Run(TailState(f.data, f.pos, start, start, conn.open), ticks);
    ghost var sent0 := conn.sent;
    ghost var acc: seq<Msg> := [];
    now, last := start, start;  // last_heartbeat = time.time()
    status := Following;
    var i := 0;
    assert ticks[i..] == ticks;
    assert [] + goal.out == goal.out;
    assert sent0 + RenderAll([], convert) == sent0;
    while i < |ticks|
      invariant 0 <= i <= |ticks|
      invariant f.Valid() && conn.closed == old(conn.closed) && status == Following
      invariant goal == After(acc, Run(TailState(f.data, f.pos, now, last, conn.open), ticks[i..]))
      invariant conn.sent == sent0 + RenderAll(acc, convert)
      decreases |ticks| - i
    {
      ghost var cur := TailState(f.data, f.pos, now, last, conn.open);
      ghost var step := Step(cur, ticks[i]);
      assert ticks[i..][0] == ticks[i] && ticks[i..][1..] == ticks[i + 1..];
      RunAdvance(acc, cur, ticks[i..]);
      status, now, last := TailPass(conn, f, now, last, ticks[i], convert);
      SentGrows(sent0, acc, step.out, convert);
      assert conn.sent == sent0 + RenderAll(acc + step.out, convert);
      assert TailState(f.data, f.pos, now, last, conn.open) == step.state;
      if status.Stopped? {
        assert goal == After(acc, step);
        return;
      }
      assert goal == After(acc + step.out, Run(step.state, ticks[i + 1..]));
      acc := acc + step.out;
      i := i + 1;
    }
    assert ticks[i..] == [];
    assert acc + [] == acc;
  }
}
