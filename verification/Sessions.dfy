/**
 * A server session as a state machine (ClientSession.cpp with its two readers and their
 * handlers). One step is one completion handler or one posted task, run to its end.
 */
module Sessions {
  import opened Bytes
  import opened Packets
  import opened Framing
  import opened AccountCaches
  import opened Srp6s
  import opened Handlers

  /** Work posted to the executor: a packet to send, or the coroutine of a challenge. */
  datatype Task = Send(mode: Mode, packet: Packet) | Challenge(payload: ByteSeq)

  datatype Session = Session(
    mode: Mode,
    active: ByteSeq,            // received and not consumed
    closed: bool,
    queue: seq<ByteSeq>,        // write_queue_
    writing: bool,
    flight: seq<ByteSeq>,       // writes started and not completed
    tasks: seq<Task>,           // posted and not run, in any order
    srp: Srp,
    authenticated: bool,
    chunks: seq<ByteSeq>,       // history: what each read brought
    frames: seq<ByteSeq>,       // history: raw frames dispatched
    handed: seq<ByteSeq>,       // history: packets given to do_send_packet
    started: seq<ByteSeq>,      // history: writes started
    written: seq<ByteSeq>)      // history: writes completed

  function Start(h: Hash): Session {
    Session(Auth, [], false, [], false, [], [], Fresh(h), false, [], [], [], [], [])
  }

  function Close(s: Session): Session {
    if s.closed then s else s.(closed := true, active := [], queue := [])
  }

  // ----- sending -----

  /** send_packet: dropped on a closed session, otherwise posted. */
  function SendPacket(s: Session, m: Mode, p: Packet): Session {
    if s.closed then s else s.(tasks := s.tasks + [Send(m, p)])
  }

  function DoWrite(s: Session): Session {
    if s.queue == [] then s.(writing := false)
    else s.(writing := true, flight := s.flight + [s.queue[0]], started := s.started + [s.queue[0]])
  }

  function DoSendPacket(s: Session, raw: ByteSeq): Session {
    var t := s.(queue := s.queue + [raw], handed := s.handed + [raw]);
    if t.writing then t else DoWrite(t)
  }

  /** The completion of the oldest write in flight. */
  function WriteCompleted(s: Session): Session
    requires s.flight != [] && s.queue != []
  {
    DoWrite(s.(flight := s.flight[1..], written := s.written + [s.flight[0]], queue := s.queue[1..]))
  }

  // ----- receiving -----

  const PROOF_SIZE: nat := 52

  predicate IsProof(f: ByteSeq) {
    |f| >= 3 + PROOF_SIZE && f[0] == CMSG_PROOF
  }

  /** The mode changes right after a proof frame with a payload of at least 52 bytes. */
  function ServerRule(m: Mode, f: ByteSeq): Mode {
    if m.Auth? && IsProof(f) then Work else m
  }

  /** handle_ping of both modes: a payload too short throws, and the reader closes. */
  function HandlePing(s: Session, m: Mode, p: Packet): Session {
    if |p.payload| < 4 then Close(s) else SendPacket(s, m, Packet(SMSG_PONG, p.payload[..4]))
  }

  function HandleLogonProof(s: Session, p: Packet, h: Hash): Session {
    if |p.payload| < PROOF_SIZE then SendPacket(s, Auth, Refusal(INTERNAL_ERROR)) else
      var m2 := ServerProof(h, p.payload[..32], p.payload[32..52]);
      SendPacket(s.(mode := Work, authenticated := true), Auth, Packet(SMSG_PROOF, m2))
  }

  function DispatchAuth(s: Session, p: Packet, h: Hash): Session {
    if p.opcode == CMSG_PING then HandlePing(s, Auth, p)
    else if p.opcode == CMSG_CHALLENGE then s.(tasks := s.tasks + [Challenge(p.payload)])
    else if p.opcode == CMSG_PROOF then HandleLogonProof(s, p, h)
    else s
  }

  function DispatchWork(s: Session, p: Packet): Session {
    if p.opcode == CMSG_PING then HandlePing(s, Work, p) else s
  }

  /** The reader of either mode: at most the head frame, and only when it is whole. */
  function ProcessReadBuffer(s: Session, h: Hash): Session {
    var m := s.mode;
    if !Whole(m, s.active) then s
    else if Length(m, s.active) > MAX_PAYLOAD then Close(s)
    else
      var f := s.active[..FrameSize(m, s.active)];
      var t := s.(active := s.active[|f|..], frames := s.frames + [f]);
      match Deserialize(m, f)
      case None => Close(t)
      case Some(p) => if m.Auth? then DispatchAuth(t, p, h) else DispatchWork(t, p)
  }

  /** The read completion handler. */
  function ReadCompleted(s: Session, data: ByteSeq, h: Hash): Session {
    if s.closed then s
    else ProcessReadBuffer(s.(active := s.active + data, chunks := s.chunks + [data]), h)
  }

  /** The coroutine of a challenge. */
  function RunChallenge(s: Session, table: Table, payload: ByteSeq, env: Env, now: nat, b: nat, dbUp: bool): (Session, Table) {
    var out := LogonChallenge(s.srp, table, payload, env, now, b, dbUp);
    var t := s.(srp := out.srp);
    (if out.reply.Some? then SendPacket(t, Auth, out.reply.value) else t, out.table)
  }

  // ----- runs -----

  datatype Event =
    | Read(data: ByteSeq)
    | ReadFails
    | Written
    | WriteFails
    | RunTask(i: nat, now: nat, b: nat, dbUp: bool)

  predicate Enabled(s: Session, e: Event) {
    match e
    case Read(data) => data != []
    case ReadFails => true
    case Written => !s.closed && s.flight != [] && s.queue != []
    case WriteFails => s.flight != []
    case RunTask(i, _, _, _) => i < |s.tasks|
  }

  function Step(s: Session, table: Table, e: Event, env: Env): (Session, Table)
    requires Enabled(s, e)
  {
    match e
    case Read(data) => (ReadCompleted(s, data, env.hash), table)
    case ReadFails => (Close(s), table)
    case Written => (WriteCompleted(s), table)
    case WriteFails => (Close(s.(flight := s.flight[1..])), table)
    case RunTask(i, now, b, dbUp) =>
      var t := s.(tasks := s.tasks[..i] + s.tasks[i + 1..]);
      match s.tasks[i]
      case Send(m, p) => (DoSendPacket(t, Build(m, p)), table)
      case Challenge(payload) => RunChallenge(t, table, payload, env, now, b, dbUp)
  }

  // ----- the invariant of an open session -----

  /** Bytes are conserved, and what was dispatched is a framing of what was received. */
  ghost predicate Receiving(s: Session) {
    && Flatten(s.chunks) == Flatten(s.frames) + s.active
    && Framed(Auth, s.frames, ServerRule)
    && s.mode == ModeAfter(Auth, s.frames, ServerRule)
  }

  /** writing_ iff the queue is not empty iff exactly its front is in flight; packets are conserved. */
  ghost predicate Sending(s: Session) {
    && (s.writing <==> s.queue != [])
    && s.flight == (if s.queue == [] then [] else [s.queue[0]])
    && s.handed == s.written + s.queue
    && s.started == s.written + s.flight
  }

  /** How many frames one read at a time has dispatched. */
  function Dispatched(chunks: seq<ByteSeq>): nat {
    if chunks == [] then 0 else
      var before := Dispatched(chunks[..|chunks| - 1]);
      if before < Available(chunks) then before + 1 else before
  }

  /** How many frames the bytes received so far hold. */
  function Available(chunks: seq<ByteSeq>): nat {
    |Parse(Auth, Flatten(chunks), ServerRule)|
  }

  ghost predicate Inv(s: Session) {
    !s.closed ==> Receiving(s) && Sending(s) && |s.frames| == Dispatched(s.chunks)
  }

  lemma StartInv(h: Hash)
    ensures Inv(Start(h))
  {
  }

  lemma DispatchKeeps(s: Session, p: Packet, h: Hash)
    ensures var t := if s.mode.Auth? then DispatchAuth(s, p, h) else DispatchWork(s, p);
            && t.chunks == s.chunks && t.frames == s.frames && t.handed == s.handed && t.written == s.written
            && t.flight == s.flight && t.writing == s.writing && t.started == s.started
            && (!t.closed ==> t.active == s.active && t.queue == s.queue)
            && t.mode == (if s.mode.Auth? && p.opcode == CMSG_PROOF && |p.payload| >= PROOF_SIZE then Work else s.mode)
  {
  }

  /** A frame always parses, and its opcode and payload say what the mode rule says of its bytes. */
  lemma FrameParses(m: Mode, f: ByteSeq)
    requires IsFrame(m, f)
    ensures Deserialize(m, f).Some?
    ensures var p := Deserialize(m, f).value;
            ServerRule(m, f) == if m.Auth? && p.opcode == CMSG_PROOF && |p.payload| >= PROOF_SIZE then Work else m
  {
  }

  /** What one read does to an open session that stays open. */
  lemma ReadStep(s: Session, data: ByteSeq, h: Hash)
    requires !s.closed && !ReadCompleted(s, data, h).closed
    ensures var t, m, all := ReadCompleted(s, data, h), s.mode, s.active + data;
            && t.chunks == s.chunks + [data]
            && t.handed == s.handed && t.written == s.written && t.queue == s.queue
            && t.flight == s.flight && t.writing == s.writing && t.started == s.started
            && (if Ready(m, all) then
                  && IsFrame(m, all[..FrameSize(m, all)])
                  && t.frames == s.frames + [all[..FrameSize(m, all)]]
                  && t.active == all[FrameSize(m, all)..]
                  && t.mode == ServerRule(m, all[..FrameSize(m, all)])
                else
                  t.frames == s.frames && t.active == all && t.mode == m)
  {
    var m, all := s.mode, s.active + data;
    if Ready(m, all) {
      var f, rest := Split(m, all);
      FrameParses(m, f);
      var u := s.(active := rest, frames := s.frames + [f], chunks := s.chunks + [data]);
      DispatchKeeps(u, Deserialize(m, f).value, h);
    }
  }

  /** The only two reads that close an open session: an oversize frame, and a ping too short to answer. */
  lemma ReadClosesIff(s: Session, data: ByteSeq, h: Hash)
    requires !s.closed
    ensures var m, all := s.mode, s.active + data;
            ReadCompleted(s, data, h).closed <==>
              && Whole(m, all)
              && (Length(m, all) > MAX_PAYLOAD || (OpcodeOf(m, all) == CMSG_PING && Length(m, all) < 4))
  {
    var m, all := s.mode, s.active + data;
    if Ready(m, all) {
      var f, rest := Split(m, all);
      FrameParses(m, f);
      assert OpcodeOf(m, f) == OpcodeOf(m, all);
    }
  }

  lemma ReadKeepsReceiving(s: Session, data: ByteSeq, h: Hash)
    requires !s.closed && Receiving(s) && !ReadCompleted(s, data, h).closed
    ensures Receiving(ReadCompleted(s, data, h))
  {
    ReadStep(s, data, h);
    ArrivalKeepsReceiving(s, data);
    var m, all := s.mode, s.active + data;
    if Ready(m, all) {
      var f, rest := Split(m, all);
      FramedSnoc(Auth, s.frames, f, ServerRule);
      FlattenSnoc(s.frames, f);
      assert Flatten(s.frames) + (f + rest) == Flatten(s.frames) + f + rest;
    }
  }

  /** The frames dispatched head the reference parse of all that was received. */
  lemma DispatchedIsPrefix(s: Session)
    requires Receiving(s)
    ensures Parse(Auth, Flatten(s.chunks), ServerRule) == s.frames + Parse(s.mode, s.active, ServerRule)
    ensures |s.frames| < Available(s.chunks) <==> Ready(s.mode, s.active)
  {
    ParseFramed(Auth, s.frames, s.active, ServerRule);
  }

  /** Between the arrival of the bytes and their processing. */
  lemma ArrivalKeepsReceiving(s: Session, data: ByteSeq)
    requires Receiving(s)
    ensures Receiving(s.(active := s.active + data, chunks := s.chunks + [data]))
  {
    FlattenSnoc(s.chunks, data);
  }

  lemma DispatchedSnoc(chunks: seq<ByteSeq>, data: ByteSeq)
    ensures var all := chunks + [data];
            Dispatched(all) == if Dispatched(chunks) < Available(all) then Dispatched(chunks) + 1 else Dispatched(chunks)
  {
    var all := chunks + [data];
    assert all[..|all| - 1] == chunks;
  }

  lemma ReadKeepsCount(s: Session, data: ByteSeq, h: Hash)
    requires !s.closed && Receiving(s) && |s.frames| == Dispatched(s.chunks)
    requires !ReadCompleted(s, data, h).closed
    ensures var t := ReadCompleted(s, data, h); |t.frames| == Dispatched(t.chunks)
  {
    ReadStep(s, data, h);
    ArrivalKeepsReceiving(s, data);
    DispatchedIsPrefix(s.(active := s.active + data, chunks := s.chunks + [data]));
    DispatchedSnoc(s.chunks, data);
  }

  lemma SendStep(s: Session, raw: ByteSeq)
    requires Sending(s)
    ensures Sending(DoSendPacket(s, raw))
  {
    assert s.written + s.queue + [raw] == s.written + (s.queue + [raw]);
  }

  lemma WriteStep(s: Session)
    requires Sending(s) && s.flight != []
    ensures Sending(WriteCompleted(s))
  {
    assert s.queue == [s.queue[0]] + s.queue[1..];
  }

  lemma ReadInv(s: Session, data: ByteSeq, h: Hash)
    requires Inv(s) && !s.closed
    ensures Inv(ReadCompleted(s, data, h))
  {
    if !ReadCompleted(s, data, h).closed {
      ReadKeepsReceiving(s, data, h);
      ReadKeepsCount(s, data, h);
      ReadStep(s, data, h);
    }
  }

  lemma TaskInv(s: Session, table: Table, e: Event, env: Env)
    requires Inv(s) && !s.closed && e.RunTask? && Enabled(s, e)
    ensures Inv(Step(s, table, e, env).0)
  {
    var task, t := s.tasks[e.i], s.(tasks := s.tasks[..e.i] + s.tasks[e.i + 1..]);
    if task.Send? {
      SendInv(t, Build(task.mode, task.packet));
    } else {
      ChallengeInv(t, table, task.payload, env, e.now, e.b, e.dbUp);
    }
  }

  lemma SendInv(s: Session, raw: ByteSeq)
    requires Inv(s) && !s.closed
    ensures Inv(DoSendPacket(s, raw))
  {
    SendStep(s, raw);
  }

  lemma ChallengeInv(s: Session, table: Table, payload: ByteSeq, env: Env, now: nat, b: nat, dbUp: bool)
    requires Inv(s) && !s.closed
    ensures Inv(RunChallenge(s, table, payload, env, now, b, dbUp).0)
  {
    ChallengeKeepsSession(s, table, payload, env, now, b, dbUp);
  }

  lemma ChallengeKeepsSession(s: Session, table: Table, payload: ByteSeq, env: Env, now: nat, b: nat, dbUp: bool)
    ensures var t := RunChallenge(s, table, payload, env, now, b, dbUp).0;
            t == s.(tasks := t.tasks, srp := t.srp)
  {
  }

  lemma StepInv(s: Session, table: Table, e: Event, env: Env)
    requires Inv(s) && Enabled(s, e)
    ensures Inv(Step(s, table, e, env).0)
  {
    if s.closed {
      StaysClosed(s, table, e, env);
    } else if e.Read? {
      ReadInv(s, e.data, env.hash);
    } else if e.Written? {
      WriteStep(s);
    } else if e.RunTask? {
      TaskInv(s, table, e, env);
    }
  }

  lemma StaysClosed(s: Session, table: Table, e: Event, env: Env)
    requires s.closed && Enabled(s, e)
    ensures Step(s, table, e, env).0.closed
  {
  }

  ghost predicate IsRun(s: Session, table: Table, es: seq<Event>, env: Env)
    decreases |es|
  {
    es == [] ||
    (Enabled(s, es[0]) &&
     var (t, table') := Step(s, table, es[0], env); IsRun(t, table', es[1..], env))
  }

  ghost function After(s: Session, table: Table, es: seq<Event>, env: Env): (Session, Table)
    requires IsRun(s, table, es, env)
    decreases |es|
  {
    if es == [] then (s, table) else
      var (t, table') := Step(s, table, es[0], env);
      After(t, table', es[1..], env)
  }

  lemma StepKeepsAgreement(s: Session, table: Table, e: Event, env: Env)
    requires Enabled(s, e) && Agrees(table, env.db)
    ensures Agrees(Step(s, table, e, env).1, env.db)
  {
    if e.RunTask? && s.tasks[e.i].Challenge? {
      var t := s.(tasks := s.tasks[..e.i] + s.tasks[e.i + 1..]);
      ChallengeKeepsAgreement(t.srp, table, s.tasks[e.i].payload, env, e.now, e.b, e.dbUp);
    }
  }

  lemma {:induction false} RunInv(s: Session, table: Table, es: seq<Event>, env: Env)
    requires Inv(s) && Agrees(table, env.db) && IsRun(s, table, es, env)
    ensures Inv(After(s, table, es, env).0) && Agrees(After(s, table, es, env).1, env.db)
    decreases |es|
  {
    if es != [] {
      var e, rest := es[0], es[1..];
      StepInv(s, table, e, env);
      StepKeepsAgreement(s, table, e, env);
      var (t, table') := Step(s, table, e, env);
      RunInv(t, table', rest, env);
      assert After(s, table, es, env) == After(t, table', rest, env);
    }
  }

  /**
   * For every byte stream, every way it is split into reads and every interleaving with
   * writes, tasks and failures: while the session is open, no byte is lost, the frames
   * dispatched are a prefix of the reference parse, the mode is the one the frames ask
   * for, and packets leave in the order they were handed over, one write at a time.
   */
  lemma EveryRun(table: Table, es: seq<Event>, env: Env)
    requires Agrees(table, env.db) && IsRun(Start(env.hash), table, es, env)
    ensures var (s, table') := After(Start(env.hash), table, es, env);
            && Agrees(table', env.db)
            && (!s.closed ==>
                  && Flatten(s.chunks) == Flatten(s.frames) + s.active
                  && s.frames <= Parse(Auth, Flatten(s.chunks), ServerRule)
                  && s.mode == ModeAfter(Auth, s.frames, ServerRule)
                  && |s.frames| == Dispatched(s.chunks)
                  && (s.writing <==> s.queue != [])
                  && s.flight == (if s.queue == [] then [] else [s.queue[0]])
                  && s.started == s.written + s.flight
                  && Flatten(s.handed) == Flatten(s.written) + Flatten(s.queue))
  {
    StartInv(env.hash);
    RunInv(Start(env.hash), table, es, env);
    var (s, table') := After(Start(env.hash), table, es, env);
    if !s.closed {
      DispatchedIsPrefix(s);
      FlattenConcat(s.written, s.queue);
    }
  }

  function Reads(chunks: seq<ByteSeq>): seq<Event> {
    if chunks == [] then [] else [Read(chunks[0])] + Reads(chunks[1..])
  }

  /** Every way to split a stream is a run, and all of it is received unless the session closes. */
  lemma {:induction false} EverySplitIsARun(s: Session, table: Table, chunks: seq<ByteSeq>, env: Env)
    requires forall i :: 0 <= i < |chunks| ==> chunks[i] != []
    ensures IsRun(s, table, Reads(chunks), env)
    ensures var t := After(s, table, Reads(chunks), env).0; t.closed || t.chunks == s.chunks + chunks
    decreases |chunks|
  {
    if chunks == [] {
      assert s.chunks + chunks == s.chunks;
    } else {
      var data, rest := chunks[0], chunks[1..];
      var t := ReadCompleted(s, data, env.hash);
      EverySplitIsARun(t, table, rest, env);
      ReadFirst(s, table, data, Reads(rest), env);
      if t.closed {
        ReadsStayClosed(t, table, Reads(rest), env);
      } else {
        OpenReadReceives(s, data, env.hash);
        assert s.chunks + [data] + rest == s.chunks + chunks;
      }
    }
  }

  lemma ReadFirst(s: Session, table: Table, data: ByteSeq, es: seq<Event>, env: Env)
    requires data != [] && IsRun(ReadCompleted(s, data, env.hash), table, es, env)
    ensures IsRun(s, table, [Read(data)] + es, env)
    ensures After(s, table, [Read(data)] + es, env) == After(ReadCompleted(s, data, env.hash), table, es, env)
  {
    assert ([Read(data)] + es)[1..] == es;
  }

  lemma OpenReadReceives(s: Session, data: ByteSeq, h: Hash)
    requires !ReadCompleted(s, data, h).closed
    ensures ReadCompleted(s, data, h).chunks == s.chunks + [data]
  {
    if !s.closed { ReadStep(s, data, h); }
  }

  lemma {:induction false} ReadsStayClosed(s: Session, table: Table, es: seq<Event>, env: Env)
    requires s.closed && IsRun(s, table, es, env)
    ensures After(s, table, es, env).0.closed
    decreases |es|
  {
    if es != [] {
      StaysClosed(s, table, es[0], env);
      var (t, table') := Step(s, table, es[0], env);
      ReadsStayClosed(t, table', es[1..], env);
      assert After(s, table, es, env) == After(t, table', es[1..], env);
    }
  }

  // ----- one frame per read: when does the server keep up? -----

  lemma AvailableGrows(chunks: seq<ByteSeq>, j: nat, k: nat)
    requires j <= k <= |chunks|
    ensures Available(chunks[..j]) <= Available(chunks[..k])
  {
    var a, b := chunks[..j], chunks[j..k];
    assert chunks[..k] == a + b;
    FlattenConcat(a, b);
    ParseGrows(Auth, Flatten(a), Flatten(b), ServerRule);
  }

  lemma {:induction false} DispatchedBounds(chunks: seq<ByteSeq>, j: nat)
    requires j <= |chunks|
    ensures Dispatched(chunks) <= Available(chunks)
    ensures Dispatched(chunks) <= Available(chunks[..j]) + (|chunks| - j)
  {
    assert chunks[..|chunks|] == chunks;
    if chunks != [] {
      var front := chunks[..|chunks| - 1];
      DispatchedBounds(front, if j < |chunks| then j else 0);
      AvailableGrows(chunks, |chunks| - 1, |chunks|);
      if j < |chunks| {
        assert front[..j] == chunks[..j];
      }
    }
  }

  /** Some earlier moment accounts exactly for the number of frames dispatched. */
  lemma {:induction false} DispatchedAttained(chunks: seq<ByteSeq>) returns (j: nat)
    ensures j <= |chunks| && Dispatched(chunks) == Available(chunks[..j]) + (|chunks| - j)
  {
    assert chunks[..|chunks|] == chunks;
    j := |chunks|;
    if chunks == [] {
      assert Flatten(chunks) == [];
    } else {
      var front := chunks[..|chunks| - 1];
      DispatchedBounds(front, 0);
      AvailableGrows(chunks, |chunks| - 1, |chunks|);
      if Dispatched(front) < Available(chunks) {
        j := DispatchedAttained(front);
        assert front[..j] == chunks[..j];
      }
    }
  }

  /**
   * The server has dispatched every whole frame if and only if, counted back from now over
   * any number of reads, no more frames were completed than reads were made.
   */
  lemma NoBacklogIff(chunks: seq<ByteSeq>)
    ensures Dispatched(chunks) == Available(chunks)
            <==> forall j :: 0 <= j <= |chunks| ==> Available(chunks) - Available(chunks[..j]) <= |chunks| - j
  {
    var j := DispatchedAttained(chunks);
    forall i | 0 <= i <= |chunks| ensures Dispatched(chunks) <= Available(chunks[..i]) + (|chunks| - i) {
      DispatchedBounds(chunks, i);
    }
    DispatchedBounds(chunks, 0);
  }

  /**
   * As many further reads as there are frames in arrears deal with all frames complete now,
   * whatever those reads bring.
   */
  lemma CatchUp(chunks: seq<ByteSeq>, more: seq<ByteSeq>)
    requires |more| >= Available(chunks) - Dispatched(chunks)
    ensures Dispatched(chunks + more) >= Available(chunks)
  {
    var all := chunks + more;
    var j := DispatchedAttained(all);
    if j <= |chunks| {
      assert all[..j] == chunks[..j];
      DispatchedBounds(chunks, j);
    } else {
      assert all[..|chunks|] == chunks;
      AvailableGrows(all, |chunks|, j);
    }
  }

  /** If they complete no further frame, the backlog is gone. */
  lemma CaughtUp(chunks: seq<ByteSeq>, more: seq<ByteSeq>)
    requires |more| >= Available(chunks) - Dispatched(chunks)
    ensures Available(chunks + more) == Available(chunks) ==> Dispatched(chunks + more) == Available(chunks + more)
  {
    CatchUp(chunks, more);
    DispatchedBounds(chunks + more, 0);
  }

  /** Two pings in one read: the second stays in the buffer until more bytes arrive. */
  lemma TwoFramesOneRead()
    ensures var ping: ByteSeq := [1, 0, 4, 0, 0, 0, 0];
            Available([ping + ping]) == 2 && Dispatched([ping + ping]) == 1
  {
    var ping: ByteSeq := [1, 0, 4, 0, 0, 0, 0];
    var chunks := [ping + ping];
    assert Flatten(chunks) == ping + ping by { FlattenSnoc([], ping + ping); assert [] + [ping + ping] == chunks; }
    assert IsFrame(Auth, ping);
    ParseCons(Auth, ping, ping, ServerRule);
    assert ping + [] == ping;
    ParseCons(Auth, ping, [], ServerRule);
    assert chunks[..0] == [];
    DispatchedBounds(chunks, 0);
    assert Available([]) == 0 by { assert Flatten<Byte>([]) == []; }
    assert Dispatched(chunks[..0]) == 0;
  }
}
