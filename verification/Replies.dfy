/**
 * What a session owes its peer: every frame dispatched and every challenge run, with the
 * bytes that answer it. The references here read raw frames and name no opcode constant.
 */
module Replies {
  import opened Bytes
  import opened Packets
  import opened Framing
  import opened AccountCaches
  import opened Srp6s
  import opened Handlers
  import opened Sessions

  // ----- the reference, frame by frame -----

  /** The mode after a frame: a proof of 52 bytes or more ends AUTH. */
  function Onward(m: Mode, f: ByteSeq): Mode {
    if m.Auth? && |f| >= 55 && f[0] == 5 then Work else m
  }

  /** The packets owed for one frame at once; a ping shorter than four bytes closes instead. */
  function Owed(m: Mode, f: ByteSeq, h: Hash): seq<ByteSeq> {
    if m.Work? then
      if |f| >= 8 && f[0] == 0 && f[1] == 1 then [[0, 2, 0, 4] + f[4..8]] else []
    else if |f| >= 7 && f[0] == 1 then [[2, 0, 4] + f[3..7]]
    else if |f| >= 55 && f[0] == 5 then [[6, 0, 20] + h(f[3..35] + f[35..55])]
    else if |f| >= 3 && f[0] == 5 then [RefusalBytes(0)]
    else []
  }

  /** The challenge a frame asks for, by its payload. */
  function Asked(m: Mode, f: ByteSeq): seq<ByteSeq> {
    if m.Auth? && |f| >= 3 && f[0] == 3 then [f[3..]] else []
  }

  function OwedAll(m: Mode, frames: seq<ByteSeq>, h: Hash): seq<ByteSeq>
    decreases |frames|
  {
    if frames == [] then [] else Owed(m, frames[0], h) + OwedAll(Onward(m, frames[0]), frames[1..], h)
  }

  function AskedAll(m: Mode, frames: seq<ByteSeq>): seq<ByteSeq>
    decreases |frames|
  {
    if frames == [] then [] else Asked(m, frames[0]) + AskedAll(Onward(m, frames[0]), frames[1..])
  }

  lemma {:induction false} AllSnoc(m: Mode, frames: seq<ByteSeq>, f: ByteSeq, h: Hash)
    ensures var last := ModeAfter(m, frames, Onward);
            && ModeAfter(m, frames + [f], Onward) == Onward(last, f)
            && OwedAll(m, frames + [f], h) == OwedAll(m, frames, h) + Owed(last, f, h)
            && AskedAll(m, frames + [f]) == AskedAll(m, frames) + Asked(last, f)
    decreases |frames|
  {
    if frames == [] {
      assert frames + [f] == [f] && [f][1..] == [];
    } else {
      var g, rest := frames[0], frames[1..];
      AllSnoc(Onward(m, g), rest, f, h);
      assert (frames + [f])[1..] == rest + [f];
      var last := ModeAfter(m, frames, Onward);
      Regroup(Owed(m, g, h), OwedAll(Onward(m, g), rest, h), Owed(last, f, h));
      Regroup(Asked(m, g), AskedAll(Onward(m, g), rest), Asked(last, f));
    }
  }

  // ----- tasks -----

  const sends: Task -> seq<ByteSeq> := (t: Task) => if t.Send? then [Build(t.mode, t.packet)] else []
  const asks: Task -> seq<ByteSeq> := (t: Task) => if t.Challenge? then [t.payload] else []

  /** What all tasks come to. */
  function Gather(tasks: seq<Task>, f: Task -> seq<ByteSeq>): seq<ByteSeq> {
    if tasks == [] then [] else f(tasks[0]) + Gather(tasks[1..], f)
  }

  /** How often x is among the items. Ledgers are kept for one x at a time. */
  function Times(items: seq<ByteSeq>, x: ByteSeq): nat {
    if items == [] then 0 else (if items[0] == x then 1 else 0) + Times(items[1..], x)
  }

  lemma {:induction false} TimesConcat(a: seq<ByteSeq>, b: seq<ByteSeq>, x: ByteSeq)
    ensures Times(a + b, x) == Times(a, x) + Times(b, x)
  {
    if a == [] {
      assert a + b == b;
    } else {
      TimesConcat(a[1..], b, x);
      assert (a + b)[1..] == a[1..] + b;
    }
  }

  lemma {:induction false} TimesIsMultiplicity(items: seq<ByteSeq>, x: ByteSeq)
    ensures multiset(items)[x] == Times(items, x)
  {
    if items != [] {
      TimesIsMultiplicity(items[1..], x);
      assert items == [items[0]] + items[1..];
    }
  }

  lemma {:induction false} GatherConcat(a: seq<Task>, b: seq<Task>, f: Task -> seq<ByteSeq>)
    ensures Gather(a + b, f) == Gather(a, f) + Gather(b, f)
  {
    if a == [] {
      assert a + b == b;
    } else {
      GatherConcat(a[1..], b, f);
      assert (a + b)[1..] == a[1..] + b;
      Regroup(f(a[0]), Gather(a[1..], f), Gather(b, f));
    }
  }

  lemma GatherTwo(a: seq<Task>, b: seq<Task>, f: Task -> seq<ByteSeq>, x: ByteSeq)
    ensures Times(Gather(a + b, f), x) == Times(Gather(a, f), x) + Times(Gather(b, f), x)
  {
    GatherConcat(a, b, f);
    TimesConcat(Gather(a, f), Gather(b, f), x);
  }

  lemma GatherSnoc(tasks: seq<Task>, t: Task, f: Task -> seq<ByteSeq>, x: ByteSeq)
    ensures Times(Gather(tasks + [t], f), x) == Times(Gather(tasks, f), x) + Times(f(t), x)
  {
    GatherTwo(tasks, [t], f, x);
    assert [t][1..] == [] && Gather([t], f) == f(t) + [] == f(t);
  }

  lemma GatherRemove(tasks: seq<Task>, i: nat, f: Task -> seq<ByteSeq>, x: ByteSeq)
    requires i < |tasks|
    ensures Times(Gather(tasks, f), x) == Times(f(tasks[i]), x) + Times(Gather(tasks[..i] + tasks[i + 1..], f), x)
  {
    var a, t, b := tasks[..i], tasks[i], tasks[i + 1..];
    assert tasks == a + [t] + b;
    GatherTwo(a + [t], b, f, x);
    GatherTwo(a, b, f, x);
    GatherSnoc(a, t, f, x);
  }

  // ----- what dispatching a frame posts -----

  /** The tasks that a frame adds, as far as x is concerned. */
  ghost predicate Posts(before: seq<Task>, after: seq<Task>, owed: seq<ByteSeq>, asked: seq<ByteSeq>, x: ByteSeq) {
    && Times(Gather(after, sends), x) == Times(Gather(before, sends), x) + Times(owed, x)
    && Times(Gather(after, asks), x) == Times(Gather(before, asks), x) + Times(asked, x)
  }

  lemma PostsOne(before: seq<Task>, t: Task, x: ByteSeq)
    ensures Posts(before, before + [t], sends(t), asks(t), x)
  {
    GatherSnoc(before, t, sends, x);
    GatherSnoc(before, t, asks, x);
  }

  lemma WorkPong(payload: ByteSeq)
    requires |payload| == 4
    ensures Build(Work, Packet(2, payload)) == [0, 2, 0, 4] + payload
  {
    assert WordBytes(4) == [0, 4] && WordBytes(2) == [0, 2];
  }

  lemma WorkOpcode(f: ByteSeq)
    requires IsFrame(Work, f)
    ensures OpcodeOf(Work, f) == 1 <==> f[0] == 0 && f[1] == 1
  {
  }

  lemma WorkPosts(s: Session, f: ByteSeq, p: Packet, h: Hash, x: ByteSeq)
    requires IsFrame(Work, f) && Deserialize(Work, f) == Some(p) && !s.closed && !DispatchWork(s, p).closed
    ensures Posts(s.tasks, DispatchWork(s, p).tasks, Owed(Work, f, h), Asked(Work, f), x)
  {
    WorkOpcode(f);
    if p.opcode == CMSG_PING {
      WorkPong(f[4..8]);
      assert p.payload[..4] == f[4..8];
      PostsOne(s.tasks, Send(Work, Packet(SMSG_PONG, p.payload[..4])), x);
    }
  }

  lemma AuthPingPosts(s: Session, f: ByteSeq, p: Packet, h: Hash, x: ByteSeq)
    requires IsFrame(Auth, f) && Deserialize(Auth, f) == Some(p) && p.opcode == CMSG_PING
    requires !s.closed && !DispatchAuth(s, p, h).closed
    ensures Posts(s.tasks, DispatchAuth(s, p, h).tasks, Owed(Auth, f, h), Asked(Auth, f), x)
  {
    SmallPacket(2, f[3..7]);
    assert p.payload[..4] == f[3..7];
    PostsOne(s.tasks, Send(Auth, Packet(SMSG_PONG, p.payload[..4])), x);
  }

  lemma AuthProofPosts(s: Session, f: ByteSeq, p: Packet, h: Hash, x: ByteSeq)
    requires IsFrame(Auth, f) && Deserialize(Auth, f) == Some(p) && p.opcode == CMSG_PROOF && !s.closed
    ensures Posts(s.tasks, DispatchAuth(s, p, h).tasks, Owed(Auth, f, h), Asked(Auth, f), x)
  {
    if |p.payload| < 52 {
      RefusalOnWire(0);
      PostsOne(s.tasks, Send(Auth, Refusal(INTERNAL_ERROR)), x);
    } else {
      assert p.payload[..32] == f[3..35] && p.payload[32..52] == f[35..55];
      var m2 := h(f[3..35] + f[35..55]);
      SmallPacket(6, m2);
      PostsOne(s.tasks, Send(Auth, Packet(SMSG_PROOF, m2)), x);
    }
  }

  lemma AuthPosts(s: Session, f: ByteSeq, p: Packet, h: Hash, x: ByteSeq)
    requires IsFrame(Auth, f) && Deserialize(Auth, f) == Some(p) && !s.closed && !DispatchAuth(s, p, h).closed
    ensures Posts(s.tasks, DispatchAuth(s, p, h).tasks, Owed(Auth, f, h), Asked(Auth, f), x)
  {
    assert p.opcode == f[0];
    if p.opcode == CMSG_PING {
      AuthPingPosts(s, f, p, h, x);
    } else if p.opcode == CMSG_PROOF {
      AuthProofPosts(s, f, p, h, x);
    } else if p.opcode == CMSG_CHALLENGE {
      assert p.payload == f[3..];
      PostsOne(s.tasks, Challenge(p.payload), x);
    }
  }

  // ----- the ledger of an open session -----

  /** Replies and challenges are conserved; `answers` and `run` are those of the challenges run. */
  ghost predicate Ledger(s: Session, answers: seq<ByteSeq>, run: seq<ByteSeq>, h: Hash, x: ByteSeq) {
    && Times(s.handed, x) + Times(Gather(s.tasks, sends), x) == Times(OwedAll(Auth, s.frames, h), x) + Times(answers, x)
    && Times(run, x) + Times(Gather(s.tasks, asks), x) == Times(AskedAll(Auth, s.frames), x)
    && s.mode == ModeAfter(Auth, s.frames, Onward) && s.authenticated == s.mode.Work?
    && ServerSide(s.srp) && s.srp.k == Fresh(h).k
  }

  /** A dispatch changes no SRP state, and authenticates exactly when it ends AUTH. */
  lemma DispatchMode(s: Session, f: ByteSeq, p: Packet, h: Hash)
    requires IsFrame(s.mode, f) && Deserialize(s.mode, f) == Some(p) && s.authenticated == s.mode.Work?
    ensures var t := if s.mode.Auth? then DispatchAuth(s, p, h) else DispatchWork(s, p);
            && t.srp == s.srp && t.handed == s.handed && t.frames == s.frames
            && t.mode == Onward(s.mode, f) && t.authenticated == t.mode.Work?
  {
  }

  lemma LedgerGrows(s: Session, t: Session, f: ByteSeq, answers: seq<ByteSeq>, run: seq<ByteSeq>, h: Hash, x: ByteSeq)
    requires Ledger(s, answers, run, h, x)
    requires t.handed == s.handed && t.frames == s.frames + [f] && t.srp == s.srp
    requires t.mode == Onward(s.mode, f) && t.authenticated == t.mode.Work?
    requires Posts(s.tasks, t.tasks, Owed(s.mode, f, h), Asked(s.mode, f), x)
    ensures Ledger(t, answers, run, h, x)
  {
    AllSnoc(Auth, s.frames, f, h);
    TimesConcat(OwedAll(Auth, s.frames, h), Owed(s.mode, f, h), x);
    TimesConcat(AskedAll(Auth, s.frames), Asked(s.mode, f), x);
  }

  lemma DispatchLedger(s: Session, f: ByteSeq, p: Packet, answers: seq<ByteSeq>, run: seq<ByteSeq>, h: Hash, x: ByteSeq)
    requires Ledger(s, answers, run, h, x) && !s.closed && IsFrame(s.mode, f) && Deserialize(s.mode, f) == Some(p)
    ensures var u := s.(frames := s.frames + [f]);
            var t := if s.mode.Auth? then DispatchAuth(u, p, h) else DispatchWork(u, p);
            !t.closed ==> Ledger(t, answers, run, h, x)
  {
    var u := s.(frames := s.frames + [f]);
    var t := if s.mode.Auth? then DispatchAuth(u, p, h) else DispatchWork(u, p);
    if !t.closed {
      DispatchMode(u, f, p, h);
      if s.mode.Auth? { AuthPosts(u, f, p, h, x); } else { WorkPosts(u, f, p, h, x); }
      LedgerGrows(s, t, f, answers, run, h, x);
    }
  }

  lemma ReadLedger(s: Session, data: ByteSeq, answers: seq<ByteSeq>, run: seq<ByteSeq>, h: Hash, x: ByteSeq)
    requires Ledger(s, answers, run, h, x) && !s.closed && !ReadCompleted(s, data, h).closed
    ensures Ledger(ReadCompleted(s, data, h), answers, run, h, x)
  {
    var m, all := s.mode, s.active + data;
    if Ready(m, all) {
      var f, rest := Split(m, all);
      FrameParses(m, f);
      DispatchLedger(s.(chunks := s.chunks + [data], active := rest), f, Deserialize(m, f).value, answers, run, h, x);
    }
  }

  // ----- challenges run -----

  /** What a step answers to a challenge. */
  ghost function AnswerOf(s: Session, table: Table, e: Sessions.Event, env: Env): seq<ByteSeq>
    requires Enabled(s, e)
  {
    if e.RunTask? && s.tasks[e.i].Challenge? && Agrees(table, env.db)
    then [AnswerBytes(Fresh(env.hash).k, table, s.tasks[e.i].payload, env, e.now, e.b, e.dbUp)]
    else []
  }

  function PayloadOf(s: Session, e: Sessions.Event): seq<ByteSeq>
    requires Enabled(s, e)
  {
    if e.RunTask? then asks(s.tasks[e.i]) else []
  }

  ghost function Answers(s: Session, table: Table, es: seq<Sessions.Event>, env: Env): seq<ByteSeq>
    requires Sessions.IsRun(s, table, es, env)
    decreases |es|
  {
    if es == [] then [] else
      var (t, table') := Step(s, table, es[0], env);
      AnswerOf(s, table, es[0], env) + Answers(t, table', es[1..], env)
  }

  ghost function Payloads(s: Session, table: Table, es: seq<Sessions.Event>, env: Env): seq<ByteSeq>
    requires Sessions.IsRun(s, table, es, env)
    decreases |es|
  {
    if es == [] then [] else
      var (t, table') := Step(s, table, es[0], env);
      PayloadOf(s, es[0]) + Payloads(t, table', es[1..], env)
  }

  lemma SendLedger(s: Session, i: nat, answers: seq<ByteSeq>, run: seq<ByteSeq>, h: Hash, x: ByteSeq)
    requires Ledger(s, answers, run, h, x) && i < |s.tasks| && s.tasks[i].Send?
    ensures var raw := Build(s.tasks[i].mode, s.tasks[i].packet);
            Ledger(DoSendPacket(s.(tasks := s.tasks[..i] + s.tasks[i + 1..]), raw), answers, run, h, x)
  {
    var raw, rest := Build(s.tasks[i].mode, s.tasks[i].packet), s.tasks[..i] + s.tasks[i + 1..];
    LedgerSent(s, DoSendPacket(s.(tasks := rest), raw), i, answers, run, h, x);
  }

  lemma LedgerSent(s: Session, t: Session, i: nat, answers: seq<ByteSeq>, run: seq<ByteSeq>, h: Hash, x: ByteSeq)
    requires Ledger(s, answers, run, h, x) && i < |s.tasks| && s.tasks[i].Send?
    requires t.tasks == s.tasks[..i] + s.tasks[i + 1..] && t.handed == s.handed + sends(s.tasks[i])
    requires t.frames == s.frames && t.mode == s.mode && t.authenticated == s.authenticated && t.srp == s.srp
    ensures Ledger(t, answers, run, h, x)
  {
    GatherRemove(s.tasks, i, sends, x);
    GatherRemove(s.tasks, i, asks, x);
    TimesConcat(s.handed, sends(s.tasks[i]), x);
  }

  lemma LedgerAnswered(s: Session, t: Session, i: nat, task: Task, answers: seq<ByteSeq>, run: seq<ByteSeq>, h: Hash, x: ByteSeq)
    requires Ledger(s, answers, run, h, x) && i < |s.tasks| && s.tasks[i].Challenge? && task.Send?
    requires t == s.(tasks := s.tasks[..i] + s.tasks[i + 1..] + [task], srp := t.srp)
    requires ServerSide(t.srp) && t.srp.k == s.srp.k
    ensures Ledger(t, answers + sends(task), run + [s.tasks[i].payload], h, x)
  {
    GatherRemove(s.tasks, i, sends, x);
    GatherRemove(s.tasks, i, asks, x);
    PostsOne(s.tasks[..i] + s.tasks[i + 1..], task, x);
    TimesConcat(answers, sends(task), x);
    TimesConcat(run, [s.tasks[i].payload], x);
  }

  lemma ChallengeKeepsGroup(srp: Srp, table: Table, payload: ByteSeq, env: Env, now: nat, b: nat, dbUp: bool)
    requires ServerSide(srp)
    ensures var out := LogonChallenge(srp, table, payload, env, now, b, dbUp).srp; ServerSide(out) && out.k == srp.k
  {
  }

  lemma ChallengeLedger(s: Session, table: Table, e: Sessions.Event, env: Env, answers: seq<ByteSeq>, run: seq<ByteSeq>, x: ByteSeq)
    requires Ledger(s, answers, run, env.hash, x) && !s.closed && Agrees(table, env.db)
    requires Enabled(s, e) && e.RunTask? && s.tasks[e.i].Challenge?
    ensures Ledger(Step(s, table, e, env).0, answers + AnswerOf(s, table, e, env), run + PayloadOf(s, e), env.hash, x)
  {
    var payload := s.tasks[e.i].payload;
    EveryChallengeAnswered(s.srp, table, payload, env, e.now, e.b, e.dbUp);
    ChallengeKeepsGroup(s.srp, table, payload, env, e.now, e.b, e.dbUp);
    var task := Send(Auth, LogonChallenge(s.srp, table, payload, env, e.now, e.b, e.dbUp).reply.value);
    ChallengeStep(s, table, e, env);
    LedgerAnswered(s, Step(s, table, e, env).0, e.i, task, answers, run, env.hash, x);
  }

  lemma ChallengeStep(s: Session, table: Table, e: Sessions.Event, env: Env)
    requires !s.closed && Enabled(s, e) && e.RunTask? && s.tasks[e.i].Challenge?
    requires LogonChallenge(s.srp, table, s.tasks[e.i].payload, env, e.now, e.b, e.dbUp).reply.Some?
    ensures var out := LogonChallenge(s.srp, table, s.tasks[e.i].payload, env, e.now, e.b, e.dbUp);
            Step(s, table, e, env).0 ==
            s.(tasks := s.tasks[..e.i] + s.tasks[e.i + 1..] + [Send(Auth, out.reply.value)], srp := out.srp)
  {
  }

  lemma WrittenLedger(s: Session, answers: seq<ByteSeq>, run: seq<ByteSeq>, h: Hash, x: ByteSeq)
    requires Ledger(s, answers, run, h, x) && s.flight != [] && s.queue != []
    ensures Ledger(WriteCompleted(s), answers, run, h, x)
  {
  }

  lemma TaskLedger(s: Session, table: Table, e: Sessions.Event, env: Env, answers: seq<ByteSeq>, run: seq<ByteSeq>, x: ByteSeq)
    requires Ledger(s, answers, run, env.hash, x) && !s.closed && Agrees(table, env.db)
    requires Enabled(s, e) && e.RunTask?
    ensures Ledger(Step(s, table, e, env).0, answers + AnswerOf(s, table, e, env), run + PayloadOf(s, e), env.hash, x)
  {
    if s.tasks[e.i].Send? {
      assert answers + [] == answers && run + [] == run;
      SendLedger(s, e.i, answers, run, env.hash, x);
    } else {
      ChallengeLedger(s, table, e, env, answers, run, x);
    }
  }

  lemma StepLedger(s: Session, table: Table, e: Sessions.Event, env: Env, answers: seq<ByteSeq>, run: seq<ByteSeq>, x: ByteSeq)
    requires Ledger(s, answers, run, env.hash, x) && !s.closed && Agrees(table, env.db) && Enabled(s, e)
    requires !Step(s, table, e, env).0.closed
    ensures Ledger(Step(s, table, e, env).0, answers + AnswerOf(s, table, e, env), run + PayloadOf(s, e), env.hash, x)
  {
    if e.RunTask? {
      TaskLedger(s, table, e, env, answers, run, x);
    } else {
      assert answers + [] == answers && run + [] == run;
      if e.Read? {
        ReadLedger(s, e.data, answers, run, env.hash, x);
      } else if e.Written? {
        WrittenLedger(s, answers, run, env.hash, x);
      }
    }
  }

  lemma {:induction false} RunLedger(s: Session, table: Table, es: seq<Sessions.Event>, env: Env,
                                     answers: seq<ByteSeq>, run: seq<ByteSeq>, x: ByteSeq)
    requires Sessions.IsRun(s, table, es, env) && Agrees(table, env.db)
    requires !s.closed ==> Ledger(s, answers, run, env.hash, x)
    ensures var t := Sessions.After(s, table, es, env).0;
            !t.closed ==>
              Ledger(t, answers + Answers(s, table, es, env), run + Payloads(s, table, es, env), env.hash, x)
    decreases |es|
  {
    if es == [] {
      assert answers + [] == answers && run + [] == run;
    } else {
      var e, rest := es[0], es[1..];
      var (t, table') := Step(s, table, e, env);
      StepKeepsAgreement(s, table, e, env);
      var a, r := AnswerOf(s, table, e, env), PayloadOf(s, e);
      if s.closed {
        StaysClosed(s, table, e, env);
      } else if !t.closed {
        StepLedger(s, table, e, env, answers, run, x);
      }
      RunLedger(t, table', rest, env, answers + a, run + r, x);
      assert Sessions.After(s, table, es, env) == Sessions.After(t, table', rest, env);
      Regroup(answers, a, Answers(t, table', rest, env));
      Regroup(run, r, Payloads(t, table', rest, env));
    }
  }

  lemma StartLedger(h: Hash, x: ByteSeq)
    ensures Ledger(Sessions.Start(h), [], [], h, x)
  {
  }

  lemma SameMultiset(a: seq<ByteSeq>, b: seq<ByteSeq>)
    requires forall x :: Times(a, x) == Times(b, x)
    ensures multiset(a) == multiset(b)
  {
    forall x ensures multiset(a)[x] == multiset(b)[x] {
      TimesIsMultiplicity(a, x);
      TimesIsMultiplicity(b, x);
    }
  }

  /**
   * In every run, while the session is open: the packets handed to the writer and those
   * still posted are, byte for byte, one answer to each frame that asks for one and to each
   * challenge run; and the challenges run or still posted are those the frames asked for.
   */
  lemma EveryReplyAccounted(table: Table, es: seq<Sessions.Event>, env: Env)
    requires Agrees(table, env.db) && Sessions.IsRun(Sessions.Start(env.hash), table, es, env)
    requires !Sessions.After(Sessions.Start(env.hash), table, es, env).0.closed
    ensures var start := Sessions.Start(env.hash);
            var s := Sessions.After(start, table, es, env).0;
            && multiset(s.handed + Gather(s.tasks, sends)) ==
               multiset(OwedAll(Auth, s.frames, env.hash) + Answers(start, table, es, env))
            && multiset(Payloads(start, table, es, env) + Gather(s.tasks, asks)) == multiset(AskedAll(Auth, s.frames))
            && s.mode == ModeAfter(Auth, s.frames, Onward) && s.authenticated == s.mode.Work?
  {
    var start := Sessions.Start(env.hash);
    var s := Sessions.After(start, table, es, env).0;
    var answers, run := Answers(start, table, es, env), Payloads(start, table, es, env);
    assert [] + answers == answers && [] + run == run;
    forall x ensures Ledger(s, answers, run, env.hash, x) {
      StartLedger(env.hash, x);
      RunLedger(start, table, es, env, [], [], x);
    }
    LedgerBalances(s, answers, run, env.hash);
  }

  lemma LedgerBalances(s: Session, answers: seq<ByteSeq>, run: seq<ByteSeq>, h: Hash)
    requires forall x :: Ledger(s, answers, run, h, x)
    ensures multiset(s.handed + Gather(s.tasks, sends)) == multiset(OwedAll(Auth, s.frames, h) + answers)
    ensures multiset(run + Gather(s.tasks, asks)) == multiset(AskedAll(Auth, s.frames))
    ensures s.mode == ModeAfter(Auth, s.frames, Onward) && s.authenticated == s.mode.Work?
  {
    forall x ensures Times(s.handed + Gather(s.tasks, sends), x) == Times(OwedAll(Auth, s.frames, h) + answers, x) {
      assert Ledger(s, answers, run, h, x);
      TimesConcat(s.handed, Gather(s.tasks, sends), x);
      TimesConcat(OwedAll(Auth, s.frames, h), answers, x);
    }
    forall x ensures Times(run + Gather(s.tasks, asks), x) == Times(AskedAll(Auth, s.frames), x) {
      assert Ledger(s, answers, run, h, x);
      TimesConcat(run, Gather(s.tasks, asks), x);
    }
    SameMultiset(s.handed + Gather(s.tasks, sends), OwedAll(Auth, s.frames, h) + answers);
    SameMultiset(run + Gather(s.tasks, asks), AskedAll(Auth, s.frames));
    assert Ledger(s, answers, run, h, []);
  }

  // ----- closing -----

  /** The announced length of the head frame. */
  function Announced(m: Mode, s: ByteSeq): nat
    requires |s| >= if m.Auth? then 3 else 4
  {
    if m.Auth? then (s[1] as int) * 256 + s[2] else (s[2] as int) * 256 + s[3]
  }

  /** The bytes on which a reader closes: a whole frame over 2048 bytes, or a ping of fewer than four. */
  predicate Offends(m: Mode, s: ByteSeq) {
    && |s| >= (if m.Auth? then 3 else 4)
    && |s| >= (if m.Auth? then 3 else 4) + Announced(m, s)
    && (|| Announced(m, s) > 2048
        || (Announced(m, s) < 4 && if m.Auth? then s[0] == 1 else s[0] == 0 && s[1] == 1))
  }

  /** An open session is closed by a failed read or write and by offending bytes, and by nothing else. */
  lemma ClosesIff(s: Session, table: Table, e: Sessions.Event, env: Env)
    requires !s.closed && Enabled(s, e)
    ensures var t := Step(s, table, e, env).0;
            && (t.closed <==> e.ReadFails? || e.WriteFails? || (e.Read? && Offends(s.mode, s.active + e.data)))
            && (t.closed ==> t.active == [] && t.queue == [])
  {
    if e.Read? {
      ReadClosesIff(s, e.data, env.hash);
    }
  }

  function TasksRun(es: seq<Sessions.Event>): nat {
    if es == [] then 0 else (if es[0].RunTask? then 1 else 0) + TasksRun(es[1..])
  }

  /** A closed session stays as it was: nothing more is received, dispatched or posted. */
  lemma {:induction false} ClosedForGood(s: Session, table: Table, es: seq<Sessions.Event>, env: Env)
    requires s.closed && s.active == [] && Sessions.IsRun(s, table, es, env)
    ensures var t := Sessions.After(s, table, es, env).0;
            && t.closed && t.active == [] && t.chunks == s.chunks && t.frames == s.frames
            && t.mode == s.mode && t.authenticated == s.authenticated && |t.tasks| + TasksRun(es) == |s.tasks|
    decreases |es|
  {
    if es != [] {
      var (t, table') := Step(s, table, es[0], env);
      ClosedStep(s, table, es[0], env);
      ClosedForGood(t, table', es[1..], env);
      assert Sessions.After(s, table, es, env) == Sessions.After(t, table', es[1..], env);
    }
  }

  lemma ClosedStep(s: Session, table: Table, e: Sessions.Event, env: Env)
    requires s.closed && s.active == [] && Enabled(s, e)
    ensures var t := Step(s, table, e, env).0;
            && t.closed && t.active == [] && t.chunks == s.chunks && t.frames == s.frames
            && t.mode == s.mode && t.authenticated == s.authenticated
            && t.tasks == if e.RunTask? then s.tasks[..e.i] + s.tasks[e.i + 1..] else s.tasks
  {
    if e.RunTask? && s.tasks[e.i].Challenge? {
      var t := s.(tasks := s.tasks[..e.i] + s.tasks[e.i + 1..]);
      ChallengeKeepsSession(t, table, s.tasks[e.i].payload, env, e.now, e.b, e.dbUp);
    }
  }
}
