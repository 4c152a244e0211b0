/**
 * The two peers and the bytes between them: one client, one session of the server and two
 * byte channels that deliver in pieces of any size. Bytes are on the wire from the moment
 * their write starts, so every real timing is among the runs considered here.
 */
module Handshake {
  import opened Bytes
  import opened BigEndian
  import opened ByteBuffers
  import opened Packets
  import opened Framing
  import opened Utf8
  import opened AccountCaches
  import opened Srp6s
  import opened Handlers
  import opened Sessions
  import opened Clients

  // ----- the same frames on both sides -----

  /** The server's frames are a prefix of the client's, and equal exactly when it has no backlog. */
  lemma ServerFollowsClient(s: Session, datas: seq<ByteSeq>)
    requires Receiving(s) && |s.frames| == Dispatched(s.chunks)
    requires IsFeed(NewParser(Auth), datas, ServerRule) && Flatten(datas) == Flatten(s.chunks)
    ensures var client := Fed(NewParser(Auth), datas, ServerRule);
            && s.frames <= client.frames
            && (s.frames == client.frames <==> Dispatched(s.chunks) == Available(s.chunks))
  {
    ClientParsesAll(datas, Auth, ServerRule);
    DispatchedIsPrefix(s);
  }

  // ----- the system -----

  datatype Sys = Sys(cl: Client, sv: Session, table: Table, c2s: ByteSeq, s2c: ByteSeq)

  datatype Move =
    | ServerReads(k: nat)
    | ServerRuns(i: nat, now: nat, b: nat)
    | ServerWrote
    | ClientReads(k: nat, a: nat)
    | ClientWrote
    | CacheChanges(table: Table)   // other sessions and the cleanup timer

  ghost predicate Can(y: Sys, e: Move, env: Env) {
    match e
    case ServerReads(k) => !y.sv.closed && 0 < k <= |y.c2s|
    case ServerRuns(i, _, _) => i < |y.sv.tasks|
    case ServerWrote => !y.sv.closed && y.sv.flight != [] && y.sv.queue != []
    case ClientReads(k, _) =>
      && y.cl.connected && Reading(y.cl.mode, y.cl.reader)
      && 0 < k <= |y.s2c| && k <= Wanted(y.cl.mode, y.cl.reader)
    case ClientWrote => y.cl.connected && y.cl.out != []
    case CacheChanges(t) => Agrees(t, env.db)
  }

  /** The writes that a step started. */
  function NewBytes(before: seq<ByteSeq>, after: seq<ByteSeq>): ByteSeq {
    if |before| <= |after| then Flatten(after[|before|..]) else []
  }

  function WithServer(y: Sys, s: Session): Sys {
    y.(sv := s, s2c := y.s2c + NewBytes(y.sv.started, s.started))
  }

  function WithClient(y: Sys, c: Client): Sys {
    y.(cl := c, c2s := y.c2s + NewBytes(y.cl.started, c.started))
  }

  ghost function Next(y: Sys, e: Move, env: Env): Sys
    requires Can(y, e, env)
  {
    match e
    case ServerReads(k) =>
      WithServer(y.(c2s := y.c2s[k..]), ReadCompleted(y.sv, y.c2s[..k], env.hash))
    case ServerRuns(i, now, b) =>
      var (s, t) := Step(y.sv, y.table, RunTask(i, now, b, true), env);
      WithServer(y, s).(table := t)
    case ServerWrote => WithServer(y, WriteCompleted(y.sv))
    case ClientReads(k, a) =>
      WithClient(y.(s2c := y.s2c[k..]), Receive(y.cl, y.s2c[..k], a, env.hash))
    case ClientWrote => WithClient(y, ClientWritten(y.cl))
    case CacheChanges(t) => y.(table := t)
  }

  /** Connected, and the client has just asked to log on. */
  function Begin(name: ByteSeq, table: Table, env: Env): Sys {
    var idle := Sys(Connected(env.hash), Sessions.Start(env.hash), table, [], []);
    WithClient(idle, BeginLogon(idle.cl, name))
  }

  // ----- bytes still to be handled by each side -----

  function Unstarted(queue: seq<ByteSeq>): ByteSeq {
    if queue == [] then [] else Flatten(queue[1..])
  }

  function ToServer(y: Sys): ByteSeq {
    y.sv.active + y.c2s + Unstarted(y.cl.out)
  }

  function ToClient(y: Sys): ByteSeq {
    Pending(y.cl.reader) + y.s2c + Unstarted(y.sv.queue)
  }

  ghost predicate ClientSending(c: Client) {
    c.started == c.written + if c.out == [] then [] else [c.out[0]]
  }

  lemma OneNew(started: seq<ByteSeq>, raw: ByteSeq)
    ensures NewBytes(started, started + [raw]) == raw
  {
    assert (started + [raw])[|started|..] == [raw];
    FlattenSnoc([], raw);
    assert [] + [raw] == [raw];
  }

  lemma NoneNew(started: seq<ByteSeq>)
    ensures NewBytes(started, started) == []
  {
  }

  lemma ClientSendAdds(c: Client, raw: ByteSeq)
    requires c.connected && ClientSending(c)
    ensures var d := SendRaw(c, raw);
            && ClientSending(d)
            && NewBytes(c.started, d.started) + Unstarted(d.out) == Unstarted(c.out) + raw
  {
    if c.out == [] {
      OneNew(c.started, raw);
      assert (c.out + [raw])[1..] == [];
    } else {
      NoneNew(c.started);
      assert (c.out + [raw])[1..] == c.out[1..] + [raw];
      FlattenSnoc(c.out[1..], raw);
    }
  }

  lemma ClientWriteKeeps(c: Client)
    requires c.connected && ClientSending(c) && c.out != []
    ensures var d := ClientWritten(c);
            && ClientSending(d)
            && NewBytes(c.started, d.started) + Unstarted(d.out) == Unstarted(c.out)
  {
    if |c.out| > 1 {
      OneNew(c.started, c.out[1]);
      assert Flatten(c.out[1..]) == c.out[1] + Flatten(c.out[1..][1..]);
    } else {
      NoneNew(c.started);
    }
  }

  lemma ServerSendAdds(s: Session, raw: ByteSeq)
    requires Sending(s)
    ensures var t := DoSendPacket(s, raw);
            && Sending(t)
            && NewBytes(s.started, t.started) + Unstarted(t.queue) == Unstarted(s.queue) + raw
  {
    SendStep(s, raw);
    if s.queue == [] {
      OneNew(s.started, raw);
      assert (s.queue + [raw])[1..] == [];
    } else {
      NoneNew(s.started);
      assert (s.queue + [raw])[1..] == s.queue[1..] + [raw];
      FlattenSnoc(s.queue[1..], raw);
    }
  }

  lemma ServerWriteKeeps(s: Session)
    requires Sending(s) && s.flight != []
    ensures var t := WriteCompleted(s);
            && Sending(t)
            && NewBytes(s.started, t.started) + Unstarted(t.queue) == Unstarted(s.queue)
  {
    WriteStep(s);
    if |s.queue| > 1 {
      OneNew(s.started, s.queue[1]);
      assert Flatten(s.queue[1..]) == s.queue[1] + Flatten(s.queue[1..][1..]);
    } else {
      NoneNew(s.started);
    }
  }

  // ----- frames that arrive in pieces -----

  lemma BuiltIsFrame(p: Packet)
    requires HasOpcode(Auth, p) && |p.payload| <= MAX_PAYLOAD
    ensures IsFrame(Auth, Build(Auth, p)) && Deserialize(Auth, Build(Auth, p)) == Some(p)
  {
    HeaderOfBuilt(Auth, p, []);
    assert Build(Auth, p) + [] == Build(Auth, p);
    BuildThenDeserialize(Auth, p);
  }

  lemma PrefixOfFrame(m: Mode, f: ByteSeq, p: ByteSeq)
    requires IsFrame(m, f) && p <= f
    ensures Whole(m, p) ==> p == f
    ensures |p| >= m.HeaderSize() ==> Length(m, p) == Length(m, f)
  {
  }

  /** A read that leaves the frame incomplete only stores the bytes. */
  lemma ReadPart(s: Session, data: ByteSeq, h: Hash)
    requires !s.closed && !Whole(s.mode, s.active + data)
    ensures ReadCompleted(s, data, h) == s.(active := s.active + data, chunks := s.chunks + [data])
  {
  }

  /** A read that completes exactly one frame dispatches it. */
  lemma ReadWhole(s: Session, data: ByteSeq, p: Packet, h: Hash)
    requires !s.closed && s.mode == Auth && HasOpcode(Auth, p) && |p.payload| <= MAX_PAYLOAD
    requires s.active + data == Build(Auth, p)
    ensures ReadCompleted(s, data, h) ==
            DispatchAuth(s.(active := [], chunks := s.chunks + [data], frames := s.frames + [Build(Auth, p)]), p, h)
  {
    BuiltIsFrame(p);
    var all := s.active + data;
    assert all[..|all|] == all && all[|all|..] == [];
  }

  /** The client's exact reads of a frame: nothing happens until the last byte. */
  lemma ClientPart(c: Client, data: ByteSeq, a: nat, h: Hash, p: Packet, rest: ByteSeq)
    requires Reading(c.mode, c.reader) && c.mode == Auth && 0 < |data| <= Wanted(c.mode, c.reader)
    requires HasOpcode(Auth, p) && |p.payload| <= MAX_PAYLOAD
    requires Pending(c.reader) + data + rest == Build(Auth, p)
    ensures var d := Receive(c, data, a, h);
            if rest == [] then d == HandlePacket(c.(reader := Reader([], [])), p, a, h)
            else d == c.(reader := d.reader) && Reading(Auth, d.reader) && Pending(d.reader) == Pending(c.reader) + data
  {
    BuiltIsFrame(p);
    var f, got := Build(Auth, p), Pending(c.reader) + data;
    assert got <= f;
    AbsorbSound(Auth, c.reader, data);
    PrefixOfFrame(Auth, f, got);
    match Absorb(Auth, c.reader, data)
    case More(r) =>
      assert !Ready(Auth, got) && rest != [];
    case Frame(g) =>
      assert |f| == |got| + |rest| && rest == [];
    case TooBig =>
      assert false;
  }

  // ----- the packets of the handshake -----

  function HelloPayload(name: ByteSeq): ByteSeq {
    Reverse(name) + [0]
  }

  function Hello(name: ByteSeq): Packet {
    Packet(CMSG_CHALLENGE, HelloPayload(name))
  }

  /** A proper user name whose account has a valid row. */
  ghost predicate Registered(name: ByteSeq, env: Env) {
    0 !in name && Accepts(name) && ValidRow(env.db, MapCase(name, Upper))
  }

  /** Such a name that fits a frame, with its NUL. */
  ghost predicate Honest(name: ByteSeq, env: Env) {
    Registered(name, env) && |name| < MAX_PAYLOAD
  }

  ghost function Account(name: ByteSeq, env: Env): Credentials
    requires Honest(name, env)
  {
    RowCredentials(env.db, MapCase(name, Upper))
  }

  lemma NameArrives(name: ByteSeq)
    requires 0 !in name
    ensures UsernameOf(HelloPayload(name)) == name
  {
    StringNtRoundTrip(name, LittleEnd, []);
    assert Reverse(name) + [0] + [] == HelloPayload(name);
  }

  function ProofPacket(s: Srp): Packet
    requires NumberBytes(s.pubA).Some?
  {
    Packet(CMSG_PROOF, NumberBytes(s.pubA).value + s.lastM1)
  }

  function ReplyPacket(s: Srp, h: Hash): Packet
    requires NumberBytes(s.pubA).Some?
  {
    Packet(SMSG_PROOF, ServerProof(h, NumberBytes(s.pubA).value, s.lastM1))
  }

  /** What the server has prepared for the account. */
  ghost predicate Prepared(s: Srp, name: ByteSeq, env: Env)
    requires Honest(name, env)
  {
    var c := Account(name, env);
    && ServerSide(s) && s.username == MapCase(name, Upper)
    && s.salt == c.salt && s.v == FromBE(c.verifier)
    && s.pubB < TWO256
    && ChallengePayload(s, c.salt).Some? && |ChallengePayload(s, c.salt).value| == 97
  }

  ghost function ChallengePacket(s: Srp, name: ByteSeq, env: Env): Packet
    requires Honest(name, env) && Prepared(s, name, env)
  {
    Packet(SMSG_CHALLENGE, ChallengePayload(s, Account(name, env).salt).value)
  }

  /** Both sides hold the same group, the same salt, and a proof over both public values. */
  ghost predicate Transcript(c: Srp, s: Srp, h: Hash) {
    && c.modulus == s.modulus && c.g == s.g && c.salt == s.salt
    && c.pubA < TWO256 && s.pubB < TWO256
    && NumberBytes(c.pubA).Some? && |NumberBytes(c.pubA).value| == 32
    && NumberBytes(s.pubB).Some?
    && c.lastM1 == h(NumberBytes(c.pubA).value + NumberBytes(s.pubB).value + s.salt)
  }

  // ----- phases -----

  ghost predicate Common(y: Sys, env: Env) {
    && !y.sv.closed && Sending(y.sv) && ServerSide(y.sv.srp)
    && y.cl.connected && !y.cl.disconnecting && ClientSending(y.cl)
    && Reading(y.cl.mode, y.cl.reader)
    && Agrees(y.table, env.db)
  }

  ghost predicate Quiet(y: Sys) {
    ToServer(y) == [] && ToClient(y) == []
  }

  datatype Phase =
    | HelloSent | HelloTaken | ChallengePosted | ChallengeSent | ProofSent | ProofTaken | ReplySent | Finished

  function Order(p: Phase): nat {
    match p
    case HelloSent => 1 case HelloTaken => 2 case ChallengePosted => 3 case ChallengeSent => 4
    case ProofSent => 5 case ProofTaken => 6 case ReplySent => 7 case Finished => 8
  }

  ghost predicate At(y: Sys, p: Phase, name: ByteSeq, env: Env)
    requires Honest(name, env)
  {
    && Common(y, env)
    && y.sv.mode == (if Order(p) <= 5 then Auth else Work)
    && y.sv.authenticated == (Order(p) > 5)
    && y.cl.mode == (if p.Finished? then Work else Auth)
    && (Order(p) >= 3 ==> Prepared(y.sv.srp, name, env))
    && (Order(p) >= 5 ==> Transcript(y.cl.srp, y.sv.srp, env.hash))
    && match p
       case HelloSent =>
         y.sv.tasks == [] && Arriving(y.sv.active, ToServer(y), Hello(name)) && ToClient(y) == []
       case HelloTaken => y.sv.tasks == [Challenge(HelloPayload(name))] && Quiet(y)
       case ChallengePosted => y.sv.tasks == [Send(Auth, ChallengePacket(y.sv.srp, name, env))] && Quiet(y)
       case ChallengeSent =>
         && y.sv.tasks == [] && ToServer(y) == []
         && ToClient(y) == Build(Auth, ChallengePacket(y.sv.srp, name, env))
       case ProofSent =>
         y.sv.tasks == [] && Arriving(y.sv.active, ToServer(y), ProofPacket(y.cl.srp)) && ToClient(y) == []
       case ProofTaken => y.sv.tasks == [Send(Auth, ReplyPacket(y.cl.srp, env.hash))] && Quiet(y)
       case ReplySent =>
         && y.sv.tasks == [] && ToServer(y) == []
         && ToClient(y) == Build(Auth, ReplyPacket(y.cl.srp, env.hash))
       case Finished => y.sv.tasks == [] && Quiet(y)
  }

  /** All of the packet is on its way, and the server does not have all of it. */
  ghost predicate Arriving(active: ByteSeq, all: ByteSeq, p: Packet) {
    all == Build(Auth, p) && |active| < |all|
  }

  /** Both peers in WORK, nothing outstanding between them. */
  ghost predicate Done(y: Sys) {
    && y.cl.mode == Work && y.sv.mode == Work && y.sv.authenticated
    && y.cl.connected && !y.cl.disconnecting && !y.sv.closed
    && y.sv.tasks == [] && Quiet(y)
  }

  function Waiting(y: Sys): nat {
    |y.cl.out| + |y.sv.queue|
  }

  function OnWire(y: Sys): nat {
    |y.c2s| + |y.s2c|
  }

  /** A step either advances the phase or uses up writes or bytes. */
  ghost predicate Closer(y: Sys, p: Phase, z: Sys, q: Phase) {
    || Order(q) > Order(p)
    || (q == p && (Waiting(z) < Waiting(y) || (Waiting(z) == Waiting(y) && OnWire(z) < OnWire(y))))
  }

  // ----- each kind of step -----

  /** Modes and tasks of a state. */
  ghost predicate Modes(y: Sys, client: Mode, server: Mode, tasks: seq<Task>) {
    && y.cl.mode == client && y.sv.mode == server && y.sv.authenticated == server.Work?
    && y.sv.tasks == tasks
  }

  lemma BeginEffect(name: ByteSeq, table: Table, env: Env)
    requires Agrees(table, env.db)
    ensures var y := Begin(name, table, env);
            && Common(y, env) && Modes(y, Auth, Auth, [])
            && Arriving(y.sv.active, ToServer(y), Hello(name)) && ToClient(y) == []
  {
    var c := Connected(env.hash);
    var named, raw := c.(srp := c.srp.(username := name)), Build(Auth, Hello(name));
    var y := Sys(c, Sessions.Start(env.hash), table, [], []);
    assert y.s2c[0..] == [];
    AnswerUpdate(y, 0, named, raw, env);
    assert y.(s2c := y.s2c[0..]) == y;
  }

  lemma BeginAt(name: ByteSeq, table: Table, env: Env)
    requires Honest(name, env) && Agrees(table, env.db)
    ensures At(Begin(name, table, env), HelloSent, name, env)
  {
    BeginEffect(name, table, env);
  }

  /** A phase is about modes, SRP states, tasks and the bytes under way; nothing else. */
  ghost predicate Unchanged(y: Sys, z: Sys) {
    && z.sv.mode == y.sv.mode && z.sv.authenticated == y.sv.authenticated && z.cl.mode == y.cl.mode
    && z.sv.srp == y.sv.srp && z.cl.srp == y.cl.srp && z.sv.tasks == y.sv.tasks
    && ToServer(z) == ToServer(y) && ToClient(z) == ToClient(y)
    && (z.sv.active == y.sv.active || |z.sv.active| < |ToServer(z)|)
  }

  lemma SamePhase(y: Sys, z: Sys, p: Phase, name: ByteSeq, env: Env)
    requires Honest(name, env) && At(y, p, name, env) && Common(z, env) && Unchanged(y, z)
    ensures At(z, p, name, env)
  {
  }

  lemma RegroupFour(a: ByteSeq, b: ByteSeq, c: ByteSeq, d: ByteSeq)
    ensures a + (b + c) + d == a + b + (c + d)
  {
  }

  lemma ServerWroteEffect(y: Sys, env: Env)
    requires Common(y, env) && Can(y, ServerWrote, env)
    ensures var z := Next(y, ServerWrote, env); Common(z, env) && Unchanged(y, z) && Waiting(z) < Waiting(y)
  {
    ServerWriteKeeps(y.sv);
    var z := Next(y, ServerWrote, env);
    RegroupFour(Pending(y.cl.reader), y.s2c, NewBytes(y.sv.started, z.sv.started), Unstarted(z.sv.queue));
  }

  lemma ClientWroteEffect(y: Sys, env: Env)
    requires Common(y, env) && Can(y, ClientWrote, env)
    ensures var z := Next(y, ClientWrote, env); Common(z, env) && Unchanged(y, z) && Waiting(z) < Waiting(y)
  {
    ClientWriteKeeps(y.cl);
    var z := Next(y, ClientWrote, env);
    RegroupFour(y.sv.active, y.c2s, NewBytes(y.cl.started, z.cl.started), Unstarted(z.cl.out));
  }

  lemma WroteStep(y: Sys, e: Move, p: Phase, name: ByteSeq, env: Env)
    requires Honest(name, env) && At(y, p, name, env) && Can(y, e, env) && (e.ServerWrote? || e.ClientWrote?)
    ensures At(Next(y, e, env), p, name, env) && Closer(y, p, Next(y, e, env), p)
  {
    if e.ServerWrote? { ServerWroteEffect(y, env); } else { ClientWroteEffect(y, env); }
    SamePhase(y, Next(y, e, env), p, name, env);
  }

  lemma CacheChangesStep(y: Sys, t: Table, p: Phase, name: ByteSeq, env: Env)
    requires Honest(name, env) && At(y, p, name, env) && Can(y, CacheChanges(t), env)
    ensures At(Next(y, CacheChanges(t), env), p, name, env)
  {
    SamePhase(y, Next(y, CacheChanges(t), env), p, name, env);
  }

  /** A read that does not complete the frame on its way only moves bytes. */
  lemma ServerReadsPart(y: Sys, k: nat, env: Env, pk: Packet)
    requires Common(y, env) && Can(y, ServerReads(k), env)
    requires y.sv.mode == Auth && HasOpcode(Auth, pk) && |pk.payload| <= MAX_PAYLOAD
    requires ToServer(y) == Build(Auth, pk) && y.c2s[k..] + Unstarted(y.cl.out) != []
    ensures var z := Next(y, ServerReads(k), env);
            Common(z, env) && Unchanged(y, z) && Waiting(z) == Waiting(y) && OnWire(z) < OnWire(y)
  {
    var data, rest := y.c2s[..k], y.c2s[k..];
    var all := y.sv.active + data;
    CutAt(y.sv.active, y.c2s, k, Unstarted(y.cl.out));
    BuiltIsFrame(pk);
    PrefixOfFrame(Auth, Build(Auth, pk), all);
    ReadPart(y.sv, data, env.hash);
    NoneNew(y.sv.started);
    var z := Next(y, ServerReads(k), env);
    assert z.s2c == y.s2c;
  }

  lemma CutAt(a: ByteSeq, b: ByteSeq, k: nat, c: ByteSeq)
    requires k <= |b|
    ensures a + b + c == a + b[..k] + (b[k..] + c) == a + b[..k] + b[k..] + c
  {
    assert b == b[..k] + b[k..];
  }

  /** The read that completes the frame on its way: the session dispatches exactly that packet. */
  lemma ServerReadsWhole(y: Sys, k: nat, env: Env, pk: Packet)
    requires Can(y, ServerReads(k), env) && Common(y, env)
    requires y.sv.mode == Auth && HasOpcode(Auth, pk) && |pk.payload| <= MAX_PAYLOAD
    requires ToServer(y) == Build(Auth, pk) && y.c2s[k..] + Unstarted(y.cl.out) == []
    ensures var data := y.c2s[..k];
            ReadCompleted(y.sv, data, env.hash) ==
            DispatchAuth(y.sv.(active := [], chunks := y.sv.chunks + [data],
                               frames := y.sv.frames + [Build(Auth, pk)]), pk, env.hash)
    ensures y.c2s[k..] == [] && Unstarted(y.cl.out) == []
  {
    var data, rest := y.c2s[..k], y.c2s[k..];
    assert y.c2s == data + rest;
    assert y.sv.active + data == ToServer(y);
    ReadWhole(y.sv, data, pk, env.hash);
  }

  /** The state after a read that emptied the channel and changed neither queue nor SRP state. */
  lemma ReadUpdate(y: Sys, k: nat, s: Session, env: Env)
    requires Common(y, env) && k <= |y.c2s| && y.c2s[k..] == [] && Unstarted(y.cl.out) == []
    requires !s.closed && Sending(s) && s.active == [] && s.srp == y.sv.srp
    requires s.started == y.sv.started && s.queue == y.sv.queue
    ensures var z := WithServer(y.(c2s := y.c2s[k..]), s);
            && Common(z, env) && z.sv == s && z.cl == y.cl
            && ToServer(z) == [] && ToClient(z) == ToClient(y)
  {
    NoneNew(y.sv.started);
    var z := WithServer(y.(c2s := y.c2s[k..]), s);
    assert z.s2c == y.s2c;
  }

  lemma HelloEffect(y: Sys, k: nat, name: ByteSeq, env: Env)
    requires Common(y, env) && Can(y, ServerReads(k), env) && |name| < MAX_PAYLOAD
    requires Modes(y, Auth, Auth, []) && ToServer(y) == Build(Auth, Hello(name)) && ToClient(y) == []
    requires y.c2s[k..] + Unstarted(y.cl.out) == []
    ensures var z := Next(y, ServerReads(k), env);
            && Common(z, env) && Modes(z, Auth, Auth, [Challenge(HelloPayload(name))]) && Quiet(z)
            && z.cl == y.cl && z.sv.srp == y.sv.srp
  {
    ServerReadsWhole(y, k, env, Hello(name));
    var s := ReadCompleted(y.sv, y.c2s[..k], env.hash);
    assert s == y.sv.(active := [], chunks := s.chunks, frames := s.frames,
                      tasks := y.sv.tasks + [Challenge(HelloPayload(name))]);
    ReadUpdate(y, k, s, env);
  }

  lemma HelloCompletes(y: Sys, k: nat, name: ByteSeq, env: Env)
    requires Honest(name, env) && At(y, HelloSent, name, env) && Can(y, ServerReads(k), env)
    requires y.c2s[k..] + Unstarted(y.cl.out) == []
    ensures At(Next(y, ServerReads(k), env), HelloTaken, name, env)
  {
    HelloEffect(y, k, name, env);
  }

  lemma ProofFits(c: Srp, s: Srp, h: Hash)
    requires Transcript(c, s, h)
    ensures HasOpcode(Auth, ProofPacket(c)) && |ProofPacket(c).payload| == PROOF_SIZE
    ensures ProofPacket(c).payload[..32] == NumberBytes(c.pubA).value && ProofPacket(c).payload[32..52] == c.lastM1
    ensures HasOpcode(Auth, ReplyPacket(c, h)) && |ReplyPacket(c, h).payload| == 20
  {
  }

  lemma ProofEffect(y: Sys, k: nat, env: Env)
    requires Common(y, env) && Can(y, ServerReads(k), env) && Transcript(y.cl.srp, y.sv.srp, env.hash)
    requires Modes(y, Auth, Auth, []) && ToServer(y) == Build(Auth, ProofPacket(y.cl.srp)) && ToClient(y) == []
    requires y.c2s[k..] + Unstarted(y.cl.out) == []
    ensures var z := Next(y, ServerReads(k), env);
            && Common(z, env) && Modes(z, Auth, Work, [Send(Auth, ReplyPacket(y.cl.srp, env.hash))]) && Quiet(z)
            && z.cl == y.cl && z.sv.srp == y.sv.srp
  {
    ProofFits(y.cl.srp, y.sv.srp, env.hash);
    ServerReadsWhole(y, k, env, ProofPacket(y.cl.srp));
    var s := ReadCompleted(y.sv, y.c2s[..k], env.hash);
    var u := y.sv.(active := [], chunks := s.chunks, frames := s.frames);
    ProofDispatch(u, y.cl.srp, y.sv.srp, env.hash);
    ReadUpdate(y, k, s, env);
  }

  lemma ProofDispatch(u: Session, c: Srp, s: Srp, h: Hash)
    requires !u.closed && Transcript(c, s, h)
    ensures DispatchAuth(u, ProofPacket(c), h) ==
            u.(mode := Work, authenticated := true, tasks := u.tasks + [Send(Auth, ReplyPacket(c, h))])
  {
    ProofFits(c, s, h);
  }

  lemma EnterProofTaken(y: Sys, z: Sys, name: ByteSeq, env: Env)
    requires Honest(name, env) && At(y, ProofSent, name, env)
    requires Common(z, env) && Modes(z, Auth, Work, [Send(Auth, ReplyPacket(y.cl.srp, env.hash))]) && Quiet(z)
    requires z.cl == y.cl && z.sv.srp == y.sv.srp
    ensures At(z, ProofTaken, name, env)
  {
  }

  lemma ProofCompletes(y: Sys, k: nat, name: ByteSeq, env: Env)
    requires Honest(name, env) && At(y, ProofSent, name, env) && Can(y, ServerReads(k), env)
    requires y.c2s[k..] + Unstarted(y.cl.out) == []
    ensures At(Next(y, ServerReads(k), env), ProofTaken, name, env)
  {
    ProofEffect(y, k, env);
    EnterProofTaken(y, Next(y, ServerReads(k), env), name, env);
  }

  lemma ServerReadsStep(y: Sys, k: nat, p: Phase, name: ByteSeq, env: Env) returns (q: Phase)
    requires Honest(name, env) && At(y, p, name, env) && Can(y, ServerReads(k), env)
    ensures var z := Next(y, ServerReads(k), env); At(z, q, name, env) && Closer(y, p, z, q)
  {
    assert |ToServer(y)| > 0;
    assert p.HelloSent? || p.ProofSent?;
    if y.c2s[k..] + Unstarted(y.cl.out) != [] {
      q := p;
      if p.ProofSent? { ProofFits(y.cl.srp, y.sv.srp, env.hash); }
      ServerReadsPart(y, k, env, if p.HelloSent? then Hello(name) else ProofPacket(y.cl.srp));
      SamePhase(y, Next(y, ServerReads(k), env), p, name, env);
    } else if p.HelloSent? {
      q := HelloTaken;
      HelloCompletes(y, k, name, env);
    } else {
      q := ProofTaken;
      ProofCompletes(y, k, name, env);
    }
  }

  // ----- the server's tasks -----

  /** The challenge of the honest name, run on any agreeing cache. */
  lemma ChallengeEffect(s: Session, table: Table, now: nat, b: nat, name: ByteSeq, env: Env)
    requires Honest(name, env) && Agrees(table, env.db) && ServerSide(s.srp) && !s.closed
    ensures var (t, table') := RunChallenge(s, table, HelloPayload(name), env, now, b, true);
            && Agrees(table', env.db) && Prepared(t.srp, name, env)
            && (s.tasks == [] ==> t == s.(srp := t.srp, tasks := [Send(Auth, ChallengePacket(t.srp, name, env))]))
  {
    NameArrives(name);
    HitEqualsMiss(s.srp, table, HelloPayload(name), env, now, b, true);
    ChallengeKeepsAgreement(s.srp, table, HelloPayload(name), env, now, b, true);
    NumberBytesRoundTrip(RunChallenge(s, table, HelloPayload(name), env, now, b, true).0.srp.pubB);
  }

  lemma OneTask(y: Sys, now: nat, b: nat, payload: ByteSeq, env: Env)
    requires y.sv.tasks == [Challenge(payload)]
    ensures var out := RunChallenge(y.sv.(tasks := []), y.table, payload, env, now, b, true);
            Next(y, ServerRuns(0, now, b), env) == WithServer(y, out.0).(table := out.1)
  {
    assert y.sv.tasks[..0] + y.sv.tasks[1..] == [];
  }

  lemma ChallengeTask(y: Sys, now: nat, b: nat, name: ByteSeq, env: Env) returns (s: Session, table: Table)
    requires Honest(name, env) && Common(y, env) && y.sv.tasks == [Challenge(HelloPayload(name))]
    ensures Next(y, ServerRuns(0, now, b), env) == WithServer(y, s).(table := table)
    ensures Agrees(table, env.db) && Prepared(s.srp, name, env)
    ensures s == y.sv.(srp := s.srp, tasks := [Send(Auth, ChallengePacket(s.srp, name, env))])
  {
    OneTask(y, now, b, HelloPayload(name), env);
    var u := y.sv.(tasks := []);
    ChallengeEffect(u, y.table, now, b, name, env);
    var out := RunChallenge(u, y.table, HelloPayload(name), env, now, b, true);
    s, table := out.0, out.1;
  }

  lemma EnterChallengePosted(y: Sys, z: Sys, s: Session, table: Table, name: ByteSeq, env: Env)
    requires Honest(name, env) && At(y, HelloTaken, name, env)
    requires z == WithServer(y, s).(table := table) && Agrees(table, env.db) && Prepared(s.srp, name, env)
    requires s == y.sv.(srp := s.srp, tasks := [Send(Auth, ChallengePacket(s.srp, name, env))])
    ensures At(z, ChallengePosted, name, env)
  {
    TaskUpdate(y, s, table, env);
  }

  lemma ChallengeRuns(y: Sys, now: nat, b: nat, name: ByteSeq, env: Env)
    requires Honest(name, env) && At(y, HelloTaken, name, env)
    ensures At(Next(y, ServerRuns(0, now, b), env), ChallengePosted, name, env)
  {
    var s, table := ChallengeTask(y, now, b, name, env);
    EnterChallengePosted(y, Next(y, ServerRuns(0, now, b), env), s, table, name, env);
  }

  /** The state after a task that changed the SRP state, the tasks and the cache only. */
  lemma TaskUpdate(y: Sys, s: Session, table: Table, env: Env)
    requires Common(y, env) && Agrees(table, env.db)
    requires s == y.sv.(srp := s.srp, tasks := s.tasks) && ServerSide(s.srp)
    ensures var z := WithServer(y, s).(table := table);
            && Common(z, env) && z.sv == s && z.cl == y.cl
            && ToServer(z) == ToServer(y) && ToClient(z) == ToClient(y)
  {
    NoneNew(y.sv.started);
    var z := WithServer(y, s);
    assert z.s2c == y.s2c;
  }

  lemma OneSend(y: Sys, now: nat, b: nat, pk: Packet, env: Env)
    requires y.sv.tasks == [Send(Auth, pk)]
    ensures Next(y, ServerRuns(0, now, b), env) == WithServer(y, DoSendPacket(y.sv.(tasks := []), Build(Auth, pk)))
  {
    assert y.sv.tasks[..0] + y.sv.tasks[1..] == [];
  }

  /** The state after a packet was handed to the write queue. */
  lemma SendUpdate(y: Sys, raw: ByteSeq, env: Env)
    requires Common(y, env) && Quiet(y)
    ensures var s := DoSendPacket(y.sv.(tasks := []), raw);
            var z := WithServer(y, s);
            && Common(z, env)
            && z.cl == y.cl && z.sv.mode == y.sv.mode && z.sv.srp == y.sv.srp
            && z.sv.authenticated == y.sv.authenticated
            && z.sv.tasks == [] && ToServer(z) == [] && ToClient(z) == raw
  {
    var s := DoSendPacket(y.sv.(tasks := []), raw);
    ServerSendAdds(y.sv.(tasks := []), raw);
    RegroupFour(Pending(y.cl.reader), y.s2c, NewBytes(y.sv.started, s.started), Unstarted(s.queue));
    assert Pending(y.cl.reader) + y.s2c == [] && Unstarted(y.sv.queue) == [];
  }

  lemma SendRuns(y: Sys, now: nat, b: nat, env: Env, pk: Packet)
    requires Common(y, env) && Quiet(y) && y.sv.tasks == [Send(Auth, pk)]
    ensures var z := Next(y, ServerRuns(0, now, b), env);
            && Common(z, env)
            && z.cl == y.cl && z.sv.mode == y.sv.mode && z.sv.srp == y.sv.srp
            && z.sv.authenticated == y.sv.authenticated
            && z.sv.tasks == [] && ToServer(z) == [] && ToClient(z) == Build(Auth, pk)
  {
    OneSend(y, now, b, pk, env);
    SendUpdate(y, Build(Auth, pk), env);
  }

  lemma ServerRunsStep(y: Sys, i: nat, now: nat, b: nat, p: Phase, name: ByteSeq, env: Env) returns (q: Phase)
    requires Honest(name, env) && At(y, p, name, env) && Can(y, ServerRuns(i, now, b), env)
    ensures var z := Next(y, ServerRuns(i, now, b), env); At(z, q, name, env) && Closer(y, p, z, q)
  {
    assert i == 0 && (p.HelloTaken? || p.ChallengePosted? || p.ProofTaken?);
    if p.HelloTaken? {
      q := ChallengePosted;
      ChallengeRuns(y, now, b, name, env);
    } else if p.ChallengePosted? {
      q := ChallengeSent;
      SendRuns(y, now, b, env, ChallengePacket(y.sv.srp, name, env));
    } else {
      q := ReplySent;
      SendRuns(y, now, b, env, ReplyPacket(y.cl.srp, env.hash));
    }
  }

  // ----- the client's reads -----

  lemma ChallengeFields(s: Srp, name: ByteSeq, env: Env)
    requires Honest(name, env) && Prepared(s, name, env)
    ensures var p := ChallengePacket(s, name, env).payload;
            && |p| == 97 && NumberBytes(s.pubB).Some? && p[..32] == NumberBytes(s.pubB).value
            && p[32] == GENERATOR && FromBE(p[33..65]) == MODULUS && p[65..97] == s.salt
  {
    NumberBytesRoundTrip(s.pubB);
    NumberBytesRoundTrip(MODULUS);
    FourParts(NumberBytes(s.pubB).value, 7, NumberBytes(MODULUS).value, s.salt);
  }

  lemma FourParts(b: ByteSeq, g: Byte, n: ByteSeq, salt: ByteSeq)
    requires |b| == 32 && |n| == 32 && |salt| == 32
    ensures var p := b + [g] + n + salt;
            p[..32] == b && p[32] == g && p[33..65] == n && p[65..97] == salt
  {
  }

  /** What the client computes from an honest challenge. */
  lemma ClientComputes(c: Srp, s: Srp, p: ByteSeq, a: nat, h: Hash)
    requires |p| == 97 && NumberBytes(s.pubB).Some? && p[..32] == NumberBytes(s.pubB).value
    requires p[32] == GENERATOR && FromBE(p[33..65]) == MODULUS && p[65..97] == s.salt
    requires ServerSide(s) && s.pubB < TWO256
    ensures var srp := GenerateClientEphemeral(LoadConstants(c, h, p[33..65], p[32]).(salt := p[65..97]), a);
            && ComputeM1(srp, h, p[..32]).Some?
            && var (m1, srp') := ComputeM1(srp, h, p[..32]).value;
               Transcript(srp', s, h) && srp'.lastM1 == m1 && srp'.pubA == srp.pubA
  {
    var srp := GenerateClientEphemeral(LoadConstants(c, h, p[33..65], p[32]).(salt := p[65..97]), a);
    assert srp.pubA < MODULUS;
    NumberBytesRoundTrip(srp.pubA);
  }

  /** The client's answer to an honest challenge: a proof over both public values, and no exception. */
  lemma ClientAnswers(c: Client, s: Srp, a: nat, name: ByteSeq, env: Env)
    requires Honest(name, env) && Prepared(s, name, env)
    ensures var p, h := ChallengePacket(s, name, env).payload, env.hash;
            var d := HandleChallenge(c, p, a, h);
            && Transcript(d.srp, s, h)
            && d == SendRaw(c.(srp := d.srp), Build(Auth, ProofPacket(d.srp)))
  {
    ChallengeFields(s, name, env);
    ClientComputes(c.srp, s, ChallengePacket(s, name, env).payload, a, env.hash);
  }

  /** A client read that does not complete the frame on its way only moves bytes. */
  lemma ClientReadsPart(y: Sys, k: nat, a: nat, env: Env, pk: Packet)
    requires Common(y, env) && Can(y, ClientReads(k, a), env)
    requires y.cl.mode == Auth && HasOpcode(Auth, pk) && |pk.payload| <= MAX_PAYLOAD
    requires ToClient(y) == Build(Auth, pk) && y.s2c[k..] + Unstarted(y.sv.queue) != []
    ensures var z := Next(y, ClientReads(k, a), env);
            Common(z, env) && Unchanged(y, z) && Waiting(z) == Waiting(y) && OnWire(z) < OnWire(y)
  {
    var data, rest := y.s2c[..k], y.s2c[k..];
    CutAt(Pending(y.cl.reader), y.s2c, k, Unstarted(y.sv.queue));
    ClientPart(y.cl, data, a, env.hash, pk, rest + Unstarted(y.sv.queue));
    NoneNew(y.cl.started);
    var z := Next(y, ClientReads(k, a), env);
    assert z.c2s == y.c2s;
  }

  lemma ClientReadsWhole(y: Sys, k: nat, a: nat, env: Env, pk: Packet)
    requires Common(y, env) && Can(y, ClientReads(k, a), env)
    requires y.cl.mode == Auth && HasOpcode(Auth, pk) && |pk.payload| <= MAX_PAYLOAD
    requires ToClient(y) == Build(Auth, pk) && y.s2c[k..] + Unstarted(y.sv.queue) == []
    ensures Receive(y.cl, y.s2c[..k], a, env.hash) ==
            HandlePacket(y.cl.(reader := Reader([], [])), pk, a, env.hash)
    ensures y.s2c[k..] == [] && Unstarted(y.sv.queue) == []
  {
    var data, rest := y.s2c[..k], y.s2c[k..];
    assert y.s2c == data + rest;
    assert Pending(y.cl.reader) + data + [] == ToClient(y);
    ClientPart(y.cl, data, a, env.hash, pk, []);
  }

  lemma AnswerEffect(y: Sys, k: nat, a: nat, name: ByteSeq, env: Env)
    requires Honest(name, env) && Common(y, env) && Can(y, ClientReads(k, a), env)
    requires Modes(y, Auth, Auth, []) && Prepared(y.sv.srp, name, env)
    requires ToServer(y) == [] && ToClient(y) == Build(Auth, ChallengePacket(y.sv.srp, name, env))
    requires y.s2c[k..] + Unstarted(y.sv.queue) == []
    ensures var z := Next(y, ClientReads(k, a), env);
            && Common(z, env) && Modes(z, Auth, Auth, []) && z.sv == y.sv
            && Transcript(z.cl.srp, z.sv.srp, env.hash)
            && Arriving(z.sv.active, ToServer(z), ProofPacket(z.cl.srp)) && ToClient(z) == []
  {
    var c := y.cl.(reader := Reader([], []));
    var pk := ChallengePacket(y.sv.srp, name, env);
    ClientReadsWhole(y, k, a, env, pk);
    ClientAnswers(c, y.sv.srp, a, name, env);
    var d := HandleChallenge(c, pk.payload, a, env.hash);
    var raw := Build(Auth, ProofPacket(d.srp));
    AnswerUpdate(y, k, c.(srp := d.srp), raw, env);
  }

  /** The state after a client read that emptied the channel and sent one packet. */
  lemma AnswerUpdate(y: Sys, k: nat, c: Client, raw: ByteSeq, env: Env)
    requires Common(y, env) && k <= |y.s2c| && y.s2c[k..] == [] && Unstarted(y.sv.queue) == []
    requires c == y.cl.(reader := Reader([], []), srp := c.srp) && ToServer(y) == []
    ensures var d := SendRaw(c, raw);
            var z := WithClient(y.(s2c := y.s2c[k..]), d);
            && Common(z, env) && z.sv == y.sv && z.cl == d && d.mode == c.mode && d.srp == c.srp
            && z.sv.active == [] && ToServer(z) == raw && ToClient(z) == []
  {
    ClientSendAdds(c, raw);
    var d := SendRaw(c, raw);
    RegroupFour(y.sv.active, y.c2s, NewBytes(y.cl.started, d.started), Unstarted(d.out));
    assert y.sv.active == [] && y.c2s == [] && Unstarted(y.cl.out) == [];
  }

  lemma ChallengeCompletes(y: Sys, k: nat, a: nat, name: ByteSeq, env: Env)
    requires Honest(name, env) && At(y, ChallengeSent, name, env) && Can(y, ClientReads(k, a), env)
    requires y.s2c[k..] + Unstarted(y.sv.queue) == []
    ensures At(Next(y, ClientReads(k, a), env), ProofSent, name, env)
  {
    AnswerEffect(y, k, a, name, env);
  }

  lemma ReplyEffect(y: Sys, k: nat, a: nat, env: Env)
    requires Common(y, env) && Can(y, ClientReads(k, a), env) && Transcript(y.cl.srp, y.sv.srp, env.hash)
    requires Modes(y, Auth, Work, []) && ToServer(y) == []
    requires ToClient(y) == Build(Auth, ReplyPacket(y.cl.srp, env.hash))
    requires y.s2c[k..] + Unstarted(y.sv.queue) == []
    ensures var z := Next(y, ClientReads(k, a), env);
            && Common(z, env) && Modes(z, Work, Work, []) && Quiet(z)
            && z.cl.srp == y.cl.srp && z.sv == y.sv
  {
    ProofFits(y.cl.srp, y.sv.srp, env.hash);
    ClientReadsWhole(y, k, a, env, ReplyPacket(y.cl.srp, env.hash));
    var m2 := ReplyPacket(y.cl.srp, env.hash).payload;
    assert m2[..20] == m2;
    NoneNew(y.cl.started);
    var z := Next(y, ClientReads(k, a), env);
    assert z.cl == y.cl.(reader := Reader([], []), mode := Work);
    assert z.c2s == y.c2s;
  }

  lemma EnterFinished(y: Sys, z: Sys, name: ByteSeq, env: Env)
    requires Honest(name, env) && At(y, ReplySent, name, env)
    requires Common(z, env) && Modes(z, Work, Work, []) && Quiet(z) && z.cl.srp == y.cl.srp && z.sv == y.sv
    ensures At(z, Finished, name, env)
  {
  }

  lemma ReplyCompletes(y: Sys, k: nat, a: nat, name: ByteSeq, env: Env)
    requires Honest(name, env) && At(y, ReplySent, name, env) && Can(y, ClientReads(k, a), env)
    requires y.s2c[k..] + Unstarted(y.sv.queue) == []
    ensures At(Next(y, ClientReads(k, a), env), Finished, name, env)
  {
    ReplyEffect(y, k, a, env);
    EnterFinished(y, Next(y, ClientReads(k, a), env), name, env);
  }

  lemma ClientReadsStep(y: Sys, k: nat, a: nat, p: Phase, name: ByteSeq, env: Env) returns (q: Phase)
    requires Honest(name, env) && At(y, p, name, env) && Can(y, ClientReads(k, a), env)
    ensures var z := Next(y, ClientReads(k, a), env); At(z, q, name, env) && Closer(y, p, z, q)
  {
    assert |ToClient(y)| > 0;
    assert p.ChallengeSent? || p.ReplySent?;
    if y.s2c[k..] + Unstarted(y.sv.queue) != [] {
      q := p;
      if p.ReplySent? { ProofFits(y.cl.srp, y.sv.srp, env.hash); }
      ClientReadsPart(y, k, a, env,
        if p.ChallengeSent? then ChallengePacket(y.sv.srp, name, env) else ReplyPacket(y.cl.srp, env.hash));
      SamePhase(y, Next(y, ClientReads(k, a), env), p, name, env);
    } else if p.ChallengeSent? {
      q := ProofSent;
      ChallengeCompletes(y, k, a, name, env);
    } else {
      q := Finished;
      ReplyCompletes(y, k, a, name, env);
    }
  }

  // ----- all runs -----

  /** Every step keeps the handshake on its way, and all but cache traffic bring it closer to its end. */
  lemma StepAt(y: Sys, e: Move, p: Phase, name: ByteSeq, env: Env) returns (q: Phase)
    requires Honest(name, env) && At(y, p, name, env) && Can(y, e, env)
    ensures At(Next(y, e, env), q, name, env)
    ensures if e.CacheChanges? then q == p else Closer(y, p, Next(y, e, env), q)
  {
    q := p;
    match e
    case ServerReads(k) => q := ServerReadsStep(y, k, p, name, env);
    case ServerRuns(i, now, b) => q := ServerRunsStep(y, i, now, b, p, name, env);
    case ServerWrote => WroteStep(y, e, p, name, env);
    case ClientReads(k, a) => q := ClientReadsStep(y, k, a, p, name, env);
    case ClientWrote => WroteStep(y, e, p, name, env);
    case CacheChanges(t) => CacheChangesStep(y, t, p, name, env);
  }

  ghost predicate CanMove(y: Sys, env: Env) {
    exists e :: Can(y, e, env) && !e.CacheChanges?
  }

  /** Until both peers are in WORK there is always something that can happen. */
  lemma NeverStuck(y: Sys, p: Phase, name: ByteSeq, env: Env)
    requires Honest(name, env) && At(y, p, name, env)
    ensures p.Finished? || CanMove(y, env)
  {
    if y.sv.tasks != [] {
      assert Can(y, ServerRuns(0, 0, 0), env);
    } else if y.c2s != [] {
      assert Can(y, ServerReads(1), env);
    } else if y.s2c != [] {
      assert Can(y, ClientReads(1, 0), env);
    } else if y.cl.out != [] {
      assert Can(y, ClientWrote, env);
    } else if y.sv.queue != [] {
      assert Can(y, ServerWrote, env);
    } else {
      NothingLeft(y, p, name, env);
    }
  }

  lemma NothingLeft(y: Sys, p: Phase, name: ByteSeq, env: Env)
    requires Honest(name, env) && At(y, p, name, env)
    requires y.sv.tasks == [] && y.c2s == [] && y.s2c == [] && y.cl.out == [] && y.sv.queue == []
    ensures p.Finished?
  {
    assert ToServer(y) == y.sv.active && ToClient(y) == Pending(y.cl.reader);
    if p.ChallengeSent? {
      BuiltIsFrame(ChallengePacket(y.sv.srp, name, env));
    } else if p.ReplySent? {
      ProofFits(y.cl.srp, y.sv.srp, env.hash);
      BuiltIsFrame(ReplyPacket(y.cl.srp, env.hash));
    }
  }

  ghost predicate IsRun(y: Sys, es: seq<Move>, env: Env)
    decreases |es|
  {
    es == [] || (Can(y, es[0], env) && IsRun(Next(y, es[0], env), es[1..], env))
  }

  ghost function After(y: Sys, es: seq<Move>, env: Env): Sys
    requires IsRun(y, es, env)
    decreases |es|
  {
    if es == [] then y else After(Next(y, es[0], env), es[1..], env)
  }

  lemma {:induction false} RunAt(y: Sys, es: seq<Move>, p: Phase, name: ByteSeq, env: Env) returns (q: Phase)
    requires Honest(name, env) && At(y, p, name, env) && IsRun(y, es, env)
    ensures At(After(y, es, env), q, name, env)
    decreases |es|
  {
    if es == [] {
      q := p;
    } else {
      var e, rest := es[0], es[1..];
      q := StepAt(y, e, p, name, env);
      var z := Next(y, e, env);
      q := RunAt(z, rest, q, name, env);
      assert After(y, es, env) == After(z, rest, env);
    }
  }

  /**
   * Safety of every run of an honest logon: no read or padding fails, nobody disconnects or
   * closes, the client is in WORK only if the server is, and where nothing but cache
   * traffic is left to happen both are, with the same transcript.
   */
  lemma HandshakeSafe(name: ByteSeq, table: Table, env: Env, es: seq<Move>)
    requires Honest(name, env) && Agrees(table, env.db)
    requires IsRun(Begin(name, table, env), es, env)
    ensures var y := After(Begin(name, table, env), es, env);
            && y.cl.connected && !y.cl.disconnecting && !y.sv.closed
            && (y.cl.mode == Work ==> Done(y) && Transcript(y.cl.srp, y.sv.srp, env.hash))
            && (!CanMove(y, env) ==> Done(y) && Transcript(y.cl.srp, y.sv.srp, env.hash))
  {
    BeginAt(name, table, env);
    var q := RunAt(Begin(name, table, env), es, HelloSent, name, env);
    NeverStuck(After(Begin(name, table, env), es, env), q, name, env);
  }

  // ----- all schedules -----

  /** Who moves at which time, cache traffic included. */
  type Pick = (nat, Sys) -> Move

  ghost predicate Follows(y: Sys, es: seq<Move>, pick: Pick, n: nat, env: Env)
    requires IsRun(y, es, env)
    decreases |es|
  {
    es == [] || (es[0] == pick(n, y) && Follows(Next(y, es[0], env), es[1..], pick, n + 1, env))
  }

  /** At time n a peer moves if one can. */
  ghost predicate PeersDue(pick: Pick, n: nat, env: Env) {
    forall y :: CanMove(y, env) ==> !pick(n, y).CacheChanges?
  }

  ghost predicate DueFrom(pick: Pick, n: nat, env: Env) {
    exists m: nat :: n <= m && PeersDue(pick, m, env)
  }

  /** Only possible steps are picked, and cache traffic does not hold up the peers for ever. */
  ghost predicate Schedule(pick: Pick, env: Env) {
    && (forall n, y :: CanMove(y, env) ==> Can(y, pick(n, y), env))
    && forall n: nat :: DueFrom(pick, n, env)
  }

  lemma SomeSchedule(env: Env) returns (pick: Pick)
    ensures Schedule(pick, env)
  {
    pick := (n: nat, y: Sys) =>
      if CanMove(y, env) then var e :| Can(y, e, env) && !e.CacheChanges?; e else ServerWrote;
    forall n: nat ensures DueFrom(pick, n, env) {
      assert PeersDue(pick, n, env);
    }
  }

  /** The named account is logged on and both peers know it. */
  ghost predicate LoggedOn(y: Sys, name: ByteSeq, env: Env) {
    Done(y) && Transcript(y.cl.srp, y.sv.srp, env.hash) && y.sv.srp.username == MapCase(name, Upper)
  }

  lemma RunCons(y: Sys, e: Move, rest: seq<Move>, pick: Pick, n: nat, env: Env)
    requires Can(y, e, env) && IsRun(Next(y, e, env), rest, env)
    requires e == pick(n, y) && Follows(Next(y, e, env), rest, pick, n + 1, env)
    ensures IsRun(y, [e] + rest, env) && Follows(y, [e] + rest, pick, n, env)
    ensures After(y, [e] + rest, env) == After(Next(y, e, env), rest, env)
  {
    assert ([e] + rest)[1..] == rest;
  }

  lemma FinishedIsLoggedOn(y: Sys, name: ByteSeq, env: Env)
    requires Honest(name, env) && At(y, Finished, name, env)
    ensures LoggedOn(y, name, env)
  {
  }

  /** The step picked at time n, and when a peer is next due after it. */
  lemma PickedStep(y: Sys, p: Phase, name: ByteSeq, env: Env, pick: Pick, n: nat, m: nat) returns (q: Phase, m': nat)
    requires Honest(name, env) && At(y, p, name, env) && Schedule(pick, env) && !p.Finished?
    requires n <= m && PeersDue(pick, m, env)
    ensures Can(y, pick(n, y), env)
    ensures var z := Next(y, pick(n, y), env);
            && At(z, q, name, env)
            && (Closer(y, p, z, q) || (q == p && Waiting(z) == Waiting(y) && OnWire(z) == OnWire(y) && m' == m))
    ensures n < m' && PeersDue(pick, m', env)
  {
    PickedCan(y, p, name, env, pick, n);
    var e := pick(n, y);
    q := StepAt(y, e, p, name, env);
    if e.CacheChanges? {
      DueLater(pick, y, n, m, env);
      CacheMovesNothing(y, e, env);
      m' := m;
    } else {
      m' := NextDue(pick, n, env);
    }
  }

  lemma DueLater(pick: Pick, y: Sys, n: nat, m: nat, env: Env)
    requires n <= m && PeersDue(pick, m, env) && CanMove(y, env) && pick(n, y).CacheChanges?
    ensures n < m
  {
  }

  lemma PickedCan(y: Sys, p: Phase, name: ByteSeq, env: Env, pick: Pick, n: nat)
    requires Honest(name, env) && At(y, p, name, env) && Schedule(pick, env) && !p.Finished?
    ensures CanMove(y, env) && Can(y, pick(n, y), env)
  {
    NeverStuck(y, p, name, env);
  }

  lemma NextDue(pick: Pick, n: nat, env: Env) returns (m: nat)
    requires Schedule(pick, env)
    ensures n < m && PeersDue(pick, m, env)
  {
    assert DueFrom(pick, n + 1, env);
    m :| n + 1 <= m && PeersDue(pick, m, env);
  }

  lemma CacheMovesNothing(y: Sys, e: Move, env: Env)
    requires e.CacheChanges? && Can(y, e, env)
    ensures Waiting(Next(y, e, env)) == Waiting(y) && OnWire(Next(y, e, env)) == OnWire(y)
  {
  }

  /** From any phase, at any time n with m the next at which a peer is due, every schedule finishes. */
  lemma {:induction false} FinishesFrom(y: Sys, p: Phase, name: ByteSeq, env: Env, pick: Pick, n: nat, m: nat)
    returns (es: seq<Move>)
    requires Honest(name, env) && At(y, p, name, env) && Schedule(pick, env)
    requires n <= m && PeersDue(pick, m, env)
    ensures IsRun(y, es, env) && Follows(y, es, pick, n, env) && LoggedOn(After(y, es, env), name, env)
    decreases 8 - Order(p), Waiting(y), OnWire(y), m - n
  {
    if p.Finished? {
      es := [];
      FinishedIsLoggedOn(y, name, env);
    } else {
      var q, m' := PickedStep(y, p, name, env, pick, n, m);
      var e := pick(n, y);
      var rest := FinishesFrom(Next(y, e, env), q, name, env, pick, n + 1, m');
      es := [e] + rest;
      RunCons(y, e, rest, pick, n, env);
    }
  }

  /** However the next step is picked among those possible, the logon ends with both peers in WORK. */
  lemma EveryScheduleFinishes(y: Sys, p: Phase, name: ByteSeq, env: Env, pick: Pick, n: nat) returns (es: seq<Move>)
    requires Honest(name, env) && At(y, p, name, env) && Schedule(pick, env)
    ensures IsRun(y, es, env) && Follows(y, es, pick, n, env) && LoggedOn(After(y, es, env), name, env)
  {
    assert DueFrom(pick, n, env);
    var m: nat :| n <= m && PeersDue(pick, m, env);
    es := FinishesFrom(y, p, name, env, pick, n, m);
  }

  /**
   * Honest handshake end to end: whatever has happened so far, whatever the schedule from
   * here on, the pieces in which bytes arrive, the random numbers, the cache traffic of
   * other sessions and the hash, following the schedule logs the named account on.
   */
  lemma HonestLogonCompletes(name: ByteSeq, table: Table, env: Env, past: seq<Move>, pick: Pick)
    returns (es: seq<Move>)
    requires Honest(name, env) && Agrees(table, env.db) && Schedule(pick, env)
    requires IsRun(Begin(name, table, env), past, env)
    ensures var y := After(Begin(name, table, env), past, env);
            IsRun(y, es, env) && Follows(y, es, pick, |past|, env) && LoggedOn(After(y, es, env), name, env)
  {
    BeginAt(name, table, env);
    var q := RunAt(Begin(name, table, env), past, HelloSent, name, env);
    es := EveryScheduleFinishes(After(Begin(name, table, env), past, env), q, name, env, pick, |past|);
  }

  // ----- names that do not fit a frame -----

  /**
   * No session ever knows a longer user name than a frame holds, whatever the lengths on the
   * wire wrap to.
   */
  ghost predicate ShortNames(s: Session) {
    && |s.srp.username| <= MAX_PAYLOAD
    && forall t :: t in s.tasks && t.Challenge? ==> |t.payload| <= MAX_PAYLOAD
  }

  lemma DispatchKeepsShort(s: Session, p: Packet, h: Hash)
    requires ShortNames(s) && |p.payload| <= MAX_PAYLOAD
    ensures ShortNames(DispatchAuth(s, p, h)) && ShortNames(DispatchWork(s, p))
  {
  }

  lemma ReadKeepsShort(s: Session, data: ByteSeq, h: Hash)
    requires ShortNames(s)
    ensures ShortNames(ReadCompleted(s, data, h))
  {
    var m, all := s.mode, s.active + data;
    if !s.closed && Ready(m, all) {
      var f, rest := Split(m, all);
      FrameParses(m, f);
      var t := s.(chunks := s.chunks + [data], active := rest, frames := s.frames + [f]);
      DispatchKeepsShort(t, Deserialize(m, f).value, h);
    }
  }

  lemma NameIsShort(srp: Srp, table: Table, payload: ByteSeq, env: Env, now: nat, b: nat)
    requires |payload| <= MAX_PAYLOAD && |srp.username| <= MAX_PAYLOAD
    ensures |LogonChallenge(srp, table, payload, env, now, b, true).srp.username| <= MAX_PAYLOAD
  {
    assert |UsernameOf(payload)| <= |payload|;
  }

  lemma ChallengeKeepsShort(s: Session, table: Table, payload: ByteSeq, env: Env, now: nat, b: nat)
    requires ShortNames(s) && |payload| <= MAX_PAYLOAD
    ensures ShortNames(RunChallenge(s, table, payload, env, now, b, true).0)
  {
    NameIsShort(s.srp, table, payload, env, now, b);
  }

  lemma TaskKeepsShort(s: Session, table: Table, e: Sessions.Event, env: Env)
    requires ShortNames(s) && e.RunTask? && e.dbUp && Enabled(s, e)
    ensures ShortNames(Step(s, table, e, env).0)
  {
    var task, t := s.tasks[e.i], s.(tasks := s.tasks[..e.i] + s.tasks[e.i + 1..]);
    assert ShortNames(t) by {
      assert forall u :: u in t.tasks ==> u in s.tasks;
    }
    assert task in s.tasks;
    if task.Challenge? {
      ChallengeKeepsShort(t, table, task.payload, env, e.now, e.b);
    }
  }

  lemma BeginShort(name: ByteSeq, table: Table, env: Env)
    ensures ShortNames(Begin(name, table, env).sv)
  {
  }

  lemma MoveKeepsShort(y: Sys, e: Move, env: Env)
    requires ShortNames(y.sv) && Can(y, e, env)
    ensures ShortNames(Next(y, e, env).sv)
  {
    if e.ServerReads? {
      ReadKeepsShort(y.sv, y.c2s[..e.k], env.hash);
    } else if e.ServerRuns? {
      TaskKeepsShort(y.sv, y.table, RunTask(e.i, e.now, e.b, true), env);
    }
  }

  lemma {:induction false} RunKeepsShort(y: Sys, es: seq<Move>, env: Env)
    requires ShortNames(y.sv) && IsRun(y, es, env)
    ensures ShortNames(After(y, es, env).sv)
    decreases |es|
  {
    if es != [] {
      var e, rest := es[0], es[1..];
      MoveKeepsShort(y, e, env);
      RunKeepsShort(Next(y, e, env), rest, env);
      assert After(y, es, env) == After(Next(y, e, env), rest, env);
    }
  }

  /** What the 16-bit field says about the name and its NUL. */
  function WireLength(name: ByteSeq): nat {
    (|name| + 1) % 0x1_0000
  }

  /** The server is still waiting for the rest of the packet, or has closed on it. */
  ghost predicate Refused(y: Sys, name: ByteSeq) {
    && y.cl.mode == Auth && y.cl.connected && ClientSending(y.cl)
    && y.sv.mode == Auth && y.sv.tasks == [] && y.sv.queue == []
    && y.s2c == [] && y.cl.reader == Reader([], [])
    && !y.sv.authenticated
    && (!y.sv.closed ==> ToServer(y) == Build(Auth, Hello(name)) && !Whole(Auth, y.sv.active))
  }

  lemma LongHello(name: ByteSeq, all: ByteSeq)
    requires WireLength(name) > MAX_PAYLOAD && all <= Build(Auth, Hello(name))
    ensures |all| >= 3 ==> Length(Auth, all) > MAX_PAYLOAD
  {
    HeaderOfBuilt(Auth, Hello(name), []);
    assert Build(Auth, Hello(name)) + [] == Build(Auth, Hello(name));
  }

  lemma RefusedRead(y: Sys, k: nat, name: ByteSeq, env: Env)
    requires WireLength(name) > MAX_PAYLOAD && Refused(y, name) && Can(y, ServerReads(k), env)
    ensures Refused(Next(y, ServerReads(k), env), name)
  {
    var data := y.c2s[..k];
    var all := y.sv.active + data;
    CutAt(y.sv.active, y.c2s, k, Unstarted(y.cl.out));
    LongHello(name, all);
    NoneNew(y.sv.started);
    if Whole(Auth, all) {
      assert ReadCompleted(y.sv, data, env.hash) ==
             Close(y.sv.(active := all, chunks := y.sv.chunks + [data]));
    } else {
      ReadPart(y.sv, data, env.hash);
    }
  }

  lemma RefusedStep(y: Sys, e: Move, name: ByteSeq, env: Env)
    requires WireLength(name) > MAX_PAYLOAD && Refused(y, name) && Can(y, e, env)
    ensures Refused(Next(y, e, env), name)
  {
    if e.ServerReads? {
      RefusedRead(y, e.k, name, env);
    } else if e.ClientWrote? {
      ClientWriteKeeps(y.cl);
      var z := Next(y, e, env);
      RegroupFour(y.sv.active, y.c2s, NewBytes(y.cl.started, z.cl.started), Unstarted(z.cl.out));
    }
  }

  lemma {:induction false} RefusedRun(y: Sys, es: seq<Move>, name: ByteSeq, env: Env)
    requires WireLength(name) > MAX_PAYLOAD && Refused(y, name) && IsRun(y, es, env)
    ensures Refused(After(y, es, env), name)
    decreases |es|
  {
    if es != [] {
      var e, rest := es[0], es[1..];
      RefusedStep(y, e, name, env);
      var z := Next(y, e, env);
      RefusedRun(z, rest, name, env);
      assert After(y, es, env) == After(z, rest, env);
    }
  }

  /**
   * A name announced with more than 2048 bytes never logs on: neither side leaves AUTH, and
   * the server has closed once it has all that the client sends. The one other case of a long
   * name is a length that wraps to 2048 or less, where the server sees another, shorter name.
   */
  lemma OversizeNameNeverLogsOn(name: ByteSeq, table: Table, env: Env, es: seq<Move>)
    requires WireLength(name) > MAX_PAYLOAD && Agrees(table, env.db)
    requires IsRun(Begin(name, table, env), es, env)
    ensures var y := After(Begin(name, table, env), es, env);
            && y.cl.mode == Auth && y.sv.mode == Auth && !y.sv.authenticated
            && (y.c2s == [] && y.cl.out == [] ==> y.sv.closed)
  {
    BeginRefused(name, table, env);
    RefusedRun(Begin(name, table, env), es, name, env);
    EndsRefused(After(Begin(name, table, env), es, env), name);
  }

  lemma BeginRefused(name: ByteSeq, table: Table, env: Env)
    requires Agrees(table, env.db)
    ensures Refused(Begin(name, table, env), name)
  {
    BeginEffect(name, table, env);
    var y := Begin(name, table, env);
    NoneNew(y.sv.started);
    assert y.sv == Sessions.Start(env.hash) && y.cl.reader == Reader([], []);
  }

  lemma EndsRefused(y: Sys, name: ByteSeq)
    requires WireLength(name) > MAX_PAYLOAD && Refused(y, name)
    ensures y.c2s == [] && y.cl.out == [] ==> y.sv.closed
  {
    HeaderOfBuilt(Auth, Hello(name), []);
    assert Build(Auth, Hello(name)) + [] == Build(Auth, Hello(name));
    if y.c2s == [] && y.cl.out == [] {
      assert y.sv.active + [] + [] == y.sv.active;
    }
  }

  /** The server serves the named account to whoever is at the other end. */
  ghost predicate Admitted(y: Sys, name: ByteSeq) {
    y.sv.mode == Work && y.sv.srp.username == MapCase(name, Upper)
  }

  lemma OneByteTooLong(name: ByteSeq)
    requires |name| == MAX_PAYLOAD
    ensures WireLength(name) > MAX_PAYLOAD
  {
  }

  lemma ShortIsAnother(y: Sys, name: ByteSeq)
    requires ShortNames(y.sv) && |name| > MAX_PAYLOAD
    ensures !Admitted(y, name)
  {
  }

  /** No run at all admits a name of 2048 bytes or more, whatever its length wraps to. */
  lemma LongNameNeverAdmitted(name: ByteSeq, table: Table, env: Env, es: seq<Move>)
    requires |name| >= MAX_PAYLOAD && Agrees(table, env.db)
    requires IsRun(Begin(name, table, env), es, env)
    ensures !Admitted(After(Begin(name, table, env), es, env), name)
  {
    var start := Begin(name, table, env);
    if |name| == MAX_PAYLOAD {
      OneByteTooLong(name);
      OversizeNameNeverLogsOn(name, table, env, es);
    } else {
      BeginShort(name, table, env);
      RunKeepsShort(start, es, env);
      ShortIsAnother(After(start, es, env), name);
    }
  }

  ghost predicate CanLogOn(name: ByteSeq, table: Table, env: Env) {
    exists es :: IsRun(Begin(name, table, env), es, env) && LoggedOn(After(Begin(name, table, env), es, env), name, env)
  }

  /** A registered name can be logged on if and only if it is shorter than 2048 bytes. */
  lemma LogonIff(name: ByteSeq, table: Table, env: Env)
    requires Registered(name, env) && Agrees(table, env.db)
    ensures CanLogOn(name, table, env) <==> |name| < 2048
  {
    if |name| < MAX_PAYLOAD {
      var pick := SomeSchedule(env);
      var es := HonestLogonCompletes(name, table, env, [], pick);
    } else if CanLogOn(name, table, env) {
      var es :| IsRun(Begin(name, table, env), es, env) && LoggedOn(After(Begin(name, table, env), es, env), name, env);
      LongNameNeverAdmitted(name, table, env, es);
    }
  }
}
