/**
 * The client's end of one connection (Client.cpp): exact reads of a header and then of a
 * payload, the packet handlers of the logon, and the outgoing queue.
 */
module Clients {
  import opened Bytes
  import opened Packets
  import opened Framing
  import opened Srp6s
  import opened Handlers

  // ----- the exact-read parser -----

  /** The read in progress: of a header while `header` is empty, of its payload afterwards. */
  datatype Reader = Reader(header: ByteSeq, got: ByteSeq)

  function Pending(r: Reader): ByteSeq {
    r.header + r.got
  }

  predicate Reading(m: Mode, r: Reader) {
    if r.header == [] then |r.got| < m.HeaderSize()
    else |r.header| == m.HeaderSize() && |r.got| < Length(m, r.header) <= MAX_PAYLOAD
  }

  /** How many bytes the read in progress still wants. */
  function Wanted(m: Mode, r: Reader): (n: nat)
    requires Reading(m, r)
    ensures n > 0
  {
    (if r.header == [] then m.HeaderSize() else Length(m, r.header)) - |r.got|
  }

  datatype Absorbed = More(reader: Reader) | Frame(raw: ByteSeq) | TooBig

  /** The arrival of bytes for the read in progress, and its completion handler if it is done. */
  function Absorb(m: Mode, r: Reader, data: ByteSeq): Absorbed
    requires Reading(m, r) && |data| <= Wanted(m, r)
  {
    var got := r.got + data;
    if |data| < Wanted(m, r) then More(r.(got := got))
    else if r.header != [] then Frame(r.header + got)
    else if Length(m, got) > MAX_PAYLOAD then TooBig
    else if Length(m, got) == 0 then Frame(got)
    else More(Reader(got, []))
  }

  lemma AbsorbSound(m: Mode, r: Reader, data: ByteSeq)
    requires Reading(m, r) && |data| <= Wanted(m, r)
    ensures match Absorb(m, r, data)
            case More(r') => Reading(m, r') && Pending(r') == Pending(r) + data && !Ready(m, Pending(r'))
            case Frame(f) => f == Pending(r) + data && IsFrame(m, f)
            case TooBig => |Pending(r) + data| == m.HeaderSize() && Length(m, Pending(r) + data) > 2048
  {
    if r.header == [] { HeaderSound(m, r, data); } else { PayloadSound(m, r, data); }
  }

  lemma HeaderSound(m: Mode, r: Reader, data: ByteSeq)
    requires r.header == [] && Reading(m, r) && |data| <= Wanted(m, r)
    ensures match Absorb(m, r, data)
            case More(r') => Reading(m, r') && Pending(r') == r.got + data && !Ready(m, Pending(r'))
            case Frame(f) => f == r.got + data && IsFrame(m, f)
            case TooBig => |r.got + data| == m.HeaderSize() && Length(m, r.got + data) > 2048
  {
    assert r.header + (r.got + data) == r.got + data == (r.got + data) + [];
  }

  lemma PayloadSound(m: Mode, r: Reader, data: ByteSeq)
    requires r.header != [] && Reading(m, r) && |data| <= Wanted(m, r)
    ensures match Absorb(m, r, data)
            case More(r') => Reading(m, r') && Pending(r') == Pending(r) + data && !Ready(m, Pending(r'))
            case Frame(f) => f == Pending(r) + data && IsFrame(m, f)
            case TooBig => false
  {
    Regroup(r.header, r.got, data);
    assert Length(m, Pending(r) + data) == Length(m, r.header);
  }

  /** The parser alone, with the mode following a rule; `left` is what came after the last frame. */
  datatype Parser = Parser(mode: Mode, reader: Reader, broken: bool, frames: seq<ByteSeq>, left: ByteSeq)

  function NewParser(m: Mode): Parser {
    Parser(m, Reader([], []), false, [], [])
  }

  predicate CanTake(p: Parser, data: ByteSeq) {
    !p.broken && Reading(p.mode, p.reader) && |data| <= Wanted(p.mode, p.reader)
  }

  function Take(p: Parser, data: ByteSeq, rule: ModeRule): Parser
    requires CanTake(p, data)
  {
    match Absorb(p.mode, p.reader, data)
    case More(r) => p.(reader := r, left := p.left + data)
    case Frame(f) => Parser(rule(p.mode, f), Reader([], []), false, p.frames + [f], [])
    case TooBig => p.(broken := true, left := p.left + data)
  }

  ghost predicate ParserInv(p: Parser, m: Mode, rule: ModeRule) {
    && Framed(m, p.frames, rule)
    && p.mode == ModeAfter(m, p.frames, rule)
    && !Ready(p.mode, p.left)
    && (!p.broken ==> Reading(p.mode, p.reader) && p.left == Pending(p.reader))
  }

  lemma TakeInv(p: Parser, data: ByteSeq, m: Mode, rule: ModeRule)
    requires ParserInv(p, m, rule) && CanTake(p, data)
    ensures ParserInv(Take(p, data, rule), m, rule)
  {
    AbsorbSound(p.mode, p.reader, data);
    var absorbed := Absorb(p.mode, p.reader, data);
    if absorbed.Frame? {
      FramedSnoc(m, p.frames, absorbed.raw, rule);
    }
  }

  lemma TakeKeepsBytes(p: Parser, data: ByteSeq, rule: ModeRule)
    requires CanTake(p, data) && p.left == Pending(p.reader)
    ensures var q := Take(p, data, rule);
            Flatten(q.frames) + q.left == Flatten(p.frames) + p.left + data
  {
    AbsorbSound(p.mode, p.reader, data);
    var absorbed := Absorb(p.mode, p.reader, data);
    if absorbed.Frame? {
      FlattenSnoc(p.frames, absorbed.raw);
    }
  }

  ghost predicate IsFeed(p: Parser, datas: seq<ByteSeq>, rule: ModeRule)
    decreases |datas|
  {
    datas == [] || (CanTake(p, datas[0]) && IsFeed(Take(p, datas[0], rule), datas[1..], rule))
  }

  ghost function Fed(p: Parser, datas: seq<ByteSeq>, rule: ModeRule): Parser
    requires IsFeed(p, datas, rule)
    decreases |datas|
  {
    if datas == [] then p else Fed(Take(p, datas[0], rule), datas[1..], rule)
  }

  lemma {:induction false} FedInv(p: Parser, datas: seq<ByteSeq>, m: Mode, rule: ModeRule)
    requires ParserInv(p, m, rule) && IsFeed(p, datas, rule)
    ensures ParserInv(Fed(p, datas, rule), m, rule)
    ensures var q := Fed(p, datas, rule);
            Flatten(q.frames) + q.left == Flatten(p.frames) + p.left + Flatten(datas)
    decreases |datas|
  {
    if datas != [] {
      var first, rest := datas[0], datas[1..];
      TakeInv(p, first, m, rule);
      TakeKeepsBytes(p, first, rule);
      var t := Take(p, first, rule);
      FedInv(t, rest, m, rule);
      assert Fed(p, datas, rule) == Fed(t, rest, rule);
    }
  }

  /**
   * However the stream is cut, and whatever the mode rule, the exact-read parser has
   * extracted all frames of the reference parse at every moment: it has no backlog.
   */
  lemma ClientParsesAll(datas: seq<ByteSeq>, m: Mode, rule: ModeRule)
    requires IsFeed(NewParser(m), datas, rule)
    ensures Fed(NewParser(m), datas, rule).frames == Parse(m, Flatten(datas), rule)
  {
    FedInv(NewParser(m), datas, m, rule);
    var p := Fed(NewParser(m), datas, rule);
    assert Flatten(p.frames) + p.left == Flatten(datas);
    ParseUnique(m, p.frames, p.left, rule);
  }

  // ----- the client -----

  datatype Client = Client(
    mode: Mode,
    connected: bool,
    disconnecting: bool,      // a disconnect() was posted
    reader: Reader,
    out: seq<ByteSeq>,        // outgoing_queue
    srp: Srp,
    started: seq<ByteSeq>,    // history: writes started
    written: seq<ByteSeq>)    // history: writes completed

  function Connected(h: Hash): Client {
    Client(Auth, true, false, Reader([], []), [], Fresh(h), [], [])
  }

  /** flush_queue starts the write of the front packet. */
  function FlushQueue(c: Client): Client {
    if !c.connected || c.out == [] then c else c.(started := c.started + [c.out[0]])
  }

  /** send_packet_impl: the write is started only when the packet is alone in the queue. */
  function SendRaw(c: Client, raw: ByteSeq): Client {
    var t := c.(out := c.out + [raw]);
    if c.connected && |t.out| == 1 then FlushQueue(t) else t
  }

  function ClientWritten(c: Client): Client
    requires c.out != []
  {
    FlushQueue(c.(out := c.out[1..], written := c.written + [c.out[0]]))
  }

  /** handle_logon_challenge of the client: names the user and sends the name. */
  function BeginLogon(c: Client, username: ByteSeq): Client {
    SendRaw(c.(srp := c.srp.(username := username)),
            Build(Auth, Packet(CMSG_CHALLENGE, Reverse(username) + [0])))
  }

  /** SMSG_AUTH_LOGON_CHALLENGE: any exception ends in disconnect(). */
  function HandleChallenge(c: Client, p: ByteSeq, a: nat, h: Hash): Client {
    if |p| < 97 then c.(disconnecting := true) else
      var srp := GenerateClientEphemeral(LoadConstants(c.srp, h, p[33..65], p[32]).(salt := p[65..97]), a);
      match ComputeM1(srp, h, p[..32])
      case None => c.(srp := srp, disconnecting := true)
      case Some((m1, srp')) =>
        SendRaw(c.(srp := srp'), Build(Auth, Packet(CMSG_PROOF, NumberBytes(srp.pubA).value + m1)))
  }

  /** SMSG_AUTH_LOGON_PROOF: a packet too short throws into the receive loop, which goes on. */
  function HandleProof(c: Client, p: ByteSeq, h: Hash): Client {
    if |p| < 20 || NumberBytes(c.srp.pubA).None? then c
    else if VerifyServerProof(c.srp, h, c.srp.lastM1, p[..20]) then c.(mode := Work)
    else c.(disconnecting := true)
  }

  function HandlePacket(c: Client, p: Packet, a: nat, h: Hash): Client {
    if c.mode.Work? then c   // work packets are only logged
    else if p.opcode == SMSG_CHALLENGE then HandleChallenge(c, p.payload, a, h)
    else if p.opcode == SMSG_PROOF then HandleProof(c, p.payload, h)
    else if p.opcode == SMSG_RESPONSE && |p.payload| >= 2 then c.(disconnecting := true)
    else c
  }

  function Idle(c: Client): Client {
    c.(reader := Reader([], []))
  }

  /** A completed frame; one that does not parse is dropped. */
  function HandleFrame(c: Client, f: ByteSeq, a: nat, h: Hash): Client {
    match Deserialize(c.mode, f)
    case None => c
    case Some(p) => HandlePacket(c, p, a, h)
  }

  /** Bytes for the read in progress; `a` is what a challenge handler would draw. */
  function Receive(c: Client, data: ByteSeq, a: nat, h: Hash): Client
    requires Reading(c.mode, c.reader) && |data| <= Wanted(c.mode, c.reader)
  {
    match Absorb(c.mode, c.reader, data)
    case More(r) => c.(reader := r)
    case TooBig => c.(connected := false)
    case Frame(f) => HandleFrame(Idle(c), f, a, h)
  }

  // ----- runs of the client -----

  predicate CanReceive(c: Client, data: ByteSeq) {
    c.connected && Reading(c.mode, c.reader) && |data| <= Wanted(c.mode, c.reader)
  }

  /** A client and the frames it has handled; the n-th frame draws the n-th random number. */
  datatype Listener = Listener(client: Client, frames: seq<ByteSeq>)

  function Handled(l: Listener, f: ByteSeq, draws: nat -> nat, h: Hash): Listener {
    Listener(HandleFrame(l.client, f, draws(|l.frames|), h), l.frames + [f])
  }

  function Listen(l: Listener, data: ByteSeq, draws: nat -> nat, h: Hash): Listener
    requires CanReceive(l.client, data)
  {
    var c := Receive(l.client, data, draws(|l.frames|), h);
    match Absorb(l.client.mode, l.client.reader, data)
    case Frame(f) => Listener(c, l.frames + [f])
    case _ => Listener(c, l.frames)
  }

  ghost predicate Hears(l: Listener, datas: seq<ByteSeq>, draws: nat -> nat, h: Hash)
    decreases |datas|
  {
    datas == [] || (CanReceive(l.client, datas[0]) && Hears(Listen(l, datas[0], draws, h), datas[1..], draws, h))
  }

  ghost function Hear(l: Listener, datas: seq<ByteSeq>, draws: nat -> nat, h: Hash): Listener
    requires Hears(l, datas, draws, h)
    decreases |datas|
  {
    if datas == [] then l else Hear(Listen(l, datas[0], draws, h), datas[1..], draws, h)
  }

  /** The reference: the frames that head the stream, each handled before the next is cut. */
  function HandleStream(l: Listener, s: ByteSeq, draws: nat -> nat, h: Hash): Listener
    decreases |s|
  {
    if !Ready(l.client.mode, s) then l else
      var f := s[..FrameSize(l.client.mode, s)];
      HandleStream(Handled(l, f, draws, h), s[|f|..], draws, h)
  }

  /** All but the read in progress and an oversize header that ended the connection. */
  function Settled(l: Listener): Listener {
    l.(client := Idle(l.client).(connected := true))
  }

  lemma NotReadyWhileReading(m: Mode, r: Reader)
    requires Reading(m, r)
    ensures !Ready(m, Pending(r))
  {
    assert r.header != [] ==> Length(m, Pending(r)) == Length(m, r.header);
  }

  lemma HandlingKeepsConnection(c: Client, f: ByteSeq, a: nat, h: Hash)
    ensures HandleFrame(c, f, a, h).connected == c.connected
    ensures HandleFrame(c, f, a, h).reader == c.reader
  {
  }

  lemma ListenPart(l: Listener, data: ByteSeq, draws: nat -> nat, h: Hash)
    requires CanReceive(l.client, data) && Absorb(l.client.mode, l.client.reader, data).More?
    ensures var m, c := Listen(l, data, draws, h), l.client;
            && m.client.connected && Reading(m.client.mode, m.client.reader)
            && Settled(m) == Settled(l) && Pending(m.client.reader) == Pending(c.reader) + data
  {
    AbsorbSound(l.client.mode, l.client.reader, data);
  }

  lemma ListenFrame(l: Listener, data: ByteSeq, draws: nat -> nat, h: Hash)
    requires CanReceive(l.client, data) && Absorb(l.client.mode, l.client.reader, data).Frame?
    ensures var m, c, f := Listen(l, data, draws, h), l.client, Pending(l.client.reader) + data;
            && m.client.connected && m.client.reader == Reader([], [])
            && IsFrame(c.mode, f) && Settled(m) == Handled(Settled(l), f, draws, h)
  {
    var c := l.client;
    AbsorbSound(c.mode, c.reader, data);
    HandlingKeepsConnection(Idle(c), Pending(c.reader) + data, draws(|l.frames|), h);
    assert Idle(c).(connected := true) == Idle(c);
  }

  lemma ListenTooBig(l: Listener, data: ByteSeq, draws: nat -> nat, h: Hash)
    requires CanReceive(l.client, data) && Absorb(l.client.mode, l.client.reader, data).TooBig?
    ensures var m, c := Listen(l, data, draws, h), l.client;
            && !m.client.connected && Settled(m) == Settled(l) && !Ready(c.mode, Pending(c.reader) + data)
  {
    AbsorbSound(l.client.mode, l.client.reader, data);
  }

  lemma HandleStreamCons(l: Listener, f: ByteSeq, t: ByteSeq, draws: nat -> nat, h: Hash)
    requires IsFrame(l.client.mode, f)
    ensures HandleStream(l, f + t, draws, h) == HandleStream(Handled(l, f, draws, h), t, draws, h)
  {
    HeaderFixesFrame(l.client.mode, f, t);
  }

  lemma HeadFirst(pending: ByteSeq, datas: seq<ByteSeq>)
    requires datas != []
    ensures pending + Flatten(datas) == (pending + datas[0]) + Flatten(datas[1..])
  {
    Regroup(pending, datas[0], Flatten(datas[1..]));
  }

  lemma {:induction false} HearsStream(l: Listener, datas: seq<ByteSeq>, draws: nat -> nat, h: Hash)
    requires l.client.connected && Reading(l.client.mode, l.client.reader) && Hears(l, datas, draws, h)
    ensures Settled(Hear(l, datas, draws, h))
            == HandleStream(Settled(l), Pending(l.client.reader) + Flatten(datas), draws, h)
    decreases |datas|
  {
    var pending := Pending(l.client.reader);
    if datas == [] {
      NotReadyWhileReading(l.client.mode, l.client.reader);
      assert pending + Flatten(datas) == pending;
    } else {
      var data, rest := datas[0], datas[1..];
      var m := Listen(l, data, draws, h);
      HeadFirst(pending, datas);
      match Absorb(l.client.mode, l.client.reader, data)
      case More(_) =>
        ListenPart(l, data, draws, h);
        HearsStream(m, rest, draws, h);
      case Frame(_) =>
        ListenFrame(l, data, draws, h);
        HearsStream(m, rest, draws, h);
        HandleStreamCons(Settled(l), pending + data, Flatten(rest), draws, h);
        assert Pending(m.client.reader) + Flatten(rest) == Flatten(rest);
      case TooBig =>
        ListenTooBig(l, data, draws, h);
        assert rest == [] && pending + data + Flatten(rest) == pending + data;
    }
  }

  /**
   * However a stream is cut into reads, the client extracts exactly the frames of the
   * reference, whose header width follows the client's own state, and ends in the state
   * that handling them one by one leads to.
   */
  lemma ClientHearsStream(c: Client, datas: seq<ByteSeq>, draws: nat -> nat, h: Hash)
    requires c.connected && c.reader == Reader([], []) && Hears(Listener(c, []), datas, draws, h)
    ensures Settled(Hear(Listener(c, []), datas, draws, h)) == HandleStream(Listener(c, []), Flatten(datas), draws, h)
  {
    HearsStream(Listener(c, []), datas, draws, h);
    assert Pending(c.reader) + Flatten(datas) == Flatten(datas);
    assert Settled(Listener(c, [])) == Listener(c, []);
  }
}
