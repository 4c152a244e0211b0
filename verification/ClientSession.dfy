/**
 * The session object itself (ClientSession.cpp, the two readers and the handlers), with its
 * buffer and SRP state updated in place. Every method is proved to perform the step that
 * the state machine of module Sessions takes.
 */
module ClientSessions {
  import opened Bytes
  import opened BigEndian
  import opened ByteBuffers
  import opened Packets
  import opened Framing
  import opened Utf8
  import opened AccountCaches
  import opened Srp6s
  import opened Handlers
  import opened Sessions
  import opened MessageBuffers

  /** Reads a little-endian number and writes it again; None where the source throws. */
  method EchoPing(payload: ByteSeq) returns (r: Option<ByteSeq>)
    ensures r == if |payload| < 4 then None else Some(payload[..4])
  {
    var request := new ByteBuffer(payload);
    assert payload[0..] == payload;
    var ping := request.ReadUint(W32, LittleEnd);
    if ping.None? { return None; }
    Echo(payload[..4], W32, LittleEnd);
    var reply := new ByteBuffer([]);
    reply.WriteUint(ping.value.n, W32, LittleEnd);
    assert reply.buffer == payload[..4];
    r := Some(reply.buffer);
  }

  /** The user name, through the field codec; the read never fails. */
  method ReadUsername(payload: ByteSeq) returns (name: ByteSeq)
    ensures name == UsernameOf(payload)
  {
    var buffer := new ByteBuffer(payload);
    assert payload[0..] == payload;
    var r := buffer.ReadStringNt(LittleEnd);
    name := r.value.s;
  }

  /** A and M1 of a proof; None where the source throws. */
  method ReadProof(payload: ByteSeq) returns (r: Option<(ByteSeq, ByteSeq)>)
    ensures r == if |payload| < PROOF_SIZE then None else Some((payload[..32], payload[32..52]))
  {
    var request := new ByteBuffer(payload);
    assert payload[0..] == payload;
    var clientA := request.ReadBytes(32);
    if clientA.None? { return None; }
    var m1 := request.ReadBytes(20);
    if m1.None? { return None; }
    assert payload[32..][..20] == payload[32..52];
    r := Some((clientA.value.s, m1.value.s));
  }

  class ClientSession {
    var mode: Mode
    const buf: MessageBuffer
    const srp: Srp6
    var closed: bool
    var queue: seq<ByteSeq>
    var writing: bool
    var authenticated: bool
    var tasks: seq<Task>

    ghost var flight: seq<ByteSeq>
    ghost var chunks: seq<ByteSeq>
    ghost var frames: seq<ByteSeq>
    ghost var handed: seq<ByteSeq>
    ghost var started: seq<ByteSeq>
    ghost var written: seq<ByteSeq>

    ghost predicate Valid()
      reads this, buf
    {
      buf.Valid()
    }

    /** Between handlers an open session has room for the read it has started. */
    ghost predicate Listening()
      reads this, buf
    {
      Valid() && (!closed ==> buf.RemainingSpace() >= 512 && buf.Bounded())
    }

    ghost function View(): Session
      reads this, buf, srp
      requires Valid()
    {
      Session(mode, buf.Active(), closed, queue, writing, flight, tasks, srp.state, authenticated,
              chunks, frames, handed, started, written)
    }

    constructor (h: Hash)
      ensures Listening() && View() == Start(h) && fresh(buf) && fresh(srp)
    {
      mode, closed, queue, writing, authenticated, tasks := Auth, false, [], false, false, [];
      flight, chunks, frames, handed, started, written := [], [], [], [], [], [];
      buf := new MessageBuffer(INITIAL_SIZE);
      srp := new Srp6(h);
    }

    method Close()
      requires Valid()
      modifies this, buf
      ensures Valid() && closed && View() == Sessions.Close(old(View()))
    {
      if !closed {
        closed := true;
        buf.Clear();
        queue := [];
      }
    }

    // ----- sending -----

    method SendPacket(m: Mode, p: Packet)
      requires Valid()
      modifies this
      ensures Valid() && View() == Sessions.SendPacket(old(View()), m, p)
      ensures old(Listening()) ==> Listening()
    {
      if closed { return; }
      tasks := tasks + [Send(m, p)];
    }

    method DoWrite()
      requires Valid()
      modifies this
      ensures Valid() && View() == Sessions.DoWrite(old(View()))
      ensures old(Listening()) ==> Listening()
    {
      if queue == [] {
        writing := false;
        return;
      }
      writing := true;
      flight, started := flight + [queue[0]], started + [queue[0]];
    }

    method DoSendPacket(m: Mode, p: Packet)
      requires Valid() && HasOpcode(m, p)
      modifies this
      ensures Valid() && View() == Sessions.DoSendPacket(old(View()), Build(m, p))
      ensures old(Listening()) ==> Listening()
    {
      var raw := BuildPacket(m, p);
      queue, handed := queue + [raw], handed + [raw];
      if !writing {
        DoWrite();
      }
    }

    /** The completion handler of a write that succeeded. */
    method OnWritten()
      requires Valid() && flight != [] && queue != []
      modifies this
      ensures Valid() && View() == WriteCompleted(old(View()))
      ensures old(Listening()) ==> Listening()
    {
      flight, written := flight[1..], written + [flight[0]];
      queue := queue[1..];
      DoWrite();
    }

    // ----- receiving -----

    /** The completion handler of a read that succeeded, up to the start of the next read. */
    method OnRead(data: ByteSeq, h: Hash)
      requires Listening() && |data| <= buf.RemainingSpace()
      modifies this, buf
      ensures Listening() && View() == ReadCompleted(old(View()), data, h)
    {
      if closed { return; }
      ReceiveBytes(data);
      ProcessReadBuffer(h);
      if !closed {
        buf.EnsureFreeSpace(MIN_FREE);
      }
    }

    /** The socket's bytes become active. */
    method ReceiveBytes(data: ByteSeq)
      requires Listening() && !closed && |data| <= buf.RemainingSpace()
      modifies this`chunks, buf
      ensures Valid() && buf.Bounded()
      ensures View() == old(View()).(active := old(View()).active + data, chunks := old(chunks) + [data])
    {
      buf.Store(data);
      var ok := buf.WriteCompleted(|data|);
      chunks := chunks + [data];
    }

    method ProcessReadBuffer(h: Hash)
      requires Valid() && !closed
      modifies this, buf
      ensures Valid() && View() == Sessions.ProcessReadBuffer(old(View()), h)
      ensures old(buf.Bounded()) && !closed ==> buf.Bounded()
    {
      var m := mode;
      var data := buf.storage[buf.rpos..buf.wpos];
      if |data| < m.HeaderSize() { return; }
      var size := Word(data[m.HeaderSize() - 2], data[m.HeaderSize() - 1]);
      if |data| < m.HeaderSize() + size { return; }
      if size > MAX_PAYLOAD {
        Close();
        return;
      }
      var full := ConsumeFrame(m.HeaderSize() + size);
      var p := ParsePacket(m, full);
      if p.None? {
        Close();
      } else if m.Auth? {
        DispatchAuth(p.value, h);
      } else {
        DispatchWork(p.value);
      }
    }

    /** Copies the head of the buffer out and moves the read position past it. */
    method ConsumeFrame(n: nat) returns (full: ByteSeq)
      requires Valid() && n <= |buf.Active()|
      modifies this`frames, buf
      ensures Valid() && full == old(View()).active[..n]
      ensures View() == old(View()).(active := old(View()).active[n..], frames := old(frames) + [full])
      ensures old(buf.Bounded()) ==> buf.Bounded()
    {
      full := buf.storage[buf.rpos..buf.rpos + n];
      assert full == buf.Active()[..n];
      var ok := buf.ReadCompleted(n);
      frames := frames + [full];
    }

    method DispatchAuth(p: Packet, h: Hash)
      requires Valid() && !closed
      modifies this, buf
      ensures Valid() && View() == Sessions.DispatchAuth(old(View()), p, h)
      ensures !closed ==> unchanged(buf)
    {
      if p.opcode == CMSG_PING {
        HandlePing(Auth, p);
      } else if p.opcode == CMSG_CHALLENGE {
        tasks := tasks + [Challenge(p.payload)];
      } else if p.opcode == CMSG_PROOF {
        HandleLogonProof(p, h);
      }
    }

    method DispatchWork(p: Packet)
      requires Valid() && !closed
      modifies this, buf
      ensures Valid() && View() == Sessions.DispatchWork(old(View()), p)
      ensures !closed ==> unchanged(buf)
    {
      if p.opcode == CMSG_PING {
        HandlePing(Work, p);
      }
    }

    /** handle_ping of both modes, through the field codec. */
    method HandlePing(m: Mode, p: Packet)
      requires Valid() && !closed
      modifies this, buf
      ensures Valid() && View() == Sessions.HandlePing(old(View()), m, p)
      ensures !closed ==> unchanged(buf)
    {
      var ping := EchoPing(p.payload);
      if ping.None? {
        Close();
      } else {
        SendPacket(m, Packet(SMSG_PONG, ping.value));
      }
    }

    method HandleLogonProof(p: Packet, h: Hash)
      requires Valid() && !closed
      modifies this
      ensures Valid() && View() == Sessions.HandleLogonProof(old(View()), p, h)
    {
      var proof := ReadProof(p.payload);
      if proof.None? {
        SendPacket(Auth, Refusal(INTERNAL_ERROR));
        return;
      }
      var m2 := ServerProof(h, proof.value.0, proof.value.1);
      mode := Work;
      authenticated := true;
      SendPacket(Auth, Packet(SMSG_PROOF, m2));
    }

    /** handle_logon_challenge */
    method HandleLogonChallenge(payload: ByteSeq, env: Env, cache: AccountCache, now: nat, random: ByteSeq, dbUp: bool)
      requires Valid() && cache.ttl == env.ttl && |random| == 32
      modifies this, srp, cache
      ensures Valid()
      ensures (View(), cache.table) ==
              RunChallenge(old(View()), old(cache.table), payload, env, now, FromBE(random), dbUp)
    {
      var name := ReadUsername(payload);
      AnswerChallenge(name, payload, env, cache, now, random, dbUp);
    }

    /** The handler once the name is read. */
    method AnswerChallenge(name: ByteSeq, ghost payload: ByteSeq, env: Env, cache: AccountCache, now: nat, random: ByteSeq, dbUp: bool)
      requires Valid() && cache.ttl == env.ttl && |random| == 32 && name == UsernameOf(payload)
      modifies this, srp, cache
      ensures Valid()
      ensures (View(), cache.table) ==
              RunChallenge(old(View()), old(cache.table), payload, env, now, FromBE(random), dbUp)
    {
      var valid := IsValidUtf8(name);
      if !valid {
        SendPacket(Auth, Refusal(WRONG_USERNAME));
        return;
      }
      var user := ToCase(name, Upper);
      srp.SetOnlyUsername(user);
      var cached := cache.Get(user, now);
      if cached.Some? {
        var reply := BuildChallenge(cached.value, random);
        if reply.Some? { SendPacket(Auth, Packet(SMSG_CHALLENGE, reply.value)); }
        return;
      }
      if !dbUp {
        SendPacket(Auth, Refusal(DATABASE_BUSY));
      } else if user !in env.db {
        SendPacket(Auth, Refusal(WRONG_USERNAME));
      } else if !ValidRow(env.db, user) {
        SendPacket(Auth, Refusal(WRONG_PASSWORD));
      } else {
        var c := RowCredentials(env.db, user);
        cache.Put(user, c, now);
        var reply := BuildChallenge(c, random);
        SendPacket(Auth, if reply.Some? then Packet(SMSG_CHALLENGE, reply.value) else Refusal(DATABASE_BUSY));
      }
    }

    /** load_verifier, generate_server_ephemeral and the reply payload, common to both branches. */
    method BuildChallenge(c: Credentials, random: ByteSeq) returns (r: Option<ByteSeq>)
      requires |random| == 32
      modifies srp
      ensures srp.state == Prepare(old(srp.state), c, FromBE(random))
      ensures r == ChallengePayload(srp.state, c.salt)
    {
      srp.Load(c.salt, c.verifier);
      srp.MakeServerEphemeral(random);
      var pubB := srp.PublicB();
      var modulus := srp.Modulus();
      if pubB.None? || modulus.None? { return None; }
      r := Some(pubB.value + [srp.state.g % 256] + modulus.value + c.salt);
    }
  }
}
