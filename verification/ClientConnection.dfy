/** The client object (Client.cpp) on one connection, proved to take the steps of module Clients. */
module ClientConnections {
  import opened Bytes
  import opened BigEndian
  import opened ByteBuffers
  import opened Packets
  import opened Framing
  import opened Srp6s
  import opened Handlers
  import opened Clients

  /** B, g, N and salt of a challenge; None where a read throws. */
  method ReadChallenge(payload: ByteSeq) returns (r: Option<(ByteSeq, Byte, ByteSeq, ByteSeq)>)
    ensures r == if |payload| < 97 then None
                 else Some((payload[..32], payload[32], payload[33..65], payload[65..97]))
  {
    var p := new ByteBuffer(payload);
    assert payload[0..] == payload;
    var serverB := p.ReadBytes(32);
    if serverB.None? { return None; }
    var g := p.ReadBytes(1);
    if g.None? { return None; }
    var modulus := p.ReadBytes(32);
    if modulus.None? { return None; }
    var salt := p.ReadBytes(32);
    if salt.None? { return None; }
    assert payload[33..][..32] == payload[33..65] && payload[65..][..32] == payload[65..97];
    r := Some((serverB.value.s, g.value.s[0], modulus.value.s, salt.value.s));
  }

  class ClientConnection {
    var mode: Mode
    var connected: bool
    var disconnecting: bool
    var reader: Reader
    var out: seq<ByteSeq>
    const srp: Srp6

    ghost var started: seq<ByteSeq>
    ghost var written: seq<ByteSeq>

    ghost function View(): Client
      reads this, srp
    {
      Client(mode, connected, disconnecting, reader, out, srp.state, started, written)
    }

    /** An open connection always has a read in progress. */
    ghost predicate Listening()
      reads this
    {
      connected ==> Reading(mode, reader)
    }

    constructor (h: Hash)
      ensures View() == Connected(h) && Listening() && fresh(srp)
    {
      mode, connected, disconnecting, reader, out := Auth, true, false, Reader([], []), [];
      started, written := [], [];
      srp := new Srp6(h);
    }

    method FlushQueue()
      modifies this
      ensures View() == Clients.FlushQueue(old(View()))
    {
      if !connected || out == [] { return; }
      started := started + [out[0]];
    }

    method SendPacketImpl(raw: ByteSeq)
      modifies this
      ensures View() == SendRaw(old(View()), raw)
    {
      if !connected {
        out := out + [raw];
        return;
      }
      out := out + [raw];
      if |out| == 1 {
        FlushQueue();
      }
    }

    method OnWritten()
      requires out != []
      modifies this
      ensures View() == ClientWritten(old(View()))
    {
      written, out := written + [out[0]], out[1..];
      FlushQueue();
    }

    /** handle_logon_challenge: asks to log on. */
    method Logon(username: ByteSeq)
      modifies this, srp
      ensures View() == BeginLogon(old(View()), username)
    {
      srp.SetOnlyUsername(username);
      var packet := new ByteBuffer([]);
      packet.WriteStringNt(username, LittleEnd);
      assert packet.buffer == Reverse(username) + [0];
      var raw := BuildPacket(Auth, Packet(CMSG_CHALLENGE, packet.buffer));
      SendPacketImpl(raw);
    }

    /** The completion of part or all of the read in progress. */
    method OnBytes(data: ByteSeq, random: ByteSeq, h: Hash)
      requires connected && Listening() && |data| <= Wanted(mode, reader) && |random| == 32
      modifies this, srp
      ensures Listening() && View() == Receive(old(View()), data, FromBE(random), h)
    {
      AbsorbSound(mode, reader, data);
      var got := reader.got + data;
      if |data| < Wanted(mode, reader) {
        reader := reader.(got := got);
      } else if reader.header != [] {
        ProcessFrame(reader.header + got, random, h);
      } else {
        var length := Word(got[mode.HeaderSize() - 2], got[mode.HeaderSize() - 1]);
        if length > MAX_PAYLOAD {
          connected := false;
        } else if length == 0 {
          ProcessFrame(got, random, h);
        } else {
          reader := Reader(got, []);
        }
      }
    }

    /** read_payload and process_empty end here, and start the next read. */
    method ProcessFrame(raw: ByteSeq, random: ByteSeq, h: Hash)
      requires connected && |random| == 32
      modifies this, srp
      ensures Reading(mode, reader)
      ensures View() == (var t := old(View()).(reader := Reader([], []));
                         match Deserialize(old(mode), raw)
                         case None => t
                         case Some(p) => Clients.HandlePacket(t, p, FromBE(random), h))
    {
      reader := Reader([], []);
      var p := ParsePacket(mode, raw);
      if p.Some? {
        HandlePacket(p.value, random, h);
      }
    }

    method HandlePacket(p: Packet, random: ByteSeq, h: Hash)
      requires |random| == 32
      modifies this, srp
      ensures View() == Clients.HandlePacket(old(View()), p, FromBE(random), h)
      ensures reader == old(reader)
    {
      if mode.Work? {
      } else if p.opcode == SMSG_CHALLENGE {
        HandleChallenge(p.payload, random, h);
      } else if p.opcode == SMSG_PROOF {
        HandleProof(p.payload, h);
      } else if p.opcode == SMSG_RESPONSE && |p.payload| >= 2 {
        disconnecting := true;
      }
    }

    method HandleChallenge(payload: ByteSeq, random: ByteSeq, h: Hash)
      requires |random| == 32
      modifies this, srp
      ensures View() == Clients.HandleChallenge(old(View()), payload, FromBE(random), h)
    {
      var fields := ReadChallenge(payload);
      if fields.None? {
        disconnecting := true;
        return;
      }
      var (serverB, g, modulus, salt) := fields.value;
      srp.InstallConstants(modulus, g, h);
      srp.InstallSalt(salt);
      srp.MakeClientEphemeral(random);
      var pubA := srp.PublicA();
      var m1 := srp.MakeM1(serverB, h);
      if pubA.None? || m1.None? {
        disconnecting := true;
        return;
      }
      var raw := BuildPacket(Auth, Packet(CMSG_PROOF, pubA.value + m1.value));
      SendPacketImpl(raw);
    }

    method HandleProof(payload: ByteSeq, h: Hash)
      modifies this
      ensures View() == Clients.HandleProof(old(View()), payload, h)
    {
      if |payload| < 20 { return; }
      var pubA := srp.PublicA();
      if pubA.None? { return; }
      var expected := h(pubA.value + srp.state.lastM1);
      assert expected[..20] == expected;
      if payload[..20] == expected {
        mode := Work;
      } else {
        disconnecting := true;
      }
    }
  }
}
