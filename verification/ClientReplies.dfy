/**
 * What the client does with every frame an arbitrary server may send, in raw bytes: when it
 * answers, when it disconnects and when, and only when, it enters WORK.
 */
module ClientReplies {
  import opened Bytes
  import opened BigEndian
  import opened Packets
  import opened Framing
  import opened Srp6s
  import opened Handlers
  import opened Clients

  /** A always pads: it is 0, or was reduced by a modulus of 32 bytes. */
  predicate Fit(c: Client) {
    c.srp.pubA < TWO256
  }

  // ----- one frame -----

  /** A after a challenge; a modulus of zero leaves it alone. */
  function PublicAfter(c: Client, f: ByteSeq, a: nat): nat
    requires |f| >= 100
  {
    var modulus := FromBE(f[36..68]);
    if modulus == 0 then c.srp.pubA else Pow(f[35], a) % modulus
  }

  function DigestAfter(c: Client, f: ByteSeq, a: nat, h: Hash): Digest
    requires |f| >= 100
  {
    h(ToBE(PublicAfter(c, f, a), 32) + f[3..35] + f[68..100])
  }

  /** The answer to a challenge: A and M1 in a packet of 52 bytes. */
  function ProofFor(c: Client, f: ByteSeq, a: nat, h: Hash): seq<ByteSeq> {
    if c.mode.Auth? && |f| >= 100 && f[0] == 4
    then [[5, 0, 52] + (ToBE(PublicAfter(c, f, a), 32) + DigestAfter(c, f, a, h))]
    else []
  }

  /** The one frame that takes a client to WORK: M2 over its own A and M1. */
  predicate Accepted(c: Client, f: ByteSeq, h: Hash) {
    c.mode.Auth? && |f| >= 23 && f[0] == 6 && f[3..23] == h(ToBE(c.srp.pubA, 32) + c.srp.lastM1)
  }

  /** Frames on which a client gives up: a short challenge, a wrong M2, any refusal. */
  predicate Rejected(c: Client, f: ByteSeq, h: Hash) {
    && c.mode.Auth? && |f| >= 3
    && (|| (f[0] == 4 && |f| < 100)
        || (f[0] == 6 && |f| >= 23 && !Accepted(c, f, h))
        || (f[0] == 7 && |f| >= 5))
  }

  lemma AuthFrame(f: ByteSeq)
    requires IsFrame(Auth, f)
    ensures Deserialize(Auth, f) == Some(Packet(f[0], f[3..]))
  {
  }

  lemma PublicFits(c: Client, f: ByteSeq, a: nat)
    requires Fit(c) && |f| >= 100
    ensures PublicAfter(c, f, a) < TWO256
  {
    Pow256Of32();
    assert FromBE(f[36..68]) < Pow256(32);
  }

  /** The SRP state in which a challenge leaves the client. */
  function SrpAfter(c: Client, f: ByteSeq, a: nat, h: Hash): Srp
    requires |f| >= 100
  {
    var modulus := FromBE(f[36..68]);
    c.srp.(modulus := modulus, g := f[35], k := FromBE(h(NatToBytes(modulus) + NatToBytes(f[35]))),
           salt := f[68..100], a := a, pubA := PublicAfter(c, f, a), lastM1 := DigestAfter(c, f, a, h))
  }

  lemma ChallengePayloadCut(f: ByteSeq)
    requires |f| >= 100
    ensures var p := f[3..]; p[..32] == f[3..35] && p[32] == f[35] && p[33..65] == f[36..68] && p[65..97] == f[68..100]
  {
  }

  /** load_constants, load_salt and generate_client_ephemeral on the fields of the frame. */
  lemma SrpLoaded(c: Client, f: ByteSeq, a: nat, h: Hash)
    requires |f| >= 100
    ensures var loaded := GenerateClientEphemeral(LoadConstants(c.srp, h, f[36..68], f[35]).(salt := f[68..100]), a);
            loaded.pubA == PublicAfter(c, f, a) && loaded.salt == f[68..100]
            && loaded.(lastM1 := DigestAfter(c, f, a, h)) == SrpAfter(c, f, a, h)
  {
  }

  lemma M1Computed(s: Srp, h: Hash, serverB: ByteSeq)
    requires s.pubA < TWO256
    ensures var m1 := h(ToBE(s.pubA, 32) + serverB + s.salt);
            ComputeM1(s, h, serverB) == Some((m1, s.(lastM1 := m1)))
  {
    FixedBytes(s.pubA);
  }

  lemma ChallengeHandled(c: Client, f: ByteSeq, a: nat, h: Hash)
    requires c.mode.Auth? && Fit(c) && |f| >= 100 && f[0] == 4
    ensures ProofFor(c, f, a, h) != []
    ensures HandleChallenge(c, f[3..], a, h) == SendRaw(c.(srp := SrpAfter(c, f, a, h)), ProofFor(c, f, a, h)[0])
  {
    var loaded := GenerateClientEphemeral(LoadConstants(c.srp, h, f[36..68], f[35]).(salt := f[68..100]), a);
    ChallengePayloadCut(f);
    PublicFits(c, f, a);
    SrpLoaded(c, f, a, h);
    M1Computed(loaded, h, f[3..35]);
    FixedBytes(loaded.pubA);
    SmallPacket(5, ToBE(loaded.pubA, 32) + DigestAfter(c, f, a, h));
  }

  /** Every frame of an AUTH client: four outcomes, told apart by the bytes of the frame. */
  lemma AuthFrameHandled(c: Client, f: ByteSeq, a: nat, h: Hash)
    requires c.mode.Auth? && Fit(c) && IsFrame(Auth, f)
    ensures var d := HandleFrame(c, f, a, h);
            if ProofFor(c, f, a, h) != [] then d == SendRaw(c.(srp := SrpAfter(c, f, a, h)), ProofFor(c, f, a, h)[0])
            else if Accepted(c, f, h) then d == c.(mode := Work)
            else if Rejected(c, f, h) then d == c.(disconnecting := true)
            else d == c
  {
    AuthFrame(f);
    if ProofFor(c, f, a, h) != [] {
      ChallengeHandled(c, f, a, h);
    } else if f[0] == 6 {
      FixedBytes(c.srp.pubA);
      assert |f| >= 23 ==> f[3..][..20] == f[3..23];
      var m2 := h(ToBE(c.srp.pubA, 32) + c.srp.lastM1);
      assert m2[..20] == m2;
    }
  }

  /** A WORK client only logs. */
  lemma WorkFrameHandled(c: Client, f: ByteSeq, a: nat, h: Hash)
    requires c.mode.Work?
    ensures HandleFrame(c, f, a, h) == c
  {
  }

  lemma HandlingKeepsFit(c: Client, f: ByteSeq, a: nat, h: Hash)
    requires Fit(c) && IsFrame(c.mode, f)
    ensures Fit(HandleFrame(c, f, a, h))
  {
    if c.mode.Work? {
      WorkFrameHandled(c, f, a, h);
    } else {
      AuthFrameHandled(c, f, a, h);
      if ProofFor(c, f, a, h) != [] { PublicFits(c, f, a); }
    }
  }

  /** A read ends the connection if and only if it completes a header that announces more than 2048 bytes. */
  lemma DisconnectsIff(c: Client, data: ByteSeq, a: nat, h: Hash)
    requires CanReceive(c, data)
    ensures var got, m := Pending(c.reader) + data, c.mode;
            !Receive(c, data, a, h).connected <==>
              && c.reader.header == [] && |got| == (if m.Auth? then 3 else 4)
              && (got[|got| - 2] as int) * 256 + got[|got| - 1] > 2048
  {
    AbsorbSound(c.mode, c.reader, data);
    match Absorb(c.mode, c.reader, data)
    case Frame(f) => HandlingKeepsConnection(Idle(c), f, a, h);
    case _ =>
  }

  // ----- any number of frames -----

  function HandleAll(c: Client, frames: seq<ByteSeq>, draws: nat -> nat, h: Hash): Client {
    if frames == [] then c else
      var n := |frames| - 1;
      HandleFrame(HandleAll(c, frames[..n], draws, h), frames[n], draws(n), h)
  }

  /** The client that has handled some frames. */
  function StateAfter(c: Client, draws: nat -> nat, h: Hash): seq<ByteSeq> -> Client {
    (frames: seq<ByteSeq>) => HandleAll(c, frames, draws, h)
  }

  lemma HandleAllSnoc(c: Client, frames: seq<ByteSeq>, f: ByteSeq, draws: nat -> nat, h: Hash)
    ensures HandleAll(c, frames + [f], draws, h) == HandleFrame(HandleAll(c, frames, draws, h), f, draws(|frames|), h)
  {
    assert (frames + [f])[..|frames|] == frames;
  }

  /** Each frame has the header width of the mode it is met in. */
  ghost predicate ProperIn(state: seq<ByteSeq> -> Client, frames: seq<ByteSeq>) {
    forall i :: 0 <= i < |frames| ==> IsFrame(state(frames[..i]).mode, frames[i])
  }

  ghost predicate Proper(c: Client, frames: seq<ByteSeq>, draws: nat -> nat, h: Hash) {
    ProperIn(StateAfter(c, draws, h), frames)
  }

  lemma ProperSplit(state: seq<ByteSeq> -> Client, frames: seq<ByteSeq>)
    requires frames != []
    ensures var n := |frames| - 1;
            ProperIn(state, frames) <==> ProperIn(state, frames[..n]) && IsFrame(state(frames[..n]).mode, frames[n])
  {
    var n := |frames| - 1;
    var front := frames[..n];
    assert forall i :: 0 <= i < n ==> front[..i] == frames[..i] && front[i] == frames[i];
    if ProperIn(state, frames) {
      forall i | 0 <= i < n ensures IsFrame(state(front[..i]).mode, front[i]) {
        assert IsFrame(state(frames[..i]).mode, frames[i]);
      }
    }
    if ProperIn(state, front) && IsFrame(state(front).mode, frames[n]) {
      forall i | 0 <= i < |frames| ensures IsFrame(state(frames[..i]).mode, frames[i]) {
        if i < n { assert IsFrame(state(front[..i]).mode, front[i]); }
      }
    }
  }

  lemma ProperSnoc(c: Client, frames: seq<ByteSeq>, f: ByteSeq, draws: nat -> nat, h: Hash)
    requires Proper(c, frames, draws, h) && IsFrame(HandleAll(c, frames, draws, h).mode, f)
    ensures Proper(c, frames + [f], draws, h)
  {
    assert (frames + [f])[..|frames|] == frames;
    ProperSplit(StateAfter(c, draws, h), frames + [f]);
  }

  lemma ProperFront(c: Client, frames: seq<ByteSeq>, draws: nat -> nat, h: Hash)
    requires frames != [] && Proper(c, frames, draws, h)
    ensures var n := |frames| - 1;
            Proper(c, frames[..n], draws, h) && IsFrame(HandleAll(c, frames[..n], draws, h).mode, frames[n])
  {
    ProperSplit(StateAfter(c, draws, h), frames);
  }

  lemma {:induction false} StaysFit(c: Client, frames: seq<ByteSeq>, draws: nat -> nat, h: Hash)
    requires Fit(c) && Proper(c, frames, draws, h)
    ensures Fit(HandleAll(c, frames, draws, h))
  {
    if frames != [] {
      var n := |frames| - 1;
      ProperFront(c, frames, draws, h);
      StaysFit(c, frames[..n], draws, h);
      HandlingKeepsFit(HandleAll(c, frames[..n], draws, h), frames[n], draws(n), h);
    }
  }

  /** Some frame carries the M2 that the client expects when it meets it. */
  ghost predicate AcceptedIn(state: seq<ByteSeq> -> Client, frames: seq<ByteSeq>, h: Hash) {
    exists i :: 0 <= i < |frames| && Accepted(state(frames[..i]), frames[i], h)
  }

  ghost predicate SomeAccepted(c: Client, frames: seq<ByteSeq>, draws: nat -> nat, h: Hash) {
    AcceptedIn(StateAfter(c, draws, h), frames, h)
  }

  lemma AcceptedSplit(state: seq<ByteSeq> -> Client, frames: seq<ByteSeq>, h: Hash)
    requires frames != []
    ensures var n := |frames| - 1;
            AcceptedIn(state, frames, h) <==>
            AcceptedIn(state, frames[..n], h) || Accepted(state(frames[..n]), frames[n], h)
  {
    var n := |frames| - 1;
    var front := frames[..n];
    if i :| 0 <= i < |frames| && Accepted(state(frames[..i]), frames[i], h) {
      if i < n { assert front[..i] == frames[..i] && front[i] == frames[i]; }
    }
    if i :| 0 <= i < |front| && Accepted(state(front[..i]), front[i], h) {
      assert front[..i] == frames[..i] && front[i] == frames[i];
    }
  }

  lemma EntersWorkIff(c: Client, f: ByteSeq, a: nat, h: Hash)
    requires Fit(c) && IsFrame(c.mode, f)
    ensures HandleFrame(c, f, a, h).mode.Work? <==> c.mode.Work? || Accepted(c, f, h)
  {
    if c.mode.Work? { WorkFrameHandled(c, f, a, h); } else { AuthFrameHandled(c, f, a, h); }
  }

  lemma {:induction false} WorkIffAccepted(c: Client, frames: seq<ByteSeq>, draws: nat -> nat, h: Hash)
    requires c.mode.Auth? && Fit(c) && Proper(c, frames, draws, h)
    ensures HandleAll(c, frames, draws, h).mode.Work? <==> SomeAccepted(c, frames, draws, h)
  {
    if frames != [] {
      var n := |frames| - 1;
      var before := HandleAll(c, frames[..n], draws, h);
      ProperFront(c, frames, draws, h);
      WorkIffAccepted(c, frames[..n], draws, h);
      StaysFit(c, frames[..n], draws, h);
      AcceptedSplit(StateAfter(c, draws, h), frames, h);
      EntersWorkIff(before, frames[n], draws(n), h);
    }
  }

  /** The proofs that a run of frames calls for, in order. */
  function ProofsFor(c: Client, frames: seq<ByteSeq>, draws: nat -> nat, h: Hash): seq<ByteSeq> {
    if frames == [] then [] else
      var n := |frames| - 1;
      ProofsFor(c, frames[..n], draws, h) + ProofFor(HandleAll(c, frames[..n], draws, h), frames[n], draws(n), h)
  }

  lemma {:induction false} ProofsSent(c: Client, frames: seq<ByteSeq>, draws: nat -> nat, h: Hash)
    requires Fit(c) && Proper(c, frames, draws, h)
    ensures HandleAll(c, frames, draws, h).out == c.out + ProofsFor(c, frames, draws, h)
    ensures HandleAll(c, frames, draws, h).written == c.written
  {
    if frames != [] {
      var n := |frames| - 1;
      var before := HandleAll(c, frames[..n], draws, h);
      ProperFront(c, frames, draws, h);
      ProofsSent(c, frames[..n], draws, h);
      StaysFit(c, frames[..n], draws, h);
      FrameSends(before, frames[n], draws(n), h);
      Regroup(c.out, ProofsFor(c, frames[..n], draws, h), ProofFor(before, frames[n], draws(n), h));
    }
  }

  lemma FrameSends(c: Client, f: ByteSeq, a: nat, h: Hash)
    requires Fit(c) && IsFrame(c.mode, f)
    ensures HandleFrame(c, f, a, h).out == c.out + ProofFor(c, f, a, h)
    ensures HandleFrame(c, f, a, h).written == c.written
  {
    if c.mode.Work? {
      WorkFrameHandled(c, f, a, h);
    } else {
      AuthFrameHandled(c, f, a, h);
    }
  }

  // ----- any stream, however it is cut -----

  lemma {:induction false} StreamIsProper(c: Client, l: Listener, s: ByteSeq, draws: nat -> nat, h: Hash)
    requires l.client == HandleAll(c, l.frames, draws, h) && Proper(c, l.frames, draws, h)
    ensures var end := HandleStream(l, s, draws, h);
            end.client == HandleAll(c, end.frames, draws, h) && Proper(c, end.frames, draws, h)
    decreases |s|
  {
    if Ready(l.client.mode, s) {
      var f, t := Split(l.client.mode, s);
      ProperSnoc(c, l.frames, f, draws, h);
      HandleAllSnoc(c, l.frames, f, draws, h);
      StreamIsProper(c, Handled(l, f, draws, h), t, draws, h);
    }
  }

  /**
   * Whatever an AUTH client hears, from whatever server and however cut: it is in WORK if and
   * only if some frame it handled carried H(A, M1) of its own state at that moment, and the
   * packets it has sent are exactly one proof for each whole challenge met in AUTH.
   */
  lemma EveryStreamHeard(c: Client, datas: seq<ByteSeq>, draws: nat -> nat, h: Hash)
    requires c.mode.Auth? && Fit(c) && c.connected && c.reader == Reader([], [])
    requires Hears(Listener(c, []), datas, draws, h)
    ensures var end := Hear(Listener(c, []), datas, draws, h);
            && Proper(c, end.frames, draws, h)
            && (end.client.mode.Work? <==> SomeAccepted(c, end.frames, draws, h))
            && end.client.out == c.out + ProofsFor(c, end.frames, draws, h)
  {
    var end := HandleStream(Listener(c, []), Flatten(datas), draws, h);
    ClientHearsStream(c, datas, draws, h);
    StreamIsProper(c, Listener(c, []), Flatten(datas), draws, h);
    WorkIffAccepted(c, end.frames, draws, h);
    ProofsSent(c, end.frames, draws, h);
  }

  // ----- the outgoing queue -----

  /** Packets leave in the order given, connected or not. */
  lemma SendKeepsOrder(c: Client, raw: ByteSeq)
    ensures var d := SendRaw(c, raw); d.written + d.out == c.written + c.out + [raw] && d.written == c.written
  {
    assert c.written + (c.out + [raw]) == c.written + c.out + [raw];
  }

  lemma WriteKeepsOrder(c: Client)
    requires c.out != []
    ensures var d := ClientWritten(c); d.written + d.out == c.written + c.out && |d.out| == |c.out| - 1
  {
    assert c.out == [c.out[0]] + c.out[1..];
  }

  /** The first packet of a logon: the reversed name and a NUL, behind a 16-bit length that may wrap. */
  lemma LogonBytes(c: Client, name: ByteSeq)
    ensures BeginLogon(c, name).srp == c.srp.(username := name)
    ensures BeginLogon(c, name).out == c.out + [[3] + WordBytes(|name| + 1) + (Reverse(name) + [0])]
  {
    var payload, n := Reverse(name) + [0], |name| + 1;
    assert |payload| == n;
    AuthBytes(3, payload);
    var raw := Build(Auth, Packet(3, payload));
    assert raw == [3] + WordBytes(n) + payload;
    SendAppends(c.(srp := c.srp.(username := name)), raw);
  }

  lemma SendAppends(c: Client, raw: ByteSeq)
    ensures SendRaw(c, raw).out == c.out + [raw] && SendRaw(c, raw).srp == c.srp
  {
  }

  lemma AuthBytes(opcode: Byte, payload: ByteSeq)
    ensures Build(Auth, Packet(opcode, payload)) == [opcode] + WordBytes(|payload|) + payload
  {
    assert OpcodeBytes(Auth, opcode) == [opcode];
  }
}
