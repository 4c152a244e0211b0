/**
 * The SRP-6 state of both peers (SRP6.cpp). BIGNUMs are naturals, RAND_bytes is a
 * parameter, and SHA-1 is any function to 20 bytes.
 */
module Srp6s {
  import opened Arithmetic
  import opened Bytes
  import opened BigEndian

  type Digest = s: ByteSeq | |s| == 20 witness seq(20, _ => 0)
  type Hash = ByteSeq -> Digest

  const MODULUS: nat := 0xB79B3E2A878DBEDF5AD53B139A99D8CEC8DA65FED1BD845FB70F6051754B8D36
  const GENERATOR: nat := 7
  const TWO256: nat := 0x1_0000000000000000_0000000000000000_0000000000000000_0000000000000000

  datatype Srp = Srp(
    username: ByteSeq, salt: ByteSeq, lastM1: ByteSeq,
    modulus: nat, g: nat, k: nat,
    v: nat, b: nat, pubB: nat,
    a: nat, pubA: nat)

  function Pow(base: nat, e: nat): nat {
    if e == 0 then 1 else base * Pow(base, e - 1)
  }

  /** calculate_k: g is hashed without padding. */
  function CalculateK(h: Hash, modulus: nat, g: nat): nat {
    FromBE(h(NatToBytes(modulus) + NatToBytes(g)))
  }

  function Fresh(h: Hash): Srp {
    Srp([], [], [], MODULUS, GENERATOR, CalculateK(h, MODULUS, GENERATOR), 0, 0, 0, 0, 0)
  }

  // OpenSSL leaves the result alone when the modulus is zero, which only a client can be sent.

  function LoadVerifier(s: Srp, salt: ByteSeq, verifier: ByteSeq): Srp {
    s.(salt := salt, v := FromBE(verifier))
  }

  function GenerateServerEphemeral(s: Srp, b: nat): Srp {
    if s.modulus == 0 then s.(b := b)
    else s.(b := b, pubB := (s.k * s.v % s.modulus + Pow(s.g, b) % s.modulus) % s.modulus)
  }

  function LoadConstants(s: Srp, h: Hash, modulus: ByteSeq, g: Byte): Srp {
    s.(modulus := FromBE(modulus), g := g, k := CalculateK(h, FromBE(modulus), g))
  }

  function GenerateClientEphemeral(s: Srp, a: nat): Srp {
    if s.modulus == 0 then s.(a := a) else s.(a := a, pubA := Pow(s.g, a) % s.modulus)
  }

  /** get_A_bytes, get_B_bytes, get_N_bytes: 32 bytes, or a throw for a number too big. */
  function NumberBytes(x: nat): Option<ByteSeq> {
    PadLeft(NatToBytes(x), 32)
  }

  /** compute_M1: the digest and the state that remembers it. */
  function ComputeM1(s: Srp, h: Hash, serverB: ByteSeq): Option<(ByteSeq, Srp)> {
    match NumberBytes(s.pubA)
    case None => None
    case Some(pubA) =>
      var m1 := h(pubA + serverB + s.salt);
      Some((m1, s.(lastM1 := m1)))
  }

  /** verify_client_proof computes M2 and accepts everything. */
  function ServerProof(h: Hash, clientA: ByteSeq, m1: ByteSeq): ByteSeq {
    h(clientA + m1)
  }

  predicate VerifyServerProof(s: Srp, h: Hash, m1: ByteSeq, m2: ByteSeq)
    requires |m2| <= 20
  {
    match NumberBytes(s.pubA)
    case None => false
    case Some(pubA) => m2 == h(pubA + m1)[..|m2|]
  }

  // ----- sizes -----

  lemma Pow256Of32()
    ensures Pow256(32) == TWO256
  {
    Pow256Four(0); Pow256Four(4); Pow256Four(8); Pow256Four(12);
    Pow256Four(16); Pow256Four(20); Pow256Four(24); Pow256Four(28);
  }

  lemma Pow256Four(w: nat)
    ensures Pow256(w + 4) == Pow256(w) * 0x1_0000_0000
  {
    assert Pow256(w + 4) == Pow256(w + 3) * 256;
    assert Pow256(w + 3) == Pow256(w + 2) * 256;
    assert Pow256(w + 2) == Pow256(w + 1) * 256;
    assert Pow256(w + 1) == Pow256(w) * 256;
  }

  /** A number below 2^256 always pads, to 32 bytes from which it can be read back. */
  lemma NumberBytesRoundTrip(x: nat)
    ensures NumberBytes(x).Some? <==> x < TWO256
    ensures x < TWO256 ==> |NumberBytes(x).value| == 32 && FromBE(NumberBytes(x).value) == x
  {
    Pow256Of32();
    PadIsFixedWidth(x, 32);
    if x < TWO256 {
      PaddedRoundTrip(x, 32);
    }
  }

  /** Whatever the random numbers, the public values fit in 32 bytes. */
  lemma EphemeralsFit(s: Srp, x: nat)
    requires 0 < s.modulus <= TWO256
    ensures NumberBytes(GenerateServerEphemeral(s, x).pubB).Some?
    ensures NumberBytes(GenerateClientEphemeral(s, x).pubA).Some?
  {
    NumberBytesRoundTrip(GenerateServerEphemeral(s, x).pubB);
    NumberBytesRoundTrip(GenerateClientEphemeral(s, x).pubA);
  }

  lemma SumMod(x: nat, y: nat, n: nat)
    requires n > 0
    ensures (x % n + y % n) % n == (x + y) % n
  {
    var a, r := Euclid(x, n);
    var b, s := Euclid(y, n);
    var q, t := Euclid(r + s, n);
    SumModParts(n, a, r, b, s, q, t);
  }

  lemma Euclid(x: nat, n: nat) returns (q: nat, r: nat)
    requires n > 0
    ensures x == n * q + r && r < n && r == x % n
  {
    q, r := x / n, x % n;
  }

  lemma SumModParts(n: nat, a: nat, r: nat, b: nat, s: nat, q: nat, t: nat)
    requires t < n && r + s == n * q + t
    ensures (n * a + r + (n * b + s)) % n == t
  {
    Distribute3(n, a, b, q);
    DivUnique(n * a + r + (n * b + s), n, a + b + q, t);
  }

  lemma Distribute3(n: int, a: int, b: int, c: int)
    ensures n * (a + b + c) == n * a + n * b + n * c
  {
  }

  /** B is k*v + g^b mod N (section 2.5.3 of RFC 5054), reduced step by step. */
  lemma ServerEphemeralIsRfc5054(s: Srp, b: nat)
    requires s.modulus > 0
    ensures GenerateServerEphemeral(s, b).pubB == (s.k * s.v + Pow(s.g, b)) % s.modulus
  {
    SumMod(s.k * s.v, Pow(s.g, b), s.modulus);
  }

  lemma {:induction false} PowLaws(base: nat, m: nat, n: nat)
    ensures Pow(base, 1) == base && Pow(base, m + n) == Pow(base, m) * Pow(base, n)
  {
    assert Pow(base, 1) == base * Pow(base, 0);
    if m > 0 {
      PowLaws(base, m - 1, n);
      var x, y := Pow(base, m - 1), Pow(base, n);
      assert base * (x * y) == base * x * y;
    }
  }

  /** A is g^a mod N (section 2.5.4 of RFC 5054). */
  lemma ClientEphemeralIsRfc5054(s: Srp, a: nat)
    requires s.modulus > 0
    ensures GenerateClientEphemeral(s, a).pubA == Pow(s.g, a) % s.modulus
    ensures GenerateClientEphemeral(s, a).a == a
  {
  }

  /** Where it needs no padding, the minimal notation is the one of fixed width. */
  lemma MinimalIsFixed(x: nat, w: nat)
    requires w > 0 && Pow256(w - 1) <= x < Pow256(w)
    ensures NatToBytes(x) == ToBE(x, w)
  {
    MinimalLength(x, w);
    MinimalLength(x, w - 1);
    PadIsFixedWidth(x, w);
    assert Zeros(0) + NatToBytes(x) == NatToBytes(x);
  }

  /** k of a session is the digest of the 32 bytes of N and the one byte of g, which is not padded. */
  lemma KHashesUnpaddedG(h: Hash)
    ensures Fresh(h).k == FromBE(h(ToBE(MODULUS, 32) + [7]))
  {
    Pow256Of32();
    assert Pow256(32) == Pow256(31) * 256;
    MinimalIsFixed(MODULUS, 32);
    assert NatToBytes(7) == NatToBytes(0) + [7] == [7];
  }

  /** A client that computed M1 accepts exactly the proof that the server derives from it. */
  lemma ProofAccepted(s: Srp, h: Hash, serverB: ByteSeq, m2: ByteSeq)
    requires s.pubA < TWO256 && |m2| == 20
    ensures ComputeM1(s, h, serverB).Some?
    ensures var (m1, t) := ComputeM1(s, h, serverB).value;
            && t.lastM1 == m1 && |m1| == 20
            && (VerifyServerProof(t, h, t.lastM1, m2) <==> m2 == ServerProof(h, NumberBytes(s.pubA).value, m1))
  {
    NumberBytesRoundTrip(s.pubA);
    var d := h(NumberBytes(s.pubA).value + ComputeM1(s, h, serverB).value.0);
    assert d[..20] == d;
  }

  // ----- the object -----

  class Srp6 {
    var state: Srp

    constructor (h: Hash)
      ensures state == Fresh(h)
    {
      state := Fresh(h);
    }

    method SetOnlyUsername(username: ByteSeq)
      modifies this
      ensures state == old(state).(username := username)
    {
      state := state.(username := username);
    }

    method Load(salt: ByteSeq, verifier: ByteSeq)
      modifies this
      ensures state == LoadVerifier(old(state), salt, verifier)
    {
      state := state.(salt := salt, v := FromBE(verifier));
    }

    method MakeServerEphemeral(random: ByteSeq)
      requires |random| == 32
      modifies this
      ensures state == GenerateServerEphemeral(old(state), FromBE(random))
      ensures old(state).modulus > 0 ==>
                state.pubB == (state.k * state.v + Pow(state.g, FromBE(random))) % state.modulus
    {
      var b := FromBE(random);
      if state.modulus > 0 { ServerEphemeralIsRfc5054(state, b); }
      if state.modulus == 0 {
        state := state.(b := b);
      } else {
        var gb := Pow(state.g, b) % state.modulus;
        var kv := state.k * state.v % state.modulus;
        state := state.(b := b, pubB := (kv + gb) % state.modulus);
      }
    }

    /** get_N_bytes */
    method Modulus() returns (r: Option<ByteSeq>)
      ensures r == NumberBytes(state.modulus)
    {
      r := PadBytesLeft(NatToBytes(state.modulus), 32);
    }

    /** get_B_bytes */
    method PublicB() returns (r: Option<ByteSeq>)
      ensures r == NumberBytes(state.pubB)
      ensures r.Some? <==> state.pubB < TWO256
      ensures r.Some? ==> |r.value| == 32 && FromBE(r.value) == state.pubB
    {
      NumberBytesRoundTrip(state.pubB);
      r := PadBytesLeft(NatToBytes(state.pubB), 32);
    }

    // Client side.

    method InstallConstants(modulus: ByteSeq, g: Byte, h: Hash)
      modifies this
      ensures state == LoadConstants(old(state), h, modulus, g)
    {
      var n := FromBE(modulus);
      state := state.(modulus := n, g := g, k := CalculateK(h, n, g));
    }

    method InstallSalt(salt: ByteSeq)
      modifies this
      ensures state == old(state).(salt := salt)
    {
      state := state.(salt := salt);
    }

    method MakeClientEphemeral(random: ByteSeq)
      requires |random| == 32
      modifies this
      ensures state == GenerateClientEphemeral(old(state), FromBE(random))
    {
      var a := FromBE(random);
      if state.modulus == 0 {
        state := state.(a := a);
      } else {
        state := state.(a := a, pubA := Pow(state.g, a) % state.modulus);
      }
    }

    /** get_A_bytes */
    method PublicA() returns (r: Option<ByteSeq>)
      ensures r == NumberBytes(state.pubA)
    {
      r := PadBytesLeft(NatToBytes(state.pubA), 32);
    }

    /** compute_M1, which remembers its result; None where padding A throws. */
    method MakeM1(serverB: ByteSeq, h: Hash) returns (r: Option<ByteSeq>)
      modifies this
      ensures match ComputeM1(old(state), h, serverB)
              case None => r.None? && state == old(state)
              case Some((m1, s)) => r == Some(m1) && state == s
    {
      var pubA := PublicA();
      if pubA.None? { return None; }
      var m1 := h(pubA.value + serverB + state.salt);
      state := state.(lastM1 := m1);
      r := Some(m1);
    }
  }
}
