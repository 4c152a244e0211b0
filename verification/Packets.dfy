/** Length-prefixed packets: AuthPacket.hpp with a one-byte opcode, WorkPacket.hpp with two. */
module Packets {
  import opened Bytes
  import opened BigEndian
  import opened ByteBuffers

  datatype Mode = Auth | Work {
    function OpcodeSize(): nat { if Auth? then 1 else 2 }
    function HeaderSize(): nat { OpcodeSize() + 2 }
    function OpcodeWidth(): Width { if Auth? then W8 else W16 }
    function OpcodeLimit(): nat { if Auth? then 0x100 else 0x1_0000 }
  }

  datatype Packet = Packet(opcode: nat, payload: ByteSeq)

  predicate HasOpcode(m: Mode, p: Packet) {
    p.opcode < m.OpcodeLimit()
  }

  /** high << 8 | low */
  function Word(high: nat, low: nat): nat {
    high * 256 + low
  }

  function WordBytes(n: nat): (s: ByteSeq)
    ensures |s| == 2
  {
    [n / 256 % 256, n % 256]
  }

  function OpcodeBytes(m: Mode, opcode: nat): (s: ByteSeq)
    ensures |s| == m.OpcodeSize()
  {
    if m.Auth? then [opcode % 256] else WordBytes(opcode)
  }

  /** The length field is the payload size cut to 16 bits. */
  function Build(m: Mode, p: Packet): (raw: ByteSeq)
    ensures |raw| == m.HeaderSize() + |p.payload|
  {
    OpcodeBytes(m, p.opcode) + WordBytes(|p.payload|) + p.payload
  }

  function OpcodeOf(m: Mode, raw: ByteSeq): nat
    requires |raw| >= m.HeaderSize()
  {
    if m.Auth? then raw[0] else Word(raw[0], raw[1])
  }

  function Length(m: Mode, raw: ByteSeq): nat
    requires |raw| >= m.HeaderSize()
  {
    Word(raw[m.HeaderSize() - 2], raw[m.HeaderSize() - 1])
  }

  /** None where the source throws. */
  function Deserialize(m: Mode, raw: ByteSeq): Option<Packet> {
    if |raw| < m.HeaderSize() || Length(m, raw) != |raw| - m.HeaderSize() then None
    else Some(Packet(OpcodeOf(m, raw), raw[m.HeaderSize()..]))
  }

  lemma WordOfBytes(n: nat)
    ensures Word(n / 256 % 256, n % 256) == n % 0x1_0000
  {
    var h := n / 256;
    assert n == 0x1_0000 * (h / 256) + 256 * (h % 256) + n % 256;
  }

  /** The header fields of a built packet, whatever follows it in the stream. */
  lemma HeaderOfBuilt(m: Mode, p: Packet, rest: ByteSeq)
    requires HasOpcode(m, p)
    ensures var raw := Build(m, p) + rest;
            OpcodeOf(m, raw) == p.opcode && Length(m, raw) == |p.payload| % 0x1_0000
  {
    var raw := Build(m, p) + rest;
    assert raw[..m.OpcodeSize()] == OpcodeBytes(m, p.opcode);
    assert raw[m.OpcodeSize()] == |p.payload| / 256 % 256 && raw[m.OpcodeSize() + 1] == |p.payload| % 256;
    WordOfBytes(|p.payload|);
    WordOfBytes(p.opcode);
  }

  /** Parsing a built packet restores it if and only if the payload fits the 16-bit length. */
  lemma BuildThenDeserialize(m: Mode, p: Packet)
    requires HasOpcode(m, p)
    ensures Deserialize(m, Build(m, p)) == if |p.payload| < 0x1_0000 then Some(p) else None
  {
    var raw := Build(m, p);
    HeaderOfBuilt(m, p, []);
    assert raw + [] == raw;
    assert raw[m.HeaderSize()..] == p.payload;
  }

  /** Whatever parses is what building the result gives back. */
  lemma DeserializeThenBuild(m: Mode, raw: ByteSeq)
    requires Deserialize(m, raw).Some?
    ensures HasOpcode(m, Deserialize(m, raw).value)
    ensures Build(m, Deserialize(m, raw).value) == raw
  {
    var h := m.OpcodeSize();
    WordRoundTrip(raw[0], raw[1]);
    WordRoundTrip(raw[h], raw[h + 1]);
    assert raw == raw[..h] + raw[h..h + 2] + raw[h + 2..];
    assert raw[h..h + 2] == [raw[h], raw[h + 1]];
    assert raw[..h] == if m.Auth? then [raw[0]] else [raw[0], raw[1]];
  }

  lemma WordRoundTrip(high: Byte, low: Byte)
    ensures WordBytes(Word(high, low)) == [high, low] && Word(high, low) < 0x1_0000
  {
  }

  // ----- the same through the field codec -----

  lemma FieldsAreBigEndian(n: nat)
    ensures ToBE(n, 1) == [n % 256] && ToBE(n, 2) == WordBytes(n)
  {
    assert ToBE(n, 2) == ToBE(n / 256, 1) + [n % 256];
    assert ToBE(n / 256, 1) == ToBE(n / 256 / 256, 0) + [n / 256 % 256];
    assert ToBE(n, 1) == ToBE(n / 256, 0) + [n % 256];
  }

  lemma FieldsFromBigEndian(a: Byte, b: Byte)
    ensures FromBE([a, b]) == Word(a, b) && FromBE([a]) == a
  {
    assert [a, b][..1] == [a] && [a][..0] == [];
  }

  lemma Limits()
    ensures Pow256(1) == 256 && Pow256(2) == 0x1_0000
  {
    assert Pow256(2) == Pow256(1) * 256 && Pow256(1) == Pow256(0) * 256;
  }

  lemma ByteEncoding(n: nat)
    requires n < 256
    ensures Typed(Uint(W8, BigEnd), Num(n))
    ensures Encode(Uint(W8, BigEnd), Num(n)) == [n % 256]
  {
    Limits();
    FieldsAreBigEndian(n);
    assert EncodeUint(n, W8, BigEnd) == ToBE(n, 1);
  }

  lemma WordEncoding(n: nat)
    requires n < 0x1_0000
    ensures Typed(Uint(W16, BigEnd), Num(n))
    ensures Encode(Uint(W16, BigEnd), Num(n)) == WordBytes(n)
  {
    Limits();
    FieldsAreBigEndian(n);
    assert EncodeUint(n, W16, BigEnd) == ToBE(n, 2);
  }

  /** The two bytes of a number depend only on its low 16 bits. */
  lemma LowWord(q: nat, r: nat)
    requires r < 0x1_0000
    ensures WordBytes(0x1_0000 * q + r) == WordBytes(r)
  {
    var n := 0x1_0000 * q + r;
    assert n / 256 == 256 * q + r / 256;
  }

  lemma OpcodeEncoding(m: Mode, n: nat)
    requires n < m.OpcodeLimit()
    ensures Typed(Uint(m.OpcodeWidth(), BigEnd), Num(n))
    ensures Encode(Uint(m.OpcodeWidth(), BigEnd), Num(n)) == OpcodeBytes(m, n)
  {
    if m.Auth? { ByteEncoding(n); } else { WordEncoding(n); }
  }

  lemma LengthEncoding(n: nat)
    ensures Typed(Uint(W16, BigEnd), Num(n % 0x1_0000))
    ensures Encode(Uint(W16, BigEnd), Num(n % 0x1_0000)) == WordBytes(n)
  {
    var q, r := n / 0x1_0000, n % 0x1_0000;
    WordEncoding(r);
    LowWord(q, r);
    assert n == 0x1_0000 * q + r;
  }

  /** build_packet through a temporary buffer. */
  method BuildPacket(m: Mode, p: Packet) returns (raw: ByteSeq)
    requires HasOpcode(m, p)
    ensures raw == Build(m, p)
  {
    OpcodeEncoding(m, p.opcode);
    LengthEncoding(|p.payload|);
    var temp := new ByteBuffer([]);
    temp.WriteUint(p.opcode, m.OpcodeWidth(), BigEnd);
    temp.WriteUint(|p.payload| % 0x1_0000, W16, BigEnd);
    temp.WriteBytes(p.payload);
    raw := temp.buffer;
  }

  /** deserialize through a temporary buffer. */
  method ParsePacket(m: Mode, raw: ByteSeq) returns (r: Option<Packet>)
    ensures r == Deserialize(m, raw)
  {
    var h := m.OpcodeSize();
    var temp := new ByteBuffer(raw);
    assert raw[0..] == raw;
    var opcode := temp.ReadUint(m.OpcodeWidth(), BigEnd);
    if opcode.None? { return None; }
    var length := temp.ReadUint(W16, BigEnd);
    if length.None? { return None; }
    assert raw[..h] == if h == 1 then [raw[0]] else [raw[0], raw[1]];
    assert raw[h..][..2] == [raw[h], raw[h + 1]];
    FieldsFromBigEndian(raw[0], raw[1]);
    FieldsFromBigEndian(raw[h], raw[h + 1]);
    if length.value.n != |raw| - (h + 2) { return None; }
    var payload := temp.ReadBytes(length.value.n);
    assert raw[h + 2..][..|raw| - (h + 2)] == raw[h + 2..];
    r := Some(Packet(opcode.value.n, payload.value.s));
  }
}
