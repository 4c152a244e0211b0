/**
 * The typed field codec of ByteBuffer.hpp: a writer that appends and a reader that
 * advances. Throwing check_read becomes a None result.
 */
module ByteBuffers {
  import opened Arithmetic
  import opened Bytes
  import opened BigEndian

  datatype Order = BigEnd | LittleEnd
  datatype Width = W8 | W16 | W32 | W64 {
    function Size(): nat {
      match this case W8 => 1 case W16 => 2 case W32 => 4 case W64 => 8
    }
  }

  /** What a read needs to know about a field. */
  datatype Kind =
    | Uint(width: Width, order: Order)
    | Int(width: Width, order: Order)
    | Bool
    | StringNt(order: Order)                  // null-terminated; LittleEnd is reversed
    | StringRaw(order: Order, length: nat)    // LittleEnd is reversed
    | Block(length: nat)

  datatype Value = Num(n: int) | Flag(b: bool) | Text(s: ByteSeq)

  predicate Typed(k: Kind, v: Value) {
    match k
    case Uint(w, _) => v.Num? && 0 <= v.n < Pow256(w.Size())
    case Int(w, _) => v.Num? && -Half(w) <= v.n < Half(w)
    case Bool => v.Flag?
    case StringNt(_) => v.Text?
    case StringRaw(_, n) => v.Text? && |v.s| == n
    case Block(n) => v.Text? && |v.s| == n
  }

  /** Bytes in wire order. */
  function Ordered(s: ByteSeq, order: Order): ByteSeq {
    if order.BigEnd? then s else Reverse(s)
  }

  function Half(w: Width): int {
    Pow256(w.Size()) / 2
  }

  /** static_cast between the signed and the unsigned type of one width. */
  function Unsigned(n: int, w: Width): nat
    requires -Half(w) <= n < Half(w)
  {
    HalfTwice(w);
    if n < 0 then n + Pow256(w.Size()) else n
  }

  function Signed(n: nat, w: Width): int {
    if n < Half(w) then n else n - Pow256(w.Size())
  }

  lemma HalfTwice(w: Width)
    ensures Half(w) * 2 == Pow256(w.Size()) && Half(w) > 0
  {
    assert Pow256(w.Size()) == Pow256(w.Size() - 1) * 256;
  }

  function EncodeUint(n: nat, w: Width, order: Order): ByteSeq {
    Ordered(ToBE(n, w.Size()), order)
  }

  function Encode(k: Kind, v: Value): ByteSeq
    requires Typed(k, v)
  {
    match k
    case Uint(w, o) => EncodeUint(v.n, w, o)
    case Int(w, o) => EncodeUint(Unsigned(v.n, w), w, o)
    case Bool => [if v.b then 1 else 0]
    case StringNt(o) => Ordered(v.s, o) + [0]
    case StringRaw(o, _) => Ordered(v.s, o)
    case Block(_) => v.s
  }

  /** The bytes before the first NUL, or all of them. */
  function UntilNul(s: ByteSeq): (r: ByteSeq)
    ensures |r| <= |s|
  {
    if s == [] || s[0] == 0 then [] else [s[0]] + UntilNul(s[1..])
  }

  lemma ScanStep(s: ByteSeq, b: ByteSeq, i: nat)
    requires i < |b|
    ensures s + UntilNul(b[i..]) == if b[i] == 0 then s else (s + [b[i]]) + UntilNul(b[i + 1..])
  {
    assert b[i..][1..] == b[i + 1..];
  }

  /** A read at the head of `rest`: the value and how many bytes it took, or failure. */
  function Decode(k: Kind, rest: ByteSeq): (r: Option<(Value, nat)>)
    ensures r.Some? ==> r.value.1 <= |rest|
  {
    match k
    case Uint(w, o) =>
      if |rest| < w.Size() then None else Some((Num(FromBE(Ordered(rest[..w.Size()], o))), w.Size()))
    case Int(w, o) =>
      if |rest| < w.Size() then None else Some((Num(Signed(FromBE(Ordered(rest[..w.Size()], o)), w)), w.Size()))
    case Bool => if rest == [] then None else Some((Flag(rest[0] != 0), 1))
    case StringNt(o) =>
      var s := UntilNul(rest);
      Some((Text(Ordered(s, o)), if |s| < |rest| then |s| + 1 else |s|))
    case StringRaw(o, n) => if |rest| < n then None else Some((Text(Ordered(rest[..n], o)), n))
    case Block(n) => if |rest| < n then None else Some((Text(rest[..n]), n))
  }

  // ----- the buffer object -----

  class ByteBuffer {
    var buffer: ByteSeq
    var readPos: nat

    ghost predicate Valid()
      reads this
    {
      readPos <= |buffer|
    }

    constructor (data: ByteSeq)
      ensures Valid() && buffer == data && readPos == 0
    {
      buffer, readPos := data, 0;
    }

    method WriteBytes(data: ByteSeq)
      modifies this
      ensures buffer == old(buffer) + data && readPos == old(readPos)
    {
      buffer := buffer + data;
    }

    /** write_uint8 .. write_uint64_le */
    method WriteUint(n: nat, w: Width, order: Order)
      requires Typed(Uint(w, order), Num(n))
      modifies this
      ensures buffer == old(buffer) + Encode(Uint(w, order), Num(n)) && readPos == old(readPos)
    {
      WriteBytes(EncodeUint(n, w, order));
    }

    /** write_int8 .. write_int64_le */
    method WriteInt(n: int, w: Width, order: Order)
      requires Typed(Int(w, order), Num(n))
      modifies this
      ensures buffer == old(buffer) + Encode(Int(w, order), Num(n)) && readPos == old(readPos)
    {
      HalfTwice(w);
      WriteUint(Unsigned(n, w), w, order);
    }

    method WriteBool(b: bool)
      modifies this
      ensures buffer == old(buffer) + Encode(Bool, Flag(b)) && readPos == old(readPos)
    {
      buffer := buffer + [if b then 1 else 0];
    }

    /** write_string_raw_be, write_string_raw_le */
    method WriteStringRaw(s: ByteSeq, order: Order)
      modifies this
      ensures buffer == old(buffer) + Encode(StringRaw(order, |s|), Text(s)) && readPos == old(readPos)
    {
      WriteBytes(Ordered(s, order));
    }

    /** write_string_nt_be, write_string_nt_le */
    method WriteStringNt(s: ByteSeq, order: Order)
      modifies this
      ensures buffer == old(buffer) + Encode(StringNt(order), Text(s)) && readPos == old(readPos)
    {
      WriteStringRaw(s, order);
      WriteUint8Zero();
    }

    method WriteUint8Zero()
      modifies this
      ensures buffer == old(buffer) + [0] && readPos == old(readPos)
    {
      buffer := buffer + [0];
    }

    /** What every reader promises: the decoded head and its length, or failure and no movement. */
    ghost predicate ReadAs(k: Kind, was: nat, r: Option<Value>)
      reads this
      requires was <= |buffer|
    {
      match Decode(k, buffer[was..])
      case None => r.None? && readPos == was
      case Some((v, n)) => r == Some(v) && readPos == was + n
    }

    predicate CanRead(n: nat)
      reads this
    {
      readPos + n <= |buffer|
    }

    method ReadUint(w: Width, order: Order) returns (r: Option<Value>)
      requires Valid()
      modifies this`readPos
      ensures Valid() && ReadAs(Uint(w, order), old(readPos), r)
    {
      if !CanRead(w.Size()) { return None; }
      var bytes := buffer[readPos..readPos + w.Size()];
      assert bytes == buffer[readPos..][..w.Size()];
      readPos := readPos + w.Size();
      r := Some(Num(FromBE(Ordered(bytes, order))));
    }

    method ReadInt(w: Width, order: Order) returns (r: Option<Value>)
      requires Valid()
      modifies this`readPos
      ensures Valid() && ReadAs(Int(w, order), old(readPos), r)
    {
      var u := ReadUint(w, order);
      if u.None? { return None; }
      r := Some(Num(Signed(u.value.n, w)));
    }

    method ReadBool() returns (r: Option<Value>)
      requires Valid()
      modifies this`readPos
      ensures Valid() && ReadAs(Bool, old(readPos), r)
    {
      if !CanRead(1) { return None; }
      r := Some(Flag(buffer[readPos] != 0));
      readPos := readPos + 1;
    }

    method ReadBytes(n: nat) returns (r: Option<Value>)
      requires Valid()
      modifies this`readPos
      ensures Valid() && ReadAs(Block(n), old(readPos), r)
    {
      if !CanRead(n) { return None; }
      var bytes := buffer[readPos..readPos + n];
      assert bytes == buffer[readPos..][..n];
      readPos := readPos + n;
      r := Some(Text(bytes));
    }

    method ReadStringRaw(n: nat, order: Order) returns (r: Option<Value>)
      requires Valid()
      modifies this`readPos
      ensures Valid() && ReadAs(StringRaw(order, n), old(readPos), r)
    {
      var b := ReadBytes(n);
      if b.None? { return None; }
      r := Some(Text(Ordered(b.value.s, order)));
    }

    /** read_string_nt_be, read_string_nt_le: reads up to a NUL or to the end, and never fails. */
    method ReadStringNt(order: Order) returns (r: Option<Value>)
      requires Valid()
      modifies this`readPos
      ensures Valid() && r.Some? && ReadAs(StringNt(order), old(readPos), r)
    {
      var s := ScanToNul();
      r := Some(Text(Ordered(s, order)));
    }

    method ScanToNul() returns (s: ByteSeq)
      requires Valid()
      modifies this`readPos
      ensures Valid() && s == UntilNul(buffer[old(readPos)..])
      ensures readPos == if old(readPos) + |s| < |buffer| then old(readPos) + |s| + 1 else old(readPos) + |s|
    {
      s := [];
      ghost var found := UntilNul(buffer[readPos..]);
      while readPos < |buffer|
        invariant Valid()
        invariant readPos == old(readPos) + |s|
        invariant found == s + UntilNul(buffer[readPos..])
      {
        var c := buffer[readPos];
        ScanStep(s, buffer, readPos);
        readPos := readPos + 1;
        if c == 0 {
          return;
        }
        s := s + [c];
      }
    }

    /** skip: false where the source throws, and then nothing moves. */
    method Skip(n: nat) returns (ok: bool)
      requires Valid()
      modifies this`readPos
      ensures Valid() && ok == (old(readPos) + n <= |buffer|)
      ensures readPos == if ok then old(readPos) + n else old(readPos)
    {
      ok := CanRead(n);
      if ok { readPos := readPos + n; }
    }
  }

  // ----- round trips -----

  datatype Field = Field(kind: Kind, value: Value)

  predicate WellTyped(fs: seq<Field>) {
    forall i :: 0 <= i < |fs| ==> Typed(fs[i].kind, fs[i].value)
  }

  function EncodeAll(fs: seq<Field>): ByteSeq
    requires WellTyped(fs)
  {
    if fs == [] then [] else Encode(fs[0].kind, fs[0].value) + EncodeAll(fs[1..])
  }

  /** Reads a whole schema; the result holds the values and the number of bytes consumed. */
  function DecodeAll(kinds: seq<Kind>, rest: ByteSeq): Option<(seq<Value>, nat)> {
    if kinds == [] then Some(([], 0)) else
      var head := Decode(kinds[0], rest);
      if head.None? then None
      else Then(head.value.0, head.value.1, DecodeAll(kinds[1..], rest[head.value.1..]))
  }

  function Then(v: Value, n: nat, more: Option<(seq<Value>, nat)>): Option<(seq<Value>, nat)> {
    if more.None? then None else Some(([v] + more.value.0, n + more.value.1))
  }

  function Kinds(fs: seq<Field>): seq<Kind> {
    seq(|fs|, i requires 0 <= i < |fs| => fs[i].kind)
  }

  function Values(fs: seq<Field>): seq<Value> {
    seq(|fs|, i requires 0 <= i < |fs| => fs[i].value)
  }

  /** A null-terminated string survives only without an inner NUL; everything else always does. */
  predicate Clean(f: Field) {
    f.kind.StringNt? && f.value.Text? ==> 0 !in f.value.s
  }

  lemma {:induction false} UntilNulStops(s: ByteSeq, t: ByteSeq)
    requires 0 !in s
    ensures UntilNul(s + [0] + t) == s
  {
    if s != [] {
      UntilNulStops(s[1..], t);
      assert (s + [0] + t)[1..] == s[1..] + [0] + t;
    }
  }

  lemma {:induction false} UntilNulShort(s: ByteSeq, t: ByteSeq)
    requires 0 in s
    ensures |UntilNul(s + t)| < |s|
  {
    if s[0] != 0 {
      UntilNulShort(s[1..], t);
      assert (s + t)[1..] == s[1..] + t;
    }
  }

  lemma OrderedTwice(s: ByteSeq, o: Order)
    ensures Ordered(Ordered(s, o), o) == s && |Ordered(s, o)| == |s|
    ensures 0 in Ordered(s, o) <==> 0 in s
  {
    ReverseTwice(s);
    var r := Reverse(s);
    if 0 in r { var i :| 0 <= i < |r| && r[i] == 0; assert s[|s| - 1 - i] == 0; }
    if 0 in s { var i :| 0 <= i < |s| && s[i] == 0; assert r[|s| - 1 - i] == 0; }
  }

  lemma UintRoundTrip(n: nat, w: Width, o: Order, t: ByteSeq)
    requires n < Pow256(w.Size())
    ensures FromBE(Ordered((EncodeUint(n, w, o) + t)[..w.Size()], o)) == n
  {
    var e := EncodeUint(n, w, o);
    OrderedTwice(ToBE(n, w.Size()), o);
    assert (e + t)[..w.Size()] == e;
    FromTo(n, w.Size());
    DivUnique(n, Pow256(w.Size()), 0, n);
  }

  /** A number read and written again in the same width and order is the same bytes. */
  lemma Echo(s: ByteSeq, w: Width, o: Order)
    requires |s| == w.Size()
    ensures Typed(Uint(w, o), Num(FromBE(Ordered(s, o))))
    ensures Encode(Uint(w, o), Num(FromBE(Ordered(s, o)))) == s
  {
    OrderedTwice(s, o);
    ToFrom(Ordered(s, o));
  }

  lemma StringNtRoundTrip(s: ByteSeq, o: Order, t: ByteSeq)
    ensures var r := Decode(StringNt(o), Ordered(s, o) + [0] + t);
            if 0 !in s then r == Some((Text(s), |s| + 1)) else r.Some? && r.value.0 != Text(s)
  {
    var e := Ordered(s, o);
    OrderedTwice(s, o);
    if 0 !in s {
      UntilNulStops(e, t);
    } else {
      UntilNulShort(e, [0] + t);
      assert e + ([0] + t) == e + [0] + t;
      OrderedTwice(UntilNul(e + [0] + t), o);
    }
  }

  lemma FieldRoundTrip(f: Field, t: ByteSeq)
    requires Typed(f.kind, f.value)
    ensures var r := Decode(f.kind, Encode(f.kind, f.value) + t);
            && r.Some?
            && (Clean(f) ==> r.value == (f.value, |Encode(f.kind, f.value)|))
            && (!Clean(f) ==> r.value.0 != f.value)
  {
    var e := Encode(f.kind, f.value);
    assert (e + t)[..|e|] == e;
    match f.kind
    case Uint(w, o) =>
      OrderedTwice(ToBE(f.value.n, w.Size()), o);
      UintRoundTrip(f.value.n, w, o, t);
    case Int(w, o) =>
      HalfTwice(w);
      OrderedTwice(ToBE(Unsigned(f.value.n, w), w.Size()), o);
      UintRoundTrip(Unsigned(f.value.n, w), w, o, t);
    case Bool =>
    case StringNt(o) =>
      OrderedTwice(f.value.s, o);
      StringNtRoundTrip(f.value.s, o, t);
    case StringRaw(o, _) =>
      OrderedTwice(f.value.s, o);
    case Block(_) =>
  }

  ghost predicate ReadsBack(fs: seq<Field>, t: ByteSeq)
    requires WellTyped(fs)
  {
    DecodeAll(Kinds(fs), EncodeAll(fs) + t) == Some((Values(fs), |EncodeAll(fs)|))
  }

  /** FieldRoundTrip, with the decoded head as results. */
  lemma FieldHead(f: Field, t: ByteSeq) returns (v: Value, n: nat)
    requires Typed(f.kind, f.value)
    ensures Decode(f.kind, Encode(f.kind, f.value) + t) == Some((v, n))
    ensures if Clean(f) then v == f.value && n == |Encode(f.kind, f.value)| else v != f.value
  {
    FieldRoundTrip(f, t);
    var r := Decode(f.kind, Encode(f.kind, f.value) + t).value;
    v, n := r.0, r.1;
  }

  lemma DecodeAllCons(kinds: seq<Kind>, rest: ByteSeq, v: Value, n: nat)
    requires kinds != [] && n <= |rest| && Decode(kinds[0], rest) == Some((v, n))
    ensures DecodeAll(kinds, rest) == Then(v, n, DecodeAll(kinds[1..], rest[n..]))
  {
  }

  lemma ConsStream(fs: seq<Field>, t: ByteSeq)
    requires WellTyped(fs) && fs != []
    ensures var e := Encode(fs[0].kind, fs[0].value);
            && EncodeAll(fs) + t == e + (EncodeAll(fs[1..]) + t)
            && |EncodeAll(fs)| == |e| + |EncodeAll(fs[1..])|
  {
    Regroup(Encode(fs[0].kind, fs[0].value), EncodeAll(fs[1..]), t);
  }

  /** The first field decoded, and what is left for the others. */
  lemma ConsDecoded(fs: seq<Field>, t: ByteSeq) returns (v: Value, n: nat, more: Option<(seq<Value>, nat)>)
    requires WellTyped(fs) && fs != []
    ensures DecodeAll(Kinds(fs), EncodeAll(fs) + t) == Then(v, n, more)
    ensures if Clean(fs[0]) then
              && v == fs[0].value && n == |Encode(fs[0].kind, fs[0].value)|
              && more == DecodeAll(Kinds(fs[1..]), EncodeAll(fs[1..]) + t)
            else v != fs[0].value
  {
    var f, tail := fs[0], EncodeAll(fs[1..]) + t;
    var e := Encode(f.kind, f.value);
    v, n := FieldHead(f, tail);
    ConsStream(fs, t);
    ConsParts(fs);
    DecodeAllCons(Kinds(fs), e + tail, v, n);
    more := DecodeAll(Kinds(fs[1..]), (e + tail)[n..]);
    TailAfter(e, tail);
  }

  lemma ReadsBackCons(fs: seq<Field>, t: ByteSeq)
    requires WellTyped(fs) && fs != []
    ensures ReadsBack(fs, t) <==> Clean(fs[0]) && ReadsBack(fs[1..], t)
  {
    var v, n, more := ConsDecoded(fs, t);
    ConsStream(fs, t);
    ConsParts(fs);
    ThenIs(v, n, more, fs[0].value, Values(fs[1..]), |EncodeAll(fs)|);
  }

  lemma ConsParts(fs: seq<Field>)
    requires fs != []
    ensures Kinds(fs) == [fs[0].kind] + Kinds(fs[1..]) && Kinds(fs)[1..] == Kinds(fs[1..])
    ensures Values(fs) == [fs[0].value] + Values(fs[1..])
  {
  }

  lemma TailAfter(a: ByteSeq, b: ByteSeq)
    ensures (a + b)[|a|..] == b
  {
  }

  lemma ThenIs(v: Value, n: nat, more: Option<(seq<Value>, nat)>, u: Value, us: seq<Value>, m: nat)
    ensures Then(v, n, more) == Some(([u] + us, m)) <==>
            v == u && more.Some? && more.value.0 == us && n + more.value.1 == m
  {
    if more.Some? {
      var vs := more.value.0;
      assert ([v] + vs)[0] == v && ([u] + us)[0] == u;
      assert ([v] + vs)[1..] == vs && ([u] + us)[1..] == us;
    }
  }

  /**
   * A field list written in order and read back with the same schema, whatever follows it,
   * returns the same values and consumes exactly the bytes written if and only if no
   * null-terminated string contains a NUL.
   */
  lemma {:induction false} RoundTrip(fs: seq<Field>, t: ByteSeq)
    requires WellTyped(fs)
    ensures DecodeAll(Kinds(fs), EncodeAll(fs) + t) == Some((Values(fs), |EncodeAll(fs)|))
            <==> forall i :: 0 <= i < |fs| ==> Clean(fs[i])
  {
    if fs == [] {
      assert Kinds(fs) == [] && Values(fs) == [];
    } else {
      ReadsBackCons(fs, t);
      var rest := fs[1..];
      RoundTrip(rest, t);
      assert forall i :: 0 <= i < |rest| ==> rest[i] == fs[i + 1];
      assert forall i :: 0 < i < |fs| ==> fs[i] == rest[i - 1];
      assert ReadsBack(rest, t) <==> forall i :: 0 <= i < |rest| ==> Clean(rest[i]);
    }
  }

  // ----- the bytes on the wire -----

  /** Byte i of a number: most significant first, or last in the little-endian forms. */
  lemma NumberOnWire(k: Kind, n: int, i: nat)
    requires k.Uint? || k.Int?
    requires Typed(k, Num(n)) && i < k.width.Size()
    ensures |Encode(k, Num(n))| == k.width.Size()
    ensures var size := k.width.Size();
            Encode(k, Num(n))[i] ==
            n % Pow256(size) / Pow256(if k.order.BigEnd? then size - 1 - i else i) % 256
  {
    ModuloWidth(k, n);
    DigitOnWire(if k.Uint? then n else Unsigned(n, k.width), k.width, k.order, i);
  }

  lemma DigitOnWire(u: nat, w: Width, o: Order, i: nat)
    requires i < w.Size()
    ensures |EncodeUint(u, w, o)| == w.Size()
    ensures EncodeUint(u, w, o)[i] == u / Pow256(if o.BigEnd? then w.Size() - 1 - i else i) % 256
  {
    if o.BigEnd? { Digit(u, w.Size(), i); } else { Digit(u, w.Size(), w.Size() - 1 - i); }
  }

  /** Both casts keep the residue modulo the width. */
  lemma ModuloWidth(k: Kind, n: int)
    requires k.Uint? || k.Int?
    requires Typed(k, Num(n))
    ensures n % Pow256(k.width.Size()) == if k.Uint? then n else Unsigned(n, k.width)
  {
    var p := Pow256(k.width.Size());
    HalfTwice(k.width);
    if n >= 0 {
      DivUnique(n, p, 0, n);
    } else {
      NegativeResidue(n, p);
    }
  }

  lemma NegativeResidue(n: int, p: int)
    requires -p <= n < 0
    ensures n % p == n + p
  {
    assert n == p * (n / p) + n % p;
    assert p * (n / p + 1) == p * (n / p) + p;
    NoMultipleBelow(p, n / p + 1);
  }

  /** Texts: as they are or reversed, with a NUL after the terminated ones; a flag is 1 or 0. */
  lemma TextOnWire(s: ByteSeq, b: bool, i: nat)
    requires i < |s|
    ensures Encode(StringRaw(BigEnd, |s|), Text(s)) == s == Encode(Block(|s|), Text(s))
    ensures Encode(StringNt(BigEnd), Text(s)) == s + [0]
    ensures Encode(StringRaw(LittleEnd, |s|), Text(s))[i] == s[|s| - 1 - i]
    ensures Encode(StringNt(LittleEnd), Text(s)) == Encode(StringRaw(LittleEnd, |s|), Text(s)) + [0]
    ensures Encode(Bool, Flag(b)) == if b then [1] else [0]
  {
  }

  /** How many bytes a read needs; a terminated string needs none. */
  function Needs(k: Kind): nat {
    match k
    case Uint(w, _) => w.Size()
    case Int(w, _) => w.Size()
    case Bool => 1
    case StringNt(_) => 0
    case StringRaw(_, n) => n
    case Block(n) => n
  }

  /** Bytes that a writer could have written: a flag is 0 or 1, and a terminated string has its NUL. */
  predicate Canonical(k: Kind, rest: ByteSeq) {
    && (k.Bool? && rest != [] ==> rest[0] <= 1)
    && (k.StringNt? ==> 0 in rest)
  }

  lemma {:induction false} UntilNulIs(s: ByteSeq)
    ensures var r := UntilNul(s); 0 !in r && r <= s && (|r| < |s| ==> s[|r|] == 0) && (|r| == |s| <==> 0 !in s)
  {
    if s != [] && s[0] != 0 {
      UntilNulIs(s[1..]);
      assert s == [s[0]] + s[1..];
    }
  }

  lemma SignedBack(n: nat, w: Width)
    requires n < Pow256(w.Size())
    ensures -Half(w) <= Signed(n, w) < Half(w) && Unsigned(Signed(n, w), w) == n
  {
    HalfTwice(w);
  }

  lemma NumberWrittenBack(k: Kind, rest: ByteSeq)
    requires (k.Uint? || k.Int?) && |rest| >= k.width.Size()
    ensures var (v, n) := Decode(k, rest).value;
            n == k.width.Size() && Typed(k, v) && Encode(k, v) == rest[..n]
  {
    var head := rest[..k.width.Size()];
    Echo(head, k.width, k.order);
    if k.Int? { SignedBack(FromBE(Ordered(head, k.order)), k.width); }
  }

  lemma TerminatedWrittenBack(o: Order, rest: ByteSeq)
    ensures var (v, n) := Decode(StringNt(o), rest).value;
            Encode(StringNt(o), v) == rest[..n] <==> 0 in rest
  {
    var s := UntilNul(rest);
    UntilNulIs(rest);
    OrderedTwice(s, o);
  }

  /**
   * The other round trip: a read fails exactly for want of bytes, and what it returns, written
   * again, is the bytes it took if and only if a writer could have written them.
   */
  lemma WrittenBack(k: Kind, rest: ByteSeq)
    ensures Decode(k, rest).Some? <==> |rest| >= Needs(k)
    ensures Decode(k, rest).Some? ==>
              var (v, n) := Decode(k, rest).value;
              Typed(k, v) && (Encode(k, v) == rest[..n] <==> Canonical(k, rest))
  {
    match k
    case Uint(w, _) => if |rest| >= w.Size() { NumberWrittenBack(k, rest); }
    case Int(w, _) => if |rest| >= w.Size() { NumberWrittenBack(k, rest); }
    case Bool =>
    case StringNt(o) => TerminatedWrittenBack(o, rest);
    case StringRaw(o, n) => if |rest| >= n { OrderedTwice(rest[..n], o); }
    case Block(_) =>
  }

  /** A terminated string ends before its first NUL, which is taken too, or at the end of the data. */
  lemma TerminatedRead(rest: ByteSeq, o: Order, k: nat)
    requires k <= |rest| && 0 !in rest[..k] && (k < |rest| ==> rest[k] == 0)
    ensures Decode(StringNt(o), rest) == Some((Text(Ordered(rest[..k], o)), if k < |rest| then k + 1 else k))
  {
    assert rest == rest[..k] + rest[k..];
    if k < |rest| {
      assert rest == rest[..k] + [0] + rest[k + 1..];
      UntilNulStops(rest[..k], rest[k + 1..]);
    } else {
      assert rest[..k] == rest;
      UntilNulIs(rest);
      assert UntilNul(rest) == rest;
    }
  }

  /** Any byte but 0 reads as true. */
  lemma FlagsRead(rest: ByteSeq)
    requires rest != []
    ensures Decode(Bool, rest) == if rest[0] == 0 then Some((Flag(false), 1)) else Some((Flag(true), 1))
  {
  }
}
