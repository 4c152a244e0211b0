/** Positional notation in base 256: fixed-width integers and the byte strings of big numbers. */
module BigEndian {
  import opened Arithmetic
  import opened Bytes

  function Pow256(w: nat): (p: nat)
    ensures p >= 1
  {
    if w == 0 then 1 else Pow256(w - 1) * 256
  }

  /** The low w bytes of v, most significant first. */
  function ToBE(v: nat, w: nat): (s: ByteSeq)
    ensures |s| == w
  {
    if w == 0 then [] else ToBE(v / 256, w - 1) + [v % 256]
  }

  function FromBE(s: ByteSeq): (v: nat)
    ensures v < Pow256(|s|)
  {
    if s == [] then 0 else FromBE(s[..|s| - 1]) * 256 + s[|s| - 1]
  }

  lemma {:induction false} FromTo(v: nat, w: nat)
    ensures FromBE(ToBE(v, w)) == v % Pow256(w)
  {
    if w > 0 {
      FromTo(v / 256, w - 1);
      assert ToBE(v, w)[..w - 1] == ToBE(v / 256, w - 1);
      ModSplit(v, Pow256(w - 1));
    }
  }

  lemma ModSplit(v: nat, p: nat)
    requires p >= 1
    ensures v % (p * 256) == v / 256 % p * 256 + v % 256
  {
    var a, b := v / 256, v % 256;
    var q, r := a / p, a % p;
    assert v == (p * 256) * q + (r * 256 + b) by {
      assert a == p * q + r;
      assert (p * q + r) * 256 == p * 256 * q + r * 256;
    }
    DivUnique(v, p * 256, q, r * 256 + b);
  }

  lemma {:induction false} ToFrom(s: ByteSeq)
    ensures ToBE(FromBE(s), |s|) == s
  {
    if s != [] {
      ToFrom(s[..|s| - 1]);
      var v, b := FromBE(s[..|s| - 1]), s[|s| - 1];
      assert (v * 256 + b) / 256 == v && (v * 256 + b) % 256 == b;
    }
  }

  lemma DivDiv(v: nat, p: nat)
    requires p >= 1
    ensures v / 256 / p == v / (p * 256)
  {
    var a, b := v / 256, v % 256;
    var q, r := a / p, a % p;
    assert v == (p * 256) * q + (r * 256 + b) by {
      assert a == p * q + r;
      assert (p * q + r) * 256 == p * 256 * q + r * 256;
    }
    DivUnique(v, p * 256, q, r * 256 + b);
  }

  /** Byte i of w counts from the most significant end. */
  lemma {:induction false} Digit(v: nat, w: nat, i: nat)
    requires i < w
    ensures ToBE(v, w)[i] == v / Pow256(w - 1 - i) % 256
  {
    if i < w - 1 {
      Digit(v / 256, w - 1, i);
      DivDiv(v, Pow256(w - 2 - i));
      assert Pow256(w - 1 - i) == Pow256(w - 2 - i) * 256;
    } else {
      assert Pow256(0) == 1;
    }
  }

  // ----- big numbers -----

  /** BN_bn2bin: no leading zero byte, and no byte at all for zero. */
  function NatToBytes(x: nat): ByteSeq {
    if x == 0 then [] else NatToBytes(x / 256) + [x % 256]
  }

  /** pad_bytes_left of HexUtils.hpp; None where the source throws. */
  method PadBytesLeft(src: ByteSeq, size: nat) returns (r: Option<ByteSeq>)
    ensures r == PadLeft(src, size)
  {
    if |src| > size {
      return None;
    }
    if |src| == size {
      assert Zeros(0) + src == src;
      return Some(src);
    }
    var result := Zeros(size);
    result := result[..size - |src|] + src;
    assert result == Zeros(size - |src|) + src;
    r := Some(result);
  }

  function Zeros(n: nat): ByteSeq {
    seq(n, _ => 0)
  }

  function PadLeft(src: ByteSeq, size: nat): Option<ByteSeq> {
    if |src| > size then None else Some(Zeros(size - |src|) + src)
  }

  lemma {:induction false} MinimalLength(x: nat, w: nat)
    ensures |NatToBytes(x)| <= w <==> x < Pow256(w)
    decreases w
  {
    if x > 0 && w > 0 {
      MinimalLength(x / 256, w - 1);
      var p := Pow256(w - 1);
      assert x / 256 < p <==> x < p * 256;
    }
  }

  /** Padding the minimal bytes is the fixed-width encoding, and it fails only for numbers too big. */
  lemma {:induction false} PadIsFixedWidth(x: nat, w: nat)
    ensures PadLeft(NatToBytes(x), w) == if x < Pow256(w) then Some(ToBE(x, w)) else None
    decreases w
  {
    MinimalLength(x, w);
    if x == 0 {
      ZeroIsZeros(w);
      assert Zeros(w) + [] == Zeros(w);
    } else if x < Pow256(w) {
      MinimalLength(x / 256, w - 1);
      PadIsFixedWidth(x / 256, w - 1);
      var s := NatToBytes(x / 256);
      assert Zeros(w - |s + [x % 256]|) + (s + [x % 256]) == (Zeros(w - 1 - |s|) + s) + [x % 256];
    }
  }

  lemma {:induction false} ZeroIsZeros(w: nat)
    ensures ToBE(0, w) == Zeros(w)
  {
    if w > 0 { ZeroIsZeros(w - 1); }
  }

  /** What the peer decodes from a padded number is the number. */
  lemma PaddedRoundTrip(x: nat, w: nat)
    requires x < Pow256(w)
    ensures PadLeft(NatToBytes(x), w).Some?
    ensures |PadLeft(NatToBytes(x), w).value| == w && FromBE(PadLeft(NatToBytes(x), w).value) == x
  {
    PadIsFixedWidth(x, w);
    FromTo(x, w);
    assert x % Pow256(w) == x by { DivUnique(x, Pow256(w), 0, x); }
  }
}
