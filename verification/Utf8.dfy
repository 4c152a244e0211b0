/**
 * The UTF-8 validator and the ASCII case mappers of UTF8Utils.cpp, against
 * the shortest-form encoding of section 3 and the grammar of section 4 of RFC 3629.
 */
module Utf8 {
  import opened Bytes

  /** What the validator really admits: four-byte forms run up to F4 BF BF BF. */
  type CodePoint = c: int | 0 <= c < 0x14_0000 && !(0xD800 <= c < 0xE000)

  /** The continuation byte that carries the six low bits. */
  function Cont(c: nat): Byte { 0x80 + c % 64 }

  /** Shortest-form encoding of one code point (section 3 of RFC 3629). */
  function EncodeOne(c: CodePoint): ByteSeq {
    if c < 0x80 then [c]
    else if c < 0x800 then [0xC0 + c / 64, Cont(c)]
    else if c < 0x1_0000 then [0xE0 + c / 64 / 64, Cont(c / 64), Cont(c)]
    else [0xF0 + c / 64 / 64 / 64, Cont(c / 64 / 64), Cont(c / 64), Cont(c)]
  }

  function Encode(cs: seq<CodePoint>): ByteSeq {
    if cs == [] then [] else EncodeOne(cs[0]) + Encode(cs[1..])
  }

  // ----- the byte classes that the source tests with masks -----

  predicate IsCont(b: Byte) { b / 64 == 2 }    // (b & 0xC0) == 0x80
  predicate IsLead2(b: Byte) { b / 32 == 6 }   // (b & 0xE0) == 0xC0
  predicate IsLead3(b: Byte) { b / 16 == 14 }  // (b & 0xF0) == 0xE0
  predicate IsLead4(b: Byte) { b / 8 == 30 }   // (b & 0xF8) == 0xF0

  /** The division tests are the mask tests of the source. */
  lemma MasksAreDivisions(b: bv8)
    ensures b & 0xC0 == 0x80 <==> b / 64 == 2
    ensures b & 0xE0 == 0xC0 <==> b / 32 == 6
    ensures b & 0xF0 == 0xE0 <==> b / 16 == 14
    ensures b & 0xF8 == 0xF0 <==> b / 8 == 30
  {
  }

  /** Number of bytes the validator consumes at the head of s; 0 when it rejects. */
  function HeadLength(s: ByteSeq): (n: nat)
    ensures n <= |s| && n <= 4
  {
    if s == [] then 0
    else if s[0] <= 0x7F then 1
    else if IsLead2(s[0]) then
      if |s| < 2 || !IsCont(s[1]) || s[0] < 0xC2 then 0 else 2
    else if IsLead3(s[0]) then
      if |s| < 3 || !IsCont(s[1]) || !IsCont(s[2]) then 0
      else if s[0] == 0xE0 && s[1] < 0xA0 then 0
      else if s[0] == 0xED && s[1] >= 0xA0 then 0
      else 3
    else if IsLead4(s[0]) then
      if |s| < 4 || !IsCont(s[1]) || !IsCont(s[2]) || !IsCont(s[3]) then 0
      else if s[0] == 0xF0 && s[1] < 0x90 then 0
      else if s[0] > 0xF4 then 0
      else 4
    else 0
  }

  /** The language of the validator, by repeated head removal. */
  predicate Accepts(s: ByteSeq)
    decreases |s|
  {
    s == [] || (HeadLength(s) > 0 && Accepts(s[HeadLength(s)..]))
  }

  /** Appends the six payload bits of a continuation byte. */
  function Bits(high: int, cont: Byte): int {
    high * 64 + (cont - 0x80)
  }

  function DecodeHead(s: ByteSeq): CodePoint
    requires HeadLength(s) > 0
  {
    if s[0] <= 0x7F then s[0]
    else if IsLead2(s[0]) then Bits(s[0] - 0xC0, s[1])
    else if IsLead3(s[0]) then Bits(Bits(s[0] - 0xE0, s[1]), s[2])
    else Bits(Bits(Bits(s[0] - 0xF0, s[1]), s[2]), s[3])
  }

  lemma BitsSplit(high: nat, b: Byte)
    requires IsCont(b)
    ensures Bits(high, b) / 64 == high && Cont(Bits(high, b)) == b
  {
  }

  lemma DecodeHeadSound(s: ByteSeq)
    requires HeadLength(s) > 0
    ensures EncodeOne(DecodeHead(s)) == s[..HeadLength(s)]
  {
    if IsLead2(s[0]) {
      BitsSplit(s[0] - 0xC0, s[1]);
    } else if IsLead3(s[0]) {
      BitsSplit(s[0] - 0xE0, s[1]);
      BitsSplit(Bits(s[0] - 0xE0, s[1]), s[2]);
    } else if IsLead4(s[0]) {
      BitsSplit(s[0] - 0xF0, s[1]);
      BitsSplit(Bits(s[0] - 0xF0, s[1]), s[2]);
      BitsSplit(Bits(Bits(s[0] - 0xF0, s[1]), s[2]), s[3]);
    }
  }

  lemma BitsJoin(c: nat)
    ensures Bits(c / 64, Cont(c)) == c && IsCont(Cont(c))
  {
  }

  lemma HeadOfEncoding(c: CodePoint, t: ByteSeq)
    ensures HeadLength(EncodeOne(c) + t) == |EncodeOne(c)|
    ensures DecodeHead(EncodeOne(c) + t) == c
  {
    BitsJoin(c);
    BitsJoin(c / 64);
    BitsJoin(c / 64 / 64);
    var s := EncodeOne(c) + t;
    if c < 0x80 {
    } else if c < 0x800 {
      assert IsLead2(s[0]);
    } else if c < 0x1_0000 {
      assert IsLead3(s[0]);
    } else {
      assert IsLead4(s[0]);
    }
  }

  function Decode(s: ByteSeq): (cs: seq<CodePoint>)
    requires Accepts(s)
    ensures Encode(cs) == s
    decreases |s|
  {
    if s == [] then [] else
      var n := HeadLength(s);
      DecodeHeadSound(s);
      assert s == s[..n] + s[n..];
      [DecodeHead(s)] + Decode(s[n..])
  }

  lemma {:induction false} DecodeEncode(cs: seq<CodePoint>)
    ensures Accepts(Encode(cs)) && Decode(Encode(cs)) == cs
  {
    if cs != [] {
      var head, rest := EncodeOne(cs[0]), Encode(cs[1..]);
      DecodeEncode(cs[1..]);
      HeadOfEncoding(cs[0], rest);
      assert (head + rest)[|head|..] == rest;
    }
  }

  /** Accepted means: a concatenation of shortest-form encodings. */
  lemma AcceptsExactlyEncodings(s: ByteSeq)
    ensures Accepts(s) <==> exists cs: seq<CodePoint> :: Encode(cs) == s
  {
    if Accepts(s) {
      assert Encode(Decode(s)) == s;
    }
    if cs: seq<CodePoint> :| Encode(cs) == s {
      DecodeEncode(cs);
    }
  }

  /** ... and that decomposition is unique. */
  lemma EncodeInjective(a: seq<CodePoint>, b: seq<CodePoint>)
    requires Encode(a) == Encode(b)
    ensures a == b
  {
    DecodeEncode(a);
    DecodeEncode(b);
  }

  /** is_valid_utf8 */
  method IsValidUtf8(s: ByteSeq) returns (ok: bool)
    ensures ok <==> Accepts(s)
    ensures ok <==> exists cs: seq<CodePoint> :: Encode(cs) == s
  {
    AcceptsExactlyEncodings(s);
    var i := 0;
    while i < |s|
      invariant 0 <= i <= |s|
      invariant Accepts(s) <==> Accepts(s[i..])
    {
      var c := s[i];
      ghost var here := s[i..];
      if c <= 0x7F {
        assert here[1..] == s[i + 1..];
        i := i + 1;
      } else if IsLead2(c) {
        if i + 1 >= |s| || !IsCont(s[i + 1]) || c < 0xC2 { return false; }
        assert here[2..] == s[i + 2..];
        i := i + 2;
      } else if IsLead3(c) {
        if i + 2 >= |s| || !IsCont(s[i + 1]) || !IsCont(s[i + 2]) { return false; }
        if c == 0xE0 && s[i + 1] < 0xA0 { return false; }
        if c == 0xED && s[i + 1] >= 0xA0 { return false; }
        assert here[3..] == s[i + 3..];
        i := i + 3;
      } else if IsLead4(c) {
        if i + 3 >= |s| || !IsCont(s[i + 1]) || !IsCont(s[i + 2]) || !IsCont(s[i + 3]) { return false; }
        if c == 0xF0 && s[i + 1] < 0x90 { return false; }
        if c > 0xF4 { return false; }
        assert here[4..] == s[i + 4..];
        i := i + 4;
      } else {
        return false;
      }
    }
    ok := true;
  }

  // ----- comparison with the grammar of section 4 of RFC 3629 -----

  predicate Tail(b: Byte) { 0x80 <= b <= 0xBF }

  predicate RfcChar(s: ByteSeq) {
    || (|s| == 1 && s[0] <= 0x7F)
    || (|s| == 2 && 0xC2 <= s[0] <= 0xDF && Tail(s[1]))
    || (|s| == 3 && Tail(s[1]) && Tail(s[2]) &&
        ((s[0] == 0xE0 && 0xA0 <= s[1]) || 0xE1 <= s[0] <= 0xEC ||
         (s[0] == 0xED && s[1] <= 0x9F) || 0xEE <= s[0] <= 0xEF))
    || (|s| == 4 && Tail(s[1]) && Tail(s[2]) && Tail(s[3]) &&
        ((s[0] == 0xF0 && 0x90 <= s[1]) || 0xF1 <= s[0] <= 0xF3 ||
         (s[0] == 0xF4 && s[1] <= 0x8F)))
  }

  ghost predicate RfcParts(parts: seq<ByteSeq>) {
    forall i :: 0 <= i < |parts| ==> RfcChar(parts[i])
  }

  ghost predicate RfcString(s: ByteSeq) {
    exists parts: seq<ByteSeq> :: RfcParts(parts) && Flatten(parts) == s
  }

  lemma RfcCharIsHead(p: ByteSeq, t: ByteSeq)
    requires RfcChar(p)
    ensures HeadLength(p + t) == |p| && (p + t)[..|p|] == p && (p + t)[|p|..] == t
  {
  }

  predicate BeyondRfc(s: ByteSeq) {
    |s| == 4 && s[0] == 0xF4 && s[1] >= 0x90
  }

  lemma OnlyBeyondRfc(c: CodePoint)
    ensures RfcChar(EncodeOne(c)) <==> !BeyondRfc(EncodeOne(c))
    ensures BeyondRfc(EncodeOne(c)) <==> c >= 0x11_0000
  {
    BitsJoin(c);
    BitsJoin(c / 64);
    BitsJoin(c / 64 / 64);
  }

  lemma {:induction false} RfcPartsDecode(parts: seq<ByteSeq>)
    requires RfcParts(parts)
    ensures Accepts(Flatten(parts))
    ensures forall c :: c in Decode(Flatten(parts)) ==> !BeyondRfc(EncodeOne(c))
  {
    if parts != [] {
      RfcPartsDecode(parts[1..]);
      RfcCharIsHead(parts[0], Flatten(parts[1..]));
      DecodeHeadSound(Flatten(parts));
      OnlyBeyondRfc(DecodeHead(Flatten(parts)));
    }
  }

  lemma {:induction false} RfcCodePoints(cs: seq<CodePoint>)
    requires forall i :: 0 <= i < |cs| ==> RfcChar(EncodeOne(cs[i]))
    ensures RfcString(Encode(cs))
  {
    if cs == [] {
      assert RfcParts([]) && Flatten<Byte>([]) == Encode(cs);
    } else {
      RfcCodePoints(cs[1..]);
      var rest: seq<ByteSeq> :| RfcParts(rest) && Flatten(rest) == Encode(cs[1..]);
      var parts := [EncodeOne(cs[0])] + rest;
      assert parts[1..] == rest;
      assert RfcParts(parts) && Flatten(parts) == Encode(cs);
    }
  }

  /**
   * Every string of the RFC grammar is accepted; an accepted string is outside the
   * grammar exactly when one of its characters is F4 followed by 90..BF.
   */
  lemma AcceptsVersusRfc(s: ByteSeq)
    ensures RfcString(s) ==> Accepts(s)
    ensures Accepts(s) ==> (RfcString(s) <==> forall c :: c in Decode(s) ==> !BeyondRfc(EncodeOne(c)))
  {
    if RfcString(s) {
      var parts: seq<ByteSeq> :| RfcParts(parts) && Flatten(parts) == s;
      RfcPartsDecode(parts);
    }
    if Accepts(s) && forall c :: c in Decode(s) ==> !BeyondRfc(EncodeOne(c)) {
      var cs := Decode(s);
      forall i | 0 <= i < |cs| ensures RfcChar(EncodeOne(cs[i])) {
        assert cs[i] in cs;
        OnlyBeyondRfc(cs[i]);
      }
      RfcCodePoints(cs);
    }
  }

  /** The family the comment in the source says is rejected: accepted, and in no RFC string. */
  lemma BeyondRfcIsAccepted(b1: Byte, b2: Byte, b3: Byte)
    requires 0x90 <= b1 <= 0xBF && Tail(b2) && Tail(b3)
    ensures Accepts([0xF4, b1, b2, b3]) && !RfcString([0xF4, b1, b2, b3])
  {
    var s: ByteSeq := [0xF4, b1, b2, b3];
    assert HeadLength(s) == 4 && s[4..] == [];
    var c := DecodeHead(s);
    DecodeHeadSound(s);
    assert s[..4] == s && c in Decode(s);
    AcceptsVersusRfc(s);
  }

  // ----- case mapping -----

  datatype Case = Lower | Upper

  function Fold(b: Byte, k: Case): Byte {
    match k
    case Lower => if 'A' as int <= b <= 'Z' as int then b + 32 else b
    case Upper => if 'a' as int <= b <= 'z' as int then b - 32 else b
  }

  /** How far the mappers jump over a byte above 7F. */
  function SkipLength(b: Byte): (n: nat)
    ensures 1 <= n <= 4
  {
    if IsLead2(b) then 2 else if IsLead3(b) then 3 else if IsLead4(b) then 4 else 1
  }

  function Segment(s: ByteSeq): (n: nat)
    requires s != []
    ensures 1 <= n <= |s|
  {
    if s[0] <= 0x7F then 1
    else if SkipLength(s[0]) <= |s| then SkipLength(s[0]) else |s|
  }

  function MapCase(s: ByteSeq, k: Case): (r: ByteSeq)
    ensures |r| == |s|
    decreases |s|
  {
    if s == [] then []
    else if s[0] <= 0x7F then [Fold(s[0], k)] + MapCase(s[1..], k)
    else s[..Segment(s)] + MapCase(s[Segment(s)..], k)
  }

  lemma MapAscii(s: ByteSeq, r: ByteSeq, i: nat, k: Case)
    requires i < |s| && s[i] <= 0x7F
    ensures r + MapCase(s[i..], k) == (r + [Fold(s[i], k)]) + MapCase(s[i + 1..], k)
  {
    assert s[i..][1..] == s[i + 1..];
    Regroup(r, [Fold(s[i], k)], MapCase(s[i + 1..], k));
  }

  lemma MapSkip(s: ByteSeq, r: ByteSeq, i: nat, end: nat, k: Case)
    requires i < |s| && s[i] > 0x7F && end == i + Segment(s[i..])
    ensures r + MapCase(s[i..], k) == (r + s[i..end]) + MapCase(s[end..], k)
  {
    assert s[i..][..end - i] == s[i..end] && s[i..][end - i..] == s[end..];
    Regroup(r, s[i..end], MapCase(s[end..], k));
  }

  /** to_lowercase and to_uppercase: the lead-byte skipping loop. */
  method ToCase(s: ByteSeq, k: Case) returns (r: ByteSeq)
    ensures r == MapCase(s, k)
  {
    ghost var whole := MapCase(s, k);
    r := [];
    var i := 0;
    assert s[0..] == s;
    while i < |s|
      invariant 0 <= i <= |s|
      invariant whole == r + MapCase(s[i..], k)
    {
      r, i := MapSegment(s, r, i, k);
    }
    assert s[i..] == [];
  }

  /** One turn of the loop: one ASCII byte mapped, or as many bytes copied as a lead byte announces. */
  method MapSegment(s: ByteSeq, r: ByteSeq, i: nat, k: Case) returns (r': ByteSeq, end: nat)
    requires i < |s|
    ensures i < end <= |s|
    ensures r' + MapCase(s[end..], k) == r + MapCase(s[i..], k)
  {
    var c := s[i];
    if c <= 0x7F {
      MapAscii(s, r, i, k);
      r', end := r + [Fold(c, k)], i + 1;
    } else {
      end := if i + SkipLength(c) <= |s| then i + SkipLength(c) else |s|;
      MapSkip(s, r, i, end, k);
      r' := r + s[i..end];
    }
  }

  function FoldAll(s: ByteSeq, k: Case): (r: ByteSeq)
    ensures |r| == |s| && forall i :: 0 <= i < |s| ==> r[i] == Fold(s[i], k)
  {
    if s == [] then [] else [Fold(s[0], k)] + FoldAll(s[1..], k)
  }

  lemma HeadFolded(s: ByteSeq, k: Case)
    requires HeadLength(s) > 0
    ensures Segment(s) == HeadLength(s) == HeadLength(FoldAll(s, k))
    ensures s[0] > 0x7F ==> forall i :: 0 <= i < HeadLength(s) ==> Fold(s[i], k) == s[i]
  {
    var r := FoldAll(s, k);
    assert forall i :: 0 <= i < |s| && s[i] > 0x7F ==> r[i] == s[i];
  }

  lemma FoldAllTail(s: ByteSeq, n: nat, k: Case)
    requires n <= |s|
    ensures FoldAll(s, k)[n..] == FoldAll(s[n..], k)
  {
  }

  /** On accepted strings the loop is the plain per-byte ASCII map and the result is accepted. */
  lemma {:induction false} CaseOfAccepted(s: ByteSeq, k: Case)
    requires Accepts(s)
    ensures MapCase(s, k) == FoldAll(s, k)
    ensures Accepts(MapCase(s, k))
    decreases |s|
  {
    if s != [] {
      var n := HeadLength(s);
      CaseOfAccepted(s[n..], k);
      HeadFolded(s, k);
      FoldAllTail(s, n, k);
      assert MapCase(s, k)[n..] == FoldAll(s, k)[n..];
      assert MapCase(s, k)[..n] == FoldAll(s, k)[..n];
      assert FoldAll(s, k) == FoldAll(s, k)[..n] + FoldAll(s, k)[n..];
    }
  }

  /**
   * On every byte string, accepted or not, the later mapping wins: with j == k this is
   * idempotence, and upper(lower(s)) == upper(s) is another instance.
   */
  lemma {:induction false} LaterCaseWins(s: ByteSeq, j: Case, k: Case)
    ensures MapCase(MapCase(s, j), k) == MapCase(s, k)
    decreases |s|
  {
    if s != [] {
      var n := Segment(s);
      LaterCaseWins(s[n..], j, k);
      var r := MapCase(s, j);
      assert r[n..] == MapCase(s[n..], j);
      assert Segment(r) == n;
      if s[0] > 0x7F { assert r[..n] == s[..n]; }
    }
  }

  // ----- the mappers in terms of byte values -----

  /** toupper and tolower of the C locale. */
  function AsciiCase(b: Byte, k: Case): Byte {
    if k.Upper? && 0x61 <= b <= 0x7A then b - 0x20
    else if k.Lower? && 0x41 <= b <= 0x5A then b + 0x20
    else b
  }

  /** How many bytes the lead byte announces, itself included. */
  function Announced(b: Byte): nat {
    if 0xC0 <= b <= 0xDF then 2 else if 0xE0 <= b <= 0xEF then 3 else if 0xF0 <= b <= 0xF7 then 4 else 1
  }

  lemma ByteValues(b: Byte, k: Case)
    ensures Fold(b, k) == AsciiCase(b, k) && SkipLength(b) == Announced(b)
  {
  }

  /**
   * The mappers on every byte string: a byte below 80 is mapped alone, any other is copied
   * with as many of the bytes after it as it announces and there are.
   */
  lemma MapCaseHead(s: ByteSeq, k: Case, n: nat)
    requires s != [] && n == if Announced(s[0]) <= |s| then Announced(s[0]) else |s|
    ensures MapCase(s, k) == (if s[0] < 0x80 then [AsciiCase(s[0], k)] else s[..n]) + MapCase(s[n..], k)
  {
    ByteValues(s[0], k);
  }

  /** On accepted strings exactly the ASCII letters of the other case are mapped. */
  lemma CaseOfBytes(s: ByteSeq, k: Case, i: nat)
    requires Accepts(s) && i < |s|
    ensures MapCase(s, k)[i] == AsciiCase(s[i], k)
  {
    CaseOfAccepted(s, k);
    ByteValues(s[i], k);
  }

  /** An upper-cased name has no small ASCII letter, and a lower-cased one no capital. */
  lemma NoLettersOfOtherCase(s: ByteSeq)
    requires Accepts(s)
    ensures forall b :: b in MapCase(s, Upper) ==> !(0x61 <= b <= 0x7A)
    ensures forall b :: b in MapCase(s, Lower) ==> !(0x41 <= b <= 0x5A)
  {
    forall i | 0 <= i < |s| ensures !(0x61 <= MapCase(s, Upper)[i] <= 0x7A) && !(0x41 <= MapCase(s, Lower)[i] <= 0x5A) {
      CaseOfBytes(s, Upper, i);
      CaseOfBytes(s, Lower, i);
    }
  }

  predicate SameLetter(a: Byte, b: Byte) {
    a == b || (0x41 <= a <= 0x5A && b == a + 0x20) || (0x41 <= b <= 0x5A && a == b + 0x20)
  }

  /** Two accepted names are the same account if and only if they differ in ASCII case only. */
  lemma SameAccountIff(s: ByteSeq, t: ByteSeq)
    requires Accepts(s) && Accepts(t)
    ensures MapCase(s, Upper) == MapCase(t, Upper) <==>
            |s| == |t| && forall i :: 0 <= i < |s| ==> SameLetter(s[i], t[i])
  {
    if |s| == |t| {
      forall i | 0 <= i < |s| ensures MapCase(s, Upper)[i] == MapCase(t, Upper)[i] <==> SameLetter(s[i], t[i]) {
        CaseOfBytes(s, Upper, i);
        CaseOfBytes(t, Upper, i);
        SameLetterIff(s[i], t[i]);
      }
      PointwiseIff(s, t, MapCase(s, Upper), MapCase(t, Upper));
    }
  }

  lemma SameLetterIff(a: Byte, b: Byte)
    ensures AsciiCase(a, Upper) == AsciiCase(b, Upper) <==> SameLetter(a, b)
  {
  }

  lemma PointwiseIff(s: ByteSeq, t: ByteSeq, x: ByteSeq, y: ByteSeq)
    requires |s| == |t| == |x| == |y|
    requires forall i :: 0 <= i < |s| ==> (x[i] == y[i] <==> SameLetter(s[i], t[i]))
    ensures x == y <==> forall i :: 0 <= i < |s| ==> SameLetter(s[i], t[i])
  {
  }
}
