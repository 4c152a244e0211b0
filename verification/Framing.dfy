/**
 * The wire framing as a mathematical object: what a stream of bytes means as a sequence
 * of frames when the header width may change from one frame to the next.
 */
module Framing {
  import opened Bytes
  import opened Packets

  const MAX_PAYLOAD: nat := 2048

  /** How the mode moves on once a frame has been handled. */
  type ModeRule = (Mode, ByteSeq) -> Mode

  predicate Whole(m: Mode, s: ByteSeq) {
    |s| >= m.HeaderSize() && |s| >= m.HeaderSize() + Length(m, s)
  }

  function FrameSize(m: Mode, s: ByteSeq): nat
    requires |s| >= m.HeaderSize()
  {
    m.HeaderSize() + Length(m, s)
  }

  /** A whole frame of admissible size heads the stream. */
  predicate Ready(m: Mode, s: ByteSeq) {
    Whole(m, s) && Length(m, s) <= MAX_PAYLOAD
  }

  /** f is exactly one frame of mode m. */
  predicate IsFrame(m: Mode, f: ByteSeq) {
    Ready(m, f) && |f| == FrameSize(m, f)
  }

  /** The mode after the frames, and whether each is a frame of the mode it is met in. */
  function ModeAfter(m: Mode, frames: seq<ByteSeq>, rule: ModeRule): Mode
    decreases |frames|
  {
    if frames == [] then m else ModeAfter(rule(m, frames[0]), frames[1..], rule)
  }

  predicate Framed(m: Mode, frames: seq<ByteSeq>, rule: ModeRule)
    decreases |frames|
  {
    frames == [] || (IsFrame(m, frames[0]) && Framed(rule(m, frames[0]), frames[1..], rule))
  }

  /** The reference parse: all frames that head the stream, one after the other. */
  function Parse(m: Mode, s: ByteSeq, rule: ModeRule): seq<ByteSeq>
    decreases |s|
  {
    if !Ready(m, s) then []
    else var f := s[..FrameSize(m, s)];
         [f] + Parse(rule(m, f), s[|f|..], rule)
  }

  /** A ready stream is a frame and what follows it. */
  lemma Split(m: Mode, s: ByteSeq) returns (f: ByteSeq, t: ByteSeq)
    requires Ready(m, s)
    ensures f == s[..FrameSize(m, s)] && t == s[FrameSize(m, s)..]
    ensures s == f + t && IsFrame(m, f) && |t| < |s|
  {
    f, t := s[..FrameSize(m, s)], s[FrameSize(m, s)..];
  }

  lemma HeaderFixesFrame(m: Mode, f: ByteSeq, t: ByteSeq)
    requires IsFrame(m, f)
    ensures Ready(m, f + t) && FrameSize(m, f + t) == |f|
    ensures (f + t)[..|f|] == f && (f + t)[|f|..] == t
  {
  }

  /** What the parse leaves over. */
  function Rest(m: Mode, s: ByteSeq, rule: ModeRule): ByteSeq
    decreases |s|
  {
    if !Ready(m, s) then s
    else var f := s[..FrameSize(m, s)];
         Rest(rule(m, f), s[|f|..], rule)
  }

  lemma ParseCons(m: Mode, f: ByteSeq, t: ByteSeq, rule: ModeRule)
    requires IsFrame(m, f)
    ensures Parse(m, f + t, rule) == [f] + Parse(rule(m, f), t, rule)
    ensures Rest(m, f + t, rule) == Rest(rule(m, f), t, rule)
  {
    HeaderFixesFrame(m, f, t);
  }

  lemma {:induction false} ParseFramed(m: Mode, frames: seq<ByteSeq>, rest: ByteSeq, rule: ModeRule)
    requires Framed(m, frames, rule)
    ensures Parse(m, Flatten(frames) + rest, rule) == frames + Parse(ModeAfter(m, frames, rule), rest, rule)
    decreases |frames|
  {
    if frames == [] {
      assert Flatten(frames) + rest == rest;
    } else {
      var f, more := frames[0], frames[1..];
      FlattenHead(frames, rest);
      ParseCons(m, f, Flatten(more) + rest, rule);
      ParseFramed(rule(m, f), more, rest, rule);
      ConsAppend(frames, Parse(ModeAfter(m, frames, rule), rest, rule));
    }
  }

  lemma {:induction false} ParseIsFraming(m: Mode, s: ByteSeq, rule: ModeRule)
    ensures Framed(m, Parse(m, s, rule), rule)
    ensures s == Flatten(Parse(m, s, rule)) + Rest(m, s, rule)
    ensures !Ready(ModeAfter(m, Parse(m, s, rule), rule), Rest(m, s, rule))
    decreases |s|
  {
    if Ready(m, s) {
      var f, t := Split(m, s);
      ParseIsFraming(rule(m, f), t, rule);
      ParseCons(m, f, t, rule);
      FramedCons(m, f, Parse(rule(m, f), t, rule), rule);
      Regroup(f, Flatten(Parse(rule(m, f), t, rule)), Rest(rule(m, f), t, rule));
    }
  }

  lemma FramedCons(m: Mode, f: ByteSeq, more: seq<ByteSeq>, rule: ModeRule)
    requires IsFrame(m, f) && Framed(rule(m, f), more, rule)
    ensures Framed(m, [f] + more, rule)
    ensures ModeAfter(m, [f] + more, rule) == ModeAfter(rule(m, f), more, rule)
    ensures Flatten([f] + more) == f + Flatten(more)
  {
    assert ([f] + more)[1..] == more;
  }

  /**
   * The parse is the only cutting of the stream into frames that leaves no whole
   * admissible frame in front of the rest.
   */
  lemma ParseUnique(m: Mode, frames: seq<ByteSeq>, rest: ByteSeq, rule: ModeRule)
    requires Framed(m, frames, rule) && !Ready(ModeAfter(m, frames, rule), rest)
    ensures Parse(m, Flatten(frames) + rest, rule) == frames
  {
    ParseFramed(m, frames, rest, rule);
    assert frames + [] == frames;
  }

  /** More bytes only add frames. */
  lemma ParseGrows(m: Mode, s: ByteSeq, t: ByteSeq, rule: ModeRule)
    ensures Parse(m, s, rule) <= Parse(m, s + t, rule)
  {
    var frames, rest := Parse(m, s, rule), Rest(m, s, rule);
    ParseIsFraming(m, s, rule);
    ParseFramed(m, frames, rest + t, rule);
    assert Flatten(frames) + (rest + t) == s + t;
  }

  lemma {:induction false} FramedSnoc(m: Mode, frames: seq<ByteSeq>, f: ByteSeq, rule: ModeRule)
    requires Framed(m, frames, rule)
    ensures Framed(m, frames + [f], rule) <==> IsFrame(ModeAfter(m, frames, rule), f)
    ensures ModeAfter(m, frames + [f], rule) == rule(ModeAfter(m, frames, rule), f)
    decreases |frames|
  {
    if frames == [] {
      assert frames + [f] == [f] && [f][1..] == [];
    } else {
      FramedSnoc(rule(m, frames[0]), frames[1..], f, rule);
      assert (frames + [f])[1..] == frames[1..] + [f];
    }
  }
}
