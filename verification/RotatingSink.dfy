/**
 * spdlog's rotating file sink (rotating_file_sink-inl.h), started on an empty directory
 * with renames that succeed. A file is the list of records appended to it.
 */
module RotatingSink {
  import opened Bytes

  type Record = ByteSeq
  type File = seq<Record>

  function SizeOf(f: File): nat {
    |Flatten(f)|
  }

  lemma SizeSnoc(f: File, r: Record)
    ensures SizeOf(f + [r]) == SizeOf(f) + |r|
  {
    FlattenSnoc(f, r);
  }

  // ----- the reference: a log cut only where it has to be -----

  /** At most maxSize bytes, or a single non-empty record among empty ones. */
  ghost predicate Fits(f: File, maxSize: nat) {
    || SizeOf(f) <= maxSize
    || exists i :: 0 <= i < |f| && SizeOf(f) == |f[i]|
  }

  /** A cut between f and g is forced: f is not empty and has no room for the head of g. */
  ghost predicate ForcedCut(f: File, g: File, maxSize: nat) {
    SizeOf(f) > 0 && g != [] && SizeOf(f) + |g[0]| > maxSize
  }

  /** No segment could have taken one more record, and none was started too early. */
  ghost predicate InnerFull(f: File, maxSize: nat) {
    forall i :: 0 < i < |f| ==> !ForcedCut(f[..i], f[i..], maxSize)
  }

  ghost predicate Greedy(segments: seq<File>, maxSize: nat) {
    && segments != []
    && (forall i :: 0 <= i < |segments| ==> InnerFull(segments[i], maxSize))
    && (forall i :: 0 < i < |segments| ==> ForcedCut(segments[i - 1], segments[i], maxSize))
  }

  /** A segment without a forced cut inside is small or one big record. */
  lemma {:induction false} InnerFullFits(f: File, maxSize: nat)
    requires InnerFull(f, maxSize)
    ensures Fits(f, maxSize)
  {
    if f != [] {
      var n := |f| - 1;
      var front, last := f[..n], f[n];
      assert f == front + [last];
      SizeSnoc(front, last);
      if n == 0 {
        assert front == [] && SizeOf(f) == |f[0]|;
      } else {
        assert !ForcedCut(f[..n], f[n..], maxSize);
        if SizeOf(front) == 0 {
          assert SizeOf(f) == |f[n]|;
        }
      }
    }
  }

  /** The log itself forces a cut before its n-th record. */
  ghost predicate CutAt(log: seq<Record>, n: nat, maxSize: nat) {
    0 < n < |log| && SizeOf(log[..n]) > 0 && SizeOf(log[..n]) + |log[n]| > maxSize
  }

  /** The first segment of a greedy cutting ends at the first cut that the log forces. */
  lemma HeadIsFirstCut(a: seq<File>, maxSize: nat)
    requires Greedy(a, maxSize)
    ensures var log, n := Flatten(a), |a[0]|;
            && n <= |log| && log[..n] == a[0] && log[n..] == Flatten(a[1..])
            && (forall i :: 0 < i < n ==> !CutAt(log, i, maxSize))
            && (if |a| == 1 then n == |log| else CutAt(log, n, maxSize))
  {
    var log, n := Flatten(a), |a[0]|;
    assert log == a[0] + Flatten(a[1..]);
    forall i | 0 < i < n ensures !CutAt(log, i, maxSize) {
      assert InnerFull(a[0], maxSize) && !ForcedCut(a[0][..i], a[0][i..], maxSize);
      assert log[..i] == a[0][..i] && log[i] == a[0][i];
    }
    if |a| > 1 {
      assert ForcedCut(a[0], a[1], maxSize);
      assert Flatten(a[1..]) == a[1] + Flatten(a[1..][1..]);
      assert log[n] == a[1][0];
      assert SizeOf([]) == 0;
    }
  }

  lemma GreedyTail(a: seq<File>, maxSize: nat)
    requires Greedy(a, maxSize) && |a| > 1
    ensures Greedy(a[1..], maxSize)
  {
    var t := a[1..];
    assert forall i :: 0 <= i < |t| ==> t[i] == a[i + 1];
    forall i | 0 < i < |t| ensures ForcedCut(t[i - 1], t[i], maxSize) {
      assert ForcedCut(a[i + 1 - 1], a[i + 1], maxSize);
    }
  }

  /** The cuts are determined by the log: two greedy cuttings of one log are the same. */
  lemma {:induction false} GreedyUnique(a: seq<File>, b: seq<File>, maxSize: nat)
    requires Greedy(a, maxSize) && Greedy(b, maxSize) && Flatten(a) == Flatten(b)
    ensures a == b
  {
    HeadIsFirstCut(a, maxSize);
    HeadIsFirstCut(b, maxSize);
    assert |a[0]| == |b[0]|;
    assert a == [a[0]] + a[1..] && b == [b[0]] + b[1..];
    if |a| > 1 && |b| > 1 {
      GreedyTail(a, maxSize);
      GreedyTail(b, maxSize);
      GreedyUnique(a[1..], b[1..], maxSize);
    }
  }

  // ----- the sink -----

  const MAX_FILES: nat := 200_000

  ghost predicate Same(j: nat, before: map<nat, File>, after: map<nat, File>) {
    (j in after <==> j in before) && (j in after ==> after[j] == before[j])
  }

  /** The index whose file ends up at j > 0; indices above maxFiles are not touched. */
  ghost function MovedFrom(j: nat, before: map<nat, File>, maxFiles: nat): Option<nat>
    requires j > 0
  {
    if j <= maxFiles && j - 1 in before then Some(j - 1)
    else if j >= maxFiles && j in before then Some(j)
    else None
  }

  ghost predicate Moved(j: nat, before: map<nat, File>, after: map<nat, File>, maxFiles: nat)
    requires j > 0
  {
    match MovedFrom(j, before, maxFiles)
    case Some(k) => j in after && k in before && after[j] == before[k]
    case None => j !in after
  }

  /** Index i holds the i-th segment from the end, for the last maxFiles + 1 of them. */
  ghost predicate HoldsLast(files: map<nat, File>, segments: seq<File>, maxFiles: nat) {
    && (forall i: nat :: i in files <==> i < |segments| && i <= maxFiles)
    && (forall i: nat :: i in files ==> files[i] == segments[|segments| - 1 - i])
  }

  lemma HoldsAfterRotation(before: map<nat, File>, after: map<nat, File>, segments: seq<File>, r: Record, maxFiles: nat)
    requires HoldsLast(before, segments, maxFiles)
    requires 0 in after && after[0] == []
    requires forall j: nat :: j > 0 ==> Moved(j, before, after, maxFiles)
    ensures HoldsLast(after[0 := [] + [r]], segments + [[r]], maxFiles)
  {
    var now, grown := after[0 := [] + [r]], segments + [[r]];
    forall j: nat ensures j in now <==> j < |grown| && j <= maxFiles {
      if j > 0 { assert Moved(j, before, after, maxFiles); }
    }
    forall j: nat | j in now ensures now[j] == grown[|grown| - 1 - j] {
      if j > 0 { assert Moved(j, before, after, maxFiles); }
    }
  }

  lemma HoldsAfterAppend(files: map<nat, File>, front: seq<File>, last: File, r: Record, maxFiles: nat)
    requires HoldsLast(files, front + [last], maxFiles)
    ensures 0 in files && files[0] == last
    ensures HoldsLast(files[0 := last + [r]], front + [last + [r]], maxFiles)
  {
  }

  class RotatingFileSink {
    const maxSize: nat
    const maxFiles: nat
    var currentSize: nat
    var files: map<nat, File>      // index to contents; 0 is the file being written

    ghost var log: seq<Record>     // history: everything logged
    ghost var segments: seq<File>  // history: the log, cut where files were started

    /** The files that exist hold the last segments, newest first. */
    ghost predicate Valid()
      reads this
    {
      && 0 < maxSize && maxFiles <= MAX_FILES
      && Greedy(segments, maxSize)
      && Flatten(segments) == log
      && HoldsLast(files, segments, maxFiles)
      && currentSize == SizeOf(segments[|segments| - 1])
    }

    constructor (maxSize: nat, maxFiles: nat)
      requires maxSize > 0 && maxFiles <= MAX_FILES
      ensures Valid() && log == [] && this.maxSize == maxSize && this.maxFiles == maxFiles
    {
      this.maxSize, this.maxFiles := maxSize, maxFiles;
      files := map[0 := []];
      currentSize := 0;
      log, segments := [], [[]];
    }

    /** rotate_: every file moves one index up, the oldest is replaced, file 0 starts empty. */
    method Rotate()
      requires 0 in files
      modifies this`files
      ensures 0 in files && files[0] == []
      ensures forall j: nat :: j > 0 ==> Moved(j, old(files), files, maxFiles)
    {
      var i := maxFiles;
      while i > 0
        invariant 0 <= i <= maxFiles
        invariant forall j: nat :: j < i ==> Same(j, old(files), files)
        invariant if i == maxFiles then Same(i, old(files), files) else i !in files || i == 0
        invariant forall j: nat :: j > i ==> Moved(j, old(files), files, maxFiles)
      {
        ghost var was := files;
        assert Same(i - 1, old(files), was);
        if i - 1 in files {
          RenameFile(i - 1, i);
        }
        forall j: nat | j < i - 1 ensures Same(j, old(files), files) {
          assert Same(j, old(files), was) && Same(j, was, files);
        }
        forall j: nat | j > i ensures Moved(j, old(files), files, maxFiles) {
          assert Moved(j, old(files), was, maxFiles) && Same(j, was, files);
        }
        assert Moved(i, old(files), files, maxFiles);
        i := i - 1;
      }
      ghost var was := files;
      files := files[0 := []];
      forall j: nat | j > 0 ensures Moved(j, old(files), files, maxFiles) {
        assert Moved(j, old(files), was, maxFiles) && Same(j, was, files);
      }
    }

    /** rename_file_: delete the target if it exists, then rename. */
    method RenameFile(src: nat, target: nat)
      requires src in files && src != target
      modifies this`files
      ensures src !in files && target in files && files[target] == old(files)[src]
      ensures forall j: nat :: j != src && j != target ==> Same(j, old(files), files)
    {
      files := files - {target};
      files := files[target := files[src]] - {src};
    }

    /** sink_it_ */
    method SinkIt(r: Record)
      requires Valid()
      modifies this
      ensures Valid() && log == old(log) + [r]
    {
      var newSize := currentSize + |r|;
      ghost var n := |segments| - 1;
      ghost var front, last, was := segments[..n], segments[n], files;
      assert segments == front + [last];
      HoldsAfterAppend(files, front, last, r, maxFiles);
      if newSize > maxSize && SizeOf(files[0]) > 0 {
        Rotate();
        newSize := |r|;
        HoldsAfterRotation(was, files, segments, r, maxFiles);
        StartSegment(segments, r, maxSize);
        segments := segments + [[r]];
      } else {
        ExtendSegment(front, last, r, maxSize);
        segments := front + [last + [r]];
      }
      files := files[0 := files[0] + [r]];
      currentSize := newSize;
      log := log + [r];
    }
  }

  /** What the directory holds, read from index n - 1 down to 0. */
  ghost function Contents(files: map<nat, File>, n: nat): seq<Record>
    requires forall i :: 0 <= i < n ==> i in files
  {
    if n == 0 then [] else files[n - 1] + Contents(files, n - 1)
  }

  lemma {:induction false} ContentsAreSegments(files: map<nat, File>, segments: seq<File>, maxFiles: nat, n: nat)
    requires HoldsLast(files, segments, maxFiles) && n <= |segments| && n <= maxFiles + 1
    ensures Contents(files, n) == Flatten(segments[|segments| - n..])
  {
    if n > 0 {
      ContentsAreSegments(files, segments, maxFiles, n - 1);
      var tail := segments[|segments| - n..];
      assert tail[1..] == segments[|segments| - (n - 1)..];
    }
  }

  /**
   * The files, from the highest index down to 0, hold a suffix of everything logged, cut
   * between records: all of it until maxFiles + 1 files are full, and then whole segments
   * only are missing.
   */
  lemma DirectoryIsSuffix(sink: RotatingFileSink)
    requires sink.Valid()
    ensures var count := |sink.files|;
            && count == (if |sink.segments| <= sink.maxFiles then |sink.segments| else sink.maxFiles + 1)
            && (forall i :: i in sink.files <==> 0 <= i < count)
            && sink.log == Flatten(sink.segments[..|sink.segments| - count]) + Contents(sink.files, count)
  {
    LastSegmentsAreSuffix(sink.files, sink.segments, sink.maxFiles);
  }

  lemma LastSegmentsAreSuffix(files: map<nat, File>, segments: seq<File>, maxFiles: nat)
    requires HoldsLast(files, segments, maxFiles)
    ensures |files| == if |segments| <= maxFiles then |segments| else maxFiles + 1
    ensures forall i :: i in files <==> 0 <= i < |files|
    ensures Flatten(segments) == Flatten(segments[..|segments| - |files|]) + Contents(files, |files|)
  {
    var n := |segments|;
    var count := if n <= maxFiles then n else maxFiles + 1;
    KeysBelow(files.Keys, count);
    assert |files| == |files.Keys|;
    ContentsAreSegments(files, segments, maxFiles, count);
    FlattenSplit(segments, n - count);
  }

  lemma FlattenSplit(segments: seq<File>, k: nat)
    requires k <= |segments|
    ensures Flatten(segments) == Flatten(segments[..k]) + Flatten(segments[k..])
  {
    assert segments == segments[..k] + segments[k..];
    FlattenConcat(segments[..k], segments[k..]);
  }

  lemma EveryFileFits(sink: RotatingFileSink)
    requires sink.Valid()
    ensures forall i :: i in sink.files ==> Fits(sink.files[i], sink.maxSize)
  {
    forall i | i in sink.files ensures Fits(sink.files[i], sink.maxSize) {
      InnerFullFits(sink.segments[|sink.segments| - 1 - i], sink.maxSize);
    }
  }

  lemma {:induction false} KeysBelow(keys: set<nat>, n: nat)
    requires forall i: nat :: i in keys <==> i < n
    ensures |keys| == n
  {
    if n > 0 {
      KeysBelow(keys - {n - 1}, n - 1);
    } else {
      assert keys == {};
    }
  }

  lemma StartSegment(segments: seq<File>, r: Record, maxSize: nat)
    requires Greedy(segments, maxSize)
    requires var last := segments[|segments| - 1]; SizeOf(last) > 0 && SizeOf(last) + |r| > maxSize
    ensures Greedy(segments + [[r]], maxSize)
    ensures Flatten(segments + [[r]]) == Flatten(segments) + [r]
    ensures SizeOf([r]) == |r|
  {
    FlattenSnoc(segments, [r]);
    SizeSnoc([], r);
    assert [] + [r] == [r];
  }

  lemma ExtendSegment(front: seq<File>, last: File, r: Record, maxSize: nat)
    requires Greedy(front + [last], maxSize)
    requires SizeOf(last) + |r| <= maxSize || SizeOf(last) == 0
    ensures Greedy(front + [last + [r]], maxSize)
    ensures Flatten(front + [last + [r]]) == Flatten(front + [last]) + [r]
    ensures SizeOf(last + [r]) == SizeOf(last) + |r|
  {
    FlattenSnoc(front, last);
    FlattenSnoc(front, last + [r]);
    SizeSnoc(last, r);
    var was, now := front + [last], front + [last + [r]];
    var n := |front|;
    assert InnerFull(was[n], maxSize);
    forall i | 0 < i < |last + [r]| ensures !ForcedCut((last + [r])[..i], (last + [r])[i..], maxSize) {
      if i < |last| {
        assert (last + [r])[..i] == last[..i] && (last + [r])[i..][0] == last[i..][0];
        assert !ForcedCut(last[..i], last[i..], maxSize);
      } else {
        assert (last + [r])[..i] == last && (last + [r])[i..] == [r];
      }
    }
    forall i | 0 < i < |now| ensures ForcedCut(now[i - 1], now[i], maxSize) {
      assert ForcedCut(was[i - 1], was[i], maxSize);
    }
    forall i | 0 <= i < |now| ensures InnerFull(now[i], maxSize) {
      if i < n { assert now[i] == was[i]; }
    }
  }
}
