/** split_audio_file without the ffmpeg call: the loop that turns the split
    times into one (path, start, duration) record per segment. */
module Segments {
  import opened Text

  /** One cut of the recording: where it is written, where it starts and
      how long it lasts. */
  datatype Segment = Segment(path: string, start: real, duration: real)

  /** The shortest duration handed to ffmpeg. */
  const MinDuration: real := 0.1

  /** `[0] + split_times + [total_duration]`. */
  function Boundaries(split: seq<real>, total: real): (b: seq<real>)
    ensures |b| == |split| + 2 && b[0] == 0.0 && b[|b| - 1] == total
    ensures forall i :: 0 <= i < |split| ==> b[i + 1] == split[i]
  {
    [0.0] + split + [total]
  }

  /** `max(0.1, end - start)`. */
  function Clamp(d: real): (r: real)
    ensures r >= MinDuration && (r == d || r == MinDuration)
    ensures d >= MinDuration ==> r == d
  {
    if MinDuration >= d then MinDuration else d
  }

  /** `f"segment_{i:02d}.wav"`. */
  function SegmentName(i: nat): string {
    "segment_" + TwoDigits(i) + ".wav"
  }

  /** os.path.join(dir, name) for a relative name. */
  function JoinPath(dir: string, name: string): string {
    if dir == [] || dir[|dir| - 1] == '/' then dir + name else dir + "/" + name
  }

  /** The record the loop appends for segment i. */
  function SegmentAt(dir: string, b: seq<real>, i: nat): Segment
    requires i + 1 < |b|
  {
    Segment(JoinPath(dir, SegmentName(i)), b[i], Clamp(b[i + 1] - b[i]))
  }

  /** The records of the first k segments. */
  function SegmentsUpTo(dir: string, b: seq<real>, k: nat): (r: seq<Segment>)
    requires k < |b|
    ensures |r| == k
    ensures forall i :: 0 <= i < k ==> r[i] == SegmentAt(dir, b, i)
  {
    if k == 0 then []
    else
      var before := SegmentsUpTo(dir, b, k - 1);
      var r := before + [SegmentAt(dir, b, k - 1)];
      assert forall i :: 0 <= i < k - 1 ==> r[i] == before[i];
      r
  }

  /** What split_audio_file returns. */
  function SplitFiles(dir: string, split: seq<real>, total: real): (r: seq<Segment>)
    ensures |r| == |split| + 1
  {
    SegmentsUpTo(dir, Boundaries(split, total), |split| + 1)
  }

  /** The loop of split_audio_file. */
  method SplitAudioFile(split: seq<real>, total: real, dir: string) returns (files: seq<Segment>)
    ensures files == SplitFiles(dir, split, total)
    ensures |files| == |split| + 1
    ensures forall i :: 0 <= i < |files| ==> files[i].duration >= MinDuration
  {
    var times := [0.0] + split + [total];
    files := [];
    var i := 0;
    while i < |times| - 1
      invariant 0 <= i <= |times| - 1
      invariant times == Boundaries(split, total)
      invariant files == SegmentsUpTo(dir, times, i)
    {
      var start := times[i];
      var end := times[i + 1];
      var duration := Clamp(end - start);
      var path := JoinPath(dir, SegmentName(i));
      assert Segment(path, start, duration) == SegmentAt(dir, times, i);
      files := files + [Segment(path, start, duration)];
      i := i + 1;
    }
    DurationsAtLeastMin(dir, split, total);
  }

  /** Every duration is at least the minimum. */
  lemma DurationsAtLeastMin(dir: string, split: seq<real>, total: real)
    ensures forall i :: 0 <= i < |SplitFiles(dir, split, total)| ==> SplitFiles(dir, split, total)[i].duration >= MinDuration
  {
    var b := Boundaries(split, total);
    forall i | 0 <= i < |split| + 1 ensures SplitFiles(dir, split, total)[i].duration >= MinDuration {
      assert SplitFiles(dir, split, total)[i] == SegmentAt(dir, b, i);
    }
  }

  /** Segment i starts at the i-th boundary: at 0 for the first one and at
      the (i-1)-th split time after that. */
  lemma SegmentStarts(dir: string, split: seq<real>, total: real, i: nat)
    requires i <= |split|
    ensures SplitFiles(dir, split, total)[i].start == Boundaries(split, total)[i]
    ensures i == 0 ==> SplitFiles(dir, split, total)[i].start == 0.0
    ensures i > 0 ==> SplitFiles(dir, split, total)[i].start == split[i - 1]
  {
    assert SplitFiles(dir, split, total)[i] == SegmentAt(dir, Boundaries(split, total), i);
  }

  /** A duration is the gap to the next boundary whenever that gap is at
      least the minimum. */
  lemma DurationIsGap(dir: string, split: seq<real>, total: real, i: nat)
    requires i <= |split|
    requires Boundaries(split, total)[i + 1] - Boundaries(split, total)[i] >= MinDuration
    ensures SplitFiles(dir, split, total)[i].duration == Boundaries(split, total)[i + 1] - Boundaries(split, total)[i]
  {
    assert SplitFiles(dir, split, total)[i] == SegmentAt(dir, Boundaries(split, total), i);
  }

  /** Consecutive boundaries are at least the minimum apart. */
  ghost predicate Spaced(b: seq<real>) {
    forall i :: 0 <= i < |b| - 1 ==> b[i + 1] - b[i] >= MinDuration
  }

  function TotalDuration(segs: seq<Segment>): real {
    if segs == [] then 0.0 else TotalDuration(segs[..|segs| - 1]) + segs[|segs| - 1].duration
  }

  /** Adding segment k - 1 adds its clamped gap to the total duration. */
  lemma TotalStep(dir: string, b: seq<real>, k: nat)
    requires 0 < k < |b|
    ensures TotalDuration(SegmentsUpTo(dir, b, k)) == TotalDuration(SegmentsUpTo(dir, b, k - 1)) + Clamp(b[k] - b[k - 1])
  {
    var r := SegmentsUpTo(dir, b, k);
    assert r[..k - 1] == SegmentsUpTo(dir, b, k - 1);
  }

  lemma {:induction false} TotalUpTo(dir: string, b: seq<real>, k: nat)
    requires k < |b|
    ensures TotalDuration(SegmentsUpTo(dir, b, k)) >= b[k] - b[0]
  {
    if k > 0 {
      TotalUpTo(dir, b, k - 1);
      TotalStep(dir, b, k);
      assert Clamp(b[k] - b[k - 1]) >= b[k] - b[k - 1];
    }
  }

  lemma {:induction false} TotalUpToSpaced(dir: string, b: seq<real>, k: nat)
    requires k < |b| && Spaced(b)
    ensures TotalDuration(SegmentsUpTo(dir, b, k)) == b[k] - b[0]
  {
    if k > 0 {
      TotalUpToSpaced(dir, b, k - 1);
      TotalStep(dir, b, k);
      assert b[k] - b[k - 1] >= MinDuration;
    }
  }

  /** The durations add up to at least the total, and to exactly the total
      when the boundaries are spaced at least the minimum apart: the cuts
      then tile the recording. */
  lemma TotalCovers(dir: string, split: seq<real>, total: real)
    ensures TotalDuration(SplitFiles(dir, split, total)) >= total
    ensures Spaced(Boundaries(split, total)) ==> TotalDuration(SplitFiles(dir, split, total)) == total
  {
    TotalUpTo(dir, Boundaries(split, total), |split| + 1);
    if Spaced(Boundaries(split, total)) {
      TotalUpToSpaced(dir, Boundaries(split, total), |split| + 1);
    }
  }

  /** With spaced boundaries each cut ends where the next one starts, and
      the last one at the end of the recording. */
  lemma CutsAbut(dir: string, split: seq<real>, total: real, i: nat)
    requires Spaced(Boundaries(split, total)) && i <= |split|
    ensures var s := SplitFiles(dir, split, total);
      s[i].start + s[i].duration == (if i < |split| then s[i + 1].start else total)
  {
    var b := Boundaries(split, total);
    DurationIsGap(dir, split, total, i);
    SegmentStarts(dir, split, total, i);
    if i < |split| {
      SegmentStarts(dir, split, total, i + 1);
    }
  }

  /** Different segments get different file names. */
  lemma SegmentNamesDistinct(i: nat, j: nat)
    requires i != j
    ensures SegmentName(i) != SegmentName(j)
  {
    var a := SegmentName(i);
    var b := SegmentName(j);
    assert a[8..|a| - 4] == TwoDigits(i);
    assert b[8..|b| - 4] == TwoDigits(j);
  }
}
