/** analyze_audio_for_splits without its ffmpeg runs: the stderr texts of the
    two silencedetect passes and the total duration are parameters, and what
    is left is the three-tier choice of split times. */
module Splits {
  import opened Wrappers
  import opened Text
  import opened Patterns

  // ------------------------------------------------- reading ffmpeg's stderr

  /** The numbers of the captures, which all parse. */
  function Values(cs: seq<Capture>): (r: seq<real>)
    requires forall i :: 0 <= i < |cs| ==> ParseFloat(cs[i].group1).Some?
    ensures |r| == |cs|
    ensures forall i :: 0 <= i < |r| ==> r[i] == ParseFloat(cs[i].group1).value
  {
    if cs == [] then [] else [ParseFloat(cs[0].group1).value] + Values(cs[1..])
  }

  /** Every `silence_end: <number>` capture holds a numeral float() accepts,
      with a value of at least 0. */
  lemma SilenceEndsParse(stderr: string)
    ensures forall i :: 0 <= i < |FindAll(stderr, SilenceEnd)| ==>
      ParseFloat(FindAll(stderr, SilenceEnd)[i].group1).Some?
      && ParseFloat(FindAll(stderr, SilenceEnd)[i].group1).value >= 0.0
  {
    var cs := FindAll(stderr, SilenceEnd);
    forall i | 0 <= i < |cs|
      ensures ParseFloat(cs[i].group1).Some? && ParseFloat(cs[i].group1).value >= 0.0
    {
      FindAllMatches(stderr, SilenceEnd, i);
      SilenceEndParses(stderr, cs[i].start);
    }
  }

  /** `[float(m.group(1)) for m in re.finditer(r'silence_end: ...', stderr)]`:
      the instants at which speech resumes, in the order ffmpeg reports
      them. */
  function SilenceEnds(stderr: string): (r: seq<real>)
    ensures |r| == |FindAll(stderr, SilenceEnd)|
    ensures forall i :: 0 <= i < |r| ==> r[i] >= 0.0
  {
    SilenceEndsParse(stderr);
    Values(FindAll(stderr, SilenceEnd))
  }

  // ------------------------------------------------------------- the tiers

  /** The coarse pass keeps the instants after the first second. */
  const LeadIn: real := 1.0

  /** The `if float(m.group(1)) > 1.0` filter. */
  function AfterLeadIn(ends: seq<real>): (r: seq<real>)
    ensures |r| <= |ends|
    ensures forall i :: 0 <= i < |r| ==> r[i] > LeadIn
  {
    if ends == [] then []
    else (if ends[0] > LeadIn then [ends[0]] else []) + AfterLeadIn(ends[1..])
  }

  /** `ends[:k]` for a slice bound k = num_segments - 1, which is -1 when
      num_segments is 0: a negative bound counts from the end. */
  function Prefix(ends: seq<real>, k: int): (r: seq<real>)
    requires k >= -1
  {
    if k >= 0 then (if k <= |ends| then ends[..k] else ends)
    else if ends == [] then [] else ends[..|ends| - 1]
  }

  /** The second, finer silencedetect pass runs when the coarse pass leaves
      fewer than num_segments - 1 instants. */
  predicate FineRequested(n: nat, coarse: seq<real>) {
    |AfterLeadIn(coarse)| < n - 1
  }

  /** `[step * i for i in range(1, n)]` with `step = total / n`. */
  function EvenSplits(total: real, n: nat): (r: seq<real>)
    requires n >= 1
    ensures |r| == n - 1
  {
    seq(n - 1, i requires 0 <= i < n - 1 => (total / n as real) * (i + 1) as real)
  }

  /** The split times analyze_audio_for_splits returns for `n` segments,
      given the instants of the coarse pass and of the fine pass (the
      latter only consulted when requested). */
  function SelectSplits(n: nat, total: real, coarse: seq<real>, fine: seq<real>): (r: seq<real>)
    ensures n >= 1 ==> |r| == n - 1
    ensures r <= AfterLeadIn(coarse) || r <= fine || (n >= 2 && r == EvenSplits(total, n))
  {
    var ends := if FineRequested(n, coarse) then fine else AfterLeadIn(coarse);
    if |ends| >= n - 1 then Prefix(ends, n - 1) else EvenSplits(total, n)
  }

  /** analyze_audio_for_splits with the stderr of both passes. */
  function Analyze(n: nat, total: real, coarseErr: string, fineErr: string): (r: (seq<real>, real))
    ensures r.1 == total
    ensures n >= 1 ==> |r.0| == n - 1
    ensures var ends := AfterLeadIn(SilenceEnds(coarseErr));
      n >= 1 && |ends| >= n - 1 ==> r.0 == ends[..n - 1]
    ensures var ends := AfterLeadIn(SilenceEnds(coarseErr));
      n == 0 ==> r.0 == if ends == [] then [] else ends[..|ends| - 1]
    ensures var ends, fine := AfterLeadIn(SilenceEnds(coarseErr)), SilenceEnds(fineErr);
      |ends| < n - 1 <= |fine| ==> r.0 == fine[..n - 1]
    ensures var ends, fine := AfterLeadIn(SilenceEnds(coarseErr)), SilenceEnds(fineErr);
      |ends| < n - 1 && |fine| < n - 1 ==> r.0 == EvenSplits(total, n)
  {
    (SelectSplits(n, total, SilenceEnds(coarseErr), SilenceEnds(fineErr)), total)
  }

  // ------------------------------------------------------ the lead-in filter

  /** The filter keeps exactly the instants after the lead-in ... */
  lemma {:induction false} AfterLeadInMembers(ends: seq<real>, x: real)
    ensures x in AfterLeadIn(ends) <==> x in ends && x > LeadIn
    decreases |ends|
  {
    if ends != [] {
      AfterLeadInMembers(ends[1..], x);
      assert ends == [ends[0]] + ends[1..];
    }
  }

  /** ... in detection order: it works instant by instant. */
  lemma {:induction false} AfterLeadInAppend(a: seq<real>, b: seq<real>)
    ensures AfterLeadIn(a + b) == AfterLeadIn(a) + AfterLeadIn(b)
    decreases |a|
  {
    if a == [] {
      assert a + b == b;
    } else {
      assert (a + b)[0] == a[0];
      assert (a + b)[1..] == a[1..] + b;
      AfterLeadInAppend(a[1..], b);
    }
  }

  // --------------------------------------------------------- even spacing

  /** The i-th even split is (i + 1)/n of the total ... */
  lemma EvenValues(total: real, n: nat, i: nat)
    requires n >= 1 && i < n - 1
    ensures EvenSplits(total, n)[i] == total * (i + 1) as real / n as real
  {
  }

  /** ... so neighbouring splits are one step apart ... */
  lemma EvenSpacing(total: real, n: nat, i: nat)
    requires n >= 1 && i + 1 < n - 1
    ensures EvenSplits(total, n)[i + 1] - EvenSplits(total, n)[i] == total / n as real
  {
  }

  /** ... and, for a positive total, the splits increase strictly and lie
      strictly inside (0, total). */
  lemma EvenInside(total: real, n: nat)
    requires n >= 1 && total > 0.0
    ensures forall i :: 0 <= i < n - 1 ==> 0.0 < EvenSplits(total, n)[i] < total
    ensures forall i, j :: 0 <= i < j < n - 1 ==> EvenSplits(total, n)[i] < EvenSplits(total, n)[j]
  {
    var r := EvenSplits(total, n);
    var step := total / n as real;
    assert step > 0.0;
    forall i | 0 <= i < n - 1 ensures 0.0 < r[i] < total {
      assert r[i] == step * (i + 1) as real;
      assert (i + 1) as real < n as real;
      assert step * n as real == total;
    }
    forall i, j | 0 <= i < j < n - 1 ensures r[i] < r[j] {
      assert r[j] - r[i] == step * (j - i) as real;
    }
  }

  // ---------------------------------------------------------- the selection

  /** For at least one segment there are num_segments - 1 split times. */
  lemma SelectLength(n: nat, total: real, coarse: seq<real>, fine: seq<real>)
    requires n >= 1
    ensures |SelectSplits(n, total, coarse, fine)| == n - 1
  {
  }

  /** Tier 1: with enough instants after the lead-in, the splits are the
      first num_segments - 1 of them, in detection order ... */
  lemma SelectCoarse(n: nat, total: real, coarse: seq<real>, fine: seq<real>)
    requires n >= 1 && !FineRequested(n, coarse)
    ensures SelectSplits(n, total, coarse, fine) == AfterLeadIn(coarse)[..n - 1]
  {
  }

  /** ... and the fine pass's output plays no part. */
  lemma FineIgnored(n: nat, total: real, coarse: seq<real>, fine1: seq<real>, fine2: seq<real>)
    requires !FineRequested(n, coarse)
    ensures SelectSplits(n, total, coarse, fine1) == SelectSplits(n, total, coarse, fine2)
  {
  }

  /** Tier 2: otherwise the first num_segments - 1 fine instants, unfiltered ... */
  lemma SelectFine(n: nat, total: real, coarse: seq<real>, fine: seq<real>)
    requires FineRequested(n, coarse) && |fine| >= n - 1
    ensures SelectSplits(n, total, coarse, fine) == fine[..n - 1]
  {
  }

  /** ... and tier 3: even spacing when the fine pass is short too. */
  lemma SelectEven(n: nat, total: real, coarse: seq<real>, fine: seq<real>)
    requires FineRequested(n, coarse) && |fine| < n - 1
    ensures n >= 2
    ensures SelectSplits(n, total, coarse, fine) == EvenSplits(total, n)
  {
  }

  /** One segment: no fine pass and no split. */
  lemma SelectOne(total: real, coarse: seq<real>, fine: seq<real>)
    ensures !FineRequested(1, coarse)
    ensures SelectSplits(1, total, coarse, fine) == []
  {
  }

  /** Zero segments: `ends[:-1]` drops the last coarse instant. */
  lemma SelectZero(total: real, coarse: seq<real>, fine: seq<real>)
    ensures !FineRequested(0, coarse)
    ensures var ends := AfterLeadIn(coarse);
      SelectSplits(0, total, coarse, fine) == if ends == [] then [] else ends[..|ends| - 1]
  {
  }

  /** Split times are never negative when the instants and the total are not. */
  lemma SelectNonNegative(n: nat, total: real, coarse: seq<real>, fine: seq<real>)
    requires total >= 0.0
    requires forall i :: 0 <= i < |coarse| ==> coarse[i] >= 0.0
    requires forall i :: 0 <= i < |fine| ==> fine[i] >= 0.0
    ensures forall i :: 0 <= i < |SelectSplits(n, total, coarse, fine)| ==> SelectSplits(n, total, coarse, fine)[i] >= 0.0
  {
    var r := SelectSplits(n, total, coarse, fine);
    if !FineRequested(n, coarse) || |fine| >= n - 1 {
      forall i | 0 <= i < |r| ensures r[i] >= 0.0 {
        if !FineRequested(n, coarse) {
          var ends := AfterLeadIn(coarse);
          assert r[i] == ends[i];
        } else {
          assert r[i] == fine[i];
        }
      }
    } else {
      forall i | 0 <= i < |r| ensures r[i] >= 0.0 {
        EvenValues(total, n, i);
      }
    }
  }

  /** A 30-second recording, three lines and no silence found: 10 and 20. */
  lemma NoSilenceThreeLines()
    ensures SelectSplits(3, 30.0, [], []) == [10.0, 20.0]
  {
    assert FineRequested(3, []);
    EvenValues(30.0, 3, 0);
    EvenValues(30.0, 3, 1);
  }

  /** The splits keep detection order and are not sorted. */
  lemma DetectionOrderKept()
    ensures SelectSplits(3, 10.0, [5.0, 3.0], []) == [5.0, 3.0]
  {
    assert AfterLeadIn([5.0, 3.0]) == [5.0, 3.0] by {
      assert [5.0, 3.0][1..] == [3.0];
      assert [3.0][1..] == [];
    }
  }
}
