/** The "Create Video" handler from the parsed skit to the list of segments
    handed to the video step: the choice of split times, the split and the
    pairing of skit lines with audio segments; and the choice of template
    clip for each segment. */
module Pipeline {
  import opened Wrappers
  import opened Text
  import opened Skit
  import opened Splits
  import opened Segments
  import opened Timestamps

  /** One entry of the `segments` list: who speaks, what they say, the
      audio file and its duration. */
  datatype Cue = Cue(speaker: string, text: string, audio: string, duration: real)

  /** How the split times are chosen: silence detection, or the field the
      user fills in. */
  datatype SplitMethod = Auto | Manual(timestamps: string)

  /** Why the handler stops without a video. */
  datatype Failure =
    | MissingSkit             // the skit box is empty
    | Unparsed                // parse_skit found no line
    | BadTimestamp(entry: string)  // float() rejected a manual entry

  function Min(a: nat, b: nat): nat {
    if a <= b then a else b
  }

  function CueOf(l: Line, f: Segment): Cue {
    Cue(l.speaker, l.text, f.path, f.duration)
  }

  // ------------------------------------------------------------- pairing

  /** The segments list once the loop has seen the first k lines: a line
      gets the audio segment with its own index, while there is one. */
  function PairedUpTo(lines: seq<Line>, files: seq<Segment>, k: nat): (r: seq<Cue>)
    requires k <= |lines|
    ensures |r| == Min(k, |files|)
    ensures forall i :: 0 <= i < |r| ==> r[i] == CueOf(lines[i], files[i])
  {
    if k == 0 then []
    else PairedUpTo(lines, files, k - 1) + (if k - 1 < |files| then [CueOf(lines[k - 1], files[k - 1])] else [])
  }

  /** The pairing loop of the handler. */
  method PairSegments(lines: seq<Line>, files: seq<Segment>) returns (segs: seq<Cue>)
    ensures segs == PairedUpTo(lines, files, |lines|)
    ensures |segs| == Min(|lines|, |files|)
    ensures forall i :: 0 <= i < |segs| ==> segs[i] == Cue(lines[i].speaker, lines[i].text, files[i].path, files[i].duration)
  {
    segs := [];
    var i := 0;
    while i < |lines|
      invariant 0 <= i <= |lines|
      invariant segs == PairedUpTo(lines, files, i)
    {
      var spk := lines[i].speaker;
      var txt := lines[i].text;
      if i < |files| {
        segs := segs + [Cue(spk, txt, files[i].path, files[i].duration)];
      }
      i := i + 1;
    }
  }

  /** Lines beyond the last segment are dropped; segments beyond the last
      line are never used. */
  lemma PairedExtra(lines: seq<Line>, files: seq<Segment>)
    ensures |files| >= |lines| ==> |PairedUpTo(lines, files, |lines|)| == |lines|
    ensures |files| < |lines| ==> |PairedUpTo(lines, files, |lines|)| == |files|
    ensures PairedUpTo(lines, files, |lines|) == PairedUpTo(lines, files[..Min(|lines|, |files|)], |lines|)
  {
    var a := PairedUpTo(lines, files, |lines|);
    var b := PairedUpTo(lines, files[..Min(|lines|, |files|)], |lines|);
    assert |a| == |b|;
    forall i | 0 <= i < |a| ensures a[i] == b[i] {
      assert files[..Min(|lines|, |files|)][i] == files[i];
    }
  }

  // ---------------------------------------------------------- the handler

  /** The split times: the manual field when that method is chosen and the
      field is not empty, silence detection otherwise. */
  function SplitTimes(m: SplitMethod, n: nat, total: real, coarseErr: string, fineErr: string): (r: Result<seq<real>, Failure>)
    ensures !(m.Manual? && m.timestamps != []) ==> r == Ok(Analyze(n, total, coarseErr, fineErr).0)
    ensures m.Manual? && m.timestamps != [] ==>
      (r.Ok? <==> ManualSplits(m.timestamps).Ok?)
      && (r.Ok? ==> r.value == ManualSplits(m.timestamps).value)
      && (r.Err? ==> r.error == BadTimestamp(ManualSplits(m.timestamps).error))
  {
    if m.Manual? && m.timestamps != [] then
      match ManualSplits(m.timestamps)
      case Err(e) => Err(BadTimestamp(e))
      case Ok(ts) => Ok(ts)
    else Ok(Analyze(n, total, coarseErr, fineErr).0)
  }

  /** The segments list the handler builds from the skit, the split method,
      the recording's duration, the standard error of the two silence
      detection passes and the working directory. */
  function Cues(skit: string, m: SplitMethod, total: real, coarseErr: string, fineErr: string, dir: string): (r: Result<seq<Cue>, Failure>)
    ensures r == Err(MissingSkit) <==> skit == []
    ensures r == Err(Unparsed) <==> skit != [] && ParseSkit(skit) == []
    ensures r.Ok? ==> 1 <= |r.value| <= |ParseSkit(skit)|
    ensures r.Ok? ==> forall i :: 0 <= i < |r.value| ==>
      r.value[i].speaker == ParseSkit(skit)[i].speaker && r.value[i].text == ParseSkit(skit)[i].text
  {
    if skit == [] then Err(MissingSkit)
    else
      var lines := ParseSkit(skit);
      if lines == [] then Err(Unparsed)
      else CuesFor(lines, m, total, coarseErr, fineErr, dir)
  }

  /** The rest of the handler once the skit has lines: the split times, the
      split and the pairing. It stops only for a rejected manual entry, and
      otherwise every line up to the last segment gets a cue. */
  function CuesFor(lines: seq<Line>, m: SplitMethod, total: real, coarseErr: string, fineErr: string, dir: string): (r: Result<seq<Cue>, Failure>)
    requires lines != []
    ensures r.Err? ==> r.error.BadTimestamp?
    ensures r.Ok? ==> 1 <= |r.value| <= |lines|
    ensures r.Ok? ==> forall i :: 0 <= i < |r.value| ==>
      r.value[i].speaker == lines[i].speaker && r.value[i].text == lines[i].text
  {
    match SplitTimes(m, |lines|, total, coarseErr, fineErr)
    case Err(e) => Err(e)
    case Ok(ts) =>
      var files := SplitFiles(dir, ts, total);
      assert |files| >= 1;
      Ok(PairedUpTo(lines, files, |lines|))
  }

  /** Every segment carries the speaker and text of the skit line with its
      index, the audio file named after that index and a duration of at
      least the minimum; there are never more segments than lines. */
  lemma CuesFollowSkit(skit: string, m: SplitMethod, total: real, coarseErr: string, fineErr: string, dir: string)
    requires Cues(skit, m, total, coarseErr, fineErr, dir).Ok?
    ensures var cs := Cues(skit, m, total, coarseErr, fineErr, dir).value;
      var lines := ParseSkit(skit);
      1 <= |cs| <= |lines|
      && forall i :: 0 <= i < |cs| ==>
        cs[i].speaker == lines[i].speaker && cs[i].text == lines[i].text
        && cs[i].audio == JoinPath(dir, SegmentName(i)) && cs[i].duration >= MinDuration
  {
    var lines := ParseSkit(skit);
    var ts := SplitTimes(m, |lines|, total, coarseErr, fineErr).value;
    var files := SplitFiles(dir, ts, total);
    var cs := PairedUpTo(lines, files, |lines|);
    forall i | 0 <= i < |cs|
      ensures cs[i].audio == JoinPath(dir, SegmentName(i)) && cs[i].duration >= MinDuration
    {
      assert files[i] == SegmentAt(dir, Boundaries(ts, total), i);
    }
  }

  /** The handler stops with a reason exactly in these cases. */
  lemma CuesFail(skit: string, m: SplitMethod, total: real, coarseErr: string, fineErr: string, dir: string)
    ensures Cues(skit, m, total, coarseErr, fineErr, dir) == Err(MissingSkit) <==> skit == []
    ensures Cues(skit, m, total, coarseErr, fineErr, dir) == Err(Unparsed) <==> skit != [] && ParseSkit(skit) == []
    ensures (Cues(skit, m, total, coarseErr, fineErr, dir).Err? && Cues(skit, m, total, coarseErr, fineErr, dir).error.BadTimestamp?)
      <==> (ParseSkit(skit) != [] && m.Manual? && m.timestamps != [] && ManualSplits(m.timestamps).Err?)
  {
  }

  /** With silence detection every line gets its own segment. */
  lemma AutoOneCuePerLine(skit: string, m: SplitMethod, total: real, coarseErr: string, fineErr: string, dir: string)
    requires ParseSkit(skit) != []
    requires !(m.Manual? && m.timestamps != [])
    ensures Cues(skit, m, total, coarseErr, fineErr, dir).Ok?
    ensures |Cues(skit, m, total, coarseErr, fineErr, dir).value| == |ParseSkit(skit)|
  {
    var n := |ParseSkit(skit)|;
    SelectLength(n, total, SilenceEnds(coarseErr), SilenceEnds(fineErr));
  }

  /** With manual times there are as many segments as lines or as split
      times plus one, whichever is fewer. */
  lemma ManualCueCount(skit: string, field: string, ts: seq<real>, total: real, coarseErr: string, fineErr: string, dir: string)
    requires ParseSkit(skit) != [] && field != []
    requires ManualSplits(field) == Ok(ts)
    ensures Cues(skit, Manual(field), total, coarseErr, fineErr, dir).Ok?
    ensures |Cues(skit, Manual(field), total, coarseErr, fineErr, dir).value| == Min(|ParseSkit(skit)|, |ts| + 1)
  {
  }

  /** A manual field of blanks only is not empty, so detection is skipped,
      yet it holds no time: the whole recording becomes one segment, paired
      with the first line. */
  lemma BlankFieldOneCue(skit: string, field: string, total: real, coarseErr: string, fineErr: string, dir: string)
    requires ParseSkit(skit) != [] && field != [] && All(field, Space)
    ensures Cues(skit, Manual(field), total, coarseErr, fineErr, dir).Ok?
    ensures var cs := Cues(skit, Manual(field), total, coarseErr, fineErr, dir).value;
      |cs| == 1 && cs[0].speaker == ParseSkit(skit)[0].speaker && cs[0].duration == Clamp(total)
  {
    BlankField(field);
    var files := SplitFiles(dir, [], total);
    assert files[0] == SegmentAt(dir, Boundaries([], total), 0);
  }

  /** Three lines, a 30-second recording and no silence found by either
      pass: the recording is cut at 10 and 20 seconds into three segments of
      10 seconds. */
  lemma EvenThirds(dir: string)
    ensures Boundaries(SelectSplits(3, 30.0, [], []), 30.0) == [0.0, 10.0, 20.0, 30.0]
    ensures forall i :: 0 <= i < 3 ==> SplitFiles(dir, SelectSplits(3, 30.0, [], []), 30.0)[i].duration == 10.0
  {
    NoSilenceThreeLines();
    var b := Boundaries([10.0, 20.0], 30.0);
    assert b == [0.0, 10.0, 20.0, 30.0];
    forall i | 0 <= i < 3 ensures SplitFiles(dir, [10.0, 20.0], 30.0)[i].duration == 10.0 {
      assert SplitFiles(dir, [10.0, 20.0], 30.0)[i] == SegmentAt(dir, b, i);
    }
  }

  /** One line: no split, one segment covering the whole recording. */
  lemma SingleLine(dir: string, total: real, coarse: seq<real>, fine: seq<real>)
    ensures SelectSplits(1, total, coarse, fine) == []
    ensures Boundaries(SelectSplits(1, total, coarse, fine), total) == [0.0, total]
    ensures |SplitFiles(dir, SelectSplits(1, total, coarse, fine), total)| == 1
  {
    SelectOne(total, coarse, fine);
  }

  // ------------------------------------------------------------ templates

  /** The two speaker clips. */
  datatype Template = FirstClip | SecondClip

  /** `tmpl1 if "1" in seg['speaker'] else tmpl2`, as written: a label gets
      the first clip whenever its number has a 1 anywhere in it. */
  function TemplateAsWritten(speaker: string): (r: Template)
    ensures forall d :: AllDigits(d) && speaker == Label(d) ==> (r == FirstClip <==> '1' in d)
  {
    OneInLabel(speaker[if |speaker| >= 8 then 8 else |speaker|..]);
    if '1' in speaker then FirstClip else SecondClip
  }

  /** A 1 appears in a label exactly when it appears in its digits. */
  lemma OneInLabel(d: string)
    ensures '1' in Label(d) <==> '1' in d
  {
    var l := Label(d);
    if '1' in d {
      var k :| 0 <= k < |d| && d[k] == '1';
      assert l[8 + k] == '1';
    }
    if '1' in l {
      var k :| 0 <= k < |l| && l[k] == '1';
      if k < 8 {
        assert l[..8][k] == '1';
      } else {
        assert d[k - 8] == '1';
      }
    }
  }

  /** The speaker number of a label "Speaker <digits>". */
  function SpeakerNumber(speaker: string): (r: Option<nat>)
    ensures forall d :: AllDigits(d) && d != [] ==> (speaker == Label(d) ==> r == Some(NatValue(d)))
  {
    if |speaker| > 8 && speaker[..8] == "Speaker " && AllDigits(speaker[8..]) then Some(NatValue(speaker[8..]))
    else None
  }

  /** The intended choice: a label gets the first clip exactly when its
      speaker number is 1; anything that is not a label gets the second. */
  function TemplateFor(speaker: string): (r: Template)
    ensures forall d :: AllDigits(d) && d != [] && speaker == Label(d) ==> (r == FirstClip <==> NatValue(d) == 1)
    ensures r == FirstClip ==> exists d :: AllDigits(d) && d != [] && speaker == Label(d)
  {
    if SpeakerNumber(speaker) == Some(1) then
      assert speaker == Label(speaker[8..]);
      FirstClip
    else SecondClip
  }

  /** So speaker 10 gets the first speaker's clip. */
  lemma SpeakerTenGetsFirstClip()
    ensures TemplateAsWritten(Label("10")) == FirstClip
    ensures TemplateFor(Label("10")) == SecondClip
  {
    assert Label("10")[8] == '1';
    assert NatValue("10") == 10;
  }

  /** For the labels of a two-speaker skit both choices agree. */
  lemma TemplatesAgreeForTwoSpeakers()
    ensures TemplateAsWritten(Label("1")) == TemplateFor(Label("1")) == FirstClip
    ensures TemplateAsWritten(Label("2")) == TemplateFor(Label("2")) == SecondClip
  {
    assert NatValue("1") == 1;
    assert NatValue("2") == 2;
  }
}
