/** Left-to-right scanners for the three regular expressions the application
    runs through re.findall / re.finditer, and the findall loop itself.

    Every greedy quantifier in these patterns is followed by something its
    character class cannot match, so Python's backtracking matcher settles on
    the maximal run each time; the scanners take those runs directly.  The one
    lazy quantifier, `(.+?)` in the loose pattern, ends at the first position
    where its lookahead holds.  Each pattern is scanned piece by piece, and
    each piece has a completeness lemma (text of the piece's shape is
    recognised, with the parts it was built from) and a soundness lemma
    (what is recognised has that shape). */
module Patterns {
  import opened Wrappers
  import opened Text

  datatype Pattern =
    | Strict      // Speaker\s*(\d+)\s*:\s*["]([^"]+)["]
    | Loose       // Speaker\s*(\d+)\s*:\s*(.+?)(?=Speaker\s*\d+:|$)  under MULTILINE | DOTALL
    | SilenceEnd  // silence_end: (\d+\.?\d*)

  /** One match: its capture groups (group2 is empty for a one-group
      pattern) and the span [start, end) of the text it consumed. */
  datatype Capture = Capture(group1: string, group2: string, start: nat, end: nat)

  // ------------------------------------------------------------ the pieces

  /** `\s*(\d+)` at i: the digits and the index after them. */
  function LabelAt(s: string, i: nat): (r: Option<(string, nat)>)
    requires i <= |s|
    ensures r.Some? ==> r.value.0 != [] && AllDigits(r.value.0)
    ensures r.Some? ==> i < r.value.1 <= |s|
  {
    var a := RunEnd(s, i, Space);
    var b := RunEnd(s, a, Digit);
    if a < b then Some((s[a..b], b)) else None
  }

  /** `\s*:` at i: the index after the colon. */
  function ColonAt(s: string, i: nat): (r: Option<nat>)
    requires i <= |s|
    ensures r.Some? ==> i < r.value <= |s| && s[r.value - 1] == ':'
  {
    var c := RunEnd(s, i, Space);
    if c < |s| && s[c] == ':' then Some(c + 1) else None
  }

  /** `Speaker\s*(\d+)\s*:` at p: the captured digits and the index just after
      the colon. */
  function HeadAt(s: string, p: nat): (r: Option<(string, nat)>)
    requires p <= |s|
    ensures r.Some? ==> r.value.0 != [] && AllDigits(r.value.0)
    ensures r.Some? ==> p + 9 <= r.value.1 <= |s|
  {
    if !LiteralAt(s, p, "Speaker") then None
    else
      match LabelAt(s, p + 7)
      case None => None
      case Some((digits, b)) =>
        match ColonAt(s, b)
        case None => None
        case Some(c) => Some((digits, c))
  }

  /** `\s*["]([^"]+)["]` at i: the quoted text and the index after the
      closing quote. */
  function QuotedAt(s: string, i: nat): (r: Option<(string, nat)>)
    requires i <= |s|
    ensures r.Some? ==> i + 3 <= r.value.1 <= |s|
    ensures r.Some? ==> r.value.0 != [] && All(r.value.0, NonQuote)
  {
    var w := RunEnd(s, i, Space);
    if w < |s| && s[w] == '"' then
      var q := RunEnd(s, w + 1, NonQuote);
      if w + 1 < q < |s| then Some((s[w + 1..q], q + 1)) else None
    else None
  }

  /** The lookahead `Speaker\s*\d+:`; unlike the head it allows no space
      before the colon. */
  predicate MarkerAt(s: string, e: nat)
    requires e <= |s|
  {
    LiteralAt(s, e, "Speaker") &&
    match LabelAt(s, e + 7)
    case None => false
    case Some((_, b)) => b < |s| && s[b] == ':'
  }

  /** Where the lazy loose capture may stop: the end of the text or of a line
      (`$` under MULTILINE) or the start of the next speaker marker. */
  predicate IsStop(s: string, e: nat)
    requires e <= |s|
  {
    e == |s| || s[e] == '\n' || MarkerAt(s, e)
  }

  /** The first stop at or after i. */
  function NextStop(s: string, i: nat): (e: nat)
    requires i <= |s|
    ensures i <= e <= |s| && IsStop(s, e)
    ensures forall k :: i <= k < e ==> !IsStop(s, k)
    decreases |s| - i
  {
    if IsStop(s, i) then i else NextStop(s, i + 1)
  }

  /** `\s*(.+?)(?=Speaker\s*\d+:|$)` at i: the capture runs from the first
      non-space to the first stop after it.  When only whitespace follows up
      to the end of the text, `\s*` gives its last character back so that
      `.+?` can take it. */
  function LazyAt(s: string, i: nat): (r: Option<(string, nat)>)
    requires i <= |s|
    ensures r.Some? ==> i < r.value.1 <= |s|
    ensures r.Some? ==> var (b, e) := r.value;
      b != [] && i <= e - |b| && s[e - |b|..e] == b
      && IsStop(s, e) && (forall k :: e - |b| < k < e ==> !IsStop(s, k))
    ensures i < |s| <==> r.Some?
  {
    var w := RunEnd(s, i, Space);
    if w < |s| then
      var e := NextStop(s, w + 1);
      Some((s[w..e], e))
    else if i < w then
      Some((s[w - 1..w], w))
    else None
  }

  /** What the lazy capture skips before it starts is whitespace, and it
      starts at the first non-blank character; only a text that is blank
      from i on yields its last blank as the one-character capture. */
  lemma LazySkipsSpace(s: string, i: nat, b: string, e: nat)
    requires i <= |s| && LazyAt(s, i) == Some((b, e))
    ensures !IsSpace(b[0]) || (e == |s| && |b| == 1)
    ensures forall k :: i <= k < e - |b| ==> IsSpace(s[k])
    ensures !IsSpace(b[0]) ==> e - |b| == RunEnd(s, i, Space)
    ensures IsSpace(b[0]) ==> forall k :: i <= k < |s| ==> IsSpace(s[k])
  {
  }

  // ----------------------------------------------------- the three patterns

  /** The strict pattern anchored at p. */
  function StrictAt(s: string, p: nat): (r: Option<Capture>)
    requires p <= |s|
    ensures r.Some? ==> r.value.start == p < r.value.end <= |s|
    ensures r.Some? ==> r.value.group2 != [] && All(r.value.group2, NonQuote)
    ensures r.Some? ==> HeadAt(s, p).Some? && HeadAt(s, p).value.0 == r.value.group1
  {
    match HeadAt(s, p)
    case None => None
    case Some((digits, colon)) =>
      match QuotedAt(s, colon)
      case None => None
      case Some((body, end)) => Some(Capture(digits, body, p, end))
  }

  /** The loose pattern anchored at p. */
  function LooseAt(s: string, p: nat): (r: Option<Capture>)
    requires p <= |s|
    ensures r.Some? ==> r.value.start == p < r.value.end <= |s|
    ensures r.Some? ==> HeadAt(s, p).Some? && HeadAt(s, p).value.0 == r.value.group1
    ensures r.Some? ==> LazyAt(s, HeadAt(s, p).value.1) == Some((r.value.group2, r.value.end))
    ensures HeadAt(s, p).Some? && HeadAt(s, p).value.1 < |s| ==> r.Some?
  {
    match HeadAt(s, p)
    case None => None
    case Some((digits, colon)) =>
      match LazyAt(s, colon)
      case None => None
      case Some((body, end)) => Some(Capture(digits, body, p, end))
  }

  /** The literal part of the silence_end pattern, 13 characters. */
  const SilenceText := "silence_end: "

  /** `silence_end: (\d+\.?\d*)` anchored at p; group1 is the numeral. */
  function SilenceEndAt(s: string, p: nat): (r: Option<Capture>)
    requires p <= |s|
    ensures r.Some? ==> r.value.start == p < r.value.end <= |s|
    ensures r.Some? <==> LiteralAt(s, p, SilenceText) && p + 13 < |s| && IsDigit(s[p + 13])
  {
    if !LiteralAt(s, p, SilenceText) then None
    else
      match NumeralAt(s, p + 13)
      case None => None
      case Some(e) => Some(Capture(s[p + 13..e], [], p, e))
  }

  /** `\d+\.?\d*` anchored at a: where the numeral ends. */
  function NumeralAt(s: string, a: nat): (r: Option<nat>)
    requires a <= |s|
    ensures r.Some? ==> a < r.value <= |s|
    ensures r.Some? <==> a < |s| && IsDigit(s[a])
  {
    var b := RunEnd(s, a, Digit);
    if b == a then None
    else if b < |s| && s[b] == '.' then Some(RunEnd(s, b + 1, Digit))
    else Some(b)
  }

  /** Every silence_end capture is a numeral float() accepts, with a value
      of at least 0. */
  lemma SilenceEndParses(s: string, p: nat)
    requires p <= |s| && SilenceEndAt(s, p).Some?
    ensures ParseFloat(SilenceEndAt(s, p).value.group1).Some?
    ensures ParseFloat(SilenceEndAt(s, p).value.group1).value >= 0.0
  {
    NumeralOfSilenceEnd(s, p);
    NumeralSound(s, p + 13);
    var g := SilenceEndAt(s, p).value.group1;
    var d, f :| SilenceNumeral(g, d, f);
    SilenceNumeralValue(g, d, f);
  }

  lemma NumeralParses(d: string)
    requires d != [] && AllDigits(d)
    ensures ParseFloat(d) == Some(NatValue(d) as real)
  {
    RunEndIs(d, 0, |d|, Digit);
  }

  /** A numeral of the silence_end pattern, `d` or `d.f`, written out
      with its whole part and its fraction (`f` is empty without a point). */
  predicate SilenceNumeral(g: string, d: string, f: string) {
    d != [] && AllDigits(d) && AllDigits(f)
    && (g == d + "." + f || (f == [] && g == d))
  }

  /** float() reads a numeral of the pattern as its whole part plus its
      fraction. */
  lemma SilenceNumeralValue(g: string, d: string, f: string)
    requires SilenceNumeral(g, d, f)
    ensures ParseFloat(g) == Some(NatValue(d) as real + FractionValue(f))
  {
    if g == d + "." + f {
      assert g[..|d|] == d && g[|d| + 1..] == f;
      ParseDecimalPoint(g, |d|);
    } else {
      NumeralParses(d);
    }
  }

  /** `silence_end: d.f`, where no digit follows f, is matched with the
      numeral `d.f`. */
  lemma SilenceEndComplete(s: string, p: nat, d: string, f: string)
    requires d != [] && AllDigits(d) && AllDigits(f)
    requires LiteralAt(s, p, SilenceText) && LiteralAt(s, p + 13, d)
    requires p + 13 + |d| < |s| && s[p + 13 + |d|] == '.' && LiteralAt(s, p + 14 + |d|, f)
    requires p + 14 + |d| + |f| == |s| || !IsDigit(s[p + 14 + |d| + |f|])
    ensures SilenceEndAt(s, p) == Some(Capture(s[p + 13..p + 14 + |d| + |f|], [], p, p + 14 + |d| + |f|))
    ensures s[p + 13..p + 14 + |d| + |f|] == d + "." + f
  {
    PointEnds(s, p + 13, d, f);
    SilenceEndOfNumeral(s, p, p + 14 + |d| + |f|);
    PointJoin(s, p + 13, d, f);
  }

  /** The scanner in terms of its numeral part: after the literal, the
      capture is the numeral NumeralAt measures ... */
  lemma SilenceEndOfNumeral(s: string, p: nat, e: nat)
    requires p + 13 <= |s| && LiteralAt(s, p, SilenceText) && NumeralAt(s, p + 13) == Some(e)
    ensures SilenceEndAt(s, p) == Some(Capture(s[p + 13..e], [], p, e))
  {
  }

  /** ... and every capture is one. */
  lemma NumeralOfSilenceEnd(s: string, p: nat)
    requires p <= |s| && SilenceEndAt(s, p).Some?
    ensures var c := SilenceEndAt(s, p).value;
      LiteralAt(s, p, SilenceText) && NumeralAt(s, p + 13) == Some(c.end) && c.group1 == s[p + 13..c.end]
  {
  }

  /** The numeral part alone: digits d, a point and digits f at a, with no
      digit after them, end where f ends. */
  lemma PointEnds(s: string, a: nat, d: string, f: string)
    requires d != [] && AllDigits(d) && AllDigits(f)
    requires LiteralAt(s, a, d) && a + |d| < |s| && s[a + |d|] == '.' && LiteralAt(s, a + |d| + 1, f)
    requires a + |d| + 1 + |f| == |s| || !IsDigit(s[a + |d| + 1 + |f|])
    ensures NumeralAt(s, a) == Some(a + |d| + 1 + |f|)
  {
    RunOver(s, a, d, Digit);
    RunOver(s, a + |d| + 1, f, Digit);
  }

  /** `silence_end: d`, followed by neither a digit nor a point, is matched
      with the numeral d. */
  lemma SilenceEndWhole(s: string, p: nat, d: string)
    requires d != [] && AllDigits(d)
    requires LiteralAt(s, p, SilenceText) && LiteralAt(s, p + 13, d)
    requires p + 13 + |d| == |s| || (!IsDigit(s[p + 13 + |d|]) && s[p + 13 + |d|] != '.')
    ensures SilenceEndAt(s, p) == Some(Capture(d, [], p, p + 13 + |d|))
  {
    RunOver(s, p + 13, d, Digit);
    assert NumeralAt(s, p + 13) == Some(p + 13 + |d|);
    SilenceEndOfNumeral(s, p, p + 13 + |d|);
  }

  /** What the silence_end scanner accepts is the literal followed by a
      numeral of the pattern whose digits run as far as they can. */
  lemma SilenceEndSound(s: string, p: nat)
    requires p <= |s| && SilenceEndAt(s, p).Some?
    ensures var c := SilenceEndAt(s, p).value;
      LiteralAt(s, p, SilenceText) && s[p + 13..c.end] == c.group1
      && (c.end == |s| || !IsDigit(s[c.end]))
      && ('.' !in c.group1 ==> c.end == |s| || s[c.end] != '.')
    ensures exists d, f :: SilenceNumeral(SilenceEndAt(s, p).value.group1, d, f)
  {
    NumeralOfSilenceEnd(s, p);
    NumeralSound(s, p + 13);
  }

  /** What NumeralAt accepts is a numeral of the pattern whose runs of
      digits are as long as they can be. */
  lemma NumeralSound(s: string, a: nat)
    requires a <= |s| && NumeralAt(s, a).Some?
    ensures var e := NumeralAt(s, a).value;
      (e == |s| || !IsDigit(s[e])) && ('.' !in s[a..e] ==> e == |s| || s[e] != '.')
    ensures exists d, f :: SilenceNumeral(s[a..NumeralAt(s, a).value], d, f)
  {
    var e := NumeralAt(s, a).value;
    var b := RunEnd(s, a, Digit);
    if b < |s| && s[b] == '.' {
      assert e == RunEnd(s, b + 1, Digit);
      PointNumeral(s, a, b, e);
      assert SilenceNumeral(s[a..e], s[a..b], s[b + 1..e]);
    } else {
      assert e == b;
      WholeNumeral(s, a, b);
      assert SilenceNumeral(s[a..e], s[a..b], []);
    }
  }

  /** Maximal runs of digits around a point form a numeral of the pattern. */
  lemma PointNumeral(s: string, a: nat, b: nat, e: nat)
    requires a < b < |s| && s[b] == '.'
    requires RunEnd(s, a, Digit) == b && RunEnd(s, b + 1, Digit) == e
    ensures SilenceNumeral(s[a..e], s[a..b], s[b + 1..e])
  {
    RunIsAll(s, a, Digit);
    RunIsAll(s, b + 1, Digit);
    SliceSplit(s, a, b, b + 1, e);
  }

  /** A maximal run of digits not followed by a point is a numeral of the
      pattern, and has no point in it. */
  lemma WholeNumeral(s: string, a: nat, b: nat)
    requires a < b <= |s| && RunEnd(s, a, Digit) == b
    ensures SilenceNumeral(s[a..b], s[a..b], []) && '.' !in s[a..b]
  {
    RunIsAll(s, a, Digit);
    AllExcludes(s[a..b], Digit, '.');
  }

  function MatchAt(s: string, p: nat, pat: Pattern): (r: Option<Capture>)
    requires p <= |s|
    ensures r.Some? ==> r.value.start == p < r.value.end <= |s|
  {
    match pat
    case Strict => StrictAt(s, p)
    case Loose => LooseAt(s, p)
    case SilenceEnd => SilenceEndAt(s, p)
  }

  // ------------------------------------------------------------ findall

  /** The outcome of trying the pattern at every position 0..|s|. */
  function Attempts(s: string, pat: Pattern): (t: seq<Option<Capture>>)
    ensures |t| == |s| + 1
    ensures forall q {:trigger MatchAt(s, q, pat)} :: 0 <= q <= |s| ==> t[q] == MatchAt(s, q, pat)
    ensures Consistent(t)
  {
    seq(|s| + 1, q requires 0 <= q <= |s| => MatchAt(s, q, pat))
  }

  /** A match found at q starts at q and ends after it, within the text. */
  ghost predicate Consistent(t: seq<Option<Capture>>) {
    forall q :: 0 <= q < |t| && t[q].Some? ==> t[q].value.start == q < t[q].value.end < |t|
  }

  /** The findall loop over the attempts from position p: take the match at
      p if there is one and resume where it ended, otherwise move on by one. */
  function Scan(t: seq<Option<Capture>>, p: nat): (r: seq<Capture>)
    requires Consistent(t) && p < |t|
    ensures forall i :: 0 <= i < |r| ==> p <= r[i].start < r[i].end < |t|
    ensures forall i :: 0 <= i < |r| - 1 ==> r[i].end <= r[i + 1].start
    decreases |t| - p
  {
    if p == |t| - 1 then []
    else
      match t[p]
      case Some(c) => [c] + Scan(t, c.end)
      case None => Scan(t, p + 1)
  }

  /** Every match the loop reports is the attempt at its start. */
  lemma {:induction false} ScanReports(t: seq<Option<Capture>>, p: nat)
    requires Consistent(t) && p < |t|
    ensures forall i :: 0 <= i < |Scan(t, p)| ==> t[Scan(t, p)[i].start] == Some(Scan(t, p)[i])
    decreases |t| - p
  {
    if p < |t| - 1 {
      match t[p]
      case Some(c) =>
        ScanReports(t, c.end);
        assert Scan(t, p) == [c] + Scan(t, c.end);
      case None =>
        ScanReports(t, p + 1);
    }
  }

  /** The loop skips only positions where the attempt failed: nothing
      matches before its first report, nor anywhere if it reports nothing. */
  lemma {:induction false} ScanFirst(t: seq<Option<Capture>>, p: nat)
    requires Consistent(t) && p < |t|
    ensures Scan(t, p) == [] ==> forall q :: p <= q < |t| ==> t[q].None?
    ensures Scan(t, p) != [] ==> forall q :: p <= q < Scan(t, p)[0].start ==> t[q].None?
    decreases |t| - p
  {
    if p < |t| - 1 {
      match t[p]
      case Some(c) =>
      case None =>
        ScanFirst(t, p + 1);
    }
  }

  /** Nor does anything match in a gap the loop leaves after a report: up to
      the next report, or up to the end after the last one. */
  lemma {:induction false} ScanGaps(t: seq<Option<Capture>>, p: nat)
    requires Consistent(t) && p < |t|
    ensures forall i, q ::
      (0 <= i < |Scan(t, p)| && Scan(t, p)[i].end <= q < |t|
       && (i + 1 < |Scan(t, p)| ==> q < Scan(t, p)[i + 1].start)) ==> t[q].None?
    decreases |t| - p
  {
    if p < |t| - 1 {
      match t[p]
      case Some(c) =>
        var r, rest := Scan(t, p), Scan(t, c.end);
        assert r == [c] + rest;
        ScanFirst(t, c.end);
        ScanGaps(t, c.end);
        forall i, q | 0 <= i < |r| && r[i].end <= q < |t| && (i + 1 < |r| ==> q < r[i + 1].start)
          ensures t[q].None?
        {
          if i > 0 {
            assert r[i] == rest[i - 1];
          }
        }
      case None =>
        ScanGaps(t, p + 1);
    }
  }

  /** re.findall / re.finditer over the whole text. */
  function FindAll(s: string, pat: Pattern): (r: seq<Capture>)
    ensures forall i :: 0 <= i < |r| ==> r[i].start < r[i].end <= |s|
    ensures forall i :: 0 <= i < |r| - 1 ==> r[i].end <= r[i + 1].start
  {
    Scan(Attempts(s, pat), 0)
  }

  /** Each reported match is what the pattern matches at its start. */
  lemma FindAllMatches(s: string, pat: Pattern, i: nat)
    requires i < |FindAll(s, pat)|
    ensures MatchAt(s, FindAll(s, pat)[i].start, pat) == Some(FindAll(s, pat)[i])
  {
    var t := Attempts(s, pat);
    ScanReports(t, 0);
    assert t[FindAll(s, pat)[i].start] == Some(FindAll(s, pat)[i]);
  }

  /** What re.findall returns for a two-group pattern: the groups of each
      match, in order. */
  function Groups(cs: seq<Capture>): (r: seq<(string, string)>)
    ensures |r| == |cs|
    ensures forall i :: 0 <= i < |r| ==> r[i] == (cs[i].group1, cs[i].group2)
  {
    if cs == [] then [] else [(cs[0].group1, cs[0].group2)] + Groups(cs[1..])
  }

  /** One step of the findall loop where the pattern matches ... */
  lemma ScanTake(t: seq<Option<Capture>>, p: nat, c: Capture)
    requires Consistent(t) && p < |t| && t[p] == Some(c)
    ensures Scan(t, p) == [c] + Scan(t, c.end)
  {
  }

  /** ... and where it does not. */
  lemma ScanSkip(t: seq<Option<Capture>>, p: nat)
    requires Consistent(t) && p < |t| - 1 && t[p].None?
    ensures Scan(t, p) == Scan(t, p + 1)
  {
  }

  /** findall finds nothing exactly when the pattern matches at no position. */
  lemma FindAllEmpty(s: string, pat: Pattern)
    ensures FindAll(s, pat) == [] <==> forall q :: 0 <= q <= |s| ==> MatchAt(s, q, pat).None?
  {
    var t := Attempts(s, pat);
    var r := FindAll(s, pat);
    ScanReports(t, 0);
    ScanFirst(t, 0);
    if r != [] {
      assert t[r[0].start].Some?;
    } else {
      forall q | 0 <= q <= |s| ensures MatchAt(s, q, pat).None? {
        assert t[q].None?;
      }
    }
  }

  /** The first match findall reports is the leftmost one. */
  lemma FindAllLeftmost(s: string, pat: Pattern)
    requires FindAll(s, pat) != []
    ensures forall q :: 0 <= q < FindAll(s, pat)[0].start ==> MatchAt(s, q, pat).None?
  {
    var t := Attempts(s, pat);
    ScanFirst(t, 0);
    forall q | 0 <= q < FindAll(s, pat)[0].start ensures MatchAt(s, q, pat).None? {
      assert t[q].None?;
    }
  }

  /** findall skips no match: between two consecutive reports, and after
      the last one, the pattern matches at no position. */
  lemma FindAllGaps(s: string, pat: Pattern)
    ensures var r := FindAll(s, pat);
      forall i, q ::
        (0 <= i < |r| && r[i].end <= q <= |s| && (i + 1 < |r| ==> q < r[i + 1].start))
        ==> MatchAt(s, q, pat).None?
  {
    var t := Attempts(s, pat);
    var r := FindAll(s, pat);
    ScanGaps(t, 0);
    assert r == Scan(t, 0) && |t| == |s| + 1;
    forall i, q | 0 <= i < |r| && r[i].end <= q <= |s| && (i + 1 < |r| ==> q < r[i + 1].start)
      ensures MatchAt(s, q, pat).None?
    {
      assert Scan(t, 0)[i].end <= q < |t|;
      assert i + 1 < |Scan(t, 0)| ==> q < Scan(t, 0)[i + 1].start;
      assert t[q].None?;
    }
  }

  // ------------------------------------------ the strict pattern's language

  function LabelText(ws: string, digits: string): string {
    ws + digits
  }

  function ColonText(ws: string): string {
    ws + ":"
  }

  function QuotedText(ws: string, body: string): string {
    ws + ("\"" + (body + "\""))
  }

  /** The text one strict match consumes, built from its parts. */
  function StrictText(ws1: string, digits: string, ws2: string, ws3: string, body: string): (t: string)
    ensures |t| == |ws1| + |digits| + |ws2| + |ws3| + |body| + 10
  {
    "Speaker" + (LabelText(ws1, digits) + (ColonText(ws2) + QuotedText(ws3, body)))
  }

  predicate StrictParts(ws1: string, digits: string, ws2: string, ws3: string, body: string) {
    All(ws1, Space) && digits != [] && AllDigits(digits) && All(ws2, Space)
    && All(ws3, Space) && body != [] && All(body, NonQuote)
  }

  lemma LiteralSplit(s: string, p: nat, x: string, y: string)
    requires LiteralAt(s, p, x + y)
    ensures LiteralAt(s, p, x) && LiteralAt(s, p + |x|, y)
  {
    assert s[p..p + |x|] == (x + y)[..|x|];
    assert s[p + |x|..p + |x| + |y|] == (x + y)[|x|..];
  }

  /** Completeness of each piece of the head and of the quoted body: text
      of the piece's shape is scanned with the captures it was built from. */
  lemma LabelComplete(s: string, i: nat, ws: string, digits: string)
    requires All(ws, Space) && digits != [] && AllDigits(digits)
    requires LiteralAt(s, i, LabelText(ws, digits))
    requires i + |ws| + |digits| == |s| || !In(s[i + |ws| + |digits|], Digit)
    ensures LabelAt(s, i) == Some((digits, i + |ws| + |digits|))
  {
    var a := i + |ws|;
    LiteralSplit(s, i, ws, digits);
    assert s[a] == digits[0] && In(digits[0], Digit);
    RunOver(s, i, ws, Space);
    RunOver(s, a, digits, Digit);
  }

  lemma ColonComplete(s: string, i: nat, ws: string)
    requires All(ws, Space)
    requires LiteralAt(s, i, ColonText(ws))
    ensures ColonAt(s, i) == Some(i + |ws| + 1)
  {
    LiteralSplit(s, i, ws, ":");
    assert s[i + |ws|] == ':';
    RunOver(s, i, ws, Space);
  }

  lemma QuotedComplete(s: string, i: nat, ws: string, body: string)
    requires All(ws, Space) && body != [] && All(body, NonQuote)
    requires LiteralAt(s, i, QuotedText(ws, body))
    ensures QuotedAt(s, i) == Some((body, i + |ws| + |body| + 2))
  {
    var w := i + |ws|;
    var q := w + 1 + |body|;
    QuotedTextSplit(s, i, ws, body);
    RunOver(s, i, ws, Space);
    RunOver(s, w + 1, body, NonQuote);
    QuotedOfParts(s, i, w, q, body, i + |ws| + |body| + 2);
  }

  lemma QuotedTextSplit(s: string, i: nat, ws: string, body: string)
    requires LiteralAt(s, i, QuotedText(ws, body))
    ensures LiteralAt(s, i, ws) && LiteralAt(s, i + |ws| + 1, body)
    ensures i + |ws| + |body| + 1 < |s|
    ensures s[i + |ws|] == '"' && s[i + |ws| + 1 + |body|] == '"'
  {
    var w := i + |ws|;
    LiteralSplit(s, i, ws, "\"" + (body + "\""));
    LiteralSplit(s, w, "\"", body + "\"");
    LiteralSplit(s, w + 1, body, "\"");
    assert s[w] == s[w..w + 1][0];
    assert s[w + 1 + |body|] == s[w + 1 + |body|..w + 2 + |body|][0];
  }

  /** The quoted body, read off the runs the scanner follows. */
  lemma QuotedOfParts(s: string, i: nat, w: nat, q: nat, body: string, e: nat)
    requires i <= w < q < |s| && w + 1 < q && e == q + 1
    requires RunEnd(s, i, Space) == w && s[w] == '"'
    requires RunEnd(s, w + 1, NonQuote) == q && s[w + 1..q] == body
    ensures QuotedAt(s, i) == Some((body, e))
  {
  }

  lemma HeadTextSplit(s: string, p: nat, ws1: string, digits: string, ws2: string, rest: string)
    requires LiteralAt(s, p, "Speaker" + (LabelText(ws1, digits) + (ColonText(ws2) + rest)))
    ensures LiteralAt(s, p, "Speaker")
    ensures LiteralAt(s, p + 7, LabelText(ws1, digits))
    ensures LiteralAt(s, p + 7 + |ws1| + |digits|, ColonText(ws2))
    ensures LiteralAt(s, p + 7 + |ws1| + |digits| + |ws2| + 1, rest)
  {
    var b := p + 7 + |ws1| + |digits|;
    LiteralSplit(s, p, "Speaker", LabelText(ws1, digits) + (ColonText(ws2) + rest));
    LiteralSplit(s, p + 7, LabelText(ws1, digits), ColonText(ws2) + rest);
    LiteralSplit(s, b, ColonText(ws2), rest);
  }

  /** Completeness of the head `Speaker\s*(\d+)\s*:`. */
  lemma HeadComplete(s: string, p: nat, ws1: string, digits: string, ws2: string)
    requires All(ws1, Space) && digits != [] && AllDigits(digits) && All(ws2, Space)
    requires LiteralAt(s, p, "Speaker")
    requires LiteralAt(s, p + 7, LabelText(ws1, digits))
    requires LiteralAt(s, p + 7 + |ws1| + |digits|, ColonText(ws2))
    ensures HeadAt(s, p) == Some((digits, p + 7 + |ws1| + |digits| + |ws2| + 1))
  {
    var b := p + 7 + |ws1| + |digits|;
    LiteralSplit(s, b, ws2, ":");
    if ws2 != [] {
      assert s[b] == ws2[0] && In(ws2[0], Space);
    } else {
      assert s[b] == ':';
    }
    LabelComplete(s, p + 7, ws1, digits);
    ColonComplete(s, b, ws2);
    HeadOfParts(s, p, digits, b, b + |ws2| + 1);
  }

  /** The head of a strict text is matched, and the rest follows it. */
  lemma HeadPart(s: string, p: nat, c: nat, ws1: string, digits: string, ws2: string, rest: string)
    requires All(ws1, Space) && digits != [] && AllDigits(digits) && All(ws2, Space)
    requires c == p + 7 + |ws1| + |digits| + |ws2| + 1
    requires LiteralAt(s, p, "Speaker" + (LabelText(ws1, digits) + (ColonText(ws2) + rest)))
    ensures HeadAt(s, p) == Some((digits, c)) && LiteralAt(s, c, rest)
  {
    HeadTextSplit(s, p, ws1, digits, ws2, rest);
    HeadComplete(s, p, ws1, digits, ws2);
  }

  /** Completeness: text of the strict shape is matched, with exactly the
      digits and the quoted body it was built from, whatever follows it. */
  lemma StrictComplete(s: string, p: nat, ws1: string, digits: string, ws2: string, ws3: string, body: string)
    requires StrictParts(ws1, digits, ws2, ws3, body)
    requires LiteralAt(s, p, StrictText(ws1, digits, ws2, ws3, body))
    ensures StrictAt(s, p) == Some(Capture(digits, body, p, p + |StrictText(ws1, digits, ws2, ws3, body)|))
  {
    var c := p + 7 + |ws1| + |digits| + |ws2| + 1;
    HeadPart(s, p, c, ws1, digits, ws2, QuotedText(ws3, body));
    QuotedComplete(s, c, ws3, body);
    StrictOfParts(s, p, c, ws1, digits, ws2, ws3, body);
  }

  /** The head and the quoted body, each found where the strict text puts
      them, make the strict match. */
  lemma StrictOfParts(s: string, p: nat, c: nat, ws1: string, digits: string, ws2: string, ws3: string, body: string)
    requires p <= |s| && c == p + 7 + |ws1| + |digits| + |ws2| + 1
    requires HeadAt(s, p) == Some((digits, c))
    requires QuotedAt(s, c) == Some((body, c + |ws3| + |body| + 2))
    ensures StrictAt(s, p) == Some(Capture(digits, body, p, p + |StrictText(ws1, digits, ws2, ws3, body)|))
  {
  }

  lemma HeadOfParts(s: string, p: nat, digits: string, b: nat, colon: nat)
    requires LiteralAt(s, p, "Speaker")
    requires LabelAt(s, p + 7) == Some((digits, b))
    requires ColonAt(s, b) == Some(colon)
    ensures HeadAt(s, p) == Some((digits, colon))
  {
  }

  /** Digits d, a point and digits f written one after the other at a. */
  lemma PointJoin(s: string, a: nat, d: string, f: string)
    requires LiteralAt(s, a, d) && a + |d| < |s| && s[a + |d|] == '.'
    requires LiteralAt(s, a + |d| + 1, f)
    ensures s[a..a + |d| + 1 + |f|] == d + "." + f
  {
    var b, e := a + |d|, a + |d| + 1 + |f|;
    SliceJoin(s, a, b, b + 1);
    SliceJoin(s, a, b + 1, e);
    assert s[b..b + 1] == ".";
  }

  lemma SliceJoin(s: string, i: nat, j: nat, k: nat)
    requires i <= j <= k <= |s|
    ensures s[i..k] == s[i..j] + s[j..k]
  {
  }

  lemma SliceSplit(s: string, i: nat, j: nat, k: nat, l: nat)
    requires i <= j <= k <= l <= |s|
    ensures s[i..l] == s[i..j] + (s[j..k] + s[k..l])
  {
    assert s[i..l] == s[i..j] + s[j..l];
    assert s[j..l] == s[j..k] + s[k..l];
  }

  /** Soundness of each piece: the text a scanner accepts has the piece's
      shape. */
  lemma LabelSound(s: string, i: nat)
    requires i <= |s| && LabelAt(s, i).Some?
    ensures All(s[i..RunEnd(s, i, Space)], Space)
    ensures s[i..LabelAt(s, i).value.1] == LabelText(s[i..RunEnd(s, i, Space)], LabelAt(s, i).value.0)
  {
    var a := RunEnd(s, i, Space);
    RunIsAll(s, i, Space);
    assert s[i..LabelAt(s, i).value.1] == s[i..a] + s[a..LabelAt(s, i).value.1];
  }

  lemma ColonSound(s: string, i: nat)
    requires i <= |s| && ColonAt(s, i).Some?
    ensures All(s[i..RunEnd(s, i, Space)], Space)
    ensures s[i..ColonAt(s, i).value] == ColonText(s[i..RunEnd(s, i, Space)])
  {
    var c := RunEnd(s, i, Space);
    RunIsAll(s, i, Space);
    assert s[i..c + 1] == s[i..c] + [s[c]];
  }

  lemma QuotedSound(s: string, i: nat)
    requires i <= |s| && QuotedAt(s, i).Some?
    ensures All(s[i..RunEnd(s, i, Space)], Space)
    ensures s[i..QuotedAt(s, i).value.1] == QuotedText(s[i..RunEnd(s, i, Space)], QuotedAt(s, i).value.0)
  {
    var w := RunEnd(s, i, Space);
    var q := QuotedAt(s, i).value.1 - 1;
    RunIsAll(s, i, Space);
    assert s[i..q + 1] == s[i..w] + ([s[w]] + (s[w + 1..q] + [s[q]]));
  }

  /** Soundness of the head: the accepted text is `Speaker`, spaces, the
      digits, spaces and the colon. */
  lemma HeadSound(s: string, p: nat)
    requires p <= |s| && HeadAt(s, p).Some?
    ensures var b := LabelAt(s, p + 7).value.1;
      All(s[p + 7..RunEnd(s, p + 7, Space)], Space) && All(s[b..RunEnd(s, b, Space)], Space)
      && s[p..HeadAt(s, p).value.1]
         == "Speaker" + (LabelText(s[p + 7..RunEnd(s, p + 7, Space)], HeadAt(s, p).value.0)
                         + ColonText(s[b..RunEnd(s, b, Space)]))
  {
    assert LiteralAt(s, p, "Speaker");
    var (digits, b) := LabelAt(s, p + 7).value;
    var colon := ColonAt(s, b).value;
    assert HeadAt(s, p) == Some((digits, colon));
    LabelSound(s, p + 7);
    ColonSound(s, b);
    var ws1 := s[p + 7..RunEnd(s, p + 7, Space)];
    var ws2 := s[b..RunEnd(s, b, Space)];
    assert s[p + 7..b] == LabelText(ws1, digits);
    assert s[b..colon] == ColonText(ws2);
    SliceSplit(s, p, p + 7, b, colon);
  }

  lemma StrictTextJoin(ws1: string, digits: string, ws2: string, ws3: string, body: string)
    ensures ("Speaker" + (LabelText(ws1, digits) + ColonText(ws2))) + QuotedText(ws3, body)
            == StrictText(ws1, digits, ws2, ws3, body)
  {
  }

  /** Soundness: whatever the strict scanner accepts is text of the strict
      shape, built from the digits and the body it reports. */
  lemma StrictSound(s: string, p: nat)
    requires p <= |s| && StrictAt(s, p).Some?
    ensures var c := StrictAt(s, p).value;
      exists ws1, ws2, ws3 :: StrictParts(ws1, c.group1, ws2, ws3, c.group2)
        && s[p..c.end] == StrictText(ws1, c.group1, ws2, ws3, c.group2)
  {
    var c := StrictAt(s, p).value;
    var (digits, colon) := HeadAt(s, p).value;
    var (body, end) := QuotedAt(s, colon).value;
    assert c == Capture(digits, body, p, end);
    var b := LabelAt(s, p + 7).value.1;
    HeadSound(s, p);
    QuotedSound(s, colon);
    var ws1 := s[p + 7..RunEnd(s, p + 7, Space)];
    var ws2 := s[b..RunEnd(s, b, Space)];
    var ws3 := s[colon..RunEnd(s, colon, Space)];
    SliceJoin(s, p, colon, end);
    StrictTextJoin(ws1, digits, ws2, ws3, body);
    assert StrictParts(ws1, c.group1, ws2, ws3, c.group2)
      && s[p..c.end] == StrictText(ws1, c.group1, ws2, ws3, c.group2);
  }
}
