/** parse_skit: turning the script text into (speaker, line) pairs.  The
    strict reading wants every line quoted; only when it finds nothing at all
    does the loose reading run, which takes the rest of the line after each
    `Speaker N:` head. */
module Skit {
  import opened Wrappers
  import opened Text
  import opened Patterns

  /** One line of the skit: the speaker label and what is said. */
  datatype Line = Line(speaker: string, text: string)

  /** The label the application shows for speaker number `digits`. */
  function Label(digits: string): (l: string)
    ensures |l| == |digits| + 8 && l[..8] == "Speaker " && l[8..] == digits
  {
    "Speaker " + digits
  }

  /** The line one (number, text) pair becomes. */
  function LineOf(m: (string, string)): Line {
    Line(Label(m.0), Strip(m.1))
  }

  /** What every parsed line looks like: a `Speaker <digits>` label and a
      non-empty text with no surrounding whitespace. */
  predicate WellFormed(l: Line) {
    |l.speaker| > 8 && l.speaker[..8] == "Speaker " && AllDigits(l.speaker[8..])
    && l.text != [] && !IsSpace(l.text[0]) && !IsSpace(l.text[|l.text| - 1])
  }

  /** Every pair carries a speaker number. */
  predicate Numbered(ms: seq<(string, string)>) {
    forall j :: 0 <= j < |ms| ==> ms[j].0 != [] && AllDigits(ms[j].0)
  }

  /** A text that is not blank and has no surrounding whitespace. */
  predicate Stripped(t: string) {
    t != [] && !IsSpace(t[0]) && !IsSpace(t[|t| - 1])
  }

  /** The final comprehension: label each pair and strip its text, dropping
      the pairs whose text is blank. */
  function Lines(ms: seq<(string, string)>): (r: seq<Line>)
    ensures |r| <= |ms|
    ensures forall i :: 0 <= i < |r| ==> Stripped(r[i].text)
  {
    if ms == [] then [] else Kept(ms[0]) + Lines(ms[1..])
  }

  /** Pairs that carry speaker numbers give well-formed lines. */
  lemma {:induction false} LinesWellFormed(ms: seq<(string, string)>)
    requires Numbered(ms)
    ensures forall i :: 0 <= i < |Lines(ms)| ==> WellFormed(Lines(ms)[i])
    decreases |ms|
  {
    if ms != [] {
      assert Numbered(ms[1..]);
      LinesWellFormed(ms[1..]);
      assert ms[0].0 != [] && AllDigits(ms[0].0);
      assert Lines(ms) == Kept(ms[0]) + Lines(ms[1..]);
    }
  }

  /** Only blank texts are dropped: when no text is blank every pair gives
      a line. */
  lemma {:induction false} LinesKeepAll(ms: seq<(string, string)>)
    requires forall j :: 0 <= j < |ms| ==> Strip(ms[j].1) != []
    ensures |Lines(ms)| == |ms|
    decreases |ms|
  {
    if ms != [] {
      assert Strip(ms[0].1) != [];
      LinesKeepAll(ms[1..]);
    }
  }

  /** The line a pair contributes: none when its text is blank. */
  function Kept(m: (string, string)): (r: seq<Line>)
    ensures |r| <= 1 && (Strip(m.1) != [] <==> |r| == 1)
    ensures forall i :: 0 <= i < |r| ==> Stripped(r[i].text)
    ensures m.0 != [] && AllDigits(m.0) ==> forall i :: 0 <= i < |r| ==> WellFormed(r[i])
  {
    if Strip(m.1) != [] then [LineOf(m)] else []
  }

  /** The loose reading's extra cleaning: strip whitespace, then quotes. */
  function Unquote(ms: seq<(string, string)>): (r: seq<(string, string)>)
    ensures |r| == |ms|
    ensures forall j :: 0 <= j < |r| ==> r[j] == (ms[j].0, Trim(Strip(ms[j].1), Quote))
  {
    if ms == [] then [] else [(ms[0].0, Trim(Strip(ms[0].1), Quote))] + Unquote(ms[1..])
  }

  /** Both speaker patterns capture a non-empty run of digits as the number. */
  lemma FindAllNumbered(s: string, pat: Pattern)
    requires pat != SilenceEnd
    ensures Numbered(Groups(FindAll(s, pat)))
  {
    var cs := FindAll(s, pat);
    forall j | 0 <= j < |cs| ensures cs[j].group1 != [] && AllDigits(cs[j].group1) {
      FindAllMatches(s, pat, j);
    }
  }

  /** parse_skit. */
  function ParseSkit(text: string): (r: seq<Line>)
    ensures text == [] ==> r == []
    ensures forall i :: 0 <= i < |r| ==> WellFormed(r[i])
  {
    if text == [] then []
    else
      var strict := Groups(FindAll(text, Strict));
      if strict != [] then
        FindAllNumbered(text, Strict);
        LinesWellFormed(strict);
        Lines(strict)
      else
        var loose := Groups(FindAll(text, Loose));
        FindAllNumbered(text, Loose);
        assert Numbered(Unquote(loose));
        LinesWellFormed(Unquote(loose));
        Lines(Unquote(loose))
  }

  // ------------------------------------------------------------ the lines

  /** The comprehension keeps order: it works pair by pair. */
  lemma LinesCons(m: (string, string), rest: seq<(string, string)>)
    ensures Lines([m] + rest) == Kept(m) + Lines(rest)
  {
    assert ([m] + rest)[0] == m && ([m] + rest)[1..] == rest;
  }

  /** The comprehension distributes over concatenation. */
  lemma {:induction false} LinesAppend(a: seq<(string, string)>, b: seq<(string, string)>)
    ensures Lines(a + b) == Lines(a) + Lines(b)
    decreases |a|
  {
    if a == [] {
      assert a + b == b;
    } else {
      var m, a' := a[0], a[1..];
      assert a == [m] + a' && a + b == [m] + (a' + b);
      LinesCons(m, a');
      LinesCons(m, a' + b);
      LinesAppend(a', b);
      AppendAssoc(Kept(m), Lines(a'), Lines(b));
    }
  }

  /** Every line comes from one of the pairs ... */
  lemma {:induction false} LinesSound(ms: seq<(string, string)>)
    ensures forall i :: 0 <= i < |Lines(ms)| ==> exists j :: 0 <= j < |ms| && Lines(ms)[i] == LineOf(ms[j])
    decreases |ms|
  {
    if ms == [] {
      assert Lines(ms) == [];
    } else {
      var first := Kept(ms[0]);
      var rest := Lines(ms[1..]);
      LinesSound(ms[1..]);
      assert Lines(ms) == first + rest;
      forall i | 0 <= i < |Lines(ms)|
        ensures exists j :: 0 <= j < |ms| && Lines(ms)[i] == LineOf(ms[j])
      {
        if i < |first| {
          assert Lines(ms)[i] == LineOf(ms[0]);
        } else {
          assert Lines(ms)[i] == rest[i - |first|];
          var j :| 0 <= j < |ms[1..]| && rest[i - |first|] == LineOf(ms[1..][j]);
          assert ms[1..][j] == ms[j + 1];
        }
      }
    }
  }

  /** ... and every pair whose text is not blank gives a line. */
  lemma {:induction false} LinesComplete(ms: seq<(string, string)>, j: nat)
    requires j < |ms| && Strip(ms[j].1) != []
    ensures LineOf(ms[j]) in Lines(ms)
    decreases j
  {
    if j > 0 {
      LinesComplete(ms[1..], j - 1);
      assert ms[1..][j - 1] == ms[j];
    }
  }

  // ------------------------------------------------------- the two readings

  /** The loose reading runs exactly when the strict pattern matches nowhere. */
  lemma ParseSkitTiers(text: string)
    ensures (exists q :: 0 <= q <= |text| && MatchAt(text, q, Strict).Some?) ==>
      ParseSkit(text) == Lines(Groups(FindAll(text, Strict)))
    ensures (forall q :: 0 <= q <= |text| ==> MatchAt(text, q, Strict).None?) ==>
      ParseSkit(text) == Lines(Unquote(Groups(FindAll(text, Loose))))
  {
    FindAllEmpty(text, Strict);
  }

  /** Once the strict pattern reports a line, it alone decides the result. */
  lemma StrictReading(text: string)
    requires text != [] && Groups(FindAll(text, Strict)) != []
    ensures ParseSkit(text) == Lines(Groups(FindAll(text, Strict)))
  {
  }

  /** A character absent from a string is absent from its strip. */
  lemma TrimKeepsOut(s: string, cls: CharClass, c: char)
    requires c !in s
    ensures c !in Trim(s, cls)
  {
    var a := RunEnd(s, 0, cls);
    var r := Trim(s, cls);
    forall k | 0 <= k < |r| ensures r[k] != c {
      assert r[k] == s[a + k];
    }
  }

  /** The text of a loose capture holds no line break once cleaned: the
      capture starts at a non-space and stops at the end of its line. */
  lemma LooseBodyOneLine(s: string, c: Capture)
    requires c.start <= |s| && LooseAt(s, c.start) == Some(c)
    ensures '\n' !in Strip(Trim(Strip(c.group2), Quote))
  {
    var b := c.group2;
    var colon := LooseBody(s, c);
    if IsSpace(b[0]) {
      assert All(b, Space);
      assert Strip(b) == [];
      assert Trim([], Quote) == [];
    } else {
      LazyOneLine(s, colon, b, c.end);
      CleanKeepsOut(b, '\n');
    }
  }

  /** The loose match's text is the lazy capture after its head. */
  lemma LooseBody(s: string, c: Capture) returns (colon: nat)
    requires c.start <= |s| && LooseAt(s, c.start) == Some(c)
    ensures colon <= |s| && LazyAt(s, colon) == Some((c.group2, c.end))
  {
    colon := HeadAt(s, c.start).value.1;
  }

  /** A lazy capture that starts on a non-space stops at the first line
      break, so it holds none. */
  lemma LazyOneLine(s: string, i: nat, b: string, e: nat)
    requires i <= |s| && LazyAt(s, i) == Some((b, e)) && !IsSpace(b[0])
    ensures '\n' !in b
  {
    forall k | 0 <= k < |b| ensures b[k] != '\n' {
      assert b[k] == s[e - |b| + k];
      if k > 0 {
        assert !IsStop(s, e - |b| + k);
      } else {
        assert In('\n', Space);
      }
    }
  }

  /** The loose reading's cleaning adds no character. */
  lemma CleanKeepsOut(b: string, x: char)
    requires x !in b
    ensures x !in Strip(Trim(Strip(b), Quote))
  {
    TrimKeepsOut(b, Space, x);
    TrimKeepsOut(Strip(b), Quote, x);
    TrimKeepsOut(Trim(Strip(b), Quote), Space, x);
  }

  /** Under the loose reading every line's text sits on one line of the
      script: the capture ends at the first line break. */
  lemma LooseLinesOneLine(text: string)
    requires FindAll(text, Strict) == []
    ensures forall i :: 0 <= i < |ParseSkit(text)| ==> '\n' !in ParseSkit(text)[i].text
  {
    var cs := FindAll(text, Loose);
    var ms := Unquote(Groups(cs));
    if text != [] {
      assert ParseSkit(text) == Lines(ms);
      LinesSound(ms);
      forall j | 0 <= j < |ms| ensures '\n' !in LineOf(ms[j]).text {
        FindAllMatches(text, Loose, j);
        LooseBodyOneLine(text, cs[j]);
      }
    }
  }

  // ------------------------------------------------- the documented format

  /** One line written in the documented format `Speaker N: "text"`, with
      the whitespace the strict pattern tolerates around its parts. */
  datatype Quoted = Quoted(ws1: string, digits: string, ws2: string, ws3: string, body: string)

  predicate Writable(l: Quoted) {
    StrictParts(l.ws1, l.digits, l.ws2, l.ws3, l.body) && Strip(l.body) != []
  }

  function Written(l: Quoted): string {
    StrictText(l.ws1, l.digits, l.ws2, l.ws3, l.body)
  }

  /** A script: the lines joined by line breaks. */
  function Script(ls: seq<Quoted>): string {
    if ls == [] then []
    else if |ls| == 1 then Written(ls[0])
    else Written(ls[0]) + ("\n" + Script(ls[1..]))
  }

  /** What the strict pattern should report for the script's lines. */
  function Spoken(ls: seq<Quoted>): seq<(string, string)> {
    if ls == [] then [] else [(ls[0].digits, ls[0].body)] + Spoken(ls[1..])
  }

  /** What the parser should return for the script's lines. */
  function Heard(ls: seq<Quoted>): seq<Line> {
    if ls == [] then [] else [Line(Label(ls[0].digits), Strip(ls[0].body))] + Heard(ls[1..])
  }

  /** findall's groups of one more capture. */
  lemma GroupsCons(c: Capture, cs: seq<Capture>)
    ensures Groups([c] + cs) == [(c.group1, c.group2)] + Groups(cs)
  {
    assert ([c] + cs)[1..] == cs;
  }

  /** `t` holds, at every position of `s`, the strict pattern's attempt
      there. Stated through MatchAt alone, so that looking up `t` does not
      unfold the pattern. */
  predicate StrictTable(s: string, t: seq<Option<Capture>>) {
    |t| == |s| + 1 && forall q {:trigger MatchAt(s, q, Strict)} :: 0 <= q <= |s| ==> t[q] == MatchAt(s, q, Strict)
  }

  /** A line break is no strict match. */
  lemma NoStrictAtBreak(s: string, t: seq<Option<Capture>>, m: nat)
    requires StrictTable(s, t) && m < |s| && s[m] == '\n'
    ensures t[m].None?
  {
    assert MatchAt(s, m, Strict) == StrictAt(s, m);
  }

  /** A written line is one strict match. */
  lemma WrittenStrict(s: string, off: nat, l: Quoted)
    requires Writable(l) && LiteralAt(s, off, Written(l))
    ensures MatchAt(s, off, Strict) == Some(Capture(l.digits, l.body, off, off + Width(l)))
  {
    StrictComplete(s, off, l.ws1, l.digits, l.ws2, l.ws3, l.body);
  }

  /** ... and so the strict table holds it at its start. */
  lemma WrittenMatches(s: string, t: seq<Option<Capture>>, off: nat, l: Quoted)
    requires StrictTable(s, t) && Writable(l) && LiteralAt(s, off, Written(l))
    ensures t[off] == Some(Capture(l.digits, l.body, off, off + Width(l)))
  {
    WrittenStrict(s, off, l);
  }

  /** A script of several lines is its first line, a line break and the
      rest. */
  lemma ScriptSplit(s: string, off: nat, ls: seq<Quoted>)
    requires |ls| > 1 && LiteralAt(s, off, Script(ls))
    ensures LiteralAt(s, off, Written(ls[0]))
    ensures off + |Written(ls[0])| < |s| && s[off + |Written(ls[0])|] == '\n'
    ensures LiteralAt(s, off + |Written(ls[0])| + 1, Script(ls[1..]))
  {
    var w := Written(ls[0]);
    var m := off + |w|;
    var rest := Script(ls[1..]);
    LiteralSplit(s, off, w, "\n" + rest);
    LiteralSplit(s, m, "\n", rest);
    assert s[m] == s[m..m + 1][0];
  }

  /** The script's lines sit in `s` from `off` to the end, one per line. */
  predicate LinesAt(s: string, off: nat, ls: seq<Quoted>)
    decreases |ls|
  {
    ls != [] && LiteralAt(s, off, Written(ls[0]))
    && if |ls| == 1 then off + |Written(ls[0])| == |s|
       else off + |Written(ls[0])| < |s| && s[off + |Written(ls[0])|] == '\n'
            && LinesAt(s, off + |Written(ls[0])| + 1, ls[1..])
  }

  /** A script that fills the text from `off` to the end has its lines
      there, one per line. */
  lemma {:induction false} ScriptLinesAt(s: string, off: nat, ls: seq<Quoted>)
    requires ls != [] && off + |Script(ls)| == |s| && LiteralAt(s, off, Script(ls))
    ensures LinesAt(s, off, ls)
    decreases |ls|
  {
    if |ls| > 1 {
      ScriptSplit(s, off, ls);
      ScriptLinesAt(s, off + |Written(ls[0])| + 1, ls[1..]);
    }
  }

  /** The length of a written line. */
  function Width(l: Quoted): (n: nat)
    ensures n == |Written(l)|
  {
    |l.ws1| + |l.digits| + |l.ws2| + |l.ws3| + |l.body| + 10
  }

  /** The matches a script's lines give, the first one at `off`. */
  function CapturesOf(off: nat, ls: seq<Quoted>): (cs: seq<Capture>)
    ensures |cs| == |ls|
    decreases |ls|
  {
    if ls == [] then []
    else
      var m := off + Width(ls[0]);
      [Capture(ls[0].digits, ls[0].body, off, m)] + CapturesOf(m + 1, ls[1..])
  }

  /** The attempts table at the script's first line: its capture at its
      start, then either the end of the text or no match at the line break
      after it. */
  ghost predicate FirstLine(t: seq<Option<Capture>>, off: nat, ls: seq<Quoted>) {
    ls != [] && off + Width(ls[0]) < |t|
    && t[off] == Some(Capture(ls[0].digits, ls[0].body, off, off + Width(ls[0])))
    && if |ls| == 1 then off + Width(ls[0]) == |t| - 1 else t[off + Width(ls[0])].None?
  }

  /** The attempts table, read line by line. */
  ghost predicate LineFacts(t: seq<Option<Capture>>, off: nat, ls: seq<Quoted>)
    decreases |ls|
  {
    FirstLine(t, off, ls) && (|ls| > 1 ==> LineFacts(t, off + Width(ls[0]) + 1, ls[1..]))
  }

  /** The findall loop reports exactly the lines' captures. */
  lemma {:induction false} ScanLines(t: seq<Option<Capture>>, off: nat, ls: seq<Quoted>)
    requires Consistent(t) && LineFacts(t, off, ls)
    ensures Scan(t, off) == CapturesOf(off, ls)
    decreases |ls|
  {
    var e := off + Width(ls[0]);
    ScanTake(t, off, Capture(ls[0].digits, ls[0].body, off, e));
    if |ls| > 1 {
      ScanSkip(t, e);
      ScanLines(t, e + 1, ls[1..]);
    }
  }

  /** Every line of the script is writable, stated line by line. */
  predicate AllWritable(ls: seq<Quoted>)
    decreases |ls|
  {
    ls == [] || (Writable(ls[0]) && AllWritable(ls[1..]))
  }

  lemma {:induction false} WritableEach(ls: seq<Quoted>)
    requires forall i :: 0 <= i < |ls| ==> Writable(ls[i])
    ensures AllWritable(ls)
    decreases |ls|
  {
    if ls != [] {
      assert Writable(ls[0]);
      assert forall i :: 0 <= i < |ls[1..]| ==> ls[1..][i] == ls[i + 1];
      WritableEach(ls[1..]);
    }
  }

  /** What LinesAt says about the first line and the rest. */
  lemma LinesAtHead(s: string, off: nat, ls: seq<Quoted>)
    requires LinesAt(s, off, ls)
    ensures LiteralAt(s, off, Written(ls[0]))
    ensures |ls| == 1 ==> off + |Written(ls[0])| == |s|
    ensures |ls| > 1 ==> (off + |Written(ls[0])| < |s| && s[off + |Written(ls[0])|] == '\n'
      && LinesAt(s, off + |Written(ls[0])| + 1, ls[1..]))
  {
  }

  /** What the scan proof needs about the text: `t` is its strict table,
      and the script's lines sit in it from `off` on. */
  predicate Ready(s: string, t: seq<Option<Capture>>, off: nat, ls: seq<Quoted>) {
    StrictTable(s, t) && AllWritable(ls) && LinesAt(s, off, ls)
  }

  /** The first line of a script in the table, and what follows it. */
  lemma HeadFacts(s: string, t: seq<Option<Capture>>, off: nat, ls: seq<Quoted>)
    requires Ready(s, t, off, ls)
    ensures |t| == |s| + 1 && FirstLine(t, off, ls)
    ensures |ls| > 1 ==> Ready(s, t, off + Width(ls[0]) + 1, ls[1..])
  {
    LinesAtHead(s, off, ls);
    WrittenMatches(s, t, off, ls[0]);
    if |ls| > 1 {
      NoStrictAtBreak(s, t, off + Width(ls[0]));
    }
  }

  /** A script's lines, read in the strict pattern's table. */
  lemma {:induction false} LinesTable(s: string, t: seq<Option<Capture>>, off: nat, ls: seq<Quoted>)
    requires Ready(s, t, off, ls)
    ensures |t| == |s| + 1 && LineFacts(t, off, ls)
    decreases |ls|
  {
    HeadFacts(s, t, off, ls);
    if |ls| > 1 {
      LinesTable(s, t, off + Width(ls[0]) + 1, ls[1..]);
    }
  }

  /** The groups of those captures are the script's numbers and bodies. */
  lemma {:induction false} CapturesSpoken(off: nat, ls: seq<Quoted>)
    ensures Groups(CapturesOf(off, ls)) == Spoken(ls)
    decreases |ls|
  {
    if ls != [] {
      var m := off + |Written(ls[0])|;
      CapturesSpoken(m + 1, ls[1..]);
      GroupsCons(Capture(ls[0].digits, ls[0].body, off, m), CapturesOf(m + 1, ls[1..]));
    }
  }

  /** The findall loop, started where a script's lines sit at the end of the
      text, reports exactly the script's lines. */
  lemma ScanScript(s: string, off: nat, ls: seq<Quoted>)
    requires forall i :: 0 <= i < |ls| ==> Writable(ls[i])
    requires LinesAt(s, off, ls)
    ensures Groups(Scan(Attempts(s, Strict), off)) == Spoken(ls)
  {
    WritableEach(ls);
    var t := Attempts(s, Strict);
    assert Ready(s, t, off, ls);
    LinesTable(s, t, off, ls);
    ScanLines(t, off, ls);
    CapturesSpoken(off, ls);
  }

  /** The comprehension keeps every line of a script: each body is
      non-blank. */
  lemma {:induction false} LinesSpoken(ls: seq<Quoted>)
    requires forall i :: 0 <= i < |ls| ==> Writable(ls[i])
    ensures Lines(Spoken(ls)) == Heard(ls)
    decreases |ls|
  {
    if ls != [] {
      assert Writable(ls[0]);
      assert Spoken(ls)[1..] == Spoken(ls[1..]);
      LinesSpoken(ls[1..]);
    }
  }

  /** findall with the strict pattern over a written script reports its
      lines. */
  lemma ScriptStrict(ls: seq<Quoted>)
    requires ls != [] && forall i :: 0 <= i < |ls| ==> Writable(ls[i])
    ensures Script(ls) != [] && Spoken(ls) != []
    ensures Groups(FindAll(Script(ls), Strict)) == Spoken(ls)
  {
    var s := Script(ls);
    assert |Written(ls[0])| >= 10;
    assert s[0..|s|] == s;
    ScriptLinesAt(s, 0, ls);
    ScanScript(s, 0, ls);
  }

  /** Round trip: a script written in the documented format parses back to
      its speakers and their stripped texts, in order. */
  lemma ParseScript(ls: seq<Quoted>)
    requires forall i :: 0 <= i < |ls| ==> Writable(ls[i])
    ensures ParseSkit(Script(ls)) == Heard(ls)
  {
    if ls != [] {
      ParseWrittenScript(ls);
    }
  }

  /** The round trip for a script of at least one line: the strict reading
      decides, and it yields the script's lines. */
  lemma ParseWrittenScript(ls: seq<Quoted>)
    requires ls != [] && forall i :: 0 <= i < |ls| ==> Writable(ls[i])
    ensures ParseSkit(Script(ls)) == Heard(ls)
  {
    calc {
      ParseSkit(Script(ls));
    == { ScriptStrict(ls); StrictReading(Script(ls)); }
      Lines(Spoken(ls));
    == { LinesSpoken(ls); }
      Heard(ls);
    }
  }

  const Hello := Quoted(" ", "1", "", " ", "Hello there")
  const Hi := Quoted(" ", "2", "", " ", "Hi!")

  /** The example script's lines, written out. */
  lemma HelloWritten()
    ensures Written(Hello) == "Speaker 1: \"Hello there\""
  {
    assert LabelText(" ", "1") == " 1";
    assert ColonText("") == ":";
    assert QuotedText(" ", "Hello there") == " \"Hello there\"";
    assert "Speaker" + (" 1" + (":" + " \"Hello there\"")) == "Speaker 1: \"Hello there\"";
  }

  lemma HiWritten()
    ensures Written(Hi) == "Speaker 2: \"Hi!\""
  {
    assert LabelText(" ", "2") == " 2";
    assert ColonText("") == ":";
    assert QuotedText(" ", "Hi!") == " \"Hi!\"";
    assert "Speaker" + (" 2" + (":" + " \"Hi!\"")) == "Speaker 2: \"Hi!\"";
  }

  lemma HelloHiWritten()
    ensures Script([Hello, Hi]) == "Speaker 1: \"Hello there\"\nSpeaker 2: \"Hi!\""
  {
    HelloWritten();
    HiWritten();
    assert [Hello, Hi][1..] == [Hi];
    assert Script([Hello, Hi]) == Written(Hello) + ("\n" + Written(Hi));
  }

  /** Both example lines are writable, and their bodies are already
      stripped. */
  lemma HelloWritable()
    ensures Writable(Hello) && Strip(Hello.body) == Hello.body
  {
    assert All(" ", Space) && All("1", Digit);
    assert All("Hello there", NonQuote);
    assert !In('H', Space) && !In('e', Space);
    TrimStable("Hello there", Space);
  }

  lemma HiWritable()
    ensures Writable(Hi) && Strip(Hi.body) == Hi.body
  {
    assert All(" ", Space) && All("2", Digit);
    assert All("Hi!", NonQuote);
    assert !In('H', Space) && !In('!', Space);
    TrimStable("Hi!", Space);
  }

  /** What the parser should return for the example script. */
  lemma HelloHiHeard()
    requires Strip(Hello.body) == Hello.body && Strip(Hi.body) == Hi.body
    ensures Heard([Hello, Hi]) == [Line("Speaker 1", "Hello there"), Line("Speaker 2", "Hi!")]
  {
    assert [Hello, Hi][1..] == [Hi];
    assert [Hi][1..] == [];
    assert Heard([Hi]) == [Line(Label("2"), Hi.body)];
    assert Heard([Hello, Hi]) == [Line(Label("1"), Hello.body), Line(Label("2"), Hi.body)];
    assert Label("1") == "Speaker 1" && Label("2") == "Speaker 2";
  }

  /** The two-line script from the documentation parses to its two lines. */
  lemma TwoLineScript()
    ensures ParseSkit("Speaker 1: \"Hello there\"\nSpeaker 2: \"Hi!\"")
      == [Line("Speaker 1", "Hello there"), Line("Speaker 2", "Hi!")]
  {
    HelloHiWritten();
    HelloWritable();
    HiWritable();
    HelloHiHeard();
    ParseScript([Hello, Hi]);
  }
}
