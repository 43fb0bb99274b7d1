/** Character classes and the string operations of Python that the
    application relies on: str.strip, str.split(","), `\s`/`\d` runs,
    decimal numerals and float(). */
module Text {
  import opened Wrappers

  /** Python's str.isspace(): the characters `\s` matches in a str pattern
      and the ones str.strip() removes. */
  const SpaceChars: set<char> := {
    '\t', '\n', '\U{B}', '\U{C}', '\r', '\U{1C}', '\U{1D}', '\U{1E}', '\U{1F}', ' ',
    '\U{85}', '\U{A0}', '\U{1680}', '\U{2000}', '\U{2001}', '\U{2002}', '\U{2003}',
    '\U{2004}', '\U{2005}', '\U{2006}', '\U{2007}', '\U{2008}', '\U{2009}',
    '\U{200A}', '\U{2028}', '\U{2029}', '\U{202F}', '\U{205F}', '\U{3000}'
  }

  /** The character classes the patterns and the strip calls use:
      `\s`, `\d` (restricted to the ASCII digits), `[^"]` and the
      characters of the argument of `.strip('"\'""')`. */
  datatype CharClass = Space | Digit | NonQuote | Quote

  predicate In(c: char, cls: CharClass) {
    match cls
    case Space => c in SpaceChars
    case Digit => '0' <= c <= '9'
    case NonQuote => c != '"'
    case Quote => c == '"' || c == '\''
  }

  /** Concatenation regrouped, stated once so that callers need not
      reach it through extensionality. */
  lemma AppendAssoc<T>(x: seq<T>, y: seq<T>, z: seq<T>)
    ensures (x + y) + z == x + (y + z)
  {
  }

  predicate IsSpace(c: char) {
    In(c, Space)
  }

  predicate IsDigit(c: char) {
    In(c, Digit)
  }

  predicate AllDigits(s: string) {
    All(s, Digit)
  }

  predicate All(s: string, cls: CharClass) {
    forall i {:trigger In(s[i], cls)} :: 0 <= i < |s| ==> In(s[i], cls)
  }

  /** End of the longest run of `inClass` characters starting at `i`. */
  function RunEnd(s: string, i: nat, cls: CharClass): (e: nat)
    requires i <= |s|
    ensures i <= e <= |s|
    ensures forall k {:trigger In(s[k], cls)} :: i <= k < e ==> In(s[k], cls)
    ensures e == |s| || !In(s[e], cls)
    decreases |s| - i
  {
    if i < |s| && In(s[i], cls) then RunEnd(s, i + 1, cls) else i
  }

  /** A run that some other reasoning already delimits is the one RunEnd finds. */
  lemma RunEndIs(s: string, i: nat, j: nat, cls: CharClass)
    requires i <= j <= |s|
    requires forall k {:trigger In(s[k], cls)} :: i <= k < j ==> In(s[k], cls)
    requires j == |s| || !In(s[j], cls)
    ensures RunEnd(s, i, cls) == j
    decreases j - i
  {
    if i < j {
      RunEndIs(s, i + 1, j, cls);
    }
  }

  /** `lit` occurs in `s` at position p. */
  predicate LiteralAt(s: string, p: nat, lit: string) {
    p + |lit| <= |s| && s[p..p + |lit|] == lit
  }

  /** A run of class characters that sits in the text and is not followed by
      one is the run RunEnd finds. */
  lemma RunOver(s: string, i: nat, run: string, cls: CharClass)
    requires LiteralAt(s, i, run) && All(run, cls)
    requires i + |run| == |s| || !In(s[i + |run|], cls)
    ensures RunEnd(s, i, cls) == i + |run|
  {
    forall k | i <= k < i + |run| ensures In(s[k], cls) {
      assert s[i..i + |run|][k - i] == run[k - i];
    }
    RunEndIs(s, i, i + |run|, cls);
  }

  /** A run RunEnd measured is a string of class characters. */
  lemma RunIsAll(s: string, i: nat, cls: CharClass)
    requires i <= |s|
    ensures All(s[i..RunEnd(s, i, cls)], cls)
  {
    var e := RunEnd(s, i, cls);
    forall k | 0 <= k < e - i ensures In(s[i..e][k], cls) {
      assert s[i..e][k] == s[i + k];
    }
  }

  // ---------------------------------------------------------------- strip

  function TrimRight(s: string, cls: CharClass): (r: string)
    ensures |r| <= |s| && r == s[..|r|]
    ensures forall k {:trigger In(s[k], cls)} :: |r| <= k < |s| ==> In(s[k], cls)
    ensures r == [] || !In(r[|r| - 1], cls)
  {
    if s != [] && In(s[|s| - 1], cls) then TrimRight(s[..|s| - 1], cls) else s
  }

  /** Python's `s.strip(chars)`: the middle of `s` left after removing every
      leading character of the class (the run RunEnd(s, 0, cls) measures)
      and every trailing one. */
  function Trim(s: string, cls: CharClass): (r: string)
    ensures r == [] || (!In(r[0], cls) && !In(r[|r| - 1], cls))
    ensures RunEnd(s, 0, cls) + |r| <= |s|
    ensures r == s[RunEnd(s, 0, cls)..RunEnd(s, 0, cls) + |r|]
    ensures forall k {:trigger In(s[k], cls)} :: RunEnd(s, 0, cls) + |r| <= k < |s| ==> In(s[k], cls)
    ensures r == [] <==> All(s, cls)
  {
    var i := RunEnd(s, 0, cls);
    TrimRight(s[i..], cls)
  }

  /** str.strip() without arguments. */
  function Strip(s: string): (r: string)
    ensures r == [] || (!IsSpace(r[0]) && !IsSpace(r[|r| - 1]))
    ensures r == [] <==> All(s, Space)
  {
    Trim(s, Space)
  }

  /** Stripping is idempotent: a stripped string is its own strip. */
  lemma TrimStable(s: string, cls: CharClass)
    requires s == [] || (!In(s[0], cls) && !In(s[|s| - 1], cls))
    ensures Trim(s, cls) == s
  {
  }

  /** A character outside the class does not occur in a run of the class. */
  lemma AllExcludes(s: string, cls: CharClass, c: char)
    requires All(s, cls) && !In(c, cls)
    ensures c !in s
  {
    forall i | 0 <= i < |s| ensures s[i] != c {
      assert In(s[i], cls);
    }
  }

  /** Stripping removes exactly the blank padding around a stripped text. */
  lemma StripPadded(w1: string, d: string, w2: string)
    requires All(w1, Space) && All(w2, Space)
    requires d != [] && !IsSpace(d[0]) && !IsSpace(d[|d| - 1])
    ensures Strip(w1 + d + w2) == d
  {
    var s := w1 + d + w2;
    assert s[..|w1|] == w1 && s[|w1|] == d[0];
    RunOver(s, 0, w1, Space);
    var r := Strip(s);
    assert !In(s[|w1|], Space);
    assert r != [];
    assert r == s[|w1|..|w1| + |d|];
  }

  // ---------------------------------------------------------------- split

  /** Index of the first `c` in `s`, or |s| when there is none. */
  function IndexOf(s: string, c: char): (k: nat)
    ensures k <= |s|
    ensures forall j :: 0 <= j < k ==> s[j] != c
    ensures k < |s| ==> s[k] == c
  {
    if s == [] then 0 else if s[0] == c then 0 else 1 + IndexOf(s[1..], c)
  }

  /** Python's `s.split(sep)` for a one-character separator: the pieces
      between separators, empty ones included. */
  function SplitOn(s: string, sep: char): (r: seq<string>)
    ensures |r| >= 1
    ensures forall i :: 0 <= i < |r| ==> sep !in r[i]
    decreases |s|
  {
    var k := IndexOf(s, sep);
    if k == |s| then [s] else [s[..k]] + SplitOn(s[k + 1..], sep)
  }

  /** Python's `sep.join(parts)`. */
  function JoinOn(parts: seq<string>, sep: char): string {
    if parts == [] then []
    else if |parts| == 1 then parts[0]
    else parts[0] + [sep] + JoinOn(parts[1..], sep)
  }

  /** Splitting loses nothing: joining the pieces gives the input back. */
  lemma {:induction false} JoinSplit(s: string, sep: char)
    ensures JoinOn(SplitOn(s, sep), sep) == s
    decreases |s|
  {
    var k := IndexOf(s, sep);
    if k < |s| {
      var rest := SplitOn(s[k + 1..], sep);
      JoinSplit(s[k + 1..], sep);
      assert SplitOn(s, sep) == [s[..k]] + rest;
      assert JoinOn(SplitOn(s, sep), sep) == s[..k] + [sep] + JoinOn(rest, sep);
      assert s == s[..k] + [sep] + s[k + 1..];
    }
  }

  /** And splitting a join of separator-free pieces gives the pieces back. */
  lemma {:induction false} SplitJoin(parts: seq<string>, sep: char)
    requires |parts| >= 1
    requires forall i :: 0 <= i < |parts| ==> sep !in parts[i]
    ensures SplitOn(JoinOn(parts, sep), sep) == parts
    decreases |parts|
  {
    var p := parts[0];
    if |parts| == 1 {
      IndexOfAbsent(p, sep);
    } else {
      var rest := JoinOn(parts[1..], sep);
      assert JoinOn(parts, sep) == p + [sep] + rest;
      SplitFirst(p, rest, sep);
      assert forall i :: 0 <= i < |parts[1..]| ==> parts[1..][i] == parts[i + 1];
      SplitJoin(parts[1..], sep);
      assert parts == [p] + parts[1..];
    }
  }

  /** Splitting stops at the first separator. */
  lemma SplitFirst(p: string, rest: string, sep: char)
    requires sep !in p
    ensures SplitOn(p + [sep] + rest, sep) == [p] + SplitOn(rest, sep)
  {
    var s := p + [sep] + rest;
    IndexOfAfter(p, rest, sep);
    assert s[..|p|] == p;
    assert s[|p| + 1..] == rest;
  }

  lemma {:induction false} IndexOfAbsent(p: string, c: char)
    requires c !in p
    ensures IndexOf(p, c) == |p|
  {
    if p != [] {
      assert p[0] != c;
      assert c !in p[1..];
      IndexOfAbsent(p[1..], c);
    }
  }

  lemma {:induction false} IndexOfAfter(p: string, rest: string, c: char)
    requires c !in p
    ensures IndexOf(p + [c] + rest, c) == |p|
  {
    var s := p + [c] + rest;
    if p == [] {
      assert s[0] == c;
    } else {
      assert s[0] == p[0] && p[0] != c;
      assert s[1..] == p[1..] + [c] + rest;
      assert c !in p[1..];
      IndexOfAfter(p[1..], rest, c);
    }
  }

  // -------------------------------------------------------------- numerals

  function DigitValue(c: char): nat
    requires IsDigit(c)
  {
    c as int - '0' as int
  }

  function DigitChar(n: nat): (c: char)
    requires n < 10
    ensures IsDigit(c) && DigitValue(c) == n
  {
    ('0' as int + n) as char
  }

  /** The number a string of decimal digits denotes (leading zeros allowed). */
  function NatValue(d: string): nat
    requires AllDigits(d)
  {
    if d == [] then 0 else NatValue(d[..|d| - 1]) * 10 + DigitValue(d[|d| - 1])
  }

  function Pow10(k: nat): (r: nat)
    ensures r > 0
  {
    if k == 0 then 1 else 10 * Pow10(k - 1)
  }

  /** The value of the digits after a decimal point. */
  function FractionValue(d: string): (r: real)
    requires AllDigits(d)
    ensures 0.0 <= r
  {
    NatValue(d) as real / Pow10(|d|) as real
  }

  /** The decimal numeral of `n` without leading zeros, as Python's str(n). */
  function Decimal(n: nat): (r: string)
    ensures r != [] && AllDigits(r)
    ensures NatValue(r) == n
    ensures |r| > 1 ==> r[0] != '0'
  {
    if n < 10 then [DigitChar(n)]
    else
      var d := Decimal(n / 10);
      var r := d + [DigitChar(n % 10)];
      assert r[..|r| - 1] == d;
      r
  }

  /** Leading zeros do not change the value of a numeral. */
  lemma {:induction false} LeadingZero(d: string)
    requires AllDigits(d)
    ensures AllDigits("0" + d) && NatValue("0" + d) == NatValue(d)
    decreases |d|
  {
    var z := "0" + d;
    if d != [] {
      assert z[..|z| - 1] == "0" + d[..|d| - 1];
      LeadingZero(d[..|d| - 1]);
    }
  }

  /** Python's `f"{n:02d}"`: at least two digits, zero-padded. */
  function TwoDigits(n: nat): (r: string)
    ensures |r| >= 2 && AllDigits(r)
    ensures NatValue(r) == n
  {
    if n < 10 then (LeadingZero(Decimal(n)); "0" + Decimal(n)) else Decimal(n)
  }

  /** A decimal literal without sign: `d+`, `d+.`, `d+.d+` or `.d+`. */
  function ParseUnsigned(s: string): (r: Option<real>)
    ensures r.Some? ==> r.value >= 0.0
    ensures r.Some? ==> s != [] && (IsDigit(s[0]) || s[0] == '.')
  {
    var i := RunEnd(s, 0, Digit);
    if i == |s| then
      if i > 0 then Some(NatValue(s) as real) else None
    else if s[i] != '.' then None
    else
      var j := RunEnd(s, i + 1, Digit);
      if j < |s| || (i == 0 && j == i + 1) then None
      else Some(NatValue(s[..i]) as real + FractionValue(s[i + 1..]))
  }

  /** Python's float() on the decimal literals the application feeds it,
      with an optional sign; anything else is the ValueError case. */
  function ParseFloat(s: string): (r: Option<real>)
    ensures s == [] ==> r.None?
    ensures r.Some? ==> s[0] == '+' || s[0] == '-' || s[0] == '.' || IsDigit(s[0])
    ensures r.Some? ==> (s[0] == '-' ==> r.value <= 0.0) && (s[0] != '-' ==> r.value >= 0.0)
  {
    if s != [] && (s[0] == '+' || s[0] == '-') then
      match ParseUnsigned(s[1..])
      case None => None
      case Some(v) => Some(if s[0] == '-' then -v else v)
    else ParseUnsigned(s)
  }

  /** A sign in front of an unsigned literal: '-' negates what float()
      reads, '+' changes nothing. */
  lemma ParseSigned(u: string)
    requires u == [] || (u[0] != '+' && u[0] != '-')
    ensures ParseFloat("-" + u) == if ParseFloat(u).Some? then Some(-ParseFloat(u).value) else None
    ensures ParseFloat("+" + u) == ParseFloat(u)
  {
    assert ("-" + u)[1..] == u && ("+" + u)[1..] == u;
  }

  /** float(str(n)) == n. */
  lemma ParseDecimal(n: nat)
    ensures ParseFloat(Decimal(n)) == Some(n as real)
  {
    var d := Decimal(n);
    RunEndIs(d, 0, |d|, Digit);
  }

  lemma UnsignedPoint(s: string, i: nat)
    requires 0 < i < |s| && s[i] == '.'
    requires RunEnd(s, 0, Digit) == i && RunEnd(s, i + 1, Digit) == |s|
    ensures ParseUnsigned(s) == Some(NatValue(s[..i]) as real + FractionValue(s[i + 1..]))
  {
  }

  /** float("<int>.<frac>") is the integer part plus the fraction. */
  lemma ParseDecimalPoint(s: string, i: nat)
    requires 0 < i < |s| && s[i] == '.' && All(s[..i], Digit) && All(s[i + 1..], Digit)
    ensures ParseFloat(s) == Some(NatValue(s[..i]) as real + FractionValue(s[i + 1..]))
  {
    RunOver(s, 0, s[..i], Digit);
    RunOver(s, i + 1, s[i + 1..], Digit);
    UnsignedPoint(s, i);
    assert In(s[..i][0], Digit);
  }
}
