/** The manual split field: the seconds the user types, separated by commas,
    turned into split times. */
module Timestamps {
  import opened Wrappers
  import opened Text

  /** `[t.strip() for t in parts if t.strip()]`: the stripped pieces that
      are not blank, in their order. */
  function Entries(parts: seq<string>): (r: seq<string>)
    ensures |r| <= |parts|
    ensures forall i :: 0 <= i < |r| ==> r[i] != [] && !IsSpace(r[i][0]) && !IsSpace(r[i][|r[i]| - 1])
  {
    if parts == [] then [] else Entry(parts[0]) + Entries(parts[1..])
  }

  /** What one piece contributes: its strip, unless that is empty. */
  function Entry(part: string): (r: seq<string>)
    ensures |r| <= 1
    ensures r == [] <==> All(part, Space)
    ensures r != [] ==> r[0] == Strip(part) && r[0] != [] && !IsSpace(r[0][0]) && !IsSpace(r[0][|r[0]| - 1])
  {
    if Strip(part) == [] then [] else [Strip(part)]
  }

  /** `float(t)` on each entry in turn: either every value, or the first
      entry float() rejects (the ValueError). */
  function Floats(es: seq<string>): (r: Result<seq<real>, string>)
    ensures r.Ok? ==> |r.value| == |es| && forall i :: 0 <= i < |es| ==> ParseFloat(es[i]) == Some(r.value[i])
    ensures r.Err? ==> exists k :: (0 <= k < |es| && es[k] == r.error && ParseFloat(es[k]).None?
      && forall j :: 0 <= j < k ==> ParseFloat(es[j]).Some?)
  {
    if es == [] then Ok([])
    else match ParseFloat(es[0])
      case None => Err(es[0])
      case Some(v) =>
        match Floats(es[1..])
        case Err(e) => Err(e)
        case Ok(vs) => Ok([v] + vs)
  }

  /** The split times of the manual field, or the entry float() rejects. A
      leading 0 (the start of the recording) is dropped. */
  function ManualSplits(field: string): (r: Result<seq<real>, string>)
    ensures var es := Entries(SplitOn(field, ','));
      r.Err? ==> r.error in es && ParseFloat(r.error).None?
    ensures var es := Entries(SplitOn(field, ','));
      r.Ok? ==> ((|r.value| == |es| || |r.value| == |es| - 1)
                 && (|r.value| < |es| <==> es != [] && ParseFloat(es[0]) == Some(0.0)))
    ensures var es := Entries(SplitOn(field, ','));
      r.Ok? && |r.value| == |es| ==> forall i :: 0 <= i < |es| ==> ParseFloat(es[i]) == Some(r.value[i])
    ensures var es := Entries(SplitOn(field, ','));
      r.Ok? && |r.value| < |es| ==> forall i :: 0 <= i < |r.value| ==> ParseFloat(es[i + 1]) == Some(r.value[i])
  {
    TimesOf(Entries(SplitOn(field, ',')))
  }

  /** float() on each entry, then a leading 0 dropped: the rejected entry,
      or one time per entry read in order, less the first when it reads
      as 0. */
  function TimesOf(es: seq<string>): (r: Result<seq<real>, string>)
    ensures r.Err? ==> r.error in es && ParseFloat(r.error).None?
    ensures r.Ok? ==> ((|r.value| == |es| || |r.value| == |es| - 1)
                       && (|r.value| < |es| <==> es != [] && ParseFloat(es[0]) == Some(0.0)))
    ensures r.Ok? && |r.value| == |es| ==> forall i :: 0 <= i < |es| ==> ParseFloat(es[i]) == Some(r.value[i])
    ensures r.Ok? && |r.value| < |es| ==> forall i :: 0 <= i < |r.value| ==> ParseFloat(es[i + 1]) == Some(r.value[i])
  {
    match Floats(es)
    case Err(e) => Err(e)
    case Ok(ts) =>
      if ts != [] && ts[0] == 0.0 then
        assert forall i :: 0 <= i < |ts| - 1 ==> ParseFloat(es[i + 1]) == Some(ts[1..][i]);
        Ok(ts[1..])
      else Ok(ts)
  }

  // ------------------------------------------------------------ properties

  /** Entries keeps the order of the pieces: it works piece by piece. */
  lemma {:induction false} EntriesAppend(a: seq<string>, b: seq<string>)
    ensures Entries(a + b) == Entries(a) + Entries(b)
    decreases |a|
  {
    if a != [] {
      assert (a + b)[0] == a[0];
      assert (a + b)[1..] == a[1..] + b;
      EntriesAppend(a[1..], b);
      assert Entries(a + b) == Entry(a[0]) + Entries(a[1..] + b);
    } else {
      assert a + b == b;
    }
  }

  /** A blank piece (as between two commas in a row) contributes nothing. */
  lemma {:induction false} BlankSkipped(a: seq<string>, blank: string, b: seq<string>)
    requires All(blank, Space)
    ensures Entries(a + [blank] + b) == Entries(a) + Entries(b)
  {
    var ab := a + [blank];
    EntriesAppend(ab, b);
    EntriesAppend(a, [blank]);
    BlankEntry(blank);
  }

  /** A blank piece alone gives no entry. */
  lemma BlankEntry(blank: string)
    requires All(blank, Space)
    ensures Entries([blank]) == []
  {
    assert Entry(blank) == [];
    assert [blank][1..] == [];
  }

  /** Pieces that are non-blank once stripped all survive, stripped. */
  lemma {:induction false} EntriesAllKept(parts: seq<string>)
    requires forall i :: 0 <= i < |parts| ==> Strip(parts[i]) != []
    ensures |Entries(parts)| == |parts|
    ensures forall i :: 0 <= i < |parts| ==> Entries(parts)[i] == Strip(parts[i])
  {
    if parts != [] {
      var rest := Entries(parts[1..]);
      EntriesAllKept(parts[1..]);
      assert Entry(parts[0]) == [Strip(parts[0])];
      assert Entries(parts) == [Strip(parts[0])] + rest;
      forall i | 1 <= i < |parts| ensures Entries(parts)[i] == Strip(parts[i]) {
        assert Entries(parts)[i] == rest[i - 1] && parts[1..][i - 1] == parts[i];
      }
    }
  }

  /** Floats fails only when some entry is not a number: when every entry
      parses, the values come back in order. */
  lemma {:induction false} FloatsAllParse(es: seq<string>, vs: seq<real>)
    requires |vs| == |es|
    requires forall i :: 0 <= i < |es| ==> ParseFloat(es[i]) == Some(vs[i])
    ensures Floats(es) == Ok(vs)
  {
    if es != [] {
      FloatsAllParse(es[1..], vs[1..]);
      assert vs == [vs[0]] + vs[1..];
    }
  }

  /** A field made of comma-separated pieces, each a number padded with
      blanks, gives those numbers back; the first one is dropped when it
      is 0. */
  lemma ManualSplitsOf(parts: seq<string>, vs: seq<real>)
    requires |parts| >= 1 && |vs| == |parts|
    requires forall i :: 0 <= i < |parts| ==> ',' !in parts[i]
    requires forall i :: 0 <= i < |parts| ==> Strip(parts[i]) != [] && ParseFloat(Strip(parts[i])) == Some(vs[i])
    ensures ManualSplits(JoinOn(parts, ',')) == Ok(if vs[0] == 0.0 then vs[1..] else vs)
  {
    SplitJoin(parts, ',');
    EntriesAllKept(parts);
    FloatsAllParse(Entries(parts), vs);
  }

  /** When some entry is not a number the result is that entry's error, and
      only then. */
  lemma ManualSplitsFails(field: string)
    ensures ManualSplits(field).Err? <==>
      exists k :: 0 <= k < |Entries(SplitOn(field, ','))| && ParseFloat(Entries(SplitOn(field, ','))[k]).None?
  {
    var es := Entries(SplitOn(field, ','));
    if forall k :: 0 <= k < |es| ==> ParseFloat(es[k]).Some? {
      FloatsAllParse(es, seq(|es|, k requires 0 <= k < |es| => ParseFloat(es[k]).value));
    }
  }

  /** A field of blanks only gives no split times at all. */
  lemma BlankField(field: string)
    requires All(field, Space)
    ensures ManualSplits(field) == Ok([])
  {
    AllExcludes(field, Space, ',');
    IndexOfAbsent(field, ',');
    assert SplitOn(field, ',') == [field];
  }

  /** The decimal forms of whole seconds, written back as the field. */
  function Decimals(ns: seq<nat>): (r: seq<string>)
    ensures |r| == |ns|
    ensures forall i :: 0 <= i < |ns| ==> r[i] == Decimal(ns[i])
  {
    seq(|ns|, i requires 0 <= i < |ns| => Decimal(ns[i]))
  }

  /** Whole seconds as reals. */
  function Seconds(ns: seq<nat>): (r: seq<real>)
    ensures |r| == |ns|
    ensures forall i :: 0 <= i < |ns| ==> r[i] == ns[i] as real
  {
    seq(|ns|, i requires 0 <= i < |ns| => ns[i] as real)
  }

  /** Each whole number written in decimal is a piece of its own: no comma,
      nothing to strip, and float() reads the number back. */
  lemma DecimalPiece(n: nat)
    ensures ',' !in Decimal(n) && Strip(Decimal(n)) == Decimal(n)
    ensures ParseFloat(Strip(Decimal(n))) == Some(n as real)
  {
    var d := Decimal(n);
    assert In(d[0], Digit) && In(d[|d| - 1], Digit);
    TrimStable(d, Space);
    ParseDecimal(n);
    AllExcludes(d, Digit, ',');
  }

  /** Round trip: whole seconds written as "a,b,c" are read back, without a
      leading 0. */
  lemma WholeSecondsRoundTrip(ns: seq<nat>)
    requires |ns| >= 1
    ensures ManualSplits(JoinOn(Decimals(ns), ',')) == Ok(if ns[0] == 0 then Seconds(ns)[1..] else Seconds(ns))
  {
    var parts := Decimals(ns);
    forall i | 0 <= i < |parts|
      ensures ',' !in parts[i] && Strip(parts[i]) != [] && ParseFloat(Strip(parts[i])) == Some(Seconds(ns)[i])
    {
      DecimalPiece(ns[i]);
    }
    ManualSplitsOf(parts, Seconds(ns));
  }

  // -------------------------------------------------- the example field

  /** "i.f" reads back as i + f/10. */
  lemma Tenths(whole: string, tenth: char)
    requires whole != [] && AllDigits(whole) && IsDigit(tenth)
    ensures ParseFloat(whole + "." + [tenth]) == Some(NatValue(whole) as real + DigitValue(tenth) as real / 10.0)
  {
    var d := whole + "." + [tenth];
    TenthsSplit(whole, tenth);
    ParseDecimalPoint(d, |whole|);
    OneTenth(tenth);
  }

  /** The pieces of "i.f": the digits before the point and the one after. */
  lemma TenthsSplit(whole: string, tenth: char)
    requires AllDigits(whole) && IsDigit(tenth)
    ensures var d := whole + "." + [tenth];
      |whole| < |d| && d[|whole|] == '.' && d[..|whole|] == whole && d[|whole| + 1..] == [tenth]
      && All(d[..|whole|], Digit) && All(d[|whole| + 1..], Digit)
  {
    var d := whole + "." + [tenth];
    assert d[..|whole|] == whole && d[|whole| + 1..] == [tenth];
    assert In([tenth][0], Digit);
  }

  /** A single fraction digit is worth a tenth of its value. */
  lemma OneTenth(tenth: char)
    requires IsDigit(tenth)
    ensures AllDigits([tenth]) && FractionValue([tenth]) == DigitValue(tenth) as real / 10.0
  {
    assert In([tenth][0], Digit);
    assert [tenth][..0] == [];
    assert NatValue([tenth]) == DigitValue(tenth);
    assert Pow10(1) == 10;
  }

  /** One padded piece of the example field: " i.f" has no comma and strips
      to "i.f". */
  lemma PaddedTenths(whole: string, tenth: char)
    requires whole != [] && AllDigits(whole) && IsDigit(tenth)
    ensures ',' !in " " + whole + "." + [tenth]
    ensures Strip(" " + whole + "." + [tenth]) == whole + "." + [tenth]
  {
    var d := whole + "." + [tenth];
    assert d[0] == whole[0] && d[|d| - 1] == tenth;
    assert In(d[0], Digit) && In(d[|d| - 1], Digit);
    assert " " + d + "" == " " + whole + "." + [tenth];
    StripPadded(" ", d, "");
    AllExcludes(whole, Digit, ',');
  }

  /** The example field is the four pieces joined by commas. */
  lemma ExampleJoin()
    ensures JoinOn(["0", " 8.5", " 15.2", " 22.0"], ',') == "0, 8.5, 15.2, 22.0"
  {
    assert JoinOn([" 22.0"], ',') == " 22.0";
    assert JoinOn([" 15.2", " 22.0"], ',') == " 15.2, 22.0";
    assert JoinOn([" 8.5", " 15.2", " 22.0"], ',') == " 8.5, 15.2, 22.0";
  }

  /** A piece " i.f" of the example field: no comma, and it strips to a
      number float() reads as i + f/10. */
  lemma TenthsPiece(p: string, whole: string, tenth: char, v: real)
    requires p == " " + whole + "." + [tenth]
    requires whole != [] && AllDigits(whole) && IsDigit(tenth)
    requires v == NatValue(whole) as real + DigitValue(tenth) as real / 10.0
    ensures ',' !in p && Strip(p) != [] && ParseFloat(Strip(p)) == Some(v)
  {
    PaddedTenths(whole, tenth);
    Tenths(whole, tenth);
  }

  /** The first piece of the example field, "0", reads as 0.0. */
  lemma ExamplePiece0()
    ensures ',' !in "0" && Strip("0") != [] && ParseFloat(Strip("0")) == Some(0.0)
  {
    DecimalPiece(0);
    assert Decimal(0) == "0";
  }

  /** " 8.5" reads as 8.5. */
  lemma ExamplePiece1()
    ensures ',' !in " 8.5" && Strip(" 8.5") != [] && ParseFloat(Strip(" 8.5")) == Some(8.5)
  {
    assert " 8.5" == " " + "8" + "." + ['5'];
    TenthsPiece(" 8.5", "8", '5', 8.5);
  }

  /** " 15.2" reads as 15.2. */
  lemma ExamplePiece2()
    ensures ',' !in " 15.2" && Strip(" 15.2") != [] && ParseFloat(Strip(" 15.2")) == Some(15.2)
  {
    assert " 15.2" == " " + "15" + "." + ['2'];
    assert NatValue("15") == 15;
    TenthsPiece(" 15.2", "15", '2', 15.2);
  }

  /** " 22.0" reads as 22.0. */
  lemma ExamplePiece3()
    ensures ',' !in " 22.0" && Strip(" 22.0") != [] && ParseFloat(Strip(" 22.0")) == Some(22.0)
  {
    assert " 22.0" == " " + "22" + "." + ['0'];
    assert NatValue("22") == 22;
    TenthsPiece(" 22.0", "22", '0', 22.0);
  }

  /** Each piece of the example field strips to a number. */
  lemma ExamplePieces(parts: seq<string>, vs: seq<real>)
    requires parts == ["0", " 8.5", " 15.2", " 22.0"] && vs == [0.0, 8.5, 15.2, 22.0]
    ensures forall i :: 0 <= i < |parts| ==> ',' !in parts[i]
    ensures forall i :: 0 <= i < |parts| ==> Strip(parts[i]) != [] && ParseFloat(Strip(parts[i])) == Some(vs[i])
  {
    forall i | 0 <= i < |parts|
      ensures ',' !in parts[i] && Strip(parts[i]) != [] && ParseFloat(Strip(parts[i])) == Some(vs[i])
    {
      if i == 0 {
        ExamplePiece0();
      } else if i == 1 {
        ExamplePiece1();
      } else if i == 2 {
        ExamplePiece2();
      } else {
        ExamplePiece3();
      }
    }
  }

  /** The example the input field shows, "0, 8.5, 15.2, 22.0", gives the
      split times 8.5, 15.2 and 22.0: the leading 0 is dropped. */
  lemma ExampleField()
    ensures ManualSplits("0, 8.5, 15.2, 22.0") == Ok([8.5, 15.2, 22.0])
  {
    var parts := ["0", " 8.5", " 15.2", " 22.0"];
    var vs := [0.0, 8.5, 15.2, 22.0];
    ExampleJoin();
    ExamplePieces(parts, vs);
    ManualSplitsOf(parts, vs);
    assert vs[1..] == [8.5, 15.2, 22.0];
  }
}
