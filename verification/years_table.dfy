/**
 * The self-test at the foot of lib/header/year.py: four texts read by
 * `parse_years` and written back by `format_years`. Python's `list` of a
 * set has no fixed order, so each check holds for every list without
 * repeats that holds the parsed years.
 *
 * The checks are worked out step by step: the matches of each text, the
 * state of the loop of `parse_years` after each match, the sorted list and
 * its runs, and the text of each run.
 */
module YearsTable {
  import opened Text
  import opened Years

  // ---------------------------------------------------------------------
  // The four checks

  /** `test('1999', '1999')`. */
  lemma SelfTestSingle(ys: seq<int>)
    requires NoDups(ys) && Elems(ys) == {1999}
    ensures Parsed("1999") == Ok(Elems(ys))
    ensures Formatted(ys) == "1999"
  {
    FormattedSingle(ys);
    InElems(ys);
    FormatParses(ys);
  }

  /** `test('2000, 1, 2', '2000-2002')`: one-digit abbreviations. */
  lemma SelfTestAbbreviated(ys: seq<int>)
    requires NoDups(ys) && Elems(ys) == {2000, 2001, 2002}
    ensures Parsed("2000, 1, 2") == Ok(Elems(ys))
    ensures Formatted(ys) == "2000-2002"
  {
    ParsedAbbreviated();
    FormattedAbbreviated(ys);
  }

  /** `test('2000-10', '2000-2010')`: a range closed by a two-digit abbreviation. */
  lemma SelfTestRange(ys: seq<int>)
    requires NoDups(ys) && Elems(ys) == {2000, 2001, 2002, 2003, 2004, 2005, 2006, 2007, 2008, 2009, 2010}
    ensures Parsed("2000-10") == Ok(Elems(ys))
    ensures Formatted(ys) == "2000-2010"
  {
    ParsedRange();
    FormattedRange(ys);
  }

  /** `test('1999, 2000, 2001, 2008-2009', '1999-2001, 2008-2009')`: single years merge into a run. */
  lemma SelfTestTwoRuns(ys: seq<int>)
    requires NoDups(ys) && Elems(ys) == {1999, 2000, 2001, 2008, 2009}
    ensures Parsed("1999, 2000, 2001, 2008-2009") == Ok(Elems(ys))
    ensures Formatted(ys) == "1999-2001, 2008-2009"
  {
    ParsedTwoRuns();
    FormattedTwoRuns(ys);
  }

  // ---------------------------------------------------------------------
  // Helpers

  /** `str(y)` of a four-digit year, digit by digit. */
  lemma FourDigits(y: nat)
    requires 1000 <= y < 10000
    ensures NatToString(y) == [DigitChar(y / 1000), DigitChar(y / 100 % 10), DigitChar(y / 10 % 10), DigitChar(y % 10)]
  {
    assert y / 10 / 10 == y / 100 && y / 100 / 10 == y / 1000;
    assert NatToString(y / 1000) == [DigitChar(y / 1000)];
    assert NatToString(y / 100) == [DigitChar(y / 1000), DigitChar(y / 100 % 10)];
    assert NatToString(y / 10) == [DigitChar(y / 1000), DigitChar(y / 100 % 10), DigitChar(y / 10 % 10)];
  }

  lemma Year1999() ensures NatToString(1999) == "1999" { FourDigits(1999); }
  lemma Year2000() ensures NatToString(2000) == "2000" { FourDigits(2000); }
  lemma Year2001() ensures NatToString(2001) == "2001" { FourDigits(2001); }
  lemma Year2002() ensures NatToString(2002) == "2002" { FourDigits(2002); }
  lemma Year2008() ensures NatToString(2008) == "2008" { FourDigits(2008); }
  lemma Year2009() ensures NatToString(2009) == "2009" { FourDigits(2009); }
  lemma Year2010() ensures NatToString(2010) == "2010" { FourDigits(2010); }

  /** Sorting a list without repeats gives the ascending list of the same years. */
  lemma SortedIs(ys: seq<int>, l: seq<int>)
    requires NoDups(ys) && NoDups(l) && Ascending(l) && Elems(ys) == Elems(l)
    ensures Sorted(ys) == l
  {
    forall v
      ensures multiset(ys)[v] == multiset(l)[v]
    {
      NoDupsCount(ys, v);
      NoDupsCount(l, v);
      assert v in ys <==> v in Elems(ys);
      assert v in l <==> v in Elems(l);
      assert v in ys <==> v in multiset(ys);
      assert v in l <==> v in multiset(l);
    }
    assert multiset(ys) == multiset(l);
    AscendingUnique(Sorted(ys), l);
  }

  /** A list of years is formatted as the runs of its ascending copy `l`. */
  lemma FormattedRuns(ys: seq<int>, l: seq<int>, rs: seq<(int, int)>)
    requires NoDups(ys) && NoDups(l) && Ascending(l) && Elems(ys) == Elems(l)
    requires RunsFrom(l, 0, None) == rs
    ensures Formatted(ys) == Join(", ", ShowRuns(rs))
  {
    SortedIs(ys, l);
  }

  lemma {:induction false} SpelledAppend(a: seq<Match>, b: seq<Match>)
    ensures Spelled(a + b) == Spelled(a) + Spelled(b)
  {
    if a != [] {
      SpelledAppend(a[1..], b);
      assert (a + b)[1..] == a[1..] + b;
      var head := a[0].delim + a[0].digits;
      assert (a + b)[0] == a[0];
      assert Spelled(a + b) == head + Spelled(a[1..] + b);
      assert Spelled(a) == head + Spelled(a[1..]);
      AppendAssociates(head, Spelled(a[1..]), Spelled(b));
    } else {
      assert a + b == b;
    }
  }

  lemma ShowOne(r: (int, int))
    ensures Join(", ", ShowRuns([r])) == ShowRun(r)
  {
  }

  lemma ShowPair(r: (int, int), r2: (int, int))
    ensures Join(", ", ShowRuns([r, r2])) == ShowRun(r) + ", " + ShowRun(r2)
  {
    assert ShowRuns([r, r2]) == [ShowRun(r), ShowRun(r2)];
  }

  /** A range of years is shown with a dash. */
  lemma ShowRange(a: nat, b: nat, s: string)
    requires a < b && s == NatToString(a) + "-" + NatToString(b)
    ensures ShowRun((a, b)) == s
  {
  }

  /** The years of a list all lie where the years of its set lie. */
  lemma InElems(ys: seq<int>)
    requires forall y :: y in Elems(ys) ==> 1900 <= y <= 3000
    ensures forall i :: 0 <= i < |ys| ==> 1900 <= ys[i] <= 3000
  {
    forall i | 0 <= i < |ys|
      ensures ys[i] in Elems(ys)
    {
    }
  }

  /** A year written in full, first in the text. */
  lemma Absorb2000(text: string)
    ensures Absorb(Parsing({}, None), Match("", "2000"), text) == Ok(Parsing({2000}, Some(2000)))
  {
    Year2000();
    AbsorbYear(Parsing({}, None), 2000, "", text);
    assert {} + {2000} == {2000};
  }

  /** A one-digit abbreviation after a comma adds the year it completes to. */
  lemma AbsorbShort(p: Parsing, d: string, n: string, y: int, text: string)
    requires p.lastyear.Some? && 1900 <= y <= 3000 && '-' !in d
    requires |n| == 1 && AllDigits(n) && y == p.lastyear.value / 10 * 10 + DigitsValue(n)
    ensures Absorb(p, Match(d, n), text) == Ok(Parsing(p.years + {y}, Some(y)))
  {
    assert Pow10(1) == 10;
  }

  /** A two-digit abbreviation after `-` closes the range the previous year opened. */
  lemma AbsorbShortRange(p: Parsing, n: string, y: int, text: string)
    requires p.lastyear.Some? && 1900 <= y <= 3000 && p.lastyear.value < y
    requires |n| == 2 && AllDigits(n) && y == p.lastyear.value / 100 * 100 + DigitsValue(n)
    ensures Absorb(p, Match("-", n), text) == Ok(Parsing(p.years + Between(p.lastyear.value, y), None))
  {
    assert Pow10(2) == 100 by {
      assert Pow10(1) == 10;
    }
  }

  // ---------------------------------------------------------------------
  // '1999'

  lemma FormattedSingle(ys: seq<int>)
    requires NoDups(ys) && Elems(ys) == {1999}
    ensures Formatted(ys) == "1999"
  {
    ListSingle();
    FormattedRuns(ys, [1999], [(1999, 1999)]);
    ShowOne((1999, 1999));
    Year1999();
  }

  lemma ListSingle()
    ensures NoDups([1999]) && Ascending([1999]) && Elems([1999]) == {1999}
    ensures RunsFrom([1999], 0, None) == [(1999, 1999)]
  {
  }

  // ---------------------------------------------------------------------
  // '2000, 1, 2'

  const AbbreviatedText := "2000, 1, 2"

  lemma ParsedAbbreviated()
    ensures Parsed(AbbreviatedText) == Ok({2000, 2001, 2002})
  {
    MatchesAbbreviated();
    AbsorbAbbreviated(AbbreviatedText);
  }

  lemma MatchesAbbreviated()
    ensures Matches(AbbreviatedText) == [Match("", "2000"), Match(", ", "1"), Match(", ", "2")]
  {
    var ms := [Match("", "2000"), Match(", ", "1"), Match(", ", "2")];
    assert AbbreviatedText == Spelled(ms);
    MatchesSpelled(ms);
  }

  lemma AbsorbAbbreviated(text: string)
    ensures AbsorbAll([Match("", "2000"), Match(", ", "1"), Match(", ", "2")], Parsing({}, None), text)
            == Ok({2000, 2001, 2002})
  {
    var m1, m2, m3 := Match("", "2000"), Match(", ", "1"), Match(", ", "2");
    var p0, p1 := Parsing({}, None), Parsing({2000}, Some(2000));
    var p2, p3 := Parsing({2000, 2001}, Some(2001)), Parsing({2000, 2001, 2002}, Some(2002));
    assert [m1, m2, m3] == [m1] + [m2, m3] && [m2, m3] == [m2] + [m3] && [m3] == [m3] + [];
    Absorb2000(text);
    AbsorbShort(p1, ", ", "1", 2001, text);
    assert p1.years + {2001} == p2.years;
    AbsorbShort(p2, ", ", "2", 2002, text);
    assert p2.years + {2002} == p3.years;
    AbsorbCons(m3, [], p2, p3, text);
    AbsorbCons(m2, [m3], p1, p2, text);
    AbsorbCons(m1, [m2, m3], p0, p1, text);
  }

  lemma FormattedAbbreviated(ys: seq<int>)
    requires NoDups(ys) && Elems(ys) == {2000, 2001, 2002}
    ensures Formatted(ys) == "2000-2002"
  {
    ListAbbreviated();
    FormattedRuns(ys, [2000, 2001, 2002], [(2000, 2002)]);
    ShowOne((2000, 2002));
    ShowAbbreviated();
  }

  lemma ListAbbreviated()
    ensures var l := [2000, 2001, 2002];
            NoDups(l) && Ascending(l) && Elems(l) == {2000, 2001, 2002}
            && RunsFrom(l, 0, None) == [(2000, 2002)]
  {
  }

  lemma ShowAbbreviated()
    ensures ShowRun((2000, 2002)) == "2000-2002"
  {
    Year2000();
    Year2002();
    ShowRange(2000, 2002, "2000-2002");
  }

  // ---------------------------------------------------------------------
  // '2000-10'

  const ShortRangeText := "2000-10"

  lemma ParsedRange()
    ensures Parsed(ShortRangeText) == Ok({2000, 2001, 2002, 2003, 2004, 2005, 2006, 2007, 2008, 2009, 2010})
  {
    MatchesShortRange();
    AbsorbRange10(ShortRangeText);
  }

  lemma MatchesShortRange()
    ensures Matches(ShortRangeText) == [Match("", "2000"), Match("-", "10")]
  {
    var ms := [Match("", "2000"), Match("-", "10")];
    assert ShortRangeText == Spelled(ms);
    MatchesSpelled(ms);
  }

  lemma AbsorbRange10(text: string)
    ensures AbsorbAll([Match("", "2000"), Match("-", "10")], Parsing({}, None), text)
            == Ok({2000, 2001, 2002, 2003, 2004, 2005, 2006, 2007, 2008, 2009, 2010})
  {
    var m1, m2 := Match("", "2000"), Match("-", "10");
    var p0, p1 := Parsing({}, None), Parsing({2000}, Some(2000));
    var p2 := Parsing({2000} + Between(2000, 2010), None);
    assert [m1, m2] == [m1] + [m2] && [m2] == [m2] + [];
    Absorb2000(text);
    AbsorbShortRange(p1, "10", 2010, text);
    AbsorbCons(m2, [], p1, p2, text);
    AbsorbCons(m1, [m2], p0, p1, text);
    assert p2.years == {2000, 2001, 2002, 2003, 2004, 2005, 2006, 2007, 2008, 2009, 2010};
  }

  const RangeList := [2000, 2001, 2002, 2003, 2004, 2005, 2006, 2007, 2008, 2009, 2010]

  lemma FormattedRange(ys: seq<int>)
    requires NoDups(ys) && Elems(ys) == {2000, 2001, 2002, 2003, 2004, 2005, 2006, 2007, 2008, 2009, 2010}
    ensures Formatted(ys) == "2000-2010"
  {
    RangeListOrder();
    RangeListElems();
    RangeListRuns();
    FormattedRuns(ys, RangeList, [(2000, 2010)]);
    ShowOne((2000, 2010));
    ShowRange10();
  }

  lemma RangeListOrder()
    ensures NoDups(RangeList) && Ascending(RangeList)
  {
    forall i | 0 <= i < |RangeList|
      ensures RangeList[i] == 2000 + i
    {
    }
  }

  lemma RangeListElems()
    ensures Elems(RangeList) == {2000, 2001, 2002, 2003, 2004, 2005, 2006, 2007, 2008, 2009, 2010}
  {
  }

  lemma RangeListRuns()
    ensures RunsFrom(RangeList, 0, None) == [(2000, 2010)]
  {
  }

  lemma ShowRange10()
    ensures ShowRun((2000, 2010)) == "2000-2010"
  {
    Year2000();
    Year2010();
    ShowRange(2000, 2010, "2000-2010");
  }

  // ---------------------------------------------------------------------
  // '1999, 2000, 2001, 2008-2009'

  const TwoRunsText := "1999, 2000, 2001, 2008-2009"

  const TwoRunsMatches :=
    [Match("", "1999"), Match(", ", "2000"), Match(", ", "2001"), Match(", ", "2008"), Match("-", "2009")]

  /** The text as `Written` would write it: three single years and a range. */
  const TwoRunsWritten := [(1999, 1999), (2000, 2000), (2001, 2001), (2008, 2009)]

  lemma ParsedTwoRuns()
    ensures Parsed(TwoRunsText) == Ok({1999, 2000, 2001, 2008, 2009})
  {
    MatchesTwoRuns();
    AbsorbTwoRuns(TwoRunsText);
  }

  lemma MatchesTwoRuns()
    ensures Matches(TwoRunsText) == TwoRunsMatches
  {
    SpelledTwoRuns();
    SeparableTwoRuns();
    MatchesSpelled(TwoRunsMatches);
  }

  lemma SpelledTwoRuns()
    ensures Spelled(TwoRunsMatches) == TwoRunsText
  {
    var a := [Match("", "1999"), Match(", ", "2000"), Match(", ", "2001")];
    var b := [Match(", ", "2008"), Match("-", "2009")];
    assert TwoRunsMatches == a + b;
    SpelledAppend(a, b);
    SpelledSingles();
    SpelledRange();
    TwoRunsTextHalves();
  }

  lemma TwoRunsTextHalves()
    ensures "1999, 2000, 2001" + ", 2008-2009" == TwoRunsText
  {
  }

  lemma SpelledSingles()
    ensures Spelled([Match("", "1999"), Match(", ", "2000"), Match(", ", "2001")]) == "1999, 2000, 2001"
  {
    var a := [Match("", "1999")];
    var b := [Match(", ", "2000"), Match(", ", "2001")];
    assert [Match("", "1999"), Match(", ", "2000"), Match(", ", "2001")] == a + b;
    SpelledAppend(a, b);
    SpelledFirst();
    SpelledSecondThird();
    assert "1999" + ", 2000, 2001" == "1999, 2000, 2001";
  }

  lemma SpelledFirst()
    ensures Spelled([Match("", "1999")]) == "1999"
  {
  }

  lemma SpelledSecondThird()
    ensures Spelled([Match(", ", "2000"), Match(", ", "2001")]) == ", 2000, 2001"
  {
  }

  lemma SpelledRange()
    ensures Spelled([Match(", ", "2008"), Match("-", "2009")]) == ", 2008-2009"
  {
  }

  lemma SeparableTwoRuns()
    ensures Separable(TwoRunsMatches)
  {
    TwoRunsDigits();
    TwoRunsDelimiters();
  }

  lemma TwoRunsDigits()
    ensures AllDigits("1999") && AllDigits("2000") && AllDigits("2001")
    ensures AllDigits("2008") && AllDigits("2009")
  {
  }

  lemma TwoRunsDelimiters()
    ensures NoDigits("") && NoDigits(", ") && NoDigits("-")
  {
  }

  lemma AbsorbTwoRuns(text: string)
    ensures AbsorbAll(TwoRunsMatches, Parsing({}, None), text) == Ok({1999, 2000, 2001, 2008, 2009})
  {
    ExpectedTwoRuns();
    ExpectedAbsorb(TwoRunsWritten, "", Parsing({}, None), text);
    CoverTwoRuns();
  }

  lemma ExpectedTwoRuns()
    ensures RunsWithin(TwoRunsWritten, 1900, 3000) && Expected(TwoRunsWritten, "") == TwoRunsMatches
  {
    TwoRunsWithin();
    Year1999();
    Year2000();
    Year2001();
    Year2008();
    Year2009();
  }

  lemma TwoRunsWithin()
    ensures RunsWithin(TwoRunsWritten, 1900, 3000)
  {
  }

  lemma CoverTwoRuns()
    ensures {} + Cover(TwoRunsWritten) == {1999, 2000, 2001, 2008, 2009}
  {
  }

  lemma FormattedTwoRuns(ys: seq<int>)
    requires NoDups(ys) && Elems(ys) == {1999, 2000, 2001, 2008, 2009}
    ensures Formatted(ys) == "1999-2001, 2008-2009"
  {
    TwoRunsListOrder();
    TwoRunsListElems();
    TwoRunsListRuns();
    FormattedRuns(ys, TwoRunsList, [(1999, 2001), (2008, 2009)]);
    ShowTwoRuns();
  }

  const TwoRunsList := [1999, 2000, 2001, 2008, 2009]

  lemma TwoRunsListOrder()
    ensures NoDups(TwoRunsList) && Ascending(TwoRunsList)
  {
  }

  lemma TwoRunsListElems()
    ensures Elems(TwoRunsList) == {1999, 2000, 2001, 2008, 2009}
  {
  }

  lemma TwoRunsListRuns()
    ensures RunsFrom(TwoRunsList, 0, None) == [(1999, 2001), (2008, 2009)]
  {
  }

  lemma ShowTwoRuns()
    ensures Join(", ", ShowRuns([(1999, 2001), (2008, 2009)])) == "1999-2001, 2008-2009"
  {
    ShowPair((1999, 2001), (2008, 2009));
    ShowFirstRun();
    ShowSecondRun();
  }

  lemma ShowFirstRun()
    ensures ShowRun((1999, 2001)) == "1999-2001"
  {
    Year1999();
    Year2001();
    ShowRange(1999, 2001, "1999-2001");
  }

  lemma ShowSecondRun()
    ensures ShowRun((2008, 2009)) == "2008-2009"
  {
    Year2008();
    Year2009();
    ShowRange(2008, 2009, "2008-2009");
  }
}
