/**
 * Ranges: the year-list notation of the two stand-alone scripts
 * (`parse_years`/`format_years` in fixheader.py, `parseDates`/`formatDates`
 * in sheader.py). Items are separated by commas; an item `a-b` names the
 * inclusive range of years, any other item a single year. Formatting
 * writes the maximal runs of consecutive years as `a - b` and joins them
 * with `, `. Both scripts carry the same two loops; this module is their
 * common specification.
 */
module Ranges {
  import opened Text
  import Years
  // `Copyright.ListOf` is the `list(years)` that the scripts sort and format.
  import Copyright

  /** What `tuple(item.split('-'))` unpacking into two names raises. */
  const TooManyValues := "ValueError: too many values to unpack"
  /** What `int()` raises on a string that is not a decimal number. */
  const NotAnInteger := "ValueError: invalid literal for int() with base 10"

  // ---------------------------------------------------------------------
  // Parsing

  /**
   * The years one comma-separated item names. An item holds a dash
   * exactly when splitting it at dashes gives more than one piece
   * (`DashTest`).
   */
  function ItemYears(item: string): Result<set<int>>
  {
    var parts := Split(item, '-');
    if |parts| > 1 then RangeItem(parts) else SingleItem(ParseInt(item))
  }

  /** The test `'-' in year_range`, as `ItemYears` makes it. */
  lemma DashTest(item: string)
    ensures |Split(item, '-')| > 1 <==> '-' in item
  {
    if '-' in item {
      SplitHasTwo(item, '-');
    } else {
      SplitNoSep(item, '-');
    }
  }

  /** `start, end = tuple(parts)`, then `range(int(start), int(end) + 1)`. */
  function RangeItem(parts: seq<string>): Result<set<int>>
  {
    if |parts| != 2 then Err(TooManyValues) else Bounds(ParseInt(parts[0]), ParseInt(parts[1]))
  }

  function Bounds(start: Option<int>, end: Option<int>): Result<set<int>>
  {
    if start.None? || end.None? then Err(NotAnInteger) else Ok(Years.Between(start.value - 1, end.value))
  }

  function SingleItem(year: Option<int>): Result<set<int>>
  {
    if year.None? then Err(NotAnInteger) else Ok({year.value})
  }

  /** What each item names, in order. */
  function EachItem(items: seq<string>): (rs: seq<Result<set<int>>>)
    ensures |rs| == |items|
  {
    if items == [] then [] else [ItemYears(items[0])] + EachItem(items[1..])
  }

  lemma {:induction false} EachItemAt(items: seq<string>, i: nat)
    requires i < |items|
    ensures EachItem(items)[i] == ItemYears(items[i])
  {
    if i > 0 {
      EachItemAt(items[1..], i - 1);
    }
  }

  /** The items' years, left to right, added to `acc`; the first failing item decides the error. */
  function Combine(results: seq<Result<set<int>>>, acc: set<int>): (r: Result<set<int>>)
    ensures r.Ok? ==> acc <= r.value
  {
    if results == [] then Ok(acc)
    else match results[0]
      case Err(m) => Err(m)
      case Ok(ys) => Combine(results[1..], acc + ys)
  }

  /** The set of years a text such as `2007 - 2009, 2011` names. */
  function RangeYears(text: string): Result<set<int>>
  {
    Combine(EachItem(Split(text, ',')), {})
  }

  /** The two pieces of an item with exactly one dash. */
  lemma DashSplit(item: string, x: string, y: string)
    requires item == x + "-" + y && '-' !in x
    ensures '-' in y ==> |Split(item, '-')| > 2
    ensures '-' !in y ==> Split(item, '-') == [x, y]
  {
    assert item == x + ['-'] + y;
    assert item[|x|] == '-';
    SplitPrefix(x, '-', y);
    if '-' in y {
      SplitHasTwo(y, '-');
    } else {
      SplitNoSep(y, '-');
    }
  }

  /**
   * An item `a-b` (spaces allowed around either number) names every year
   * from `a` to `b` inclusive, and none when `b < a`.
   */
  lemma ItemRange(item: string, x: string, y: string, a: int, b: int)
    requires item == x + "-" + y && '-' !in x && '-' !in y
    requires ParseInt(x) == Some(a) && ParseInt(y) == Some(b)
    ensures ItemYears(item) == Ok(Years.Between(a - 1, b))
  {
    DashSplit(item, x, y);
    DashedItem(item, [x, y]);
    assert RangeItem([x, y]) == Bounds(ParseInt(x), ParseInt(y));
  }

  lemma DashedItem(item: string, parts: seq<string>)
    requires Split(item, '-') == parts && |parts| > 1
    ensures ItemYears(item) == RangeItem(parts)
  {
  }

  /** An item with a dash is refused when either side is not a number, or when there is a second dash. */
  lemma ItemRangeRefused(item: string, x: string, y: string)
    requires item == x + "-" + y && '-' !in x
    ensures '-' in y ==> ItemYears(item) == Err(TooManyValues)
    ensures '-' !in y && (ParseInt(x).None? || ParseInt(y).None?) ==> ItemYears(item) == Err(NotAnInteger)
  {
    DashSplit(item, x, y);
  }

  /** `s.split(c)` has at least two pieces when `c` occurs in `s`. */
  lemma {:induction false} SplitHasTwo(s: string, c: char)
    requires c in s
    ensures |Split(s, c)| >= 2
  {
    if s[0] != c {
      SplitHasTwo(s[1..], c);
    }
  }

  /** An item without a dash is one year, or an error when it is not a number. */
  lemma ItemSingle(item: string)
    requires '-' !in item
    ensures ItemYears(item).Ok? <==> ParseInt(item).Some?
    ensures ItemYears(item).Ok? ==> ItemYears(item).value == {ParseInt(item).value}
  {
    SplitNoSep(item, '-');
  }

  /** The first failing item decides the error, whatever follows it. */
  lemma {:induction false} CombineFails(results: seq<Result<set<int>>>, acc: set<int>, i: nat)
    requires i < |results| && results[i].Err?
    requires forall j :: 0 <= j < i ==> results[j].Ok?
    ensures Combine(results, acc) == results[i]
  {
    if i > 0 {
      assert results[1..][i - 1] == results[i];
      CombineFails(results[1..], acc + results[0].value, i - 1);
    }
  }

  /** When every item parses, the result is the union of what each names. */
  lemma {:induction false} CombineUnion(results: seq<Result<set<int>>>, acc: set<int>)
    requires forall i :: 0 <= i < |results| ==> results[i].Ok?
    ensures Combine(results, acc).Ok?
    ensures forall v :: v in Combine(results, acc).value <==>
              v in acc || exists i :: 0 <= i < |results| && v in results[i].value
  {
    if results != [] {
      var ys := results[0].value;
      CombineUnion(results[1..], acc + ys);
      var rest := Combine(results[1..], acc + ys).value;
      assert Combine(results, acc).value == rest;
      forall v | v in rest
        ensures v in acc || exists i :: 0 <= i < |results| && v in results[i].value
      {
        if v !in acc && v !in ys {
          var j :| 0 <= j < |results[1..]| && v in results[1..][j].value;
          assert results[1..][j] == results[j + 1];
        }
      }
      forall v, i | 0 <= i < |results| && v in results[i].value
        ensures v in rest
      {
        if i == 0 {
          assert v in acc + ys;
        } else {
          assert results[1..][i - 1] == results[i];
          assert 0 <= i - 1 < |results[1..]| && v in results[1..][i - 1].value;
        }
      }
    }
  }

  // ---------------------------------------------------------------------
  // Formatting

  /** One run: `a - b` when it spans several years, `a` alone otherwise. */
  function ShowSpan(r: (int, int)): string
  {
    if r.1 > r.0 then IntToString(r.0) + " - " + IntToString(r.1) else IntToString(r.0)
  }

  function ShowSpans(rs: seq<(int, int)>): (r: seq<string>)
    ensures |r| == |rs|
  {
    if rs == [] then [] else [ShowSpan(rs[0])] + ShowSpans(rs[1..])
  }

  /** The text written for a collection of years (given as a list in any order). */
  function RangeText(years: seq<int>): string
  {
    Join(", ", ShowSpans(Years.Runs(years)))
  }

  /**
   * The runs written are sorted, disjoint, separated by at least one
   * missing year (so maximal), and cover exactly the given years; the
   * text does not depend on the order of the list.
   */
  lemma RangeTextRuns(years: seq<int>, others: seq<int>)
    requires Years.NoDups(years) && Years.NoDups(others)
    ensures var rs := Years.Runs(years);
      Years.Separated(rs) && Years.Cover(rs) == Years.Elems(years) &&
      (forall k :: 0 <= k < |rs| ==> rs[k].0 <= rs[k].1)
    ensures Years.Elems(years) == Years.Elems(others) ==> RangeText(years) == RangeText(others)
  {
    Years.FormatRuns(years);
    if Years.Elems(years) == Years.Elems(others) {
      Years.FormatOrderFree(years, others);
      assert Years.Runs(years) == Years.Runs(others) by {
        Years.SortedIncreasing(years);
        Years.SortedIncreasing(others);
        SortedSame(years, others);
      }
    }
  }

  /** Two duplicate-free lists with the same elements sort to the same list. */
  lemma SortedSame(ys: seq<int>, zs: seq<int>)
    requires Years.NoDups(ys) && Years.NoDups(zs) && Years.Elems(ys) == Years.Elems(zs)
    ensures Years.Sorted(ys) == Years.Sorted(zs)
  {
    forall v
      ensures multiset(ys)[v] == multiset(zs)[v]
    {
      Years.NoDupsCount(ys, v);
      Years.NoDupsCount(zs, v);
      assert v in multiset(ys) <==> v in Years.Elems(ys);
      assert v in multiset(zs) <==> v in Years.Elems(zs);
    }
    assert multiset(ys) == multiset(zs);
    Years.AscendingUnique(Years.Sorted(ys), Years.Sorted(zs));
  }

  // ---------------------------------------------------------------------
  // Reading back what was written

  /** The comma-separated pieces of `", ".join(texts)`: every text after the first keeps the space of `, `. */
  function PadItems(texts: seq<string>, p: string): (items: seq<string>)
    ensures |items| == |texts|
  {
    if texts == [] then [] else [p + texts[0]] + PadItems(texts[1..], " ")
  }

  lemma {:induction false} JoinPadItems(texts: seq<string>, p: string)
    requires texts != []
    ensures Join([','], PadItems(texts, p)) == p + Join(", ", texts)
  {
    var t0 := texts[0];
    if |texts| > 1 {
      JoinPadItems(texts[1..], " ");
      var tail := Join(", ", texts[1..]);
      var items := PadItems(texts, p);
      assert items[0] == p + t0 && items[1..] == PadItems(texts[1..], " ");
      assert Join([','], items) == (p + t0) + [','] + (" " + tail);
      assert Join(", ", texts) == t0 + ", " + tail;
      assert ", " == [','] + " ";
      Regroup(p, t0, [','], " ", tail);
    } else {
      assert PadItems(texts, p) == [p + t0];
    }
  }

  /** Item `i` of the pieces: the first text bare, the others after a space. */
  lemma {:induction false} PadItemAt(texts: seq<string>, p: string, i: nat)
    requires i < |texts|
    ensures PadItems(texts, p)[i] == (if i == 0 then p else " ") + texts[i]
  {
    if i > 0 {
      PadItemAt(texts[1..], " ", i - 1);
      assert PadItems(texts, p)[i] == PadItems(texts[1..], " ")[i - 1];
    }
  }

  lemma {:induction false} ShowSpansAt(rs: seq<(int, int)>, i: nat)
    requires i < |rs|
    ensures ShowSpans(rs)[i] == ShowSpan(rs[i])
  {
    if i > 0 {
      ShowSpansAt(rs[1..], i - 1);
    }
  }

  lemma Regroup<T>(a: seq<T>, b: seq<T>, c: seq<T>, d: seq<T>, e: seq<T>)
    ensures (a + b) + c + (d + e) == a + (b + (c + d) + e)
  {
  }

  lemma UnionAssoc<T>(a: set<T>, b: set<T>, c: set<T>)
    ensures a + b + c == a + (b + c)
  {
  }

  /** Non-negative numbers are written with digits only. */
  lemma NatText(n: int)
    requires n >= 0
    ensures IntToString(n) == NatToString(n) && AllDigits(IntToString(n))
    ensures '-' !in IntToString(n) && ',' !in IntToString(n) && ' ' !in IntToString(n)
  {
    var s := IntToString(n);
    assert forall c :: c in s ==> IsDigit(c) by {
      forall c | c in s
        ensures IsDigit(c)
      {
        var i :| 0 <= i < |s| && s[i] == c;
      }
    }
  }

  /** Surrounding spaces do not change what `int()` reads. */
  lemma ParsePadded(p: string, n: int, q: string)
    requires IsBlank(p) && IsBlank(q)
    ensures ParseInt(p + IntToString(n) + q) == Some(n)
  {
    var a := IntToString(n);
    LStripPadding(p, a + q);
    assert p + a + q == p + (a + q);
    RStripPadding(a, q);
    StripOfTrimmed(a);
    assert Strip(p + a + q) == Strip(a);
    ParseIntRoundTrip(n);
  }

  /** A written run, with or without its leading space, reads back as the years it spans. */
  lemma SpanReadsBack(r: (int, int), p: string)
    requires 0 <= r.0 <= r.1 && (p == "" || p == " ")
    ensures ItemYears(p + ShowSpan(r)) == Ok(Years.Span(r))
  {
    NatText(r.0);
    NatText(r.1);
    if r.1 > r.0 {
      RangeReadsBack(r.0, r.1, p, p + ShowSpan(r));
    } else {
      SingleReadsBack(r.0, p);
    }
  }

  /** A written run holds no comma. */
  lemma SpanNoComma(r: (int, int), p: string)
    requires 0 <= r.0 <= r.1 && (p == "" || p == " ")
    ensures ',' !in p + ShowSpan(r)
  {
    NatText(r.0);
    NatText(r.1);
    if r.1 > r.0 {
      NoneIn(',', p, IntToString(r.0));
      NoneIn(',', p + IntToString(r.0), " - ");
      NoneIn(',', p + IntToString(r.0) + " - ", IntToString(r.1));
      assert p + ShowSpan(r) == p + IntToString(r.0) + " - " + IntToString(r.1);
    } else {
      NoneIn(',', p, IntToString(r.0));
    }
  }

  lemma RangeReadsBack(a: int, b: int, p: string, item: string)
    requires 0 <= a < b && IsBlank(p) && '-' !in p
    requires '-' !in IntToString(a) && '-' !in IntToString(b)
    requires item == p + ShowSpan((a, b))
    ensures ItemYears(item) == Ok(Years.Span((a, b)))
  {
    var x, y := RangeParts(a, b, p, item);
    ItemRange(item, x, y, a, b);
    assert Years.Span((a, b)) == Years.Between(a - 1, b);
  }

  /** A written run `a - b` is `x-y` with `x` reading as `a` and `y` as `b`. */
  lemma RangeParts(a: int, b: int, p: string, item: string) returns (x: string, y: string)
    requires 0 <= a < b && IsBlank(p) && '-' !in p
    requires '-' !in IntToString(a) && '-' !in IntToString(b)
    requires item == p + ShowSpan((a, b))
    ensures item == x + "-" + y && '-' !in x && '-' !in y
    ensures ParseInt(x) == Some(a) && ParseInt(y) == Some(b)
  {
    var sa, sb := IntToString(a), IntToString(b);
    assert item == p + (sa + " - " + sb);
    x := p + sa + " ";
    y := [' '] + sb + "";
    DashJoin(p, sa, sb);
    NoneIn('-', p, sa);
    NoneIn('-', p + sa, " ");
    NoneIn('-', [' '], sb);
    NoneIn('-', [' '] + sb, "");
    ParsePadded(p, a, " ");
    ParsePadded([' '], b, "");
  }

  lemma DashJoin(p: string, s: string, t: string)
    ensures p + (s + " - " + t) == (p + s + " ") + "-" + ([' '] + t + "")
  {
  }

  lemma NoneIn<T>(c: T, s: seq<T>, t: seq<T>)
    requires c !in s && c !in t
    ensures c !in s + t
  {
  }

  lemma SingleReadsBack(a: int, p: string)
    requires 0 <= a && IsBlank(p) && '-' !in p && '-' !in IntToString(a)
    ensures ItemYears(p + ShowSpan((a, a))) == Ok(Years.Span((a, a)))
  {
    ParsePadded(p, a, "");
    assert p + IntToString(a) + "" == p + ShowSpan((a, a));
    NoneIn('-', p, IntToString(a));
    SplitNoSep(p + ShowSpan((a, a)), '-');
    assert Years.Span((a, a)) == {a};
  }

  /** The items of a written text combine to the years its runs cover. */
  lemma {:induction false} CombineWritten(rs: seq<(int, int)>, p: string, acc: set<int>)
    requires p == "" || p == " "
    requires forall k :: 0 <= k < |rs| ==> 0 <= rs[k].0 <= rs[k].1
    ensures Combine(EachItem(PadItems(ShowSpans(rs), p)), acc) == Ok(acc + Years.Cover(rs))
  {
    var items := PadItems(ShowSpans(rs), p);
    if rs != [] {
      var rest := PadItems(ShowSpans(rs[1..]), " ");
      assert items[0] == p + ShowSpan(rs[0]) && items[1..] == rest by {
        assert ShowSpans(rs)[0] == ShowSpan(rs[0]) && ShowSpans(rs)[1..] == ShowSpans(rs[1..]);
      }
      SpanReadsBack(rs[0], p);
      var span := Years.Span(rs[0]);
      assert EachItem(items)[0] == Ok(span) && EachItem(items)[1..] == EachItem(rest);
      CombineWritten(rs[1..], " ", acc + span);
      assert Combine(EachItem(items), acc) == Combine(EachItem(rest), acc + span);
      Years.CoverCons(rs[0], rs[1..]);
      assert [rs[0]] + rs[1..] == rs;
      UnionAssoc(acc, span, Years.Cover(rs[1..]));
    } else {
      assert acc + Years.Cover(rs) == acc;
    }
  }

  /** No item of a written text holds a comma. */
  lemma SpanItemsNoComma(rs: seq<(int, int)>, items: seq<string>)
    requires forall k :: 0 <= k < |rs| ==> 0 <= rs[k].0 <= rs[k].1
    requires items == PadItems(ShowSpans(rs), "")
    ensures forall i :: 0 <= i < |rs| ==> ',' !in items[i]
  {
    forall i | 0 <= i < |rs|
      ensures ',' !in items[i]
    {
      SpanItemNoComma(rs, items, i);
    }
  }

  lemma SpanItemNoComma(rs: seq<(int, int)>, items: seq<string>, i: nat)
    requires i < |rs| && 0 <= rs[i].0 <= rs[i].1
    requires items == PadItems(ShowSpans(rs), "")
    ensures ',' !in items[i]
  {
    var p := if i == 0 then "" else " ";
    assert items[i] == p + ShowSpan(rs[i]) by {
      PadItemAt(ShowSpans(rs), "", i);
      ShowSpansAt(rs, i);
    }
    SpanNoComma(rs[i], p);
  }

  /**
   * Reading back a written list of years gives exactly those years. The
   * empty list is the exception: it is written as the empty text, which
   * `int()` refuses.
   */
  lemma RangeRoundTrip(years: seq<int>)
    requires forall i :: 0 <= i < |years| ==> years[i] >= 0
    ensures years != [] ==> RangeYears(RangeText(years)) == Ok(Years.Elems(years))
    ensures years == [] ==> RangeYears(RangeText(years)).Err?
  {
    var rs := Years.Runs(years);
    RunsOfNaturals(years);
    if years == [] {
      assert RangeText(years) == "";
      assert Split("", ',') == [""];
      assert ItemYears("").Err?;
    } else {
      var items := PadItems(ShowSpans(rs), "");
      JoinPadItems(ShowSpans(rs), "");
      SpanItemsNoComma(rs, items);
      SplitJoin(items, ',');
      assert "" + RangeText(years) == RangeText(years);
      assert Split(RangeText(years), ',') == items;
      CombineWritten(rs, "", {});
      assert RangeYears(RangeText(years)) == Ok({} + Years.Cover(rs));
      assert {} + Years.Cover(rs) == Years.Elems(years);
    }
  }

  /** The runs of a list of non-negative years: forwards, non-negative, none when the list is empty, covering the list. */
  lemma RunsOfNaturals(years: seq<int>)
    requires forall i :: 0 <= i < |years| ==> years[i] >= 0
    ensures var rs := Years.Runs(years);
      (rs == [] <==> years == []) &&
      (forall k :: 0 <= k < |rs| ==> 0 <= rs[k].0 <= rs[k].1) &&
      Years.Cover(rs) == Years.Elems(years)
  {
    var s := Years.Sorted(years);
    var rs := Years.Runs(years);
    Years.SortedElems(years);
    assert forall j :: 0 <= j < |s| ==> 0 <= s[j] by {
      forall j | 0 <= j < |s|
        ensures 0 <= s[j]
      {
        assert s[j] in multiset(years);
      }
    }
    Years.RunsCover(s, 0, None);
    assert s[0..] == s;
    if years == [] {
      assert rs == [];
    } else {
      var hi := s[|s| - 1];
      assert forall j :: 0 <= j < |s| ==> 0 <= s[j] <= hi by {
        forall j | 0 <= j < |s|
          ensures s[j] <= hi
        {
          AscendingLast(s, j);
        }
      }
      Years.RunsBounded(s, 0, None, 0, hi);
      assert Years.RunsWithin(rs, 0, hi);
      assert years[0] in Years.Elems(years);
    }
  }

  lemma AscendingLast(s: seq<int>, j: nat)
    requires Years.Ascending(s) && j < |s|
    ensures s[j] <= s[|s| - 1]
  {
  }

  // ---------------------------------------------------------------------
  // The two loops, as each script writes them

  /**
   * `parse_years`/`parseDates`: the items' years are added to a set one
   * item at a time; the first item that does not parse raises.
   */
  method ParseYears(text: string) returns (r: Result<set<int>>)
    ensures r == RangeYears(text)
  {
    var items := Split(text, ',');
    var years: set<int> := {};
    for i := 0 to |items|
      invariant Combine(EachItem(items[i..]), years) == RangeYears(text)
    {
      assert items[i..][0] == items[i] && items[i..][1..] == items[i + 1..];
      var item := ReadItem(items[i]);
      match item {
        case Err(m) =>
          return Err(m);
        case Ok(ys) =>
          years := years + ys;
      }
    }
    assert items[|items|..] == [];
    r := Ok(years);
  }

  /** The body of the `parse_years` loop: one item, with Python's `'-' in item` test. */
  method ReadItem(item: string) returns (r: Result<set<int>>)
    ensures r == ItemYears(item)
  {
    DashTest(item);
    if '-' in item {
      var parts := Split(item, '-');
      if |parts| != 2 {
        return Err(TooManyValues);
      }
      var start := ParseInt(parts[0]);
      var end := ParseInt(parts[1]);
      if start.None? || end.None? {
        return Err(NotAnInteger);
      }
      r := Ok(Years.Between(start.value - 1, end.value));
    } else {
      var year := ParseInt(item);
      if year.None? {
        return Err(NotAnInteger);
      }
      r := Ok({year.value});
    }
  }

  /**
   * `format_years`/`formatDates`: the text does not depend on the order
   * in which the set is listed, and a non-empty set of non-negative years
   * reads back as itself.
   */
  method FormatYears(years: set<int>) returns (s: string)
    ensures forall ys :: Years.NoDups(ys) && Years.Elems(ys) == years ==> s == RangeText(ys)
    ensures years != {} && (forall y :: y in years ==> y >= 0) ==> RangeYears(s) == Ok(years)
  {
    var listed := Copyright.ListOf(years);
    var ranges := CollectSpans(Years.Sorted(listed));
    var texts := WriteSpans(ranges);
    s := Join(", ", texts);
    assert s == RangeText(listed);
    forall ys | Years.NoDups(ys) && Years.Elems(ys) == years
      ensures s == RangeText(ys)
    {
      RangeTextRuns(listed, ys);
    }
    if years != {} && (forall y :: y in years ==> y >= 0) {
      assert forall i :: 0 <= i < |listed| ==> listed[i] >= 0 by {
        forall i | 0 <= i < |listed|
          ensures listed[i] >= 0
        {
          assert listed[i] in Years.Elems(listed);
        }
      }
      RangeRoundTrip(listed);
      assert listed != [] by {
        var y :| y in years;
        assert y in Years.Elems(listed);
      }
    }
  }

  /**
   * The first loop of `format_years`: each year either extends the last
   * run (popped and pushed back longer) or opens a new one.
   */
  method CollectSpans(sorted: seq<int>) returns (ranges: seq<(int, int)>)
    ensures ranges == Years.RunsFrom(sorted, 0, None)
  {
    ranges := [];
    for i := 0 to |sorted|
      invariant i == 0 ==> ranges == []
      invariant i > 0 ==> ranges != []
      invariant ranges != [] ==>
        ranges[..|ranges| - 1] + Years.RunsFrom(sorted, i, Some(ranges[|ranges| - 1])) == Years.RunsFrom(sorted, 0, None)
    {
      var year := sorted[i];
      var start, end;
      if ranges != [] && ranges[|ranges| - 1].1 == year - 1 {
        start, end := ranges[|ranges| - 1].0, ranges[|ranges| - 1].1;
        ranges := ranges[..|ranges| - 1];
        end := year;
      } else {
        if ranges != [] {
          var last := ranges[|ranges| - 1];
          AppendAssociates(ranges[..|ranges| - 1], [last], Years.RunsFrom(sorted, i + 1, Some((year, year))));
          assert ranges[..|ranges| - 1] + [last] == ranges;
        }
        start, end := year, year;
      }
      ranges := ranges + [(start, end)];
    }
    if ranges != [] {
      assert ranges[..|ranges| - 1] + [ranges[|ranges| - 1]] == ranges;
    }
  }

  /** The second loop of `format_years`: each run written as `a - b`, or alone. */
  method WriteSpans(ranges: seq<(int, int)>) returns (texts: seq<string>)
    ensures texts == ShowSpans(ranges)
  {
    texts := [];
    for k := 0 to |ranges|
      invariant texts + ShowSpans(ranges[k..]) == ShowSpans(ranges)
    {
      var r := ranges[k];
      assert ranges[k..][1..] == ranges[k + 1..];
      AppendAssociates(texts, [ShowSpan(r)], ShowSpans(ranges[k + 1..]));
      if r.1 > r.0 {
        texts := texts + [IntToString(r.0) + " - " + IntToString(r.1)];
      } else {
        texts := texts + [IntToString(r.0)];
      }
    }
    assert texts + [] == texts;
  }
}
