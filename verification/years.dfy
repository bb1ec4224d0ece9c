/**
 * Years: the year lists of copyright notices, `lib/header/year.py`.
 *
 * `parse_years` reads text such as `1999-2001, 7` as the set of years it
 * names. Each run of digits is a year; a one- or two-digit run takes its
 * leading digits from the year before it, and a `-` in the text in front
 * of a year closes a range opened by the previous year. `format_years`
 * writes a set back as its maximal runs of consecutive years.
 */
module Years {
  import opened Text

  // ---------------------------------------------------------------------
  // The matches of `\d+`

  /** A match of `\d+`, with the text between the previous match and this one. */
  datatype Match = Match(delim: string, digits: string)

  predicate NoDigits(s: string)
  {
    forall i :: 0 <= i < |s| ==> !IsDigit(s[i])
  }

  /** The length of the run of non-digits at the start of `s`. */
  function NonDigitRun(s: string): (n: nat)
    ensures n <= |s| && NoDigits(s[..n])
    ensures n < |s| ==> IsDigit(s[n])
  {
    if s == [] || IsDigit(s[0]) then 0
    else
      var n := 1 + NonDigitRun(s[1..]);
      assert s[..n] == [s[0]] + s[1..][..n - 1];
      n
  }

  /** The length of the run of digits at the start of `s`. */
  function DigitRun(s: string): (n: nat)
    ensures n <= |s| && AllDigits(s[..n])
    ensures n < |s| ==> !IsDigit(s[n])
  {
    if s == [] || !IsDigit(s[0]) then 0
    else
      var n := 1 + DigitRun(s[1..]);
      assert s[..n] == [s[0]] + s[1..][..n - 1];
      n
  }

  /** `YEAR.finditer(s)`: the maximal runs of digits, left to right. */
  function Matches(s: string): (r: seq<Match>)
    ensures forall i :: 0 <= i < |r| ==> r[i].digits != [] && AllDigits(r[i].digits) && NoDigits(r[i].delim)
    decreases |s|
  {
    var k := NonDigitRun(s);
    if k == |s| then []
    else
      var t := s[k..];
      var n := DigitRun(t);
      [Match(s[..k], t[..n])] + Matches(t[n..])
  }

  /** The text the matches were read from, without what follows the last one. */
  function Spelled(ms: seq<Match>): string
  {
    if ms == [] then "" else ms[0].delim + ms[0].digits + Spelled(ms[1..])
  }

  /** The matches and the digit-free text after them make up the whole string. */
  lemma {:induction false} MatchesSpell(s: string)
    ensures var sp := Spelled(Matches(s)); |sp| <= |s| && s == sp + s[|sp|..] && NoDigits(s[|sp|..])
    decreases |s|
  {
    var k := NonDigitRun(s);
    if k < |s| {
      var t := s[k..];
      var n := DigitRun(t);
      var rest := t[n..];
      MatchesSpell(rest);
      var sp := Spelled(Matches(rest));
      var tail := rest[|sp|..];
      var ms := Matches(s);
      assert ms[0] == Match(s[..k], t[..n]) && ms[1..] == Matches(rest);
      assert Spelled(ms) == s[..k] + t[..n] + sp;
      SliceJoin(s, k);
      SliceJoin(t, n);
      assert s == s[..k] + (t[..n] + (sp + tail));
      AppendAssociates(t[..n], sp, tail);
      AppendAssociates(s[..k], t[..n] + sp, tail);
      AppendAssociates(s[..k], t[..n], sp);
      assert s == Spelled(ms) + tail;
      assert s[|Spelled(ms)|..] == tail;
    } else {
      assert s[0..] == s[..k];
    }
  }

  /** Matches whose separators, after the first, are non-empty and hold no digits. */
  predicate Separable(ms: seq<Match>)
  {
    forall i :: 0 <= i < |ms| ==>
      ms[i].digits != [] && AllDigits(ms[i].digits) && NoDigits(ms[i].delim) && (i > 0 ==> ms[i].delim != [])
  }

  /** `finditer` finds again the matches a text was spelled from: `Matches` inverts `Spelled`. */
  lemma {:induction false} MatchesSpelled(ms: seq<Match>)
    requires Separable(ms)
    ensures Matches(Spelled(ms)) == ms
  {
    if ms == [] {
      assert NonDigitRun("") == 0;
    } else {
      var rest := ms[1..];
      assert Separable(rest) by {
        forall i | 0 <= i < |rest|
          ensures rest[i] == ms[i + 1]
        {
        }
      }
      MatchesSpelled(rest);
      var t := Spelled(rest);
      if rest != [] {
        assert t == rest[0].delim + rest[0].digits + Spelled(rest[1..]);
        assert t[0] == rest[0].delim[0];
      }
      MatchesFront(ms[0].delim, ms[0].digits, t);
      assert ms == [ms[0]] + rest;
    }
  }

  /** A match in front of text that starts with a non-digit is the first match. */
  lemma MatchesFront(d: string, n: string, t: string)
    requires NoDigits(d) && n != [] && AllDigits(n)
    requires t == [] || !IsDigit(t[0])
    ensures Matches(d + n + t) == [Match(d, n)] + Matches(t)
  {
    var s := d + n + t;
    var u := n + t;
    assert s == d + u;
    assert s[..|d|] == d && s[|d|..] == u;
    NonDigitAt(s, d);
    DigitAt(u, n, t);
    assert u[..|n|] == n && u[|n|..] == t;
    MatchesUnfold(s, |d|, |n|);
  }

  /** One step of `finditer`: the run of non-digits, then the run of digits. */
  lemma MatchesUnfold(s: string, k: nat, n: nat)
    requires k == NonDigitRun(s) < |s| && n == DigitRun(s[k..])
    ensures Matches(s) == [Match(s[..k], s[k..][..n])] + Matches(s[k..][n..])
  {
  }

  lemma NonDigitAt(s: string, d: string)
    requires NoDigits(d) && |d| < |s| && s[..|d|] == d && IsDigit(s[|d|])
    ensures NonDigitRun(s) == |d|
    decreases |d|
  {
    if d != [] {
      assert s[1..][..|d| - 1] == d[1..];
      NonDigitAt(s[1..], d[1..]);
    }
  }

  lemma DigitAt(u: string, n: string, t: string)
    requires u == n + t && AllDigits(n) && (t == [] || !IsDigit(t[0]))
    ensures DigitRun(u) == |n|
    decreases |n|
  {
    if n != [] {
      assert u[1..] == n[1..] + t;
      DigitAt(u[1..], n[1..], t);
    }
  }

  // ---------------------------------------------------------------------
  // parse_years

  /** What the loop of `parse_years` carries from one match to the next. */
  datatype Parsing = Parsing(years: set<int>, lastyear: Option<int>)

  /** The years after `a` up to and including `b`: `range(a + 1, b + 1)`. */
  function Between(a: int, b: int): (r: set<int>)
    ensures forall y :: y in r <==> a < y <= b
    decreases b - a
  {
    if b <= a then {} else Between(a, b - 1) + {b}
  }

  /**
   * The year a match stands for: an abbreviation of one or two digits is
   * completed from the leading digits of the previous year, and the result
   * must lie between 1900 and 3000.
   */
  function Complete(m: Match, lastyear: Option<int>): (r: Result<int>)
    requires m.digits != [] && AllDigits(m.digits)
    ensures r.Ok? ==> 1900 <= r.value <= 3000
  {
    var year := DigitsValue(m.digits);
    var ndigits := |m.digits|;
    if ndigits < 4 && (lastyear.None? || ndigits > 2) then Err("year out of range: " + NatToString(year))
    else
      var y := if ndigits < 4 then (lastyear.value / Pow10(ndigits)) * Pow10(ndigits) + year else year;
      if !(1900 <= y <= 3000) then Err("year out of range: " + IntToString(y))
      else Ok(y)
  }

  /** One round of the loop of `parse_years`; `text` is the whole input, quoted by two of the errors. */
  function Absorb(p: Parsing, m: Match, text: string): (r: Result<Parsing>)
    requires m.digits != [] && AllDigits(m.digits)
  {
    match Complete(m, p.lastyear)
    case Err(msg) => Err(msg)
    case Ok(year) =>
      if '-' in m.delim then
        if p.lastyear.None? || ',' in m.delim then Err("cannot parse year range: " + text)
        else if year > p.lastyear.value then Ok(Parsing(p.years + Between(p.lastyear.value, year), None))
        else Err("year range goes backwards: " + text)
      else Ok(Parsing(p.years + {year}, Some(year)))
  }

  /** The loop of `parse_years` over the matches from `p` on. */
  function AbsorbAll(ms: seq<Match>, p: Parsing, text: string): (r: Result<set<int>>)
    requires forall i :: 0 <= i < |ms| ==> ms[i].digits != [] && AllDigits(ms[i].digits)
  {
    if ms == [] then Ok(p.years)
    else match Absorb(p, ms[0], text)
      case Err(msg) => Err(msg)
      case Ok(q) => AbsorbAll(ms[1..], q, text)
  }

  /** `parse_years(text)`, with a ValueError as `Err`. */
  function Parsed(text: string): Result<set<int>>
  {
    AbsorbAll(Matches(text), Parsing({}, None), text)
  }

  /** `parse_years`: the years of each match in turn. */
  method ParseYears(text: string) returns (r: Result<set<int>>)
    ensures r == Parsed(text)
  {
    var ms := Matches(text);
    var yearset: set<int> := {};
    var lastyear: Option<int> := None;
    var i := 0;
    while i < |ms|
      invariant 0 <= i <= |ms|
      invariant AbsorbAll(ms[i..], Parsing(yearset, lastyear), text) == Parsed(text)
    {
      assert ms[i..][1..] == ms[i + 1..];
      var next := AbsorbMatch(yearset, lastyear, ms[i], text);
      if next.Err? {
        return Err(next.msg);
      }
      yearset, lastyear := next.value.years, next.value.lastyear;
      i := i + 1;
    }
    return Ok(yearset);
  }

  /** The body of the loop of `parse_years`, for one match. */
  method AbsorbMatch(yearset: set<int>, lastyear: Option<int>, m: Match, text: string) returns (r: Result<Parsing>)
    requires m.digits != [] && AllDigits(m.digits)
    ensures r == Absorb(Parsing(yearset, lastyear), m, text)
  {
    var y := CompleteYear(m, lastyear);
    if y.Err? {
      return Err(y.msg);
    }
    var year := y.value;
    if '-' in m.delim {
      if lastyear.None? || ',' in m.delim {
        return Err("cannot parse year range: " + text);
      }
      if year > lastyear.value {
        return Ok(Parsing(yearset + Between(lastyear.value, year), None));
      } else {
        return Err("year range goes backwards: " + text);
      }
    }
    return Ok(Parsing(yearset + {year}, Some(year)));
  }

  /** The first half of the loop body: the year a match stands for, checked for range. */
  method CompleteYear(m: Match, lastyear: Option<int>) returns (r: Result<int>)
    requires m.digits != [] && AllDigits(m.digits)
    ensures r == Complete(m, lastyear)
  {
    var year := DigitsValue(m.digits);
    var ndigits := |m.digits|;
    if ndigits < 4 {
      if lastyear.None? || ndigits > 2 {
        return Err("year out of range: " + NatToString(year));
      }
      year := (lastyear.value / Pow10(ndigits)) * Pow10(ndigits) + year;
    }
    if !(1900 <= year <= 3000) {
      return Err("year out of range: " + IntToString(year));
    }
    return Ok(year);
  }

  /** Every year `parse_years` returns lies between 1900 and 3000. */
  lemma {:induction false} AbsorbInRange(ms: seq<Match>, p: Parsing, text: string)
    requires forall i :: 0 <= i < |ms| ==> ms[i].digits != [] && AllDigits(ms[i].digits)
    requires forall y :: y in p.years ==> 1900 <= y <= 3000
    requires p.lastyear.Some? ==> 1900 <= p.lastyear.value <= 3000
    ensures AbsorbAll(ms, p, text).Ok? ==> forall y :: y in AbsorbAll(ms, p, text).value ==> 1900 <= y <= 3000
    decreases |ms|
  {
    if ms != [] {
      var r := Absorb(p, ms[0], text);
      if r.Ok? {
        AbsorbInRange(ms[1..], r.value, text);
      }
    }
  }

  lemma YearsInRange(text: string)
    ensures Parsed(text).Ok? ==> forall y :: y in Parsed(text).value ==> 1900 <= y <= 3000
  {
    AbsorbInRange(Matches(text), Parsing({}, None), text);
  }

  // ---------------------------------------------------------------------
  // format_years
  //
  // `format_years` starts from `list(yearset)`, whose order Python leaves
  // unspecified; the model takes that list as its input.

  /** The elements of a list, as a set. */
  function Elems(ys: seq<int>): set<int>
  {
    set y | y in ys
  }

  /** Each element is at most every later one. */
  predicate Ascending(ys: seq<int>)
  {
    forall i, j :: 0 <= i < j < |ys| ==> ys[i] <= ys[j]
  }

  /** No element occurs twice, as in a list made from a set. */
  predicate NoDups(ys: seq<int>)
  {
    forall i, j :: 0 <= i < j < |ys| ==> ys[i] != ys[j]
  }

  /** `x` put in its place in an ascending list. */
  function Insert(x: int, ys: seq<int>): (r: seq<int>)
    requires Ascending(ys)
    ensures Ascending(r) && multiset(r) == multiset(ys) + multiset{x}
  {
    if ys == [] || x <= ys[0] then
      InsertFront(x, ys);
      [x] + ys
    else
      var t := Insert(x, ys[1..]);
      InsertBehind(x, ys, t);
      [ys[0]] + t
  }

  lemma InsertFront(x: int, ys: seq<int>)
    requires Ascending(ys) && (ys == [] || x <= ys[0])
    ensures Ascending([x] + ys) && multiset([x] + ys) == multiset(ys) + multiset{x}
  {
  }

  /** `ys[0]`, which is smaller than `x`, stays in front of `x` inserted into the rest. */
  lemma InsertBehind(x: int, ys: seq<int>, t: seq<int>)
    requires Ascending(ys) && ys != [] && ys[0] < x
    requires Ascending(t) && multiset(t) == multiset(ys[1..]) + multiset{x}
    ensures Ascending([ys[0]] + t) && multiset([ys[0]] + t) == multiset(ys) + multiset{x}
  {
    assert ys == [ys[0]] + ys[1..];
    forall k | 0 <= k < |t|
      ensures ys[0] <= t[k]
    {
      assert t[k] in multiset(t);
      if t[k] != x {
        assert t[k] in multiset(ys[1..]);
      }
    }
  }

  /** `yearlist.sort()`: the same elements, in ascending order. */
  function Sorted(xs: seq<int>): (r: seq<int>)
    ensures Ascending(r) && multiset(r) == multiset(xs)
  {
    if xs == [] then []
    else
      assert xs == [xs[0]] + xs[1..];
      Insert(xs[0], Sorted(xs[1..]))
  }

  /** Two ascending lists with the same elements are the same list. */
  lemma {:induction false} AscendingUnique(a: seq<int>, b: seq<int>)
    requires Ascending(a) && Ascending(b) && multiset(a) == multiset(b)
    ensures a == b
    decreases |a|
  {
    if a != [] {
      assert a[0] in multiset(b);
      assert b != [];
      assert b[0] in multiset(a);
      assert a[0] == b[0] by {
        var i :| 0 <= i < |b| && b[i] == a[0];
        var j :| 0 <= j < |a| && a[j] == b[0];
        assert b[0] <= b[i] && a[0] <= a[j];
      }
      TailMultiset(a);
      TailMultiset(b);
      AscendingUnique(a[1..], b[1..]);
    } else {
      assert |multiset(b)| == 0;
    }
  }

  lemma TailMultiset(a: seq<int>)
    requires a != []
    ensures multiset(a[1..]) == multiset(a) - multiset{a[0]}
  {
    assert a == [a[0]] + a[1..];
  }

  /** A list without repeated elements holds each value at most once. */
  lemma {:induction false} NoDupsCount(ys: seq<int>, y: int)
    requires NoDups(ys)
    ensures multiset(ys)[y] <= 1
    decreases |ys|
  {
    if ys != [] {
      assert ys == [ys[0]] + ys[1..];
      NoDupsCount(ys[1..], y);
      if ys[0] == y {
        assert y !in ys[1..];
      }
    }
  }

  /** A value at two positions is counted twice. */
  lemma DupCounted(ys: seq<int>, i: nat, j: nat)
    requires i < j < |ys| && ys[i] == ys[j]
    ensures multiset(ys)[ys[i]] >= 2
  {
    assert ys == ys[..j] + ys[j..];
    assert ys[i] in ys[..j] && ys[j] in ys[j..];
  }

  /** Sorting a list without repeats gives a strictly increasing list. */
  lemma SortedIncreasing(xs: seq<int>)
    requires NoDups(xs)
    ensures NoDups(Sorted(xs))
  {
    var s := Sorted(xs);
    forall i, j | 0 <= i < j < |s|
      ensures s[i] != s[j]
    {
      if s[i] == s[j] {
        DupCounted(s, i, j);
        NoDupsCount(xs, s[i]);
        assert false;
      }
    }
  }

  /**
   * The runs the first loop of `format_years` collects from position `i`
   * of the sorted list on, `open` being the run it is extending.
   */
  function RunsFrom(ys: seq<int>, i: nat, open: Option<(int, int)>): (rs: seq<(int, int)>)
    requires i <= |ys|
    decreases |ys| - i
  {
    if i == |ys| then (if open.Some? then [open.value] else [])
    else if open.None? then RunsFrom(ys, i + 1, Some((ys[i], ys[i])))
    else if ys[i] == open.value.1 + 1 then RunsFrom(ys, i + 1, Some((open.value.0, ys[i])))
    else [open.value] + RunsFrom(ys, i + 1, Some((ys[i], ys[i])))
  }

  /** The runs `format_years` finds in a list of years. */
  function Runs(years: seq<int>): seq<(int, int)>
  {
    RunsFrom(Sorted(years), 0, None)
  }

  /** The years from `a` to `b`. */
  function Span(r: (int, int)): set<int>
  {
    Between(r.0 - 1, r.1)
  }

  /** The years a list of runs covers. */
  function Cover(rs: seq<(int, int)>): set<int>
  {
    if rs == [] then {} else Span(rs[0]) + Cover(rs[1..])
  }

  /** How `format_years` writes one run. */
  function ShowRun(r: (int, int)): string
  {
    if r.0 < r.1 then IntToString(r.0) + "-" + IntToString(r.1) else IntToString(r.0)
  }

  /** Each run written out, in order. */
  function ShowRuns(rs: seq<(int, int)>): (r: seq<string>)
    ensures |r| == |rs|
  {
    if rs == [] then [] else [ShowRun(rs[0])] + ShowRuns(rs[1..])
  }

  /** `format_years` applied to `list(yearset)`. */
  function Formatted(years: seq<int>): string
  {
    Join(", ", ShowRuns(Runs(years)))
  }

  /** `format_years`: collect the runs of the sorted years, then write them out. */
  method FormatYears(years: seq<int>) returns (s: string)
    ensures s == Formatted(years)
  {
    var yearlist := Sorted(years);
    var ranges := CollectRuns(yearlist);
    var tranges := WriteRuns(ranges);
    s := Join(", ", tranges);
  }

  /** The first loop of `format_years`: the runs of consecutive years of a sorted list. */
  method CollectRuns(yearlist: seq<int>) returns (ranges: seq<(int, int)>)
    ensures ranges == RunsFrom(yearlist, 0, None)
  {
    var firstyear: Option<int> := None;
    var lastyear := 0;
    ranges := [];
    var i := 0;
    while i < |yearlist|
      invariant 0 <= i <= |yearlist|
      invariant ranges + RunsFrom(yearlist, i, if firstyear.Some? then Some((firstyear.value, lastyear)) else None)
             == RunsFrom(yearlist, 0, None)
    {
      var year := yearlist[i];
      if firstyear.None? {
        firstyear := Some(year);
        lastyear := year;
      } else if year == lastyear + 1 {
        lastyear := year;
      } else {
        AppendAssociates(ranges, [(firstyear.value, lastyear)], RunsFrom(yearlist, i + 1, Some((year, year))));
        ranges := ranges + [(firstyear.value, lastyear)];
        firstyear := Some(year);
        lastyear := year;
      }
      i := i + 1;
    }
    if firstyear.Some? {
      ranges := ranges + [(firstyear.value, lastyear)];
    } else {
      assert ranges + [] == ranges;
    }
  }

  /** The second loop of `format_years`: each run as `first-last`, or alone. */
  method WriteRuns(ranges: seq<(int, int)>) returns (tranges: seq<string>)
    ensures tranges == ShowRuns(ranges)
  {
    tranges := [];
    for k := 0 to |ranges|
      invariant tranges + ShowRuns(ranges[k..]) == ShowRuns(ranges)
    {
      var r := ranges[k];
      assert ranges[k..][1..] == ranges[k + 1..];
      AppendAssociates(tranges, [ShowRun(r)], ShowRuns(ranges[k + 1..]));
      if r.0 < r.1 {
        tranges := tranges + [IntToString(r.0) + "-" + IntToString(r.1)];
      } else {
        tranges := tranges + [IntToString(r.0)];
      }
    }
    assert tranges + [] == tranges;
  }

  // ---------------------------------------------------------------------
  // What `format_years` writes, and reading it back

  lemma SortedElems(xs: seq<int>)
    ensures Elems(Sorted(xs)) == Elems(xs)
  {
    var s := Sorted(xs);
    forall y
      ensures y in s <==> y in xs
    {
      assert y in s <==> y in multiset(s);
      assert y in xs <==> y in multiset(xs);
    }
  }

  lemma ElemsStep(ys: seq<int>, i: nat)
    requires i < |ys|
    ensures Elems(ys[i..]) == {ys[i]} + Elems(ys[i + 1..])
  {
    assert ys[i..] == [ys[i]] + ys[i + 1..];
  }

  lemma CoverCons(r: (int, int), rs: seq<(int, int)>)
    ensures Cover([r] + rs) == Span(r) + Cover(rs)
  {
    assert ([r] + rs)[1..] == rs;
  }

  /** Together, the runs cover exactly the years of the list. */
  lemma {:induction false} RunsCover(ys: seq<int>, i: nat, open: Option<(int, int)>)
    requires i <= |ys| && Ascending(ys)
    requires open.Some? ==> open.value.0 <= open.value.1 && (i < |ys| ==> open.value.1 <= ys[i])
    ensures Cover(RunsFrom(ys, i, open)) == (if open.Some? then Span(open.value) else {}) + Elems(ys[i..])
    decreases |ys| - i
  {
    if i == |ys| {
      assert Elems(ys[i..]) == {};
      if open.Some? {
        CoverCons(open.value, []);
      }
    } else {
      var y := ys[i];
      ElemsStep(ys, i);
      if open.None? {
        RunsCover(ys, i + 1, Some((y, y)));
      } else if y == open.value.1 + 1 {
        RunsCover(ys, i + 1, Some((open.value.0, y)));
      } else {
        RunsCover(ys, i + 1, Some((y, y)));
        CoverCons(open.value, RunsFrom(ys, i + 1, Some((y, y))));
      }
    }
  }

  /** Every run runs forwards and lies between `lo` and `hi`. */
  predicate RunsWithin(rs: seq<(int, int)>, lo: int, hi: int)
  {
    forall k :: 0 <= k < |rs| ==> lo <= rs[k].0 <= rs[k].1 <= hi
  }

  /** Each run starts at or after where it opened and ends at a year of the list. */
  lemma {:induction false} RunsBounded(ys: seq<int>, i: nat, open: Option<(int, int)>, lo: int, hi: int)
    requires i <= |ys| && Ascending(ys)
    requires forall j :: i <= j < |ys| ==> lo <= ys[j] <= hi
    requires open.Some? ==> lo <= open.value.0 <= open.value.1 <= hi && (i < |ys| ==> open.value.1 <= ys[i])
    ensures RunsWithin(RunsFrom(ys, i, open), lo, hi)
    decreases |ys| - i
  {
    if i < |ys| {
      var y := ys[i];
      if open.None? {
        RunsBounded(ys, i + 1, Some((y, y)), lo, hi);
      } else if y == open.value.1 + 1 {
        RunsBounded(ys, i + 1, Some((open.value.0, y)), lo, hi);
      } else {
        RunsBounded(ys, i + 1, Some((y, y)), lo, hi);
      }
    }
  }

  /** Between two consecutive runs at least one year is missing. */
  predicate Separated(rs: seq<(int, int)>)
  {
    forall k :: 0 <= k < |rs| - 1 ==> rs[k].1 + 1 < rs[k + 1].0
  }

  /** On a list without repeats the runs are maximal: no two of them could be merged. */
  lemma {:induction false} RunsSeparated(ys: seq<int>, i: nat, open: Option<(int, int)>)
    requires i <= |ys| && Ascending(ys) && NoDups(ys)
    requires open.Some? && i < |ys| ==> open.value.1 < ys[i]
    ensures var rs := RunsFrom(ys, i, open);
      Separated(rs) && (rs == [] <==> open.None? && i == |ys|)
      && (rs != [] ==> rs[0].0 == if open.Some? then open.value.0 else ys[i])
    decreases |ys| - i
  {
    if i < |ys| {
      var y := ys[i];
      if open.None? {
        RunsSeparated(ys, i + 1, Some((y, y)));
      } else if y == open.value.1 + 1 {
        RunsSeparated(ys, i + 1, Some((open.value.0, y)));
      } else {
        RunsSeparated(ys, i + 1, Some((y, y)));
        var rest := RunsFrom(ys, i + 1, Some((y, y)));
        var rs := [open.value] + rest;
        forall k | 0 <= k < |rs| - 1
          ensures rs[k].1 + 1 < rs[k + 1].0
        {
          if k > 0 {
            assert rs[k] == rest[k - 1] && rs[k + 1] == rest[k];
          }
        }
      }
    }
  }

  /**
   * `format_years` on a list made from a set writes the maximal runs of
   * consecutive years, in ascending order, and they cover exactly the set.
   */
  lemma FormatRuns(years: seq<int>)
    requires NoDups(years)
    ensures Separated(Runs(years)) && Cover(Runs(years)) == Elems(years)
    ensures forall k :: 0 <= k < |Runs(years)| ==> Runs(years)[k].0 <= Runs(years)[k].1
  {
    var s := Sorted(years);
    SortedIncreasing(years);
    RunsSeparated(s, 0, None);
    RunsCover(s, 0, None);
    assert s[0..] == s;
    SortedElems(years);
    var lo, hi := 0, 0;
    if s != [] {
      lo, hi := s[0], s[|s| - 1];
    }
    RunsBounded(s, 0, None, lo, hi);
  }

  /** Lists without repeats that hold the same years are formatted alike. */
  lemma FormatOrderFree(ys: seq<int>, zs: seq<int>)
    requires NoDups(ys) && NoDups(zs) && Elems(ys) == Elems(zs)
    ensures Formatted(ys) == Formatted(zs)
  {
    forall v
      ensures multiset(ys)[v] == multiset(zs)[v]
    {
      NoDupsCount(ys, v);
      NoDupsCount(zs, v);
      assert v in ys <==> v in Elems(ys);
      assert v in zs <==> v in Elems(zs);
      assert v in ys <==> v in multiset(ys);
      assert v in zs <==> v in multiset(zs);
    }
    assert multiset(ys) == multiset(zs);
    AscendingUnique(Sorted(ys), Sorted(zs));
  }

  /** The text written for runs `rs`, the first preceded by `d` and each later one by a comma. */
  function Written(rs: seq<(int, int)>, d: string): string
  {
    if rs == [] then "" else d + ShowRun(rs[0]) + Written(rs[1..], ", ")
  }

  lemma {:induction false} JoinWritten(rs: seq<(int, int)>, d: string)
    requires rs != []
    ensures Written(rs, d) == d + Join(", ", ShowRuns(rs))
    decreases |rs|
  {
    var t := rs[1..];
    var a := ShowRun(rs[0]);
    assert ShowRuns(rs) == [a] + ShowRuns(t);
    if t == [] {
      assert Written(rs, d) == d + a + "";
    } else {
      JoinWritten(t, ", ");
      assert ShowRuns(rs)[1..] == ShowRuns(t);
      assert Join(", ", ShowRuns(rs)) == a + ", " + Join(", ", ShowRuns(t));
      AppendAssociates(d + a, ", ", Join(", ", ShowRuns(t)));
      AppendAssociates(d, a + ", ", Join(", ", ShowRuns(t)));
      AppendAssociates(d, a, ", ");
    }
  }

  /** The matches of `\d+` in the text of one run, preceded by `d`. */
  function RunMatches(r: (int, int), d: string): (ms: seq<Match>)
    requires 1900 <= r.0 <= r.1 <= 3000
    ensures forall i :: 0 <= i < |ms| ==> ms[i].digits != [] && AllDigits(ms[i].digits)
  {
    if r.0 < r.1 then [Match(d, NatToString(r.0)), Match("-", NatToString(r.1))] else [Match(d, NatToString(r.0))]
  }

  /** The matches of `\d+` in `Written(rs, d)`. */
  function Expected(rs: seq<(int, int)>, d: string): (ms: seq<Match>)
    requires RunsWithin(rs, 1900, 3000)
    ensures forall i :: 0 <= i < |ms| ==> ms[i].digits != [] && AllDigits(ms[i].digits)
  {
    if rs == [] then [] else RunMatches(rs[0], d) + Expected(rs[1..], ", ")
  }

  lemma {:induction false} WrittenMatches(rs: seq<(int, int)>, d: string)
    requires RunsWithin(rs, 1900, 3000) && NoDigits(d)
    ensures Matches(Written(rs, d)) == Expected(rs, d)
    decreases |rs|
  {
    if rs == [] {
      assert NonDigitRun("") == 0;
    } else {
      var r := rs[0];
      var w := Written(rs[1..], ", ");
      WrittenMatches(rs[1..], ", ");
      WrittenStart(rs[1..]);
      if r.0 < r.1 {
        MatchesRange(d, NatToString(r.0), NatToString(r.1), w);
      } else {
        MatchesFront(d, NatToString(r.0), w);
      }
    }
  }

  lemma WrittenStart(rs: seq<(int, int)>)
    ensures Written(rs, ", ") == [] || Written(rs, ", ")[0] == ','
  {
  }

  /** The two matches of a written range `a-b`. */
  lemma MatchesRange(d: string, a: string, b: string, w: string)
    requires NoDigits(d) && a != [] && AllDigits(a) && b != [] && AllDigits(b)
    requires w == [] || w[0] == ','
    ensures Matches(d + (a + "-" + b) + w) == [Match(d, a), Match("-", b)] + Matches(w)
  {
    var t := "-" + b + w;
    MatchesFront("-", b, w);
    MatchesFront(d, a, t);
    RangeText(d, a, b, w);
    PairFront(Match(d, a), Match("-", b), Matches(w));
  }

  lemma RangeText(d: string, a: string, b: string, w: string)
    ensures d + (a + "-" + b) + w == d + a + ("-" + b + w)
  {
    AppendAssociates(a + "-", b, w);
    AppendAssociates(a, "-", b + w);
    AppendAssociates("-", b, w);
    AppendAssociates(d, a + "-" + b, w);
    AppendAssociates(d, a, "-" + b + w);
  }

  lemma PairFront<T>(x: T, y: T, s: seq<T>)
    ensures [x] + ([y] + s) == [x, y] + s
  {
  }

  /** A year between 1900 and 3000 written in full reads back as itself. */
  lemma ShownYear(y: int, d: string, lastyear: Option<int>)
    requires 1900 <= y <= 3000
    ensures Complete(Match(d, NatToString(y)), lastyear) == Ok(y)
  {
    assert Pow10(3) == 1000 by {
      assert Pow10(1) == 10;
    }
    assert Pow10(4) == 10000;
    NatToStringLength(y, 4);
  }

  lemma {:induction false} ExpectedAbsorb(rs: seq<(int, int)>, d: string, p: Parsing, text: string)
    requires RunsWithin(rs, 1900, 3000) && '-' !in d
    ensures AbsorbAll(Expected(rs, d), p, text) == Ok(p.years + Cover(rs))
    decreases |rs|
  {
    if rs != [] {
      var q := AbsorbRun(rs[0], d, Expected(rs[1..], ", "), p, text);
      ExpectedAbsorb(rs[1..], ", ", q, text);
      CoverFront(p.years, rs);
    } else {
      assert p.years + Cover(rs) == p.years;
    }
  }

  lemma CoverFront(years: set<int>, rs: seq<(int, int)>)
    requires rs != []
    ensures years + Span(rs[0]) + Cover(rs[1..]) == years + Cover(rs)
  {
  }

  /** The matches of one run add its years and leave the loop in state `q`. */
  lemma AbsorbRun(r: (int, int), d: string, ms: seq<Match>, p: Parsing, text: string) returns (q: Parsing)
    requires 1900 <= r.0 <= r.1 <= 3000 && '-' !in d
    requires forall i :: 0 <= i < |ms| ==> ms[i].digits != [] && AllDigits(ms[i].digits)
    ensures q.years == p.years + Span(r)
    ensures AbsorbAll(RunMatches(r, d) + ms, p, text) == AbsorbAll(ms, q, text)
  {
    if r.0 < r.1 {
      q := Parsing(p.years + {r.0} + Between(r.0, r.1), None);
      AbsorbPair(r.0, r.1, d, ms, p, text);
      SpanSplit(r);
    } else {
      q := Parsing(p.years + {r.0}, Some(r.0));
      AbsorbYear(p, r.0, d, text);
      AbsorbCons(Match(d, NatToString(r.0)), ms, p, q, text);
      SpanSplit(r);
    }
  }

  lemma AbsorbPair(a: int, b: int, d: string, ms: seq<Match>, p: Parsing, text: string)
    requires 1900 <= a < b <= 3000 && '-' !in d
    requires forall i :: 0 <= i < |ms| ==> ms[i].digits != [] && AllDigits(ms[i].digits)
    ensures AbsorbAll([Match(d, NatToString(a)), Match("-", NatToString(b))] + ms, p, text)
         == AbsorbAll(ms, Parsing(p.years + {a} + Between(a, b), None), text)
  {
    var m := Match(d, NatToString(a));
    var m2 := Match("-", NatToString(b));
    var q1 := Parsing(p.years + {a}, Some(a));
    AbsorbYear(p, a, d, text);
    AbsorbRange(q1, a, b, text);
    PairFront(m, m2, ms);
    AbsorbCons(m, [m2] + ms, p, q1, text);
    AbsorbCons(m2, ms, q1, Parsing(q1.years + Between(a, b), None), text);
  }

  lemma SpanSplit(r: (int, int))
    requires r.0 <= r.1
    ensures Span(r) == {r.0} + Between(r.0, r.1)
  {
  }

  /** A year written in full, after a separator without `-`, is added and remembered. */
  lemma AbsorbYear(p: Parsing, y: int, d: string, text: string)
    requires 1900 <= y <= 3000 && '-' !in d
    ensures Absorb(p, Match(d, NatToString(y)), text) == Ok(Parsing(p.years + {y}, Some(y)))
  {
    ShownYear(y, d, p.lastyear);
  }

  /** A year written in full after `-` closes the range the previous year opened. */
  lemma AbsorbRange(q: Parsing, a: int, b: int, text: string)
    requires 1900 <= a < b <= 3000 && q.lastyear == Some(a)
    ensures Absorb(q, Match("-", NatToString(b)), text) == Ok(Parsing(q.years + Between(a, b), None))
  {
    ShownYear(b, "-", q.lastyear);
  }

  /** A match the loop absorbs without error hands its state on to the rest. */
  lemma AbsorbCons(m: Match, ms: seq<Match>, p: Parsing, q: Parsing, text: string)
    requires m.digits != [] && AllDigits(m.digits)
    requires forall i :: 0 <= i < |ms| ==> ms[i].digits != [] && AllDigits(ms[i].digits)
    requires Absorb(p, m, text) == Ok(q)
    ensures AbsorbAll([m] + ms, p, text) == AbsorbAll(ms, q, text)
  {
    assert ([m] + ms)[0] == m && ([m] + ms)[1..] == ms;
  }

  /** Reading back what `format_years` writes gives the years it was given. */
  lemma FormatParses(years: seq<int>)
    requires forall i :: 0 <= i < |years| ==> 1900 <= years[i] <= 3000
    ensures Parsed(Formatted(years)) == Ok(Elems(years))
  {
    var s := Sorted(years);
    forall j | 0 <= j < |s|
      ensures 1900 <= s[j] <= 3000
    {
      assert s[j] in multiset(years);
    }
    RunsBounded(s, 0, None, 1900, 3000);
    RunsCover(s, 0, None);
    assert s[0..] == s;
    SortedElems(years);
    var rs := Runs(years);
    if rs != [] {
      JoinWritten(rs, "");
    }
    assert Formatted(years) == Written(rs, "");
    WrittenMatches(rs, "");
    ExpectedAbsorb(rs, "", Parsing({}, None), Formatted(years));
  }
}
