// Copyright authorship table (lib/header/copyright.py): authors mapped to
// the sets of years they hold copyright for, read from and written as
// "Copyright <years> <author>" notices.

module Copyright {
  import opened Text
  import opened Years

  // ---------------------------------------------------------------------
  // Author names

  /** An author's name as stored: stripped, and ending with a full stop. */
  function Normalize(author: string): (r: string)
    ensures EndsWith(r, ".")
    ensures r == Strip(author) || r == Strip(author) + "."
  {
    var a := Strip(author);
    if EndsWith(a, ".") then a else a + "."
  }

  /** Normalising a normalised name changes nothing. */
  lemma NormalizeIdempotent(author: string)
    ensures Normalize(Normalize(author)) == Normalize(author)
  {
    var a := Strip(author);
    if EndsWith(a, ".") {
      StripOfTrimmed(a);
    } else {
      var n := a + ".";
      assert n[|n| - 1] == '.' && n[0] == (if a == [] then '.' else a[0]);
      StripOfTrimmed(n);
      assert n[|n| - 1..] == ".";
    }
  }

  /** The table after `add_author(author, years)`. */
  function Added(authors: map<string, set<int>>, author: string, years: set<int>): (r: map<string, set<int>>)
    ensures r.Keys == authors.Keys + {Normalize(author)}
    ensures r[Normalize(author)] == (if Normalize(author) in authors then authors[Normalize(author)] else {}) + years
    ensures forall a :: a in authors && a != Normalize(author) ==> r[a] == authors[a]
  {
    var a := Normalize(author);
    authors[a := (if a in authors then authors[a] else {}) + years]
  }

  // ---------------------------------------------------------------------
  // Grouping the lines of a notice

  /** A line that starts a notice: it says COPYRIGHT in any case. */
  predicate Marked(line: string)
  {
    Contains(Upper(line), "COPYRIGHT")
  }

  /** A line that ends a notice: it ends with a full stop, or holds no digit. */
  predicate Ends(line: string)
  {
    EndsWith(RStrip(line), ".") || !HasDigit(line)
  }

  /** The groups so far, and whether the last one is still taking lines. */
  type Grouping = (seq<seq<string>>, bool)

  /** One step of the grouping loop of `parse`. */
  function GroupStep(st: Grouping, line: string): (r: Grouping)
    requires st.1 ==> st.0 != []
    ensures r.1 ==> r.0 != []
  {
    var (gs, open) := if Marked(line) then (st.0 + [[]], true) else st;
    if open then (gs[..|gs| - 1] + [gs[|gs| - 1] + [line]], !Ends(line)) else (gs, false)
  }

  /** The state of the grouping loop after the given lines. */
  function Grouped(lines: seq<string>): (r: Grouping)
    ensures r.1 ==> r.0 != []
  {
    if lines == [] then ([], false)
    else GroupStep(Grouped(lines[..|lines| - 1]), lines[|lines| - 1])
  }

  /**
   * A well-formed group: it starts at a marked line, no later line of it is
   * marked, and no line but its last ends it.
   */
  predicate GroupOk(g: seq<string>)
  {
    && g != [] && Marked(g[0])
    && (forall k :: 1 <= k < |g| ==> !Marked(g[k]))
    && (forall k :: 0 <= k < |g| - 1 ==> !Ends(g[k]))
  }

  predicate WellGrouped(st: Grouping)
  {
    && (forall j :: 0 <= j < |st.0| ==> GroupOk(st.0[j]))
    && (st.1 ==> st.0 != [] && !Ends(st.0[|st.0| - 1][|st.0[|st.0| - 1]| - 1]))
  }

  /** The number of lines that start a notice. */
  function MarkedCount(lines: seq<string>): nat
  {
    if lines == [] then 0
    else MarkedCount(lines[..|lines| - 1]) + (if Marked(lines[|lines| - 1]) then 1 else 0)
  }

  /** Every group of `parse` is well formed, and each marked line starts one. */
  lemma {:induction false} GroupedShape(lines: seq<string>)
    ensures WellGrouped(Grouped(lines))
    ensures |Grouped(lines).0| == MarkedCount(lines)
  {
    if lines != [] {
      GroupedShape(lines[..|lines| - 1]);
      StepKeepsShape(Grouped(lines[..|lines| - 1]), lines[|lines| - 1]);
    }
  }

  lemma StepKeepsShape(st: Grouping, line: string)
    requires st.1 ==> st.0 != []
    requires WellGrouped(st)
    ensures WellGrouped(GroupStep(st, line))
    ensures |GroupStep(st, line).0| == |st.0| + (if Marked(line) then 1 else 0)
  {
    GroupStepCases(st, line);
    if Marked(line) {
      ExtendGroup([], line);
      AllGroupsOk(st.0, [line]);
    } else if st.1 {
      var gs := st.0[..|st.0| - 1];
      var last := st.0[|st.0| - 1];
      ExtendGroup(last, line);
      assert forall j :: 0 <= j < |gs| ==> gs[j] == st.0[j];
      AllGroupsOk(gs, last + [line]);
    }
  }

  lemma GroupStepCases(st: Grouping, line: string)
    requires st.1 ==> st.0 != []
    ensures Marked(line) ==> GroupStep(st, line) == (st.0 + [[] + [line]], !Ends(line))
    ensures !Marked(line) && st.1 ==> GroupStep(st, line) == (st.0[..|st.0| - 1] + [st.0[|st.0| - 1] + [line]], !Ends(line))
    ensures !Marked(line) && !st.1 ==> GroupStep(st, line) == st
  {
    if Marked(line) {
      assert (st.0 + [[]])[..|st.0|] == st.0;
    }
  }

  /** A line joins a group when it starts it, or when it is unmarked and the group is open. */
  lemma ExtendGroup(g: seq<string>, line: string)
    requires (g == [] && Marked(line)) || (GroupOk(g) && !Ends(g[|g| - 1]) && !Marked(line))
    ensures GroupOk(g + [line]) && (g + [line])[|g|] == line
  {
    var h := g + [line];
    forall k | 0 <= k < |h| - 1
      ensures h[k] == g[k]
    {
    }
  }

  lemma AllGroupsOk(gs: seq<seq<string>>, g: seq<string>)
    requires forall j :: 0 <= j < |gs| ==> GroupOk(gs[j])
    requires GroupOk(g)
    ensures forall j :: 0 <= j < |gs + [g]| ==> GroupOk((gs + [g])[j])
  {
    forall j | 0 <= j < |gs + [g]|
      ensures GroupOk((gs + [g])[j])
    {
      if j < |gs| {
        assert (gs + [g])[j] == gs[j];
      }
    }
  }

  // The groups as slices of the input. The definitions take the two line
  // tests as parameters, so that the proofs below do not look inside
  // `Marked` and `Ends`; `GroupedSlices` applies them to those two.

  /** The positions of the lines that start a notice, in order. */
  function StartsOf(marked: string -> bool, lines: seq<string>): (r: seq<nat>)
    ensures forall j :: 0 <= j < |r| ==> r[j] < |lines| && marked(lines[r[j]])
    ensures forall j, k :: 0 <= j < k < |r| ==> r[j] < r[k]
    ensures forall k :: 0 <= k < |lines| && marked(lines[k]) ==> k in r
  {
    if lines == [] then []
    else
      var p := lines[..|lines| - 1];
      assert forall k :: 0 <= k < |p| ==> p[k] == lines[k];
      StartsOf(marked, p) + (if marked(lines[|p|]) then [|p|] else [])
  }

  /**
   * One past the last line of the notice that starts at line `s`: it runs
   * up to and including the first line that ends it, but stops short of
   * the next line that starts a notice, and of the end of the input
   * (`EndOfSpec`).
   */
  function EndOf(marked: string -> bool, ends: string -> bool, lines: seq<string>, s: nat): (e: nat)
    requires s < |lines|
    ensures s < e <= |lines|
    decreases |lines| - s
  {
    if ends(lines[s]) || s + 1 == |lines| || marked(lines[s + 1]) then s + 1
    else EndOf(marked, ends, lines, s + 1)
  }

  /** No line inside a notice starts another or ends it early; one that stops short is ended or cut off. */
  lemma {:induction false} EndOfSpec(marked: string -> bool, ends: string -> bool, lines: seq<string>, s: nat)
    requires s < |lines|
    ensures forall k :: s < k < EndOf(marked, ends, lines, s) ==> !marked(lines[k])
    ensures forall k :: s <= k < EndOf(marked, ends, lines, s) - 1 ==> !ends(lines[k])
    ensures var e := EndOf(marked, ends, lines, s);
      e < |lines| ==> ends(lines[e - 1]) || marked(lines[e])
    decreases |lines| - s
  {
    if !(ends(lines[s]) || s + 1 == |lines| || marked(lines[s + 1])) {
      EndOfSpec(marked, ends, lines, s + 1);
    }
  }

  /** Group `j` is the notice that starts at the `j`-th line that starts one. */
  predicate SliceAt(marked: string -> bool, ends: string -> bool, gs: seq<seq<string>>, lines: seq<string>, j: nat)
    requires j < |gs| && j < |StartsOf(marked, lines)|
  {
    var s := StartsOf(marked, lines)[j];
    gs[j] == lines[s..EndOf(marked, ends, lines, s)]
  }

  /** The last group is still taking lines when it runs to the end of the input without being ended. */
  predicate OpenAs(marked: string -> bool, ends: string -> bool, open: bool, lines: seq<string>)
  {
    var ss := StartsOf(marked, lines);
    open <==> ss != [] && EndOf(marked, ends, lines, ss[|ss| - 1]) == |lines| && !ends(lines[|lines| - 1])
  }

  /**
   * The groups are the slices of the input from each line that starts a
   * notice to its `EndOf`, and the last is open as `OpenAs` says.
   */
  predicate SlicedAs(marked: string -> bool, ends: string -> bool, st: Grouping, lines: seq<string>)
  {
    && |st.0| == |StartsOf(marked, lines)|
    && (forall j :: 0 <= j < |st.0| ==> SliceAt(marked, ends, st.0, lines, j))
    && OpenAs(marked, ends, st.1, lines)
  }

  /**
   * `parse` groups its lines into slices: group `j` is `lines[s..e]`, where
   * `s` is the `j`-th line that says COPYRIGHT and `e` is one past the first
   * line from `s` on that ends a notice, or the next line that says
   * COPYRIGHT, or the end of the input, whichever comes first.
   */
  lemma {:induction false} GroupedSlices(lines: seq<string>)
    ensures SlicedAs(Marked, Ends, Grouped(lines), lines)
  {
    if lines != [] {
      var p := lines[..|lines| - 1];
      GroupedSlices(p);
      SlicedStep(p, lines[|p|]);
      assert p + [lines[|p|]] == lines;
    }
  }

  lemma SlicedStep(p: seq<string>, x: string)
    requires SlicedAs(Marked, Ends, Grouped(p), p)
    ensures SlicedAs(Marked, Ends, Grouped(p + [x]), p + [x])
  {
    var st := Grouped(p);
    var lines := p + [x];
    assert lines[..|p|] == p;
    assert Grouped(lines) == GroupStep(st, x);
    GroupStepCases(st, x);
    if Marked(x) {
      SlicedMarked(Marked, Ends, p, x, st);
    } else if st.1 {
      SlicedOpen(Marked, Ends, p, x, st);
    } else {
      SlicedClosed(Marked, Ends, p, x, st);
    }
  }

  /** An added line changes the end of a notice only when that notice is open. */
  lemma {:induction false} EndOfSnoc(marked: string -> bool, ends: string -> bool, lines: seq<string>, s: nat)
    requires s < |lines| - 1
    ensures var p := lines[..|lines| - 1];
      var e := EndOf(marked, ends, p, s);
      EndOf(marked, ends, lines, s) ==
        if e == |p| && !ends(p[|p| - 1]) && !marked(lines[|p|]) then |lines| else e
    decreases |lines| - s
  {
    var p := lines[..|lines| - 1];
    assert p[s] == lines[s];
    if !ends(lines[s]) && s + 1 < |p| {
      assert p[s + 1] == lines[s + 1];
      if !marked(lines[s + 1]) {
        EndOfSnoc(marked, ends, lines, s + 1);
      }
    }
  }

  lemma StartsSnoc(marked: string -> bool, p: seq<string>, x: string)
    ensures marked(x) ==> StartsOf(marked, p + [x]) == StartsOf(marked, p) + [|p|]
    ensures !marked(x) ==> StartsOf(marked, p + [x]) == StartsOf(marked, p)
  {
    assert (p + [x])[..|p|] == p;
    assert StartsOf(marked, p) + [] == StartsOf(marked, p);
  }

  /** A notice ends at the latest where the next one starts. */
  lemma EndBeforeNext(marked: string -> bool, ends: string -> bool, p: seq<string>, j: nat)
    requires j + 1 < |StartsOf(marked, p)|
    ensures EndOf(marked, ends, p, StartsOf(marked, p)[j]) <= StartsOf(marked, p)[j + 1]
  {
    EndOfSpec(marked, ends, p, StartsOf(marked, p)[j]);
  }

  /** An added line leaves alone a notice that it cannot join. */
  lemma KeptEnd(marked: string -> bool, ends: string -> bool, p: seq<string>, x: string, s: nat)
    requires s < |p|
    requires marked(x) || EndOf(marked, ends, p, s) < |p| || ends(p[|p| - 1])
    ensures EndOf(marked, ends, p + [x], s) == EndOf(marked, ends, p, s)
    ensures (p + [x])[s..EndOf(marked, ends, p + [x], s)] == p[s..EndOf(marked, ends, p, s)]
  {
    assert (p + [x])[..|p|] == p;
    EndOfSnoc(marked, ends, p + [x], s);
  }

  /** A group that an added line cannot join keeps its slice. */
  lemma SliceKept(marked: string -> bool, ends: string -> bool, gs: seq<seq<string>>, hs: seq<seq<string>>, p: seq<string>, x: string, j: nat)
    requires j < |gs| && j < |hs| && hs[j] == gs[j]
    requires j < |StartsOf(marked, p)| && SliceAt(marked, ends, gs, p, j)
    requires j + 1 < |StartsOf(marked, p)| || marked(x) || EndOf(marked, ends, p, StartsOf(marked, p)[j]) < |p| || ends(p[|p| - 1])
    ensures j < |StartsOf(marked, p + [x])| && SliceAt(marked, ends, hs, p + [x], j)
  {
    StartsSnoc(marked, p, x);
    if j + 1 < |StartsOf(marked, p)| {
      EndBeforeNext(marked, ends, p, j);
    }
    KeptEnd(marked, ends, p, x, StartsOf(marked, p)[j]);
  }

  /** An unmarked line joins the open last group, which then runs to the new end. */
  lemma SliceGrown(marked: string -> bool, ends: string -> bool, gs: seq<seq<string>>, hs: seq<seq<string>>, p: seq<string>, x: string, n: nat)
    requires n < |gs| && n < |hs| && hs[n] == gs[n] + [x] && !marked(x)
    requires n < |StartsOf(marked, p)| && SliceAt(marked, ends, gs, p, n)
    requires EndOf(marked, ends, p, StartsOf(marked, p)[n]) == |p| && !ends(p[|p| - 1])
    ensures n < |StartsOf(marked, p + [x])| && SliceAt(marked, ends, hs, p + [x], n)
  {
    var s := StartsOf(marked, p)[n];
    StartsSnoc(marked, p, x);
    GrownEnd(marked, ends, p, x, s);
    assert (p + [x])[s..|p| + 1] == p[s..|p|] + [x];
  }

  lemma GrownEnd(marked: string -> bool, ends: string -> bool, p: seq<string>, x: string, s: nat)
    requires s < |p| && EndOf(marked, ends, p, s) == |p| && !ends(p[|p| - 1]) && !marked(x)
    ensures EndOf(marked, ends, p + [x], s) == |p| + 1
  {
    assert (p + [x])[..|p|] == p;
    EndOfSnoc(marked, ends, p + [x], s);
  }

  /** A marked line starts a group of its own. */
  lemma SliceStarted(marked: string -> bool, ends: string -> bool, hs: seq<seq<string>>, p: seq<string>, x: string)
    requires marked(x) && |StartsOf(marked, p)| < |hs| && hs[|StartsOf(marked, p)|] == [x]
    ensures |StartsOf(marked, p)| < |StartsOf(marked, p + [x])| && SliceAt(marked, ends, hs, p + [x], |StartsOf(marked, p)|)
    ensures OpenAs(marked, ends, !ends(x), p + [x])
  {
    var lines := p + [x];
    StartsSnoc(marked, p, x);
    assert EndOf(marked, ends, lines, |p|) == |lines|;
    assert lines[|p|..|lines|] == [x];
  }

  /** After an unmarked line the last group is open when it was and the line does not end it. */
  lemma OpenAfter(marked: string -> bool, ends: string -> bool, p: seq<string>, x: string, open: bool)
    requires OpenAs(marked, ends, open, p) && !marked(x)
    ensures OpenAs(marked, ends, open && !ends(x), p + [x])
  {
    var ss := StartsOf(marked, p);
    StartsSnoc(marked, p, x);
    if ss != [] {
      assert (p + [x])[..|p|] == p;
      EndOfSnoc(marked, ends, p + [x], ss[|ss| - 1]);
    }
  }

  lemma SlicedMarked(marked: string -> bool, ends: string -> bool, p: seq<string>, x: string, st: Grouping)
    requires SlicedAs(marked, ends, st, p) && marked(x)
    ensures SlicedAs(marked, ends, (st.0 + [[] + [x]], !ends(x)), p + [x])
  {
    var gs := st.0 + [[] + [x]];
    StartsSnoc(marked, p, x);
    assert |gs| == |StartsOf(marked, p + [x])|;
    forall j | 0 <= j < |gs|
      ensures SliceAt(marked, ends, gs, p + [x], j)
    {
      if j < |st.0| {
        SliceKept(marked, ends, st.0, gs, p, x, j);
      } else {
        SliceStarted(marked, ends, gs, p, x);
      }
    }
    SliceStarted(marked, ends, gs, p, x);
  }

  lemma SlicedOpen(marked: string -> bool, ends: string -> bool, p: seq<string>, x: string, st: Grouping)
    requires SlicedAs(marked, ends, st, p) && !marked(x) && st.1
    ensures SlicedAs(marked, ends, (st.0[..|st.0| - 1] + [st.0[|st.0| - 1] + [x]], !ends(x)), p + [x])
  {
    var gs := st.0[..|st.0| - 1] + [st.0[|st.0| - 1] + [x]];
    var n := |st.0| - 1;
    StartsSnoc(marked, p, x);
    assert |gs| == |StartsOf(marked, p + [x])|;
    forall j | 0 <= j < |gs|
      ensures SliceAt(marked, ends, gs, p + [x], j)
    {
      if j < n {
        SliceKept(marked, ends, st.0, gs, p, x, j);
      } else {
        assert SliceAt(marked, ends, st.0, p, n);
        SliceGrown(marked, ends, st.0, gs, p, x, n);
      }
    }
    OpenAfter(marked, ends, p, x, true);
  }

  lemma SlicedClosed(marked: string -> bool, ends: string -> bool, p: seq<string>, x: string, st: Grouping)
    requires SlicedAs(marked, ends, st, p) && !marked(x) && !st.1
    ensures SlicedAs(marked, ends, st, p + [x])
  {
    forall j | 0 <= j < |st.0|
      ensures j < |StartsOf(marked, p + [x])| && SliceAt(marked, ends, st.0, p + [x], j)
    {
      SliceKept(marked, ends, st.0, st.0, p, x, j);
    }
    OpenAfter(marked, ends, p, x, false);
    StartsSnoc(marked, p, x);
  }

  // ---------------------------------------------------------------------
  // Reading a notice

  /** The first digit of a text that has one. */
  function FirstDigit(s: string): (i: nat)
    requires HasDigit(s)
    ensures i < |s| && IsDigit(s[i])
    ensures forall k :: 0 <= k < i ==> !IsDigit(s[k])
  {
    if IsDigit(s[0]) then 0
    else
      assert HasDigit(s[1..]) by {
        var j :| 0 <= j < |s| && IsDigit(s[j]);
        assert s[1..][j - 1] == s[j];
      }
      1 + FirstDigit(s[1..])
  }

  /** The last digit below `j`, the one at `f` being a candidate. */
  function LastDigitBelow(s: string, f: nat, j: nat): (r: nat)
    requires f < j <= |s| && IsDigit(s[f])
    ensures f <= r < j && IsDigit(s[r])
    ensures forall k :: r < k < j ==> !IsDigit(s[k])
    decreases j
  {
    if IsDigit(s[j - 1]) then j - 1 else LastDigitBelow(s, f, j - 1)
  }

  /** Where the line holding position `f` ends: the next newline, or the end of the text. */
  function LineEnd(s: string, f: nat): (e: nat)
    requires f <= |s|
    ensures f <= e <= |s| && '\n' !in s[f..e]
    ensures e < |s| ==> s[e] == '\n'
  {
    var n := Find(s[f..], "\n");
    if n < 0 then
      assert forall k :: 0 <= k < |s| - f ==> !OccursAt(s[f..], "\n", k);
      assert forall k :: f <= k < |s| ==> s[k] != '\n' by {
        forall k | f <= k < |s| ensures s[k] != '\n' {
          assert !OccursAt(s[f..], "\n", k - f);
          assert s[f..][k - f..k - f + 1] == [s[k]];
        }
      }
      |s|
    else
      assert forall k :: 0 <= k < n ==> !OccursAt(s[f..], "\n", k);
      assert forall k :: f <= k < f + n ==> s[k] != '\n' by {
        forall k | f <= k < f + n ensures s[k] != '\n' {
          assert !OccursAt(s[f..], "\n", k - f);
          assert s[f..][k - f..k - f + 1] == [s[k]];
        }
      }
      assert s[f..][n..n + 1] == "\n";
      f + n
  }

  /**
   * The `\d(?:.*\d)?` search of `parse`: from the first digit to the last
   * digit on the same line, where `.` matches anything but a newline.
   * None when the text holds no digit.
   */
  function YearsSpan(data: string): (r: Option<(nat, nat)>)
    ensures r.None? <==> !HasDigit(data)
    ensures r.Some? ==> var (b, e) := r.value;
      && b < e <= |data| && IsDigit(data[b]) && IsDigit(data[e - 1])
      && (forall k :: 0 <= k < b ==> !IsDigit(data[k]))
      && '\n' !in data[b..e]
      && (forall k :: e <= k < LineEnd(data, b) ==> !IsDigit(data[k]))
  {
    if !HasDigit(data) then None
    else
      var b := FirstDigit(data);
      var e := LastDigitBelow(data, b, LineEnd(data, b)) + 1;
      assert data[b..e] == data[b..LineEnd(data, b)][..e - b];
      Some((b, e))
  }

  /** The length of the run of whitespace a text starts with. */
  function SpaceRun(s: string): (n: nat)
    ensures n <= |s| && IsBlank(s[..n]) && (n < |s| ==> !IsSpace(s[n]))
  {
    if s != [] && IsSpace(s[0]) then
      var n := 1 + SpaceRun(s[1..]);
      assert s[..n] == [s[0]] + s[1..][..n - 1];
      n
    else 0
  }

  /** `EXTRA_SPACE.sub(' ', s)`: every run of two or more whitespace characters becomes one space. */
  function CollapseSpace(s: string): (r: string)
    ensures r == [] <==> s == []
    ensures |r| <= |s|
    ensures r != [] ==> (IsSpace(r[0]) <==> IsSpace(s[0]))
    decreases |s|
  {
    if s == [] then []
    else if IsSpace(s[0]) && SpaceRun(s) >= 2 then " " + CollapseSpace(s[SpaceRun(s)..])
    else [s[0]] + CollapseSpace(s[1..])
  }

  /** The characters of a text that are not whitespace. */
  function Solid(s: string): (r: string)
  {
    if s == [] then [] else (if IsSpace(s[0]) then [] else [s[0]]) + Solid(s[1..])
  }

  /** After collapsing, no two whitespace characters are adjacent, and the other characters are kept in order. */
  lemma {:induction false} CollapseSpaceShape(s: string)
    ensures forall k :: 0 <= k < |CollapseSpace(s)| - 1 ==> !(IsSpace(CollapseSpace(s)[k]) && IsSpace(CollapseSpace(s)[k + 1]))
    ensures Solid(CollapseSpace(s)) == Solid(s)
    decreases |s|
  {
    if s != [] {
      var r := CollapseSpace(s);
      if IsSpace(s[0]) && SpaceRun(s) >= 2 {
        var n := SpaceRun(s);
        CollapseSpaceShape(s[n..]);
        SolidBlank(s, n);
        assert Solid(r) == Solid(CollapseSpace(s[n..]));
        AdjacentCons(' ', CollapseSpace(s[n..]));
      } else {
        CollapseSpaceShape(s[1..]);
        if IsSpace(s[0]) {
          assert s[1..] != [] ==> !IsSpace(s[1]);
        }
        AdjacentCons(s[0], CollapseSpace(s[1..]));
      }
    }
  }

  lemma AdjacentCons(c: char, t: string)
    requires forall k :: 0 <= k < |t| - 1 ==> !(IsSpace(t[k]) && IsSpace(t[k + 1]))
    requires IsSpace(c) && t != [] ==> !IsSpace(t[0])
    ensures forall k :: 0 <= k < |[c] + t| - 1 ==> !(IsSpace(([c] + t)[k]) && IsSpace(([c] + t)[k + 1]))
  {
    var u := [c] + t;
    forall k | 1 <= k < |u| - 1
      ensures !(IsSpace(u[k]) && IsSpace(u[k + 1]))
    {
      assert u[k] == t[k - 1] && u[k + 1] == t[k];
    }
  }

  /** Dropping `n` leading whitespace characters does not change the solid characters. */
  lemma {:induction false} SolidBlank(s: string, n: nat)
    requires n <= |s| && IsBlank(s[..n])
    ensures Solid(s) == Solid(s[n..])
    decreases n
  {
    if n > 0 {
      assert IsSpace(s[..n][0]);
      assert s[1..][..n - 1] == s[..n][1..];
      SolidBlank(s[1..], n - 1);
      assert s[1..][n - 1..] == s[n..];
    }
  }

  /**
   * One group of `parse`: its lines joined by spaces, the years between
   * the first and the last digit of that line, the author after them.
   */
  function ReadGroup(authors: map<string, set<int>>, group: seq<string>): (r: Result<map<string, set<int>>>)
  {
    var data := Join(" ", group);
    match YearsSpan(data)
    case None => Err("could not find copyright years")
    case Some((b, e)) =>
      match Parsed(data[b..e])
      case Err(msg) => Err(msg)
      case Ok(years) => Ok(Added(authors, CollapseSpace(data[e..]), years))
  }

  /** Reading a group adds to one author's years and leaves the others alone. */
  lemma ReadGroupGrows(authors: map<string, set<int>>, group: seq<string>)
    ensures ReadGroup(authors, group).Ok? ==> var m := ReadGroup(authors, group).value;
      forall a :: a in authors ==> a in m && authors[a] <= m[a]
  {
  }

  /** A group without a digit is an error. */
  lemma ReadGroupNeedsYears(authors: map<string, set<int>>, group: seq<string>)
    ensures !HasDigit(Join(" ", group)) ==> ReadGroup(authors, group) == Err("could not find copyright years")
  {
  }

  /** Every year of every author lies in 1900..3000, the range `parse_years` accepts. */
  predicate InRange(authors: map<string, set<int>>)
  {
    forall a, y :: a in authors && y in authors[a] ==> 1900 <= y <= 3000
  }

  lemma ReadGroupInRange(authors: map<string, set<int>>, group: seq<string>)
    requires InRange(authors)
    ensures ReadGroup(authors, group).Ok? ==> InRange(ReadGroup(authors, group).value)
  {
    var data := Join(" ", group);
    var sp := YearsSpan(data);
    if sp.Some? {
      YearsInRange(data[sp.value.0..sp.value.1]);
    }
  }

  /**
   * The table after reading each group in turn, and the error that stops
   * the reading.  The groups read before the error stay added.
   */
  function ReadGroups(authors: map<string, set<int>>, groups: seq<seq<string>>): (r: (map<string, set<int>>, Option<string>))
    decreases |groups|
  {
    if groups == [] then (authors, None)
    else
      match ReadGroup(authors, groups[0])
      case Err(msg) => (authors, Some(msg))
      case Ok(m) => ReadGroups(m, groups[1..])
  }

  /** Reading never removes an author or a year. */
  lemma {:induction false} ReadGroupsGrows(authors: map<string, set<int>>, groups: seq<seq<string>>)
    ensures var m := ReadGroups(authors, groups).0;
      forall a :: a in authors ==> a in m && authors[a] <= m[a]
    decreases |groups|
  {
    if groups != [] {
      ReadGroupGrows(authors, groups[0]);
      if ReadGroup(authors, groups[0]).Ok? {
        ReadGroupsGrows(ReadGroup(authors, groups[0]).value, groups[1..]);
      }
    }
  }

  /** A group without a digit stops the reading with an error, unless an earlier group already did. */
  lemma {:induction false} ReadGroupsNeedsYears(authors: map<string, set<int>>, groups: seq<seq<string>>, j: nat)
    requires j < |groups| && !HasDigit(Join(" ", groups[j]))
    ensures ReadGroups(authors, groups).1.Some?
    decreases j
  {
    ReadGroupNeedsYears(authors, groups[0]);
    if j > 0 && ReadGroup(authors, groups[0]).Ok? {
      assert groups[1..][j - 1] == groups[j];
      ReadGroupsNeedsYears(ReadGroup(authors, groups[0]).value, groups[1..], j - 1);
    }
  }

  /** Every year read lies in 1900..3000. */
  lemma {:induction false} ReadGroupsInRange(authors: map<string, set<int>>, groups: seq<seq<string>>)
    requires InRange(authors)
    ensures InRange(ReadGroups(authors, groups).0)
    decreases |groups|
  {
    if groups != [] {
      ReadGroupInRange(authors, groups[0]);
      if ReadGroup(authors, groups[0]).Ok? {
        ReadGroupsInRange(ReadGroup(authors, groups[0]).value, groups[1..]);
      }
    }
  }

  // ---------------------------------------------------------------------
  // Writing the notices

  /** A sorted year list and its author, the key `dump` sorts by. */
  type Entry = (seq<int>, string)

  /** Python's `<=` on lists of integers: lexicographic, a prefix first. */
  predicate YearsLe(a: seq<int>, b: seq<int>)
  {
    a == [] || (b != [] && (a[0] < b[0] || (a[0] == b[0] && YearsLe(a[1..], b[1..]))))
  }

  /** Python's `<=` on byte strings. */
  predicate NameLe(a: string, b: string)
  {
    a == [] || (b != [] && (a[0] < b[0] || (a[0] == b[0] && NameLe(a[1..], b[1..]))))
  }

  /** Python's `<=` on `(years, author)` tuples. */
  predicate EntryLe(x: Entry, y: Entry)
  {
    (x.0 != y.0 && YearsLe(x.0, y.0)) || (x.0 == y.0 && NameLe(x.1, y.1))
  }

  lemma {:induction false} YearsTotal(a: seq<int>, b: seq<int>)
    ensures YearsLe(a, b) || YearsLe(b, a)
  {
    if a != [] && b != [] && a[0] == b[0] {
      YearsTotal(a[1..], b[1..]);
    }
  }

  lemma {:induction false} NameTotal(a: string, b: string)
    ensures NameLe(a, b) || NameLe(b, a)
  {
    if a != [] && b != [] && a[0] == b[0] {
      NameTotal(a[1..], b[1..]);
    }
  }

  lemma EntryTotal(x: Entry, y: Entry)
    ensures EntryLe(x, y) || EntryLe(y, x)
  {
    YearsTotal(x.0, y.0);
    NameTotal(x.1, y.1);
  }

  /** Each entry sorts no later than the next. */
  predicate InOrder(es: seq<Entry>)
  {
    forall k :: 0 <= k < |es| - 1 ==> EntryLe(es[k], es[k + 1])
  }

  /** `x` put before the first entry it sorts no later than. */
  function InsertEntry(x: Entry, es: seq<Entry>): (r: seq<Entry>)
    requires InOrder(es)
    ensures InOrder(r) && multiset(r) == multiset(es) + multiset{x}
    ensures r[0] == x || (es != [] && r[0] == es[0])
  {
    if es == [] || EntryLe(x, es[0]) then
      EntryFront(x, es);
      [x] + es
    else
      var t := InsertEntry(x, es[1..]);
      EntryTotal(x, es[0]);
      EntryBehind(x, es, t);
      [es[0]] + t
  }

  lemma EntryFront(x: Entry, es: seq<Entry>)
    requires InOrder(es) && (es == [] || EntryLe(x, es[0]))
    ensures InOrder([x] + es) && multiset([x] + es) == multiset(es) + multiset{x}
  {
    var r := [x] + es;
    forall k | 1 <= k < |r| - 1
      ensures EntryLe(r[k], r[k + 1])
    {
      assert r[k] == es[k - 1] && r[k + 1] == es[k];
    }
  }

  lemma EntryBehind(x: Entry, es: seq<Entry>, t: seq<Entry>)
    requires InOrder(es) && es != [] && EntryLe(es[0], x)
    requires InOrder(t) && multiset(t) == multiset(es[1..]) + multiset{x}
    requires t[0] == x || (es[1..] != [] && t[0] == es[1..][0])
    ensures InOrder([es[0]] + t) && multiset([es[0]] + t) == multiset(es) + multiset{x}
  {
    assert es == [es[0]] + es[1..];
    var r := [es[0]] + t;
    forall k | 0 <= k < |r| - 1
      ensures EntryLe(r[k], r[k + 1])
    {
      if k > 0 {
        assert r[k] == t[k - 1] && r[k + 1] == t[k];
      }
    }
  }

  /** `authors.sort()`: the same entries, each sorting no later than the next. */
  function SortEntries(es: seq<Entry>): (r: seq<Entry>)
    ensures InOrder(r) && multiset(r) == multiset(es)
  {
    if es == [] then []
    else
      assert es == [es[0]] + es[1..];
      InsertEntry(es[0], SortEntries(es[1..]))
  }

  /** The line `dump` writes for one entry. */
  function Notice(e: Entry): string
  {
    "Copyright " + Formatted(e.0) + " " + e.1 + "\n"
  }

  function Notices(es: seq<Entry>): (r: seq<string>)
    ensures |r| == |es|
    ensures forall k :: 0 <= k < |es| ==> r[k] == Notice(es[k])
  {
    if es == [] then [] else Notices(es[..|es| - 1]) + [Notice(es[|es| - 1])]
  }

  /** The authors of a list of entries. */
  function Names(es: seq<Entry>): set<string>
  {
    if es == [] then {} else Names(es[..|es| - 1]) + {es[|es| - 1].1}
  }

  lemma {:induction false} NamesSpec(es: seq<Entry>, a: string)
    ensures a in Names(es) <==> exists k :: 0 <= k < |es| && es[k].1 == a
  {
    if es != [] {
      var init := es[..|es| - 1];
      NamesSpec(init, a);
      if a in Names(init) {
        var k :| 0 <= k < |init| && init[k].1 == a;
        assert es[k] == init[k];
      }
      if exists k :: 0 <= k < |es| && es[k].1 == a {
        var k :| 0 <= k < |es| && es[k].1 == a;
        if k < |init| {
          assert init[k] == es[k];
        }
      }
    }
  }

  /** The years of one author as `dump` lists them: ascending, each once. */
  predicate Canonical(ys: seq<int>, years: set<int>)
  {
    Ascending(ys) && NoDups(ys) && Elems(ys) == years
  }

  /**
   * The entries `dump` writes for a table: one per author, holding the
   * author's years in ascending order, each sorting no later than the next.
   */
  predicate Listing(es: seq<Entry>, authors: map<string, set<int>>)
  {
    && |es| == |authors|
    && Names(es) == authors.Keys
    && (forall k :: 0 <= k < |es| ==> es[k].1 in authors && Canonical(es[k].0, authors[es[k].1]))
    && InOrder(es)
  }

  /**
   * `int` under another name: the constraint holds of every integer, so a
   * `set<Year>` holds exactly the values of a `set<int>`. The type exists only
   * because the verifier cannot show that a non-empty `set<int>` has an
   * element for `:|` to pick, while for a set of a constrained type it can.
   */
  type Year = y: int | y < 0 || 0 <= y

  /** `list(years)`: the years of a set, in some order, each once. */
  method ListOf(years: set<Year>) returns (ys: seq<int>)
    ensures NoDups(ys) && Elems(ys) == years
  {
    ys := [];
    var rest := years;
    while |rest| > 0
      invariant rest <= years && Elems(ys) == years - rest
      invariant NoDups(ys)
      decreases |rest|
    {
      var y :| y in rest;
      ListStep(ys, y);
      ys := ys + [y];
      rest := rest - {y};
    }
  }

  lemma ListStep(ys: seq<int>, y: int)
    requires NoDups(ys) && y !in Elems(ys)
    ensures NoDups(ys + [y]) && Elems(ys + [y]) == Elems(ys) + {y}
  {
    assert forall i :: 0 <= i < |ys| ==> ys[i] in Elems(ys);
  }

  /** `years.sort()` on `list(years)`. */
  method SortedYears(years: set<int>) returns (ys: seq<int>)
    ensures Canonical(ys, years)
  {
    var l := ListOf(years);
    ys := Sorted(l);
    SortedIncreasing(l);
    SortedElems(l);
  }

  class Authorship {
    var authors: map<string, set<int>>

    constructor()
      ensures authors == map[]
    {
      authors := map[];
    }

    /** `__nonzero__`: whether any author is recorded. */
    function NonZero(): (r: bool)
      reads this
      ensures r <==> exists a :: a in authors
    {
      if authors == map[] then false
      else
        var a :| a in authors;
        true
    }

    /** `add_author`: the normalised author gains the years. */
    method AddAuthor(author: string, years: set<int>)
      modifies this
      ensures authors == Added(old(authors), author, years)
    {
      var name := Strip(author);
      if !EndsWith(name, ".") {
        name := name + ".";
      }
      var yearset: set<int>;
      if name in authors {
        yearset := authors[name];
      } else {
        yearset := {};
        authors := authors[name := yearset];
      }
      authors := authors[name := yearset + years];
    }

    /**
     * `parse`: group the lines into notices, then read each group; an
     * error stops the reading, the groups before it staying added.
     */
    method Parse(lines: seq<string>) returns (err: Option<string>)
      modifies this
      ensures (authors, err) == ReadGroups(old(authors), Grouped(lines).0)
    {
      var groups: seq<seq<string>> := [];
      var open := false;
      for i := 0 to |lines|
        invariant (groups, open) == Grouped(lines[..i])
        invariant authors == old(authors)
      {
        assert lines[..i + 1][..i] == lines[..i];
        var line := lines[i];
        if Marked(line) {
          groups := groups + [[]];
          open := true;
        }
        if open {
          groups := groups[..|groups| - 1] + [groups[|groups| - 1] + [line]];
          if Ends(line) {
            open := false;
          }
        }
      }
      assert lines[..|lines|] == lines;
      var k := 0;
      while k < |groups|
        invariant k <= |groups|
        invariant ReadGroups(authors, groups[k..]) == ReadGroups(old(authors), groups)
      {
        assert groups[k..][0] == groups[k] && groups[k..][1..] == groups[k + 1..];
        var data := Join(" ", groups[k]);
        var span := YearsSpan(data);
        if span.None? {
          return Some("could not find copyright years");
        }
        var (b, e) := span.value;
        var author := CollapseSpace(data[e..]);
        var years := ParseYears(data[b..e]);
        if years.Err? {
          return Some(years.msg);
        }
        AddAuthor(author, years.value);
        k := k + 1;
      }
      return None;
    }

    /** `dump`: one notice per author, in the order of their entries. */
    method Dump() returns (lines: seq<string>, ghost entries: seq<Entry>)
      ensures Listing(entries, authors)
      ensures lines == Notices(entries)
    {
      var es := Entries(authors);
      var sorted := SortEntries(es);
      SortedListing(es, sorted, authors);
      lines := NoticeLines(sorted);
      entries := sorted;
    }
  }

  /** The second loop of `dump`: a notice per entry, in order. */
  method NoticeLines(es: seq<Entry>) returns (lines: seq<string>)
    ensures lines == Notices(es)
  {
    lines := [];
    for i := 0 to |es|
      invariant lines == Notices(es[..i])
    {
      assert es[..i + 1][..i] == es[..i];
      lines := lines + [Notice(es[i])];
    }
    assert es[..|es|] == es;
  }

  /** The first loop of `dump`: an entry per author, in the order the table yields them. */
  method Entries(authors: map<string, set<int>>) returns (es: seq<Entry>)
    ensures |es| == |authors|
    ensures Names(es) == authors.Keys
    ensures forall k :: 0 <= k < |es| ==> es[k].1 in authors && Canonical(es[k].0, authors[es[k].1])
  {
    es := [];
    var keys := authors.Keys;
    while keys != {}
      invariant keys <= authors.Keys
      invariant |es| + |keys| == |authors|
      invariant Names(es) + keys == authors.Keys
      invariant forall k :: 0 <= k < |es| ==> es[k].1 in authors && es[k].1 !in keys && Canonical(es[k].0, authors[es[k].1])
      decreases |keys|
    {
      var a :| a in keys;
      var ys := SortedYears(authors[a]);
      assert (es + [(ys, a)])[..|es|] == es;
      es := es + [(ys, a)];
      keys := keys - {a};
    }
  }

  /** Sorting keeps what the entries say about the table. */
  lemma SortedListing(es: seq<Entry>, sorted: seq<Entry>, authors: map<string, set<int>>)
    requires |es| == |authors|
    requires Names(es) == authors.Keys
    requires forall k :: 0 <= k < |es| ==> es[k].1 in authors && Canonical(es[k].0, authors[es[k].1])
    requires InOrder(sorted) && multiset(sorted) == multiset(es)
    ensures Listing(sorted, authors)
  {
    assert |sorted| == |multiset(sorted)| == |es|;
    forall k | 0 <= k < |sorted|
      ensures sorted[k].1 in authors && Canonical(sorted[k].0, authors[sorted[k].1])
    {
      assert sorted[k] in multiset(es);
      var j :| 0 <= j < |es| && es[j] == sorted[k];
    }
    forall a
      ensures a in Names(sorted) <==> a in Names(es)
    {
      NamesSpec(es, a);
      NamesSpec(sorted, a);
      if a in Names(es) {
        var j :| 0 <= j < |es| && es[j].1 == a;
        assert es[j] in multiset(sorted);
        var k :| 0 <= k < |sorted| && sorted[k] == es[j];
      }
      if a in Names(sorted) {
        var k :| 0 <= k < |sorted| && sorted[k].1 == a;
        assert sorted[k] in multiset(es);
        var j :| 0 <= j < |es| && es[j] == sorted[k];
      }
    }
  }
}
