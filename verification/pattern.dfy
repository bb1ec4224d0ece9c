/**
 * Pattern: gitignore-style path patterns (header/pattern.py).
 *
 * A `GlobPattern` is a rooted or unrooted sequence of glob segments; a final
 * empty segment marks a directory-only pattern. A `PatternSet` is an ordered
 * list of (polarity, pattern) entries in which the last matching entry wins.
 * Directories are matched one path component at a time: entering a
 * directory gives a verdict for the directory itself and a narrowed set of
 * patterns that can still match below it.
 *
 * Deviations from the code as written, all in favour of its evident intent:
 *  - `PatternSet.match_dir` tests an undefined name `match` (header/pattern.py:86);
 *    the model tests the pattern's own verdict `pat_match`.
 *  - `PatternSet.union` calls the constructor with two arguments
 *    (header/pattern.py:104); the model passes the concatenation.
 *  - `PatternSet.parse` reads the misspelt `pasitive` (header/pattern.py:118);
 *    the model uses the polarity computed just above.
 *  - `PatternSet.read` hands raw strings to the constructor
 *    (header/pattern.py:133); the model parses them with `parse`.
 */
module Pattern {
  import opened Text
  import opened Glob

  // =====================================================================
  // GlobPattern

  datatype GlobPattern = GlobPattern(rooted: bool, parts: seq<string>)

  /** A pattern with at least one segment: the constructor's `assert self.parts`. */
  type ValidPattern = p: GlobPattern | |p.parts| > 0 witness GlobPattern(false, [""])

  /** The trailing empty segment that `parse` adds for a pattern ending in `/`. */
  predicate DirOnly(p: GlobPattern)
  {
    |p.parts| >= 2 && p.parts[|p.parts| - 1] == ""
  }

  /** The number of segments that have to match, not counting the directory marker. */
  function EffLen(p: GlobPattern): (n: nat)
    ensures n <= |p.parts|
    ensures |p.parts| > 0 ==> n >= 1
  {
    if DirOnly(p) then |p.parts| - 1 else |p.parts|
  }

  /** Only the last segment may be empty (it is then the directory marker). */
  predicate Segmented(p: GlobPattern)
  {
    |p.parts| > 0 && forall i :: 0 <= i < |p.parts| - 1 ==> p.parts[i] != ""
  }

  /** The shape `parse` produces: segmented, no `/` inside a segment, and a
      lone empty segment only in the rooted pattern `/`. */
  predicate Canonical(p: GlobPattern)
  {
    && Segmented(p)
    && (forall i :: 0 <= i < |p.parts| ==> '/' !in p.parts[i])
    && (p.parts[|p.parts| - 1] == "" ==> p.rooted || |p.parts| >= 2)
  }

  /** `GlobPattern.parse`; `None` is the failed `assert self.parts`. */
  function ParsePattern(s: string): (r: Option<ValidPattern>)
  {
    var directory := EndsWith(s, "/");
    var rooted := StartsWith(s, "/");
    var parts := NonEmpty(Split(s, '/')) + (if directory then [""] else []);
    if parts == [] then None else Some(GlobPattern(rooted, parts))
  }

  /** `GlobPattern.__str__`. */
  function FormatPattern(p: ValidPattern): (s: string)
  {
    (if p.rooted then "/" else "") + Join("/", p.parts)
  }

  /** The full-match test of `match_dir`: one segment left, or one plus the marker. */
  predicate FullCond(parts: seq<string>)
  {
    |parts| == 1 || (|parts| == 2 && parts[1] == "")
  }

  datatype DirMatch = DirMatch(full: bool, carried: seq<ValidPattern>)

  /**
   * `GlobPattern.match_dir`: does the directory `name` match the whole
   * pattern, and which patterns apply inside it. A matching first segment
   * yields the rooted remainder; an unrooted pattern is always carried
   * along unchanged, a rooted one never.
   */
  function MatchDir(p: ValidPattern, name: string): (r: DirMatch)
    ensures r.full ==> GlobMatch(name, p.parts[0])
    ensures p.rooted && !GlobMatch(name, p.parts[0]) ==> r.carried == []
    ensures !p.rooted ==> |r.carried| > 0 && r.carried[|r.carried| - 1] == p
  {
    var first := GlobMatch(name, p.parts[0]);
    var rest := if first && !FullCond(p.parts) then [GlobPattern(true, p.parts[1..])] else [];
    DirMatch(first && FullCond(p.parts), rest + (if p.rooted then [] else [p]))
  }

  /** `GlobPattern.match_file`: only a single remaining segment can name a file. */
  predicate MatchFile(p: ValidPattern, name: string)
  {
    |p.parts| == 1 && GlobMatch(name, p.parts[0])
  }

  // =====================================================================
  // PatternSet

  datatype Entry = Entry(positive: bool, pattern: ValidPattern)

  datatype PatternSet = PatternSet(entries: seq<Entry>)

  predicate AllNegative(es: seq<Entry>)
  {
    forall i :: 0 <= i < |es| ==> !es[i].positive
  }

  /**
   * What the `PatternSet` constructor keeps: every entry from the first
   * positive one on, in order (leading negative entries can never change a
   * verdict, which starts out negative).
   */
  function Normalize(es: seq<Entry>): (r: seq<Entry>)
    ensures |r| <= |es|
    ensures r != [] ==> r[0].positive
  {
    if es == [] then []
    else if es[0].positive then es
    else Normalize(es[1..])
  }

  /** `Normalize` keeps a suffix of its input. */
  lemma {:induction false} NormalizeSuffix(es: seq<Entry>)
    ensures Normalize(es) == es[|es| - |Normalize(es)|..]
  {
    if es != [] && !es[0].positive {
      NormalizeSuffix(es[1..]);
      assert es[1..][|es| - 1 - |Normalize(es)|..] == es[|es| - |Normalize(es)|..];
    }
  }

  /** Everything `Normalize` drops is negative. */
  lemma {:induction false} NormalizeDropsNegatives(es: seq<Entry>)
    ensures AllNegative(es[..|es| - |Normalize(es)|])
  {
    if es != [] && !es[0].positive {
      NormalizeDropsNegatives(es[1..]);
      var k := |es| - |Normalize(es)|;
      assert es[1..][..k - 1] == es[1..k];
    }
  }

  /** A pattern set as the constructor leaves it, over valid patterns. */
  predicate ValidSet(ps: PatternSet)
  {
    Normalize(ps.entries) == ps.entries
  }

  /** `PatternSet.__nonzero__`. */
  predicate NonEmptySet(ps: PatternSet)
  {
    ps.entries != []
  }

  lemma {:induction false} NormalizeSnoc(es: seq<Entry>, e: Entry)
    ensures Normalize(es + [e]) ==
            if Normalize(es) != [] || e.positive then Normalize(es) + [e] else []
  {
    if es == [] {
      assert [] + [e] == [e];
      assert [e][1..] == [];
    } else {
      assert (es + [e])[0] == es[0];
      assert (es + [e])[1..] == es[1..] + [e];
      if !es[0].positive {
        NormalizeSnoc(es[1..], e);
      }
    }
  }

  lemma NormalizeStep(es: seq<Entry>, i: nat)
    requires i < |es|
    ensures Normalize(es[..i + 1]) ==
            if Normalize(es[..i]) != [] || es[i].positive then Normalize(es[..i]) + [es[i]] else []
  {
    assert es[..i + 1] == es[..i] + [es[i]];
    NormalizeSnoc(es[..i], es[i]);
  }

  /** The `PatternSet` constructor. */
  method NewPatternSet(es: seq<Entry>) returns (ps: PatternSet)
    ensures ps.entries == Normalize(es)
  {
    var npatterns: seq<Entry> := [];
    var i := 0;
    while i < |es|
      invariant 0 <= i <= |es|
      invariant npatterns == Normalize(es[..i])
    {
      var e := es[i];
      NormalizeStep(es, i);
      if npatterns != [] || e.positive {
        npatterns := npatterns + [e];
      }
      i := i + 1;
    }
    assert es[..i] == es;
    ps := PatternSet(npatterns);
  }

  /** Every entry of a list, tagged with one polarity. */
  function Tag(positive: bool, qs: seq<ValidPattern>): (r: seq<Entry>)
    ensures |r| == |qs|
  {
    if qs == [] then [] else Tag(positive, qs[..|qs| - 1]) + [Entry(positive, qs[|qs| - 1])]
  }

  lemma {:induction false} TagIndex(positive: bool, qs: seq<ValidPattern>)
    ensures forall i :: 0 <= i < |qs| ==> Tag(positive, qs)[i] == Entry(positive, qs[i])
  {
    if qs != [] {
      TagIndex(positive, qs[..|qs| - 1]);
    }
  }

  /** The patterns `PatternSet.match_dir` collects, before the constructor drops leading negatives. */
  function Narrow(es: seq<Entry>, name: string): (r: seq<Entry>)
  {
    if es == [] then []
    else
      var e := es[|es| - 1];
      Narrow(es[..|es| - 1], name) + Tag(e.positive, MatchDir(e.pattern, name).carried)
  }

  /** The directory verdict of `PatternSet.match_dir`: the polarity of the
      last entry that matches the whole directory, false if none does. */
  function DirVerdict(es: seq<Entry>, name: string): bool
  {
    if es == [] then false
    else
      var e := es[|es| - 1];
      if MatchDir(e.pattern, name).full then e.positive else DirVerdict(es[..|es| - 1], name)
  }

  /** `PatternSet.match_dir` as a value: the verdict and the narrowed set. */
  function Descend(ps: PatternSet, name: string): (r: (bool, PatternSet))
    ensures ValidSet(r.1)
  {
    var n := Normalize(Narrow(ps.entries, name));
    assert Normalize(n) == n;
    (DirVerdict(ps.entries, name), PatternSet(n))
  }

  /** `PatternSet.match_file`: the polarity of the last entry whose pattern matches the file. */
  function FileVerdict(es: seq<Entry>, name: string): bool
  {
    if es == [] then false
    else
      var e := es[|es| - 1];
      if MatchFile(e.pattern, name) then e.positive else FileVerdict(es[..|es| - 1], name)
  }

  lemma PrefixStep(es: seq<Entry>, i: nat, name: string)
    requires i < |es|
    ensures Narrow(es[..i + 1], name) ==
            Narrow(es[..i], name) + Tag(es[i].positive, MatchDir(es[i].pattern, name).carried)
    ensures DirVerdict(es[..i + 1], name) ==
            if MatchDir(es[i].pattern, name).full then es[i].positive else DirVerdict(es[..i], name)
  {
    assert es[..i + 1][..i] == es[..i];
  }

  /** `PatternSet.match_dir`. */
  method MatchDirSet(ps: PatternSet, name: string) returns (dirMatch: bool, sub: PatternSet)
    ensures dirMatch == Descend(ps, name).0 && sub == Descend(ps, name).1
  {
    var es := ps.entries;
    var dirPatterns: seq<Entry> := [];
    dirMatch := false;
    var i := 0;
    while i < |es|
      invariant 0 <= i <= |es|
      invariant dirPatterns == Narrow(es[..i], name)
      invariant dirMatch == DirVerdict(es[..i], name)
    {
      var positive, pattern := es[i].positive, es[i].pattern;
      var m := MatchDir(pattern, name);
      PrefixStep(es, i, name);
      dirPatterns := dirPatterns + Tag(positive, m.carried);
      if m.full {
        dirMatch := positive;
      }
      i := i + 1;
    }
    assert es[..i] == es;
    sub := NewPatternSet(dirPatterns);
  }

  /** `PatternSet.match_file`. */
  method MatchFileSet(ps: PatternSet, name: string) returns (result: bool)
    ensures result == FileVerdict(ps.entries, name)
  {
    var es := ps.entries;
    result := false;
    var i := 0;
    while i < |es|
      invariant 0 <= i <= |es|
      invariant result == FileVerdict(es[..i], name)
    {
      assert es[..i + 1][..i] == es[..i];
      if result != es[i].positive && MatchFile(es[i].pattern, name) {
        result := es[i].positive;
      }
      i := i + 1;
    }
    assert es[..i] == es;
  }

  /** `PatternSet.union`: an empty operand is the identity, otherwise the entries are concatenated. */
  function Union(a: PatternSet, b: PatternSet): (r: PatternSet)
    ensures a.entries == [] ==> r == b
    ensures b.entries == [] ==> r == a
    ensures ValidSet(a) && ValidSet(b) ==> ValidSet(r) && r.entries == a.entries + b.entries
  {
    if a.entries == [] then b
    else if b.entries == [] then a
    else
      var es := a.entries + b.entries;
      assert es[0] == a.entries[0];
      PatternSet(Normalize(es))
  }

  lemma UnionAssociative(a: PatternSet, b: PatternSet, c: PatternSet)
    requires ValidSet(a) && ValidSet(b) && ValidSet(c)
    ensures Union(Union(a, b), c) == Union(a, Union(b, c))
  {
    assert a.entries + b.entries + c.entries == a.entries + (b.entries + c.entries);
  }

  /** One string of `PatternSet.parse`: `None` for a lone `!`, which is skipped. */
  function ParseEntry(s: string): (r: Option<Option<Entry>>)
    ensures r.None? <==> s == ""
  {
    if StartsWith(s, "!") then
      var rest := s[1..];
      if rest == "" then Some(None)
      else
        ParsePatternNonEmpty(rest);
        Some(Some(Entry(false, ParsePattern(rest).value)))
    else
      if s != "" then ParsePatternNonEmpty(s); Some(Some(Entry(true, ParsePattern(s).value)))
      else None
  }

  /** `PatternSet.parse`; `None` when some string is empty (the failed assert of `GlobPattern`). */
  function ParseEntries(strings: seq<string>): (r: Option<seq<Entry>>)
    ensures r.None? <==> exists i :: 0 <= i < |strings| && strings[i] == ""
    ensures r.Some? ==> forall i :: 0 <= i < |r.value| ==> Canonical(r.value[i].pattern)
  {
    if strings == [] then Some([])
    else
      var e := ParseEntry(strings[0]);
      var rest := ParseEntries(strings[1..]);
      if e.None? then None
      else if rest.None? then
        var i :| 0 <= i < |strings[1..]| && strings[1..][i] == "";
        assert strings[i + 1] == "";
        None
      else
        if e.value.Some? then
          ParseCanonicalEntry(strings[0]);
          Some([e.value.value] + rest.value)
        else
          Some(rest.value)
  }

  function ParseSet(strings: seq<string>): (r: Option<PatternSet>)
    ensures r.None? <==> exists i :: 0 <= i < |strings| && strings[i] == ""
    ensures r.Some? ==> ValidSet(r.value)
  {
    match ParseEntries(strings)
    case None => None
    case Some(es) =>
      Some(PatternSet(Normalize(es)))
  }

  /**
   * A line the configuration readers act on, once stripped: neither empty
   * nor a `#` comment.
   */
  predicate Significant(s: string)
  {
    s != "" && s[0] != '#'
  }

  /**
   * The lines `PatternSet.read` keeps: each line stripped, and kept when it
   * is neither blank nor a `#` comment. `SignificantLinesAppend` shows that
   * the kept lines come in the order of the input.
   */
  function SignificantLines(lines: seq<string>): (r: seq<string>)
    ensures |r| <= |lines|
    ensures forall i :: 0 <= i < |r| ==> r[i] != "" && r[i][0] != '#'
  {
    if lines == [] then []
    else
      var line := Strip(lines[0]);
      if line == "" || line[0] == '#' then SignificantLines(lines[1..])
      else [line] + SignificantLines(lines[1..])
  }

  /**
   * Every kept line is the strip of an input line, and the strip of every
   * input line that is significant is kept.
   */
  lemma {:induction false} SignificantLinesMembers(lines: seq<string>)
    ensures forall i :: 0 <= i < |lines| && Significant(Strip(lines[i])) ==> Strip(lines[i]) in SignificantLines(lines)
    ensures forall x :: x in SignificantLines(lines) ==> exists i :: 0 <= i < |lines| && x == Strip(lines[i])
  {
    if lines != [] {
      SignificantLinesMembers(lines[1..]);
      assert forall i :: 1 <= i < |lines| ==> lines[i] == lines[1..][i - 1];
    }
  }

  /** The kept lines of a file are those of its first part, then those of the rest. */
  lemma {:induction false} SignificantLinesAppend(a: seq<string>, b: seq<string>)
    ensures SignificantLines(a + b) == SignificantLines(a) + SignificantLines(b)
  {
    if a != [] {
      assert (a + b)[1..] == a[1..] + b;
      SignificantLinesAppend(a[1..], b);
    } else {
      assert a + b == b;
    }
  }

  /**
   * `PatternSet.read`: gitignore syntax. It cannot fail, since no kept line
   * is empty; the set is the one the kept lines parse to.
   */
  function ReadSet(lines: seq<string>): (r: PatternSet)
    ensures ParseSet(SignificantLines(lines)).Some?
    ensures r == ParseSet(SignificantLines(lines)).value
    ensures ValidSet(r)
  {
    var strings := SignificantLines(lines);
    ParseSet(strings).value
  }

  // =====================================================================
  // Parsing properties

  lemma ParsePatternNonEmpty(s: string)
    requires s != ""
    ensures ParsePattern(s).Some?
  {
    if !EndsWith(s, "/") {
      SplitLastNonEmpty(s, '/');
      var pieces := Split(s, '/');
      NonEmptyKeepsLast(pieces);
    }
  }

  lemma {:induction false} SplitLastNonEmpty(s: string, c: char)
    requires s != [] && s[|s| - 1] != c
    ensures var r := Split(s, c); r[|r| - 1] != ""
    decreases |s|
  {
    if |s| > 1 {
      SplitLastNonEmpty(s[1..], c);
    }
  }

  lemma {:induction false} NonEmptyKeepsLast(parts: seq<string>)
    requires parts != [] && parts[|parts| - 1] != ""
    ensures NonEmpty(parts) != []
  {
    if |parts| > 1 && parts[0] == "" {
      NonEmptyKeepsLast(parts[1..]);
    }
  }

  lemma {:induction false} SplitFirstNonEmpty(s: string, c: char)
    requires s != [] && s[0] != c
    ensures Split(s, c)[0] != ""
  {
  }

  /** If nothing but empty pieces is left, the string was all separators. */
  lemma {:induction false} NonEmptySplitEmpty(s: string, c: char)
    requires NonEmpty(Split(s, c)) == []
    ensures s != [] ==> s[0] == c
  {
    if s != [] && s[0] != c {
      SplitFirstNonEmpty(s, c);
    }
  }

  /** `parse` fails only on the empty string. */
  lemma ParseFailsOnlyOnEmpty(s: string)
    ensures ParsePattern(s).None? <==> s == ""
  {
    if s != "" {
      ParsePatternNonEmpty(s);
    }
  }

  /** A pattern is rooted exactly when its text starts with `/`, and directory-only
      exactly when the text ends with `/`. */
  lemma ParseFlags(s: string)
    requires s != ""
    ensures ParsePattern(s).Some?
    ensures ParsePattern(s).value.rooted <==> s[0] == '/'
    ensures var p := ParsePattern(s).value;
            p.parts[|p.parts| - 1] == "" <==> s[|s| - 1] == '/'
  {
    ParsePatternNonEmpty(s);
    var p := ParsePattern(s).value;
    var ne := NonEmpty(Split(s, '/'));
    if s[|s| - 1] != '/' {
      assert !EndsWith(s, "/");
      assert p.parts == ne;
    } else {
      assert EndsWith(s, "/");
    }
  }

  lemma ParseCanonicalEntry(s: string)
    requires ParseEntry(s).Some? && ParseEntry(s).value.Some?
    ensures Canonical(ParseEntry(s).value.value.pattern)
  {
    if StartsWith(s, "!") {
      ParsePatternNonEmpty(s[1..]);
      ParseCanonical(s[1..]);
    } else {
      ParsePatternNonEmpty(s);
      ParseCanonical(s);
    }
  }

  /** Whatever `parse` builds is canonical. */
  lemma ParseCanonical(s: string)
    requires ParsePattern(s).Some?
    ensures Canonical(ParsePattern(s).value)
  {
    var p := ParsePattern(s).value;
    var pieces := Split(s, '/');
    var ne := NonEmpty(pieces);
    assert forall i :: 0 <= i < |ne| ==> ne[i] in pieces;
    if p.parts[|p.parts| - 1] == "" && !p.rooted {
      assert EndsWith(s, "/");
      if ne == [] {
        NonEmptySplitEmpty(s, '/');
      }
    }
  }

  lemma {:induction false} JoinStartsWith(sep: string, parts: seq<string>)
    requires parts != []
    ensures StartsWith(Join(sep, parts), parts[0])
  {
    if |parts| > 1 {
      assert Join(sep, parts) == parts[0] + (sep + Join(sep, parts[1..]));
    }
  }

  lemma {:induction false} JoinEndsWith(sep: string, parts: seq<string>)
    requires parts != []
    ensures EndsWith(Join(sep, parts), parts[|parts| - 1])
    ensures |parts| >= 2 ==> EndsWith(Join(sep, parts), sep + parts[|parts| - 1])
  {
    if |parts| > 1 {
      JoinEndsWith(sep, parts[1..]);
      var rest := Join(sep, parts[1..]);
      assert Join(sep, parts) == (parts[0] + sep) + rest;
      if |parts| == 2 {
        assert rest == parts[1];
        assert Join(sep, parts) == parts[0] + (sep + parts[1]);
      }
    }
  }

  /** The leading `/` of a rooted pattern is its only source of a leading empty piece. */
  lemma FormatRooted(p: GlobPattern)
    requires Canonical(p)
    ensures StartsWith(FormatPattern(p), "/") <==> p.rooted
    ensures NonEmpty(Split(FormatPattern(p), '/')) == NonEmpty(p.parts)
  {
    FormatLeadingSlash(p);
    FormatSegments(p);
  }

  lemma FormatLeadingSlash(p: GlobPattern)
    requires Canonical(p)
    ensures StartsWith(FormatPattern(p), "/") <==> p.rooted
  {
    var s := FormatPattern(p);
    if !p.rooted {
      assert s == Join("/", p.parts);
      JoinStartsWith("/", p.parts);
      assert p.parts[0] != "";
      assert s[0] == p.parts[0][0];
      assert p.parts[0][0] in p.parts[0];
    }
  }

  lemma FormatSegments(p: GlobPattern)
    requires Canonical(p)
    ensures NonEmpty(Split(FormatPattern(p), '/')) == NonEmpty(p.parts)
  {
    var j := Join("/", p.parts);
    var s := FormatPattern(p);
    SplitJoin(p.parts, '/');
    if p.rooted {
      assert s == [] + ['/'] + j;
      SplitPrefix([], '/', j);
      NonEmptyPrependEmpty(p.parts);
    } else {
      assert s == j;
    }
  }

  /** The text ends in `/` exactly when the pattern carries the directory marker. */
  lemma FormatDirMarker(p: GlobPattern)
    requires Canonical(p)
    ensures EndsWith(FormatPattern(p), "/") <==> p.parts[|p.parts| - 1] == ""
  {
    if p.parts[|p.parts| - 1] == "" {
      FormatWithMarker(p);
    } else {
      FormatWithoutMarker(p);
    }
  }

  lemma FormatWithMarker(p: GlobPattern)
    requires Canonical(p) && p.parts[|p.parts| - 1] == ""
    ensures EndsWith(FormatPattern(p), "/")
  {
    if |p.parts| == 1 {
      assert p.parts == [""];
    } else {
      var j := Join("/", p.parts);
      JoinEndsWith("/", p.parts);
      assert "/" + p.parts[|p.parts| - 1] == "/";
      EndsWithPrefixed(if p.rooted then "/" else "", j, "/");
    }
  }

  lemma FormatWithoutMarker(p: GlobPattern)
    requires Canonical(p) && p.parts[|p.parts| - 1] != ""
    ensures !EndsWith(FormatPattern(p), "/")
  {
    var last := p.parts[|p.parts| - 1];
    var j := Join("/", p.parts);
    JoinEndsWith("/", p.parts);
    EndsWithPrefixed(if p.rooted then "/" else "", j, last);
    assert last[|last| - 1] in last;
  }

  /** A suffix of `b` is a suffix of `a + b`. */
  lemma EndsWithPrefixed(a: string, b: string, suffix: string)
    requires EndsWith(b, suffix)
    ensures EndsWith(a + b, suffix)
  {
    assert (a + b)[|a + b| - |suffix|..] == b[|b| - |suffix|..];
  }

  /** Dropping the empty pieces of a segmented pattern loses at most its directory marker. */
  lemma NonEmptyMarker(p: GlobPattern)
    requires Segmented(p)
    ensures NonEmpty(p.parts) + (if p.parts[|p.parts| - 1] == "" then [""] else []) == p.parts
  {
    var n := |p.parts|;
    if p.parts[n - 1] == "" {
      assert p.parts == p.parts[..n - 1] + [""];
      NonEmptyAppendEmpty(p.parts[..n - 1]);
      NonEmptyOfNonEmpty(p.parts[..n - 1]);
    } else {
      NonEmptyOfNonEmpty(p.parts);
      assert NonEmpty(p.parts) + [] == p.parts;
    }
  }

  /** `__str__` and `parse` are inverse on canonical patterns. */
  lemma FormatParse(p: GlobPattern)
    requires Canonical(p)
    ensures ParsePattern(FormatPattern(p)) == Some(p)
  {
    FormatRooted(p);
    FormatDirMarker(p);
    NonEmptyMarker(p);
  }

  // =====================================================================
  // Matching a whole path at once
  //
  // The incremental matcher is compared with a direct reading of the
  // gitignore rule: a pattern matches a path when its segments (without the
  // directory marker) match the path's last components, and a rooted
  // pattern only when they match all of them.

  /** The first `k` segments of `p` match the components of `path` from index `j` on. */
  predicate SegmentsMatch(p: ValidPattern, path: seq<string>, j: int, k: int)
  {
    && 0 <= j && 0 <= k && j + k <= |path| && k <= |p.parts|
    && forall t :: 0 <= t < k ==> GlobMatch(path[j + t], p.parts[t])
  }

  /** The directory `path` (its last component included) matches the pattern as a whole. */
  predicate WholeDirMatch(p: ValidPattern, path: seq<string>)
  {
    exists j :: 0 <= j < |path| && StartsWholeMatch(p, path, j, EffLen(p))
  }

  /** The file `path` (directories then the file name) matches the pattern as a whole. */
  predicate WholeFileMatch(p: ValidPattern, path: seq<string>)
  {
    && !DirOnly(p)
    && exists j :: 0 <= j < |path| && StartsWholeMatch(p, path, j, |p.parts|)
  }

  /** The polarity of the last entry matching the directory `path` as a whole, false if none. */
  function WholeDirVerdict(es: seq<Entry>, path: seq<string>): bool
  {
    if es == [] then false
    else
      var e := es[|es| - 1];
      if WholeDirMatch(e.pattern, path) then e.positive else WholeDirVerdict(es[..|es| - 1], path)
  }

  /** The polarity of the last entry matching the file `path` as a whole, false if none. */
  function WholeFileVerdict(es: seq<Entry>, path: seq<string>): bool
  {
    if es == [] then false
    else
      var e := es[|es| - 1];
      if WholeFileMatch(e.pattern, path) then e.positive else WholeFileVerdict(es[..|es| - 1], path)
  }

  /** Some directory made of the first `k <= n` components of `dirs` is accepted as a whole. */
  predicate SomeDirAccepted(es: seq<Entry>, dirs: seq<string>, n: int)
    requires 0 <= n <= |dirs|
  {
    n > 0 && (WholeDirVerdict(es, dirs[..n]) || SomeDirAccepted(es, dirs, n - 1))
  }

  predicate AllSegmented(es: seq<Entry>)
  {
    forall i :: 0 <= i < |es| ==> Segmented(es[i].pattern)
  }

  /**
   * The path `dirs` (directories) plus an optional file name is accepted:
   * some directory along it is matched as a whole with a positive verdict,
   * or the file is.
   */
  predicate WholePathMatch(es: seq<Entry>, dirs: seq<string>, fname: Option<string>)
  {
    || SomeDirAccepted(es, dirs, |dirs|)
    || (fname.Some? && WholeFileVerdict(es, dirs + [fname.value]))
  }

  // ---------------------------------------------------------------------
  // One pattern

  /** The patterns a list of patterns carries into the directory `name`, in order. */
  function CarryAll(qs: seq<ValidPattern>, name: string): (r: seq<ValidPattern>)
  {
    if qs == [] then []
    else CarryAll(qs[..|qs| - 1], name) + MatchDir(qs[|qs| - 1], name).carried
  }

  /** The patterns derived from `p` that apply inside the directory path `ds`. */
  function Carried(p: ValidPattern, ds: seq<string>): (r: seq<ValidPattern>)
  {
    if ds == [] then [p] else CarryAll(Carried(p, ds[..|ds| - 1]), ds[|ds| - 1])
  }

  /** Every pattern carried by a list comes from one of its members. */
  lemma {:induction false} CarryAllSource(qs: seq<ValidPattern>, name: string, q: ValidPattern) returns (i: nat)
    requires q in CarryAll(qs, name)
    ensures i < |qs| && q in MatchDir(qs[i], name).carried
  {
    var init := qs[..|qs| - 1];
    if q in MatchDir(qs[|qs| - 1], name).carried {
      i := |qs| - 1;
    } else {
      i := CarryAllSource(init, name, q);
      assert qs[i] == init[i];
    }
  }

  /** What any member of a list carries, the list carries. */
  lemma {:induction false} CarryAllFrom(qs: seq<ValidPattern>, name: string, i: nat, q: ValidPattern)
    requires i < |qs| && q in MatchDir(qs[i], name).carried
    ensures q in CarryAll(qs, name)
  {
    var init := qs[..|qs| - 1];
    if i < |init| {
      assert qs[i] == init[i];
      CarryAllFrom(init, name, i, q);
    }
  }

  /** On a segmented pattern, the full-match test fires exactly at the last effective segment. */
  lemma FullCondAt(p: ValidPattern, t: nat)
    requires Segmented(p) && t < EffLen(p)
    ensures FullCond(p.parts[t..]) <==> t == EffLen(p) - 1
  {
    var n := |p.parts|;
    if FullCond(p.parts[t..]) && |p.parts[t..]| == 2 {
      assert p.parts[t..][1] == p.parts[t + 1];
    }
    if t == EffLen(p) - 1 && DirOnly(p) {
      assert p.parts[t..][1] == p.parts[n - 1];
    }
  }

  /** Descending `t` directories from start index `j` leaves the rooted remainder. */
  predicate RemainderFrom(p: ValidPattern, ds: seq<string>, j: int)
  {
    0 <= j < |ds| && (j == 0 || !p.rooted) && |ds| - j < EffLen(p) && SegmentsMatch(p, ds, j, |ds| - j)
  }

  ghost predicate IsRemainder(p: ValidPattern, ds: seq<string>, q: ValidPattern)
  {
    exists j :: RemainderFrom(p, ds, j) && q == GlobPattern(true, p.parts[|ds| - j..])
  }

  /** What `p` itself carries into the last directory of `ds`, when it is still in force. */
  lemma StepFromSelf(p: ValidPattern, ds: seq<string>, q: ValidPattern)
    requires Segmented(p) && ds != [] && (|ds| == 1 || !p.rooted)
    requires q in MatchDir(p, ds[|ds| - 1]).carried
    ensures (q == p && !p.rooted) || RemainderFrom(p, ds, |ds| - 1)
    ensures q != p ==> q == GlobPattern(true, p.parts[1..])
  {
    if q != p {
      FullCondAt(p, 0);
    }
  }

  /** What a remainder carries into the last directory of `ds`: the next remainder, from the same start. */
  lemma StepFromRemainder(p: ValidPattern, pre: seq<string>, ds: seq<string>, j: int, q: ValidPattern)
    requires Segmented(p) && ds != [] && pre == ds[..|ds| - 1] && RemainderFrom(p, pre, j)
    requires q in MatchDir(GlobPattern(true, p.parts[|pre| - j..]), ds[|ds| - 1]).carried
    ensures RemainderFrom(p, ds, j)
    ensures q == GlobPattern(true, p.parts[|ds| - j..])
  {
    var k := |pre| - j;
    var q0 := GlobPattern(true, p.parts[k..]);
    FullCondAt(p, k);
    assert q0.parts[0] == p.parts[k];
    assert q0.parts[1..] == p.parts[k + 1..];
    assert SegmentsMatch(p, ds, j, k + 1) by {
      forall t | 0 <= t < k + 1 ensures GlobMatch(ds[j + t], p.parts[t]) {
        if t < k { assert ds[j + t] == pre[j + t]; }
      }
    }
  }

  /** A remainder after `ds` arises from `p` itself or from a remainder after all but its last directory. */
  lemma StepBack(p: ValidPattern, pre: seq<string>, ds: seq<string>, j: int)
    requires Segmented(p) && RemainderFrom(p, ds, j) && pre == ds[..|ds| - 1]
    ensures j == |pre| ==>
              && (pre == [] || !p.rooted)
              && GlobPattern(true, p.parts[1..]) in MatchDir(p, ds[|ds| - 1]).carried
    ensures j < |pre| ==>
              && RemainderFrom(p, pre, j)
              && GlobPattern(true, p.parts[|ds| - j..]) in
                   MatchDir(GlobPattern(true, p.parts[|pre| - j..]), ds[|ds| - 1]).carried
  {
    var k := |ds| - j;
    assert GlobMatch(ds[j + (k - 1)], p.parts[k - 1]);
    FullCondAt(p, k - 1);
    if j < |pre| {
      var q0 := GlobPattern(true, p.parts[k - 1..]);
      assert SegmentsMatch(p, pre, j, k - 1) by {
        forall t | 0 <= t < k - 1 ensures GlobMatch(pre[j + t], p.parts[t]) {
          assert pre[j + t] == ds[j + t];
        }
      }
      assert q0.parts[0] == p.parts[k - 1];
      assert q0.parts[1..] == p.parts[k..];
    }
  }

  lemma {:induction false} CarriedSound(p: ValidPattern, ds: seq<string>, q: ValidPattern)
    requires Segmented(p) && q in Carried(p, ds)
    ensures (q == p && (ds == [] || !p.rooted)) || IsRemainder(p, ds, q)
    decreases |ds|
  {
    if ds != [] {
      var pre := ds[..|ds| - 1];
      var prev := Carried(p, pre);
      var i := CarryAllSource(prev, ds[|ds| - 1], q);
      var q0 := prev[i];
      CarriedSound(p, pre, q0);
      if q0 == p && (pre == [] || !p.rooted) {
        StepFromSelf(p, ds, q);
        if q != p || p.rooted {
          assert RemainderFrom(p, ds, |ds| - 1) && q == GlobPattern(true, p.parts[|ds| - (|ds| - 1)..]);
        }
      } else {
        var j :| RemainderFrom(p, pre, j) && q0 == GlobPattern(true, p.parts[|pre| - j..]);
        StepFromRemainder(p, pre, ds, j, q);
      }
    }
  }

  /** A pattern stays in force in every directory below the root, unless it is rooted. */
  lemma {:induction false} CarriedSelf(p: ValidPattern, ds: seq<string>)
    requires ds == [] || !p.rooted
    ensures p in Carried(p, ds)
    decreases |ds|
  {
    if ds != [] {
      var pre := ds[..|ds| - 1];
      var prev := Carried(p, pre);
      CarriedSelf(p, pre);
      var i :| 0 <= i < |prev| && prev[i] == p;
      CarryAllFrom(prev, ds[|ds| - 1], i, p);
    }
  }

  /** Every partial match in progress leaves its remainder in force. */
  lemma {:induction false} CarriedRemainder(p: ValidPattern, ds: seq<string>, j: int)
    requires Segmented(p) && RemainderFrom(p, ds, j)
    ensures GlobPattern(true, p.parts[|ds| - j..]) in Carried(p, ds)
    decreases |ds|
  {
    var pre := ds[..|ds| - 1];
    var prev := Carried(p, pre);
    var q: ValidPattern := GlobPattern(true, p.parts[|ds| - j..]);
    StepBack(p, pre, ds, j);
    var q0: ValidPattern;
    if j == |pre| {
      q0 := p;
      CarriedSelf(p, pre);
    } else {
      q0 := GlobPattern(true, p.parts[|pre| - j..]);
      CarriedRemainder(p, pre, j);
    }
    var i :| 0 <= i < |prev| && prev[i] == q0;
    CarryAllFrom(prev, ds[|ds| - 1], i, q);
  }

  lemma CarriedComplete(p: ValidPattern, ds: seq<string>, q: ValidPattern)
    requires Segmented(p)
    requires (q == p && (ds == [] || !p.rooted)) || IsRemainder(p, ds, q)
    ensures q in Carried(p, ds)
  {
    if q == p && (ds == [] || !p.rooted) {
      CarriedSelf(p, ds);
    } else {
      var j :| RemainderFrom(p, ds, j) && q == GlobPattern(true, p.parts[|ds| - j..]);
      CarriedRemainder(p, ds, j);
    }
  }

  /**
   * The patterns in force inside `ds` are the pattern itself (unless it is
   * rooted and `ds` is not empty) and the rooted remainders of every
   * partial match that started at a directory of `ds`.
   */
  lemma CarriedChar(p: ValidPattern, ds: seq<string>, q: ValidPattern)
    requires Segmented(p)
    ensures q in Carried(p, ds) <==> (q == p && (ds == [] || !p.rooted)) || IsRemainder(p, ds, q)
  {
    if q in Carried(p, ds) {
      CarriedSound(p, ds, q);
    }
    if (q == p && (ds == [] || !p.rooted)) || IsRemainder(p, ds, q) {
      CarriedComplete(p, ds, q);
    }
  }

  /** The start index of a whole match of `k` segments ending at the last component. */
  predicate StartsWholeMatch(p: ValidPattern, path: seq<string>, j: int, k: int)
  {
    0 <= j < |path| && (j == 0 || !p.rooted) && |path| - j == k && SegmentsMatch(p, path, j, k)
  }

  /** A full match reported for `d` by `p` or by one of its remainders is a whole match. */
  lemma FullStep(p: ValidPattern, pre: seq<string>, d: string, j: int)
    requires Segmented(p)
    requires j == |pre| ==> (pre == [] || !p.rooted) && MatchDir(p, d).full
    requires j < |pre| ==> RemainderFrom(p, pre, j) &&
                           MatchDir(GlobPattern(true, p.parts[|pre| - j..]), d).full
    requires 0 <= j <= |pre|
    ensures StartsWholeMatch(p, pre + [d], j, EffLen(p))
  {
    var k := |pre| - j;
    var path := pre + [d];
    FullCondAt(p, k);
    if j < |pre| {
      assert GlobPattern(true, p.parts[k..]).parts[0] == p.parts[k];
    }
    assert SegmentsMatch(p, path, j, k + 1) by {
      forall t | 0 <= t < k + 1 ensures GlobMatch(path[j + t], p.parts[t]) {
        if t < k { assert path[j + t] == pre[j + t]; } else { assert path[j + t] == d; }
      }
    }
  }

  /** A whole match of the directory `pre + [d]` is reported by `p` or by one of its remainders. */
  lemma FullBack(p: ValidPattern, pre: seq<string>, d: string, j: int)
    requires Segmented(p) && StartsWholeMatch(p, pre + [d], j, EffLen(p))
    ensures j == |pre| ==> (pre == [] || !p.rooted) && MatchDir(p, d).full
    ensures j < |pre| ==> RemainderFrom(p, pre, j) &&
                          MatchDir(GlobPattern(true, p.parts[|pre| - j..]), d).full
  {
    var path := pre + [d];
    var k := |pre| - j;
    FullCondAt(p, k);
    assert GlobMatch(path[j + k], p.parts[k]);
    assert path[j + k] == d;
    if j < |pre| {
      assert SegmentsMatch(p, pre, j, k) by {
        forall t | 0 <= t < k ensures GlobMatch(pre[j + t], p.parts[t]) {
          assert pre[j + t] == path[j + t];
        }
      }
      assert GlobPattern(true, p.parts[k..]).parts[0] == p.parts[k];
    }
  }

  lemma FullMatchSound(p: ValidPattern, ds: seq<string>, d: string, i: int)
    requires Segmented(p) && 0 <= i < |Carried(p, ds)| && MatchDir(Carried(p, ds)[i], d).full
    ensures WholeDirMatch(p, ds + [d])
  {
    var q0 := Carried(p, ds)[i];
    CarriedSound(p, ds, q0);
    if q0 == p && (ds == [] || !p.rooted) {
      FullStep(p, ds, d, |ds|);
      assert StartsWholeMatch(p, ds + [d], |ds|, EffLen(p));
    } else {
      var j :| RemainderFrom(p, ds, j) && q0 == GlobPattern(true, p.parts[|ds| - j..]);
      FullStep(p, ds, d, j);
      assert StartsWholeMatch(p, ds + [d], j, EffLen(p));
    }
  }

  lemma FullMatchComplete(p: ValidPattern, ds: seq<string>, d: string)
    requires Segmented(p) && WholeDirMatch(p, ds + [d])
    ensures exists i :: 0 <= i < |Carried(p, ds)| && MatchDir(Carried(p, ds)[i], d).full
  {
    var qs := Carried(p, ds);
    var j :| 0 <= j < |ds + [d]| && StartsWholeMatch(p, ds + [d], j, EffLen(p));
    FullBack(p, ds, d, j);
    var q0 := if j == |ds| then p else GlobPattern(true, p.parts[|ds| - j..]);
    CarriedComplete(p, ds, q0);
    var i :| 0 <= i < |qs| && qs[i] == q0;
    assert MatchDir(qs[i], d).full;
  }

  /** Incremental and whole-path directory matching agree for one pattern. */
  lemma FullMatchChar(p: ValidPattern, ds: seq<string>, d: string)
    requires Segmented(p)
    ensures (exists i :: 0 <= i < |Carried(p, ds)| && MatchDir(Carried(p, ds)[i], d).full)
            <==> WholeDirMatch(p, ds + [d])
  {
    if exists i :: 0 <= i < |Carried(p, ds)| && MatchDir(Carried(p, ds)[i], d).full {
      var i :| 0 <= i < |Carried(p, ds)| && MatchDir(Carried(p, ds)[i], d).full;
      FullMatchSound(p, ds, d, i);
    }
    if WholeDirMatch(p, ds + [d]) {
      FullMatchComplete(p, ds, d);
    }
  }

  /** A file match reported for `f` by `p` or by one of its remainders is a whole match. */
  lemma FileStep(p: ValidPattern, pre: seq<string>, f: string, j: int)
    requires Segmented(p)
    requires j == |pre| ==> (pre == [] || !p.rooted) && MatchFile(p, f)
    requires j < |pre| ==> RemainderFrom(p, pre, j) &&
                           MatchFile(GlobPattern(true, p.parts[|pre| - j..]), f)
    requires 0 <= j <= |pre|
    ensures !DirOnly(p) && StartsWholeMatch(p, pre + [f], j, |p.parts|)
  {
    var k := |pre| - j;
    var path := pre + [f];
    if j < |pre| {
      assert GlobPattern(true, p.parts[k..]).parts[0] == p.parts[k];
    }
    assert SegmentsMatch(p, path, j, k + 1) by {
      forall t | 0 <= t < k + 1 ensures GlobMatch(path[j + t], p.parts[t]) {
        if t < k { assert path[j + t] == pre[j + t]; } else { assert path[j + t] == f; }
      }
    }
  }

  /** A whole match of the file `pre + [f]` is reported by `p` or by one of its remainders. */
  lemma FileBack(p: ValidPattern, pre: seq<string>, f: string, j: int)
    requires Segmented(p) && !DirOnly(p) && StartsWholeMatch(p, pre + [f], j, |p.parts|)
    ensures j == |pre| ==> (pre == [] || !p.rooted) && MatchFile(p, f)
    ensures j < |pre| ==> RemainderFrom(p, pre, j) &&
                          MatchFile(GlobPattern(true, p.parts[|pre| - j..]), f)
  {
    var path := pre + [f];
    var k := |pre| - j;
    assert GlobMatch(path[j + k], p.parts[k]);
    assert path[j + k] == f;
    if j < |pre| {
      assert SegmentsMatch(p, pre, j, k) by {
        forall t | 0 <= t < k ensures GlobMatch(pre[j + t], p.parts[t]) {
          assert pre[j + t] == path[j + t];
        }
      }
      assert GlobPattern(true, p.parts[k..]).parts == [p.parts[k]];
    }
  }

  lemma FileMatchSound(p: ValidPattern, ds: seq<string>, f: string, i: int)
    requires Segmented(p) && 0 <= i < |Carried(p, ds)| && MatchFile(Carried(p, ds)[i], f)
    ensures WholeFileMatch(p, ds + [f])
  {
    var q0 := Carried(p, ds)[i];
    CarriedSound(p, ds, q0);
    if q0 == p && (ds == [] || !p.rooted) {
      FileStep(p, ds, f, |ds|);
      assert StartsWholeMatch(p, ds + [f], |ds|, |p.parts|);
    } else {
      var j :| RemainderFrom(p, ds, j) && q0 == GlobPattern(true, p.parts[|ds| - j..]);
      FileStep(p, ds, f, j);
      assert StartsWholeMatch(p, ds + [f], j, |p.parts|);
    }
  }

  lemma FileMatchComplete(p: ValidPattern, ds: seq<string>, f: string)
    requires Segmented(p) && WholeFileMatch(p, ds + [f])
    ensures exists i :: 0 <= i < |Carried(p, ds)| && MatchFile(Carried(p, ds)[i], f)
  {
    var qs := Carried(p, ds);
    var j :| 0 <= j < |ds + [f]| && StartsWholeMatch(p, ds + [f], j, |p.parts|);
    FileBack(p, ds, f, j);
    var q0 := if j == |ds| then p else GlobPattern(true, p.parts[|ds| - j..]);
    CarriedComplete(p, ds, q0);
    var i :| 0 <= i < |qs| && qs[i] == q0;
    assert MatchFile(qs[i], f);
  }

  /** Incremental and whole-path file matching agree for one pattern. */
  lemma FileMatchChar(p: ValidPattern, ds: seq<string>, f: string)
    requires Segmented(p)
    ensures (exists i :: 0 <= i < |Carried(p, ds)| && MatchFile(Carried(p, ds)[i], f))
            <==> WholeFileMatch(p, ds + [f])
  {
    if exists i :: 0 <= i < |Carried(p, ds)| && MatchFile(Carried(p, ds)[i], f) {
      var i :| 0 <= i < |Carried(p, ds)| && MatchFile(Carried(p, ds)[i], f);
      FileMatchSound(p, ds, f, i);
    }
    if WholeFileMatch(p, ds + [f]) {
      FileMatchComplete(p, ds, f);
    }
  }

  // ---------------------------------------------------------------------
  // A set of patterns

  /** The entries in force inside `ds`: each entry's carried patterns, with its polarity, in order. */
  function Expand(es: seq<Entry>, ds: seq<string>): (r: seq<Entry>)
  {
    if es == [] then []
    else
      var e := es[|es| - 1];
      var init := es[..|es| - 1];
      var t := Tag(e.positive, Carried(e.pattern, ds));
      Expand(init, ds) + t
  }

  lemma TagAppend(positive: bool, a: seq<ValidPattern>, b: seq<ValidPattern>)
    ensures Tag(positive, a + b) == Tag(positive, a) + Tag(positive, b)
  {
    var l, r := Tag(positive, a + b), Tag(positive, a) + Tag(positive, b);
    TagIndex(positive, a + b);
    TagIndex(positive, a);
    TagIndex(positive, b);
    assert |l| == |r|;
    forall i | 0 <= i < |l| ensures l[i] == r[i] {
      if i >= |a| { assert (a + b)[i] == b[i - |a|]; }
    }
  }

  lemma NarrowSnoc(es: seq<Entry>, e: Entry, name: string)
    ensures Narrow(es + [e], name) == Narrow(es, name) + Tag(e.positive, MatchDir(e.pattern, name).carried)
  {
    assert (es + [e])[..|es|] == es;
  }

  /** The generic shape of `Narrow`: concatenate what `f` yields for each entry, in order. */
  function ConcatMap(es: seq<Entry>, f: Entry -> seq<Entry>): seq<Entry>
  {
    if es == [] then [] else ConcatMap(es[..|es| - 1], f) + f(es[|es| - 1])
  }

  lemma {:induction false} ConcatMapAppend(a: seq<Entry>, b: seq<Entry>, f: Entry -> seq<Entry>)
    ensures ConcatMap(a + b, f) == ConcatMap(a, f) + ConcatMap(b, f)
    decreases |b|
  {
    if b == [] {
      assert a + b == a;
    } else {
      var init, x := b[..|b| - 1], b[|b| - 1];
      ConcatMapAppend(a, init, f);
      assert (a + b)[..|a + b| - 1] == a + init;
      assert (a + b)[|a + b| - 1] == x;
      assert ConcatMap(a + b, f) == ConcatMap(a, f) + ConcatMap(init, f) + f(x);
      assert ConcatMap(a, f) + ConcatMap(init, f) + f(x) == ConcatMap(a, f) + (ConcatMap(init, f) + f(x));
    }
  }

  lemma {:induction false} NarrowIsConcatMap(es: seq<Entry>, name: string)
    ensures Narrow(es, name) == ConcatMap(es, (e: Entry) => Tag(e.positive, MatchDir(e.pattern, name).carried))
    decreases |es|
  {
    if es != [] {
      NarrowIsConcatMap(es[..|es| - 1], name);
    }
  }

  /** Narrowing distributes over concatenation of entry lists. */
  lemma NarrowAppend(a: seq<Entry>, b: seq<Entry>, name: string)
    ensures Narrow(a + b, name) == Narrow(a, name) + Narrow(b, name)
  {
    NarrowIsConcatMap(a + b, name);
    NarrowIsConcatMap(a, name);
    NarrowIsConcatMap(b, name);
    ConcatMapAppend(a, b, (e: Entry) => Tag(e.positive, MatchDir(e.pattern, name).carried));
  }

  lemma {:induction false} NarrowTag(positive: bool, qs: seq<ValidPattern>, name: string)
    ensures Narrow(Tag(positive, qs), name) == Tag(positive, CarryAll(qs, name))
    decreases |qs|
  {
    if qs != [] {
      var q0, q := qs[..|qs| - 1], qs[|qs| - 1];
      NarrowTag(positive, q0, name);
      NarrowSnoc(Tag(positive, q0), Entry(positive, q), name);
      TagAppend(positive, CarryAll(q0, name), MatchDir(q, name).carried);
    }
  }

  /** Descending one more directory narrows the expanded entries, as `match_dir` does. */
  lemma {:induction false} ExpandStep(es: seq<Entry>, ds: seq<string>, d: string)
    ensures Expand(es, ds + [d]) == Narrow(Expand(es, ds), d)
    decreases |es|
  {
    if es != [] {
      var init, e := es[..|es| - 1], es[|es| - 1];
      assert (ds + [d])[..|ds|] == ds;
      assert Carried(e.pattern, ds + [d]) == CarryAll(Carried(e.pattern, ds), d);
      ExpandStep(init, ds, d);
      NarrowTag(e.positive, Carried(e.pattern, ds), d);
      NarrowAppend(Expand(init, ds), Tag(e.positive, Carried(e.pattern, ds)), d);
    }
  }

  lemma {:induction false} ExpandNil(es: seq<Entry>)
    ensures Expand(es, []) == es
    decreases |es|
  {
    if es != [] {
      ExpandNil(es[..|es| - 1]);
      assert Tag(es[|es| - 1].positive, [es[|es| - 1].pattern]) == [es[|es| - 1]];
    }
  }

  /** Some entry matches the directory `name` as a whole. */
  predicate AnyFullIn(es: seq<Entry>, name: string)
  {
    es != [] && (MatchDir(es[|es| - 1].pattern, name).full || AnyFullIn(es[..|es| - 1], name))
  }

  /** Some entry matches the file `name`. */
  predicate AnyFileIn(es: seq<Entry>, name: string)
  {
    es != [] && (MatchFile(es[|es| - 1].pattern, name) || AnyFileIn(es[..|es| - 1], name))
  }

  /** Some pattern of the list matches the directory `name` as a whole. */
  predicate AnyFull(qs: seq<ValidPattern>, name: string)
  {
    qs != [] && (MatchDir(qs[|qs| - 1], name).full || AnyFull(qs[..|qs| - 1], name))
  }

  /** Some pattern of the list matches the file `name`. */
  predicate AnyFile(qs: seq<ValidPattern>, name: string)
  {
    qs != [] && (MatchFile(qs[|qs| - 1], name) || AnyFile(qs[..|qs| - 1], name))
  }

  lemma {:induction false} AnyFullIndex(qs: seq<ValidPattern>, name: string)
    ensures AnyFull(qs, name) <==> exists i :: 0 <= i < |qs| && MatchDir(qs[i], name).full
  {
    if qs != [] {
      var q0 := qs[..|qs| - 1];
      AnyFullIndex(q0, name);
      if AnyFull(q0, name) {
        var i :| 0 <= i < |q0| && MatchDir(q0[i], name).full;
        assert qs[i] == q0[i];
      }
      if exists i :: 0 <= i < |qs| && MatchDir(qs[i], name).full {
        var i :| 0 <= i < |qs| && MatchDir(qs[i], name).full;
        if i < |q0| { assert q0[i] == qs[i]; }
      }
    }
  }

  lemma {:induction false} AnyFileIndex(qs: seq<ValidPattern>, name: string)
    ensures AnyFile(qs, name) <==> exists i :: 0 <= i < |qs| && MatchFile(qs[i], name)
  {
    if qs != [] {
      var q0 := qs[..|qs| - 1];
      AnyFileIndex(q0, name);
      if AnyFile(q0, name) {
        var i :| 0 <= i < |q0| && MatchFile(q0[i], name);
        assert qs[i] == q0[i];
      }
      if exists i :: 0 <= i < |qs| && MatchFile(qs[i], name) {
        var i :| 0 <= i < |qs| && MatchFile(qs[i], name);
        if i < |q0| { assert q0[i] == qs[i]; }
      }
    }
  }

  /** Later entries take precedence over earlier ones when they match at all. */
  lemma {:induction false} DirVerdictAppend(a: seq<Entry>, b: seq<Entry>, name: string)
    ensures DirVerdict(a + b, name) == if AnyFullIn(b, name) then DirVerdict(b, name) else DirVerdict(a, name)
    decreases |b|
  {
    if b == [] {
      assert a + b == a;
    } else {
      var b0 := b[..|b| - 1];
      assert (a + b)[..|a + b| - 1] == a + b0;
      assert (a + b)[|a + b| - 1] == b[|b| - 1];
      DirVerdictAppend(a, b0, name);
    }
  }

  lemma {:induction false} FileVerdictAppend(a: seq<Entry>, b: seq<Entry>, name: string)
    ensures FileVerdict(a + b, name) == if AnyFileIn(b, name) then FileVerdict(b, name) else FileVerdict(a, name)
    decreases |b|
  {
    if b == [] {
      assert a + b == a;
    } else {
      var b0 := b[..|b| - 1];
      assert (a + b)[..|a + b| - 1] == a + b0;
      assert (a + b)[|a + b| - 1] == b[|b| - 1];
      FileVerdictAppend(a, b0, name);
    }
  }

  lemma {:induction false} DirVerdictTag(positive: bool, qs: seq<ValidPattern>, name: string)
    ensures AnyFullIn(Tag(positive, qs), name) == AnyFull(qs, name)
    ensures DirVerdict(Tag(positive, qs), name) == (positive && AnyFull(qs, name))
    decreases |qs|
  {
    if qs != [] {
      var t := Tag(positive, qs);
      var q0 := qs[..|qs| - 1];
      DirVerdictTag(positive, q0, name);
      assert t[..|t| - 1] == Tag(positive, q0);
    }
  }

  lemma {:induction false} FileVerdictTag(positive: bool, qs: seq<ValidPattern>, name: string)
    ensures AnyFileIn(Tag(positive, qs), name) == AnyFile(qs, name)
    ensures FileVerdict(Tag(positive, qs), name) == (positive && AnyFile(qs, name))
    decreases |qs|
  {
    if qs != [] {
      var t := Tag(positive, qs);
      var q0 := qs[..|qs| - 1];
      FileVerdictTag(positive, q0, name);
      assert t[..|t| - 1] == Tag(positive, q0);
    }
  }

  /** The incremental directory verdict is the whole-path verdict. */
  lemma {:induction false} DirVerdictExpand(es: seq<Entry>, ds: seq<string>, d: string)
    requires AllSegmented(es)
    ensures DirVerdict(Expand(es, ds), d) == WholeDirVerdict(es, ds + [d])
    decreases |es|
  {
    if es != [] {
      var init, e := es[..|es| - 1], es[|es| - 1];
      assert AllSegmented(init) by { assert forall i :: 0 <= i < |init| ==> init[i] == es[i]; }
      DirVerdictExpand(init, ds, d);
      var qs := Carried(e.pattern, ds);
      DirVerdictTag(e.positive, qs, d);
      DirVerdictAppend(Expand(init, ds), Tag(e.positive, qs), d);
      FullMatchChar(e.pattern, ds, d);
      AnyFullIndex(qs, d);
    }
  }

  /** The incremental file verdict is the whole-path verdict. */
  lemma {:induction false} FileVerdictExpand(es: seq<Entry>, ds: seq<string>, f: string)
    requires AllSegmented(es)
    ensures FileVerdict(Expand(es, ds), f) == WholeFileVerdict(es, ds + [f])
    decreases |es|
  {
    if es != [] {
      var init, e := es[..|es| - 1], es[|es| - 1];
      assert AllSegmented(init) by { assert forall i :: 0 <= i < |init| ==> init[i] == es[i]; }
      FileVerdictExpand(init, ds, f);
      var qs := Carried(e.pattern, ds);
      FileVerdictTag(e.positive, qs, f);
      FileVerdictAppend(Expand(init, ds), Tag(e.positive, qs), f);
      FileMatchChar(e.pattern, ds, f);
      AnyFileIndex(qs, f);
    }
  }

  // ---------------------------------------------------------------------
  // Negative entries

  lemma {:induction false} NormalizeNegativePrefix(a: seq<Entry>, b: seq<Entry>)
    requires AllNegative(a)
    ensures Normalize(a + b) == Normalize(b)
    decreases |a|
  {
    if a != [] {
      assert (a + b)[0] == a[0];
      assert (a + b)[1..] == a[1..] + b;
      NormalizeNegativePrefix(a[1..], b);
    } else {
      assert a + b == b;
    }
  }

  lemma {:induction false} NarrowNegative(es: seq<Entry>, name: string)
    requires AllNegative(es)
    ensures AllNegative(Narrow(es, name))
    decreases |es|
  {
    if es != [] {
      var init := es[..|es| - 1];
      assert AllNegative(init) by { assert forall i :: 0 <= i < |init| ==> init[i] == es[i]; }
      NarrowNegative(init, name);
      TagIndex(es[|es| - 1].positive, MatchDir(es[|es| - 1].pattern, name).carried);
    }
  }

  lemma {:induction false} NegativeVerdicts(es: seq<Entry>, name: string)
    requires AllNegative(es)
    ensures !DirVerdict(es, name) && !FileVerdict(es, name)
    decreases |es|
  {
    if es != [] {
      var init := es[..|es| - 1];
      assert AllNegative(init) by { assert forall i :: 0 <= i < |init| ==> init[i] == es[i]; }
      NegativeVerdicts(init, name);
    }
  }

  /** The entries `Normalize` drops never change a verdict or the narrowed set. */
  lemma NormalizeInvisible(es: seq<Entry>, name: string)
    ensures DirVerdict(Normalize(es), name) == DirVerdict(es, name)
    ensures FileVerdict(Normalize(es), name) == FileVerdict(es, name)
    ensures Normalize(Narrow(Normalize(es), name)) == Normalize(Narrow(es, name))
  {
    var k := |es| - |Normalize(es)|;
    var neg, rest := es[..k], Normalize(es);
    NormalizeSuffix(es);
    assert es == neg + rest;
    NormalizeDropsNegatives(es);
    NegativeVerdicts(neg, name);
    DirVerdictAppend(neg, rest, name);
    FileVerdictAppend(neg, rest, name);
    DirVerdictAppend([], rest, name);
    FileVerdictAppend([], rest, name);
    assert [] + rest == rest;
    NarrowAppend(neg, rest, name);
    NarrowNegative(neg, name);
    NormalizeNegativePrefix(Narrow(neg, name), Narrow(rest, name));
  }

  /** `match_dir` on the normalised expansion for `ds` gives the whole-path verdict
      for `ds + [d]` and the normalised expansion for `ds + [d]`. */
  lemma DescendExpand(es: seq<Entry>, ds: seq<string>, d: string)
    requires AllSegmented(es)
    ensures Descend(PatternSet(Normalize(Expand(es, ds))), d)
            == (WholeDirVerdict(es, ds + [d]), PatternSet(Normalize(Expand(es, ds + [d]))))
  {
    NormalizeInvisible(Expand(es, ds), d);
    DirVerdictExpand(es, ds, d);
    ExpandStep(es, ds, d);
  }

  /** Once only negative entries are left, nothing below can be accepted. */
  lemma {:induction false} NegativeExpandStays(es: seq<Entry>, ds: seq<string>, more: seq<string>)
    requires AllNegative(Expand(es, ds))
    ensures AllNegative(Expand(es, ds + more))
    decreases |more|
  {
    if more == [] {
      assert ds + more == ds;
    } else {
      var m0, d := more[..|more| - 1], more[|more| - 1];
      assert ds + more == (ds + m0) + [d];
      NegativeExpandStays(es, ds, m0);
      ExpandStep(es, ds + m0, d);
      NarrowNegative(Expand(es, ds + m0), d);
    }
  }

  lemma NoDirVerdictBelow(es: seq<Entry>, ds: seq<string>, more: seq<string>, d: string)
    requires AllSegmented(es) && AllNegative(Expand(es, ds))
    ensures !WholeDirVerdict(es, ds + more + [d])
  {
    NegativeExpandStays(es, ds, more);
    NegativeVerdicts(Expand(es, ds + more), d);
    DirVerdictExpand(es, ds + more, d);
  }

  lemma NoFileVerdictBelow(es: seq<Entry>, ds: seq<string>, more: seq<string>, f: string)
    requires AllSegmented(es) && AllNegative(Expand(es, ds))
    ensures !WholeFileVerdict(es, ds + more + [f])
  {
    NegativeExpandStays(es, ds, more);
    NegativeVerdicts(Expand(es, ds + more), f);
    FileVerdictExpand(es, ds + more, f);
  }

  lemma {:induction false} SomeDirMonotone(es: seq<Entry>, dirs: seq<string>, a: nat, b: nat)
    requires a <= b <= |dirs| && SomeDirAccepted(es, dirs, a)
    ensures SomeDirAccepted(es, dirs, b)
    decreases b
  {
    if a < b {
      SomeDirMonotone(es, dirs, a, b - 1);
    }
  }

  lemma {:induction false} NoneBelow(es: seq<Entry>, dirs: seq<string>, i: nat, n: nat)
    requires AllSegmented(es) && i < |dirs| && i + 1 <= n <= |dirs|
    requires AllNegative(Expand(es, dirs[..i + 1]))
    ensures SomeDirAccepted(es, dirs, n) == SomeDirAccepted(es, dirs, i + 1)
    decreases n
  {
    if n > i + 1 {
      NoneBelow(es, dirs, i, n - 1);
      var ds, more, d := dirs[..i + 1], dirs[i + 1..n - 1], dirs[n - 1];
      NoDirVerdictBelow(es, ds, more, d);
      assert dirs[..n] == ds + more + [d];
    }
  }

  lemma EmptyIsNegative(es: seq<Entry>, ds: seq<string>)
    requires Normalize(Expand(es, ds)) == []
    ensures AllNegative(Expand(es, ds))
  {
    var e := Expand(es, ds);
    NormalizeDropsNegatives(e);
    assert e[..|e| - |Normalize(e)|] == e;
  }

  /** Once the narrowed set is empty, no directory below and no file is accepted. */
  lemma NoVerdictBelowEmpty(es: seq<Entry>, dirs: seq<string>, i: nat, fname: Option<string>)
    requires AllSegmented(es)
    requires i < |dirs| && Normalize(Expand(es, dirs[..i + 1])) == []
    ensures SomeDirAccepted(es, dirs, |dirs|) == SomeDirAccepted(es, dirs, i + 1)
    ensures fname.Some? ==> !WholeFileVerdict(es, dirs + [fname.value])
  {
    var ds := dirs[..i + 1];
    EmptyIsNegative(es, ds);
    NoneBelow(es, dirs, i, |dirs|);
    if fname.Some? {
      var more := dirs[i + 1..];
      assert dirs == ds + more;
      NoFileVerdictBelow(es, ds, more, fname.value);
    }
  }

  /**
   * The components `match_path` walks: the non-empty pieces, the last one
   * being the file name unless the path ends in `/`. The empty path has no
   * last piece, where `parts[-1]` raises IndexError: None.
   */
  function SplitPath(path: string): (r: Option<(seq<string>, Option<string>)>)
    ensures r.None? <==> path == ""
    ensures r.Some? ==> forall i :: 0 <= i < |r.value.0| ==> r.value.0[i] != "" && '/' !in r.value.0[i]
    ensures r.Some? ==> (r.value.1.None? <==> path[|path| - 1] == '/')
    ensures r.Some? && r.value.1.Some? ==> r.value.1.value != "" && '/' !in r.value.1.value
  {
    if path == "" then None
    else
      var parts := NonEmpty(Split(path, '/'));
      assert forall i :: 0 <= i < |parts| ==> parts[i] in Split(path, '/');
      if EndsWith(path, "/") then Some((parts, None))
      else
        SplitLastNonEmpty(path, '/');
        NonEmptyKeepsLast(Split(path, '/'));
        Some((parts[..|parts| - 1], Some(parts[|parts| - 1])))
  }

  /**
   * `SplitPath` inverts joining non-empty, slash-free components with `/`:
   * without a trailing `/` the last component is the file name.
   */
  lemma SplitJoinedFile(parts: seq<string>)
    requires |parts| >= 1 && forall i :: 0 <= i < |parts| ==> parts[i] != "" && '/' !in parts[i]
    ensures SplitPath(Join("/", parts)) == Some((parts[..|parts| - 1], Some(parts[|parts| - 1])))
  {
    var path := Join("/", parts);
    SplitJoin(parts, '/');
    NonEmptyOfNonEmpty(parts);
    JoinNoTrailingSlash(parts);
    assert NonEmpty(Split(path, '/')) == parts;
  }

  /** With a trailing `/`, every joined component is a directory. */
  lemma SplitJoinedDir(parts: seq<string>)
    requires |parts| >= 1 && forall i :: 0 <= i < |parts| ==> parts[i] != "" && '/' !in parts[i]
    ensures SplitPath(Join("/", parts) + "/") == Some((parts, None))
  {
    var path := Join("/", parts) + "/";
    JoinSnoc("/", parts, "");
    assert path == Join("/", parts + [""]);
    SplitJoin(parts + [""], '/');
    NonEmptyAppendEmpty(parts);
    NonEmptyOfNonEmpty(parts);
    assert EndsWith(path, "/");
  }

  lemma JoinNoTrailingSlash(parts: seq<string>)
    requires |parts| >= 1 && parts[|parts| - 1] != "" && '/' !in parts[|parts| - 1]
    ensures !EndsWith(Join("/", parts), "/")
  {
    var path := Join("/", parts);
    var last := parts[|parts| - 1];
    JoinEndsWith("/", parts);
    assert last[|last| - 1] in last;
    assert path[|path| - |last|..][|last| - 1] == path[|path| - 1];
  }

  lemma {:induction false} JoinSnoc(sep: string, parts: seq<string>, x: string)
    requires parts != []
    ensures Join(sep, parts + [x]) == Join(sep, parts) + sep + x
  {
    if |parts| > 1 {
      JoinSnoc(sep, parts[1..], x);
      assert (parts + [x])[1..] == parts[1..] + [x];
    }
  }

  /** What `parts[-1]` raises on an empty list. */
  const IndexOutOfRange := "IndexError: list index out of range"

  /** What `match_path` returns for a path: the whole-path reading, or the empty path's IndexError. */
  function PathVerdict(ps: PatternSet, path: string): (r: Result<bool>)
    ensures r.Err? <==> path == ""
    ensures r.Ok? ==> r.value == WholePathMatch(ps.entries, SplitPath(path).value.0, SplitPath(path).value.1)
  {
    match SplitPath(path)
    case None => Err(IndexOutOfRange)
    case Some((dirs, fname)) => Ok(WholePathMatch(ps.entries, dirs, fname))
  }

  lemma PathStep(es: seq<Entry>, dirs: seq<string>, i: nat)
    requires AllSegmented(es) && i < |dirs|
    ensures Descend(PatternSet(Normalize(Expand(es, dirs[..i]))), dirs[i]).0
            == WholeDirVerdict(es, dirs[..i + 1])
    ensures Descend(PatternSet(Normalize(Expand(es, dirs[..i]))), dirs[i]).1
            == PatternSet(Normalize(Expand(es, dirs[..i + 1])))
  {
    var ds, d := dirs[..i], dirs[i];
    assert ds + [d] == dirs[..i + 1];
    DescendExpand(es, ds, d);
  }

  /**
   * `PatternSet.match_path`. The result is the whole-path reading of the
   * pattern set: true exactly when some directory on the path, or the file,
   * is matched as a whole with the last matching entry positive. The empty
   * path is the IndexError of `parts[-1]`.
   */
  method MatchPath(ps: PatternSet, path: string) returns (r: Result<bool>)
    requires ValidSet(ps) && AllSegmented(ps.entries)
    ensures r == PathVerdict(ps, path)
  {
    var split := SplitPath(path);
    if split.None? {
      return Err(IndexOutOfRange);
    }
    var dirs, fname := split.value.0, split.value.1;
    var es := ps.entries;
    var patternset := ps;
    ExpandNil(es);
    assert dirs[..0] == [];
    var i := 0;
    while i < |dirs|
      invariant 0 <= i <= |dirs|
      invariant patternset.entries == Normalize(Expand(es, dirs[..i]))
      invariant !SomeDirAccepted(es, dirs, i)
    {
      PathStep(es, dirs, i);
      var dirMatch, sub := MatchDirSet(patternset, dirs[i]);
      if dirMatch {
        SomeDirMonotone(es, dirs, i + 1, |dirs|);
        return Ok(true);
      }
      if sub.entries == [] {
        NoVerdictBelowEmpty(es, dirs, i, fname);
        return Ok(false);
      }
      patternset := sub;
      i := i + 1;
    }
    assert dirs[..i] == dirs;
    if fname.Some? {
      NormalizeInvisible(Expand(es, dirs), fname.value);
      FileVerdictExpand(es, dirs, fname.value);
      var m := MatchFileSet(patternset, fname.value);
      r := Ok(m);
    } else {
      r := Ok(false);
    }
  }
}
