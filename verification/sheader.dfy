/**
 * SHeader: the small header updater sheader.py. It splits a C file into
 * its leading block comment, the include guard and the body, names
 * guards after the path, and only looks at C-family files that are not
 * dot files. Its date lists (`parseDates`, `formatDates`) are the same code
 * as fixheader.py's and are modelled once, in module `Ranges`.
 */
module SHeader {
  import opened Text
  import FixHeader

  const CStart := "/*"
  const CEnd := "*/"

  // ---------------------------------------------------------------------
  // toMacroName

  /** `toMacroName`: the path with `/` joined back as `_`, in upper case. */
  function ToMacroName(path: string): (r: string)
    ensures |r| == |path|
    ensures forall i :: 0 <= i < |path| ==> r[i] == (if path[i] == '/' then '_' else UpperChar(path[i]))
  {
    JoinSplitReplace(path, '/', '_');
    Upper(Join("_", Split(path, '/')))
  }

  /** Only word characters and `/`, never two `/` in a row. */
  predicate SingleSlashes(path: string)
  {
    (forall i :: 0 <= i < |path| ==> IsWord(path[i]) || path[i] == '/') &&
    (forall i :: 0 <= i < |path| - 1 ==> path[i] == '/' ==> path[i + 1] != '/')
  }

  lemma {:induction false} GuardSubOfSingleSlashes(s: string)
    requires SingleSlashes(s)
    ensures FixHeader.GuardSub(s) == ReplaceChar(s, '/', '_')
    decreases |s|
  {
    if s != [] {
      var t := s[1..];
      assert SingleSlashes(t) by {
        assert forall i :: 0 <= i < |t| ==> t[i] == s[i + 1];
      }
      GuardSubOfSingleSlashes(t);
      assert ReplaceChar(s, '/', '_') == [if s[0] == '/' then '_' else s[0]] + ReplaceChar(t, '/', '_');
      if !IsWord(s[0]) {
        assert t != [] ==> IsWord(t[0]);
        assert FixHeader.DropNonWord(t) == t;
      }
    }
  }

  /**
   * On paths of word characters separated by single slashes, sheader.py's
   * macro name and fixheader.py's guard name agree.
   */
  lemma MacroNameIsGuardname(path: string)
    requires SingleSlashes(path)
    ensures ToMacroName(path) == FixHeader.HeaderGuardname(path)
  {
    GuardSubOfSingleSlashes(path);
  }

  // ---------------------------------------------------------------------
  // splitHeader

  /**
   * What `splitHeader` returns: the lines split in two. The first part is
   * non-empty exactly when the first line holds the opening marker
   * `CStart` and some line holds the closing marker `CEnd`; it then runs
   * through the first line holding `CEnd`.
   */
  predicate HeaderParts(lines: seq<string>, header: seq<string>, rest: seq<string>)
  {
    header + rest == lines &&
    (header != [] <==>
      lines != [] && Contains(lines[0], CStart) && exists n :: 0 <= n < |lines| && Contains(lines[n], CEnd)) &&
    (header != [] ==>
      Contains(header[|header| - 1], CEnd) && forall i :: 0 <= i < |header| - 1 ==> !Contains(header[i], CEnd))
  }

  /** `splitHeader`: the `for` loop looks for the first line holding `CEnd`; without one the header is empty. */
  method SplitHeader(lines: seq<string>) returns (header: seq<string>, rest: seq<string>)
    ensures HeaderParts(lines, header, rest)
  {
    if lines == [] || !Contains(lines[0], CStart) {
      return [], lines;
    }
    var end := 0;
    for n := 0 to |lines|
      invariant forall i :: 0 <= i < n ==> !Contains(lines[i], CEnd)
    {
      if Contains(lines[n], CEnd) {
        end := n + 1;
        break;
      }
    }
    header, rest := lines[..end], lines[end..];
    assert header + rest == lines;
  }

  /** `HeaderParts` leaves no choice. */
  lemma HeaderPartsUnique(lines: seq<string>, h: seq<string>, r: seq<string>, h': seq<string>, r': seq<string>)
    requires HeaderParts(lines, h, r) && HeaderParts(lines, h', r')
    ensures h == h' && r == r'
  {
    if h != [] && h' != [] {
      assert h[|h| - 1] == lines[|h| - 1] && h'[|h'| - 1] == lines[|h'| - 1];
      assert forall i :: 0 <= i < |h| ==> h[i] == lines[i];
      assert forall i :: 0 <= i < |h'| ==> h'[i] == lines[i];
      assert |h| == |h'|;
    }
    assert h == lines[..|h|] && h' == lines[..|h'|];
  }

  /** A match of `sub` after position `j` is a match in the whole string. */
  lemma ContainsInSuffix(s: string, sub: string, j: nat)
    requires j <= |s| && Contains(s[j..], sub)
    ensures Contains(s, sub)
  {
    var k := Find(s[j..], sub);
    assert s[j + k..j + k + |sub|] == s[j..][k..k + |sub|];
    assert OccursAt(s, sub, j + k);
  }

  /** A line opening with `CStart` and a space holds `CEnd` only in what follows the opening. */
  lemma NoCloseInOpening(s: string)
    requires |s| >= 3 && s[..2] == CStart && s[2] == ' ' && !Contains(s[2..], CEnd)
    ensures !Contains(s, CEnd)
  {
    forall k | 0 <= k < |s|
      ensures !OccursAt(s, CEnd, k)
    {
      if k >= 2 && k + 2 <= |s| {
        assert s[k..k + 2] == s[2..][k - 2..k];
        assert !OccursAt(s[2..], CEnd, k - 2);
      } else if k < 2 {
        assert s[k + 1] != '/';
      }
    }
  }

  /** The lines of a block-comment header as fixheader.py writes it, for sheader.py's scan. */
  lemma WrittenHeaderLines(text: seq<string>, rest: seq<string>)
    requires text != [] && forall i :: 0 <= i < |text| ==> !Contains(text[i], CEnd)
    ensures var body := FixHeader.BlockCommented(text, CStart, CEnd) + rest;
      Contains(body[0], CStart) && Contains(body[|text| - 1], CEnd) &&
      forall i :: 0 <= i < |text| - 1 ==> !Contains(body[i], CEnd)
  {
    var body := FixHeader.BlockCommented(text, CStart, CEnd) + rest;
    var last := |text| - 1;
    assert FixHeader.NoSpace(CEnd);
    FixHeader.OpenLines(text, CStart, CEnd, rest);
    var k := FixHeader.LastLineCloses(text, CStart, CEnd, rest);
    assert body[0] == FixHeader.BlockCommentLine(text, 0, CStart, CEnd);
    OpeningLine(text);
    if last == 0 {
      ContainsInSuffix(body[0], CEnd, 2);
    } else {
      NoCloseInOpening(body[0]);
    }
  }

  /** The first written line opens with `CStart` and a space. */
  lemma OpeningLine(text: seq<string>)
    requires text != []
    ensures var l := FixHeader.BlockCommentLine(text, 0, CStart, CEnd);
      |l| >= 3 && l[..2] == CStart && l[2] == ' ' && Contains(l, CStart)
  {
    var l := FixHeader.BlockCommentLine(text, 0, CStart, CEnd);
    assert l == CStart + (" " + text[0] + (if 0 < |text| - 1 then "" else " " + CEnd) + "\n");
    assert OccursAt(l, CStart, 0);
  }

  /** The written header and what follows are a split `HeaderParts` allows. */
  lemma WrittenHeaderParts(text: seq<string>, rest: seq<string>)
    requires text != [] && forall i :: 0 <= i < |text| ==> !Contains(text[i], CEnd)
    ensures HeaderParts(FixHeader.BlockCommented(text, CStart, CEnd) + rest, FixHeader.BlockCommented(text, CStart, CEnd), rest)
  {
    var c := FixHeader.BlockCommented(text, CStart, CEnd);
    var body := c + rest;
    var last := |text| - 1;
    WrittenHeaderLines(text, rest);
    assert forall i :: 0 <= i < |c| ==> c[i] == body[i];
    assert Contains(body[last], CEnd);
  }

  /**
   * A header that fixheader.py writes as a C block comment is split
   * off again by `splitHeader`, whatever follows it, when no line of the
   * text holds `CEnd`.
   */
  lemma SplitHeaderReadsBack(text: seq<string>, rest: seq<string>, h: seq<string>, r: seq<string>)
    requires text != [] && forall i :: 0 <= i < |text| ==> !Contains(text[i], CEnd)
    requires HeaderParts(FixHeader.BlockCommented(text, CStart, CEnd) + rest, h, r)
    ensures h == FixHeader.BlockCommented(text, CStart, CEnd) && r == rest
  {
    var c := FixHeader.BlockCommented(text, CStart, CEnd);
    WrittenHeaderParts(text, rest);
    HeaderPartsUnique(c + rest, h, r, c, rest);
  }

  // ---------------------------------------------------------------------
  // splitGuard

  /** Line `e` (past the guard lines) is an `#endif` followed only by blank lines. */
  predicate EndifAt(lines: seq<string>, e: int)
  {
    FixHeader.Guarded(lines) && 2 <= e < |lines| && FixHeader.IsEndif(lines[e]) &&
    forall i :: e < i < |lines| ==> IsBlank(lines[i])
  }

  /**
   * What `splitGuard` returns: three parts that make up the lines. The
   * last part is non-empty exactly when the lines open with `#ifndef` and
   * `#define` and the last non-blank line after them is an `#endif`; it is
   * then that line and the blank lines after it, and the first part is the
   * two guard lines. Otherwise everything is in the middle.
   */
  predicate GuardParts(lines: seq<string>, gstart: seq<string>, middle: seq<string>, gend: seq<string>)
  {
    gstart + middle + gend == lines &&
    (gend != [] <==> exists e :: 0 <= e < |lines| && EndifAt(lines, e)) &&
    (gend != [] ==> gstart == lines[..2] && EndifAt(lines, |lines| - |gend|)) &&
    (gend == [] ==> gstart == [])
  }

  /** With blank lines after `j`, and line `j` (if past the guard) neither blank nor an `#endif`, there is no `#endif` end. */
  lemma NoEndif(lines: seq<string>, j: int)
    requires 1 <= j < |lines|
    requires forall i :: j < i < |lines| ==> IsBlank(lines[i])
    requires j >= 2 ==> !IsBlank(lines[j]) && !FixHeader.IsEndif(lines[j])
    ensures forall e :: !EndifAt(lines, e)
  {
    forall e | EndifAt(lines, e)
      ensures false
    {
      FixHeader.EndifNotBlank(lines[e]);
    }
  }

  /**
   * `splitGuard`: the `end` cursor walks back from the last line over blank
   * lines; an `#endif` stops it, any other line or running into the guard
   * lines gives up and keeps all lines in the middle.
   */
  method SplitGuard(lines: seq<string>) returns (gstart: seq<string>, middle: seq<string>, gend: seq<string>)
    ensures GuardParts(lines, gstart, middle, gend)
  {
    var start := 0;
    var end := |lines|;
    if |lines| >= 2 && StartsWith(Strip(lines[0]), "#ifndef") && StartsWith(Strip(lines[1]), "#define") {
      start := 2;
      end := |lines| - 1;
      while end >= start
        invariant start == 2 && 1 <= end < |lines|
        invariant forall i :: end < i < |lines| ==> IsBlank(lines[i])
        decreases end
      {
        var line := Strip(lines[end]);
        if StartsWith(line, "#endif") {
          assert EndifAt(lines, end);
          break;
        }
        end := end - 1;
        if line == [] {
          continue;
        } else {
          NoEndif(lines, end + 1);
          start := 0;
          end := |lines|;
          break;
        }
      }
      // The `else` of the `while`: only an exhausted loop leaves `end` below `start`.
      if end < start {
        NoEndif(lines, end);
        start := 0;
        end := |lines|;
      }
    }
    gstart, middle, gend := lines[..start], lines[start..end], lines[end..];
    assert gstart + middle + gend == lines;
  }

  /** `GuardParts` leaves no choice. */
  lemma GuardPartsUnique(lines: seq<string>, a: seq<string>, m: seq<string>, z: seq<string>,
                         a': seq<string>, m': seq<string>, z': seq<string>)
    requires GuardParts(lines, a, m, z) && GuardParts(lines, a', m', z')
    ensures a == a' && m == m' && z == z'
  {
    if z != [] && z' != [] {
      EndifUnique(lines, |lines| - |z|, |lines| - |z'|);
    }
    assert z == lines[|lines| - |z|..] && z' == lines[|lines| - |z'|..];
    assert m == lines[|a|..|lines| - |z|] && m' == lines[|a'|..|lines| - |z'|];
  }

  /** At most one line is an `#endif` followed only by blank lines. */
  lemma EndifUnique(lines: seq<string>, e: int, e': int)
    requires EndifAt(lines, e) && EndifAt(lines, e')
    ensures e == e'
  {
    FixHeader.EndifNotBlank(lines[e]);
    FixHeader.EndifNotBlank(lines[e']);
  }

  /**
   * Where sheader.py finds a guard, fixheader.py's `get_guard` finds the
   * same three parts.
   */
  lemma GuardPartsAgree(lines: seq<string>, a: seq<string>, m: seq<string>, z: seq<string>)
    requires GuardParts(lines, a, m, z) && z != []
    ensures FixHeader.GuardSplit(lines, a, m, z)
  {
    var e := |lines| - |z|;
    assert forall i :: 0 <= i < |z| ==> z[i] == lines[e + i];
  }

  /**
   * The guard lines, any body and a closing `#endif` are split back into
   * exactly those three parts.
   */
  lemma SplitGuardReapplied(gname: string, body: seq<string>, a: seq<string>, m: seq<string>, z: seq<string>)
    requires GuardParts(FixHeader.GuardLines(gname) + body + ["#endif\n"], a, m, z)
    ensures a == FixHeader.GuardLines(gname) && m == body && z == ["#endif\n"]
  {
    var lines := FixHeader.GuardLines(gname) + body + ["#endif\n"];
    FixHeader.GuardLinesGuarded(gname, body + ["#endif\n"]);
    assert FixHeader.GuardLines(gname) + (body + ["#endif\n"]) == lines;
    FixHeader.EndifLine();
    assert EndifAt(lines, |lines| - 1);
    assert GuardParts(lines, FixHeader.GuardLines(gname), body, ["#endif\n"]);
    GuardPartsUnique(lines, a, m, z, FixHeader.GuardLines(gname), body, ["#endif\n"]);
  }

  // ---------------------------------------------------------------------
  // processFilePath

  /** `exts`: the extensions sheader.py handles. */
  const Exts: set<string> := {"c", "cpp", "m", "mm", "h"}

  /** The skip rules of `processFilePath`: no dot files, and only the extensions in `exts`. */
  predicate Processed(path: string)
  {
    var filename := FixHeader.BaseName(path);
    !StartsWith(filename, ".") && FixHeader.ExtOf(filename) in Exts
  }

  /**
   * A file sheader.py processes is one fixheader.py handles as C (or as a C
   * header for `.h`), unless fixheader.py's pattern hides it (`#` first or
   * `~` last).
   */
  lemma ProcessedIsC(path: string)
    requires Processed(path) && !FixHeader.Hidden(FixHeader.BaseName(path))
    ensures FixHeader.HandlerName(path, {}) ==
      Some(if FixHeader.ExtOf(FixHeader.BaseName(path)) == "h" then "h" else "c")
  {
    var e := FixHeader.ExtOf(FixHeader.BaseName(path));
    assert FixHeader.FilterPath(path, false, {});
    SameTable(e);
  }

  /** Every extension of `exts` is in fixheader.py's table, as C or (for `h`) as a C header. */
  lemma SameTable(e: string)
    requires e in Exts
    ensures e in FixHeader.Exts && FixHeader.Exts[e] == (if e == "h" then "h" else "c")
  {
    if e == "c" {
    } else if e == "cpp" {
    } else if e == "m" {
    } else if e == "mm" {
    } else {
      assert e == "h";
    }
  }

  /** A dot file is skipped by both programs. */
  lemma DotFileSkipped(path: string)
    requires StartsWith(FixHeader.BaseName(path), ".")
    ensures !Processed(path) && FixHeader.HandlerName(path, {}) == None
  {
  }
}
