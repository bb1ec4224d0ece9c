/**
 * SourceFiles: the line buffer of `lib/header/sourcefile.py`.
 *
 * A `SourceFile` holds the lines of one file and two flags,
 * `addspaceStart` and `addspaceEnd`, which say whether text later wrapped
 * around the buffer must be separated from it by a blank line. The
 * whitespace fixes rewrite the lines; `Wrap` glues a head and a tail on;
 * and `RunFilters` runs a stack of passes: each pass first takes its part
 * off the buffer (shebang line, copyright comment, include guard, extern-C
 * wrapper), and once every pass has done so the passes put their parts back
 * in the opposite order.
 *
 * The file read in the constructor becomes the `text` parameter. The helpers
 * `extract_lead_comments`, `remove_blank_lines` and `comment` of the comment
 * module, and the authorship registry of the copyright pass, are not part of
 * this model; a `Helpers` value stands for them.
 */
module SourceFiles {
  import opened Text
  import opened Environ
  import opened FileTypes
  import opened Comment
  import Rule

  /** The state a pass works on: the lines and the two padding flags. */
  datatype Buffer = Buffer(lines: seq<string>, addspaceStart: bool, addspaceEnd: bool)

  /** The environment variables the buffer reads, with the types it needs. */
  predicate Ready(env: Rule.Env)
  {
    && "tabsize" in env && env["tabsize"].Int?
    && "width" in env && env["width"].Int?
    && "extern_c" in env && "guards" in env && "guardname" in env
    && "fix_copyright" in env
  }

  type ReadyEnv = env: Rule.Env | Ready(env)
    witness map["tabsize" := Int(4), "width" := Int(0), "extern_c" := Bool(false),
                "guards" := Bool(false), "guardname" := Str(""), "fix_copyright" := Bool(true)]

  /** Code of other modules the passes call. */
  datatype Helpers = Helpers(
    /** `comment.extract_lead_comments`: the leading comment lines and the rest. */
    leadComments: (seq<string>, FileType) -> (seq<string>, seq<string>),
    /** `comment.remove_blank_lines`: leading blanks, the body, trailing blanks. */
    removeBlankLines: seq<string> -> (seq<string>, seq<string>, seq<string>),
    /**
     * The notice lines of the copyright pass: the authorship table parsed
     * from the old comment, merged into the registry and dumped, followed
     * by the lines of `copyright_notice`.
     */
    notice: (Option<seq<Piece>>, Rule.Env) -> seq<string>,
    /** `comment.comment`: lines turned into a comment of the file type. */
    commented: (seq<string>, FileType, Value) -> seq<string>)

  function OrEmpty<T>(x: Option<seq<T>>): (r: seq<T>)
    ensures x.Some? ==> r == x.value
    ensures x.None? ==> r == []
  {
    if x.Some? then x.value else []
  }

  // =====================================================================
  // fix_whitespace

  /**
   * One line of `fix_whitespace`: the lines kept so far and whether blank
   * lines were skipped since the last kept line.
   */
  function TidyStep(st: (seq<string>, bool), line: string): (seq<string>, bool)
  {
    var t := RStrip(line);
    if t != [] then (st.0 + (if st.1 && st.0 != [] then ["\n"] else []) + [t + "\n"], false)
    else (st.0, true)
  }

  function Tidy(lines: seq<string>): (seq<string>, bool)
  {
    if lines == [] then ([], false) else TidyStep(Tidy(lines[..|lines| - 1]), lines[|lines| - 1])
  }

  /** The lines after `fix_whitespace`. */
  function Tidied(lines: seq<string>): seq<string>
  {
    Tidy(lines).0
  }

  /** A line with text: it ends in a non-space character and then `\n`. */
  predicate Filled(l: string)
  {
    |l| >= 2 && l[|l| - 1] == '\n' && !IsSpace(l[|l| - 2])
  }

  /**
   * Lines are neat when each is `\n` or filled, the first and the last are
   * filled, and no two blank lines are adjacent.
   */
  predicate Neat(ls: seq<string>)
  {
    && (forall k :: 0 <= k < |ls| ==> ls[k] == "\n" || Filled(ls[k]))
    && (ls != [] ==> Filled(ls[0]) && Filled(ls[|ls| - 1]))
    && (forall k :: 0 < k < |ls| ==> Filled(ls[k - 1]) || Filled(ls[k]))
  }

  /** The filled lines, in order. */
  function Content(ls: seq<string>): seq<string>
  {
    if ls == [] then []
    else Content(ls[..|ls| - 1]) + (if Filled(ls[|ls| - 1]) then [ls[|ls| - 1]] else [])
  }

  /** The lines with text, each stripped on the right and ended by `\n`. */
  function Kept(lines: seq<string>): seq<string>
  {
    if lines == [] then []
    else
      var t := RStrip(lines[|lines| - 1]);
      Kept(lines[..|lines| - 1]) + (if t != [] then [t + "\n"] else [])
  }

  lemma FilledLine(t: string)
    requires t != [] && !IsSpace(t[|t| - 1])
    ensures Filled(t + "\n")
  {
  }

  /** A filled line, after a blank line or not, extends neat lines. */
  lemma NeatAppend(out: seq<string>, gap: bool, c: string)
    requires Neat(out) && Filled(c) && (gap ==> out != [])
    ensures Neat(out + (if gap then ["\n"] else []) + [c])
  {
    var r := out + (if gap then ["\n"] else []) + [c];
    forall k | 0 < k < |r|
      ensures Filled(r[k - 1]) || Filled(r[k])
    {
      if k < |out| {
        assert r[k - 1] == out[k - 1] && r[k] == out[k];
      } else if k == |out| && gap {
        assert r[k - 1] == out[|out| - 1];
      }
    }
  }

  lemma ContentSnoc(ls: seq<string>, l: string)
    ensures Content(ls + [l]) == Content(ls) + (if Filled(l) then [l] else [])
  {
    assert (ls + [l])[..|ls + [l]| - 1] == ls;
  }

  /** The content of lines grows by the filled lines appended. */
  lemma ContentAppend(out: seq<string>, gap: bool, c: string)
    requires Filled(c)
    ensures Content(out + (if gap then ["\n"] else []) + [c]) == Content(out) + [c]
  {
    var mid := out + (if gap then ["\n"] else []);
    ContentSnoc(mid, c);
    if gap {
      ContentSnoc(out, "\n");
    } else {
      assert mid == out;
    }
  }

  /** One step keeps the lines neat and adds the stripped line, if any, to the content. */
  lemma TidyStepNeat(out: seq<string>, blank: bool, line: string)
    requires Neat(out)
    ensures var t := RStrip(line);
      && Neat(TidyStep((out, blank), line).0)
      && Content(TidyStep((out, blank), line).0) == Content(out) + (if t != [] then [t + "\n"] else [])
  {
    var t := RStrip(line);
    if t != [] {
      RStripSpec(line);
      FilledLine(t);
      NeatAppend(out, blank && out != [], t + "\n");
      ContentAppend(out, blank && out != [], t + "\n");
    }
  }

  /**
   * `fix_whitespace` leaves neat lines, and the lines with text are those of
   * the input, in the same order, with the trailing whitespace removed.
   */
  lemma {:induction false} TidiedNeat(lines: seq<string>)
    ensures Neat(Tidied(lines))
    ensures Content(Tidied(lines)) == Kept(lines)
  {
    if lines != [] {
      var init := lines[..|lines| - 1];
      TidiedNeat(init);
      TidyStepNeat(Tidy(init).0, Tidy(init).1, lines[|lines| - 1]);
    }
  }

  /** A filled line loses exactly its `\n` to `rstrip`. */
  lemma RStripFilled(l: string)
    requires Filled(l)
    ensures RStrip(l) == l[..|l| - 1]
  {
    var t := l[..|l| - 1];
    assert t[..|t| - 1] == l[..|l| - 2];
  }

  /** A blank line only marks a gap. */
  lemma TidyBlank(pre: seq<string>)
    ensures Tidy(pre + ["\n"]).0 == Tidy(pre).0 && Tidy(pre + ["\n"]).1
  {
    assert (pre + ["\n"])[..|pre|] == pre;
    assert RStrip("\n") == [];
  }

  /** A filled line is kept as it is, after one blank line if a gap is pending. */
  lemma TidyFilled(pre: seq<string>, c: string)
    requires Filled(c)
    ensures Tidy(pre + [c]).0 == Tidy(pre).0 + (if Tidy(pre).1 && Tidy(pre).0 != [] then ["\n"] else []) + [c]
    ensures !Tidy(pre + [c]).1
  {
    assert (pre + [c])[..|pre|] == pre;
    RStripFilled(c);
    assert RStrip(c) + "\n" == c;
  }

  /** On a neat list, `fix_whitespace` has seen each prefix as it stands. */
  lemma {:induction false} TidyPrefix(ls: seq<string>, k: nat)
    requires Neat(ls) && k <= |ls|
    ensures k > 0 && ls[k - 1] == "\n" ==> Tidy(ls[..k]).0 == ls[..k - 1] && Tidy(ls[..k]).1
    ensures !(k > 0 && ls[k - 1] == "\n") ==> Tidy(ls[..k]).0 == ls[..k] && !Tidy(ls[..k]).1
  {
    if k > 0 {
      TidyPrefix(ls, k - 1);
      var pre := ls[..k - 1];
      var line := ls[k - 1];
      assert ls[..k] == pre + [line];
      if line == "\n" {
        TidyBlank(pre);
        assert Filled(ls[k - 2]);
      } else {
        TidyFilled(pre, line);
        if k > 1 && ls[k - 2] == "\n" {
          assert pre == ls[..k - 2] + ["\n"];
        }
      }
    }
  }

  /** `fix_whitespace` is idempotent: neat lines are left as they are. */
  lemma TidiedIdempotent(lines: seq<string>)
    ensures Tidied(Tidied(lines)) == Tidied(lines)
  {
    var ls := Tidied(lines);
    TidiedNeat(lines);
    TidyPrefix(ls, |ls|);
    assert ls[..|ls|] == ls;
  }

  // =====================================================================
  // expand_tabs

  /**
   * `s.expandtabs(tabsize)` in Python 2, from column `col`: a tab becomes
   * the spaces up to the next multiple of `tabsize` (and disappears when
   * `tabsize` is not positive); `\n` and `\r` return to column 0.
   */
  function Expand(s: string, tabsize: int, col: nat): string
    decreases |s|
  {
    if s == [] then []
    else if s[0] == '\t' then
      if tabsize > 0 then
        var n := tabsize - col % tabsize;
        seq(n, _ => ' ') + Expand(s[1..], tabsize, col + n)
      else Expand(s[1..], tabsize, col)
    else [s[0]] + Expand(s[1..], tabsize, if s[0] == '\n' || s[0] == '\r' then 0 else col + 1)
  }

  /** No tab survives expansion. */
  lemma {:induction false} ExpandNoTabs(s: string, tabsize: int, col: nat)
    ensures '\t' !in Expand(s, tabsize, col)
    decreases |s|
  {
    if s != [] {
      if s[0] == '\t' {
        if tabsize > 0 {
          ExpandNoTabs(s[1..], tabsize, col + (tabsize - col % tabsize));
        } else {
          ExpandNoTabs(s[1..], tabsize, col);
        }
      } else {
        ExpandNoTabs(s[1..], tabsize, if s[0] == '\n' || s[0] == '\r' then 0 else col + 1);
      }
    }
  }

  /** Text without tabs is left as it is. */
  lemma {:induction false} ExpandPlain(s: string, tabsize: int, col: nat)
    requires '\t' !in s
    ensures Expand(s, tabsize, col) == s
    decreases |s|
  {
    if s != [] {
      assert s == [s[0]] + s[1..];
      ExpandPlain(s[1..], tabsize, if s[0] == '\n' || s[0] == '\r' then 0 else col + 1);
    }
  }

  /** Every line of the buffer expanded. */
  function ExpandAll(lines: seq<string>, tabsize: int): (r: seq<string>)
    ensures |r| == |lines|
    ensures forall i :: 0 <= i < |r| ==> '\t' !in r[i]
    ensures forall i :: 0 <= i < |r| && '\t' !in lines[i] ==> r[i] == lines[i]
  {
    var r := seq(|lines|, i requires 0 <= i < |lines| => Expand(lines[i], tabsize, 0));
    assert forall i :: 0 <= i < |r| ==> '\t' !in r[i] by {
      forall i | 0 <= i < |r| {
        ExpandNoTabs(lines[i], tabsize, 0);
      }
    }
    assert forall i :: 0 <= i < |r| && '\t' !in lines[i] ==> r[i] == lines[i] by {
      forall i | 0 <= i < |r| && '\t' !in lines[i] {
        ExpandPlain(lines[i], tabsize, 0);
      }
    }
    r
  }

  // =====================================================================
  // long_lines

  /** The `(lineno, length)` pairs `long_lines` yields. */
  function Long(lines: seq<string>, width: int): seq<(nat, nat)>
  {
    if width <= 0 || lines == [] then []
    else
      var n := |lines|;
      var l := |RStripChar(lines[n - 1], '\n')|;
      Long(lines[..n - 1], width) + (if l > width then [(n, l)] else [])
  }

  /**
   * `long_lines` reports exactly the lines (numbered from 1) whose length
   * without the newline exceeds a positive width.
   */
  lemma {:induction false} LongMembers(lines: seq<string>, width: int)
    ensures forall p :: p in Long(lines, width) <==>
      width > 0 && 1 <= p.0 <= |lines| && p.1 == |RStripChar(lines[p.0 - 1], '\n')| && p.1 > width
  {
    if width > 0 && lines != [] {
      var n := |lines|;
      var init := lines[..n - 1];
      LongMembers(init, width);
      forall p
        ensures p in Long(lines, width) <==>
          1 <= p.0 <= n && p.1 == |RStripChar(lines[p.0 - 1], '\n')| && p.1 > width
      {
        if 1 <= p.0 < n {
          assert init[p.0 - 1] == lines[p.0 - 1];
        }
      }
    }
  }

  /** `long_lines` reports the lines in order. */
  lemma {:induction false} LongOrdered(lines: seq<string>, width: int)
    ensures forall i, j :: 0 <= i < j < |Long(lines, width)| ==> Long(lines, width)[i].0 < Long(lines, width)[j].0
  {
    if width > 0 && lines != [] {
      var init := lines[..|lines| - 1];
      LongOrdered(init, width);
      LongMembers(init, width);
      var r := Long(init, width);
      assert forall i :: 0 <= i < |r| ==> r[i] in r;
    }
  }

  // =====================================================================
  // wrap

  /** No line has text. */
  predicate AllBlank(lines: seq<string>)
  {
    forall k :: 0 <= k < |lines| ==> IsBlank(lines[k])
  }

  /** The case where `wrap` first replaces the buffer by two blank lines. */
  predicate SmallBlank(b: Buffer, head: seq<string>, tail: seq<string>)
  {
    |b.lines| < 2 && AllBlank(b.lines) && (b.addspaceStart || b.addspaceEnd) && head != [] && tail != []
  }

  /** The lines `wrap` puts between head and tail. */
  function Middle(b: Buffer, head: seq<string>, tail: seq<string>): seq<string>
  {
    if SmallBlank(b, head, tail) then ["\n", "\n"] else b.lines
  }

  /** `wrap` separates the head by a blank line. */
  predicate PadStart(b: Buffer, head: seq<string>, tail: seq<string>)
  {
    var m := Middle(b, head, tail);
    head != [] && b.addspaceStart && m != [] && !IsBlank(m[0])
  }

  /** `wrap` separates the tail by a blank line. */
  predicate PadEnd(b: Buffer, head: seq<string>, tail: seq<string>)
  {
    var m := Middle(b, head, tail);
    tail != [] && b.addspaceEnd && m != [] && !IsBlank(m[|m| - 1])
  }

  function Pad(c: bool): seq<string>
  {
    if c then ["\n"] else []
  }

  lemma JoinPadded(head: seq<string>, p: seq<string>, m: seq<string>, q: seq<string>, tail: seq<string>)
    ensures (head + p) + m + (q + tail) == head + p + m + q + tail
  {
  }

  /** `wrap(head, tail, addspace_start, addspace_end)`; `None` is the empty list. */
  function Wrapped(b: Buffer, head: seq<string>, tail: seq<string>, start: bool, end: bool): Buffer
  {
    Buffer(
      head + Pad(PadStart(b, head, tail)) + Middle(b, head, tail) + Pad(PadEnd(b, head, tail)) + tail,
      if head != [] then start else b.addspaceStart,
      if tail != [] then end else b.addspaceEnd)
  }

  /** Wrapping nothing changes nothing. */
  lemma WrapNothing(b: Buffer, start: bool, end: bool)
    ensures Wrapped(b, [], [], start, end) == b
  {
  }

  /**
   * `wrap` puts `head` first and `tail` last. Between them stand the old
   * lines, with one blank line after `head` only if `addspace_start` was set
   * and the first line has text, and likewise before `tail`.
   */
  lemma WrapLayout(b: Buffer, head: seq<string>, tail: seq<string>, start: bool, end: bool)
    requires !SmallBlank(b, head, tail)
    ensures var r := Wrapped(b, head, tail, start, end).lines;
      && |head| + |b.lines| + |tail| <= |r| <= |head| + |b.lines| + |tail| + 2
      && r[..|head|] == head
      && r[|r| - |tail|..] == tail
      && r[|head|..|r| - |tail|] ==
           (if head != [] && b.addspaceStart && b.lines != [] && !IsBlank(b.lines[0]) then ["\n"] else [])
           + b.lines
           + (if tail != [] && b.addspaceEnd && b.lines != [] && !IsBlank(b.lines[|b.lines| - 1]) then ["\n"] else [])
  {
    var m := Pad(PadStart(b, head, tail)) + b.lines + Pad(PadEnd(b, head, tail));
    JoinPadded(head, Pad(PadStart(b, head, tail)), b.lines, Pad(PadEnd(b, head, tail)), tail);
    assert Wrapped(b, head, tail, start, end).lines == head + m + tail;
    Framed(head, m, tail);
  }

  lemma Framed<T>(head: seq<T>, m: seq<T>, tail: seq<T>)
    ensures var r := head + m + tail;
      r[..|head|] == head && r[|r| - |tail|..] == tail && r[|head|..|r| - |tail|] == m
  {
    var r := head + m + tail;
    assert r[..|head|] == head;
    assert r[|r| - |tail|..] == tail;
  }

  /** Whatever the buffer holds, `wrap` puts `head` first and `tail` last. */
  lemma WrapFramed(b: Buffer, head: seq<string>, tail: seq<string>, start: bool, end: bool)
    ensures var r := Wrapped(b, head, tail, start, end).lines;
      |head| + |tail| <= |r| && r[..|head|] == head && r[|r| - |tail|..] == tail
  {
    var m := Pad(PadStart(b, head, tail)) + Middle(b, head, tail) + Pad(PadEnd(b, head, tail));
    JoinPadded(head, Pad(PadStart(b, head, tail)), Middle(b, head, tail), Pad(PadEnd(b, head, tail)), tail);
    Framed(head, m, tail);
  }

  /**
   * A buffer of fewer than two lines, none with text, becomes two blank
   * lines between `head` and `tail` when either flag is set.
   */
  lemma WrapSmallBlank(b: Buffer, head: seq<string>, tail: seq<string>, start: bool, end: bool)
    requires |b.lines| < 2 && AllBlank(b.lines) && (b.addspaceStart || b.addspaceEnd)
    requires head != [] && tail != []
    ensures Wrapped(b, head, tail, start, end).lines == head + ["\n", "\n"] + tail
  {
    assert IsBlank("\n");
  }

  /** `wrap` sets a flag only on the side where it added text. */
  lemma WrapFlags(b: Buffer, head: seq<string>, tail: seq<string>, start: bool, end: bool)
    ensures var r := Wrapped(b, head, tail, start, end);
      && (head == [] ==> r.addspaceStart == b.addspaceStart)
      && (head != [] ==> r.addspaceStart == start)
      && (tail == [] ==> r.addspaceEnd == b.addspaceEnd)
      && (tail != [] ==> r.addspaceEnd == end)
  {
  }

  /**
   * A head wrapped with `addspace_start` false is followed directly by the
   * next head: no blank line goes between two stacked heads.
   */
  lemma WrapStacks(b: Buffer, h1: seq<string>, h2: seq<string>, end: bool, start2: bool, end2: bool)
    requires h1 != []
    ensures var b1 := Wrapped(b, h1, [], false, end);
      Wrapped(b1, h2, [], start2, end2).lines == h2 + b1.lines
  {
  }

  // =====================================================================
  // The passes

  /** The passes of `filters`. */
  datatype Pass = ShebangPass | CopyrightPass | GuardPass | ExternCPass

  /** What a pass's first step hands to its second. */
  datatype Saved =
    | ShebangLine(line: Option<string>)
    | Notice(head: Option<seq<Piece>>)
    | Guard(comments: Option<seq<string>>)
    | HasExternC(found: bool)

  /** The pass a saved value belongs to. */
  function PassOf(s: Saved): Pass
  {
    match s
    case ShebangLine(_) => ShebangPass
    case Notice(_) => CopyrightPass
    case Guard(_) => GuardPass
    case HasExternC(_) => ExternCPass
  }

  /** The file type has a comment syntax the copyright pass can use. */
  predicate Commentable(ft: FileType)
  {
    ft.linecomment.Some? || ft.blockcomment.Some?
  }

  /**
   * `filters`: the shebang pass always, the copyright pass for a type with
   * comment syntax, the guard pass for headers, and the extern-C pass for C
   * headers when `extern_c` is set.
   */
  function Passes(ft: FileType, env: ReadyEnv): (r: seq<Pass>)
  {
    [ShebangPass]
    + (if Commentable(ft) then [CopyrightPass] else [])
    + (if ft.name == "h" || ft.name == "hxx" then [GuardPass] else [])
    + (if ft.name == "h" && Truthy(env["extern_c"]) then [ExternCPass] else [])
  }

  /** The passes come in a fixed order, each at most once, and the shebang pass first. */
  lemma PassesShape(ft: FileType, env: ReadyEnv)
    ensures var r := Passes(ft, env);
      && r != [] && r[0] == ShebangPass
      && (CopyrightPass in r <==> Commentable(ft))
      && (GuardPass in r <==> ft.name == "h" || ft.name == "hxx")
      && (ExternCPass in r <==> ft.name == "h" && Truthy(env["extern_c"]))
      && (forall i, j :: 0 <= i < j < |r| ==> Rank(r[i]) < Rank(r[j]))
  {
  }

  function Rank(p: Pass): nat
  {
    match p
    case ShebangPass => 0
    case CopyrightPass => 1
    case GuardPass => 2
    case ExternCPass => 3
  }

  /**
   * `filters` as written tests `filetype.source`, a field file types do not
   * have: after yielding the shebang pass the generator raises, so
   * `run_filters` runs the shebang step and stops with that error.
   */
  function PassesAsWritten(ft: FileType, env: ReadyEnv): (r: (seq<Pass>, Option<string>))
    ensures r.0 == [ShebangPass] && r.1.Some?
  {
    ([ShebangPass], Some("AttributeError: 'Filetype' object has no attribute 'source'"))
  }

  /** For every header type the written `filters` loses passes the intended one runs. */
  lemma PassesAsWrittenLoses(ft: FileType, env: ReadyEnv)
    requires ft.name == "h" || Commentable(ft)
    ensures |PassesAsWritten(ft, env).0| < |Passes(ft, env)|
  {
  }

  /** The leading comment names a copyright. */
  predicate HasNotice(head: seq<Piece>)
  {
    exists k :: 0 <= k < |head| && Contains(Upper(head[k].body), "COPYRIGHT")
  }

  /** The loop of `copyright_filter1` over the comment lines. */
  method FindNotice(comment: seq<Piece>) returns (found: bool)
    ensures found == HasNotice(comment)
  {
    var k := 0;
    while k < |comment|
      invariant k <= |comment|
      invariant forall j :: 0 <= j < k ==> !Contains(Upper(comment[j].body), "COPYRIGHT")
    {
      if Contains(Upper(comment[k].body), "COPYRIGHT") {
        return true;
      }
      k := k + 1;
    }
    return false;
  }

  /** The body `headerguard_filter1` accepts as guarded. */
  predicate Guarded(body: seq<string>)
  {
    && |body| >= 3
    && StartsWith(body[0], "#ifndef")
    && StartsWith(body[1], "#define")
    && StartsWith(body[|body| - 1], "#endif")
  }

  predicate HasExternCLine(lines: seq<string>)
  {
    exists k :: 0 <= k < |lines| && Contains(lines[k], "extern \"C\"")
  }

  const ExternHead := ["#ifdef __cplusplus\n", "extern \"C\" {\n", "#endif\n"]
  const ExternTail := ["#ifdef __cplusplus\n", "}\n", "#endif\n"]

  /** `shebang_filter1`: takes off line 0 when it starts with `#!`. */
  function ShebangTake(b: Buffer): (Buffer, Option<string>)
  {
    if b.lines == [] || !StartsWith(b.lines[0], "#!") then (b, None)
    else (b.(lines := b.lines[1..]), Some(b.lines[0]))
  }

  /** `shebang_filter2`. */
  function ShebangPut(b: Buffer, line: Option<string>): Buffer
  {
    if line.Some? then Wrapped(b, [line.value], [], false, false) else b
  }

  /** `copyright_filter1`: takes off the leading comment when it names a copyright. */
  function CopyrightTake(b: Buffer, ft: FileType): (Buffer, Option<seq<Piece>>)
  {
    var (head, body) := LeadComment(b.lines, Some(ft));
    if HasNotice(head) then (b.(lines := body), Some(head)) else (b, None)
  }

  /**
   * `copyright_filter2`: with `fix_copyright` off the old comment goes back
   * as it was (nothing when there was none); otherwise, for a type with
   * comment syntax, the regenerated notice goes first.
   */
  function CopyrightPut(b: Buffer, val: Option<seq<Piece>>, env: ReadyEnv, ft: FileType, h: Helpers): Buffer
  {
    if !Truthy(env["fix_copyright"]) then b.(lines := Lines(OrEmpty(val)) + b.lines)
    else if !Commentable(ft) then b
    else
      var block := h.commented(h.notice(val, env), ft, env["width"]);
      var start := ft.blockcomment.None? && b.lines != [] && StartsWith(Strip(b.lines[0]), ft.linecomment.value);
      Wrapped(b.(addspaceStart := start), block, [], false, false)
  }

  /** `headerguard_filter1`: strips a guard, keeping the comments before it. */
  function GuardTake(b: Buffer, ft: FileType, h: Helpers): (Buffer, Option<seq<string>>)
  {
    var (head, rest) := h.leadComments(b.lines, ft);
    var (_, body, _) := h.removeBlankLines(rest);
    if Guarded(body) then (b.(lines := body[2..|body| - 1]), Some(head)) else (b, None)
  }

  /** `headerguard_filter2`. */
  function GuardPut(b: Buffer, comments: Option<seq<string>>, env: ReadyEnv): Buffer
  {
    Wrapped(b, OrEmpty(comments) + GuardHead(env), GuardTail(env), comments.Some? && comments.value != [], false)
  }

  /** `externc_filter2`. */
  function ExternCPut(b: Buffer, found: bool): Buffer
  {
    if found then b else Wrapped(b, ExternHead, ExternTail, false, false)
  }

  /** The first step of a pass: the new buffer and what it saved. */
  function Filter1(p: Pass, b: Buffer, ft: FileType, h: Helpers): (Buffer, Saved)
  {
    match p
    case ShebangPass => (ShebangTake(b).0, ShebangLine(ShebangTake(b).1))
    case CopyrightPass => (CopyrightTake(b, ft).0, Notice(CopyrightTake(b, ft).1))
    case GuardPass => (GuardTake(b, ft, h).0, Guard(GuardTake(b, ft, h).1))
    case ExternCPass => (b, HasExternC(HasExternCLine(b.lines)))
  }

  /** The guard lines around the body, when `guards` is set and `guardname` is not empty. */
  function GuardHead(env: ReadyEnv): seq<string>
  {
    if Truthy(env["guards"]) && Truthy(env["guardname"]) then
      ["#ifndef " + Show(env["guardname"]) + "\n", "#define " + Show(env["guardname"]) + "\n"]
    else []
  }

  function GuardTail(env: ReadyEnv): seq<string>
  {
    if Truthy(env["guards"]) && Truthy(env["guardname"]) then ["#endif\n"] else []
  }

  /** The second step of the pass a saved value belongs to. */
  function Filter2(b: Buffer, s: Saved, env: ReadyEnv, ft: FileType, h: Helpers): Buffer
  {
    match s
    case ShebangLine(line) => ShebangPut(b, line)
    case Notice(val) => CopyrightPut(b, val, env, ft, h)
    case Guard(comments) => GuardPut(b, comments, env)
    case HasExternC(found) => ExternCPut(b, found)
  }

  // ---------------------------------------------------------------------
  // The shebang pass

  /**
   * The shebang pass takes line 0 off exactly when it starts with `#!`, and
   * its second step puts that line back first, whatever the passes between
   * did, with a blank line after it only when the buffer asks for one.
   */
  lemma ShebangRestores(b: Buffer, b2: Buffer, env: ReadyEnv, ft: FileType, h: Helpers)
    ensures var (b1, s) := Filter1(ShebangPass, b, ft, h);
      && (b.lines != [] && StartsWith(b.lines[0], "#!") ==>
            && b1.lines == b.lines[1..]
            && Filter2(b2, s, env, ft, h).lines ==
                 [b.lines[0]] + (if b2.addspaceStart && b2.lines != [] && !IsBlank(b2.lines[0]) then ["\n"] else []) + b2.lines
            && !Filter2(b2, s, env, ft, h).addspaceStart)
      && (!(b.lines != [] && StartsWith(b.lines[0], "#!")) ==>
            b1 == b && Filter2(b2, s, env, ft, h) == b2)
  {
    var (b1, s) := Filter1(ShebangPass, b, ft, h);
    if b.lines != [] && StartsWith(b.lines[0], "#!") {
      if b2.lines == [] || !IsBlank(b2.lines[0]) || !b2.addspaceStart {
        assert !SmallBlank(b2, [b.lines[0]], []);
      }
    }
  }

  // ---------------------------------------------------------------------
  // The copyright pass

  /** The copyright pass takes off the leading comment exactly when it names a copyright. */
  lemma CopyrightTakes(b: Buffer, ft: FileType, h: Helpers)
    ensures var (b1, s) := Filter1(CopyrightPass, b, ft, h);
      && s.Notice?
      && (s.head.Some? <==> HasNotice(LeadComment(b.lines, Some(ft)).0))
      && (s.head.Some? ==> Lines(s.head.value) + b1.lines == b.lines && b1.addspaceStart == b.addspaceStart)
      && (s.head.None? ==> b1 == b)
  {
    LeadCommentRebuilds(b.lines, Some(ft));
  }

  /** With `fix_copyright` off, the copyright pass gives back the buffer it was handed. */
  lemma CopyrightKeepsText(b: Buffer, env: ReadyEnv, ft: FileType, h: Helpers)
    requires !Truthy(env["fix_copyright"])
    ensures var (b1, s) := Filter1(CopyrightPass, b, ft, h);
      Filter2(b1, s, env, ft, h) == b
  {
    LeadCommentRebuilds(b.lines, Some(ft));
  }

  /**
   * The second step of `copyright_filter2` with `fix_copyright` off, as
   * written: it iterates over the saved comment, which is `None` when the
   * first step found no copyright, and so raises.
   */
  function RestoreAsWritten(b: Buffer, val: Option<seq<Piece>>): (r: Result<Buffer>)
    ensures r.Err? <==> val.None?
    ensures r.Ok? ==> r.value.lines == Lines(val.value) + b.lines
  {
    if val.None? then Err("TypeError: 'NoneType' object is not iterable")
    else Ok(b.(lines := Lines(val.value) + b.lines))
  }

  /** An empty file with `fix_copyright` off makes the written second step raise. */
  lemma RestoreAsWrittenFails(ft: FileType, h: Helpers)
    ensures var b := Buffer([], true, true);
      && Filter1(CopyrightPass, b, ft, h).1 == Notice(None)
      && RestoreAsWritten(Filter1(CopyrightPass, b, ft, h).0, None).Err?
  {
    var b := Buffer([], true, true);
    LeadCommentRebuilds([], Some(ft));
  }

  // ---------------------------------------------------------------------
  // The guard pass

  /**
   * The guard pass strips the guard only from a body of at least three
   * lines starting `#ifndef`, `#define` and ending `#endif`, keeping the
   * leading comments for its second step.
   */
  lemma GuardTakes(b: Buffer, ft: FileType, h: Helpers)
    ensures var (b1, s) := Filter1(GuardPass, b, ft, h);
      var body := h.removeBlankLines(h.leadComments(b.lines, ft).1).1;
      && s.Guard?
      && (s.comments.Some? <==> Guarded(body))
      && (s.comments.Some? ==> s.comments.value == h.leadComments(b.lines, ft).0 && b1.lines == body[2..|body| - 1])
      && (s.comments.None? ==> b1 == b)
  {
  }

  /**
   * When `guards` is set and `guardname` is not empty, the second step of
   * the guard pass puts the comments first, the `#ifndef`/`#define` pair
   * after them and `#endif` last.
   */
  lemma GuardPutsBack(b: Buffer, c: Option<seq<string>>, env: ReadyEnv)
    requires Truthy(env["guards"]) && Truthy(env["guardname"])
    ensures var r := GuardPut(b, c, env).lines;
      var g := Show(env["guardname"]);
      && r[..|OrEmpty(c)| + 2] == OrEmpty(c) + ["#ifndef " + g + "\n", "#define " + g + "\n"]
      && r[|r| - 1] == "#endif\n"
  {
    var head := OrEmpty(c) + GuardHead(env);
    WrapFramed(b, head, GuardTail(env), c.Some? && c.value != [], false);
    var r := GuardPut(b, c, env).lines;
    assert r[..|head|] == head;
    assert r[|r| - 1] == r[|r| - 1..][0];
  }

  /**
   * Otherwise no guard line is added: the comments go back first, followed
   * by a blank line only when there were comments and the buffer asks for
   * padding before a line with text.
   */
  lemma GuardLeftOut(b: Buffer, c: Option<seq<string>>, env: ReadyEnv)
    requires !(Truthy(env["guards"]) && Truthy(env["guardname"]))
    ensures GuardPut(b, c, env).lines ==
      OrEmpty(c) + (if c.Some? && c.value != [] && b.addspaceStart && b.lines != [] && !IsBlank(b.lines[0]) then ["\n"] else []) + b.lines
  {
    var head := OrEmpty(c);
    assert GuardHead(env) == [] && GuardTail(env) == [];
    assert head + GuardHead(env) == head;
    assert !SmallBlank(b, head, []);
    assert GuardPut(b, c, env).lines == head + Pad(PadStart(b, head, [])) + b.lines + [] + [];
  }

  // ---------------------------------------------------------------------
  // The extern-C pass

  /**
   * The extern-C wrapper goes around the buffer only when no line mentions
   * `extern "C"`; once it is there, the pass finds it.
   */
  lemma ExternCOnlyOnce(b: Buffer, b2: Buffer, env: ReadyEnv, ft: FileType, h: Helpers)
    ensures var (b1, s) := Filter1(ExternCPass, b, ft, h);
      && b1 == b
      && (HasExternCLine(b.lines) ==> Filter2(b2, s, env, ft, h) == b2)
      && (!HasExternCLine(b.lines) ==>
            var r := Filter2(b2, s, env, ft, h).lines;
            && r[..3] == ExternHead && r[|r| - 3..] == ExternTail
            && Filter1(ExternCPass, Filter2(b2, s, env, ft, h), ft, h).1 == HasExternC(true))
  {
    if !HasExternCLine(b.lines) {
      var r := Filter2(b2, HasExternC(false), env, ft, h).lines;
      assert r[1] == "extern \"C\" {\n";
      assert OccursAt(r[1], "extern \"C\"", 0);
      assert HasExternCLine(r);
    }
  }

  // =====================================================================
  // run_filters

  /** Every first step in order: the buffer after them and the saved values. */
  function Forward(ps: seq<Pass>, b: Buffer, ft: FileType, h: Helpers): (r: (Buffer, seq<Saved>))
    ensures |r.1| == |ps|
    ensures forall i :: 0 <= i < |ps| ==> PassOf(r.1[i]) == ps[i]
  {
    if ps == [] then (b, [])
    else
      var (b1, ss) := Forward(ps[..|ps| - 1], b, ft, h);
      var (b2, s) := Filter1(ps[|ps| - 1], b1, ft, h);
      assert PassOf(s) == ps[|ps| - 1];
      (b2, ss + [s])
  }

  /** The second steps of the saved values, the last one first. */
  function Backward(ss: seq<Saved>, b: Buffer, env: ReadyEnv, ft: FileType, h: Helpers): Buffer
  {
    if ss == [] then b
    else Backward(ss[..|ss| - 1], Filter2(b, ss[|ss| - 1], env, ft, h), env, ft, h)
  }

  /** The passes nested: each pass's second step wraps all the later passes. */
  function Nested(ps: seq<Pass>, b: Buffer, env: ReadyEnv, ft: FileType, h: Helpers): Buffer
  {
    if ps == [] then b
    else
      var (b1, s) := Filter1(ps[0], b, ft, h);
      Filter2(Nested(ps[1..], b1, env, ft, h), s, env, ft, h)
  }

  lemma {:induction false} ForwardCons(p: Pass, ps: seq<Pass>, b: Buffer, ft: FileType, h: Helpers)
    ensures var (b1, s) := Filter1(p, b, ft, h);
      && Forward([p] + ps, b, ft, h).0 == Forward(ps, b1, ft, h).0
      && Forward([p] + ps, b, ft, h).1 == [s] + Forward(ps, b1, ft, h).1
    decreases |ps|
  {
    var (b1, s) := Filter1(p, b, ft, h);
    if ps != [] {
      var init := ps[..|ps| - 1];
      ForwardCons(p, init, b, ft, h);
      assert ([p] + ps)[..|[p] + ps| - 1] == [p] + init;
      assert ([p] + ps)[|[p] + ps| - 1] == ps[|ps| - 1];
      var (c, ss) := Forward(init, b1, ft, h);
      assert [s] + ss + [Filter1(ps[|ps| - 1], c, ft, h).1] == [s] + (ss + [Filter1(ps[|ps| - 1], c, ft, h).1]);
    } else {
      assert [p] + ps == [p];
      assert [p][..0] == [];
      assert Forward([], b, ft, h) == (b, []);
      assert Forward([p], b, ft, h).1 == [] + [s];
    }
  }

  lemma ForwardSnoc(ps: seq<Pass>, p: Pass, b: Buffer, ft: FileType, h: Helpers)
    ensures var (mid, ss) := Forward(ps, b, ft, h);
      && Forward(ps + [p], b, ft, h).0 == Filter1(p, mid, ft, h).0
      && Forward(ps + [p], b, ft, h).1 == ss + [Filter1(p, mid, ft, h).1]
  {
    assert (ps + [p])[..|ps|] == ps;
  }

  lemma {:induction false} BackwardCons(s: Saved, ss: seq<Saved>, b: Buffer, env: ReadyEnv, ft: FileType, h: Helpers)
    ensures Backward([s] + ss, b, env, ft, h) == Filter2(Backward(ss, b, env, ft, h), s, env, ft, h)
    decreases |ss|
  {
    if ss != [] {
      var init := ss[..|ss| - 1];
      assert ([s] + ss)[..|[s] + ss| - 1] == [s] + init;
      BackwardCons(s, init, Filter2(b, ss[|ss| - 1], env, ft, h), env, ft, h);
    } else {
      assert [s] + ss == [s];
      assert [s][..0] == [];
    }
  }

  /**
   * `run_filters` (every first step in order, then the saved second steps
   * in reverse) is the nesting of the passes: each pass puts its part back
   * around everything the later passes did.
   */
  lemma {:induction false} RunIsNested(ps: seq<Pass>, b: Buffer, env: ReadyEnv, ft: FileType, h: Helpers)
    ensures var (mid, ss) := Forward(ps, b, ft, h);
      Backward(ss, mid, env, ft, h) == Nested(ps, b, env, ft, h)
    decreases |ps|
  {
    if ps != [] {
      var (b1, s) := Filter1(ps[0], b, ft, h);
      assert ps == [ps[0]] + ps[1..];
      ForwardCons(ps[0], ps[1..], b, ft, h);
      RunIsNested(ps[1..], b1, env, ft, h);
      var (mid, ss) := Forward(ps[1..], b1, ft, h);
      BackwardCons(s, ss, mid, env, ft, h);
    }
  }

  // =====================================================================
  // The buffer

  class SourceFile {
    const env: ReadyEnv
    const filetype: FileType
    const helpers: Helpers
    var lines: seq<string>
    var addspaceStart: bool
    var addspaceEnd: bool

    function State(): Buffer
      reads this
    {
      Buffer(lines, addspaceStart, addspaceEnd)
    }

    /** A buffer over the lines of a file, asking for padding on both sides. */
    constructor(env: ReadyEnv, filetype: FileType, helpers: Helpers, text: seq<string>)
      ensures this.env == env && this.filetype == filetype && this.helpers == helpers
      ensures State() == Buffer(text, true, true)
    {
      this.env := env;
      this.filetype := filetype;
      this.helpers := helpers;
      lines := text;
      addspaceStart := true;
      addspaceEnd := true;
    }

    /** `fix_whitespace`. */
    method FixWhitespace()
      modifies this
      ensures lines == Tidied(old(lines))
      ensures addspaceStart == old(addspaceStart) && addspaceEnd == old(addspaceEnd)
    {
      var out: seq<string> := [];
      var blank := false;
      for i := 0 to |lines|
        invariant out == Tidy(lines[..i]).0
        invariant blank == Tidy(lines[..i]).1
      {
        assert lines[..i + 1][..i] == lines[..i];
        var line := RStrip(lines[i]);
        if line != [] {
          if blank && out != [] {
            out := out + ["\n"];
          }
          out := out + [line + "\n"];
          blank := false;
        } else {
          blank := true;
        }
      }
      assert lines[..|lines|] == lines;
      lines := out;
    }

    /** `expand_tabs`, with the `tabsize` of the environment. */
    method ExpandTabs()
      modifies this
      ensures lines == ExpandAll(old(lines), env["tabsize"].i)
      ensures addspaceStart == old(addspaceStart) && addspaceEnd == old(addspaceEnd)
    {
      lines := ExpandAll(lines, env["tabsize"].i);
    }

    /** `long_lines`, with the `width` of the environment. */
    method LongLines() returns (r: seq<(nat, nat)>)
      ensures r == Long(lines, env["width"].i)
    {
      var width := env["width"].i;
      r := [];
      if width <= 0 {
        return;
      }
      for i := 0 to |lines|
        invariant r == Long(lines[..i], width)
      {
        assert lines[..i + 1][..i] == lines[..i];
        var line := RStripChar(lines[i], '\n');
        if |line| > width {
          r := r + [(i + 1, |line|)];
        }
      }
      assert lines[..|lines|] == lines;
    }

    /** `wrap`. */
    method Wrap(head: seq<string>, tail: seq<string>, start: bool, end: bool)
      modifies this
      ensures State() == Wrapped(old(State()), head, tail, start, end)
    {
      ghost var b := State();
      var body, h, t := lines, head, tail;
      if |body| < 2 && AllBlank(body) && (addspaceStart || addspaceEnd) && h != [] && t != [] {
        body := ["\n", "\n"];
      }
      assert body == Middle(b, head, tail);
      if h != [] {
        if addspaceStart && body != [] && !IsBlank(body[0]) {
          h := h + ["\n"];
        }
        addspaceStart := start;
      }
      assert h == head + Pad(PadStart(b, head, tail));
      if t != [] {
        if addspaceEnd && body != [] && !IsBlank(body[|body| - 1]) {
          t := ["\n"] + t;
        }
        addspaceEnd := end;
      }
      assert t == Pad(PadEnd(b, head, tail)) + tail;
      if h != [] || t != [] {
        JoinPadded(head, Pad(PadStart(b, head, tail)), body, Pad(PadEnd(b, head, tail)), tail);
        body := h + body + t;
      } else {
        assert body == [] + [] + b.lines + [] + [];
      }
      lines := body;
    }

    method ShebangFilter1() returns (line: Option<string>)
      modifies this
      ensures (State(), line) == ShebangTake(old(State()))
    {
      if lines == [] || !StartsWith(lines[0], "#!") {
        return None;
      }
      line := Some(lines[0]);
      lines := lines[1..];
    }

    method ShebangFilter2(line: Option<string>)
      modifies this
      ensures State() == ShebangPut(old(State()), line)
    {
      if line.Some? {
        Wrap([line.value], [], false, false);
      }
    }

    method CopyrightFilter1() returns (head: Option<seq<Piece>>)
      modifies this
      ensures (State(), head) == CopyrightTake(old(State()), filetype)
    {
      var comment, body := ExtractLeadComment(lines, Some(filetype));
      var found := FindNotice(comment);
      if !found {
        return None;
      }
      lines := body;
      head := Some(comment);
    }

    method CopyrightFilter2(val: Option<seq<Piece>>)
      modifies this
      ensures State() == CopyrightPut(old(State()), val, env, filetype, helpers)
    {
      if !Truthy(env["fix_copyright"]) {
        lines := Lines(OrEmpty(val)) + lines;
        return;
      }
      if filetype.linecomment.None? && filetype.blockcomment.None? {
        return;
      }
      var block := helpers.commented(helpers.notice(val, env), filetype, env["width"]);
      if filetype.blockcomment.None? && lines != [] && StartsWith(Strip(lines[0]), filetype.linecomment.value) {
        addspaceStart := true;
      } else {
        addspaceStart := false;
      }
      Wrap(block, [], false, false);
    }

    method GuardFilter1() returns (comments: Option<seq<string>>)
      modifies this
      ensures (State(), comments) == GuardTake(old(State()), filetype, helpers)
    {
      var (head, rest) := helpers.leadComments(lines, filetype);
      var (_, body, _) := helpers.removeBlankLines(rest);
      if |body| < 3 {
        return None;
      }
      if !StartsWith(body[0], "#ifndef") || !StartsWith(body[1], "#define") || !StartsWith(body[|body| - 1], "#endif") {
        return None;
      }
      lines := body[2..|body| - 1];
      comments := Some(head);
    }

    method GuardFilter2(comments: Option<seq<string>>)
      modifies this
      ensures State() == GuardPut(old(State()), comments, env)
    {
      var head := OrEmpty(comments);
      var tail: seq<string> := [];
      var guardname := env["guardname"];
      if Truthy(env["guards"]) && Truthy(guardname) {
        head := head + ["#ifndef " + Show(guardname) + "\n", "#define " + Show(guardname) + "\n"];
        tail := tail + ["#endif\n"];
      }
      assert head == OrEmpty(comments) + GuardHead(env) && tail == GuardTail(env);
      Wrap(head, tail, comments.Some? && comments.value != [], false);
    }

    method ExternCFilter1() returns (found: bool)
      ensures found == HasExternCLine(lines)
    {
      found := HasExternCLine(lines);
    }

    method ExternCFilter2(found: bool)
      modifies this
      ensures State() == ExternCPut(old(State()), found)
    {
      if found {
        return;
      }
      Wrap(ExternHead, ExternTail, false, false);
    }

    /** `getattr(self, filter + '_filter1')()`. */
    method Step1(p: Pass) returns (s: Saved)
      modifies this
      ensures (State(), s) == Filter1(p, old(State()), filetype, helpers)
    {
      match p
      case ShebangPass =>
        var line := ShebangFilter1();
        s := ShebangLine(line);
      case CopyrightPass =>
        var head := CopyrightFilter1();
        s := Notice(head);
      case GuardPass =>
        var comments := GuardFilter1();
        s := Guard(comments);
      case ExternCPass =>
        var found := ExternCFilter1();
        s := HasExternC(found);
    }

    /** `filter2(obj)` for the pass that saved `s`. */
    method Step2(s: Saved)
      modifies this
      ensures State() == Filter2(old(State()), s, env, filetype, helpers)
    {
      match s
      case ShebangLine(line) => ShebangFilter2(line);
      case Notice(head) => CopyrightFilter2(head);
      case Guard(comments) => GuardFilter2(comments);
      case HasExternC(found) => ExternCFilter2(found);
    }

    /** The first loop of `run_filters`: every first step, in order. */
    method TakeAll(passes: seq<Pass>) returns (saved: seq<Saved>)
      modifies this
      ensures State() == Forward(passes, old(State()), filetype, helpers).0
      ensures saved == Forward(passes, old(State()), filetype, helpers).1
    {
      saved := [];
      for i := 0 to |passes|
        invariant State() == Forward(passes[..i], old(State()), filetype, helpers).0
        invariant saved == Forward(passes[..i], old(State()), filetype, helpers).1
      {
        ForwardSnoc(passes[..i], passes[i], old(State()), filetype, helpers);
        assert passes[..i + 1] == passes[..i] + [passes[i]];
        var s := Step1(passes[i]);
        saved := saved + [s];
      }
      assert passes[..|passes|] == passes;
    }

    /** The second loop of `run_filters`: the second steps, the last pass's first. */
    method PutAll(saved: seq<Saved>)
      modifies this
      ensures State() == Backward(saved, old(State()), env, filetype, helpers)
    {
      var k := |saved|;
      assert saved[..k] == saved;
      while k > 0
        invariant 0 <= k <= |saved|
        invariant Backward(saved[..k], State(), env, filetype, helpers) == Backward(saved, old(State()), env, filetype, helpers)
      {
        assert saved[..k][..k - 1] == saved[..k - 1];
        k := k - 1;
        Step2(saved[k]);
      }
      assert saved[..|saved|] == saved;
    }

    /** `run_filters`: the stack of passes. */
    method RunFilters()
      modifies this
      ensures State() == Nested(Passes(filetype, env), old(State()), env, filetype, helpers)
    {
      var passes := Passes(filetype, env);
      var saved := TakeAll(passes);
      PutAll(saved);
      RunIsNested(passes, old(State()), env, filetype, helpers);
    }
  }
}
