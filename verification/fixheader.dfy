/**
 * FixHeader: the older stand-alone header fixer, fixheader.py. A
 * `HeaderFixer` picks a handler per file by extension; a handler finds the
 * leading comment of a file (`get_header`), writes a new one (`comment`)
 * and, for C headers, finds the include guard (`get_guard`). Guard names
 * are derived from the path (`header_guardname`), and some paths are never
 * handled (`filter_path`). The year lists are in module `Ranges`.
 */
module FixHeader {
  import opened Text
  import FileTypes

  // ---------------------------------------------------------------------
  // header_guardname

  /** Characters that may appear in a guard name: `[_A-Z0-9]`. */
  predicate IsGuardChar(c: char)
  {
    c == '_' || IsUpperLetter(c) || IsDigit(c)
  }

  /** The string without its leading characters outside `[_A-Za-z0-9]`. */
  function DropNonWord(s: string): (r: string)
    ensures |r| <= |s|
    ensures r != [] ==> IsWord(r[0])
  {
    if s != [] && !IsWord(s[0]) then DropNonWord(s[1..]) else s
  }

  /**
   * `re.sub('[^_A-Za-z0-9]+', '_', s)`: each maximal run of other
   * characters becomes a single `_`; the result has only word characters.
   */
  function GuardSub(s: string): (r: string)
    ensures |r| <= |s|
    ensures forall i :: 0 <= i < |r| ==> IsWord(r[i])
    decreases |s|
  {
    if s == [] then []
    else if IsWord(s[0]) then [s[0]] + GuardSub(s[1..])
    else "_" + GuardSub(DropNonWord(s[1..]))
  }

  /** `header_guardname`: the substitution above, in upper case. */
  function HeaderGuardname(path: string): (r: string)
    ensures |r| <= |path|
    ensures forall i :: 0 <= i < |r| ==> IsGuardChar(r[i])
  {
    Upper(GuardSub(path))
  }

  /**
   * A run of word characters is kept, the run of other characters after
   * it becomes one `_`, and the substitution goes on after that run.
   */
  lemma {:induction false} GuardSubRun(w: string, n: string, t: string)
    requires forall i :: 0 <= i < |w| ==> IsWord(w[i])
    requires n != [] && forall i :: 0 <= i < |n| ==> !IsWord(n[i])
    requires t != [] ==> IsWord(t[0])
    ensures GuardSub(w + n + t) == w + "_" + GuardSub(t)
    decreases |w|
  {
    if w == [] {
      assert w + n + t == n + t;
      assert (n + t)[1..] == n[1..] + t;
      NonWordDropped(n[1..], t);
    } else {
      assert (w + n + t)[1..] == w[1..] + n + t;
      GuardSubRun(w[1..], n, t);
      assert [w[0]] + (w[1..] + "_" + GuardSub(t)) == w + "_" + GuardSub(t);
    }
  }

  lemma {:induction false} NonWordDropped(n: string, t: string)
    requires forall i :: 0 <= i < |n| ==> !IsWord(n[i])
    requires t != [] ==> IsWord(t[0])
    ensures DropNonWord(n + t) == t
    decreases |n|
  {
    if n == [] {
      assert n + t == t;
    } else {
      assert (n + t)[1..] == n[1..] + t;
      NonWordDropped(n[1..], t);
    }
  }

  /** A string of word characters only is left as it is. */
  lemma {:induction false} GuardSubOfWord(s: string)
    requires forall i :: 0 <= i < |s| ==> IsWord(s[i])
    ensures GuardSub(s) == s
    decreases |s|
  {
    if s != [] {
      GuardSubOfWord(s[1..]);
      assert [s[0]] + s[1..] == s;
    }
  }

  /** A guard name is its own guard name. */
  lemma GuardnameIdempotent(path: string)
    ensures HeaderGuardname(HeaderGuardname(path)) == HeaderGuardname(path)
  {
    var g := HeaderGuardname(path);
    assert forall i :: 0 <= i < |g| ==> IsWord(g[i]);
    GuardSubOfWord(g);
    var u := Upper(g);
    assert |u| == |g|;
    forall i | 0 <= i < |g|
      ensures u[i] == g[i]
    {
      assert IsGuardChar(g[i]);
    }
  }

  // ---------------------------------------------------------------------
  // filter_path

  /** A string without `/`. */
  predicate NoSlash(s: string)
  {
    forall i :: 0 <= i < |s| ==> s[i] != '/'
  }

  /** `os.path.split(path)[1]`: what follows the last `/`. */
  function BaseName(path: string): (f: string)
    ensures NoSlash(f) && |f| <= |path| && f == path[|path| - |f|..]
    ensures |f| < |path| ==> path[|path| - |f| - 1] == '/'
  {
    var k := FileTypes.LastIndex(path, '/');
    path[k + 1..]
  }

  /** A last component that starts with `.` or `#`, or ends with `~`. */
  predicate Hidden(f: string)
  {
    f != [] && (f[0] == '.' || f[0] == '#' || f[|f| - 1] == '~')
  }

  // `exclude_re.match(path)` for `(?:.*/)?(?:[.#][^/]*|[^/]*~)$`, read
  // literally: some split of the path into a prefix that is empty or ends
  // in `/`, then a tail without `/` that either starts with `.` or `#` or
  // ends with `~`.
  predicate ExcludeMatch(path: string)
  {
    exists i :: 0 <= i <= |path| && (i == 0 || path[i - 1] == '/') && NoSlash(path[i..]) && Hidden(path[i..])
  }

  /** The pattern only ever looks at the last component. */
  lemma ExcludeMatchLast(path: string)
    ensures ExcludeMatch(path) <==> Hidden(BaseName(path))
  {
    var f := BaseName(path);
    var j := |path| - |f|;
    if Hidden(f) {
      assert path[j..] == f;
      assert (j == 0 || path[j - 1] == '/');
    }
    if ExcludeMatch(path) {
      var i :| 0 <= i <= |path| && (i == 0 || path[i - 1] == '/') && NoSlash(path[i..]) && Hidden(path[i..]);
      assert i == j;
    }
  }

  /**
   * `filter_path`: a path is handled unless the pattern matches it or it
   * is listed in the fixer's `EXCLUDE` (empty when the class sets none).
   */
  function FilterPath(path: string, isdir: bool, exclude: set<string>): (r: bool)
    ensures r <==> !Hidden(BaseName(path)) && path !in exclude
  {
    ExcludeMatchLast(path);
    if ExcludeMatch(path) then false
    else if path in exclude then false
    else true
  }

  // ---------------------------------------------------------------------
  // handler_name and the handler cache

  /** `HeaderFixer.exts`: extension to handler name. */
  const Exts: map<string, string> := map[
    "c" := "c", "cpp" := "c", "l" := "c", "m" := "c", "mm" := "c",
    "h" := "h", "hpp" := "h", "py" := "py", "rl" := "c"]

  /** The extension of a file name without its dot, as `handler_name` computes it. */
  function ExtOf(filename: string): (e: string)
    ensures e == [] || ['.'] + e == FileTypes.Ext(filename)
  {
    var e := FileTypes.Ext(filename);
    if StartsWith(e, ".") then e[1..] else e
  }

  /**
   * `handler_name`: dot files and filtered paths have no handler; other
   * files are looked up by extension.
   */
  function HandlerName(path: string, exclude: set<string>): (r: Option<string>)
    ensures r.Some? ==> FilterPath(path, false, exclude) && r.value in Exts.Values
    ensures FilterPath(path, false, exclude) ==>
      r == (if ExtOf(BaseName(path)) in Exts then Some(Exts[ExtOf(BaseName(path))]) else None)
  {
    var filename := BaseName(path);
    if StartsWith(filename, ".") then None
    else if !FilterPath(path, false, exclude) then None
    else
      var ext := ExtOf(filename);
      if ext in Exts then Some(Exts[ext]) else None
  }

  /** The handlers' comment syntax, and which handler class each is. */
  datatype Kind = CSource | CHeader | Python

  datatype Handler =
    | SkipHandler
    | GenHandler(kind: Kind, slcomment: Option<string>, mlcomment: Option<(string, string)>)

  /** The `makehandler_<name>` methods; no such method for other names. */
  function MakeHandler(name: string): (r: Option<Handler>)
    ensures r.Some? <==> name in {"skip", "c", "h", "py"}
    ensures r.Some? && r.value.GenHandler? ==> r.value.slcomment.Some? || r.value.mlcomment.Some?
  {
    if name == "skip" then Some(SkipHandler)
    else if name == "c" then Some(GenHandler(CSource, Some("//"), Some(("/*", "*/"))))
    else if name == "h" then Some(GenHandler(CHeader, Some("//"), Some(("/*", "*/"))))
    else if name == "py" then Some(GenHandler(Python, Some("#"), None))
    else None
  }

  const UnknownHandler := "Unknown handler"

  /** Every handler name in the table has a maker. */
  lemma ExtsHandled()
    ensures forall name :: name in Exts.Values ==> MakeHandler(name).Some?
  {
    forall name | name in Exts.Values
      ensures MakeHandler(name).Some?
    {
      var e :| e in Exts && Exts[e] == name;
      assert name == "c" || name == "h" || name == "py";
    }
  }

  /** `self.handler_name(path) or 'skip'`. */
  function HandlerKey(path: string, exclude: set<string>): (name: string)
    ensures MakeHandler(name).Some?
  {
    ExtsHandled();
    match HandlerName(path, exclude)
    case Some(n) => if n == "" then "skip" else n
    case None => "skip"
  }

  /** The fixer's handler cache: one handler object per handler name. */
  class HeaderFixer {
    var handlers: map<string, Handler>
    const exclude: set<string>

    /** Every cached handler is the one its name makes. */
    predicate Valid()
      reads this
    {
      forall name :: name in handlers ==> MakeHandler(name) == Some(handlers[name])
    }

    constructor(exclude: set<string>)
      ensures this.exclude == exclude && handlers == map[] && Valid()
    {
      this.exclude := exclude;
      handlers := map[];
    }

    /**
     * `handler`: the cached handler for the path's handler name, made and
     * cached on first use. The error branch (an unknown name) is never
     * taken, since every name `HandlerKey` gives has a maker.
     */
    method HandlerFor(path: string) returns (r: Result<Handler>)
      requires Valid()
      modifies this
      ensures Valid()
      ensures r.Ok? && Some(r.value) == MakeHandler(HandlerKey(path, exclude))
      ensures handlers == old(handlers)[HandlerKey(path, exclude) := r.value]
    {
      var name := HandlerKey(path, exclude);
      if name in handlers {
        return Ok(handlers[name]);
      }
      var h := MakeHandler(name);
      if h.None? {
        return Err(UnknownHandler);
      }
      handlers := handlers[name := h.value];
      r := Ok(h.value);
    }
  }

  // ---------------------------------------------------------------------
  // GenHandler.get_header

  const EmptySeparator := "ValueError: empty separator"
  const TextAfterComment := "Don't know what to do with text after comment."

  /** The header is taken from line comments: the first line starts with the marker. */
  predicate UsesLineComments(h: Handler, body: seq<string>)
    requires h.GenHandler?
  {
    body != [] && h.slcomment.Some? && h.slcomment.value != [] && StartsWith(body[0], h.slcomment.value)
  }

  /** Otherwise it is taken from a block comment when the first line opens one. */
  predicate UsesBlockComment(h: Handler, body: seq<string>)
    requires h.GenHandler?
  {
    body != [] && !UsesLineComments(h, body) && h.mlcomment.Some? && StartsWith(body[0], h.mlcomment.value.0)
  }

  /**
   * A line-comment header: `htext` is the longest run of leading lines
   * that start with the marker `m`, and `header` holds each of them with
   * the marker removed and whitespace stripped.
   */
  predicate IsLineHeader(body: seq<string>, m: string, htext: seq<string>, header: seq<string>)
  {
    |htext| <= |body| && htext == body[..|htext|] && |header| == |htext| &&
    (forall i :: 0 <= i < |htext| ==> StartsWith(htext[i], m) && header[i] == Strip(htext[i][|m|..])) &&
    (|htext| < |body| ==> !StartsWith(body[|htext|], m))
  }

  /** The line-comment loop of `get_header`. */
  method GetLineHeader(body: seq<string>, m: string) returns (htext: seq<string>, header: seq<string>)
    ensures IsLineHeader(body, m, htext, header)
  {
    htext := [];
    header := [];
    for i := 0 to |body|
      invariant htext == body[..i] && |header| == i
      invariant forall k :: 0 <= k < i ==> StartsWith(body[k], m) && header[k] == Strip(body[k][|m|..])
    {
      var line := body[i];
      if StartsWith(line, m) {
        header := header + [Strip(line[|m|..])];
        htext := htext + [line];
      } else {
        break;
      }
    }
  }

  /** A line of a block comment as it is searched: the first one without the opening marker. */
  function BlockLine(body: seq<string>, i: nat, begin: string): string
    requires i < |body| && StartsWith(body[0], begin)
  {
    if i == 0 then body[0][|begin|..] else body[i]
  }

  /** The first line from `i` on that holds the closing marker. */
  function CloseFrom(body: seq<string>, begin: string, end: string, i: nat): (r: Option<nat>)
    requires body != [] && StartsWith(body[0], begin) && i <= |body|
    ensures r.Some? ==> i <= r.value < |body| && Contains(BlockLine(body, r.value, begin), end)
    ensures forall k :: i <= k < |body| && (r.None? || k < r.value) ==> !Contains(BlockLine(body, k, begin), end)
    decreases |body| - i
  {
    if i == |body| then None
    else if Contains(BlockLine(body, i, begin), end) then Some(i)
    else CloseFrom(body, begin, end, i + 1)
  }

  /** The first `n` lines, stripped. */
  function Stripped(body: seq<string>, begin: string, n: nat): (r: seq<string>)
    requires n <= |body| && (body != [] ==> StartsWith(body[0], begin))
    ensures |r| == n
    ensures forall k :: 0 <= k < n ==> r[k] == Strip(BlockLine(body, k, begin))
  {
    seq(n, k requires 0 <= k < n => Strip(BlockLine(body, k, begin)))
  }

  /**
   * What the block-comment loop of `get_header` gives: the lines up to
   * and including the first one holding the closing marker (all lines
   * when none does), each stripped, the closing line cut at the marker;
   * text after the marker on that line is refused.
   */
  function BlockHeader(body: seq<string>, begin: string, end: string): Result<(seq<string>, seq<string>)>
    requires body != [] && StartsWith(body[0], begin)
  {
    if end == [] then Err(EmptySeparator)
    else match CloseFrom(body, begin, end, 0)
      case None => Ok((body, Stripped(body, begin, |body|)))
      case Some(j) =>
        var l := BlockLine(body, j, begin);
        var k := Find(l, end);
        if Strip(l[k + |end|..]) != [] then Err(TextAfterComment)
        else Ok((body[..j + 1], Stripped(body, begin, j) + [Strip(l[..k])]))
  }

  /** The block-comment loop of `get_header`. */
  method GetBlockHeader(body: seq<string>, begin: string, end: string) returns (r: Result<(seq<string>, seq<string>)>)
    requires body != [] && StartsWith(body[0], begin)
    ensures r == BlockHeader(body, begin, end)
  {
    if end == [] {
      return Err(EmptySeparator);
    }
    var htext: seq<string> := [];
    var header: seq<string> := [];
    for i := 0 to |body|
      invariant htext == body[..i] && header == Stripped(body, begin, i)
      invariant CloseFrom(body, begin, end, 0) == CloseFrom(body, begin, end, i)
    {
      htext := htext + [body[i]];
      var line := body[i];
      if header == [] {
        line := line[|begin|..];
      }
      assert line == BlockLine(body, i, begin);
      var k := Find(line, end);
      if k >= 0 {
        header := header + [Strip(line[..k])];
        assert CloseFrom(body, begin, end, 0) == Some(i);
        assert htext == body[..i + 1];
        BlockHeaderClosed(body, begin, end, i, k);
        if Strip(line[k + |end|..]) != [] {
          return Err(TextAfterComment);
        }
        return Ok((htext, header));
      }
      StrippedStep(body, begin, i);
      header := header + [Strip(line)];
    }
    assert htext == body;
    BlockHeaderOpen(body, begin, end);
    r := Ok((htext, header));
  }

  lemma BlockHeaderClosed(body: seq<string>, begin: string, end: string, j: nat, k: int)
    requires body != [] && StartsWith(body[0], begin) && end != []
    requires CloseFrom(body, begin, end, 0) == Some(j) && k == Find(BlockLine(body, j, begin), end)
    ensures 0 <= k && k + |end| <= |BlockLine(body, j, begin)|
    ensures var l := BlockLine(body, j, begin);
      BlockHeader(body, begin, end) ==
        if Strip(l[k + |end|..]) != [] then Err(TextAfterComment)
        else Ok((body[..j + 1], Stripped(body, begin, j) + [Strip(l[..k])]))
  {
  }

  lemma BlockHeaderOpen(body: seq<string>, begin: string, end: string)
    requires body != [] && StartsWith(body[0], begin) && end != []
    requires CloseFrom(body, begin, end, 0).None?
    ensures BlockHeader(body, begin, end) == Ok((body, Stripped(body, begin, |body|)))
  {
  }

  lemma StrippedStep(body: seq<string>, begin: string, i: nat)
    requires i < |body| && StartsWith(body[0], begin)
    ensures Stripped(body, begin, i + 1) == Stripped(body, begin, i) + [Strip(BlockLine(body, i, begin))]
  {
  }

  /**
   * `GenHandler.get_header`: line comments when the first line starts
   * with the line marker, else a block comment when it starts with the
   * opening marker, else no header.
   */
  method GetHeader(h: Handler, body: seq<string>) returns (r: Result<(seq<string>, seq<string>)>)
    requires h.GenHandler?
    ensures UsesLineComments(h, body) ==> r.Ok? && IsLineHeader(body, h.slcomment.value, r.value.0, r.value.1)
    ensures UsesBlockComment(h, body) ==> r == BlockHeader(body, h.mlcomment.value.0, h.mlcomment.value.1)
    ensures !UsesLineComments(h, body) && !UsesBlockComment(h, body) ==> r == Ok(([], []))
  {
    r := Ok(([], []));
    if body != [] {
      if h.slcomment.Some? && h.slcomment.value != [] && StartsWith(body[0], h.slcomment.value) {
        var htext, header := GetLineHeader(body, h.slcomment.value);
        r := Ok((htext, header));
      } else if h.mlcomment.Some? {
        var (begin, end) := h.mlcomment.value;
        if StartsWith(body[0], begin) {
          r := GetBlockHeader(body, begin, end);
        }
      }
    }
  }

  // ---------------------------------------------------------------------
  // GenHandler.comment

  /** `' ' * n`. */
  function Spaces(n: nat): (r: string)
    ensures |r| == n && IsBlank(r)
  {
    seq(n, _ => ' ')
  }

  /**
   * Line `n` of a block comment: the opening marker on the first line and
   * as many spaces on the others, then a space and the text; the closing
   * marker only after the last line.
   */
  function BlockCommentLine(text: seq<string>, n: nat, begin: string, end: string): string
    requires n < |text|
  {
    (if n > 0 then Spaces(|begin|) else begin) + " " + text[n] + (if n < |text| - 1 then "" else " " + end) + "\n"
  }

  function BlockCommented(text: seq<string>, begin: string, end: string): (r: seq<string>)
    ensures |r| == |text|
    ensures forall n :: 0 <= n < |text| ==> r[n] == BlockCommentLine(text, n, begin, end)
  {
    seq(|text|, n requires 0 <= n < |text| => BlockCommentLine(text, n, begin, end))
  }

  /** Each line behind the line marker and a space. */
  function LineCommented(text: seq<string>, m: string): (r: seq<string>)
    ensures |r| == |text|
    ensures forall n :: 0 <= n < |text| ==> r[n] == m + " " + text[n] + "\n"
  {
    seq(|text|, n requires 0 <= n < |text| => m + " " + text[n] + "\n")
  }

  /**
   * `GenHandler.comment`: an empty list is returned as it is; with a block
   * syntax the list is rewritten in place and returned, otherwise a new
   * list of line comments is returned and the argument is left alone.
   */
  method Comment(h: Handler, text: array<string>) returns (r: seq<string>)
    requires h.GenHandler? && (h.mlcomment.Some? || h.slcomment.Some?)
    modifies text
    ensures text.Length == 0 ==> r == [] && text[..] == old(text[..])
    ensures h.mlcomment.Some? ==>
      text[..] == BlockCommented(old(text[..]), h.mlcomment.value.0, h.mlcomment.value.1) && r == text[..]
    ensures h.mlcomment.None? ==> text[..] == old(text[..]) && r == LineCommented(old(text[..]), h.slcomment.value)
  {
    if text.Length == 0 {
      return text[..];
    }
    if h.mlcomment.Some? {
      var (begin, end) := h.mlcomment.value;
      ghost var orig := text[..];
      for n := 0 to text.Length
        invariant forall k :: 0 <= k < n ==> text[k] == BlockCommentLine(orig, k, begin, end)
        invariant forall k :: n <= k < text.Length ==> text[k] == orig[k]
      {
        var prefix := if n > 0 then Spaces(|begin|) else begin;
        prefix := prefix + " ";
        var suffix := if n < text.Length - 1 then "" else " " + end;
        text[n] := prefix + text[n] + suffix + "\n";
      }
      assert text[..] == BlockCommented(orig, begin, end);
      r := text[..];
    } else {
      r := LineCommented(text[..], h.slcomment.value);
    }
  }

  // ---------------------------------------------------------------------
  // Reading a written comment back

  /** Each line, stripped. */
  function StripAll(text: seq<string>): (r: seq<string>)
    ensures |r| == |text| && forall i :: 0 <= i < |text| ==> r[i] == Strip(text[i])
  {
    seq(|text|, i requires 0 <= i < |text| => Strip(text[i]))
  }

  /**
   * A header written with line comments is found again, line for line,
   * when the line after it does not start with the marker.
   */
  lemma LineCommentReadsBack(text: seq<string>, m: string, rest: seq<string>, htext: seq<string>, header: seq<string>)
    requires rest != [] ==> !StartsWith(rest[0], m)
    requires IsLineHeader(LineCommented(text, m) + rest, m, htext, header)
    ensures htext == LineCommented(text, m) && header == StripAll(text)
  {
    var c := LineCommented(text, m);
    var body := c + rest;
    forall i | 0 <= i < |text|
      ensures body[i] == c[i] && StartsWith(body[i], m) && body[i][|m|..] == " " + text[i] + "\n"
    {
      assert c[i] == m + " " + text[i] + "\n";
    }
    assert rest != [] ==> body[|text|] == rest[0];
    assert |htext| == |text|;
    assert htext == c;
    forall i | 0 <= i < |text|
      ensures header[i] == Strip(text[i])
    {
      StripPadded(" ", text[i], "\n");
    }
  }

  /** No character of the string is whitespace. */
  predicate NoSpace(e: string)
  {
    forall i :: 0 <= i < |e| ==> !IsSpace(e[i])
  }

  /**
   * A marker without whitespace, absent from `t`, cannot start before the
   * whitespace `b` that follows `t` when only whitespace precedes `t`.
   */
  lemma NoEarlyOccurrence(a: string, t: string, b: string, w: string, e: string, k: int)
    requires IsBlank(a) && IsBlank(b) && b != [] && NoSpace(e) && e != [] && !Contains(t, e)
    requires 0 <= k < |a| + |t| + |b|
    ensures !OccursAt(a + t + b + w, e, k)
  {
    var s := a + t + b + w;
    if k + |e| <= |s| {
      var o := s[k..k + |e|];
      if k < |a| {
        assert o[0] == s[k] == a[k];
      } else if k >= |a| + |t| {
        assert o[0] == s[k] == b[k - |a| - |t|];
      } else if k + |e| <= |a| + |t| {
        assert o == t[k - |a|..k - |a| + |e|];
        assert !OccursAt(t, e, k - |a|);
      } else {
        var j := |a| + |t| - k;
        assert o[j] == s[|a| + |t|] == b[0];
      }
    }
  }

  /** Whitespace around a text without the marker gives a line without it. */
  lemma NoCloseInside(a: string, t: string, b: string, e: string)
    requires IsBlank(a) && IsBlank(b) && b != [] && NoSpace(e) && e != [] && !Contains(t, e)
    ensures !Contains(a + t + b, e)
  {
    var s := a + t + b;
    forall k | 0 <= k < |s|
      ensures !OccursAt(s, e, k)
    {
      NoEarlyOccurrence(a, t, b, [], e, k);
      assert s + [] == s;
    }
  }

  /** The marker written after `a + t + " "` is the first one in the line. */
  lemma CloseAtEnd(a: string, t: string, e: string)
    requires IsBlank(a) && NoSpace(e) && e != [] && !Contains(t, e)
    ensures Find(a + t + " " + e + "\n", e) == |a| + |t| + 1
  {
    var s := a + t + " " + e + "\n";
    var p := |a| + |t| + 1;
    assert s[p..p + |e|] == e;
    assert OccursAt(s, e, p);
    forall k | 0 <= k < p
      ensures !OccursAt(s, e, k)
    {
      NoEarlyOccurrence(a, t, " ", e + "\n", e, k);
      assert a + t + " " + (e + "\n") == s;
    }
  }

  /** Line `i` of a written block comment, as `get_header` searches it. */
  lemma BlockLineShape(text: seq<string>, begin: string, end: string, rest: seq<string>, i: nat) returns (p: string)
    requires i < |text|
    ensures var body := BlockCommented(text, begin, end) + rest;
      StartsWith(body[0], begin) && IsBlank(p) &&
      BlockLine(body, i, begin) == p + text[i] + (if i < |text| - 1 then "\n" else " " + end + "\n")
  {
    var body := BlockCommented(text, begin, end) + rest;
    var suffix := if i < |text| - 1 then "" else " " + end;
    assert body[0] == BlockCommentLine(text, 0, begin, end);
    assert body[i] == BlockCommentLine(text, i, begin, end);
    if i == 0 {
      p := " ";
      assert body[0] == begin + (" " + text[0] + suffix + "\n");
    } else {
      p := Spaces(|begin|) + " ";
      assert body[i] == p + text[i] + suffix + "\n";
    }
  }

  /** The lines before the last hold no closing marker and strip to their text. */
  lemma OpenLines(text: seq<string>, begin: string, end: string, rest: seq<string>)
    requires end != [] && NoSpace(end)
    requires forall i :: 0 <= i < |text| ==> !Contains(text[i], end)
    ensures var body := BlockCommented(text, begin, end) + rest;
      forall i :: 0 <= i < |text| - 1 ==>
        StartsWith(body[0], begin) &&
        !Contains(BlockLine(body, i, begin), end) && Strip(BlockLine(body, i, begin)) == Strip(text[i])
  {
    var body := BlockCommented(text, begin, end) + rest;
    forall i | 0 <= i < |text| - 1
      ensures StartsWith(body[0], begin)
      ensures !Contains(BlockLine(body, i, begin), end) && Strip(BlockLine(body, i, begin)) == Strip(text[i])
    {
      var p := BlockLineShape(text, begin, end, rest, i);
      NoCloseInside(p, text[i], "\n", end);
      StripPadded(p, text[i], "\n");
    }
  }

  /** The last line closes the comment right after its text, with nothing after the marker. */
  lemma LastLineCloses(text: seq<string>, begin: string, end: string, rest: seq<string>) returns (k: nat)
    requires text != [] && end != [] && NoSpace(end) && !Contains(text[|text| - 1], end)
    ensures var body := BlockCommented(text, begin, end) + rest;
      var l := BlockLine(body, |text| - 1, begin);
      StartsWith(body[0], begin) && Find(l, end) == k && k + |end| <= |l| &&
      Strip(l[k + |end|..]) == [] && Strip(l[..k]) == Strip(text[|text| - 1])
  {
    var body := BlockCommented(text, begin, end) + rest;
    var last := |text| - 1;
    var p := BlockLineShape(text, begin, end, rest, last);
    var l := BlockLine(body, last, begin);
    assert l == p + text[last] + " " + end + "\n";
    k := |p| + |text[last]| + 1;
    CloseAtEnd(p, text[last], end);
    assert l[k + |end|..] == "\n";
    assert l[..k] == p + text[last] + " ";
    StripPadded(p, text[last], " ");
  }

  /**
   * A header written as a block comment is found again by `get_header`,
   * line for line, whatever follows it, provided the closing marker holds
   * no whitespace and no line of the text contains it.
   */
  lemma BlockCommentReadsBack(text: seq<string>, begin: string, end: string, rest: seq<string>)
    requires text != [] && end != [] && NoSpace(end)
    requires forall i :: 0 <= i < |text| ==> !Contains(text[i], end)
    ensures var body := BlockCommented(text, begin, end) + rest;
      StartsWith(body[0], begin) &&
      BlockHeader(body, begin, end) == Ok((BlockCommented(text, begin, end), StripAll(text)))
  {
    var c := BlockCommented(text, begin, end);
    var body := c + rest;
    var last := |text| - 1;
    OpenLines(text, begin, end, rest);
    var k := LastLineCloses(text, begin, end, rest);
    var l := BlockLine(body, last, begin);
    FirstClose(body, begin, end, last);
    BlockHeaderClosed(body, begin, end, last, k);
    assert body[..last + 1] == c;
    StrippedText(body, begin, text, Strip(l[..k]));
  }

  /** The first line holding the closing marker is what `CloseFrom` finds. */
  lemma FirstClose(body: seq<string>, begin: string, end: string, j: nat)
    requires j < |body| && StartsWith(body[0], begin)
    requires Contains(BlockLine(body, j, begin), end)
    requires forall i :: 0 <= i < j ==> !Contains(BlockLine(body, i, begin), end)
    ensures CloseFrom(body, begin, end, 0) == Some(j)
  {
  }

  /** The stripped lines before the last, and the last one, give the text stripped. */
  lemma StrippedText(body: seq<string>, begin: string, text: seq<string>, x: string)
    requires text != [] && |text| <= |body| && StartsWith(body[0], begin)
    requires forall i :: 0 <= i < |text| - 1 ==> Strip(BlockLine(body, i, begin)) == Strip(text[i])
    requires x == Strip(text[|text| - 1])
    ensures Stripped(body, begin, |text| - 1) + [x] == StripAll(text)
  {
  }

  // ---------------------------------------------------------------------
  // HeaderHandler.get_guard

  /** The first two lines, stripped, start `#ifndef` and `#define`. */
  predicate Guarded(body: seq<string>)
  {
    |body| >= 2 && StartsWith(Strip(body[0]), "#ifndef") && StartsWith(Strip(body[1]), "#define")
  }

  predicate IsEndif(line: string)
  {
    StartsWith(Strip(line), "#endif")
  }

  /**
   * What `get_guard` returns: three parts that make up the body. The start
   * part is the two guard lines when there are any, else empty. The end
   * part is empty without them; with them it is the trailing blank lines,
   * preceded by one `#endif` line when the last non-blank line after the
   * guard is one. When that line is not an `#endif`, it ends the middle.
   */
  predicate GuardSplit(body: seq<string>, gstart: seq<string>, middle: seq<string>, gend: seq<string>)
  {
    gstart + middle + gend == body &&
    gstart == (if Guarded(body) then body[..2] else []) &&
    (!Guarded(body) ==> gend == []) &&
    (forall i :: 0 <= i < |gend| ==> IsBlank(gend[i]) || (i == 0 && IsEndif(gend[0]))) &&
    (Guarded(body) && middle != [] && (gend == [] || !IsEndif(gend[0])) ==>
      !IsBlank(middle[|middle| - 1]) && !IsEndif(middle[|middle| - 1]))
  }

  /** `HeaderHandler.get_guard`: the end cursor moves back over blank lines and at most one `#endif`. */
  method GetGuard(body: seq<string>) returns (gstart: seq<string>, middle: seq<string>, gend: seq<string>)
    ensures GuardSplit(body, gstart, middle, gend)
  {
    var start := 0;
    var end := |body|;
    if |body| >= 2 && StartsWith(Strip(body[0]), "#ifndef") && StartsWith(Strip(body[1]), "#define") {
      start := 2;
      while end > start
        invariant start <= end <= |body|
        invariant forall i :: end <= i < |body| ==> IsBlank(body[i])
      {
        var line := Strip(body[end - 1]);
        if StartsWith(line, "#endif") {
          end := end - 1;
          break;
        }
        if line == [] {
          end := end - 1;
          continue;
        } else {
          break;
        }
      }
    }
    gstart, middle, gend := body[..start], body[start..end], body[end..];
    assert gstart + middle + gend == body;
  }

  /** An `#endif` line is not blank. */
  lemma EndifNotBlank(line: string)
    requires IsEndif(line)
    ensures !IsBlank(line)
  {
  }

  /**
   * The end cursor `e` of a guarded body as `GuardSplit` describes it:
   * only blank lines from `e` on, except an `#endif` at `e`; and when
   * there is no `#endif` at `e`, the line before `e` (if it is past the
   * guard) is neither blank nor an `#endif`.
   */
  predicate EndAt(body: seq<string>, e: nat)
    requires 2 <= e <= |body|
  {
    (forall i :: e <= i < |body| ==> IsBlank(body[i]) || (i == e && IsEndif(body[i]))) &&
    (e > 2 && (e == |body| || !IsEndif(body[e])) ==> !IsBlank(body[e - 1]) && !IsEndif(body[e - 1]))
  }

  lemma SplitEndAt(body: seq<string>, a: seq<string>, m: seq<string>, z: seq<string>)
    requires GuardSplit(body, a, m, z) && Guarded(body)
    ensures |a| == 2 && 2 <= |body| - |z| && EndAt(body, |body| - |z|)
  {
    var e := |body| - |z|;
    assert forall i :: e <= i < |body| ==> body[i] == z[i - e];
    assert m != [] ==> m[|m| - 1] == body[e - 1];
  }

  /** Two end cursors of the same body: the second is not before the first. */
  lemma EndAtOrder(body: seq<string>, e: nat, e': nat)
    requires 2 <= e <= |body| && 2 <= e' <= |body| && EndAt(body, e) && EndAt(body, e')
    ensures e <= e'
  {
  }

  /** `GuardSplit` leaves no choice: `get_guard` is determined by its contract. */
  lemma GuardSplitUnique(body: seq<string>, a: seq<string>, m: seq<string>, z: seq<string>,
                         a': seq<string>, m': seq<string>, z': seq<string>)
    requires GuardSplit(body, a, m, z) && GuardSplit(body, a', m', z')
    ensures a == a' && m == m' && z == z'
  {
    if Guarded(body) {
      SplitEndAt(body, a, m, z);
      SplitEndAt(body, a', m', z');
      EndAtOrder(body, |body| - |z|, |body| - |z'|);
      EndAtOrder(body, |body| - |z'|, |body| - |z|);
    }
    assert z == body[|body| - |z|..] == z';
    assert m == body[|a|..|body| - |z|] == m';
  }

  /** The guard lines `apply_guard` writes for a guard name. */
  function GuardLines(gname: string): seq<string>
  {
    ["#ifndef " + gname + "\n", "#define " + gname + "\n"]
  }

  /** `rstrip()` keeps every character up to a non-space one. */
  lemma {:induction false} RStripKeeps(s: string, j: nat)
    requires j < |s| && !IsSpace(s[j])
    ensures |RStrip(s)| > j && RStrip(s)[..j + 1] == s[..j + 1]
    decreases |s|
  {
    if IsSpace(s[|s| - 1]) {
      assert j < |s| - 1;
      RStripKeeps(s[..|s| - 1], j);
    }
  }

  /** A line that starts with a word without surrounding whitespace still starts with it once stripped. */
  lemma StripKeepsWord(p: string, x: string)
    requires p != [] && !IsSpace(p[0]) && !IsSpace(p[|p| - 1])
    ensures StartsWith(Strip(p + x), p)
  {
    var s := p + x;
    assert LStrip(s) == s;
    RStripKeeps(s, |p| - 1);
    assert RStrip(s)[..|p|] == s[..|p|] == p;
  }

  /** The lines `apply_guard` writes open a guard. */
  lemma GuardLinesGuarded(gname: string, rest: seq<string>)
    ensures Guarded(GuardLines(gname) + rest)
  {
    var body := GuardLines(gname) + rest;
    assert body[0] == "#ifndef" + (" " + gname + "\n");
    assert body[1] == "#define" + (" " + gname + "\n");
    StripKeepsWord("#ifndef", " " + gname + "\n");
    StripKeepsWord("#define", " " + gname + "\n");
  }

  lemma EndifLine()
    ensures IsEndif("#endif\n")
  {
    assert "#endif\n" == "" + "#endif" + "\n";
    StripPadded("", "#endif", "\n");
    StripOfTrimmed("#endif");
  }

  /**
   * A body that `apply_guard` has rewritten is split back into the guard
   * it wrote, the same middle and the `#endif` it wrote, so applying the
   * guard a second time changes nothing.
   */
  lemma GuardReapplied(gname: string, middle: seq<string>, a: seq<string>, m: seq<string>, z: seq<string>)
    requires GuardSplit(GuardLines(gname) + middle + ["#endif\n"], a, m, z)
    ensures a == GuardLines(gname) && m == middle && z == ["#endif\n"]
  {
    var body := GuardLines(gname) + middle + ["#endif\n"];
    GuardLinesGuarded(gname, middle + ["#endif\n"]);
    assert body == GuardLines(gname) + (middle + ["#endif\n"]);
    EndifLine();
    assert body[..2] == GuardLines(gname);
    assert GuardSplit(body, GuardLines(gname), middle, ["#endif\n"]);
    GuardSplitUnique(body, a, m, z, GuardLines(gname), middle, ["#endif\n"]);
  }
}
