/**
 * Directives: `split_directives` of the single-file tool `header.py`.
 *
 * The lines at the top of a C or C++ file that may stay above the
 * copyright header are blank lines, `//` comments, `/* ... */` comments
 * (over as many lines as they take) and preprocessor lines whose name is
 * one of a given set, such as `#include`. The file is split after the
 * longest run of such lines.
 */
module Directives {
  import opened Text

  /** The length of the `\w*` run at the start of `s`. */
  function WordRun(s: string): (n: nat)
    ensures n <= |s|
    ensures forall i :: 0 <= i < n ==> IsWord(s[i])
    ensures n < |s| ==> !IsWord(s[n])
  {
    if s == [] || !IsWord(s[0]) then 0 else 1 + WordRun(s[1..])
  }

  /** The length of the `\s*` run at the start of `s`. */
  function SpaceRun(s: string): (n: nat)
    ensures n <= |s|
    ensures forall i :: 0 <= i < n ==> IsSpace(s[i])
    ensures n < |s| ==> !IsSpace(s[n])
  {
    if s == [] || !IsSpace(s[0]) then 0 else 1 + SpaceRun(s[1..])
  }

  /** The name captured by `#\s*(\w+)` at the start of `l`, when that matches. */
  function DirectiveName(l: string): (r: Option<string>)
    ensures r.Some? ==> l != [] && l[0] == '#'
    ensures r.Some? ==> r.value != [] && forall i :: 0 <= i < |r.value| ==> IsWord(r.value[i])
  {
    if l == [] || l[0] != '#' then None
    else
      var s := l[1..];
      var k := SpaceRun(s);
      var n := WordRun(s[k..]);
      if n == 0 then None else Some(s[k..][..n])
  }

  /**
   * The comment loop on the text `l` left of line `pos`: while `l` opens a
   * comment, look for its end, moving on to the following (unstripped)
   * lines while it is missing. Gives the line reached and what is left of
   * it; a comment left open takes the scan past the last line.
   */
  function SkipComments(text: seq<string>, pos: nat, l: string): (r: (nat, string))
    requires pos < |text|
    ensures pos <= r.0 <= |text|
    ensures r.0 == |text| ==> r.1 == ""
    ensures r.0 < |text| ==> !StartsWith(r.1, "/*")
    decreases |text| - pos, |l|, 1
  {
    if StartsWith(l, "/*") then CommentEnd(text, pos, l[2..]) else (pos, l)
  }

  /** Inside a comment: `l` is what is left of line `pos` after the opening. */
  function CommentEnd(text: seq<string>, pos: nat, l: string): (r: (nat, string))
    requires pos < |text|
    ensures pos <= r.0 <= |text|
    ensures r.0 == |text| ==> r.1 == ""
    ensures r.0 < |text| ==> !StartsWith(r.1, "/*")
    decreases |text| - pos, |l|, 0
  {
    var i := Find(l, "*/");
    if i >= 0 then SkipComments(text, pos, Strip(l[i + 2..]))
    else if pos + 1 >= |text| then (pos + 1, "")
    else CommentEnd(text, pos + 1, text[pos + 1])
  }

  /** Whether the text left after the comments keeps the scan going. */
  predicate Accepted(l: string, directives: seq<string>)
  {
    || StartsWith(l, "//")
    || l == ""
    || (directives != [] && DirectiveName(l).Some? && DirectiveName(l).value in directives)
  }

  /**
   * One round of the scan from line `pos`: the line after the accepted
   * unit, or `None` at a line of code.
   */
  function Step(text: seq<string>, directives: seq<string>, pos: nat): (r: Option<nat>)
    requires pos < |text|
    ensures r.Some? ==> pos < r.value <= |text| + 1
  {
    var (p, l) := SkipComments(text, pos, Strip(text[pos]));
    if Accepted(l, directives) then Some(p + 1) else None
  }

  /** Where the scan started at line `pos` stops: the number of lines that stay above the header. */
  function Extent(text: seq<string>, directives: seq<string>, pos: nat): (e: nat)
    requires pos <= |text| + 1
    ensures pos <= e <= |text| + 1
    decreases |text| + 1 - pos
  {
    if pos >= |text| then pos
    else match Step(text, directives, pos)
      case Some(q) => Extent(text, directives, q)
      case None => pos
  }

  /** The scan's result as a line count; an open comment at the end runs one past the last line. */
  function Cut(text: seq<string>, directives: seq<string>): (n: nat)
    ensures n <= |text|
  {
    var e := Extent(text, directives, 0);
    if e <= |text| then e else |text|
  }

  /** The comment loop of `split_directives`, from the stripped text `l` of line `pos`. */
  method PassComments(text: seq<string>, pos: nat, l: string) returns (pos': nat, l': string)
    requires pos < |text|
    ensures (pos', l') == SkipComments(text, pos, l)
  {
    var end := |text|;
    pos', l' := pos, l;
    while StartsWith(l', "/*")
      invariant pos <= pos' <= end
      invariant pos' < end ==> SkipComments(text, pos, l) == SkipComments(text, pos', l')
      invariant pos' == end ==> SkipComments(text, pos, l) == (pos', l') && l' == ""
      decreases end - pos', |l'|
    {
      ghost var pm, lm := pos', l';
      l' := l'[2..];
      while true
        invariant pm <= pos' < end
        invariant SkipComments(text, pos, l) == CommentEnd(text, pos', l')
        invariant pos' == pm ==> |l'| == |lm| - 2
        decreases end - pos'
      {
        var i := Find(l', "*/");
        if i >= 0 {
          l' := Strip(l'[i + 2..]);
          break;
        }
        pos' := pos' + 1;
        if pos' >= end {
          l' := "";
          break;
        }
        l' := text[pos'];
      }
    }
  }

  /**
   * One round of the outer loop of `split_directives` from line `pos`:
   * the line after the accepted unit, or `None` where the scan stops.
   */
  method ScanUnit(text: seq<string>, directives: seq<string>, pos: nat) returns (next: Option<nat>)
    requires pos < |text|
    ensures next == Step(text, directives, pos)
  {
    var l := Strip(text[pos]);
    var p;
    p, l := PassComments(text, pos, l);
    if StartsWith(l, "//") || l == "" {
      return Some(p + 1);
    }
    if directives != [] {
      var name := DirectiveName(l);
      if name.Some? && name.value in directives {
        return Some(p + 1);
      }
    }
    return None;
  }

  /** `split_directives`: the lines to keep above the header, and the rest. */
  method SplitDirectives(text: seq<string>, directives: seq<string>) returns (head: seq<string>, rest: seq<string>)
    ensures head + rest == text
    ensures head == text[..Cut(text, directives)]
  {
    var extent := 0;
    var pos := 0;
    var end := |text|;
    while pos < end
      invariant extent == pos <= end + 1
      invariant Extent(text, directives, 0) == Extent(text, directives, pos)
      decreases end - pos
    {
      var next := ScanUnit(text, directives, pos);
      if next.None? {
        break;
      }
      pos := next.value;
      extent := pos;
    }
    var cut := if extent <= end then extent else end;
    head, rest := text[..cut], text[cut..];
    SliceJoin(text, cut);
  }

  /** A blank line, a `//` comment or a listed directive stays above the header, and the scan goes on. */
  lemma PlainLineKept(text: seq<string>, directives: seq<string>, pos: nat)
    requires pos < |text|
    requires !StartsWith(Strip(text[pos]), "/*") && Accepted(Strip(text[pos]), directives)
    ensures Extent(text, directives, pos) == Extent(text, directives, pos + 1)
  {
    assert Step(text, directives, pos) == Some(pos + 1);
  }

  /** Any other line that opens no comment is code: the scan stops in front of it. */
  lemma CodeStops(text: seq<string>, directives: seq<string>, pos: nat)
    requires pos < |text|
    requires !StartsWith(Strip(text[pos]), "/*") && !Accepted(Strip(text[pos]), directives)
    ensures Extent(text, directives, pos) == pos
  {
    assert Step(text, directives, pos) == None;
  }

  /** A comment closed on the line that opens it, with nothing after it, stays above the header. */
  lemma OneLineCommentKept(text: seq<string>, directives: seq<string>, pos: nat)
    requires pos < |text| && StartsWith(Strip(text[pos]), "/*")
    requires var c := Strip(text[pos])[2..]; Find(c, "*/") >= 0 && IsBlank(c[Find(c, "*/") + 2..])
    ensures Extent(text, directives, pos) == Extent(text, directives, pos + 1)
  {
    var l := Strip(text[pos]);
    var c := l[2..];
    assert Strip(c[Find(c, "*/") + 2..]) == "";
    assert SkipComments(text, pos, "") == (pos, "");
    assert SkipComments(text, pos, l) == (pos, "");
    assert Step(text, directives, pos) == Some(pos + 1);
  }

  /** Lines inside a comment that do not close it are passed over, one by one. */
  lemma {:induction false} CommentRuns(text: seq<string>, pos: nat, q: nat, l: string)
    requires pos < q < |text| && Find(l, "*/") < 0
    requires forall k :: pos < k < q ==> Find(text[k], "*/") < 0
    ensures CommentEnd(text, pos, l) == CommentEnd(text, q, text[q])
    decreases q - pos
  {
    if pos + 1 < q {
      CommentRuns(text, pos + 1, q, text[pos + 1]);
    }
  }

  /**
   * A comment opened on line `pos` and closed on a later line `q`, with
   * nothing after the close, keeps every line up to `q` above the header.
   */
  lemma ManyLineCommentKept(text: seq<string>, directives: seq<string>, pos: nat, q: nat)
    requires pos < q < |text| && StartsWith(Strip(text[pos]), "/*")
    requires Find(Strip(text[pos])[2..], "*/") < 0
    requires forall k :: pos < k < q ==> Find(text[k], "*/") < 0
    requires Find(text[q], "*/") >= 0 && IsBlank(text[q][Find(text[q], "*/") + 2..])
    ensures Extent(text, directives, pos) == Extent(text, directives, q + 1)
  {
    var l := Strip(text[pos]);
    CommentRuns(text, pos, q, l[2..]);
    var t := text[q];
    assert Strip(t[Find(t, "*/") + 2..]) == "";
    assert SkipComments(text, q, "") == (q, "");
    assert CommentEnd(text, q, t) == (q, "");
    assert SkipComments(text, pos, l) == (q, "");
    assert Step(text, directives, pos) == Some(q + 1);
  }

  /** A comment that is never closed keeps every remaining line above the header. */
  lemma OpenCommentTakesAll(text: seq<string>, directives: seq<string>, pos: nat)
    requires pos < |text| && StartsWith(Strip(text[pos]), "/*")
    requires Find(Strip(text[pos])[2..], "*/") < 0
    requires forall k :: pos < k < |text| ==> Find(text[k], "*/") < 0
    ensures Extent(text, directives, pos) == |text| + 1
  {
    var l := Strip(text[pos]);
    var last := |text| - 1;
    if pos < last {
      CommentRuns(text, pos, last, l[2..]);
      assert CommentEnd(text, last, text[last]) == (|text|, "");
    }
    assert SkipComments(text, pos, l) == (|text|, "");
    assert Step(text, directives, pos) == Some(|text| + 1);
  }
}
