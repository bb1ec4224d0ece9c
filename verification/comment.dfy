// Leading-comment extraction (lib/header/comment.py).
//
// A source file's leading comment is split line by line into pieces
// (pre, body, post): `pre` holds indentation and the opening delimiter,
// `body` the text of the comment, `post` the closing delimiter and the
// trailing whitespace (including the line's newline).  Concatenating the
// three parts of each piece gives back the line.

module Comment {
  import opened Text
  import opened FileTypes

  datatype Piece = Piece(pre: string, body: string, post: string)

  /** A comment and the lines of the file that follow it. */
  type Split = (seq<Piece>, seq<string>)

  function Line(p: Piece): string
  {
    p.pre + p.body + p.post
  }

  /** The source lines a sequence of pieces stands for. */
  function Lines(ps: seq<Piece>): (r: seq<string>)
    ensures |r| == |ps|
    ensures forall k :: 0 <= k < |ps| ==> r[k] == Line(ps[k])
  {
    if ps == [] then [] else [Line(ps[0])] + Lines(ps[1..])
  }

  lemma LinesOne(p: Piece)
    ensures Lines([p]) == [Line(p)]
  {
  }

  lemma {:induction false} LinesAppend(a: seq<Piece>, b: seq<Piece>)
    ensures Lines(a + b) == Lines(a) + Lines(b)
  {
    assert |Lines(a + b)| == |Lines(a) + Lines(b)|;
    forall k | 0 <= k < |a + b|
      ensures Lines(a + b)[k] == (Lines(a) + Lines(b))[k]
    {
      if k < |a| {
        assert (a + b)[k] == a[k];
      } else {
        assert (a + b)[k] == b[k - |a|];
      }
    }
  }

  /**
   * The piece for a line whose delimiter part is `pre` and whose remaining
   * text is `text`: the body is the text without trailing whitespace, the
   * post is that whitespace.
   */
  function Trailing(pre: string, text: string): (r: Piece)
    ensures Line(r) == pre + text && r.body + r.post == text
    ensures r.pre == pre && IsBlank(r.post)
    ensures r.body == [] || !IsSpace(r.body[|r.body| - 1])
  {
    RStripSpec(text);
    assert text == RStrip(text) + text[|RStrip(text)|..];
    Piece(pre, RStrip(text), text[|RStrip(text)|..])
  }

  /** The line starts a comment with `marker`: it occurs, and only whitespace precedes it. */
  predicate Opens(line: string, marker: string)
  {
    Find(line, marker) >= 0 && LStrip(line[..Find(line, marker)]) == []
  }

  /** Index just after the first `marker` of a line that opens with it. */
  function After(line: string, marker: string): (c: nat)
    requires Opens(line, marker)
    ensures |marker| <= c <= |line| && line[c - |marker|..c] == marker
  {
    Find(line, marker) + |marker|
  }

  // ---------------------------------------------------------------------
  // Line comments

  /** The piece of a line opening with the line-comment `marker`. */
  function LinePiece(line: string, marker: string): (r: Piece)
    requires Opens(line, marker)
    ensures Line(r) == line
    ensures r.pre == line[..After(line, marker)]
  {
    var c := After(line, marker);
    assert line == line[..c] + line[c..];
    Trailing(line[..c], line[c..])
  }

  /** The run of leading lines that open with `marker`, and the lines after it. */
  function LineComment(lines: seq<string>, marker: string): (r: Split)
    ensures Lines(r.0) + r.1 == lines
    ensures r.1 == [] || !Opens(r.1[0], marker)
  {
    if lines != [] && Opens(lines[0], marker) then
      var t := LineComment(lines[1..], marker);
      LinesCons(LinePiece(lines[0], marker), t.0, t.1, lines);
      ([LinePiece(lines[0], marker)] + t.0, t.1)
    else
      ([], lines)
  }

  lemma LinesCons(p: Piece, ps: seq<Piece>, rest: seq<string>, lines: seq<string>)
    requires lines != [] && Line(p) == lines[0] && Lines(ps) + rest == lines[1..]
    ensures Lines([p] + ps) + rest == lines
  {
    LinesAppend([p], ps);
    LinesOne(p);
    AppendAssociates([Line(p)], Lines(ps), rest);
  }

  /** Every line of a line comment opens with the marker and is split after its first occurrence. */
  lemma {:induction false} LineCommentPieces(lines: seq<string>, marker: string)
    ensures forall k :: 0 <= k < |LineComment(lines, marker).0| ==>
      Opens(lines[k], marker) && LineComment(lines, marker).0[k] == LinePiece(lines[k], marker)
  {
    if lines != [] && Opens(lines[0], marker) {
      LineCommentPieces(lines[1..], marker);
    }
  }

  /** `extract_lead_linecomment`: None when the first line does not open a comment. */
  function LeadLineComment(lines: seq<string>, marker: string): Option<Split>
  {
    if LineComment(lines, marker).0 == [] then None else Some(LineComment(lines, marker))
  }

  method ExtractLeadLineComment(lines: seq<string>, linecomment: string) returns (r: Option<Split>)
    ensures r == LeadLineComment(lines, linecomment)
  {
    var pos := 0;
    var end := |lines|;
    var comment: seq<Piece> := [];
    while pos < end
      invariant pos <= end
      invariant comment + LineComment(lines[pos..], linecomment).0 == LineComment(lines, linecomment).0
      invariant LineComment(lines[pos..], linecomment).1 == LineComment(lines, linecomment).1
    {
      var line := lines[pos];
      var cpos := Find(line, linecomment);
      if cpos < 0 || LStrip(line[..cpos]) != [] {
        break;
      }
      LineUnfold(lines, pos, linecomment);
      AppendAssociates(comment, [LinePiece(lines[pos], linecomment)], LineComment(lines[pos + 1..], linecomment).0);
      cpos := cpos + |linecomment|;
      var pre := line[..cpos];
      line := line[cpos..];
      var body := RStrip(line);
      var post := line[|body|..];
      comment := comment + [Piece(pre, body, post)];
      pos := pos + 1;
    }
    assert lines[pos..] == [] || !Opens(lines[pos..][0], linecomment);
    assert comment == LineComment(lines, linecomment).0;
    if comment == [] {
      return None;
    }
    return Some((comment, lines[pos..]));
  }

  lemma LineUnfold(lines: seq<string>, pos: nat, marker: string)
    requires pos < |lines| && Opens(lines[pos], marker)
    ensures LineComment(lines[pos..], marker).0 == [LinePiece(lines[pos], marker)] + LineComment(lines[pos + 1..], marker).0
    ensures LineComment(lines[pos..], marker).1 == LineComment(lines[pos + 1..], marker).1
  {
    assert lines[pos..][1..] == lines[pos + 1..];
  }

  /**
   * What `extract_lead_linecomment` promises: a non-empty comment, every
   * line of which opens with the marker and is rebuilt from its piece,
   * followed by the remaining lines, the first of which does not open one.
   */
  lemma LeadLineCommentShape(lines: seq<string>, marker: string)
    ensures LeadLineComment(lines, marker).None? <==> (lines == [] || !Opens(lines[0], marker))
    ensures LeadLineComment(lines, marker).Some? ==>
      var (ps, rest) := LeadLineComment(lines, marker).value;
      ps != [] && Lines(ps) + rest == lines && (rest == [] || !Opens(rest[0], marker))
  {
  }

  // ---------------------------------------------------------------------
  // Block comments

  /**
   * The text after a closing delimiter is only whitespace.  This is the
   * evidently intended check of comment.py:55, which as written looks at
   * a single character (see ClosingCheckAsWritten).
   */
  predicate Closes(post: string, blockend: string)
    requires |blockend| <= |post|
  {
    IsBlank(post[|blockend|..])
  }

  /**
   * The comment continued from line `i`, of which `text` is what is left
   * after `pre`: the pieces up to and including the line holding
   * `blockend`, and the index of the line after it.  None when the file
   * ends first, or text follows the closing delimiter.
   */
  function BlockFrom(lines: seq<string>, blockend: string, i: nat, pre: string, text: string): (r: Option<(seq<Piece>, nat)>)
    requires i < |lines|
    ensures r.Some? ==> i < r.value.1 <= |lines| && |r.value.0| == r.value.1 - i
    decreases |lines| - i
  {
    var c := Find(text, blockend);
    if c >= 0 then ClosingLine(pre, text, blockend, c, i)
    else if i + 1 >= |lines| then None
    else Prepend([Trailing(pre, text)], BlockFrom(lines, blockend, i + 1, "", lines[i + 1]))
  }

  /** The line holding `blockend` at `c`: the last piece, unless text follows the delimiter. */
  function ClosingLine(pre: string, text: string, blockend: string, c: nat, i: nat): (r: Option<(seq<Piece>, nat)>)
    requires c + |blockend| <= |text|
    ensures r.Some? ==> r.value.1 == i + 1 && |r.value.0| == 1
  {
    var post := text[c..];
    if !Closes(post, blockend) then None
    else Some(([Piece(pre, text[..c], post)], i + 1))
  }

  /** The pieces of a block comment rebuild the lines it spans. */
  lemma {:induction false} BlockFromLines(lines: seq<string>, blockend: string, i: nat, pre: string, text: string)
    requires i < |lines|
    ensures var r := BlockFrom(lines, blockend, i, pre, text);
      r.Some? ==> Lines(r.value.0) == [pre + text] + lines[i + 1..r.value.1]
    decreases |lines| - i
  {
    var c := Find(text, blockend);
    if c >= 0 {
      if Closes(text[c..], blockend) {
        ClosingPiece(lines, i, pre, text, c);
      }
    } else if i + 1 < |lines| {
      var r := BlockFrom(lines, blockend, i + 1, "", lines[i + 1]);
      if r.Some? {
        BlockFromLines(lines, blockend, i + 1, "", lines[i + 1]);
        assert "" + lines[i + 1] == lines[i + 1];
        BlockStep(lines, i, r.value.1, Trailing(pre, text), r.value.0);
      }
    }
  }

  lemma ClosingPiece(lines: seq<string>, i: nat, pre: string, text: string, c: nat)
    requires i < |lines| && c <= |text|
    ensures Lines([Piece(pre, text[..c], text[c..])]) == [pre + text] + lines[i + 1..i + 1]
  {
    LinesOne(Piece(pre, text[..c], text[c..]));
    assert text == text[..c] + text[c..];
    AppendAssociates(pre, text[..c], text[c..]);
  }

  lemma BlockStep(lines: seq<string>, i: nat, n: nat, p: Piece, ps: seq<Piece>)
    requires i + 1 < n <= |lines|
    requires Lines(ps) == [lines[i + 1]] + lines[i + 2..n]
    ensures Lines([p] + ps) == [Line(p)] + lines[i + 1..n]
  {
    LinesAppend([p], ps);
    assert lines[i + 1..n] == [lines[i + 1]] + lines[i + 2..n];
  }

  /** `extract_lead_blockcomment`. */
  function LeadBlockComment(lines: seq<string>, blockstart: string, blockend: string): Option<Split>
  {
    if lines == [] || !Opens(lines[0], blockstart) then None
    else
      var c := After(lines[0], blockstart);
      Finish(lines, BlockFrom(lines, blockend, 0, lines[0][..c], lines[0][c..]))
  }

  /** The comment and the lines after it, from the result of `BlockFrom`. */
  function Finish(lines: seq<string>, r: Option<(seq<Piece>, nat)>): Option<Split>
    requires r.Some? ==> r.value.1 <= |lines|
  {
    if r.None? then None else Some((r.value.0, lines[r.value.1..]))
  }

  /** Pieces in front of a continuation result, failure staying failure. */
  function Prepend(ps: seq<Piece>, r: Option<(seq<Piece>, nat)>): (q: Option<(seq<Piece>, nat)>)
    ensures q.Some? <==> r.Some?
    ensures q.Some? ==> q.value.1 == r.value.1 && |q.value.0| == |ps| + |r.value.0|
  {
    match r
    case None => None
    case Some((qs, n)) => Some((ps + qs, n))
  }

  lemma PrependNothing(r: Option<(seq<Piece>, nat)>)
    ensures Prepend([], r) == r
  {
    if r.Some? {
      assert [] + r.value.0 == r.value.0;
    }
  }

  lemma PrependTwice(a: seq<Piece>, b: seq<Piece>, r: Option<(seq<Piece>, nat)>)
    ensures Prepend(a, Prepend(b, r)) == Prepend(a + b, r)
  {
    if r.Some? {
      AppendAssociates(a, b, r.value.0);
    }
  }

  lemma BlockUnfold(lines: seq<string>, blockend: string, i: nat, pre: string, text: string)
    requires i + 1 < |lines| && Find(text, blockend) < 0
    ensures BlockFrom(lines, blockend, i, pre, text)
      == Prepend([Trailing(pre, text)], BlockFrom(lines, blockend, i + 1, "", lines[i + 1]))
  {
  }

  method ExtractLeadBlockComment(lines: seq<string>, blockstart: string, blockend: string) returns (r: Option<Split>)
    ensures r == LeadBlockComment(lines, blockstart, blockend)
  {
    if lines == [] {
      return None;
    }
    var pos := 0;
    var end := |lines|;
    var comment: seq<Piece> := [];
    var line := lines[pos];
    var cpos := Find(line, blockstart);
    if cpos < 0 || LStrip(line[..cpos]) != [] {
      return None;
    }
    cpos := cpos + |blockstart|;
    var pre := line[..cpos];
    line := line[cpos..];
    ghost var whole := BlockFrom(lines, blockend, 0, pre, line);
    LeadBlockStart(lines, blockstart, blockend, pre, line);
    PrependNothing(whole);

    cpos := Find(line, blockend);
    while cpos < 0
      invariant pos < end
      invariant cpos == Find(line, blockend)
      invariant Prepend(comment, BlockFrom(lines, blockend, pos, pre, line)) == whole
      decreases end - pos
    {
      var body := RStrip(line);
      var post := line[|body|..];
      comment := comment + [Piece(pre, body, post)];
      if pos + 1 >= end {
        assert BlockFrom(lines, blockend, pos, pre, line) == None;
        return None;
      }
      BlockUnfold(lines, blockend, pos, pre, line);
      PrependTwice(comment[..|comment| - 1], [Trailing(pre, line)], BlockFrom(lines, blockend, pos + 1, "", lines[pos + 1]));
      pos := pos + 1;
      line := lines[pos];
      pre := "";
      cpos := Find(line, blockend);
    }
    var body := line[..cpos];
    var post := line[cpos..];
    BlockCloses(lines, blockend, pos, pre, line);
    if !IsBlank(post[|blockend|..]) {
      return None;
    }
    var last := [Piece(pre, body, post)];
    assert whole == Prepend(comment, Some((last, pos + 1)));
    comment := comment + last;
    pos := pos + 1;
    return Some((comment, lines[pos..]));
  }

  lemma LeadBlockStart(lines: seq<string>, blockstart: string, blockend: string, pre: string, text: string)
    requires lines != [] && Opens(lines[0], blockstart)
    requires pre == lines[0][..After(lines[0], blockstart)] && text == lines[0][After(lines[0], blockstart)..]
    ensures LeadBlockComment(lines, blockstart, blockend) == Finish(lines, BlockFrom(lines, blockend, 0, pre, text))
  {
  }

  lemma BlockCloses(lines: seq<string>, blockend: string, i: nat, pre: string, text: string)
    requires i < |lines| && Find(text, blockend) >= 0
    ensures BlockFrom(lines, blockend, i, pre, text) == ClosingLine(pre, text, blockend, Find(text, blockend), i)
  {
  }

  /** The pieces of a block comment, as `BlockFrom` continues one from line `i`. */
  lemma {:induction false} BlockFromShape(lines: seq<string>, blockend: string, i: nat, pre: string, text: string)
    requires i < |lines|
    ensures var r := BlockFrom(lines, blockend, i, pre, text);
      r.Some? ==> BlockShaped(r.value.0, pre, text, blockend)
    decreases |lines| - i
  {
    var c := Find(text, blockend);
    if c < 0 && i + 1 < |lines| {
      var r := BlockFrom(lines, blockend, i + 1, "", lines[i + 1]);
      if r.Some? {
        BlockFromShape(lines, blockend, i + 1, "", lines[i + 1]);
        ShapedCons(Trailing(pre, text), r.value.0, pre, text, lines[i + 1], blockend);
      }
    }
  }

  /**
   * A block comment's pieces: the first carries the opening `pre` and the
   * remaining `text` of its line, later ones an empty `pre`; no piece but
   * the last holds the closing delimiter, the last piece's body is the text
   * before its first occurrence, and only whitespace follows it.
   */
  predicate BlockShaped(ps: seq<Piece>, pre: string, text: string, blockend: string)
  {
    && ps != []
    && ps[0].pre == pre && ps[0].body + ps[0].post == text
    && (forall k :: 1 <= k < |ps| ==> ps[k].pre == "")
    && (forall k :: 0 <= k < |ps| - 1 ==> Find(ps[k].body + ps[k].post, blockend) < 0)
    && Closed(ps[|ps| - 1], blockend)
  }

  /** The closing piece: its post starts with the delimiter, found first right after the body. */
  predicate Closed(p: Piece, blockend: string)
  {
    && StartsWith(p.post, blockend)
    && IsBlank(p.post[|blockend|..])
    && Find(p.body + p.post, blockend) == |p.body|
  }

  lemma ShapedCons(p: Piece, ps: seq<Piece>, pre: string, text: string, next: string, blockend: string)
    requires p.pre == pre && p.body + p.post == text && Find(text, blockend) < 0
    requires BlockShaped(ps, "", next, blockend)
    ensures BlockShaped([p] + ps, pre, text, blockend)
  {
    var qs := [p] + ps;
    forall k | 1 <= k < |qs|
      ensures qs[k].pre == ""
    {
      assert qs[k] == ps[k - 1];
    }
    forall k | 0 <= k < |qs| - 1
      ensures Find(qs[k].body + qs[k].post, blockend) < 0
    {
      if k > 0 {
        assert qs[k] == ps[k - 1];
      }
    }
    assert qs[|qs| - 1] == ps[|ps| - 1];
  }

  /**
   * What `extract_lead_blockcomment` promises: None unless the first line
   * opens with `blockstart`; otherwise a comment whose pieces rebuild the
   * lines it spans, shaped as BlockShaped says, then the rest of the file.
   */
  lemma LeadBlockCommentShape(lines: seq<string>, blockstart: string, blockend: string)
    ensures (lines == [] || !Opens(lines[0], blockstart)) ==> LeadBlockComment(lines, blockstart, blockend).None?
    ensures LeadBlockComment(lines, blockstart, blockend).Some? ==>
      var c := After(lines[0], blockstart);
      BlockShaped(LeadBlockComment(lines, blockstart, blockend).value.0, lines[0][..c], lines[0][c..], blockend)
  {
    if lines != [] && Opens(lines[0], blockstart) {
      var c := After(lines[0], blockstart);
      BlockFromShape(lines, blockend, 0, lines[0][..c], lines[0][c..]);
    }
  }

  lemma LeadBlockCommentRebuilds(lines: seq<string>, blockstart: string, blockend: string)
    ensures LeadBlockComment(lines, blockstart, blockend).Some? ==>
      Lines(LeadBlockComment(lines, blockstart, blockend).value.0) + LeadBlockComment(lines, blockstart, blockend).value.1 == lines
  {
    if lines != [] && Opens(lines[0], blockstart) {
      var c := After(lines[0], blockstart);
      var r := BlockFrom(lines, blockend, 0, lines[0][..c], lines[0][c..]);
      if r.Some? {
        BlockFromLines(lines, blockend, 0, lines[0][..c], lines[0][c..]);
        BlockRebuilds(lines, c, r.value.0, r.value.1);
      }
    }
  }

  lemma BlockRebuilds(lines: seq<string>, c: nat, ps: seq<Piece>, n: nat)
    requires 0 < n <= |lines| && c <= |lines[0]|
    requires Lines(ps) == [lines[0][..c] + lines[0][c..]] + lines[1..n]
    ensures Lines(ps) + lines[n..] == lines
  {
    assert lines[0] == lines[0][..c] + lines[0][c..];
    assert lines == [lines[0]] + lines[1..n] + lines[n..];
  }

  // ---------------------------------------------------------------------
  // The closing check of comment.py:55 as written

  /**
   * As written, the check indexes the single character after the closing
   * delimiter and rejects the comment only when that character is not
   * whitespace; it raises IndexError when the delimiter ends the line.
   * The result is whether the comment is accepted.
   */
  function ClosingCheckAsWritten(post: string, blockend: string): (r: Result<bool>)
    requires |blockend| <= |post|
    ensures r.Err? <==> |post| == |blockend|
  {
    if |blockend| < |post| then Ok(IsSpace(post[|blockend|])) else Err("IndexError")
  }

  /** Text after the delimiter and a space is accepted as written, but is not a closed comment. */
  lemma ClosingAcceptsTrailingText()
    ensures ClosingCheckAsWritten("*/ x\n", "*/") == Ok(true)
    ensures !Closes("*/ x\n", "*/")
  {
    assert !IsSpace("*/ x\n"[3]);
  }

  /** A delimiter at the very end of the last line raises as written, but closes the comment. */
  lemma ClosingRaisesAtEnd()
    ensures ClosingCheckAsWritten("*/", "*/").Err?
    ensures Closes("*/", "*/")
  {
  }

  /** Wherever the check as written does not raise, it accepts every comment the intended check accepts. */
  lemma ClosingCheckWeaker(post: string, blockend: string)
    requires |blockend| < |post|
    ensures Closes(post, blockend) ==> ClosingCheckAsWritten(post, blockend) == Ok(true)
  {
  }

  // ---------------------------------------------------------------------
  // Dispatch on the file type

  /**
   * `extract_lead_comment`: the line comment if the type has a line-comment
   * marker and one is found, else the block comment if the type has block
   * delimiters and one is found, else no comment and all the lines.
   */
  function LeadComment(lines: seq<string>, filetype: Option<FileType>): (r: Split)
  {
    if filetype.None? then ([], lines)
    else
      var lc := filetype.value.linecomment;
      var bc := filetype.value.blockcomment;
      var l := if lc.Some? then LeadLineComment(lines, lc.value) else None;
      var b := if bc.Some? then LeadBlockComment(lines, bc.value.0, bc.value.1) else None;
      if l.Some? then l.value
      else if b.Some? then b.value
      else ([], lines)
  }

  method ExtractLeadComment(lines: seq<string>, filetype: Option<FileType>) returns (comment: seq<Piece>, rest: seq<string>)
    ensures (comment, rest) == LeadComment(lines, filetype)
  {
    if filetype.Some? {
      var linecomment := filetype.value.linecomment;
      var blockcomment := filetype.value.blockcomment;
      if linecomment.Some? {
        var value := ExtractLeadLineComment(lines, linecomment.value);
        if value.Some? {
          return value.value.0, value.value.1;
        }
      }
      if blockcomment.Some? {
        var value := ExtractLeadBlockComment(lines, blockcomment.value.0, blockcomment.value.1);
        if value.Some? {
          return value.value.0, value.value.1;
        }
      }
    }
    return [], lines;
  }

  /**
   * The promise of `extract_lead_comment`: concatenating the pieces of the
   * comment and the remaining lines gives back the file, and an empty
   * comment leaves every line in the remainder.
   */
  lemma LeadCommentRebuilds(lines: seq<string>, filetype: Option<FileType>)
    ensures Lines(LeadComment(lines, filetype).0) + LeadComment(lines, filetype).1 == lines
    ensures LeadComment(lines, filetype).0 == [] ==> LeadComment(lines, filetype).1 == lines
  {
    if filetype.Some? {
      var lc := filetype.value.linecomment;
      var bc := filetype.value.blockcomment;
      if lc.Some? {
        LeadLineCommentShape(lines, lc.value);
      }
      if bc.Some? {
        LeadBlockCommentRebuilds(lines, bc.value.0, bc.value.1);
      }
    }
  }

  /** A line comment is preferred: a type with both kinds takes the block comment only when no line comment leads. */
  lemma LeadCommentPrefersLine(lines: seq<string>, filetype: FileType)
    requires filetype.linecomment.Some? && lines != [] && Opens(lines[0], filetype.linecomment.value)
    ensures LeadComment(lines, Some(filetype)) == LineComment(lines, filetype.linecomment.value)
  {
    LeadLineCommentShape(lines, filetype.linecomment.value);
  }
}
