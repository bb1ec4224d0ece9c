/**
 * Rule: scoped configuration rules (`lib/header/rule.py`).
 *
 * A `Rules` node holds an environment overlay and a list of children, each a
 * pattern set guarding a nested node. A rule file is a brace-delimited list
 * of `key = value` settings and `{ ... }` groups whose `+ pattern` and
 * `- pattern` lines form the group's pattern set. The older reader of
 * `header/rule.py` shares the lexer except for heredocs, and is selected by
 * the `Legacy` dialect.
 */
module Rule {
  import opened Text
  import opened Pattern
  import opened Environ

  type Env = map<string, Value>

  /** `DEFAULT_ENV` of `lib/header/rule.py`. */
  const DefaultEnv: Env := map[
    "ignore" := Bool(false),
    "guard_prefix" := Str(""),
    "guards" := Bool(false),
    "width" := Int(0),
    "tabsize" := Int(4),
    "extern_c" := Bool(false),
    "config_header" := Str(""),
    "copyright_notice" := Str(""),
    "fix_copyright" := Bool(true)
  ]

  /** `DEFAULT_ENV` of the older `header/rule.py`. */
  const LegacyDefaultEnv: Env := map[
    "ignore" := Bool(false),
    "guard_prefix" := Str(""),
    "guards" := Bool(false),
    "width" := Int(0),
    "tabsize" := Int(4),
    "extern_c" := Bool(false),
    "config_header" := Str("")
  ]

  /** A node of the rule tree: its own settings and its guarded children. */
  datatype Rules = Rules(env: Env, rules: seq<Child>)

  /** One `(patternset, rules)` pair of a node. */
  datatype Child = Child(patterns: PatternSet, rules: Rules)

  /** `lib/header/rule.py`, or the older `header/rule.py`. */
  datatype Dialect = Current | Legacy

  /** The node the `Rules` constructor builds: the legacy one fills in its defaults. */
  function MakeRules(d: Dialect, env: Env, rules: seq<Child>): (r: Rules)
    ensures d == Legacy ==> forall k :: k in LegacyDefaultEnv ==> k in r.env
    ensures forall k :: k in env ==> k in r.env && r.env[k] == env[k]
    ensures r.rules == rules
  {
    if d == Current then Rules(env, rules) else Rules(LegacyDefaultEnv + env, rules)
  }

  // =====================================================================
  // Lexer

  /** The tokens `Lexer.next` returns: `{`, `}`, `PATTERN` and `SET`. */
  datatype Token = Open | Close | Pat(positive: bool, pattern: ValidPattern) | Set(name: string, value: Value)

  /** What one line of a rule file says on its own. */
  datatype LineKind =
    | Blank                                   // empty or a `#` comment
    | Tok(token: Token)
    | Heredoc(name: string, terminator: string) // `name = <<TOK`; the value follows
    | Bad(msg: string)                        // the message `Lexer.error` reports

  /** `GlobPattern.parse` of a whitespace-free field, which cannot fail. */
  function PatternOf(w: string): (p: ValidPattern)
    requires w != ""
    ensures ParsePattern(w) == Some(p)
  {
    ParseFailsOnlyOnEmpty(w);
    ParsePattern(w).value
  }

  /** A `SET` token, or the message of the `ValueError` from `parse_var`. */
  function Setting(name: string, value: Option<string>): (k: LineKind)
    ensures k.Tok? <==> ParseVar(name, value).Ok?
    ensures k.Tok? ==> k.token == Set(name, ParseVar(name, value).value)
    ensures !k.Tok? ==> k == Bad(ParseVar(name, value).msg)
  {
    match ParseVar(name, value)
    case Ok(v) => Tok(Set(name, v))
    case Err(m) => Bad(m)
  }

  /** A first field that makes the line a brace or a pattern line. */
  predicate Keyword(f: string)
  {
    f == "{" || f == "}" || f == "+" || f == "-"
  }

  /** The fields of a pattern line: `+` or `-`, then one pattern. */
  predicate PatternLine(fields: seq<string>)
  {
    |fields| == 2 && (fields[0] == "+" || fields[0] == "-")
  }

  /** The fields of a setting line `name = value`, `name =` or `name = <<TOK`. */
  predicate Assignment(fields: seq<string>)
  {
    |fields| >= 2 && !Keyword(fields[0]) && fields[1] == "="
  }

  /** The value field of an assignment opens a heredoc in this dialect. */
  predicate OpensHeredoc(fields: seq<string>, d: Dialect)
  {
    Assignment(fields) && |fields| == 3 && d == Current && StartsWith(fields[2], "<<")
  }

  /** A line `name = value` whose value `parse_var` accepts and which opens no heredoc in this dialect. */
  predicate ValueLine(fields: seq<string>, d: Dialect)
  {
    Assignment(fields) && |fields| == 3 && !OpensHeredoc(fields, d) && ParseVar(fields[0], Some(fields[2])).Ok?
  }

  /**
   * The decision `Lexer.next` makes on the whitespace-separated fields of a
   * significant line. Only the current dialect knows heredocs; in the legacy
   * one `<<TOK` is an ordinary value. The legacy lexer refers to an
   * unimported `pattern` module and to an unbound `name` on a bare key; both
   * are read as their evident intent, the same code as the current lexer.
   */
  function ClassifyFields(fields: seq<string>, d: Dialect): (k: LineKind)
    requires fields != [] && forall i :: 0 <= i < |fields| ==> fields[i] != ""
    ensures !k.Blank?
    ensures k.Heredoc? ==> d == Current && k.terminator != ""
  {
    var f := fields[0];
    if f == "{" || f == "}" then
      if |fields| != 1 then Bad("syntax error")
      else Tok(if f == "{" then Open else Close)
    else if f == "+" || f == "-" then
      if |fields| != 2 then Bad("expected one pattern")
      else Tok(Pat(f == "+", PatternOf(fields[1])))
    else if |fields| >= 2 && fields[1] == "=" then
      if |fields| == 3 then
        var data := fields[2];
        if d == Current && |data| >= 2 && data[..2] == "<<" then
          var terminator := data[2..];
          if terminator == [] then Bad("expected EOF token name after <<")
          else
            assert data == "<<" + terminator;
            Heredoc(f, terminator)
        else Setting(f, Some(data))
      else if |fields| == 2 then Setting(f, Some(""))
      else Bad("too many fields")
    else if |fields| == 1 then Setting(f, None)
    else Bad("syntax error")
  }

  /**
   * What `Lexer.next` makes of the fields of a line: a brace alone, a `+` or
   * `-` with one pattern, a setting with its value, a heredoc opened by
   * `<<TOK`, and the error message of each malformed form.
   */
  lemma ClassifyFieldsCases(fields: seq<string>, d: Dialect)
    requires fields != [] && forall i :: 0 <= i < |fields| ==> fields[i] != ""
    ensures !ClassifyFields(fields, d).Blank?
    // braces
    ensures ClassifyFields(fields, d) == Tok(Open) <==> fields == ["{"]
    ensures ClassifyFields(fields, d) == Tok(Close) <==> fields == ["}"]
    ensures (fields[0] == "{" || fields[0] == "}") && |fields| != 1 ==> ClassifyFields(fields, d) == Bad("syntax error")
    // patterns
    ensures ClassifyFields(fields, d).Tok? && ClassifyFields(fields, d).token.Pat? <==> PatternLine(fields)
    ensures ClassifyFields(fields, d).Tok? && ClassifyFields(fields, d).token.Pat? ==>
              ClassifyFields(fields, d).token.positive == (fields[0] == "+") && ParsePattern(fields[1]) == Some(ClassifyFields(fields, d).token.pattern)
    ensures (fields[0] == "+" || fields[0] == "-") && |fields| != 2 ==> ClassifyFields(fields, d) == Bad("expected one pattern")
    // settings
    ensures !Keyword(fields[0]) && |fields| == 1 ==> ClassifyFields(fields, d) == Setting(fields[0], None)
    ensures Assignment(fields) && |fields| == 2 ==> ClassifyFields(fields, d) == Setting(fields[0], Some(""))
    ensures Assignment(fields) && |fields| == 3 && !OpensHeredoc(fields, d) ==> ClassifyFields(fields, d) == Setting(fields[0], Some(fields[2]))
    ensures OpensHeredoc(fields, d) && fields[2] == "<<" ==> ClassifyFields(fields, d) == Bad("expected EOF token name after <<")
    ensures ClassifyFields(fields, d).Heredoc? <==> OpensHeredoc(fields, d) && fields[2] != "<<"
    ensures ClassifyFields(fields, d).Heredoc? ==> d == Current && ClassifyFields(fields, d).name == fields[0] && fields[2] == "<<" + ClassifyFields(fields, d).terminator && ClassifyFields(fields, d).terminator != ""
    ensures Assignment(fields) && |fields| > 3 ==> ClassifyFields(fields, d) == Bad("too many fields")
    // anything else
    ensures !Keyword(fields[0]) && |fields| >= 2 && fields[1] != "=" ==> ClassifyFields(fields, d) == Bad("syntax error")
  {
    var f := fields[0];
    if |fields| == 3 && StartsWith(fields[2], "<<") && fields[2] != "<<" {
      assert fields[2] == "<<" + fields[2][2..];
    }
  }

  /** `Lexer.next` on one line: blank and `#` lines are skipped, the others classified by their fields. */
  function ClassifyLine(line: string, d: Dialect): (k: LineKind)
    ensures k.Blank? <==> !Significant(Strip(line))
    ensures Significant(Strip(line)) ==>
              var f := Fields(Strip(line));
              && f != [] && (forall i :: 0 <= i < |f| ==> f[i] != "")
              && k == ClassifyFields(f, d)
  {
    var s := Strip(line);
    if s == [] || s[0] == '#' then Blank
    else
      SignificantFields(line);
      ClassifyFields(Fields(s), d)
  }

  /** A line that is not blank splits into at least one field, and no field is empty. */
  lemma SignificantFields(line: string)
    requires Strip(line) != []
    ensures var f := Fields(Strip(line)); f != [] && forall i :: 0 <= i < |f| ==> f[i] != ""
  {
    assert !IsSpace(Strip(line)[0]);
  }

  /**
   * The number of heredoc lines from `lines[i..]`: the lines before the first
   * one whose right-stripped text is `terminator`, or before the end of the file.
   */
  function BodyLength(lines: seq<string>, i: nat, terminator: string): (n: nat)
    requires i <= |lines|
    ensures i + n <= |lines|
    ensures i + n < |lines| ==> RStrip(lines[i + n]) == terminator
    decreases |lines| - i
  {
    if i == |lines| || RStrip(lines[i]) == terminator then 0
    else 1 + BodyLength(lines, i + 1, terminator)
  }

  /** No line inside a heredoc body is its terminator: the body ends at the first one. */
  lemma {:induction false} BodyLengthFirst(lines: seq<string>, i: nat, terminator: string, k: nat)
    requires i <= |lines| && i <= k < i + BodyLength(lines, i, terminator)
    ensures RStrip(lines[k]) != terminator
    decreases k - i
  {
    if k > i {
      BodyLengthFirst(lines, i + 1, terminator, k);
    }
  }

  /**
   * The heredoc read from `lines[i..]`: its raw lines, and the index after
   * the terminator line, or the end of the file when no line terminates it.
   */
  function HeredocBody(lines: seq<string>, i: nat, terminator: string): (r: (seq<string>, nat))
    requires i <= |lines|
    ensures i + |r.0| <= |lines| && r.0 == lines[i..i + |r.0|]
    ensures || (r.1 == i + |r.0| + 1 <= |lines| && RStrip(lines[i + |r.0|]) == terminator)
            || r.1 == i + |r.0| == |lines|
  {
    var n := BodyLength(lines, i, terminator);
    (lines[i..i + n], if i + n < |lines| then i + n + 1 else i + n)
  }

  /**
   * The outcome of reading: a value, or the `ValueError` of `Lexer.error`,
   * kept as the line number and reason it formats into its message.
   */
  datatype Read<+T> = Parsed(value: T) | Failed(lineno: nat, reason: string)

  /** The message of `Lexer.error`: `file:line: reason`. */
  function ErrorText(fname: string, lineno: nat, reason: string): (m: string)
    ensures StartsWith(m, fname + ":")
    ensures EndsWith(m, ": " + reason)
  {
    var m := fname + ":" + NatToString(lineno) + ": " + reason;
    assert m[..|fname + ":"|] == fname + ":";
    assert m[|m| - |": " + reason|..] == ": " + reason;
    m
  }

  /** The first line at or after `i` that `Lexer.next` does not skip, or `|lines|`. */
  function FirstSignificant(lines: seq<string>, i: nat): (j: nat)
    requires i <= |lines|
    ensures i <= j <= |lines|
    ensures forall k :: i <= k < j ==> !Significant(Strip(lines[k]))
    ensures j < |lines| ==> Significant(Strip(lines[j]))
    decreases |lines| - i
  {
    if i == |lines| || Significant(Strip(lines[i])) then i else FirstSignificant(lines, i + 1)
  }

  /**
   * `Lexer.next` with `lineno == i`: the token (`None` at the end of the
   * file) or the error, and the new `lineno`. Blank and `#` lines are passed
   * over, and the first other line decides.
   */
  function NextToken(lines: seq<string>, i: nat, d: Dialect): (r: (Read<Option<Token>>, nat))
    requires i <= |lines|
    ensures i <= r.1 <= |lines|
    ensures r.0.Parsed? && r.0.value.Some? ==> r.1 > i
    ensures r.0 == Parsed(None) ==> r.1 == |lines|
    ensures r.0.Failed? ==> i < r.0.lineno == r.1
    decreases |lines| - i
  {
    if i == |lines| then (Parsed(None), i)
    else
      match LineToken(lines, i, d)
      case None => NextToken(lines, i + 1, d)
      case Some(t) => t
  }

  /**
   * `Lexer.next` passes over blank and `#` lines: it returns what the first
   * other line yields, or the end of the file when there is none.
   */
  lemma {:induction false} NextTokenFirst(lines: seq<string>, i: nat, d: Dialect)
    requires i <= |lines|
    ensures FirstSignificant(lines, i) == |lines| ==> NextToken(lines, i, d) == (Parsed(None), |lines|)
    ensures var j := FirstSignificant(lines, i);
            j < |lines| ==> LineToken(lines, j, d).Some? && NextToken(lines, i, d) == LineToken(lines, j, d).value
    decreases |lines| - i
  {
    if i < |lines| && LineToken(lines, i, d).None? {
      NextTokenFirst(lines, i + 1, d);
    }
  }

  /**
   * What the line at index `i` yields: `None` for a line `Lexer.next` skips,
   * otherwise the token or failure and the index after it (past the heredoc
   * body for a heredoc).
   */
  function LineToken(lines: seq<string>, i: nat, d: Dialect): (r: Option<(Read<Option<Token>>, nat)>)
    requires i < |lines|
    ensures r.None? <==> !Significant(Strip(lines[i]))
    ensures r.Some? ==> i < r.value.1 <= |lines|
    ensures r.Some? && r.value.0.Failed? ==> r.value.0.lineno == r.value.1
    ensures r.Some? ==> r.value.0 != Parsed(None)
  {
    match ClassifyLine(lines[i], d)
    case Blank => None
    case Tok(t) => Some((Parsed(Some(t)), i + 1))
    case Bad(m) => Some((Failed(i + 1, m), i + 1))
    case Heredoc(name, terminator) =>
      var body := HeredocBody(lines, i + 1, terminator);
      match ParseVar(name, Some(Join("", body.0)))
      case Ok(v) => Some((Parsed(Some(Set(name, v))), body.1))
      case Err(m) => Some((Failed(body.1, m), body.1))
  }

  /**
   * The token a significant line yields: `{` and `}` come from a line that
   * is just that brace, a pattern from a pattern line, and only a heredoc
   * setting reads past the line itself.
   */
  lemma LineTokenShape(lines: seq<string>, i: nat, d: Dialect)
    requires i < |lines| && Significant(Strip(lines[i]))
    ensures var r := LineToken(lines, i, d).value;
            && (r == (Parsed(Some(Open)), i + 1) <==> Fields(Strip(lines[i])) == ["{"])
            && (r == (Parsed(Some(Close)), i + 1) <==> Fields(Strip(lines[i])) == ["}"])
            && (r.0.Parsed? && r.0.value.Some? && r.0.value.value.Pat? <==> PatternLine(Fields(Strip(lines[i]))))
            && (r.0.Parsed? && r.0.value.Some? && !r.0.value.value.Set? ==> r.1 == i + 1)
    ensures var r := LineToken(lines, i, d).value;
            var f := Fields(Strip(lines[i]));
            r.0.Parsed? && r.0.value.Some? && r.0.value.value.Pat? ==>
              |f| == 2 && f[1] != "" && r.0.value.value == Pat(f[0] == "+", PatternOf(f[1]))
  {
    SignificantFields(lines[i]);
    ClassifyFieldsCases(Fields(Strip(lines[i])), d);
  }

  /** A line that is just `{` yields the `{` token and nothing past it. */
  lemma LineTokenOpen(lines: seq<string>, i: nat, d: Dialect)
    requires i < |lines| && Significant(Strip(lines[i])) && Fields(Strip(lines[i])) == ["{"]
    ensures LineToken(lines, i, d) == Some((Parsed(Some(Open)), i + 1))
  {
    assert ClassifyLine(lines[i], d) == ClassifyFields(["{"], d);
  }

  /** A line that is just `}` yields the `}` token and nothing past it. */
  lemma LineTokenClose(lines: seq<string>, i: nat, d: Dialect)
    requires i < |lines| && Significant(Strip(lines[i])) && Fields(Strip(lines[i])) == ["}"]
    ensures LineToken(lines, i, d) == Some((Parsed(Some(Close)), i + 1))
  {
    assert ClassifyLine(lines[i], d) == ClassifyFields(["}"], d);
  }

  /** Only a line that is just `}` yields the `}` token. */
  lemma LineTokenNotClose(lines: seq<string>, i: nat, d: Dialect)
    requires i < |lines| && Significant(Strip(lines[i])) && Fields(Strip(lines[i])) != ["}"]
    ensures LineToken(lines, i, d).value.0 != Parsed(Some(Close))
  {
    SignificantFields(lines[i]);
    var f := Fields(Strip(lines[i]));
    assert ClassifyLine(lines[i], d) == ClassifyFields(f, d);
  }

  /** A pattern line yields its pattern, positive for `+`, and nothing past it. */
  lemma LineTokenPattern(lines: seq<string>, i: nat, d: Dialect)
    requires i < |lines| && Significant(Strip(lines[i])) && PatternLine(Fields(Strip(lines[i])))
    ensures var f := Fields(Strip(lines[i]));
            && f[1] != ""
            && LineToken(lines, i, d) == Some((Parsed(Some(Pat(f[0] == "+", PatternOf(f[1])))), i + 1))
  {
    SignificantFields(lines[i]);
    var f := Fields(Strip(lines[i]));
    assert ClassifyLine(lines[i], d) == ClassifyFields(f, d);
  }

  /** A line `name = value` whose value opens no heredoc yields the setting `parse_var` reads, and nothing past it. */
  lemma LineTokenSetting(lines: seq<string>, i: nat, d: Dialect)
    requires i < |lines| && Significant(Strip(lines[i]))
    requires ValueLine(Fields(Strip(lines[i])), d)
    ensures var f := Fields(Strip(lines[i]));
            LineToken(lines, i, d) == Some((Parsed(Some(Set(f[0], ParseVar(f[0], Some(f[2])).value))), i + 1))
  {
    SignificantFields(lines[i]);
    var f := Fields(Strip(lines[i]));
    ClassifyFieldsCases(f, d);
    assert ClassifyLine(lines[i], d) == ClassifyFields(f, d);
  }

  /** `Lexer`: a rule file's lines and the number of lines read so far. */
  class Lexer {
    const fname: string
    const lines: seq<string>
    const dialect: Dialect
    var lineno: nat

    predicate Valid()
      reads this
    {
      lineno <= |lines|
    }

    constructor(fname: string, lines: seq<string>, dialect: Dialect)
      ensures this.fname == fname && this.lines == lines && this.dialect == dialect
      ensures lineno == 0 && Valid()
    {
      this.fname := fname;
      this.lines := lines;
      this.dialect := dialect;
      lineno := 0;
    }

    /** The heredoc loop: reads raw lines up to and including the terminator. */
    method ReadHeredoc(terminator: string) returns (body: seq<string>)
      requires Valid()
      modifies this
      ensures Valid()
      ensures (body, lineno) == HeredocBody(lines, old(lineno), terminator)
    {
      var i := lineno;
      ghost var n := BodyLength(lines, i, terminator);
      body := [];
      while i < |lines|
        invariant lineno <= i <= |lines|
        invariant body == lines[lineno..i]
        invariant n == (i - lineno) + BodyLength(lines, i, terminator)
        decreases |lines| - i
      {
        var line := lines[i];
        if RStrip(line) == terminator {
          assert BodyLength(lines, i, terminator) == 0;
          lineno := i + 1;
          return;
        }
        assert BodyLength(lines, i, terminator) == 1 + BodyLength(lines, i + 1, terminator);
        body := body + [line];
        i := i + 1;
      }
      assert BodyLength(lines, i, terminator) == 0;
      lineno := i;
    }

    /**
     * One pass of the loop in `Lexer.next`: reads one line, and the heredoc
     * that follows it if it opens one. `done` is false exactly when the line
     * was skipped.
     */
    method Step() returns (done: bool, r: Read<Option<Token>>)
      requires Valid() && lineno < |lines|
      modifies this
      ensures Valid()
      ensures !done ==> lineno == old(lineno) + 1 && NextToken(lines, lineno, dialect) == NextToken(lines, old(lineno), dialect)
      ensures done ==> (r, lineno) == NextToken(lines, old(lineno), dialect)
    {
      var k := ClassifyLine(lines[lineno], dialect);
      lineno := lineno + 1;
      if k.Blank? {
        done, r := false, Parsed(None);
      } else {
        if k.Heredoc? {
          r := ReadSetting(k.name, k.terminator);
        } else if k.Tok? {
          r := Parsed(Some(k.token));
        } else {
          r := Failed(lineno, k.msg);
        }
        done := true;
      }
    }

    /** The heredoc branch of `Lexer.next`: the value is the body, joined. */
    method ReadSetting(name: string, terminator: string) returns (r: Read<Option<Token>>)
      requires Valid()
      modifies this
      ensures Valid()
      ensures var body := HeredocBody(lines, old(lineno), terminator);
              && lineno == body.1
              && r == match ParseVar(name, Some(Join("", body.0)))
                      case Ok(v) => Parsed(Some(Set(name, v)))
                      case Err(m) => Failed(body.1, m)
    {
      var body := ReadHeredoc(terminator);
      match ParseVar(name, Some(Join("", body))) {
        case Ok(v) => return Parsed(Some(Set(name, v)));
        case Err(m) => return Failed(lineno, m);
      }
    }

    /** `Lexer.next`; `Failed` is the `ValueError` raised by `Lexer.error`. */
    method Next() returns (r: Read<Option<Token>>)
      requires Valid()
      modifies this
      ensures Valid()
      ensures r == NextToken(lines, old(lineno), dialect).0
      ensures lineno == NextToken(lines, old(lineno), dialect).1
    {
      ghost var target := NextToken(lines, lineno, dialect);
      while lineno < |lines|
        invariant old(lineno) <= lineno <= |lines|
        invariant NextToken(lines, lineno, dialect) == target
        decreases |lines| - lineno
      {
        var done;
        done, r := Step();
        if done {
          return;
        }
      }
      return Parsed(None);
    }

    /** `Lexer.error`: the failure at the current line. */
    function Error<T>(reason: string): (r: Read<T>)
      reads this
      ensures r.Failed? && r.lineno == lineno && r.reason == reason
    {
      Failed(lineno, reason)
    }
  }

  // =====================================================================
  // Reader

  /**
   * `_read_group` entered with `lineno == i`, just after its `{` line: the
   * group's pattern set and node, and the line count after its `}`.
   */
  function ReadGroup(lines: seq<string>, i: nat, d: Dialect): (r: (Read<Child>, nat))
    requires 0 < i <= |lines|
    ensures i <= r.1 <= |lines|
    ensures r.0.Failed? ==> 1 <= r.0.lineno <= |lines|
    decreases |lines| - i, 1
  {
    GroupItems(lines, i, d, map[], [], [])
  }

  /** The loop of `_read_group` with the settings, children and patterns gathered so far. */
  function GroupItems(lines: seq<string>, i: nat, d: Dialect,
                      env: Env, rules: seq<Child>, patterns: seq<Entry>): (r: (Read<Child>, nat))
    requires 0 < i <= |lines|
    ensures i <= r.1 <= |lines|
    ensures r.0.Failed? ==> 1 <= r.0.lineno <= |lines|
    decreases |lines| - i, 0
  {
    var t := NextToken(lines, i, d);
    match t.0
    case Failed(n, m) => (Failed(n, m), t.1)
    case Parsed(None) => (Failed(t.1, "missing brace"), t.1)
    case Parsed(Some(tok)) =>
      match tok
      case Open =>
        var g := ReadGroup(lines, t.1, d);
        if g.0.Failed? then g
        else GroupItems(lines, g.1, d, env, rules + [g.0.value], patterns)
      case Close =>
        (Parsed(Child(PatternSet(Normalize(patterns)), MakeRules(d, env, rules))), t.1)
      case Pat(positive, p) =>
        GroupItems(lines, t.1, d, env, rules, patterns + [Entry(positive, p)])
      case Set(name, v) =>
        GroupItems(lines, t.1, d, env[name := v], rules, patterns)
  }

  /** The loop of `Rules.read` with the settings and children gathered so far. */
  function ReadTop(lines: seq<string>, i: nat, d: Dialect, env: Env, rules: seq<Child>): (r: Read<Rules>)
    requires i <= |lines|
    ensures r.Failed? ==> 1 <= r.lineno <= |lines|
    decreases |lines| - i
  {
    var t := NextToken(lines, i, d);
    match t.0
    case Failed(n, m) => Failed(n, m)
    case Parsed(None) => Parsed(MakeRules(d, env, rules))
    case Parsed(Some(tok)) =>
      match tok
      case Open =>
        var g := ReadGroup(lines, t.1, d);
        if g.0.Failed? then Failed(g.0.lineno, g.0.reason)
        else ReadTop(lines, g.1, d, env, rules + [g.0.value])
      case Close => Failed(t.1, "extra brace")
      case Pat(_, _) => Failed(t.1, "unexpected pattern")
      case Set(name, v) => ReadTop(lines, t.1, d, env[name := v], rules)
  }

  /** `Rules.read` of a whole file; a failure names a line of the file. */
  function ReadRules(lines: seq<string>, d: Dialect): (r: Read<Rules>)
    ensures r.Failed? ==> 1 <= r.lineno <= |lines|
  {
    ReadTop(lines, 0, d, map[], [])
  }

  /** `Rules._read_group`. */
  method ReadGroupFrom(lex: Lexer) returns (r: Read<Child>)
    requires lex.Valid() && lex.lineno > 0
    modifies lex
    ensures lex.Valid()
    ensures r == ReadGroup(lex.lines, old(lex.lineno), lex.dialect).0
    ensures lex.lineno == ReadGroup(lex.lines, old(lex.lineno), lex.dialect).1
    decreases |lex.lines| - lex.lineno
  {
    var env: Env := map[];
    var rules: seq<Child> := [];
    var patterns: seq<Entry> := [];
    ghost var target := ReadGroup(lex.lines, lex.lineno, lex.dialect);
    ghost var start := lex.lineno;
    while true
      invariant lex.Valid() && 0 < start <= lex.lineno
      invariant GroupItems(lex.lines, lex.lineno, lex.dialect, env, rules, patterns) == target
      decreases |lex.lines| - lex.lineno
    {
      var t := lex.Next();
      match t {
        case Failed(n, m) =>
          return Failed(n, m);
        case Parsed(None) =>
          return lex.Error("missing brace");
        case Parsed(Some(tok)) =>
          match tok {
            case Open =>
              var g := ReadGroupFrom(lex);
              if g.Failed? {
                return g;
              }
              rules := rules + [g.value];
            case Close =>
              var ps := NewPatternSet(patterns);
              return Parsed(Child(ps, MakeRules(lex.dialect, env, rules)));
            case Pat(positive, p) =>
              patterns := patterns + [Entry(positive, p)];
            case Set(name, v) =>
              env := env[name := v];
          }
      }
    }
  }

  /** `Rules.read`. */
  method ReadFile(fname: string, lines: seq<string>, d: Dialect) returns (r: Read<Rules>)
    ensures r == ReadRules(lines, d)
  {
    var lex := new Lexer(fname, lines, d);
    var env: Env := map[];
    var rules: seq<Child> := [];
    while true
      invariant lex.Valid() && lex.lines == lines && lex.dialect == d
      invariant ReadTop(lines, lex.lineno, d, env, rules) == ReadRules(lines, d)
      decreases |lines| - lex.lineno
    {
      var t := lex.Next();
      match t {
        case Failed(n, m) =>
          return Failed(n, m);
        case Parsed(None) =>
          return Parsed(MakeRules(d, env, rules));
        case Parsed(Some(tok)) =>
          match tok {
            case Open =>
              var g := ReadGroupFrom(lex);
              if g.Failed? {
                return Failed(g.lineno, g.reason);
              }
              rules := rules + [g.value];
            case Close =>
              return lex.Error("extra brace");
            case Pat(_, _) =>
              return lex.Error("unexpected pattern");
            case Set(name, v) =>
              env := env[name := v];
          }
      }
    }
  }

  // =====================================================================
  // Macro names

  /** The length of the run of non-token characters at the start of `x`. */
  function RunLength(x: string): (n: nat)
    ensures n <= |x|
    ensures forall i :: 0 <= i < n ==> !IsAlnum(x[i])
    ensures n < |x| ==> IsAlnum(x[n])
  {
    if x == [] || IsAlnum(x[0]) then 0 else 1 + RunLength(x[1..])
  }

  /** Only `[a-zA-Z0-9_]`, and never two `_` in a row. */
  predicate Collapsed(s: string)
  {
    && (forall i :: 0 <= i < |s| ==> IsWord(s[i]))
    && (forall i :: 0 <= i < |s| - 1 ==> s[i] == '_' ==> s[i + 1] != '_')
  }

  /** `NON_TOKEN.subn('_', x)[0]`: each maximal run of characters outside `[a-zA-Z0-9]` becomes one `_`. */
  function Collapse(x: string): (r: string)
    ensures Collapsed(r)
    ensures x != [] && IsAlnum(x[0]) ==> r != [] && r[0] == x[0]
    decreases |x|
  {
    if x == [] then []
    else if IsAlnum(x[0]) then [x[0]] + Collapse(x[1..])
    else
      var n := RunLength(x);
      assert n >= 1 by { assert !IsAlnum(x[0]); }
      var r := "_" + Collapse(x[n..]);
      assert forall i :: 1 <= i < |r| ==> r[i] == Collapse(x[n..])[i - 1];
      r
  }

  /** A macro name: `[A-Z0-9_]` only, no `_` at either end and no two in a row. */
  predicate IsMacro(m: string)
  {
    && Collapsed(m)
    && (forall i :: 0 <= i < |m| ==> !IsLower(m[i]))
    && (m != [] ==> m[0] != '_' && m[|m| - 1] != '_')
  }

  /** `to_macro`: a file name as the tail of an include-guard macro. */
  function ToMacro(x: string): (r: string)
    ensures IsMacro(r)
  {
    var c := Collapse(x);
    UpperCollapsed(c);
    StripMacro(Upper(c));
    StripChar(Upper(c), '_')
  }

  lemma UpperCollapsed(s: string)
    requires Collapsed(s)
    ensures Collapsed(Upper(s)) && forall i :: 0 <= i < |s| ==> !IsLower(Upper(s)[i])
  {
    var u := Upper(s);
    forall i | 0 <= i < |s| - 1 && u[i] == '_'
      ensures u[i + 1] != '_'
    {
      assert s[i] == '_';
    }
  }

  /** A slice of an upper-case collapsed name is one too. */
  lemma SliceCollapsed(u: string, a: nat, b: nat)
    requires a <= b <= |u|
    requires Collapsed(u) && forall i :: 0 <= i < |u| ==> !IsLower(u[i])
    ensures Collapsed(u[a..b]) && forall i :: 0 <= i < b - a ==> !IsLower(u[a..b][i])
  {
    var t := u[a..b];
    assert forall i :: 0 <= i < |t| ==> t[i] == u[a + i];
  }

  /** Stripping the `_` at both ends of an upper-case collapsed name leaves a macro name. */
  lemma StripMacro(u: string)
    requires Collapsed(u) && forall i :: 0 <= i < |u| ==> !IsLower(u[i])
    ensures IsMacro(StripChar(u, '_'))
  {
    var l := LStripChar(u, '_');
    SliceCollapsed(u, |u| - |l|, |u|);
    RStripMacro(l);
  }

  lemma RStripMacro(l: string)
    requires Collapsed(l) && forall i :: 0 <= i < |l| ==> !IsLower(l[i])
    requires l != [] ==> l[0] != '_'
    ensures IsMacro(RStripChar(l, '_'))
  {
    var r := RStripChar(l, '_');
    SliceCollapsed(l, 0, |r|);
    if r != [] {
      assert r[0] == l[0];
    }
  }

  /** A macro name is `Collapse`'s own output. */
  lemma {:induction false} CollapseFixed(m: string)
    requires Collapsed(m)
    ensures Collapse(m) == m
    decreases |m|
  {
    if m != [] {
      var t := m[1..];
      assert Collapsed(t) by {
        assert forall i :: 0 <= i < |t| ==> t[i] == m[i + 1];
      }
      if IsAlnum(m[0]) {
        CollapseFixed(t);
        assert m == [m[0]] + t;
      } else {
        assert m[0] == '_';
        assert RunLength(m) == 1 by {
          if |m| > 1 {
            assert IsWord(m[1]) && m[1] != '_';
          }
        }
        if t != [] {
          assert IsAlnum(t[0]);
        }
        CollapseFixed(t);
        assert m == "_" + t;
      }
    }
  }

  /** `to_macro` leaves a macro name unchanged, so applying it twice is applying it once. */
  lemma ToMacroFixed(m: string)
    requires IsMacro(m)
    ensures ToMacro(m) == m
  {
    CollapseFixed(m);
    assert Upper(m) == m;
  }

  lemma ToMacroIdempotent(x: string)
    ensures ToMacro(ToMacro(x)) == ToMacro(x)
  {
    ToMacroFixed(ToMacro(x));
  }

  predicate AllAlnum(s: string)
  {
    forall i :: 0 <= i < |s| ==> IsAlnum(s[i])
  }

  lemma {:induction false} CollapseAlnumPrefix(a: string, y: string)
    requires AllAlnum(a)
    ensures Collapse(a + y) == a + Collapse(y)
    decreases |a|
  {
    if a != [] {
      assert (a + y)[0] == a[0] && (a + y)[1..] == a[1..] + y;
      assert IsAlnum((a + y)[0]);
      assert Collapse(a + y) == [a[0]] + Collapse(a[1..] + y);
      CollapseAlnumPrefix(a[1..], y);
      assert a == [a[0]] + a[1..];
      assert [a[0]] + (a[1..] + Collapse(y)) == a + Collapse(y);
    } else {
      assert a + y == y && a + Collapse(y) == Collapse(y);
    }
  }

  lemma {:induction false} RunLengthOfSeparator(s: string, b: string)
    requires s != [] && (forall i :: 0 <= i < |s| ==> !IsAlnum(s[i]))
    requires b != [] && IsAlnum(b[0])
    ensures RunLength(s + b) == |s|
    decreases |s|
  {
    assert (s + b)[0] == s[0];
    if |s| > 1 {
      assert (s + b)[1..] == s[1..] + b;
      RunLengthOfSeparator(s[1..], b);
    } else {
      assert (s + b)[1..] == b;
    }
  }

  /**
   * Two tokens separated by any non-empty run of other characters become the
   * two tokens in upper case joined by one `_`.
   */
  lemma ToMacroSeparated(a: string, sep: string, b: string)
    requires a != [] && AllAlnum(a) && b != [] && AllAlnum(b)
    requires sep != [] && forall i :: 0 <= i < |sep| ==> !IsAlnum(sep[i])
    ensures ToMacro(a + sep + b) == Upper(a) + "_" + Upper(b)
  {
    CollapseSeparated(a, sep, b);
    UpperSeparated(a, b);
    StripCharUnchanged(Upper(a) + "_" + Upper(b), '_');
  }

  lemma UpperSeparated(a: string, b: string)
    requires a != [] && AllAlnum(a) && b != [] && AllAlnum(b)
    ensures var u := Upper(a) + "_" + Upper(b); Upper(a + "_" + b) == u && u[0] != '_' && u[|u| - 1] != '_'
  {
    UpperConcat(a, "_");
    UpperConcat(a + "_", b);
    assert Upper("_") == "_";
    assert Upper(a)[0] == UpperChar(a[0]);
    assert Upper(b)[|b| - 1] == UpperChar(b[|b| - 1]);
  }

  lemma CollapseSeparated(a: string, sep: string, b: string)
    requires AllAlnum(a) && b != [] && AllAlnum(b)
    requires sep != [] && forall i :: 0 <= i < |sep| ==> !IsAlnum(sep[i])
    ensures Collapse(a + sep + b) == a + "_" + b
  {
    assert a + sep + b == a + (sep + b);
    CollapseAlnumPrefix(a, sep + b);
    RunLengthOfSeparator(sep, b);
    assert (sep + b)[|sep|..] == b;
    assert (sep + b)[0] == sep[0];
    assert Collapse(sep + b) == "_" + Collapse(b);
    CollapseAlnumPrefix(b, []);
    assert b + [] == b;
  }

  lemma {:induction false} UpperConcat(a: string, b: string)
    ensures Upper(a + b) == Upper(a) + Upper(b)
    decreases |a|
  {
    if a != [] {
      assert (a + b)[0] == a[0] && (a + b)[1..] == a[1..] + b;
      UpperConcat(a[1..], b);
    } else {
      assert a + b == b;
    }
  }

  /** A name made only of tokens characters just goes upper case. */
  lemma ToMacroToken(x: string)
    requires AllAlnum(x)
    ensures ToMacro(x) == Upper(x)
  {
    CollapseAlnumPrefix(x, []);
    assert x + [] == x;
    UpperToken(x);
    StripCharUnchanged(Upper(x), '_');
  }

  lemma UpperToken(x: string)
    requires AllAlnum(x)
    ensures Upper(x) != [] ==> Upper(x)[0] != '_' && Upper(x)[|x| - 1] != '_'
  {
    if x != [] {
      assert Upper(x)[0] == UpperChar(x[0]) && Upper(x)[|x| - 1] == UpperChar(x[|x| - 1]);
    }
  }

  // =====================================================================
  // Resolving rules for files and directories

  /**
   * `_base_env`: `DEFAULT_ENV` overlaid by the node's own settings, with
   * `guardname` extended by the macro form of the file name.
   */
  function BaseEnv(env: Env, fname: string): (r: Env)
  {
    var e := DefaultEnv + env;
    e["guardname" := Str(GuardName(e, fname))]
  }

  /** The `guardname` of `_base_env`: the configured prefix, if it is truthy, then the file's macro name. */
  function GuardName(e: Env, fname: string): string
  {
    if "guardname" in e && Truthy(e["guardname"]) then Show(e["guardname"]) + "_" + ToMacro(fname)
    else ToMacro(fname)
  }

  /** Every default is present in a base environment, overridden by the node's own value. */
  lemma BaseEnvKeys(env: Env, fname: string, k: string)
    requires k != "guardname"
    ensures k in BaseEnv(env, fname) <==> k in DefaultEnv || k in env
    ensures k in env ==> BaseEnv(env, fname)[k] == env[k]
    ensures k !in env && k in DefaultEnv ==> BaseEnv(env, fname)[k] == DefaultEnv[k]
  {
  }

  /** The guard name is `prefix_MACRO` under a non-empty configured prefix, otherwise `MACRO`. */
  lemma BaseGuardName(env: Env, fname: string)
    ensures "guardname" in BaseEnv(env, fname)
    ensures "guardname" in env && env["guardname"].Str? && env["guardname"].s != "" ==>
              BaseEnv(env, fname)["guardname"] == Str(env["guardname"].s + "_" + ToMacro(fname))
    ensures "guardname" !in env || !Truthy(env["guardname"]) ==>
              BaseEnv(env, fname)["guardname"] == Str(ToMacro(fname)) && IsMacro(ToMacro(fname))
  {
    assert "guardname" !in DefaultEnv;
  }

  /** Where resolution starts: `_base_env` now, the node's own (default-filled) env in the legacy code. */
  function StartEnv(rs: Rules, fname: string, d: Dialect): Env
  {
    if d == Current then BaseEnv(rs.env, fname) else rs.env
  }

  /** `env.update(e)` for every `e` of `envs` in turn. */
  function Overlay(env: Env, envs: seq<Env>): Env
  {
    if envs == [] then env else Overlay(env, envs[..|envs| - 1]) + envs[|envs| - 1]
  }

  /** Later layers win: a key has the value of the last layer that sets it, else of the base. */
  lemma {:induction false} OverlayLookup(env: Env, envs: seq<Env>, k: string) returns (i: int)
    ensures -1 <= i < |envs|
    ensures forall j :: i < j < |envs| ==> k !in envs[j]
    ensures i >= 0 ==> k in envs[i] && k in Overlay(env, envs) && Overlay(env, envs)[k] == envs[i][k]
    ensures i < 0 ==> (k in Overlay(env, envs) <==> k in env)
    ensures i < 0 && k in env ==> Overlay(env, envs)[k] == env[k]
  {
    if envs == [] {
      i := -1;
    } else if k in envs[|envs| - 1] {
      i := |envs| - 1;
    } else {
      var init := envs[..|envs| - 1];
      i := OverlayLookup(env, init, k);
      assert forall j :: 0 <= j < |init| ==> init[j] == envs[j];
    }
  }

  /** The settings of the children whose pattern set matches `name`, in child order:
      as a file (`match_file`), or as a directory (the verdict of `match_dir`). */
  function MatchedEnvs(rules: seq<Child>, name: string, dir: bool): (r: seq<Env>)
    ensures |r| <= |rules|
  {
    if rules == [] then []
    else
      var c := rules[|rules| - 1];
      MatchedEnvs(rules[..|rules| - 1], name, dir) + (if Hits(c, name, dir) then [c.rules.env] else [])
  }

  /** Does the child's pattern set match `name`, as a directory or as a file? */
  predicate Hits(c: Child, name: string, dir: bool)
  {
    if dir then DirVerdict(c.patterns.entries, name) else FileVerdict(c.patterns.entries, name)
  }

  lemma MatchedStep(rules: seq<Child>, i: nat, name: string, dir: bool)
    requires i < |rules|
    ensures MatchedEnvs(rules[..i + 1], name, dir) ==
            MatchedEnvs(rules[..i], name, dir) + (if Hits(rules[i], name, dir) then [rules[i].rules.env] else [])
  {
    assert rules[..i + 1][..i] == rules[..i];
  }

  lemma OverlaySnoc(env: Env, envs: seq<Env>, e: Env)
    ensures Overlay(env, envs + [e]) == Overlay(env, envs) + e
  {
    assert (envs + [e])[..|envs|] == envs;
  }

  /** The environment `file_env` and `dir_rules` decide on: the start overlaid by the matching children. */
  function ResolvedEnv(rs: Rules, name: string, d: Dialect, dir: bool): Env
  {
    Overlay(StartEnv(rs, name, d), MatchedEnvs(rs.rules, name, dir))
  }

  /** What the `ignore` test sees: `env['ignore']` (present by construction) or its default `False`. */
  predicate Ignored(env: Env)
  {
    "ignore" in env && Truthy(env["ignore"])
  }

  /** `file_env`: the environment of a file, or `None` when it is ignored. */
  function FileEnv(rs: Rules, fname: string, d: Dialect): (r: Option<Env>)
    ensures r.Some? ==> !Ignored(r.value)
    ensures r.None? <==> Ignored(ResolvedEnv(rs, fname, d, false))
  {
    var env := ResolvedEnv(rs, fname, d, false);
    if Ignored(env) then None else Some(env)
  }

  /**
   * What `dir_rules` passes on for one child: its narrowed pattern set with
   * its node when that set is non-empty, then the node's own children when
   * the directory fully matches.
   */
  function Passed(c: Child, name: string): seq<Child>
  {
    var m := Descend(c.patterns, name);
    (if NonEmptySet(m.1) then [Child(m.1, c.rules)] else []) + (if m.0 then c.rules.rules else [])
  }

  /** The entries that `f` gives for each child, concatenated in child order. */
  function FlatMap(cs: seq<Child>, f: Child -> seq<Child>): seq<Child>
  {
    if cs == [] then [] else FlatMap(cs[..|cs| - 1], f) + f(cs[|cs| - 1])
  }

  lemma {:induction false} FlatMapSource(cs: seq<Child>, f: Child -> seq<Child>, x: Child) returns (i: nat)
    requires x in FlatMap(cs, f)
    ensures i < |cs| && x in f(cs[i])
  {
    var n := |cs| - 1;
    if x in f(cs[n]) {
      i := n;
    } else {
      i := FlatMapSource(cs[..n], f, x);
    }
  }

  lemma {:induction false} FlatMapFrom(cs: seq<Child>, f: Child -> seq<Child>, i: nat, x: Child)
    requires i < |cs| && x in f(cs[i])
    ensures x in FlatMap(cs, f)
  {
    var n := |cs| - 1;
    if i < n {
      assert cs[..n][i] == cs[i];
      FlatMapFrom(cs[..n], f, i, x);
    }
  }

  /** The children `dir_rules` passes on: what each child passes on, in child order. */
  function Kept(rules: seq<Child>, name: string): (r: seq<Child>)
  {
    FlatMap(rules, c => Passed(c, name))
  }

  lemma KeptStep(rules: seq<Child>, i: nat, name: string)
    requires i < |rules|
    ensures Kept(rules[..i + 1], name) == Kept(rules[..i], name) + Passed(rules[i], name)
  {
    assert rules[..i + 1][..i] == rules[..i];
  }

  /** `dir_rules`: the rules for a subdirectory, or `None` when it is ignored. */
  function DirRules(rs: Rules, name: string, d: Dialect): (r: Option<Rules>)
    ensures r.None? <==> Ignored(ResolvedEnv(rs, name, d, true))
    ensures r.Some? ==> r.value.rules == Kept(rs.rules, name)
    ensures r.Some? ==> r.value == MakeRules(d, ResolvedEnv(rs, name, d, true), Kept(rs.rules, name))
    ensures r.Some? ==> forall k :: k in ResolvedEnv(rs, name, d, true) ==>
              k in r.value.env && r.value.env[k] == ResolvedEnv(rs, name, d, true)[k]
  {
    var env := ResolvedEnv(rs, name, d, true);
    if Ignored(env) then None else Some(MakeRules(d, env, Kept(rs.rules, name)))
  }

  /** `Rules.file_env`. */
  method ResolveFileEnv(rs: Rules, fname: string, d: Dialect) returns (r: Option<Env>)
    ensures r == FileEnv(rs, fname, d)
  {
    var env := if d == Current then BaseEnv(rs.env, fname) else rs.env;
    ghost var start := env;
    assert start == StartEnv(rs, fname, d);
    var i := 0;
    while i < |rs.rules|
      invariant 0 <= i <= |rs.rules|
      invariant env == Overlay(start, MatchedEnvs(rs.rules[..i], fname, false))
    {
      var m := MatchFileSet(rs.rules[i].patterns, fname);
      env := OverlayStep(rs.rules, i, fname, false, start, env, m);
      i := i + 1;
    }
    assert rs.rules[..i] == rs.rules;
    if "ignore" in env && Truthy(env["ignore"]) {
      return None;
    }
    return Some(env);
  }

  /** The settings update in the loops of `file_env` and `dir_rules`, for the child at index `i`. */
  method OverlayStep(children: seq<Child>, i: nat, name: string, dir: bool, ghost start: Env, env: Env, hit: bool)
    returns (env': Env)
    requires i < |children|
    requires hit == Hits(children[i], name, dir)
    requires env == Overlay(start, MatchedEnvs(children[..i], name, dir))
    ensures env' == Overlay(start, MatchedEnvs(children[..i + 1], name, dir))
  {
    MatchedStep(children, i, name, dir);
    ghost var before := MatchedEnvs(children[..i], name, dir);
    if hit {
      OverlaySnoc(start, before, children[i].rules.env);
      env' := env + children[i].rules.env;
    } else {
      assert before + [] == before;
      env' := env;
    }
  }

  /** The update of the child list in the loop of `dir_rules`, for the child `c`. */
  method PassStep(c: Child, name: string, rules: seq<Child>, dirMatch: bool, sub: PatternSet)
    returns (rules': seq<Child>)
    requires dirMatch == Descend(c.patterns, name).0 && sub == Descend(c.patterns, name).1
    ensures rules' == rules + Passed(c, name)
  {
    var own := if sub.entries != [] then [Child(sub, c.rules)] else [];
    var spliced := if dirMatch then c.rules.rules else [];
    PassedIs(c, name, dirMatch, sub);
    rules' := rules + own;
    rules' := rules' + spliced;
    assert rules' == rules + (own + spliced);
  }

  lemma PassedIs(c: Child, name: string, dirMatch: bool, sub: PatternSet)
    requires dirMatch == Descend(c.patterns, name).0 && sub == Descend(c.patterns, name).1
    ensures Passed(c, name) ==
            (if sub.entries != [] then [Child(sub, c.rules)] else []) + (if dirMatch then c.rules.rules else [])
  {
  }

  /** `Rules.dir_rules`. */
  method ResolveDirRules(rs: Rules, name: string, d: Dialect) returns (r: Option<Rules>)
    ensures r == DirRules(rs, name, d)
  {
    var env := if d == Current then BaseEnv(rs.env, name) else rs.env;
    ghost var start := env;
    assert start == StartEnv(rs, name, d);
    var rules: seq<Child> := [];
    var i := 0;
    while i < |rs.rules|
      invariant 0 <= i <= |rs.rules|
      invariant env == Overlay(start, MatchedEnvs(rs.rules[..i], name, true))
      invariant rules == Kept(rs.rules[..i], name)
    {
      var c := rs.rules[i];
      var dirMatch, sub := MatchDirSet(c.patterns, name);
      env := OverlayStep(rs.rules, i, name, true, start, env, dirMatch);
      rules := PassStep(rs.rules[i], name, rules, dirMatch, sub);
      KeptStep(rs.rules, i, name);
      i := i + 1;
    }
    assert rs.rules[..i] == rs.rules;
    if "ignore" in env && Truthy(env["ignore"]) {
      return None;
    }
    return Some(MakeRules(d, env, rules));
  }

  /**
   * A setting seen by `file_env` or `dir_rules` comes from the last matching
   * child that sets it; when no matching child sets it, from the start
   * environment.
   */
  lemma {:induction false} ResolvedLastWins(start: Env, rules: seq<Child>, name: string, dir: bool, k: string)
    returns (i: int)
    ensures -1 <= i < |rules|
    ensures forall j :: i < j < |rules| && Hits(rules[j], name, dir) ==> k !in rules[j].rules.env
    ensures i >= 0 ==> var env := Overlay(start, MatchedEnvs(rules, name, dir));
              Hits(rules[i], name, dir) && k in rules[i].rules.env && k in env && env[k] == rules[i].rules.env[k]
    ensures i < 0 ==> var env := Overlay(start, MatchedEnvs(rules, name, dir));
              (k in env <==> k in start) && (k in start ==> env[k] == start[k])
  {
    if rules == [] {
      i := -1;
    } else {
      var n := |rules| - 1;
      var init, c := rules[..n], rules[n];
      assert rules[..n + 1] == rules;
      MatchedStep(rules, n, name, dir);
      var before := MatchedEnvs(init, name, dir);
      if Hits(c, name, dir) {
        OverlaySnoc(start, before, c.rules.env);
      } else {
        assert before + [] == before;
      }
      if Hits(c, name, dir) && k in c.rules.env {
        i := n;
      } else {
        i := ResolvedLastWins(start, init, name, dir, k);
        assert forall j :: 0 <= j < n ==> init[j] == rules[j];
      }
    }
  }

  /** `file_env` returns `None` exactly when the `ignore` it ends up with is true. */
  lemma FileEnvIgnore(rs: Rules, fname: string, d: Dialect) returns (i: int)
    requires d == Legacy ==> "ignore" in rs.env
    ensures -1 <= i < |rs.rules|
    ensures i >= 0 ==> FileVerdict(rs.rules[i].patterns.entries, fname) && "ignore" in rs.rules[i].rules.env &&
                       (FileEnv(rs, fname, d).None? <==> Truthy(rs.rules[i].rules.env["ignore"]))
    ensures i < 0 ==> (FileEnv(rs, fname, d).None? <==> Truthy(StartEnv(rs, fname, d)["ignore"]))
  {
    if d == Current {
      BaseEnvKeys(rs.env, fname, "ignore");
    }
    i := ResolvedLastWins(StartEnv(rs, fname, d), rs.rules, fname, false, "ignore");
  }

  /** Exactly what the children pass on is passed on: an entry of the list comes from one child. */
  lemma KeptSource(rules: seq<Child>, name: string, x: Child) returns (i: nat)
    requires x in Kept(rules, name)
    ensures i < |rules| && x in Passed(rules[i], name)
  {
    i := FlatMapSource(rules, c => Passed(c, name), x);
  }

  /** Everything a child passes on is in the list. */
  lemma KeptFrom(rules: seq<Child>, name: string, i: nat, x: Child)
    requires i < |rules| && x in Passed(rules[i], name)
    ensures x in Kept(rules, name)
  {
    FlatMapFrom(rules, c => Passed(c, name), i, x);
  }

  /**
   * A child passes on its narrowed pattern set, with its node, exactly when
   * that set is non-empty; and the node's children exactly when the
   * directory fully matches.
   */
  lemma PassedContents(c: Child, name: string, x: Child)
    ensures var m := Descend(c.patterns, name);
            x in Passed(c, name) <==>
              (NonEmptySet(m.1) && x == Child(m.1, c.rules)) || (m.0 && x in c.rules.rules)
  {
  }

  // =====================================================================
  // Union and the ignore-file rules

  /** `Rules.__nonzero__`: a node with a setting or a child. */
  predicate NonEmptyRules(r: Rules)
  {
    r.env != map[] || r.rules != []
  }

  /**
   * `Rules.union`: the right operand's settings win and the children are
   * concatenated. The current code returns the other operand when one is
   * empty; the legacy code always merges, through its default-filling
   * constructor.
   */
  function UnionRules(a: Rules, b: Rules, d: Dialect): (r: Rules)
    ensures d == Current && !NonEmptyRules(b) ==> r == a
    ensures d == Current && !NonEmptyRules(a) ==> r == b
  {
    if d == Current && !NonEmptyRules(b) then a
    else if d == Current && !NonEmptyRules(a) then b
    else MakeRules(d, a.env + b.env, a.rules + b.rules)
  }

  /**
   * The shortcut for an empty operand is invisible: the settings of a union
   * are those of the right operand, then of the left one, and its children
   * are the left ones followed by the right ones.
   */
  lemma UnionMerges(a: Rules, b: Rules, k: string)
    ensures UnionRules(a, b, Current).rules == a.rules + b.rules
    ensures k in UnionRules(a, b, Current).env <==> k in a.env || k in b.env
    ensures k in b.env ==> UnionRules(a, b, Current).env[k] == b.env[k]
    ensures k !in b.env && k in a.env ==> UnionRules(a, b, Current).env[k] == a.env[k]
  {
    if !NonEmptyRules(b) {
      assert a.rules + b.rules == a.rules;
    } else if !NonEmptyRules(a) {
      assert a.rules + b.rules == b.rules;
    }
  }

  /** Combining the ignore files and rule files of nested directories does not depend on grouping. */
  lemma UnionAssociates(a: Rules, b: Rules, c: Rules)
    ensures UnionRules(UnionRules(a, b, Current), c, Current) == UnionRules(a, UnionRules(b, c, Current), Current)
  {
    if NonEmptyRules(a) && NonEmptyRules(b) && NonEmptyRules(c) {
      assert a.rules + b.rules + c.rules == a.rules + (b.rules + c.rules);
      assert a.env + b.env + c.env == a.env + (b.env + c.env);
    }
  }

  /** A legacy node always holds the defaults, so it is never empty. */
  lemma LegacyNeverEmpty(env: Env, rules: seq<Child>)
    ensures NonEmptyRules(MakeRules(Legacy, env, rules))
  {
    assert "ignore" in MakeRules(Legacy, env, rules).env;
  }

  /**
   * In the legacy union the right operand always carries every default, so
   * its defaults replace the left operand's own values for those keys.
   */
  lemma LegacyUnionDefaults(a: Rules, b: Rules)
    requires forall k :: k in LegacyDefaultEnv ==> k in b.env
    ensures forall k :: k in LegacyDefaultEnv ==> UnionRules(a, b, Legacy).env[k] == b.env[k]
    ensures UnionRules(a, b, Legacy).rules == a.rules + b.rules
  {
  }

  /** The node whose only settings are `ignore = true`. */
  const IgnoreNode: Rules := Rules(map["ignore" := Bool(true)], [])

  /** `Rules.read_gitignore`: one child that ignores what the ignore file's patterns match. */
  function ReadGitignore(lines: seq<string>): Rules
  {
    Rules(map[], [Child(ReadSet(lines), IgnoreNode)])
  }

  /** Under the rules of an ignore file, a file is ignored exactly when the file's patterns match it. */
  lemma GitignoreFile(lines: seq<string>, fname: string)
    ensures FileEnv(ReadGitignore(lines), fname, Current).None? <==> FileVerdict(ReadSet(lines).entries, fname)
  {
    GitignoreResolved(lines, fname, false);
  }

  /** Under the rules of an ignore file, a directory is ignored exactly when the file's patterns match it. */
  lemma GitignoreDir(lines: seq<string>, name: string)
    ensures DirRules(ReadGitignore(lines), name, Current).None? <==> DirVerdict(ReadSet(lines).entries, name)
  {
    GitignoreResolved(lines, name, true);
  }

  lemma GitignoreResolved(lines: seq<string>, name: string, dir: bool)
    ensures Ignored(ResolvedEnv(ReadGitignore(lines), name, Current, dir)) <==> Hits(ReadGitignore(lines).rules[0], name, dir)
  {
    IgnoreSetResolved(ReadSet(lines), name, dir);
  }

  lemma IgnoreSetResolved(ps: PatternSet, name: string, dir: bool)
    ensures var g := Rules(map[], [Child(ps, IgnoreNode)]);
            Ignored(ResolvedEnv(g, name, Current, dir)) <==> Hits(g.rules[0], name, dir)
  {
    var g := Rules(map[], [Child(ps, IgnoreNode)]);
    var start := BaseEnv(map[], name);
    BaseEnvKeys(map[], name, "ignore");
    IgnoreSetMatched(ps, name, dir);
    if Hits(g.rules[0], name, dir) {
      OverlaySnoc(start, [], IgnoreNode.env);
    }
  }

  lemma IgnoreSetMatched(ps: PatternSet, name: string, dir: bool)
    ensures var g := Rules(map[], [Child(ps, IgnoreNode)]);
            MatchedEnvs(g.rules, name, dir) == if Hits(g.rules[0], name, dir) then [IgnoreNode.env] else []
  {
    var g := Rules(map[], [Child(ps, IgnoreNode)]);
    MatchedStep(g.rules, 0, name, dir);
    assert g.rules[..1] == g.rules;
  }

  // =====================================================================
  // The variable table and the defaults

  /** As written, `ENV_TYPES` rejects a setting of a variable that `DEFAULT_ENV` defaults. */
  lemma CopyrightNoticeUnknown()
    ensures "copyright_notice" in DefaultEnv
    ensures ParseVarIn(EnvTypesAsWritten, "copyright_notice", Some("x")).Err?
  {
    var name := "copyright_notice";
    forall k | 0 <= k < |EnvTypesAsWritten|
      ensures EnvTypesAsWritten[k].0 != name
    {
      assert |EnvTypesAsWritten[k].0| < |name|;
    }
  }

  /** With the completed table, a rule file can set each of the three variables. */
  lemma ExtraVariablesSettable(x: string)
    ensures ParseVar("guard_prefix", Some(x)) == Ok(Str(x))
    ensures ParseVar("copyright_notice", Some(x)) == Ok(Str(x))
    ensures ParseVar("fix_copyright", Some(x)).Ok? <==> x == "true" || x == "false"
  {
    TypeOfAt(EnvTypes, 7);
    TypeOfAt(EnvTypes, 8);
    TypeOfAt(EnvTypes, 9);
  }
}
