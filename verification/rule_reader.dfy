/**
 * What `Rules.read` and `Rules._read_group` of lib/header/rule.py do with
 * the line each token comes from: the end of the file, a brace line, a
 * pattern line, and a group that is never closed.
 */
module RuleReader {
  import opened Text
  import opened Pattern
  import opened Environ
  import opened Rule

  /** With only blank and `#` lines left, `Lexer.next` reports the end of the file. */
  lemma EndToken(lines: seq<string>, i: nat, d: Dialect)
    requires i <= |lines| && FirstSignificant(lines, i) == |lines|
    ensures NextToken(lines, i, d) == (Parsed(None), |lines|)
  {
    NextTokenFirst(lines, i, d);
  }

  /** A line that is just `{` yields the `{` token. */
  lemma OpenToken(lines: seq<string>, i: nat, d: Dialect)
    requires i <= |lines|
    requires var j := FirstSignificant(lines, i); j < |lines| && Fields(Strip(lines[j])) == ["{"]
    ensures NextToken(lines, i, d) == (Parsed(Some(Open)), FirstSignificant(lines, i) + 1)
  {
    NextTokenFirst(lines, i, d);
    LineTokenOpen(lines, FirstSignificant(lines, i), d);
  }

  /** A line that is just `}` yields the `}` token. */
  lemma CloseToken(lines: seq<string>, i: nat, d: Dialect)
    requires i <= |lines|
    requires var j := FirstSignificant(lines, i); j < |lines| && Fields(Strip(lines[j])) == ["}"]
    ensures NextToken(lines, i, d) == (Parsed(Some(Close)), FirstSignificant(lines, i) + 1)
  {
    NextTokenFirst(lines, i, d);
    LineTokenClose(lines, FirstSignificant(lines, i), d);
  }

  /** A pattern line yields its pattern, positive for `+`. */
  lemma PatternToken(lines: seq<string>, i: nat, d: Dialect)
    requires i <= |lines|
    requires var j := FirstSignificant(lines, i); j < |lines| && PatternLine(Fields(Strip(lines[j])))
    ensures var j := FirstSignificant(lines, i);
            var f := Fields(Strip(lines[j]));
            && f[1] != ""
            && NextToken(lines, i, d) == (Parsed(Some(Pat(f[0] == "+", PatternOf(f[1])))), j + 1)
  {
    NextTokenFirst(lines, i, d);
    var j := FirstSignificant(lines, i);
    LineTokenPattern(lines, j, d);
  }

  /** A line `name = value` whose value opens no heredoc yields the setting `parse_var` reads. */
  lemma SettingToken(lines: seq<string>, i: nat, d: Dialect)
    requires i <= |lines|
    requires var j := FirstSignificant(lines, i); j < |lines| && ValueLine(Fields(Strip(lines[j])), d)
    ensures var j := FirstSignificant(lines, i);
            var f := Fields(Strip(lines[j]));
            NextToken(lines, i, d) == (Parsed(Some(Set(f[0], ParseVar(f[0], Some(f[2])).value))), j + 1)
  {
    NextTokenFirst(lines, i, d);
    LineTokenSetting(lines, FirstSignificant(lines, i), d);
  }

  /** No `}` token comes from lines none of which is a closing brace. */
  lemma NotCloseToken(lines: seq<string>, i: nat, d: Dialect)
    requires i <= |lines| && NoClose(lines, i)
    ensures NextToken(lines, i, d).0 != Parsed(Some(Close))
  {
    NextTokenFirst(lines, i, d);
    var j := FirstSignificant(lines, i);
    if j < |lines| {
      LineTokenNotClose(lines, j, d);
    }
  }

  /** No line from `i` on is a closing brace. */
  predicate NoClose(lines: seq<string>, i: nat)
  {
    forall k :: i <= k < |lines| ==> Fields(Strip(lines[k])) != ["}"]
  }

  /** Inside a group, the end of the file is `missing brace`. */
  lemma GroupItemsEnd(lines: seq<string>, i: nat, d: Dialect, env: Env, rules: seq<Child>, patterns: seq<Entry>)
    requires 0 < i <= |lines| && FirstSignificant(lines, i) == |lines|
    ensures GroupItems(lines, i, d, env, rules, patterns) == (Failed(|lines|, "missing brace"), |lines|)
  {
    EndToken(lines, i, d);
  }

  /** A `}` line closes the group with the patterns, settings and children gathered. */
  lemma GroupItemsClose(lines: seq<string>, i: nat, d: Dialect, env: Env, rules: seq<Child>, patterns: seq<Entry>)
    requires 0 < i <= |lines|
    requires var j := FirstSignificant(lines, i); j < |lines| && Fields(Strip(lines[j])) == ["}"]
    ensures GroupItems(lines, i, d, env, rules, patterns)
              == (Parsed(Child(PatternSet(Normalize(patterns)), MakeRules(d, env, rules))), FirstSignificant(lines, i) + 1)
  {
    CloseToken(lines, i, d);
  }

  /** A pattern line adds its pattern to the group's list and reading goes on at the next line. */
  lemma GroupItemsPattern(lines: seq<string>, i: nat, d: Dialect, env: Env, rules: seq<Child>, patterns: seq<Entry>)
    requires 0 < i <= |lines|
    requires var j := FirstSignificant(lines, i); j < |lines| && PatternLine(Fields(Strip(lines[j])))
    ensures var j := FirstSignificant(lines, i);
            var f := Fields(Strip(lines[j]));
            && f[1] != ""
            && GroupItems(lines, i, d, env, rules, patterns)
                 == GroupItems(lines, j + 1, d, env, rules, patterns + [Entry(f[0] == "+", PatternOf(f[1]))])
  {
    PatternToken(lines, i, d);
    var j := FirstSignificant(lines, i);
    var f := Fields(Strip(lines[j]));
    assert NextToken(lines, i, d).1 == j + 1;
    GroupItemsOnPattern(lines, i, d, env, rules, patterns, f[0] == "+", PatternOf(f[1]));
  }

  /** After a pattern token the group reads on with that pattern added. */
  lemma GroupItemsOnPattern(lines: seq<string>, i: nat, d: Dialect, env: Env, rules: seq<Child>, patterns: seq<Entry>,
                            positive: bool, p: ValidPattern)
    requires 0 < i <= |lines| && NextToken(lines, i, d).0 == Parsed(Some(Pat(positive, p)))
    ensures GroupItems(lines, i, d, env, rules, patterns)
              == GroupItems(lines, NextToken(lines, i, d).1, d, env, rules, patterns + [Entry(positive, p)])
  {
  }

  /** After a `SET` token the group reads on with that setting made, replacing any earlier value of the name. */
  lemma GroupItemsOnSet(lines: seq<string>, i: nat, d: Dialect, env: Env, rules: seq<Child>, patterns: seq<Entry>,
                        name: string, v: Value, k: nat)
    requires 0 < i <= |lines| && NextToken(lines, i, d) == (Parsed(Some(Set(name, v))), k)
    ensures GroupItems(lines, i, d, env, rules, patterns) == GroupItems(lines, k, d, env[name := v], rules, patterns)
  {
  }

  /** After a `{` token whose group reads as `c`, the group reads on after it with `c` appended to its children. */
  lemma GroupItemsOnOpen(lines: seq<string>, i: nat, d: Dialect, env: Env, rules: seq<Child>, patterns: seq<Entry>,
                         c: Child)
    requires 0 < i <= |lines| && NextToken(lines, i, d).0 == Parsed(Some(Open))
    requires ReadGroup(lines, NextToken(lines, i, d).1, d).0 == Parsed(c)
    ensures GroupItems(lines, i, d, env, rules, patterns)
              == GroupItems(lines, ReadGroup(lines, NextToken(lines, i, d).1, d).1, d, env, rules + [c], patterns)
  {
  }

  /** A line `name = value` inside a group makes that setting and the group reads on from the next line. */
  lemma GroupItemsSetting(lines: seq<string>, i: nat, d: Dialect, env: Env, rules: seq<Child>, patterns: seq<Entry>)
    requires 0 < i <= |lines|
    requires var j := FirstSignificant(lines, i); j < |lines| && ValueLine(Fields(Strip(lines[j])), d)
    ensures var j := FirstSignificant(lines, i);
            var f := Fields(Strip(lines[j]));
            GroupItems(lines, i, d, env, rules, patterns)
              == GroupItems(lines, j + 1, d, env[f[0] := ParseVar(f[0], Some(f[2])).value], rules, patterns)
  {
    SettingToken(lines, i, d);
    var j := FirstSignificant(lines, i);
    var f := Fields(Strip(lines[j]));
    var v := ParseVar(f[0], Some(f[2])).value;
    GroupItemsOnSet(lines, i, d, env, rules, patterns, f[0], v, j + 1);
  }

  /** A group that reads successfully keeps, in order, the children and the setting names gathered before. */
  lemma {:induction false} GroupItemsKeeps(lines: seq<string>, i: nat, d: Dialect,
                                           env: Env, rules: seq<Child>, patterns: seq<Entry>)
    requires 0 < i <= |lines|
    ensures var r := GroupItems(lines, i, d, env, rules, patterns);
            r.0.Parsed? ==>
              && |rules| <= |r.0.value.rules.rules| && r.0.value.rules.rules[..|rules|] == rules
              && forall k :: k in env ==> k in r.0.value.rules.env
    decreases |lines| - i
  {
    var t := NextToken(lines, i, d);
    if t.0.Parsed? && t.0.value.Some? {
      match t.0.value.value {
        case Open =>
          var g := ReadGroup(lines, t.1, d);
          if g.0.Parsed? {
            GroupItemsKeeps(lines, g.1, d, env, rules + [g.0.value], patterns);
            var r := GroupItems(lines, g.1, d, env, rules + [g.0.value], patterns);
            assert r.0.Parsed? ==> r.0.value.rules.rules[..|rules|] == (rules + [g.0.value])[..|rules|];
          }
        case Close =>
        case Pat(positive, p) =>
          GroupItemsKeeps(lines, t.1, d, env, rules, patterns + [Entry(positive, p)]);
        case Set(name, v) =>
          GroupItemsKeeps(lines, t.1, d, env[name := v], rules, patterns);
      }
    }
  }

  /** A group none of whose remaining lines is a closing brace never reads successfully. */
  lemma {:induction false} UnclosedGroupFails(lines: seq<string>, i: nat, d: Dialect,
                                              env: Env, rules: seq<Child>, patterns: seq<Entry>)
    requires 0 < i <= |lines| && NoClose(lines, i)
    ensures GroupItems(lines, i, d, env, rules, patterns).0.Failed?
    decreases |lines| - i
  {
    NotCloseToken(lines, i, d);
    var t := NextToken(lines, i, d);
    if t.0.Parsed? && t.0.value.Some? {
      match t.0.value.value {
        case Open =>
          UnclosedGroupFails(lines, t.1, d, map[], [], []);
        case Close =>
        case Pat(positive, p) =>
          UnclosedGroupFails(lines, t.1, d, env, rules, patterns + [Entry(positive, p)]);
        case Set(name, v) =>
          UnclosedGroupFails(lines, t.1, d, env[name := v], rules, patterns);
      }
    }
  }

  /** `_read_group` reaching the end of the file is `missing brace`. */
  lemma ReadGroupEnd(lines: seq<string>, i: nat, d: Dialect)
    requires 0 < i <= |lines| && FirstSignificant(lines, i) == |lines|
    ensures ReadGroup(lines, i, d) == (Failed(|lines|, "missing brace"), |lines|)
  {
    GroupItemsEnd(lines, i, d, map[], [], []);
  }

  /** `_read_group` meeting `}` first gives an empty group. */
  lemma ReadGroupEmpty(lines: seq<string>, i: nat, d: Dialect)
    requires 0 < i <= |lines|
    requires var j := FirstSignificant(lines, i); j < |lines| && Fields(Strip(lines[j])) == ["}"]
    ensures ReadGroup(lines, i, d) == (Parsed(Child(PatternSet([]), MakeRules(d, map[], []))), FirstSignificant(lines, i) + 1)
  {
    GroupItemsClose(lines, i, d, map[], [], []);
  }

  /** At the top level the end of the file ends the reading with what was gathered. */
  lemma ReadTopEnd(lines: seq<string>, i: nat, d: Dialect, env: Env, rules: seq<Child>)
    requires i <= |lines| && FirstSignificant(lines, i) == |lines|
    ensures ReadTop(lines, i, d, env, rules) == Parsed(MakeRules(d, env, rules))
  {
    EndToken(lines, i, d);
  }

  /** At the top level a `}` line is `extra brace`, at that line. */
  lemma ReadTopExtraBrace(lines: seq<string>, i: nat, d: Dialect, env: Env, rules: seq<Child>)
    requires i <= |lines|
    requires var j := FirstSignificant(lines, i); j < |lines| && Fields(Strip(lines[j])) == ["}"]
    ensures ReadTop(lines, i, d, env, rules) == Failed(FirstSignificant(lines, i) + 1, "extra brace")
  {
    CloseToken(lines, i, d);
  }

  /** At the top level a pattern line is `unexpected pattern`, at that line. */
  lemma ReadTopUnexpectedPattern(lines: seq<string>, i: nat, d: Dialect, env: Env, rules: seq<Child>)
    requires i <= |lines|
    requires var j := FirstSignificant(lines, i); j < |lines| && PatternLine(Fields(Strip(lines[j])))
    ensures ReadTop(lines, i, d, env, rules) == Failed(FirstSignificant(lines, i) + 1, "unexpected pattern")
  {
    PatternToken(lines, i, d);
  }

  /** A group that fails to read makes the top level fail. */
  lemma ReadTopGroupFails(lines: seq<string>, i: nat, d: Dialect, env: Env, rules: seq<Child>)
    requires i <= |lines|
    requires var t := NextToken(lines, i, d);
             t.0 == Parsed(Some(Open)) && ReadGroup(lines, t.1, d).0.Failed?
    ensures ReadTop(lines, i, d, env, rules).Failed?
  {
  }

  /** After a `SET` token the top level reads on with that setting made, replacing any earlier value of the name. */
  lemma ReadTopOnSet(lines: seq<string>, i: nat, d: Dialect, env: Env, rules: seq<Child>, name: string, v: Value, k: nat)
    requires i <= |lines| && NextToken(lines, i, d) == (Parsed(Some(Set(name, v))), k)
    ensures ReadTop(lines, i, d, env, rules) == ReadTop(lines, k, d, env[name := v], rules)
  {
  }

  /** After a `{` token whose group reads as `c`, the top level reads on after it with `c` appended to its children. */
  lemma ReadTopOnOpen(lines: seq<string>, i: nat, d: Dialect, env: Env, rules: seq<Child>, c: Child)
    requires i <= |lines| && NextToken(lines, i, d).0 == Parsed(Some(Open))
    requires ReadGroup(lines, NextToken(lines, i, d).1, d).0 == Parsed(c)
    ensures ReadTop(lines, i, d, env, rules)
              == ReadTop(lines, ReadGroup(lines, NextToken(lines, i, d).1, d).1, d, env, rules + [c])
  {
  }

  /** A top-level line `name = value` makes that setting and the reading goes on from the next line. */
  lemma ReadTopSetting(lines: seq<string>, i: nat, d: Dialect, env: Env, rules: seq<Child>)
    requires i <= |lines|
    requires var j := FirstSignificant(lines, i); j < |lines| && ValueLine(Fields(Strip(lines[j])), d)
    ensures var j := FirstSignificant(lines, i);
            var f := Fields(Strip(lines[j]));
            ReadTop(lines, i, d, env, rules)
              == ReadTop(lines, j + 1, d, env[f[0] := ParseVar(f[0], Some(f[2])).value], rules)
  {
    SettingToken(lines, i, d);
    var j := FirstSignificant(lines, i);
    var f := Fields(Strip(lines[j]));
    var v := ParseVar(f[0], Some(f[2])).value;
    ReadTopOnSet(lines, i, d, env, rules, f[0], v, j + 1);
  }

  /** A `SET` token followed by the end of the file gives the node of the settings gathered with that setting made. */
  lemma ReadTopSetThenEnd(lines: seq<string>, i: nat, d: Dialect, env: Env, rules: seq<Child>, name: string, v: Value, k: nat)
    requires i <= |lines| && NextToken(lines, i, d) == (Parsed(Some(Set(name, v))), k)
    requires k <= |lines| && NextToken(lines, k, d) == (Parsed(None), |lines|)
    ensures ReadTop(lines, i, d, env, rules) == Parsed(MakeRules(d, env[name := v], rules))
  {
    ReadTopOnSet(lines, i, d, env, rules, name, v, k);
  }

  /** A last significant line `name = value` gives the node of the settings gathered with that value for `name`. */
  lemma ReadTopLastSetting(lines: seq<string>, i: nat, d: Dialect, env: Env, rules: seq<Child>)
    requires i <= |lines|
    requires var j := FirstSignificant(lines, i);
             j < |lines| && ValueLine(Fields(Strip(lines[j])), d) && FirstSignificant(lines, j + 1) == |lines|
    ensures var f := Fields(Strip(lines[FirstSignificant(lines, i)]));
            ReadTop(lines, i, d, env, rules) == Parsed(MakeRules(d, env[f[0] := ParseVar(f[0], Some(f[2])).value], rules))
  {
    var j := FirstSignificant(lines, i);
    var f := Fields(Strip(lines[j]));
    SettingToken(lines, i, d);
    EndToken(lines, j + 1, d);
    ReadTopSetThenEnd(lines, i, d, env, rules, f[0], ParseVar(f[0], Some(f[2])).value, j + 1);
  }

  /** A successful read keeps, in order, the children and the setting names gathered before. */
  lemma {:induction false} ReadTopKeeps(lines: seq<string>, i: nat, d: Dialect, env: Env, rules: seq<Child>)
    requires i <= |lines|
    ensures var r := ReadTop(lines, i, d, env, rules);
            r.Parsed? ==>
              && |rules| <= |r.value.rules| && r.value.rules[..|rules|] == rules
              && forall k :: k in env ==> k in r.value.env
    decreases |lines| - i
  {
    var t := NextToken(lines, i, d);
    if t.0.Parsed? && t.0.value.Some? {
      match t.0.value.value {
        case Open =>
          var g := ReadGroup(lines, t.1, d);
          if g.0.Parsed? {
            ReadTopKeeps(lines, g.1, d, env, rules + [g.0.value]);
            var r := ReadTop(lines, g.1, d, env, rules + [g.0.value]);
            assert r.Parsed? ==> r.value.rules[..|rules|] == (rules + [g.0.value])[..|rules|];
          }
        case Close =>
        case Pat(_, _) =>
        case Set(name, v) =>
          ReadTopKeeps(lines, t.1, d, env[name := v], rules);
      }
    }
  }

  /** `Rules.read` of a file with nothing but blank and `#` lines gives the empty node. */
  lemma ReadRulesEmpty(lines: seq<string>, d: Dialect)
    requires FirstSignificant(lines, 0) == |lines|
    ensures ReadRules(lines, d) == Parsed(MakeRules(d, map[], []))
  {
    ReadTopEnd(lines, 0, d, map[], []);
  }

  /** A group opened at the top level and never closed by a `}` line makes the reading fail. */
  lemma ReadTopUnclosed(lines: seq<string>, i: nat, d: Dialect, env: Env, rules: seq<Child>)
    requires i <= |lines|
    requires var j := FirstSignificant(lines, i);
             j < |lines| && Fields(Strip(lines[j])) == ["{"] && NoClose(lines, j + 1)
    ensures ReadTop(lines, i, d, env, rules).Failed?
  {
    OpenToken(lines, i, d);
    UnclosedGroupFails(lines, FirstSignificant(lines, i) + 1, d, map[], [], []);
    ReadTopGroupFails(lines, i, d, env, rules);
  }
}
