/**
 * Glob: the single-segment matcher the pattern code delegates to
 * (`fnmatch.fnmatch(name, segment)` on a POSIX system, which is case
 * sensitive). `*` matches any run of characters, `?` any one character,
 * every other character itself. Bracket classes `[...]` are not modelled:
 * a `[` is an ordinary character here.
 */
module Glob {
  import opened Text

  predicate IsWildcard(c: char)
  {
    c == '*' || c == '?'
  }

  /** A segment with no wildcard characters. */
  predicate IsLiteral(seg: string)
  {
    forall i :: 0 <= i < |seg| ==> !IsWildcard(seg[i])
  }

  /** Does `name` match the glob segment `seg`? */
  predicate GlobMatch(name: string, seg: string)
    decreases |name| + |seg|
  {
    if seg == [] then name == []
    else if seg[0] == '*' then GlobMatch(name, seg[1..]) || (name != [] && GlobMatch(name[1..], seg))
    else name != [] && (seg[0] == '?' || seg[0] == name[0]) && GlobMatch(name[1..], seg[1..])
  }

  /** A segment without wildcards matches exactly the name spelled the same way. */
  lemma {:induction false} LiteralMatch(name: string, seg: string)
    requires IsLiteral(seg)
    ensures GlobMatch(name, seg) <==> name == seg
    decreases |seg|
  {
    if seg != [] && name != [] {
      LiteralMatch(name[1..], seg[1..]);
      if name[0] == seg[0] && name[1..] == seg[1..] {
        assert name == [name[0]] + name[1..] && seg == [seg[0]] + seg[1..];
      }
    }
  }

  /** `*` alone matches every name. */
  lemma {:induction false} StarMatchesAll(name: string)
    ensures GlobMatch(name, "*")
    decreases |name|
  {
    if name != [] {
      StarMatchesAll(name[1..]);
    }
  }

  /** `*` followed by a literal suffix matches exactly the names ending in that suffix. */
  lemma {:induction false} StarSuffixMatch(name: string, suffix: string)
    requires IsLiteral(suffix)
    ensures GlobMatch(name, "*" + suffix) <==> EndsWith(name, suffix)
    decreases |name|
  {
    var seg := "*" + suffix;
    assert seg[0] == '*' && seg[1..] == suffix;
    LiteralMatch(name, suffix);
    if name != [] {
      StarSuffixMatch(name[1..], suffix);
      if |suffix| <= |name[1..]| {
        assert name[1..][|name[1..]| - |suffix|..] == name[|name| - |suffix|..];
      }
    }
  }
}
