/**
 * Legacy: the pattern filter of the single-file tool `header.py`.
 *
 * A filter is a list of `(neg, dironly, pattern)` triples. A pattern with
 * a `/` is absolute (`AbsPattern`): its parts are matched one directory at
 * a time from the top. Any other pattern is relative (`RelPattern`) and
 * may match at any depth. Unlike the rule engine, the verdict here is
 * "keep": a plain pattern that matches drops a path, and a `!` pattern
 * that matches keeps it.
 */
module Legacy {
  import opened Text
  import opened Glob
  import opened Pattern

  datatype LegacyPattern = Abs(parts: seq<string>) | Rel(pat: string)

  /**
   * What `matchdir` of one pattern returns: a boolean verdict, the pattern
   * to carry into the subdirectory, or the `IndexError` that `AbsPattern`
   * with no parts raises.
   */
  datatype DirStep = Verdict(full: bool) | Carry(rest: LegacyPattern) | Raises

  /** An absolute pattern with no parts, which only a pattern made of slashes produces. */
  predicate Broken(p: LegacyPattern)
  {
    p.Abs? && p.parts == []
  }

  /** `AbsPattern.matchdir` and `RelPattern.matchdir`. */
  function PatternDir(p: LegacyPattern, name: string): (r: DirStep)
    ensures r.Raises? <==> Broken(p)
    ensures r.Carry? && p.Abs? ==> r.rest.Abs? && |r.rest.parts| == |p.parts| - 1 > 0
  {
    match p
    case Abs(parts) =>
      if parts == [] then Raises
      else if !GlobMatch(name, parts[0]) then Verdict(false)
      else if |parts| == 1 then Verdict(true)
      else Carry(Abs(parts[1..]))
    case Rel(pat) =>
      if !GlobMatch(name, pat) then Carry(p) else Verdict(true)
  }

  /** `AbsPattern.matchfile` and `RelPattern.matchfile`. */
  predicate PatternFile(p: LegacyPattern, name: string)
  {
    match p
    case Abs(parts) => |parts| == 1 && GlobMatch(name, parts[0])
    case Rel(pat) => GlobMatch(name, pat)
  }

  /** `str(pattern)`. */
  function ShowPattern(p: LegacyPattern): string
  {
    match p
    case Abs(parts) => "/" + Join("/", parts)
    case Rel(pat) => pat
  }

  // ---------------------------------------------------------------------
  // Following one pattern down a path

  /**
   * The outcome of `matchdir` applied along the directories `names`, the
   * way the recursive walk applies it: it stops at the first verdict.
   */
  function DirPath(p: LegacyPattern, names: seq<string>): DirStep
    decreases |names|
  {
    if names == [] then Carry(p)
    else
      match PatternDir(p, names[0])
      case Carry(q) => DirPath(q, names[1..])
      case other => other
  }

  /**
   * An absolute pattern fully matches a path exactly when the path has at
   * least as many directories and each part matches the directory at its
   * depth; the verdict comes at the depth of the last part.
   */
  lemma {:induction false} AbsPath(parts: seq<string>, names: seq<string>)
    requires parts != []
    ensures DirPath(Abs(parts), names) == Verdict(true) <==>
            |parts| <= |names| && forall i :: 0 <= i < |parts| ==> GlobMatch(names[i], parts[i])
    decreases |names|
  {
    if names != [] && GlobMatch(names[0], parts[0]) && |parts| > 1 {
      AbsPath(parts[1..], names[1..]);
      assert forall i :: 1 <= i < |parts| ==> parts[1..][i - 1] == parts[i];
      assert forall i :: 1 <= i < |names| ==> names[1..][i - 1] == names[i];
    }
  }

  /** A relative pattern is carried unchanged until some directory matches it, and then fully matches. */
  lemma {:induction false} RelPath(pat: string, names: seq<string>)
    ensures (exists i :: 0 <= i < |names| && GlobMatch(names[i], pat)) ==> DirPath(Rel(pat), names) == Verdict(true)
    ensures (forall i :: 0 <= i < |names| ==> !GlobMatch(names[i], pat)) ==> DirPath(Rel(pat), names) == Carry(Rel(pat))
    decreases |names|
  {
    if names != [] && !GlobMatch(names[0], pat) {
      RelPath(pat, names[1..]);
      assert forall i :: 1 <= i < |names| ==> names[1..][i - 1] == names[i];
      if exists i :: 0 <= i < |names| && GlobMatch(names[i], pat) {
        var i :| 0 <= i < |names| && GlobMatch(names[i], pat);
        assert names[1..][i - 1] == names[i];
      }
    }
  }

  // ---------------------------------------------------------------------
  // Pattern sets

  datatype LegacyEntry = LegacyEntry(neg: bool, dironly: bool, pat: LegacyPattern)

  datatype LegacySet = LegacySet(pats: seq<LegacyEntry>)

  /** What `PatternSet.matchdir` returns: `False`, a narrowed set, or the exception of a broken pattern. */
  datatype SetDir = Skip | Enter(sub: LegacySet) | SetRaises

  predicate AnyBroken(es: seq<LegacyEntry>)
  {
    exists i :: 0 <= i < |es| && Broken(es[i].pat)
  }

  /** The `result` of the `matchdir` loop: the `neg` of the last fully matching pattern, `True` if none. */
  function KeepDir(es: seq<LegacyEntry>, name: string): bool
  {
    if es == [] then true
    else
      var e := es[|es| - 1];
      if PatternDir(e.pat, name) == Verdict(true) then e.neg else KeepDir(es[..|es| - 1], name)
  }

  /** What one entry contributes to the narrowed set. */
  function CarryEntry(e: LegacyEntry, name: string): seq<LegacyEntry>
  {
    match PatternDir(e.pat, name)
    case Carry(q) => [LegacyEntry(e.neg, e.dironly, q)]
    case _ => []
  }

  /** The `pats` list of the `matchdir` loop: every carried pattern, in the original order. */
  function Narrowed(es: seq<LegacyEntry>, name: string): seq<LegacyEntry>
  {
    if es == [] then [] else Narrowed(es[..|es| - 1], name) + CarryEntry(es[|es| - 1], name)
  }

  function SetMatchDir(ps: LegacySet, name: string): SetDir
  {
    if AnyBroken(ps.pats) then SetRaises
    else if !KeepDir(ps.pats, name) then Skip
    else Enter(LegacySet(Narrowed(ps.pats, name)))
  }

  /** The `result` of the `matchfile` loop: the `neg` of the last matching pattern that is not directory-only. */
  function KeepFile(es: seq<LegacyEntry>, name: string): bool
  {
    if es == [] then true
    else
      var e := es[|es| - 1];
      if !e.dironly && PatternFile(e.pat, name) then e.neg else KeepFile(es[..|es| - 1], name)
  }

  /** `PatternSet.matchdir`. */
  method MatchDir(ps: LegacySet, name: string) returns (r: SetDir)
    ensures r == SetMatchDir(ps, name)
  {
    var es := ps.pats;
    var pats: seq<LegacyEntry> := [];
    var result := true;
    var i := 0;
    while i < |es|
      invariant 0 <= i <= |es|
      invariant !AnyBroken(es[..i])
      invariant pats == Narrowed(es[..i], name) && result == KeepDir(es[..i], name)
    {
      var e := es[i];
      var step := PatternDir(e.pat, name);
      if step.Raises? {
        assert Broken(es[i].pat);
        return SetRaises;
      }
      DirPrefixStep(es, i, name);
      match step {
        case Verdict(full) =>
          if full {
            result := e.neg;
          }
        case Carry(q) =>
          pats := pats + [LegacyEntry(e.neg, e.dironly, q)];
      }
      i := i + 1;
    }
    assert es[..i] == es;
    if !result {
      return Skip;
    }
    return Enter(LegacySet(pats));
  }

  lemma DirPrefixStep(es: seq<LegacyEntry>, i: nat, name: string)
    requires i < |es| && !AnyBroken(es[..i]) && !Broken(es[i].pat)
    ensures !AnyBroken(es[..i + 1])
    ensures Narrowed(es[..i + 1], name) == Narrowed(es[..i], name) + CarryEntry(es[i], name)
    ensures KeepDir(es[..i + 1], name) == if PatternDir(es[i].pat, name) == Verdict(true) then es[i].neg else KeepDir(es[..i], name)
  {
    assert es[..i + 1][..i] == es[..i];
    assert forall k :: 0 <= k <= i ==> es[..i + 1][k] == es[k];
  }

  /** `PatternSet.matchfile`. */
  method MatchFile(ps: LegacySet, name: string) returns (result: bool)
    ensures result == KeepFile(ps.pats, name)
  {
    var es := ps.pats;
    result := true;
    var i := 0;
    while i < |es|
      invariant 0 <= i <= |es|
      invariant result == KeepFile(es[..i], name)
    {
      assert es[..i + 1][..i] == es[..i];
      if !es[i].dironly && result != es[i].neg && PatternFile(es[i].pat, name) {
        result := es[i].neg;
      }
      i := i + 1;
    }
    assert es[..i] == es;
  }

  // ---------------------------------------------------------------------
  // Properties of matching

  /** The `matchdir` verdict is that of the last fully matching pattern; a set with no full match keeps the directory. */
  lemma {:induction false} KeepDirLast(es: seq<LegacyEntry>, name: string) returns (i: int)
    ensures -1 <= i < |es|
    ensures forall j :: i < j < |es| ==> PatternDir(es[j].pat, name) != Verdict(true)
    ensures i >= 0 ==> PatternDir(es[i].pat, name) == Verdict(true) && KeepDir(es, name) == es[i].neg
    ensures i == -1 ==> KeepDir(es, name)
  {
    if es == [] {
      i := -1;
    } else {
      var n := |es| - 1;
      if PatternDir(es[n].pat, name) == Verdict(true) {
        i := n;
      } else {
        i := KeepDirLast(es[..n], name);
        assert forall j :: 0 <= j < n ==> es[..n][j] == es[j];
      }
    }
  }

  /**
   * The `matchfile` verdict is that of the last matching pattern that is
   * not directory-only; with none, the file is kept. A directory-only
   * pattern never decides for a file.
   */
  lemma {:induction false} KeepFileLast(es: seq<LegacyEntry>, name: string) returns (i: int)
    ensures -1 <= i < |es|
    ensures forall j :: i < j < |es| ==> es[j].dironly || !PatternFile(es[j].pat, name)
    ensures i >= 0 ==> !es[i].dironly && PatternFile(es[i].pat, name) && KeepFile(es, name) == es[i].neg
    ensures i == -1 ==> KeepFile(es, name)
  {
    if es == [] {
      i := -1;
    } else {
      var n := |es| - 1;
      if !es[n].dironly && PatternFile(es[n].pat, name) {
        i := n;
      } else {
        i := KeepFileLast(es[..n], name);
        assert forall j :: 0 <= j < n ==> es[..n][j] == es[j];
      }
    }
  }

  /** Narrowing keeps the order of the patterns: it works entry by entry. */
  lemma {:induction false} NarrowedAppend(a: seq<LegacyEntry>, b: seq<LegacyEntry>, name: string)
    ensures Narrowed(a + b, name) == Narrowed(a, name) + Narrowed(b, name)
    decreases |b|
  {
    if b == [] {
      assert a + b == a;
    } else {
      var n := |b| - 1;
      assert (a + b)[..|a + b| - 1] == a + b[..n];
      NarrowedAppend(a, b[..n], name);
    }
  }

  /** A matched relative pattern is not carried further; an unmatched one is carried as it is. */
  lemma RelNarrowed(e: LegacyEntry, name: string)
    requires e.pat.Rel?
    ensures CarryEntry(e, name) == if GlobMatch(name, e.pat.pat) then [] else [e]
  {
  }

  // ---------------------------------------------------------------------
  // Building pattern sets

  /**
   * One string of `add_pats`: a leading `!` negates (a lone `!` is
   * skipped), a trailing `/` makes the pattern directory-only, and any
   * other `/` makes it absolute, with its empty parts dropped.
   */
  function ParseEntry(s: string): (r: Option<LegacyEntry>)
    ensures r.None? <==> s == "!"
    ensures r.Some? ==> r.value.neg == StartsWith(s, "!")
  {
    var neg := StartsWith(s, "!");
    var t := if neg then s[1..] else s;
    if neg && t == "" then None
    else
      var dironly := EndsWith(t, "/");
      var u := if dironly then t[..|t| - 1] else t;
      Some(LegacyEntry(neg, dironly, if '/' in u then Abs(NonEmpty(Split(u, '/'))) else Rel(u)))
  }

  /** The `npats` that `add_pats` builds. */
  function ParseEntries(strings: seq<string>): seq<LegacyEntry>
  {
    if strings == [] then []
    else
      var last := ParseEntry(strings[|strings| - 1]);
      ParseEntries(strings[..|strings| - 1]) + (if last.Some? then [last.value] else [])
  }

  /** The way `dump` shows an entry, with the directory marker written as a trailing `/`. */
  function FormatEntry(e: LegacyEntry): string
  {
    (if e.neg then "!" else "") + ShowPattern(e.pat) + (if e.dironly then "/" else "")
  }

  /** `PatternSet.add_pats`: new patterns go after the existing ones; with none, the set itself comes back. */
  method AddPats(ps: LegacySet, pats: seq<string>) returns (r: LegacySet)
    ensures r == LegacySet(ps.pats + ParseEntries(pats))
    ensures ParseEntries(pats) == [] ==> r == ps
  {
    var npats: seq<LegacyEntry> := [];
    var i := 0;
    while i < |pats|
      invariant 0 <= i <= |pats|
      invariant npats == ParseEntries(pats[..i])
    {
      assert pats[..i + 1][..i] == pats[..i];
      var e := ParseEntry(pats[i]);
      if e.Some? {
        npats := npats + [e.value];
      }
      i := i + 1;
    }
    assert pats[..i] == pats;
    if npats != [] {
      return LegacySet(ps.pats + npats);
    }
    assert ps.pats + npats == ps.pats;
    return ps;
  }

  /** `PatternSet.read` on the lines of an ignore file: blank lines and `#` lines are skipped. */
  method ReadPats(ps: LegacySet, lines: seq<string>) returns (r: LegacySet)
    ensures r == LegacySet(ps.pats + ParseEntries(SignificantLines(lines)))
  {
    var npats := CollectPats(lines);
    r := AddPats(ps, npats);
  }

  /** The loop of `PatternSet.read`: each line stripped, and kept unless blank or a `#` comment. */
  method CollectPats(lines: seq<string>) returns (npats: seq<string>)
    ensures npats == SignificantLines(lines)
  {
    npats := [];
    var i := 0;
    while i < |lines|
      invariant 0 <= i <= |lines|
      invariant SignificantLines(lines) == npats + SignificantLines(lines[i..])
    {
      var line := Strip(lines[i]);
      var kept := if line != "" && line[0] != '#' then [line] else [];
      SignificantStep(lines, i);
      AppendAssociates(npats, kept, SignificantLines(lines[i + 1..]));
      npats := npats + kept;
      i := i + 1;
    }
    assert SignificantLines(lines[i..]) == [];
    assert npats + [] == npats;
  }

  lemma SignificantStep(lines: seq<string>, i: nat)
    requires i < |lines|
    ensures var line := Strip(lines[i]);
      SignificantLines(lines[i..]) == (if line != "" && line[0] != '#' then [line] else []) + SignificantLines(lines[i + 1..])
  {
    assert lines[i..][0] == lines[i] && lines[i..][1..] == lines[i + 1..];
  }

  /**
   * Parsing is a normal form: an entry read from any string is written
   * back by `FormatEntry` as a string that reads as the same entry.
   */
  lemma ParseFormat(s: string, e: LegacyEntry)
    requires ParseEntry(s) == Some(e)
    ensures ParseEntry(FormatEntry(e)) == Some(e)
  {
    if e.pat.Abs? {
      AbsFormat(s, e);
    } else {
      RelFormat(s, e);
    }
  }

  /** `ParseEntry` of a string written as an optional `!` and a body. */
  lemma ParseShape(f: string, neg: bool, body: string)
    requires f == (if neg then "!" else "") + body
    requires !neg ==> !StartsWith(body, "!")
    requires !(neg && body == "")
    ensures ParseEntry(f) == Some(BodyEntry(neg, body))
  {
    if neg {
      assert StartsWith(f, "!") && f[1..] == body;
    } else {
      assert f == body;
    }
  }

  /** The entry `add_pats` makes from the text after the `!`. */
  function BodyEntry(neg: bool, t: string): LegacyEntry
  {
    var dironly := EndsWith(t, "/");
    var u := if dironly then t[..|t| - 1] else t;
    LegacyEntry(neg, dironly, if '/' in u then Abs(NonEmpty(Split(u, '/'))) else Rel(u))
  }

  /** The text after the `!` of a string that parses. */
  lemma ParsedBody(s: string, e: LegacyEntry) returns (t: string)
    requires ParseEntry(s) == Some(e)
    ensures s == (if e.neg then "!" else "") + t && !(e.neg && t == "")
    ensures !e.neg ==> !StartsWith(t, "!")
    ensures e == BodyEntry(e.neg, t)
  {
    t := if e.neg then s[1..] else s;
    if e.neg {
      assert s == "!" + s[1..];
    }
    ParseShape(s, e.neg, t);
  }

  lemma RelFormat(s: string, e: LegacyEntry)
    requires ParseEntry(s) == Some(e) && e.pat.Rel?
    ensures ParseEntry(FormatEntry(e)) == Some(e)
  {
    var t := ParsedBody(s, e);
    var u := e.pat.pat;
    assert '/' !in u;
    var body := u + (if e.dironly then "/" else "");
    if e.dironly {
      assert t[..|t| - 1] == u && t == u + "/";
    } else {
      assert t == u;
    }
    assert body == t;
    ParseShape(FormatEntry(e), e.neg, body);
  }

  lemma AbsFormat(s: string, e: LegacyEntry)
    requires ParseEntry(s) == Some(e) && e.pat.Abs?
    ensures ParseEntry(FormatEntry(e)) == Some(e)
  {
    var t := ParsedBody(s, e);
    var u := if e.dironly then t[..|t| - 1] else t;
    var pieces := Split(u, '/');
    var parts := e.pat.parts;
    assert '/' in u && parts == NonEmpty(pieces);
    forall i | 0 <= i < |parts|
      ensures parts[i] != "" && '/' !in parts[i]
    {
      assert parts[i] in pieces;
    }
    if !e.dironly {
      assert t == u && u[|u| - 1] != '/';
      SplitLastNonEmpty(u, '/');
      NonEmptyKeeps(pieces, |pieces| - 1);
    }
    AbsShown(e.neg, e.dironly, parts);
  }

  /** An absolute pattern written out parses back to itself, provided its last part keeps the trailing `/` off. */
  lemma AbsShown(neg: bool, dironly: bool, parts: seq<string>)
    requires forall i :: 0 <= i < |parts| ==> parts[i] != "" && '/' !in parts[i]
    requires !dironly ==> parts != []
    ensures var e := LegacyEntry(neg, dironly, Abs(parts)); ParseEntry(FormatEntry(e)) == Some(e)
  {
    var joined := "/" + Join("/", parts);
    var body := joined + (if dironly then "/" else "");
    AbsBody(dironly, parts);
    assert body[0] == '/';
    JoinedParts(parts);
    assert BodyEntry(neg, body) == LegacyEntry(neg, dironly, Abs(parts));
    var f := FormatEntry(LegacyEntry(neg, dironly, Abs(parts)));
    AppendAssociates(if neg then "!" else "", joined, if dironly then "/" else "");
    assert f == (if neg then "!" else "") + body;
    assert !StartsWith(body, "!") by {
      assert body[..1] == [body[0]];
    }
    ParseShape(f, neg, body);
  }

  /** The trailing `/` of a written absolute pattern is there exactly when it is a directory pattern. */
  lemma AbsBody(dironly: bool, parts: seq<string>)
    requires forall i :: 0 <= i < |parts| ==> parts[i] != "" && '/' !in parts[i]
    requires !dironly ==> parts != []
    ensures var joined := "/" + Join("/", parts); var body := joined + (if dironly then "/" else "");
      EndsWith(body, "/") == dironly && (if dironly then body[..|body| - 1] else body) == joined
  {
    var joined := "/" + Join("/", parts);
    var body := joined + (if dironly then "/" else "");
    if !dironly {
      JoinLast("/", parts);
      assert body[|body| - 1] == joined[|joined| - 1] != '/';
      assert body[|body| - 1..] != "/";
    } else {
      assert body[..|body| - 1] == joined;
      assert body[|body| - 1..] == "/";
    }
  }

  /** The parts of an absolute pattern, written with their leading `/`, split back into the same parts. */
  lemma JoinedParts(parts: seq<string>)
    requires forall i :: 0 <= i < |parts| ==> parts[i] != "" && '/' !in parts[i]
    ensures var joined := "/" + Join("/", parts); '/' in joined && NonEmpty(Split(joined, '/')) == parts
  {
    if parts == [] {
      assert "/" + Join("/", parts) == "/";
      assert Split("/", '/') == ["", ""];
    } else {
      JoinedSplit(parts);
      NonEmptyPrependEmpty(parts);
      NonEmptyOfNonEmpty(parts);
    }
  }

  lemma JoinedSplit(parts: seq<string>)
    requires parts != [] && forall i :: 0 <= i < |parts| ==> '/' !in parts[i]
    ensures Split("/" + Join("/", parts), '/') == [""] + parts
  {
    var ps := [""] + parts;
    JoinPrefix(parts);
    assert forall i :: 0 <= i < |ps| ==> '/' !in ps[i];
    SplitJoin(ps, '/');
  }

  lemma JoinPrefix(parts: seq<string>)
    requires parts != []
    ensures Join("/", [""] + parts) == "/" + Join("/", parts)
  {
    var ps := [""] + parts;
    assert ps[0] == "" && ps[1..] == parts && |ps| > 1;
  }

  lemma {:induction false} SplitLastNonEmpty(s: string, c: char)
    requires s != [] && s[|s| - 1] != c
    ensures Split(s, c)[|Split(s, c)| - 1] != ""
    decreases |s|
  {
    if s[0] == c {
      SplitLastNonEmpty(s[1..], c);
    } else if |s| > 1 {
      SplitLastNonEmpty(s[1..], c);
    }
  }

  lemma {:induction false} NonEmptyKeeps(parts: seq<string>, i: nat)
    requires i < |parts| && parts[i] != ""
    ensures NonEmpty(parts) != []
    decreases |parts|
  {
    if i > 0 && parts[0] == "" {
      NonEmptyKeeps(parts[1..], i - 1);
    }
  }

  lemma {:induction false} JoinLast(sep: string, parts: seq<string>)
    requires parts != [] && parts[|parts| - 1] != ""
    ensures var j := Join(sep, parts); j != "" && j[|j| - 1] == parts[|parts| - 1][|parts[|parts| - 1]| - 1]
    decreases |parts|
  {
    if |parts| > 1 {
      JoinLast(sep, parts[1..]);
    }
  }
}
