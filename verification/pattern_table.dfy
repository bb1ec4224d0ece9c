/**
 * The self-test at the foot of header/pattern.py: eleven patterns and the
 * verdict `match_path` must give on each of thirty-one paths. The table's
 * verdicts are first read off symbolically, pattern by pattern, as a
 * formula over the last few components of a path; each check then only
 * evaluates that formula.
 */
module PatternTable {
  import opened Text
  import opened Glob
  import opened Pattern

  /** The strings the self-test parses, in order. */
  const TablePatterns: seq<string> := [
    "fname", "*.c", "!*.yy.c", "subdir/*.h", "!*.yy.h", "/rooted/x/y",
    "unrooted/x/y", "/rooted/x/*.py", "unrooted/x/*.py", "subdir/", "/rooted-subdir/"]

  /** The entry each of those strings parses to. */
  function TableEntry(i: nat): Entry
    requires i < 11
  {
    if i == 0 then Entry(true, GlobPattern(false, ["fname"]))
    else if i == 1 then Entry(true, GlobPattern(false, ["*.c"]))
    else if i == 2 then Entry(false, GlobPattern(false, ["*.yy.c"]))
    else if i == 3 then Entry(true, GlobPattern(false, ["subdir", "*.h"]))
    else if i == 4 then Entry(false, GlobPattern(false, ["*.yy.h"]))
    else if i == 5 then Entry(true, GlobPattern(true, ["rooted", "x", "y"]))
    else if i == 6 then Entry(true, GlobPattern(false, ["unrooted", "x", "y"]))
    else if i == 7 then Entry(true, GlobPattern(true, ["rooted", "x", "*.py"]))
    else if i == 8 then Entry(true, GlobPattern(false, ["unrooted", "x", "*.py"]))
    else if i == 9 then Entry(true, GlobPattern(false, ["subdir", ""]))
    else Entry(true, GlobPattern(true, ["rooted-subdir", ""]))
  }

  /** The first `n` entries. */
  function TablePrefix(n: nat): (r: seq<Entry>)
    requires n <= 11
    ensures |r| == n
  {
    if n == 0 then [] else TablePrefix(n - 1) + [TableEntry(n - 1)]
  }

  // ---------------------------------------------------------------------
  // Parsing the table

  lemma PlainEntry(s: string)
    requires s != "" && '/' !in s && s[0] != '!'
    ensures ParseEntry(s) == Some(Some(Entry(true, GlobPattern(false, [s]))))
  {
    SplitNoSep(s, '/');
    assert !EndsWith(s, "/") by { assert s[|s| - 1] in s; }
  }

  lemma NegatedEntry(s: string)
    requires |s| >= 2 && s[0] == '!' && '/' !in s
    ensures ParseEntry(s) == Some(Some(Entry(false, GlobPattern(false, [s[1..]]))))
  {
    var rest := s[1..];
    assert rest[0] in s && rest[|rest| - 1] in s;
    SplitNoSep(rest, '/');
  }

  lemma ParseEntriesEach(strings: seq<string>, es: seq<Entry>)
    requires |strings| == |es|
    requires forall i :: 0 <= i < |strings| ==> ParseEntry(strings[i]) == Some(Some(es[i]))
    ensures ParseEntries(strings) == Some(es)
  {
    if strings != [] {
      ParseEntriesEach(strings[1..], es[1..]);
      assert [es[0]] + es[1..] == es;
    }
  }

  /** A relative pattern of two segments, such as the header pattern under `subdir`. */
  lemma TwoPartEntry(a: string, b: string)
    requires a != "" && '/' !in a && a[0] != '!' && b != "" && '/' !in b
    ensures ParseEntry(a + "/" + b) == Some(Some(Entry(true, GlobPattern(false, [a, b]))))
  {
    var s := a + "/" + b;
    assert s == a + ['/'] + b && s[0] == a[0] && s[|s| - 1] == b[|b| - 1];
    assert a[0] in a && b[|b| - 1] in b;
    SplitPrefix(a, '/', b);
    SplitNoSep(b, '/');
    NonEmptyOfNonEmpty([a, b]);
    PieceEntry(s, false, [a, b]);
  }

  lemma SplitThree(a: string, b: string, c: string)
    requires '/' !in a && '/' !in b && '/' !in c
    ensures Split(a + "/" + b + "/" + c, '/') == [a, b, c]
  {
    assert a + "/" + b + "/" + c == a + ['/'] + (b + ['/'] + c);
    SplitPrefix(a, '/', b + ['/'] + c);
    SplitPrefix(b, '/', c);
    SplitNoSep(c, '/');
  }

  /** A positive entry read off the pieces of its text. */
  lemma PieceEntry(s: string, rooted: bool, parts: seq<string>)
    requires s != "" && s[0] != '!' && s[|s| - 1] != '/' && (s[0] == '/' <==> rooted)
    requires parts != [] && NonEmpty(Split(s, '/')) == parts
    ensures ParseEntry(s) == Some(Some(Entry(true, GlobPattern(rooted, parts))))
  {
    PieceEnds(s);
    PiecePattern(s, rooted, parts);
  }

  lemma PieceEnds(s: string)
    requires s != ""
    ensures StartsWith(s, "!") <==> s[0] == '!'
    ensures StartsWith(s, "/") <==> s[0] == '/'
    ensures EndsWith(s, "/") <==> s[|s| - 1] == '/'
  {
    assert s[..1] == [s[0]] && s[|s| - 1..] == [s[|s| - 1]];
  }

  lemma PiecePattern(s: string, rooted: bool, parts: seq<string>)
    requires !EndsWith(s, "/") && StartsWith(s, "/") == rooted
    requires parts != [] && NonEmpty(Split(s, '/')) == parts
    ensures ParsePattern(s) == Some(GlobPattern(rooted, parts))
  {
    assert NonEmpty(Split(s, '/')) + [] == parts;
  }

  /** A pattern of three segments, rooted (`/rooted/x/y`) or not (`unrooted/x/y`). */
  lemma ThreePartEntry(rooted: bool, a: string, b: string, c: string)
    requires a != "" && '/' !in a && a[0] != '!' && b != "" && '/' !in b && c != "" && '/' !in c
    ensures ParseEntry((if rooted then "/" else "") + a + "/" + b + "/" + c)
            == Some(Some(Entry(true, GlobPattern(rooted, [a, b, c]))))
  {
    var t := a + "/" + b + "/" + c;
    var s := (if rooted then "/" else "") + t;
    assert s == (if rooted then "/" else "") + a + "/" + b + "/" + c;
    assert t[0] == a[0] && t[|t| - 1] == c[|c| - 1];
    assert a[0] in a && c[|c| - 1] in c;
    SplitThree(a, b, c);
    NonEmptyOfNonEmpty([a, b, c]);
    if rooted {
      SplitRooted(t);
      NonEmptyPrependEmpty([a, b, c]);
      assert s[0] == '/' && s[|s| - 1] == t[|t| - 1];
    } else {
      assert s == t;
    }
    PieceEntry(s, rooted, [a, b, c]);
  }

  /** A leading `/` adds an empty first piece and nothing else. */
  lemma SplitRooted(t: string)
    ensures Split("/" + t, '/') == [""] + Split(t, '/')
  {
    assert "/" + t == "" + ['/'] + t;
    SplitPrefix("", '/', t);
  }

  /** A directory pattern of one segment, rooted (`/rooted-subdir/`) or not (`subdir/`). */
  lemma DirEntry(rooted: bool, a: string)
    requires a != "" && '/' !in a && a[0] != '!'
    ensures ParseEntry((if rooted then "/" else "") + a + "/")
            == Some(Some(Entry(true, GlobPattern(rooted, [a, ""]))))
  {
    var t := a + "/";
    var s := (if rooted then "/" else "") + t;
    assert s == (if rooted then "/" else "") + a + "/";
    assert t == a + ['/'] + "" && t[0] == a[0] && a[0] in a;
    SplitPrefix(a, '/', "");
    assert Split(t, '/') == [a, ""];
    NonEmptyAppendEmpty([a]);
    NonEmptyOfNonEmpty([a]);
    if rooted {
      SplitRooted(t);
      NonEmptyPrependEmpty([a, ""]);
      assert NonEmpty(Split(s, '/')) == [a];
    } else {
      assert s == t;
    }
    assert s[0] != '!' && (s[0] == '/' <==> rooted) && s[|s| - 1] == '/';
    PieceEnds(s);
    DirPattern(s, rooted, [a]);
  }

  lemma DirPattern(s: string, rooted: bool, parts: seq<string>)
    requires !StartsWith(s, "!") && s != "" && EndsWith(s, "/") && StartsWith(s, "/") == rooted
    requires parts != [] && NonEmpty(Split(s, '/')) == parts
    ensures ParseEntry(s) == Some(Some(Entry(true, GlobPattern(rooted, parts + [""]))))
  {
    assert ParsePattern(s) == Some(GlobPattern(rooted, parts + [""]));
  }

  lemma ParseTableEntry(i: nat)
    requires i < 11
    ensures ParseEntry(TablePatterns[i]) == Some(Some(TableEntry(i)))
  {
    if i == 0 || i == 1 {
      PlainEntry(TablePatterns[i]);
    } else if i == 2 || i == 4 {
      NegatedEntry(TablePatterns[i]);
    } else if i == 3 {
      assert TablePatterns[i] == "subdir" + "/" + "*.h";
      TwoPartEntry("subdir", "*.h");
    } else if i == 5 || i == 7 {
      var last := if i == 5 then "y" else "*.py";
      assert TablePatterns[i] == "/" + "rooted" + "/" + "x" + "/" + last;
      ThreePartEntry(true, "rooted", "x", last);
    } else if i == 6 || i == 8 {
      var last := if i == 6 then "y" else "*.py";
      assert TablePatterns[i] == "" + "unrooted" + "/" + "x" + "/" + last;
      ThreePartEntry(false, "unrooted", "x", last);
    } else if i == 9 {
      assert TablePatterns[i] == "" + "subdir" + "/";
      DirEntry(false, "subdir");
    } else {
      assert TablePatterns[i] == "/" + "rooted-subdir" + "/";
      DirEntry(true, "rooted-subdir");
    }
  }

  /** The self-test's pattern set. */
  const TableSet := PatternSet(TablePrefix(11))

  /** `PatternSet.parse` of the self-test's strings gives the eleven entries, in order. */
  lemma TableParses()
    ensures ParseSet(TablePatterns) == Some(TableSet)
    ensures ValidSet(TableSet) && AllSegmented(TableSet.entries)
  {
    var es := TablePrefix(11);
    TablePrefixIndex(11);
    forall i | 0 <= i < 11
      ensures ParseEntry(TablePatterns[i]) == Some(Some(es[i]))
    {
      ParseTableEntry(i);
    }
    ParseEntriesEach(TablePatterns, es);
  }

  lemma TablePrefixIndex(n: nat)
    requires n <= 11
    ensures forall i :: 0 <= i < n ==> TablePrefix(n)[i] == TableEntry(i)
  {
    if n > 0 {
      TablePrefixIndex(n - 1);
    }
  }

  // ---------------------------------------------------------------------
  // The table's verdicts

  /**
   * Entry `i` of the table matches `path` as a whole (its last component
   * being the directory or the file tested), stated on the last components.
   */
  predicate Hit(i: nat, path: seq<string>)
    requires i < 11 && path != []
  {
    var n, last := |path|, path[|path| - 1];
    if i == 0 then last == "fname"
    else if i == 1 then EndsWith(last, ".c")
    else if i == 2 then EndsWith(last, ".yy.c")
    else if i == 3 then n >= 2 && path[n - 2] == "subdir" && EndsWith(last, ".h")
    else if i == 4 then EndsWith(last, ".yy.h")
    else if i == 5 then n == 3 && path[0] == "rooted" && path[1] == "x" && last == "y"
    else if i == 6 then n >= 3 && path[n - 3] == "unrooted" && path[n - 2] == "x" && last == "y"
    else if i == 7 then n == 3 && path[0] == "rooted" && path[1] == "x" && EndsWith(last, ".py")
    else if i == 8 then n >= 3 && path[n - 3] == "unrooted" && path[n - 2] == "x" && EndsWith(last, ".py")
    else if i == 9 then last == "subdir"
    else n == 1 && last == "rooted-subdir"
  }

  /** The polarity of the last of the first `k` entries that `Hit`s `path`, false if none. */
  predicate LastHit(k: nat, path: seq<string>)
    requires k <= 11 && path != []
  {
    if k == 0 then false
    else if Hit(k - 1, path) then TableEntry(k - 1).positive
    else LastHit(k - 1, path)
  }

  /** Segment `t` of `p` matches component `j + t` of `path`. */
  predicate SegAt(p: ValidPattern, path: seq<string>, j: int, t: nat)
    requires t < |p.parts|
  {
    0 <= j + t < |path| && GlobMatch(path[j + t], p.parts[t])
  }

  /** The first `k` (at most three) segments match the last `k` components. */
  predicate TailMatch(p: ValidPattern, k: nat, path: seq<string>)
    requires 1 <= k <= |p.parts| && k <= 3
  {
    var j := |path| - k;
    && 0 <= j && (!p.rooted || j == 0)
    && SegAt(p, path, j, 0) && (k < 2 || SegAt(p, path, j, 1)) && (k < 3 || SegAt(p, path, j, 2))
  }

  lemma TailMatchAll(p: ValidPattern, k: nat, path: seq<string>)
    requires 1 <= k <= |p.parts| && k <= 3
    ensures TailMatch(p, k, path) <==> exists j :: 0 <= j < |path| && StartsWholeMatch(p, path, j, k)
  {
    var j := |path| - k;
    if TailMatch(p, k, path) {
      forall t | 0 <= t < k
        ensures GlobMatch(path[j + t], p.parts[t])
      {
        if t == 0 {
        } else if t == 1 {
        } else {
        }
      }
      assert StartsWholeMatch(p, path, j, k);
    }
    if exists j' :: 0 <= j' < |path| && StartsWholeMatch(p, path, j', k) {
      var j' :| 0 <= j' < |path| && StartsWholeMatch(p, path, j', k);
      assert j' == j;
      assert SegAt(p, path, j, 0);
      assert k < 2 || SegAt(p, path, j, 1);
      assert k < 3 || SegAt(p, path, j, 2);
    }
  }

  lemma GlobLiteral(name: string, seg: string)
    requires seg == "fname" || seg == "subdir" || seg == "rooted" || seg == "unrooted"
          || seg == "x" || seg == "y" || seg == "rooted-subdir"
    ensures GlobMatch(name, seg) <==> name == seg
  {
    LiteralMatch(name, seg);
  }

  lemma GlobSuffix(name: string, seg: string, suffix: string)
    requires (seg == "*.c" && suffix == ".c") || (seg == "*.yy.c" && suffix == ".yy.c")
          || (seg == "*.h" && suffix == ".h") || (seg == "*.yy.h" && suffix == ".yy.h")
          || (seg == "*.py" && suffix == ".py")
    ensures GlobMatch(name, seg) <==> EndsWith(name, suffix)
  {
    assert seg == "*" + suffix;
    StarSuffixMatch(name, suffix);
  }

  /** Entry `i` matches a directory or a file path as a whole exactly when it `Hit`s it. */
  lemma EntryHits(i: nat, path: seq<string>)
    requires i < 11 && path != []
    ensures WholeDirMatch(TableEntry(i).pattern, path) <==> Hit(i, path)
    ensures WholeFileMatch(TableEntry(i).pattern, path) <==> i < 9 && Hit(i, path)
  {
    var p := TableEntry(i).pattern;
    TailMatchAll(p, EffLen(p), path);
    TailMatchAll(p, |p.parts|, path);
    if i < 3 {
      LowHits(i, path);
    } else if i < 5 || i > 8 {
      MidHits(i, path);
    } else {
      LongHits(i, path);
    }
  }

  lemma LowHits(i: nat, path: seq<string>)
    requires i < 3 && path != []
    ensures TailMatch(TableEntry(i).pattern, 1, path) <==> Hit(i, path)
  {
    var n := |path|;
    if i == 0 {
      GlobLiteral(path[n - 1], "fname");
    } else if i == 1 {
      GlobSuffix(path[n - 1], "*.c", ".c");
    } else {
      GlobSuffix(path[n - 1], "*.yy.c", ".yy.c");
    }
  }

  lemma MidHits(i: nat, path: seq<string>)
    requires (3 <= i < 5 || 8 < i < 11) && path != []
    ensures var p := TableEntry(i).pattern;
            (TailMatch(p, EffLen(p), path) <==> Hit(i, path))
            && (!DirOnly(p) ==> (TailMatch(p, |p.parts|, path) <==> Hit(i, path)))
  {
    var n := |path|;
    if i == 3 {
      GlobSuffix(path[n - 1], "*.h", ".h");
      if n >= 2 {
        GlobLiteral(path[n - 2], "subdir");
      }
    } else if i == 4 {
      GlobSuffix(path[n - 1], "*.yy.h", ".yy.h");
    } else if i == 9 {
      GlobLiteral(path[n - 1], "subdir");
    } else {
      GlobLiteral(path[n - 1], "rooted-subdir");
    }
  }

  lemma LongHits(i: nat, path: seq<string>)
    requires 5 <= i <= 8 && path != []
    ensures TailMatch(TableEntry(i).pattern, 3, path) <==> Hit(i, path)
  {
    var n := |path|;
    if n >= 3 {
      GlobLiteral(path[n - 2], "x");
      if i == 5 || i == 6 {
        GlobLiteral(path[n - 1], "y");
      } else {
        GlobSuffix(path[n - 1], "*.py", ".py");
      }
      if i == 5 || i == 7 {
        GlobLiteral(path[0], "rooted");
      } else {
        GlobLiteral(path[n - 3], "unrooted");
      }
    }
  }

  /**
   * The verdict of the first `k` entries on a directory is the polarity of
   * the last entry that `Hit`s it; on a file the two directory patterns
   * (entries 9 and 10) take no part.
   */
  lemma PrefixVerdicts(k: nat, path: seq<string>)
    requires k <= 11 && path != []
    ensures WholeDirVerdict(TablePrefix(k), path) == LastHit(k, path)
    ensures WholeFileVerdict(TablePrefix(k), path) == LastHit(if k < 9 then k else 9, path)
  {
    if k > 0 {
      var es := TablePrefix(k);
      assert es[..k - 1] == TablePrefix(k - 1) && es[k - 1] == TableEntry(k - 1);
      EntryHits(k - 1, path);
      PrefixVerdicts(k - 1, path);
    }
  }

  /** Some non-empty prefix of `dirs`, taken as a directory, is accepted by the table. */
  predicate SomeDirHit(dirs: seq<string>)
  {
    dirs != [] && (LastHit(11, dirs) || SomeDirHit(dirs[..|dirs| - 1]))
  }

  lemma {:induction false} SomeDirHits(dirs: seq<string>, n: nat)
    requires n <= |dirs|
    ensures SomeDirAccepted(TableSet.entries, dirs, n) == SomeDirHit(dirs[..n])
  {
    if n > 0 {
      PrefixVerdicts(11, dirs[..n]);
      SomeDirHits(dirs, n - 1);
      assert dirs[..n][..n - 1] == dirs[..n - 1];
    }
  }

  /** The table's whole-path reading of a path that names a file. */
  lemma FileVerdictOn(dirs: seq<string>, fname: string)
    ensures WholePathMatch(TableSet.entries, dirs, Some(fname))
            == (SomeDirHit(dirs) || LastHit(9, dirs + [fname]))
  {
    SomeDirHits(dirs, |dirs|);
    assert dirs[..|dirs|] == dirs;
    PrefixVerdicts(11, dirs + [fname]);
  }

  /** The table's whole-path reading of a path that ends in `/`. */
  lemma DirVerdictOn(dirs: seq<string>)
    ensures WholePathMatch(TableSet.entries, dirs, None) == SomeDirHit(dirs)
  {
    SomeDirHits(dirs, |dirs|);
    assert dirs[..|dirs|] == dirs;
  }

  // ---------------------------------------------------------------------
  // The checks
  //
  // `Dirs…` settles whether some leading directory of a path is accepted,
  // `File…` the file verdict of the first nine entries, and `Check…` puts
  // the two together for one path of the self-test.

  lemma DirsAbc()
    ensures !SomeDirHit(["abc"])
  {
    assert ["abc"][..0] == [];
  }

  lemma DirsFname()
    ensures SomeDirHit(["fname"])
  {
    assert !EndsWith("fname", ".yy.c") && !EndsWith("fname", ".yy.h");
  }

  lemma DirsRooted()
    ensures !SomeDirHit(["rooted"])
  {
    assert ["rooted"][..0] == [];
  }

  lemma DirsRootedX()
    ensures !SomeDirHit(["rooted", "x"])
  {
    assert ["rooted", "x"][..1] == ["rooted"];
    DirsRooted();
  }

  lemma DirsRootedXY()
    ensures SomeDirHit(["rooted", "x", "y"])
  {
    assert ["rooted", "x", "y"][..2] == ["rooted", "x"];
    DirsRootedX();
  }

  lemma DirsA()
    ensures !SomeDirHit(["a"])
  {
    assert ["a"][..0] == [];
  }

  lemma DirsARooted()
    ensures !SomeDirHit(["a", "rooted"])
  {
    assert ["a", "rooted"][..1] == ["a"];
    DirsA();
  }

  lemma DirsARootedX()
    ensures !SomeDirHit(["a", "rooted", "x"])
  {
    assert ["a", "rooted", "x"][..2] == ["a", "rooted"];
    DirsARooted();
  }

  lemma DirsARootedXY()
    ensures !SomeDirHit(["a", "rooted", "x", "y"])
  {
    assert ["a", "rooted", "x", "y"][..3] == ["a", "rooted", "x"];
    DirsARootedX();
  }

  lemma DirsSubdir()
    ensures SomeDirHit(["subdir"])
  {
    assert ["subdir"][..0] == [];
  }

  lemma DirsX()
    ensures !SomeDirHit(["x"])
  {
    assert ["x"][..0] == [];
  }

  lemma DirsXSubdir()
    ensures SomeDirHit(["x", "subdir"])
  {
    assert ["x", "subdir"][..1] == ["x"];
    DirsX();
  }

  lemma DirsRootedSubdir()
    ensures SomeDirHit(["rooted-subdir"])
  {
    assert ["rooted-subdir"][..0] == [];
  }

  lemma DirsXRootedSubdir()
    ensures !SomeDirHit(["x", "rooted-subdir"])
  {
    assert ["x", "rooted-subdir"][..1] == ["x"];
    DirsX();
  }

  lemma FileFname()
    ensures LastHit(9, ["fname"])
  {
    assert !EndsWith("fname", ".yy.c");
    assert !EndsWith("fname", ".yy.h");
  }

  lemma CheckFname()
    ensures WholePathMatch(TableSet.entries, [], Some("fname"))
  {
    assert [] + ["fname"] == ["fname"];
    FileFname();
    FileVerdictOn([], "fname");
  }

  lemma FileAbcC()
    ensures LastHit(9, ["abc.c"])
  {
    assert !EndsWith("abc.c", ".yy.c");
    assert !EndsWith("abc.c", ".yy.h");
  }

  lemma CheckAbcC()
    ensures WholePathMatch(TableSet.entries, [], Some("abc.c"))
  {
    assert [] + ["abc.c"] == ["abc.c"];
    FileAbcC();
    FileVerdictOn([], "abc.c");
  }

  lemma FileAbcDefC()
    ensures LastHit(9, ["abc", "def.c"])
  {
    assert !EndsWith("def.c", ".yy.c");
    assert !EndsWith("def.c", ".yy.h");
  }

  lemma CheckAbcDefC()
    ensures WholePathMatch(TableSet.entries, ["abc"], Some("def.c"))
  {
    assert ["abc"] + ["def.c"] == ["abc", "def.c"];
    FileAbcDefC();
    DirsAbc();
    FileVerdictOn(["abc"], "def.c");
  }

  lemma FileAbcYyC()
    ensures !LastHit(9, ["abc.yy.c"])
  {
    assert !EndsWith("abc.yy.c", ".yy.h");
  }

  lemma CheckAbcYyC()
    ensures !WholePathMatch(TableSet.entries, [], Some("abc.yy.c"))
  {
    assert [] + ["abc.yy.c"] == ["abc.yy.c"];
    FileAbcYyC();
    FileVerdictOn([], "abc.yy.c");
  }

  lemma FileAbcDefYyC()
    ensures !LastHit(9, ["abc", "def.yy.c"])
  {
    assert !EndsWith("def.yy.c", ".yy.h");
  }

  lemma CheckAbcDefYyC()
    ensures !WholePathMatch(TableSet.entries, ["abc"], Some("def.yy.c"))
  {
    assert ["abc"] + ["def.yy.c"] == ["abc", "def.yy.c"];
    FileAbcDefYyC();
    DirsAbc();
    FileVerdictOn(["abc"], "def.yy.c");
  }

  lemma FileFnameXyz()
    ensures !LastHit(9, ["fname", "xyz"])
  {
  }

  lemma CheckFnameXyz()
    ensures WholePathMatch(TableSet.entries, ["fname"], Some("xyz"))
  {
    assert ["fname"] + ["xyz"] == ["fname", "xyz"];
    FileFnameXyz();
    DirsFname();
    FileVerdictOn(["fname"], "xyz");
  }

  lemma FileFnameAbcYyC()
    ensures !LastHit(9, ["fname", "abc.yy.c"])
  {
    assert !EndsWith("abc.yy.c", ".yy.h");
  }

  lemma CheckFnameAbcYyC()
    ensures WholePathMatch(TableSet.entries, ["fname"], Some("abc.yy.c"))
  {
    assert ["fname"] + ["abc.yy.c"] == ["fname", "abc.yy.c"];
    FileFnameAbcYyC();
    DirsFname();
    FileVerdictOn(["fname"], "abc.yy.c");
  }

  lemma FileRooted()
    ensures !LastHit(9, ["rooted"])
  {
    assert !EndsWith("rooted", ".yy.c");
    assert !EndsWith("rooted", ".yy.h");
  }

  lemma CheckRooted()
    ensures !WholePathMatch(TableSet.entries, [], Some("rooted"))
  {
    assert [] + ["rooted"] == ["rooted"];
    FileRooted();
    FileVerdictOn([], "rooted");
  }

  lemma FileRootedX()
    ensures !LastHit(9, ["rooted", "x"])
  {
  }

  lemma CheckRootedX()
    ensures !WholePathMatch(TableSet.entries, ["rooted"], Some("x"))
  {
    assert ["rooted"] + ["x"] == ["rooted", "x"];
    FileRootedX();
    DirsRooted();
    FileVerdictOn(["rooted"], "x");
  }

  lemma FileRootedXY()
    ensures LastHit(9, ["rooted", "x", "y"])
  {
  }

  lemma CheckRootedXY()
    ensures WholePathMatch(TableSet.entries, ["rooted", "x"], Some("y"))
  {
    assert ["rooted", "x"] + ["y"] == ["rooted", "x", "y"];
    FileRootedXY();
    DirsRootedX();
    FileVerdictOn(["rooted", "x"], "y");
  }

  lemma FileRootedXZ()
    ensures !LastHit(9, ["rooted", "x", "z"])
  {
  }

  lemma CheckRootedXZ()
    ensures !WholePathMatch(TableSet.entries, ["rooted", "x"], Some("z"))
  {
    assert ["rooted", "x"] + ["z"] == ["rooted", "x", "z"];
    FileRootedXZ();
    DirsRootedX();
    FileVerdictOn(["rooted", "x"], "z");
  }

  lemma FileRootedXFilePy()
    ensures LastHit(9, ["rooted", "x", "file.py"])
  {
    assert !EndsWith("file.py", ".yy.c");
    assert !EndsWith("file.py", ".yy.h");
  }

  lemma CheckRootedXFilePy()
    ensures WholePathMatch(TableSet.entries, ["rooted", "x"], Some("file.py"))
  {
    assert ["rooted", "x"] + ["file.py"] == ["rooted", "x", "file.py"];
    FileRootedXFilePy();
    DirsRootedX();
    FileVerdictOn(["rooted", "x"], "file.py");
  }

  lemma FileRootedXYZ()
    ensures !LastHit(9, ["rooted", "x", "y", "z"])
  {
  }

  lemma CheckRootedXYZ()
    ensures WholePathMatch(TableSet.entries, ["rooted", "x", "y"], Some("z"))
  {
    assert ["rooted", "x", "y"] + ["z"] == ["rooted", "x", "y", "z"];
    FileRootedXYZ();
    DirsRootedXY();
    FileVerdictOn(["rooted", "x", "y"], "z");
  }

  lemma FileARooted()
    ensures !LastHit(9, ["a", "rooted"])
  {
    assert !EndsWith("rooted", ".yy.c");
    assert !EndsWith("rooted", ".yy.h");
  }

  lemma CheckARooted()
    ensures !WholePathMatch(TableSet.entries, ["a"], Some("rooted"))
  {
    assert ["a"] + ["rooted"] == ["a", "rooted"];
    FileARooted();
    DirsA();
    FileVerdictOn(["a"], "rooted");
  }

  lemma FileARootedX()
    ensures !LastHit(9, ["a", "rooted", "x"])
  {
  }

  lemma CheckARootedX()
    ensures !WholePathMatch(TableSet.entries, ["a", "rooted"], Some("x"))
  {
    assert ["a", "rooted"] + ["x"] == ["a", "rooted", "x"];
    FileARootedX();
    DirsARooted();
    FileVerdictOn(["a", "rooted"], "x");
  }

  lemma FileARootedXY()
    ensures !LastHit(9, ["a", "rooted", "x", "y"])
  {
  }

  lemma CheckARootedXY()
    ensures !WholePathMatch(TableSet.entries, ["a", "rooted", "x"], Some("y"))
  {
    assert ["a", "rooted", "x"] + ["y"] == ["a", "rooted", "x", "y"];
    FileARootedXY();
    DirsARootedX();
    FileVerdictOn(["a", "rooted", "x"], "y");
  }

  lemma FileARootedXZ()
    ensures !LastHit(9, ["a", "rooted", "x", "z"])
  {
  }

  lemma CheckARootedXZ()
    ensures !WholePathMatch(TableSet.entries, ["a", "rooted", "x"], Some("z"))
  {
    assert ["a", "rooted", "x"] + ["z"] == ["a", "rooted", "x", "z"];
    FileARootedXZ();
    DirsARootedX();
    FileVerdictOn(["a", "rooted", "x"], "z");
  }

  lemma FileARootedXFilePy()
    ensures !LastHit(9, ["a", "rooted", "x", "file.py"])
  {
    assert !EndsWith("file.py", ".yy.c");
    assert !EndsWith("file.py", ".yy.h");
  }

  lemma CheckARootedXFilePy()
    ensures !WholePathMatch(TableSet.entries, ["a", "rooted", "x"], Some("file.py"))
  {
    assert ["a", "rooted", "x"] + ["file.py"] == ["a", "rooted", "x", "file.py"];
    FileARootedXFilePy();
    DirsARootedX();
    FileVerdictOn(["a", "rooted", "x"], "file.py");
  }

  lemma FileARootedXYZ()
    ensures !LastHit(9, ["a", "rooted", "x", "y", "z"])
  {
  }

  lemma CheckARootedXYZ()
    ensures !WholePathMatch(TableSet.entries, ["a", "rooted", "x", "y"], Some("z"))
  {
    assert ["a", "rooted", "x", "y"] + ["z"] == ["a", "rooted", "x", "y", "z"];
    FileARootedXYZ();
    DirsARootedXY();
    FileVerdictOn(["a", "rooted", "x", "y"], "z");
  }

  lemma FileSubdir()
    ensures !LastHit(9, ["subdir"])
  {
    assert !EndsWith("subdir", ".yy.c");
    assert !EndsWith("subdir", ".yy.h");
  }

  lemma CheckSubdir()
    ensures !WholePathMatch(TableSet.entries, [], Some("subdir"))
  {
    assert [] + ["subdir"] == ["subdir"];
    FileSubdir();
    FileVerdictOn([], "subdir");
  }

  lemma CheckSubdirDir()
    ensures WholePathMatch(TableSet.entries, ["subdir"], None)
  {
    DirVerdictOn(["subdir"]);
    DirsSubdir();
  }

  lemma FileSubdirX()
    ensures !LastHit(9, ["subdir", "x"])
  {
  }

  lemma CheckSubdirX()
    ensures WholePathMatch(TableSet.entries, ["subdir"], Some("x"))
  {
    assert ["subdir"] + ["x"] == ["subdir", "x"];
    FileSubdirX();
    DirsSubdir();
    FileVerdictOn(["subdir"], "x");
  }

  lemma FileXSubdir()
    ensures !LastHit(9, ["x", "subdir"])
  {
    assert !EndsWith("subdir", ".yy.c");
    assert !EndsWith("subdir", ".yy.h");
  }

  lemma CheckXSubdir()
    ensures !WholePathMatch(TableSet.entries, ["x"], Some("subdir"))
  {
    assert ["x"] + ["subdir"] == ["x", "subdir"];
    FileXSubdir();
    DirsX();
    FileVerdictOn(["x"], "subdir");
  }

  lemma CheckXSubdirDir()
    ensures WholePathMatch(TableSet.entries, ["x", "subdir"], None)
  {
    DirVerdictOn(["x", "subdir"]);
    DirsXSubdir();
  }

  lemma FileXSubdirX()
    ensures !LastHit(9, ["x", "subdir", "x"])
  {
  }

  lemma CheckXSubdirX()
    ensures WholePathMatch(TableSet.entries, ["x", "subdir"], Some("x"))
  {
    assert ["x", "subdir"] + ["x"] == ["x", "subdir", "x"];
    FileXSubdirX();
    DirsXSubdir();
    FileVerdictOn(["x", "subdir"], "x");
  }

  lemma FileRootedSubdir()
    ensures !LastHit(9, ["rooted-subdir"])
  {
    assert !EndsWith("rooted-subdir", ".yy.c");
    assert !EndsWith("rooted-subdir", ".yy.h");
  }

  lemma CheckRootedSubdir()
    ensures !WholePathMatch(TableSet.entries, [], Some("rooted-subdir"))
  {
    assert [] + ["rooted-subdir"] == ["rooted-subdir"];
    FileRootedSubdir();
    FileVerdictOn([], "rooted-subdir");
  }

  lemma CheckRootedSubdirDir()
    ensures WholePathMatch(TableSet.entries, ["rooted-subdir"], None)
  {
    DirVerdictOn(["rooted-subdir"]);
    DirsRootedSubdir();
  }

  lemma FileRootedSubdirX()
    ensures !LastHit(9, ["rooted-subdir", "x"])
  {
  }

  lemma CheckRootedSubdirX()
    ensures WholePathMatch(TableSet.entries, ["rooted-subdir"], Some("x"))
  {
    assert ["rooted-subdir"] + ["x"] == ["rooted-subdir", "x"];
    FileRootedSubdirX();
    DirsRootedSubdir();
    FileVerdictOn(["rooted-subdir"], "x");
  }

  lemma FileXRootedSubdir()
    ensures !LastHit(9, ["x", "rooted-subdir"])
  {
    assert !EndsWith("rooted-subdir", ".yy.c");
    assert !EndsWith("rooted-subdir", ".yy.h");
  }

  lemma CheckXRootedSubdir()
    ensures !WholePathMatch(TableSet.entries, ["x"], Some("rooted-subdir"))
  {
    assert ["x"] + ["rooted-subdir"] == ["x", "rooted-subdir"];
    FileXRootedSubdir();
    DirsX();
    FileVerdictOn(["x"], "rooted-subdir");
  }

  lemma CheckXRootedSubdirDir()
    ensures !WholePathMatch(TableSet.entries, ["x", "rooted-subdir"], None)
  {
    DirVerdictOn(["x", "rooted-subdir"]);
    DirsXRootedSubdir();
  }

  lemma FileXRootedSubdirX()
    ensures !LastHit(9, ["x", "rooted-subdir", "x"])
  {
  }

  lemma CheckXRootedSubdirX()
    ensures !WholePathMatch(TableSet.entries, ["x", "rooted-subdir"], Some("x"))
  {
    assert ["x", "rooted-subdir"] + ["x"] == ["x", "rooted-subdir", "x"];
    FileXRootedSubdirX();
    DirsXRootedSubdir();
    FileVerdictOn(["x", "rooted-subdir"], "x");
  }

  // ---------------------------------------------------------------------
  // The paths
  //
  // `Components…` gives the components of one path of the self-test, and
  // the lemmas below put them together with the `Check…` verdicts.

  const FnamePath := "fname"

  lemma ComponentsFname()
    ensures SplitPath(FnamePath) == Some(([], Some("fname")))
  {
    var parts := ["fname"];
    assert parts[..0] == [];
    assert FnamePath == Join("/", parts);
    SplitJoinedFile(parts);
  }

  const AbcCPath := "abc.c"

  lemma ComponentsAbcC()
    ensures SplitPath(AbcCPath) == Some(([], Some("abc.c")))
  {
    var parts := ["abc.c"];
    assert parts[..0] == [];
    assert AbcCPath == Join("/", parts);
    SplitJoinedFile(parts);
  }

  const AbcDefCPath := "abc/def.c"

  lemma ComponentsAbcDefC()
    ensures SplitPath(AbcDefCPath) == Some((["abc"], Some("def.c")))
  {
    var parts := ["abc", "def.c"];
    assert parts[..1] == ["abc"];
    assert AbcDefCPath == Join("/", parts);
    SplitJoinedFile(parts);
  }

  const AbcYyCPath := "abc.yy.c"

  lemma ComponentsAbcYyC()
    ensures SplitPath(AbcYyCPath) == Some(([], Some("abc.yy.c")))
  {
    var parts := ["abc.yy.c"];
    assert parts[..0] == [];
    assert AbcYyCPath == Join("/", parts);
    SplitJoinedFile(parts);
  }

  const AbcDefYyCPath := "abc/def.yy.c"

  lemma ComponentsAbcDefYyC()
    ensures SplitPath(AbcDefYyCPath) == Some((["abc"], Some("def.yy.c")))
  {
    var parts := ["abc", "def.yy.c"];
    assert parts[..1] == ["abc"];
    assert AbcDefYyCPath == Join("/", parts);
    SplitJoinedFile(parts);
  }

  const FnameXyzPath := "fname/xyz"

  lemma ComponentsFnameXyz()
    ensures SplitPath(FnameXyzPath) == Some((["fname"], Some("xyz")))
  {
    var parts := ["fname", "xyz"];
    assert parts[..1] == ["fname"];
    assert FnameXyzPath == Join("/", parts);
    SplitJoinedFile(parts);
  }

  const FnameAbcYyCPath := "fname/abc.yy.c"

  lemma ComponentsFnameAbcYyC()
    ensures SplitPath(FnameAbcYyCPath) == Some((["fname"], Some("abc.yy.c")))
  {
    var parts := ["fname", "abc.yy.c"];
    assert parts[..1] == ["fname"];
    JoinedFnameAbcYyC();
    SplitJoinedFile(parts);
  }

  lemma JoinedFnameAbcYyC()
    ensures Join("/", ["fname", "abc.yy.c"]) == FnameAbcYyCPath
  {
  }

  const RootedPath := "rooted"

  lemma ComponentsRooted()
    ensures SplitPath(RootedPath) == Some(([], Some("rooted")))
  {
    var parts := ["rooted"];
    assert parts[..0] == [];
    assert RootedPath == Join("/", parts);
    SplitJoinedFile(parts);
  }

  const RootedXPath := "rooted/x"

  lemma ComponentsRootedX()
    ensures SplitPath(RootedXPath) == Some((["rooted"], Some("x")))
  {
    var parts := ["rooted", "x"];
    assert parts[..1] == ["rooted"];
    assert RootedXPath == Join("/", parts);
    SplitJoinedFile(parts);
  }

  const RootedXYPath := "rooted/x/y"

  lemma ComponentsRootedXY()
    ensures SplitPath(RootedXYPath) == Some((["rooted", "x"], Some("y")))
  {
    var parts := ["rooted", "x", "y"];
    assert parts[..2] == ["rooted", "x"];
    assert RootedXYPath == Join("/", parts);
    SplitJoinedFile(parts);
  }

  const RootedXZPath := "rooted/x/z"

  lemma ComponentsRootedXZ()
    ensures SplitPath(RootedXZPath) == Some((["rooted", "x"], Some("z")))
  {
    var parts := ["rooted", "x", "z"];
    assert parts[..2] == ["rooted", "x"];
    assert RootedXZPath == Join("/", parts);
    SplitJoinedFile(parts);
  }

  const RootedXFilePyPath := "rooted/x/file.py"

  lemma ComponentsRootedXFilePy()
    ensures SplitPath(RootedXFilePyPath) == Some((["rooted", "x"], Some("file.py")))
  {
    var parts := ["rooted", "x", "file.py"];
    assert parts[..2] == ["rooted", "x"];
    JoinedRootedXFilePy();
    SplitJoinedFile(parts);
  }

  lemma JoinedRootedXFilePy()
    ensures Join("/", ["rooted", "x", "file.py"]) == RootedXFilePyPath
  {
  }

  const RootedXYZPath := "rooted/x/y/z"

  lemma ComponentsRootedXYZ()
    ensures SplitPath(RootedXYZPath) == Some((["rooted", "x", "y"], Some("z")))
  {
    var parts := ["rooted", "x", "y", "z"];
    assert parts[..3] == ["rooted", "x", "y"];
    assert RootedXYZPath == Join("/", parts);
    SplitJoinedFile(parts);
  }

  const ARootedPath := "a/rooted"

  lemma ComponentsARooted()
    ensures SplitPath(ARootedPath) == Some((["a"], Some("rooted")))
  {
    var parts := ["a", "rooted"];
    assert parts[..1] == ["a"];
    assert ARootedPath == Join("/", parts);
    SplitJoinedFile(parts);
  }

  const ARootedXPath := "a/rooted/x"

  lemma ComponentsARootedX()
    ensures SplitPath(ARootedXPath) == Some((["a", "rooted"], Some("x")))
  {
    var parts := ["a", "rooted", "x"];
    assert parts[..2] == ["a", "rooted"];
    assert ARootedXPath == Join("/", parts);
    SplitJoinedFile(parts);
  }

  const ARootedXYPath := "a/rooted/x/y"

  lemma ComponentsARootedXY()
    ensures SplitPath(ARootedXYPath) == Some((["a", "rooted", "x"], Some("y")))
  {
    var parts := ["a", "rooted", "x", "y"];
    assert parts[..3] == ["a", "rooted", "x"];
    assert ARootedXYPath == Join("/", parts);
    SplitJoinedFile(parts);
  }

  const ARootedXZPath := "a/rooted/x/z"

  lemma ComponentsARootedXZ()
    ensures SplitPath(ARootedXZPath) == Some((["a", "rooted", "x"], Some("z")))
  {
    var parts := ["a", "rooted", "x", "z"];
    assert parts[..3] == ["a", "rooted", "x"];
    assert ARootedXZPath == Join("/", parts);
    SplitJoinedFile(parts);
  }

  const ARootedXFilePyPath := "a/rooted/x/file.py"

  lemma ComponentsARootedXFilePy()
    ensures SplitPath(ARootedXFilePyPath) == Some((["a", "rooted", "x"], Some("file.py")))
  {
    var parts := ["a", "rooted", "x", "file.py"];
    assert parts[..3] == ["a", "rooted", "x"];
    JoinedARootedXFilePy();
    SplitJoinedFile(parts);
  }

  lemma JoinedARootedXFilePy()
    ensures Join("/", ["a", "rooted", "x", "file.py"]) == ARootedXFilePyPath
  {
  }

  const ARootedXYZPath := "a/rooted/x/y/z"

  lemma ComponentsARootedXYZ()
    ensures SplitPath(ARootedXYZPath) == Some((["a", "rooted", "x", "y"], Some("z")))
  {
    var parts := ["a", "rooted", "x", "y", "z"];
    assert parts[..4] == ["a", "rooted", "x", "y"];
    JoinedARootedXYZ();
    SplitJoinedFile(parts);
  }

  lemma JoinedARootedXYZ()
    ensures Join("/", ["a", "rooted", "x", "y", "z"]) == ARootedXYZPath
  {
  }

  const SubdirPath := "subdir"

  lemma ComponentsSubdir()
    ensures SplitPath(SubdirPath) == Some(([], Some("subdir")))
  {
    var parts := ["subdir"];
    assert parts[..0] == [];
    assert SubdirPath == Join("/", parts);
    SplitJoinedFile(parts);
  }

  const SubdirDirPath := "subdir/"

  lemma ComponentsSubdirDir()
    ensures SplitPath(SubdirDirPath) == Some((["subdir"], None))
  {
    var parts := ["subdir"];
    assert SubdirDirPath == Join("/", parts) + "/";
    SplitJoinedDir(parts);
  }

  const SubdirXPath := "subdir/x"

  lemma ComponentsSubdirX()
    ensures SplitPath(SubdirXPath) == Some((["subdir"], Some("x")))
  {
    var parts := ["subdir", "x"];
    assert parts[..1] == ["subdir"];
    assert SubdirXPath == Join("/", parts);
    SplitJoinedFile(parts);
  }

  const XSubdirPath := "x/subdir"

  lemma ComponentsXSubdir()
    ensures SplitPath(XSubdirPath) == Some((["x"], Some("subdir")))
  {
    var parts := ["x", "subdir"];
    assert parts[..1] == ["x"];
    assert XSubdirPath == Join("/", parts);
    SplitJoinedFile(parts);
  }

  const XSubdirDirPath := "x/subdir/"

  lemma ComponentsXSubdirDir()
    ensures SplitPath(XSubdirDirPath) == Some((["x", "subdir"], None))
  {
    var parts := ["x", "subdir"];
    assert XSubdirDirPath == Join("/", parts) + "/";
    SplitJoinedDir(parts);
  }

  const XSubdirXPath := "x/subdir/x"

  lemma ComponentsXSubdirX()
    ensures SplitPath(XSubdirXPath) == Some((["x", "subdir"], Some("x")))
  {
    var parts := ["x", "subdir", "x"];
    assert parts[..2] == ["x", "subdir"];
    assert XSubdirXPath == Join("/", parts);
    SplitJoinedFile(parts);
  }

  const RootedSubdirPath := "rooted-subdir"

  lemma ComponentsRootedSubdir()
    ensures SplitPath(RootedSubdirPath) == Some(([], Some("rooted-subdir")))
  {
    var parts := ["rooted-subdir"];
    assert parts[..0] == [];
    assert RootedSubdirPath == Join("/", parts);
    SplitJoinedFile(parts);
  }

  const RootedSubdirDirPath := "rooted-subdir/"

  lemma ComponentsRootedSubdirDir()
    ensures SplitPath(RootedSubdirDirPath) == Some((["rooted-subdir"], None))
  {
    var parts := ["rooted-subdir"];
    JoinedRootedSubdirDir();
    SplitJoinedDir(parts);
  }

  lemma JoinedRootedSubdirDir()
    ensures Join("/", ["rooted-subdir"]) + "/" == RootedSubdirDirPath
  {
  }

  const RootedSubdirXPath := "rooted-subdir/x"

  lemma ComponentsRootedSubdirX()
    ensures SplitPath(RootedSubdirXPath) == Some((["rooted-subdir"], Some("x")))
  {
    var parts := ["rooted-subdir", "x"];
    assert parts[..1] == ["rooted-subdir"];
    JoinedRootedSubdirX();
    SplitJoinedFile(parts);
  }

  lemma JoinedRootedSubdirX()
    ensures Join("/", ["rooted-subdir", "x"]) == RootedSubdirXPath
  {
  }

  const XRootedSubdirPath := "x/rooted-subdir"

  lemma ComponentsXRootedSubdir()
    ensures SplitPath(XRootedSubdirPath) == Some((["x"], Some("rooted-subdir")))
  {
    var parts := ["x", "rooted-subdir"];
    assert parts[..1] == ["x"];
    JoinedXRootedSubdir();
    SplitJoinedFile(parts);
  }

  lemma JoinedXRootedSubdir()
    ensures Join("/", ["x", "rooted-subdir"]) == XRootedSubdirPath
  {
  }

  const XRootedSubdirDirPath := "x/rooted-subdir/"

  lemma ComponentsXRootedSubdirDir()
    ensures SplitPath(XRootedSubdirDirPath) == Some((["x", "rooted-subdir"], None))
  {
    var parts := ["x", "rooted-subdir"];
    JoinedXRootedSubdirDir();
    SplitJoinedDir(parts);
  }

  lemma JoinedXRootedSubdirDir()
    ensures Join("/", ["x", "rooted-subdir"]) + "/" == XRootedSubdirDirPath
  {
  }

  const XRootedSubdirXPath := "x/rooted-subdir/x"

  lemma ComponentsXRootedSubdirX()
    ensures SplitPath(XRootedSubdirXPath) == Some((["x", "rooted-subdir"], Some("x")))
  {
    var parts := ["x", "rooted-subdir", "x"];
    assert parts[..2] == ["x", "rooted-subdir"];
    JoinedXRootedSubdirX();
    SplitJoinedFile(parts);
  }

  lemma JoinedXRootedSubdirX()
    ensures Join("/", ["x", "rooted-subdir", "x"]) == XRootedSubdirXPath
  {
  }

  // ---------------------------------------------------------------------
  // The self-test, path by path

  /** Suffix patterns match a file name at any depth, and `!` patterns exclude again; a directory named `fname` takes in all below it. */
  lemma SuffixChecks()
    ensures PathVerdict(TableSet, "fname") == Ok(true)
    ensures PathVerdict(TableSet, "abc.c") == Ok(true)
    ensures PathVerdict(TableSet, "abc/def.c") == Ok(true)
    ensures PathVerdict(TableSet, "abc.yy.c") == Ok(false)
    ensures PathVerdict(TableSet, "abc/def.yy.c") == Ok(false)
    ensures PathVerdict(TableSet, "fname/xyz") == Ok(true)
    ensures PathVerdict(TableSet, "fname/abc.yy.c") == Ok(true)
  {
    ComponentsFname();
    CheckFname();
    ComponentsAbcC();
    CheckAbcC();
    ComponentsAbcDefC();
    CheckAbcDefC();
    ComponentsAbcYyC();
    CheckAbcYyC();
    ComponentsAbcDefYyC();
    CheckAbcDefYyC();
    ComponentsFnameXyz();
    CheckFnameXyz();
    ComponentsFnameAbcYyC();
    CheckFnameAbcYyC();
  }

  /** A pattern with a leading `/` matches from the root. */
  lemma RootedChecks()
    ensures PathVerdict(TableSet, "rooted") == Ok(false)
    ensures PathVerdict(TableSet, "rooted/x") == Ok(false)
    ensures PathVerdict(TableSet, "rooted/x/y") == Ok(true)
    ensures PathVerdict(TableSet, "rooted/x/z") == Ok(false)
    ensures PathVerdict(TableSet, "rooted/x/file.py") == Ok(true)
    ensures PathVerdict(TableSet, "rooted/x/y/z") == Ok(true)
  {
    ComponentsRooted();
    CheckRooted();
    ComponentsRootedX();
    CheckRootedX();
    ComponentsRootedXY();
    CheckRootedXY();
    ComponentsRootedXZ();
    CheckRootedXZ();
    ComponentsRootedXFilePy();
    CheckRootedXFilePy();
    ComponentsRootedXYZ();
    CheckRootedXYZ();
  }

  /** The same paths one level down match none of the rooted patterns. */
  lemma NestedRootedChecks()
    ensures PathVerdict(TableSet, "a/rooted") == Ok(false)
    ensures PathVerdict(TableSet, "a/rooted/x") == Ok(false)
    ensures PathVerdict(TableSet, "a/rooted/x/y") == Ok(false)
    ensures PathVerdict(TableSet, "a/rooted/x/z") == Ok(false)
    ensures PathVerdict(TableSet, "a/rooted/x/file.py") == Ok(false)
    ensures PathVerdict(TableSet, "a/rooted/x/y/z") == Ok(false)
  {
    ComponentsARooted();
    CheckARooted();
    ComponentsARootedX();
    CheckARootedX();
    ComponentsARootedXY();
    CheckARootedXY();
    ComponentsARootedXZ();
    CheckARootedXZ();
    ComponentsARootedXFilePy();
    CheckARootedXFilePy();
    ComponentsARootedXYZ();
    CheckARootedXYZ();
  }

  /** A directory pattern matches the directory and all below it, but not a file of that name. */
  lemma SubdirChecks()
    ensures PathVerdict(TableSet, "subdir") == Ok(false)
    ensures PathVerdict(TableSet, "subdir/") == Ok(true)
    ensures PathVerdict(TableSet, "subdir/x") == Ok(true)
  {
    ComponentsSubdir();
    CheckSubdir();
    ComponentsSubdirDir();
    CheckSubdirDir();
    ComponentsSubdirX();
    CheckSubdirX();
  }

  /** An unrooted directory pattern matches at any depth. */
  lemma NestedSubdirChecks()
    ensures PathVerdict(TableSet, "x/subdir") == Ok(false)
    ensures PathVerdict(TableSet, "x/subdir/") == Ok(true)
    ensures PathVerdict(TableSet, "x/subdir/x") == Ok(true)
  {
    ComponentsXSubdir();
    CheckXSubdir();
    ComponentsXSubdirDir();
    CheckXSubdirDir();
    ComponentsXSubdirX();
    CheckXSubdirX();
  }

  /** A rooted directory pattern matches at the root. */
  lemma RootedSubdirChecks()
    ensures PathVerdict(TableSet, "rooted-subdir") == Ok(false)
    ensures PathVerdict(TableSet, "rooted-subdir/") == Ok(true)
    ensures PathVerdict(TableSet, "rooted-subdir/x") == Ok(true)
  {
    ComponentsRootedSubdir();
    CheckRootedSubdir();
    ComponentsRootedSubdirDir();
    CheckRootedSubdirDir();
    ComponentsRootedSubdirX();
    CheckRootedSubdirX();
  }

  /** A rooted directory pattern matches nowhere else. */
  lemma NestedRootedSubdirChecks()
    ensures PathVerdict(TableSet, "x/rooted-subdir") == Ok(false)
    ensures PathVerdict(TableSet, "x/rooted-subdir/") == Ok(false)
    ensures PathVerdict(TableSet, "x/rooted-subdir/x") == Ok(false)
  {
    ComponentsXRootedSubdir();
    CheckXRootedSubdir();
    ComponentsXRootedSubdirDir();
    CheckXRootedSubdirDir();
    ComponentsXRootedSubdirX();
    CheckXRootedSubdirX();
  }
}
