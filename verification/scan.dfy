/**
 * Scan: the directory walk of `lib/header/scan.py`, over an in-memory tree.
 *
 * A directory's rules are the inherited rules, then its `.gitignore`, then
 * its `.header` rule file. Its regular files are reported first, each with
 * the environment the rules give it, and then its subdirectories are walked
 * in listing order. Optional include and exclude pattern sets narrow the walk;
 * an ignored directory, or one holding `.git`, is not entered at all.
 *
 * The file system becomes a `Node` tree: a directory listing is the
 * sequence of entries in `os.listdir` order, `lstat` is the node's kind
 * (a symbolic link or any other special file is `Other`), and opening
 * `.gitignore` or `.header` succeeds exactly when a regular file of that
 * name is listed.
 */
module Scan {
  import opened Text
  import opened Pattern
  import opened Environ
  import opened Rule

  datatype Node =
    | File(name: string, lines: seq<string>)
    | Dir(name: string, entries: seq<Node>)
    | Other(name: string)

  /** A reported file: its path, as components below the starting point, and its environment. */
  datatype Found = Found(path: seq<string>, env: Env)

  /** The `ValueError` raised while reading a `.header` file. */
  datatype Failure = Failure(path: seq<string>, lineno: nat, reason: string)

  /** What a walk reports before it stops: the files, and the error that stopped it, if any. */
  datatype Output = Output(found: seq<Found>, failure: Option<Failure>)

  /** Reporting `a` and then, unless `a` stopped with an error, `b`. */
  function Then(a: Output, b: Output): Output
  {
    if a.failure.Some? then a else Output(a.found + b.found, b.failure)
  }

  /** The contents of the first regular file called `name`, if the listing has one. */
  function Named(entries: seq<Node>, name: string): (r: Option<seq<string>>)
    ensures r.Some? ==> File(name, r.value) in entries
  {
    if entries == [] then None
    else if entries[0].File? && entries[0].name == name then Some(entries[0].lines)
    else Named(entries[1..], name)
  }

  /** `os.path.exists(os.path.join(fpath, '.git'))` for a subdirectory. */
  predicate HasGit(d: Node)
    requires d.Dir?
  {
    exists i | 0 <= i < |d.entries| :: d.entries[i].name == ".git"
  }

  /** `Rules.read` applied to the lines of a `.header` file. */
  const ReadHeader: seq<string> -> Read<Rules> := lines => ReadRules(lines, Current)

  /** The rules in force in a directory: the inherited ones, united with `.gitignore` and then `.header`. */
  function RulesHere(rules: Rules, entries: seq<Node>): Read<Rules>
  {
    var withIgnore := match Named(entries, ".gitignore")
                      case None => rules
                      case Some(lines) => UnionRules(rules, ReadGitignore(lines), Current);
    match Named(entries, ".header")
    case None => Parsed(withIgnore)
    case Some(lines) =>
      match ReadHeader(lines)
      case Failed(n, m) => Failed(n, m)
      case Parsed(h) => Parsed(UnionRules(withIgnore, h, Current))
  }

  /** The names of the regular files of a listing, in order. */
  function FilesOf(entries: seq<Node>): (r: seq<string>)
    ensures forall f :: f in r ==> exists lines :: File(f, lines) in entries
  {
    if entries == [] then []
    else
      var rest := FilesOf(entries[..|entries| - 1]);
      var e := entries[|entries| - 1];
      assert forall x :: x in entries[..|entries| - 1] ==> x in entries;
      rest + (if e.File? then [e.name] else [])
  }

  /** The subdirectories of a listing, in order. */
  function DirsOf(entries: seq<Node>): (r: seq<Node>)
    ensures forall d :: d in r ==> d.Dir? && d in entries
  {
    if entries == [] then []
    else
      var rest := DirsOf(entries[..|entries| - 1]);
      var e := entries[|entries| - 1];
      assert forall x :: x in entries[..|entries| - 1] ==> x in entries;
      rest + (if e.Dir? then [e] else [])
  }

  /** The include and exclude tests a file has to pass. */
  predicate Selected(includes: Option<PatternSet>, excludes: Option<PatternSet>, fname: string)
  {
    && (includes.None? || FileVerdict(includes.value.entries, fname))
    && !(excludes.Some? && FileVerdict(excludes.value.entries, fname))
  }

  /** The environment a file is yielded with, or `None` when the filters or the rules skip it. */
  function Admitted(rs: Rules, includes: Option<PatternSet>, excludes: Option<PatternSet>, fname: string): Option<Env>
  {
    if Selected(includes, excludes, fname) then FileEnv(rs, fname, Current) else None
  }

  /** The names that `admit` lets through, each below `path` with the environment `admit` gives it. */
  function Reported(path: seq<string>, names: seq<string>, admit: string -> Option<Env>): seq<Found>
  {
    if names == [] then []
    else
      var f := names[|names| - 1];
      Reported(path, names[..|names| - 1], admit) + (if admit(f).Some? then [Found(path + [f], admit(f).value)] else [])
  }

  /** The files of a directory the walk reports, in order. */
  function FilesFound(rs: Rules, path: seq<string>, names: seq<string>,
                      includes: Option<PatternSet>, excludes: Option<PatternSet>): seq<Found>
  {
    Reported(path, names, f => Admitted(rs, includes, excludes, f))
  }

  /**
   * The include and exclude sets for a subdirectory, or `None` when it is
   * skipped: a full include match drops the include filter for the whole
   * subtree, an include set with nothing left skips the directory, a full
   * exclude match skips it, and an exclude set with nothing left is dropped.
   */
  function SubFilters(includes: Option<PatternSet>, excludes: Option<PatternSet>, name: string)
    : Option<(Option<PatternSet>, Option<PatternSet>)>
  {
    var inc: Option<Option<PatternSet>> :=
      if includes.None? then Some(None)
      else
        var m := Descend(includes.value, name);
        if m.0 then Some(None) else if !NonEmptySet(m.1) then None else Some(Some(m.1));
    var exc: Option<Option<PatternSet>> :=
      if excludes.None? then Some(None)
      else
        var m := Descend(excludes.value, name);
        if m.0 then None else if !NonEmptySet(m.1) then Some(None) else Some(Some(m.1));
    if inc.None? || exc.None? then None else Some((inc.value, exc.value))
  }

  /** `scan_dir` on a directory whose inherited rules are `rules`. */
  function Walk(rules: Rules, path: seq<string>, dir: Node,
                includes: Option<PatternSet>, excludes: Option<PatternSet>): Output
    requires dir.Dir?
    decreases dir, 1
  {
    match RulesHere(rules, dir.entries)
    case Failed(n, m) => Output([], Some(Failure(path + [".header"], n, m)))
    case Parsed(rs) =>
      Then(Output(FilesFound(rs, path, FilesOf(dir.entries), includes, excludes), None),
           WalkDirs(rs, path, DirsOf(dir.entries), includes, excludes, dir))
  }

  /** The loop of `scan_dir` over the subdirectories `subs` of `parent`. */
  function WalkDirs(rs: Rules, path: seq<string>, subs: seq<Node>,
                    includes: Option<PatternSet>, excludes: Option<PatternSet>, parent: Node): Output
    requires parent.Dir? && forall d :: d in subs ==> d.Dir? && d in parent.entries
    decreases parent, 0, |subs|
  {
    if subs == [] then Output([], None)
    else
      assert subs[0] in parent.entries;
      Then(WalkSub(rs, path, subs[0], includes, excludes),
           WalkDirs(rs, path, subs[1..], includes, excludes, parent))
  }

  /** One subdirectory: skipped by the filters, ignored by the rules, a repository of its own, or walked. */
  function WalkSub(rs: Rules, path: seq<string>, d: Node,
                   includes: Option<PatternSet>, excludes: Option<PatternSet>): Output
    requires d.Dir?
    decreases d, 2
  {
    match SubFilters(includes, excludes, d.name)
    case None => Output([], None)
    case Some(filters) =>
      match DirRules(rs, d.name, Current)
      case None => Output([], None)
      case Some(drs) =>
        if HasGit(d) then Output([], None)
        else Walk(drs, path + [d.name], d, filters.0, filters.1)
  }

  // ---------------------------------------------------------------------
  // The walk, step by step

  /** `scan_dir`: everything it yields, in order, and the error it stops with, if any. */
  method ScanDir(rules: Rules, path: seq<string>, dir: Node,
                 includes: Option<PatternSet>, excludes: Option<PatternSet>) returns (out: Output)
    requires dir.Dir?
    ensures out == Walk(rules, path, dir, includes, excludes)
    decreases dir, 1
  {
    var read := LoadRules(rules, dir.entries);
    if read.Failed? {
      return Output([], Some(Failure(path + [".header"], read.lineno, read.reason)));
    }
    var rs := read.value;
    var files, dirs := Classify(dir.entries);
    var found := ReportFiles(rs, path, files, includes, excludes);

    out := Output(found, None);
    var j := 0;
    while j < |dirs|
      invariant 0 <= j <= |dirs| && out.failure.None?
      invariant Then(out, WalkDirs(rs, path, dirs[j..], includes, excludes, dir)) == Walk(rules, path, dir, includes, excludes)
    {
      assert dirs[j] in dir.entries;
      var sub := ScanChild(rs, path, dirs[j], includes, excludes);
      ThenAssociates(out, sub, WalkDirs(rs, path, dirs[j + 1..], includes, excludes, dir));
      out := Then(out, sub);
      if out.failure.Some? {
        return;
      }
      j := j + 1;
    }
  }

  /** The two `open` calls at the top of `scan_dir`: `.gitignore`, then `.header`. */
  method LoadRules(rules: Rules, entries: seq<Node>) returns (r: Read<Rules>)
    ensures r == RulesHere(rules, entries)
  {
    var rs := rules;
    var ignoreFile := Named(entries, ".gitignore");
    if ignoreFile.Some? {
      rs := UnionRules(rs, ReadGitignore(ignoreFile.value), Current);
    }
    var ruleFile := Named(entries, ".header");
    if ruleFile.Some? {
      var read := ReadFile(".header", ruleFile.value, Current);
      match read {
        case Failed(n, m) =>
          return Failed(n, m);
        case Parsed(h) =>
          rs := UnionRules(rs, h, Current);
      }
    }
    return Parsed(rs);
  }

  /** The `lstat` loop: the regular files and the subdirectories of a listing, in listing order. */
  method Classify(entries: seq<Node>) returns (files: seq<string>, dirs: seq<Node>)
    ensures files == FilesOf(entries) && dirs == DirsOf(entries)
  {
    files, dirs := [], [];
    var i := 0;
    while i < |entries|
      invariant 0 <= i <= |entries|
      invariant files == FilesOf(entries[..i]) && dirs == DirsOf(entries[..i])
    {
      assert entries[..i + 1][..i] == entries[..i];
      var e := entries[i];
      if e.File? {
        files := files + [e.name];
      } else if e.Dir? {
        dirs := dirs + [e];
      }
      i := i + 1;
    }
    assert entries[..i] == entries;
  }

  /** The loop of `scan_dir` over the regular files. */
  method ReportFiles(rs: Rules, path: seq<string>, files: seq<string>,
                     includes: Option<PatternSet>, excludes: Option<PatternSet>) returns (found: seq<Found>)
    ensures found == FilesFound(rs, path, files, includes, excludes)
  {
    found := [];
    var k := 0;
    while k < |files|
      invariant 0 <= k <= |files|
      invariant found == FilesFound(rs, path, files[..k], includes, excludes)
    {
      FilesFoundStep(rs, path, files, k, includes, excludes);
      found := ReportFile(rs, path, files[k], includes, excludes, found);
      k := k + 1;
    }
    assert files[..k] == files;
  }

  /** One pass of the file loop: the filters, then `file_env`. */
  method ReportFile(rs: Rules, path: seq<string>, fname: string,
                    includes: Option<PatternSet>, excludes: Option<PatternSet>, found: seq<Found>)
    returns (found': seq<Found>)
    ensures found' == found + (var env := Admitted(rs, includes, excludes, fname);
                               if env.Some? then [Found(path + [fname], env.value)] else [])
  {
    found' := found;
    if includes.Some? {
      var included := MatchFileSet(includes.value, fname);
      if !included {
        assert found' == found + [];
        return;
      }
    }
    if excludes.Some? {
      var excluded := MatchFileSet(excludes.value, fname);
      if excluded {
        assert found' == found + [];
        return;
      }
    }
    var env := ResolveFileEnv(rs, fname, Current);
    if env.None? {
      assert found' == found + [];
      return;
    }
    found' := found + [Found(path + [fname], env.value)];
  }

  /** One pass of the directory loop of `scan_dir`, including the recursive walk. */
  method ScanChild(rs: Rules, path: seq<string>, d: Node,
                   includes: Option<PatternSet>, excludes: Option<PatternSet>) returns (out: Output)
    requires d.Dir?
    ensures out == WalkSub(rs, path, d, includes, excludes)
    decreases d, 2
  {
    var filters := NarrowFilters(includes, excludes, d.name);
    if filters.None? {
      return Output([], None);
    }
    var drules := ResolveDirRules(rs, d.name, Current);
    if drules.None? {
      return Output([], None);
    }
    if HasGit(d) {
      return Output([], None);
    }
    out := ScanDir(drules.value, path + [d.name], d, filters.value.0, filters.value.1);
  }

  lemma FilesFoundStep(rs: Rules, path: seq<string>, files: seq<string>, k: nat,
                       includes: Option<PatternSet>, excludes: Option<PatternSet>)
    requires k < |files|
    ensures FilesFound(rs, path, files[..k + 1], includes, excludes) ==
            FilesFound(rs, path, files[..k], includes, excludes) +
            (var env := Admitted(rs, includes, excludes, files[k]);
             if env.Some? then [Found(path + [files[k]], env.value)] else [])
  {
    assert files[..k + 1][..k] == files[..k];
  }

  /** The include and exclude tests of the directory loop of `scan_dir`. */
  method NarrowFilters(includes: Option<PatternSet>, excludes: Option<PatternSet>, name: string)
    returns (r: Option<(Option<PatternSet>, Option<PatternSet>)>)
    ensures r == SubFilters(includes, excludes, name)
  {
    var dirIncludes: Option<PatternSet> := None;
    if includes.Some? {
      var full, sub := MatchDirSet(includes.value, name);
      if full {
        dirIncludes := None;
      } else if sub.entries == [] {
        return None;
      } else {
        dirIncludes := Some(sub);
      }
    }
    var dirExcludes: Option<PatternSet> := None;
    if excludes.Some? {
      var full, sub := MatchDirSet(excludes.value, name);
      if full {
        return None;
      } else if sub.entries == [] {
        dirExcludes := None;
      } else {
        dirExcludes := Some(sub);
      }
    }
    return Some((dirIncludes, dirExcludes));
  }

  // ---------------------------------------------------------------------
  // Properties

  lemma ThenAssociates(a: Output, b: Output, c: Output)
    ensures Then(Then(a, b), c) == Then(a, Then(b, c))
  {
  }

  lemma {:induction false} FilesOfIndex(entries: seq<Node>, f: string) returns (i: nat)
    requires f in FilesOf(entries)
    ensures i < |entries| && entries[i].File? && entries[i].name == f
  {
    var n := |entries| - 1;
    if f in FilesOf(entries[..n]) {
      i := FilesOfIndex(entries[..n], f);
    } else {
      i := n;
    }
  }

  lemma {:induction false} FilesOfFrom(entries: seq<Node>, i: nat)
    requires i < |entries| && entries[i].File?
    ensures entries[i].name in FilesOf(entries)
  {
    var n := |entries| - 1;
    if i < n {
      assert entries[..n][i] == entries[i];
      FilesOfFrom(entries[..n], i);
    }
  }

  /** The file loop sees exactly the regular files of the listing; links and other entries are in neither list. */
  lemma Classified(entries: seq<Node>, f: string, d: Node)
    ensures f in FilesOf(entries) <==> exists i :: 0 <= i < |entries| && entries[i].File? && entries[i].name == f
    ensures d in DirsOf(entries) <==> d in entries && d.Dir?
  {
    if f in FilesOf(entries) {
      var i := FilesOfIndex(entries, f);
    }
    if exists i :: 0 <= i < |entries| && entries[i].File? && entries[i].name == f {
      var i :| 0 <= i < |entries| && entries[i].File? && entries[i].name == f;
      FilesOfFrom(entries, i);
    }
    if d in entries && d.Dir? {
      DirsOfFrom(entries, d);
    }
  }

  lemma {:induction false} DirsOfFrom(entries: seq<Node>, d: Node)
    requires d in entries && d.Dir?
    ensures d in DirsOf(entries)
  {
    var n := |entries| - 1;
    if d != entries[n] {
      assert d in entries[..n];
      DirsOfFrom(entries[..n], d);
    }
  }

  lemma {:induction false} ReportedSource(path: seq<string>, names: seq<string>, admit: string -> Option<Env>, x: Found)
    returns (i: nat)
    requires x in Reported(path, names, admit)
    ensures i < |names| && x.path == path + [names[i]] && admit(names[i]) == Some(x.env)
  {
    var n := |names| - 1;
    if x in Reported(path, names[..n], admit) {
      i := ReportedSource(path, names[..n], admit, x);
    } else {
      i := n;
    }
  }

  lemma {:induction false} ReportedFrom(path: seq<string>, names: seq<string>, admit: string -> Option<Env>, i: nat)
    requires i < |names| && admit(names[i]).Some?
    ensures Found(path + [names[i]], admit(names[i]).value) in Reported(path, names, admit)
  {
    var n := |names| - 1;
    if i < n {
      assert names[..n][i] == names[i];
      ReportedFrom(path, names[..n], admit, i);
    }
  }

  /** A file of the loop's list comes out exactly when it passes both filters and `file_env` keeps it. */
  lemma FoundSource(rs: Rules, path: seq<string>, names: seq<string>,
                    includes: Option<PatternSet>, excludes: Option<PatternSet>, x: Found)
    returns (i: nat)
    requires x in FilesFound(rs, path, names, includes, excludes)
    ensures i < |names| && x.path == path + [names[i]]
    ensures Selected(includes, excludes, names[i]) && FileEnv(rs, names[i], Current) == Some(x.env)
  {
    i := ReportedSource(path, names, f => Admitted(rs, includes, excludes, f), x);
  }

  lemma FoundFrom(rs: Rules, path: seq<string>, names: seq<string>,
                  includes: Option<PatternSet>, excludes: Option<PatternSet>, i: nat)
    requires i < |names| && Selected(includes, excludes, names[i]) && FileEnv(rs, names[i], Current).Some?
    ensures Found(path + [names[i]], FileEnv(rs, names[i], Current).value) in FilesFound(rs, path, names, includes, excludes)
  {
    ReportedFrom(path, names, f => Admitted(rs, includes, excludes, f), i);
  }

  /** Every file the walk of `path` yields lies below `path`. */
  lemma {:induction false} WalkUnder(rules: Rules, path: seq<string>, dir: Node,
                                     includes: Option<PatternSet>, excludes: Option<PatternSet>)
    requires dir.Dir?
    ensures forall x :: x in Walk(rules, path, dir, includes, excludes).found ==> |x.path| > |path| && x.path[..|path|] == path
    decreases dir, 1
  {
    match RulesHere(rules, dir.entries)
    case Failed(_, _) =>
    case Parsed(rs) =>
      var files := FilesFound(rs, path, FilesOf(dir.entries), includes, excludes);
      var subs := WalkDirs(rs, path, DirsOf(dir.entries), includes, excludes, dir);
      WalkDirsUnder(rs, path, DirsOf(dir.entries), includes, excludes, dir);
      forall x | x in Walk(rules, path, dir, includes, excludes).found
        ensures |x.path| > |path| && x.path[..|path|] == path
      {
        assert x in files || x in subs.found;
        if x in files {
          var i := FoundSource(rs, path, FilesOf(dir.entries), includes, excludes, x);
          assert x.path[..|path|] == path;
        }
      }
  }

  /** Every file yielded from a subdirectory of `path` lies at least two levels below it. */
  lemma {:induction false} WalkDirsUnder(rs: Rules, path: seq<string>, subs: seq<Node>,
                                         includes: Option<PatternSet>, excludes: Option<PatternSet>, parent: Node)
    requires parent.Dir? && forall d :: d in subs ==> d.Dir? && d in parent.entries
    ensures forall x :: x in WalkDirs(rs, path, subs, includes, excludes, parent).found ==>
              |x.path| > |path| + 1 && x.path[..|path|] == path
    decreases parent, 0, |subs|
  {
    if subs != [] {
      assert subs[0] in parent.entries;
      var first := WalkSub(rs, path, subs[0], includes, excludes);
      var rest := WalkDirs(rs, path, subs[1..], includes, excludes, parent);
      assert WalkDirs(rs, path, subs, includes, excludes, parent) == Then(first, rest);
      WalkSubUnder(rs, path, subs[0], includes, excludes);
      WalkDirsUnder(rs, path, subs[1..], includes, excludes, parent);
      forall x | x in Then(first, rest).found
        ensures |x.path| > |path| + 1 && x.path[..|path|] == path
      {
        ThenFound(first, rest, x);
        if x in first.found {
          assert x.path[..|path|] == x.path[..|path| + 1][..|path|];
        }
      }
    }
  }

  /** Every file yielded from the subdirectory `d` of `path` lies below `path` extended by `d`'s name. */
  lemma {:induction false} WalkSubUnder(rs: Rules, path: seq<string>, d: Node,
                                        includes: Option<PatternSet>, excludes: Option<PatternSet>)
    requires d.Dir?
    ensures forall x :: x in WalkSub(rs, path, d, includes, excludes).found ==>
              |x.path| > |path| + 1 && x.path[..|path| + 1] == path + [d.name]
    decreases d, 2
  {
    var filters := SubFilters(includes, excludes, d.name);
    var drs := DirRules(rs, d.name, Current);
    if filters.Some? && drs.Some? && !HasGit(d) {
      var sub := path + [d.name];
      assert WalkSub(rs, path, d, includes, excludes) == Walk(drs.value, sub, d, filters.value.0, filters.value.1);
      WalkUnder(drs.value, sub, d, filters.value.0, filters.value.1);
    } else {
      assert WalkSub(rs, path, d, includes, excludes).found == [];
    }
  }

  lemma ThenFound(a: Output, b: Output, x: Found)
    ensures x in Then(a, b).found <==> x in a.found || (a.failure.None? && x in b.found)
  {
  }

  lemma {:induction false} WalkDirsSource(rs: Rules, path: seq<string>, subs: seq<Node>,
                                          includes: Option<PatternSet>, excludes: Option<PatternSet>, parent: Node, x: Found)
    returns (k: nat)
    requires parent.Dir? && forall d :: d in subs ==> d.Dir? && d in parent.entries
    requires x in WalkDirs(rs, path, subs, includes, excludes, parent).found
    ensures k < |subs| && x in WalkSub(rs, path, subs[k], includes, excludes).found
    decreases |subs|
  {
    ThenFound(WalkSub(rs, path, subs[0], includes, excludes), WalkDirs(rs, path, subs[1..], includes, excludes, parent), x);
    if x in WalkSub(rs, path, subs[0], includes, excludes).found {
      k := 0;
    } else {
      var k' := WalkDirsSource(rs, path, subs[1..], includes, excludes, parent, x);
      k := k' + 1;
    }
  }

  /**
   * A file found below a subdirectory `d` comes from walking `d` with the
   * narrowed filters and `d`'s rules: `d` passed the include and exclude
   * tests, `dir_rules` did not ignore it, and it holds no `.git`.
   */
  lemma SubtreeSource(rules: Rules, path: seq<string>, dir: Node,
                      includes: Option<PatternSet>, excludes: Option<PatternSet>, x: Found)
    returns (d: Node)
    requires dir.Dir? && x in Walk(rules, path, dir, includes, excludes).found && |x.path| > |path| + 1
    ensures RulesHere(rules, dir.entries).Parsed?
    ensures d.Dir? && d in dir.entries && x.path[|path|] == d.name && !HasGit(d)
    ensures var rs := RulesHere(rules, dir.entries).value;
            var filters := SubFilters(includes, excludes, d.name);
            var drs := DirRules(rs, d.name, Current);
            && filters.Some? && drs.Some?
            && x in Walk(drs.value, path + [d.name], d, filters.value.0, filters.value.1).found
  {
    var rs := RulesHere(rules, dir.entries).value;
    var files := FilesFound(rs, path, FilesOf(dir.entries), includes, excludes);
    var subs := DirsOf(dir.entries);
    ThenFound(Output(files, None), WalkDirs(rs, path, subs, includes, excludes, dir), x);
    if x in files {
      var i := FoundSource(rs, path, FilesOf(dir.entries), includes, excludes, x);
      assert false;
    }
    var k := WalkDirsSource(rs, path, subs, includes, excludes, dir, x);
    d := subs[k];
    WalkSubUnder(rs, path, d, includes, excludes);
    assert x.path[|path|] == x.path[..|path| + 1][|path|];
  }

  /**
   * Nothing below a subdirectory called `name` is yielded when the filters
   * skip that name, when `dir_rules` ignores it, or when every directory of
   * that name holds `.git`.
   */
  lemma SubtreeCut(rules: Rules, path: seq<string>, dir: Node,
                   includes: Option<PatternSet>, excludes: Option<PatternSet>, name: string)
    requires dir.Dir? && RulesHere(rules, dir.entries).Parsed?
    requires || SubFilters(includes, excludes, name).None?
             || DirRules(RulesHere(rules, dir.entries).value, name, Current).None?
             || forall d :: d in dir.entries && d.Dir? && d.name == name ==> HasGit(d)
    ensures forall x :: x in Walk(rules, path, dir, includes, excludes).found && |x.path| > |path| + 1 ==> x.path[|path|] != name
  {
    forall x | x in Walk(rules, path, dir, includes, excludes).found && |x.path| > |path| + 1
      ensures x.path[|path|] != name
    {
      var d := SubtreeSource(rules, path, dir, includes, excludes, x);
    }
  }

  /**
   * The file `f` of a directory is yielded with `env` exactly when it is a
   * regular file of the listing, it passes the include and exclude tests,
   * and `file_env` gives it `env`.
   */
  lemma FileReported(rules: Rules, path: seq<string>, dir: Node,
                     includes: Option<PatternSet>, excludes: Option<PatternSet>, f: string, env: Env)
    requires dir.Dir? && RulesHere(rules, dir.entries).Parsed?
    ensures Found(path + [f], env) in Walk(rules, path, dir, includes, excludes).found <==>
            && (exists i :: 0 <= i < |dir.entries| && dir.entries[i].File? && dir.entries[i].name == f)
            && Selected(includes, excludes, f)
            && FileEnv(RulesHere(rules, dir.entries).value, f, Current) == Some(env)
  {
    var rs := RulesHere(rules, dir.entries).value;
    var names := FilesOf(dir.entries);
    var files := FilesFound(rs, path, names, includes, excludes);
    var x := Found(path + [f], env);
    ThenFound(Output(files, None), WalkDirs(rs, path, DirsOf(dir.entries), includes, excludes, dir), x);
    WalkDirsUnder(rs, path, DirsOf(dir.entries), includes, excludes, dir);
    Classified(dir.entries, f, dir);
    if x in files {
      var i := FoundSource(rs, path, names, includes, excludes, x);
      assert names[i] == (path + [names[i]])[|path|];
    }
    if f in names && Selected(includes, excludes, f) && FileEnv(rs, f, Current) == Some(env) {
      var i :| 0 <= i < |names| && names[i] == f;
      FoundFrom(rs, path, names, includes, excludes, i);
    }
  }

  /** Within one directory, its own files are all yielded before any file from a subdirectory. */
  lemma FilesFirst(rules: Rules, path: seq<string>, dir: Node,
                   includes: Option<PatternSet>, excludes: Option<PatternSet>)
    requires dir.Dir?
    ensures var found := Walk(rules, path, dir, includes, excludes).found;
            forall i, j :: 0 <= i < j < |found| && |found[j].path| == |path| + 1 ==> |found[i].path| == |path| + 1
  {
    if RulesHere(rules, dir.entries).Parsed? {
      var rs := RulesHere(rules, dir.entries).value;
      var files := FilesFound(rs, path, FilesOf(dir.entries), includes, excludes);
      var subs := WalkDirs(rs, path, DirsOf(dir.entries), includes, excludes, dir);
      var found := Walk(rules, path, dir, includes, excludes).found;
      assert found == files + subs.found;
      WalkDirsUnder(rs, path, DirsOf(dir.entries), includes, excludes, dir);
      forall i, j | 0 <= i < j < |found| && |found[j].path| == |path| + 1
        ensures |found[i].path| == |path| + 1
      {
        if j < |files| {
          assert found[i] == files[i];
          var k := FoundSource(rs, path, FilesOf(dir.entries), includes, excludes, files[i]);
        } else {
          assert false;
        }
      }
    }
  }

  /**
   * The ignore file is united into the inherited rules before the rule file:
   * the children come in the order inherited, ignore file, rule file, and a
   * setting of the rule file wins over an inherited one.
   */
  lemma RuleFileWins(rules: Rules, entries: seq<Node>, k: string)
    requires Named(entries, ".header").Some? ==> ReadRules(Named(entries, ".header").value, Current).Parsed?
    ensures RulesHere(rules, entries).Parsed?
    ensures var rs := RulesHere(rules, entries).value;
            var ignore := Named(entries, ".gitignore");
            var header := Named(entries, ".header");
            var h := if header.Some? then ReadRules(header.value, Current).value else Rules(map[], []);
            && rs.rules == rules.rules + (if ignore.Some? then ReadGitignore(ignore.value).rules else []) + h.rules
            && (k in h.env ==> k in rs.env && rs.env[k] == h.env[k])
            && (k !in h.env ==> (k in rs.env <==> k in rules.env) && (k in rules.env ==> rs.env[k] == rules.env[k]))
  {
    var ignore := Named(entries, ".gitignore");
    var header := Named(entries, ".header");
    var ig := if ignore.Some? then Some(ReadGitignore(ignore.value)) else None;
    var h := if header.Some? then ReadRules(header.value, Current).value else Rules(map[], []);
    LayeredRules(rules, ig, h, k);
    var g := if ig.Some? then UnionRules(rules, ig.value, Current) else rules;
    assert RulesHere(rules, entries) == Parsed(UnionRules(g, h, Current));
  }

  /** The union of the inherited rules, the ignore file's rules if any, and the rule file's. */
  lemma LayeredRules(rules: Rules, ig: Option<Rules>, h: Rules, k: string)
    requires ig.Some? ==> ig.value.env == map[]
    ensures var g := if ig.Some? then UnionRules(rules, ig.value, Current) else rules;
            var rs := UnionRules(g, h, Current);
            && rs.rules == rules.rules + (if ig.Some? then ig.value.rules else []) + h.rules
            && (k in h.env ==> k in rs.env && rs.env[k] == h.env[k])
            && (k !in h.env ==> (k in rs.env <==> k in rules.env) && (k in rules.env ==> rs.env[k] == rules.env[k]))
  {
    var g := if ig.Some? then UnionRules(rules, ig.value, Current) else rules;
    if ig.Some? {
      UnionMerges(rules, ig.value, k);
    }
    UnionMerges(g, h, k);
  }

  /** Once the include patterns fully match a directory, its whole subtree is walked with no include filter. */
  lemma IncludeDropped(includes: Option<PatternSet>, excludes: Option<PatternSet>, name: string)
    requires includes.Some? && Descend(includes.value, name).0
    ensures SubFilters(includes, excludes, name).None? <==> excludes.Some? && Descend(excludes.value, name).0
    ensures SubFilters(includes, excludes, name).Some? ==> SubFilters(includes, excludes, name).value.0.None?
  {
  }

  /** A directory the exclude patterns fully match is skipped, whatever the include patterns say. */
  lemma ExcludeWins(includes: Option<PatternSet>, excludes: Option<PatternSet>, name: string)
    requires excludes.Some? && Descend(excludes.value, name).0
    ensures SubFilters(includes, excludes, name).None?
  {
  }
}
