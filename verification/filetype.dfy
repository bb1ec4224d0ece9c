/**
 * FileTypes: the extension table of `lib/header/filetype.py`.
 *
 * A file type has a name, the extensions that select it, and its comment
 * syntax: an optional line-comment marker and an optional pair of
 * block-comment delimiters. `_filetype` registers one type under each of its
 * extensions, refusing (with a failed `assert`) an empty extension list, a
 * block-comment spec that is not two words, and an extension registered
 * before. `get_filetype` looks a path's extension up, with `UNKNOWN` for
 * extensions nobody registered.
 */
module FileTypes {
  import opened Text

  datatype FileType = FileType(
    name: string,
    exts: seq<string>,
    linecomment: Option<string>,
    blockcomment: Option<(string, string)>)

  /** `UNKNOWN`: no extensions and no comment syntax. */
  const Unknown := FileType("unknown", [], None, None)

  /** The message of the `AssertionError` a failed `assert` raises. */
  const AssertFailed := "AssertionError"

  // ---------------------------------------------------------------------
  // Registration

  /**
   * The loop of `_filetype` over the extensions: each is checked against
   * the table and then entered. The flag is false when the loop stopped at
   * an extension already present, the earlier ones having been entered.
   */
  function AddExts(m: map<string, FileType>, es: seq<string>, v: FileType): (r: (map<string, FileType>, bool))
    decreases |es|
  {
    if es == [] then (m, true)
    else if es[0] in m then (m, false)
    else AddExts(m[es[0] := v], es[1..], v)
  }

  /** Registration never replaces an entry; what it adds is `v`, under one of `es`. */
  lemma {:induction false} AddExtsKeeps(m: map<string, FileType>, es: seq<string>, v: FileType)
    ensures forall k :: k in m ==> k in AddExts(m, es, v).0 && AddExts(m, es, v).0[k] == m[k]
    ensures forall k :: k in AddExts(m, es, v).0 && k !in m ==> k in es && AddExts(m, es, v).0[k] == v
    ensures AddExts(m, es, v).1 ==> forall k :: k in es ==> k in AddExts(m, es, v).0
    decreases |es|
  {
    if es != [] && es[0] !in m {
      AddExtsKeeps(m[es[0] := v], es[1..], v);
    }
  }

  /** The registration succeeds exactly when no extension was taken, nor given twice. */
  lemma {:induction false} AddExtsSucceeds(m: map<string, FileType>, es: seq<string>, v: FileType)
    ensures AddExts(m, es, v).1 <==>
      (forall i :: 0 <= i < |es| ==> es[i] !in m) && (forall i, j :: 0 <= i < j < |es| ==> es[i] != es[j])
    decreases |es|
  {
    if es != [] {
      if es[0] !in m {
        AddExtsSucceeds(m[es[0] := v], es[1..], v);
        if !AddExts(m, es, v).1 && (forall i :: 0 <= i < |es| ==> es[i] !in m) {
          var i :| 1 <= i < |es| && (es[i] in m[es[0] := v] || exists j :: i < j < |es| && es[i] == es[j]);
          if es[i] in m[es[0] := v] {
            assert es[0] == es[i];
          }
        }
      }
    }
  }

  /** `_filetype(name, exts, linecomment, blockcomment)` on the tables `EXTS` and `FILETYPES`. */
  function Registered(
    extTable: map<string, FileType>, types: map<string, FileType>,
    name: string, extlist: string, linecomment: Option<string>, blockcomment: Option<string>
  ): (map<string, FileType>, map<string, FileType>, Option<string>)
  {
    var es := Fields(extlist);
    if es == [] then (extTable, types, Some(AssertFailed))
    else if blockcomment.Some? && |Fields(blockcomment.value)| != 2 then (extTable, types, Some(AssertFailed))
    else
      var pair := if blockcomment.Some? then Some((Fields(blockcomment.value)[0], Fields(blockcomment.value)[1])) else None;
      var v := FileType(name, es, linecomment, pair);
      var added := AddExts(extTable, es, v);
      if added.1 then (added.0, types[name := v], None) else (added.0, types, Some(AssertFailed))
  }

  /** Every entry is a type that lists the extension it is found under; every type has an extension. */
  predicate Consistent(extTable: map<string, FileType>, types: map<string, FileType>)
  {
    && (forall e :: e in extTable ==> e in extTable[e].exts)
    && (forall n :: n in types ==> types[n].name == n && types[n].exts != [])
    && (forall e :: e in extTable ==> extTable[e].exts != [])
    && (forall e :: e in extTable && extTable[e].blockcomment.Some? ==>
          IsToken(extTable[e].blockcomment.value.0) && IsToken(extTable[e].blockcomment.value.1))
  }

  /**
   * Registration keeps the tables consistent (so a block-comment spec it
   * records is two whitespace-free words) and never changes an extension's type.
   */
  lemma RegisteredKeeps(
    extTable: map<string, FileType>, types: map<string, FileType>,
    name: string, extlist: string, linecomment: Option<string>, blockcomment: Option<string>)
    requires Consistent(extTable, types)
    ensures var r := Registered(extTable, types, name, extlist, linecomment, blockcomment);
      && Consistent(r.0, r.1)
      && (forall e :: e in extTable ==> e in r.0 && r.0[e] == extTable[e])
  {
    var es := Fields(extlist);
    if es != [] && !(blockcomment.Some? && |Fields(blockcomment.value)| != 2) {
      var pair := if blockcomment.Some? then Some((Fields(blockcomment.value)[0], Fields(blockcomment.value)[1])) else None;
      var v := FileType(name, es, linecomment, pair);
      AddExtsKeeps(extTable, es, v);
    }
    BlockSpecsKept(extTable, types, name, extlist, linecomment, blockcomment);
  }

  lemma BlockSpecsKept(
    extTable: map<string, FileType>, types: map<string, FileType>,
    name: string, extlist: string, linecomment: Option<string>, blockcomment: Option<string>)
    requires forall e :: e in extTable && extTable[e].blockcomment.Some? ==>
      IsToken(extTable[e].blockcomment.value.0) && IsToken(extTable[e].blockcomment.value.1)
    ensures var r := Registered(extTable, types, name, extlist, linecomment, blockcomment);
      forall e :: e in r.0 && r.0[e].blockcomment.Some? ==>
        IsToken(r.0[e].blockcomment.value.0) && IsToken(r.0[e].blockcomment.value.1)
  {
    var es := Fields(extlist);
    if es != [] && !(blockcomment.Some? && |Fields(blockcomment.value)| != 2) {
      var pair := if blockcomment.Some? then Some((Fields(blockcomment.value)[0], Fields(blockcomment.value)[1])) else None;
      var v := FileType(name, es, linecomment, pair);
      AddExtsKeeps(extTable, es, v);
    }
  }

  /** The module-level tables `EXTS` and `FILETYPES`, filled by `_filetype`. */
  class Registry {
    var extTable: map<string, FileType>
    var types: map<string, FileType>

    constructor()
      ensures extTable == map[] && types == map[]
    {
      extTable := map[];
      types := map[];
    }

    /** `_filetype`: `err` is the `AssertionError` of a failed check. */
    method Register(name: string, extlist: string, linecomment: Option<string>, blockcomment: Option<string>)
      returns (err: Option<string>)
      modifies this
      ensures (extTable, types, err) == Registered(old(extTable), old(types), name, extlist, linecomment, blockcomment)
    {
      var es := Fields(extlist);
      if es == [] {
        return Some(AssertFailed);
      }
      var pair: Option<(string, string)> := None;
      if blockcomment.Some? {
        var words := Fields(blockcomment.value);
        if |words| != 2 {
          return Some(AssertFailed);
        }
        pair := Some((words[0], words[1]));
      }
      var v := FileType(name, es, linecomment, pair);
      var i := 0;
      while i < |es|
        invariant 0 <= i <= |es|
        invariant AddExts(extTable, es[i..], v) == AddExts(old(extTable), es, v)
        invariant types == old(types)
      {
        assert es[i..][0] == es[i] && es[i..][1..] == es[i + 1..];
        if es[i] in extTable {
          return Some(AssertFailed);
        }
        extTable := extTable[es[i] := v];
        i := i + 1;
      }
      types := types[name := v];
      return None;
    }

    /** `get_filetype(path)`. */
    function Lookup(path: string): (t: FileType)
      reads this
      ensures Ext(path) !in extTable ==> t == Unknown
    {
      FiletypeOf(extTable, path)
    }
  }

  // ---------------------------------------------------------------------
  // Lookup

  /** The last index of `c` in `s`, or -1 (`s.rfind(c)`). */
  function LastIndex(s: string, c: char): (r: int)
    ensures -1 <= r < |s|
    ensures r >= 0 ==> s[r] == c
    ensures forall i :: r < i < |s| ==> s[i] != c
  {
    if s == [] then -1
    else if s[|s| - 1] == c then |s| - 1
    else LastIndex(s[..|s| - 1], c)
  }

  /**
   * `os.path.splitext(path)[1]`: from the last `.` of the last component on,
   * provided some character before that dot in the component is not a dot
   * (so `.bashrc` and `..` have no extension).
   */
  function Ext(path: string): (e: string)
    ensures e == [] || (e[0] == '.' && '/' !in e)
  {
    var sep := LastIndex(path, '/');
    var dot := LastIndex(path, '.');
    if dot > sep && exists i :: sep < i < dot && path[i] != '.' then
      assert forall k :: 0 <= k < |path[dot..]| ==> path[dot..][k] == path[dot + k];
      path[dot..]
    else []
  }

  /** `EXTS.get(os.path.splitext(path)[1], UNKNOWN)`. */
  function FiletypeOf(extTable: map<string, FileType>, path: string): FileType
  {
    if Ext(path) in extTable then extTable[Ext(path)] else Unknown
  }

  /** The type of a path depends on its extension alone. */
  lemma FiletypeByExt(extTable: map<string, FileType>, p: string, q: string)
    requires Ext(p) == Ext(q)
    ensures FiletypeOf(extTable, p) == FiletypeOf(extTable, q)
  {
  }

  /** An extension found in a consistent table gives a type that lists it; any other gives `UNKNOWN`. */
  lemma FiletypeListsExt(extTable: map<string, FileType>, types: map<string, FileType>, path: string)
    requires Consistent(extTable, types)
    ensures var t := FiletypeOf(extTable, path);
      (Ext(path) in t.exts) || (t == Unknown && Ext(path) !in extTable)
  {
  }

  /** `UNKNOWN` has no extension, so it is never found under one. */
  lemma UnknownUnlisted(extTable: map<string, FileType>, types: map<string, FileType>, path: string)
    requires Consistent(extTable, types)
    ensures FiletypeOf(extTable, path) == Unknown <==> Ext(path) !in extTable
  {
    if Ext(path) in extTable {
      assert extTable[Ext(path)].exts != [];
    }
  }

  // ---------------------------------------------------------------------
  // The table the module registers

  /** The nine registrations at import time, in order. */
  method Standard() returns (reg: Registry, errs: seq<Option<string>>)
    ensures fresh(reg)
    ensures Consistent(reg.extTable, reg.types)
  {
    reg := new Registry();
    var e1 := reg.Register("h", ".h", Some("//"), Some("/* */"));
    RegisteredKeeps(map[], map[], "h", ".h", Some("//"), Some("/* */"));
    var e2 := RegisterKept(reg, "hxx", ".hpp .hxx", Some("//"), Some("/* */"));
    var e3 := RegisterKept(reg, "c", ".c", Some("//"), Some("/* */"));
    var e4 := RegisterKept(reg, "cxx", ".cp .cpp .cxx", Some("//"), Some("/* */"));
    var e5 := RegisterKept(reg, "objc", ".m", Some("//"), Some("/* */"));
    var e6 := RegisterKept(reg, "python", ".py", Some("#"), None);
    var e7 := RegisterKept(reg, "shell", ".sh", Some("#"), None);
    var e8 := RegisterKept(reg, "xml", ".xml", None, Some("<!-- -->"));
    var e9 := RegisterKept(reg, "text", ".txt", None, None);
    errs := [e1, e2, e3, e4, e5, e6, e7, e8, e9];
  }

  /** One registration, with the consistency it keeps. */
  method RegisterKept(reg: Registry, name: string, extlist: string, linecomment: Option<string>, blockcomment: Option<string>)
    returns (err: Option<string>)
    requires Consistent(reg.extTable, reg.types)
    modifies reg
    ensures Consistent(reg.extTable, reg.types)
    ensures forall e :: e in old(reg.extTable) ==> e in reg.extTable && reg.extTable[e] == old(reg.extTable[e])
  {
    RegisteredKeeps(reg.extTable, reg.types, name, extlist, linecomment, blockcomment);
    err := reg.Register(name, extlist, linecomment, blockcomment);
  }
}
