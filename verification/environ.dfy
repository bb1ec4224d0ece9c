/**
 * Environ: the typed configuration variables a rule file may set
 * (`lib/header/environ.py`). Each variable has a type object that reads a
 * value from its text form and writes it back; boolean variables also have
 * a default that a bare `name` line selects.
 */
module Environ {
  import opened Text

  /** The Python values a variable can hold. */
  datatype Value = Bool(b: bool) | Int(i: int) | Str(s: string)

  /** `BoolType`, `IntType(minval, maxval)` and `StringType`; `None` bounds are absent. */
  datatype VarType = BoolType | IntType(minval: Option<int>, maxval: Option<int>) | StringType

  /** Python truthiness of a value. */
  predicate Truthy(v: Value)
  {
    match v
    case Bool(b) => b
    case Int(i) => i != 0
    case Str(s) => s != ""
  }

  /** `str(v)`, which is also what `'{}'.format(v)` inserts. */
  function Show(v: Value): string
  {
    match v
    case Bool(b) => if b then "True" else "False"
    case Int(i) => IntToString(i)
    case Str(s) => s
  }

  /**
   * `'{!r}'.format(s)` for a string holding no `'`, backslash or control
   * character; `repr`'s double quotes and escapes for the others are not modelled.
   */
  function Quote(s: string): string
  {
    "'" + s + "'"
  }

  /** The numeric value of a boolean or an integer, as Python compares them. */
  function Number(v: Value): Option<int>
  {
    match v
    case Bool(b) => Some(if b then 1 else 0)
    case Int(i) => Some(i)
    case Str(_) => None
  }

  /** Python `==` on values: `True == 1` and `False == 0`. */
  predicate PyEq(a: Value, b: Value)
  {
    if Number(a).Some? && Number(b).Some? then Number(a) == Number(b) else a == b
  }

  predicate InRange(minval: Option<int>, maxval: Option<int>, v: int)
  {
    (minval.None? || minval.value <= v) && (maxval.None? || v <= maxval.value)
  }

  /** The values `read` can produce for a type. */
  predicate HasType(t: VarType, v: Value)
  {
    match t
    case BoolType => v.Bool?
    case IntType(lo, hi) => v.Int? && InRange(lo, hi, v.i)
    case StringType => v.Str?
  }

  /** `vartype.read(x)`; `Err` is the `ValueError` it raises. */
  function ReadValue(t: VarType, x: string): (r: Result<Value>)
    ensures r.Ok? ==> HasType(t, r.value)
  {
    match t
    case BoolType =>
      if x == "true" then Ok(Bool(true))
      else if x == "false" then Ok(Bool(false))
      else Err("expected true or false")
    case IntType(lo, hi) =>
      (match ParseInt(x)
       case None => Err("invalid literal for int() with base 10: " + Quote(x))
       case Some(v) =>
         if lo.Some? && v < lo.value then Err("value cannot be less than " + IntToString(lo.value))
         else if hi.Some? && v > hi.value then Err("value cannot be more than " + IntToString(hi.value))
         else Ok(Int(v)))
    case StringType => Ok(Str(x))
  }

  /** `vartype.write(v)` as `dump_var` formats it. */
  function WriteValue(t: VarType, v: Value): string
  {
    match t
    case BoolType => if Truthy(v) then "true" else "false"
    case IntType(_, _) => Show(v)
    case StringType => Show(v)
  }

  /** The `default` attribute; only `BoolType` has one. */
  function Default(t: VarType): Option<Value>
  {
    if t.BoolType? then Some(Bool(true)) else None
  }

  /** A variable table: names with their types, looked up front to back. */
  type Table = seq<(string, VarType)>

  /** The type a table gives `name`, or `None` when the name is not in it. */
  function TypeOf(types: Table, name: string): (r: Option<VarType>)
    ensures r.Some? <==> exists k :: 0 <= k < |types| && types[k].0 == name
  {
    if types == [] then None
    else if types[0].0 == name then Some(types[0].1)
    else
      var r := TypeOf(types[1..], name);
      assert forall k :: 1 <= k < |types| ==> types[k] == types[1..][k - 1];
      r
  }

  /** An entry whose name no earlier entry has is the one `TypeOf` finds. */
  lemma {:induction false} TypeOfAt(types: Table, k: nat)
    requires k < |types| && forall j :: 0 <= j < k ==> types[j].0 != types[k].0
    ensures TypeOf(types, types[k].0) == Some(types[k].1)
  {
    if k > 0 {
      assert types[k] == types[1..][k - 1];
      TypeOfAt(types[1..], k - 1);
    }
  }

  /** `ENV_TYPES` exactly as `lib/header/environ.py` lists it. */
  const EnvTypesAsWritten: Table := [
    ("ignore", BoolType),
    ("guardname", StringType),
    ("guards", BoolType),
    ("width", IntType(Some(0), None)),
    ("tabsize", IntType(Some(1), Some(8))),
    ("extern_c", BoolType),
    ("config_header", StringType)
  ]

  /**
   * The variable table the rest of the model uses: `ENV_TYPES` plus the three
   * variables that `DEFAULT_ENV` in `lib/header/rule.py` gives defaults for
   * but the table does not declare (`guard_prefix`, `copyright_notice`,
   * `fix_copyright`), typed after those defaults.
   */
  const EnvTypes: Table :=
    EnvTypesAsWritten + [("guard_prefix", StringType), ("copyright_notice", StringType), ("fix_copyright", BoolType)]

  /** `parse_var` against a given variable table; `value` is `None` for a bare name. */
  function ParseVarIn(types: Table, name: string, value: Option<string>): (r: Result<Value>)
    ensures TypeOf(types, name).None? ==> r == Err("unknown variable: " + Quote(name))
    ensures r.Ok? ==> TypeOf(types, name).Some? && HasType(TypeOf(types, name).value, r.value)
  {
    match TypeOf(types, name)
    case None => Err("unknown variable: " + Quote(name))
    case Some(t) =>
      match value
      case None =>
        if Default(t).Some? then Ok(Default(t).value) else Err("missing value for " + name)
      case Some(x) =>
        match ReadValue(t, x)
        case Ok(v) => Ok(v)
        case Err(m) => Err("invalid value for " + name + ": " + m)
  }

  function ParseVar(name: string, value: Option<string>): Result<Value>
  {
    ParseVarIn(EnvTypes, name, value)
  }

  /** `dump_var`: the bare name for a default value, otherwise `name = text`. */
  function DumpVar(name: string, v: Value): (r: Result<string>)
    ensures r.Err? <==> TypeOf(EnvTypes, name).None?
    ensures r.Ok? ==> StartsWith(r.value, name)
  {
    match TypeOf(EnvTypes, name)
    case None => Err("unknown variable: " + Quote(name))
    case Some(t) =>
      if Default(t).Some? && PyEq(v, Default(t).value) then Ok(name)
      else Ok(name + " = " + WriteValue(t, v))
  }

  // ---------------------------------------------------------------------
  // Properties

  /** A bare name selects the default of a boolean variable and is an error for the others. */
  lemma BareName(name: string)
    requires TypeOf(EnvTypes, name).Some?
    ensures TypeOf(EnvTypes, name).value.BoolType? ==> ParseVar(name, None) == Ok(Bool(true))
    ensures !TypeOf(EnvTypes, name).value.BoolType? ==> ParseVar(name, None) == Err("missing value for " + name)
  {
  }

  /** `BoolType.read` accepts exactly the two words `true` and `false`. */
  lemma BoolReadExact(x: string)
    ensures ReadValue(BoolType, x).Ok? <==> x == "true" || x == "false"
    ensures ReadValue(BoolType, x).Ok? ==> ReadValue(BoolType, x).value == Bool(x == "true")
  {
  }

  /** `IntType.read` accepts exactly the integer literals whose value is within the bounds. */
  lemma IntReadBounds(lo: Option<int>, hi: Option<int>, x: string)
    ensures ReadValue(IntType(lo, hi), x).Ok? <==> ParseInt(x).Some? && InRange(lo, hi, ParseInt(x).value)
    ensures ReadValue(IntType(lo, hi), x).Ok? ==> ReadValue(IntType(lo, hi), x).value == Int(ParseInt(x).value)
  {
  }

  /** A parsed `width` is never negative and a parsed `tabsize` lies between 1 and 8. */
  lemma SettingBounds(x: Option<string>)
    ensures ParseVar("width", x).Ok? ==> ParseVar("width", x).value.Int? && ParseVar("width", x).value.i >= 0
    ensures ParseVar("tabsize", x).Ok? ==>
              ParseVar("tabsize", x).value.Int? && 1 <= ParseVar("tabsize", x).value.i <= 8
  {
    TypeOfAt(EnvTypes, 3);
    TypeOfAt(EnvTypes, 4);
  }

  /** `read` undoes `write` for every value of the type. */
  lemma ReadWrite(t: VarType, v: Value)
    requires HasType(t, v)
    ensures ReadValue(t, WriteValue(t, v)) == Ok(v)
  {
    if t.IntType? {
      ParseIntRoundTrip(v.i);
    }
  }

  /** What `dump_var` writes, `parse_var` reads back as the same value. */
  lemma DumpParse(name: string, v: Value)
    requires TypeOf(EnvTypes, name).Some? && HasType(TypeOf(EnvTypes, name).value, v)
    ensures DumpVar(name, v) == Ok(name) ==> ParseVar(name, None) == Ok(v)
    ensures DumpVar(name, v) != Ok(name) ==>
              DumpVar(name, v) == Ok(name + " = " + WriteValue(TypeOf(EnvTypes, name).value, v)) &&
              ParseVar(name, Some(WriteValue(TypeOf(EnvTypes, name).value, v))) == Ok(v)
  {
    var t := TypeOf(EnvTypes, name).value;
    ReadWrite(t, v);
    if DumpVar(name, v) != Ok(name) {
      assert DumpVar(name, v) == Ok(name + " = " + WriteValue(t, v));
    }
  }
}
