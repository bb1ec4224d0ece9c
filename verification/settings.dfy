/**
 * Settings: the `.header` settings file of the single-file tool `header.py`.
 *
 * A `.header` file is a JSON object. Each key names a setter that checks
 * the type of its value and stores it in the options that apply to the
 * directory and everything below it; an unknown key or a value of the
 * wrong type is a `SettingError`, and the first one ends the reading.
 */
module Settings {
  import opened Text
  import opened Legacy
  import Environ

  /** A decoded JSON value. Numbers with a fraction or exponent are kept as their text. */
  datatype Json =
    | JNull
    | JBool(b: bool)
    | JNum(n: int)
    | JReal(text: string)
    | JStr(s: string)
    | JList(items: seq<Json>)
    | JObject(fields: seq<(string, Json)>)

  /** The range of a Python 2 `int` on a 64-bit build; the JSON decoder makes larger integers `long`. */
  const IntMin: int := -0x8000_0000_0000_0000
  const IntMax: int := 0x7FFF_FFFF_FFFF_FFFF

  /** `isinstance(value, int)`: a `bool` is an `int` in Python 2, a `long` is not. */
  predicate IsInt(v: Json)
  {
    v.JBool? || (v.JNum? && IntMin <= v.n <= IntMax)
  }

  /** The integer an `int` value stands for: `True` is 1 and `False` is 0. */
  function IntOf(v: Json): (i: int)
    requires IsInt(v)
    ensures IntMin <= i <= IntMax
  {
    if v.JBool? then (if v.b then 1 else 0) else v.n
  }

  /** The options a `.header` file can change. */
  datatype Options = Options(
    guardPrefix: string,
    guardRoot: string,
    filter: LegacySet,
    guards: bool,
    width: int,
    tabsize: int,
    externc: bool,
    configh: bool)

  /** The setters of `SETKEYS`. */
  datatype Setter = GuardPrefix | Ignore | Guards | Width | Tabsize | ExternC | ConfigH

  const SetKeys: map<string, Setter> := map[
    "guard_prefix" := GuardPrefix,
    "ignore" := Ignore,
    "guards" := Guards,
    "width" := Width,
    "tabsize" := Tabsize,
    "extern_c" := ExternC,
    "configh" := ConfigH
  ]

  /** The condition `set_tabsize` writes, `1 < value < 8`. */
  predicate TabsizeAsWritten(i: int)
  {
    1 < i < 8
  }

  /** The range its message and the default of 8 call for, `1 <= value <= 8`. */
  predicate TabsizeOk(i: int)
  {
    1 <= i <= 8
  }

  /** `set_ignore`'s view of its value: a string stands for a list of one. */
  function IgnoreList(v: Json): (r: Option<seq<string>>)
    ensures r.Some? <==> v.JStr? || (v.JList? && forall i :: 0 <= i < |v.items| ==> v.items[i].JStr?)
    ensures r.Some? && v.JStr? ==> r.value == [v.s]
    ensures r.Some? && v.JList? ==> |r.value| == |v.items| && forall i :: 0 <= i < |r.value| ==> v.items[i] == JStr(r.value[i])
  {
    if v.JStr? then Some([v.s])
    else if !v.JList? then None
    else StringItems(v.items)
  }

  /** The strings of a list, when every item is one. */
  function StringItems(items: seq<Json>): (r: Option<seq<string>>)
    ensures r.Some? <==> forall i :: 0 <= i < |items| ==> items[i].JStr?
    ensures r.Some? ==> |r.value| == |items| && forall i :: 0 <= i < |items| ==> items[i] == JStr(r.value[i])
  {
    if items == [] then Some([])
    else if !items[0].JStr? then None
    else
      var rest := StringItems(items[1..]);
      if rest.None? then None else Some([items[0].s] + rest.value)
  }

  /** What the setter for `key` does with `value`, read in the directory `dirpath`. */
  function Assign(s: Options, key: string, value: Json, dirpath: string): (r: Result<Options>)
  {
    if key !in SetKeys then Err("unknown setting u'" + key + "'")
    else Apply(s, SetKeys[key], value, dirpath)
  }

  /** What one setter does. */
  function Apply(s: Options, setter: Setter, value: Json, dirpath: string): (r: Result<Options>)
  {
    match setter
    case GuardPrefix =>
      if !value.JStr? then Err("guard_prefix must be a string")
      else Ok(s.(guardPrefix := value.s, guardRoot := dirpath))
    case Ignore =>
      var pats := IgnoreList(value);
      if pats.None? then Err("ignore must be a string or list of strings")
      else Ok(s.(filter := LegacySet(s.filter.pats + ParseEntries(pats.value))))
    case Guards =>
      if !value.JBool? then Err("guards must be a boolean")
      else Ok(s.(guards := value.b))
    case Width =>
      if !IsInt(value) then Err("width must be integer")
      else Ok(s.(width := IntOf(value)))
    case Tabsize =>
      if !(IsInt(value) && TabsizeOk(IntOf(value))) then Err("tabsize must be integer between 1 and 8")
      else Ok(s.(tabsize := IntOf(value)))
    case ExternC =>
      if !value.JBool? then Err("externc must be a boolean")
      else Ok(s.(externc := value.b))
    case ConfigH =>
      if !value.JBool? then Err("configh must be a boolean")
      else Ok(s.(configh := value.b))
  }

  /** Whether the setter for `key` accepts `value`; it does not depend on the options already set. */
  predicate Accepts(key: string, value: Json)
  {
    key in SetKeys &&
    match SetKeys[key]
    case GuardPrefix => value.JStr?
    case Ignore => IgnoreList(value).Some?
    case Guards => value.JBool?
    case Width => IsInt(value)
    case Tabsize => IsInt(value) && TabsizeOk(IntOf(value))
    case ExternC => value.JBool?
    case ConfigH => value.JBool?
  }

  /**
   * `read_settings` over the object's fields in the order they are
   * visited: the options after the fields applied, and the first error.
   */
  function Run(s: Options, fields: seq<(string, Json)>, dirpath: string): (r: (Options, Option<string>))
    decreases |fields|
  {
    if fields == [] then (s, None)
    else match Assign(s, fields[0].0, fields[0].1, dirpath)
      case Err(msg) => (s, Some(msg))
      case Ok(t) => Run(t, fields[1..], dirpath)
  }

  /** The options a setter leaves behind: the new ones, or the old ones with the error. */
  function Outcome(s: Options, r: Result<Options>): (Options, Option<string>)
  {
    if r.Ok? then (r.value, None) else (s, Some(r.msg))
  }

  /** A setter succeeds exactly when its value has the right type, whatever was set before. */
  lemma AssignAccepts(s: Options, key: string, value: Json, dirpath: string)
    ensures Assign(s, key, value, dirpath).Ok? <==> Accepts(key, value)
    ensures key !in SetKeys ==> Assign(s, key, value, dirpath) == Err("unknown setting u'" + key + "'")
  {
  }

  /** The message of a failed setter does not depend on the options it was given. */
  lemma ErrorMessageFixed(s: Options, t: Options, key: string, value: Json, dirpath: string)
    requires !Accepts(key, value)
    ensures Assign(s, key, value, dirpath) == Assign(t, key, value, dirpath)
  {
  }

  /** A setter changes its own option and no other. */
  lemma ApplyFrame(s: Options, setter: Setter, value: Json, dirpath: string)
    requires Apply(s, setter, value, dirpath).Ok?
    ensures var t := Apply(s, setter, value, dirpath).value;
      && ((t.guardPrefix, t.guardRoot) == if setter == GuardPrefix then (value.s, dirpath) else (s.guardPrefix, s.guardRoot))
      && (t.filter == if setter == Ignore then LegacySet(s.filter.pats + ParseEntries(IgnoreList(value).value)) else s.filter)
      && (t.guards == if setter == Guards then value.b else s.guards)
      && (t.width == if setter == Width then IntOf(value) else s.width)
      && (t.tabsize == if setter == Tabsize then IntOf(value) else s.tabsize)
      && (t.externc == if setter == ExternC then value.b else s.externc)
      && (t.configh == if setter == ConfigH then value.b else s.configh)
  {
  }

  /** Reading succeeds exactly when every field names a setter that accepts its value. */
  lemma {:induction false} RunAccepts(s: Options, fields: seq<(string, Json)>, dirpath: string)
    ensures Run(s, fields, dirpath).1.None? <==> forall i :: 0 <= i < |fields| ==> Accepts(fields[i].0, fields[i].1)
    decreases |fields|
  {
    if fields != [] {
      AssignAccepts(s, fields[0].0, fields[0].1, dirpath);
      var r := Assign(s, fields[0].0, fields[0].1, dirpath);
      if r.Ok? {
        RunAccepts(r.value, fields[1..], dirpath);
        assert forall i :: 1 <= i < |fields| ==> fields[i] == fields[1..][i - 1];
      }
    }
  }

  /**
   * The first field a setter refuses gives the error, and the options are
   * those the fields before it set.
   */
  lemma {:induction false} RunStops(s: Options, fields: seq<(string, Json)>, dirpath: string, i: nat)
    requires i < |fields| && !Accepts(fields[i].0, fields[i].1)
    requires forall k :: 0 <= k < i ==> Accepts(fields[k].0, fields[k].1)
    ensures Run(s, fields, dirpath).1 == Some(Assign(s, fields[i].0, fields[i].1, dirpath).msg)
    ensures Run(s, fields, dirpath).0 == Run(s, fields[..i], dirpath).0
    decreases i
  {
    AssignAccepts(s, fields[0].0, fields[0].1, dirpath);
    if i > 0 {
      var t := Assign(s, fields[0].0, fields[0].1, dirpath).value;
      assert fields[1..][i - 1] == fields[i];
      assert fields[..i][1..] == fields[1..][..i - 1];
      RunStops(t, fields[1..], dirpath, i - 1);
      ErrorMessageFixed(s, t, fields[i].0, fields[i].1, dirpath);
    }
  }

  /** `set_tabsize` as written refuses both ends of the range its message names, 8 being the default. */
  lemma TabsizeEndsRefused()
    ensures !TabsizeAsWritten(1) && !TabsizeAsWritten(8)
    ensures TabsizeOk(1) && TabsizeOk(8)
  {
  }

  /** The corrected range is the one the settings of the rule engine give `tabsize`. */
  lemma TabsizeLikeEnviron(i: int)
    ensures TabsizeOk(i) <==> Environ.InRange(Some(1), Some(8), i)
    ensures TabsizeAsWritten(i) ==> TabsizeOk(i)
  {
  }

  /** The mutable options object the setters update. */
  class OptionsBox {
    var guardPrefix: string
    var guardRoot: string
    var filter: LegacySet
    var guards: bool
    var width: int
    var tabsize: int
    var externc: bool
    var configh: bool

    function State(): Options
      reads this
    {
      Options(guardPrefix, guardRoot, filter, guards, width, tabsize, externc, configh)
    }

    /** The options `header.py` starts from: its command-line defaults and an empty filter. */
    constructor (filter: LegacySet)
      ensures State() == Options("", "", filter, true, 0, 8, false, false)
    {
      this.guardPrefix := "";
      this.guardRoot := "";
      this.filter := filter;
      this.guards := true;
      this.width := 0;
      this.tabsize := 8;
      this.externc := false;
      this.configh := false;
    }

    /** `set_guard_prefix`: the prefix, and the directory it applies from. */
    method SetGuardPrefix(value: Json, dirpath: string) returns (err: Option<string>)
      modifies this
      ensures (State(), err) == Outcome(old(State()), Apply(old(State()), GuardPrefix, value, dirpath))
    {
      if !value.JStr? {
        return Some("guard_prefix must be a string");
      }
      guardPrefix := value.s;
      guardRoot := dirpath;
      return None;
    }

    /** `set_ignore`: new patterns go after the current ones. */
    method SetIgnore(value: Json, dirpath: string) returns (err: Option<string>)
      modifies this
      ensures (State(), err) == Outcome(old(State()), Apply(old(State()), Ignore, value, dirpath))
    {
      var pats: seq<string>;
      if !value.JList? {
        if value.JStr? {
          pats := [value.s];
        } else {
          return Some("ignore must be a string or list of strings");
        }
      } else {
        pats := [];
        var i := 0;
        while i < |value.items|
          invariant 0 <= i <= |value.items|
          invariant |pats| == i && forall k :: 0 <= k < i ==> value.items[k] == JStr(pats[k])
        {
          if !value.items[i].JStr? {
            return Some("ignore must be a string or list of strings");
          }
          pats := pats + [value.items[i].s];
          i := i + 1;
        }
        assert IgnoreList(value).Some?;
        assert IgnoreList(value).value == pats;
      }
      filter := AddPats(filter, pats);
      return None;
    }

    /** `set_guards`. */
    method SetGuards(value: Json, dirpath: string) returns (err: Option<string>)
      modifies this
      ensures (State(), err) == Outcome(old(State()), Apply(old(State()), Guards, value, dirpath))
    {
      if !value.JBool? {
        return Some("guards must be a boolean");
      }
      guards := value.b;
      return None;
    }

    /** `set_width`. */
    method SetWidth(value: Json, dirpath: string) returns (err: Option<string>)
      modifies this
      ensures (State(), err) == Outcome(old(State()), Apply(old(State()), Width, value, dirpath))
    {
      if !IsInt(value) {
        return Some("width must be integer");
      }
      width := IntOf(value);
      return None;
    }

    /** `set_tabsize`, with the range its message states. */
    method SetTabsize(value: Json, dirpath: string) returns (err: Option<string>)
      modifies this
      ensures (State(), err) == Outcome(old(State()), Apply(old(State()), Tabsize, value, dirpath))
    {
      if !(IsInt(value) && TabsizeOk(IntOf(value))) {
        return Some("tabsize must be integer between 1 and 8");
      }
      tabsize := IntOf(value);
      return None;
    }

    /** `set_externc`. */
    method SetExternC(value: Json, dirpath: string) returns (err: Option<string>)
      modifies this
      ensures (State(), err) == Outcome(old(State()), Apply(old(State()), ExternC, value, dirpath))
    {
      if !value.JBool? {
        return Some("externc must be a boolean");
      }
      externc := value.b;
      return None;
    }

    /** `set_configh`. */
    method SetConfigH(value: Json, dirpath: string) returns (err: Option<string>)
      modifies this
      ensures (State(), err) == Outcome(old(State()), Apply(old(State()), ConfigH, value, dirpath))
    {
      if !value.JBool? {
        return Some("configh must be a boolean");
      }
      configh := value.b;
      return None;
    }

    /** The `SETKEYS` lookup and the call of the setter found. */
    method Set(key: string, value: Json, dirpath: string) returns (err: Option<string>)
      modifies this
      ensures (State(), err) == Outcome(old(State()), Assign(old(State()), key, value, dirpath))
    {
      if key !in SetKeys {
        return Some("unknown setting u'" + key + "'");
      }
      var setter := SetKeys[key];
      match setter
      case GuardPrefix => err := SetGuardPrefix(value, dirpath);
      case Ignore => err := SetIgnore(value, dirpath);
      case Guards => err := SetGuards(value, dirpath);
      case Width => err := SetWidth(value, dirpath);
      case Tabsize => err := SetTabsize(value, dirpath);
      case ExternC => err := SetExternC(value, dirpath);
      case ConfigH => err := SetConfigH(value, dirpath);
    }

    /** `read_settings` on a decoded object: the fields in turn, up to the first error. */
    method ReadSettings(fields: seq<(string, Json)>, dirpath: string) returns (err: Option<string>)
      modifies this
      ensures (State(), err) == Run(old(State()), fields, dirpath)
    {
      var i := 0;
      while i < |fields|
        invariant 0 <= i <= |fields|
        invariant Run(old(State()), fields, dirpath) == Run(State(), fields[i..], dirpath)
      {
        assert fields[i..][1..] == fields[i + 1..];
        err := Set(fields[i].0, fields[i].1, dirpath);
        if err.Some? {
          return;
        }
        i := i + 1;
      }
      return None;
    }
  }
}
