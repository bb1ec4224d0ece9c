/**
 * Text: the handful of Python string and integer primitives the header
 * fixer relies on (`strip`, `split`, `find`, `upper`, `int()`, `str()`),
 * written out so that the rest of the model can state exact contracts.
 * Strings are `seq<char>`; Python 2 byte strings are modelled by their
 * characters, and "whitespace" is the ASCII set `str.strip()` removes.
 */
module Text {

  datatype Option<+T> = None | Some(value: T)

  /** A value, or the message of the exception raised instead. */
  datatype Result<+T> = Ok(value: T) | Err(msg: string)

  // ---------------------------------------------------------------------
  // Characters

  /** The characters Python's `str.strip()` / `str.split()` treat as whitespace. */
  predicate IsSpace(c: char)
  {
    c == ' ' || c == '\t' || c == '\n' || c == '\r' || c == '\U{0B}' || c == '\U{0C}'
  }

  predicate IsDigit(c: char)
  {
    '0' <= c <= '9'
  }

  predicate IsLower(c: char)
  {
    'a' <= c <= 'z'
  }

  predicate IsUpperLetter(c: char)
  {
    'A' <= c <= 'Z'
  }

  /** `[a-zA-Z0-9]`, the token class of the macro-name regular expressions. */
  predicate IsAlnum(c: char)
  {
    IsLower(c) || IsUpperLetter(c) || IsDigit(c)
  }

  /** `\w` of Python 2's `re` on byte strings: `[a-zA-Z0-9_]`. */
  predicate IsWord(c: char)
  {
    IsAlnum(c) || c == '_'
  }

  function UpperChar(c: char): (r: char)
    ensures IsLower(c) ==> IsUpperLetter(r)
    ensures !IsLower(c) ==> r == c
  {
    if IsLower(c) then (c as int - 'a' as int + 'A' as int) as char else c
  }

  /** `str.upper()` on ASCII text. */
  function Upper(s: string): (r: string)
    ensures |r| == |s|
    ensures forall i :: 0 <= i < |s| ==> r[i] == UpperChar(s[i])
  {
    if s == [] then [] else [UpperChar(s[0])] + Upper(s[1..])
  }

  /** True when the string is empty or all whitespace (Python: `not s.strip()`). */
  predicate IsBlank(s: string)
  {
    forall i :: 0 <= i < |s| ==> IsSpace(s[i])
  }

  predicate HasDigit(s: string)
  {
    exists i :: 0 <= i < |s| && IsDigit(s[i])
  }

  predicate AllDigits(s: string)
  {
    forall i :: 0 <= i < |s| ==> IsDigit(s[i])
  }

  predicate StartsWith(s: string, prefix: string)
  {
    |prefix| <= |s| && s[..|prefix|] == prefix
  }

  predicate EndsWith(s: string, suffix: string)
  {
    |suffix| <= |s| && s[|s| - |suffix|..] == suffix
  }

  // ---------------------------------------------------------------------
  // strip

  function LStrip(s: string): (r: string)
    ensures |r| <= |s|
  {
    if s != [] && IsSpace(s[0]) then LStrip(s[1..]) else s
  }

  /** `s.lstrip()` is a suffix of `s` that starts with a non-space, after only spaces. */
  lemma {:induction false} LStripSpec(s: string)
    ensures LStrip(s) == s[|s| - |LStrip(s)|..]
    ensures IsBlank(s[..|s| - |LStrip(s)|])
    ensures LStrip(s) != [] ==> !IsSpace(LStrip(s)[0])
    decreases |s|
  {
    if s != [] && IsSpace(s[0]) {
      LStripSpec(s[1..]);
      assert s[1..][|s[1..]| - |LStrip(s)|..] == s[|s| - |LStrip(s)|..];
      assert s[..|s| - |LStrip(s)|] == [s[0]] + s[1..][..|s[1..]| - |LStrip(s)|];
    }
  }

  function RStrip(s: string): (r: string)
    ensures |r| <= |s|
  {
    if s != [] && IsSpace(s[|s| - 1]) then RStrip(s[..|s| - 1]) else s
  }

  /** `s.rstrip()` is a prefix of `s` that ends in a non-space, followed only by spaces. */
  lemma {:induction false} RStripSpec(s: string)
    ensures RStrip(s) == s[..|RStrip(s)|]
    ensures IsBlank(s[|RStrip(s)|..])
    ensures RStrip(s) != [] ==> !IsSpace(RStrip(s)[|RStrip(s)| - 1])
    decreases |s|
  {
    if s != [] && IsSpace(s[|s| - 1]) {
      var t := s[..|s| - 1];
      RStripSpec(t);
      assert t[..|RStrip(t)|] == s[..|RStrip(t)|];
      assert s[|RStrip(t)|..] == t[|RStrip(t)|..] + [s[|s| - 1]];
    }
  }

  function Strip(s: string): (r: string)
    ensures |r| <= |s|
    ensures r != [] ==> !IsSpace(r[0]) && !IsSpace(r[|r| - 1])
    ensures r == [] <==> IsBlank(s)
  {
    LStripSpec(s);
    RStripSpec(LStrip(s));
    RStrip(LStrip(s))
  }

  lemma {:induction false} StripOfTrimmed(s: string)
    requires s != [] ==> !IsSpace(s[0]) && !IsSpace(s[|s| - 1])
    ensures Strip(s) == s && LStrip(s) == s && RStrip(s) == s
  {
  }

  /** Whitespace around a string does not change what `strip()` leaves. */
  lemma StripPadded(a: string, t: string, b: string)
    requires IsBlank(a) && IsBlank(b)
    ensures Strip(a + t + b) == Strip(t)
  {
    if IsBlank(t) {
      assert IsBlank(a + t + b);
    } else {
      assert a + t + b == a + (t + b);
      LStripAfterBlank(a, t + b);
      LStripKeepsTail(t, b);
      RStripBeforeBlank(LStrip(t), b);
    }
  }

  lemma {:induction false} LStripAfterBlank(a: string, s: string)
    requires IsBlank(a)
    ensures LStrip(a + s) == LStrip(s)
    decreases |a|
  {
    if a != [] {
      assert (a + s)[0] == a[0] && IsSpace(a[0]);
      assert (a + s)[1..] == a[1..] + s;
      assert IsBlank(a[1..]);
      LStripAfterBlank(a[1..], s);
    } else {
      assert a + s == s;
    }
  }

  lemma {:induction false} LStripKeepsTail(t: string, b: string)
    requires !IsBlank(t)
    ensures LStrip(t + b) == LStrip(t) + b
    decreases |t|
  {
    if IsSpace(t[0]) {
      assert (t + b)[1..] == t[1..] + b;
      LStripKeepsTail(t[1..], b);
    }
  }

  lemma {:induction false} RStripBeforeBlank(s: string, b: string)
    requires IsBlank(b)
    ensures RStrip(s + b) == RStrip(s)
    decreases |b|
  {
    if b != [] {
      var b' := b[..|b| - 1];
      assert s + b == (s + b') + [b[|b| - 1]];
      assert IsSpace(b[|b| - 1]) && IsBlank(b');
      RStripAppendSpace(s + b', b[|b| - 1]);
      RStripBeforeBlank(s, b');
    } else {
      assert s + b == s;
    }
  }

  lemma {:induction false} LStripPadding(p: string, w: string)
    requires IsBlank(p) && w != [] && !IsSpace(w[0])
    ensures LStrip(p + w) == w
    decreases |p|
  {
    if p != [] {
      assert (p + w)[1..] == p[1..] + w;
      LStripPadding(p[1..], w);
    }
  }

  lemma {:induction false} RStripPadding(w: string, q: string)
    requires IsBlank(q) && w != [] && !IsSpace(w[|w| - 1])
    ensures RStrip(w + q) == w
    decreases |q|
  {
    if q != [] {
      var q' := q[..|q| - 1];
      assert w + q == (w + q') + [q[|q| - 1]];
      RStripAppendSpace(w + q', q[|q| - 1]);
      RStripPadding(w, q');
    }
  }

  lemma RStripBlank(s: string)
    ensures RStrip(s) == [] <==> IsBlank(s)
  {
  }

  /** `s.rstrip()` keeps every character up to the last non-space one. */
  lemma RStripAppendSpace(s: string, c: char)
    requires IsSpace(c)
    ensures RStrip(s + [c]) == RStrip(s)
  {
    assert (s + [c])[..|s + [c]| - 1] == s;
  }

  /** `s.lstrip(c)` for a single character `c`: drops the leading copies of `c`. */
  function LStripChar(s: string, c: char): (r: string)
    ensures |r| <= |s| && r == s[|s| - |r|..]
    ensures r != [] ==> r[0] != c
    ensures forall i :: 0 <= i < |s| - |r| ==> s[i] == c
  {
    if s != [] && s[0] == c then LStripChar(s[1..], c) else s
  }

  /** `s.rstrip(c)` for a single character `c`: drops the trailing copies of `c`. */
  function RStripChar(s: string, c: char): (r: string)
    ensures |r| <= |s| && r == s[..|r|]
    ensures r != [] ==> r[|r| - 1] != c
    ensures forall i :: |r| <= i < |s| ==> s[i] == c
  {
    if s != [] && s[|s| - 1] == c then RStripChar(s[..|s| - 1], c) else s
  }

  /** `s.strip(c)`. */
  function StripChar(s: string, c: char): string
  {
    RStripChar(LStripChar(s, c), c)
  }

  /** A string that neither starts nor ends with `c` is its own `strip(c)`. */
  lemma StripCharUnchanged(s: string, c: char)
    requires s != [] ==> s[0] != c && s[|s| - 1] != c
    ensures StripChar(s, c) == s
  {
  }

  // ---------------------------------------------------------------------
  // split

  /** `s.split(c)`: always at least one piece; pieces never contain `c`. */
  function Split(s: string, c: char): (r: seq<string>)
    ensures |r| >= 1
    ensures forall i :: 0 <= i < |r| ==> c !in r[i]
  {
    if s == [] then [""]
    else if s[0] == c then [""] + Split(s[1..], c)
    else
      var rest := Split(s[1..], c);
      [[s[0]] + rest[0]] + rest[1..]
  }

  /** `sep.join(parts)`. */
  function Join(sep: string, parts: seq<string>): string
  {
    if parts == [] then ""
    else if |parts| == 1 then parts[0]
    else parts[0] + sep + Join(sep, parts[1..])
  }

  lemma {:induction false} SplitPrefix(x: string, c: char, t: string)
    requires c !in x
    ensures Split(x + [c] + t, c) == [x] + Split(t, c)
    decreases |x|
  {
    if x == [] {
      assert x + [c] + t == [c] + t;
      assert ([c] + t)[1..] == t;
    } else {
      var s := x + [c] + t;
      assert s[0] == x[0] && s[1..] == x[1..] + [c] + t;
      SplitPrefix(x[1..], c, t);
      assert [x[0]] + x[1..] == x;
    }
  }

  lemma {:induction false} SplitNoSep(x: string, c: char)
    requires c !in x
    ensures Split(x, c) == [x]
    decreases |x|
  {
    if x != [] {
      SplitNoSep(x[1..], c);
      assert [x[0]] + x[1..] == x;
    }
  }

  /** Splitting a join of separator-free pieces gives the pieces back. */
  lemma {:induction false} SplitJoin(parts: seq<string>, c: char)
    requires |parts| >= 1
    requires forall i :: 0 <= i < |parts| ==> c !in parts[i]
    ensures Split(Join([c], parts), c) == parts
  {
    if |parts| == 1 {
      SplitNoSep(parts[0], c);
    } else {
      SplitJoin(parts[1..], c);
      SplitPrefix(parts[0], c, Join([c], parts[1..]));
      assert [parts[0]] + parts[1..] == parts;
    }
  }

  /** `s` with every `c` replaced by `d` (`s.replace(c, d)` for single characters). */
  function ReplaceChar(s: string, c: char, d: char): (r: string)
    ensures |r| == |s|
    ensures forall i :: 0 <= i < |s| ==> r[i] == (if s[i] == c then d else s[i])
  {
    seq(|s|, i requires 0 <= i < |s| => if s[i] == c then d else s[i])
  }

  /** `[d].join(s.split(c))` replaces each `c` of `s` by `d`. */
  lemma {:induction false} JoinSplitReplace(s: string, c: char, d: char)
    ensures Join([d], Split(s, c)) == ReplaceChar(s, c, d)
    decreases |s|
  {
    if s != [] {
      JoinSplitReplace(s[1..], c, d);
      var rest := Split(s[1..], c);
      var t := ReplaceChar(s[1..], c, d);
      assert ReplaceChar(s, c, d) == [if s[0] == c then d else s[0]] + t;
      if s[0] == c {
        assert Split(s, c) == [""] + rest;
        assert Join([d], [""] + rest) == "" + [d] + Join([d], rest);
      } else {
        assert Split(s, c) == [[s[0]] + rest[0]] + rest[1..];
        if |rest| > 1 {
          assert Join([d], rest) == rest[0] + [d] + Join([d], rest[1..]);
        }
      }
    }
  }

  /** The pieces of `Split` with the empty ones dropped (`[p for p in s.split(c) if p]`). */
  function NonEmpty(parts: seq<string>): (r: seq<string>)
    ensures forall i :: 0 <= i < |r| ==> r[i] != "" && r[i] in parts
    ensures |r| <= |parts|
  {
    if parts == [] then []
    else if parts[0] == "" then NonEmpty(parts[1..])
    else [parts[0]] + NonEmpty(parts[1..])
  }

  lemma {:induction false} NonEmptyOfNonEmpty(parts: seq<string>)
    requires forall i :: 0 <= i < |parts| ==> parts[i] != ""
    ensures NonEmpty(parts) == parts
  {
    if parts != [] {
      NonEmptyOfNonEmpty(parts[1..]);
      assert [parts[0]] + parts[1..] == parts;
    }
  }

  lemma {:induction false} NonEmptyAppendEmpty(parts: seq<string>)
    ensures NonEmpty(parts + [""]) == NonEmpty(parts)
  {
    if parts == [] {
      assert [] + [""] == [""];
    } else {
      assert (parts + [""])[1..] == parts[1..] + [""];
      NonEmptyAppendEmpty(parts[1..]);
    }
  }

  lemma {:induction false} NonEmptyPrependEmpty(parts: seq<string>)
    ensures NonEmpty([""] + parts) == NonEmpty(parts)
  {
    assert ([""] + parts)[1..] == parts;
  }

  // ---------------------------------------------------------------------
  // split() on whitespace

  function WordLen(s: string): (n: nat)
    ensures n <= |s|
    ensures forall i :: 0 <= i < n ==> !IsSpace(s[i])
    ensures n < |s| ==> IsSpace(s[n])
  {
    if s == [] || IsSpace(s[0]) then 0 else 1 + WordLen(s[1..])
  }

  /** `s.split()`: the maximal runs of non-whitespace characters. */
  function Fields(s: string): (r: seq<string>)
    ensures forall i :: 0 <= i < |r| ==> IsToken(r[i])
    ensures r == [] <==> IsBlank(s)
    decreases |s|
  {
    var t := LStrip(s);
    LStripSpec(s);
    if t == [] then
      assert s[..|s|] == s;
      []
    else
      var n := WordLen(t);
      assert !IsSpace(s[|s| - |t|]);
      var rest := Fields(t[n..]);
      assert IsToken(t[..n]);
      [t[..n]] + rest
  }

  /** A non-empty string without whitespace: one field of `split()`. */
  predicate IsToken(w: string)
  {
    w != [] && forall j :: 0 <= j < |w| ==> !IsSpace(w[j])
  }

  // ---------------------------------------------------------------------
  // find

  predicate OccursAt(s: string, sub: string, i: int)
  {
    0 <= i && i + |sub| <= |s| && s[i..i + |sub|] == sub
  }

  function FindFrom(s: string, sub: string, i: nat): (r: int)
    requires i <= |s|
    ensures r == -1 || (i <= r && OccursAt(s, sub, r))
    ensures forall k :: i <= k && (r == -1 || k < r) ==> !OccursAt(s, sub, k)
    decreases |s| - i
  {
    if i + |sub| > |s| then -1
    else if s[i..i + |sub|] == sub then i
    else if i == |s| then -1
    else FindFrom(s, sub, i + 1)
  }

  /** `s.find(sub)`: the first index where `sub` occurs, or -1. */
  function Find(s: string, sub: string): (r: int)
    ensures r == -1 || OccursAt(s, sub, r)
    ensures forall k :: 0 <= k && (r == -1 || k < r) ==> !OccursAt(s, sub, k)
  {
    FindFrom(s, sub, 0)
  }

  /** `sub in s`. */
  predicate Contains(s: string, sub: string)
  {
    Find(s, sub) >= 0
  }

  lemma ContainsChar(s: string, c: char)
    ensures Contains(s, [c]) <==> c in s
  {
    if c in s {
      var i :| 0 <= i < |s| && s[i] == c;
      assert OccursAt(s, [c], i);
    }
    if Contains(s, [c]) {
      var r := Find(s, [c]);
      assert s[r..r + 1] == [c];
      assert s[r] == c;
    }
  }

  // ---------------------------------------------------------------------
  // Decimal numbers: str() and int()

  function DigitChar(d: nat): (c: char)
    requires d < 10
    ensures IsDigit(c)
  {
    ('0' as int + d) as char
  }

  function DigitValue(c: char): (d: nat)
    requires IsDigit(c)
    ensures d < 10
  {
    c as int - '0' as int
  }

  /** The value of a string of decimal digits. */
  function DigitsValue(s: string): (v: nat)
    requires AllDigits(s)
  {
    if s == [] then 0 else DigitsValue(s[..|s| - 1]) * 10 + DigitValue(s[|s| - 1])
  }

  /** `str(n)` for a natural number: no leading zeros. */
  function NatToString(n: nat): (s: string)
    ensures s != [] && AllDigits(s)
    ensures |s| > 1 ==> s[0] != '0'
    ensures DigitsValue(s) == n
  {
    if n < 10 then [DigitChar(n)]
    else
      var s := NatToString(n / 10) + [DigitChar(n % 10)];
      assert s[..|s| - 1] == NatToString(n / 10);
      s
  }

  lemma {:induction false} NatToStringLength(n: nat, k: nat)
    requires k >= 1
    requires Pow10(k - 1) <= n < Pow10(k)
    ensures |NatToString(n)| == k
  {
    if k > 1 {
      NatToStringLength(n / 10, k - 1);
    }
  }

  function Pow10(k: nat): (p: nat)
    ensures p >= 1
  {
    if k == 0 then 1 else 10 * Pow10(k - 1)
  }

  /** `str(i)` for any integer. */
  function IntToString(i: int): (s: string)
    ensures s != [] && !IsSpace(s[0]) && !IsSpace(s[|s| - 1])
  {
    if i < 0 then "-" + NatToString(-i) else NatToString(i)
  }

  /**
   * Python's `int(s)` in base 10: surrounding whitespace, an optional sign
   * and at least one digit. `None` stands for the ValueError it raises.
   */
  function ParseInt(s: string): (r: Option<int>)
    ensures r.Some? ==> HasDigit(s)
  {
    var t := Strip(s);
    if t == [] then None
    else
      var neg := t[0] == '-';
      var body := if t[0] == '-' || t[0] == '+' then t[1..] else t;
      if body == [] || !AllDigits(body) then None
      else
        assert IsDigit(body[0]) && body[0] in s by {
          assert body[0] in t;
          LStripSpec(s);
          RStripSpec(LStrip(s));
          assert t == s[|s| - |LStrip(s)|..][..|t|];
        }
        Some(if neg then -(DigitsValue(body) as int) else DigitsValue(body))
  }

  lemma ParseIntRoundTrip(i: int)
    ensures ParseInt(IntToString(i)) == Some(i)
  {
    var s := IntToString(i);
    StripOfTrimmed(s);
    if i < 0 {
      var d := NatToString(-i);
      assert s == "-" + d;
      assert s[0] == '-' && s[1..] == d;
      assert DigitsValue(d) == -i;
    } else {
      var d := NatToString(i);
      assert s == d && IsDigit(s[0]);
      assert DigitsValue(d) == i;
    }
  }

  /** A run of digits parses as its digit value. */
  lemma ParseIntDigits(s: string)
    requires s != [] && AllDigits(s)
    ensures ParseInt(s) == Some(DigitsValue(s) as int)
  {
    StripOfTrimmed(s);
  }

  // ---------------------------------------------------------------------
  // Sequences

  lemma AppendAssociates<T>(a: seq<T>, b: seq<T>, c: seq<T>)
    ensures a + (b + c) == (a + b) + c
  {
  }

  lemma SliceJoin<T>(s: seq<T>, k: nat)
    requires k <= |s|
    ensures s[..k] + s[k..] == s
  {
  }
}
