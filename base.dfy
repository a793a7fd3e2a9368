/** Small value types and string helpers shared by every module of the model:
    the option type that stands for `T | null`, ASCII case folding and trimming,
    substring search, decimal rendering with `padStart(2, "0")`, JavaScript's
    `Number(...)` restricted to digit strings, and `Array.from(new Set(xs))`. */
module Base {

  datatype Option<T> = None | Some(value: T)

  // ---------------------------------------------------------------------------
  // Characters and case

  predicate IsUpperAscii(c: char) { 'A' <= c <= 'Z' }

  function LowerChar(c: char): char
  {
    if IsUpperAscii(c) then (c as int + 32) as char else c
  }

  /** `s.toLowerCase()` on the ASCII range. */
  function Lower(s: string): (r: string)
    ensures |r| == |s|
    ensures forall i :: 0 <= i < |s| ==> r[i] == LowerChar(s[i])
    ensures forall i :: 0 <= i < |r| ==> !IsUpperAscii(r[i])
  {
    seq(|s|, i requires 0 <= i < |s| => LowerChar(s[i]))
  }

  predicate IsLowercase(s: string)
  {
    forall i :: 0 <= i < |s| ==> !IsUpperAscii(s[i])
  }

  lemma LowerOfLowercase(s: string)
    requires IsLowercase(s)
    ensures Lower(s) == s
  {
  }

  lemma LowerConcat(a: string, b: string)
    ensures Lower(a + b) == Lower(a) + Lower(b)
  {
    assert forall i :: 0 <= i < |a + b| ==> Lower(a + b)[i] == (Lower(a) + Lower(b))[i];
  }

  // ---------------------------------------------------------------------------
  // Whitespace and trimming

  predicate IsSpace(c: char)
  {
    c == ' ' || c == '\t' || c == '\n' || c == '\r' || c == '\U{B}' || c == '\U{C}'
  }

  function TrimStart(s: string): (r: string)
    ensures |r| <= |s| && r == s[|s| - |r|..]
    ensures r == [] || !IsSpace(r[0])
    ensures forall i :: 0 <= i < |s| - |r| ==> IsSpace(s[i])
    decreases |s|
  {
    if |s| > 0 && IsSpace(s[0]) then TrimStart(s[1..]) else s
  }

  function TrimEnd(s: string): (r: string)
    ensures |r| <= |s| && r == s[..|r|]
    ensures r == [] || !IsSpace(r[|r| - 1])
    ensures forall i :: |r| <= i < |s| ==> IsSpace(s[i])
    decreases |s|
  {
    if |s| > 0 && IsSpace(s[|s| - 1]) then TrimEnd(s[..|s| - 1]) else s
  }

  /** `s.trim()`: drops leading and trailing whitespace. */
  function Trim(s: string): (r: string)
    ensures |r| <= |s|
    ensures r == [] || (!IsSpace(r[0]) && !IsSpace(r[|r| - 1]))
  {
    TrimEnd(TrimStart(s))
  }

  lemma TrimOfTrimmed(s: string)
    requires s == [] || (!IsSpace(s[0]) && !IsSpace(s[|s| - 1]))
    ensures Trim(s) == s
  {
  }

  lemma LowerKeepsSpace(s: string)
    ensures forall i :: 0 <= i < |s| ==> (IsSpace(Lower(s)[i]) <==> IsSpace(s[i]))
  {
  }

  // ---------------------------------------------------------------------------
  // Prefixes, suffixes and substrings

  predicate StartsWith(s: string, p: string)
  {
    |p| <= |s| && s[..|p|] == p
  }

  predicate EndsWith(s: string, p: string)
  {
    |p| <= |s| && s[|s| - |p|..] == p
  }

  /** `s.includes(sub)`: some suffix of `s` starts with `sub`. */
  predicate Contains(s: string, sub: string)
    decreases |s|
  {
    StartsWith(s, sub) || (|s| > 0 && Contains(s[1..], sub))
  }

  /** Positional reading of `Contains`. */
  lemma {:induction false} ContainsAt(s: string, sub: string)
    ensures Contains(s, sub) <==> exists i :: 0 <= i <= |s| - |sub| && StartsWith(s[i..], sub)
    decreases |s|
  {
    if |s| > 0 {
      ContainsAt(s[1..], sub);
      if StartsWith(s, sub) {
        assert s[0..] == s;
        assert 0 <= 0 <= |s| - |sub| && StartsWith(s[0..], sub);
      }
      if Contains(s[1..], sub) {
        var i :| 0 <= i <= |s[1..]| - |sub| && StartsWith(s[1..][i..], sub);
        assert s[1..][i..] == s[i + 1..];
        assert 0 <= i + 1 <= |s| - |sub| && StartsWith(s[i + 1..], sub);
      }
      if exists i :: 0 <= i <= |s| - |sub| && StartsWith(s[i..], sub) {
        var i :| 0 <= i <= |s| - |sub| && StartsWith(s[i..], sub);
        if i > 0 {
          assert s[1..][i - 1..] == s[i..];
          assert Contains(s[1..], sub);
        } else {
          assert s[i..] == s;
        }
      }
    } else if Contains(s, sub) {
      assert StartsWith(s[0..], sub);
    }
  }

  /** A string contains every contiguous piece of itself. */
  lemma ContainsSlice(s: string, i: nat, j: nat)
    requires i <= j <= |s|
    ensures Contains(s, s[i..j])
  {
    ContainsAt(s, s[i..j]);
    assert StartsWith(s[i..], s[i..j]);
  }

  /** `s.indexOf(sub)`: the first index at which `sub` starts. */
  function IndexOf(s: string, sub: string): (r: Option<nat>)
    ensures r.Some? ==> r.value + |sub| <= |s| && StartsWith(s[r.value..], sub)
    ensures r.Some? ==> forall k :: 0 <= k < r.value ==> !StartsWith(s[k..], sub)
    ensures r.None? <==> !Contains(s, sub)
    decreases |s|
  {
    if StartsWith(s, sub) then Some(0)
    else if |s| == 0 then None
    else
      match IndexOf(s[1..], sub)
      case None => None
      case Some(k) =>
        assert s[1..][k..] == s[k + 1..];
        assert forall j :: 1 <= j < k + 1 ==> s[1..][j - 1..] == s[j..];
        Some(k + 1)
  }

  /** The replacement text `String.prototype.replace` inserts for a string pattern, after
      expanding the `$` patterns of the template: `$$` is one `$`, `$&` the matched text,
      `` $` `` the text before the match and `$'` the text after it. A string pattern has no
      capture groups, so `$1` or `$<name>` stay as written, like any other `$`. */
  function ExpandReplacement(template: string, matched: string, before: string, after: string): (r: string)
    ensures '$' !in template ==> r == template
    decreases |template|
  {
    if |template| == 0 then []
    else if template[0] == '$' && |template| >= 2 && template[1] == '$' then
      "$" + ExpandReplacement(template[2..], matched, before, after)
    else if template[0] == '$' && |template| >= 2 && template[1] == '&' then
      matched + ExpandReplacement(template[2..], matched, before, after)
    else if template[0] == '$' && |template| >= 2 && template[1] == '`' then
      before + ExpandReplacement(template[2..], matched, before, after)
    else if template[0] == '$' && |template| >= 2 && template[1] == '\'' then
      after + ExpandReplacement(template[2..], matched, before, after)
    else
      assert '$' !in template ==> '$' !in template[1..];
      [template[0]] + ExpandReplacement(template[1..], matched, before, after)
  }

  /** A `$` and the character after it: `$$`, `$&`, `` $` `` and `$'` are expanded, and
      any other `$` (one before a digit included) is copied. */
  lemma ExpandReplacementPatterns(c: char, rest: string, matched: string, before: string, after: string)
    ensures var t := ['$', c] + rest;
      var tail := ExpandReplacement(rest, matched, before, after);
      ExpandReplacement(t, matched, before, after)
      == if c == '$' then "$" + tail
         else if c == '&' then matched + tail
         else if c == '`' then before + tail
         else if c == '\'' then after + tail
         else "$" + ExpandReplacement([c] + rest, matched, before, after)
  {
    var t := ['$', c] + rest;
    assert t[0] == '$' && t[1] == c;
    assert t[2..] == rest;
    assert t[1..] == [c] + rest;
  }

  /** A text is the part before a match, the match, and the part after it. */
  lemma JoinAtMatch(text: string, pattern: string, k: nat)
    requires k + |pattern| <= |text| && StartsWith(text[k..], pattern)
    ensures text[..k] + pattern + text[k + |pattern|..] == text
  {
    assert text[k..][..|pattern|] == text[k..k + |pattern|];
    assert text == text[..k] + text[k..k + |pattern|] + text[k + |pattern|..];
  }

  /** `text.replace(pattern, value)` with a string pattern: only the first occurrence
      changes, and it becomes the expanded replacement. */
  function ReplaceFirst(text: string, pattern: string, value: string): (r: string)
    ensures !Contains(text, pattern) ==> r == text
    ensures Contains(text, pattern) ==>
      var k := IndexOf(text, pattern).value;
      r == text[..k] + ExpandReplacement(value, pattern, text[..k], text[k + |pattern|..]) + text[k + |pattern|..]
    ensures Contains(text, pattern) && '$' !in value ==>
      var k := IndexOf(text, pattern).value;
      r == text[..k] + value + text[k + |pattern|..]
  {
    match IndexOf(text, pattern)
    case None => text
    case Some(k) => text[..k] + ExpandReplacement(value, pattern, text[..k], text[k + |pattern|..]) + text[k + |pattern|..]
  }

  // ---------------------------------------------------------------------------
  // Splitting

  function IndexOfChar(s: string, c: char): (r: Option<nat>)
    ensures r.Some? ==> r.value < |s| && s[r.value] == c && forall k :: 0 <= k < r.value ==> s[k] != c
    ensures r.None? ==> forall k :: 0 <= k < |s| ==> s[k] != c
    decreases |s|
  {
    if |s| == 0 then None
    else if s[0] == c then Some(0)
    else match IndexOfChar(s[1..], c)
      case None => None
      case Some(k) => Some(k + 1)
  }

  /** `s.split(sep)` for a one-character separator. */
  function Split(s: string, sep: char): (parts: seq<string>)
    ensures |parts| >= 1
    ensures forall i :: 0 <= i < |parts| ==> forall k :: 0 <= k < |parts[i]| ==> parts[i][k] != sep
    decreases |s|
  {
    match IndexOfChar(s, sep)
    case None => [s]
    case Some(i) => [s[..i]] + Split(s[i + 1..], sep)
  }

  /** The pieces of `a + [sep] + b` when `a` holds no separator. */
  lemma SplitJoin(a: string, sep: char, b: string)
    requires forall k :: 0 <= k < |a| ==> a[k] != sep
    ensures Split(a + [sep] + b, sep) == [a] + Split(b, sep)
  {
    var s := a + [sep] + b;
    var r := IndexOfChar(s, sep);
    assert s[|a|] == sep;
    assert r.Some? && r.value == |a|;
    assert s[..|a|] == a && s[|a| + 1..] == b;
  }

  lemma SplitNoSep(a: string, sep: char)
    requires forall k :: 0 <= k < |a| ==> a[k] != sep
    ensures Split(a, sep) == [a]
  {
  }

  // ---------------------------------------------------------------------------
  // Decimal numbers

  predicate IsDigit(c: char) { '0' <= c <= '9' }

  function DigitChar(d: nat): char
    requires d < 10
  {
    ('0' as int + d) as char
  }

  function DigitValue(c: char): nat
    requires IsDigit(c)
  {
    c as int - '0' as int
  }

  predicate AllDigits(s: string)
  {
    forall i :: 0 <= i < |s| ==> IsDigit(s[i])
  }

  /** The value of a string of decimal digits (the empty string reads as 0). */
  function DigitsValue(s: string): nat
    requires AllDigits(s)
    decreases |s|
  {
    if |s| == 0 then 0 else DigitsValue(s[..|s| - 1]) * 10 + DigitValue(s[|s| - 1])
  }

  /** `String(n)` for a natural number. */
  function NatToString(n: nat): (r: string)
    ensures |r| >= 1 && AllDigits(r)
    ensures n < 10 <==> |r| == 1
    ensures n < 100 ==> |r| <= 2
    ensures |r| > 1 ==> r[0] != '0'
    decreases n
  {
    if n < 10 then [DigitChar(n)] else NatToString(n / 10) + [DigitChar(n % 10)]
  }

  lemma {:induction false} NatToStringValue(n: nat)
    ensures DigitsValue(NatToString(n)) == n
    decreases n
  {
    if n >= 10 {
      NatToStringValue(n / 10);
      var s := NatToString(n);
      assert s[..|s| - 1] == NatToString(n / 10);
    }
  }

  /** Decimal rendering is injective. */
  lemma NatToStringInjective(a: nat, b: nat)
    requires NatToString(a) == NatToString(b)
    ensures a == b
  {
    NatToStringValue(a);
    NatToStringValue(b);
  }

  /** `String(n)` for an integer: a minus sign before the digits of a negative one. */
  function IntToString(n: int): (r: string)
    ensures |r| >= 1
  {
    if n < 0 then "-" + NatToString(-n) else NatToString(n)
  }

  lemma IntToStringInjective(a: int, b: int)
    requires IntToString(a) == IntToString(b)
    ensures a == b
  {
    if a < 0 && b < 0 {
      assert IntToString(a)[1..] == NatToString(-a);
      assert IntToString(b)[1..] == NatToString(-b);
      NatToStringInjective(-a, -b);
    } else if a >= 0 && b >= 0 {
      NatToStringInjective(a, b);
    }
  }

  /** `String(n).padStart(2, "0")`. */
  function Pad2(n: nat): (r: string)
    ensures n < 100 ==> |r| == 2
    ensures AllDigits(r)
  {
    if n < 10 then "0" + NatToString(n) else NatToString(n)
  }

  lemma {:induction false} Pad2Value(n: nat)
    requires n < 100
    ensures DigitsValue(Pad2(n)) == n
  {
    NatToStringValue(n);
    if n < 10 {
      assert Pad2(n)[..1] == "0";
    }
  }

  lemma Pad2Injective(a: nat, b: nat)
    requires a < 100 && b < 100 && Pad2(a) == Pad2(b)
    ensures a == b
  {
    Pad2Value(a);
    Pad2Value(b);
  }

  /** A decimal integer literal: digits, optionally after one minus sign. */
  predicate IsIntLiteral(s: string)
  {
    AllDigits(s) || (|s| > 1 && s[0] == '-' && AllDigits(s[1..]))
  }

  /** `Number(s)` restricted to what the model admits: the empty string is 0, an
      optionally signed string of decimal digits is its value, anything else is
      NaN (`None`). */
  function JsNumber(s: string): (r: Option<int>)
    ensures r.None? <==> !IsIntLiteral(s)
    ensures AllDigits(s) ==> r == Some(DigitsValue(s))
  {
    if AllDigits(s) then Some(DigitsValue(s) as int)
    else if |s| > 1 && s[0] == '-' && AllDigits(s[1..]) then Some(-(DigitsValue(s[1..]) as int))
    else None
  }

  /** A minus sign before digits reads as the negated value. */
  lemma JsNumberNegative(d: string)
    requires |d| >= 1 && AllDigits(d)
    ensures JsNumber("-" + d) == Some(-(DigitsValue(d) as int))
  {
    var s := "-" + d;
    assert s[0] == '-' && !IsDigit(s[0]);
    assert s[1..] == d;
  }

  /** `Number(String(n)) === n` for every integer. */
  lemma JsNumberOfIntString(n: int)
    ensures JsNumber(IntToString(n)) == Some(n)
  {
    if n < 0 {
      NatToStringValue(-n);
      JsNumberNegative(NatToString(-n));
      assert IntToString(n) == "-" + NatToString(-n);
    } else {
      NatToStringValue(n);
      assert IntToString(n) == NatToString(n);
    }
  }

  // ---------------------------------------------------------------------------
  // Sequences

  /** `Array.from(new Set(xs))`: first occurrences, in order. */
  function Dedup<T(==,!new)>(xs: seq<T>): (r: seq<T>)
    ensures forall x :: x in r <==> x in xs
    ensures Distinct(r)
    ensures |r| <= |xs|
    decreases |xs|
  {
    if |xs| == 0 then []
    else
      var d := Dedup(xs[..|xs| - 1]);
      assert forall x :: x in xs <==> x in xs[..|xs| - 1] || x == xs[|xs| - 1];
      if xs[|xs| - 1] in d then d else d + [xs[|xs| - 1]]
  }

  /** `xs.some(p)`. */
  function AnyOf<T>(p: T -> bool, xs: seq<T>): bool
    decreases |xs|
  {
    if |xs| == 0 then false else AnyOf(p, xs[..|xs| - 1]) || p(xs[|xs| - 1])
  }

  /** `some` holds exactly when an element satisfies the test. */
  lemma {:induction false} AnyOfSome<T>(p: T -> bool, xs: seq<T>)
    ensures AnyOf(p, xs) <==> exists j :: 0 <= j < |xs| && p(xs[j])
    decreases |xs|
  {
    if |xs| > 0 {
      var init := xs[..|xs| - 1];
      AnyOfSome(p, init);
      if AnyOf(p, init) {
        var j :| 0 <= j < |init| && p(init[j]);
        assert xs[j] == init[j];
      }
      if exists j :: 0 <= j < |xs| && p(xs[j]) {
        var j :| 0 <= j < |xs| && p(xs[j]);
        if j < |init| {
          assert init[j] == xs[j];
        }
      }
    }
  }

  /** One element passing the test is enough for `some`. */
  lemma AnyOfAt<T>(p: T -> bool, xs: seq<T>, j: int)
    requires 0 <= j < |xs| && p(xs[j])
    ensures AnyOf(p, xs)
  {
    AnyOfSome(p, xs);
  }

  /** An element failing the test can be dropped without changing `some`. */
  lemma {:induction false} AnyOfSkip<T>(p: T -> bool, before: seq<T>, x: T, after: seq<T>)
    requires !p(x)
    ensures AnyOf(p, before + [x] + after) == AnyOf(p, before + after)
    decreases |after|
  {
    var with, without := before + [x] + after, before + after;
    if |after| == 0 {
      assert with == before + [x] && with[..|with| - 1] == before;
      assert without == before;
    } else {
      var init := after[..|after| - 1];
      assert with[..|with| - 1] == before + [x] + init;
      assert without[..|without| - 1] == before + init;
      AnyOfSkip(p, before, x, init);
    }
  }

  predicate Distinct<T(==)>(xs: seq<T>)
  {
    forall i, j :: 0 <= i < j < |xs| ==> xs[i] != xs[j]
  }

  lemma {:induction false} DedupOfDistinct<T(!new)>(xs: seq<T>)
    requires Distinct(xs)
    ensures Dedup(xs) == xs
    decreases |xs|
  {
    if |xs| > 0 {
      DedupOfDistinct(xs[..|xs| - 1]);
      assert xs[|xs| - 1] !in xs[..|xs| - 1];
    }
  }

  /** Appending to a deduplicated list: the new value is added at the end unless already present. */
  lemma DedupAppend<T(!new)>(xs: seq<T>, v: T)
    requires Distinct(xs)
    ensures Dedup(xs + [v]) == if v in xs then xs else xs + [v]
  {
    assert (xs + [v])[..|xs + [v]| - 1] == xs;
    DedupOfDistinct(xs);
  }

  /** `xs.filter((e) => e !== v)`. */
  function Without<T(==,!new)>(xs: seq<T>, v: T): (r: seq<T>)
    ensures forall x :: x in r <==> x in xs && x != v
    ensures |r| <= |xs|
    decreases |xs|
  {
    if |xs| == 0 then []
    else if xs[0] == v then Without(xs[1..], v)
    else [xs[0]] + Without(xs[1..], v)
  }

  /** Filtering a value out twice is filtering it out once, and filtering out an absent value changes nothing. */
  lemma {:induction false} WithoutIdempotent<T(!new)>(xs: seq<T>, v: T)
    ensures Without(xs, v) == Without(Without(xs, v), v)
    ensures v !in xs ==> Without(xs, v) == xs
    decreases |xs|
  {
    if |xs| > 0 {
      WithoutIdempotent(xs[1..], v);
    }
  }

  function Max(a: int, b: int): int { if a >= b then a else b }
  function Min(a: int, b: int): int { if a <= b then a else b }
}
