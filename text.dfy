/** The few pieces of Python's `str` behaviour the browser tool relies on:
    whitespace splitting and joining, stripping, ASCII lower-casing, substring
    tests, `str(int)`, `int(str)` and `int(float)`. */
module Text {
  import opened Wrappers

  /** The characters for which Python's `str.isspace()` holds; `str.split()`,
      `str.strip()` and `str.rstrip()` with no argument treat exactly these as whitespace. */
  predicate IsSpace(c: char) {
    || c == ' ' || c == '\t' || c == '\n' || c == '\r'
    || c == '\U{0B}' || c == '\U{0C}'
    || ('\U{1C}' <= c <= '\U{1F}')
    || c == '\U{85}' || c == '\U{A0}' || c == '\U{1680}'
    || ('\U{2000}' <= c <= '\U{200A}')
    || c == '\U{2028}' || c == '\U{2029}' || c == '\U{202F}' || c == '\U{205F}' || c == '\U{3000}'
  }

  /** A token of `str.split()`: non-empty and free of whitespace. */
  predicate IsWord(w: string) {
    w != [] && forall i :: 0 <= i < |w| ==> !IsSpace(w[i])
  }

  /** Length of the longest prefix of `s` that holds no whitespace. */
  function WordLength(s: string): (n: nat)
    ensures n <= |s|
    ensures forall i :: 0 <= i < n ==> !IsSpace(s[i])
    ensures n < |s| ==> IsSpace(s[n])
  {
    if s == [] || IsSpace(s[0]) then 0 else 1 + WordLength(s[1..])
  }

  /** Python's `s.split()`: the maximal runs of non-whitespace characters, in order. */
  function Split(s: string): seq<string>
    decreases |s|
  {
    if s == [] then []
    else if IsSpace(s[0]) then Split(s[1..])
    else
      var n := WordLength(s);
      [s[..n]] + Split(s[n..])
  }

  /** Every token of `s.split()` is non-empty and free of whitespace. */
  lemma {:induction false} SplitWords(s: string)
    ensures forall k :: 0 <= k < |Split(s)| ==> IsWord(Split(s)[k])
    decreases |s|
  {
    if s != [] {
      if IsSpace(s[0]) {
        SplitWords(s[1..]);
      } else {
        var n := WordLength(s);
        SplitWords(s[n..]);
        assert Split(s) == [s[..n]] + Split(s[n..]);
      }
    }
  }

  /** Python's `sep.join(parts)`. */
  function Join(sep: string, parts: seq<string>): string {
    if parts == [] then ""
    else if |parts| == 1 then parts[0]
    else parts[0] + sep + Join(sep, parts[1..])
  }

  /** Python's `s.lstrip()`. */
  function LStrip(s: string): string {
    if s != [] && IsSpace(s[0]) then LStrip(s[1..]) else s
  }

  /** Python's `s.rstrip()`. */
  function RStrip(s: string): string {
    if s != [] && IsSpace(s[|s| - 1]) then RStrip(s[..|s| - 1]) else s
  }

  /** `lstrip` removes exactly the leading whitespace: the result is a suffix of the
      input, starts with a non-whitespace character, and everything removed is whitespace. */
  lemma {:induction false} LStripSpec(s: string)
    ensures var r := LStrip(s);
      && (r == [] || !IsSpace(r[0]))
      && |r| <= |s| && r == s[|s| - |r|..]
      && forall i :: 0 <= i < |s| - |r| ==> IsSpace(s[i])
  {
    if s != [] && IsSpace(s[0]) {
      LStripSpec(s[1..]);
      var r := LStrip(s);
      forall i | 0 <= i < |s| - |r| ensures IsSpace(s[i]) {
        if i > 0 {
          assert s[i] == s[1..][i - 1];
        }
      }
    }
  }

  /** `rstrip` removes exactly the trailing whitespace: the result is a prefix of
      the input, ends with a non-whitespace character, and everything removed is whitespace. */
  lemma {:induction false} RStripSpec(s: string)
    ensures var r := RStrip(s);
      && (r == [] || !IsSpace(r[|r| - 1]))
      && |r| <= |s| && r == s[..|r|]
      && forall i :: |r| <= i < |s| ==> IsSpace(s[i])
  {
    if s != [] && IsSpace(s[|s| - 1]) {
      RStripSpec(s[..|s| - 1]);
      var r := RStrip(s);
      forall i | |r| <= i < |s| ensures IsSpace(s[i]) {
        if i < |s| - 1 {
          assert s[i] == s[..|s| - 1][i];
        }
      }
    }
  }

  /** Python's `s.strip()`. */
  function Strip(s: string): string {
    RStrip(LStrip(s))
  }

  /** A string in the shape `_normalize_whitespace` produces: every whitespace
      character is a plain space with a non-whitespace character on either side. */
  predicate IsNormalized(s: string) {
    forall i :: 0 <= i < |s| && IsSpace(s[i]) ==> s[i] == ' ' && 0 < i < |s| - 1 && !IsSpace(s[i + 1])
  }

  /** utils.py `_normalize_whitespace`: `" ".join(text.split()).strip()`. */
  function NormalizeWhitespace(s: string): string {
    Strip(Join(" ", Split(s)))
  }

  /** Two normalized, non-empty strings joined by one space give a normalized string. */
  lemma ConcatNormalized(a: string, b: string)
    requires IsNormalized(a) && a != []
    requires IsNormalized(b) && b != []
    ensures IsNormalized(a + " " + b)
  {
    var s := a + " " + b;
    assert !IsSpace(a[|a| - 1]);
    assert !IsSpace(b[0]);
    forall i | 0 <= i < |s| && IsSpace(s[i])
      ensures s[i] == ' ' && 0 < i < |s| - 1 && !IsSpace(s[i + 1])
    {
      if i < |a| {
        assert s[i] == a[i];
        assert s[i + 1] == a[i + 1];
      } else if i > |a| {
        assert s[i] == b[i - |a| - 1];
        assert s[i + 1] == b[i - |a|];
      }
    }
  }

  /** Joining normalized, non-empty pieces with single spaces gives a normalized string. */
  lemma {:induction false} JoinNormalized(ps: seq<string>)
    requires forall k :: 0 <= k < |ps| ==> IsNormalized(ps[k]) && ps[k] != []
    ensures IsNormalized(Join(" ", ps))
    ensures ps != [] ==> Join(" ", ps) != []
  {
    if |ps| >= 2 {
      JoinNormalized(ps[1..]);
      ConcatNormalized(ps[0], Join(" ", ps[1..]));
    }
  }

  /** Stripping leaves a normalized string as it is. */
  lemma StripNormalized(s: string)
    requires IsNormalized(s)
    ensures LStrip(s) == s && RStrip(s) == s && Strip(s) == s
  {
    if s != [] {
      assert !IsSpace(s[0]);
      assert !IsSpace(s[|s| - 1]);
    }
  }

  /** Splitting a normalized string and joining the tokens with spaces gives it back. */
  lemma {:induction false} NormalizedSplitJoin(s: string)
    requires IsNormalized(s)
    ensures Join(" ", Split(s)) == s
    decreases |s|
  {
    if s != [] {
      assert !IsSpace(s[0]);
      var n := WordLength(s);
      assert Split(s) == [s[..n]] + Split(s[n..]);
      if n < |s| {
        assert s[n] == ' ' && n < |s| - 1 && !IsSpace(s[n + 1]);
        var rest := s[n + 1..];
        assert s[n..][1..] == rest;
        assert Split(s[n..]) == Split(rest);
        forall j | 0 <= j < |rest| && IsSpace(rest[j])
          ensures rest[j] == ' ' && 0 < j < |rest| - 1 && !IsSpace(rest[j + 1])
        {
          assert rest[j] == s[n + 1 + j];
          assert j != 0;
          assert rest[j + 1] == s[n + 2 + j];
        }
        NormalizedSplitJoin(rest);
        assert Split(rest) != [] by {
          assert !IsSpace(rest[0]);
        }
        assert s == s[..n] + " " + rest;
      } else {
        assert s[n..] == [];
      }
    }
  }

  /** The result of `_normalize_whitespace` is normalized, and the final
      `.strip()` in it never removes anything. */
  lemma NormalizeWhitespaceShape(s: string)
    ensures NormalizeWhitespace(s) == Join(" ", Split(s))
    ensures IsNormalized(NormalizeWhitespace(s))
  {
    var ws := Split(s);
    SplitWords(s);
    forall k | 0 <= k < |ws| ensures IsNormalized(ws[k]) && ws[k] != [] {
      assert IsWord(ws[k]);
    }
    JoinNormalized(ws);
    StripNormalized(Join(" ", ws));
  }

  /** The normalized strings are exactly the fixed points of `_normalize_whitespace`. */
  lemma NormalizeFixedPoint(s: string)
    ensures NormalizeWhitespace(s) == s <==> IsNormalized(s)
  {
    NormalizeWhitespaceShape(s);
    if IsNormalized(s) {
      NormalizedSplitJoin(s);
    }
  }

  /** `_normalize_whitespace` is idempotent. */
  lemma NormalizeIdempotent(s: string)
    ensures NormalizeWhitespace(NormalizeWhitespace(s)) == NormalizeWhitespace(s)
  {
    NormalizeWhitespaceShape(s);
    NormalizeFixedPoint(NormalizeWhitespace(s));
  }

  /** Python's `s.startswith(p)`. */
  predicate StartsWith(s: string, p: string) {
    |p| <= |s| && s[..|p|] == p
  }

  /** Python's `p in s` on strings: `p` occurs in `s` as a substring. */
  predicate Contains(s: string, p: string)
    decreases |s|
  {
    StartsWith(s, p) || (s != [] && Contains(s[1..], p))
  }

  /** An occurrence of `p` at position `k` of `s` makes `p in s` hold. */
  lemma {:induction false} ContainsAt(s: string, p: string, k: nat)
    requires k <= |s| && StartsWith(s[k..], p)
    ensures Contains(s, p)
    decreases k
  {
    if k > 0 {
      assert s[1..][k - 1..] == s[k..];
      ContainsAt(s[1..], p, k - 1);
    }
  }

  /** Python's `c.lower()`, restricted to ASCII letters. */
  function LowerChar(c: char): char {
    if 'A' <= c <= 'Z' then (c as int + 32) as char else c
  }

  /** Python's `s.lower()`, restricted to ASCII letters. */
  function Lower(s: string): (r: string)
    ensures |r| == |s|
  {
    seq(|s|, i requires 0 <= i < |s| => LowerChar(s[i]))
  }

  /** An occurrence of `p` in `s` is an occurrence of `lower(p)` in `lower(s)`. */
  lemma {:induction false} ContainsLower(s: string, p: string)
    requires Contains(s, p)
    ensures Contains(Lower(s), Lower(p))
    decreases |s|
  {
    if StartsWith(s, p) {
      assert Lower(s)[..|p|] == Lower(p);
    } else {
      ContainsLower(s[1..], p);
      assert Lower(s)[1..] == Lower(s[1..]);
    }
  }

  predicate IsDigit(c: char) {
    '0' <= c <= '9'
  }

  predicate IsDigits(s: string) {
    s != [] && forall i :: 0 <= i < |s| ==> IsDigit(s[i])
  }

  function DigitChar(d: nat): (c: char)
    requires d < 10
    ensures IsDigit(c)
  {
    ('0' as int + d) as char
  }

  /** Python's `str(n)` for a natural number: its decimal digits. */
  function NatToString(n: nat): (r: string)
    ensures IsDigits(r)
    decreases n
  {
    if n < 10 then [DigitChar(n)] else NatToString(n / 10) + [DigitChar(n % 10)]
  }

  /** Python's `str(n)` for an integer. */
  function IntToString(n: int): string {
    if n < 0 then "-" + NatToString(-n) else NatToString(n)
  }

  /** The value of a run of decimal digits. */
  function DigitsValue(s: string): nat
    requires forall i :: 0 <= i < |s| ==> IsDigit(s[i])
  {
    if s == [] then 0
    else
      assert IsDigit(s[|s| - 1]);
      DigitsValue(s[..|s| - 1]) * 10 + (s[|s| - 1] as int - '0' as int)
  }

  /** Python's `int(s)` on a string: surrounding whitespace, an optional sign and
      at least one ASCII digit; `None` where Python raises `ValueError`. */
  function ParseInt(s: string): Option<int> {
    var t := Strip(s);
    if t != [] && (t[0] == '-' || t[0] == '+') then
      if IsDigits(t[1..]) then
        var v: int := DigitsValue(t[1..]);
        Some(if t[0] == '-' then -v else v)
      else None
    else if IsDigits(t) then Some(DigitsValue(t))
    else None
  }

  lemma {:induction false} DigitsValueOfNatToString(n: nat)
    ensures DigitsValue(NatToString(n)) == n
    decreases n
  {
    if n >= 10 {
      DigitsValueOfNatToString(n / 10);
      var s := NatToString(n);
      assert s[..|s| - 1] == NatToString(n / 10);
    }
  }

  /** A string that neither starts nor ends with whitespace is its own strip. */
  lemma StripUnpadded(s: string)
    requires s != [] && !IsSpace(s[0]) && !IsSpace(s[|s| - 1])
    ensures Strip(s) == s
  {
    assert LStrip(s) == s;
  }

  /** `int(str(n)) == n`. */
  lemma ParseIntOfIntToString(n: int)
    ensures ParseInt(IntToString(n)) == Some(n)
  {
    var s := IntToString(n);
    var digits := NatToString(if n < 0 then -n else n);
    assert s[|s| - 1] == digits[|digits| - 1] && IsDigit(s[|s| - 1]);
    assert IsDigit(s[0]) || s[0] == '-';
    StripUnpadded(s);
    if n < 0 {
      assert s[1..] == digits;
    }
    DigitsValueOfNatToString(if n < 0 then -n else n);
  }

  /** Python's `int(x)` on a float: truncation toward zero. */
  function Trunc(x: real): (r: int)
    ensures x >= 0.0 ==> 0.0 <= r as real <= x
    ensures x < 0.0 ==> x <= r as real <= 0.0
    ensures (x - r as real) < 1.0 && (r as real - x) < 1.0
  {
    if x >= 0.0 then x.Floor else -((-x).Floor)
  }

  /** Python's `s.replace(a, b)` for single characters. */
  function ReplaceChar(s: string, a: char, b: char): (r: string)
    ensures |r| == |s|
    ensures a != b ==> a !in r
  {
    seq(|s|, i requires 0 <= i < |s| => if s[i] == a then b else s[i])
  }
}
