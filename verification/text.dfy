/** String helpers the source gets from Python's `str` and from SQLite's text comparison:
    prefix and substring tests, ASCII digits and decimal rendering, `strip`, ASCII `lower`,
    and the code-point order `sorted()` uses on strings. */
module Text {

  // ---------------------------------------------------------------- substrings

  /** `sub in s` for Python strings: `sub` occurs somewhere in `s` as a contiguous run. */
  predicate Contains(s: string, sub: string)
    decreases |s|
  {
    sub <= s || (|s| > 0 && Contains(s[1..], sub))
  }

  /** A string contains itself, and a string of the same length only if it is that string. */
  lemma {:induction false} ContainsSameLength(s: string, sub: string)
    ensures Contains(s, s)
    ensures |sub| >= |s| && Contains(s, sub) ==> sub == s
    decreases |s|
  {
    assert s <= s;
    if |sub| >= |s| && Contains(s, sub) && !(sub <= s) {
      ContainsSameLength(s[1..], sub);
    }
  }

  /** A string contains a non-empty run only if it contains the run's first character. */
  lemma {:induction false} ContainsFirstChar(s: string, sub: string)
    requires |sub| > 0 && Contains(s, sub)
    ensures sub[0] in s
    decreases |s|
  {
    if !(sub <= s) {
      ContainsFirstChar(s[1..], sub);
    }
  }

  // ---------------------------------------------------------------- digits

  predicate IsDigit(c: char) {
    '0' <= c <= '9'
  }

  /** Python's `str.isdigit()` restricted to ASCII: non-empty and every character a digit. */
  predicate IsDigits(s: string) {
    |s| > 0 && forall i :: 0 <= i < |s| ==> IsDigit(s[i])
  }

  function DigitValue(c: char): nat
    requires IsDigit(c)
  {
    (c as int - '0' as int) as nat
  }

  /** `int(s)` for a string of ASCII digits (leading zeros allowed). */
  function DigitsValue(s: string): nat
    requires forall i :: 0 <= i < |s| ==> IsDigit(s[i])
    decreases |s|
  {
    if |s| == 0 then 0 else DigitsValue(s[..|s| - 1]) * 10 + DigitValue(s[|s| - 1])
  }

  function DigitChar(d: nat): (c: char)
    requires d < 10
    ensures IsDigit(c) && DigitValue(c) == d
  {
    ('0' as int + d) as char
  }

  /** Decimal rendering of a natural number without leading zeros (`str(n)`). */
  function NatToString(n: nat): (s: string)
    ensures IsDigits(s)
    ensures DigitsValue(s) == n
    ensures s[0] != '0' || n == 0
    decreases n
  {
    if n < 10 then [DigitChar(n)]
    else
      var prefix := NatToString(n / 10);
      assert (prefix + [DigitChar(n % 10)])[..|prefix|] == prefix;
      prefix + [DigitChar(n % 10)]
  }

  /** Decimal rendering of an integer (`str(i)`, SQLite's text form of an INTEGER). */
  function IntToString(i: int): (s: string)
    ensures |s| > 0
    ensures i >= 0 ==> s == NatToString(i)
    ensures i < 0 ==> s[0] == '-' && s[1..] == NatToString(-i)
  {
    if i >= 0 then NatToString(i) else "-" + NatToString(-i)
  }

  /** Distinct integers have distinct decimal renderings. */
  lemma IntToStringInjective(i: int, j: int)
    requires IntToString(i) == IntToString(j)
    ensures i == j
  {
    if i >= 0 && j >= 0 {
      assert DigitsValue(NatToString(i)) == i;
    } else if i < 0 && j < 0 {
      assert IntToString(i)[1..] == IntToString(j)[1..];
      assert DigitsValue(NatToString(-i)) == -i;
    }
  }

  // ---------------------------------------------------------------- whitespace and case

  /** The characters Python's `str.strip()` removes, those for which `str.isspace()` holds: tab
      to carriage return, the separators U+001C..U+001F, space, U+0085, the no-break space
      U+00A0, U+1680, U+2000..U+200A, the line and paragraph separators, U+202F, U+205F and the
      ideographic space U+3000. */
  predicate IsSpace(c: char) {
    || ('\t' <= c <= '\r') || ('\U{1C}' <= c <= ' ') || c == '\U{85}' || c == '\U{A0}' || c == '\U{1680}'
    || ('\U{2000}' <= c <= '\U{200A}') || c == '\U{2028}' || c == '\U{2029}' || c == '\U{202F}' || c == '\U{205F}'
    || c == '\U{3000}'
  }

  function TrimStart(s: string): (r: string)
    ensures |r| <= |s| && r == s[|s| - |r|..]
    ensures |r| > 0 ==> !IsSpace(r[0])
    ensures forall i :: 0 <= i < |s| - |r| ==> IsSpace(s[i])
    decreases |s|
  {
    if |s| > 0 && IsSpace(s[0]) then TrimStart(s[1..]) else s
  }

  function TrimEnd(s: string): (r: string)
    ensures |r| <= |s| && r == s[..|r|]
    ensures |r| > 0 ==> !IsSpace(r[|r| - 1])
    ensures forall i :: |r| <= i < |s| ==> IsSpace(s[i])
    decreases |s|
  {
    if |s| > 0 && IsSpace(s[|s| - 1]) then TrimEnd(s[..|s| - 1]) else s
  }

  /** `s.strip()`: `s` without its leading and trailing whitespace. */
  function Strip(s: string): (r: string)
    ensures |r| > 0 ==> !IsSpace(r[0]) && !IsSpace(r[|r| - 1])
    ensures |r| <= |TrimStart(s)|
    ensures r == s[|s| - |TrimStart(s)|..|s| - |TrimStart(s)| + |r|]
    ensures (forall i :: 0 <= i < |s| ==> IsSpace(s[i])) <==> r == ""
  {
    var t := TrimStart(s);
    var r := TrimEnd(t);
    StripAllSpace(s, t, r);
    r
  }

  lemma StripAllSpace(s: string, t: string, r: string)
    requires t == TrimStart(s) && r == TrimEnd(t)
    ensures (forall i :: 0 <= i < |s| ==> IsSpace(s[i])) <==> r == ""
  {
    if r != "" {
      assert t[0] == s[|s| - |t|];
    }
  }

  /** `(l + t + r).strip()` is `t` when `l` and `r` are whitespace and `t` neither starts nor
      ends with whitespace. */
  lemma StripPadded(l: string, t: string, r: string)
    requires forall i :: 0 <= i < |l| ==> IsSpace(l[i])
    requires forall i :: 0 <= i < |r| ==> IsSpace(r[i])
    requires |t| > 0 && !IsSpace(t[0]) && !IsSpace(t[|t| - 1])
    ensures Strip(l + t + r) == t
  {
    var s := t + r;
    assert l + t + r == l + s && s[0] == t[0];
    TrimStartPadded(l, s);
    TrimEndPadded(t, r);
    assert TrimEnd(TrimStart(l + s)) == t;
  }

  lemma {:induction false} TrimStartPadded(l: string, s: string)
    requires forall i :: 0 <= i < |l| ==> IsSpace(l[i])
    requires |s| > 0 && !IsSpace(s[0])
    ensures TrimStart(l + s) == s
    decreases |l|
  {
    if |l| > 0 {
      assert (l + s)[1..] == l[1..] + s;
      TrimStartPadded(l[1..], s);
    } else {
      assert l + s == s;
    }
  }

  lemma {:induction false} TrimEndPadded(s: string, r: string)
    requires forall i :: 0 <= i < |r| ==> IsSpace(r[i])
    requires |s| > 0 && !IsSpace(s[|s| - 1])
    ensures TrimEnd(s + r) == s
    decreases |r|
  {
    if |r| > 0 {
      assert (s + r)[..|s + r| - 1] == s + r[..|r| - 1];
      TrimEndPadded(s, r[..|r| - 1]);
    } else {
      assert s + r == s;
    }
  }

  predicate IsAsciiUpper(c: char) {
    'A' <= c <= 'Z'
  }

  /** `str.lower()` on ASCII letters; every other character is kept. */
  function LowerChar(c: char): (d: char)
    ensures !IsAsciiUpper(d)
    ensures IsAsciiUpper(c) ==> d as int == c as int + 32
    ensures !IsAsciiUpper(c) ==> d == c
  {
    if IsAsciiUpper(c) then (c as int + 32) as char else c
  }

  function Lower(s: string): (r: string)
    ensures |r| == |s|
    ensures forall i :: 0 <= i < |r| ==> r[i] == LowerChar(s[i])
  {
    seq(|s|, i requires 0 <= i < |s| => LowerChar(s[i]))
  }

  // ---------------------------------------------------------------- order

  /** Python's `<` on strings: lexicographic by code point, a proper prefix first. */
  predicate Less(a: string, b: string)
    decreases |a|
  {
    if |b| == 0 then false
    else if |a| == 0 then true
    else if a[0] != b[0] then a[0] < b[0]
    else Less(a[1..], b[1..])
  }

  lemma {:induction false} LessIrreflexive(a: string)
    ensures !Less(a, a)
    decreases |a|
  {
    if |a| > 0 {
      LessIrreflexive(a[1..]);
    }
  }

  lemma {:induction false} LessTransitive(a: string, b: string, c: string)
    requires Less(a, b) && Less(b, c)
    ensures Less(a, c)
    decreases |a|
  {
    if |a| > 0 && a[0] == b[0] && b[0] == c[0] {
      LessTransitive(a[1..], b[1..], c[1..]);
    }
  }

  lemma {:induction false} LessTotal(a: string, b: string)
    ensures a == b || Less(a, b) || Less(b, a)
    decreases |a|
  {
    if |a| > 0 && |b| > 0 && a[0] == b[0] {
      LessTotal(a[1..], b[1..]);
      if a[1..] == b[1..] {
        assert a == [a[0]] + a[1..] && b == [b[0]] + b[1..];
      }
    }
  }

  lemma LessAsymmetric(a: string, b: string)
    requires Less(a, b)
    ensures !Less(b, a)
  {
    if Less(b, a) {
      LessTransitive(a, b, a);
      LessIrreflexive(a);
    }
  }

  predicate StrictlySorted(s: seq<string>) {
    forall i, j :: 0 <= i < j < |s| ==> Less(s[i], s[j])
  }

  /** Insert `x` into a strictly sorted list of distinct strings, keeping it so (a set insert). */
  function InsertSorted(s: seq<string>, x: string): (r: seq<string>)
    requires StrictlySorted(s)
    ensures StrictlySorted(r)
    ensures forall k :: k in r <==> k in s || k == x
    decreases |s|
  {
    if |s| == 0 then [x]
    else if x == s[0] then s
    else if Less(x, s[0]) then
      assert forall j :: 0 < j < |s| ==> Less(x, s[j]) by {
        forall j | 0 < j < |s| ensures Less(x, s[j]) {
          LessTransitive(x, s[0], s[j]);
        }
      }
      [x] + s
    else
      var tail := InsertSorted(s[1..], x);
      LessTotal(x, s[0]);
      assert forall k :: k in tail ==> Less(s[0], k);
      [s[0]] + tail
  }

  /** `sorted(set(xs))`: the distinct strings of `xs` in ascending order. */
  function SortedDistinct(xs: seq<string>): (r: seq<string>)
    ensures StrictlySorted(r)
    ensures forall k :: k in r <==> k in xs
    decreases |xs|
  {
    if |xs| == 0 then []
    else InsertSorted(SortedDistinct(xs[..|xs| - 1]), xs[|xs| - 1])
  }
}
