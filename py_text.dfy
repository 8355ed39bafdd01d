/**
 * The few pieces of Python's `str` behaviour the core relies on:
 * `str.isspace`, `str.strip()`, `str.lower()`, `int(s)` for a string `s`
 * and `str(n)` for an integer `n`.
 */
module PyText {
  import opened Wrappers

  /** The characters for which Python's `str.isspace()` holds. */
  predicate IsSpace(c: char) {
    || c == ' '
    || ('\t' <= c <= '\r')
    || ('\U{1c}' <= c <= '\U{1f}')
    || c == '\U{85}' || c == '\U{a0}' || c == '\U{1680}'
    || ('\U{2000}' <= c <= '\U{200a}')
    || c == '\U{2028}' || c == '\U{2029}' || c == '\U{202f}' || c == '\U{205f}' || c == '\U{3000}'
  }

  predicate AllSpace(s: string) {
    forall i :: 0 <= i < |s| ==> IsSpace(s[i])
  }

  /** Neither end of `s` is whitespace. */
  predicate Trimmed(s: string) {
    s == [] || (!IsSpace(s[0]) && !IsSpace(s[|s| - 1]))
  }

  /** How many whitespace characters `s` starts with. */
  function LeadingSpaces(s: string): (k: nat)
    ensures k <= |s|
    ensures forall i :: 0 <= i < k ==> IsSpace(s[i])
    ensures k < |s| ==> !IsSpace(s[k])
  {
    if s != [] && IsSpace(s[0]) then 1 + LeadingSpaces(s[1..]) else 0
  }

  /** How many whitespace characters `s` ends with. */
  function TrailingSpaces(s: string): (k: nat)
    ensures k <= |s|
    ensures forall i :: |s| - k <= i < |s| ==> IsSpace(s[i])
    ensures k < |s| ==> !IsSpace(s[|s| - k - 1])
  {
    if s != [] && IsSpace(s[|s| - 1]) then 1 + TrailingSpaces(s[..|s| - 1]) else 0
  }

  /** `s.strip()` with no argument: drop the leading, then the trailing whitespace. */
  function Strip(s: string): string {
    var rest := s[LeadingSpaces(s)..];
    rest[..|rest| - TrailingSpaces(rest)]
  }

  lemma SplitThree(s: string, a: nat, b: nat)
    requires a <= |s| && b <= |s| - a
    ensures s == s[..a] + s[a..][..|s| - a - b] + s[a..][|s| - a - b..]
  {
    var rest := s[a..];
    assert s == s[..a] + rest;
    assert rest == rest[..|rest| - b] + rest[|rest| - b..];
  }

  lemma StripTrimmed(s: string)
    ensures Trimmed(Strip(s))
  {
    var a := LeadingSpaces(s);
    var rest := s[a..];
    var b := TrailingSpaces(rest);
    var core := rest[..|rest| - b];
    if core != [] {
      assert core[0] == rest[0] == s[a];
      assert core[|core| - 1] == rest[|rest| - b - 1];
    }
  }

  /** Whatever `s` is, it is its stripped core with whitespace on both sides. */
  lemma StripSplits(s: string) returns (pre: string, post: string)
    ensures s == pre + Strip(s) + post
    ensures AllSpace(pre) && AllSpace(post) && Trimmed(Strip(s))
  {
    var a := LeadingSpaces(s);
    var rest := s[a..];
    var b := TrailingSpaces(rest);
    pre := s[..a];
    post := rest[|rest| - b..];
    SplitThree(s, a, b);
    assert Strip(s) == rest[..|rest| - b];
    assert AllSpace(pre) by {
      forall i | 0 <= i < |pre| ensures IsSpace(pre[i]) {
        assert pre[i] == s[i];
      }
    }
    assert AllSpace(post) by {
      forall i | 0 <= i < |post| ensures IsSpace(post[i]) {
        assert post[i] == rest[|rest| - b + i];
      }
    }
    StripTrimmed(s);
  }

  lemma {:induction false} LeadingSpacesPadded(pre: string, w: string)
    requires AllSpace(pre)
    requires w == [] || !IsSpace(w[0])
    ensures LeadingSpaces(pre + w) == |pre|
  {
    if pre != [] {
      assert (pre + w)[1..] == pre[1..] + w;
      LeadingSpacesPadded(pre[1..], w);
    } else {
      assert pre + w == w;
    }
  }

  lemma {:induction false} TrailingSpacesPadded(w: string, post: string)
    requires AllSpace(post)
    requires w == [] || !IsSpace(w[|w| - 1])
    ensures TrailingSpaces(w + post) == |post|
  {
    if post != [] {
      assert (w + post)[..|w + post| - 1] == w + post[..|post| - 1];
      TrailingSpacesPadded(w, post[..|post| - 1]);
    } else {
      assert w + post == w;
    }
  }

  /** Stripping removes exactly the surrounding whitespace and nothing else. */
  lemma StripPadded(pre: string, w: string, post: string)
    requires AllSpace(pre) && AllSpace(post) && Trimmed(w)
    ensures Strip(pre + w + post) == w
  {
    var s := pre + w + post;
    if w == [] {
      assert s == pre + post;
      assert AllSpace(s) by {
        forall i | 0 <= i < |s| ensures IsSpace(s[i]) {
          if i < |pre| { assert s[i] == pre[i]; } else { assert s[i] == post[i - |pre|]; }
        }
      }
      LeadingSpacesPadded(s, []);
      assert s + [] == s;
    } else {
      assert s == pre + (w + post);
      LeadingSpacesPadded(pre, w + post);
      assert s[|pre|..] == w + post;
      TrailingSpacesPadded(w, post);
    }
  }

  /** ASCII lower-casing of one character. */
  function LowerChar(c: char): char {
    if 'A' <= c <= 'Z' then (c as int + 32) as char else c
  }

  /** `s.lower()` restricted to ASCII letters. */
  function Lower(s: string): (r: string)
    ensures |r| == |s|
  {
    seq(|s|, i requires 0 <= i < |s| => LowerChar(s[i]))
  }

  predicate IsDigit(c: char) {
    '0' <= c <= '9'
  }

  /** Digits with single underscores between them, the body `int()` accepts. */
  predicate WellFormedDigits(s: string) {
    && |s| > 0
    && IsDigit(s[0])
    && IsDigit(s[|s| - 1])
    && (forall i :: 0 <= i < |s| ==> IsDigit(s[i]) || s[i] == '_')
    && (forall i :: 0 < i < |s| && s[i] == '_' ==> IsDigit(s[i - 1]))
  }

  /** The number the digits of `s` spell, underscores skipped. */
  function DigitsValue(s: string): nat {
    if s == [] then 0
    else if IsDigit(s[|s| - 1]) then DigitsValue(s[..|s| - 1]) * 10 + (s[|s| - 1] as int - '0' as int)
    else DigitsValue(s[..|s| - 1])
  }

  /** Python's `int(s)` for a `str` argument; `None` stands for the `ValueError` it raises. */
  function ParseInt(s: string): Option<int> {
    var t := Strip(s);
    if |t| > 0 && (t[0] == '+' || t[0] == '-') then
      if WellFormedDigits(t[1..]) then
        Some(if t[0] == '-' then -(DigitsValue(t[1..]) as int) else DigitsValue(t[1..]))
      else None
    else if WellFormedDigits(t) then Some(DigitsValue(t))
    else None
  }

  function DigitChar(d: nat): (c: char)
    requires d < 10
    ensures IsDigit(c) && c as int - '0' as int == d
  {
    ('0' as int + d) as char
  }

  /** `str(n)` for a natural number. */
  function ShowNat(n: nat): (r: string)
    ensures |r| > 0 && IsDigit(r[0])
  {
    if n < 10 then [DigitChar(n)] else ShowNat(n / 10) + [DigitChar(n % 10)]
  }

  /** `str(n)` for an integer. */
  function ShowInt(n: int): string {
    if n < 0 then "-" + ShowNat(-n) else ShowNat(n)
  }

  lemma {:induction false} ShowNatDigits(n: nat)
    ensures WellFormedDigits(ShowNat(n)) && DigitsValue(ShowNat(n)) == n
    ensures forall i :: 0 <= i < |ShowNat(n)| ==> IsDigit(ShowNat(n)[i])
  {
    if n >= 10 {
      ShowNatDigits(n / 10);
      var s := ShowNat(n);
      assert s[..|s| - 1] == ShowNat(n / 10);
    }
  }

  lemma ShowIntEnds(n: int)
    ensures Trimmed(ShowInt(n))
  {
    var m: nat := if n < 0 then -n else n;
    var d := ShowNat(m);
    ShowNatDigits(m);
    var s := ShowInt(n);
    assert s[|s| - 1] == d[|d| - 1];
  }

  lemma ShowIntTrimmed(n: int)
    ensures Strip(ShowInt(n)) == ShowInt(n)
  {
    var s := ShowInt(n);
    ShowIntEnds(n);
    StripPadded("", s, "");
    assert "" + s + "" == s;
  }

  /** `int(str(n)) == n`: the decimal rendering of an integer parses back to it. */
  lemma ParseShowInt(n: int)
    ensures ParseInt(ShowInt(n)) == Some(n)
  {
    var m: nat := if n < 0 then -n else n;
    ShowNatDigits(m);
    ShowIntTrimmed(n);
    var s := ShowInt(n);
    if n < 0 {
      assert s[1..] == ShowNat(m);
    } else {
      assert s == ShowNat(m);
      assert IsDigit(s[0]);
    }
  }
}
