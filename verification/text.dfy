/** The string operations the page objects apply to element text: the regex
    filters `replaceAll("[^0-9]", "")`, `replaceAll("[^0-9-]", "")` and
    `replaceAll("\\s+", "")`, `String.trim`, ASCII lower-casing,
    `String.contains`, and `Integer.parseInt` with its 32-bit range. */
module Text {
  import opened Wrappers

  const MinInt32: int := -0x8000_0000
  const MaxInt32: int := 0x7FFF_FFFF

  predicate IsDigit(c: char) { '0' <= c <= '9' }

  /** The characters kept by `[^0-9-]`. */
  predicate IsDigitOrMinus(c: char) { IsDigit(c) || c == '-' }

  /** Java's regex class `\s`: space, tab, line feed, vertical tab, form feed, carriage return. */
  predicate IsRegexSpace(c: char) {
    c == ' ' || c == '\t' || c == '\n' || c == '\r' || c as int == 0x0B || c as int == 0x0C
  }

  predicate IsNotRegexSpace(c: char) { !IsRegexSpace(c) }

  /** `String.trim` removes every leading and trailing character up to U+0020. */
  predicate IsTrimmed(c: char) { c <= ' ' }

  predicate AllDigits(s: string) { forall i :: 0 <= i < |s| ==> IsDigit(s[i]) }

  // ---------------------------------------------------------------- filtering

  /** The characters of `s` that satisfy `keep`, in their original order. */
  function Keep(s: string, keep: char -> bool): (r: string)
    ensures |r| <= |s|
    ensures forall i :: 0 <= i < |r| ==> keep(r[i])
  {
    if s == [] then [] else (if keep(s[0]) then [s[0]] else []) + Keep(s[1..], keep)
  }

  /** Filtering drops exactly the characters `keep` rejects. */
  lemma {:induction false} KeepMembers(s: string, keep: char -> bool)
    ensures forall c :: c in Keep(s, keep) <==> c in s && keep(c)
  {
    if s != [] {
      KeepMembers(s[1..], keep);
      assert s == [s[0]] + s[1..];
    }
  }

  /** `replaceAll("[^0-9]", "")`. */
  function Digits(s: string): string { Keep(s, IsDigit) }

  lemma {:induction false} KeepAppend(a: string, b: string, keep: char -> bool)
    ensures Keep(a + b, keep) == Keep(a, keep) + Keep(b, keep)
  {
    if a == [] {
      assert a + b == b;
    } else {
      assert (a + b)[0] == a[0];
      assert (a + b)[1..] == a[1..] + b;
      KeepAppend(a[1..], b, keep);
    }
  }

  lemma {:induction false} KeepAllOf(s: string, keep: char -> bool)
    requires forall i :: 0 <= i < |s| ==> keep(s[i])
    ensures Keep(s, keep) == s
  {
    if s != [] {
      KeepAllOf(s[1..], keep);
    }
  }

  lemma {:induction false} KeepNoneOf(s: string, keep: char -> bool)
    requires forall i :: 0 <= i < |s| ==> !keep(s[i])
    ensures Keep(s, keep) == []
  {
    if s != [] {
      KeepNoneOf(s[1..], keep);
    }
  }

  /** Digits framed by digit-free text are all the digits of the whole. */
  lemma DigitsFramed(prefix: string, digits: string, suffix: string)
    requires AllDigits(digits)
    requires Digits(prefix) == [] && Digits(suffix) == []
    ensures Digits(prefix + digits + suffix) == digits
  {
    KeepAppend(prefix + digits, suffix, IsDigit);
    KeepAppend(prefix, digits, IsDigit);
    KeepAllOf(digits, IsDigit);
  }

  // ---------------------------------------------------------------- trim

  /** Java's `String.trim`: drop every character up to U+0020 from both ends. */
  function Trim(s: string): (r: string)
    ensures |r| > 0 ==> !IsTrimmed(r[0]) && !IsTrimmed(r[|r| - 1])
    decreases |s|
  {
    if s != [] && IsTrimmed(s[0]) then Trim(s[1..])
    else if s != [] && IsTrimmed(s[|s| - 1]) then Trim(s[..|s| - 1])
    else s
  }

  /** Every character is one that `String.trim` drops. */
  predicate Blank(s: string)
  {
    forall i :: 0 <= i < |s| ==> IsTrimmed(s[i])
  }

  lemma BlankAppend(a: string, b: string)
    requires Blank(a) && Blank(b)
    ensures Blank(a + b)
  {
    forall i | 0 <= i < |a + b| ensures IsTrimmed((a + b)[i]) {
      if i >= |a| { assert (a + b)[i] == b[i - |a|]; }
    }
  }

  lemma ConsRegroup(c: char, h: string, m: string, t: string)
    ensures [c] + (h + m + t) == ([c] + h) + m + t
  {
  }

  lemma SnocRegroup(h: string, m: string, t: string, c: char)
    ensures (h + m + t) + [c] == h + m + (t + [c])
  {
  }

  /** Trim only ever removes characters up to U+0020 from the two ends. */
  lemma {:induction false} TrimSplits(s: string) returns (head: string, tail: string)
    ensures s == head + Trim(s) + tail
    ensures Blank(head) && Blank(tail)
    decreases |s|
  {
    if s != [] && IsTrimmed(s[0]) {
      var c, rest := s[0], s[1..];
      assert s == [c] + rest;
      var h, t := TrimSplits(rest);
      BlankAppend([c], h);
      head, tail := [c] + h, t;
      ConsRegroup(c, h, Trim(rest), t);
    } else if s != [] && IsTrimmed(s[|s| - 1]) {
      var c, rest := s[|s| - 1], s[..|s| - 1];
      assert s == rest + [c];
      var h, t := TrimSplits(rest);
      BlankAppend(t, [c]);
      head, tail := h, t + [c];
      SnocRegroup(h, Trim(rest), t, c);
    } else {
      head, tail := [], [];
    }
  }

  /** A trimmed string is empty exactly when every character is blank. */
  lemma {:induction false} TrimEmptyIffBlank(s: string)
    ensures Trim(s) == [] <==> Blank(s)
    decreases |s|
  {
    var head, tail := TrimSplits(s);
    if Trim(s) == [] {
      assert s == head + tail;
      BlankAppend(head, tail);
    }
    if s != [] && Blank(s) {
      TrimEmptyIffBlank(s[1..]);
    }
  }

  /** Trimming cannot change a filter that keeps no blank character. */
  lemma KeepIgnoresTrim(s: string, keep: char -> bool)
    requires forall c :: keep(c) ==> !IsTrimmed(c)
    ensures Keep(Trim(s), keep) == Keep(s, keep)
  {
    var head, tail := TrimSplits(s);
    KeepAppend(head + Trim(s), tail, keep);
    KeepAppend(head, Trim(s), keep);
    KeepNoneOf(head, keep);
    KeepNoneOf(tail, keep);
  }

  // ---------------------------------------------------------------- case and substrings

  /** The per-character effect of `String.toLowerCase` on ASCII letters;
      every other character is left as it is. */
  function LowerChar(c: char): char
  {
    if 'A' <= c <= 'Z' then (c as int + 32) as char else c
  }

  function Lower(s: string): (r: string)
    ensures |r| == |s|
    ensures forall i :: 0 <= i < |s| ==> r[i] == LowerChar(s[i])
  {
    if s == [] then [] else [LowerChar(s[0])] + Lower(s[1..])
  }

  predicate StartsWith(s: string, prefix: string)
  {
    |prefix| <= |s| && s[..|prefix|] == prefix
  }

  /** `String.contains`: `sub` occurs somewhere in `s`. */
  predicate Contains(s: string, sub: string)
    decreases |s|
  {
    StartsWith(s, sub) || (|s| > 0 && Contains(s[1..], sub))
  }

  /** Every string contains itself when surrounded by anything. */
  lemma {:induction false} ContainsInfix(a: string, sub: string, b: string)
    ensures Contains(a + sub + b, sub)
  {
    if a == [] {
      assert a + sub + b == sub + b;
      assert (sub + b)[..|sub|] == sub;
    } else {
      assert (a + sub + b)[1..] == a[1..] + sub + b;
      ContainsInfix(a[1..], sub, b);
    }
  }

  /** Each character of a contained string occurs in the containing one. */
  lemma {:induction false} ContainedCharsOccur(s: string, sub: string, i: nat)
    requires Contains(s, sub)
    requires i < |sub|
    ensures sub[i] in s
    decreases |s|
  {
    if StartsWith(s, sub) {
      assert s[i] == sub[i];
    } else {
      ContainedCharsOccur(s[1..], sub, i);
    }
  }

  /** Text added after a string keeps what it contains. */
  lemma {:induction false} ContainsExtendRight(s: string, t: string, sub: string)
    requires Contains(s, sub)
    ensures Contains(s + t, sub)
    decreases |s|
  {
    if StartsWith(s, sub) {
      assert (s + t)[..|sub|] == s[..|sub|];
    } else {
      assert (s + t)[1..] == s[1..] + t;
      ContainsExtendRight(s[1..], t, sub);
    }
  }

  /** Text added before a string keeps what it contains. */
  lemma {:induction false} ContainsExtendLeft(t: string, s: string, sub: string)
    requires Contains(s, sub)
    ensures Contains(t + s, sub)
    decreases |t|
  {
    if t != [] {
      assert (t + s)[1..] == t[1..] + s;
      ContainsExtendLeft(t[1..], s, sub);
    } else {
      assert t + s == s;
    }
  }

  /** A prefix of `a + [sep] + b` longer than `a` has the separator at
      position `|a|`. */
  lemma SeparatorInLongPrefix(a: string, sep: char, b: string, sub: string)
    requires StartsWith(a + [sep] + b, sub)
    ensures |sub| > |a| ==> sub[|a|] == sep
  {
    if |sub| > |a| {
      assert sub[|a|] == (a + [sep] + b)[..|sub|][|a|];
    }
  }

  /** A string free of the separator occurs in two parts joined by that
      separator exactly when it occurs in one of the parts. */
  lemma {:induction false} ContainsAcrossSeparator(a: string, sep: char, b: string, sub: string)
    requires sep !in sub
    ensures Contains(a + [sep] + b, sub) <==> Contains(a, sub) || Contains(b, sub)
    decreases |a|
  {
    var s := a + [sep] + b;
    if Contains(a, sub) {
      ContainsExtendRight(a, [sep] + b, sub);
      assert a + ([sep] + b) == s;
    }
    if Contains(b, sub) {
      ContainsExtendLeft(a + [sep], b, sub);
    }
    if Contains(s, sub) {
      if StartsWith(s, sub) {
        SeparatorInLongPrefix(a, sep, b, sub);
        assert a[..|sub|] == s[..|sub|];
      } else if a == [] {
        assert s[1..] == b;
      } else {
        assert s[1..] == a[1..] + [sep] + b;
        ContainsAcrossSeparator(a[1..], sep, b, sub);
      }
    }
  }

  // ---------------------------------------------------------------- numbers

  function DigitValue(c: char): nat
    requires IsDigit(c)
  {
    c as int - '0' as int
  }

  function DigitChar(d: nat): (c: char)
    requires d < 10
    ensures IsDigit(c) && DigitValue(c) == d
  {
    ('0' as int + d) as char
  }

  /** The value of a decimal digit string, most significant digit first. */
  function DigitsValue(s: string): nat
    requires AllDigits(s)
  {
    if s == [] then 0 else DigitsValue(s[..|s| - 1]) * 10 + DigitValue(s[|s| - 1])
  }

  /** The shortest decimal rendering of `n` (what `String.valueOf` prints). */
  function NatToDigits(n: nat): (s: string)
    ensures |s| > 0 && AllDigits(s)
  {
    if n < 10 then [DigitChar(n)] else NatToDigits(n / 10) + [DigitChar(n % 10)]
  }

  function IntToString(n: int): string
  {
    if n < 0 then "-" + NatToDigits(-n) else NatToDigits(n)
  }

  lemma {:induction false} DigitsValueOfNatToDigits(n: nat)
    ensures DigitsValue(NatToDigits(n)) == n
  {
    if n >= 10 {
      var s := NatToDigits(n);
      assert s[..|s| - 1] == NatToDigits(n / 10);
      DigitsValueOfNatToDigits(n / 10);
    }
  }

  /** `Integer.parseInt(s)` in radix 10: an optional sign followed by one or
      more digits, whose value fits in 32 bits; anything else throws, which is
      `None` here. */
  function ParseInt(s: string): (r: Option<int>)
    ensures r.Some? ==> MinInt32 <= r.value <= MaxInt32
    ensures r.Some? ==> |s| > 0 && forall i :: 1 <= i < |s| ==> IsDigit(s[i])
    ensures r.Some? ==> IsDigit(s[0]) || (|s| >= 2 && (s[0] == '-' || s[0] == '+'))
    ensures |s| > 0 && AllDigits(s) ==> (r.Some? <==> DigitsValue(s) <= MaxInt32)
    ensures r.Some? && AllDigits(s) ==> r.value == DigitsValue(s)
  {
    if |s| == 0 then None
    else if s[0] == '-' || s[0] == '+' then
      var body := s[1..];
      if |body| == 0 || !AllDigits(body) then None
      else
        var v := if s[0] == '-' then -(DigitsValue(body) as int) else DigitsValue(body);
        if MinInt32 <= v <= MaxInt32 then Some(v) else None
    else if !AllDigits(s) then None
    else if DigitsValue(s) <= MaxInt32 then Some(DigitsValue(s))
    else None
  }

  /** A sign followed by digits parses to the signed value of the digits
      exactly when that value fits in 32 bits: "+7" is 7, "-05" is -5, and
      "-2147483648" is accepted while "+2147483648" is not. */
  lemma ParseIntSigned(s: string)
    requires |s| >= 2 && (s[0] == '-' || s[0] == '+') && AllDigits(s[1..])
    ensures var v := if s[0] == '-' then -(DigitsValue(s[1..]) as int) else DigitsValue(s[1..]) as int;
      (ParseInt(s).Some? <==> MinInt32 <= v <= MaxInt32) && (ParseInt(s).Some? ==> ParseInt(s).value == v)
  {
  }

  /** Parsing the decimal rendering of a 32-bit integer gives it back. */
  lemma ParseIntOfIntToString(n: int)
    requires MinInt32 <= n <= MaxInt32
    ensures ParseInt(IntToString(n)) == Some(n)
  {
    if n < 0 {
      var s := IntToString(n);
      assert s[1..] == NatToDigits(-n);
      DigitsValueOfNatToDigits(-n);
    } else {
      DigitsValueOfNatToDigits(n);
    }
  }
}
