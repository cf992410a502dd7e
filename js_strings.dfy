/** The few JavaScript string primitives the todo list relies on:
    `String.prototype.trim`, `parseInt(s, 10)` and the decimal rendering of
    an integer id (`String(n)`, what React writes into a hidden input). */
module JsStrings {
  import opened Wrappers

  /** The WhiteSpace and LineTerminator code points of ECMAScript
      (sections 12.2 and 12.3 of ECMA-262): the set that `trim()` strips
      and that `parseInt` skips before the number. */
  predicate IsWhitespace(c: char) {
    var n := c as int;
    n == 0x09 || n == 0x0A || n == 0x0B || n == 0x0C || n == 0x0D || n == 0x20
    || n == 0xA0 || n == 0x1680 || (0x2000 <= n <= 0x200A)
    || n == 0x2028 || n == 0x2029 || n == 0x202F || n == 0x205F
    || n == 0x3000 || n == 0xFEFF
  }

  /** Every character of `s` is whitespace (the empty string included). */
  predicate IsBlank(s: string) {
    forall i :: 0 <= i < |s| ==> IsWhitespace(s[i])
  }

  /** Leading whitespace removed: the result is a suffix of `s`, what was
      dropped is blank, and the result does not start with whitespace. */
  function TrimStart(s: string): (r: string)
    ensures |r| <= |s| && r == s[|s| - |r|..]
    ensures forall i :: 0 <= i < |s| - |r| ==> IsWhitespace(s[i])
    ensures r == [] || !IsWhitespace(r[0])
  {
    if s != [] && IsWhitespace(s[0]) then
      var r := TrimStart(s[1..]);
      assert s[1..][|s| - 1 - |r|..] == s[|s| - |r|..];
      r
    else s
  }

  /** Trailing whitespace removed: the result is a prefix of `s`, what was
      dropped is blank, and the result does not end with whitespace. */
  function TrimEnd(s: string): (r: string)
    ensures |r| <= |s| && r == s[..|r|]
    ensures forall i :: |r| <= i < |s| ==> IsWhitespace(s[i])
    ensures r == [] || !IsWhitespace(r[|r| - 1])
  {
    if s != [] && IsWhitespace(s[|s| - 1]) then
      var r := TrimEnd(s[..|s| - 1]);
      assert s[..|s| - 1][..|r|] == s[..|r|];
      r
    else s
  }

  /** `r` is the part of `s` that starts at offset `a`, and everything of
      `s` before and after it is whitespace. */
  predicate StripsBlankEnds(s: string, r: string, a: int) {
    && 0 <= a <= |s| - |r|
    && r == s[a..a + |r|]
    && (forall i :: 0 <= i < a ==> IsWhitespace(s[i]))
    && (forall i :: a + |r| <= i < |s| ==> IsWhitespace(s[i]))
  }

  /** `s.trim()`: whitespace removed from both ends. The result is the
      middle of `s` with only whitespace around it, and it neither starts
      nor ends with whitespace. */
  function Trim(s: string): (r: string)
    ensures exists a :: StripsBlankEnds(s, r, a)
    ensures r == [] || (!IsWhitespace(r[0]) && !IsWhitespace(r[|r| - 1]))
  {
    var t := TrimStart(s);
    var r := TrimEnd(t);
    TrimEndsAreBlank(s, t, r);
    r
  }

  /** A suffix `t` of `s` behind whitespace, cut down to a prefix `r` of
      `t` followed by whitespace, is a middle part of `s` with only
      whitespace around it. */
  lemma TrimEndsAreBlank(s: string, t: string, r: string)
    requires |t| <= |s| && t == s[|s| - |t|..]
    requires forall i :: 0 <= i < |s| - |t| ==> IsWhitespace(s[i])
    requires |r| <= |t| && r == t[..|r|]
    requires forall i :: |r| <= i < |t| ==> IsWhitespace(t[i])
    requires t == [] || !IsWhitespace(t[0])
    requires r == [] || !IsWhitespace(r[|r| - 1])
    ensures StripsBlankEnds(s, r, |s| - |t|)
    ensures r == [] || (!IsWhitespace(r[0]) && !IsWhitespace(r[|r| - 1]))
  {
    assert r != [] ==> r[0] == t[0];
    var a := |s| - |t|;
    forall i | a + |r| <= i < |s| ensures IsWhitespace(s[i]) {
      assert s[i] == t[i - a];
    }
  }

  /** `s.trim() === ''` exactly when every character of `s` is whitespace. */
  lemma TrimEmptyIffBlank(s: string)
    ensures Trim(s) == [] <==> IsBlank(s)
  {
    var t := TrimStart(s);
    var dropped := |s| - |t|;
    assert t != [] ==> s[dropped] == t[0];
  }

  predicate IsDigit(c: char) {
    '0' <= c <= '9'
  }

  predicate AllDigits(s: string) {
    forall i :: 0 <= i < |s| ==> IsDigit(s[i])
  }

  /** The longest prefix of `s` made of decimal digits. */
  function DigitPrefix(s: string): (p: string)
    ensures |p| <= |s| && p == s[..|p|]
    ensures AllDigits(p)
    ensures |p| == |s| || !IsDigit(s[|p|])
  {
    if s != [] && IsDigit(s[0]) then [s[0]] + DigitPrefix(s[1..]) else []
  }

  /** The value of a string of decimal digits, most significant first. */
  function DigitsValue(ds: string): nat
    requires AllDigits(ds)
  {
    if ds == [] then 0
    else DigitsValue(ds[..|ds| - 1]) * 10 + (ds[|ds| - 1] as int - '0' as int)
  }

  /** What a sign character leaves: `t` without a leading '+' or '-'. */
  function Unsigned(t: string): string {
    if t != [] && (t[0] == '-' || t[0] == '+') then t[1..] else t
  }

  /** `parseInt(s, 10)`, with `None` for `NaN`: leading whitespace is
      skipped, one sign is read, and then the longest run of decimal digits
      is the number; whatever follows is ignored ("12abc" gives 12). */
  function ParseInt(s: string): (r: Option<int>)
    ensures r.None? <==> (var u := Unsigned(TrimStart(s)); u == [] || !IsDigit(u[0]))
  {
    ParseSigned(TrimStart(s))
  }

  /** The number at the start of `t`, which has no leading whitespace. */
  function ParseSigned(t: string): (r: Option<int>)
    ensures r.None? <==> (var u := Unsigned(t); u == [] || !IsDigit(u[0]))
  {
    var ds := DigitPrefix(Unsigned(t));
    var magnitude: int := if ds == [] then 0 else DigitsValue(ds);
    if ds == [] then None
    else if t[0] == '-' then Some(-magnitude)
    else Some(magnitude)
  }

  function DigitChar(d: nat): (c: char)
    requires d < 10
    ensures IsDigit(c) && c as int - '0' as int == d
  {
    ('0' as int + d) as char
  }

  /** The decimal digits of `n`, without leading zeros. */
  function NatToString(n: nat): (s: string)
    ensures s != [] && AllDigits(s)
  {
    if n < 10 then [DigitChar(n)] else NatToString(n / 10) + [DigitChar(n % 10)]
  }

  /** `String(n)` for an integer `n`: a '-' in front of a negative number. */
  function IntToString(n: int): (s: string)
    ensures s != [] && (s[0] == '-' <==> n < 0)
    ensures AllDigits(if n < 0 then s[1..] else s)
  {
    if n < 0 then "-" + NatToString(-n) else NatToString(n)
  }

  lemma {:induction false} DigitsValueOfNatToString(n: nat)
    ensures DigitsValue(NatToString(n)) == n
  {
    var s := NatToString(n);
    if n >= 10 {
      DigitsValueOfNatToString(n / 10);
      assert s[..|s| - 1] == NatToString(n / 10);
    }
  }

  lemma {:induction false} DigitPrefixOfDigits(p: string, rest: string)
    requires AllDigits(p)
    requires rest == [] || !IsDigit(rest[0])
    ensures DigitPrefix(p + rest) == p
  {
    if p != [] {
      assert (p + rest)[1..] == p[1..] + rest;
      DigitPrefixOfDigits(p[1..], rest);
    } else {
      assert p + rest == rest;
    }
  }

  /** A string that does not start with whitespace is its own `TrimStart`,
      so `parseInt` reads it from its first character. */
  lemma ParseIntFromFirstChar(s: string)
    requires s != [] && !IsWhitespace(s[0])
    ensures ParseInt(s) == ParseSigned(s)
  {
    assert TrimStart(s) == s;
  }

  /** A string that starts with a character that is neither whitespace, a
      sign nor a digit is `NaN`. */
  lemma ParseIntOfNonNumeric(s: string)
    requires s != [] && !IsWhitespace(s[0]) && !IsDigit(s[0]) && s[0] != '-' && s[0] != '+'
    ensures ParseInt(s) == None
  {
    ParseIntFromFirstChar(s);
  }

  /** `TrimStart` skips any run of whitespace in front of the string. */
  lemma {:induction false} TrimStartSkipsBlanks(w: string, t: string)
    requires IsBlank(w)
    ensures TrimStart(w + t) == TrimStart(t)
  {
    if w != [] {
      assert (w + t)[0] == w[0];
      assert (w + t)[1..] == w[1..] + t;
      TrimStartSkipsBlanks(w[1..], t);
    } else {
      assert w + t == t;
    }
  }

  /** Leading whitespace does not change what `parseInt` reads. */
  lemma ParseIntSkipsBlanks(w: string, t: string)
    requires IsBlank(w)
    ensures ParseInt(w + t) == ParseInt(t)
  {
    TrimStartSkipsBlanks(w, t);
  }

  /** A plus sign, then digits followed by a non-digit, are read as the
      value of the digits. */
  lemma ParseIntOfPlusDigits(digits: string, rest: string)
    requires digits != [] && AllDigits(digits)
    requires rest == [] || !IsDigit(rest[0])
    ensures ParseInt("+" + (digits + rest)) == Some(DigitsValue(digits))
  {
    var s := "+" + (digits + rest);
    assert s[0] == '+' && s[1..] == digits + rest;
    ParseIntFromFirstChar(s);
    DigitPrefixOfDigits(digits, rest);
  }

  /** Digits followed by a non-digit are read as their value. */
  lemma ParseIntOfDigits(digits: string, rest: string)
    requires digits != [] && AllDigits(digits)
    requires rest == [] || !IsDigit(rest[0])
    ensures ParseInt(digits + rest) == Some(DigitsValue(digits))
  {
    var s := digits + rest;
    assert s[0] == digits[0] && IsDigit(s[0]);
    ParseIntFromFirstChar(s);
    DigitPrefixOfDigits(digits, rest);
  }

  lemma ParseSignedOfMinus(t: string, digits: string)
    requires t != [] && t[0] == '-'
    requires DigitPrefix(t[1..]) == digits && digits != []
    ensures ParseSigned(t) == Some(0 - DigitsValue(digits))
  {
  }

  /** A minus sign, then digits followed by a non-digit, are read as the
      negated value. */
  lemma ParseIntOfNegatedDigits(digits: string, rest: string)
    requires digits != [] && AllDigits(digits)
    requires rest == [] || !IsDigit(rest[0])
    ensures ParseInt("-" + (digits + rest)) == Some(0 - DigitsValue(digits))
  {
    var s := "-" + (digits + rest);
    assert s[0] == '-' && s[1..] == digits + rest;
    ParseIntFromFirstChar(s);
    DigitPrefixOfDigits(digits, rest);
    ParseSignedOfMinus(s, digits);
  }

  /** `parseInt` reads back the decimal rendering of any integer, and stops
      at the first character after it that is not a digit. */
  lemma ParseIntReadsIntToString(n: int, rest: string)
    requires rest == [] || !IsDigit(rest[0])
    ensures ParseInt(IntToString(n) + rest) == Some(n)
  {
    var m: nat := if n < 0 then -n else n;
    var digits := NatToString(m);
    DigitsValueOfNatToString(m);
    if n < 0 {
      assert IntToString(n) + rest == "-" + (digits + rest);
      ParseIntOfNegatedDigits(digits, rest);
    } else {
      ParseIntOfDigits(digits, rest);
    }
  }

  /** Round trip: `parseInt(String(n), 10) == n`. */
  lemma ParseIntOfIntToString(n: int)
    ensures ParseInt(IntToString(n)) == Some(n)
  {
    ParseIntReadsIntToString(n, []);
    assert IntToString(n) + [] == IntToString(n);
  }
}
