/**
 * The three Python string builtins the score check relies on:
 * `str.strip()`, with Python's full set of whitespace characters;
 * `str.isdigit()` and `int(...)`, on the ASCII digits `0`-`9` only; and the
 * decimal rendering `f"{n}"` of a natural number, which is the inverse that
 * pins `int(...)` down.
 */
module Text {
  import opened Sequences

  /** The characters `str.strip()` removes: among ASCII, tab, line feed,
      vertical tab, form feed, carriage return, the four information
      separators 0x1C-0x1F and space. */
  predicate IsWhitespace(c: char) {
    if c as int < 0x80 then 9 <= c as int <= 13 || 28 <= c as int <= 32
    else WideWhitespace(c as int)
  }

  /** The whitespace beyond ASCII: next line (0x85), no-break space (0xA0),
      ogham space mark (0x1680), the spaces 0x2000-0x200A, the line and
      paragraph separators (0x2028, 0x2029), narrow no-break space (0x202F),
      medium mathematical space (0x205F) and ideographic space (0x3000). */
  predicate WideWhitespace(n: int) {
    || n == 0x85 || n == 0xA0 || n == 0x1680 || 0x2000 <= n <= 0x200A
    || n == 0x2028 || n == 0x2029 || n == 0x202F || n == 0x205F || n == 0x3000
  }

  predicate AllWhitespace(s: string) {
    forall k :: 0 <= k < |s| ==> IsWhitespace(s[k])
  }

  /** `s.lstrip()`. */
  function TrimLeft(s: string): (r: string)
    ensures |r| <= |s|
    ensures r == [] || !IsWhitespace(r[0])
  {
    if s != [] && IsWhitespace(s[0]) then TrimLeft(s[1..]) else s
  }

  /** `s.rstrip()`. */
  function TrimRight(s: string): (r: string)
    ensures |r| <= |s|
    ensures r == [] || (r[0] == s[0] && !IsWhitespace(r[|r| - 1]))
  {
    if s != [] && IsWhitespace(s[|s| - 1]) then TrimRight(s[..|s| - 1]) else s
  }

  /** `s.strip()`: neither starts nor ends with whitespace. */
  function Strip(s: string): (r: string)
    ensures |r| <= |s|
    ensures r == [] || (!IsWhitespace(r[0]) && !IsWhitespace(r[|r| - 1]))
  {
    TrimRight(TrimLeft(s))
  }

  /** `lstrip` removes the leading whitespace and nothing else. */
  lemma {:induction false} TrimLeftSuffix(s: string)
    ensures var r := TrimLeft(s);
      r == s[|s| - |r|..] && AllWhitespace(s[..|s| - |r|])
  {
    if s != [] && IsWhitespace(s[0]) {
      TrimLeftSuffix(s[1..]);
      var r := TrimLeft(s);
      assert s[1..][|s| - 1 - |r|..] == s[|s| - |r|..];
      assert forall k :: 1 <= k < |s| - |r| ==> s[k] == s[1..][..|s| - 1 - |r|][k - 1];
    }
  }

  /** `rstrip` removes the trailing whitespace and nothing else. */
  lemma {:induction false} TrimRightPrefix(s: string)
    ensures var r := TrimRight(s);
      r == s[..|r|] && AllWhitespace(s[|r|..])
  {
    if s != [] && IsWhitespace(s[|s| - 1]) {
      TrimRightPrefix(s[..|s| - 1]);
      var r := TrimRight(s);
      assert forall k :: |r| <= k < |s| - 1 ==> s[k] == s[..|s| - 1][|r|..][k - |r|];
    }
  }

  /** `s.strip()` is the slice of `s` left once the whitespace at both ends is
      removed: only whitespace lies before and after it in `s`. */
  lemma StripSlice(s: string)
    ensures var r := Strip(s);
      exists i :: 0 <= i <= |s| - |r| && r == s[i..i + |r|]
                  && AllWhitespace(s[..i]) && AllWhitespace(s[i + |r|..])
  {
    var t := TrimLeft(s);
    var r := TrimRight(t);
    TrimLeftSuffix(s);
    TrimRightPrefix(t);
    var i := |s| - |t|;
    assert r == s[i..i + |r|];
    assert s[i + |r|..] == t[|r|..];
  }

  /** Stripping keeps text without surrounding whitespace as it is. */
  lemma StripKeepsTrimmed(s: string)
    requires s == [] || (!IsWhitespace(s[0]) && !IsWhitespace(s[|s| - 1]))
    ensures Strip(s) == s
  {
  }

  /** Stripping yields the empty string exactly when the text is all whitespace. */
  lemma StripEmptyIffBlank(s: string)
    ensures Strip(s) == [] <==> AllWhitespace(s)
  {
    var t := TrimLeft(s);
    TrimLeftSuffix(s);
    TrimRightPrefix(t);
    if Strip(s) == [] {
      assert t[0..] == t;
      assert t == [];
      assert s[..|s|] == s;
    } else {
      assert s[|s| - |t|] == t[0] == Strip(s)[0];
    }
  }

  /** An ASCII decimal digit. Every other character, including the decimal
      digits of other scripts, counts as a non-digit. */
  predicate IsDigit(c: char) {
    '0' <= c <= '9'
  }

  predicate AllDigits(s: string) {
    forall k :: 0 <= k < |s| ==> IsDigit(s[k])
  }

  /** Python's `str.isdigit`, with `IsDigit` as the digits: true of a non-empty string of digits only. */
  predicate IsDigits(s: string) {
    |s| > 0 && AllDigits(s)
  }

  function DigitValue(c: char): (d: nat)
    requires IsDigit(c)
    ensures d < 10
  {
    c as int - '0' as int
  }

  function Digit(d: nat): (c: char)
    requires d < 10
    ensures IsDigit(c) && DigitValue(c) == d
  {
    ('0' as int + d) as char
  }

  /** Python's `int(s)` on a string of ASCII digits: base ten, leading zeros allowed. */
  function Value(s: string): nat
    requires AllDigits(s)
  {
    if s == [] then 0
    else Value(s[..|s| - 1]) * 10 + DigitValue(s[|s| - 1])
  }

  /** `f"{n}"` for a natural number: its decimal numeral, without leading zeros. */
  function ShowNat(n: nat): (r: string)
    ensures IsDigits(r)
    ensures r[0] == '0' ==> r == "0"
  {
    if n < 10 then [Digit(n)] else ShowNat(n / 10) + [Digit(n % 10)]
  }

  /** `n` zero characters. */
  function Zeros(n: nat): (r: string)
    ensures |r| == n && forall k :: 0 <= k < n ==> r[k] == '0'
  {
    seq(n, _ => '0')
  }

  /** `int(f"{n}") == n`. */
  lemma {:induction false} ValueOfShowNat(n: nat)
    ensures Value(ShowNat(n)) == n
  {
    var r := ShowNat(n);
    if n < 10 {
      assert r[..|r| - 1] == [];
    } else {
      assert r[..|r| - 1] == ShowNat(n / 10);
      ValueOfShowNat(n / 10);
    }
  }

  /** A numeral that does not start with `0` (unless it is `0` itself) is the
      rendering of its own value: `f"{int(s)}" == s`. */
  lemma {:induction false} ShowNatOfValue(s: string)
    requires IsDigits(s)
    requires s[0] != '0' || |s| == 1
    ensures ShowNat(Value(s)) == s
  {
    if |s| > 1 {
      var p := s[..|s| - 1];
      ValuePositive(p);
      ShowNatOfValue(p);
      assert s == p + [s[|s| - 1]];
    }
  }

  lemma {:induction false} ValuePositive(s: string)
    requires IsDigits(s) && s[0] != '0'
    ensures Value(s) >= 1
  {
    if |s| > 1 {
      ValuePositive(s[..|s| - 1]);
    } else {
      assert s[..|s| - 1] == [];
    }
  }

  /** Leading zeros do not change the value: `int("080") == int("80")`. */
  lemma {:induction false} ValueLeadingZeros(z: nat, s: string)
    requires AllDigits(s)
    ensures AllDigits(Zeros(z) + s) && Value(Zeros(z) + s) == Value(s)
  {
    var t := Zeros(z) + s;
    if s == [] {
      assert t == Zeros(z);
      ValueOfZeros(z);
    } else {
      var p := s[..|s| - 1];
      ValueLeadingZeros(z, p);
      assert t[..|t| - 1] == Zeros(z) + p;
    }
  }

  lemma {:induction false} ValueOfZeros(z: nat)
    ensures Value(Zeros(z)) == 0
  {
    if z > 0 {
      assert Zeros(z)[..z - 1] == Zeros(z - 1);
      ValueOfZeros(z - 1);
    }
  }

  /** Every digit string is some leading zeros followed by the numeral of its value. */
  lemma {:induction false} DigitsCanonical(s: string)
    requires IsDigits(s)
    ensures exists z: nat :: s == Zeros(z) + ShowNat(Value(s))
  {
    if |s| > 1 && s[0] == '0' {
      var t := s[1..];
      DigitsCanonical(t);
      var z: nat :| t == Zeros(z) + ShowNat(Value(t));
      assert s == Zeros(1) + t;
      ValueLeadingZeros(1, t);
      assert Value(s) == Value(t);
      assert Zeros(1) + Zeros(z) == Zeros(z + 1);
      Assoc(Zeros(1), Zeros(z), ShowNat(Value(t)));
    } else {
      ShowNatOfValue(s);
      assert s == Zeros(0) + ShowNat(Value(s));
    }
  }

  /** The digit strings whose value is at least `m` are exactly the numerals of
      the numbers `n >= m`, each possibly preceded by zeros. */
  lemma NumeralForm(s: string, m: int)
    ensures (IsDigits(s) && Value(s) >= m) <==> exists z, n: nat :: n >= m && s == Zeros(z) + ShowNat(n)
  {
    if IsDigits(s) && Value(s) >= m {
      DigitsCanonical(s);
      var z: nat :| s == Zeros(z) + ShowNat(Value(s));
      assert Value(s) >= m && s == Zeros(z) + ShowNat(Value(s));
    }
    if exists z, n: nat :: n >= m && s == Zeros(z) + ShowNat(n) {
      var z, n: nat :| n >= m && s == Zeros(z) + ShowNat(n);
      ValueLeadingZeros(z, ShowNat(n));
      ValueOfShowNat(n);
    }
  }
}
