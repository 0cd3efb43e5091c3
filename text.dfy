/** The few JavaScript string primitives the control panel relies on, for the
    integer values it handles: Number.prototype.toString in base 10 (what a
    template literal `${n}` prints) and base 16, reading such digits back, and
    String.prototype.trim. */
module Text {
  import opened Wrappers

  predicate IsDecimalDigit(c: char) {
    '0' <= c <= '9'
  }

  /** A hexadecimal digit in either case, as `[a-f\d]` matches under the `i` flag. */
  predicate IsHexDigit(c: char) {
    IsDecimalDigit(c) || 'a' <= c <= 'f' || 'A' <= c <= 'F'
  }

  /** The character JavaScript writes for a digit value below 16 (lower case). */
  function DigitChar(d: nat): (c: char)
    requires d < 16
    ensures IsHexDigit(c) && !('A' <= c <= 'F')
    ensures d < 10 <==> IsDecimalDigit(c)
  {
    if d < 10 then ('0' as int + d) as char else ('a' as int + (d - 10)) as char
  }

  /** The value of a digit character, in either case. */
  function DigitValue(c: char): (d: nat)
    requires IsHexDigit(c)
    ensures d < 16
    ensures IsDecimalDigit(c) <==> d < 10
  {
    if IsDecimalDigit(c) then c as int - '0' as int
    else if 'a' <= c <= 'f' then c as int - 'a' as int + 10
    else c as int - 'A' as int + 10
  }

  /** Lower-cases an ASCII letter; every other character is kept. */
  function ToLowerAscii(c: char): char {
    if 'A' <= c <= 'Z' then (c as int - 'A' as int + 'a' as int) as char else c
  }

  lemma DigitCharOfValue(c: char)
    requires IsHexDigit(c)
    ensures DigitChar(DigitValue(c)) == ToLowerAscii(c)
  {
  }

  lemma DigitValueOfChar(d: nat)
    requires d < 16
    ensures DigitValue(DigitChar(d)) == d
  {
  }

  predicate AllDigitsBelow(s: string, base: nat) {
    forall k :: 0 <= k < |s| ==> IsHexDigit(s[k]) && DigitValue(s[k]) < base
  }

  /** The digits of `n` in `base`, most significant first, without leading zeros. */
  function NatDigits(n: nat, base: nat): string
    requires 2 <= base <= 16
    decreases n
  {
    if n < base then [DigitChar(n)] else NatDigits(n / base, base) + [DigitChar(n % base)]
  }

  /** Number.prototype.toString(base) for an integer. */
  function NumberToString(n: int, base: nat): string
    requires 2 <= base <= 16
  {
    if n < 0 then "-" + NatDigits(-n, base) else NatDigits(n, base)
  }

  /** What a template literal prints for an integer. */
  function DecimalString(n: int): string {
    NumberToString(n, 10)
  }

  /** `n.toString(16)` for an integer. */
  function HexString(n: int): string {
    NumberToString(n, 16)
  }

  /** The value of a digit string in `base`, the way parseInt reads it. */
  function DigitsValue(s: string, base: nat): nat
    requires 2 <= base <= 16
    requires AllDigitsBelow(s, base)
  {
    if s == [] then 0 else DigitsValue(s[..|s| - 1], base) * base + DigitValue(s[|s| - 1])
  }

  /** Division by a base of at least two shrinks a positive number and leaves the digit as the remainder. */
  lemma DivideByBase(n: nat, base: nat)
    requires 2 <= base && n >= 1
    ensures n / base < n
    ensures n == (n / base) * base + n % base
  {
    var q, d := n / base, n % base;
    assert n == q * base + d;
    assert q * base >= q * 2;
  }

  lemma {:induction false} NatDigitsWellFormed(n: nat, base: nat)
    requires 2 <= base <= 16
    ensures |NatDigits(n, base)| >= 1 && AllDigitsBelow(NatDigits(n, base), base)
    decreases n
  {
    if n < base {
      DigitValueOfChar(n);
    } else {
      DivideByBase(n, base);
      NatDigitsWellFormed(n / base, base);
      DigitValueOfChar(n % base);
    }
  }

  lemma {:induction false} NatDigitsValue(n: nat, base: nat)
    requires 2 <= base <= 16
    ensures |NatDigits(n, base)| >= 1 && AllDigitsBelow(NatDigits(n, base), base)
    ensures DigitsValue(NatDigits(n, base), base) == n
    decreases n
  {
    NatDigitsWellFormed(n, base);
    if n < base {
      DigitValueOfChar(n);
    } else {
      var q, d := n / base, n % base;
      var p, s := NatDigits(q, base), NatDigits(n, base);
      NatDigitsWellFormed(q, base);
      var vp := DigitsValue(p, base);
      DivideByBase(n, base);
      NatDigitsValue(q, base);
      DigitValueOfChar(d);
      assert s == p + [DigitChar(d)];
      assert s[..|s| - 1] == p && s[|s| - 1] == DigitChar(d);
      assert DigitsValue(s, base) == vp * base + d;
    }
  }

  /** The digits carry no leading zero: only zero itself is written "0". */
  lemma {:induction false} NatDigitsLeading(n: nat, base: nat)
    requires 2 <= base <= 16
    ensures NatDigits(n, base)[0] == '0' ==> n == 0
    decreases n
  {
    if n >= base {
      DivideByBase(n, base);
      NatDigitsLeading(n / base, base);
      assert NatDigits(n, base)[0] == NatDigits(n / base, base)[0];
    }
  }

  /** A decimal number being read back: an optional minus sign, then at least one digit. */
  function ParseDecimal(s: string): (v: Option<int>)
    ensures v.Some? ==> |s| >= 1
  {
    if |s| >= 2 && s[0] == '-' && forall k :: 1 <= k < |s| ==> IsDecimalDigit(s[k]) then
      Some(0 - DigitsValue(s[1..], 10))
    else if |s| >= 1 && forall k :: 0 <= k < |s| ==> IsDecimalDigit(s[k]) then
      Some(DigitsValue(s, 10))
    else
      None
  }

  /** Every integer's decimal text reads back as that integer, so the text determines the number. */
  lemma DecimalRoundTrip(n: int)
    ensures ParseDecimal(DecimalString(n)) == Some(n)
  {
    if n < 0 {
      NatDigitsValue(-n, 10);
      var d := NatDigits(-n, 10);
      assert ("-" + d)[1..] == d;
      assert forall k :: 1 <= k < |"-" + d| ==> ("-" + d)[k] == d[k - 1];
    } else {
      NatDigitsValue(n, 10);
    }
  }

  lemma DecimalStringInjective(m: int, n: int)
    requires DecimalString(m) == DecimalString(n)
    ensures m == n
  {
    DecimalRoundTrip(m);
    DecimalRoundTrip(n);
  }

  /** Decimal text is made of digits and a leading minus sign, so it never holds a space. */
  lemma DecimalStringChars(n: int)
    ensures var s := DecimalString(n);
      |s| >= 1 && forall k :: 0 <= k < |s| ==> IsDecimalDigit(s[k]) || (k == 0 && s[k] == '-')
  {
    var m: nat := if n < 0 then -n else n;
    NatDigitsValue(m, 10);
    var d := NatDigits(m, 10);
    assert forall k :: 0 <= k < |d| ==> IsDecimalDigit(d[k]) by {
      forall k | 0 <= k < |d| ensures IsDecimalDigit(d[k]) {
        assert DigitValue(d[k]) < 10;
      }
    }
  }

  /** WhiteSpace and LineTerminator code points of ECMAScript, which trim removes. */
  predicate IsJsWhitespace(c: char) {
    var k := c as int;
    k == 0x09 || k == 0x0A || k == 0x0B || k == 0x0C || k == 0x0D || k == 0x20
    || k == 0xA0 || k == 0x1680 || (0x2000 <= k <= 0x200A) || k == 0x2028
    || k == 0x2029 || k == 0x202F || k == 0x205F || k == 0x3000 || k == 0xFEFF
  }

  function TrimStart(s: string): (r: string)
    ensures |r| <= |s| && r == s[|s| - |r|..]
    ensures forall k :: 0 <= k < |s| - |r| ==> IsJsWhitespace(s[k])
    ensures r == [] || !IsJsWhitespace(r[0])
  {
    if s != [] && IsJsWhitespace(s[0]) then TrimStart(s[1..]) else s
  }

  function TrimEnd(s: string): (r: string)
    ensures |r| <= |s| && r == s[..|r|]
    ensures forall k :: |r| <= k < |s| ==> IsJsWhitespace(s[k])
    ensures r == [] || !IsJsWhitespace(r[|r| - 1])
  {
    if s != [] && IsJsWhitespace(s[|s| - 1]) then TrimEnd(s[..|s| - 1]) else s
  }

  /** String.prototype.trim: drops the whitespace at both ends and keeps the middle verbatim. */
  function Trim(s: string): string {
    TrimEnd(TrimStart(s))
  }

  /** Trim keeps one contiguous stretch of its input and drops only whitespace around it. */
  lemma TrimShape(s: string)
    ensures var r, i := Trim(s), |s| - |TrimStart(s)|;
      0 <= i <= |s| - |r| && r == s[i..i + |r|]
        && (forall k :: 0 <= k < i ==> IsJsWhitespace(s[k]))
        && (forall k :: i + |r| <= k < |s| ==> IsJsWhitespace(s[k]))
  {
    var t := TrimStart(s);
    var r := TrimEnd(t);
    var i := |s| - |t|;
    assert t == s[i..];
    assert r == t[..|r|];
    assert t[..|r|] == s[i..i + |r|];
    forall k | i + |r| <= k < |s| ensures IsJsWhitespace(s[k]) {
      assert |r| <= k - i < |t|;
      assert s[k] == t[k - i];
    }
  }

  /** A non-empty trimmed text starts and ends with a non-whitespace character. */
  lemma TrimEnds(s: string)
    ensures var r := Trim(s); r == [] || (!IsJsWhitespace(r[0]) && !IsJsWhitespace(r[|r| - 1]))
  {
    var t := TrimStart(s);
    var r := TrimEnd(t);
    if r != [] {
      assert r[0] == t[0];
    }
  }

  /** The trimmed text is empty exactly when the input is all whitespace. */
  lemma TrimEmpty(s: string)
    ensures Trim(s) == [] <==> forall k :: 0 <= k < |s| ==> IsJsWhitespace(s[k])
  {
    var t := TrimStart(s);
    if t != [] {
      assert t[0] == s[|s| - |t|];
    }
  }

  lemma {:induction false} TrimIdempotent(s: string)
    ensures Trim(Trim(s)) == Trim(s)
  {
    var r := Trim(s);
    if r != [] {
      TrimEnds(s);
      assert TrimStart(r) == r;
      assert TrimEnd(r) == r;
    }
  }
}
