/** The integer texts the deploy helper reads and writes: Python's
    `int(text, 16)` on the offset and size fields of the partition table,
    and the hexadecimal and decimal formats (`X` and the default) of a non-negative integer. */
module DeployNumbers {

  datatype Option<T> = None | Some(value: T)

  predicate IsHexDigit(c: char)
  {
    '0' <= c <= '9' || 'a' <= c <= 'f' || 'A' <= c <= 'F'
  }

  function HexDigitValue(c: char): (v: nat)
    requires IsHexDigit(c)
    ensures v < 16
  {
    if '0' <= c <= '9' then c as int - '0' as int
    else if 'a' <= c <= 'f' then c as int - 'a' as int + 10
    else c as int - 'A' as int + 10
  }

  /** The digit the `X` format writes for `d`: a decimal digit or an upper-case
      letter. */
  function DigitChar(d: nat): (c: char)
    requires d < 16
    ensures IsHexDigit(c) && !('a' <= c <= 'f') && HexDigitValue(c) == d
  {
    if d < 10 then ('0' as int + d) as char else ('A' as int + d - 10) as char
  }

  predicate AllDigits(ds: string)
  {
    forall i :: 0 <= i < |ds| ==> IsHexDigit(ds[i])
  }

  /** The value of a digit string in `base`, most significant digit first. */
  function Value(ds: string, base: nat): nat
    requires AllDigits(ds)
  {
    if ds == [] then 0 else Value(ds[..|ds| - 1], base) * base + HexDigitValue(ds[|ds| - 1])
  }

  /** `n` written in `base` with no leading zero and upper-case letters:
      the `X` format for base 16, the default format for base 10. */
  function Numeral(n: nat, base: nat): (s: string)
    requires 2 <= base <= 16
    ensures s != []
    decreases n
  {
    if n < base then [DigitChar(n)] else Numeral(n / base, base) + [DigitChar(n % base)]
  }

  function Hex(n: nat): string { Numeral(n, 16) }

  function Decimal(n: nat): string { Numeral(n, 10) }

  /** Dividing by the base: a smaller quotient, a remainder that is a
      digit, and nothing lost. */
  lemma DivideByBase(n: nat, base: nat)
    requires 2 <= base <= n
    ensures 1 <= n / base < n && n % base < base
    ensures n == (n / base) * base + n % base
  {
  }

  /** Every character is a digit below `base`, letters in upper case. */
  predicate UpperDigits(s: string, base: nat)
  {
    forall i :: 0 <= i < |s| ==> IsHexDigit(s[i]) && !('a' <= s[i] <= 'f') && HexDigitValue(s[i]) < base
  }

  /** Every character of a numeral is a digit of its base, written in
      upper case. */
  lemma {:induction false} NumeralDigits(n: nat, base: nat)
    requires 2 <= base <= 16
    ensures UpperDigits(Numeral(n, base), base)
  {
    if n >= base {
      DivideByBase(n, base);
      NumeralDigits(n / base, base);
      var front := Numeral(n / base, base);
      var s := front + [DigitChar(n % base)];
      assert Numeral(n, base) == s;
      assert forall i :: 0 <= i < |front| ==> s[i] == front[i];
    }
  }

  /** Only zero itself is written with a leading `0`. */
  lemma {:induction false} NumeralLeading(n: nat, base: nat)
    requires 2 <= base <= 16
    ensures Numeral(n, base)[0] == '0' <==> n == 0
  {
    if n >= base {
      DivideByBase(n, base);
      NumeralLeading(n / base, base);
      assert Numeral(n, base)[0] == Numeral(n / base, base)[0];
    }
  }

  /** Reading a numeral back gives the number. */
  lemma {:induction false} ValueOfNumeral(n: nat, base: nat)
    requires 2 <= base <= 16
    ensures AllDigits(Numeral(n, base))
    ensures Value(Numeral(n, base), base) == n
  {
    NumeralDigits(n, base);
    if n >= base {
      DivideByBase(n, base);
      var front := Numeral(n / base, base);
      var s := front + [DigitChar(n % base)];
      assert Numeral(n, base) == s;
      assert s[..|s| - 1] == front;
      ValueOfNumeral(n / base, base);
      assert Value(s, base) == Value(front, base) * base + n % base;
    }
  }

  /** The digits of a literal body, with its `_` separators dropped. */
  function Digits(b: string): (ds: string)
    ensures |ds| <= |b|
  {
    if b == [] then []
    else Digits(b[..|b| - 1]) + (if b[|b| - 1] == '_' then [] else [b[|b| - 1]])
  }

  lemma {:induction false} DigitsOfPlain(b: string)
    requires forall i :: 0 <= i < |b| ==> b[i] != '_'
    ensures Digits(b) == b
  {
    if b != [] {
      var front := b[..|b| - 1];
      assert forall i :: 0 <= i < |front| ==> front[i] == b[i];
      DigitsOfPlain(front);
      assert front + [b[|b| - 1]] == b;
    }
  }

  lemma {:induction false} DigitsAreDigits(b: string)
    requires forall i :: 0 <= i < |b| ==> IsHexDigit(b[i]) || b[i] == '_'
    ensures AllDigits(Digits(b))
  {
    if b != [] {
      var front := b[..|b| - 1];
      assert forall i :: 0 <= i < |front| ==> front[i] == b[i];
      DigitsAreDigits(front);
    }
  }

  /** The digits of a base-16 literal: at least one hexadecimal digit,
      single underscores allowed between digits, none at either end. */
  predicate WellFormedBody(b: string)
  {
    && b != [] && b[0] != '_' && b[|b| - 1] != '_'
    && (forall i :: 0 <= i < |b| ==> IsHexDigit(b[i]) || b[i] == '_')
    && (forall i :: 0 <= i < |b| - 1 ==> b[i] != '_' || b[i + 1] != '_')
  }

  /** The text after an optional sign. */
  function Unsigned(s: string): string
  {
    if s != [] && (s[0] == '+' || s[0] == '-') then s[1..] else s
  }

  /** The digits of an unsigned literal: an optional `0x` or `0X` prefix
      and one `_` right after it are skipped. */
  function Body(t: string): string
  {
    if |t| >= 2 && t[0] == '0' && (t[1] == 'x' || t[1] == 'X') then
      if |t| >= 3 && t[2] == '_' then t[3..] else t[2..]
    else t
  }

  /** `int(s, 16)` on a text with no surrounding whitespace; `None` is the
      `ValueError` it raises. */
  function ParseHex(s: string): (r: Option<int>)
  {
    var body := Body(Unsigned(s));
    if WellFormedBody(body) then
      DigitsAreDigits(body);
      var v: int := Value(Digits(body), 16);
      Some(if s != [] && s[0] == '-' then -v else v)
    else None
  }

  /** `int(s, 16)` accepts exactly the well-formed literals, and a
      non-negative unsigned one means its digits' value. */
  lemma ParseHexAccepts(s: string)
    ensures ParseHex(s).Some? <==> WellFormedBody(Body(Unsigned(s)))
    ensures ParseHex(s).Some? && (s == [] || s[0] != '-') ==>
      AllDigits(Digits(Body(Unsigned(s)))) && ParseHex(s).value == Value(Digits(Body(Unsigned(s))), 16)
  {
    if WellFormedBody(Body(Unsigned(s))) {
      DigitsAreDigits(Body(Unsigned(s)));
    }
  }

  /** The size the helper writes, `0x{n:X}`, reads back as `n`. */
  lemma ParseHexOfHex(n: nat)
    ensures ParseHex("0x" + Hex(n)) == Some(n)
  {
    var s := "0x" + Hex(n);
    NumeralDigits(n, 16);
    ValueOfNumeral(n, 16);
    assert Unsigned(s) == s;
    assert Body(s) == Hex(n);
    DigitsOfPlain(Hex(n));
  }

  predicate PlainChar(c: char)
  {
    '0' <= c <= '9' || 'A' <= c <= 'F' || c == 'x'
  }

  /** A written size is a plain token: no whitespace, comma or underscore. */
  lemma HexIsPlain(n: nat)
    ensures forall i :: 0 <= i < |"0x" + Hex(n)| ==> PlainChar(("0x" + Hex(n))[i])
  {
    NumeralDigits(n, 16);
    var s := "0x" + Hex(n);
    assert forall i :: 2 <= i < |s| ==> s[i] == Hex(n)[i - 2];
  }
}
