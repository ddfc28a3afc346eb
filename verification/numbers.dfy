/** Unsigned number text in base 10 and base 16, as `strconv.ParseUint(s, base, 64)`
    reads it, plus the canonical digits printer used to state round trips. */
module Numbers {
  import opened Types

  const MAX_U64: int := U64_LIMIT - 1

  /** Value of `c` as a digit in Go's scheme (0-9, then a-z / A-Z from 10);
      36 for a character that is no digit in any base. */
  function DigitValue(c: char): (d: nat)
    ensures d <= 36
  {
    if '0' <= c <= '9' then c as int - '0' as int
    else if 'a' <= c <= 'z' then c as int - 'a' as int + 10
    else if 'A' <= c <= 'Z' then c as int - 'A' as int + 10
    else 36
  }

  predicate IsDigit(c: char, base: nat) {
    DigitValue(c) < base
  }

  /** Non-empty text made only of digits of the base (no sign, no prefix, no '_'). */
  predicate IsNumeral(s: string, base: nat) {
    |s| > 0 && forall i :: 0 <= i < |s| ==> IsDigit(s[i], base)
  }

  /** The number the digits of `s` denote, most significant first. */
  function Value(s: string, base: nat): nat {
    if |s| == 0 then 0 else Value(s[..|s| - 1], base) * base + DigitValue(s[|s| - 1])
  }

  /** Text the parser accepts as a uint64 in the base. */
  predicate IsU64(s: string, base: nat) {
    IsNumeral(s, base) && Value(s, base) < U64_LIMIT
  }

  lemma ValueStep(s: string, base: nat, i: nat)
    requires i < |s|
    ensures Value(s[..i + 1], base) == Value(s[..i], base) * base + DigitValue(s[i])
  {
    assert s[..i + 1][..i] == s[..i];
  }

  lemma MulAtLeast(a: nat, b: nat)
    requires b >= 1
    ensures a <= a * b
  {
    assert a * b == a * (b - 1) + a;
  }

  /** A prefix never denotes more than the whole text. */
  lemma {:induction false} ValuePrefixBound(s: string, base: nat, i: nat)
    requires base >= 1 && i <= |s|
    ensures Value(s[..i], base) <= Value(s, base)
    decreases |s| - i
  {
    if i < |s| {
      ValueStep(s, base, i);
      MulAtLeast(Value(s[..i], base), base);
      ValuePrefixBound(s, base, i + 1);
    } else {
      assert s[..i] == s;
    }
  }

  /** Go's early-exit bound: a running value at or above it overflows on the
      next digit. */
  function Cutoff(base: nat): nat
    requires base == 10 || base == 16
  {
    MAX_U64 / base + 1
  }

  /** `strconv.ParseUint(s, base, 64)` with `base` 10 or 16: succeeds exactly
      on a non-empty digit string whose value fits in 64 bits, and then yields
      that value. The syntax and range errors of Go are both `None`. */
  function ParseUint(s: string, base: nat): (r: Option<U64>)
    requires base == 10 || base == 16
    ensures r.Some? <==> IsU64(s, base)
    ensures r.Some? ==> r.value == Value(s, base)
  {
    if |s| == 0 then None else Scan(s, base, 0, 0)
  }

  /** The digit loop of ParseUint from position `i` on, with `n` the value of
      the digits already read. Each step rejects a non-digit, then applies Go's
      cutoff test, then the test that `n * base + d` still fits. */
  function Scan(s: string, base: nat, i: nat, n: nat): (r: Option<U64>)
    requires base == 10 || base == 16
    requires i <= |s| && n == Value(s[..i], base) && n < U64_LIMIT
    requires forall j :: 0 <= j < i ==> IsDigit(s[j], base)
    ensures r.Some? <==> (forall j :: i <= j < |s| ==> IsDigit(s[j], base)) && Value(s, base) < U64_LIMIT
    ensures r.Some? ==> r.value == Value(s, base)
    decreases |s| - i
  {
    if i == |s| then
      assert s[..i] == s;
      Some(n)
    else
      var d := DigitValue(s[i]);
      ValueStep(s, base, i);
      ValuePrefixBound(s, base, i + 1);
      if d >= base then None
      else if n >= Cutoff(base) then
        assert n * base >= U64_LIMIT by {
          if base == 10 { } else { }
        }
        None
      else
        var n1 := n * base + d;
        if n1 > MAX_U64 then None
        else Scan(s, base, i + 1, n1)
  }

  /** The lower-case digit character for `d`. */
  function DigitChar(d: nat): (c: char)
    requires d < 16
    ensures DigitValue(c) == d
  {
    if d < 10 then ('0' as int + d) as char else ('a' as int + d - 10) as char
  }

  /** Digits of `n` in the base, lower case, without leading zeros; the
      format the kernel uses for addresses, offsets, inodes and sizes. */
  function Format(n: nat, base: nat): (s: string)
    requires base == 10 || base == 16
    decreases n
  {
    if n < base then [DigitChar(n)] else Format(n / base, base) + [DigitChar(n % base)]
  }

  /** Printing then reading gives back the number: the parser accepts every
      text the printer produces for a 64-bit value. */
  lemma {:induction false} FormatValue(n: nat, base: nat)
    requires base == 10 || base == 16
    ensures IsNumeral(Format(n, base), base) && Value(Format(n, base), base) == n
    decreases n
  {
    var s := Format(n, base);
    if n >= base {
      FormatValue(n / base, base);
      var p := Format(n / base, base);
      assert s[..|s| - 1] == p;
      assert n == (n / base) * base + n % base;
    }
  }

  lemma ParseFormat(n: U64, base: nat)
    requires base == 10 || base == 16
    ensures ParseUint(Format(n, base), base) == Some(n)
  {
    FormatValue(n, base);
  }

  /** Two hex digits, as `%02x` prints a byte. */
  function Hex2(b: U8): (s: string)
    ensures |s| == 2 && IsNumeral(s, 16) && Value(s, 16) == b
  {
    var s := [DigitChar(b / 16), DigitChar(b % 16)];
    assert s[..1][..0] == [];
    assert Value(s[..1], 16) == b / 16;
    assert Value(s, 16) == (b / 16) * 16 + b % 16;
    s
  }

  /** One or two hex digits denote a byte. */
  lemma ShortHexIsByte(s: string)
    requires IsNumeral(s, 16) && |s| <= 2
    ensures Value(s, 16) < 0x100
  {
    if |s| == 2 {
      assert s[..1][..0] == [];
      assert Value(s[..1], 16) == DigitValue(s[0]);
      assert Value(s, 16) == DigitValue(s[0]) * 16 + DigitValue(s[1]);
    } else if |s| == 1 {
      assert s[..0] == [];
    }
  }

  /** No digit is a space, a newline, a dash or a colon, so numeral text
      never holds a separator the parser splits on. */
  lemma NumeralHasNoSeparator(s: string, base: nat)
    requires IsNumeral(s, base) && base <= 16
    ensures ' ' !in s && '\n' !in s && '-' !in s && ':' !in s
  {
  }
}
