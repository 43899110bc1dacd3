/**
 * Text as the native shim handles it. A `const char*` is read up to its
 * first NUL character, so every string that passes through one (an
 * `out.append(const char*)`, a `std::string` built from a `char*`, Go's
 * `C.GoString`) keeps only the text before the first NUL.
 */
module CStrings {
  import opened Wrappers

  /** Text that a `const char*` can carry whole: it holds no NUL. */
  type CString = s: string | '\0' !in s

  /** What a reader of a `const char*` pointing at `s` sees: `s` up to its first NUL. */
  function CStr(s: string): (r: CString)
    ensures |r| <= |s| && r == s[..|r|]
    ensures |r| < |s| ==> s[|r|] == '\0'
    ensures '\0' !in s ==> r == s
  {
    if s == [] || s[0] == '\0' then [] else [s[0]] + CStr(s[1..])
  }

  /** The text `ToCString` substitutes when V8 could not convert a value to UTF-8. */
  const ConversionFailed: CString := "<string conversion failed>"

  /**
   * `ToCString` of binding.cc: the converted text of a `String::Utf8Value`,
   * or a fixed placeholder when the conversion failed (`None`).
   */
  function ToCString(value: Option<string>): (r: CString)
    ensures value.None? ==> r == ConversionFailed
    ensures value.Some? ==> r == CStr(value.value)
    ensures value.Some? && '\0' !in value.value ==> r == value.value
  {
    match value
    case None => ConversionFailed
    case Some(s) => CStr(s)
  }

  predicate IsDigit(c: char) {
    '0' <= c <= '9'
  }

  function DigitChar(d: int): (c: char)
    requires 0 <= d < 10
    ensures IsDigit(c) && c as int - '0' as int == d
  {
    ('0' as int + d) as char
  }

  /** The decimal digits of `n`, most significant first, without leading zeros. */
  function NatDigits(n: nat): (r: string)
    ensures |r| >= 1
    ensures forall k :: 0 <= k < |r| ==> IsDigit(r[k])
    ensures r == "0" <==> n == 0
    ensures r[0] == '0' ==> r == "0"
    decreases n
  {
    if n < 10 then [DigitChar(n)] else NatDigits(n / 10) + [DigitChar(n % 10)]
  }

  /** What `snprintf(scratch, 20, "%i", n)` writes for a C `int` `n` that fits. */
  function Decimal(n: int): (r: CString)
  {
    if n < 0 then "-" + NatDigits(-n) else NatDigits(n)
  }

  function DigitValue(c: char): (d: nat)
    requires IsDigit(c)
    ensures d < 10
  {
    c as int - '0' as int
  }

  /** The value of a string of decimal digits: the partner of `NatDigits`. */
  function DigitsValue(s: string): (v: nat)
    requires forall k :: 0 <= k < |s| ==> IsDigit(s[k])
  {
    if s == [] then 0 else 10 * DigitsValue(s[..|s| - 1]) + DigitValue(s[|s| - 1])
  }

  /** Reads back an optionally signed decimal numeral. */
  function ParseDecimal(s: string): (v: int)
    requires |s| >= 1
    requires s[0] == '-' || IsDigit(s[0])
    requires forall k :: 1 <= k < |s| ==> IsDigit(s[k])
  {
    if s[0] == '-' then 0 - DigitsValue(s[1..]) as int else DigitsValue(s)
  }

  lemma {:induction false} NatDigitsRoundTrip(n: nat)
    ensures DigitsValue(NatDigits(n)) == n
    decreases n
  {
    if n >= 10 {
      var s := NatDigits(n);
      assert s[..|s| - 1] == NatDigits(n / 10);
      NatDigitsRoundTrip(n / 10);
    }
  }

  /** The line number printed in an exception header reads back as the same number. */
  lemma DecimalRoundTrip(n: int)
    ensures |Decimal(n)| >= 1 && ParseDecimal(Decimal(n)) == n
  {
    var d := NatDigits(if n < 0 then -n else n);
    NatDigitsRoundTrip(if n < 0 then -n else n);
    if n < 0 {
      var r := "-" + d;
      assert Decimal(n) == r;
      assert r[1..] == d;
      assert forall k :: 1 <= k < |r| ==> r[k] == d[k - 1];
    } else {
      assert Decimal(n) == d;
      assert !IsDigit('-');
    }
  }

  function Pow10(k: nat): (p: nat)
    ensures p >= 1
  {
    if k == 0 then 1 else 10 * Pow10(k - 1)
  }

  lemma {:induction false} NatDigitsLength(n: nat, k: nat)
    requires 1 <= k && n < Pow10(k)
    ensures |NatDigits(n)| <= k
    decreases k
  {
    if n >= 10 {
      NatDigitsLength(n / 10, k - 1);
    }
  }

  /**
   * What `snprintf` with a buffer of `size` bytes leaves there from `text`:
   * all of it when it fits beside the NUL, otherwise its first `size - 1`
   * characters.
   */
  function Snprintf(text: CString, size: nat): CString
    requires size >= 1
  {
    if |text| < size then text else text[..size - 1]
  }

  /**
   * Every 32-bit line number is printed whole into the 20-byte scratch
   * buffer of `ExceptionString` (at most 11 characters and the NUL), so the
   * `snprintf` there never truncates.
   */
  lemma DecimalFitsScratch(n: int)
    requires -0x8000_0000 <= n < 0x8000_0000
    ensures |Decimal(n)| + 1 <= 20
  {
    assert Pow10(10) == 10_000_000_000;
    if n < 0 {
      NatDigitsLength(-n, 10);
    } else {
      NatDigitsLength(n, 10);
    }
  }
}
