/** to_kbytes: a partition size argument, a number with an optional k/m/g suffix, in kilobytes. */
module SizeParse {
  import opened CStrings

  predicate IsDigit(c: char) {
    '0' <= c <= '9'
  }

  function DigitValue(c: char): (d: nat)
    requires IsDigit(c)
    ensures d < 10
  {
    c as int - '0' as int
  }

  predicate AllDigits(s: string) {
    forall i :: 0 <= i < |s| ==> IsDigit(s[i])
  }

  /** The length of the run of decimal digits that strtoul consumes. */
  function DigitsLen(s: string): (n: nat)
    ensures n <= |s| && AllDigits(s[..n])
    ensures n < |s| ==> !IsDigit(s[n])
  {
    if s == [] || !IsDigit(s[0]) then 0
    else
      var n := 1 + DigitsLen(s[1..]);
      assert s[..n] == [s[0]] + s[1..][..n - 1];
      n
  }

  /** The value of a decimal digit string, most significant digit first. */
  function DecimalValue(ds: string): nat
    requires AllDigits(ds)
  {
    if ds == [] then 0 else DecimalValue(ds[..|ds| - 1]) * 10 + DigitValue(ds[|ds| - 1])
  }

  function ToLower(c: char): char {
    if 'A' <= c <= 'Z' then (c as int + 32) as char else c
  }

  /** The power of 1024 a suffix selects: none or k, m, g; anything else is rejected. */
  function Exponent(rest: string): (e: int)
    ensures -1 <= e <= 2
  {
    if rest == [] then 0
    else match ToLower(rest[0])
      case 'k' => 0
      case 'm' => 1
      case 'g' => 2
      case _ => -1
  }

  /** `2 << (10 * exp - 1)`, that is 1024^exp, for exp 1 and 2. */
  function Multiplier(e: int): nat
    requires 0 <= e <= 2
  {
    if e == 0 then 1 else if e == 1 then 1024 else 1048576
  }

  /**
   * to_kbytes: the decimal number at the front of the C string, scaled by its suffix;
   * 0 for an unknown suffix and for anything after the suffix.
   */
  function ToKbytes(text: string): (r: nat)
    ensures StrLen(text) == 0 || !IsDigit(text[0]) ==> r == 0
  {
    var s := CString(text);
    var n := DigitsLen(s);
    var rest := s[n..];
    var e := Exponent(rest);
    if e < 0 || |rest| > 1 then 0 else DecimalValue(s[..n]) * Multiplier(e)
  }

  function DigitChar(d: nat): (c: char)
    requires d < 10
    ensures IsDigit(c) && DigitValue(c) == d
  {
    ('0' as int + d) as char
  }

  /** The decimal text of n, without leading zeros. */
  function DecimalString(n: nat): (s: string)
    ensures |s| >= 1 && AllDigits(s)
    ensures n > 0 ==> s[0] != '0'
  {
    if n < 10 then [DigitChar(n)] else DecimalString(n / 10) + [DigitChar(n % 10)]
  }

  lemma {:induction false} DecimalRoundTrip(n: nat)
    ensures DecimalValue(DecimalString(n)) == n
  {
    if n >= 10 {
      var s := DecimalString(n);
      assert s[..|s| - 1] == DecimalString(n / 10);
      DecimalRoundTrip(n / 10);
    }
  }

  /** Reading a number followed by text that does not continue it. */
  lemma ReadsNumber(n: nat, t: string)
    requires t == [] || !IsDigit(t[0])
    ensures var s := CString(DecimalString(n) + t);
      && s == DecimalString(n) + CString(t)
      && DigitsLen(s) == |DecimalString(n)|
      && DecimalValue(s[..DigitsLen(s)]) == n
  {
    var ds := DecimalString(n);
    CStringAppend(ds, t);
    DigitsLenAppend(ds, CString(t));
    var s := ds + CString(t);
    assert s[..|ds|] == ds;
    DecimalRoundTrip(n);
  }

  lemma {:induction false} CStringAppend(ds: string, t: string)
    requires AllDigits(ds)
    ensures CString(ds + t) == ds + CString(t)
  {
    StrLenAppend(ds, t);
    assert (ds + t)[..|ds| + StrLen(t)] == ds + t[..StrLen(t)];
  }

  lemma {:induction false} StrLenAppend(ds: string, t: string)
    requires AllDigits(ds)
    ensures StrLen(ds + t) == |ds| + StrLen(t)
  {
    if ds != [] {
      assert (ds + t)[1..] == ds[1..] + t;
      StrLenAppend(ds[1..], t);
    } else {
      assert ds + t == t;
    }
  }

  lemma {:induction false} DigitsLenAppend(ds: string, t: string)
    requires AllDigits(ds)
    requires t == [] || !IsDigit(t[0])
    ensures DigitsLen(ds + t) == |ds|
  {
    if ds != [] {
      assert (ds + t)[1..] == ds[1..] + t;
      DigitsLenAppend(ds[1..], t);
    } else {
      assert ds + t == t;
    }
  }

  /** A bare number is taken as kilobytes. */
  lemma ToKbytesPlain(n: nat)
    ensures ToKbytes(DecimalString(n)) == n
  {
    ReadsNumber(n, []);
  }

  predicate IsUnit(c: char) {
    c in "kKmMgG"
  }

  function UnitFactor(c: char): nat
    requires IsUnit(c)
  {
    if c == 'k' || c == 'K' then 1 else if c == 'm' || c == 'M' then 1024 else 1048576
  }

  /** A k, m or g suffix (either case) scales by 1, 1024 or 1048576. */
  lemma ToKbytesUnit(n: nat, u: char)
    requires IsUnit(u)
    ensures ToKbytes(DecimalString(n) + [u]) == n * UnitFactor(u)
  {
    var ds := DecimalString(n);
    ReadsNumber(n, [u]);
    CStringNoNul([u]);
    var s := ds + [u];
    assert CString(s) == s;
    assert s[|ds|..] == [u];
    UnitExponent(u);
  }

  /** The suffix alone selects the power of 1024 of its unit. */
  lemma UnitExponent(u: char)
    requires IsUnit(u)
    ensures 0 <= Exponent([u]) && Multiplier(Exponent([u])) == UnitFactor(u)
  {
  }

  /** Any other character after the number yields 0. */
  lemma ToKbytesBadSuffix(n: nat, c: char, t: string)
    requires !IsUnit(c) && !IsDigit(c) && c != '\0'
    ensures ToKbytes(DecimalString(n) + [c] + t) == 0
  {
    assert DecimalString(n) + [c] + t == DecimalString(n) + ([c] + t);
    ReadsNumber(n, [c] + t);
    assert ToLower(c) != 'k' && ToLower(c) != 'm' && ToLower(c) != 'g';
  }

  /** Anything after a valid suffix yields 0. */
  lemma ToKbytesGarbage(n: nat, u: char, x: char, t: string)
    requires IsUnit(u) && x != '\0'
    ensures ToKbytes(DecimalString(n) + [u, x] + t) == 0
  {
    assert DecimalString(n) + [u, x] + t == DecimalString(n) + ([u, x] + t);
    ReadsNumber(n, [u, x] + t);
    assert CString([u, x] + t)[..2] == [u, x];
  }
}
