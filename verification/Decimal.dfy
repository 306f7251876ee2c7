/** Decimal numbers as strconv.Atoi reads them and fmt's %d and %0wd write them. */
module Decimal {
  import opened Wrappers

  const MAX_INT: int := 0x7FFF_FFFF_FFFF_FFFF

  /** Go's int is 64 bits wide and wraps around. */
  function Wrap(x: int): int {
    (x + MAX_INT + 1) % (2 * (MAX_INT + 1)) - MAX_INT - 1
  }

  predicate IsDigit(c: char) {
    '0' <= c <= '9'
  }

  predicate AllDigits(s: string) {
    forall i :: 0 <= i < |s| ==> IsDigit(s[i])
  }

  function DigitValue(c: char): nat
    requires IsDigit(c)
  {
    c as nat - '0' as nat
  }

  function DigitChar(d: nat): char
    requires d < 10
  {
    ('0' as nat + d) as char
  }

  function Value(s: string): nat
    requires AllDigits(s)
  {
    if s == "" then 0 else Value(s[..|s| - 1]) * 10 + DigitValue(s[|s| - 1])
  }

  datatype AtoiError = Syntax | Range

  /** strconv.Atoi: an optional sign, at least one digit, nothing else, and no overflow. */
  function Atoi(s: string): Result<int, AtoiError> {
    var signed := s != "" && (s[0] == '+' || s[0] == '-');
    var digits := if signed then s[1..] else s;
    if digits == "" || !AllDigits(digits) then Err(Syntax)
    else
      var n: int := Value(digits);
      if signed && s[0] == '-' then (if n > MAX_INT + 1 then Err(Range) else Ok(-n))
      else if n > MAX_INT then Err(Range)
      else Ok(n)
  }

  /** %d */
  function ToDecimal(n: nat): (s: string)
    ensures s != "" && AllDigits(s) && Value(s) == n
    ensures n > 0 ==> s[0] != '0'
  {
    if n < 10 then [DigitChar(n)]
    else
      var s := ToDecimal(n / 10) + [DigitChar(n % 10)];
      assert s[..|s| - 1] == ToDecimal(n / 10);
      s
  }

  function Zeros(n: nat): (s: string)
    ensures |s| == n && AllDigits(s)
  {
    seq(n, _ => '0')
  }

  /** %0wd */
  function Padded(n: nat, width: nat): (s: string)
    ensures AllDigits(s) && |s| >= width
  {
    var s := ToDecimal(n);
    if |s| >= width then s else Zeros(width - |s|) + s
  }

  function Power10(k: nat): nat {
    if k == 0 then 1 else 10 * Power10(k - 1)
  }

  lemma {:induction false} ValueBelow(s: string)
    requires AllDigits(s)
    ensures Value(s) < Power10(|s|)
  {
    if s != "" {
      ValueBelow(s[..|s| - 1]);
    }
  }

  lemma {:induction false} LeadingZeros(k: nat, s: string)
    requires AllDigits(s)
    ensures AllDigits(Zeros(k) + s) && Value(Zeros(k) + s) == Value(s)
    decreases |s| + k
  {
    if s == "" {
      assert Zeros(k) + s == Zeros(k);
      if k > 0 {
        assert Zeros(k)[..k - 1] == Zeros(k - 1) + "";
        LeadingZeros(k - 1, "");
      }
    } else {
      assert (Zeros(k) + s)[..k + |s| - 1] == Zeros(k) + s[..|s| - 1];
      LeadingZeros(k, s[..|s| - 1]);
    }
  }

  lemma {:induction false} DecimalLength(n: nat, width: nat)
    requires n < Power10(width) && width > 0
    ensures |ToDecimal(n)| <= width
    decreases width
  {
    assert Power10(1) == 10;
    if n >= 10 {
      DecimalLength(n / 10, width - 1);
    }
  }

  /** A padded number has its value and, if that fits the width, exactly that many digits. */
  lemma PaddedIsExact(n: nat, width: nat)
    requires n < Power10(width) && width > 0
    ensures |Padded(n, width)| == width && Value(Padded(n, width)) == n
  {
    DecimalLength(n, width);
    var s := ToDecimal(n);
    if |s| < width {
      LeadingZeros(width - |s|, s);
    }
  }

  lemma {:induction false} SameDigits(a: string, b: string)
    requires AllDigits(a) && AllDigits(b) && |a| == |b| && Value(a) == Value(b)
    ensures a == b
  {
    if a != "" {
      var n := |a| - 1;
      SameDigits(a[..n], b[..n]);
      assert a == a[..n] + [a[n]] && b == b[..n] + [b[n]];
    }
  }

  /** Writing back a digit string at its own width restores it. */
  lemma PaddedOfValue(s: string)
    requires AllDigits(s) && s != ""
    ensures Padded(Value(s), |s|) == s
  {
    ValueBelow(s);
    PaddedIsExact(Value(s), |s|);
    SameDigits(Padded(Value(s), |s|), s);
  }

  lemma AtoiOfDecimal(n: nat)
    requires n <= MAX_INT
    ensures Atoi(ToDecimal(n)) == Ok(n)
  {
  }
}
