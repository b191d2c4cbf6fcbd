// Decimal conversions of Go's strconv and fmt as the packages use them:
// strconv.Atoi on the 32-bit `int` of the Go release the code was written
// for, strconv.Itoa, and the zero-padded "%0Nd" verb.
module GoStrconv {
  import opened Base

  predicate AllDigits(s: string)
  {
    forall i :: 0 <= i < |s| ==> IsDigit(s[i])
  }

  /** The value of a string of decimal digits, most significant first. */
  function DecimalValue(ds: string): nat
    requires AllDigits(ds)
  {
    if ds == [] then 0 else DecimalValue(ds[..|ds| - 1]) * 10 + DigitValue(ds[|ds| - 1])
  }

  /** The shortest decimal rendering of n ("0" for zero). */
  function Decimal(n: nat): (s: string)
    ensures |s| >= 1 && AllDigits(s)
    ensures n < 10 <==> |s| == 1
    ensures |s| > 1 ==> s[0] != '0'
  {
    if n < 10 then [DigitChar(n)] else Decimal(n / 10) + [DigitChar(n % 10)]
  }

  lemma {:induction false} DecimalRoundTrip(n: nat)
    ensures DecimalValue(Decimal(n)) == n
  {
    if n >= 10 {
      DecimalRoundTrip(n / 10);
      var s := Decimal(n);
      assert s[..|s| - 1] == Decimal(n / 10);
    }
  }

  lemma {:induction false} DecimalValueBound(ds: string)
    requires AllDigits(ds)
    ensures DecimalValue(ds) < Pow(10, |ds|)
  {
    if ds != [] {
      DecimalValueBound(ds[..|ds| - 1]);
    }
  }

  /** fmt's "%0<width>d" of a non-negative value. */
  function ZeroPad(n: nat, width: nat): (s: string)
    ensures AllDigits(s)
    ensures |s| == if |Decimal(n)| < width then width else |Decimal(n)|
  {
    var d := Decimal(n);
    if |d| < width then Zeros(width - |d|) + d else d
  }

  function Zeros(k: nat): (s: string)
    ensures |s| == k && AllDigits(s)
    ensures forall i :: 0 <= i < k ==> s[i] == '0'
  {
    if k == 0 then [] else ['0'] + Zeros(k - 1)
  }

  lemma {:induction false} LeadingZeros(k: nat, d: string)
    requires AllDigits(d)
    ensures AllDigits(Zeros(k) + d)
    ensures DecimalValue(Zeros(k) + d) == DecimalValue(d)
  {
    if d == [] {
      assert Zeros(k) + d == Zeros(k);
      ZerosValue(k);
    } else {
      var s := Zeros(k) + d;
      assert s[..|s| - 1] == Zeros(k) + d[..|d| - 1];
      LeadingZeros(k, d[..|d| - 1]);
    }
  }

  lemma {:induction false} ZerosValue(k: nat)
    ensures DecimalValue(Zeros(k)) == 0
  {
    if k > 0 {
      var s := Zeros(k);
      assert s[..k - 1] == Zeros(k - 1);
      ZerosValue(k - 1);
    }
  }

  /** Reading a zero-padded rendering back gives the value. */
  lemma {:induction false} ZeroPadValue(n: nat, width: nat)
    ensures DecimalValue(ZeroPad(n, width)) == n
  {
    DecimalRoundTrip(n);
    PadValue(Decimal(n), width);
  }

  lemma PadValue(d: string, width: nat)
    requires AllDigits(d)
    ensures var p := if |d| < width then Zeros(width - |d|) + d else d;
      AllDigits(p) && DecimalValue(p) == DecimalValue(d)
  {
    if |d| < width {
      LeadingZeros(width - |d|, d);
    }
  }

  /** strconv.Atoi: an optional sign and at least one decimal digit, in the range of a 32-bit int. */
  function Atoi(s: string): Result<int>
  {
    if |s| == 0 then Err(EINVAL)
    else
      var neg := s[0] == '-';
      var body := if s[0] == '+' || s[0] == '-' then s[1..] else s;
      if |body| == 0 || !AllDigits(body) then Err(EINVAL)
      else
        var mag: int := DecimalValue(body);
        var v := if neg then -mag else mag;
        if v < -TWO_31 || v >= TWO_31 then Err(ERANGE) else Ok(v)
  }

  /** strconv.Itoa. */
  function Itoa(x: int): (s: string)
    ensures |s| >= 1
  {
    if x < 0 then "-" + Decimal(-x) else Decimal(x)
  }

  /** Itoa's output reads back through Atoi for every 32-bit int. */
  lemma AtoiItoa(x: i32)
    ensures Atoi(Itoa(x)) == Ok(x)
  {
    if x < 0 {
      AtoiItoaNegative(x);
    } else {
      AtoiItoaNonNegative(x);
    }
  }

  lemma AtoiItoaNegative(x: i32)
    requires x < 0
    ensures Atoi(Itoa(x)) == Ok(x)
  {
    var m: int := x;
    var d := Decimal(-m);
    DecimalRoundTrip(-m);
    assert Itoa(x) == "-" + d;
    AtoiNegative(d);
  }

  lemma AtoiItoaNonNegative(x: i32)
    requires x >= 0
    ensures Atoi(Itoa(x)) == Ok(x)
  {
    var d := Decimal(x);
    DecimalRoundTrip(x);
    assert Itoa(x) == d;
    AtoiUnsigned(d);
  }

  lemma AtoiUnsigned(d: string)
    requires |d| >= 1 && AllDigits(d) && DecimalValue(d) < TWO_31
    ensures Atoi(d) == Ok(DecimalValue(d))
  {
    assert IsDigit(d[0]);
  }

  lemma AtoiNegative(d: string)
    requires |d| >= 1 && AllDigits(d) && DecimalValue(d) <= TWO_31
    ensures Atoi("-" + d) == Ok(-(DecimalValue(d) as int))
  {
    assert ("-" + d)[1..] == d;
  }

  /** Atoi accepts exactly the signed digit strings; it never yields a value outside a 32-bit int. */
  lemma AtoiAccepts(s: string)
    ensures Atoi(s).Ok? ==> -TWO_31 <= Atoi(s).value < TWO_31
    ensures Atoi(s).Ok? ==> |s| >= 1 && (IsDigit(s[0]) || s[0] == '+' || s[0] == '-')
    ensures Atoi(s).Ok? && !IsDigit(s[0]) ==> |s| >= 2 && AllDigits(s[1..])
    ensures Atoi(s).Ok? && IsDigit(s[0]) ==> AllDigits(s)
  {
  }

  /** fmt's "%0<width>d" of any int: the sign counts toward the width. */
  function FmtPad(x: int, width: nat): (s: string)
    ensures x >= 0 ==> s == ZeroPad(x, width)
  {
    if x < 0 then "-" + ZeroPad(-x, if width > 0 then width - 1 else 0) else ZeroPad(x, width)
  }

  /** A value below 1000 pads to its three decimal digits. */
  lemma Pad3(b: nat)
    requires b < 1000
    ensures ZeroPad(b, 3) == [DigitChar(b / 100), DigitChar(b / 10 % 10), DigitChar(b % 10)]
  {
    if b >= 100 {
      var t := b / 10;
      assert t / 10 == b / 100;
      assert Decimal(t) == Decimal(t / 10) + [DigitChar(t % 10)];
    } else if b >= 10 {
      assert Decimal(b) == Decimal(b / 10) + [DigitChar(b % 10)];
    }
  }

  /** The decimal of a * 1000 + b is the decimal of a followed by b in three digits. */
  lemma DecimalThousands(a: nat, b: nat)
    requires a >= 1 && b < 1000
    ensures Decimal(a * 1000 + b) == Decimal(a) + ZeroPad(b, 3)
  {
    var b2, b1, b0 := b / 100, b / 10 % 10, b % 10;
    ThreeDigits(b);
    var n1, n2 := a * 100 + 10 * b2 + b1, a * 10 + b2;
    DigitStep(a * 1000 + b, n1, b0);
    DigitStep(n1, n2, b1);
    DigitStep(n2, a, b2);
    Pad3(b);
  }

  lemma ThreeDigits(b: nat)
    requires b < 1000
    ensures b == 100 * (b / 100) + 10 * (b / 10 % 10) + b % 10 && b / 100 < 10
  {
    var t := b / 10;
    assert t / 10 == b / 100;
  }

  /** Peeling the last digit off n = 10 q + r, with q >= 1. */
  lemma DigitStep(n: nat, q: nat, r: nat)
    requires q >= 1 && r < 10 && n == 10 * q + r
    ensures Decimal(n) == Decimal(q) + [DigitChar(r)]
  {
    DivOfMod(10, n, q, r);
    ModUnique(10, n, q, r);
  }
}
