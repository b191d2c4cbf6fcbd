// Shared vocabulary of the model: Go's fixed-width integers, the error
// values the packages return, and the Option/Result wrappers used for
// nil-able results and error returns.
module Base {

  /** Go's error values as the packages compare them. */
  datatype Error =
    | EBADF            // os.EBADF
    | EAGAIN           // os.EAGAIN
    | EOF              // os.EOF
    | EINVAL           // os.EINVAL
    | EIO              // os.EIO
    | ERANGE           // os.ERANGE
    | Failure(text: string)   // os.NewError(text) / os.ErrorString(text)

  datatype Option<T> = None | Some(value: T)

  datatype Result<T> = Ok(value: T) | Err(error: Error)
  {
    predicate IsFailure() { Err? }

    function PropagateFailure<U>(): Result<U>
      requires Err?
    {
      Err(error)
    }

    function Extract(): T
      requires Ok?
    {
      value
    }
  }

  const TWO_8: int := 0x100
  const TWO_31: int := 0x8000_0000
  const TWO_32: int := 0x1_0000_0000
  const TWO_63: int := 0x8000_0000_0000_0000
  const TWO_64: int := 0x1_0000_0000_0000_0000
  const MAX_U64: int := TWO_64 - 1

  type byte = x: int | 0 <= x < TWO_8
  type u32 = x: int | 0 <= x < TWO_32
  type u64 = x: int | 0 <= x < TWO_64
  type i32 = x: int | -TWO_31 <= x < TWO_31
  type i64 = x: int | -TWO_63 <= x < TWO_63

  /** Go's conversion uint64(x) of an int64: two's complement reinterpretation. */
  function U64OfI64(x: i64): (r: u64)
    ensures r % TWO_64 == x % TWO_64
  {
    if x < 0 then x + TWO_64 else x
  }

  /** Go's conversion int64(u) of a uint64: two's complement reinterpretation. */
  function I64OfU64(u: u64): (r: i64)
    ensures r % TWO_64 == u % TWO_64
  {
    if u < TWO_63 then u else u - TWO_64
  }

  /** Go's conversion uint32(x) of a 32-bit int. */
  function U32OfI32(x: i32): (r: u32)
    ensures r % TWO_32 == x % TWO_32
  {
    if x < 0 then x + TWO_32 else x
  }

  /** Go's conversion int32(u) of a uint32. */
  function I32OfU32(u: u32): (r: i32)
    ensures r % TWO_32 == u % TWO_32
  {
    if u < TWO_31 then u else u - TWO_32
  }

  /** The int64 that Go's wrapping arithmetic leaves for the exact result x. */
  function WrapI64(x: int): (r: i64)
    ensures r % TWO_64 == x % TWO_64
    ensures -TWO_63 <= x < TWO_63 ==> r == x
  {
    var u := x % TWO_64;
    if u < TWO_63 then u else u - TWO_64
  }

  lemma I64RoundTrip(x: i64, u: u64)
    ensures I64OfU64(U64OfI64(x)) == x
    ensures U64OfI64(I64OfU64(u)) == u
  {
  }

  lemma I32RoundTrip(x: i32, u: u32)
    ensures I32OfU32(U32OfI32(x)) == x
    ensures U32OfI32(I32OfU32(u)) == u
  {
  }

  /** Go's truncated remainder (sign follows the dividend). */
  function GoRem(a: int, b: int): (r: int)
    requires b > 0
    ensures -b < r < b
    ensures a >= 0 ==> r >= 0
    ensures a < 0 ==> r <= 0
  {
    if a >= 0 then a % b else -((-a) % b)
  }

  /** Go's truncated quotient. */
  function GoQuo(a: int, b: int): (q: int)
    requires b > 0
    ensures q * b + GoRem(a, b) == a
  {
    if a >= 0 then a / b else -((-a) / b)
  }

  function Pow2(k: nat): (r: nat)
    ensures r >= 1
  {
    if k == 0 then 1 else 2 * Pow2(k - 1)
  }

  /** b to the power k. */
  function Pow(b: nat, k: nat): (r: nat)
    ensures b >= 1 ==> r >= 1
  {
    if k == 0 then 1 else b * Pow(b, k - 1)
  }

  lemma {:induction false} Pow2Add(a: nat, b: nat)
    ensures Pow2(a + b) == Pow2(a) * Pow2(b)
  {
    if b > 0 {
      Pow2Add(a, b - 1);
    }
  }

  /** Shifting by w bits k times is multiplying by (2^w)^k. */
  lemma {:induction false} Pow2Groups(w: nat, k: nat)
    ensures Pow2(w * k) == Pow(Pow2(w), k)
  {
    if k > 0 {
      Pow2Groups(w, k - 1);
      assert w * k == w * (k - 1) + w;
      Pow2Add(w * (k - 1), w);
    }
  }

  /** Adding remainders and reducing again gives the remainder of the sum. */
  lemma ModSum(m: nat, a: nat, b: nat)
    requires m > 0
    ensures (a % m + b % m) % m == (a + b) % m
  {
    var q := a / m + b / m;
    assert a == m * (a / m) + a % m;
    assert b == m * (b / m) + b % m;
    assert a + b == m * q + (a % m + b % m);
    ModMultiple(m, a % m + b % m, q);
  }

  lemma ModMultiple(m: nat, x: nat, k: nat)
    requires m > 0
    ensures (m * k + x) % m == x % m
  {
    var q := x / m;
    assert x == m * q + x % m;
    assert m * k + x == m * (k + q) + x % m;
    ModUnique(m, m * k + x, k + q, x % m);
  }

  /** Euclidean division is unique: a remainder in [0, m) is the remainder. */
  lemma ModUnique(m: nat, a: int, q: int, r: int)
    requires m > 0 && 0 <= r < m && a == m * q + r
    ensures a % m == r
  {
    var d := q - a / m;
    assert m * d == a % m - r;
    assert d == 0;
  }

  /** Dividing by a and then by b is dividing by a * b. */
  lemma DivDiv(x: nat, a: nat, b: nat)
    requires a > 0 && b > 0
    ensures x / a / b == x / (a * b)
  {
    var q1, r1 := x / a, x % a;
    var q, r2 := q1 / b, q1 % b;
    assert x == a * q1 + r1;
    assert q1 == b * q + r2;
    MulLe(a, r2, b - 1);
    assert a * q1 == a * (b * q) + a * r2;
    assert a * (b * q) == (a * b) * q;
    ModUnique(a * b, x, q, a * r2 + r1);
    DivOfMod(a * b, x, q, a * r2 + r1);
  }

  lemma MulLe(a: nat, y: nat, z: nat)
    requires y <= z
    ensures a * y <= a * z
  {
  }

  /** Euclidean division is unique: a quotient with a remainder in [0, m) is the quotient. */
  lemma DivOfMod(m: nat, a: int, q: int, r: int)
    requires m > 0 && 0 <= r < m && a == m * q + r
    ensures a / m == q
  {
    ModUnique(m, a, q, r);
    assert m * (a / m) == m * q;
  }

  function Min(a: int, b: int): int { if a <= b then a else b }

  /** The ASCII decimal digit characters. */
  predicate IsDigit(c: char) { '0' <= c <= '9' }

  function DigitValue(c: char): (v: nat)
    requires IsDigit(c)
    ensures v < 10
  {
    (c as int) - ('0' as int)
  }

  function DigitChar(v: nat): (c: char)
    requires v < 10
    ensures IsDigit(c) && DigitValue(c) == v
  {
    (('0' as int) + v) as char
  }

  /** strings.Index(s, string(c)) for a one-character needle: the first position of c in s, or -1. */
  function IndexIn<T(==)>(s: seq<T>, c: T): (r: int)
    ensures -1 <= r < |s|
  {
    if s == [] then -1
    else if s[0] == c then 0
    else
      var r := IndexIn(s[1..], c);
      if r < 0 then -1 else r + 1
  }

  /** IndexIn finds the first occurrence, and -1 exactly when there is none. */
  lemma {:induction false} IndexInSpec<T>(s: seq<T>, c: T)
    ensures IndexIn(s, c) >= 0 ==> s[IndexIn(s, c)] == c && forall j :: 0 <= j < IndexIn(s, c) ==> s[j] != c
    ensures IndexIn(s, c) == -1 ==> forall j :: 0 <= j < |s| ==> s[j] != c
  {
    if s != [] && s[0] != c {
      IndexInSpec(s[1..], c);
    }
  }

  predicate HasPrefix(s: string, prefix: string)
  {
    |prefix| <= |s| && s[..|prefix|] == prefix
  }

  function Reverse<T>(s: seq<T>): (r: seq<T>)
    ensures |r| == |s|
    ensures forall i :: 0 <= i < |s| ==> r[i] == s[|s| - 1 - i]
  {
    if s == [] then [] else Reverse(s[1..]) + [s[0]]
  }
}
