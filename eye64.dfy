// Eyeball-64 (package eye64): a case-insensitive base-30 rendering of a
// 64-bit unsigned integer over an alphabet without look-alike characters,
// most significant digit first, followed by one checksum character that is
// the sum of the digits modulo 30.
module Eye64 {
  import opened Base

  const Alpha: string := "abcdefghjkmnpqrstuwxyz23456789"
  // base = len(alpha) = 30
  /** The rendering of zero. */
  const Zero: string := "aa"
  /** cutoff64(30): the least n with n * 30 > 2^64 - 1. */
  const Cutoff: nat := MAX_U64 / 30 + 1

  type digit = d: nat | d < 30

  /**
   * The properties of the alphabet the encoding relies on: 30 distinct
   * characters, each its own lower-case form. The proofs below are stated
   * for any such alphabet A and applied to Alpha at the end.
   */
  predicate IsAlphabet(A: string)
  {
    && |A| == 30
    && (forall i, j :: 0 <= i < j < |A| ==> A[i] != A[j])
    && (forall i :: 0 <= i < |A| ==> LowerChar(A[i]) == A[i])
  }

  lemma AlphaIsAlphabet()
    ensures IsAlphabet(Alpha)
  {
    AlphaDistinct();
    AlphaLower();
  }

  lemma AlphaDistinct()
    ensures forall i, j :: 0 <= i < j < |Alpha| ==> Alpha[i] != Alpha[j]
  {
  }

  lemma AlphaLower()
    ensures forall i :: 0 <= i < |Alpha| ==> LowerChar(Alpha[i]) == Alpha[i]
  {
  }

  /** The alphabet lies between '2' and 'z'. */
  lemma AlphaRange()
    ensures forall j | 0 <= j < |Alpha| :: '2' <= Alpha[j] <= 'z'
  {
  }

  lemma AlphaIndex(A: string, d: digit)
    requires IsAlphabet(A)
    ensures IndexIn(A, A[d]) == d
  {
    IndexInSpec(A, A[d]);
  }

  /** The ASCII case mapping of strings.ToLower. */
  function LowerChar(c: char): char
  {
    if 'A' <= c <= 'Z' then ((c as int) + 32) as char else c
  }

  function UpperChar(c: char): char
  {
    if 'a' <= c <= 'z' then ((c as int) - 32) as char else c
  }

  /** strings.ToLower, for ASCII. */
  function Lower(s: string): (r: string)
    ensures |r| == |s|
  {
    if s == [] then [] else [LowerChar(s[0])] + Lower(s[1..])
  }

  /** strings.ToUpper, for ASCII. */
  function Upper(s: string): (r: string)
    ensures |r| == |s|
  {
    if s == [] then [] else [UpperChar(s[0])] + Upper(s[1..])
  }

  lemma {:induction false} LowerAt(s: string)
    ensures forall i :: 0 <= i < |s| ==> Lower(s)[i] == LowerChar(s[i])
  {
    if s != [] {
      LowerAt(s[1..]);
    }
  }

  lemma {:induction false} UpperAt(s: string)
    ensures forall i :: 0 <= i < |s| ==> Upper(s)[i] == UpperChar(s[i])
  {
    if s != [] {
      UpperAt(s[1..]);
    }
  }

  // ----- the value side: digits, their value and their checksum -----

  /** The base-30 digits of u, most significant first (none for zero). */
  function Digits(u: nat): seq<digit>
  {
    if u == 0 then [] else Digits(u / 30) + [u % 30]
  }

  /** The number that a digit sequence denotes, most significant first. */
  function Value(ds: seq<digit>): nat
  {
    if ds == [] then 0 else Value(ds[..|ds| - 1]) * 30 + ds[|ds| - 1]
  }

  function Sum(ds: seq<digit>): nat
  {
    if ds == [] then 0 else ds[0] + Sum(ds[1..])
  }

  /** The characters of a digit sequence in alphabet A. */
  function Chars(A: string, ds: seq<digit>): (s: string)
    requires |A| == 30
    ensures |s| == |ds|
  {
    if ds == [] then [] else [A[ds[0]]] + Chars(A, ds[1..])
  }

  lemma {:induction false} CharsAt(A: string, ds: seq<digit>, i: nat)
    requires |A| == 30 && i < |ds|
    ensures Chars(A, ds)[i] == A[ds[i]]
  {
    if i > 0 {
      CharsAt(A, ds[1..], i - 1);
    }
  }

  /** The rendering of u in alphabet A: the digits followed by the checksum character. */
  function Render(A: string, u: u64): string
    requires |A| == 30
  {
    if u == 0 then [A[0], A[0]]
    else Chars(A, Digits(u)) + [A[Sum(Digits(u)) % 30]]
  }

  /** What U64ToEye returns for u. */
  function Eye(u: u64): string
  {
    Render(Alpha, u)
  }

  lemma {:induction false} DigitsValue(u: nat)
    ensures Value(Digits(u)) == u
  {
    if u != 0 {
      var ds := Digits(u);
      assert ds[..|ds| - 1] == Digits(u / 30);
      DigitsValue(u / 30);
    }
  }

  lemma {:induction false} DigitsLength(u: nat, k: nat)
    requires u < Pow(30, k)
    ensures |Digits(u)| <= k
  {
    if u != 0 {
      DigitsLength(u / 30, k - 1);
    }
  }

  /** A 64-bit value has at most 14 base-30 digits. */
  lemma DigitsLength64(u: u64)
    ensures |Digits(u)| <= 14
    ensures u != 0 ==> |Digits(u)| >= 1
  {
    assert Pow(30, 14) == 478296900000000000000;
    DigitsLength(u, 14);
  }

  lemma {:induction false} SumSnoc(ds: seq<digit>, d: digit)
    ensures Sum(ds + [d]) == Sum(ds) + d
  {
    if ds != [] {
      assert (ds + [d])[1..] == ds[1..] + [d];
      SumSnoc(ds[1..], d);
    }
  }

  // ----- the string side: EyeToU64 as a left-to-right scan -----

  /**
   * The loop state of EyeToU64 after some characters: still running (with
   * the value so far and the running checksum crc), or returned.
   */
  datatype Scan = Running(n: u64, crc: digit) | Stopped(value: u64, err: Error)

  /** The result of EyeToU64: the value and the error, returned together as in Go. */
  datatype Decoded = Decoded(n: u64, err: Option<Error>)

  /** One iteration of EyeToU64's loop over a body character. */
  function Step(A: string, st: Scan, c: char): Scan
  {
    match st
    case Stopped(_, _) => st
    case Running(n, crc) =>
      var w := IndexIn(A, c);
      if w < 0 then Stopped(0, EINVAL)
      else if n >= Cutoff then Stopped(MAX_U64, ERANGE)
      else if n * 30 + w > MAX_U64 then Stopped(MAX_U64, ERANGE)
      else Running(n * 30 + w, (crc + w % 30) % 30)
  }

  function ScanTo(A: string, s: string, k: nat): Scan
    requires k <= |s|
  {
    if k == 0 then Running(0, 0) else Step(A, ScanTo(A, s, k - 1), s[k - 1])
  }

  /** Decoding in alphabet A: the body is scanned, the last character is the checksum. */
  function DecodeIn(A: string, s: string): Decoded
  {
    if |s| < 2 then Decoded(0, Some(EINVAL))
    else
      var s0 := Lower(s);
      match ScanTo(A, s0, |s0| - 1)
      case Stopped(v, e) => Decoded(v, Some(e))
      case Running(n, crc) =>
        var w := IndexIn(A, s0[|s0| - 1]);
        if w < 0 || w != crc then Decoded(0, Some(EINVAL)) else Decoded(n, None)
  }

  /** What EyeToU64 returns for s. */
  function Decode(s: string): Decoded
  {
    DecodeIn(Alpha, s)
  }

  predicate InAlpha(A: string, s: string)
  {
    forall i :: 0 <= i < |s| ==> IndexIn(A, s[i]) >= 0
  }

  /** The number a string of alphabet characters denotes. */
  function StrValue(A: string, s: string): nat
    requires InAlpha(A, s)
  {
    if s == [] then 0 else StrValue(A, s[..|s| - 1]) * 30 + IndexIn(A, s[|s| - 1])
  }

  /** The sum of the digits of a string of alphabet characters. */
  function StrSum(A: string, s: string): nat
    requires InAlpha(A, s)
  {
    if s == [] then 0 else StrSum(A, s[..|s| - 1]) + IndexIn(A, s[|s| - 1])
  }

  /** A scan that is still running has read only alphabet characters, and holds their value and digit sum. */
  lemma {:induction false} ScanRunning(A: string, s: string, k: nat)
    requires k <= |s| && ScanTo(A, s, k).Running?
    ensures InAlpha(A, s[..k])
    ensures ScanTo(A, s, k).n == StrValue(A, s[..k])
    ensures ScanTo(A, s, k).crc == StrSum(A, s[..k]) % 30
  {
    if k > 0 {
      ScanStep(A, s, k);
      ScanRunning(A, s, k - 1);
      var p := s[..k];
      assert p[..k - 1] == s[..k - 1];
      ModSum(30, StrSum(A, s[..k - 1]), IndexIn(A, s[k - 1]));
    }
  }

  lemma ScanStep(A: string, s: string, k: nat)
    requires 0 < k <= |s| && ScanTo(A, s, k).Running?
    ensures ScanTo(A, s, k - 1).Running? && IndexIn(A, s[k - 1]) >= 0
    ensures ScanTo(A, s, k).n == ScanTo(A, s, k - 1).n * 30 + IndexIn(A, s[k - 1])
    ensures ScanTo(A, s, k).crc == (ScanTo(A, s, k - 1).crc + IndexIn(A, s[k - 1]) % 30) % 30
  {
    StepRunning(A, ScanTo(A, s, k - 1), s[k - 1]);
  }

  lemma StepRunning(A: string, st: Scan, c: char)
    requires Step(A, st, c).Running?
    ensures st.Running? && IndexIn(A, c) >= 0
    ensures Step(A, st, c).n == st.n * 30 + IndexIn(A, c)
    ensures Step(A, st, c).crc == (st.crc + IndexIn(A, c) % 30) % 30
  {
  }

  /** Scanning the characters of a digit sequence whose value fits 64 bits never stops. */
  lemma {:induction false} ScanDigits(A: string, ds: seq<digit>, s: string, k: nat)
    requires IsAlphabet(A)
    requires |s| >= |ds| && s[..|ds|] == Chars(A, ds) && Value(ds) <= MAX_U64
    requires k <= |ds|
    ensures ScanTo(A, s, k).Running?
    ensures ScanTo(A, s, k).n == Value(ds[..k]) && ScanTo(A, s, k).crc == Sum(ds[..k]) % 30
  {
    if k > 0 {
      ScanDigits(A, ds, s, k - 1);
      PrefixValue(ds, k);
      PrefixSnoc(ds, k);
      GlyphAt(A, ds, s, k - 1);
      StepDigit(A, ScanTo(A, s, k - 1), s[k - 1]);
    }
  }

  lemma PrefixSnoc(ds: seq<digit>, k: nat)
    requires 0 < k <= |ds|
    ensures Value(ds[..k]) == Value(ds[..k - 1]) * 30 + ds[k - 1]
    ensures Sum(ds[..k]) == Sum(ds[..k - 1]) + ds[k - 1]
    ensures Sum(ds[..k]) % 30 == (Sum(ds[..k - 1]) % 30 + ds[k - 1] % 30) % 30
  {
    var p, q, d := ds[..k], ds[..k - 1], ds[k - 1];
    assert p == q + [d];
    assert p[..|p| - 1] == q && p[|p| - 1] == d;
    SumSnoc(q, d);
    ModSum(30, Sum(q), d);
  }

  lemma GlyphAt(A: string, ds: seq<digit>, s: string, i: nat)
    requires IsAlphabet(A)
    requires |s| >= |ds| && s[..|ds|] == Chars(A, ds) && i < |ds|
    ensures IndexIn(A, s[i]) == ds[i]
  {
    CharsAt(A, ds, i);
    assert s[..|ds|][i] == s[i];
    AlphaIndex(A, ds[i]);
  }

  lemma StepDigit(A: string, st: Scan, c: char)
    requires st.Running? && IndexIn(A, c) >= 0
    requires st.n * 30 + IndexIn(A, c) <= MAX_U64
    ensures Step(A, st, c) == Running(st.n * 30 + IndexIn(A, c), (st.crc + IndexIn(A, c) % 30) % 30)
  {
  }

  lemma {:induction false} PrefixValue(ds: seq<digit>, k: nat)
    requires k <= |ds|
    ensures Value(ds[..k]) <= Value(ds)
  {
    if k < |ds| {
      var init := ds[..|ds| - 1];
      PrefixValue(init, k);
      assert init[..k] == ds[..k];
      assert Value(ds) == Value(init) * 30 + ds[|ds| - 1];
    } else {
      assert ds[..k] == ds;
    }
  }

  /** Every alphabet character is its own lower-case form. */
  lemma LowerChars(A: string, s: string)
    requires IsAlphabet(A) && InAlpha(A, s)
    ensures Lower(s) == s
  {
    LowerAt(s);
    forall i | 0 <= i < |s|
      ensures LowerChar(s[i]) == s[i]
    {
      IndexInSpec(A, s[i]);
    }
  }

  /** Every character of a rendering belongs to the alphabet. */
  lemma RenderInAlpha(A: string, u: u64)
    requires IsAlphabet(A)
    ensures InAlpha(A, Render(A, u))
  {
    var s := Render(A, u);
    if u != 0 {
      var ds := Digits(u);
      forall i | 0 <= i < |s|
        ensures IndexIn(A, s[i]) >= 0
      {
        if i < |ds| {
          CharsAt(A, ds, i);
          AlphaIndex(A, ds[i]);
        } else {
          AlphaIndex(A, Sum(ds) % 30);
        }
      }
    }
  }

  lemma RenderDecodes(A: string, u: u64)
    requires IsAlphabet(A)
    ensures DecodeIn(A, Render(A, u)) == Decoded(u, None)
  {
    RenderInAlpha(A, u);
    LowerChars(A, Render(A, u));
    if u == 0 {
      ZeroDecodes(A);
    } else {
      BodyDecodes(A, u);
    }
  }

  lemma ZeroDecodes(A: string)
    requires |A| == 30 && Lower(Render(A, 0)) == Render(A, 0)
    ensures DecodeIn(A, Render(A, 0)) == Decoded(0, None)
  {
    var s := Render(A, 0);
    assert ScanTo(A, s, 1) == Step(A, Running(0, 0), A[0]);
    IndexInSpec(A, A[0]);
  }

  lemma BodyDecodes(A: string, u: u64)
    requires IsAlphabet(A) && u != 0 && Lower(Render(A, u)) == Render(A, u)
    ensures DecodeIn(A, Render(A, u)) == Decoded(u, None)
  {
    var s := Render(A, u);
    var ds := Digits(u);
    DigitsValue(u);
    DigitsLength64(u);
    assert s[..|ds|] == Chars(A, ds);
    ScanDigits(A, ds, s, |ds|);
    assert ds[..|ds|] == ds;
    AlphaIndex(A, Sum(ds) % 30);
  }

  /** decode(encode(u)) == u for every 64-bit value (eye64_test.go checks two values). */
  lemma RoundTrip(u: u64)
    ensures Decode(Eye(u)) == Decoded(u, None)
  {
    AlphaIsAlphabet();
    RenderDecodes(Alpha, u);
  }

  /** Decoding ignores letter case. */
  lemma CaseInsensitive(s: string, t: string)
    requires |s| == |t|
    requires forall i :: 0 <= i < |s| ==> LowerChar(s[i]) == LowerChar(t[i])
    ensures Decode(s) == Decode(t)
  {
    LowerAt(s);
    LowerAt(t);
    assert Lower(s) == Lower(t);
  }

  /** An upper-cased rendering decodes to the same value. */
  lemma UpperRoundTrip(u: u64)
    ensures Decode(Upper(Eye(u))) == Decoded(u, None)
  {
    UpperDecodes(Eye(u));
    RoundTrip(u);
  }

  /** Upper-casing a string does not change what it decodes to. */
  lemma UpperDecodes(s: string)
    ensures Decode(Upper(s)) == Decode(s)
  {
    UpperAt(s);
    forall i | 0 <= i < |s|
      ensures LowerChar(s[i]) == LowerChar(Upper(s)[i])
    {
      LowerUpper(s[i]);
    }
    CaseInsensitive(s, Upper(s));
  }

  lemma LowerUpper(c: char)
    ensures LowerChar(UpperChar(c)) == LowerChar(c)
  {
  }

  /** The value returned beside an error is 0 for a malformed string and 2^64-1 for an overflow. */
  lemma ErrorValues(s: string)
    ensures Decode(s).err == Some(ERANGE) ==> Decode(s).n == MAX_U64
    ensures Decode(s).err.Some? && Decode(s).err != Some(ERANGE) ==> Decode(s).n == 0 && Decode(s).err == Some(EINVAL)
    ensures |s| < 2 ==> Decode(s).err == Some(EINVAL)
  {
    if |s| >= 2 {
      ScanErrors(Alpha, Lower(s), |s| - 1);
    }
  }

  lemma {:induction false} ScanErrors(A: string, s: string, k: nat)
    requires k <= |s|
    ensures ScanTo(A, s, k) == Stopped(0, EINVAL) || ScanTo(A, s, k) == Stopped(MAX_U64, ERANGE) || ScanTo(A, s, k).Running?
  {
    if k > 0 {
      ScanErrors(A, s, k - 1);
    }
  }

  /** A string whose body is made of alphabet characters and whose last character is the body's checksum. */
  predicate Checked(A: string, x: string)
  {
    |x| >= 2 && InAlpha(A, x[..|x| - 1]) && IndexIn(A, x[|x| - 1]) == StrSum(A, x[..|x| - 1]) % 30
  }

  /** A clean decode has read a checksummed string. */
  lemma CleanDecode(A: string, s: string)
    requires DecodeIn(A, s).err == None
    ensures Checked(A, Lower(s))
  {
    ScanRunning(A, Lower(s), |s| - 1);
  }

  lemma {:induction false} StrSumUpdate(A: string, x: string, y: string, p: nat)
    requires |x| == |y| && p < |x| && InAlpha(A, x) && InAlpha(A, y)
    requires forall i :: 0 <= i < |x| && i != p ==> x[i] == y[i]
    ensures StrSum(A, y) + IndexIn(A, x[p]) == StrSum(A, x) + IndexIn(A, y[p])
  {
    var n := |x|;
    var x', y' := x[..n - 1], y[..n - 1];
    if p < n - 1 {
      StrSumUpdate(A, x', y', p);
    } else {
      assert x' == y';
    }
  }

  /** Two different characters of A have different positions. */
  lemma IndexInjective(A: string, x: char, y: char)
    requires IndexIn(A, x) >= 0 && x != y
    ensures IndexIn(A, x) != IndexIn(A, y)
  {
    IndexInSpec(A, x);
    IndexInSpec(A, y);
  }

  /** Changing one character of a checksummed string breaks its checksum. */
  lemma SubstitutionBreaksChecksum(A: string, x: string, y: string, p: nat)
    requires IsAlphabet(A) && Checked(A, x)
    requires |y| == |x| && p < |x| && x[p] != y[p]
    requires forall i :: 0 <= i < |x| && i != p ==> x[i] == y[i]
    ensures !Checked(A, y)
  {
    var m := |x| - 1;
    if p < m {
      BodySubstitution(A, x, y, p);
    } else {
      assert x[..m] == y[..m];
      if Checked(A, y) {
        IndexInjective(A, x[m], y[m]);
      }
    }
  }

  lemma BodySubstitution(A: string, x: string, y: string, p: nat)
    requires IsAlphabet(A) && Checked(A, x)
    requires |y| == |x| && p < |x| - 1 && x[p] != y[p]
    requires forall i :: 0 <= i < |x| && i != p ==> x[i] == y[i]
    ensures !Checked(A, y)
  {
    var m := |x| - 1;
    if Checked(A, y) {
      var xb, yb := x[..m], y[..m];
      assert x[m] == y[m];
      assert xb[p] == x[p] && yb[p] == y[p];
      assert forall i :: 0 <= i < m && i != p ==> xb[i] == yb[i];
      IndexInjective(A, xb[p], yb[p]);
      StrSumUpdate(A, xb, yb, p);
      SumsClash(StrSum(A, xb), StrSum(A, yb), IndexIn(A, xb[p]), IndexIn(A, yb[p]));
    }
  }

  lemma SumsClash(sx: nat, sy: nat, a: digit, b: digit)
    requires sx % 30 == sy % 30 && sy + a == sx + b
    ensures a == b
  {
  }

  /**
   * The checksum catches every single-character substitution: changing one
   * character of a string that decodes cleanly into a different character
   * (ignoring case) makes decoding fail.
   */
  lemma SubstitutionDetectedIn(A: string, s: string, t: string, p: nat)
    requires IsAlphabet(A) && DecodeIn(A, s).err == None
    requires |t| == |s| && p < |s|
    requires forall i :: 0 <= i < |s| && i != p ==> t[i] == s[i]
    requires LowerChar(t[p]) != LowerChar(s[p])
    ensures DecodeIn(A, t).err.Some?
  {
    CleanDecode(A, s);
    LowerAt(s);
    LowerAt(t);
    SubstitutionBreaksChecksum(A, Lower(s), Lower(t), p);
    if DecodeIn(A, t).err == None {
      CleanDecode(A, t);
    }
  }

  lemma SubstitutionDetected(s: string, t: string, p: nat)
    requires Decode(s).err == None
    requires |t| == |s| && p < |s|
    requires forall i :: 0 <= i < |s| && i != p ==> t[i] == s[i]
    requires LowerChar(t[p]) != LowerChar(s[p])
    ensures Decode(t).err.Some?
  {
    AlphaIsAlphabet();
    SubstitutionDetectedIn(Alpha, s, t, p);
  }

  // ----- the two operations as the source writes them -----

  /** U64ToEye: fills a 32-character buffer from the right. */
  method U64ToEye(u: u64) returns (s: string)
    ensures s == Eye(u)
  {
    if u == 0 {
      assert Zero == [Alpha[0], Alpha[0]];
      return Zero;
    }
    // Go's [32]byte is a value: the buffer is a sequence updated in place.
    var buf: seq<char> := seq(32, _ => 0 as char);
    var j := 31;
    var v: nat := u;
    var crc: digit := 0;
    ghost var emitted: seq<digit> := [];
    DigitsOntoAppend(u, []);
    assert Digits(u) + [] == Digits(u);
    while v > 0
      invariant 17 <= j <= 31 && |buf| == 32 && |emitted| == 31 - j
      invariant DigitsOnto(v, emitted) == Digits(u)
      invariant buf[j..31] == Chars(Alpha, emitted)
      invariant crc == Sum(emitted) % 30
    {
      var d: digit := v % 30;
      EmitStep(Alpha, u, v, d, emitted, crc, buf, j);
      j := j - 1;
      buf := buf[j := Alpha[d]];
      crc := (crc + d) % 30;
      emitted := [d] + emitted;
      v := v / 30;
    }
    Finish(Alpha, u, emitted, crc, buf, j);
    buf := buf[31 := Alpha[crc]];
    s := buf[j..];
  }

  /** One iteration of U64ToEye's loop keeps its invariant. */
  lemma EmitStep(A: string, u: u64, v: nat, d: digit, emitted: seq<digit>, crc: digit, buf: seq<char>, j: nat)
    requires |A| == 30
    requires 17 <= j <= 31 && |buf| == 32 && |emitted| == 31 - j && v > 0 && d == v % 30
    requires DigitsOnto(v, emitted) == Digits(u)
    requires buf[j..31] == Chars(A, emitted)
    requires crc == Sum(emitted) % 30
    ensures j > 17 && 0 <= v / 30 < v
    ensures buf[j - 1 := A[d]][j - 1..31] == Chars(A, [d] + emitted)
    ensures (crc + d) % 30 == Sum([d] + emitted) % 30
  {
    EmitBound(u, v, emitted);
    SetFirst(buf, j - 1, A[d]);
    CharsCons(A, d, emitted);
    CrcStep(emitted, crc, d);
  }

  /** Writing the checksum character after the digits completes the rendering. */
  lemma Finish(A: string, u: u64, emitted: seq<digit>, crc: digit, buf: seq<char>, j: nat)
    requires |A| == 30 && u != 0 && |buf| == 32 && j <= 31
    requires DigitsOnto(0, emitted) == Digits(u)
    requires buf[j..31] == Chars(A, emitted)
    requires crc == Sum(emitted) % 30
    ensures buf[31 := A[crc]][j..] == Render(A, u)
  {
    RenderDigits(A, u, emitted);
    SetLast(buf, j, A[crc]);
  }

  lemma SetLast(b: seq<char>, j: nat, c: char)
    requires |b| == 32 && j <= 31
    ensures b[31 := c][j..] == b[j..31] + [c]
  {
  }

  lemma SetFirst(b: seq<char>, j: nat, c: char)
    requires |b| == 32 && j < 31
    ensures b[j := c][j..31] == [c] + b[j + 1..31]
  {
  }

  lemma CharsCons(A: string, d: digit, ds: seq<digit>)
    requires |A| == 30
    ensures Chars(A, [d] + ds) == [A[d]] + Chars(A, ds)
  {
    assert ([d] + ds)[1..] == ds;
  }

  lemma RenderDigits(A: string, u: u64, ds: seq<digit>)
    requires |A| == 30 && u != 0
    requires DigitsOnto(0, ds) == Digits(u)
    ensures Render(A, u) == Chars(A, ds) + [A[Sum(ds) % 30]]
  {
  }

  /** The digits of v written in front of acc, as U64ToEye's loop emits them. */
  function DigitsOnto(v: nat, acc: seq<digit>): seq<digit>
  {
    if v == 0 then acc else DigitsOnto(v / 30, [v % 30] + acc)
  }

  lemma {:induction false} DigitsOntoAppend(v: nat, acc: seq<digit>)
    ensures DigitsOnto(v, acc) == Digits(v) + acc
  {
    if v != 0 {
      DigitsOntoAppend(v / 30, [v % 30] + acc);
      assert Digits(v / 30) + ([v % 30] + acc) == (Digits(v / 30) + [v % 30]) + acc;
    }
  }

  lemma EmitBound(u: u64, v: nat, emitted: seq<digit>)
    requires v > 0 && DigitsOnto(v, emitted) == Digits(u)
    ensures |emitted| < 14
  {
    DigitsOntoAppend(v, emitted);
    DigitsLength64(u);
  }

  lemma CrcStep(emitted: seq<digit>, crc: digit, d: digit)
    requires crc == Sum(emitted) % 30
    ensures (crc + d) % 30 == Sum([d] + emitted) % 30
  {
    var e := [d] + emitted;
    assert e[1..] == emitted;
    assert Sum(e) == d + Sum(emitted);
    ModSum(30, Sum(emitted), d);
    assert d % 30 == d;
  }

  /** EyeToU64: returns the value together with the error, as in Go. */
  method EyeToU64(s: string) returns (n: u64, err: Option<Error>)
    ensures Decoded(n, err) == Decode(s)
  {
    if |s| < 2 {
      return 0, Some(EINVAL);
    }
    var s0 := Lower(s);
    n := 0;
    var crc: digit := 0;
    var i := 0;
    while i < |s0| - 1
      invariant 0 <= i <= |s0| - 1
      invariant ScanTo(Alpha, s0, i) == Running(n, crc)
    {
      var st := NextScan(s0, i, n, crc);
      if st.Stopped? {
        StopsAt(Alpha, s, i);
        return st.value, Some(st.err);
      }
      n, crc := st.n, st.crc;
      i := i + 1;
    }
    var w := IndexIn(Alpha, s0[|s0| - 1]);
    ChecksumAt(Alpha, s, n, crc);
    if w < 0 {
      return 0, Some(EINVAL);
    }
    if w != crc {
      return 0, Some(EINVAL);
    }
    return n, None;
  }

  /** When the scan of the body runs to its end, the last character decides against the checksum. */
  lemma ChecksumAt(A: string, s: string, n: u64, crc: digit)
    requires |s| >= 2 && ScanTo(A, Lower(s), |s| - 1) == Running(n, crc)
    ensures var w := IndexIn(A, Lower(s)[|s| - 1]);
      DecodeIn(A, s) == if w < 0 || w != crc then Decoded(0, Some(EINVAL)) else Decoded(n, None)
  {
  }

  /** One pass of EyeToU64's loop body over s0[i]: the next digit, the checksum, and the two overflow tests. */
  method NextScan(s0: string, i: nat, n: u64, crc: digit) returns (st: Scan)
    requires i < |s0| && ScanTo(Alpha, s0, i) == Running(n, crc)
    ensures st == ScanTo(Alpha, s0, i + 1)
  {
    var w := IndexIn(Alpha, s0[i]);
    Advance(Alpha, s0, i, n, crc, w);
    if w < 0 {
      return Stopped(0, EINVAL);
    }
    var crc1 := (crc + w % 30) % 30;
    if n >= Cutoff {
      return Stopped(MAX_U64, ERANGE);
    }
    var m := n * 30;
    // uint64 addition wraps around
    var n1 := if m + w < TWO_64 then m + w else m + w - TWO_64;
    if n1 < m {
      return Stopped(MAX_U64, ERANGE);
    }
    return Running(n1, crc1);
  }

  /** The scan's next state, case by case as the loop body tests them. */
  lemma Advance(A: string, s: string, i: nat, n: u64, crc: digit, w: int)
    requires i < |s| && ScanTo(A, s, i) == Running(n, crc) && w == IndexIn(A, s[i])
    ensures w < 0 ==> ScanTo(A, s, i + 1) == Stopped(0, EINVAL)
    ensures w >= 0 && n >= Cutoff ==> ScanTo(A, s, i + 1) == Stopped(MAX_U64, ERANGE)
    ensures w >= 0 && n < Cutoff && n * 30 + w > MAX_U64 ==> ScanTo(A, s, i + 1) == Stopped(MAX_U64, ERANGE)
    ensures w >= 0 && n < Cutoff && n * 30 + w <= MAX_U64 ==> ScanTo(A, s, i + 1) == Running(n * 30 + w, (crc + w % 30) % 30)
  {
  }

  /** Once the scan stops, decoding returns what stopped it. */
  lemma StopsAt(A: string, s: string, i: nat)
    requires 2 <= |s| && i < |s| - 1
    requires ScanTo(A, Lower(s), i + 1).Stopped?
    ensures DecodeIn(A, s) == Decoded(ScanTo(A, Lower(s), i + 1).value, Some(ScanTo(A, Lower(s), i + 1).err))
  {
    StaysStopped(A, Lower(s), i + 1, |s| - 1);
  }

  lemma {:induction false} StaysStopped(A: string, s: string, i: nat, k: nat)
    requires i <= k <= |s| && ScanTo(A, s, i).Stopped?
    ensures ScanTo(A, s, k) == ScanTo(A, s, i)
  {
    if k > i {
      StaysStopped(A, s, i, k - 1);
    }
  }
}
