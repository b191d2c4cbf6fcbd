// Exponential back-off (package backoff): each step multiplies the current
// delay by Ratio and rounds up, as long as the result stays within Hi.
// Ratio is a float64 in the code; here it is the rational num/den.
module Backoff {
  /** math.Ceil(x / d). */
  function Ceil(x: int, d: nat): (r: int)
    requires d > 0
    ensures x <= r * d < x + d
  {
    -((-x) / d)
  }

  /** The Current that Inc leaves: ceil(current * ratio) when that is within hi, else current. */
  function Next(current: int, hi: int, num: int, den: nat): (r: int)
    requires den > 0
  {
    var t := Ceil(current * num, den);
    if t <= hi then t else current
  }

  /** Inc never moves Current above Hi once it is at most Hi, and it never moves down when ratio >= 1. */
  lemma NextBounds(current: int, hi: int, num: int, den: nat)
    requires den > 0
    ensures current <= hi ==> Next(current, hi, num, den) <= hi
    ensures current >= 0 && num >= den ==> Next(current, hi, num, den) >= current
    ensures Next(current, hi, num, den) != current ==> Next(current, hi, num, den) * den >= current * num
  {
    if current >= 0 && num >= den {
      assert current * num >= current * den;
    }
  }

  /** Current after k calls of Inc. */
  function After(k: nat, current: int, hi: int, num: int, den: nat): int
    requires den > 0
  {
    if k == 0 then current else After(k - 1, Next(current, hi, num, den), hi, num, den)
  }

  /** With Lo = Current = 2, Hi = 100 and ratio 1.4, the twelfth Inc returns 79. */
  lemma TwelfthInc()
    ensures After(12, 2, 100, 7, 5) == 79
  {
    assert Next(2, 100, 7, 5) == 3;
    assert Next(3, 100, 7, 5) == 5;
    assert Next(5, 100, 7, 5) == 7;
    assert Next(7, 100, 7, 5) == 10;
    assert Next(10, 100, 7, 5) == 14;
    assert Next(14, 100, 7, 5) == 20;
    assert Next(20, 100, 7, 5) == 28;
    assert Next(28, 100, 7, 5) == 40;
    assert Next(40, 100, 7, 5) == 56;
    assert Next(56, 100, 7, 5) == 79;
    assert Next(79, 100, 7, 5) == 79;
  }

  class Backoff {
    var Lo: int
    var Hi: int
    var Num: int
    var Den: nat
    var Current: int
    var Attempt: int

    /** The struct literal Backoff{lo, hi, num/den, current, attempt}. */
    constructor (lo: int, hi: int, num: int, den: nat, current: int, attempt: int)
      requires den > 0
      ensures Lo == lo && Hi == hi && Num == num && Den == den
      ensures Current == current && Attempt == attempt
    {
      Lo, Hi, Num, Den := lo, hi, num, den;
      Current, Attempt := current, attempt;
    }

    /** Reset: back to Lo, no attempts. */
    method Reset() returns (r: int)
      modifies this
      ensures Current == Lo == r && Attempt == 0
      ensures Lo == old(Lo) && Hi == old(Hi) && Num == old(Num) && Den == old(Den)
    {
      Current := Lo;
      Attempt := 0;
      return Current;
    }

    /** Inc: one more attempt; the delay grows by Ratio, rounded up, unless that exceeds Hi. */
    method Inc() returns (r: int)
      requires Den > 0
      modifies this
      ensures Lo == old(Lo) && Hi == old(Hi) && Num == old(Num) && Den == old(Den)
      ensures Current == r == Next(old(Current), Hi, Num, Den)
      ensures Attempt == old(Attempt) + 1
      ensures old(Current) <= Hi ==> Current <= Hi
    {
      var t := Ceil(Current * Num, Den);
      if t <= Hi {
        Current := t;
      }
      Attempt := Attempt + 1;
      NextBounds(old(Current), Hi, Num, Den);
      return Current;
    }
  }
}
