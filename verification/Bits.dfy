/** Machine words as natural numbers, and as sequences of bits with the most significant bit first. */
module Bits {

  function ShiftLeft(a: nat, n: nat): (r: nat)
    ensures r >= a
  {
    if n == 0 then a else 2 * ShiftLeft(a, n - 1)
  }

  function ShiftRight(a: nat, n: nat): nat {
    if n == 0 then a else ShiftRight(a / 2, n - 1)
  }

  function Pow2(n: nat): (r: nat)
    ensures r >= 1
  {
    if n == 0 then 1 else 2 * Pow2(n - 1)
  }

  function And(a: nat, b: nat): nat {
    if a == 0 || b == 0 then 0 else 2 * And(a / 2, b / 2) + (if a % 2 == 1 && b % 2 == 1 then 1 else 0)
  }

  function Or(a: nat, b: nat): nat {
    if a == 0 then b else if b == 0 then a else 2 * Or(a / 2, b / 2) + (if a % 2 == 1 || b % 2 == 1 then 1 else 0)
  }

  /** The number made of the lowest n bits. */
  function Low(a: nat, n: nat): nat {
    if n == 0 then 0 else 2 * Low(a / 2, n - 1) + a % 2
  }

  lemma {:induction false} LowIsModulo(a: nat, n: nat)
    ensures Low(a, n) == a % Pow2(n)
  {
    if n > 0 {
      LowIsModulo(a / 2, n - 1);
      HalfFirst(a, Pow2(n - 1));
    }
  }

  lemma Multiple(x: nat, d: nat)
    ensures x >= 1 ==> x * d >= d
  {
    if x >= 1 { assert x * d == (x - 1) * d + d; }
  }

  lemma SameQuotient(q: nat, r: nat, q': nat, r': nat, d: nat)
    requires q * d + r == q' * d + r' && r < d && r' < d
    ensures q == q' && r == r'
  {
    assert q >= q' ==> (q - q') * d == q * d - q' * d;
    assert q' >= q ==> (q' - q) * d == q' * d - q * d;
    if q > q' { Multiple(q - q', d); }
    if q' > q { Multiple(q' - q, d); }
  }

  /** Halving first. */
  lemma HalfFirst(v: nat, d: nat)
    requires 0 < d
    ensures v % (2 * d) == 2 * ((v / 2) % d) + v % 2
  {
    var q, r := (v / 2) / d, (v / 2) % d;
    assert v / 2 == q * d + r;
    assert q * (2 * d) == 2 * (q * d);
    assert v == (v / (2 * d)) * (2 * d) + v % (2 * d);
    SameQuotient(q, 2 * r + v % 2, v / (2 * d), v % (2 * d), 2 * d);
  }

  lemma {:induction false} OneShifted(n: nat)
    ensures ShiftLeft(1, n) == Pow2(n)
  {
    if n > 0 { OneShifted(n - 1); }
  }

  lemma AndOdd(a: nat, k: nat)
    ensures And(a, 2 * k + 1) == 2 * And(a / 2, k) + a % 2
  {
  }

  /** Masking with n ones keeps the lowest n bits. */
  lemma {:induction false} Masked(a: nat, n: nat)
    ensures And(a, Pow2(n) - 1) == Low(a, n)
  {
    if n > 0 {
      Masked(a / 2, n - 1);
      AndOdd(a, Pow2(n - 1) - 1);
    }
  }

  /** Bits that do not overlap are added. */
  lemma {:induction false} OrAdds(h: nat, n: nat, b: nat)
    requires b < Pow2(n)
    ensures Or(ShiftLeft(h, n), b) == ShiftLeft(h, n) + b
  {
    if n > 0 { OrAdds(h, n - 1, b / 2); }
  }

  lemma {:induction false} ShiftLeftTwice(a: nat, m: nat, n: nat)
    ensures ShiftLeft(ShiftLeft(a, m), n) == ShiftLeft(a, m + n)
  {
    if n > 0 { ShiftLeftTwice(a, m, n - 1); }
  }

  lemma {:induction false} ShiftRightTwice(a: nat, m: nat, n: nat)
    ensures ShiftRight(ShiftRight(a, m), n) == ShiftRight(a, m + n)
  {
    if m > 0 { ShiftRightTwice(a / 2, m - 1, n); }
  }

  lemma {:induction false} ShiftLeftAdds(a: nat, b: nat, n: nat)
    ensures ShiftLeft(a + b, n) == ShiftLeft(a, n) + ShiftLeft(b, n)
  {
    if n > 0 { ShiftLeftAdds(a, b, n - 1); }
  }

  lemma {:induction false} ShiftLeftSmall(a: nat, m: nat, n: nat)
    requires a < Pow2(m)
    ensures ShiftLeft(a, n) + Pow2(n) <= Pow2(m + n)
  {
    if n > 0 { ShiftLeftSmall(a, m, n - 1); }
  }

  lemma {:induction false} LowSmall(a: nat, n: nat)
    ensures Low(a, n) < Pow2(n)
  {
    if n > 0 { LowSmall(a / 2, n - 1); }
  }

  /** Shifting right drops what a left shift made room for. */
  lemma {:induction false} ShiftBack(x: nat, r: nat, n: nat)
    requires r < Pow2(n)
    ensures ShiftRight(ShiftLeft(x, n) + r, n) == x && Low(ShiftLeft(x, n) + r, n) == r
  {
    if n > 0 {
      assert (ShiftLeft(x, n) + r) / 2 == ShiftLeft(x, n - 1) + r / 2;
      ShiftBack(x, r / 2, n - 1);
    }
  }

  lemma {:induction false} Pow2Grows(m: nat, n: nat)
    requires m <= n
    ensures Pow2(m) <= Pow2(n)
  {
    if m < n { Pow2Grows(m, n - 1); }
  }

  lemma {:induction false} HighAndLow(a: nat, n: nat)
    ensures a == ShiftLeft(ShiftRight(a, n), n) + Low(a, n)
  {
    if n > 0 { HighAndLow(a / 2, n - 1); }
  }

  lemma {:induction false} ShiftRightSmall(a: nat, m: nat, n: nat)
    requires a < Pow2(m + n)
    ensures ShiftRight(a, n) < Pow2(m)
  {
    if n > 0 { ShiftRightSmall(a / 2, m, n - 1); }
  }

  // ---------------------------------------------------------------- sequences of bits

  /** The lowest n bits of v. */
  function ToBits(v: nat, n: nat): (s: seq<bool>)
    ensures |s| == n
  {
    if n == 0 then [] else ToBits(v / 2, n - 1) + [v % 2 == 1]
  }

  function FromBits(s: seq<bool>): nat {
    if s == [] then 0 else 2 * FromBits(s[..|s| - 1]) + if s[|s| - 1] then 1 else 0
  }

  lemma {:induction false} FromBitsSmall(s: seq<bool>)
    ensures FromBits(s) < Pow2(|s|)
  {
    if s != [] { FromBitsSmall(s[..|s| - 1]); }
  }

  lemma {:induction false} FromBitsAdds(s: seq<bool>, t: seq<bool>)
    ensures FromBits(s + t) == ShiftLeft(FromBits(s), |t|) + FromBits(t)
  {
    if t == [] {
      assert s + t == s;
    } else {
      FromBitsAdds(s, t[..|t| - 1]);
      assert (s + t)[..|s + t| - 1] == s + t[..|t| - 1];
    }
  }

  /** Writing a number down and reading it back. */
  lemma {:induction false} ThereAndBack(v: nat, n: nat)
    ensures FromBits(ToBits(v, n)) == Low(v, n)
  {
    if n > 0 {
      ThereAndBack(v / 2, n - 1);
      assert ToBits(v, n)[..n - 1] == ToBits(v / 2, n - 1);
    }
  }

  /** The first a of a + b bits. */
  lemma {:induction false} ToBitsSplits(v: nat, a: nat, b: nat)
    ensures ToBits(v, a + b) == ToBits(ShiftRight(v, b), a) + ToBits(v, b)
  {
    if b > 0 { ToBitsSplits(v / 2, a, b - 1); }
  }

  /** Only the lowest bits matter. */
  lemma {:induction false} ToBitsOfLow(v: nat, n: nat)
    ensures ToBits(Low(v, n), n) == ToBits(v, n)
  {
    if n > 0 {
      assert Low(v, n) / 2 == Low(v / 2, n - 1) && Low(v, n) % 2 == v % 2;
      ToBitsOfLow(v / 2, n - 1);
    }
  }
}
