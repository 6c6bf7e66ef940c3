/** std::bitset<n> as a sequence of n booleans, bit k at index k. */
module Bits {

  function Pow2(n: nat): (r: nat)
    ensures r >= 1
  {
    if n == 0 then 1 else 2 * Pow2(n - 1)
  }

  /** to_ulong(): bit k weighs 2^k. */
  function Value(b: seq<bool>): (r: nat)
    ensures r < Pow2(|b|)
  {
    if b == [] then 0 else (if b[0] then 1 else 0) + 2 * Value(b[1..])
  }

  /** bitset<n>(v): the n low-order bits of v. */
  function FromNat(v: nat, n: nat): (r: seq<bool>)
    ensures |r| == n
  {
    if n == 0 then [] else [v % 2 == 1] + FromNat(v / 2, n - 1)
  }

  /** Building a bitset from to_ulong() gives the same bits back. */
  lemma {:induction false} FromNatOfValue(b: seq<bool>)
    ensures FromNat(Value(b), |b|) == b
    decreases |b|
  {
    if b != [] {
      var v := Value(b);
      assert v % 2 == 1 <==> b[0];
      assert v / 2 == Value(b[1..]);
      FromNatOfValue(b[1..]);
    }
  }

  /** The constructor keeps exactly the low n bits: to_ulong() of bitset<n>(v) is v modulo 2^n. */
  lemma {:induction false} ValueOfFromNat(v: nat, n: nat)
    ensures Value(FromNat(v, n)) == v % Pow2(n)
    decreases n
  {
    if n > 0 {
      ValueOfFromNat(v / 2, n - 1);
      var p := Pow2(n - 1);
      var r := FromNat(v, n);
      assert r[1..] == FromNat(v / 2, n - 1);
      assert Value(r) == v % 2 + 2 * ((v / 2) % p);
      ModTwice(v, p);
    }
  }

  lemma ModTwice(v: nat, p: nat)
    requires p >= 1
    ensures v % 2 + 2 * ((v / 2) % p) == v % (2 * p)
  {
    var q := (v / 2) / p;
    var m := (v / 2) % p;
    var r := v % 2 + 2 * m;
    assert v / 2 == q * p + m;
    assert v == v % 2 + 2 * (v / 2);
    assert 2 * (q * p + m) == q * (2 * p) + 2 * m;
    assert v == q * (2 * p) + r;
    ModUnique(v, 2 * p, q, r);
  }

  lemma ModUnique(v: int, d: int, q: int, r: int)
    requires d > 0 && 0 <= r < d && v == q * d + r
    ensures v % d == r
  {
    var q' := v / d;
    var r' := v % d;
    assert v == q' * d + r';
    DistinctQuotients(q, q', d, r, r');
  }

  lemma DistinctQuotients(q: int, q': int, d: int, r: int, r': int)
    requires d > 0 && 0 <= r < d && 0 <= r' < d && q * d + r == q' * d + r'
    ensures r == r'
  {
    if q > q' {
      assert (q - q') * d == q * d - q' * d;
      MulAtLeast(q - q', d);
    } else if q < q' {
      assert (q' - q) * d == q' * d - q * d;
      MulAtLeast(q' - q, d);
    }
  }

  lemma MulAtLeast(k: int, d: int)
    requires k >= 1 && d > 0
    ensures k * d >= d
  {
    assert k * d == (k - 1) * d + d;
  }

  lemma Pow2Of21()
    ensures Pow2(21) == 0x20_0000
  {
    assert Pow2(7) == 128;
    assert Pow2(14) == 0x4000;
  }

  lemma Pow2Of7()
    ensures Pow2(7) == 128
  {
  }
}
