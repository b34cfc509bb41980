/** Machine words of the C sources as subset types of int, and the Option type. */
module Words {
  type u8 = x: int | 0 <= x < 0x100
  type u16 = x: int | 0 <= x < 0x1_0000
  type u32 = x: int | 0 <= x < 0x1_0000_0000
  type u64 = x: int | 0 <= x < 0x1_0000_0000_0000_0000

  const TWO32 := 0x1_0000_0000
  const TWO64 := 0x1_0000_0000_0000_0000

  datatype Option<+T> = None | Some(value: T)

  /** A marker without content. A fact stated as "for all k, Unfold(k) and k == 0 imply the fact" is used by
      the verifier only where Unfold(0) is asserted, which keeps large facts out of proofs that only pass
      them on. */
  predicate Unfold(k: int) { true }

  /** A left shift by n multiplies by Pow2(n). */
  function Pow2(n: nat): (p: nat)
    ensures p >= 1
  {
    if n == 0 then 1 else 2 * Pow2(n - 1)
  }

  lemma {:induction false} Pow2Add(a: nat, b: nat)
    ensures Pow2(a + b) == Pow2(a) * Pow2(b)
  {
    if a > 0 {
      Pow2Add(a - 1, b);
      assert Pow2(a + b) == 2 * Pow2(a - 1 + b);
    }
  }

  lemma {:induction false} Pow2Mono(a: nat, b: nat)
    requires a <= b
    ensures Pow2(a) <= Pow2(b)
    decreases b - a
  {
    if a < b { Pow2Mono(a + 1, b); }
  }

  /** Eight doublings. */
  lemma Pow2Byte(m: nat)
    ensures Pow2(m + 8) == 0x100 * Pow2(m)
  {
    assert Pow2(m + 1) == 2 * Pow2(m);
    assert Pow2(m + 2) == 2 * Pow2(m + 1);
    assert Pow2(m + 3) == 2 * Pow2(m + 2);
    assert Pow2(m + 4) == 2 * Pow2(m + 3);
    assert Pow2(m + 5) == 2 * Pow2(m + 4);
    assert Pow2(m + 6) == 2 * Pow2(m + 5);
    assert Pow2(m + 7) == 2 * Pow2(m + 6);
  }

  lemma Pow2Constants()
    ensures Pow2(7) == 0x80 && Pow2(8) == 0x100 && Pow2(14) == 0x4000 && Pow2(21) == 0x20_0000
    ensures Pow2(28) == 0x1000_0000 && Pow2(32) == TWO32
    ensures Pow2(35) == 0x8_0000_0000 && Pow2(63) == 0x8000_0000_0000_0000 && Pow2(64) == TWO64
    ensures Pow2(70) == 0x40_0000_0000_0000_0000
  {
    assert Pow2(4) == 16 && Pow2(1) == 2;
    assert Pow2(7) == 0x80 && Pow2(8) == 0x100;
    Pow2Add(7, 7); Pow2Add(14, 7); Pow2Add(14, 14); Pow2Add(28, 4); Pow2Add(28, 7);
    Pow2Add(28, 35); Pow2Add(32, 32); Pow2Add(63, 7);
  }

  lemma DivUnique(x: int, d: int, q: int, r: int)
    requires d > 0 && x == d * q + r && 0 <= r < d
    ensures x / d == q && x % d == r
  {
    var q', r' := x / d, x % d;
    assert x == d * q' + r';
    assert d * (q' - q) == r - r' && d * (q - q') == r' - r;
    if q' > q { NoGap(d, q' - q); }
    if q' < q { NoGap(d, q - q'); }
  }

  lemma NoGap(d: int, k: int)
    requires d > 0 && k > 0
    ensures d * k >= d
  {}

  lemma DivDiv(x: nat, a: nat, b: nat)
    requires a > 0 && b > 0
    ensures a * b > 0 && x / (a * b) == (x / a) / b
  {
    var y := x / a;
    var q, r1, r2 := y / b, x % a, y % b;
    assert x == a * y + r1 && y == b * q + r2;
    NoGap2(a, r2, b - 1);
    Regroup(a, b, q, r2);
    NoGap(a, b);
    var ab, rest := a * b, a * r2 + r1;
    assert x == ab * q + rest && 0 <= rest < ab;
    DivUnique(x, ab, q, rest);
  }

  lemma Regroup(a: int, b: int, q: int, r: int)
    ensures a * (b * q + r) == (a * b) * q + a * r && a * (b - 1) == a * b - a
  {}

  lemma NoGap2(a: nat, x: nat, y: nat)
    requires x <= y
    ensures a * x <= a * y
  {}
}
