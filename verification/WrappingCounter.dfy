/** A 16-bit counter that runs in steps of equal size and wraps: how far it gets. */
module WrappingCounter {

  const WRAP := 0x1_0000

  /** The counter after k steps of size m from d on. */
  function Counter(d: nat, m: nat, k: nat): nat {
    (d + k * m) % WRAP
  }

  function Pow2(j: nat): nat {
    if j == 0 then 1 else 2 * Pow2(j - 1)
  }

  /** The largest power of two that divides m, up to the wrap. */
  function LowBit(m: nat): (r: nat)
    ensures r > 0
  {
    if m == 0 then WRAP else if m % 2 == 1 then 1 else 2 * LowBit(m / 2)
  }

  /** The greatest value the counter can take: the last one below the wrap that differs from d by
      a multiple of the lowest bit of the step. */
  function Top(d: nat, m: nat): int {
    if m == 0 then d else WRAP - LowBit(m) + d % LowBit(m)
  }

  /** m is its lowest bit times an odd number, and that bit divides the wrap. */
  lemma {:induction false} LowBitSplits(m: nat) returns (odd: nat, j: nat)
    requires 0 < m < WRAP
    ensures m == LowBit(m) * odd && odd % 2 == 1 && LowBit(m) * Pow2(j) == WRAP && 0 < LowBit(m) <= m
  {
    if m % 2 == 1 {
      odd, j := m, 16;
      Pow16();
    } else {
      odd, j := LowBitSplits(m / 2);
      var l := LowBit(m / 2);
      assert m == 2 * (l * odd) == (2 * l) * odd;
      assert Pow2(0) == 1 && l < WRAP;
      assert (2 * l) * Pow2(j - 1) == l * Pow2(j) by { Regroup(l, Pow2(j - 1)); }
      j := j - 1;
    }
  }

  lemma {:induction false} Regroup(a: nat, b: nat)
    ensures (2 * a) * b == a * (2 * b)
  {}

  lemma {:induction false} Pow16()
    ensures Pow2(16) == WRAP
  {
    assert Pow2(4) == 16 && Pow2(8) == 16 * Pow2(4) && Pow2(12) == 16 * Pow2(8) && Pow2(16) == 16 * Pow2(12);
  }

  /** Some multiple of an odd number is one below a multiple of a power of two: bit by bit, the
      factor is raised whenever the next bit is wrong. */
  lemma {:induction false} OddFactor(odd: nat, j: nat) returns (k: nat, c: nat)
    requires odd % 2 == 1
    ensures k * odd + 1 == c * Pow2(j)
  {
    if j == 0 {
      k, c := 0, 1;
    } else {
      var k', c' := OddFactor(odd, j - 1);
      var h := Pow2(j - 1);
      if c' % 2 == 0 {
        k, c := k', c' / 2;
        assert c' == 2 * c;
        Regroup(c, h);
      } else {
        k, c := k' + h, (c' + odd) / 2;
        assert c' + odd == 2 * c;
        assert k * odd + 1 == c' * h + h * odd == (c' + odd) * h by { Distribute(k', h, odd); Distribute(c', odd, h); }
        Regroup(c, h);
      }
    }
  }

  lemma {:induction false} Distribute(a: int, b: int, c: int)
    ensures (a + b) * c == a * c + b * c == a * c + c * b
  {}

  // ---- products ----

  lemma {:induction false} Swap(a: int, b: int, c: int)
    ensures a * (b * c) == b * (a * c)
  {}

  lemma {:induction false} Remainder(x: int, t: int, r: int)
    requires x == t * WRAP + r && 0 <= r < WRAP
    ensures x % WRAP == r
  {}

  lemma {:induction false} CommonFactor(k: int, g: int, odd: int, t: int, q: int)
    ensures k * (g * odd) - t * (g * q) == g * (k * odd - t * q)
  {
    Swap(k, g, odd);
    Swap(t, g, q);
    Distribute(k * odd, -(t * q), g);
  }

  /** A multiple of g below g * q is at most the one before it. */
  lemma {:induction false} MultipleBelow(g: nat, y: int, q: nat)
    requires g * y < g * q
    ensures g * y <= g * q - g
  {
    if y >= q {
      Monotone(g, y, q);
      assert false;
    }
    Monotone(g, q - 1, y);
    Distribute(q, -1, g);
  }

  lemma {:induction false} Monotone(g: nat, a: int, b: int)
    requires a >= b
    ensures g * a >= g * b
  {}

  lemma {:induction false} Quotient(x: int, g: nat, y: int, r: nat)
    requires x == g * y + r && r < g
    ensures x % g == r
  {
    var t := x / g;
    assert x == g * t + x % g;
    Distribute(y, -t, g);
    if t < y {
      Monotone(g, y - t, 1);
      assert false;
    }
    if t > y {
      Monotone(g, t - y, 1);
      assert false;
    }
  }

  // ---- how far the counter gets ----

  /** Some number of steps takes the counter back by its lowest bit. */
  lemma {:induction false} StepsBack(m: nat) returns (k: nat, c: nat)
    requires 0 < m < WRAP
    ensures k * m == c * WRAP - LowBit(m) && c > 0
  {
    var odd, j := LowBitSplits(m);
    k, c := OddFactor(odd, j);
    var g := LowBit(m);
    assert k * m == k * (g * odd) == g * (k * odd) by { Swap(k, g, odd); }
    assert g * (k * odd) + g == g * (k * odd + 1) == g * (c * Pow2(j)) == c * (g * Pow2(j)) by { Distribute(k * odd, 1, g); Swap(g, c, Pow2(j)); }
  }

  lemma {:induction false} Parts(d: nat, g: nat) returns (q: nat)
    requires g > 0
    ensures d == g * q + d % g
  {
    q := d / g;
  }

  lemma {:induction false} ManyBack(m: int, back: int, c: int, g: int, q: int)
    requires back * m == c * WRAP - g
    ensures ((q + 1) * back) * m == ((q + 1) * c) * WRAP - (g * q + g)
  {
    Group(q + 1, back, m);
    Group(q + 1, c, WRAP);
    Distribute(c * WRAP, -g, q + 1);
    Distribute(q, 1, g);
  }

  lemma {:induction false} Lands(d: nat, x: int, t: int, gq: int, g: nat, r: nat)
    requires d == gq + r && x == t * WRAP - (gq + g) && r < g <= WRAP
    ensures (d + x) % WRAP == WRAP - g + r
  {
    Remainder(d + x, t - 1, WRAP - g + r);
  }

  /** The counter reaches its greatest value. */
  lemma {:induction false} CounterReaches(d: nat, m: nat) returns (k: nat)
    requires 0 < m < WRAP
    ensures Counter(d, m, k) == Top(d, m)
  {
    var g := LowBit(m);
    var back, c := StepsBack(m);
    var q := Parts(d, g);
    var odd, j := LowBitSplits(m);
    ManyBack(m, back, c, g, q);
    k := (q + 1) * back;
    Lands(d, k * m, (q + 1) * c, g * q, g, d % g);
  }

  lemma {:induction false} Group(a: int, b: int, c: int)
    ensures (a * b) * c == a * (b * c)
  {}

  /** Fewer steps than the wrap do. */
  lemma {:induction false} CounterRepeats(d: nat, m: nat, k: nat)
    ensures Counter(d, m, k % WRAP) == Counter(d, m, k)
  {
    var t, rest := k / WRAP, k % WRAP;
    assert k == WRAP * t + rest;
    Distribute(WRAP * t, rest, m);
    Group(WRAP, t, m);
    var x := d + rest * m;
    Distribute(t * m, x / WRAP, WRAP);
    Remainder(d + k * m, t * m + x / WRAP, x % WRAP);
  }

  /** The lowest bit divides the wrap and every step: so d and any later value leave the same
      rest. */
  lemma {:induction false} SameRest(d: nat, m: nat, k: nat, t: nat) returns (y: int, q: int)
    requires 0 < m < WRAP
    ensures d + k * m - t * WRAP == LowBit(m) * y + d % LowBit(m) && LowBit(m) * q == WRAP
  {
    var odd, j := LowBitSplits(m);
    var g := LowBit(m);
    var p := Parts(d, g);
    q := Pow2(j);
    y := p + (k * odd - t * q);
    CommonFactor(k, g, odd, t, q);
    Distribute(p, k * odd - t * q, g);
  }

  lemma {:induction false} RestBound(x: nat, g: nat, y: int, r: nat, q: nat)
    requires x == g * y + r && x < g * q
    ensures x <= g * q - g + r
  {
    MultipleBelow(g, y, q);
  }

  /** The counter never passes its greatest value. */
  lemma {:induction false} CounterBounded(d: nat, m: nat, k: nat)
    requires m < WRAP && d < WRAP
    ensures Counter(d, m, k) <= Top(d, m)
  {
    if m == 0 {
      assert k * m == 0;
    } else {
      var t := (d + k * m) / WRAP;
      var y, q := SameRest(d, m, k, t);
      assert Counter(d, m, k) == d + k * m - t * WRAP;
      if q < 0 {
        Monotone(LowBit(m), 0, q);
        assert false;
      }
      RestBound(Counter(d, m, k), LowBit(m), y, d % LowBit(m), q);
    }
  }

  /** The counter gets as far as size if and only if its greatest value does, and then within
      fewer steps than the wrap. */
  lemma {:induction false} ReachesIff(d: nat, m: nat, size: nat)
    requires m < WRAP && d < WRAP
    ensures (exists k: nat :: Counter(d, m, k) >= size) <==> size <= Top(d, m)
    ensures (exists k: nat :: k < WRAP && Counter(d, m, k) >= size) <==> size <= Top(d, m)
  {
    if k: nat :| Counter(d, m, k) >= size { CounterBounded(d, m, k); }
    if m == 0 {
      assert Counter(d, 0, 0) == d;
    } else {
      var k := CounterReaches(d, m);
      CounterRepeats(d, m, k);
    }
  }

  lemma {:induction false} CounterNext(d: nat, m: nat, k: nat)
    ensures Counter(d, m, k + 1) == (Counter(d, m, k) + m) % WRAP
  {
    Distribute(k, 1, m);
    var t := (d + k * m) / WRAP;
    assert d + k * m == t * WRAP + Counter(d, m, k);
    var x := Counter(d, m, k) + m;
    Distribute(t, x / WRAP, WRAP);
    Remainder(d + (k + 1) * m, t + x / WRAP, x % WRAP);
  }

  /** A step does not change the greatest value. */
  lemma {:induction false} TopStays(d: nat, m: nat)
    requires m < WRAP && d < WRAP
    ensures d <= Top(d, m) && Top((d + m) % WRAP, m) == Top(d, m)
  {
    CounterBounded(d, m, 0);
    assert Counter(d, m, 0) == d;
    if m > 0 {
      var t := (d + m) / WRAP;
      var y, q := SameRest(d, m, 1, t);
      Quotient((d + m) % WRAP, LowBit(m), y, d % LowBit(m));
    }
  }
}
