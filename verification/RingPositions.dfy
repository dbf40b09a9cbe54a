/** Positions in a ring: an unbounded counter n is kept as n % (2 * bs) and lives in slot n % bs. */
module RingPositions {

  lemma DivisionIsUnique(n: nat, m: nat, q: nat, r: nat)
    requires n == m * q + r && r < m
    ensures n / m == q && n % m == r
  {
    if n / m < q { Below(n / m + 1, q, m); }
    if q < n / m { Below(q + 1, n / m, m); }
  }

  lemma Below(a: nat, b: nat, m: nat)
    requires a <= b
    ensures a * m <= b * m
  {
    assert (b - a) * m >= 0;
  }

  /** Moving a position forward by less than a whole turn. */
  lemma Forward(n: nat, k: nat, m: nat)
    requires 0 <= k < m
    ensures (n + k) % m == if n % m + k < m then n % m + k else n % m + k - m
  {
    var q, r := n / m, n % m;
    if r + k < m {
      DivisionIsUnique(n + k, m, q, r + k);
    } else {
      assert m * (q + 1) == m * q + m;
      DivisionIsUnique(n + k, m, q + 1, r + k - m);
    }
  }

  lemma Distinct(n: nat, k: nat, m: nat)
    requires 0 < k < m
    ensures (n + k) % m != n % m
  {
    Forward(n, k, m);
  }

  /** A pointer names the same slot as its counter. */
  lemma SlotOfPointer(n: nat, bs: nat)
    requires bs > 0
    ensures n % (2 * bs) % bs == n % bs
  {
    var q, p := n / (2 * bs), n % (2 * bs);
    assert n == bs * (2 * q) + p;
    if p < bs {
      DivisionIsUnique(n, bs, 2 * q, p);
    } else {
      assert bs * (2 * q + 1) == bs * (2 * q) + bs;
      DivisionIsUnique(n, bs, 2 * q + 1, p - bs);
      DivisionIsUnique(p, bs, 1, p - bs);
    }
  }

  lemma NegativeTurns(bs: nat, e: int)
    requires e < 0
    ensures bs * e + bs <= 0
  {
    assert bs * (-1 - e) >= 0;
  }

  lemma SlotBefore(n: nat, bs: nat)
    requires n > 0 && bs > 0
    ensures (n % (2 * bs) + bs - 1) % bs == (n - 1) % bs
  {
    var q, p := n / (2 * bs), n % (2 * bs);
    var d, t := (n - 1) / bs, (n - 1) % bs;
    var e := d + 1 - 2 * q;
    assert p + bs - 1 == bs * e + t by {
      assert bs * (2 * q) == 2 * bs * q;
      assert bs * e == bs * d + bs - bs * (2 * q);
    }
    if e < 0 { NegativeTurns(bs, e); }
    DivisionIsUnique(p + bs - 1, bs, e, t);
  }
}
