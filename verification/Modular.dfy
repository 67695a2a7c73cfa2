/** Arithmetic modulo a positive number. */
module Modular {

  lemma MulAtLeast(k: int, m: int)
    requires k >= 1 && m >= 0
    ensures k * m >= m
  {
  }

  // Quotient and remainder are determined by the equation between them.
  lemma QuotientUnique(m: int, q: int, r: int, q': int, r': int)
    requires m > 0 && q * m + r == q' * m + r' && 0 <= r < m && 0 <= r' < m
    ensures q == q' && r == r'
  {
    assert (q - q') * m == q * m - q' * m;
    assert (q' - q) * m == q' * m - q * m;
    if q > q' {
      MulAtLeast(q - q', m);
    } else if q < q' {
      MulAtLeast(q' - q, m);
    }
  }

  lemma DivMod(a: int, m: int)
    requires m > 0
    ensures a == (a / m) * m + a % m && 0 <= a % m < m
  {
  }

  lemma ModUnique(a: int, m: int, q: int, r: int)
    requires m > 0 && a == q * m + r && 0 <= r < m
    ensures a % m == r && a / m == q
  {
    DivMod(a, m);
    QuotientUnique(m, a / m, a % m, q, r);
  }

  // The residue of a number between -m and m.
  lemma SmallMod(d: int, m: int)
    requires m > 0 && -m < d < m
    ensures d % m == if d >= 0 then d else d + m
  {
    if d >= 0 {
      ModUnique(d, m, 0, d);
    } else {
      ModUnique(d, m, -1, d + m);
    }
  }

  lemma ModStep(a: int, m: int)
    requires m > 1 && a % m != 0
    ensures (a - 1) % m == a % m - 1
  {
    DivMod(a, m);
    ModUnique(a - 1, m, a / m, a % m - 1);
  }

  // Shifting by a multiple of the modulus.
  lemma ModShift(a: int, m: int, k: int)
    requires m > 0
    ensures (a + k * m) % m == a % m && (a + k * m) / m == a / m + k
  {
    DivMod(a, m);
    assert (a / m + k) * m == (a / m) * m + k * m;
    ModUnique(a + k * m, m, a / m + k, a % m);
  }

  // Two offsets below the modulus reach different residues.
  lemma OffsetsDiffer(base: int, m: int, i: int, j: int)
    requires m > 0 && 0 <= i < m && 0 <= j < m && (base + i) % m == (base + j) % m
    ensures i == j
  {
    var a, b := base + i, base + j;
    DivMod(a, m);
    DivMod(b, m);
    var k := a / m - b / m;
    assert k * m == (a / m) * m - (b / m) * m;
    assert (-k) * m == -(k * m);
    if k >= 1 {
      MulAtLeast(k, m);
    } else if k <= -1 {
      MulAtLeast(-k, m);
    }
  }

  lemma OffsetsAgree(base: int, m: int, i: int, j: int)
    requires m > 0 && 0 <= i < m && 0 <= j < m
    ensures (base + i) % m == (base + j) % m <==> i == j
  {
    if (base + i) % m == (base + j) % m {
      OffsetsDiffer(base, m, i, j);
    }
  }

  // Going from base by the residue of x - base arrives at x.
  lemma ReachedBack(base: int, x: int, m: int)
    requires 0 <= x < m
    ensures (base + (x - base) % m) % m == x
  {
    var q := (x - base) / m;
    DivMod(x - base, m);
    assert base + (x - base) % m == x + (-q) * m;
    ModShift(x, m, -q);
    ModUnique(x, m, 0, x);
  }

  // A successor that wraps to zero at the modulus is plus one modulo it.
  lemma WrapIsMod(v: int, w: int, m: int)
    requires 0 <= v < m && w == if v + 1 == m then 0 else v + 1
    ensures w == (v + 1) % m
  {
    if v + 1 == m {
      ModUnique(m, m, 1, 0);
    } else {
      ModUnique(v + 1, m, 0, v + 1);
    }
  }

  // Offsets from the successor are offsets from the number, moved on by one.
  lemma OffsetFromNext(v: int, w: int, m: int, i: int)
    requires 0 <= v < m && w == if v + 1 == m then 0 else v + 1
    ensures (w + i) % m == (v + i + 1) % m
  {
    if v + 1 == m {
      ModShift(i, m, 1);
    }
  }
}
