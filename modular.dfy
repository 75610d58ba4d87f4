/** Facts about Euclidean remainders used for ring-buffer slot arithmetic:
    a ring of n slots is indexed by a 16-bit sequence number modulo n,
    where n divides 65536. */
module Modular {
  lemma MulNonNeg(a: nat, b: nat)
    ensures a * b >= 0
  {}

  lemma Distrib(d: int, n: int)
    ensures d * n == (d - 1) * n + n
  {}

  lemma ZeroMultiple(d: int, n: int)
    requires n > 0 && -n < d * n < n
    ensures d == 0
  {
    if d > 0 {
      Distrib(d, n);
      MulNonNeg(d - 1, n);
    } else if d < 0 {
      Distrib(-d, n);
    }
  }

  /** The remainder and quotient are determined by any decomposition a == q * n + r. */
  lemma ModUnique(a: int, n: int, q: int, r: int)
    requires n > 0 && 0 <= r < n && a == q * n + r
    ensures a % n == r && a / n == q
  {
    var q0, r0 := a / n, a % n;
    assert (q - q0) * n == r0 - r;
    ZeroMultiple(q - q0, n);
  }

  lemma ModShift(a: int, q: int, n: int)
    requires n > 0
    ensures (a + q * n) % n == a % n
  {
    ModUnique(a + q * n, n, a / n + q, a % n);
  }

  /** x reduced into [0, n), by repeated addition or subtraction of n. It is
      the Euclidean remainder (RemIsMod); written this way, reasoning about
      ring slots stays within linear arithmetic. */
  function Rem(x: int, n: int): (r: int)
    requires n > 0
    ensures 0 <= r < n
    decreases if x < 0 then n - x else x
  {
    if x < 0 then Rem(x + n, n) else if x < n then x else Rem(x - n, n)
  }

  lemma {:induction false} RemIsMod(x: int, n: int)
    requires n > 0
    ensures Rem(x, n) == x % n
    decreases if x < 0 then n - x else x
  {
    if x < 0 {
      RemIsMod(x + n, n);
      ModShift(x, 1, n);
    } else if x < n {
      ModUnique(x, n, 0, x);
    } else {
      RemIsMod(x - n, n);
      ModShift(x - n, 1, n);
    }
  }

  /** n divides m, for m >= 0, by repeated subtraction. */
  predicate Divides(n: int, m: int)
    requires n > 0
    decreases m
  {
    m == 0 || (m >= n && Divides(n, m - n))
  }

  lemma {:induction false} DividesMod(n: int, m: int)
    requires n > 0 && m >= 0
    ensures Divides(n, m) <==> m % n == 0
    decreases m
  {
    if m == 0 {
    } else if m < n {
      ModUnique(m, n, 0, m);
    } else {
      DividesMod(n, m - n);
      ModShift(m - n, 1, n);
    }
  }

  /** Slot k lies i places after slot `off` exactly when k is the slot of off + i. */
  lemma SlotDistance(k: int, off: int, i: int, n: int)
    requires n > 0 && 0 <= k < n && 0 <= i < n
    ensures Rem(k - off, n) == i <==> k == Rem(off + i, n)
  {
    RemIsMod(k - off, n);
    RemIsMod(off + i, n);
    ModDistance(k, off, i, n);
  }

  lemma ModDistance(k: int, off: int, i: int, n: int)
    requires n > 0 && 0 <= k < n && 0 <= i < n
    ensures (k - off) % n == i <==> k == (off + i) % n
  {
    var s := (off + i) % n;
    var q := (off + i) / n;
    assert off + i == q * n + s;
    ModUnique(s - off, n, -q, i);
    if (k - off) % n == i {
      var q1 := (k - off) / n;
      assert k - off == q1 * n + i;
      ModUnique(off + i, n, -q1, k);
    }
  }

  /** Two offsets closer than n apart land in different slots. */
  lemma SlotsDistinct(off: int, i: int, j: int, n: int)
    requires n > 0 && 0 <= i < n && 0 <= j < n && i != j
    ensures Rem(off + i, n) != Rem(off + j, n)
  {
    var k := Rem(off + i, n);
    SlotDistance(k, off, i, n);
    SlotDistance(k, off, j, n);
  }

  /** Reducing modulo 65536 first does not change the residue modulo n when n divides 65536. */
  lemma Wrap(x: int, j: int, n: int)
    requires 0 < n && 65536 % n == 0
    ensures (x % 65536 + j) % n == (x + j) % n
  {
    var m := 65536 / n;
    assert m * n == 65536;
    var q := x / 65536;
    assert x + j == (x % 65536 + j) + (q * m) * n;
    ModShift(x % 65536 + j, q * m, n);
  }

  /** Wrap, for slots. */
  lemma RemWrap(x: int, j: int, n: int)
    requires 0 < n && Divides(n, 65536)
    ensures Rem(x % 65536 + j, n) == Rem(x + j, n)
  {
    DividesMod(n, 65536);
    RemIsMod(x % 65536 + j, n);
    RemIsMod(x + j, n);
    Wrap(x, j, n);
  }
}
