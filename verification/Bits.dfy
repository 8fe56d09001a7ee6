/** Machine integers as ranges of `int`, and the shift and "or" arithmetic the wire formats
    are built from. */
module Bits {

  const TWO_31: int := 0x8000_0000
  const TWO_32: int := 0x1_0000_0000
  const TWO_49: int := 0x2_0000_0000_0000
  const TWO_64: int := 0x1_0000_0000_0000_0000
  /** The largest int of a 64-bit machine, which also bounds the length of a slice. */
  const MAX_INT: int := 0x7fff_ffff_ffff_ffff

  type byte = x: int | 0 <= x < 256
  type uint32 = x: int | 0 <= x < 0x1_0000_0000
  type uint64 = x: int | 0 <= x < 0x1_0000_0000_0000_0000
  type int32 = x: int | -0x8000_0000 <= x < 0x8000_0000

  function Pow2(n: nat): (p: nat)
    ensures p >= 1
  {
    if n == 0 then 1 else 2 * Pow2(n - 1)
  }

  /** Bitwise "or" of two naturals. */
  function Or(a: nat, b: nat): nat
    decreases a + b
  {
    if a == 0 then b
    else if b == 0 then a
    else 2 * Or(a / 2, b / 2) + (if a % 2 == 1 || b % 2 == 1 then 1 else 0)
  }

  /** `x << shift` in an unsigned type of `width` bits. */
  function Shl(x: nat, shift: nat, width: nat): (r: nat)
    ensures r < Pow2(width)
  {
    (x * Pow2(shift)) % Pow2(width)
  }

  lemma {:induction false} Pow2Add(a: nat, b: nat)
    ensures Pow2(a + b) == Pow2(a) * Pow2(b)
  {
    if b > 0 {
      Pow2Add(a, b - 1);
      assert Pow2(a + b) == 2 * Pow2(a + (b - 1));
    }
  }

  lemma Pow2Values()
    ensures Pow2(7) == 128 && Pow2(8) == 256 && Pow2(14) == 0x4000
    ensures Pow2(28) == 0x1000_0000 && Pow2(32) == TWO_32
    ensures Pow2(49) == TWO_49 && Pow2(56) == 0x100_0000_0000_0000 && Pow2(64) == TWO_64
  {
    assert Pow2(4) == 16;
    assert Pow2(7) == 128;
    Pow2Add(7, 7);
    Pow2Add(14, 14);
    Pow2Add(28, 4);
    Pow2Add(28, 7);
    Pow2Add(35, 14);
    Pow2Add(28, 28);
    Pow2Add(32, 32);
  }

  lemma {:induction false} Pow2Monotone(a: nat, b: nat)
    requires a <= b
    ensures Pow2(a) <= Pow2(b)
  {
    if a < b {
      Pow2Monotone(a, b - 1);
    }
  }

  /** "Or" adds when the operands have no bit in common: one is below bit `s`, the other is a
      multiple of `2^s`. */
  lemma {:induction false} OrDisjoint(x: nat, m: nat, s: nat)
    requires x < Pow2(s)
    ensures Or(x, m * Pow2(s)) == x + m * Pow2(s)
  {
    if s > 0 && x > 0 && m > 0 {
      var half := Pow2(s - 1);
      var y := m * Pow2(s);
      assert y == 2 * (m * half);
      assert y / 2 == m * half && y % 2 == 0;
      OrDisjoint(x / 2, m, s - 1);
      assert Or(x, y) == 2 * Or(x / 2, y / 2) + x % 2;
    }
  }

  lemma ModOfMultiple(y: nat, p: nat, q: nat)
    requires p > 0 && q > 0
    ensures p * q > 0 && (y * p) % (p * q) == p * (y % q)
  {
    var d, r := y / q, y % q;
    assert y == q * d + r;
    assert y * p == (p * q) * d + p * r;
    assert p * r < p * q by { MulLess(p, r, q); }
    ModUnique(y * p, p * q, d, p * r);
  }

  lemma MulLess(p: nat, r: nat, q: nat)
    requires p > 0 && r < q
    ensures p * r < p * q
  {
    assert p * q == p * r + p * (q - r);
  }

  lemma QuotientUnique(n: nat, d: nat, r: nat, d': nat, r': nat)
    requires r < n && r' < n && n * d + r == n * d' + r'
    ensures d == d' && r == r'
  {
    if d < d' {
      MulGap(n, d, d');
    } else if d' < d {
      MulGap(n, d', d);
    }
  }

  lemma MulGap(n: nat, d: nat, e: nat)
    requires d < e
    ensures n * e >= n * d + n
  {
    assert n * e == n * d + n * (e - d);
    assert n * (e - d) == n + n * (e - d - 1);
  }

  lemma ModUnique(a: nat, n: nat, d: nat, r: nat)
    requires n > 0 && a == n * d + r && r < n
    ensures a % n == r && a / n == d
  {
    QuotientUnique(n, d, r, a / n, a % n);
  }

  lemma ModSmall(a: nat, n: nat)
    requires a < n
    ensures a % n == a
  {
  }

  lemma AddMod(a: nat, b: nat, n: nat)
    requires n > 0 && a % n + b % n < n
    ensures (a + b) % n == a % n + b % n
  {
    assert a == n * (a / n) + a % n && b == n * (b / n) + b % n;
    assert n * (a / n + b / n) == n * (a / n) + n * (b / n);
    ModUnique(a + b, n, a / n + b / n, a % n + b % n);
  }

  /** What a shifted group is once truncated to `width` bits. */
  lemma ShlGroup(y: nat, shift: nat, width: nat)
    ensures shift <= width ==> Shl(y, shift, width) == (y % Pow2(width - shift)) * Pow2(shift)
    ensures shift >= width ==> Shl(y, shift, width) == 0
  {
    hide Pow2, Shl;
    if shift < width {
      ShlInside(y, shift, width);
    } else {
      ShlBeyond(y, shift, width);
      assert shift == width ==> (y % Pow2(0)) * Pow2(shift) == 0 by { Pow2Zero(y); }
    }
  }

  lemma Pow2Zero(y: nat)
    ensures y % Pow2(0) == 0
  {
  }

  lemma ShlInside(y: nat, shift: nat, width: nat)
    requires shift <= width
    ensures Shl(y, shift, width) == (y % Pow2(width - shift)) * Pow2(shift)
  {
    hide Pow2;
    Pow2Add(shift, width - shift);
    ModOfMultiple(y, Pow2(shift), Pow2(width - shift));
  }

  lemma ShlBeyond(y: nat, shift: nat, width: nat)
    requires shift >= width
    ensures Shl(y, shift, width) == 0
  {
    hide Pow2;
    Pow2Add(width, shift - width);
    var w, d := Pow2(width), y * Pow2(shift - width);
    assert y * (w * Pow2(shift - width)) == w * d;
    ModUnique(w * d, w, d, 0);
  }

  lemma NextMultiple(x: nat, m: nat, s: nat, q: nat)
    requires x < s && m < q
    ensures x + m * s < s * q
  {
    assert s * q == m * s + (q - m) * s;
    assert (q - m) * s >= s by { assert (q - m) * s == s + (q - m - 1) * s; }
  }

  lemma OrGroupInside(x: nat, y: nat, bits: nat, shift: nat, width: nat)
    requires x < Pow2(shift) && y < Pow2(bits) && shift <= width
    ensures Or(x, Shl(y, shift, width)) == x + Shl(y, shift, width)
    ensures Or(x, Shl(y, shift, width)) < Pow2(width)
    ensures Or(x, Shl(y, shift, width)) < Pow2(shift + bits)
  {
    var s, q := Pow2(shift), Pow2(width - shift);
    var m := y % q;
    assert Shl(y, shift, width) == m * s by { ShlGroup(y, shift, width); }
    assert Or(x, m * s) == x + m * s by { OrDisjoint(x, m, shift); }
    assert x + m * s < Pow2(width) by {
      Pow2Add(shift, width - shift);
      NextMultiple(x, m, s, q);
    }
    assert x + m * s < Pow2(shift + bits) by {
      Pow2Add(shift, bits);
      ModAtMost(y, q);
      NextMultiple(x, m, s, Pow2(bits));
    }
  }

  lemma ModAtMost(y: nat, q: nat)
    requires q > 0
    ensures y % q <= y
  {
    assert y == q * (y / q) + y % q;
    assert q * (y / q) >= 0;
  }

  /** Accumulating one group of `bits` bits at `shift` adds it, and stays within both the bits
      read so far and the width of the accumulator. */
  lemma OrGroup(x: nat, y: nat, bits: nat, shift: nat, width: nat)
    requires x < Pow2(shift) && x < Pow2(width) && y < Pow2(bits)
    ensures Or(x, Shl(y, shift, width)) == x + Shl(y, shift, width)
    ensures Or(x, Shl(y, shift, width)) < Pow2(width)
    ensures Or(x, Shl(y, shift, width)) < Pow2(shift + bits)
  {
    if shift <= width {
      OrGroupInside(x, y, bits, shift, width);
    } else {
      ShlGroup(y, shift, width);
      assert Or(x, 0) == x;
      Pow2Monotone(shift, shift + bits);
    }
  }
}
