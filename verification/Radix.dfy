/** Digit arithmetic of the indirection tree: how many relative pages a page of
    a given level covers, and how an offset is split into a slot and a rest. */
module Radix {
  // PageSize / sizeof(PageInfo) and PageSize / sizeof(AbsolutePagePtr)
  const INFO_POINTERS: nat := 128
  const INDIRECTION_POINTERS: nat := 512

  // Relative page pointers are 64-bit and PageSize is 2^12, so there are 2^52 of them.
  const RELATIVE_PAGES: nat := 0x10_0000_0000_0000
  const MAX_LEVEL: nat := 6

  /** Number of slots of a page: a segment page has none. */
  function Fanout(level: nat): nat {
    if level == 0 then 0 else if level == 1 then INFO_POINTERS else INDIRECTION_POINTERS
  }

  /** Number of relative pages below a page of this level (a segment page covers itself). */
  function Covered(level: nat): (area: nat)
    ensures area > 0
  {
    if level == 0 then 1 else Fanout(level) * Covered(level - 1)
  }

  lemma CoveredTable()
    ensures Covered(1) == 128 && Covered(2) == 0x1_0000 && Covered(3) == 0x200_0000
    ensures Covered(4) == 0x4_0000_0000 && Covered(5) == 0x800_0000_0000 && Covered(6) == RELATIVE_PAGES
  {
    assert Covered(0) == 1;
    assert Covered(1) == 128;
    assert Covered(2) == 512 * Covered(1);
    assert Covered(3) == 512 * Covered(2);
    assert Covered(4) == 512 * Covered(3);
    assert Covered(5) == 512 * Covered(4);
    assert Covered(6) == 512 * Covered(5);
  }

  lemma {:induction false} CoveredMonotonic(low: nat, high: nat)
    requires low <= high
    ensures Covered(low) <= Covered(high)
    decreases high - low
  {
    if low < high {
      CoveredMonotonic(low, high - 1);
      assert Covered(high) == Fanout(high) * Covered(high - 1);
      assert Fanout(high) >= 1;
      MulGrows(Fanout(high), Covered(high - 1));
    }
  }

  lemma MulGrows(f: nat, a: nat)
    requires f >= 1
    ensures f * a >= a
  {
    assert f * a == (f - 1) * a + a;
  }

  /** The slot that an offset falls in, at a page of this level, by repeated subtraction. */
  function SlotOf(level: nat, offset: nat): nat
    requires level >= 1
    decreases offset
  {
    if offset < Covered(level - 1) then 0 else 1 + SlotOf(level, offset - Covered(level - 1))
  }

  /** What is left of the offset below that slot. */
  function RestOf(level: nat, offset: nat): (rest: nat)
    requires level >= 1
    ensures rest < Covered(level - 1)
    decreases offset
  {
    if offset < Covered(level - 1) then offset else RestOf(level, offset - Covered(level - 1))
  }

  /** Slot and rest are quotient and remainder, and they rebuild the offset. */
  lemma {:induction false} SlotIsQuotient(level: nat, offset: nat)
    requires level >= 1
    ensures offset == SlotOf(level, offset) * Covered(level - 1) + RestOf(level, offset)
    ensures SlotOf(level, offset) == offset / Covered(level - 1)
    ensures RestOf(level, offset) == offset % Covered(level - 1)
    decreases offset
  {
    var a := Covered(level - 1);
    if offset >= a {
      SlotIsQuotient(level, offset - a);
      assert (SlotOf(level, offset - a) + 1) * a == SlotOf(level, offset - a) * a + a;
    }
    DivUnique(offset, a, SlotOf(level, offset), RestOf(level, offset));
  }

  /** An offset below the covered area falls in one of the slots. */
  lemma Split(level: nat, offset: nat)
    requires level >= 1 && offset < Covered(level)
    ensures SlotOf(level, offset) < Fanout(level)
    ensures offset == SlotOf(level, offset) * Covered(level - 1) + RestOf(level, offset)
  {
    SlotIsQuotient(level, offset);
    if SlotOf(level, offset) >= Fanout(level) {
      MulMono(Fanout(level), SlotOf(level, offset), Covered(level - 1));
      assert false;
    }
  }

  /** Slot and rest are the only way to split an offset. */
  lemma Join(level: nat, slot: nat, rest: nat)
    requires level >= 1 && slot < Fanout(level) && rest < Covered(level - 1)
    ensures 0 <= slot * Covered(level - 1) + rest < Covered(level)
    ensures SlotOf(level, slot * Covered(level - 1) + rest) == slot
    ensures RestOf(level, slot * Covered(level - 1) + rest) == rest
  {
    var a := Covered(level - 1);
    MulMono(0, slot, a);
    MulMono(slot + 1, Fanout(level), a);
    assert (slot + 1) * a == slot * a + a;
    SlotIsQuotient(level, slot * a + rest);
    DivUnique(slot * a + rest, a, slot, rest);
  }

  lemma MulMono(x: int, y: int, a: nat)
    requires x <= y
    ensures x * a <= y * a
  {
    assert y * a - x * a == (y - x) * a;
    assert (y - x) * a >= 0;
  }

  lemma DivUnique(n: nat, a: nat, q: int, r: nat)
    requires a > 0 && r < a && n == q * a + r
    ensures n / a == q && n % a == r
  {
    var d := n / a - q;
    assert n == n / a * a + n % a;
    assert d * a == r - n % a;
    if d >= 1 {
      MulMono(1, d, a);
      assert false;
    }
    if d <= -1 {
      MulMono(d, -1, a);
      assert false;
    }
  }

  // ----- the loops of the source -----

  /** The coverage loop of fetchPageInfoPagePtr; below 2^52 pages the 64-bit product does not wrap. */
  method CoveredArea(level: nat) returns (area: nat)
    requires 1 <= level
    ensures area == Covered(level)
    ensures level <= MAX_LEVEL ==> area <= RELATIVE_PAGES && area * INDIRECTION_POINTERS < 0x1_0000_0000_0000_0000
  {
    area := INFO_POINTERS;
    for l := 2 to level + 1
      invariant area == Covered(l - 1)
    {
      area := area * INDIRECTION_POINTERS;
    }
    if level <= MAX_LEVEL {
      CoveredMonotonic(level, MAX_LEVEL);
      CoveredTable();
    }
  }

  lemma DivDiv(n: nat, a: nat, b: nat)
    requires a > 0 && b > 0
    ensures a * b > 0 && n / a / b == n / (a * b)
  {
    var q := n / a;
    var m := q / b;
    DivBack(n, a);
    DivBack(q, b);
    Regroup(m, a, b, q % b);
    MulMono(q % b, b - 1, a);
    MulMono(1, a, b);
    DivUnique(n, a * b, m, (q % b) * a + n % a);
  }

  lemma DivBack(n: nat, a: nat)
    requires a > 0
    ensures n == n / a * a + n % a && n % a < a
  {
  }

  lemma Regroup(m: int, a: int, b: int, c: int)
    ensures (m * b + c) * a == m * (a * b) + c * a && (b - 1) * a == a * b - a
  {
    assert m * (a * b) == m * (b * a) == m * b * a;
  }

  /** The repeated division of fetchPageInfoPagePtrFromIndirection picks the digit of this level. */
  method LocalOffset(level: nat, offset: nat) returns (local: nat)
    requires level >= 2
    ensures local == SlotOf(level, offset)
  {
    SlotIsQuotient(level, offset);
    local := offset / INFO_POINTERS;
    for l := 2 to level
      invariant local == offset / Covered(l - 1)
    {
      DivDiv(offset, Covered(l - 1), INDIRECTION_POINTERS);
      local := local / INDIRECTION_POINTERS;
    }
  }

  // ----- the mask step -----

  function Pow2(k: nat): (p: nat)
    ensures p > 0
  {
    if k == 0 then 1 else 2 * Pow2(k - 1)
  }

  /** Bitwise and, on unbounded naturals. */
  function And(x: nat, y: nat): nat
    decreases x
  {
    if x == 0 || y == 0 then 0 else x % 2 * (y % 2) + 2 * And(x / 2, y / 2)
  }

  /** Masking with 2^k - 1 is the remainder by 2^k. */
  lemma {:induction false} MaskIsRemainder(x: nat, k: nat)
    ensures And(x, Pow2(k) - 1) == x % Pow2(k)
    decreases k
  {
    hide And, Pow2;
    if k == 0 {
      AndNone(x);
    } else {
      MaskIsRemainder(x / 2, k - 1);
      Pow2Next(k - 1);
      AndOdd(x, Pow2(k - 1));
      HalveRemainder(x, Pow2(k - 1));
    }
  }

  lemma AndNone(x: nat)
    ensures Pow2(0) == 1 && And(x, 0) == 0
  {
  }

  lemma Pow2Next(k: nat)
    ensures Pow2(k + 1) == 2 * Pow2(k)
  {
  }

  lemma AndOdd(x: nat, p: nat)
    requires p > 0
    ensures And(x, 2 * p - 1) == x % 2 + 2 * And(x / 2, p - 1)
  {
    var y := 2 * p - 1;
    assert y % 2 == 1 && y / 2 == p - 1;
  }

  lemma HalveRemainder(x: nat, p: nat)
    requires p > 0
    ensures x % (2 * p) == x % 2 + 2 * (x / 2 % p)
  {
    var h, b := x / 2, x % 2;
    var q, r := h / p, h % p;
    assert h == q * p + r;
    assert q * (2 * p) == 2 * (q * p);
    DivUnique(x, 2 * p, q, 2 * r + b);
  }

  lemma {:induction false} Pow2Nine(k: nat)
    ensures Pow2(k + 9) == 512 * Pow2(k)
  {
    assert Pow2(k + 9) == 2 * Pow2(k + 8);
    assert Pow2(k + 8) == 2 * Pow2(k + 7);
    assert Pow2(k + 7) == 2 * Pow2(k + 6);
    assert Pow2(k + 6) == 2 * Pow2(k + 5);
    assert Pow2(k + 5) == 2 * Pow2(k + 4);
    assert Pow2(k + 4) == 2 * Pow2(k + 3);
    assert Pow2(k + 3) == 2 * Pow2(k + 2);
    assert Pow2(k + 2) == 2 * Pow2(k + 1);
    assert Pow2(k + 1) == 2 * Pow2(k);
  }

  lemma {:induction false} CoveredIsPowerOfTwo(level: nat)
    requires level >= 1
    ensures Covered(level) == Pow2(9 * level - 2)
  {
    if level == 1 {
      assert Pow2(7) == 2 * Pow2(6) && Pow2(6) == 2 * Pow2(5) && Pow2(5) == 2 * Pow2(4);
      assert Pow2(4) == 2 * Pow2(3) && Pow2(3) == 2 * Pow2(2) && Pow2(2) == 2 * Pow2(1);
    } else {
      CoveredIsPowerOfTwo(level - 1);
      Pow2Nine(9 * (level - 1) - 2);
    }
  }

  /** `indirectionOffset & (coveredArea - 1)` is the rest of the offset below its slot. */
  lemma MaskStep(level: nat, offset: nat)
    requires level >= 2
    ensures And(offset, Covered(level - 1) - 1) == RestOf(level, offset)
  {
    SlotIsQuotient(level, offset);
    CoveredIsPowerOfTwo(level - 1);
    MaskIsRemainder(offset, 9 * (level - 1) - 2);
  }
}
