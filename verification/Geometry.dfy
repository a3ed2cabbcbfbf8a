/**
 Address geometry of the translation tables for the 4 KiB granule: block sizes
 per lookup level, and the span of one table.

 An entry is identified by its level and its absolute number `e` at that level:
 it describes the addresses [Lo(level, e), Lo(level, e + 1)).  Table number `n`
 of a level holds the entries [512 * n, 512 * n + 512), so the subtable below
 entry `e` is table number `e` of the next level.
 */
module Geometry {
  // A level 0 descriptor cannot be a block descriptor with 4 KiB pages.
  const MIN_LEVEL_BLOCK_DESC: int := 1

  function BlockSize(level: int): int
    decreases 3 - level
  {
    if level >= 3 then 0x1000 else 512 * BlockSize(level + 1)
  }

  lemma BlockSizePositive(level: int)
    ensures BlockSize(level) > 0
    decreases 3 - level
  {
  }

  function Lo(level: int, e: int): int
    decreases 3 - level
  {
    if level >= 3 then e * 0x1000 else Lo(level + 1, 512 * e)
  }

  // First address of table `n` of a level, and the address just past it.
  function TableLo(level: int, n: int): int { Lo(level, 512 * n) }
  function TableHi(level: int, n: int): int { Lo(level, 512 * n + 512) }

  // Initial lookup level for an address space of the given size.
  function BaseLevel(space: int): int {
    if space > 0x80_0000_0000 then 0
    else if space > 0x4000_0000 then 1
    else if space > 0x20_0000 then 2
    else 3
  }

  predicate Overlap(a: int, b: int, c: int, d: int) { a < d && c < b }

  lemma Values(level: int, e: int)
    requires 0 <= level <= 3
    ensures level == 0 ==> Lo(level, e) == e * 0x80_0000_0000 && BlockSize(level) == 0x80_0000_0000
    ensures level == 1 ==> Lo(level, e) == e * 0x4000_0000 && BlockSize(level) == 0x4000_0000
    ensures level == 2 ==> Lo(level, e) == e * 0x20_0000 && BlockSize(level) == 0x20_0000
    ensures level == 3 ==> Lo(level, e) == e * 0x1000 && BlockSize(level) == 0x1000
    decreases 3 - level
  {
    if level < 3 {
      Values(level + 1, 512 * e);
    }
  }

  lemma EntryStep(level: int, e: int)
    requires 0 <= level <= 3
    ensures Lo(level, e + 1) == Lo(level, e) + BlockSize(level)
    ensures BlockSize(level) >= 0x1000
  {
    Values(level, e);
    Values(level, e + 1);
  }

  lemma {:induction false} Aligned(level: int, e: int)
    requires 0 <= level <= 3
    ensures Lo(level, e) % 0x1000 == 0
    decreases 3 - level
  {
    if level < 3 {
      Aligned(level + 1, 512 * e);
    }
  }

  lemma Monotone(level: int, a: int, b: int)
    requires 0 <= level <= 3
    ensures a < b <==> Lo(level, a) < Lo(level, b)
    ensures a == b <==> Lo(level, a) == Lo(level, b)
  {
    Values(level, a);
    Values(level, b);
  }

  // A run [a, b) of entries and a single entry of the same or a deeper level
  // are nested or disjoint.
  lemma {:induction false} LaminarRun(l: int, a: int, b: int, l': int, e': int)
    requires 0 <= l <= l' <= 3 && a < b
    requires Overlap(Lo(l, a), Lo(l, b), Lo(l', e'), Lo(l', e' + 1))
    ensures Lo(l, a) <= Lo(l', e') && Lo(l', e' + 1) <= Lo(l, b)
    ensures l == l' ==> a <= e' < b
    decreases l' - l
  {
    if l == l' {
      Monotone(l, a, e' + 1);
      Monotone(l, e', b);
      Monotone(l, a, e');
      Monotone(l, e' + 1, b);
    } else {
      LaminarRun(l + 1, 512 * a, 512 * b, l', e');
    }
  }

  lemma Laminar(l: int, e: int, l': int, e': int)
    requires 0 <= l <= l' <= 3
    requires Overlap(Lo(l, e), Lo(l, e + 1), Lo(l', e'), Lo(l', e' + 1))
    ensures Lo(l, e) <= Lo(l', e') && Lo(l', e' + 1) <= Lo(l, e + 1)
    ensures l == l' ==> e == e'
  {
    LaminarRun(l, e, e + 1, l', e');
  }

  lemma Between(lo: int, q: int, hi: int, b: int)
    requires b > 0 && lo * b < (q + 1) * b && q * b < hi * b
    ensures lo <= q < hi
  {
    MulLe(q + 1, lo, b);
    MulLe(hi, q, b);
  }

  lemma MulLe(x: int, y: int, b: int)
    requires b > 0
    ensures x <= y ==> x * b <= y * b
  {
  }

  lemma QuotientIs(y: int, q: int, b: int)
    requires b > 0 && q * b <= y < q * b + b
    ensures y / b == q
  {
    Between(q, y / b, q + 1, b);
  }

  lemma LoIsProduct(level: int, e: int)
    requires 0 <= level <= 3
    ensures Lo(level, e) == e * BlockSize(level) && BlockSize(level) > 0
  {
    Values(level, e);
  }

  // Entries are counted from the first one by dividing by the block size.
  lemma IndexOfEntry(level: int, a: int, e: int)
    requires 0 <= level <= 3
    ensures BlockSize(level) > 0 && (Lo(level, e) - Lo(level, a)) / BlockSize(level) == e - a
  {
    LoIsProduct(level, a);
    LoIsProduct(level, e);
    var b := BlockSize(level);
    assert e * b - a * b == (e - a) * b;
    QuotientIs(e * b - a * b, e - a, b);
  }

  // The initial level is the deepest one at which a single table spans the space.
  lemma BaseLevelIs(space: int)
    requires 0 < space <= 0x1_0000_0000_0000
    ensures 0 <= BaseLevel(space) <= 3 && space <= TableHi(BaseLevel(space), 0)
    ensures BaseLevel(space) < 3 ==> TableHi(BaseLevel(space) + 1, 0) < space
  {
    Values(BaseLevel(space), 512);
    if BaseLevel(space) < 3 {
      Values(BaseLevel(space) + 1, 512);
    }
  }
}
