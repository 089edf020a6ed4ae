/**
 The shape of a four-level AArch64 translation table with 4 KiB pages: how many
 bytes one entry of each level covers, and which entry of a table a virtual
 address selects.
 */
module Geometry {
  import opened Arith

  const MAX_LEVEL := 3        // the level whose entries are pages
  const MIN_MAP_LEVEL := 1    // the highest level at which a leaf is ever written
  const PAGE_SIZE := 0x1000

  // One past the largest physical address a descriptor can hold (bits 12..47).
  const PHYS_LIMIT := 0x1_0000_0000_0000

  type Level = l: nat | l <= 3

  /** Bytes covered by one entry of a table at `level`. */
  function LevelSize(level: Level): (size: nat)
    ensures size > 0 && size % PAGE_SIZE == 0
  {
    if level == 3 then 0x1000
    else if level == 2 then 0x20_0000
    else if level == 1 then 0x4000_0000
    else 0x80_0000_0000
  }

  /** Bytes covered by a whole table at `level`. */
  function Span(level: Level): (size: nat)
    ensures size == 512 * LevelSize(level)
    ensures level > 0 ==> size == LevelSize(level - 1)
  {
    512 * LevelSize(level)
  }

  predicate Aligned(level: Level, addr: nat) {
    addr % LevelSize(level) == 0
  }

  /** The entry that `va` selects in a table at `level`. */
  function Off(level: Level, va: nat): (i: nat)
    ensures i < 512
  {
    (va / LevelSize(level)) % 512
  }

  /** Physical addresses are cut to the bits a descriptor keeps. */
  function Phys(pa: nat): (r: nat)
    ensures r < PHYS_LIMIT
  {
    pa % PHYS_LIMIT
  }

  /** The bytes that entry `i` of a table covering [base, base + Span) translates. */
  predicate InEntry(level: Level, base: nat, i: nat, va: nat) {
    base + i * LevelSize(level) <= va < base + (i + 1) * LevelSize(level)
  }

  predicate InTable(level: Level, base: nat, va: nat) {
    base <= va < base + Span(level)
  }

  /** In an aligned table an address selects entry `i` exactly when it lies in the range of `i`. */
  lemma OffIsEntry(level: Level, base: nat, i: nat, va: nat)
    requires base % Span(level) == 0 && i < 512
    ensures InTable(level, base, va) ==> InEntry(level, base, Off(level, va), va)
    ensures InEntry(level, base, i, va) ==> InTable(level, base, va) && Off(level, va) == i
  {
    match level
    case 0 => OffLiteral(0x80_0000_0000, base, i, va);
    case 1 => OffLiteral(0x4000_0000, base, i, va);
    case 2 => OffLiteral(0x20_0000, base, i, va);
    case 3 => OffLiteral(0x1000, base, i, va);
  }

  lemma EntryOf(size: nat, m: nat, i: nat, va: nat)
    requires size > 0 && i < 512 && m * (512 * size) + i * size <= va < m * (512 * size) + (i + 1) * size
    ensures (va / size) % 512 == i
  {
    var q := 512 * m + i;
    assert q * size == m * (512 * size) + i * size;
    assert (i + 1) * size == i * size + size;
    FloorUnique(va, size, q);
  }

  lemma OffLiteral(size: nat, base: nat, i: nat, va: nat)
    requires size > 0 && base % (512 * size) == 0 && i < 512
    ensures base <= va < base + 512 * size ==>
              var k := (va / size) % 512; base + k * size <= va < base + (k + 1) * size
    ensures base + i * size <= va < base + (i + 1) * size ==>
              base <= va < base + 512 * size && (va / size) % 512 == i
  {
    var m := base / (512 * size);
    assert base == m * (512 * size);
    if base <= va < base + 512 * size {
      var r := (va - base) / size;
      DivBounds(va - base, size);
      DivLess(va - base, size, 512);
      EntryOf(size, m, r, va);
    }
    if base + i * size <= va < base + (i + 1) * size {
      MulLe(i + 1, 512, size);
      EntryOf(size, m, i, va);
    }
  }

  /** The offset of an address inside its entry. */
  lemma EntryOffset(level: Level, base: nat, i: nat, va: nat)
    requires base % Span(level) == 0 && i < 512 && InEntry(level, base, i, va)
    ensures va % LevelSize(level) == va - (base + i * LevelSize(level))
  {
    var d := LevelSize(level);
    var m := base / (512 * d);
    assert base == m * (512 * d);
    assert base + i * d == (m * 512 + i) * d;
    DivUnique(va, d, m * 512 + i);
  }

  /** A range that starts on an entry boundary and does not exceed one entry stays in that entry. */
  lemma AlignedEntry(level: Level, base: nat, va: nat)
    requires base % Span(level) == 0 && InTable(level, base, va) && Aligned(level, va)
    ensures va == base + Off(level, va) * LevelSize(level)
  {
    OffIsEntry(level, base, 0, va);
    EntryOffset(level, base, Off(level, va), va);
  }

  /** The range of an entry is again an aligned table one level down. */
  lemma ChildBase(level: Level, base: nat, i: nat)
    requires level < 3 && base % Span(level) == 0
    ensures (base + i * LevelSize(level)) % Span(level + 1) == 0
  {
    var d := LevelSize(level);
    var m := base / (512 * d);
    assert base == m * (512 * d);
    assert base + i * d == (m * 512 + i) * d;
    MulMod(m * 512 + i, d);
  }

  /** An aligned entry of any level lies wholly inside the root table. */
  lemma EntryInSpace(level: Level, base: nat, va: nat)
    requires base % Span(0) == 0 && InTable(0, base, va) && Aligned(level, va)
    ensures va + LevelSize(level) <= base + Span(0)
  {
    var d := LevelSize(level);
    var n := Span(0) / d;
    assert Span(0) == n * d;
    var m, q := base / Span(0), va / d;
    DivBounds(base, Span(0));
    DivBounds(va, d);
    assert base + Span(0) == (m + 1) * (n * d) == ((m + 1) * n) * d;
    if q >= (m + 1) * n {
      MulLe((m + 1) * n, q, d);
    } else {
      MulLe(q + 1, (m + 1) * n, d);
    }
  }

  /** Addresses of one entry select the same entries on the way to it. */
  lemma SameOff(level: Level, below: Level, va: nat, va': nat)
    requires level <= below && Aligned(below, va) && va <= va' < va + LevelSize(below)
    ensures Off(level, va') == Off(level, va)
  {
    var d, unit := LevelSize(level), LevelSize(below);
    var k := UnitsIn(level, below);
    SameUnit(va / unit, k, unit, va' - va);
    assert va == (va / unit) * unit;
  }

  /** How many entries at `below` make up one at `level`. */
  function UnitsIn(level: Level, below: Level): (k: nat)
    requires level <= below
    ensures k > 0 && LevelSize(level) == k * LevelSize(below)
    decreases below - level
  {
    if level == below then 1 else 512 * UnitsIn(level + 1, below)
  }

  lemma SameUnit(n: nat, k: nat, unit: nat, off: nat)
    requires k > 0 && unit > 0 && off < unit
    ensures (n * unit + off) / (k * unit) == (n * unit) / (k * unit) == n / k
  {
    var q, r := n / k, n % k;
    DivBounds(n, k);
    var d := k * unit;
    assert n * unit == q * d + r * unit by {
      assert (q * k + r) * unit == (q * k) * unit + r * unit;
      assert (q * k) * unit == q * (k * unit);
    }
    MulLe(r + 1, k, unit);
    assert (r + 1) * unit == r * unit + unit;
    FloorUnique(n * unit, d, q);
    FloorUnique(n * unit + off, d, q);
  }
}
