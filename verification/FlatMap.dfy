/**
 The simple thing the tables stand for: a flat map from virtual to physical
 addresses, and what mapping, unmapping and changing attributes do to it.
 */
module FlatMap {
  import opened Arith
  import opened Geometry
  import opened Options
  import opened PageTable

  datatype Op =
    | OpMap(va: nat, pa: nat, attr: nat)
    | OpUnmap(va: nat)
    | OpModify(va: nat, attr: nat)

  /** The mapping of `va` after `op` was applied to its first `done` bytes, given the mapping before. */
  function After(op: Op, done: nat, va: nat, before: Option<Mapping>): Option<Mapping> {
    if !(op.va <= va < op.va + done) then before
    else match op
      case OpMap(start, pa, attr) => Some(Mapping(Phys(pa + (va - start)), attr))
      case OpUnmap(_) => None
      case OpModify(_, attr) => if before.Some? then Some(Mapping(before.value.pa, attr)) else None
  }

  /** The walks over `mem'` are those over `mem` after `op` on its first `done` bytes. */
  ghost predicate Applied(mem: Memory, mem': Memory, root: nat, base: nat, op: Op, done: nat) {
    forall va :: InTable(0, base, va) ==> Walk(mem', root, 0, va) == After(op, done, va, Walk(mem, root, 0, va))
  }

  ghost predicate SameWalks(mem: Memory, mem': Memory, root: nat, base: nat) {
    forall va :: InTable(0, base, va) ==> Walk(mem', root, 0, va) == Walk(mem, root, 0, va)
  }

  lemma SameWalksRefl(mem: Memory, root: nat, base: nat)
    ensures SameWalks(mem, mem, root, base)
  {
  }

  lemma SameWalksTrans(mem: Memory, mid: Memory, mem': Memory, root: nat, base: nat)
    requires SameWalks(mem, mid, root, base) && SameWalks(mid, mem', root, base)
    ensures SameWalks(mem, mem', root, base)
  {
  }

  lemma SameWalksAt(mem: Memory, mem': Memory, root: nat, base: nat, va: nat)
    requires SameWalks(mem, mem', root, base) && InTable(0, base, va)
    ensures Walk(mem', root, 0, va) == Walk(mem, root, 0, va)
  {
  }

  lemma SameIsApplied(mem: Memory, mem': Memory, root: nat, base: nat, op: Op)
    ensures SameWalks(mem, mem', root, base) <==> Applied(mem, mem', root, base, op, 0)
  {
  }

  lemma SameThenApplied(mem: Memory, mid: Memory, mem': Memory, root: nat, base: nat, op: Op, done: nat)
    requires SameWalks(mem, mid, root, base) && Applied(mid, mem', root, base, op, done)
    ensures Applied(mem, mem', root, base, op, done)
  {
  }

  /** Every address of the range translates. */
  ghost predicate AllMapped(mem: Memory, root: nat, lo: nat, hi: nat) {
    forall va :: lo <= va < hi ==> Walk(mem, root, 0, va).Some?
  }

  ghost predicate NoneMapped(mem: Memory, root: nat, lo: nat, hi: nat) {
    forall va :: lo <= va < hi ==> Walk(mem, root, 0, va).None?
  }

  lemma SameNone(mem: Memory, mem': Memory, root: nat, base: nat, lo: nat, hi: nat)
    requires SameWalks(mem, mem', root, base) && base <= lo && hi <= base + Span(0)
    ensures NoneMapped(mem, root, lo, hi) <==> NoneMapped(mem', root, lo, hi)
  {
    forall va: nat | lo <= va < hi ensures Walk(mem', root, 0, va) == Walk(mem, root, 0, va) {
      assert InTable(0, base, va);
    }
  }

  lemma SameAll(mem: Memory, mem': Memory, root: nat, base: nat, lo: nat, hi: nat)
    requires SameWalks(mem, mem', root, base) && base <= lo && hi <= base + Span(0)
    ensures AllMapped(mem, root, lo, hi) <==> AllMapped(mem', root, lo, hi)
  {
    forall va: nat | lo <= va < hi ensures Walk(mem', root, 0, va) == Walk(mem, root, 0, va) {
      assert InTable(0, base, va);
    }
  }

  lemma AppliedThenSame(mem: Memory, mid: Memory, mem': Memory, root: nat, base: nat, op: Op, done: nat)
    requires Applied(mem, mid, root, base, op, done) && SameWalks(mid, mem', root, base)
    ensures Applied(mem, mem', root, base, op, done)
  {
  }

  /** The operation that is left once the first `done` bytes are finished. */
  function Rest(op: Op, done: nat): Op {
    match op
    case OpMap(va, pa, attr) => OpMap(va + done, pa + done, attr)
    case OpUnmap(va) => OpUnmap(va + done)
    case OpModify(va, attr) => OpModify(va + done, attr)
  }

  /** Addresses past the finished part are as they were. */
  lemma AppliedAhead(mem: Memory, mem': Memory, root: nat, base: nat, op: Op, done: nat, lo: nat, hi: nat)
    requires Applied(mem, mem', root, base, op, done) && op.va + done <= lo && base <= lo
    ensures lo < base + Span(0) ==> Walk(mem', root, 0, lo) == Walk(mem, root, 0, lo)
    ensures hi <= base + Span(0) ==> (AllMapped(mem', root, lo, hi) <==> AllMapped(mem, root, lo, hi))
    ensures hi <= base + Span(0) ==> (NoneMapped(mem', root, lo, hi) <==> NoneMapped(mem, root, lo, hi))
  {
    forall va: nat | lo <= va < base + Span(0) ensures Walk(mem', root, 0, va) == Walk(mem, root, 0, va) {
      assert InTable(0, base, va);
    }
  }

  lemma NoBytes(mem: Memory, root: nat, va: nat)
    ensures AllMapped(mem, root, va, va)
  {
  }

  lemma MorePages(mem: Memory, root: nat, lo: nat, mid: nat, hi: nat)
    requires AllMapped(mem, root, lo, mid) && AllMapped(mem, root, mid, hi)
    ensures AllMapped(mem, root, lo, hi)
  {
  }

  lemma AfterRest(op: Op, d1: nat, d2: nat, va: nat, before: Option<Mapping>)
    ensures After(Rest(op, d1), d2, va, After(op, d1, va, before)) == After(op, d1 + d2, va, before)
  {
  }

  /** Doing an operation in two pieces is doing it at once. */
  lemma AppliedInPieces(mem: Memory, mid: Memory, mem': Memory, root: nat, base: nat, op: Op, d1: nat, d2: nat)
    requires Applied(mem, mid, root, base, op, d1) && Applied(mid, mem', root, base, Rest(op, d1), d2)
    ensures Applied(mem, mem', root, base, op, d1 + d2)
  {
    forall va | InTable(0, base, va)
      ensures Walk(mem', root, 0, va) == After(op, d1 + d2, va, Walk(mem, root, 0, va))
    {
      assert Walk(mid, root, 0, va) == After(op, d1, va, Walk(mem, root, 0, va));
      AfterRest(op, d1, d2, va, Walk(mem, root, 0, va));
    }
  }

  lemma ModScaled(k: nat, n: nat, d: nat, off: nat)
    requires n > 0 && off < d
    ensures n * d > 0 && (k * d + off) % (n * d) == (k % n) * d + off
  {
    DivBounds(k, n);
    var q, r := k / n, k % n;
    var whole, part := n * d, r * d;
    assert k * d == q * whole + part by {
      assert (q * n) * d == q * (n * d);
      assert k * d == (q * n) * d + r * d;
    }
    assert part + d <= whole by {
      MulLe(r + 1, n, d);
      assert (r + 1) * d == r * d + d;
    }
    FloorUnique(k * d + off, whole, q);
  }

  lemma PhysOffset(level: Level, pa: nat, off: nat)
    requires Aligned(level, pa) && off < LevelSize(level)
    ensures Phys(pa + off) == Phys(pa) + off
    ensures Phys(pa) % LevelSize(level) == 0
  {
    var d := LevelSize(level);
    var k := pa / d;
    DivBounds(pa, d);
    var n := if level == 0 then 512 else if level == 1 then 0x4_0000 else if level == 2 then 0x800_0000 else 0x10_0000_0000;
    assert PHYS_LIMIT == n * d;
    ModScaled(k, n, d, off);
    ModScaled(k, n, d, 0);
    MulMod(k % n, d);
  }

  /** The part of an offset that selects an entry one level down, and the rest. */
  lemma OffsetSplit(level: Level, va: nat)
    requires level < MAX_LEVEL
    ensures va % LevelSize(level) == Off(level + 1, va) * LevelSize(level + 1) + va % LevelSize(level + 1)
  {
    var d := LevelSize(level + 1);
    var q, r := va / d, va % d;
    DivBounds(va, d);
    DivBounds(q, 512);
    assert LevelSize(level) == 512 * d;
    assert va == (q / 512) * (512 * d) + ((q % 512) * d + r);
    MulLe(q % 512, 511, d);
    DivUnique(va, 512 * d, q / 512);
  }

  /** The 512 leaves that stand for one block. */
  function SplitEntries(level: Level, pa: nat, attr: nat): (entries: Entries)
    requires level < MAX_LEVEL
  {
    seq(512, (j: nat) => Leaf(level + 1, attr, pa + j * LevelSize(level + 1)))
  }

  lemma SplitLeaf(level: Level, pa: nat, j: nat)
    requires level < MAX_LEVEL && pa % LevelSize(level) == 0 && pa < PHYS_LIMIT && j < 512
    ensures var a := pa + j * LevelSize(level + 1);
            Phys(a) == a && a % LevelSize(level + 1) == 0 && a < PHYS_LIMIT
  {
    var d := LevelSize(level + 1);
    var m := pa / (512 * d);
    assert LevelSize(level) == 512 * d;
    assert pa == m * (512 * d);
    assert pa + j * d == (m * 512 + j) * d;
    MulMod(m * 512 + j, d);
    MulLe(j, 511, d);
    PhysOffset(level, pa, j * d);
  }

  lemma SplitOk(level: Level, pa: nat, attr: nat)
    requires MIN_MAP_LEVEL <= level < MAX_LEVEL && pa % LevelSize(level) == 0 && pa < PHYS_LIMIT
    ensures LeavesOk(level + 1, SplitEntries(level, pa, attr))
  {
    forall j | 0 <= j < 512
      ensures var d := SplitEntries(level, pa, attr)[j];
              !d.Table? && DescOk(map[], 0, Place(level + 1, 0, 0), j, d)
    {
      SplitLeaf(level, pa, j);
    }
  }

  /** The leaves of a split block resolve every address as the block did. */
  lemma SplitResolves(mem: Memory, level: Level, pa: nat, attr: nat, va: nat)
    requires level < MAX_LEVEL && pa % LevelSize(level) == 0 && pa < PHYS_LIMIT
    ensures Resolve(mem, Block(pa, attr), level, va) ==
            Resolve(mem, SplitEntries(level, pa, attr)[Off(level + 1, va)], level + 1, va)
  {
    OffsetSplit(level, va);
    SplitLeaf(level, pa, Off(level + 1, va));
  }
}
