/**
 The page-table side of an address space (`struct mm` and the walks over it): map,
 unmap, change attributes, translate and choose a free range.
 */
module Mmu {
  import opened Arith
  import opened Geometry
  import opened Options
  import opened PageTable
  import opened TableTree
  import opened FlatMap

  // ------------------------------------------------------------------ single edits at the end of a path

  lemma LinkEmpty(mem: Memory, place: map<nat, Place>, root: nat, base: nat, path: seq<nat>, va: nat, page: nat)
    requires Located(mem, place, root, base) && PathOk(mem, root, path, va) && InTable(0, base, va)
    requires |path| <= MAX_LEVEL && page !in mem
    requires var l := |path| - 1; path[l] in place && mem[path[l]][Off(l, va)] == Invalid
    ensures var l := |path| - 1; var p := path[l];
            && p in place && place[p].level == l
            && var mem' := Put(mem[page := EMPTY], p, Off(l, va), Table(page));
            var place' := place[page := Below(place, p, Off(l, va))];
            && Located(mem', place', root, base) && PathOk(mem', root, path + [page], va)
            && SameWalks(mem, mem', root, base)
            && (NoEmpty(mem, root, {p}) ==> NoEmpty(mem', root, {page}))
            && (NoLeak(mem, place, root) ==> NoLeak(mem', place', root))
  {
    var l := |path| - 1;
    var p := path[l];
    PathPlaced(mem, place, root, base, path, va, l);
    hide NoEmpty, NoLeak, PathOk;
    LinkShape(mem, place, root, base, path, va, page, EMPTY);
    var mem' := Put(mem[page := EMPTY], p, Off(l, va), Table(page));
    forall va' | InTable(0, base, va') ensures Walk(mem', root, 0, va') == Walk(mem, root, 0, va') {
      LinkEffect(mem, place, root, base, path, va, page, EMPTY, va');
    }
    if NoLeak(mem, place, root) {
      NoLeakLink(mem, place, root, base, p, Off(l, va), page, EMPTY);
    }
    NoEmptyLink(mem, root, p, Off(l, va), page, EMPTY);
  }

  /** The same entries at `level` are references to tables. */
  ghost predicate SameBelow(mem: Memory, mem': Memory, root: nat, base: nat, level: Level) {
    forall va :: InTable(0, base, va) ==> TableBelow(mem', root, level, va) == TableBelow(mem, root, level, va)
  }

  lemma SameBelowTrans(m0: Memory, m1: Memory, m2: Memory, root: nat, base: nat, level: Level)
    requires SameBelow(m0, m1, root, base, level) && SameBelow(m1, m2, root, base, level)
    ensures SameBelow(m0, m2, root, base, level)
  {
    hide TableBelow;
  }

  lemma SameBelowRefl(mem: Memory, root: nat, base: nat)
    ensures forall level: Level :: SameBelow(mem, mem, root, base, level)
  {
    hide TableBelow;
  }

  lemma SameBelowAt(mem: Memory, mem': Memory, root: nat, base: nat, level: Level, va: nat)
    requires SameBelow(mem, mem', root, base, level) && InTable(0, base, va)
    ensures TableBelow(mem', root, level, va) == TableBelow(mem, root, level, va)
  {
  }

  /** A fresh empty table adds no reference further down. */
  lemma LinkKeepsBelow(mem: Memory, place: map<nat, Place>, root: nat, base: nat, path: seq<nat>, va: nat, page: nat)
    requires Located(mem, place, root, base) && PathOk(mem, root, path, va) && InTable(0, base, va) && page !in mem
    requires var l := |path| - 1; path[l] in place && mem[path[l]][Off(l, va)] == Invalid
    ensures path[|path| - 1] in mem
    ensures var mem' := Put(mem[page := EMPTY], path[|path| - 1], Off(|path| - 1, va), Table(page));
            forall level: Level :: level >= |path| ==> SameBelow(mem, mem', root, base, level)
  {
    hide Located, PathOk, TableBelow, InEntry;
    PathEnd(mem, root, path, va);
    var mem' := Put(mem[page := EMPTY], path[|path| - 1], Off(|path| - 1, va), Table(page));
    forall level: Level, va': nat | level >= |path| && InTable(0, base, va')
      ensures TableBelow(mem', root, level, va') == TableBelow(mem, root, level, va')
    {
      LinkKeepsAt(mem, place, root, base, path, va, page, level, va');
    }
  }

  lemma LinkKeepsAt(mem: Memory, place: map<nat, Place>, root: nat, base: nat, path: seq<nat>, va: nat, page: nat,
                    level: Level, va': nat)
    requires Located(mem, place, root, base) && PathOk(mem, root, path, va) && InTable(0, base, va)
    requires |path| <= level && page !in mem && InTable(0, base, va')
    requires var l := |path| - 1; path[l] in place && mem[path[l]][Off(l, va)] == Invalid
    ensures var l := |path| - 1;
            var mem' := Put(mem[page := EMPTY], path[l], Off(l, va), Table(page));
            path[l] in mem && TableBelow(mem', root, level, va') == TableBelow(mem, root, level, va')
  {
    hide Located, PathOk, TableBelow, TableAt;
    PathEnd(mem, root, path, va);
    LocatedKeys(mem, place, root, base);
    AddKeepsBelow(mem, place, root, base, page, level, va');
    var l := |path| - 1;
    var p, i := path[l], Off(l, va);
    PathPlaced(mem, place, root, base, path, va, l);
    LinkShape(mem, place, root, base, path, va, page, EMPTY);
    if level < MAX_LEVEL {
      LinkKeepsHit(mem[page := EMPTY], place[page := Below(place, p, i)], root, base, path, va, page, level, va');
    } else {
      LastLevel(mem, root, va');
      LastLevel(Put(mem[page := EMPTY], p, i, Table(page)), root, va');
    }
  }

  lemma LastLevel(mem: Memory, root: nat, va: nat)
    ensures !TableBelow(mem, root, MAX_LEVEL, va)
  {
  }

  lemma AddKeepsBelow(mem: Memory, place: map<nat, Place>, root: nat, base: nat, page: nat, level: Level, va: nat)
    requires Located(mem, place, root, base) && page !in mem && InTable(0, base, va)
    ensures TableBelow(mem[page := EMPTY], root, level, va) == TableBelow(mem, root, level, va)
  {
    if level < MAX_LEVEL {
      TableAtAgree(mem, place, root, base, mem[page := EMPTY], root, level + 1, va);
    }
  }

  lemma LinkKeepsHit(mem: Memory, place: map<nat, Place>, root: nat, base: nat, path: seq<nat>, va: nat, page: nat,
                     level: Level, va': nat)
    requires Located(mem, place, root, base) && PathOk(mem, root, path, va) && InTable(0, base, va)
    requires |path| <= level < MAX_LEVEL && page in mem && mem[page] == EMPTY && InTable(0, base, va')
    requires var p := path[|path| - 1];
             && p in place && p in mem && p != page && place[p].level == |path| - 1
             && mem[p][Off(|path| - 1, va)] == Invalid
    ensures var l := |path| - 1;
            TableBelow(Put(mem, path[l], Off(l, va), Table(page)), root, level, va') == TableBelow(mem, root, level, va')
  {
    hide Located, PathOk, TableBelow, TableAt;
    var l := |path| - 1;
    var p, i := path[l], Off(l, va);
    if InEntry(l, place[p].base, i, va') {
      BelowPutHit(mem, place, root, base, path, va, Table(page), level, va');
      EmptyStops(Put(mem, p, i, Table(page)), page, l + 1, level + 1, va');
      BelowPutHit(mem, place, root, base, path, va, Invalid, level, va');
      assert mem[p][i := Invalid] == mem[p];
      assert Put(mem, p, i, Invalid) == mem;
    } else {
      BelowPutMiss(mem, place, root, base, p, i, Table(page), level, va');
    }
  }

  /** Exactly the entries of the range lost their references to tables, if they had any. */
  ghost predicate Unreferred(mem: Memory, mem': Memory, root: nat, base: nat, level: Level, lo: nat, hi: nat) {
    forall va: nat :: InTable(0, base, va) ==>
      TableBelow(mem', root, level, va) == (TableBelow(mem, root, level, va) && !(lo <= va < hi))
  }

  lemma SameIsUnreferred(mem: Memory, mem': Memory, root: nat, base: nat, level: Level, va: nat)
    requires SameBelow(mem, mem', root, base, level)
    ensures Unreferred(mem, mem', root, base, level, va, va)
  {
    hide TableBelow;
  }

  lemma SameThenUnreferred(m0: Memory, m1: Memory, m2: Memory, root: nat, base: nat, level: Level, lo: nat, hi: nat)
    requires SameBelow(m0, m1, root, base, level) && Unreferred(m1, m2, root, base, level, lo, hi)
    ensures Unreferred(m0, m2, root, base, level, lo, hi)
  {
    hide TableBelow;
  }

  lemma UnreferredTrans(m0: Memory, m1: Memory, m2: Memory, root: nat, base: nat, level: Level, lo: nat, mid: nat, hi: nat)
    requires lo <= mid <= hi
    requires Unreferred(m0, m1, root, base, level, lo, mid) && Unreferred(m1, m2, root, base, level, mid, hi)
    ensures Unreferred(m0, m2, root, base, level, lo, hi)
  {
    hide TableBelow;
  }

  lemma UnreferredAhead(mem: Memory, mem': Memory, root: nat, base: nat, level: Level, lo: nat, va: nat)
    requires Unreferred(mem, mem', root, base, level, lo, va) && InTable(0, base, va)
    ensures TableBelow(mem', root, level, va) == TableBelow(mem, root, level, va)
  {
    hide TableBelow;
  }

  lemma NoTables(mem: Memory, root: nat, level: Level, va: nat)
    ensures !TablesIn(mem, root, level, va, va)
  {
  }

  lemma LeafUnrefers(mem: Memory, place: map<nat, Place>, root: nat, base: nat, path: seq<nat>, va: nat, d: Desc)
    requires Located(mem, place, root, base) && PathOk(mem, root, path, va) && InTable(0, base, va)
    requires Aligned(|path| - 1, va) && !d.Table?
    ensures path[|path| - 1] in mem
    ensures Unreferred(mem, Put(mem, path[|path| - 1], Off(|path| - 1, va), d), root, base, |path| - 1,
                       va, va + LevelSize(|path| - 1))
  {
    hide Located, PathOk, TableBelow;
    PathEnd(mem, root, path, va);
    forall va': nat | InTable(0, base, va')
      ensures TableBelow(Put(mem, path[|path| - 1], Off(|path| - 1, va), d), root, |path| - 1, va') ==
              (TableBelow(mem, root, |path| - 1, va') && !(va <= va' < va + LevelSize(|path| - 1)))
    {
      LeafBelow(mem, place, root, base, path, va, d, va');
    }
  }

  lemma EmptyStops(mem: Memory, p: nat, level: Level, target: Level, va: nat)
    requires p in mem && mem[p] == EMPTY && level < target
    ensures TableAt(mem, p, level, target, va).None?
  {
  }

  /** A leaf replaces what was below its entry, and nothing else. */
  lemma LeafBelow(mem: Memory, place: map<nat, Place>, root: nat, base: nat, path: seq<nat>, va: nat, d: Desc, va': nat)
    requires Located(mem, place, root, base) && PathOk(mem, root, path, va) && InTable(0, base, va)
    requires Aligned(|path| - 1, va) && InTable(0, base, va') && !d.Table?
    ensures var l := |path| - 1;
            && path[l] in mem
            && TableBelow(Put(mem, path[l], Off(l, va), d), root, l, va') ==
               (TableBelow(mem, root, l, va') && !(va <= va' < va + LevelSize(l)))
  {
    var l := |path| - 1;
    PathPlaced(mem, place, root, base, path, va, l);
    EntryRange(mem, place, root, base, path, va, va');
    if va <= va' < va + LevelSize(l) {
      if l < MAX_LEVEL {
        BelowPutHit(mem, place, root, base, path, va, d, l, va');
      }
    } else {
      BelowPutMiss(mem, place, root, base, path[l], Off(l, va), d, l, va');
    }
  }

  lemma NoEmptyLink(mem: Memory, root: nat, p: nat, i: nat, page: nat, entries: Entries)
    requires p in mem && i < 512 && page !in mem
    ensures var mem' := Put(mem[page := entries], p, i, Table(page));
            && (NoEmpty(mem, root, {p}) ==> NoEmpty(mem', root, {page}))
            && (NoEmpty(mem, root, {}) && !IsEmpty(entries) ==> NoEmpty(mem', root, {}))
  {
    var mem' := Put(mem[page := entries], p, i, Table(page));
    assert mem'[p][i] == Table(page);
  }

  lemma LinkSplit(mem: Memory, place: map<nat, Place>, root: nat, base: nat, path: seq<nat>, va: nat, page: nat)
    requires Located(mem, place, root, base) && PathOk(mem, root, path, va) && InTable(0, base, va)
    requires page !in mem
    requires var l := |path| - 1; path[l] in place && mem[path[l]][Off(l, va)].Block?
    ensures var l := |path| - 1; var p := path[l];
            && p in place && place[p].level == l < MAX_LEVEL
            && var b := mem[p][Off(l, va)];
            var entries := SplitEntries(l, b.pa, b.attr);
            var mem' := Put(mem[page := entries], p, Off(l, va), Table(page));
            var place' := place[page := Below(place, p, Off(l, va))];
            && Located(mem', place', root, base) && PathOk(mem', root, path + [page], va)
            && SameWalks(mem, mem', root, base)
            && (NoEmpty(mem, root, {}) ==> NoEmpty(mem', root, {}))
            && (NoLeak(mem, place, root) ==> NoLeak(mem', place', root))
  {
    var l := |path| - 1;
    var p := path[l];
    PathPlaced(mem, place, root, base, path, va, l);
    StepDown(mem, place, root, base, p, va);
    var b := mem[p][Off(l, va)];
    var entries := SplitEntries(l, b.pa, b.attr);
    SplitOk(l, b.pa, b.attr);
    assert !entries[0].Invalid?;
    hide SplitEntries, NoEmpty, NoLeak, PathOk;
    LinkShape(mem, place, root, base, path, va, page, entries);
    var mem' := Put(mem[page := entries], p, Off(l, va), Table(page));
    forall va' | InTable(0, base, va') ensures Walk(mem', root, 0, va') == Walk(mem, root, 0, va') {
      SplitResolves(mem, l, b.pa, b.attr, va');
      LinkEffect(mem, place, root, base, path, va, page, entries, va');
    }
    if NoLeak(mem, place, root) {
      NoLeakLink(mem, place, root, base, p, Off(l, va), page, entries);
    }
    NoEmptyLink(mem, root, p, Off(l, va), page, entries);
  }

  /** The range of an entry, seen from an aligned address in it. */
  lemma EntryRange(mem: Memory, place: map<nat, Place>, root: nat, base: nat, path: seq<nat>, va: nat, va': nat)
    requires Located(mem, place, root, base) && PathOk(mem, root, path, va) && InTable(0, base, va)
    requires Aligned(|path| - 1, va)
    ensures var l := |path| - 1;
            && path[l] in place && place[path[l]].level == l
            && (InEntry(l, place[path[l]].base, Off(l, va), va') <==> va <= va' < va + LevelSize(l))
            && (va <= va' < va + LevelSize(l) ==> va' % LevelSize(l) == va' - va && InTable(0, base, va'))
  {
    var l := |path| - 1;
    var p := path[l];
    PathPlaced(mem, place, root, base, path, va, l);
    assert TableOk(place, p, mem[p]);
    AlignedEntry(l, place[p].base, va);
    if va <= va' < va + LevelSize(l) {
      EntryOffset(l, place[p].base, Off(l, va), va');
      OffIsEntry(l, place[p].base, Off(l, va), va');
      PathShare(mem, place, root, base, path, va, va');
    }
  }

  /** What a leaf written at the end of a path does to one walk. */
  lemma LeafEffect(mem: Memory, place: map<nat, Place>, root: nat, base: nat, path: seq<nat>, va: nat, d: Desc, va': nat)
    requires Located(mem, place, root, base) && PathOk(mem, root, path, va) && InTable(0, base, va)
    requires Aligned(|path| - 1, va) && InTable(0, base, va') && !d.Table?
    ensures var l := |path| - 1;
            && path[l] in mem
            && Walk(Put(mem, path[l], Off(l, va), d), root, 0, va') ==
               (if !(va <= va' < va + LevelSize(l)) then Walk(mem, root, 0, va')
                else if d.Invalid? then None else Some(Mapping(d.pa + (va' - va), d.attr)))
            && (va <= va' < va + LevelSize(l) && !mem[path[l]][Off(l, va)].Table? ==>
                  Walk(mem, root, 0, va') ==
                  var was := mem[path[l]][Off(l, va)];
                  if was.Invalid? then None else Some(Mapping(was.pa + (va' - va), was.attr)))
  {
    hide Located, PathOk;
    PathEnd(mem, root, path, va);
    PutEffect(mem, place, root, base, path, va, d, va');
    EntryRange(mem, place, root, base, path, va, va');
  }

  lemma NoEmptyPut(mem: Memory, root: nat, p: nat, i: nat, d: Desc)
    requires p in mem && i < 512
    ensures NoEmpty(mem, root, {p}) ==> NoEmpty(Put(mem, p, i, d), root, if d.Invalid? then {p} else {})
  {
    var mem' := Put(mem, p, i, d);
    assert mem'[p][i] == d;
  }

  lemma WriteLeaf(mem: Memory, place: map<nat, Place>, root: nat, base: nat, path: seq<nat>, va: nat, pa: nat, attr: nat)
    requires Located(mem, place, root, base) && PathOk(mem, root, path, va) && InTable(0, base, va)
    requires |path| - 1 >= MIN_MAP_LEVEL && Aligned(|path| - 1, va) && Aligned(|path| - 1, pa)
    ensures var l := |path| - 1; var p := path[l];
            var mem' := Put(mem, p, Off(l, va), Leaf(l, attr, pa));
            && Located(mem', place, root, base)
            && Applied(mem, mem', root, base, OpMap(va, pa, attr), LevelSize(l))
            && (NoEmpty(mem, root, {p}) ==> NoEmpty(mem', root, {}))
            && (NoLeak(mem, place, root) && !mem[p][Off(l, va)].Table? ==> NoLeak(mem', place, root))
  {
    hide Located, PathOk, NoEmpty, NoLeak, Walk;
    PathEnd(mem, root, path, va);
    var l := |path| - 1;
    var p := path[l];
    var d := Leaf(l, attr, pa);
    LocatedKeys(mem, place, root, base);
    PathPlaced(mem, place, root, base, path, va, l);
    PhysOffset(l, pa, 0);
    LocatedPut(mem, place, root, base, p, Off(l, va), d);
    var mem' := Put(mem, p, Off(l, va), d);
    forall va': nat | InTable(0, base, va')
      ensures Walk(mem', root, 0, va') == After(OpMap(va, pa, attr), LevelSize(l), va', Walk(mem, root, 0, va'))
    {
      LeafEffect(mem, place, root, base, path, va, d, va');
      if va <= va' < va + LevelSize(l) {
        PhysOffset(l, pa, va' - va);
      }
    }
    NoEmptyPut(mem, root, p, Off(l, va), d);
    if NoLeak(mem, place, root) && !mem[p][Off(l, va)].Table? {
      NoLeakPut(mem, place, root, p, Off(l, va), d);
    }
  }

  /** Clearing a leaf, or rewriting its attributes, at the end of a path. */
  lemma EditLeaf(mem: Memory, place: map<nat, Place>, root: nat, base: nat, path: seq<nat>, va: nat, unmap: bool, attr: nat)
    requires Located(mem, place, root, base) && PathOk(mem, root, path, va) && InTable(0, base, va)
    requires Aligned(|path| - 1, va)
    requires var l := |path| - 1; path[l] in mem && var d := mem[path[l]][Off(l, va)]; d.Block? || d.Page?
    ensures var l := |path| - 1; var p := path[l]; var d := mem[p][Off(l, va)];
            var mem' := Put(mem, p, Off(l, va), if unmap then Invalid else Leaf(l, attr, d.pa));
            && l >= MIN_MAP_LEVEL
            && Located(mem', place, root, base) && PathOk(mem', root, path, va)
            && AllMapped(mem, root, va, va + LevelSize(l))
            && Applied(mem, mem', root, base, if unmap then OpUnmap(va) else OpModify(va, attr), LevelSize(l))
            && (NoLeak(mem, place, root) ==> NoLeak(mem', place, root))
            && (NoEmpty(mem, root, {}) ==> NoEmpty(mem', root, if unmap then {p} else {}))
  {
    hide Located, PathOk, NoEmpty, NoLeak;
    PathEnd(mem, root, path, va);
    var l := |path| - 1;
    var p := path[l];
    LocatedKeys(mem, place, root, base);
    PathPlaced(mem, place, root, base, path, va, l);
    StepDown(mem, place, root, base, p, va);
    var d := mem[p][Off(l, va)];
    var d' := if unmap then Invalid else Leaf(l, attr, d.pa);
    var op := if unmap then OpUnmap(va) else OpModify(va, attr);
    assert Phys(d.pa) == d.pa;
    LocatedPut(mem, place, root, base, p, Off(l, va), d');
    var mem' := Put(mem, p, Off(l, va), d');
    PutEffect(mem, place, root, base, path, va, d', va);
    hide Walk, Put, After;
    forall va': nat | InTable(0, base, va')
      ensures Walk(mem', root, 0, va') == After(op, LevelSize(l), va', Walk(mem, root, 0, va'))
      ensures va <= va' < va + LevelSize(l) ==> Walk(mem, root, 0, va').Some?
    {
      EditedAt(mem, place, root, base, path, va, unmap, attr, va');
    }
    forall va': nat | va <= va' < va + LevelSize(l) ensures Walk(mem, root, 0, va').Some? {
      EntryRange(mem, place, root, base, path, va, va');
    }
    NoLeakEdit(mem, place, root, p, Off(l, va), d');
    NoEmptyWeaken(mem, root, p);
    NoEmptyPut(mem, root, p, Off(l, va), d');
  }

  lemma EditedAt(mem: Memory, place: map<nat, Place>, root: nat, base: nat, path: seq<nat>, va: nat, unmap: bool,
                 attr: nat, va': nat)
    requires Located(mem, place, root, base) && PathOk(mem, root, path, va) && InTable(0, base, va) && InTable(0, base, va')
    requires Aligned(|path| - 1, va)
    requires var l := |path| - 1; path[l] in mem && var d := mem[path[l]][Off(l, va)]; d.Block? || d.Page?
    ensures var l := |path| - 1; var p := path[l]; var d := mem[p][Off(l, va)];
            var mem' := Put(mem, p, Off(l, va), if unmap then Invalid else Leaf(l, attr, d.pa));
            && Walk(mem', root, 0, va') ==
               After(if unmap then OpUnmap(va) else OpModify(va, attr), LevelSize(l), va', Walk(mem, root, 0, va'))
            && (va <= va' < va + LevelSize(l) ==> Walk(mem, root, 0, va').Some?)
  {
    hide Located, PathOk, Walk, Off, LevelSize, Put, Phys;
    PathEnd(mem, root, path, va);
    var l := |path| - 1;
    var p := path[l];
    LocatedKeys(mem, place, root, base);
    PathPlaced(mem, place, root, base, path, va, l);
    StepDown(mem, place, root, base, p, va);
    var d := mem[p][Off(l, va)];
    KeptAddress(d.pa);
    LeafEffect(mem, place, root, base, path, va, if unmap then Invalid else Leaf(l, attr, d.pa), va');
  }

  lemma KeptAddress(pa: nat)
    requires pa < PHYS_LIMIT
    ensures Phys(pa) == pa
  {
  }

  lemma NoLeakEdit(mem: Memory, place: map<nat, Place>, root: nat, p: nat, i: nat, d: Desc)
    requires p in mem && i < 512 && !mem[p][i].Table?
    ensures NoLeak(mem, place, root) ==> NoLeak(Put(mem, p, i, d), place, root)
  {
    if NoLeak(mem, place, root) { NoLeakPut(mem, place, root, p, i, d); }
  }

  lemma EmptyIs(entries: Entries)
    requires IsEmpty(entries)
    ensures entries == EMPTY
  {
  }

  /** Clearing the reference to a table that has been freed; `mem` no longer holds the table. */
  lemma ReleaseStep(mem: Memory, place: map<nat, Place>, root: nat, base: nat, path: seq<nat>, va: nat)
    requires |path| >= 2 && path[|path| - 1] !in mem && InTable(0, base, va)
    requires var held := mem[path[|path| - 1] := EMPTY];
             Located(held, place, root, base) && PathOk(held, root, path, va)
    ensures var n := |path| - 2; var dead := path[n + 1]; var held := mem[dead := EMPTY];
            && n < 4 && path[n] in mem && dead != root
            && var mem' := Put(mem, path[n], Off(n, va), Invalid); var place' := place - {dead};
            && Located(mem', place', root, base) && PathOk(mem', root, path[..n + 1], va)
            && SameWalks(held, mem', root, base)
            && (NoEmpty(held, root, {dead}) ==> NoEmpty(mem', root, {path[n]}))
            && (NoLeak(held, place, root) ==> NoLeak(mem', place', root))
            && mem'.Keys == mem.Keys
  {
    hide Located, NoEmpty, NoLeak;
    var n := |path| - 2;
    var dead, p, i := path[n + 1], path[n], Off(n, va);
    var held := mem[dead := EMPTY];
    Release(held, place, root, base, path, va);
    assert held[path[n]][Off(n, va)] == Table(path[n + 1]);
    assert Put(held, p, i, Invalid) - {dead} == Put(mem, p, i, Invalid);
    if NoLeak(held, place, root) {
      NoLeakRelease(held, place, root, p, i, dead);
    }
    NoEmptyRelease(mem, root, p, i, dead);
  }

  lemma NoEmptyRelease(mem: Memory, root: nat, p: nat, i: nat, dead: nat)
    requires dead !in mem && p in mem && i < 512
    ensures NoEmpty(mem[dead := EMPTY], root, {dead}) ==> NoEmpty(Put(mem, p, i, Invalid), root, {p})
  {
    var mem' := Put(mem, p, i, Invalid);
    if NoEmpty(mem[dead := EMPTY], root, {dead}) {
      forall t | t in mem' && t != root && t != p ensures !IsEmpty(mem'[t]) {
        assert mem'[t] == mem[dead := EMPTY][t];
      }
    }
  }

  // ------------------------------------------------------------------ the address space

  ghost predicate PoolOk(pool: seq<nat>, mem: Memory) {
    && (forall i :: 0 <= i < |pool| ==> pool[i] != 0 && pool[i] !in mem)
    && (forall i, j :: 0 <= i < j < |pool| ==> pool[i] != pool[j])
  }

  ghost function PagesOf(mem: Memory, pool: seq<nat>): set<nat> {
    mem.Keys + (set page | page in pool)
  }

  lemma PagesPut(mem: Memory, pool: seq<nat>, p: nat, i: nat, d: Desc)
    requires p in mem && i < 512
    ensures PagesOf(Put(mem, p, i, d), pool) == PagesOf(mem, pool)
  {
    assert Put(mem, p, i, d).Keys == mem.Keys;
  }

  lemma PagesLinked(mem: Memory, pool: seq<nat>, pool': seq<nat>, page: nat, entries: Entries)
    requires pool == [page] + pool'
    ensures PagesOf(mem[page := entries], pool') == PagesOf(mem, pool)
  {
    assert mem[page := entries].Keys == mem.Keys + {page};
    assert (set x | x in pool) == {page} + (set x | x in pool');
  }

  lemma PagesFreed(mem: Memory, pool: seq<nat>, page: nat)
    requires page in mem
    ensures PagesOf(mem - {page}, pool + [page]) == PagesOf(mem, pool)
  {
    assert (mem - {page}).Keys == mem.Keys - {page};
    assert (set x | x in pool + [page]) == (set x | x in pool) + {page};
  }

  /** Linking a page that the allocator has handed out. */
  lemma LinkCounts(pool: seq<nat>, mem: Memory, page: nat, entries: Entries, p: nat, i: nat)
    requires PoolOk(pool, mem[page := EMPTY]) && page !in mem && p in mem && i < 512
    ensures var mem' := Put(mem[page := entries], p, i, Table(page));
            PoolOk(pool, mem') && |mem'| == |mem| + 1 && mem'.Keys == mem.Keys + {page}
  {
    var mem' := Put(mem[page := entries], p, i, Table(page));
    assert mem'.Keys == mem.Keys + {page} == mem[page := EMPTY].Keys;
  }

  /** All that linking a fresh empty table keeps. */
  lemma LinkNew(mem: Memory, place: map<nat, Place>, root: nat, base: nat, path: seq<nat>, va: nat, page: nat,
                pool: seq<nat>, pool': seq<nat>)
    requires Located(mem, place, root, base) && PathOk(mem, root, path, va) && InTable(0, base, va)
    requires |path| <= MAX_LEVEL && page !in mem && page != 0 && 0 !in mem
    requires var l := |path| - 1; path[l] in place && mem[path[l]][Off(l, va)] == Invalid
    requires pool == [page] + pool' && PoolOk(pool', mem[page := EMPTY])
    ensures var l := |path| - 1; var p := path[l];
            && p in place && place[p].level == l && p in mem && p != page
            && var mem' := Put(mem[page := EMPTY], p, Off(l, va), Table(page));
            var place' := place[page := Below(place, p, Off(l, va))];
            && Located(mem', place', root, base) && PathOk(mem', root, path + [page], va)
            && SameWalks(mem, mem', root, base) && (forall level: Level :: level > l ==> SameBelow(mem, mem', root, base, level))
            && (NoEmpty(mem, root, {}) || NoEmpty(mem, root, {p}) ==> NoEmpty(mem', root, {page}))
            && (NoLeak(mem, place, root) ==> NoLeak(mem', place', root))
            && page in mem' && mem'[page] == EMPTY && 0 !in mem' && |mem'| == |mem| + 1
            && PoolOk(pool', mem') && PagesOf(mem', pool') == PagesOf(mem, pool)
  {
    hide Located, PathOk, NoEmpty, NoLeak, SameWalks, SameBelow, PoolOk, PagesOf, Off, LevelSize;
    PathEnd(mem, root, path, va);
    var p, i := path[|path| - 1], Off(|path| - 1, va);
    LinkEmpty(mem, place, root, base, path, va, page);
    NoEmptyWeaken(mem, root, p);
    LinkKeepsBelow(mem, place, root, base, path, va, page);
    LinkCounts(pool', mem, page, EMPTY, p, i);
    PagesLinked(mem, pool, pool', page, EMPTY);
    PagesPut(mem[page := EMPTY], pool', p, i, Table(page));
  }

  /**
   One address space. `pool` is what the page allocator will hand out next; an empty
   pool is an allocator that fails.
   */
  class AddressSpace {
    const root: nat                    // mmu_table_base
    const base: nat                    // first virtual address the root table translates
    var mem: Memory
    var pool: seq<nat>
    ghost var place: map<nat, Place>
    ghost var starved: bool            // a table allocation has failed at some time
    ghost var failures: nat            // how many have failed so far
    ghost var overwrote: bool          // a leaf has been written over a table reference
    ghost var allocs: nat              // calls of ptable_alloc that gave a page
    ghost var frees: nat               // calls of ptable_free

    ghost predicate Valid()
      reads this
    {
      && Located(mem, place, root, base)
      && 0 !in mem && PoolOk(pool, mem)
      && allocs == frees + |mem| - 1
      && (!starved ==> NoEmpty(mem, root, {}))
      && (!overwrote ==> NoLeak(mem, place, root))
    }

    /** A cleared root table: nothing is mapped. */
    constructor (root: nat, base: nat, pool: seq<nat>)
      requires root != 0 && base % Span(0) == 0 && PoolOk(pool, map[root := EMPTY])
      ensures Valid() && this.root == root && this.base == base && this.pool == pool
      ensures mem == map[root := EMPTY] && !starved && !overwrote && failures == 0 && allocs == 0 && frees == 0
      ensures forall va :: Walk(mem, root, 0, va) == None
    {
      this.root, this.base, this.pool := root, base, pool;
      mem := map[root := EMPTY];
      place := map[root := Place(0, base, root)];
      starved, overwrote, failures, allocs, frees := false, false, 0, 0, 0;
    }

    /** Failed allocations are counted and remembered, and a call in which one fails ends with an empty pool. */
    twostate predicate Told()
      reads this
    {
      && failures >= old(failures)
      && (if failures > old(failures) then starved && pool == [] else starved == old(starved))
    }

    /** The pages that hold tables, and those in the pool. */
    ghost function Pages(): set<nat>
      reads this
    {
      PagesOf(mem, pool)
    }

    /** Moreover every page that was a table or in the pool is one of the two now, and no other is. */
    twostate predicate Kept()
      reads this
    {
      Told() && Pages() == old(Pages())
    }

    /** ptable_alloc: a page that holds no table, or 0. */
    method PtableAlloc() returns (page: nat)
      requires 0 !in mem && PoolOk(pool, mem)
      modifies this`pool, this`starved, this`failures, this`allocs
      ensures PoolOk(pool, mem)
      ensures Told() && (page == 0 <==> failures > old(failures)) && (page == 0 <==> old(pool) == [])
      ensures page == 0 ==> starved && pool == old(pool) && allocs == old(allocs)
      ensures page != 0 ==> page !in mem && PoolOk(pool, mem[page := EMPTY])
      ensures page != 0 ==> allocs == old(allocs) + 1 && old(pool) == [page] + pool
    {
      if pool == [] {
        page := 0;
        starved := true;
        failures := failures + 1;
      } else {
        page := pool[0];
        pool := pool[1..];
        allocs := allocs + 1;
      }
    }

    method PtableFree(page: nat)
      requires page in mem && page != 0 && PoolOk(pool, mem)
      modifies this`mem, this`pool, this`frees
      ensures mem == old(mem) - {page} && PoolOk(pool, mem) && frees == old(frees) + 1 && pool == old(pool) + [page]
    {
      mem := mem - {page};
      pool := pool + [page];
      frees := frees + 1;
    }

    /** The state while a walk for `va` has gone down `path`; `isNew` says its last table was just made. */
    ghost predicate Descending(path: seq<nat>, va: nat, isNew: bool)
      reads this
    {
      && Located(mem, place, root, base)
      && PathOk(mem, root, path, va)
      && 0 !in mem && PoolOk(pool, mem)
      && allocs == frees + |mem| - 1
      && (!starved ==> NoEmpty(mem, root, if isNew then {path[|path| - 1]} else {}))
      && (!overwrote ==> NoLeak(mem, place, root))
      && (isNew ==> mem[path[|path| - 1]] == EMPTY)
    }

    lemma StartDescent(va: nat)
      requires Valid()
      ensures Descending([root], va, false) && base % Span(0) == 0
    {
      assert TableOk(place, root, mem[root]);
    }

    /** Allocates a table, clears it and links it below entry `off` of the last table of `path`. */
    method CreateTable(l: Level, va: nat, pte: nat, off: nat, ghost path: seq<nat>, ghost isNew: bool)
      returns (page: nat)
      requires Descending(path, va, isNew) && InTable(0, base, va)
      requires l < MAX_LEVEL && |path| == l + 1 && path[l] == pte
      requires off == Off(l, va) && mem[pte][off] == Invalid
      modifies this
      ensures overwrote == old(overwrote) && Kept() && (page == 0 <==> failures > old(failures))
      ensures page == 0 ==> Descending(path, va, isNew) && mem == old(mem) && old(pool) == []
      ensures page != 0 ==> Descending(path + [page], va, true) && |pool| == |old(pool)| - 1
      ensures SameWalks(old(mem), mem, root, base)
      ensures forall level: Level :: level > l ==> SameBelow(old(mem), mem, root, base, level)
    {
      hide Located, PathOk, NoEmpty, NoLeak, SameWalks, SameBelow, PoolOk, PagesOf, Off, LevelSize, Put;
      PathEnd(mem, root, path, va);
      LocatedKeys(mem, place, root, base);
      SameWalksRefl(mem, root, base);
      SameBelowRefl(mem, root, base);
      page := PtableAlloc();
      if page != 0 {
        LinkNew(mem, place, root, base, path, va, page, old(pool), pool);
        place := place[page := Below(place, pte, off)];
        mem := mem[page := EMPTY];
        mem := Put(mem, pte, off, Table(page));
      }
    }

    /** One turn of the loop of map_single_entry_r: the table below, made if it is missing; 0 when there is none. */
    method DescendForMap(l: Level, va: nat, pte: nat, ghost path: seq<nat>, ghost isNew: bool)
      returns (next: nat, ghost isNew': bool)
      requires Descending(path, va, isNew) && InTable(0, base, va)
      requires l < MAX_LEVEL && |path| == l + 1 && path[l] == pte
      modifies this
      ensures overwrote == old(overwrote) && Kept()
      ensures SameWalks(old(mem), mem, root, base)
      ensures forall level: Level :: level > l ==> SameBelow(old(mem), mem, root, base, level)
      ensures next == 0 ==> Descending(path, va, isNew)
      ensures next == 0 ==> failures > old(failures) || (Walk(mem, root, 0, va).Some? && !isNew)
      ensures next != 0 ==> Descending(path + [next], va, isNew') && failures == old(failures)
      ensures |pool| >= |old(pool)| - 1 && (failures > old(failures) ==> old(pool) == [])
    {
      hide Located, PathOk, NoEmpty, NoLeak, SameWalks, SameBelow, PoolOk, Walk, PagesOf;
      PathEnd(mem, root, path, va);
      SameWalksRefl(mem, root, base);
      SameBelowRefl(mem, root, base);
      var off := Off(l, va);
      var value := mem[pte][off];
      isNew' := isNew;
      if value.Invalid? {
        next := CreateTable(l, va, pte, off, path, isNew);
        isNew' := true;
      } else if value.Table? {
        next := value.next;
        isNew' := false;
        NextTable(mem, place, root, base, path, va);
        PathEnd(mem, root, path + [next], va);
      } else {
        next := 0;
        BlockedBy(mem, root, path, va);
      }
    }

    /** map_single_entry_r: one leaf at `level`, with the tables above it. */
    method MapSingle(level: Level, va: nat, pa: nat, attr: nat) returns (ok: bool)
      requires Valid() && level >= MIN_MAP_LEVEL && InTable(0, base, va)
      modifies this
      ensures Valid()
      ensures Applied(old(mem), mem, root, base, OpMap(va, pa, attr), if ok then LevelSize(level) else 0)
      ensures ok ==> Aligned(level, va) && Aligned(level, pa) && failures == old(failures)
      ensures !ok ==> !Aligned(level, va) || !Aligned(level, pa) || failures > old(failures)
                      || Walk(old(mem), root, 0, va).Some?
      ensures Kept()
      ensures overwrote <==> old(overwrote) || (ok && TableBelow(old(mem), root, level, va))
      ensures Unreferred(old(mem), mem, root, base, level, va, if ok then va + LevelSize(level) else va)
      ensures if failures > old(failures) then |old(pool)| < 3 else |pool| >= |old(pool)| - 3
      ensures !old(starved) && NoneMapped(old(mem), root, va, va + LevelSize(level)) ==> overwrote == old(overwrote)
    {
      hide Located, PathOk, NoEmpty, NoLeak, SameWalks, SameBelow, Unreferred, TableBelow;
      hide Applied, NoneMapped, PoolOk, Walk, PagesOf;
      SameWalksRefl(mem, root, base);
      SameBelowRefl(mem, root, base);
      if va % LevelSize(level) != 0 || pa % LevelSize(level) != 0 {
        SameIsApplied(mem, mem, root, base, OpMap(va, pa, attr));
        SameIsUnreferred(mem, mem, root, base, level, va);
        return false;
      }
      var pte := root;
      var l := 0;
      ghost var path := [root];
      ghost var isNew := false;
      StartDescent(va);
      EntryInSpace(level, base, va);
      while l < level
        invariant l <= level && |path| == l + 1 && path[l] == pte
        invariant Descending(path, va, isNew)
        invariant SameWalks(old(mem), mem, root, base) && SameBelow(old(mem), mem, root, base, level)
        invariant Kept() && failures == old(failures) && overwrote == old(overwrote) && |pool| >= |old(pool)| - l
      {
        ghost var mid := mem;
        var next;
        next, isNew := DescendForMap(l, va, pte, path, isNew);
        SameWalksTrans(old(mem), mid, mem, root, base);
        SameBelowTrans(old(mem), mid, mem, root, base, level);
        if next == 0 {
          SameWalksAt(old(mem), mem, root, base, va);
          SameIsApplied(old(mem), mem, root, base, OpMap(va, pa, attr));
          SameIsUnreferred(old(mem), mem, root, base, level, va);
          return false;
        }
        path := path + [next];
        pte := next;
        l := l + 1;
      }
      ghost var mid := mem;
      SameNone(old(mem), mid, root, base, va, va + LevelSize(level));
      SameBelowAt(old(mem), mid, root, base, level, va);
      WriteOver(level, va, pa, attr, pte, path, isNew);
      SameThenUnreferred(old(mem), mid, mem, root, base, level, va, va + LevelSize(level));
      SameThenApplied(old(mem), mid, mem, root, base, OpMap(va, pa, attr), LevelSize(level));
      ok := true;
    }

    /** The final write of map_single_entry_r, over whatever the entry held. */
    method WriteOver(level: Level, va: nat, pa: nat, attr: nat, pte: nat, ghost path: seq<nat>, ghost isNew: bool)
      requires Descending(path, va, isNew) && InTable(0, base, va)
      requires level >= MIN_MAP_LEVEL && |path| == level + 1 && path[level] == pte
      requires Aligned(level, va) && Aligned(level, pa)
      modifies this
      ensures Valid() && starved == old(starved) && failures == old(failures) && pool == old(pool) && Kept()
      ensures Applied(old(mem), mem, root, base, OpMap(va, pa, attr), LevelSize(level))
      ensures overwrote <==> old(overwrote) || TableBelow(old(mem), root, level, va)
      ensures Unreferred(old(mem), mem, root, base, level, va, va + LevelSize(level))
      ensures !starved && NoneMapped(old(mem), root, va, va + LevelSize(level)) ==> overwrote == old(overwrote)
    {
      hide Located, PathOk, NoEmpty, NoLeak, Applied, NoneMapped, Walk, TableBelow, Unreferred, PagesOf;
      PathEnd(mem, root, path, va);
      NoEmptyWeaken(mem, root, pte);
      BelowEntry(mem, place, root, base, path, va);
      LeafUnrefers(mem, place, root, base, path, va, Leaf(level, attr, pa));
      if mem[pte][Off(level, va)].Table? {
        if !starved && NoneMapped(mem, root, va, va + LevelSize(level)) {
          NothingToOverwrite(mem, place, root, base, path, va);
        }
        overwrote := true;
      }
      PagesPut(mem, pool, pte, Off(level, va), Leaf(level, attr, pa));
      WriteLeaf(mem, place, root, base, path, va, pa, attr);
      mem := Put(mem, pte, Off(level, va), Leaf(level, attr, pa));
    }

    // ---------------------------------------------------------------- unmapping and changing attributes

    /** The 512 writes that fill a fresh table with the pieces of a block. */
    method FillLeaves(page: nat, level: Level, phy: nat, attr: nat)
      requires level < MAX_LEVEL && page in mem && mem[page] == EMPTY
      modifies this`mem
      ensures mem == old(mem)[page := SplitEntries(level, phy, attr)]
    {
      var i := 0;
      ghost var done := SplitEntries(level, phy, attr);
      while i < 512
        invariant 0 <= i <= 512
        invariant page in mem && mem == old(mem)[page := mem[page]]
        invariant mem[page][..i] == done[..i]
      {
        mem := Put(mem, page, i, Leaf(level + 1, attr, phy + i * LevelSize(level + 1)));
        i := i + 1;
      }
      assert mem[page] == mem[page][..512] == done[..512] == done;
    }

    /** Replaces the block at the end of `path` by a table of its pieces. */
    method SplitBlock(l: Level, va: nat, pte: nat, off: nat, ghost path: seq<nat>) returns (page: nat)
      requires Descending(path, va, false) && InTable(0, base, va)
      requires |path| == l + 1 && path[l] == pte && off == Off(l, va) && mem[pte][off].Block?
      modifies this
      ensures overwrote == old(overwrote) && SameWalks(old(mem), mem, root, base)
      ensures Kept() && (page == 0 <==> failures > old(failures))
      ensures page == 0 ==> Descending(path, va, false) && old(pool) == [] && l < MAX_LEVEL
      ensures page != 0 ==> l < MAX_LEVEL && Descending(path + [page], va, false) && |pool| == |old(pool)| - 1
    {
      hide Located, PathOk, NoEmpty, NoLeak, SameWalks, Walk, PoolOk, SplitEntries, PagesOf, Off, LevelSize;
      PathEnd(mem, root, path, va);
      LocatedKeys(mem, place, root, base);
      SameWalksRefl(mem, root, base);
      BlockLevel(mem, place, root, base, path, va);
      var value := mem[pte][off];
      page := PtableAlloc();
      if page != 0 {
        LinkSplit(mem, place, root, base, path, va, page);
        LinkCounts(pool, mem, page, SplitEntries(l, value.pa, value.attr), pte, off);
        PagesLinked(mem, old(pool), pool, page, SplitEntries(l, value.pa, value.attr));
        PagesPut(mem[page := SplitEntries(l, value.pa, value.attr)], pool, pte, off, Table(page));
        place := place[page := Below(place, pte, off)];
        mem := mem[page := EMPTY];
        FillLeaves(page, l, value.pa, value.attr);
        assert mem == old(mem)[page := SplitEntries(l, value.pa, value.attr)];
        mem := Put(mem, pte, off, Table(page));
      }
    }

    /** ptable_valid_num: the number of entries in use. */
    method ValidNum(pte: nat) returns (count: nat)
      requires pte in mem
      ensures count == 0 <==> IsEmpty(mem[pte])
    {
      count := 0;
      var i := 0;
      while i < 512
        invariant 0 <= i <= 512
        invariant count == 0 <==> forall k :: 0 <= k < i ==> mem[pte][k].Invalid?
      {
        if !mem[pte][i].Invalid? {
          count := count + 1;
        }
        i := i + 1;
      }
    }

    /** The last table of `path` has been freed and its parent still refers to it. */
    ghost predicate Dangling(path: seq<nat>, va: nat)
      reads this
    {
      && |path| >= 2
      && var dead := path[|path| - 1]; var held := mem[dead := EMPTY];
      && dead !in mem
      && Located(held, place, root, base)
      && PathOk(held, root, path, va)
      && 0 !in mem && PoolOk(pool, mem)
      && allocs == frees + |mem| - 1
      && (!starved ==> NoEmpty(held, root, {dead}))
      && (!overwrote ==> NoLeak(held, place, root))
    }

    /** The state after an entry of the last table of `path` was cleared: that table may be empty. */
    ghost predicate Cleared(path: seq<nat>, va: nat)
      reads this
    {
      && Located(mem, place, root, base)
      && PathOk(mem, root, path, va)
      && 0 !in mem && PoolOk(pool, mem)
      && allocs == frees + |mem| - 1
      && (!starved ==> NoEmpty(mem, root, {path[|path| - 1]}))
      && (!overwrote ==> NoLeak(mem, place, root))
    }

    /** Frees the last table of `path`, which is empty. */
    method FreeLast(path: seq<nat>, va: nat)
      requires Cleared(path, va) && |path| >= 2 && IsEmpty(mem[path[|path| - 1]]) && path[|path| - 1] != root
      modifies this`mem, this`pool, this`frees
      ensures Dangling(path, va) && mem[path[|path| - 1] := EMPTY] == old(mem) && |pool| > |old(pool)|
      ensures Pages() == old(Pages())
    {
      hide Located, PathOk, NoEmpty, NoLeak, PagesOf;
      PathEnd(mem, root, path, va);
      var dead := path[|path| - 1];
      EmptyIs(mem[dead]);
      PagesFreed(mem, pool, dead);
      PtableFree(dead);
      assert mem[dead := EMPTY] == old(mem);
      assert mem.Keys == old(mem).Keys - {dead};
    }

    /** Clears the reference that dangles after a free. */
    method ClearParent(path: seq<nat>, va: nat)
      requires Dangling(path, va) && InTable(0, base, va)
      modifies this`mem, this`place
      ensures |path| >= 2 && Cleared(path[..|path| - 1], va)
      ensures SameWalks(old(mem)[path[|path| - 1] := EMPTY], mem, root, base) && Pages() == old(Pages())
    {
      hide Located, PathOk, NoEmpty, NoLeak, SameWalks, PagesOf;
      ReleaseStep(mem, place, root, base, path, va);
      var n := |path| - 2;
      PagesPut(mem, pool, path[n], Off(n, va), Invalid);
      mem := Put(mem, path[n], Off(n, va), Invalid);
      place := place - {path[n + 1]};
      assert path[..|path| - 1] == path[..n + 1];
    }

    /** One turn upwards: clears the parent's entry and, if the parent is empty now and not the root, frees it too. */
    method ReleaseParent(path: seq<nat>, va: nat) returns (more: bool)
      requires Dangling(path, va) && InTable(0, base, va)
      modifies this`mem, this`pool, this`frees, this`place
      ensures |path| >= 2 && |pool| >= |old(pool)| && Pages() == old(Pages())
      ensures var held := old(mem)[path[|path| - 1] := EMPTY];
              if more then
                |path| >= 3 && Dangling(path[..|path| - 1], va)
                && SameWalks(held, mem[path[|path| - 2] := EMPTY], root, base)
              else Valid() && SameWalks(held, mem, root, base)
    {
      hide Located, PathOk, NoEmpty, NoLeak, SameWalks, PoolOk, IsEmpty, PagesOf, InTable;
      ClearParent(path, va);
      var up := |path| - 2;
      PathEnd(mem, root, path[..up + 1], va);
      var num := ValidNum(path[up]);
      more := num == 0 && up != 0;
      if more {
        NotRoot(mem, place, root, base, path[..up + 1], va);
        FreeLast(path[..up + 1], va);
      } else {
        NoEmptyDone(mem, root, path[up], up == 0);
      }
    }

    /** Frees the last table of `path` if it is empty, then every table above it that this empties. */
    method ReleaseEmpty(path: seq<nat>, va: nat)
      requires Cleared(path, va) && |path| >= 2 && path[|path| - 1] != root && InTable(0, base, va)
      modifies this`mem, this`pool, this`frees, this`place
      ensures Valid() && SameWalks(old(mem), mem, root, base) && |pool| >= |old(pool)| && Pages() == old(Pages())
    {
      hide Located, PathOk, NoEmpty, NoLeak, SameWalks, PoolOk, IsEmpty, PagesOf, InTable;
      PathEnd(mem, root, path, va);
      SameWalksRefl(mem, root, base);
      var level := |path| - 1;
      var num := ValidNum(path[level]);
      if num == 0 {
        FreeLast(path, va);
        var up := level - 1;
        assert path[..up + 2] == path;
        while up >= 0
          invariant 0 <= up < level
          invariant Dangling(path[..up + 2], va)
          invariant SameWalks(old(mem), mem[path[up + 1] := EMPTY], root, base)
          invariant |pool| >= |old(pool)| && Pages() == old(Pages())
          decreases up
        {
          ghost var held := mem[path[up + 1] := EMPTY];
          var more := ReleaseParent(path[..up + 2], va);
          assert path[..up + 2][..up + 1] == path[..up + 1];
          SameWalksTrans(old(mem), held, if more then mem[path[up] := EMPTY] else mem, root, base);
          if !more {
            break;
          }
          up := up - 1;
        }
      } else {
        NoEmptyDone(mem, root, path[level], false);
      }
    }

    /** The leaf at the end of `path` goes, with the tables that this empties, or gets new attributes. */
    method EditEntry(path: seq<nat>, va: nat, isUnmap: bool, newAttr: nat)
      requires Descending(path, va, false) && InTable(0, base, va) && Aligned(|path| - 1, va)
      requires var d := mem[path[|path| - 1]][Off(|path| - 1, va)]; d.Block? || d.Page?
      modifies this
      ensures Valid() && overwrote == old(overwrote) && starved == old(starved) && failures == old(failures)
      ensures |pool| >= |old(pool)| && Pages() == old(Pages())
      ensures AllMapped(old(mem), root, va, va + LevelSize(|path| - 1))
      ensures Applied(old(mem), mem, root, base, if isUnmap then OpUnmap(va) else OpModify(va, newAttr),
                      LevelSize(|path| - 1))
    {
      hide Located, PathOk, NoEmpty, NoLeak, SameWalks, Applied, AllMapped, Walk, PagesOf;
      PathEnd(mem, root, path, va);
      var level := |path| - 1;
      var off := Off(level, va);
      var value := mem[path[level]][off];
      EditLeaf(mem, place, root, base, path, va, isUnmap, newAttr);
      if isUnmap {
        PagesPut(mem, pool, path[level], off, Invalid);
        mem := Put(mem, path[level], off, Invalid);
        ghost var mid := mem;
        NotRoot(mem, place, root, base, path, va);
        ReleaseEmpty(path, va);
        AppliedThenSame(old(mem), mid, mem, root, base, OpUnmap(va), LevelSize(level));
      } else {
        PagesPut(mem, pool, path[level], off, Leaf(level, newAttr, value.pa));
        mem := Put(mem, path[level], off, Leaf(level, newAttr, value.pa));
      }
    }

    /** ummap_single_entry_r: one leaf that maps `va`, after splitting it down to fit the range. */
    method UnmapSingle(va: nat, size: nat, isUnmap: bool, newAttr: nat) returns (r: int)
      requires Valid() && size > 0 && (va % PAGE_SIZE == 0 && size % PAGE_SIZE == 0 ==> InTable(0, base, va))
      modifies this
      ensures Valid() && overwrote == old(overwrote) && Kept()
      ensures if va % PAGE_SIZE != 0 || size % PAGE_SIZE != 0
              then r == -1 && mem == old(mem) && pool == old(pool) && failures == old(failures)
              else 0 <= r <= size && r % PAGE_SIZE == 0
      ensures r == 0 ==> SameWalks(old(mem), mem, root, base)
      ensures r == 0 ==> failures > old(failures) || Walk(old(mem), root, 0, va).None?
      ensures r > 0 ==> AllMapped(old(mem), root, va, va + r) && failures == old(failures)
      ensures if failures > old(failures) then |old(pool)| < 3 else |pool| >= |old(pool)| - 3
      ensures r > 0 ==>
        Applied(old(mem), mem, root, base, if isUnmap then OpUnmap(va) else OpModify(va, newAttr), r)
    {
      hide Located, PathOk, NoEmpty, NoLeak, SameWalks, Applied, AllMapped, PoolOk, Walk, PagesOf;
      if va % PAGE_SIZE != 0 || size % PAGE_SIZE != 0 {
        return -1;
      }
      var path := [root];
      var level := 0;
      StartDescent(va);
      SameWalksRefl(mem, root, base);
      while level <= MAX_LEVEL
        invariant 0 <= level <= MAX_LEVEL && |path| == level + 1
        invariant Descending(path, va, false)
        invariant SameWalks(old(mem), mem, root, base)
        invariant Kept() && failures == old(failures) && overwrote == old(overwrote) && |pool| >= |old(pool)| - level
        decreases MAX_LEVEL - level
      {
        PathEnd(mem, root, path, va);
        var off := Off(level, va);
        var value := mem[path[level]][off];
        ghost var mid := mem;
        SameWalksAt(old(mem), mem, root, base, va);
        if value.Invalid? {
          NotMapped(mem, root, path, va);
          return 0;
        } else if value.Table? {
          NextTable(mem, place, root, base, path, va);
          path := path + [value.next];
        } else if value.Block? && (size < LevelSize(level) || va % LevelSize(level) != 0) {
          var page := SplitBlock(level, va, path[level], off, path);
          SameWalksTrans(old(mem), mid, mem, root, base);
          if page == 0 {
            return 0;
          }
          path := path + [page];
        } else {
          LeafLevel(mem, place, root, base, path, va);
          EditEntry(path, va, isUnmap, newAttr);
          SameThenApplied(old(mem), mid, mem, root, base,
                          if isUnmap then OpUnmap(va) else OpModify(va, newAttr), LevelSize(level));
          SameAll(old(mem), mid, root, base, va, va + LevelSize(level));
          return LevelSize(level);
        }
        level := level + 1;
      }
      r := 0;
    }

    /** mmu_unmap_r: stops without an error at the first address that is not mapped. */
    method UnmapRange(va: nat, size: nat) returns (ghost done: nat)
      requires Valid() && InSpace(base, va, size) && Settles(va, size)
      modifies this
      ensures Valid() && overwrote == old(overwrote) && Kept()
      ensures done <= EditSize(va, size) && done % PAGE_SIZE == 0
      ensures Applied(old(mem), mem, root, base, OpUnmap(EditStart(va, size)), done)
      ensures AllMapped(old(mem), root, EditStart(va, size), EditStart(va, size) + done)
      ensures failures > old(failures) ==> |old(pool)| < 3 * (EditSize(va, size) / PAGE_SIZE)
      ensures done == EditSize(va, size) || failures > old(failures)
              || Walk(old(mem), root, 0, EditStart(va, size) + done).None?
    {
      done := EditRange(va, size, true, 0);
    }

    /** arm_mmu_modify: fails at the first address that is not mapped. */
    method Modify(va: nat, size: nat, attr: nat) returns (ok: bool, ghost done: nat)
      requires Valid() && InSpace(base, va, size) && Settles(va, size)
      modifies this
      ensures Valid() && overwrote == old(overwrote) && Kept()
      ensures done <= EditSize(va, size) && done % PAGE_SIZE == 0 && (ok <==> done == EditSize(va, size))
      ensures Applied(old(mem), mem, root, base, OpModify(EditStart(va, size), attr), done)
      ensures AllMapped(old(mem), root, EditStart(va, size), EditStart(va, size) + done)
      ensures failures > old(failures) ==> |old(pool)| < 3 * (EditSize(va, size) / PAGE_SIZE)
      ensures ok || failures > old(failures) || Walk(old(mem), root, 0, EditStart(va, size) + done).None?
    {
      var edited := EditRange(va, size, false, attr);
      ok, done := edited == EditSize(va, size), edited;
    }

    /** The loop that mmu_unmap_r and arm_mmu_modify share; `done` is what it got through. */
    method EditRange(va: nat, size: nat, isUnmap: bool, attr: nat) returns (done: nat)
      requires Valid() && InSpace(base, va, size) && Settles(va, size)
      modifies this
      ensures Valid() && overwrote == old(overwrote) && Kept()
      ensures done <= EditSize(va, size) && done % PAGE_SIZE == 0
      ensures Applied(old(mem), mem, root, base,
                      if isUnmap then OpUnmap(EditStart(va, size)) else OpModify(EditStart(va, size), attr), done)
      ensures AllMapped(old(mem), root, EditStart(va, size), EditStart(va, size) + done)
      ensures failures > old(failures) ==> |old(pool)| < 3 * (EditSize(va, size) / PAGE_SIZE)
      ensures done == EditSize(va, size) || failures > old(failures)
              || Walk(old(mem), root, 0, EditStart(va, size) + done).None?
    {
      hide Valid, Applied, AllMapped, Walk, EditStart, EditSize, Settles, PagesOf;
      var at, rest := StepBack(va, size, isUnmap, attr);
      done := EditPages(at, rest, isUnmap, attr);
    }

    /** The turns of that loop that only move it to a page boundary. */
    method StepBack(va: nat, size: nat, isUnmap: bool, attr: nat) returns (at: nat, rest: nat)
      requires Valid() && InSpace(base, va, size) && Settles(va, size)
      modifies this
      ensures Valid() && mem == old(mem) && pool == old(pool)
      ensures overwrote == old(overwrote) && failures == old(failures) && starved == old(starved)
      ensures at == EditStart(va, size) && rest == EditSize(va, size)
      ensures InSpace(base, at, rest) && rest % PAGE_SIZE == 0 && (rest > 0 ==> at % PAGE_SIZE == 0)
    {
      at, rest := va, size;
      BaseAligned(mem, place, root, base);
      StartInside(base, va, size);
      hide Valid, Span, Settles, EditSize, EditStart, OnPage, PagesOf;
      while rest != 0 && !OnPage(at)
        invariant Valid() && mem == old(mem) && pool == old(pool)
        invariant overwrote == old(overwrote) && failures == old(failures) && starved == old(starved)
        invariant EditStart(va, size) <= at <= va && rest == size + (va - at) && (size == 0 ==> at == va)
        decreases at
      {
        NotBefore(va, size, at);
        Refused(at, rest, isUnmap, attr);
        rest := rest + 1;
        at := at - 1;
      }
      Settled(va, size, at);
    }

    /** A turn off a page boundary: ummap_single_entry_r returns (size_t)-1 and does nothing. */
    method Refused(va: nat, size: nat, isUnmap: bool, attr: nat)
      requires Valid() && size > 0 && !(OnPage(va) && OnPage(size))
      modifies this
      ensures Valid() && mem == old(mem) && pool == old(pool)
      ensures overwrote == old(overwrote) && failures == old(failures) && starved == old(starved)
    {
      hide Valid, Applied, AllMapped, SameWalks, Walk, PagesOf;
      var step := UnmapSingle(va, size, isUnmap, attr);
      assert step == -1;
    }

    /**
     That loop on a range that does not end at a page boundary, in 64-bit arithmetic: however many
     turns it makes, every one is refused, and no table ever changes. It ends when the size wraps to 0.
     */
    method StuckTurns(va: nat, size: nat, turns: nat, isUnmap: bool, attr: nat) returns (at: nat, rest: nat, ran: nat)
      requires Valid() && va < U64 && size < U64 && !OnPage(va + size)
      modifies this
      ensures Valid() && mem == old(mem) && overwrote == old(overwrote) && failures == old(failures)
      ensures at == TurnAt(va, ran) && rest == TurnSize(size, ran)
      ensures ran <= turns && (ran < turns ==> rest == 0)
    {
      hide Valid, TurnAt, TurnSize, OnPage, Plus, Minus, PagesOf;
      FirstTurn(va, size);
      at, rest, ran := va, size, 0;
      while ran < turns && rest != 0
        invariant Valid() && mem == old(mem) && overwrote == old(overwrote) && failures == old(failures)
        invariant at == TurnAt(va, ran) && rest == TurnSize(size, ran) && ran <= turns
      {
        NeverSettles(va, size, ran);
        Refused(at, rest, isUnmap, attr);
        NextTurn(va, size, ran);
        rest := Minus(rest, U64 - 1);
        at := Plus(at, U64 - 1);
        ran := ran + 1;
      }
    }

    /** The turns of that loop from a page boundary on. */
    method EditPages(va: nat, size: nat, isUnmap: bool, attr: nat) returns (done: nat)
      requires Valid() && InSpace(base, va, size) && size % PAGE_SIZE == 0 && (size > 0 ==> va % PAGE_SIZE == 0)
      modifies this
      ensures Valid() && overwrote == old(overwrote) && Kept()
      ensures done <= size && done % PAGE_SIZE == 0
      ensures Applied(old(mem), mem, root, base, if isUnmap then OpUnmap(va) else OpModify(va, attr), done)
      ensures AllMapped(old(mem), root, va, va + done)
      ensures failures > old(failures) ==> |old(pool)| < 3 * (size / PAGE_SIZE)
      ensures done == size || failures > old(failures) || Walk(old(mem), root, 0, va + done).None?
    {
      hide Valid, SameWalks, Applied, AllMapped, Walk, PagesOf, Span, PageCount;
      PageCountIs(size);
      ghost var op := if isUnmap then OpUnmap(va) else OpModify(va, attr);
      var rest, at := size, va;
      SameWalksRefl(mem, root, base);
      SameIsApplied(mem, mem, root, base, op);
      NoBytes(mem, root, va);
      done := 0;
      while rest != 0
        invariant Valid() && overwrote == old(overwrote) && Kept() && failures == old(failures)
        invariant |pool| >= |old(pool)| - 3 * PageCount(done)
        invariant done <= size && done % PAGE_SIZE == 0 && rest == size - done && at == va + done
        invariant rest % PAGE_SIZE == 0 && (rest > 0 ==> at % PAGE_SIZE == 0)
        invariant Applied(old(mem), mem, root, base, op, done)
        invariant AllMapped(old(mem), root, va, va + done)
        decreases rest
      {
        ghost var mid := mem;
        MorePage(done, PAGE_SIZE, size);
        var step := UnmapSingle(at, rest, isUnmap, attr);
        if step == 0 {
          AppliedAhead(old(mem), mid, root, base, op, done, at, at + 1);
          AppliedThenSame(old(mem), mid, mem, root, base, op, done);
          return;
        }
        AppliedAhead(old(mem), mid, root, base, op, done, at, at + step);
        AppliedInPieces(old(mem), mid, mem, root, base, op, done, step);
        MorePages(old(mem), root, va, at, at + step);
        MorePage(done, step, size);
        MorePage(at, step, at + step);
        rest := rest - step;
        at := at + step;
        done := done + step;
      }
    }

    // ---------------------------------------------------------------- mapping and translating

    /** mmu_map_r: entries of one level, stopping at the first that fails. */
    method MapRange(va: nat, pa: nat, size: nat, attr: nat) returns (ok: bool, ghost done: nat)
      requires Valid() && (va % PAGE_SIZE == 0 ==> InSpace(base, va, size))
      modifies this
      ensures Valid() && Kept()
      ensures Applied(old(mem), mem, root, base, OpMap(va, pa, attr), done)
      ensures done <= size && done % PAGE_SIZE == 0 && Aligned(MapLevel(va, pa, size), done)
      ensures ok ==> done == size - size % PAGE_SIZE
      ensures if failures > old(failures) then |old(pool)| < 3 * (size / PAGE_SIZE)
              else |pool| >= |old(pool)| - 3 * (size / PAGE_SIZE)
      ensures va % PAGE_SIZE != 0 || pa % PAGE_SIZE != 0 ==> !ok && done == 0 && mem == old(mem)
      ensures !ok && va % PAGE_SIZE == 0 && pa % PAGE_SIZE == 0 ==>
                done < size && (failures > old(failures) || Walk(old(mem), root, 0, va + done).Some?)
      ensures overwrote <==> old(overwrote) || TablesIn(old(mem), root, MapLevel(va, pa, size), va, va + done)
      ensures !old(starved) && va % PAGE_SIZE == 0 && NoneMapped(old(mem), root, va, va + size) ==>
                overwrote == old(overwrote)
    {
      hide Located, NoEmpty, NoLeak, SameWalks, Applied, NoneMapped, PoolOk, Walk, MapLevel, TableBelow, PagesOf;
      hide SizeOf;
      SameWalksRefl(mem, root, base);
      SameIsApplied(mem, mem, root, base, OpMap(va, pa, attr));
      var level := GetMapLevel(va, pa, size);
      var count := size / LevelSize(level);
      PageAligned(level, va);
      PageAligned(level, pa);
      if pa % LevelSize(level) != 0 {
        return false, 0;
      }
      if va % LevelSize(level) != 0 {
        return false, 0;
      }
      WholePages(level, size);
      NoneMappedPart(mem, root, va, va + size, va, va + SizeOf(count, level));
      ok, done := MapEntries(level, va, pa, count, attr);
      PageAligned(level, done);
    }

    /** The loop of mmu_map_r over `count` entries of one level. */
    method MapEntries(level: Level, va: nat, pa: nat, count: nat, attr: nat) returns (ok: bool, ghost done: nat)
      requires Valid() && level >= MIN_MAP_LEVEL && InSpace(base, va, SizeOf(count, level))
      requires Aligned(level, va) && Aligned(level, pa)
      modifies this
      ensures Valid() && Kept()
      ensures Applied(old(mem), mem, root, base, OpMap(va, pa, attr), done)
      ensures Aligned(level, done)
      ensures done <= SizeOf(count, level) && (ok <==> done == SizeOf(count, level))
      ensures if failures > old(failures) then |old(pool)| < 3 * count else |pool| >= |old(pool)| - 3 * count
      ensures ok || failures > old(failures) || Walk(old(mem), root, 0, va + done).Some?
      ensures overwrote <==> old(overwrote) || TablesIn(old(mem), root, level, va, va + done)
      ensures !old(starved) && NoneMapped(old(mem), root, va, va + SizeOf(count, level)) ==>
                overwrote == old(overwrote)
    {
      hide Valid, Mapped, Applied, NoneMapped, Walk, LevelSize, Span, Aligned, TablesIn, SizeOf, PagesOf;
      NothingMapped(level, va, pa, attr);
      ghost var total := SizeOf(count, level);
      SizeStep(0, level);
      var i := 0;
      var v, p := va, pa;
      done := 0;
      while i < count
        invariant 0 <= i <= count && done + SizeOf(count - i, level) == total
        invariant v == va + done && p == pa + done
        invariant Mapped(old(mem), old(overwrote), level, va, pa, attr, done)
        invariant Kept() && failures == old(failures) && |pool| >= |old(pool)| - 3 * i
        invariant !old(starved) && NoneMapped(old(mem), root, va, va + total) ==> overwrote == old(overwrote)
      {
        SizeStep(count - i, level);
        NoneMappedPart(old(mem), root, va, va + total, v, v + LevelSize(level));
        var single := MapNext(level, va, pa, attr, v, p, old(mem), old(overwrote), done);
        if !single {
          MappedIs(old(mem), old(overwrote), level, va, pa, attr, done);
          return false, done;
        }
        v := v + LevelSize(level);
        p := p + LevelSize(level);
        done := done + LevelSize(level);
        i := i + 1;
      }
      MappedIs(old(mem), old(overwrote), level, va, pa, attr, done);
      ok := true;
    }

    /** `done` bytes from `va` on have been mapped since the tables were `was`, in entries of one level. */
    ghost predicate Mapped(was: Memory, over: bool, level: Level, va: nat, pa: nat, attr: nat, done: nat)
      reads this
    {
      && Valid() && Aligned(level, va) && Aligned(level, pa) && Aligned(level, done)
      && Applied(was, mem, root, base, OpMap(va, pa, attr), done)
      && Unreferred(was, mem, root, base, level, va, va + done)
      && (overwrote <==> over || TablesIn(was, root, level, va, va + done))
    }

    lemma MappedIs(was: Memory, over: bool, level: Level, va: nat, pa: nat, attr: nat, done: nat)
      requires Mapped(was, over, level, va, pa, attr, done)
      ensures Valid() && Aligned(level, done) && Applied(was, mem, root, base, OpMap(va, pa, attr), done)
      ensures overwrote <==> over || TablesIn(was, root, level, va, va + done)
    {
    }

    lemma NothingMapped(level: Level, va: nat, pa: nat, attr: nat)
      requires Valid() && Aligned(level, va) && Aligned(level, pa)
      ensures Mapped(mem, overwrote, level, va, pa, attr, 0)
    {
      hide Valid, Applied, Unreferred, TablesIn;
      SameWalksRefl(mem, root, base);
      SameIsApplied(mem, mem, root, base, OpMap(va, pa, attr));
      SameBelowRefl(mem, root, base);
      SameIsUnreferred(mem, mem, root, base, level, va);
      NoTables(mem, root, level, va);
    }

    /** The next entry of that loop. */
    method MapNext(level: Level, ghost va: nat, ghost pa: nat, attr: nat, v: nat, p: nat,
                   ghost was: Memory, ghost over: bool, ghost done: nat) returns (single: bool)
      requires Mapped(was, over, level, va, pa, attr, done) && v == va + done && p == pa + done
      requires level >= MIN_MAP_LEVEL && base <= va && v + LevelSize(level) <= base + Span(0)
      modifies this
      ensures Kept() && Mapped(was, over, level, va, pa, attr, if single then done + LevelSize(level) else done)
      ensures if failures > old(failures) then |old(pool)| < 3 else |pool| >= |old(pool)| - 3
      ensures single ==> failures == old(failures)
      ensures single || failures > old(failures) || Walk(was, root, 0, v).Some?
      ensures !old(starved) && NoneMapped(was, root, v, v + LevelSize(level)) ==> overwrote == old(overwrote)
    {
      hide Valid, Applied, NoneMapped, Walk, Aligned, TableBelow, Unreferred, TablesIn, PagesOf;
      ghost var mid, op := mem, OpMap(va, pa, attr);
      AlignedSum(level, va, done);
      AlignedSum(level, pa, done);
      AppliedAhead(was, mid, root, base, op, done, v, v + LevelSize(level));
      UnreferredAhead(was, mid, root, base, level, va, v);
      TablesMore(was, root, level, va, v);
      single := MapSingle(level, v, p, attr);
      UnreferredTrans(was, mid, mem, root, base, level, va, v, if single then v + LevelSize(level) else v);
      AppliedInPieces(was, mid, mem, root, base, op, done, if single then LevelSize(level) else 0);
      NextAligned(level, done);
    }

    /** mmu_v2p_r: the physical address, or 0. */
    method V2p(va: nat) returns (pa: nat)
      requires Valid() && InTable(0, base, va)
      ensures pa == match Walk(mem, root, 0, va) { case Some(m) => m.pa case None => 0 }
    {
      var m := Lookup(va);
      pa := if m.Some? then m.value.pa else 0;
    }

    /** mmu_get_attr_r: the attributes, or 0. */
    method GetAttr(va: nat) returns (attr: nat)
      requires Valid() && InTable(0, base, va)
      ensures attr == match Walk(mem, root, 0, va) { case Some(m) => m.attr case None => 0 }
    {
      var m := Lookup(va);
      attr := if m.Some? then m.value.attr else 0;
    }

    /** The loop that mmu_v2p_r and mmu_get_attr_r share. */
    method Lookup(va: nat) returns (r: Option<Mapping>)
      requires Valid() && InTable(0, base, va)
      ensures r == Walk(mem, root, 0, va)
    {
      var pte := root;
      var level := 0;
      while level < MAX_LEVEL + 1
        invariant 0 <= level <= MAX_LEVEL
        invariant pte in mem && place[pte].level == level && Covers(place[pte], va)
        invariant Walk(mem, root, 0, va) == Walk(mem, pte, level, va)
        decreases MAX_LEVEL - level
      {
        StepDown(mem, place, root, base, pte, va);
        var value := mem[pte][Off(level, va)];
        if value.Table? && level < MAX_LEVEL {
          pte := value.next;
        } else if value.Invalid? {
          return None;
        } else {
          return Some(Mapping(value.pa + (va - (va - va % LevelSize(level))), value.attr));
        }
        level := level + 1;
      }
      r := None;
    }
  }

  /** The coarsest level that divides all three, or the page level. */
  function MapLevel(va: nat, pa: nat, size: nat): (level: Level)
    ensures MIN_MAP_LEVEL <= level
  {
    if Aligned(1, va) && Aligned(1, pa) && Aligned(1, size) then 1
    else if Aligned(2, va) && Aligned(2, pa) && Aligned(2, size) then 2
    else MAX_LEVEL
  }

  /** GET_MAP_LEVEL. */
  method GetMapLevel(va: nat, pa: nat, size: nat) returns (level: Level)
    ensures level == MapLevel(va, pa, size)
    ensures level < MAX_LEVEL ==> Aligned(level, va) && Aligned(level, pa) && Aligned(level, size)
    ensures forall l: Level :: MIN_MAP_LEVEL <= l < level ==> !(Aligned(l, va) && Aligned(l, pa) && Aligned(l, size))
  {
    level := MIN_MAP_LEVEL;
    while level < MAX_LEVEL
      invariant MIN_MAP_LEVEL <= level <= MAX_LEVEL
      invariant forall l: Level :: MIN_MAP_LEVEL <= l < level ==> !(Aligned(l, va) && Aligned(l, pa) && Aligned(l, size))
    {
      if va % LevelSize(level) == 0 && pa % LevelSize(level) == 0 && size % LevelSize(level) == 0 {
        return;
      }
      level := level + 1;
    }
  }

  lemma PageAligned(level: Level, a: nat)
    ensures Aligned(level, a) ==> a % PAGE_SIZE == 0
  {
    var m := a / LevelSize(level);
    var pages := if level == 0 then 0x800_0000 else if level == 1 then 0x4_0000 else if level == 2 then 512 else 1;
    if Aligned(level, a) {
      assert a == m * LevelSize(level);
      assert LevelSize(level) == pages * PAGE_SIZE;
      Multiple(a, m, pages);
    }
  }

  lemma Multiple(a: nat, m: nat, pages: nat)
    requires a == m * (pages * PAGE_SIZE)
    ensures a % PAGE_SIZE == 0
  {
    assert a == (m * pages) * PAGE_SIZE;
    MulMod(m * pages, PAGE_SIZE);
  }

  /** The bytes that `n` entries at `level` map. */
  function SizeOf(n: nat, level: Level): nat {
    n * LevelSize(level)
  }

  lemma SizeStep(n: nat, level: Level)
    ensures SizeOf(n, level) == if n == 0 then 0 else LevelSize(level) + SizeOf(n - 1, level)
  {
  }

  lemma NextAligned(level: Level, a: nat)
    ensures Aligned(level, a) ==> Aligned(level, a + LevelSize(level))
  {
  }

  lemma AlignedSum(level: Level, a: nat, b: nat)
    requires Aligned(level, a) && Aligned(level, b)
    ensures Aligned(level, a + b)
  {
  }

  function PageCount(size: nat): nat {
    size / PAGE_SIZE
  }

  lemma PageCountIs(size: nat)
    ensures PageCount(0) == 0 && PageCount(size) == size / PAGE_SIZE
  {
  }

  /** A step of whole pages is at least one page. */
  lemma MorePage(done: nat, step: nat, size: nat)
    requires done % PAGE_SIZE == 0 && step % PAGE_SIZE == 0 && step > 0 && done + step <= size
    ensures PageCount(done) + 1 <= PageCount(done + step) <= PageCount(size) && (done + step) % PAGE_SIZE == 0
    ensures size % PAGE_SIZE == 0 ==> (size - (done + step)) % PAGE_SIZE == 0
  {
  }

  lemma WholePages(level: Level, size: nat)
    requires level < MAX_LEVEL ==> Aligned(level, size)
    ensures SizeOf(size / LevelSize(level), level) == size - size % PAGE_SIZE <= size
    ensures size / LevelSize(level) <= size / PAGE_SIZE
  {
    DivBounds(size, LevelSize(level));
    PageAligned(level, size);
  }

  lemma NoneMappedPart(mem: Memory, root: nat, lo: nat, hi: nat, lo': nat, hi': nat)
    requires lo <= lo' && hi' <= hi
    ensures NoneMapped(mem, root, lo, hi) ==> NoneMapped(mem, root, lo', hi')
  {
  }

  /**
   Where the loops of mmu_unmap_r and arm_mmu_modify get to with an address or size that is not
   a whole number of pages: ummap_single_entry_r returns (size_t)-1, which moves the address back
   by one byte and makes the size one byte larger, until both fit. They do so at some turn
   exactly if the range ends at a page boundary.
   */
  predicate Settles(va: nat, size: nat) {
    size == 0 || (va + size) % PAGE_SIZE == 0
  }

  /** The range that is then worked on. */
  function EditStart(va: nat, size: nat): nat {
    if size == 0 then va else va - va % PAGE_SIZE
  }

  function EditSize(va: nat, size: nat): nat {
    if size == 0 then 0 else size + va % PAGE_SIZE
  }

  /** The address and the size before turn `n`, if every turn before it was refused. */
  function TurnAt(va: nat, n: nat): (r: nat)
    ensures r < U64
  {
    (va - n) % U64
  }

  function TurnSize(size: nat, n: nat): (r: nat)
    ensures r < U64
  {
    (size + n) % U64
  }

  /** Otherwise no turn ever sees a whole number of pages. */
  lemma NeverSettles(va: nat, size: nat, n: nat)
    requires !OnPage(va + size)
    ensures !(OnPage(TurnAt(va, n)) && OnPage(TurnSize(size, n)))
  {
    var a, b := TurnAt(va, n), TurnSize(size, n);
    var i, j := (va - n) / U64, (size + n) / U64;
    assert va - n == i * U64 + a && size + n == j * U64 + b;
    assert va + size == (i + j) * U64 + a + b;
  }

  /** A refused turn adds (size_t)-1 to the address and subtracts it from the size. */
  lemma NextTurn(va: nat, size: nat, n: nat)
    ensures Plus(TurnAt(va, n), U64 - 1) == TurnAt(va, n + 1)
    ensures Minus(TurnSize(size, n), U64 - 1) == TurnSize(size, n + 1)
  {
    var a, b := va - n, size + n;
    assert TurnAt(va, n) + (U64 - 1) == a - 1 + (1 - a / U64) * U64;
    Wrapped(a - 1, 1 - a / U64);
    assert TurnSize(size, n) - (U64 - 1) == b + 1 + (-1 - b / U64) * U64;
    Wrapped(b + 1, -1 - b / U64);
  }

  lemma Wrapped(x: int, k: int)
    ensures (x + k * U64) % U64 == x % U64
  {
    FloorUnique(x + k * U64, U64, x / U64 + k);
  }

  lemma FirstTurn(va: nat, size: nat)
    requires va < U64 && size < U64
    ensures TurnAt(va, 0) == va && TurnSize(size, 0) == size
  {
  }

  /** Addition and subtraction of size_t. */
  function Plus(a: nat, b: nat): nat {
    (a + b) % U64
  }

  function Minus(a: nat, b: nat): nat {
    (a - b) % U64
  }

  const U64 := 0x1_0000_0000_0000_0000

  lemma StartInside(base: nat, va: nat, size: nat)
    requires base % PAGE_SIZE == 0 && InSpace(base, va, size)
    ensures base <= EditStart(va, size) && (size > 0 ==> InTable(0, base, va))
  {
  }

  predicate OnPage(va: nat) {
    va % PAGE_SIZE == 0
  }

  lemma NotBefore(va: nat, size: nat, at: nat)
    requires EditStart(va, size) <= at <= va && !OnPage(at) && (size == 0 ==> at == va)
    ensures size > 0 ==> EditStart(va, size) <= at - 1
  {
  }

  /** The only page boundary on the way back is the start. */
  lemma Settled(va: nat, size: nat, at: nat)
    requires Settles(va, size) && EditStart(va, size) <= at <= va
    requires if size == 0 then at == va else OnPage(at)
    ensures at == EditStart(va, size) && size + (va - at) == EditSize(va, size) && EditSize(va, size) % PAGE_SIZE == 0
    ensures size > 0 ==> at % PAGE_SIZE == 0
  {
  }

  ghost predicate InSpace(base: nat, va: nat, size: nat) {
    base <= va && va + size <= base + Span(0)
  }

  lemma BaseAligned(mem: Memory, place: map<nat, Place>, root: nat, base: nat)
    requires Located(mem, place, root, base)
    ensures base % PAGE_SIZE == 0
  {
    assert TableOk(place, root, mem[root]);
  }

  lemma NotMapped(mem: Memory, root: nat, path: seq<nat>, va: nat)
    requires PathOk(mem, root, path, va) && mem[path[|path| - 1]][Off(|path| - 1, va)] == Invalid
    ensures Walk(mem, root, 0, va).None?
  {
    PathWalk(mem, root, path, va, |path| - 1);
  }

  /** A page descriptor sits at the last level. */
  lemma LeafLevel(mem: Memory, place: map<nat, Place>, root: nat, base: nat, path: seq<nat>, va: nat)
    requires Located(mem, place, root, base) && PathOk(mem, root, path, va) && InTable(0, base, va)
    ensures mem[path[|path| - 1]][Off(|path| - 1, va)].Page? ==> |path| - 1 == MAX_LEVEL
    ensures Aligned(|path| - 1, va) ==> va + LevelSize(|path| - 1) <= base + Span(0)
  {
    PathPlaced(mem, place, root, base, path, va, |path| - 1);
    StepDown(mem, place, root, base, path[|path| - 1], va);
    assert TableOk(place, root, mem[root]);
    if Aligned(|path| - 1, va) {
      EntryInSpace(|path| - 1, base, va);
    }
  }

  lemma BlockLevel(mem: Memory, place: map<nat, Place>, root: nat, base: nat, path: seq<nat>, va: nat)
    requires Located(mem, place, root, base) && PathOk(mem, root, path, va) && InTable(0, base, va)
    ensures mem[path[|path| - 1]][Off(|path| - 1, va)].Block? ==> |path| - 1 < MAX_LEVEL
  {
    PathPlaced(mem, place, root, base, path, va, |path| - 1);
    StepDown(mem, place, root, base, path[|path| - 1], va);
  }

  lemma NoEmptyDone(mem: Memory, root: nat, p: nat, isRoot: bool)
    requires p in mem && (if isRoot then p == root else !IsEmpty(mem[p]))
    ensures NoEmpty(mem, root, {p}) ==> NoEmpty(mem, root, {})
  {
  }

  lemma NotRoot(mem: Memory, place: map<nat, Place>, root: nat, base: nat, path: seq<nat>, va: nat)
    requires Located(mem, place, root, base) && PathOk(mem, root, path, va) && InTable(0, base, va) && |path| >= 2
    ensures path[|path| - 1] != root
  {
    PathPlaced(mem, place, root, base, path, va, |path| - 1);
  }

  /** A leaf in the way of a walk already maps the address. */
  lemma BlockedBy(mem: Memory, root: nat, path: seq<nat>, va: nat)
    requires PathOk(mem, root, path, va)
    requires var d := mem[path[|path| - 1]][Off(|path| - 1, va)]; d.Block? || d.Page?
    ensures Walk(mem, root, 0, va).Some?
  {
    PathWalk(mem, root, path, va, |path| - 1);
  }

  /** Following a reference extends the path. */
  lemma NextTable(mem: Memory, place: map<nat, Place>, root: nat, base: nat, path: seq<nat>, va: nat)
    requires Located(mem, place, root, base) && PathOk(mem, root, path, va) && InTable(0, base, va)
    requires mem[path[|path| - 1]][Off(|path| - 1, va)].Table?
    ensures |path| < 4
    ensures PathOk(mem, root, path + [mem[path[|path| - 1]][Off(|path| - 1, va)].next], va)
  {
    var l := |path| - 1;
    PathPlaced(mem, place, root, base, path, va, l);
    StepDown(mem, place, root, base, path[l], va);
    PathSnoc(mem, root, path, mem[path[l]][Off(l, va)].next, va);
  }

  /** Without empty tables a reference covers some mapped address. */
  lemma NothingToOverwrite(mem: Memory, place: map<nat, Place>, root: nat, base: nat, path: seq<nat>, va: nat)
    requires Located(mem, place, root, base) && PathOk(mem, root, path, va) && InTable(0, base, va)
    requires NoEmpty(mem, root, {}) && Aligned(|path| - 1, va)
    requires NoneMapped(mem, root, va, va + LevelSize(|path| - 1))
    ensures path[|path| - 1] in mem && !mem[path[|path| - 1]][Off(|path| - 1, va)].Table?
  {
    hide PathOk, Walk, Off, LevelSize;
    PathEnd(mem, root, path, va);
    var l := |path| - 1;
    var p := path[l];
    PathPlaced(mem, place, root, base, path, va, l);
    StepDown(mem, place, root, base, p, va);
    var d := mem[p][Off(l, va)];
    if d.Table? {
      OneReference(mem, place, root, base, p, Off(l, va), p, Off(l, va), d.next);
      var va' := MapsSomething(mem, place, root, base, d.next);
      AlignedEntry(l, place[p].base, va);
      EntryRange(mem, place, root, base, path, va, va');
      PutEffect(mem, place, root, base, path, va, d, va');
      assert false;
    }
  }
}
