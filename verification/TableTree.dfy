/**
 Shape properties of the table tree: which tables can be reached, that they form a
 tree, that none is empty and that none is lost.
 */
module TableTree {
  import opened Arith
  import opened Geometry
  import opened Options
  import opened PageTable

  predicate IsEmpty(entries: Entries) {
    forall i :: 0 <= i < 512 ==> entries[i].Invalid?
  }

  /** No table other than the root and those in `except` is empty. */
  ghost predicate NoEmpty(mem: Memory, root: nat, except: set<nat>) {
    forall p :: p in mem && p != root && p !in except ==> !IsEmpty(mem[p])
  }

  lemma NoEmptyWeaken(mem: Memory, root: nat, p: nat)
    ensures NoEmpty(mem, root, {}) ==> NoEmpty(mem, root, {p})
  {
  }

  /** The entry for the place of `p` refers to `p`. */
  ghost predicate Linked(mem: Memory, place: map<nat, Place>, p: nat)
    requires p in place
  {
    var pl := place[p];
    pl.level > 0 && pl.parent in mem && mem[pl.parent][Off(pl.level - 1, pl.base)] == Table(p)
  }

  /** Every table but the root is referred to by its parent. */
  ghost predicate NoLeak(mem: Memory, place: map<nat, Place>, root: nat) {
    forall p :: p in mem && p != root ==> p in place && Linked(mem, place, p)
  }

  /** The table that a walk for `va` reaches at level `target`, if it gets there. */
  function TableAt(mem: Memory, p: nat, level: Level, target: Level, va: nat): Option<nat>
    requires level <= target
    decreases target - level
  {
    if p !in mem then None
    else if level == target then Some(p)
    else match mem[p][Off(level, va)]
      case Table(q) => TableAt(mem, q, level + 1, target, va)
      case _ => None
  }

  ghost predicate Reachable(mem: Memory, root: nat, base: nat, t: nat) {
    exists level: Level, va :: InTable(0, base, va) && TableAt(mem, root, 0, level, va) == Some(t)
  }

  // ------------------------------------------------------------------ the tree

  lemma {:induction false} TableAtPlace(mem: Memory, place: map<nat, Place>, root: nat, base: nat,
                                        p: nat, target: Level, va: nat)
    requires Located(mem, place, root, base) && p in mem && Covers(place[p], va) && place[p].level <= target
    ensures var r := TableAt(mem, p, place[p].level, target, va);
            r.Some? ==> r.value in mem && place[r.value].level == target && Covers(place[r.value], va)
    decreases target - place[p].level
  {
    if place[p].level < target {
      StepDown(mem, place, root, base, p, va);
      var d := mem[p][Off(place[p].level, va)];
      if d.Table? {
        TableAtPlace(mem, place, root, base, d.next, target, va);
      }
    }
  }

  lemma SameRegion(level: Level, base: nat, va: nat)
    requires base % Span(level) == 0 && InTable(level, base, va)
    ensures va / Span(level) == base / Span(level)
  {
    var d := Span(level);
    DivBounds(base, d);
    DivUnique(va, d, base / d);
  }

  /** Reachable tables form a tree: a table is reached at one level and from one region only. */
  lemma TreeShape(mem: Memory, place: map<nat, Place>, root: nat, base: nat, t: nat,
                  l1: Level, va1: nat, l2: Level, va2: nat)
    requires Located(mem, place, root, base) && InTable(0, base, va1) && InTable(0, base, va2)
    requires TableAt(mem, root, 0, l1, va1) == Some(t) && TableAt(mem, root, 0, l2, va2) == Some(t)
    ensures t in mem && l1 == l2 && va1 / Span(l1) == va2 / Span(l2)
  {
    TableAtPlace(mem, place, root, base, root, l1, va1);
    TableAtPlace(mem, place, root, base, root, l2, va2);
    assert TableOk(place, t, mem[t]);
    SameRegion(l1, place[t].base, va1);
    SameRegion(l2, place[t].base, va2);
  }

  /** No table is reached twice. */
  ghost predicate IsTree(mem: Memory, root: nat, base: nat) {
    forall t: nat, l1: Level, va1: nat, l2: Level, va2: nat ::
      InTable(0, base, va1) && InTable(0, base, va2) &&
      TableAt(mem, root, 0, l1, va1) == Some(t) && TableAt(mem, root, 0, l2, va2) == Some(t) ==>
      t in mem && l1 == l2 && va1 / Span(l1) == va2 / Span(l2)
  }

  lemma LocatedIsTree(mem: Memory, place: map<nat, Place>, root: nat, base: nat)
    requires Located(mem, place, root, base)
    ensures IsTree(mem, root, base)
  {
    hide Located, TableAt, InTable, Span;
    forall t: nat, l1: Level, va1: nat, l2: Level, va2: nat |
        InTable(0, base, va1) && InTable(0, base, va2) &&
        TableAt(mem, root, 0, l1, va1) == Some(t) && TableAt(mem, root, 0, l2, va2) == Some(t)
      ensures t in mem && l1 == l2 && va1 / Span(l1) == va2 / Span(l2)
    {
      TreeShape(mem, place, root, base, t, l1, va1, l2, va2);
    }
  }

  /** A walk never leaves the allocated tables, so a freed table is not reachable. */
  lemma ReachableAllocated(mem: Memory, place: map<nat, Place>, root: nat, base: nat, t: nat)
    requires Located(mem, place, root, base) && Reachable(mem, root, base, t)
    ensures t in mem
  {
    var level: Level, va :| InTable(0, base, va) && TableAt(mem, root, 0, level, va) == Some(t);
    TableAtPlace(mem, place, root, base, root, level, va);
  }

  /** The tables that some walk reaches. */
  ghost function ReachableSet(mem: Memory, root: nat, base: nat): set<nat> {
    set t | t in mem && Reachable(mem, root, base, t)
  }

  lemma {:induction false} TableAtPath(mem: Memory, root: nat, path: seq<nat>, va: nat, k: nat)
    requires PathOk(mem, root, path, va) && k < |path|
    ensures TableAt(mem, path[k], k, |path| - 1, va) == Some(path[|path| - 1])
    decreases |path| - k
  {
    if k < |path| - 1 {
      assert mem[path[k]][Off(k, va)] == Table(path[k + 1]);
      TableAtPath(mem, root, path, va, k + 1);
    }
  }

  /** With no table lost, the path to every table can be read off its place. */
  lemma {:induction false} PathTo(mem: Memory, place: map<nat, Place>, root: nat, base: nat, p: nat)
    returns (path: seq<nat>)
    requires Located(mem, place, root, base) && NoLeak(mem, place, root) && p in mem
    ensures PathOk(mem, root, path, place[p].base) && path[|path| - 1] == p
    ensures |path| == place[p].level + 1 && InTable(0, base, place[p].base)
    decreases place[p].level
  {
    if p == root {
      path := [root];
    } else {
      assert Linked(mem, place, p);
      var q := place[p].parent;
      var i := Off(place[p].level - 1, place[p].base);
      assert TableOk(place, q, mem[q]);
      assert DescOk(place, q, place[q], i, mem[q][i]);
      var up := PathTo(mem, place, root, base, q);
      OffIsEntry(place[q].level, place[q].base, i, place[p].base);
      MulLe(i, 511, LevelSize(place[q].level));
      PathShare(mem, place, root, base, up, place[q].base, place[p].base);
      PathSnoc(mem, root, up, p, place[p].base);
      path := up + [p];
    }
  }

  /** With no table lost, the reachable tables are all the allocated ones. */
  lemma AllReachable(mem: Memory, place: map<nat, Place>, root: nat, base: nat)
    requires Located(mem, place, root, base) && NoLeak(mem, place, root)
    ensures forall t :: t in mem <==> Reachable(mem, root, base, t)
  {
    forall t | t in mem ensures Reachable(mem, root, base, t) {
      var path := PathTo(mem, place, root, base, t);
      TableAtPath(mem, root, path, place[t].base, 0);
      assert TableAt(mem, root, 0, place[t].level, place[t].base) == Some(t);
    }
    forall t | Reachable(mem, root, base, t) ensures t in mem {
      ReachableAllocated(mem, place, root, base, t);
    }
  }

  /** A tree without empty tables maps something below each of them. */
  lemma {:induction false} MapsSomething(mem: Memory, place: map<nat, Place>, root: nat, base: nat, p: nat)
    returns (va: nat)
    requires Located(mem, place, root, base) && NoEmpty(mem, root, {}) && p in mem && p != root
    ensures Covers(place[p], va) && Walk(mem, p, place[p].level, va).Some?
    decreases MAX_LEVEL - place[p].level
  {
    assert !IsEmpty(mem[p]);
    var i :| 0 <= i < 512 && !mem[p][i].Invalid?;
    assert TableOk(place, p, mem[p]);
    var l, d := place[p].level, mem[p][i];
    assert DescOk(place, p, place[p], i, d);
    if d.Table? {
      OneReference(mem, place, root, base, p, i, p, i, d.next);
      va := MapsSomething(mem, place, root, base, d.next);
      assert Span(l + 1) == LevelSize(l);
      assert InEntry(l, place[p].base, i, va);
    } else {
      va := place[p].base + i * LevelSize(l);
    }
    OffIsEntry(l, place[p].base, i, va);
  }

  // ------------------------------------------------------------------ what writes keep

  lemma ChildOff(place: map<nat, Place>, p: nat, i: nat)
    requires p in place && place[p].level < MAX_LEVEL && i < 512 && place[p].base % Span(place[p].level) == 0
    ensures Off(place[p].level, Below(place, p, i).base) == i
  {
    OffIsEntry(place[p].level, place[p].base, i, Below(place, p, i).base);
  }

  /** Writing over an entry that is not a reference, with something that is not one, loses nothing. */
  lemma NoLeakPut(mem: Memory, place: map<nat, Place>, root: nat, p: nat, i: nat, d: Desc)
    requires NoLeak(mem, place, root) && p in mem && i < 512 && !mem[p][i].Table?
    ensures NoLeak(Put(mem, p, i, d), place, root)
  {
    var mem' := Put(mem, p, i, d);
    forall t | t in mem' && t != root ensures t in place && Linked(mem', place, t) {
      assert Linked(mem, place, t);
    }
  }

  lemma NoLeakLink(mem: Memory, place: map<nat, Place>, root: nat, base: nat, p: nat, i: nat, page: nat, entries: Entries)
    requires Located(mem, place, root, base) && NoLeak(mem, place, root)
    requires p in mem && i < 512 && !mem[p][i].Table? && place[p].level < MAX_LEVEL && page !in mem
    ensures NoLeak(Put(mem[page := entries], p, i, Table(page)), place[page := Below(place, p, i)], root)
  {
    var place' := place[page := Below(place, p, i)];
    var mem' := Put(mem[page := entries], p, i, Table(page));
    assert TableOk(place, p, mem[p]);
    ChildOff(place, p, i);
    forall t | t in mem' && t != root ensures t in place' && Linked(mem', place', t) {
      if t != page {
        assert Linked(mem, place, t);
      }
    }
  }

  /** Clearing the reference to an empty table and dropping the table. */
  lemma Release(mem: Memory, place: map<nat, Place>, root: nat, base: nat, path: seq<nat>, va: nat)
    requires Located(mem, place, root, base) && PathOk(mem, root, path, va) && InTable(0, base, va)
    requires |path| >= 2 && IsEmpty(mem[path[|path| - 1]])
    ensures var n := |path| - 2; var dead := path[n + 1];
            var mem' := Put(mem, path[n], Off(n, va), Invalid) - {dead};
            && dead != root && dead != path[n] && dead in place
            && Located(mem', place - {dead}, root, base)
            && PathOk(mem', root, path[..n + 1], va)
            && forall va' :: InTable(0, base, va') ==> Walk(mem', root, 0, va') == Walk(mem, root, 0, va')
  {
    var n := |path| - 2;
    var p, dead, i := path[n], path[n + 1], Off(n, va);
    var up := path[..n + 1];
    PathPlaced(mem, place, root, base, path, va, n);
    PathPlaced(mem, place, root, base, path, va, n + 1);
    PathPrefix(mem, root, path, va);
    assert path[..|path| - 1] == up;
    assert mem[path[n]][Off(n, va)] == Table(path[n + 1]);
    var mem1 := Put(mem, p, i, Invalid);
    LocatedPut(mem, place, root, base, p, i, Invalid);
    forall t, j | t in mem1 && 0 <= j < 512 ensures mem1[t][j] != Table(dead) {
      if mem1[t][j] == Table(dead) {
        OneReference(mem, place, root, base, t, j, p, i, dead);
      }
    }
    LocatedDrop(mem1, place, root, base, dead);
    forall va' | InTable(0, base, va') ensures Walk(mem1, root, 0, va') == Walk(mem, root, 0, va') {
      PutEffect(mem, place, root, base, up, va, Invalid, va');
    }
    PutEffect(mem, place, root, base, up, va, Invalid, va);
    ReleasePath(mem1, place, root, base, up, va, dead);
  }

  lemma ReleasePath(mem: Memory, place: map<nat, Place>, root: nat, base: nat, path: seq<nat>, va: nat, dead: nat)
    requires Located(mem, place, root, base) && PathOk(mem, root, path, va) && InTable(0, base, va)
    requires dead in mem && place[dead].level == |path|
    ensures PathOk(mem - {dead}, root, path, va)
  {
    var mem' := mem - {dead};
    forall k | 0 <= k < |path| ensures path[k] in mem' {
      PathPlaced(mem, place, root, base, path, va, k);
    }
    forall k | 0 <= k < |path| - 1 ensures mem'[path[k]][Off(k, va)] == Table(path[k + 1]) {
      assert mem[path[k]][Off(k, va)] == Table(path[k + 1]);
    }
  }

  lemma NoLeakRelease(mem: Memory, place: map<nat, Place>, root: nat, p: nat, i: nat, dead: nat)
    requires NoLeak(mem, place, root) && p in mem && i < 512 && mem[p][i] == Table(dead)
    requires dead in mem && dead != p && IsEmpty(mem[dead])
    ensures NoLeak(Put(mem, p, i, Invalid) - {dead}, place - {dead}, root)
  {
    var mem', place' := Put(mem, p, i, Invalid) - {dead}, place - {dead};
    forall t | t in mem' && t != root ensures t in place' && Linked(mem', place', t) {
      assert Linked(mem, place, t);
      LinkedRelease(mem, place, p, i, dead, t);
    }
  }

  lemma LinkedRelease(mem: Memory, place: map<nat, Place>, p: nat, i: nat, dead: nat, t: nat)
    requires t in place && Linked(mem, place, t) && p in mem && i < 512 && mem[p][i] == Table(dead)
    requires dead in mem && dead != p && IsEmpty(mem[dead]) && t != dead
    ensures Linked(Put(mem, p, i, Invalid) - {dead}, place - {dead}, t)
  {
    var pl := place[t];
    assert pl.parent != dead;
  }

  // ------------------------------------------------------------------ tables below an entry

  /** The entry for `va` of a table at `level` is a reference to a table. */
  predicate TableBelow(mem: Memory, root: nat, level: Level, va: nat) {
    level < MAX_LEVEL && TableAt(mem, root, 0, level + 1, va).Some?
  }

  /** Some entry at `level` for an address in the range is such a reference. */
  ghost predicate TablesIn(mem: Memory, root: nat, level: Level, lo: nat, hi: nat) {
    exists va :: lo <= va < hi && TableBelow(mem, root, level, va)
  }

  lemma {:induction false} TableAtFrom(mem: Memory, root: nat, path: seq<nat>, va: nat, k: nat, target: Level)
    requires PathOk(mem, root, path, va) && k < |path| && k <= target
    ensures TableAt(mem, root, 0, target, va) == TableAt(mem, path[k], k, target, va)
    decreases k
  {
    if k > 0 {
      TableAtFrom(mem, root, path, va, k - 1, target);
      assert mem[path[k - 1]][Off(k - 1, va)] == Table(path[k - 1 + 1]);
    }
  }

  /** At the end of a path it can be read off the entry. */
  lemma BelowEntry(mem: Memory, place: map<nat, Place>, root: nat, base: nat, path: seq<nat>, va: nat)
    requires Located(mem, place, root, base) && PathOk(mem, root, path, va) && InTable(0, base, va)
    ensures TableBelow(mem, root, |path| - 1, va) <==> mem[path[|path| - 1]][Off(|path| - 1, va)].Table?
  {
    var l := |path| - 1;
    PathPlaced(mem, place, root, base, path, va, l);
    StepDown(mem, place, root, base, path[l], va);
    if l < MAX_LEVEL {
      TableAtFrom(mem, root, path, va, l, l + 1);
    }
  }

  /** Two memories lead to the same table when they agree on the entries that the walk reads. */
  lemma {:induction false} TableAtAgree(mem: Memory, place: map<nat, Place>, root: nat, base: nat,
                                        mem': Memory, p: nat, target: Level, va: nat)
    requires Located(mem, place, root, base) && p in mem && Covers(place[p], va) && place[p].level <= target
    requires forall t :: t in mem && Covers(place[t], va) ==>
               t in mem' && mem'[t][Off(place[t].level, va)] == mem[t][Off(place[t].level, va)]
    ensures TableAt(mem', p, place[p].level, target, va) == TableAt(mem, p, place[p].level, target, va)
    decreases target - place[p].level
  {
    if place[p].level < target {
      StepDown(mem, place, root, base, p, va);
      var d := mem[p][Off(place[p].level, va)];
      if d.Table? {
        TableAtAgree(mem, place, root, base, mem', d.next, target, va);
      }
    }
  }

  /** Writing an entry leaves the tables below the other entries of its level alone. */
  lemma BelowPutMiss(mem: Memory, place: map<nat, Place>, root: nat, base: nat, p: nat, i: nat, d: Desc,
                     level: Level, va: nat)
    requires Located(mem, place, root, base) && p in mem && i < 512 && InTable(0, base, va)
    requires !InEntry(place[p].level, place[p].base, i, va)
    ensures TableBelow(Put(mem, p, i, d), root, level, va) == TableBelow(mem, root, level, va)
  {
    var mem' := Put(mem, p, i, d);
    if Covers(place[p], va) {
      assert TableOk(place, p, mem[p]);
      OffIsEntry(place[p].level, place[p].base, i, va);
    }
    if level < MAX_LEVEL {
      TableAtAgree(mem, place, root, base, mem', root, level + 1, va);
    }
  }

  /** The addresses of an entry share what is below it. */
  lemma BelowPutHit(mem: Memory, place: map<nat, Place>, root: nat, base: nat, path: seq<nat>, va: nat,
                    d: Desc, level: Level, va': nat)
    requires Located(mem, place, root, base) && PathOk(mem, root, path, va) && InTable(0, base, va)
    requires InTable(0, base, va') && |path| - 1 <= level < MAX_LEVEL
    requires var l := |path| - 1; path[l] in place && InEntry(l, place[path[l]].base, Off(l, va), va')
    ensures var l := |path| - 1;
            var mem' := Put(mem, path[l], Off(l, va), d);
            TableBelow(mem', root, level, va') ==
            if d.Table? then TableAt(mem', d.next, l + 1, level + 1, va').Some? else false
  {
    var l := |path| - 1;
    var p, i := path[l], Off(l, va);
    var mem' := Put(mem, p, i, d);
    PathPlaced(mem, place, root, base, path, va, l);
    assert TableOk(place, p, mem[p]);
    OffIsEntry(l, place[p].base, i, va');
    PathShare(mem, place, root, base, path, va, va');
    PutEffect(mem, place, root, base, path, va', d, va');
    TableAtFrom(mem', root, path, va', l, level + 1);
  }

  lemma {:induction false} TableAtShared(mem: Memory, p: nat, level: Level, target: Level, va: nat, va': nat)
    requires level <= target && 0 < target && Aligned(target - 1, va) && va <= va' < va + LevelSize(target - 1)
    ensures TableAt(mem, p, level, target, va') == TableAt(mem, p, level, target, va)
    decreases target - level
  {
    if level < target && p in mem {
      SameOff(level, target - 1, va, va');
      if mem[p][Off(level, va)].Table? {
        TableAtShared(mem, mem[p][Off(level, va)].next, level + 1, target, va, va');
      }
    }
  }

  /** One more entry adds what is below it. */
  lemma TablesMore(mem: Memory, root: nat, level: Level, lo: nat, va: nat)
    requires lo <= va && Aligned(level, va)
    ensures TablesIn(mem, root, level, lo, va + LevelSize(level)) <==>
            TablesIn(mem, root, level, lo, va) || TableBelow(mem, root, level, va)
  {
    forall va': nat | va <= va' < va + LevelSize(level)
      ensures TableBelow(mem, root, level, va') == TableBelow(mem, root, level, va)
    {
      if level < MAX_LEVEL {
        TableAtShared(mem, root, 0, level + 1, va, va');
      }
    }
    hide TableBelow;
    if TableBelow(mem, root, level, va) {
      assert lo <= va < va + LevelSize(level);
    }
  }
}
