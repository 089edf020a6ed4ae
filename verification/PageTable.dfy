/**
 Translation tables as a value: physical pages holding 512 descriptors each, the
 walk the hardware and `mmu_v2p_r` make over them, and what single writes to the
 tables do to every walk.
 */
module PageTable {
  import opened Geometry
  import opened Options

  /** What the low two bits and the address field of a descriptor say. */
  datatype Desc =
    | Invalid
    | Table(next: nat)
    | Block(pa: nat, attr: nat)
    | Page(pa: nat, attr: nat)

  type Entries = s: seq<Desc> | |s| == 512 witness seq(512, _ => Invalid)

  const EMPTY: Entries := seq(512, _ => Invalid)

  /** The table pages that are allocated, by physical page. */
  type Memory = map<nat, Entries>

  /** What one virtual address translates to. */
  datatype Mapping = Mapping(pa: nat, attr: nat)

  /** PAGE_DESC at the last level, BLOCK_DESC above it. */
  function Leaf(level: Level, attr: nat, pa: nat): Desc {
    if level == MAX_LEVEL then Page(Phys(pa), attr) else Block(Phys(pa), attr)
  }

  /** The translation of `va` found by walking down from table `p` at `level`. */
  function Walk(mem: Memory, p: nat, level: Level, va: nat): Option<Mapping>
    decreases MAX_LEVEL - level, 1
  {
    if p in mem then Resolve(mem, mem[p][Off(level, va)], level, va) else None
  }

  /** The translation of `va` when a walk finds descriptor `d` at `level`. */
  function Resolve(mem: Memory, d: Desc, level: Level, va: nat): Option<Mapping>
    decreases MAX_LEVEL - level, 0
  {
    match d
    case Invalid => None
    case Table(q) => if level < MAX_LEVEL then Walk(mem, q, level + 1, va) else None
    case Block(pa, attr) => Some(Mapping(pa + va % LevelSize(level), attr))
    case Page(pa, attr) => Some(Mapping(pa + va % LevelSize(level), attr))
  }

  /** Where a table sits in the tree: its level, the first address it covers, and the table above it. */
  datatype Place = Place(level: Level, base: nat, parent: nat)

  ghost predicate Covers(pl: Place, va: nat) {
    InTable(pl.level, pl.base, va)
  }

  /** A descriptor that entry `i` of a table placed at `pl` may hold. */
  ghost predicate DescOk(place: map<nat, Place>, p: nat, pl: Place, i: nat, d: Desc) {
    match d
    case Invalid => true
    case Table(q) => pl.level < MAX_LEVEL && q in place &&
                     place[q] == Place(pl.level + 1, pl.base + i * LevelSize(pl.level), p)
    case Block(pa, _) => MIN_MAP_LEVEL <= pl.level < MAX_LEVEL && pa % LevelSize(pl.level) == 0 && pa < PHYS_LIMIT
    case Page(pa, _) => pl.level == MAX_LEVEL && pa % PAGE_SIZE == 0 && pa < PHYS_LIMIT
  }

  ghost predicate TableOk(place: map<nat, Place>, p: nat, entries: Entries)
    requires p in place
  {
    && place[p].base % Span(place[p].level) == 0
    && forall i :: 0 <= i < 512 ==> DescOk(place, p, place[p], i, entries[i])
  }

  /** Every table sits at one place, and every reference to it comes from the entry for that place. */
  ghost predicate Located(mem: Memory, place: map<nat, Place>, root: nat, base: nat) {
    && place.Keys == mem.Keys
    && root in mem
    && place[root].level == 0 && place[root].base == base
    && forall p :: p in mem ==> TableOk(place, p, mem[p])
  }

  function Put(mem: Memory, p: nat, i: nat, d: Desc): Memory
    requires p in mem && i < 512
  {
    mem[p := mem[p][i := d]]
  }

  // ------------------------------------------------------------------ steps of a walk

  lemma StepDown(mem: Memory, place: map<nat, Place>, root: nat, base: nat, p: nat, va: nat)
    requires Located(mem, place, root, base) && p in mem && Covers(place[p], va)
    ensures var d := mem[p][Off(place[p].level, va)];
            && DescOk(place, p, place[p], Off(place[p].level, va), d)
            && (d.Table? ==> d.next in mem && Covers(place[d.next], va) && place[d.next].level == place[p].level + 1)
  {
    assert TableOk(place, p, mem[p]);
    OffIsEntry(place[p].level, place[p].base, 0, va);
  }

  /** Two memories give the same walk when they agree on the entries it reads. */
  lemma {:induction false} WalkAgree(mem: Memory, place: map<nat, Place>, root: nat, base: nat,
                                     mem': Memory, dead: set<nat>, p: nat, va: nat)
    requires Located(mem, place, root, base)
    requires p in mem && p !in dead && Covers(place[p], va)
    requires forall t :: t in mem && t !in dead && Covers(place[t], va) ==>
               && t in mem' && mem'[t][Off(place[t].level, va)] == mem[t][Off(place[t].level, va)]
               && mem[t][Off(place[t].level, va)] !in (set q | q in dead :: Table(q))
    ensures Walk(mem', p, place[p].level, va) == Walk(mem, p, place[p].level, va)
    decreases MAX_LEVEL - place[p].level
  {
    StepDown(mem, place, root, base, p, va);
    var d := mem[p][Off(place[p].level, va)];
    if d.Table? {
      WalkAgree(mem, place, root, base, mem', dead, d.next, va);
    }
  }

  // ------------------------------------------------------------------ paths from the root

  /** `path` is the chain of tables that a walk for `va` goes through, root first. */
  ghost predicate PathOk(mem: Memory, root: nat, path: seq<nat>, va: nat) {
    && 1 <= |path| <= 4
    && path[0] == root
    && (forall k :: 0 <= k < |path| ==> path[k] in mem)
    && (forall k :: 0 <= k < |path| - 1 ==> mem[path[k]][Off(k, va)] == Table(path[k + 1]))
  }

  lemma PathEnd(mem: Memory, root: nat, path: seq<nat>, va: nat)
    requires PathOk(mem, root, path, va)
    ensures 1 <= |path| <= 4 && path[|path| - 1] in mem && path[0] == root
  {
  }

  lemma LocatedKeys(mem: Memory, place: map<nat, Place>, root: nat, base: nat)
    requires Located(mem, place, root, base)
    ensures place.Keys == mem.Keys
  {
  }

  lemma {:induction false} PathPlaced(mem: Memory, place: map<nat, Place>, root: nat, base: nat,
                                      path: seq<nat>, va: nat, k: nat)
    requires Located(mem, place, root, base) && PathOk(mem, root, path, va) && InTable(0, base, va)
    requires k < |path|
    ensures path[k] in mem && place[path[k]].level == k && Covers(place[path[k]], va)
    decreases k
  {
    if k > 0 {
      PathPlaced(mem, place, root, base, path, va, k - 1);
      StepDown(mem, place, root, base, path[k - 1], va);
      assert mem[path[k - 1]][Off(k - 1, va)] == Table(path[k - 1 + 1]);
    }
  }

  /** Addresses below a child select the child's entry in the parent. */
  lemma ShareStep(mem: Memory, place: map<nat, Place>, root: nat, base: nat, p: nat, q: nat, va: nat, va': nat)
    requires Located(mem, place, root, base) && p in mem && q in mem && Covers(place[p], va)
    requires mem[p][Off(place[p].level, va)] == Table(q) && Covers(place[q], va')
    ensures Covers(place[p], va') && Off(place[p].level, va') == Off(place[p].level, va)
  {
    StepDown(mem, place, root, base, p, va);
    assert TableOk(place, p, mem[p]);
    OffIsEntry(place[p].level, place[p].base, Off(place[p].level, va), va');
  }

  lemma PathPrefix(mem: Memory, root: nat, path: seq<nat>, va: nat)
    requires PathOk(mem, root, path, va) && |path| > 1
    ensures PathOk(mem, root, path[..|path| - 1], va)
  {
    var up := path[..|path| - 1];
    forall k | 0 <= k < |up| - 1 ensures mem[up[k]][Off(k, va)] == Table(up[k + 1]) {
      assert mem[path[k]][Off(k, va)] == Table(path[k + 1]);
    }
  }

  lemma PathSnoc(mem: Memory, root: nat, path: seq<nat>, q: nat, va: nat)
    requires PathOk(mem, root, path, va) && |path| < 4 && q in mem
    requires mem[path[|path| - 1]][Off(|path| - 1, va)] == Table(q)
    ensures PathOk(mem, root, path + [q], va)
  {
    var path' := path + [q];
    forall k | 0 <= k < |path'| - 1 ensures mem[path'[k]][Off(k, va)] == Table(path'[k + 1]) {
      if k < |path| - 1 { assert mem[path[k]][Off(k, va)] == Table(path[k + 1]); }
    }
  }

  /** All addresses below a table share the path to it. */
  lemma {:induction false} PathShare(mem: Memory, place: map<nat, Place>, root: nat, base: nat,
                                     path: seq<nat>, va: nat, va': nat)
    requires Located(mem, place, root, base) && PathOk(mem, root, path, va) && InTable(0, base, va)
    requires path[|path| - 1] in place && Covers(place[path[|path| - 1]], va')
    ensures PathOk(mem, root, path, va') && InTable(0, base, va')
    decreases |path|
  {
    var n := |path| - 1;
    if n > 0 {
      PathPlaced(mem, place, root, base, path, va, n - 1);
      assert mem[path[n - 1]][Off(n - 1, va)] == Table(path[n - 1 + 1]);
      ShareStep(mem, place, root, base, path[n - 1], path[n], va, va');
      PathPrefix(mem, root, path, va);
      var up := path[..n];
      PathShare(mem, place, root, base, up, va, va');
      PathSnoc(mem, root, up, path[n], va');
      assert up + [path[n]] == path;
    }
  }

  /** A walk from the root is the walk from any table on its path. */
  lemma {:induction false} PathWalk(mem: Memory, root: nat, path: seq<nat>, va: nat, k: nat)
    requires PathOk(mem, root, path, va) && k < |path|
    ensures Walk(mem, root, 0, va) == Walk(mem, path[k], k, va)
    decreases k
  {
    if k > 0 {
      PathWalk(mem, root, path, va, k - 1);
      assert mem[path[k - 1]][Off(k - 1, va)] == Table(path[k - 1 + 1]);
    }
  }

  // ------------------------------------------------------------------ one write

  /** Writing one entry at the end of a path changes the walks of that entry's addresses and no other. */
  lemma PutEffect(mem: Memory, place: map<nat, Place>, root: nat, base: nat, path: seq<nat>, va: nat,
                  d: Desc, va': nat)
    requires Located(mem, place, root, base) && PathOk(mem, root, path, va) && InTable(0, base, va)
    requires InTable(0, base, va')
    ensures var l := |path| - 1; var p := path[l];
            && p in place
            && var mem' := Put(mem, p, Off(l, va), d);
            && PathOk(mem', root, path, va)
            && (if InEntry(l, place[p].base, Off(l, va), va')
                then Walk(mem', root, 0, va') == Resolve(mem', d, l, va')
                     && Walk(mem, root, 0, va') == Resolve(mem, mem[p][Off(l, va)], l, va')
                else Walk(mem', root, 0, va') == Walk(mem, root, 0, va'))
  {
    var l := |path| - 1;
    var p := path[l];
    var i := Off(l, va);
    PathPlaced(mem, place, root, base, path, va, l);
    var mem' := Put(mem, p, i, d);
    forall k | 0 <= k < l ensures mem'[path[k]][Off(k, va)] == Table(path[k + 1]) {
      PathPlaced(mem, place, root, base, path, va, k);
      assert mem[path[k]][Off(k, va)] == Table(path[k + 1]);
    }
    assert TableOk(place, p, mem[p]);
    OffIsEntry(l, place[p].base, i, va');
    if InEntry(l, place[p].base, i, va') {
      PutHit(mem, place, root, base, path, va, d, va');
    } else {
      PutMiss(mem, place, root, base, p, i, d, va');
    }
  }

  lemma PutHit(mem: Memory, place: map<nat, Place>, root: nat, base: nat, path: seq<nat>, va: nat,
               d: Desc, va': nat)
    requires Located(mem, place, root, base) && PathOk(mem, root, path, va) && InTable(0, base, va)
    requires var l := |path| - 1; Covers(place[path[l]], va') && Off(l, va') == Off(l, va)
    requires PathOk(Put(mem, path[|path| - 1], Off(|path| - 1, va), d), root, path, va)
    ensures var l := |path| - 1; var mem' := Put(mem, path[l], Off(l, va), d);
            && Walk(mem', root, 0, va') == Resolve(mem', d, l, va')
            && Walk(mem, root, 0, va') == Resolve(mem, mem[path[l]][Off(l, va)], l, va')
  {
    var l := |path| - 1;
    var p := path[l];
    var mem' := Put(mem, p, Off(l, va), d);
    PathShare(mem, place, root, base, path, va, va');
    PathWalk(mem, root, path, va', l);
    forall k | 0 <= k < l ensures mem'[path[k]][Off(k, va')] == Table(path[k + 1]) {
      PathPlaced(mem, place, root, base, path, va, k);
      PathPlaced(mem, place, root, base, path, va, l);
      assert mem[path[k]][Off(k, va')] == Table(path[k + 1]);
    }
    assert PathOk(mem', root, path, va');
    PathWalk(mem', root, path, va', l);
  }

  lemma PutMiss(mem: Memory, place: map<nat, Place>, root: nat, base: nat, p: nat, i: nat, d: Desc, va: nat)
    requires Located(mem, place, root, base) && p in mem && i < 512 && InTable(0, base, va)
    requires !InEntry(place[p].level, place[p].base, i, va)
    ensures Walk(Put(mem, p, i, d), root, 0, va) == Walk(mem, root, 0, va)
  {
    var mem' := Put(mem, p, i, d);
    if Covers(place[p], va) {
      assert TableOk(place, p, mem[p]);
      OffIsEntry(place[p].level, place[p].base, i, va);
    }
    WalkAgree(mem, place, root, base, mem', {}, root, va);
  }

  // ------------------------------------------------------------------ keeping the tree

  lemma LocatedPut(mem: Memory, place: map<nat, Place>, root: nat, base: nat, p: nat, i: nat, d: Desc)
    requires Located(mem, place, root, base) && p in mem && i < 512
    requires DescOk(place, p, place[p], i, d)
    ensures Located(Put(mem, p, i, d), place, root, base)
  {
    var mem' := Put(mem, p, i, d);
    forall t | t in mem' ensures TableOk(place, t, mem'[t]) {
      assert TableOk(place, t, mem[t]);
    }
  }

  /** The place of a table linked below entry `i` of `p`. */
  ghost function Below(place: map<nat, Place>, p: nat, i: nat): Place
    requires p in place && place[p].level < MAX_LEVEL
  {
    Place(place[p].level + 1, place[p].base + i * LevelSize(place[p].level), p)
  }

  /** Entries that a fresh table may start with: no references, well-formed leaves. */
  ghost predicate LeavesOk(level: Level, entries: Entries) {
    forall j :: 0 <= j < 512 ==> !entries[j].Table? && DescOk(map[], 0, Place(level, 0, 0), j, entries[j])
  }

  /** A fresh page that nothing refers to yet changes no walk. */
  lemma LocatedAdd(mem: Memory, place: map<nat, Place>, root: nat, base: nat, p: nat, i: nat,
                   page: nat, entries: Entries)
    requires Located(mem, place, root, base) && p in mem && i < 512
    requires place[p].level < MAX_LEVEL && page !in mem && LeavesOk(place[p].level + 1, entries)
    ensures Located(mem[page := entries], place[page := Below(place, p, i)], root, base)
    ensures forall va :: InTable(0, base, va) ==> Walk(mem[page := entries], root, 0, va) == Walk(mem, root, 0, va)
  {
    var place' := place[page := Below(place, p, i)];
    var mem' := mem[page := entries];
    assert TableOk(place, p, mem[p]);
    ChildBase(place[p].level, place[p].base, i);
    forall t | t in mem' ensures TableOk(place', t, mem'[t]) {
      if t == page {
        forall j | 0 <= j < 512 ensures DescOk(place', page, place'[page], j, entries[j]) {
          assert DescOk(map[], 0, Place(place[p].level + 1, 0, 0), j, entries[j]);
        }
      } else {
        assert TableOk(place, t, mem[t]);
        forall j | 0 <= j < 512 ensures DescOk(place', t, place'[t], j, mem'[t][j]) {
          assert DescOk(place, t, place[t], j, mem[t][j]);
        }
      }
    }
    forall va | InTable(0, base, va) ensures Walk(mem', root, 0, va) == Walk(mem, root, 0, va) {
      WalkAgree(mem, place, root, base, mem', {}, root, va);
    }
  }

  /** Linking a fresh page keeps the tree and extends the path. */
  lemma LinkShape(mem: Memory, place: map<nat, Place>, root: nat, base: nat, path: seq<nat>, va: nat,
                  page: nat, entries: Entries)
    requires Located(mem, place, root, base) && PathOk(mem, root, path, va) && InTable(0, base, va)
    requires |path| <= MAX_LEVEL && page !in mem && LeavesOk(|path|, entries)
    requires path[|path| - 1] in place && place[path[|path| - 1]].level == |path| - 1
    ensures var l := |path| - 1; var p := path[l];
            var mem1 := mem[page := entries];
            var place' := place[page := Below(place, p, Off(l, va))];
            var mem' := Put(mem1, p, Off(l, va), Table(page));
            && Located(mem1, place', root, base) && PathOk(mem1, root, path, va)
            && Located(mem', place', root, base) && PathOk(mem', root, path + [page], va)
  {
    var l := |path| - 1;
    var p := path[l];
    var i := Off(l, va);
    var mem1 := mem[page := entries];
    var place1 := place[page := Below(place, p, i)];
    LocatedAdd(mem, place, root, base, p, i, page, entries);
    assert PathOk(mem1, root, path, va) by {
      forall k | 0 <= k < |path| - 1 ensures mem1[path[k]][Off(k, va)] == Table(path[k + 1]) {
        assert mem[path[k]][Off(k, va)] == Table(path[k + 1]);
      }
    }
    LocatedPut(mem1, place1, root, base, p, i, Table(page));
    PutEffect(mem1, place1, root, base, path, va, Table(page), va);
    PathSnoc(Put(mem1, p, i, Table(page)), root, path, page, va);
  }

  /** Replacing a descriptor by a fresh table that resolves the same way changes no walk. */
  lemma LinkEffect(mem: Memory, place: map<nat, Place>, root: nat, base: nat, path: seq<nat>, va: nat,
                   page: nat, entries: Entries, va': nat)
    requires Located(mem, place, root, base) && PathOk(mem, root, path, va) && InTable(0, base, va)
    requires |path| <= MAX_LEVEL && page !in mem && LeavesOk(|path|, entries)
    requires path[|path| - 1] in place && place[path[|path| - 1]].level == |path| - 1
    requires InTable(0, base, va')
    requires var l := |path| - 1; var p := path[l];
             InEntry(l, place[p].base, Off(l, va), va') ==>
               Resolve(mem, mem[p][Off(l, va)], l, va') == Resolve(mem, entries[Off(l + 1, va')], l + 1, va')
    ensures var l := |path| - 1; var p := path[l];
            var mem' := Put(mem[page := entries], p, Off(l, va), Table(page));
            Walk(mem', root, 0, va') == Walk(mem, root, 0, va')
  {
    var l := |path| - 1;
    var p := path[l];
    var i := Off(l, va);
    var mem1 := mem[page := entries];
    LinkShape(mem, place, root, base, path, va, page, entries);
    LocatedAdd(mem, place, root, base, p, i, page, entries);
    PutEffect(mem1, place[page := Below(place, p, i)], root, base, path, va, Table(page), va');
    if InEntry(l, place[p].base, i, va') {
      PutEffect(mem, place, root, base, path, va, Table(page), va');
      var d := entries[Off(l + 1, va')];
      assert !d.Table?;
    }
  }

  /** Dropping a table that nothing refers to. */
  lemma LocatedDrop(mem: Memory, place: map<nat, Place>, root: nat, base: nat, p: nat)
    requires Located(mem, place, root, base) && p in mem && p != root
    requires forall t, j :: t in mem && 0 <= j < 512 ==> mem[t][j] != Table(p)
    ensures Located(mem - {p}, place - {p}, root, base)
    ensures forall va :: InTable(0, base, va) ==> Walk(mem - {p}, root, 0, va) == Walk(mem, root, 0, va)
  {
    var mem', place' := mem - {p}, place - {p};
    forall t | t in mem' ensures TableOk(place', t, mem'[t]) {
      assert TableOk(place, t, mem[t]);
      forall j | 0 <= j < 512 ensures DescOk(place', t, place'[t], j, mem'[t][j]) {
        assert DescOk(place, t, place[t], j, mem[t][j]);
      }
    }
    forall va | InTable(0, base, va) ensures Walk(mem', root, 0, va) == Walk(mem, root, 0, va) {
      WalkAgree(mem, place, root, base, mem', {p}, root, va);
    }
  }

  /** A table has one parent: two references to it are the same entry. */
  lemma OneReference(mem: Memory, place: map<nat, Place>, root: nat, base: nat,
                     p: nat, i: nat, p': nat, i': nat, q: nat)
    requires Located(mem, place, root, base)
    requires p in mem && i < 512 && mem[p][i] == Table(q)
    requires p' in mem && i' < 512 && mem[p'][i'] == Table(q)
    ensures p == p' && i == i' && q != root
  {
    assert TableOk(place, p, mem[p]) && TableOk(place, p', mem[p']);
    assert DescOk(place, p, place[p], i, mem[p][i]);
    assert DescOk(place, p', place[p'], i', mem[p'][i']);
  }
}
