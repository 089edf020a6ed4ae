/**
 The operations the memory manager calls on an address space: the first-fit
 search for a free range, mapping a region, and whole runs of map, unmap and modify.
 */
module MmuOps {
  import opened Geometry
  import opened Options
  import opened PageTable
  import opened TableTree
  import opened FlatMap
  import opened Mmu

  const USER_SPACE_START := 0x1000
  const LAST := 0xffff_ffff_ffff             // offset of the last byte of a space
  const NO_VADDR := 0xffff_ffff_ffff_ffff    // (virt_addr_t)-1

  // ------------------------------------------------------------------ choosing a virtual range

  /** The space that is searched: a user space, or the kernel's with the end of its linear map of RAM. */
  datatype Space = UserSpace(mmapStart: nat) | KernelSpace(start: nat, ramEnd: nat)

  predicate SpaceOk(space: Space, base: nat, mapMin: nat) {
    match space
    case UserSpace(_) => base == 0
    case KernelSpace(start, ramEnd) => base == start > 0 && start <= ramEnd && (mapMin == 0 || start <= mapMin)
  }

  /** What the search takes for an unused page: mmu_v2p_r answers 0. */
  ghost predicate LooksFree(mem: Memory, root: nat, va: nat) {
    Walk(mem, root, 0, va).None? || Walk(mem, root, 0, va).value.pa == 0
  }

  /** `n` pages from `va` on start before `end` and look free. */
  ghost predicate RunFree(mem: Memory, root: nat, end: nat, va: nat, n: nat) {
    forall j: nat :: j < n ==> va + j * PAGE_SIZE < end && LooksFree(mem, root, va + j * PAGE_SIZE)
  }

  /** Where the loop starts. */
  function LoopStart(space: Space, mapMin: nat): nat {
    match space
    case UserSpace(mmapStart) =>
      var start := if mapMin != 0 then mapMin else USER_SPACE_START;
      if start < mmapStart then mmapStart else start
    case KernelSpace(start, _) => if mapMin != 0 then mapMin else start
  }

  /** The first candidate: a search from the start of kernel space goes on behind the linear map. */
  function SearchStart(space: Space, mapMin: nat): (start: nat)
    ensures space.UserSpace? ==>
              var low := if mapMin == 0 then 0x1000 else mapMin;
              start >= low && start >= space.mmapStart && (start == low || start == space.mmapStart)
    ensures space.KernelSpace? ==>
              start == if mapMin == 0 || mapMin == space.start then space.ramEnd + 0x1000 else mapMin
  {
    var start := LoopStart(space, mapMin);
    if space.KernelSpace? && start == space.start then space.ramEnd + PAGE_SIZE else start
  }

  /** No candidate in [start, limit), a whole number of pages from `start`, begins a free run of `want` pages. */
  ghost predicate NoRunBelow(mem: Memory, root: nat, end: nat, start: nat, limit: nat, want: nat) {
    forall v: nat :: start <= v < limit && (v - start) % PAGE_SIZE == 0 ==> !RunFree(mem, root, end, v, want)
  }

  /** arm_alloc_vaddr_with_min: the lowest run that looks free. A request for no page counts as one. */
  method AllocVaddr(mm: AddressSpace, space: Space, pageCount: nat, mapMin: nat) returns (va: nat)
    requires mm.Valid() && SpaceOk(space, mm.base, mapMin) && mm.base + LAST <= NO_VADDR
    ensures var start, end := SearchStart(space, mapMin), mm.base + LAST;
            var want := if pageCount == 0 then 1 else pageCount;
            if va == NO_VADDR
            then forall limit :: NoRunBelow(mm.mem, mm.root, end, start, limit, want)
            else && start <= va < end && (va - start) % PAGE_SIZE == 0
                 && RunFree(mm.mem, mm.root, end, va, want) && NoRunBelow(mm.mem, mm.root, end, start, va, want)
  {
    var end := mm.base + LAST;
    var at := LoopStart(space, mapMin);
    if space.KernelSpace? && at == space.start {
      at := space.ramEnd;
      at := at + PAGE_SIZE;
    }
    va := Search(mm, at, end, pageCount);
  }

  /** The loop over the pages, from a candidate that is not the start of the linear map. */
  method Search(mm: AddressSpace, start: nat, end: nat, pageCount: nat) returns (va: nat)
    requires mm.Valid() && 0 < start && mm.base <= start && end == mm.base + LAST <= NO_VADDR
    ensures var want := if pageCount == 0 then 1 else pageCount;
            if va == NO_VADDR
            then forall limit :: NoRunBelow(mm.mem, mm.root, end, start, limit, want)
            else && start <= va < end && (va - start) % PAGE_SIZE == 0
                 && RunFree(mm.mem, mm.root, end, va, want) && NoRunBelow(mm.mem, mm.root, end, start, va, want)
  {
    ghost var want := if pageCount == 0 then 1 else pageCount;
    hide Walk, RunFree, NoRunBelow;
    NoPages(mm.mem, mm.root, end, start, want);
    var at := start;
    var findVa, n := 0, 0;
    ghost var from := start;
    while at < end
      invariant start <= from <= at == from + n * PAGE_SIZE
      invariant (from - start) % PAGE_SIZE == 0 && n < want
      invariant findVa == if n > 0 then from else 0
      invariant RunFree(mm.mem, mm.root, end, from, n)
      invariant NoRunBelow(mm.mem, mm.root, end, start, from, want)
    {
      var pa := mm.V2p(at);
      if pa != 0 {
        Barrier(mm.mem, mm.root, end, start, from, n, want);
        findVa, n := 0, 0;
        from := at + PAGE_SIZE;
        NoPages(mm.mem, mm.root, end, from, want);
      } else {
        if findVa == 0 {
          findVa := at;
        }
        n := n + 1;
        LongerRun(mm.mem, mm.root, end, from, n - 1);
        if n >= pageCount {
          return findVa;
        }
      }
      at := at + PAGE_SIZE;
    }
    EndOfSpace(mm.mem, mm.root, end, start, from, n, want);
    va := NO_VADDR;
  }

  lemma NoPages(mem: Memory, root: nat, end: nat, va: nat, want: nat)
    ensures RunFree(mem, root, end, va, 0) && NoRunBelow(mem, root, end, va, va, want)
  {
  }

  lemma LongerRun(mem: Memory, root: nat, end: nat, va: nat, n: nat)
    requires RunFree(mem, root, end, va, n)
    requires va + n * PAGE_SIZE < end && LooksFree(mem, root, va + n * PAGE_SIZE)
    ensures RunFree(mem, root, end, va, n + 1)
  {
  }

  /** A used page ends every run that would go over it. */
  lemma Barrier(mem: Memory, root: nat, end: nat, start: nat, from: nat, n: nat, want: nat)
    requires NoRunBelow(mem, root, end, start, from, want) && from >= start && (from - start) % PAGE_SIZE == 0
    requires !LooksFree(mem, root, from + n * PAGE_SIZE) && n < want
    ensures NoRunBelow(mem, root, end, start, from + n * PAGE_SIZE + PAGE_SIZE, want)
  {
    forall v: nat | from <= v < from + n * PAGE_SIZE + PAGE_SIZE && (v - start) % PAGE_SIZE == 0
      ensures !RunFree(mem, root, end, v, want)
    {
      var f, k := (from - start) / PAGE_SIZE, (v - start) / PAGE_SIZE;
      assert from == start + f * PAGE_SIZE && v == start + k * PAGE_SIZE;
      assert f <= k <= f + n;
      assert from + n * PAGE_SIZE == v + (f + n - k) * PAGE_SIZE;
    }
  }

  lemma EndOfSpace(mem: Memory, root: nat, end: nat, start: nat, from: nat, n: nat, want: nat)
    requires NoRunBelow(mem, root, end, start, from, want) && from >= start && (from - start) % PAGE_SIZE == 0
    requires from + n * PAGE_SIZE >= end && n < want
    ensures forall limit :: NoRunBelow(mem, root, end, start, limit, want)
  {
    forall v: nat | from <= v && (v - start) % PAGE_SIZE == 0
      ensures !RunFree(mem, root, end, v, want)
    {
      var top := from + n * PAGE_SIZE;
      var j := if v < top then (top - v) / PAGE_SIZE else 0;
      assert v + j * PAGE_SIZE >= end && j < want;
    }
  }

  // ------------------------------------------------------------------ mapping and translating

  /** A physical range that a descriptor can hold is mapped address by address, with its attributes. */
  lemma MappedThere(mem: Memory, mem': Memory, root: nat, base: nat, va: nat, pa: nat, attr: nat, done: nat, i: nat)
    requires Applied(mem, mem', root, base, OpMap(va, pa, attr), done) && InSpace(base, va, done)
    requires i < done && pa + done <= 0x1_0000_0000_0000
    ensures Walk(mem', root, 0, va + i) == Some(Mapping(pa + i, attr))
  {
    hide Walk, Span;
    assert InTable(0, base, va + i);
    KeptAddress(pa + i);
  }

  /** mmu_v2p_r and mmu_get_attr_r undo mmu_map_r; and after mmu_unmap_r they answer 0. */
  method MapTranslateUnmap(mm: AddressSpace, va: nat, pa: nat, size: nat, attr: nat, i: nat)
    returns (ok: bool, at: nat, a: nat, gone: nat)
    requires mm.Valid() && InSpace(mm.base, va, size) && pa + size <= 0x1_0000_0000_0000
    requires va % 0x1000 == 0 && size % 0x1000 == 0 && i < size
    modifies mm
    ensures ok ==> at == pa + i && a == attr && (mm.failures == old(mm.failures) ==> gone == 0)
  {
    hide AddressSpace.Valid, Applied, Walk, AllMapped, NoneMapped, TablesIn, MapLevel, PagesOf;
    hide Settles, Span, EditStart, EditSize;
    ghost var done;
    ok, done := mm.MapRange(va, pa, size, attr);
    Inside(mm.base, va, size, i);
    if !ok {
      return false, 0, 0, 0;
    }
    ghost var mid := mm.mem;
    MappedThere(old(mm.mem), mid, mm.root, mm.base, va, pa, attr, done, i);
    at := mm.V2p(va + i);
    a := mm.GetAttr(va + i);
    OnPages(va, size);
    ghost var undone := mm.UnmapRange(va, size);
    if undone < size {
      MappedThere(old(mm.mem), mid, mm.root, mm.base, va, pa, attr, done, undone);
    }
    gone := mm.V2p(va + i);
    Unmapped(mid, mm.mem, mm.root, mm.base, va, undone, i);
  }

  lemma Inside(base: nat, va: nat, size: nat, i: nat)
    requires InSpace(base, va, size) && i < size
    ensures InTable(0, base, va + i)
  {
  }

  lemma OnPages(va: nat, size: nat)
    requires va % 0x1000 == 0 && size % 0x1000 == 0
    ensures Settles(va, size) && EditStart(va, size) == va && EditSize(va, size) == size
  {
  }

  lemma Unmapped(mem: Memory, mem': Memory, root: nat, base: nat, va: nat, done: nat, i: nat)
    requires Applied(mem, mem', root, base, OpUnmap(va), done) && InTable(0, base, va + i)
    ensures i < done ==> Walk(mem', root, 0, va + i).None?
  {
    hide Walk;
  }

  // ------------------------------------------------------------------ mapping a region

  /** A page is mapped as a whole. */
  lemma {:induction false} PageUniform(mem: Memory, p: nat, level: Level, va: nat, va': nat)
    requires va % PAGE_SIZE == 0 && va <= va' < va + PAGE_SIZE
    ensures Walk(mem, p, level, va').Some? <==> Walk(mem, p, level, va).Some?
    decreases MAX_LEVEL - level
  {
    SameOff(level, MAX_LEVEL, va, va');
    if p in mem && mem[p][Off(level, va)].Table? && level < MAX_LEVEL {
      PageUniform(mem, mem[p][Off(level, va)].next, level + 1, va, va');
    }
  }

  /** No page is mapped to physical page 0, the address that stands for "not mapped". */
  ghost predicate NoPhysZero(mem: Memory, root: nat) {
    forall va: nat :: va % PAGE_SIZE == 0 && Walk(mem, root, 0, va).Some? ==> Walk(mem, root, 0, va).value.pa != 0
  }

  /** A run that looks free is unmapped exactly when none of its pages is mapped to physical page 0. */
  lemma FreeMeansUnmapped(mem: Memory, root: nat, end: nat, va: nat, n: nat)
    requires va % PAGE_SIZE == 0 && RunFree(mem, root, end, va, n)
    ensures NoneMapped(mem, root, va, va + n * PAGE_SIZE) <==>
            forall j: nat :: j < n ==> Walk(mem, root, 0, va + j * PAGE_SIZE).None? ||
                                       Walk(mem, root, 0, va + j * PAGE_SIZE).value.pa != 0
  {
    if forall j: nat :: j < n ==> Walk(mem, root, 0, va + j * PAGE_SIZE).None? ||
                                  Walk(mem, root, 0, va + j * PAGE_SIZE).value.pa != 0 {
      forall v: nat | va <= v < va + n * PAGE_SIZE ensures Walk(mem, root, 0, v).None? {
        var j := (v - va) / PAGE_SIZE;
        var page := va + j * PAGE_SIZE;
        assert j < n && page <= v < page + PAGE_SIZE && page % PAGE_SIZE == 0;
        assert LooksFree(mem, root, page);
        PageUniform(mem, root, 0, page, v);
      }
    } else {
      var j: nat :| j < n && !(Walk(mem, root, 0, va + j * PAGE_SIZE).None? ||
                               Walk(mem, root, 0, va + j * PAGE_SIZE).value.pa != 0);
      assert va <= va + j * PAGE_SIZE < va + n * PAGE_SIZE;
    }
  }

  /** arm_mmu_map: the region's address is taken as given or searched for. */
  method MapRegion(mm: AddressSpace, space: Space, fixed: bool, virt: nat, mapMin: nat, pageCount: nat, pa: nat, attr: nat)
    returns (ok: bool, va: nat, ghost done: nat)
    requires mm.Valid() && SpaceOk(space, mm.base, mapMin) && mm.base + LAST <= NO_VADDR
    requires var given := if fixed then mapMin else virt;
             (fixed || virt != 0) && given % PAGE_SIZE == 0 ==> InSpace(mm.base, given, pageCount * PAGE_SIZE)
    modifies mm
    ensures mm.Valid() && mm.Kept()
    ensures mm.failures > old(mm.failures) ==> |old(mm.pool)| < 3 * pageCount
    ensures fixed ==> va == mapMin
    ensures !fixed && virt != 0 ==> va == virt
    ensures Applied(old(mm.mem), mm.mem, mm.root, mm.base, OpMap(va, pa, attr), done)
    ensures done <= pageCount * PAGE_SIZE && done % PAGE_SIZE == 0 && (ok ==> done == pageCount * PAGE_SIZE)
    ensures mm.overwrote <==>
              old(mm.overwrote) || TablesIn(old(mm.mem), mm.root, MapLevel(va, pa, pageCount * PAGE_SIZE), va, va + done)
    ensures !fixed && virt == 0 ==>
              var start, end := SearchStart(space, mapMin), mm.base + LAST;
              var want := if pageCount == 0 then 1 else pageCount;
              && (va == NO_VADDR ==> !ok && mm.mem == old(mm.mem))
              && (va != NO_VADDR ==> start <= va && RunFree(old(mm.mem), mm.root, end, va, want)
                                     && NoRunBelow(old(mm.mem), mm.root, end, start, va, want))
              && (va != NO_VADDR && va % PAGE_SIZE == 0 && NoPhysZero(old(mm.mem), mm.root) ==>
                    && NoneMapped(old(mm.mem), mm.root, va, va + pageCount * PAGE_SIZE)
                    && (!old(mm.starved) ==> mm.overwrote == old(mm.overwrote))
                    && (mm.failures == old(mm.failures) && pa % PAGE_SIZE == 0 ==> ok))
  {
    hide Walk, RunFree, NoRunBelow, Applied, AddressSpace.Valid, NoneMapped, NoPhysZero, SearchStart, TablesIn, MapLevel, PagesOf;
    va := ChooseAddress(mm, space, fixed, virt, mapMin, pageCount);
    ok, done := mm.MapRange(va, pa, pageCount * PAGE_SIZE, attr);
    if !fixed && virt == 0 && va != NO_VADDR && va % PAGE_SIZE == 0 && NoPhysZero(old(mm.mem), mm.root) {
      NoneMappedAt(old(mm.mem), mm.root, va, va + pageCount * PAGE_SIZE, va + done);
    }
  }

  /** The first half of arm_mmu_map. */
  method ChooseAddress(mm: AddressSpace, space: Space, fixed: bool, virt: nat, mapMin: nat, pageCount: nat) returns (va: nat)
    requires mm.Valid() && SpaceOk(space, mm.base, mapMin) && mm.base + LAST <= NO_VADDR
    requires var given := if fixed then mapMin else virt;
             (fixed || virt != 0) && given % PAGE_SIZE == 0 ==> InSpace(mm.base, given, pageCount * PAGE_SIZE)
    ensures va % PAGE_SIZE == 0 ==> InSpace(mm.base, va, pageCount * PAGE_SIZE)
    ensures fixed ==> va == mapMin
    ensures !fixed && virt != 0 ==> va == virt
    ensures !fixed && virt == 0 && va != NO_VADDR ==>
              var start, end := SearchStart(space, mapMin), mm.base + LAST;
              var want := if pageCount == 0 then 1 else pageCount;
              && start <= va && RunFree(mm.mem, mm.root, end, va, want) && NoRunBelow(mm.mem, mm.root, end, start, va, want)
              && (va % PAGE_SIZE == 0 && NoPhysZero(mm.mem, mm.root) ==>
                    NoneMapped(mm.mem, mm.root, va, va + pageCount * PAGE_SIZE))
  {
    if fixed {
      va := mapMin;
    } else if virt == 0 {
      BaseOnPage(mm);
      hide Walk, RunFree, NoRunBelow, AddressSpace.Valid, NoneMapped, NoPhysZero;
      va := AllocVaddr(mm, space, pageCount, mapMin);
      if va != NO_VADDR {
        StartInSpace(space, mm.base, mapMin);
        ChosenRange(mm.mem, mm.root, mm.base, va, pageCount);
      }
    } else {
      va := virt;
    }
  }

  lemma StartInSpace(space: Space, base: nat, mapMin: nat)
    requires SpaceOk(space, base, mapMin)
    ensures base <= SearchStart(space, mapMin)
  {
  }

  lemma BaseOnPage(mm: AddressSpace)
    requires mm.Valid()
    ensures mm.base % PAGE_SIZE == 0
  {
    BaseAligned(mm.mem, mm.place, mm.root, mm.base);
  }

  lemma NoneMappedAt(mem: Memory, root: nat, lo: nat, hi: nat, va: nat)
    requires NoneMapped(mem, root, lo, hi)
    ensures lo <= va < hi ==> Walk(mem, root, 0, va).None?
  {
  }

  lemma RunFreeAt(mem: Memory, root: nat, end: nat, va: nat, n: nat, j: nat)
    requires RunFree(mem, root, end, va, n) && j < n
    ensures va + j * PAGE_SIZE < end && LooksFree(mem, root, va + j * PAGE_SIZE)
  {
  }

  lemma NoPhysZeroAt(mem: Memory, root: nat, va: nat, j: nat)
    requires NoPhysZero(mem, root) && va % PAGE_SIZE == 0
    ensures Walk(mem, root, 0, va + j * PAGE_SIZE).None? || Walk(mem, root, 0, va + j * PAGE_SIZE).value.pa != 0
  {
    assert (va + j * PAGE_SIZE) % PAGE_SIZE == 0;
  }

  /** A run found by the search fits the space, and is unmapped if nothing maps physical page 0. */
  lemma ChosenRange(mem: Memory, root: nat, base: nat, va: nat, pageCount: nat)
    requires base % PAGE_SIZE == 0 && base <= va < base + LAST
    requires RunFree(mem, root, base + LAST, va, if pageCount == 0 then 1 else pageCount)
    ensures va % PAGE_SIZE == 0 ==> InSpace(base, va, pageCount * PAGE_SIZE)
    ensures va % PAGE_SIZE == 0 && NoPhysZero(mem, root) ==> NoneMapped(mem, root, va, va + pageCount * PAGE_SIZE)
  {
    hide Walk, NoPhysZero, RunFree;
    if va % PAGE_SIZE == 0 && pageCount > 0 {
      RunFreeAt(mem, root, base + LAST, va, pageCount, pageCount - 1);
      if NoPhysZero(mem, root) {
        FreeMeansUnmapped(mem, root, base + LAST, va, pageCount);
        forall j: nat | j < pageCount
          ensures Walk(mem, root, 0, va + j * PAGE_SIZE).None? || Walk(mem, root, 0, va + j * PAGE_SIZE).value.pa != 0
        {
          NoPhysZeroAt(mem, root, va, j);
        }
      }
    }
  }

  // ------------------------------------------------------------------ two surprises, on one page

  /** A space in which the page at 0x1000 is mapped to `pa`, with tables to spare. */
  method OnePage(pa: nat) returns (mm: AddressSpace)
    requires pa % PAGE_SIZE == 0
    ensures fresh(mm) && mm.Valid() && mm.base == 0 && |mm.pool| >= 3
    ensures AllMapped(mm.mem, mm.root, 0x1000, 0x2000)
    ensures Walk(mm.mem, mm.root, 0, 0x1000) == Some(Mapping(Phys(pa), 7))
  {
    hide Walk, PoolOk, AddressSpace.Valid, AllMapped, Applied, NoneMapped;
    SixPages();
    mm := new AddressSpace(1, 0, [2, 3, 4, 5, 6, 7]);
    ghost var mem := mm.mem;
    var ok, done := mm.MapRange(0x1000, pa, 0x1000, 7);
    MappedAt(mem, mm.mem, mm.root, pa);
  }

  lemma SixPages()
    ensures PoolOk([2, 3, 4, 5, 6, 7], map[1 := EMPTY]) && 0 % Span(0) == 0
  {
  }

  lemma MappedAt(mem0: Memory, mem: Memory, root: nat, pa: nat)
    requires Applied(mem0, mem, root, 0, OpMap(0x1000, pa, 7), 0x1000)
    ensures AllMapped(mem, root, 0x1000, 0x2000) && Walk(mem, root, 0, 0x1000) == Some(Mapping(Phys(pa), 7))
  {
    hide Walk;
    forall va: nat | 0x1000 <= va < 0x2000
      ensures Walk(mem, root, 0, va) == Some(Mapping(Phys(pa + (va - 0x1000)), 7))
    {
      assert InTable(0, 0, va);
    }
    assert pa + (0x1000 - 0x1000) == pa;
  }

  /** A page that is mapped to physical page 0 is handed out as free. */
  method ZeroPageHandedOut() returns (mm: AddressSpace, va: nat)
    ensures mm.Valid() && va == 0x1000 && Walk(mm.mem, mm.root, 0, va).Some?
  {
    hide Walk, AddressSpace.Valid;
    mm := OnePage(0);
    va := AllocVaddr(mm, UserSpace(0x1000), 1, 0);
    assert Phys(0) == 0 && LooksFree(mm.mem, mm.root, 0x1000);
    FirstPage(mm.mem, mm.root);
    hide NoRunBelow;
    assert !NoRunBelow(mm.mem, mm.root, LAST, 0x1000, 0x1001, 1);
    assert SearchStart(UserSpace(0x1000), 0) == 0x1000 && mm.base + LAST == LAST;
  }

  lemma FirstPage(mem: Memory, root: nat)
    requires LooksFree(mem, root, 0x1000)
    ensures forall limit :: limit > 0x1000 ==> !NoRunBelow(mem, root, LAST, 0x1000, limit, 1)
  {
    hide Walk;
    forall j: nat | j < 1
      ensures 0x1000 + j * PAGE_SIZE < LAST && LooksFree(mem, root, 0x1000 + j * PAGE_SIZE)
    {
      assert 0x1000 + j * PAGE_SIZE == 0x1000;
    }
    assert RunFree(mem, root, LAST, 0x1000, 1);
  }

  /** Unmapping the rest of a page from its second byte on unmaps its first byte too. */
  method OffPageUnmaps() returns (mm: AddressSpace)
    ensures mm.Valid() && Walk(mm.mem, mm.root, 0, 0x1000).None?
  {
    hide Walk, AddressSpace.Valid;
    mm := OnePage(0x5000);
    ghost var mem := mm.mem;
    assert EditStart(0x1001, 0xFFF) == 0x1000 && EditSize(0x1001, 0xFFF) == 0x1000;
    ghost var done := mm.UnmapRange(0x1001, 0xFFF);
    assert InTable(0, 0, 0x1000);
  }

  // ------------------------------------------------------------------ whole runs

  datatype Request =
    | ReqMap(va: nat, pa: nat, size: nat, attr: nat)
    | ReqUnmap(va: nat, size: nat)
    | ReqModify(va: nat, size: nat, attr: nat)

  function OpOf(req: Request): Op {
    match req
    case ReqMap(va, pa, _, attr) => OpMap(va, pa, attr)
    case ReqUnmap(va, size) => OpUnmap(EditStart(va, size))
    case ReqModify(va, size, attr) => OpModify(EditStart(va, size), attr)
  }

  function WholeSize(req: Request): nat {
    if req.ReqMap? then req.size else EditSize(req.va, req.size)
  }

  /** A range inside the space on which the loops settle; mapping rejects an unaligned address itself. */
  ghost predicate RequestOk(base: nat, req: Request) {
    if req.ReqMap? then req.va % PAGE_SIZE == 0 ==> InSpace(base, req.va, req.size)
    else InSpace(base, req.va, req.size) && Settles(req.va, req.size)
  }

  /** The mapping of `va` after all requests, the k-th of them having got through `done[k]` bytes. */
  ghost function AfterAll(reqs: seq<Request>, done: seq<nat>, va: nat, before: Option<Mapping>): Option<Mapping>
    requires |reqs| == |done|
  {
    if reqs == [] then before
    else
      var n := |reqs| - 1;
      After(OpOf(reqs[n]), done[n], va, AfterAll(reqs[..n], done[..n], va, before))
  }

  /** The shape every reachable state of an address space has. */
  ghost predicate Shape(mm: AddressSpace)
    reads mm
  {
    && IsTree(mm.mem, mm.root, mm.base)
    && (forall t :: Reachable(mm.mem, mm.root, mm.base, t) ==> t in mm.mem)
    && (!mm.starved ==> NoEmpty(mm.mem, mm.root, {}))
    && (!mm.overwrote ==> mm.allocs - mm.frees == |ReachableSet(mm.mem, mm.root, mm.base)| - 1)
  }

  lemma ValidShape(mm: AddressSpace)
    requires mm.Valid()
    ensures Shape(mm)
  {
    hide Located, NoLeak, NoEmpty, IsTree, Reachable;
    LocatedIsTree(mm.mem, mm.place, mm.root, mm.base);
    forall t | Reachable(mm.mem, mm.root, mm.base, t) ensures t in mm.mem {
      ReachableAllocated(mm.mem, mm.place, mm.root, mm.base, t);
    }
    if !mm.overwrote {
      AllReachable(mm.mem, mm.place, mm.root, mm.base);
      assert ReachableSet(mm.mem, mm.root, mm.base) == mm.mem.Keys;
    }
  }

  /** Where a request that got through `part` bytes stopped. */
  function Stop(req: Request, part: nat): nat {
    OpOf(req).va + part
  }

  /**
   How far a request gets, when `fails` allocations failed during it and `at` is what its stop
   was mapped to before: all the way, unless one of these explains the stop.
   */
  ghost predicate Served(req: Request, part: nat, fails: nat, at: Option<Mapping>) {
    && part <= WholeSize(req) && part % PAGE_SIZE == 0
    && match req
       case ReqMap(va, pa, size, _) =>
         if va % PAGE_SIZE != 0 || pa % PAGE_SIZE != 0 then part == 0
         else part == size - size % PAGE_SIZE || fails > 0 || at.Some?
       case ReqUnmap(va, size) => part == EditSize(va, size) || fails > 0 || at.None?
       case ReqModify(va, size, _) => part == EditSize(va, size) || fails > 0 || at.None?
  }

  /** The flat map just before request `k`, at the place where that request stopped. */
  ghost function AtStop(reqs: seq<Request>, done: seq<nat>, k: nat, mem: Memory, root: nat): Option<Mapping>
    requires |reqs| == |done| && k < |reqs|
  {
    var va := Stop(reqs[k], done[k]);
    AfterAll(reqs[..k], done[..k], va, Walk(mem, root, 0, va))
  }

  function Sum(s: seq<nat>): nat {
    if s == [] then 0 else Sum(s[..|s| - 1]) + s[|s| - 1]
  }

  /** Every mapping request goes to addresses that the flat map before it leaves unmapped, or is refused. */
  ghost predicate OntoUnmapped(reqs: seq<Request>, done: seq<nat>, mem: Memory, root: nat)
    requires |reqs| == |done|
  {
    forall k :: 0 <= k < |reqs| ==> OntoUnmappedAt(reqs, done, k, mem, root)
  }

  ghost predicate OntoUnmappedAt(reqs: seq<Request>, done: seq<nat>, k: nat, mem: Memory, root: nat)
    requires |reqs| == |done| && k < |reqs|
  {
    reqs[k].ReqMap? && reqs[k].va % PAGE_SIZE == 0 ==>
      forall va :: reqs[k].va <= va < reqs[k].va + reqs[k].size ==>
        AfterAll(reqs[..k], done[..k], va, Walk(mem, root, 0, va)).None?
  }

  /**
   Any sequence of requests: the tables stay a tree, and stand for the flat map that the requests
   describe, each request being served as far as the flat map before it and the allocator allow.
   Without a failed allocation no table becomes empty, and if moreover nothing is mapped over a
   mapping, none is lost. No page is lost or gained between the tables and the pool.
   */
  method Run(mm: AddressSpace, reqs: seq<Request>) returns (ghost done: seq<nat>, ghost fails: seq<nat>)
    requires mm.Valid() && forall k :: 0 <= k < |reqs| ==> RequestOk(mm.base, reqs[k])
    modifies mm
    ensures mm.Valid() && Shape(mm)
    ensures |done| == |reqs| == |fails| && Sum(fails) == mm.failures - old(mm.failures)
    ensures forall k :: 0 <= k < |reqs| ==> Served(reqs[k], done[k], fails[k], AtStop(reqs, done, k, old(mm.mem), mm.root))
    ensures forall va :: InTable(0, mm.base, va) ==>
              Walk(mm.mem, mm.root, 0, va) == AfterAll(reqs, done, va, Walk(old(mm.mem), mm.root, 0, va))
    ensures mm.starved <==> old(mm.starved) || mm.failures > old(mm.failures)
    ensures !old(mm.starved) && mm.failures == old(mm.failures) && OntoUnmapped(reqs, done, old(mm.mem), mm.root) ==>
              mm.overwrote == old(mm.overwrote)
    ensures mm.Pages() == old(mm.Pages())
  {
    hide Walk, Located, NoLeak, NoEmpty, PoolOk, RequestOk, Served, AfterAll, AtStop, OntoUnmapped, PagesOf, TablesIn, NoneMapped;
    done, fails := [], [];
    var k := 0;
    BaseAligned(mm.mem, mm.place, mm.root, mm.base);
    NoneYet(mm.mem, mm.root, mm.base);
    while k < |reqs|
      invariant 0 <= k <= |reqs| && |done| == k == |fails| && mm.Valid()
      invariant Sum(fails) == mm.failures - old(mm.failures)
      invariant forall j :: 0 <= j < k ==> Served(reqs[j], done[j], fails[j], AtStop(reqs[..k], done, j, old(mm.mem), mm.root))
      invariant Follows(old(mm.mem), mm.mem, mm.root, mm.base, reqs[..k], done)
      invariant mm.starved <==> old(mm.starved) || mm.failures > old(mm.failures)
      invariant !old(mm.starved) && mm.failures == old(mm.failures) && OntoUnmapped(reqs[..k], done, old(mm.mem), mm.root) ==>
                  mm.overwrote == old(mm.overwrote)
      invariant mm.Pages() == old(mm.Pages())
    {
      ghost var mid, before := mm.mem, mm.failures;
      ghost var part := Serve(mm, reqs[k]);
      ghost var fail := mm.failures - before;
      ExtendRun(old(mm.mem), mid, mm.mem, mm.root, mm.base, reqs, k, done, part);
      NextUnmapped(old(mm.mem), mid, mm.root, mm.base, reqs, k, done, part);
      ExtendServed(old(mm.mem), mid, mm.root, mm.base, reqs, k, done, part, fails, fail);
      assert (fails + [fail])[..k] == fails;
      done, fails := done + [part], fails + [fail];
      k := k + 1;
    }
    assert reqs[..|reqs|] == reqs;
    ValidShape(mm);
  }

  /** The walks over `mem` are those over `mem0` after the requests. */
  ghost predicate Follows(mem0: Memory, mem: Memory, root: nat, base: nat, reqs: seq<Request>, done: seq<nat>)
    requires |reqs| == |done|
  {
    forall va :: InTable(0, base, va) ==> Walk(mem, root, 0, va) == AfterAll(reqs, done, va, Walk(mem0, root, 0, va))
  }

  lemma NoneYet(mem: Memory, root: nat, base: nat)
    ensures Follows(mem, mem, root, base, [], [])
  {
  }

  /** A mapping request goes to unmapped addresses, or is refused. */
  ghost predicate NothingInTheWay(req: Request, mem: Memory, root: nat) {
    req.ReqMap? && req.va % PAGE_SIZE == 0 ==> NoneMapped(mem, root, req.va, req.va + req.size)
  }

  lemma NextUnmapped(mem0: Memory, mid: Memory, root: nat, base: nat, reqs: seq<Request>, k: nat,
                     done: seq<nat>, part: nat)
    requires k < |reqs| && |done| == k && RequestOk(base, reqs[k]) && Follows(mem0, mid, root, base, reqs[..k], done)
    ensures OntoUnmapped(reqs[..k + 1], done + [part], mem0, root) ==>
              OntoUnmapped(reqs[..k], done, mem0, root) && NothingInTheWay(reqs[k], mid, root)
  {
    hide Walk, AfterAll;
    var reqs', done' := reqs[..k + 1], done + [part];
    if OntoUnmapped(reqs', done', mem0, root) {
      forall j | 0 <= j < k
        ensures OntoUnmappedAt(reqs[..k], done, j, mem0, root)
      {
        assert OntoUnmappedAt(reqs', done', j, mem0, root);
        assert reqs'[..j] == reqs[..k][..j] && done'[..j] == done[..j];
      }
      assert OntoUnmappedAt(reqs', done', k, mem0, root);
      assert reqs'[..k] == reqs[..k] && done'[..k] == done;
      if reqs[k].ReqMap? && reqs[k].va % PAGE_SIZE == 0 {
        forall va: nat | reqs[k].va <= va < reqs[k].va + reqs[k].size
          ensures Walk(mid, root, 0, va).None?
        {
          assert InTable(0, base, va);
        }
      }
    }
  }

  method Serve(mm: AddressSpace, req: Request) returns (ghost part: nat)
    requires mm.Valid() && RequestOk(mm.base, req)
    modifies mm
    ensures mm.Valid() && mm.Kept()
    ensures if req.ReqMap?
            then mm.overwrote == (old(mm.overwrote) ||
                   TablesIn(old(mm.mem), mm.root, MapLevel(req.va, req.pa, req.size), req.va, req.va + part))
            else mm.overwrote == old(mm.overwrote)
    ensures !old(mm.starved) && NothingInTheWay(req, old(mm.mem), mm.root) ==> mm.overwrote == old(mm.overwrote)
    ensures Served(req, part, mm.failures - old(mm.failures), Walk(old(mm.mem), mm.root, 0, Stop(req, part)))
    ensures Applied(old(mm.mem), mm.mem, mm.root, mm.base, OpOf(req), part)
  {
    hide Applied, AddressSpace.Valid, Walk, TablesIn, NoneMapped, MapLevel, PagesOf;
    if req.ReqMap? {
      NoTables(mm.mem, mm.root, MapLevel(req.va, req.pa, req.size), req.va);
    }
    match req {
      case ReqMap(va, pa, size, attr) =>
        var ok;
        ok, part := mm.MapRange(va, pa, size, attr);
      case ReqUnmap(va, size) =>
        part := mm.UnmapRange(va, size);
      case ReqModify(va, size, attr) =>
        var ok;
        ok, part := mm.Modify(va, size, attr);
    }
  }

  lemma ExtendRun(mem0: Memory, mid: Memory, mem: Memory, root: nat, base: nat, reqs: seq<Request>, k: nat,
                  done: seq<nat>, part: nat)
    requires k < |reqs| && |done| == k && Follows(mem0, mid, root, base, reqs[..k], done)
    requires Applied(mid, mem, root, base, OpOf(reqs[k]), part)
    ensures Follows(mem0, mem, root, base, reqs[..k + 1], done + [part])
  {
    hide Walk;
    assert reqs[..k + 1][..k] == reqs[..k] && (done + [part])[..k] == done;
  }

  /** What a request finds at its stop in the tables is what the flat map holds there. */
  lemma ExtendServed(mem0: Memory, mid: Memory, root: nat, base: nat, reqs: seq<Request>, k: nat,
                     done: seq<nat>, part: nat, fails: seq<nat>, fail: nat)
    requires k < |reqs| && |done| == k == |fails| && RequestOk(base, reqs[k]) && base % PAGE_SIZE == 0
    requires Follows(mem0, mid, root, base, reqs[..k], done)
    requires Served(reqs[k], part, fail, Walk(mid, root, 0, Stop(reqs[k], part)))
    requires forall j :: 0 <= j < k ==> Served(reqs[j], done[j], fails[j], AtStop(reqs[..k], done, j, mem0, root))
    ensures forall j :: 0 <= j < k + 1 ==>
              Served(reqs[j], (done + [part])[j], (fails + [fail])[j], AtStop(reqs[..k + 1], done + [part], j, mem0, root))
  {
    hide Walk, AfterAll;
    var reqs', done' := reqs[..k + 1], done + [part];
    forall j | 0 <= j < k + 1
      ensures Served(reqs[j], done'[j], (fails + [fail])[j], AtStop(reqs', done', j, mem0, root))
    {
      if j < k {
        assert reqs'[..j] == reqs[..k][..j] && done'[..j] == done[..j];
      } else {
        assert reqs'[..k] == reqs[..k] && done'[..k] == done;
        StopInside(base, reqs[k], part, fail, Walk(mid, root, 0, Stop(reqs[k], part)));
        if InTable(0, base, Stop(reqs[k], part)) {
          assert Walk(mid, root, 0, Stop(reqs[k], part)) == AtStop(reqs', done', k, mem0, root);
        }
      }
    }
  }

  /** A request that stops early stops inside the space; one that does not asks for no explanation. */
  lemma StopInside(base: nat, req: Request, part: nat, fail: nat, at: Option<Mapping>)
    requires RequestOk(base, req) && base % PAGE_SIZE == 0 && Served(req, part, fail, at)
    ensures InTable(0, base, Stop(req, part)) || forall at' :: Served(req, part, fail, at')
  {
  }
}
