/** build_envp: the writes that make up the image, in their order. */
module StackBuilder {
  import opened Bytes
  import opened Options
  import opened StackImage

  // ------------------------------------------------------------------ where the parts go

  function EnvTable(info: Info): nat {
    8 + 8 * |info.argv| + 8
  }

  function AuxTable(info: Info): nat {
    EnvTable(info) + 8 * |info.envv| + 8
  }

  function CopyStart(info: Info): nat {
    AuxTable(info) + AUX_COUNT * AUX_SIZE
  }

  predicate CopiesPhdrs(info: Info) {
    PhdrAddr(info.phdrs) == 0
  }

  function PlatformAt(info: Info): nat {
    CopyStart(info) + if CopiesPhdrs(info) then PHDR_SIZE * |info.phdrs| else 0
  }

  function ArgStrings(info: Info): nat {
    PlatformAt(info) + |info.platform| + 1
  }

  function EnvStrings(info: Info): nat {
    ArgStrings(info) + Lengths(info.argv)
  }

  function RandomAt(info: Info): nat {
    EnvStrings(info) + Lengths(info.envv)
  }

  /** The parts follow each other, and the last ends within the computed size. */
  lemma PartsFit(info: Info)
    ensures 8 < EnvTable(info) < AuxTable(info) < CopyStart(info) <= PlatformAt(info) < ArgStrings(info)
    ensures ArgStrings(info) <= EnvStrings(info) <= RandomAt(info) && RandomAt(info) + 16 <= EnvSize(info)
    ensures RandomAt(info) + 16 == EnvSize(info) <==> CopiesPhdrs(info) || info.phdrs == []
  {
    hide PhdrAddr, Lengths;
  }

  /** The auxiliary vector that a program started with `info` is to find. */
  function AuxVector(info: Info, base: nat, random: bool): seq<Aux>
    requires base + EnvSize(info) <= U64 && |info.phdrs| < 0x1_0000
  {
    PartsFit(info);
    AuxHead(info, base) + AuxProgram(info)
    + (if random then [Aux(AT_RANDOM, base + RandomAt(info))] else []) + AuxSystem(info, base)
  }

  function AuxHead(info: Info, base: nat): seq<Aux>
    requires base + EnvSize(info) <= U64
  {
    PartsFit(info);
    [Aux(AT_PHDR, if CopiesPhdrs(info) then base + CopyStart(info) else (PhdrAddr(info.phdrs) + info.execBase) % U64),
     Aux(AT_PLATFORM, base + PlatformAt(info))]
  }

  function AuxProgram(info: Info): seq<Aux>
    requires |info.phdrs| < 0x1_0000
  {
    [Aux(AT_PHENT, PHDR_SIZE), Aux(AT_PHNUM, |info.phdrs|), Aux(AT_PAGESZ, info.pageSize),
     Aux(AT_MINSIGSTKSZ, info.minStack), Aux(AT_SECURE, 0)]
  }

  function AuxSystem(info: Info, base: nat): seq<Aux>
    requires base + EnvSize(info) <= U64
  {
    PartsFit(info);
    [Aux(AT_EXECFN, if info.argv == [] then 0 else base + ArgStrings(info)),
     Aux(AT_BASE, info.interpBase), Aux(AT_FLAGS, 0), Aux(AT_ENTRY, (info.entry + info.execBase) % U64),
     Aux(AT_UID, 0), Aux(AT_EUID, 0), Aux(AT_GID, 0), Aux(AT_EGID, 0),
     Aux(AT_HWCAP, HWCAP_TLS), Aux(AT_HWCAP2, 0), Aux(AT_SYSINFO, 0), Aux(AT_SYSINFO_EHDR, info.vdso),
     Aux(AT_NULL, 0x666)]
  }

  // ------------------------------------------------------------------ stores

  /** A store that continues a written stretch. */
  lemma StoredGrows(mem: seq<byte>, lo: nat, hi: nat, bytes: seq<byte>)
    requires lo <= hi && hi + |bytes| <= |mem|
    ensures Stored(mem, hi, bytes)[lo..hi + |bytes|] == mem[lo..hi] + bytes
  {
  }

  /** Nothing changed outside two stretches. */
  ghost predicate KeptBut(a: seq<byte>, b: seq<byte>, lo: nat, hi: nat, lo': nat, hi': nat) {
    |a| == |b| && forall i :: 0 <= i < |a| && !(lo <= i < hi) && !(lo' <= i < hi') ==> a[i] == b[i]
  }

  lemma KeptSlice(a: seq<byte>, b: seq<byte>, lo: nat, hi: nat, lo': nat, hi': nat, x: nat, y: nat)
    requires KeptBut(a, b, lo, hi, lo', hi') && x <= y <= |a|
    requires (y <= lo || hi <= x) && (y <= lo' || hi' <= x)
    ensures a[x..y] == b[x..y]
  {
  }

  class Builder {
    const base: nat                // the address of the image
    const auxStart: nat
    var mem: seq<byte>
    var copyAddr: nat
    var aux: nat
    ghost var auxv: seq<Aux>

    ghost predicate Valid()
      reads this
    {
      && base + |mem| <= U64 && 0 < auxStart
      && auxStart + AUX_COUNT * AUX_SIZE <= copyAddr <= |mem|
      && |auxv| <= AUX_COUNT && aux == auxStart + AUX_SIZE * |auxv|
      && mem[auxStart..aux] == AuxBytes(auxv)
    }

    constructor (base: nat, mem: seq<byte>, auxStart: nat)
      requires base + |mem| <= U64 && 0 < auxStart && auxStart + AUX_COUNT * AUX_SIZE <= |mem|
      ensures Valid() && auxv == [] && this.mem == mem && this.base == base && this.auxStart == auxStart
      ensures copyAddr == auxStart + AUX_COUNT * AUX_SIZE
    {
      this.base, this.auxStart, this.mem := base, auxStart, mem;
      copyAddr, aux, auxv := auxStart + AUX_COUNT * AUX_SIZE, auxStart, [];
    }

    /** *aux++ = AUX_VALUE(kind, value). */
    method PushAux(kind: u64, value: u64)
      requires Valid() && |auxv| < AUX_COUNT
      modifies this`mem, this`aux, this`auxv
      ensures Valid() && auxv == old(auxv) + [Aux(kind, value)] && |mem| == |old(mem)|
      ensures KeptBut(mem, old(mem), auxStart, auxStart + AUX_COUNT * AUX_SIZE, 0, 0)
    {
      hide Le;
      var entry := Le(kind, 8) + Le(value, 8);
      StoredGrows(mem, auxStart, aux, entry);
      AuxAppend(auxv, Aux(kind, value));
      mem := Stored(mem, aux, entry);
      aux := aux + AUX_SIZE;
      auxv := auxv + [Aux(kind, value)];
    }

    /** A run of entries. */
    method PushAll(entries: seq<Aux>)
      requires Valid() && |auxv| + |entries| <= AUX_COUNT
      modifies this`mem, this`aux, this`auxv
      ensures Valid() && auxv == old(auxv) + entries
      ensures KeptBut(mem, old(mem), auxStart, auxStart + AUX_COUNT * AUX_SIZE, 0, 0)
    {
      hide AuxBytes, Le;
      for i := 0 to |entries|
        invariant Valid() && auxv == old(auxv) + entries[..i]
        invariant KeptBut(mem, old(mem), auxStart, auxStart + AUX_COUNT * AUX_SIZE, 0, 0)
      {
        PushAux(entries[i].kind, entries[i].value);
      }
    }

    /** Bytes copied to `copyAddr`, as by copy_string and copy_phdr. */
    method Copy(bytes: seq<byte>)
      requires Valid() && copyAddr + |bytes| <= |mem|
      modifies this`mem, this`copyAddr
      ensures Valid() && copyAddr == old(copyAddr) + |bytes| && mem == Stored(old(mem), old(copyAddr), bytes)
    {
      hide AuxBytes;
      StoredApart(mem, copyAddr, bytes, auxStart, aux);
      mem := Stored(mem, copyAddr, bytes);
      copyAddr := copyAddr + |bytes|;
    }

    /** The random bytes, behind the last string; `copyAddr` stays. */
    method PutRandom(bytes: seq<byte>)
      requires Valid() && copyAddr + |bytes| <= |mem|
      modifies this`mem
      ensures Valid() && mem == Stored(old(mem), copyAddr, bytes)
    {
      hide AuxBytes;
      StoredApart(mem, copyAddr, bytes, auxStart, aux);
      mem := Stored(mem, copyAddr, bytes);
    }

    /** A word of a table below the auxiliary vector. */
    method PutLong(off: nat, value: u64)
      requires Valid() && off + 8 <= auxStart
      modifies this`mem
      ensures Valid() && mem == Stored(old(mem), off, Le(value, 8))
    {
      hide AuxBytes, Le;
      StoredApart(mem, off, Le(value, 8), auxStart, aux);
      mem := Stored(mem, off, Le(value, 8));
    }

    /** The loop over argv, and likewise over envv: an address in the table and the string behind. */
    method WriteVector(table: nat, strs: seq<CStr>)
      requires Valid() && table + 8 * |strs| + 8 <= auxStart && copyAddr + Lengths(strs) < |mem|
      modifies this`mem, this`copyAddr
      ensures Valid() && copyAddr == old(copyAddr) + Lengths(strs)
      ensures KeptBut(mem, old(mem), table, table + 8 * |strs| + 8, old(copyAddr), copyAddr)
      ensures mem[table..table + 8 * |strs| + 8] == Pointers(strs, base + old(copyAddr)) + Le(0, 8)
      ensures mem[old(copyAddr)..copyAddr] == Strings(strs)
    {
      hide Le, Pointers, Strings, Lengths, AuxBytes, Stored, Written, KeptBut;
      ghost var start := copyAddr;
      NoneWritten(mem, base, table, start);
      var i := 0;
      while i < |strs|
        invariant 0 <= i <= |strs| && |mem| == |old(mem)|
        invariant Valid() && copyAddr == start + Lengths(strs[..i]) && copyAddr + Lengths(strs[i..]) < |mem|
        invariant Written(old(mem), mem, base, table, start, strs[..i])
      {
        SplitLengths(strs, i);
        VectorStep(old(mem), mem, base, table, start, strs[..i], strs[i]);
        PutLong(table + 8 * i, base + copyAddr);
        Copy(strs[i] + [0]);
        assert strs[..i + 1] == strs[..i] + [strs[i]];
        LengthsAppend(strs[..i], strs[i]);
        i := i + 1;
      }
      assert strs[..i] == strs;
      VectorEnd(old(mem), mem, base, table, start, strs);
      PutLong(table + 8 * |strs|, 0);
    }
  }

  lemma NoneWritten(mem: seq<byte>, base: nat, table: nat, start: nat)
    requires table <= start <= |mem|
    ensures Lengths([]) == 0 && Written(mem, mem, base, table, start, [])
  {
  }

  lemma SplitLengths(strs: seq<CStr>, i: nat)
    requires i < |strs|
    ensures Lengths(strs[i..]) == |strs[i]| + 1 + Lengths(strs[i + 1..])
  {
    assert strs[i..][1..] == strs[i + 1..];
  }

  /** The first `|done|` strings and addresses of a vector are in place, and nothing else has changed. */
  ghost predicate Written(was: seq<byte>, mem: seq<byte>, base: nat, table: nat, start: nat, done: seq<CStr>) {
    && |was| == |mem| && table + 8 * |done| <= start && start + Lengths(done) <= |mem|
    && KeptBut(mem, was, table, table + 8 * |done|, start, start + Lengths(done))
    && mem[table..table + 8 * |done|] == Pointers(done, base + start)
    && mem[start..start + Lengths(done)] == Strings(done)
  }

  lemma VectorStep(was: seq<byte>, mem: seq<byte>, base: nat, table: nat, start: nat, done: seq<CStr>, s: CStr)
    requires Written(was, mem, base, table, start, done)
    requires table + 8 * |done| + 8 <= start && start + Lengths(done) + |s| + 1 <= |mem|
    ensures var slot, at := table + 8 * |done|, start + Lengths(done);
            var m := Stored(Stored(mem, slot, Le(base + at, 8)), at, s + [0]);
            Written(was, m, base, table, start, done + [s])
  {
    hide Le, Pointers, Strings, Lengths, Stored, KeptBut;
    var slot, at := table + 8 * |done|, start + Lengths(done);
    var m1 := Stored(mem, slot, Le(base + at, 8));
    var m2 := Stored(m1, at, s + [0]);
    LengthsAppend(done, s);
    StringsAppend(done, s, base + start);
    StoredGrows(mem, table, slot, Le(base + at, 8));
    StoredApart(mem, slot, Le(base + at, 8), start, at);
    StoredApart(m1, at, s + [0], table, slot + 8);
    StoredGrows(m1, start, at, s + [0]);
    KeptStored(was, mem, table, slot, Le(base + at, 8), start, at, s + [0]);
    Regroup(Strings(done), s, [0]);
  }

  /** Each of two stretches, grown by a store at its end. */
  lemma KeptStored(was: seq<byte>, mem: seq<byte>, lo: nat, hi: nat, x: seq<byte>, lo': nat, hi': nat, y: seq<byte>)
    requires KeptBut(mem, was, lo, hi, lo', hi') && lo <= hi && lo' <= hi' && hi + |x| <= |mem| && hi' + |y| <= |mem|
    ensures KeptBut(Stored(Stored(mem, hi, x), hi', y), was, lo, hi + |x|, lo', hi' + |y|)
  {
  }

  lemma VectorEnd(was: seq<byte>, mem: seq<byte>, base: nat, table: nat, start: nat, done: seq<CStr>)
    requires Written(was, mem, base, table, start, done) && table + 8 * |done| + 8 <= start
    ensures var end := table + 8 * |done|;
            var m := Stored(mem, end, Le(0, 8));
            && KeptBut(m, was, table, end + 8, start, start + Lengths(done))
            && m[table..end + 8] == Pointers(done, base + start) + Le(0, 8)
            && m[start..start + Lengths(done)] == Strings(done)
  {
    hide Le, Pointers, Strings, Lengths, Stored;
    var end := table + 8 * |done|;
    StoredGrows(mem, table, end, Le(0, 8));
    StoredApart(mem, end, Le(0, 8), start, start + Lengths(done));
  }

  // ------------------------------------------------------------------ the whole image

  /** The argument count, the program headers and the platform string. */
  ghost predicate HeadIn(info: Info, mem: seq<byte>) {
    PartsFit(info);
    && |mem| == EnvSize(info)
    && mem[0..8] == Le(|info.argv|, 8)
    && (CopiesPhdrs(info) ==> mem[CopyStart(info)..PlatformAt(info)] == Joined(info.phdrs))
    && mem[PlatformAt(info)..ArgStrings(info)] == info.platform + [0]
  }

  /** Both tables and their strings. */
  ghost predicate VectorsIn(info: Info, base: nat, mem: seq<byte>) {
    PartsFit(info);
    && |mem| == EnvSize(info)
    && mem[8..EnvTable(info)] == Pointers(info.argv, base + ArgStrings(info)) + Le(0, 8)
    && mem[EnvTable(info)..AuxTable(info)] == Pointers(info.envv, base + EnvStrings(info)) + Le(0, 8)
    && mem[ArgStrings(info)..EnvStrings(info)] == Strings(info.argv)
    && mem[EnvStrings(info)..RandomAt(info)] == Strings(info.envv)
  }

  predicate Buildable(info: Info, base: nat) {
    base + EnvSize(info) <= U64 && |info.phdrs| < 0x1_0000 && |info.argv| < 0x8000_0000
  }

  /** AT_PHDR: where the program maps its own headers, or where a copy goes. */
  method BuildPhdr(b: Builder, info: Info)
    requires b.Valid() && Buildable(info, b.base) && b.auxStart == AuxTable(info) && b.copyAddr == CopyStart(info)
    requires |b.mem| == EnvSize(info) && b.auxv == []
    modifies b
    ensures b.Valid() && |b.mem| == |old(b.mem)| && b.copyAddr == PlatformAt(info)
    ensures PlatformAt(info) <= |b.mem| && b.mem[0..8] == old(b.mem)[0..8]
    ensures CopiesPhdrs(info) ==> b.mem[CopyStart(info)..PlatformAt(info)] == Joined(info.phdrs)
    ensures b.auxv == AuxHead(info, b.base)[..1]
  {
    hide Le, AuxBytes, Joined, PhdrAddr, Lengths, Stored, KeptBut, EnvSize, EnvTable, AuxTable, EnvStrings, RandomAt;
    PartsFit(info);
    var phdr := GetPhdrAddr(info.phdrs);
    if phdr != 0 {
      b.PushAux(AT_PHDR, (phdr + info.execBase) % U64);
      KeptSlice(b.mem, old(b.mem), AuxTable(info), CopyStart(info), 0, 0, 0, 8);
    } else {
      b.PushAux(AT_PHDR, b.base + b.copyAddr);
      KeptSlice(b.mem, old(b.mem), AuxTable(info), CopyStart(info), 0, 0, 0, 8);
      StoredApart(b.mem, b.copyAddr, Joined(info.phdrs), 0, 8);
      b.Copy(Joined(info.phdrs));
    }
  }

  /** Up to the platform string. */
  method BuildHead(info: Info, base: nat, garbage: seq<byte>) returns (b: Builder)
    requires Buildable(info, base) && |garbage| == EnvSize(info)
    ensures fresh(b) && b.Valid() && b.base == base && b.auxStart == AuxTable(info) && b.copyAddr == ArgStrings(info)
    ensures HeadIn(info, b.mem) && b.auxv == AuxHead(info, base)
  {
    hide Le, AuxBytes, Joined, PhdrAddr, Lengths, Stored, KeptBut, EnvSize, EnvTable, AuxTable, CopiesPhdrs, EnvStrings, RandomAt;
    PartsFit(info);
    b := new Builder(base, garbage, AuxTable(info));
    b.PutLong(0, |info.argv|);
    BuildPhdr(b, info);
    ghost var m1 := b.mem;
    b.PushAux(AT_PLATFORM, base + b.copyAddr);
    ghost var m2 := b.mem;
    KeptSlice(m2, m1, AuxTable(info), CopyStart(info), 0, 0, 0, 8);
    KeptSlice(m2, m1, AuxTable(info), CopyStart(info), 0, 0, CopyStart(info), PlatformAt(info));
    b.Copy(info.platform + [0]);
    StoredApart(m2, PlatformAt(info), info.platform + [0], 0, 8);
    StoredApart(m2, PlatformAt(info), info.platform + [0], CopyStart(info), PlatformAt(info));
  }

  /** The two loops. */
  method BuildVectors(b: Builder, info: Info)
    requires b.Valid() && Buildable(info, b.base) && b.auxStart == AuxTable(info) && b.copyAddr == ArgStrings(info)
    requires HeadIn(info, b.mem)
    modifies b`mem, b`copyAddr
    ensures b.Valid() && b.copyAddr == RandomAt(info) && HeadIn(info, b.mem) && VectorsIn(info, b.base, b.mem)
  {
    hide Le, AuxBytes, Joined, PhdrAddr, Lengths, Stored, Pointers, Strings, KeptBut;
    PartsFit(info);
    ghost var m0 := b.mem;
    b.WriteVector(8, info.argv);
    ghost var m1 := b.mem;
    HeadKept(info, m0, m1, 8, EnvTable(info), ArgStrings(info), EnvStrings(info));
    b.WriteVector(EnvTable(info), info.envv);
    ghost var m2 := b.mem;
    HeadKept(info, m1, m2, EnvTable(info), AuxTable(info), EnvStrings(info), RandomAt(info));
    KeptSlice(m2, m1, EnvTable(info), AuxTable(info), EnvStrings(info), RandomAt(info), 8, EnvTable(info));
    KeptSlice(m2, m1, EnvTable(info), AuxTable(info), EnvStrings(info), RandomAt(info), ArgStrings(info), EnvStrings(info));
  }

  lemma HeadKept(info: Info, a: seq<byte>, b: seq<byte>, lo: nat, hi: nat, lo': nat, hi': nat)
    requires HeadIn(info, a) && KeptBut(b, a, lo, hi, lo', hi') && 8 <= lo <= hi <= CopyStart(info)
    requires ArgStrings(info) <= lo' <= hi'
    ensures HeadIn(info, b)
  {
    hide Le, Joined, PhdrAddr, Lengths, KeptBut;
    PartsFit(info);
    assert |a| == |b| by {
      SameLength(b, a, lo, hi, lo', hi');
    }
    KeptSlice(b, a, lo, hi, lo', hi', 0, 8);
    KeptSlice(b, a, lo, hi, lo', hi', CopyStart(info), PlatformAt(info));
    KeptSlice(b, a, lo, hi, lo', hi', PlatformAt(info), ArgStrings(info));
  }

  lemma SameLength(a: seq<byte>, b: seq<byte>, lo: nat, hi: nat, lo': nat, hi': nat)
    requires KeptBut(a, b, lo, hi, lo', hi')
    ensures |a| == |b|
  {
  }

  lemma VectorsKept(info: Info, base: nat, a: seq<byte>, b: seq<byte>, lo: nat, hi: nat, lo': nat, hi': nat)
    requires VectorsIn(info, base, a) && KeptBut(b, a, lo, hi, lo', hi')
    requires AuxTable(info) <= lo <= hi <= CopyStart(info) && RandomAt(info) <= lo' <= hi'
    ensures VectorsIn(info, base, b)
  {
    hide Le, PhdrAddr, Lengths, KeptBut, Pointers, Strings;
    PartsFit(info);
    SameLength(b, a, lo, hi, lo', hi');
    KeptSlice(b, a, lo, hi, lo', hi', 8, EnvTable(info));
    KeptSlice(b, a, lo, hi, lo', hi', EnvTable(info), AuxTable(info));
    KeptSlice(b, a, lo, hi, lo', hi', ArgStrings(info), EnvStrings(info));
    KeptSlice(b, a, lo, hi, lo', hi', EnvStrings(info), RandomAt(info));
  }

  /** Nothing changed but the auxiliary table and the bytes behind the strings. */
  ghost predicate TailOnly(info: Info, a: seq<byte>, b: seq<byte>) {
    KeptBut(a, b, AuxTable(info), CopyStart(info), RandomAt(info), |b|)
  }

  lemma TailKeeps(info: Info, base: nat, a: seq<byte>, b: seq<byte>)
    requires HeadIn(info, a) && VectorsIn(info, base, a) && TailOnly(info, b, a)
    ensures HeadIn(info, b) && VectorsIn(info, base, b)
  {
    hide HeadIn, VectorsIn, KeptBut, PhdrAddr, Lengths;
    PartsFit(info);
    HeadSize(info, a);
    HeadKept(info, a, b, AuxTable(info), CopyStart(info), RandomAt(info), |a|);
    VectorsKept(info, base, a, b, AuxTable(info), CopyStart(info), RandomAt(info), |a|);
  }

  lemma HeadSize(info: Info, mem: seq<byte>)
    requires HeadIn(info, mem)
    ensures |mem| == EnvSize(info)
  {
  }

  /** The address of the first argument, which the table holds, or NULL. */
  lemma FirstPointer(info: Info, base: nat, mem: seq<byte>)
    requires VectorsIn(info, base, mem) && Buildable(info, base)
    ensures 16 <= |mem| && ReadLong(mem, 8) == if info.argv == [] then 0 else base + ArgStrings(info)
  {
    hide Le, FromLe, PhdrAddr, Strings;
    PartsFit(info);
    var n := EnvTable(info) - 8;
    SliceOf(mem, 8, n, 0, 8);
    var first := if info.argv == [] then 0 else base + ArgStrings(info);
    assert mem[8..8 + n][0..8] == Le(first, 8);
    LongReads(mem, 8, first);
  }

  /** The random bytes and their entry, if there were any to be had. */
  method PushRandom(b: Builder, info: Info, random: Option<seq<byte>>)
    requires b.Valid() && Buildable(info, b.base) && b.auxStart == AuxTable(info) && b.copyAddr == RandomAt(info)
    requires |b.auxv| < AUX_COUNT && |b.mem| == EnvSize(info) && (random.Some? ==> |random.value| <= 16)
    modifies b`mem, b`aux, b`auxv
    ensures b.Valid() && TailOnly(info, b.mem, old(b.mem))
    ensures b.auxv == old(b.auxv) + (if random.Some? then [Aux(AT_RANDOM, b.base + RandomAt(info))] else [])
    ensures random.Some? ==> RandomAt(info) + |random.value| <= |b.mem|
    ensures random.Some? ==> b.mem[RandomAt(info)..RandomAt(info) + |random.value|] == random.value
  {
    hide Le, AuxBytes, PhdrAddr, Lengths, KeptBut, TailOnly;
    hide EnvSize, EnvTable, AuxTable, PlatformAt, ArgStrings, EnvStrings, RandomAt;
    PartsFit(info);
    ghost var m0 := b.mem;
    if random.Some? {
      b.PutRandom(random.value);
      ghost var m1 := b.mem;
      RandomTail(info, m1, m0, random.value);
      b.PushAux(AT_RANDOM, b.base + b.copyAddr);
      AuxTail(info, b.mem, m1);
      KeptSlice(b.mem, m1, AuxTable(info), CopyStart(info), 0, 0, RandomAt(info), RandomAt(info) + |random.value|);
      TailTrans(info, b.mem, m1, m0);
    } else {
      TailRefl(info, m0);
    }
  }

  lemma TailRefl(info: Info, a: seq<byte>)
    ensures TailOnly(info, a, a)
  {
  }

  /** The entries about the program, before the random bytes. */
  method PushProgram(b: Builder, info: Info)
    requires b.Valid() && Buildable(info, b.base) && b.auxStart == AuxTable(info) && |b.auxv| == 2
    modifies b`mem, b`aux, b`auxv
    ensures b.Valid() && TailOnly(info, b.mem, old(b.mem)) && |b.mem| == |old(b.mem)|
    ensures b.auxv == old(b.auxv) + AuxProgram(info)
  {
    hide Le, AuxBytes, KeptBut, TailOnly, EnvSize, AuxTable, RandomAt;
    ghost var m0 := b.mem;
    b.PushAll([Aux(AT_PHENT, PHDR_SIZE), Aux(AT_PHNUM, |info.phdrs|), Aux(AT_PAGESZ, info.pageSize),
               Aux(AT_MINSIGSTKSZ, info.minStack), Aux(AT_SECURE, 0)]);
    AuxTail(info, b.mem, m0);
  }

  /** The entries behind them; AT_EXECFN is read back from the table of arguments. */
  method PushSystem(b: Builder, info: Info)
    requires b.Valid() && Buildable(info, b.base) && b.auxStart == AuxTable(info) && |b.auxv| <= 8
    requires VectorsIn(info, b.base, b.mem)
    modifies b`mem, b`aux, b`auxv
    ensures b.Valid() && TailOnly(info, b.mem, old(b.mem)) && b.auxv == old(b.auxv) + AuxSystem(info, b.base)
    ensures KeptBut(b.mem, old(b.mem), AuxTable(info), CopyStart(info), 0, 0) && |b.mem| == |old(b.mem)|
  {
    hide Le, AuxBytes, KeptBut, TailOnly, VectorsIn, ReadLong, EnvSize, AuxTable, RandomAt, ArgStrings;
    PartsFit(info);
    ghost var m0 := b.mem;
    FirstPointer(info, b.base, m0);
    b.PushAll([Aux(AT_EXECFN, ReadLong(b.mem, 8)), Aux(AT_BASE, info.interpBase), Aux(AT_FLAGS, 0),
               Aux(AT_ENTRY, (info.entry + info.execBase) % U64), Aux(AT_UID, 0), Aux(AT_EUID, 0), Aux(AT_GID, 0),
               Aux(AT_EGID, 0), Aux(AT_HWCAP, HWCAP_TLS), Aux(AT_HWCAP2, 0), Aux(AT_SYSINFO, 0),
               Aux(AT_SYSINFO_EHDR, info.vdso), Aux(AT_NULL, 0x666)]);
    AuxTail(info, b.mem, m0);
  }

  /** The rest of the auxiliary vector, with the random bytes if there were any to be had. */
  method BuildTail(b: Builder, info: Info, random: Option<seq<byte>>)
    requires b.Valid() && Buildable(info, b.base) && b.auxStart == AuxTable(info) && b.copyAddr == RandomAt(info)
    requires HeadIn(info, b.mem) && VectorsIn(info, b.base, b.mem)
    requires b.auxv == AuxHead(info, b.base) && (random.Some? ==> |random.value| <= 16)
    modifies b`mem, b`aux, b`auxv
    ensures b.Valid() && HeadIn(info, b.mem) && VectorsIn(info, b.base, b.mem)
    ensures b.auxv == AuxVector(info, b.base, random.Some?)
    ensures random.Some? ==> RandomAt(info) + |random.value| <= |b.mem|
    ensures random.Some? ==> b.mem[RandomAt(info)..RandomAt(info) + |random.value|] == random.value
  {
    hide Le, AuxBytes, PhdrAddr, Lengths, Stored, KeptBut, HeadIn, VectorsIn, ReadLong, TailOnly;
    hide EnvSize, EnvTable, AuxTable, PlatformAt, ArgStrings, EnvStrings, RandomAt;
    PartsFit(info);
    HeadSize(info, b.mem);
    ghost var m0 := b.mem;
    PushProgram(b, info);
    ghost var m1 := b.mem;
    TailKeeps(info, b.base, m0, m1);
    PushRandom(b, info, random);
    ghost var m2 := b.mem;
    TailKeeps(info, b.base, m1, m2);
    PushSystem(b, info);
    TailKeeps(info, b.base, m2, b.mem);
    if random.Some? {
      KeptSlice(b.mem, m2, AuxTable(info), CopyStart(info), 0, 0, RandomAt(info), RandomAt(info) + |random.value|);
    }
  }

  lemma AuxTail(info: Info, a: seq<byte>, b: seq<byte>)
    requires KeptBut(a, b, AuxTable(info), CopyStart(info), 0, 0)
    ensures TailOnly(info, a, b) && |a| == |b|
  {
    hide AuxTable, CopyStart, RandomAt;
  }

  lemma RandomTail(info: Info, a: seq<byte>, b: seq<byte>, bytes: seq<byte>)
    requires RandomAt(info) + |bytes| <= |b| && a == Stored(b, RandomAt(info), bytes)
    ensures TailOnly(info, a, b) && |a| == |b|
  {
    hide AuxTable, CopyStart, RandomAt, Stored;
  }

  lemma TailTrans(info: Info, a: seq<byte>, b: seq<byte>, c: seq<byte>)
    requires TailOnly(info, a, b) && TailOnly(info, b, c)
    ensures TailOnly(info, a, c)
  {
    hide AuxTable, CopyStart, RandomAt;
  }

  /** Where the auxiliary vector starts: behind argc, argv, envp and their two NULLs. */
  function AuxAt(info: Info): nat {
    8 + 8 * (|info.argv| + 1) + 8 * (|info.envv| + 1)
  }

  /** `v` is the address of string `s`. */
  predicate Addresses(mem: seq<byte>, base: nat, v: nat, s: seq<byte>) {
    base < v < base + |mem| && ReadString(mem, v - base) == s
  }

  /** `v` is the address of a copy of the headers. */
  predicate AddressesPhdrs(mem: seq<byte>, base: nat, v: nat, phdrs: seq<Phdr>) {
    && base < v && v - base + 56 * |phdrs| <= |mem|
    && forall i, j :: 0 <= i < |phdrs| && 0 <= j < 56 ==> mem[v - base + 56 * i + j] == phdrs[i][j]
  }

  /** The first PT_PHDR header, if it says where the program maps its headers. */
  predicate MapsPhdrs(info: Info, k: nat) {
    FirstPhdr(info.phdrs, k) && EightAt(info.phdrs[k], 16) != 0
  }

  /**
   What getauxval finds, kind by kind: 3 AT_PHDR, 4 AT_PHENT, 5 AT_PHNUM, 6 AT_PAGESZ, 7 AT_BASE, 8 AT_FLAGS,
   9 AT_ENTRY, 11 to 14 the user and group, 15 AT_PLATFORM, 16 AT_HWCAP, 23 AT_SECURE, 25 AT_RANDOM, 26 AT_HWCAP2,
   31 AT_EXECFN, 32 AT_SYSINFO, 33 AT_SYSINFO_EHDR, 51 AT_MINSIGSTKSZ, and no other.
   */
  ghost predicate AuxFinds(info: Info, base: nat, random: Option<seq<byte>>, mem: seq<byte>) {
    && NumbersFound(info, mem) && PointersFound(info, base, random, mem)
    && forall kind: nat :: kind !in {3, 4, 5, 6, 7, 8, 9, 11, 12, 13, 14, 15, 16, 23, 25, 26, 31, 32, 33, 51} ==>
         GetAux(mem, AuxAt(info), kind) == None
  }

  predicate NumbersFound(info: Info, mem: seq<byte>) {
    var at := AuxAt(info);
    && GetAux(mem, at, 4) == Some(56) && GetAux(mem, at, 5) == Some(|info.phdrs|)
    && GetAux(mem, at, 6) == Some(info.pageSize) && GetAux(mem, at, 7) == Some(info.interpBase)
    && GetAux(mem, at, 8) == Some(0) && GetAux(mem, at, 9) == Some((info.entry + info.execBase) % 0x1_0000_0000_0000_0000)
    && GetAux(mem, at, 11) == Some(0) && GetAux(mem, at, 12) == Some(0)
    && GetAux(mem, at, 13) == Some(0) && GetAux(mem, at, 14) == Some(0)
    && GetAux(mem, at, 16) == Some(0x8000) && GetAux(mem, at, 23) == Some(0) && GetAux(mem, at, 26) == Some(0)
    && GetAux(mem, at, 32) == Some(0) && GetAux(mem, at, 33) == Some(info.vdso) && GetAux(mem, at, 51) == Some(info.minStack)
  }

  ghost predicate PointersFound(info: Info, base: nat, random: Option<seq<byte>>, mem: seq<byte>) {
    var at := AuxAt(info);
    var phdr, platform, execfn, rand := GetAux(mem, at, 3), GetAux(mem, at, 15), GetAux(mem, at, 31), GetAux(mem, at, 25);
    && phdr.Some? && platform.Some? && execfn.Some?
    && (forall k: nat :: MapsPhdrs(info, k) ==>
          phdr.value == (EightAt(info.phdrs[k], 16) + info.execBase) % 0x1_0000_0000_0000_0000)
    && ((forall k: nat :: !MapsPhdrs(info, k)) ==> AddressesPhdrs(mem, base, phdr.value, info.phdrs))
    && Addresses(mem, base, platform.value, info.platform)
    && (if info.argv == [] then execfn.value == 0 else Addresses(mem, base, execfn.value, info.argv[0]))
    && (if random.None? then rand.None? else
          && rand.Some? && base < rand.value && rand.value - base + |random.value| <= |mem|
          && mem[rand.value - base..rand.value - base + |random.value|] == random.value)
  }

  /** What a program finds in the image at `base`. */
  ghost predicate Image(info: Info, base: nat, random: Option<seq<byte>>, mem: seq<byte>) {
    && |mem| == EnvSize(info)
    && ReadLong(mem, 0) == |info.argv|
    && ReadsTable(mem, base, 8, info.argv)
    && ReadsTable(mem, base, 8 + 8 * (|info.argv| + 1), info.envv)
    && AuxFinds(info, base, random, mem)
  }

  /** build_envp, in memory that holds anything, of just the size that get_env_size computes. */
  method Build(info: Info, base: nat, garbage: seq<byte>, random: Option<seq<byte>>) returns (mem: seq<byte>)
    requires Buildable(info, base) && |garbage| == EnvSize(info) && (random.Some? ==> |random.value| <= 16)
    ensures Image(info, base, random, mem)
  {
    hide Le, PhdrAddr, Lengths, KeptBut, ReadLong, ReadsTable, ReadsAux, AuxVector, AuxFinds;
    hide HeadIn, VectorsIn, AuxBytes, AuxHead, ReadString, RandomAt, PlatformAt, ArgStrings, EnvStrings, CopyStart;
    var b := BuildHead(info, base, garbage);
    BuildVectors(b, info);
    BuildTail(b, info, random);
    mem := b.mem;
    PartsFit(info);
    AuxReads(mem, AuxTable(info), b.auxv);
    ReadsBack(info, base, mem);
    AuxIsFound(info, base, random, mem);
  }

  lemma ReadsBack(info: Info, base: nat, mem: seq<byte>)
    requires Buildable(info, base) && HeadIn(info, mem) && VectorsIn(info, base, mem)
    ensures |mem| == EnvSize(info) && ReadLong(mem, 0) == |info.argv|
    ensures ReadsTable(mem, base, 8, info.argv) && ReadsTable(mem, base, EnvTable(info), info.envv)
    ensures ReadString(mem, PlatformAt(info)) == info.platform
  {
    hide Le, PhdrAddr, Lengths, Pointers, Strings, ReadsTable, Joined, VectorsIn;
    PartsFit(info);
    LongReads(mem, 0, |info.argv|);
    StringReads(mem, PlatformAt(info), info.platform);
    TablesRead(info, base, mem);
  }

  lemma TablesRead(info: Info, base: nat, mem: seq<byte>)
    requires Buildable(info, base) && VectorsIn(info, base, mem)
    ensures ReadsTable(mem, base, 8, info.argv) && ReadsTable(mem, base, EnvTable(info), info.envv)
  {
    hide Le, PhdrAddr, Lengths, Pointers, Strings, ReadsTable;
    PartsFit(info);
    TableReads(mem, info.argv, 8, ArgStrings(info), base);
    TableReads(mem, info.envv, EnvTable(info), EnvStrings(info), base);
  }

  /** The vector fits its table and ends with its only AT_NULL. */
  lemma AuxVectorEnds(info: Info, base: nat, random: bool)
    requires Buildable(info, base)
    ensures var v := AuxVector(info, base, random);
            && |v| <= 21 < AUX_COUNT && v[|v| - 1].kind == AT_NULL
            && (forall i :: 0 <= i < |v| - 1 ==> v[i].kind != AT_NULL)
  {
    hide PhdrAddr, EnvSize, RandomAt, ArgStrings, PlatformAt, CopyStart;
  }

  // ------------------------------------------------------------------ the auxiliary vector looked up

  /** The place of each kind in the vector. */
  function SlotOf(kind: nat, random: bool): int {
    var r := if random then 1 else 0;
    if kind == 3 then 0 else if kind == 15 then 1 else if kind == 4 then 2 else if kind == 5 then 3
    else if kind == 6 then 4 else if kind == 51 then 5 else if kind == 23 then 6 else if kind == 25 then 7
    else if kind == 31 then r + 7 else if kind == 7 then r + 8 else if kind == 8 then r + 9 else if kind == 9 then r + 10
    else if kind == 11 then r + 11 else if kind == 12 then r + 12 else if kind == 13 then r + 13
    else if kind == 14 then r + 14 else if kind == 16 then r + 15 else if kind == 26 then r + 16
    else if kind == 32 then r + 17 else if kind == 33 then r + 18 else if kind == 0 then r + 19 else -1
  }

  /** No kind occurs twice, and AT_NULL only at the end. */
  lemma Slots(info: Info, base: nat, random: bool)
    requires Buildable(info, base)
    ensures var v := AuxVector(info, base, random);
            && |v| == SlotOf(0, random) + 1
            && (forall i :: 0 <= i < |v| ==> SlotOf(v[i].kind, random) == i && (v[i].kind == 25 ==> random))
  {
    hide PhdrAddr, EnvSize, RandomAt, ArgStrings, PlatformAt, CopyStart;
  }

  /** The entry in place `i` is found. */
  lemma Found(info: Info, base: nat, random: bool, mem: seq<byte>, i: nat)
    requires Buildable(info, base) && ReadsAux(mem, AuxTable(info), AuxVector(info, base, random))
    requires i < SlotOf(0, random)
    ensures var v := AuxVector(info, base, random);
            i < |v| && GetAux(mem, AuxAt(info), v[i].kind) == Some(v[i].value)
  {
    hide AuxVector, ReadsAux, SlotOf;
    Slots(info, base, random);
    var v := AuxVector(info, base, random);
    NullSlot(random);
    AuxHit(mem, AuxTable(info), v, i);
  }

  lemma NullSlot(random: bool)
    ensures SlotOf(0, random) == if random then 20 else 19
  {
  }

  /** The entries by their places, in numbers. */
  lemma HeadEntries(info: Info, base: nat, random: bool)
    requires Buildable(info, base)
    ensures var v := AuxVector(info, base, random);
            && |v| == (if random then 21 else 20)
            && v[0].kind == 3 && v[1].kind == 15 && v[2] == Aux(4, 56) && v[3] == Aux(5, |info.phdrs|)
            && v[4] == Aux(6, info.pageSize) && v[5] == Aux(51, info.minStack) && v[6] == Aux(23, 0)
            && (random ==> v[7].kind == 25)
  {
    hide PhdrAddr, EnvSize, RandomAt, ArgStrings, PlatformAt, CopyStart;
  }

  lemma SystemEntries(info: Info, base: nat, random: bool)
    requires Buildable(info, base)
    ensures var v := AuxVector(info, base, random);
            var r := if random then 8 else 7;
            && |v| == r + 13 && v[r].kind == 31
            && v[r + 1] == Aux(7, info.interpBase) && v[r + 2] == Aux(8, 0)
            && v[r + 3] == Aux(9, (info.entry + info.execBase) % 0x1_0000_0000_0000_0000)
            && v[r + 4] == Aux(11, 0) && v[r + 5] == Aux(12, 0) && v[r + 6] == Aux(13, 0) && v[r + 7] == Aux(14, 0)
            && v[r + 8] == Aux(16, 0x8000) && v[r + 9] == Aux(26, 0) && v[r + 10] == Aux(32, 0) && v[r + 11] == Aux(33, info.vdso)
  {
    hide PhdrAddr, EnvSize, RandomAt, ArgStrings, PlatformAt, CopyStart;
  }

  lemma PointerEntries(info: Info, base: nat, random: bool)
    requires Buildable(info, base)
    ensures var v := AuxVector(info, base, random);
            && |v| == (if random then 21 else 20)
            && v[0] == Aux(3, if CopiesPhdrs(info) then base + CopyStart(info) else (PhdrAddr(info.phdrs) + info.execBase) % U64)
            && v[1] == Aux(15, base + PlatformAt(info))
            && v[if random then 8 else 7] == Aux(31, if info.argv == [] then 0 else base + ArgStrings(info))
            && (random ==> v[7] == Aux(25, base + RandomAt(info)))
  {
    hide PhdrAddr, EnvSize, RandomAt, ArgStrings, PlatformAt, CopyStart;
  }

  lemma AllFound(info: Info, base: nat, random: bool, mem: seq<byte>)
    requires Buildable(info, base) && ReadsAux(mem, AuxTable(info), AuxVector(info, base, random))
    ensures var v := AuxVector(info, base, random);
            && |v| == (if random then 21 else 20)
            && forall i :: 0 <= i < |v| - 1 ==> GetAux(mem, AuxAt(info), v[i].kind) == Some(v[i].value)
  {
    hide AuxVector, ReadsAux, SlotOf, GetAux, AuxTable, AuxAt;
    Slots(info, base, random);
    NullSlot(random);
    var v := AuxVector(info, base, random);
    forall i | 0 <= i < |v| - 1
      ensures GetAux(mem, AuxAt(info), v[i].kind) == Some(v[i].value)
    {
      Found(info, base, random, mem, i);
    }
  }

  lemma NumbersAreFound(info: Info, base: nat, random: bool, mem: seq<byte>)
    requires Buildable(info, base) && ReadsAux(mem, AuxTable(info), AuxVector(info, base, random))
    ensures NumbersFound(info, mem)
  {
    hide AuxVector, ReadsAux, GetAux, EnvSize, AuxTable, AuxAt;
    AllFound(info, base, random, mem);
    HeadEntries(info, base, random);
    SystemEntries(info, base, random);
  }

  lemma OthersAbsent(info: Info, base: nat, random: bool, mem: seq<byte>, kind: nat)
    requires Buildable(info, base) && ReadsAux(mem, AuxTable(info), AuxVector(info, base, random))
    requires kind !in {3, 4, 5, 6, 7, 8, 9, 11, 12, 13, 14, 15, 16, 23, 25, 26, 31, 32, 33, 51} || (kind == 25 && !random)
    ensures GetAux(mem, AuxAt(info), kind) == None
  {
    Slots(info, base, random);
    var v := AuxVector(info, base, random);
    if kind == 0 {
      ZeroAbsent(mem, AuxAt(info));
    } else {
      assert SlotOf(kind, random) == -1 || (kind == 25 && !random);
      AuxVectorEnds(info, base, random);
      hide AuxVector, ReadsAux, GetAux;
      AuxMiss(mem, AuxTable(info), v, kind);
    }
  }

  lemma {:induction false} ZeroAbsent(mem: seq<byte>, off: nat)
    ensures GetAux(mem, off, 0) == None
    decreases |mem| - off
  {
    hide ReadLong;
    if off + 16 <= |mem| {
      ZeroAbsent(mem, off + 16);
    }
  }

  /** AT_PHDR: the mapped headers, or the copy. */
  lemma PhdrIsFound(info: Info, base: nat, mem: seq<byte>, v: nat)
    requires Buildable(info, base) && HeadIn(info, mem)
    requires v == if CopiesPhdrs(info) then base + CopyStart(info) else (PhdrAddr(info.phdrs) + info.execBase) % U64
    ensures forall k: nat :: MapsPhdrs(info, k) ==>
              v == (EightAt(info.phdrs[k], 16) + info.execBase) % 0x1_0000_0000_0000_0000
    ensures (forall k: nat :: !MapsPhdrs(info, k)) ==> AddressesPhdrs(mem, base, v, info.phdrs)
  {
    hide Le, PhdrAddr, EightAt, Joined, FirstPhdr;
    PartsFit(info);
    PhdrAddrIs(info.phdrs);
    if CopiesPhdrs(info) {
      CopyHolds(info, base, mem);
    } else if forall k: nat :: !FirstPhdr(info.phdrs, k) {
      assert false;
    } else {
      var k: nat :| FirstPhdr(info.phdrs, k);
      assert MapsPhdrs(info, k);
    }
  }

  lemma CopyHolds(info: Info, base: nat, mem: seq<byte>)
    requires HeadIn(info, mem) && CopiesPhdrs(info)
    ensures AddressesPhdrs(mem, base, base + CopyStart(info), info.phdrs)
  {
    hide Le, PhdrAddr, Joined;
    PartsFit(info);
    var at := CopyStart(info);
    forall i, j | 0 <= i < |info.phdrs| && 0 <= j < 56
      ensures mem[at + 56 * i + j] == info.phdrs[i][j]
    {
      JoinedAt(info.phdrs, i, j);
      assert mem[at..PlatformAt(info)][56 * i + j] == mem[at + 56 * i + j];
    }
  }

  /** The rest of the pointers. */
  lemma PointersAreFound(info: Info, base: nat, random: Option<seq<byte>>, mem: seq<byte>)
    requires Buildable(info, base) && HeadIn(info, mem) && VectorsIn(info, base, mem)
    requires ReadsAux(mem, AuxTable(info), AuxVector(info, base, random.Some?))
    requires ReadString(mem, PlatformAt(info)) == info.platform && ReadsTable(mem, base, 8, info.argv)
    requires random.Some? ==> RandomAt(info) + |random.value| <= |mem| &&
                              mem[RandomAt(info)..RandomAt(info) + |random.value|] == random.value
    ensures PointersFound(info, base, random, mem)
  {
    hide AuxVector, ReadsAux, GetAux, AuxAt, ReadString, ReadLong, EightAt, MapsPhdrs, AddressesPhdrs, HeadIn, VectorsIn;
    hide AuxTable, EnvTable, PlatformAt, ArgStrings, EnvStrings, RandomAt, CopyStart, EnvSize, PhdrAddr;
    PartsFit(info);
    HeadSize(info, mem);
    AllFound(info, base, random.Some?, mem);
    PointerEntries(info, base, random.Some?);
    PhdrIsFound(info, base, mem, GetAux(mem, AuxAt(info), 3).value);
    FirstPointer(info, base, mem);
    if info.argv != [] {
      assert ReadsString(mem, base, 8 + 8 * 0, info.argv[0]);
    }
    if random.None? {
      OthersAbsent(info, base, false, mem, 25);
    }
  }

  lemma AuxIsFound(info: Info, base: nat, random: Option<seq<byte>>, mem: seq<byte>)
    requires Buildable(info, base) && HeadIn(info, mem) && VectorsIn(info, base, mem)
    requires ReadsAux(mem, AuxTable(info), AuxVector(info, base, random.Some?))
    requires ReadString(mem, PlatformAt(info)) == info.platform && ReadsTable(mem, base, 8, info.argv)
    requires random.Some? ==> RandomAt(info) + |random.value| <= |mem| &&
                              mem[RandomAt(info)..RandomAt(info) + |random.value|] == random.value
    ensures AuxFinds(info, base, random, mem)
  {
    hide AuxVector, ReadsAux, GetAux, NumbersFound, PointersFound, HeadIn, VectorsIn, ReadsTable, ReadString, AuxAt, AuxTable;
    NumbersAreFound(info, base, random.Some?, mem);
    PointersAreFound(info, base, random, mem);
    forall kind: nat | kind !in {3, 4, 5, 6, 7, 8, 9, 11, 12, 13, 14, 15, 16, 23, 25, 26, 31, 32, 33, 51}
      ensures GetAux(mem, AuxAt(info), kind) == None
    {
      OthersAbsent(info, base, random.Some?, mem, kind);
    }
  }
}
