/**
 The initial stack image of a process: the argument count, the argv and envp tables, the
 auxiliary vector, and the strings and program headers behind them.
 */
module StackImage {
  import opened Arith
  import opened Bytes
  import opened Options

  const U64 := 0x1_0000_0000_0000_0000
  const AUX_COUNT := 52
  const AUX_SIZE := 16
  const PHDR_SIZE := 56
  const PT_PHDR := 6
  const HWCAP_TLS := 0x8000

  const AT_NULL := 0
  const AT_PHDR := 3
  const AT_PHENT := 4
  const AT_PHNUM := 5
  const AT_PAGESZ := 6
  const AT_BASE := 7
  const AT_FLAGS := 8
  const AT_ENTRY := 9
  const AT_UID := 11
  const AT_EUID := 12
  const AT_GID := 13
  const AT_EGID := 14
  const AT_PLATFORM := 15
  const AT_HWCAP := 16
  const AT_SECURE := 23
  const AT_RANDOM := 25
  const AT_HWCAP2 := 26
  const AT_EXECFN := 31
  const AT_SYSINFO := 32
  const AT_SYSINFO_EHDR := 33
  const AT_MINSIGSTKSZ := 51

  type u64 = x: nat | x < 0x1_0000_0000_0000_0000

  /** The bytes of a C string, without its terminator. */
  type CStr = s: seq<byte> | 0 !in s

  type Phdr = s: seq<byte> | |s| == 56 witness seq(56, _ => 0)

  datatype Aux = Aux(kind: u64, value: u64)

  datatype Info = Info(argv: seq<CStr>, envv: seq<CStr>, phdrs: seq<Phdr>, platform: CStr,
                       execBase: u64, interpBase: u64, entry: u64, pageSize: u64, minStack: u64, vdso: u64)

  // ------------------------------------------------------------------ layout

  /** Bytes that strings take, each with its terminator. */
  function Lengths(strs: seq<CStr>): nat {
    if strs == [] then 0 else |strs[0]| + 1 + Lengths(strs[1..])
  }

  /** get_env_size's sum. */
  function EnvSize(info: Info): nat {
    8 + 8 * (|info.argv| + 1) + 8 * (|info.envv| + 1) + 52 * 16
    + 56 * |info.phdrs| + |info.platform| + 1 + Lengths(info.argv) + Lengths(info.envv) + 16
  }

  lemma {:induction false} LengthsAppend(strs: seq<CStr>, s: CStr)
    ensures Lengths(strs + [s]) == Lengths(strs) + |s| + 1
    decreases |strs|
  {
    if strs != [] {
      LengthsAppend(strs[1..], s);
      assert (strs + [s])[1..] == strs[1..] + [s];
    }
  }

  method TotalLength(strs: seq<CStr>) returns (n: nat)
    ensures n == Lengths(strs)
  {
    n := 0;
    for i := 0 to |strs|
      invariant n == Lengths(strs[..i])
    {
      LengthsAppend(strs[..i], strs[i]);
      assert strs[..i + 1] == strs[..i] + [strs[i]];
      n := n + |strs[i]| + 1;
    }
    assert strs[..|strs|] == strs;
  }

  /** get_env_size. */
  method GetEnvSize(info: Info) returns (total: nat)
    ensures total == EnvSize(info)
  {
    total := 8 * (|info.argv| + 1);
    total := total + 8 * (|info.envv| + 1);
    total := total + AUX_COUNT * AUX_SIZE;
    var n := TotalLength(info.argv);
    total := total + n;
    n := TotalLength(info.envv);
    total := total + n;
    total := total + |info.phdrs| * PHDR_SIZE;
    total := total + |info.platform| + 1;
    total := total + 8;
    total := total + 16;
  }

  function PhdrType(p: Phdr): nat {
    FromLe(p[0..4])
  }

  function PhdrVaddr(p: Phdr): (v: u64)
  {
    FromLeRoundTrip(p[16..24]);
    Widths();
    FromLe(p[16..24])
  }

  /** The address of the first PT_PHDR segment, or 0. */
  function PhdrAddr(phdrs: seq<Phdr>): u64 {
    if phdrs == [] then 0
    else if PhdrType(phdrs[0]) == PT_PHDR then PhdrVaddr(phdrs[0])
    else PhdrAddr(phdrs[1..])
  }

  /** get_phdr_addr. */
  method GetPhdrAddr(phdrs: seq<Phdr>) returns (addr: u64)
    ensures addr == PhdrAddr(phdrs)
  {
    hide PhdrType, PhdrVaddr;
    var i := 0;
    while i < |phdrs|
      invariant 0 <= i <= |phdrs| && PhdrAddr(phdrs) == PhdrAddr(phdrs[i..])
    {
      if PhdrType(phdrs[i]) == PT_PHDR {
        return PhdrVaddr(phdrs[i]);
      }
      assert phdrs[i..][1..] == phdrs[i + 1..];
      i := i + 1;
    }
    return 0;
  }

  function Joined(phdrs: seq<Phdr>): (s: seq<byte>)
    ensures |s| == PHDR_SIZE * |phdrs|
  {
    if phdrs == [] then [] else phdrs[0] + Joined(phdrs[1..])
  }

  /** Byte `j` of header `i`. */
  lemma {:induction false} JoinedAt(phdrs: seq<Phdr>, i: nat, j: nat)
    requires i < |phdrs| && j < 56
    ensures Joined(phdrs)[56 * i + j] == phdrs[i][j]
    decreases i
  {
    if i > 0 {
      JoinedAt(phdrs[1..], i - 1, j);
    }
  }

  /** A program header of type PT_PHDR, and the p_vaddr of a header, from their bytes. */
  predicate IsPhdr(p: Phdr) {
    p[0] == 6 && p[1] == 0 && p[2] == 0 && p[3] == 0
  }

  predicate FirstPhdr(phdrs: seq<Phdr>, k: nat) {
    k < |phdrs| && IsPhdr(phdrs[k]) && forall m :: 0 <= m < k ==> !IsPhdr(phdrs[m])
  }

  lemma PhdrFields(p: Phdr)
    ensures PhdrType(p) == PT_PHDR <==> IsPhdr(p)
    ensures PhdrVaddr(p) == EightAt(p, 16)
  {
    FourAtIs(p, 0);
    EightAtIs(p, 16);
  }

  /** The address is that of the first PT_PHDR header, and 0 if there is none. */
  lemma {:induction false} PhdrAddrIs(phdrs: seq<Phdr>)
    ensures forall k: nat :: FirstPhdr(phdrs, k) ==> PhdrAddr(phdrs) == EightAt(phdrs[k], 16)
    ensures (forall k: nat :: !FirstPhdr(phdrs, k)) ==> PhdrAddr(phdrs) == 0
    decreases |phdrs|
  {
    hide PhdrType, PhdrVaddr, IsPhdr;
    if phdrs != [] {
      PhdrFields(phdrs[0]);
      var rest := phdrs[1..];
      PhdrAddrIs(rest);
      if !IsPhdr(phdrs[0]) {
        forall k: nat | FirstPhdr(phdrs, k) ensures k > 0 && FirstPhdr(rest, k - 1) {
          assert k > 0;
        }
        forall k: nat | FirstPhdr(rest, k) ensures FirstPhdr(phdrs, k + 1) {
          forall m | 0 <= m < k + 1 ensures !IsPhdr(phdrs[m]) {
            assert m > 0 ==> phdrs[m] == rest[m - 1];
          }
        }
      } else {
        assert FirstPhdr(phdrs, 0);
      }
    }
  }

  // ------------------------------------------------------------------ reading an image

  /** What a program reads from the image: words, strings, tables and the auxiliary vector. */
  function ReadLong(mem: seq<byte>, off: nat): nat
    requires off + 8 <= |mem|
  {
    EightAt(mem, off)
  }

  /** getauxval: the value of the first entry of this kind, from `off` up to AT_NULL. */
  function GetAux(mem: seq<byte>, off: nat, kind: nat): Option<nat>
    decreases |mem| - off
  {
    if off + 16 > |mem| || ReadLong(mem, off) == 0 then None
    else if ReadLong(mem, off) == kind then Some(ReadLong(mem, off + 8))
    else GetAux(mem, off + 16, kind)
  }

  function ReadString(mem: seq<byte>, off: nat): seq<byte>
    decreases |mem| - off
  {
    if off >= |mem| || mem[off] == 0 then [] else [mem[off]] + ReadString(mem, off + 1)
  }

  /** The word at `slot` is the address of string `s`, for an image whose byte 0 is at address `base`. */
  predicate ReadsString(mem: seq<byte>, base: nat, slot: nat, s: seq<byte>) {
    && slot + 8 <= |mem|
    && base < ReadLong(mem, slot) < base + |mem| && ReadString(mem, ReadLong(mem, slot) - base) == s
  }

  /** A NULL-terminated table of `strs` at `off`. */
  predicate ReadsTable(mem: seq<byte>, base: nat, off: nat, strs: seq<CStr>) {
    && off + 8 * |strs| + 8 <= |mem|
    && (forall i :: 0 <= i < |strs| ==> ReadsString(mem, base, off + 8 * i, strs[i]))
    && ReadLong(mem, off + 8 * |strs|) == 0
  }

  predicate ReadsAux(mem: seq<byte>, off: nat, auxv: seq<Aux>) {
    && off + AUX_SIZE * |auxv| <= |mem|
    && forall i :: 0 <= i < |auxv| ==>
         ReadLong(mem, off + AUX_SIZE * i) == auxv[i].kind && ReadLong(mem, off + AUX_SIZE * i + 8) == auxv[i].value
  }

  // ------------------------------------------------------------------ the bytes of the parts

  /** Strings one after the other, and the table of their addresses when the first is at `at`. */
  function Strings(strs: seq<CStr>): (s: seq<byte>)
    ensures |s| == Lengths(strs)
  {
    if strs == [] then [] else strs[0] + [0] + Strings(strs[1..])
  }

  function Pointers(strs: seq<CStr>, at: nat): (s: seq<byte>)
    ensures |s| == 8 * |strs|
  {
    if strs == [] then [] else Le(at, 8) + Pointers(strs[1..], at + |strs[0]| + 1)
  }

  function AuxBytes(auxv: seq<Aux>): (s: seq<byte>)
    ensures |s| == AUX_SIZE * |auxv|
  {
    if auxv == [] then [] else Le(auxv[0].kind, 8) + Le(auxv[0].value, 8) + AuxBytes(auxv[1..])
  }

  lemma {:induction false} StringsAppend(strs: seq<CStr>, s: CStr, at: nat)
    ensures Strings(strs + [s]) == Strings(strs) + s + [0]
    ensures Pointers(strs + [s], at) == Pointers(strs, at) + Le(at + Lengths(strs), 8)
    decreases |strs|
  {
    hide Le;
    if strs == [] {
      assert strs + [s] == [s] && [s][1..] == [];
    } else {
      var at' := at + |strs[0]| + 1;
      StringsAppend(strs[1..], s, at');
      assert (strs + [s])[1..] == strs[1..] + [s];
      Regroup(strs[0] + [0], Strings(strs[1..]), s + [0]);
      Regroup(Le(at, 8), Pointers(strs[1..], at'), Le(at' + Lengths(strs[1..]), 8));
      Regroup(Strings(strs), s, [0]);
      Regroup(Strings(strs[1..]), s, [0]);
    }
  }

  lemma Regroup(a: seq<byte>, b: seq<byte>, c: seq<byte>)
    ensures a + b + c == a + (b + c)
  {
  }

  lemma {:induction false} AuxAppend(auxv: seq<Aux>, a: Aux)
    ensures AuxBytes(auxv + [a]) == AuxBytes(auxv) + Le(a.kind, 8) + Le(a.value, 8)
    decreases |auxv|
  {
    hide Le;
    if auxv == [] {
      assert auxv + [a] == [a] && [a][1..] == [];
    } else {
      AuxAppend(auxv[1..], a);
      assert (auxv + [a])[1..] == auxv[1..] + [a];
    }
  }

  // ------------------------------------------------------------------ the parts read back

  lemma LongReads(mem: seq<byte>, off: nat, x: u64)
    requires off + 8 <= |mem| && mem[off..off + 8] == Le(x, 8)
    ensures ReadLong(mem, off) == x
  {
    LeRoundTrip(x, 8);
    Widths();
    ModSmall(x, U64);
    EightAtIs(mem, off);
  }

  lemma {:induction false} StringReads(mem: seq<byte>, off: nat, s: CStr)
    requires off + |s| + 1 <= |mem| && mem[off..off + |s| + 1] == s + [0]
    ensures ReadString(mem, off) == s
    decreases |s|
  {
    assert forall i :: off <= i < off + |s| + 1 ==> mem[i] == (s + [0])[i - off];
    if s != [] {
      assert mem[off] == s[0] && s[0] in s;
      assert mem[off + 1..off + 1 + |s[1..]| + 1] == s[1..] + [0];
      StringReads(mem, off + 1, s[1..]);
    }
  }

  lemma PointedAt(mem: seq<byte>, s: CStr, table: nat, off: nat, base: nat)
    requires off + |s| + 1 <= |mem| && mem[off..off + |s| + 1] == s + [0] && base + |mem| <= U64 && 0 < off
    requires table + 8 <= |mem| && mem[table..table + 8] == Le(base + off, 8)
    ensures ReadsString(mem, base, table, s)
  {
    hide Le, ReadLong;
    StringReads(mem, off, s);
    LongReads(mem, table, base + off);
  }

  /** Where string `i` starts. */
  lemma {:induction false} StringAt(mem: seq<byte>, strs: seq<CStr>, table: nat, off: nat, base: nat, i: nat)
    requires i < |strs| && off + Lengths(strs) <= |mem| && table + 8 * |strs| <= |mem|
    requires mem[off..off + Lengths(strs)] == Strings(strs)
    requires mem[table..table + 8 * |strs|] == Pointers(strs, base + off) && base + |mem| <= U64 && 0 < off
    ensures ReadsString(mem, base, table + 8 * i, strs[i])
    decreases i
  {
    hide Le, ReadsString;
    var n := |strs[0]| + 1;
    if i == 0 {
      assert mem[off..off + n] == mem[off..off + Lengths(strs)][..n];
      assert mem[table..table + 8] == mem[table..table + 8 * |strs|][..8];
      PointedAt(mem, strs[0], table, off, base);
    } else {
      assert mem[off + n..off + n + Lengths(strs[1..])] == mem[off..off + Lengths(strs)][n..];
      assert mem[table + 8..table + 8 + 8 * |strs[1..]|] == mem[table..table + 8 * |strs|][8..];
      StringAt(mem, strs[1..], table + 8, off + n, base, i - 1);
    }
  }

  /** A written table reads back as the strings. */
  lemma TableReads(mem: seq<byte>, strs: seq<CStr>, table: nat, off: nat, base: nat)
    requires off + Lengths(strs) <= |mem| && table + 8 * |strs| + 8 <= |mem|
    requires mem[off..off + Lengths(strs)] == Strings(strs)
    requires mem[table..table + 8 * |strs| + 8] == Pointers(strs, base + off) + Le(0, 8)
    requires base + |mem| <= U64 && 0 < off
    ensures ReadsTable(mem, base, table, strs)
  {
    hide Le, Strings, Pointers, ReadString, ReadLong;
    var n := 8 * |strs|;
    var whole := mem[table..table + n + 8];
    SliceOf(mem, table, n + 8, 0, n);
    SliceOf(mem, table, n + 8, n, n + 8);
    assert whole[0..n] == Pointers(strs, base + off) && whole[n..n + 8] == Le(0, 8);
    assert table + n + 8 == table + (n + 8);
    LongReads(mem, table + n, 0);
    forall i | 0 <= i < |strs|
      ensures ReadsString(mem, base, table + 8 * i, strs[i])
    {
      StringAt(mem, strs, table, off, base, i);
    }
  }

  lemma SliceOf(mem: seq<byte>, off: nat, n: nat, lo: nat, hi: nat)
    requires off + n <= |mem| && lo <= hi <= n
    ensures mem[off..off + n][lo..hi] == mem[off + lo..off + hi]
  {
    var a, b := mem[off..off + n][lo..hi], mem[off + lo..off + hi];
    assert |a| == |b| && forall k :: 0 <= k < |a| ==> a[k] == b[k];
  }

  lemma {:induction false} AuxReads(mem: seq<byte>, off: nat, auxv: seq<Aux>)
    requires off + AUX_SIZE * |auxv| <= |mem| && mem[off..off + AUX_SIZE * |auxv|] == AuxBytes(auxv)
    ensures ReadsAux(mem, off, auxv)
    decreases |auxv|
  {
    hide Le, ReadLong;
    if auxv != [] {
      var whole := mem[off..off + AUX_SIZE * |auxv|];
      SliceOf(mem, off, AUX_SIZE * |auxv|, 0, 8);
      SliceOf(mem, off, AUX_SIZE * |auxv|, 8, 16);
      SliceOf(mem, off, AUX_SIZE * |auxv|, 16, AUX_SIZE * |auxv|);
      assert whole[0..8] == Le(auxv[0].kind, 8);
      assert whole[8..16] == Le(auxv[0].value, 8);
      assert whole[16..AUX_SIZE * |auxv|] == AuxBytes(auxv[1..]);
      LongReads(mem, off, auxv[0].kind);
      LongReads(mem, off + 8, auxv[0].value);
      AuxReads(mem, off + 16, auxv[1..]);
      forall i | 0 <= i < |auxv|
        ensures ReadLong(mem, off + AUX_SIZE * i) == auxv[i].kind && ReadLong(mem, off + AUX_SIZE * i + 8) == auxv[i].value
      {
        if i > 0 {
          assert off + AUX_SIZE * i == off + 16 + AUX_SIZE * (i - 1);
        }
      }
    }
  }

  // ------------------------------------------------------------------ looking up the auxiliary vector

  /** The scan finds entry `i` if it is the first of its kind and AT_NULL does not come before. */
  lemma {:induction false} AuxHit(mem: seq<byte>, off: nat, auxv: seq<Aux>, i: nat)
    requires ReadsAux(mem, off, auxv) && i < |auxv| && auxv[i].kind != 0
    requires forall j :: 0 <= j < i ==> auxv[j].kind != 0 && auxv[j].kind != auxv[i].kind
    ensures GetAux(mem, off, auxv[i].kind) == Some(auxv[i].value)
    decreases i
  {
    hide ReadLong;
    AuxTailReads(mem, off, auxv);
    if i > 0 {
      assert auxv[0].kind != auxv[i].kind;
      AuxHit(mem, off + 16, auxv[1..], i - 1);
    }
  }

  /** It finds nothing of a kind that does not occur. */
  lemma {:induction false} AuxMiss(mem: seq<byte>, off: nat, auxv: seq<Aux>, kind: nat)
    requires ReadsAux(mem, off, auxv) && auxv != [] && auxv[|auxv| - 1].kind == 0
    requires forall j :: 0 <= j < |auxv| ==> auxv[j].kind != kind
    ensures GetAux(mem, off, kind) == None
    decreases |auxv|
  {
    hide ReadLong;
    AuxTailReads(mem, off, auxv);
    if auxv[0].kind != 0 {
      AuxMiss(mem, off + 16, auxv[1..], kind);
    }
  }

  lemma AuxTailReads(mem: seq<byte>, off: nat, auxv: seq<Aux>)
    requires ReadsAux(mem, off, auxv) && auxv != []
    ensures off + 16 <= |mem| && ReadLong(mem, off) == auxv[0].kind && ReadLong(mem, off + 8) == auxv[0].value
    ensures ReadsAux(mem, off + 16, auxv[1..])
  {
    hide ReadLong;
    assert off == off + AUX_SIZE * 0;
    var rest := auxv[1..];
    forall i | 0 <= i < |rest|
      ensures ReadLong(mem, off + 16 + AUX_SIZE * i) == rest[i].kind
      ensures ReadLong(mem, off + 16 + AUX_SIZE * i + 8) == rest[i].value
    {
      assert rest[i] == auxv[i + 1] && off + 16 + AUX_SIZE * i == off + AUX_SIZE * (i + 1);
    }
  }
}
