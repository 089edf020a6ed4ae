/**
 Sorting the fault-recovery section at build time, and the kernel's binary search in it.
 */
module FaultRecovery {
  import opened Bytes
  import opened FaultTable
  import opened Options

  const U64 := 0x1_0000_0000_0000_0000

  // ------------------------------------------------------------------ build time

  /** load_entries' decoding; None is the error for a size that is no multiple of an entry. */
  method LoadEntries(little: bool, addr: nat, data: seq<byte>) returns (r: Option<seq<Entry>>)
    ensures r.Some? <==> |data| % ENTRY_SIZE == 0
    ensures r.Some? ==> r.value == Decode(little, addr, data)
  {
    hide Unpack, Absolute;
    if |data| % ENTRY_SIZE != 0 {
      return None;
    }
    var entries: seq<Entry> := [];
    var offset := 0;
    while offset < |data|
      invariant 0 <= offset <= |data| && offset == ENTRY_SIZE * |entries|
      invariant forall k :: 0 <= k < |entries| ==> entries[k] == Decode(little, addr, data)[k]
    {
      DecodeAt(little, addr, data, |entries|);
      var raw := Unpack(little, data[offset..offset + ENTRY_SIZE]);
      entries := entries + [Absolute(addr + offset, raw)];
      offset := offset + ENTRY_SIZE;
    }
    return Some(entries);
  }

  /** build_sorted_blob; None is the error for an offset that no longer fits in 32 bits. */
  method BuildSortedBlob(little: bool, addr: nat, entries: seq<Entry>) returns (r: Option<seq<byte>>)
    ensures r.Some? <==> AllEncodable(addr, Sorted(entries))
    ensures r.Some? ==> r.value == Encode(little, addr, Sorted(entries))
  {
    hide Sorted, Pack;
    var ordered := Sorted(entries);
    var blob: seq<byte> := [];
    var index := 0;
    while index < |ordered|
      invariant 0 <= index <= |ordered|
      invariant AllEncodable(addr, ordered[..index]) && blob == Encode(little, addr, ordered[..index])
    {
      var e := ordered[index];
      var at := addr + index * ENTRY_SIZE;
      if !Fits(e.fault - at) || !Fits(e.resume - (at + 4)) {
        assert !Encodable(addr + ENTRY_SIZE * index, ordered[index]);
        return None;
      }
      EncodeAppend(little, addr, ordered[..index], e);
      assert ordered[..index + 1] == ordered[..index] + [e];
      blob := blob + Pack(little, Raw(e.fault - at, e.resume - (at + 4), e.action, e.data));
      index := index + 1;
    }
    assert ordered[..index] == ordered;
    return Some(blob);
  }

  lemma {:induction false} EncodeAppend(little: bool, addr: nat, es: seq<Entry>, e: Entry)
    requires AllEncodable(addr, es) && Encodable(addr + |es| * ENTRY_SIZE, e)
    ensures AllEncodable(addr, es + [e])
    ensures Encode(little, addr, es + [e]) ==
            Encode(little, addr, es) + Pack(little, Relative(addr + |es| * ENTRY_SIZE, e))
    decreases |es|
  {
    hide Pack, Encodable;
    assert AllEncodable(addr, es + [e]) by {
      forall i | 0 <= i < |es + [e]|
        ensures Encodable(addr + ENTRY_SIZE * i, (es + [e])[i])
      {
      }
    }
    if es == [] {
      assert (es + [e])[1..] == [];
    } else {
      TailEncodable(addr, es);
      EncodeAppend(little, addr + ENTRY_SIZE, es[1..], e);
      assert (es + [e])[1..] == es[1..] + [e];
    }
  }

  /**
   The whole rewriting of a section. What it writes decodes, at the same address, to the
   same entries in ascending order of fault address, equal addresses in their old order;
   and so it is if the records are read from the bytes directly.
   */
  method SortSection(little: bool, addr: nat, data: seq<byte>) returns (r: Option<seq<byte>>)
    ensures r.Some? <==> |data| % ENTRY_SIZE == 0 && AllEncodable(addr, Sorted(Decode(little, addr, data)))
    ensures r.Some? ==> |r.value| == |data|
    ensures r.Some? ==> var was, now := Decode(little, addr, data), Decode(little, addr, r.value);
                        && now == Sorted(was) && Ascending(now) && multiset(now) == multiset(was)
                        && forall fault: int :: For(now, fault) == For(was, fault)
    ensures r.Some? ==> var was, now := RecordsIn(little, addr, data), RecordsIn(little, addr, r.value);
                        && Ascending(now) && multiset(now) == multiset(was)
                        && forall fault: int :: For(now, fault) == For(was, fault)
  {
    hide Decode, Sorted, Encode, AllEncodable, For, RecordsIn;
    var loaded := LoadEntries(little, addr, data);
    if loaded.None? {
      return None;
    }
    r := BuildSortedBlob(little, addr, loaded.value);
    if r.Some? {
      DecodeEncode(little, addr, Sorted(loaded.value));
      SortedOk(loaded.value);
      forall fault: int
        ensures For(Sorted(loaded.value), fault) == For(loaded.value, fault)
      {
        SortedStable(loaded.value, fault);
      }
      DecodeBytes(little, addr, data);
      DecodeBytes(little, addr, r.value);
    }
  }

  /** A section already in order is written back as it was; in particular a sorted one. */
  lemma SortedSectionStays(little: bool, addr: nat, data: seq<byte>)
    requires |data| % ENTRY_SIZE == 0 && Ascending(Decode(little, addr, data))
    ensures AllEncodable(addr, Sorted(Decode(little, addr, data)))
    ensures Encode(little, addr, Sorted(Decode(little, addr, data))) == data
  {
    hide Decode, Encode, Sorted, AllEncodable;
    SortedAlready(Decode(little, addr, data));
    EncodeDecode(little, addr, data);
  }

  lemma SortTwice(little: bool, addr: nat, es: seq<Entry>)
    requires AllEncodable(addr, Sorted(es))
    ensures var blob := Encode(little, addr, Sorted(es));
            var again := Decode(little, addr, blob);
            AllEncodable(addr, Sorted(again)) && Encode(little, addr, Sorted(again)) == blob
  {
    hide Decode, Encode, Sorted, AllEncodable;
    SortedOk(es);
    DecodeEncode(little, addr, Sorted(es));
    SortedSectionStays(little, addr, Encode(little, addr, Sorted(es)));
  }

  // ------------------------------------------------------------------ in the kernel

  /** The structs that the kernel sees in the section. */
  function Records(little: bool, blob: seq<byte>): (rs: seq<Raw>)
    requires |blob| % ENTRY_SIZE == 0
    ensures |rs| == |blob| / ENTRY_SIZE
  {
    seq(|blob| / ENTRY_SIZE, i requires 0 <= i < |blob| / ENTRY_SIZE =>
      Unpack(little, blob[ENTRY_SIZE * i..ENTRY_SIZE * i + ENTRY_SIZE]))
  }

  /** fault_recovery_record_fault_pc and fault_recovery_record_resume_pc of the record at `at`. */
  function FaultPc(at: nat, r: Raw): nat {
    (at + r.faultRel) % U64
  }

  function ResumePc(at: nat, r: Raw): nat {
    (at + 4 + r.resumeRel) % U64
  }

  /** The kernel's accessors and the build tool agree on every record. */
  lemma AccessorsAgree(little: bool, base: nat, blob: seq<byte>, i: nat)
    requires |blob| % ENTRY_SIZE == 0 && i < |blob| / ENTRY_SIZE
    ensures var r, e := Records(little, blob)[i], Decode(little, base, blob)[i];
            && FaultPc(base + 12 * i, r) == e.fault % 0x1_0000_0000_0000_0000
            && ResumePc(base + 12 * i, r) == e.resume % 0x1_0000_0000_0000_0000
            && r.action == e.action && r.data == e.data
  {
    hide Unpack, Decode;
    DecodeAt(little, base, blob, i);
  }

  predicate Searchable(base: nat, table: seq<Raw>) {
    forall i, j :: 0 <= i < j < |table| ==> FaultPc(base + ENTRY_SIZE * i, table[i]) <= FaultPc(base + ENTRY_SIZE * j, table[j])
  }

  /** find_fault_recovery_record: a binary search over the table at `base`. */
  method Find(base: nat, table: seq<Raw>, addr: nat) returns (r: Option<nat>)
    requires Searchable(base, table)
    ensures r.Some? ==> r.value < |table| && FaultPc(base + ENTRY_SIZE * r.value, table[r.value]) == addr
    ensures r.None? ==> forall i :: 0 <= i < |table| ==> FaultPc(base + ENTRY_SIZE * i, table[i]) != addr
  {
    hide FaultPc;
    var first, last := 0, |table|;
    while first < last
      invariant 0 <= first <= last <= |table|
      invariant forall i :: 0 <= i < first ==> FaultPc(base + ENTRY_SIZE * i, table[i]) < addr
      invariant forall i :: last <= i < |table| ==> FaultPc(base + ENTRY_SIZE * i, table[i]) > addr
    {
      var mid := first + (last - first) / 2;
      var midAddr := FaultPc(base + ENTRY_SIZE * mid, table[mid]);
      if midAddr < addr {
        first := mid + 1;
        continue;
      }
      if midAddr > addr {
        last := mid;
        continue;
      }
      return Some(mid);
    }
    return None;
  }

  predicate InSpace(es: seq<Entry>) {
    forall i :: 0 <= i < |es| ==> 0 <= es[i].fault < U64
  }

  /** A sorted section is searchable, as long as no fault address wraps. */
  lemma SortedSearchable(little: bool, base: nat, blob: seq<byte>)
    requires |blob| % ENTRY_SIZE == 0
    requires Ascending(Decode(little, base, blob)) && InSpace(Decode(little, base, blob))
    ensures Searchable(base, Records(little, blob))
  {
    hide Decode, FaultPc, Records;
    var es, rs := Decode(little, base, blob), Records(little, blob);
    forall i, j | 0 <= i < j < |rs|
      ensures FaultPc(base + ENTRY_SIZE * i, rs[i]) <= FaultPc(base + ENTRY_SIZE * j, rs[j])
    {
      FaultInSpace(little, base, blob, i);
      FaultInSpace(little, base, blob, j);
    }
  }

  lemma FaultInSpace(little: bool, base: nat, blob: seq<byte>, i: nat)
    requires |blob| % ENTRY_SIZE == 0 && i < |blob| / ENTRY_SIZE && InSpace(Decode(little, base, blob))
    ensures FaultPc(base + ENTRY_SIZE * i, Records(little, blob)[i]) == Decode(little, base, blob)[i].fault
  {
    hide Decode, FaultPc, Records;
    AccessorsAgree(little, base, blob, i);
    var e := Decode(little, base, blob)[i];
    assert 0 <= e.fault < U64;
  }

  /**
   From the linker's section to the kernel's answer: after sorting, a lookup finds a record
   of the original section for `addr`, and finds none exactly if the section has none.
   */
  method Lookup(little: bool, base: nat, data: seq<byte>, addr: nat) returns (r: Option<Entry>)
    requires |data| % ENTRY_SIZE == 0 && AllEncodable(base, Sorted(Decode(little, base, data)))
    requires InSpace(Decode(little, base, data))
    ensures r.Some? ==> r.value in RecordsIn(little, base, data) && r.value.fault == addr
    ensures r.None? ==> forall e :: e in RecordsIn(little, base, data) ==> e.fault != addr
  {
    hide RecordsIn, Decode, Sorted, AllEncodable, FaultPc, Ascending, Records, For;
    DecodeBytes(little, base, data);
    ghost var was := Decode(little, base, data);
    var sorted := SortSection(little, base, data);
    ghost var now := Decode(little, base, sorted.value);
    SameMembers(now, was);
    SortedSearchable(little, base, sorted.value);
    var table := Records(little, sorted.value);
    var k := Find(base, table, addr);
    if k.Some? {
      AccessorsAgree(little, base, sorted.value, k.value);
      DecodeAt(little, base, sorted.value, k.value);
      assert now[k.value] in now;
      r := Some(Absolute(base + ENTRY_SIZE * k.value,
                         Unpack(little, sorted.value[ENTRY_SIZE * k.value..ENTRY_SIZE * k.value + ENTRY_SIZE])));
    } else {
      r := None;
      forall e | e in now
        ensures e.fault != addr
      {
        var i :| 0 <= i < |now| && now[i] == e;
        AccessorsAgree(little, base, sorted.value, i);
      }
    }
  }

  lemma SameMembers(a: seq<Entry>, b: seq<Entry>)
    requires multiset(a) == multiset(b)
    ensures forall e :: e in a <==> e in b
    ensures InSpace(b) ==> InSpace(a)
  {
    forall e
      ensures e in a <==> e in b
    {
      assert e in a <==> e in multiset(a);
      assert e in b <==> e in multiset(b);
    }
    assert forall i :: 0 <= i < |a| ==> a[i] in a;
  }
}
