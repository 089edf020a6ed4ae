/**
 The fault-recovery table: its packed records, which hold addresses relative to
 themselves, in either byte order; and the order that sorting puts them in.
 */
module FaultTable {
  import opened Arith
  import opened Bytes

  const ENTRY_SIZE := 12
  const I32 := 0x8000_0000

  type int32 = x: int | -0x8000_0000 <= x < 0x8000_0000
  type u16 = x: nat | x < 0x1_0000

  /** The fields of a packed record, and the record that they mean at its address. */
  datatype Raw = Raw(faultRel: int32, resumeRel: int32, action: u16, data: u16)

  datatype Entry = Entry(fault: int, resume: int, action: u16, data: u16)

  // ------------------------------------------------------------------ fields

  function Reversed(s: seq<byte>): (r: seq<byte>)
    ensures |r| == |s|
  {
    seq(|s|, i requires 0 <= i < |s| => s[|s| - 1 - i])
  }

  function Field(little: bool, x: nat, n: nat): (s: seq<byte>)
    ensures |s| == n
  {
    if little then Le(x, n) else Reversed(Le(x, n))
  }

  function FromField(little: bool, s: seq<byte>): (x: nat)
    ensures x < Pow256(|s|)
  {
    var t := if little then s else Reversed(s);
    FromLeRoundTrip(t);
    FromLe(t)
  }

  lemma FieldRoundTrip(little: bool, x: nat, n: nat)
    requires x < Pow256(n)
    ensures FromField(little, Field(little, x, n)) == x
  {
    assert Reversed(Reversed(Le(x, n))) == Le(x, n);
    LeRoundTrip(x, n);
    DivUnique(x, Pow256(n), 0);
  }

  lemma FromFieldRoundTrip(little: bool, s: seq<byte>)
    ensures Field(little, FromField(little, s), |s|) == s
  {
    var t := if little then s else Reversed(s);
    FromLeRoundTrip(t);
    assert Reversed(Reversed(s)) == s;
  }

  /** Two's complement. */
  function ToSigned(x: nat): int32
    requires x < 2 * I32
  {
    if x < I32 then x else x - 2 * I32
  }

  function FromSigned(x: int32): (r: nat)
    ensures r < 2 * I32 && ToSigned(r) == x
  {
    if x >= 0 then x else x + 2 * I32
  }

  // ------------------------------------------------------------------ records

  /** struct.pack with the format "iiHH". */
  function Pack(little: bool, r: Raw): (s: seq<byte>)
    ensures |s| == ENTRY_SIZE
  {
    Field(little, FromSigned(r.faultRel), 4) + Field(little, FromSigned(r.resumeRel), 4)
    + Field(little, r.action, 2) + Field(little, r.data, 2)
  }

  function Unpack(little: bool, s: seq<byte>): Raw
    requires |s| == ENTRY_SIZE
  {
    Widths();
    Raw(ToSigned(FromField(little, s[..4])), ToSigned(FromField(little, s[4..8])),
        FromField(little, s[8..10]), FromField(little, s[10..12]))
  }

  lemma PackRoundTrip(little: bool, r: Raw)
    ensures Unpack(little, Pack(little, r)) == r
  {
    hide Field, FromField, ToSigned, FromSigned;
    Widths();
    var s := Pack(little, r);
    assert s[..4] == Field(little, FromSigned(r.faultRel), 4);
    assert s[4..8] == Field(little, FromSigned(r.resumeRel), 4);
    assert s[8..10] == Field(little, r.action, 2);
    assert s[10..12] == Field(little, r.data, 2);
    FieldRoundTrip(little, FromSigned(r.faultRel), 4);
    FieldRoundTrip(little, FromSigned(r.resumeRel), 4);
    FieldRoundTrip(little, r.action, 2);
    FieldRoundTrip(little, r.data, 2);
  }

  lemma UnpackRoundTrip(little: bool, s: seq<byte>)
    requires |s| == ENTRY_SIZE
    ensures Pack(little, Unpack(little, s)) == s
  {
    hide Field, FromField;
    Widths();
    FromFieldRoundTrip(little, s[..4]);
    FromFieldRoundTrip(little, s[4..8]);
    FromFieldRoundTrip(little, s[8..10]);
    FromFieldRoundTrip(little, s[10..12]);
    assert s == s[..4] + s[4..8] + s[8..10] + s[10..12];
  }

  /** A record at address `at`: each relative field counts from the field itself. */
  function Absolute(at: nat, r: Raw): Entry {
    Entry(at + r.faultRel, at + 4 + r.resumeRel, r.action, r.data)
  }

  predicate Fits(x: int) {
    -I32 <= x < I32
  }

  predicate Encodable(at: nat, e: Entry) {
    Fits(e.fault - at) && Fits(e.resume - (at + 4))
  }

  function Relative(at: nat, e: Entry): (r: Raw)
    requires Encodable(at, e)
    ensures Absolute(at, r) == e
  {
    Raw(e.fault - at, e.resume - (at + 4), e.action, e.data)
  }

  // ------------------------------------------------------------------ tables

  /** The records of a section at `addr`, as absolute entries. */
  function Decode(little: bool, addr: nat, blob: seq<byte>): (es: seq<Entry>)
    requires |blob| % ENTRY_SIZE == 0
    ensures |es| == |blob| / ENTRY_SIZE
    decreases |blob|
  {
    if blob == [] then []
    else [Absolute(addr, Unpack(little, blob[..ENTRY_SIZE]))] + Decode(little, addr + ENTRY_SIZE, blob[ENTRY_SIZE..])
  }

  predicate AllEncodable(addr: nat, es: seq<Entry>) {
    forall i :: 0 <= i < |es| ==> Encodable(addr + ENTRY_SIZE * i, es[i])
  }

  /** In numbers: both relative fields of every record lie in 32 bits. */
  lemma EncodableIs(addr: nat, es: seq<Entry>)
    ensures AllEncodable(addr, es) <==>
            forall i :: 0 <= i < |es| ==>
              && -0x8000_0000 <= es[i].fault - (addr + 12 * i) <= 0x7FFF_FFFF
              && -0x8000_0000 <= es[i].resume - (addr + 12 * i + 4) <= 0x7FFF_FFFF
  {
    if AllEncodable(addr, es) {
      forall i | 0 <= i < |es|
        ensures -0x8000_0000 <= es[i].fault - (addr + 12 * i) <= 0x7FFF_FFFF
        ensures -0x8000_0000 <= es[i].resume - (addr + 12 * i + 4) <= 0x7FFF_FFFF
      {
        assert Encodable(addr + ENTRY_SIZE * i, es[i]);
      }
    }
  }

  function Encode(little: bool, addr: nat, es: seq<Entry>): (blob: seq<byte>)
    requires AllEncodable(addr, es)
    ensures |blob| == ENTRY_SIZE * |es|
    decreases |es|
  {
    if es == [] then []
    else
      TailEncodable(addr, es);
      Pack(little, Relative(addr, es[0])) + Encode(little, addr + ENTRY_SIZE, es[1..])
  }

  lemma TailEncodable(addr: nat, es: seq<Entry>)
    requires es != [] && AllEncodable(addr, es)
    ensures Encodable(addr, es[0]) && AllEncodable(addr + ENTRY_SIZE, es[1..])
  {
    assert Encodable(addr + ENTRY_SIZE * 0, es[0]);
    forall i | 0 <= i < |es[1..]|
      ensures Encodable(addr + ENTRY_SIZE + ENTRY_SIZE * i, es[1..][i])
    {
      assert Encodable(addr + ENTRY_SIZE * (i + 1), es[i + 1]);
    }
  }

  lemma {:induction false} DecodeEncode(little: bool, addr: nat, es: seq<Entry>)
    requires AllEncodable(addr, es)
    ensures Decode(little, addr, Encode(little, addr, es)) == es
    decreases |es|
  {
    hide Pack, Unpack, AllEncodable;
    if es != [] {
      TailEncodable(addr, es);
      var blob := Encode(little, addr, es);
      assert blob[..ENTRY_SIZE] == Pack(little, Relative(addr, es[0]));
      assert blob[ENTRY_SIZE..] == Encode(little, addr + ENTRY_SIZE, es[1..]);
      PackRoundTrip(little, Relative(addr, es[0]));
      DecodeEncode(little, addr + ENTRY_SIZE, es[1..]);
    }
  }

  /** What came from a section can go back to it. */
  lemma {:induction false} EncodeDecode(little: bool, addr: nat, blob: seq<byte>)
    requires |blob| % ENTRY_SIZE == 0
    ensures AllEncodable(addr, Decode(little, addr, blob))
    ensures Encode(little, addr, Decode(little, addr, blob)) == blob
    decreases |blob|
  {
    hide Pack, Unpack;
    if blob != [] {
      var es := Decode(little, addr, blob);
      var raw := Unpack(little, blob[..ENTRY_SIZE]);
      var rest := Decode(little, addr + ENTRY_SIZE, blob[ENTRY_SIZE..]);
      EncodeDecode(little, addr + ENTRY_SIZE, blob[ENTRY_SIZE..]);
      UnpackRoundTrip(little, blob[..ENTRY_SIZE]);
      assert es[1..] == rest;
      forall i | 0 <= i < |es|
        ensures Encodable(addr + ENTRY_SIZE * i, es[i])
      {
        if i > 0 {
          assert Encodable(addr + ENTRY_SIZE + ENTRY_SIZE * (i - 1), rest[i - 1]);
        }
      }
      assert Relative(addr, es[0]) == raw;
      assert blob == blob[..ENTRY_SIZE] + blob[ENTRY_SIZE..];
    }
  }

  lemma {:induction false} DecodeAt(little: bool, addr: nat, blob: seq<byte>, i: nat)
    requires |blob| % ENTRY_SIZE == 0 && i < |blob| / ENTRY_SIZE
    ensures ENTRY_SIZE * i + ENTRY_SIZE <= |blob|
    ensures Decode(little, addr, blob)[i] ==
            Absolute(addr + ENTRY_SIZE * i, Unpack(little, blob[ENTRY_SIZE * i..ENTRY_SIZE * i + ENTRY_SIZE]))
    decreases i
  {
    hide Unpack, Absolute;
    if i > 0 {
      var rest := blob[ENTRY_SIZE..];
      DecodeAt(little, addr + ENTRY_SIZE, rest, i - 1);
      assert rest[ENTRY_SIZE * (i - 1)..ENTRY_SIZE * (i - 1) + ENTRY_SIZE] == blob[ENTRY_SIZE * i..ENTRY_SIZE * i + ENTRY_SIZE];
    }
  }

  // ------------------------------------------------------------------ the records from their bytes

  /** The number at `at`, each byte with its weight. */
  function TwoBytes(little: bool, blob: seq<byte>, at: nat): nat
    requires at + 2 <= |blob|
  {
    var a: int, b: int := blob[at], blob[at + 1];
    if little then a + 0x100 * b else 0x100 * a + b
  }

  function FourBytes(little: bool, blob: seq<byte>, at: nat): nat
    requires at + 4 <= |blob|
  {
    var a: int, b: int, c: int, d: int := blob[at], blob[at + 1], blob[at + 2], blob[at + 3];
    if little then FourAt(blob, at) else 0x100_0000 * a + 0x1_0000 * b + 0x100 * c + d
  }

  function SignedFour(little: bool, blob: seq<byte>, at: nat): int
    requires at + 4 <= |blob|
  {
    var x := FourBytes(little, blob, at);
    if x < 0x8000_0000 then x else x - 0x1_0000_0000
  }

  /** Record `i` of a section at `addr`, read from its twelve bytes. */
  function RecordAt(little: bool, addr: nat, blob: seq<byte>, i: nat): Entry
    requires 12 * i + 12 <= |blob|
  {
    Entry(addr + 12 * i + SignedFour(little, blob, 12 * i), addr + 12 * i + 4 + SignedFour(little, blob, 12 * i + 4),
          TwoBytes(little, blob, 12 * i + 8), TwoBytes(little, blob, 12 * i + 10))
  }

  function RecordsIn(little: bool, addr: nat, blob: seq<byte>): seq<Entry> {
    seq(|blob| / 12, i requires 0 <= i < |blob| / 12 => RecordAt(little, addr, blob, i))
  }

  lemma FieldOfTwo(little: bool, s: seq<byte>)
    requires |s| == 2
    ensures FromField(little, s) == TwoBytes(little, s, 0)
  {
    var t := if little then s else Reversed(s);
    assert FromLe(t[1..]) == t[1] + 256 * FromLe(t[1..][1..]);
    assert t[1..][1..] == [];
  }

  lemma FieldOfFour(little: bool, s: seq<byte>)
    requires |s| == 4
    ensures FromField(little, s) == FourBytes(little, s, 0)
  {
    var t := if little then s else Reversed(s);
    FourAtIs(t, 0);
    assert t[0..4] == t;
  }

  /** struct.unpack, field by field and byte by byte. */
  lemma UnpackBytes(little: bool, s: seq<byte>)
    requires |s| == 12
    ensures var r := Unpack(little, s);
            && r.faultRel == SignedFour(little, s, 0) && r.resumeRel == SignedFour(little, s, 4)
            && r.action == TwoBytes(little, s, 8) && r.data == TwoBytes(little, s, 10)
  {
    hide FromField;
    Widths();
    FieldOfFour(little, s[..4]);
    FieldOfFour(little, s[4..8]);
    FieldOfTwo(little, s[8..10]);
    FieldOfTwo(little, s[10..12]);
  }

  /** Decoding a section reads each record from its bytes. */
  lemma DecodeBytes(little: bool, addr: nat, blob: seq<byte>)
    requires |blob| % 12 == 0
    ensures Decode(little, addr, blob) == RecordsIn(little, addr, blob)
  {
    hide Decode, Unpack;
    forall i | 0 <= i < |blob| / 12
      ensures Decode(little, addr, blob)[i] == RecordAt(little, addr, blob, i)
    {
      DecodeAt(little, addr, blob, i);
      UnpackBytes(little, blob[12 * i..12 * i + 12]);
    }
  }

  // ------------------------------------------------------------------ order

  predicate Ascending(es: seq<Entry>) {
    forall i, j :: 0 <= i < j < |es| ==> es[i].fault <= es[j].fault
  }

  /** `e` placed before the entries with a greater or equal fault address. */
  function Inserted(e: Entry, es: seq<Entry>): (r: seq<Entry>)
    ensures |r| == |es| + 1
  {
    if es == [] || e.fault <= es[0].fault then [e] + es else [es[0]] + Inserted(e, es[1..])
  }

  /** The stable sort by fault address. */
  function Sorted(es: seq<Entry>): (r: seq<Entry>)
    ensures |r| == |es|
  {
    if es == [] then [] else Inserted(es[0], Sorted(es[1..]))
  }

  /** The entries for one fault address, in their order. */
  function For(es: seq<Entry>, fault: int): seq<Entry> {
    if es == [] then [] else (if es[0].fault == fault then [es[0]] else []) + For(es[1..], fault)
  }

  lemma {:induction false} InsertedKeeps(e: Entry, es: seq<Entry>)
    ensures multiset(Inserted(e, es)) == multiset{e} + multiset(es)
    decreases |es|
  {
    if es != [] && e.fault > es[0].fault {
      InsertedKeeps(e, es[1..]);
      assert es == [es[0]] + es[1..];
    }
  }

  predicate From(es: seq<Entry>, fault: int) {
    forall i :: 0 <= i < |es| ==> fault <= es[i].fault
  }

  lemma {:induction false} InsertedFrom(e: Entry, es: seq<Entry>, fault: int)
    requires fault <= e.fault && From(es, fault)
    ensures From(Inserted(e, es), fault)
    decreases |es|
  {
    if es != [] && e.fault > es[0].fault {
      InsertedFrom(e, es[1..], fault);
    }
  }

  lemma {:induction false} InsertedAscending(e: Entry, es: seq<Entry>)
    requires Ascending(es)
    ensures Ascending(Inserted(e, es))
    decreases |es|
  {
    if es != [] && e.fault > es[0].fault {
      InsertedAscending(e, es[1..]);
      InsertedFrom(e, es[1..], es[0].fault);
    }
  }

  /** Sorting orders the entries and loses none. */
  lemma {:induction false} SortedOk(es: seq<Entry>)
    ensures Ascending(Sorted(es)) && multiset(Sorted(es)) == multiset(es)
    decreases |es|
  {
    if es != [] {
      SortedOk(es[1..]);
      InsertedAscending(es[0], Sorted(es[1..]));
      InsertedKeeps(es[0], Sorted(es[1..]));
      assert es == [es[0]] + es[1..];
    }
  }

  lemma {:induction false} InsertedFor(e: Entry, es: seq<Entry>, fault: int)
    requires Ascending(es)
    ensures For(Inserted(e, es), fault) == For([e] + es, fault)
    decreases |es|
  {
    assert ([e] + es)[1..] == es;
    if es != [] && e.fault > es[0].fault {
      InsertedFor(e, es[1..], fault);
      var rest := Inserted(e, es[1..]);
      assert ([es[0]] + rest)[1..] == rest && ([e] + es[1..])[1..] == es[1..];
    }
  }

  /** Sorting keeps the order of entries for the same address. */
  lemma {:induction false} SortedStable(es: seq<Entry>, fault: int)
    ensures For(Sorted(es), fault) == For(es, fault)
    decreases |es|
  {
    if es != [] {
      SortedOk(es[1..]);
      SortedStable(es[1..], fault);
      InsertedFor(es[0], Sorted(es[1..]), fault);
      assert ([es[0]] + Sorted(es[1..]))[1..] == Sorted(es[1..]);
    }
  }

  lemma {:induction false} SortedAlready(es: seq<Entry>)
    requires Ascending(es)
    ensures Sorted(es) == es
    decreases |es|
  {
    if es != [] {
      SortedAlready(es[1..]);
      assert es == [es[0]] + es[1..];
    }
  }
}
