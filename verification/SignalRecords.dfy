/**
 The chain of context records in `__reserved[]`: the parser that rt_sigreturn runs over
 it, the language it accepts, and the FPSIMD record that the kernel writes.
 */
module SignalRecords {
  import opened Arith
  import opened Bytes

  const FPSIMD_MAGIC := 0x46508001
  const ESR_MAGIC := 0x45535201
  const HEAD_SIZE := 8             // struct _aarch64_ctx: magic and size
  const FPSIMD_SIZE := 528         // head, fpsr, fpcr and 32 vector registers

  type u64 = x: nat | x < 0x1_0000_0000_0000_0000
  type u128 = x: nat | x < 0x1_0000_0000_0000_0000_0000_0000_0000_0000

  /** The 32-bit field at `off`. */
  function Word(area: seq<byte>, off: nat): (w: nat)
    requires off + 4 <= |area|
    ensures w < 0x1_0000_0000
  {
    FromLeRoundTrip(area[off..off + 4]);
    Widths();
    FromLe(area[off..off + 4])
  }

  /** Its bytes have the weights of a little-endian number. */
  lemma WordBytes(area: seq<byte>, off: nat)
    requires off + 4 <= |area|
    ensures Word(area, off) == FourAt(area, off)
  {
    FourAtIs(area, off);
  }

  /** Where the parser found the FPSIMD record. */
  datatype Fpsimd = Absent | At(off: nat, size: nat)

  datatype Parsed = Bad | Good(fpsimd: Fpsimd)

  /** parse_signal_frame_records from `offset` on. */
  function Parse(area: seq<byte>, offset: nat, found: Fpsimd): Parsed
    requires offset <= |area|
    decreases |area| - offset
  {
    if |area| - offset < HEAD_SIZE || offset % 16 != 0 then Bad
    else
      var magic := Word(area, offset);
      var size := Word(area, offset + 4);
      if |area| - offset < size then Bad
      else if magic == 0 && size == 0 then Good(found)
      else if size < HEAD_SIZE then Bad
      else if magic == FPSIMD_MAGIC then
        if found.At? then Bad else Parse(area, offset + size, At(offset, size))
      else if magic == ESR_MAGIC then Parse(area, offset + size, found)
      else Bad
  }

  /** The loop of parse_signal_frame_records. */
  method ParseRecords(area: seq<byte>, baseAligned: bool) returns (r: Parsed)
    ensures r == if baseAligned then Parse(area, 0, Absent) else Bad
  {
    if !baseAligned {
      return Bad;
    }
    var offset := 0;
    var found := Absent;
    while true
      invariant offset <= |area|
      invariant Parse(area, 0, Absent) == Parse(area, offset, found)
      decreases |area| - offset
    {
      var remain := |area| - offset;
      if remain < HEAD_SIZE {
        return Bad;
      }
      if offset % 16 != 0 {
        return Bad;
      }
      var magic := Word(area, offset);
      var size := Word(area, offset + 4);
      if remain < size {
        return Bad;
      }
      if magic == 0 && size == 0 {
        return Good(found);
      }
      if size < HEAD_SIZE {
        return Bad;
      }
      if magic == FPSIMD_MAGIC {
        if found.At? {
          return Bad;
        }
        found := At(offset, size);
      } else if magic != ESR_MAGIC {
        return Bad;
      }
      offset := offset + size;
    }
  }

  // ------------------------------------------------------------------ the language of record chains

  datatype Rec = Rec(magic: nat, payload: seq<byte>)

  function RecSize(r: Rec): nat {
    8 + |r.payload|
  }

  function Encode(r: Rec): seq<byte> {
    Le(r.magic, 4) + Le(RecSize(r), 4) + r.payload
  }

  function EncodeAll(recs: seq<Rec>): seq<byte> {
    if recs == [] then [] else Encode(recs[0]) + EncodeAll(recs[1..])
  }

  const TERMINATOR: seq<byte> := Le(0, 4) + Le(0, 4)

  /** A record the kernel understands, padded to 16 bytes. */
  predicate RecOk(r: Rec) {
    (r.magic == 0x46508001 || r.magic == 0x45535201) && RecSize(r) % 16 == 0 && RecSize(r) < 0x1_0000_0000
  }

  /** Known, padded records, and no FPSIMD record if one was `seen` already or comes twice. */
  predicate ChainOk(recs: seq<Rec>, seen: bool) {
    recs == [] ||
    (RecOk(recs[0]) && !(seen && recs[0].magic == FPSIMD_MAGIC) &&
     ChainOk(recs[1..], seen || recs[0].magic == FPSIMD_MAGIC))
  }

  /** Where the FPSIMD record of a chain that starts at `offset` lies. */
  function Locate(recs: seq<Rec>, offset: nat, found: Fpsimd): Fpsimd {
    if recs == [] then found
    else Locate(recs[1..], offset + RecSize(recs[0]),
                if recs[0].magic == FPSIMD_MAGIC then At(offset, RecSize(recs[0])) else found)
  }

  lemma FieldsOf(pre: seq<byte>, r: Rec, post: seq<byte>)
    requires r.magic < 0x1_0000_0000 && RecSize(r) < 0x1_0000_0000
    ensures var area, n := pre + Encode(r) + post, |pre|;
            && n + 8 <= |area|
            && Word(area, n) == r.magic && Word(area, n + 4) == RecSize(r)
  {
    var area, n := pre + Encode(r) + post, |pre|;
    assert area[n..n + 4] == Le(r.magic, 4);
    assert area[n + 4..n + 8] == Le(RecSize(r), 4);
    LeRoundTrip(r.magic, 4);
    LeRoundTrip(RecSize(r), 4);
    Widths();
    ModSmall(r.magic, 0x1_0000_0000);
    ModSmall(RecSize(r), 0x1_0000_0000);
  }

  lemma TerminatorFields(pre: seq<byte>, post: seq<byte>)
    ensures var area, n := pre + TERMINATOR + post, |pre|;
            && n + 8 <= |area| && Word(area, n) == 0 && Word(area, n + 4) == 0
  {
    var area, n := pre + TERMINATOR + post, |pre|;
    assert area[n..n + 4] == Le(0, 4);
    assert area[n + 4..n + 8] == Le(0, 4);
    LeRoundTrip(0, 4);
  }

  /** Every well-formed chain is accepted, and its FPSIMD record is found. */
  lemma {:induction false} ParseAccepts(pre: seq<byte>, recs: seq<Rec>, tail: seq<byte>, found: Fpsimd)
    requires |pre| % 16 == 0 && ChainOk(recs, found.At?)
    ensures Parse(pre + EncodeAll(recs) + TERMINATOR + tail, |pre|, found) == Good(Locate(recs, |pre|, found))
    decreases |recs|
  {
    hide Le, Word;
    var area := pre + EncodeAll(recs) + TERMINATOR + tail;
    if recs == [] {
      assert area == pre + TERMINATOR + tail;
      TerminatorFields(pre, tail);
    } else {
      var r := recs[0];
      var post := EncodeAll(recs[1..]) + TERMINATOR + tail;
      assert area == pre + Encode(r) + post;
      FieldsOf(pre, r, post);
      var pre' := pre + Encode(r);
      assert pre' + EncodeAll(recs[1..]) + TERMINATOR + tail == area;
      ParseAccepts(pre', recs[1..], tail, if r.magic == FPSIMD_MAGIC then At(|pre|, RecSize(r)) else found);
    }
  }

  /** Any bytes are the encoding of their own fields. */
  lemma RecordAt(area: seq<byte>, offset: nat)
    requires offset + 8 <= |area|
    requires var size := Word(area, offset + 4); 8 <= size && offset + size <= |area|
    ensures var size := Word(area, offset + 4);
            area[offset..] == Encode(Rec(Word(area, offset), area[offset + 8..offset + size])) + area[offset + size..]
  {
    hide Le, FromLe;
    FromLeRoundTrip(area[offset..offset + 4]);
    FromLeRoundTrip(area[offset + 4..offset + 8]);
    var size := Word(area, offset + 4);
    assert area[offset..] == area[offset..offset + 4] + area[offset + 4..offset + 8]
                             + area[offset + 8..offset + size] + area[offset + size..];
  }

  lemma TerminatorAt(area: seq<byte>, offset: nat)
    requires offset + 8 <= |area| && Word(area, offset) == 0 && Word(area, offset + 4) == 0
    ensures area[offset..] == TERMINATOR + area[offset + 8..]
  {
    hide Le, FromLe;
    FromLeRoundTrip(area[offset..offset + 4]);
    FromLeRoundTrip(area[offset + 4..offset + 8]);
    assert area[offset..] == area[offset..offset + 4] + area[offset + 4..offset + 8] + area[offset + 8..];
  }

  /** What an accepted area starts with. */
  lemma AcceptedHead(area: seq<byte>, offset: nat, found: Fpsimd)
    requires offset <= |area| && Parse(area, offset, found).Good?
    ensures offset + 8 <= |area| && offset % 16 == 0
    ensures var magic, size := Word(area, offset), Word(area, offset + 4);
            if magic == 0 && size == 0 then Parse(area, offset, found) == Good(found)
            else
              && (magic == FPSIMD_MAGIC || magic == ESR_MAGIC) && !(found.At? && magic == FPSIMD_MAGIC)
              && 8 <= size && offset + size <= |area|
              && Parse(area, offset, found) ==
                 Parse(area, offset + size, if magic == FPSIMD_MAGIC then At(offset, size) else found)
  {
    hide Word;
  }

  /** A record in front of a chain. */
  lemma ChainCons(r: Rec, rest: seq<Rec>, offset: nat, found: Fpsimd)
    ensures var found' := if r.magic == FPSIMD_MAGIC then At(offset, RecSize(r)) else found;
            && EncodeAll([r] + rest) == Encode(r) + EncodeAll(rest)
            && Locate([r] + rest, offset, found) == Locate(rest, offset + RecSize(r), found')
            && (RecOk(r) && !(found.At? && r.magic == FPSIMD_MAGIC) && ChainOk(rest, found'.At?)
                ==> ChainOk([r] + rest, found.At?))
  {
    hide Encode;
    assert ([r] + rest)[1..] == rest;
  }

  lemma Regroup(a: seq<byte>, b: seq<byte>, c: seq<byte>, d: seq<byte>)
    ensures a + b + c + d == a + (b + c + d)
  {
  }

  /** Nothing else is: an accepted area is a well-formed chain, a terminator and anything after it. */
  lemma {:induction false} ParseOnly(area: seq<byte>, offset: nat, found: Fpsimd) returns (recs: seq<Rec>, tail: seq<byte>)
    requires offset <= |area| && Parse(area, offset, found).Good?
    ensures ChainOk(recs, found.At?) && area[offset..] == EncodeAll(recs) + TERMINATOR + tail
    ensures Parse(area, offset, found) == Good(Locate(recs, offset, found))
    decreases |area| - offset
  {
    hide Encode, Word, Parse, Le;
    AcceptedHead(area, offset, found);
    var magic := Word(area, offset);
    var size := Word(area, offset + 4);
    if magic == 0 && size == 0 {
      TerminatorAt(area, offset);
      recs, tail := [], area[offset + 8..];
      assert EncodeAll([]) + TERMINATOR + tail == TERMINATOR + tail;
    } else {
      hide EncodeAll, ChainOk, Locate;
      RecordAt(area, offset);
      var r := Rec(magic, area[offset + 8..offset + size]);
      var found' := if magic == FPSIMD_MAGIC then At(offset, size) else found;
      var rest;
      rest, tail := ParseOnly(area, offset + size, found');
      AcceptedHead(area, offset + size, found');
      recs := [r] + rest;
      ChainCons(r, rest, offset, found);
      Regroup(Encode(r), EncodeAll(rest), TERMINATOR, tail);
    }
  }

  // ------------------------------------------------------------------ the FPSIMD record

  function VregBytes(vregs: seq<u128>): (s: seq<byte>)
    ensures |s| == 16 * |vregs|
  {
    if vregs == [] then [] else Le(vregs[0], 16) + VregBytes(vregs[1..])
  }

  function VregsFrom(s: seq<byte>): (vregs: seq<u128>)
    requires |s| % 16 == 0
    ensures |vregs| == |s| / 16
  {
    if s == [] then []
    else
      FromLeRoundTrip(s[..16]);
      Widths();
      [FromLe(s[..16])] + VregsFrom(s[16..])
  }

  lemma {:induction false} VregsRoundTrip(vregs: seq<u128>)
    ensures VregsFrom(VregBytes(vregs)) == vregs
    decreases |vregs|
  {
    if vregs != [] {
      var s := VregBytes(vregs);
      assert s[..16] == Le(vregs[0], 16) && s[16..] == VregBytes(vregs[1..]);
      LeRoundTrip(vregs[0], 16);
      Widths();
      ModSmall(vregs[0], 0x1_0000_0000_0000_0000_0000_0000_0000_0000);
      VregsRoundTrip(vregs[1..]);
    }
  }

  /** The record that save_fpsimd_context_to_sigframe leaves behind: fpsr and fpcr are 32-bit fields there. */
  function FpsimdRec(fpsr: nat, fpcr: nat, vregs: seq<u128>): Rec {
    Rec(FPSIMD_MAGIC, Le(fpsr, 4) + Le(fpcr, 4) + VregBytes(vregs))
  }

  /** What the restorer reads from a record of FPSIMD_SIZE bytes at `off`. */
  lemma FpsimdFields(area: seq<byte>, off: nat, fpsr: nat, fpcr: nat, vregs: seq<u128>)
    requires |vregs| == 32 && off + FPSIMD_SIZE <= |area|
    requires area[off..off + FPSIMD_SIZE] == Encode(FpsimdRec(fpsr, fpcr, vregs))
    ensures Word(area, off + 8) == fpsr % 0x1_0000_0000
    ensures Word(area, off + 12) == fpcr % 0x1_0000_0000
    ensures VregsFrom(area[off + 16..off + 528]) == vregs
  {
    hide Le, FromLe, VregBytes, VregsFrom;
    var s := area[off..off + FPSIMD_SIZE];
    var head := Le(FPSIMD_MAGIC, 4) + Le(FPSIMD_SIZE, 4);
    assert s == head + Le(fpsr, 4) + Le(fpcr, 4) + VregBytes(vregs);
    assert area[off + 8..off + 12] == s[8..12] && s[8..12] == Le(fpsr, 4);
    assert area[off + 12..off + 16] == s[12..16] && s[12..16] == Le(fpcr, 4);
    assert area[off + 16..off + 528] == s[16..528] && s[16..528] == VregBytes(vregs);
    LeRoundTrip(fpsr, 4);
    LeRoundTrip(fpcr, 4);
    Widths();
    VregsRoundTrip(vregs);
  }

  lemma {:induction false} VregByte(vregs: seq<u128>, k: nat, j: nat)
    requires k < |vregs| && j < 16
    ensures VregBytes(vregs)[16 * k + j] == vregs[k] / Pow256(j) % 256
    decreases k
  {
    hide Le, Pow256;
    if k == 0 {
      LeDigit(vregs[0], 16, j);
    } else {
      VregByte(vregs[1..], k - 1, j);
    }
  }

  /**
   The record byte by byte: its magic and size, then the low bytes of fpsr and fpcr, then the
   registers, every number with its least significant byte first.
   */
  lemma FpsimdBytes(fpsr: nat, fpcr: nat, vregs: seq<u128>, k: nat, j: nat)
    requires |vregs| == 32 && k < 32 && j < 16
    ensures var s := Encode(FpsimdRec(fpsr, fpcr, vregs));
            && |s| == 528 && s[..8] == [0x01, 0x80, 0x50, 0x46, 0x10, 0x02, 0x00, 0x00]
            && (j < 4 ==> s[8 + j] == fpsr / Pow256(j) % 256 && s[12 + j] == fpcr / Pow256(j) % 256)
            && s[16 + 16 * k + j] == vregs[k] / Pow256(j) % 256
  {
    HeadBytes();
    hide Pow256, Le;
    var s := Encode(FpsimdRec(fpsr, fpcr, vregs));
    assert s[..8] == Le(FPSIMD_MAGIC, 4) + Le(FPSIMD_SIZE, 4);
    VregByte(vregs, k, j);
    if j < 4 {
      LeDigit(fpsr, 4, j);
      LeDigit(fpcr, 4, j);
    }
  }

  lemma HeadBytes()
    ensures Le(FPSIMD_MAGIC, 4) + Le(FPSIMD_SIZE, 4) == [0x01, 0x80, 0x50, 0x46, 0x10, 0x02, 0x00, 0x00]
  {
    FourOf(FPSIMD_MAGIC);
    FourOf(FPSIMD_SIZE);
  }

  lemma FourOf(x: nat)
    ensures Le(x, 4) == [x % 256, x / 256 % 256, x / 256 / 256 % 256, x / 256 / 256 / 256 % 256]
  {
    assert Le(x / 256 / 256, 2) == [x / 256 / 256 % 256] + Le(x / 256 / 256 / 256, 1);
  }
}
