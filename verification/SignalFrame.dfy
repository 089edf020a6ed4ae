/**
 The AArch64 signal frame: saving the interrupted user state into it, entering the
 handler, and restoring the state in rt_sigreturn. User memory that the access check
 lets through is an object; the check itself is a parameter.
 */
module SignalFrame {
  import opened Bytes
  import opened SignalLayout
  import opened SignalRecords

  const RESERVED_OFFSET := 592     // of uc.uc_mcontext.__reserved in struct signal_frame
  const RESERVED_SIZE := 4096
  const FRAME_SIZE := 4704
  const UCONTEXT_OFFSET := 128
  const TRAMPOLINE_OFFSET := 4688

  const SIGKILL := 9
  const SIGSTOP := 19

  type SigSet = set<nat>

  // ------------------------------------------------------------------ the layout of the frame

  /** Where a member goes that follows `at` bytes. */
  function NextMultiple(at: nat, align: nat): nat
    requires align > 0
  {
    (at + align - 1) / align * align
  }

  /**
   The offsets follow from the members: siginfo of 128 bytes, the ucontext with its flags, link, stack of
   24 bytes, mask of 128 bytes and 16-byte aligned mcontext, and two instructions. The mcontext holds the
   fault address, 31 registers, sp, pc, pstate and the 16-byte aligned reserved area.
   */
  lemma FrameLayout()
    ensures var reserved := NextMultiple(8 + 31 * 8 + 3 * 8, 16);
            var mcontext := NextMultiple(8 + 8 + 24 + 128, 16);
            && UCONTEXT_OFFSET == NextMultiple(128, 16) && RESERVED_OFFSET == UCONTEXT_OFFSET + mcontext + reserved
            && TRAMPOLINE_OFFSET == NextMultiple(RESERVED_OFFSET + RESERVED_SIZE, 4) && RESERVED_SIZE == 4096
            && FRAME_SIZE == NextMultiple(TRAMPOLINE_OFFSET + 2 * 4, 16)
  {
  }

  // ------------------------------------------------------------------ the saved program status

  const CPSR_RESERVED: bv64 := 0xFFFF_FFFF_0CDF_E020
  const CPSR_PRIVILEGED: bv64 := 0x3DF     // mode, AArch32 state, and the F, I, A and D masks
  const CPSR_FLAGS: bv64 := 0xF000_0000
  const CPSR_TCO: bv64 := 0x0200_0000

  function ClearTco(cpsr: bv64): bv64 {
    cpsr & !CPSR_TCO
  }

  function ClearReserved(cpsr: bv64): bv64 {
    cpsr & !CPSR_RESERVED
  }

  predicate EntersUser(cpsr: bv64) {
    cpsr & CPSR_PRIVILEGED == 0
  }

  /** What a return to user mode makes of a status: a user status is kept but for its reserved bits. */
  function Validated(cpsr: bv64): bv64 {
    if EntersUser(cpsr) then ClearReserved(cpsr) else ClearReserved(cpsr) & CPSR_FLAGS
  }

  predicate Bit(c: bv64, i: bv64)
    requires i < 64
  {
    (c >> i) & 1 == 1
  }

  /** A bit that no user status has: not D, A, I, F, the mode, BTYPE, SSBS, SS, UAO, TCO or a condition flag. */
  predicate ReservedBit(i: bv64) {
    i == 5 || 13 <= i <= 20 || i == 22 || i == 23 || i == 26 || i == 27 || 32 <= i
  }

  /** Bit by bit: `now` is `was` without the reserved bits. */
  ghost predicate BitsKept(was: bv64, now: bv64) {
    forall i: bv64 :: i < 64 ==> Bit(now, i) == (Bit(was, i) && !ReservedBit(i))
  }

  /** Bit by bit: `now` has the condition flags N, Z, C and V of `was` and nothing else. */
  ghost predicate FlagsKept(was: bv64, now: bv64) {
    forall i: bv64 :: i < 64 ==> Bit(now, i) == (Bit(was, i) && 28 <= i <= 31)
  }

  lemma ReservedMask(c: bv64, i: bv64)
    requires i < 64
    ensures Bit(ClearReserved(c), i) == (Bit(c, i) && !ReservedBit(i))
  {
  }

  lemma FlagsMask(c: bv64, i: bv64)
    requires i < 64
    ensures Bit(ClearReserved(c) & CPSR_FLAGS, i) == (Bit(c, i) && 28 <= i <= 31)
  {
  }

  /** What the masks mean, bit by bit. */
  lemma ReturnBits(c: bv64)
    ensures BitsKept(c, ClearReserved(c)) && FlagsKept(c, ClearReserved(c) & CPSR_FLAGS)
  {
    hide Bit, ClearReserved, ReservedBit;
    forall i: bv64 | i < 64
      ensures Bit(ClearReserved(c), i) == (Bit(c, i) && !ReservedBit(i))
      ensures Bit(ClearReserved(c) & CPSR_FLAGS, i) == (Bit(c, i) && 28 <= i <= 31)
    {
      ReservedMask(c, i);
      FlagsMask(c, i);
    }
  }

  /** A status enters user mode exactly if the mode bits 0 to 4 and the mask bits 6 to 9 are clear. */
  lemma UserBits(c: bv64)
    ensures EntersUser(c) <==> forall i: bv64 :: i <= 9 && i != 5 ==> !Bit(c, i)
  {
    if !EntersUser(c) {
      assert Bit(c, 0) || Bit(c, 1) || Bit(c, 2) || Bit(c, 3) || Bit(c, 4) || Bit(c, 6) || Bit(c, 7) || Bit(c, 8) || Bit(c, 9);
    }
  }

  /** The handler starts without TCO, which is bit 25. */
  lemma TcoBit(c: bv64, i: bv64)
    requires i < 64
    ensures Bit(ClearTco(c), i) == (Bit(c, i) && i != 25)
  {
  }

  lemma TcoUser(c: bv64)
    ensures EntersUser(ClearTco(c)) <==> EntersUser(c)
  {
  }

  /** The status of a handler that interrupts a program with status `was`. */
  ghost predicate HandlerBits(was: bv64, now: bv64) {
    forall i: bv64 :: i < 64 ==>
      Bit(now, i) == (Bit(was, i) && if EntersUser(was) then !ReservedBit(i) && i != 25 else 28 <= i <= 31)
  }

  lemma HandlerStatus(c: bv64)
    ensures HandlerBits(c, Validated(ClearTco(c)))
  {
    hide Bit, ClearReserved, ReservedBit, ClearTco, EntersUser;
    TcoUser(c);
    var t := ClearTco(c);
    forall i: bv64 | i < 64
      ensures Bit(Validated(t), i) == (Bit(c, i) && if EntersUser(c) then !ReservedBit(i) && i != 25 else 28 <= i <= 31)
    {
      TcoBit(c, i);
      ReservedMask(t, i);
      FlagsMask(t, i);
    }
  }

  // ------------------------------------------------------------------ state

  /** Everything the interrupted program can observe of its own processor state. */
  datatype User = User(regs: seq<u64>, sp: u64, pc: u64, cpsr: bv64, vregs: seq<u128>, fpsr: u64, fpcr: u64)

  predicate UserOk(u: User) {
    |u.regs| == 31 && |u.vregs| == 32
  }

  function Add64(a: nat, b: nat): u64 {
    (a + b) % U64
  }

  /** Where the handler returns to: sa_restorer, or the instructions in the frame. */
  function Tramp(restorer: Restorer, addr: u64): u64 {
    match restorer
    case At(a) => a
    case Trampoline => Add64(addr, TRAMPOLINE_OFFSET)
  }

  /** `u` on its way into the handler of `ksig`, with the frame at `addr`. */
  function Entered(u: User, ksig: KSignal, addr: u64, unwind: u64): (r: User)
    requires UserOk(u) && ksig.sig < U64
    ensures UserOk(r)
  {
    var regs := u.regs[0 := ksig.sig][29 := unwind][30 := Tramp(ksig.restorer, addr)];
    var args := if ksig.sigInfo then regs[1 := addr][2 := Add64(addr, UCONTEXT_OFFSET)] else regs;
    u.(regs := args, sp := addr, pc := ksig.handler, cpsr := ClearTco(u.cpsr))
  }

  class ArchContext {
    var regs: seq<u64>
    var sp: u64
    var elr: u64
    var cpsr: bv64
    var vregs: seq<u128>
    var fpsr: u64
    var fpcr: u64
    var origX0: u64
    var inSyscall: bool            // type == SYSCALL_CONTEXT

    constructor (u: User, origX0: u64, inSyscall: bool)
      ensures View() == u && this.origX0 == origX0 && this.inSyscall == inSyscall
    {
      regs, sp, elr, cpsr, vregs, fpsr, fpcr := u.regs, u.sp, u.pc, u.cpsr, u.vregs, u.fpsr, u.fpcr;
      this.origX0, this.inSyscall := origX0, inSyscall;
    }

    function View(): User
      reads this
    {
      User(regs, sp, elr, cpsr, vregs, fpsr, fpcr)
    }

    predicate Valid()
      reads this
    {
      UserOk(View())
    }

    /** signal_frame_setup_handler, and the two arguments of an SA_SIGINFO handler. */
    method SetupHandler(ksig: KSignal, addr: u64, unwind: u64)
      requires Valid() && ksig.sig < U64
      modifies this
      ensures View() == Entered(old(View()), ksig, addr, unwind) && Valid()
      ensures origX0 == old(origX0) && inSyscall == old(inSyscall)
    {
      hide Tramp, Add64, ClearTco;
      var r := regs[0 := ksig.sig][29 := unwind];
      sp := addr;
      elr := ksig.handler;
      cpsr := ClearTco(cpsr);
      r := r[30 := Tramp(ksig.restorer, addr)];
      if ksig.sigInfo {
        r := r[1 := addr][2 := Add64(addr, UCONTEXT_OFFSET)];
      }
      regs := r;
    }

    /** aarch64_validate_return_context. */
    method ValidateReturn() returns (ok: bool)
      modifies this`cpsr
      ensures ok == EntersUser(old(cpsr))
      ensures cpsr == Validated(old(cpsr))
      ensures if ok then BitsKept(old(cpsr), cpsr) else FlagsKept(old(cpsr), cpsr)
      ensures EntersUser(cpsr)
    {
      hide BitsKept, FlagsKept;
      ghost var was := cpsr;
      ReturnBits(was);
      cpsr := ClearReserved(cpsr);
      ValidateBits(was);
      if cpsr & 0xF == 0 && cpsr & 0x10 == 0 && cpsr & 0x200 == 0 && cpsr & 0x100 == 0
         && cpsr & 0x80 == 0 && cpsr & 0x40 == 0 {
        return true;
      }
      cpsr := cpsr & CPSR_FLAGS;
      return false;
    }
  }

  /** The five separate tests amount to one mask, and both results are user states. */
  lemma ValidateBits(was: bv64)
    ensures var c := ClearReserved(was);
            && ((c & 0xF == 0 && c & 0x10 == 0 && c & 0x200 == 0 && c & 0x100 == 0 && c & 0x80 == 0 && c & 0x40 == 0)
                <==> EntersUser(was))
            && EntersUser(c & CPSR_FLAGS) && (EntersUser(was) ==> EntersUser(c))
  {
  }

  // ------------------------------------------------------------------ the alternate stack

  const SS_ONSTACK: bv32 := 1
  const SS_DISABLE: bv32 := 2
  const SS_AUTODISARM: bv32 := 0x8000_0000

  datatype AltStack = AltStack(base: u64, size: u64, flags: bv32)

  predicate AutoDisarm(a: AltStack) {
    a.flags & SS_AUTODISARM != 0
  }

  /** altstack_on_stack, for a stack that grows down. */
  predicate OnStack(a: AltStack, sp: u64) {
    !AutoDisarm(a) && sp > a.base && sp - a.base <= a.size
  }

  function ModeOf(flags: bv32): bv32 {
    flags & !SS_AUTODISARM
  }

  /** What every sigaltstack call leaves behind, where it matters for putting it back. */
  predicate AltOk(a: AltStack, minSize: nat) {
    AutoDisarm(a) ==>
      || (ModeOf(a.flags) == SS_DISABLE && a.base == 0 && a.size == 0)
      || ((ModeOf(a.flags) == 0 || ModeOf(a.flags) == SS_ONSTACK) && minSize <= a.size)
  }

  /** kernel_sigaltstack's effect when a new stack is given; errors leave it as it was. */
  function SetAltStack(a: AltStack, ss: AltStack, sp: u64, minSize: nat): (r: AltStack)
    ensures AltOk(a, minSize) ==> AltOk(r, minSize)
  {
    var mode := ModeOf(ss.flags);
    if OnStack(a, sp) then a
    else if mode != SS_DISABLE && mode != SS_ONSTACK && mode != 0 then a
    else if a == ss then a
    else if mode == SS_DISABLE then AltStack(0, 0, ss.flags)
    else if ss.size < minSize then a
    else ss
  }

  /**
   The rules of sigaltstack: nothing changes while the program is on the stack, nor for flags other than
   0, SS_ONSTACK or SS_DISABLE (with or without SS_AUTODISARM), nor for a stack that is too small; any
   other request takes effect as it is, and disabling leaves neither address nor size.
   */
  lemma AltStackRules(a: AltStack, ss: AltStack, sp: u64, minSize: nat)
    ensures var r := SetAltStack(a, ss, sp, minSize);
            var mode := ss.flags & 0x7FFF_FFFF;
            if a.flags & 0x8000_0000 == 0 && a.base < sp <= a.base + a.size then r == a
            else if mode == 0 || mode == 1 then r == if ss.size < minSize then a else ss
            else if mode == 2 then a == ss || r == AltStack(0, 0, ss.flags)
            else r == a
  {
    ModeBits(ss.flags);
  }

  lemma ModeBits(flags: bv32)
    ensures ModeOf(flags) == flags & 0x7FFF_FFFF
  {
  }

  /** altstack_reset, which delivery applies to an autodisarm stack. */
  function Disarmed(a: AltStack): AltStack {
    if AutoDisarm(a) then AltStack(0, 0, SS_DISABLE) else a
  }

  /** Disarming for the handler is undone by restoring the saved configuration. */
  lemma AltRoundTrip(a: AltStack, sp: u64, minSize: nat)
    requires AltOk(a, minSize)
    ensures SetAltStack(Disarmed(a), a, sp, minSize) == a
  {
    assert SS_DISABLE & SS_AUTODISARM == 0;
  }

  // ------------------------------------------------------------------ the thread

  predicate Maskable(s: SigSet) {
    SIGKILL !in s && SIGSTOP !in s
  }

  /** signal_mask_apply_current's new mask. */
  function Applied(blocked: SigSet, set': SigSet): (r: SigSet)
    ensures Maskable(blocked) ==> Maskable(r) && r == set' - {9, 19}
    ensures Maskable(set') ==> r == set'
  {
    if blocked == set' then blocked else set' - {SIGKILL, SIGSTOP}
  }

  class Thread {
    var blocked: SigSet
    var saved: SigSet              // saved_sigmask
    var needRestore: bool          // need_restore_blocked
    var alt: AltStack
    const minSize: nat             // MINSIGSTKSZ

    constructor (blocked: SigSet, minSize: nat)
      requires Maskable(blocked)
      ensures Valid() && this.blocked == blocked && this.minSize == minSize
      ensures saved == {} && !needRestore && alt == AltStack(0, 0, SS_DISABLE)
    {
      this.blocked, saved, needRestore, alt, this.minSize := blocked, {}, false, AltStack(0, 0, SS_DISABLE), minSize;
      assert SS_DISABLE & SS_AUTODISARM == 0;
    }

    predicate Valid()
      reads this
    {
      Maskable(blocked) && Maskable(saved) && AltOk(alt, minSize)
    }

    /** signal_mask_save_target: the mask to return to. */
    function SaveTarget(): SigSet
      reads this
    {
      if needRestore then saved else blocked
    }

    /** signal_mask_restore_saved. */
    method RestoreSaved()
      requires Valid()
      modifies this
      ensures Valid() && blocked == old(SaveTarget()) && !needRestore && alt == old(alt)
      ensures SaveTarget() == old(SaveTarget()) && saved == if old(needRestore) then {} else old(saved)
    {
      if needRestore {
        blocked := saved;
        needRestore := false;
        saved := {};
      }
    }

    /** signal_delivered. */
    method Delivered(ksig: KSignal)
      requires Valid()
      modifies this
      ensures Valid() && !needRestore && saved == old(saved)
      ensures alt == Disarmed(old(alt))
      ensures blocked == (old(blocked) + ksig.mask + (if ksig.noDefer then {} else {ksig.sig})) - {SIGKILL, SIGSTOP}
    {
      needRestore := false;
      var set' := blocked + ksig.mask;
      if !ksig.noDefer {
        set' := set' + {ksig.sig};
      }
      blocked := Applied(blocked, set');
      if AutoDisarm(alt) {
        alt := AltStack(0, 0, SS_DISABLE);
        assert SS_DISABLE & SS_AUTODISARM == 0;
      }
    }
  }

  /** A signal on its way to a handler: struct ksignal with the flags of its action. */
  datatype KSignal = KSignal(sig: nat, handler: u64, mask: SigSet, restart: bool, noDefer: bool, onStack: bool,
                             sigInfo: bool, restorer: Restorer)

  datatype Restorer = Trampoline | At(addr: u64)

  // ------------------------------------------------------------------ the frame

  class Frame {
    var addr: u64
    var unwindFp: u64
    var unwindLr: u64
    var stack: AltStack
    var sigmask: SigSet
    var regs: seq<u64>
    var sp: u64
    var pc: u64
    var pstate: bv64
    var reserved: seq<byte>

    /** memset of the frame. */
    constructor (addr: u64)
      ensures this.addr == addr && reserved == seq(RESERVED_SIZE, _ => 0)
      ensures regs == seq(31, _ => 0) && sp == 0 && pc == 0 && pstate == 0 && sigmask == {}
      ensures unwindFp == 0 && unwindLr == 0 && stack == AltStack(0, 0, 0)
    {
      this.addr, unwindFp, unwindLr, stack, sigmask := addr, 0, 0, AltStack(0, 0, 0), {};
      regs, sp, pc, pstate := seq(31, _ => 0), 0, 0, 0;
      reserved := seq(RESERVED_SIZE, _ => 0);
    }

    predicate Valid()
      reads this
    {
      |regs| == 31 && |reserved| == RESERVED_SIZE
    }

    /** The frame of a thread interrupted in state `u`, that is to return to `mask` and `alt`. */
    ghost predicate Holds(u: User, mask: SigSet, alt: AltStack)
      reads this
    {
      && Valid() && UserOk(u)
      && regs == u.regs && sp == u.sp && pc == u.pc && pstate == u.cpsr
      && sigmask == mask && stack == alt
      && unwindFp == u.regs[29] && unwindLr == u.regs[30]
      && exists tail :: reserved == EncodeAll([FpsimdRec(u.fpsr, u.fpcr, u.vregs)]) + TERMINATOR + tail
    }

    /** signal_frame_save_mcontext. */
    method SaveMcontext(ctx: ArchContext, set': SigSet)
      requires ctx.Valid()
      modifies this`regs, this`sp, this`pc, this`pstate, this`sigmask
      ensures regs == ctx.regs && sp == ctx.sp && pc == ctx.elr && pstate == ctx.cpsr && sigmask == set'
    {
      regs := ctx.regs;
      sp, pc, pstate := ctx.sp, ctx.elr, ctx.cpsr;
      sigmask := set';
    }

    /** save_fpsimd_context_to_sigframe at `off` in `__reserved[]`; fpsr and fpcr are cut to 32 bits. */
    method SaveFpsimd(off: nat, ctx: ArchContext)
      requires |reserved| == RESERVED_SIZE && off + FPSIMD_SIZE <= RESERVED_SIZE && ctx.Valid()
      modifies this`reserved
      ensures reserved == Stored(old(reserved), off, Encode(FpsimdRec(ctx.fpsr, ctx.fpcr, ctx.vregs)))
    {
      hide Le, VregBytes;
      reserved := Stored(reserved, off + 16, VregBytes(ctx.vregs));
      reserved := Stored(reserved, off + 8, Le(ctx.fpsr, 4));
      reserved := Stored(reserved, off + 12, Le(ctx.fpcr, 4));
      reserved := Stored(reserved, off, Le(FPSIMD_MAGIC, 4));
      reserved := Stored(reserved, off + 4, Le(FPSIMD_SIZE, 4));
      StoreFields(old(reserved), off, ctx.fpsr, ctx.fpcr, ctx.vregs);
    }

    /** signal_frame_populate, for the planned offsets of the two records. */
    method Populate(fpsimd: nat, end: nat, ctx: ArchContext, set': SigSet, alt: AltStack)
      requires Valid() && ctx.Valid() && fpsimd == RESERVED_OFFSET && end == RESERVED_OFFSET + FPSIMD_SIZE
      modifies this
      ensures Holds(ctx.View(), set', alt) && addr == old(addr)
    {
      ghost var area := reserved;
      stack := alt;
      unwindFp, unwindLr := ctx.regs[29], ctx.regs[30];
      SaveMcontext(ctx, set');
      SaveFpsimd(fpsimd - RESERVED_OFFSET, ctx);
      SaveEnd(end - RESERVED_OFFSET);
      ghost var tail := Chain(area, FpsimdRec(ctx.fpsr, ctx.fpcr, ctx.vregs));
    }

    /** The state that a frame with an FPSIMD record at `off` describes. */
    function Described(off: nat): User
      requires Valid() && off + FPSIMD_SIZE <= RESERVED_SIZE
      reads this
    {
      User(regs, sp, pc, ClearReserved(pstate), VregsFrom(reserved[off + 16..off + 528]),
           Word(reserved, off + 8), Word(reserved, off + 12))
    }

    /** save_end_context_to_sigframe. */
    method SaveEnd(off: nat)
      requires |reserved| == RESERVED_SIZE && off + 8 <= RESERVED_SIZE
      modifies this`reserved
      ensures reserved == Stored(old(reserved), off, TERMINATOR)
    {
      hide Le;
      reserved := Stored(reserved, off, Le(0, 4));
      reserved := Stored(reserved, off + 4, Le(0, 4));
      StoreTwo(old(reserved), off, Le(0, 4), Le(0, 4));
    }
  }

  // ------------------------------------------------------------------ stores into the reserved area

  lemma StoreTwo(b: seq<byte>, off: nat, x: seq<byte>, y: seq<byte>)
    requires off + |x| + |y| <= |b|
    ensures Stored(Stored(b, off, x), off + |x|, y) == Stored(b, off, x + y)
  {
  }

  /** Stores to disjoint places commute. */
  lemma StoreSwap(b: seq<byte>, off: nat, x: seq<byte>, off': nat, y: seq<byte>)
    requires off + |x| <= off' && off' + |y| <= |b|
    ensures Stored(Stored(b, off', y), off, x) == Stored(Stored(b, off, x), off', y)
  {
  }

  /** The fields of the record, stored in the order the code writes them, make up the record. */
  lemma StoreFields(b: seq<byte>, off: nat, fpsr: nat, fpcr: nat, vregs: seq<u128>)
    requires |vregs| == 32 && off + FPSIMD_SIZE <= |b|
    ensures var b1 := Stored(b, off + 16, VregBytes(vregs));
            var b2 := Stored(Stored(b1, off + 8, Le(fpsr, 4)), off + 12, Le(fpcr, 4));
            Stored(Stored(b2, off, Le(FPSIMD_MAGIC, 4)), off + 4, Le(FPSIMD_SIZE, 4))
              == Stored(b, off, Encode(FpsimdRec(fpsr, fpcr, vregs)))
  {
    hide Le, VregBytes, Stored;
    var v, f := VregBytes(vregs), Le(fpsr, 4) + Le(fpcr, 4);
    var h := Le(FPSIMD_MAGIC, 4) + Le(FPSIMD_SIZE, 4);
    var b1 := Stored(b, off + 16, v);
    StoreTwo(b1, off + 8, Le(fpsr, 4), Le(fpcr, 4));
    var b2 := Stored(b1, off + 8, f);
    StoreTwo(b2, off, Le(FPSIMD_MAGIC, 4), Le(FPSIMD_SIZE, 4));
    StoreSwap(b, off + 8, f, off + 16, v);
    StoreTwo(b, off + 8, f, v);
    assert b2 == Stored(b, off + 8, f + v);
    StoreSwap(b, off, h, off + 8, f + v);
    StoreTwo(b, off, h, f + v);
    assert h + (f + v) == Encode(FpsimdRec(fpsr, fpcr, vregs));
  }

  // ------------------------------------------------------------------ building

  /** Two records stored back to back at the start of an area. */
  lemma Chain(area: seq<byte>, r: Rec) returns (tail: seq<byte>)
    requires |area| == RESERVED_SIZE && RecSize(r) == FPSIMD_SIZE
    ensures Stored(Stored(area, 0, Encode(r)), FPSIMD_SIZE, TERMINATOR) == EncodeAll([r]) + TERMINATOR + tail
  {
    hide Le;
    StoreTwo(area, 0, Encode(r), TERMINATOR);
    tail := area[FPSIMD_SIZE + 8..];
    assert EncodeAll([r]) == Encode(r) + EncodeAll([]);
    assert EncodeAll([r]) == Encode(r);
  }

  /** Where the frame goes: below the unwind record, which lies below `top`. */
  function UnwindAt(top: u64): (r: u64)
    ensures r % 16 == 0
  {
    Sub64(top, 16) / 16 * 16
  }

  function FrameAt(top: u64): (r: u64)
    ensures r % 16 == 0
  {
    SubAligned(UnwindAt(top), FRAME_SIZE);
    Sub64(UnwindAt(top), FRAME_SIZE)
  }

  /** The unwind record and the frame lie whole below `top`, exactly if there is room for both. */
  lemma FrameBelow(top: u64)
    ensures FRAME_SIZE + 16 <= top <==> FrameAt(top) + FRAME_SIZE == UnwindAt(top) && UnwindAt(top) + 16 <= top
    ensures FRAME_SIZE + 16 <= top ==> top - FrameAt(top) < FRAME_SIZE + 32
  {
    var under := if top < 16 then top - 16 + U64 else top - 16;
    assert Sub64(top, 16) == under;
    var at := under / 16 * 16;
    assert under - 16 < at <= under && UnwindAt(top) == at;
    SubBelow(at, FRAME_SIZE);
  }

  lemma SubBelow(a: nat, b: nat)
    requires a < U64 && b < U64
    ensures Sub64(a, b) == if a < b then a - b + U64 else a - b
  {
  }

  lemma SubAligned(a: nat, b: nat)
    requires a % 16 == 0 && b % 16 == 0 && a < U64 && b < U64
    ensures Sub64(a, b) % 16 == 0
  {
  }

  /** signal_sp_get. */
  function StackTop(sp: u64, ksig: KSignal, alt: AltStack): u64 {
    if ksig.onStack && alt.size != 0 && !OnStack(alt, sp) then Add64(alt.base, alt.size) else sp
  }

  /** A frame at `sp` and its unwind record at `fp`, one behind the other, as close below `top` as alignment lets them. */
  predicate SitsBelow(top: nat, sp: u64, fp: u64) {
    sp % 16 == 0 && sp + 4704 == fp && fp + 16 <= top && top < sp + 4736
  }

  /** The handler asked for the alternate stack, there is one, and the program is not on it already. */
  predicate SwitchesStack(sp: u64, ksig: KSignal, alt: AltStack) {
    ksig.onStack && alt.size != 0 && (alt.flags & 0x8000_0000 != 0 || !(alt.base < sp <= alt.base + alt.size))
  }

  /**
   Where the frame comes to lie: on the alternate stack, inside its bounds, or else below the
   program's own stack pointer; each as long as there is room.
   */
  predicate FramePlaced(was: u64, ksig: KSignal, alt: AltStack, sp: u64, fp: u64) {
    if SwitchesStack(was, ksig, alt) then
      4736 <= alt.size && alt.base + alt.size < 0x1_0000_0000_0000_0000 ==>
        alt.base <= sp && SitsBelow(alt.base + alt.size, sp, fp)
    else 4720 <= was ==> SitsBelow(was, sp, fp)
  }

  lemma FrameIsPlaced(sp: u64, ksig: KSignal, alt: AltStack)
    ensures var top := StackTop(sp, ksig, alt); FramePlaced(sp, ksig, alt, FrameAt(top), UnwindAt(top))
  {
    hide FrameAt, UnwindAt;
    FrameBelow(StackTop(sp, ksig, alt));
  }

  /** The state in which the handler starts. */
  function HandlerEntry(u: User, ksig: KSignal, alt: AltStack): User
    requires UserOk(u) && ksig.sig < U64
  {
    var top := StackTop(u.sp, ksig, alt);
    Entered(u, ksig, FrameAt(top), UnwindAt(top))
  }

  /**
   What the handler finds: its number, its stack on the frame, the frame's parts as arguments, a
   way back, and every other register as the interrupted program left it.
   */
  lemma HandlerSees(u: User, ksig: KSignal, alt: AltStack, r: nat)
    requires UserOk(u) && ksig.sig < U64 && r < 31
    ensures var e := HandlerEntry(u, ksig, alt);
            && e.pc == ksig.handler && e.sp % 16 == 0 && e.regs[0] == ksig.sig
            && e.regs[29] == Add64(e.sp, 4704) && FramePlaced(u.sp, ksig, alt, e.sp, e.regs[29])
            && e.regs[30] == (if ksig.restorer.At? then ksig.restorer.addr else Add64(e.sp, 4688))
            && (ksig.sigInfo ==> e.regs[1] == e.sp && e.regs[2] == Add64(e.sp, 128))
            && (r != 0 && r != 29 && r != 30 && !(ksig.sigInfo && 1 <= r <= 2) ==> e.regs[r] == u.regs[r])
            && e.vregs == u.vregs && e.fpsr == u.fpsr && e.fpcr == u.fpcr
  {
    hide ClearTco, FramePlaced;
    FrameIsPlaced(u.sp, ksig, alt);
    BackUp(UnwindAt(StackTop(u.sp, ksig, alt)));
  }

  lemma BackUp(a: u64)
    ensures Add64(Sub64(a, FRAME_SIZE), FRAME_SIZE) == a
  {
  }
}
