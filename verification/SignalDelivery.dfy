/**
 Signal delivery from end to end: building the frame, entering the handler, returning
 with rt_sigreturn, and the restart of an interrupted system call.
 */
module SignalDelivery {
  import opened Bytes
  import opened SignalFrame
  import opened SignalLayout
  import opened SignalRecords

  // ------------------------------------------------------------------ building and entering

  /** The records planned for every frame: FPSIMD first, then the terminator, both inline. */
  method Plan() returns (fpsimd: nat, end: nat, size: nat)
    ensures fpsimd == 592 && end == 1120 && size == 4704
  {
    var layout := new Layout(RESERVED_OFFSET, RESERVED_SIZE);
    var ok;
    ok, fpsimd := layout.Reserve(Want(FPSIMD_SIZE, true));
    ok, end := layout.Seal();
    size := RoundUp16(Max(layout.nextOffset, FRAME_SIZE));
  }

  function Max(a: nat, b: nat): nat {
    if a < b then b else a
  }

  /** build_signal_frame: the frame holds the interrupted state and the context enters the handler. */
  method BuildFrame(ksig: KSignal, mask: SigSet, ctx: ArchContext, alt: AltStack, writable: bool) returns (frame: Frame?)
    requires ctx.Valid() && ksig.sig < U64
    modifies ctx
    ensures !writable ==> frame == null && ctx.View() == old(ctx.View())
    ensures writable ==> frame != null && fresh(frame) && frame.addr == ctx.sp
    ensures writable ==> frame.Holds(old(ctx.View()), mask, alt)
    ensures writable ==> ctx.View() == HandlerEntry(old(ctx.View()), ksig, alt)
    ensures writable ==> FramePlaced(old(ctx.sp), ksig, alt, ctx.sp, ctx.regs[29])
    ensures ctx.Valid() && ctx.origX0 == old(ctx.origX0) && ctx.inSyscall == old(ctx.inSyscall)
  {
    var fpsimd, end, size := Plan();
    var top := StackTop(ctx.sp, ksig, alt);
    var unwind := UnwindAt(top);
    var addr := FrameAt(top);
    if !writable {
      return null;
    }
    FrameIsPlaced(ctx.sp, ksig, alt);
    frame := new Frame(addr);
    frame.Populate(fpsimd, end, ctx, mask, alt);
    ctx.SetupHandler(ksig, addr, unwind);
  }

  /** enter_signal_handler; null when the frame could not be built and the task is suspended. */
  method EnterHandler(ksig: KSignal, ctx: ArchContext, thread: Thread, writable: bool) returns (frame: Frame?)
    requires ctx.Valid() && thread.Valid() && ksig.sig < U64
    modifies ctx, thread
    ensures !writable ==> frame == null && ctx.View() == old(ctx.View())
    ensures writable ==> frame != null && fresh(frame) && frame.addr == ctx.sp
    ensures writable ==> frame.Holds(old(ctx.View()), old(thread.SaveTarget()), old(thread.alt))
    ensures writable ==>
              var entry := HandlerEntry(old(ctx.View()), ksig, old(thread.alt));
              ctx.View() == entry.(cpsr := Validated(entry.cpsr))
    ensures writable ==> FramePlaced(old(ctx.sp), ksig, old(thread.alt), ctx.sp, ctx.regs[29])
    ensures writable ==> HandlerBits(old(ctx.cpsr), ctx.cpsr)
    ensures writable ==>
              && thread.Valid() && !thread.needRestore && thread.alt == Disarmed(old(thread.alt))
              && thread.blocked == (old(thread.blocked) + ksig.mask + (if ksig.noDefer then {} else {ksig.sig}))
                                   - {SIGKILL, SIGSTOP}
    ensures !writable ==> thread.Valid() && thread.blocked == old(thread.blocked)
    ensures ctx.Valid() && ctx.origX0 == old(ctx.origX0) && ctx.inSyscall == old(ctx.inSyscall)
  {
    hide FramePlaced, HandlerBits, Validated, ClearTco;
    var mask := thread.SaveTarget();
    HandlerStatus(ctx.cpsr);
    frame := BuildFrame(ksig, mask, ctx, thread.alt, writable);
    if frame == null {
      return;
    }
    var ok := ctx.ValidateReturn();
    thread.Delivered(ksig);
  }

  // ------------------------------------------------------------------ returning

  predicate HasFpsimd(p: Parsed) {
    p.Good? && p.fpsimd.At? && p.fpsimd.size == FPSIMD_SIZE
  }

  /** A parsed FPSIMD record lies inside the area. */
  lemma {:induction false} FoundInside(area: seq<byte>, offset: nat, found: Fpsimd)
    requires offset <= |area| && (found.At? ==> found.off + found.size <= |area|)
    ensures var p := Parse(area, offset, found); p.Good? && p.fpsimd.At? ==> p.fpsimd.off + p.fpsimd.size <= |area|
    decreases |area| - offset
  {
    hide Word;
    if |area| - offset >= HEAD_SIZE {
      var size := Word(area, offset + 4);
      var magic := Word(area, offset);
      if HEAD_SIZE <= size <= |area| - offset {
        FoundInside(area, offset + size, if magic == FPSIMD_MAGIC then Fpsimd.At(offset, size) else found);
      }
    }
  }

  /** restore_context_from_signal_frame, on any frame a program may present. */
  method RestoreContext(ctx: ArchContext, frame: Frame, thread: Thread) returns (ok: bool)
    requires ctx.Valid() && thread.Valid() && frame.Valid()
    modifies ctx, thread
    ensures ctx.Valid() && thread.Valid() && !ctx.inSyscall && ctx.origX0 == old(ctx.origX0)
    ensures thread.blocked == Applied(old(thread.blocked), frame.sigmask)
    ensures thread.saved == old(thread.saved) && thread.needRestore == old(thread.needRestore) && thread.alt == old(thread.alt)
    ensures EntersUser(ctx.cpsr)
    ensures var p := Parse(frame.reserved, 0, Absent);
            && (ok <==> EntersUser(frame.pstate) && frame.addr % 16 == 0 && HasFpsimd(p))
            && (ok ==> p.fpsimd.off + FPSIMD_SIZE <= RESERVED_SIZE &&
                       ctx.View() == frame.Described(p.fpsimd.off))
  {
    hide ClearReserved, ClearTco, EntersUser, Parse, Word, VregsFrom, AltOk, Applied, Maskable, BitsKept, FlagsKept;
    thread.blocked := Applied(thread.blocked, frame.sigmask);
    ctx.regs := frame.regs;
    ctx.sp, ctx.elr, ctx.cpsr := frame.sp, frame.pc, frame.pstate;
    ctx.inSyscall := false;
    ok := ctx.ValidateReturn();
    if !ok {
      return;
    }
    var p := ParseRecords(frame.reserved, (frame.addr + RESERVED_OFFSET) % 16 == 0);
    if p.Bad? || p.fpsimd.Absent? || p.fpsimd.size != FPSIMD_SIZE {
      return false;
    }
    FoundInside(frame.reserved, 0, Absent);
    var off := p.fpsimd.off;
    RestoreFpsimd(ctx, frame, off);
  }

  /** restore_fpsimd_context_from_sigframe, for a record of the right size. */
  method RestoreFpsimd(ctx: ArchContext, frame: Frame, off: nat)
    requires frame.Valid() && off + FPSIMD_SIZE <= RESERVED_SIZE
    modifies ctx`vregs, ctx`fpsr, ctx`fpcr
    ensures var d := frame.Described(off); ctx.vregs == d.vregs && ctx.fpsr == d.fpsr && ctx.fpcr == d.fpcr
    ensures |ctx.vregs| == 32
  {
    ctx.vregs := VregsFrom(frame.reserved[off + 16..off + 528]);
    ctx.fpsr := Word(frame.reserved, off + 8);
    ctx.fpcr := Word(frame.reserved, off + 12);
  }

  /** rt_sigreturn; `segv` is the SIGSEGV sent when the frame is refused. */
  method RtSigreturn(ctx: ArchContext, frame: Frame, thread: Thread, readable: bool) returns (segv: bool)
    requires ctx.Valid() && thread.Valid() && frame.Valid() && frame.addr == ctx.sp
    modifies ctx, thread
    ensures ctx.Valid() && thread.Valid()
    ensures segv <==> frame.addr % 16 != 0 || !readable || !EntersUser(frame.pstate)
                      || !HasFpsimd(Parse(frame.reserved, 0, Absent))
    ensures !segv ==>
              var p := Parse(frame.reserved, 0, Absent);
              && !ctx.inSyscall && EntersUser(ctx.cpsr)
              && p.fpsimd.off + FPSIMD_SIZE <= RESERVED_SIZE
              && ctx.View() == frame.Described(p.fpsimd.off)
              && BitsKept(frame.pstate, ctx.cpsr)
              && thread.blocked == Applied(old(thread.blocked), frame.sigmask)
              && thread.needRestore == old(thread.needRestore) && thread.saved == old(thread.saved)
              && thread.alt == SetAltStack(old(thread.alt), frame.stack, frame.sp, thread.minSize)
  {
    hide ClearReserved, ClearTco, EntersUser, Parse, Word, VregsFrom, BitsKept;
    ReturnBits(frame.pstate);
    if ctx.sp % 16 != 0 {
      return true;
    }
    if !readable {
      return true;
    }
    var ok := RestoreContext(ctx, frame, thread);
    if !ok {
      return true;
    }
    thread.alt := SetAltStack(thread.alt, frame.stack, ctx.sp, thread.minSize);
    return false;
  }

  /** What a program interrupted in state `u` finds when its handler has returned. */
  function Returned(u: User): User {
    u.(cpsr := ClearReserved(u.cpsr), fpsr := u.fpsr % 0x1_0000_0000, fpcr := u.fpcr % 0x1_0000_0000)
  }

  /** That is the interrupted state itself exactly if the two 64-bit fields fit their 32-bit records. */
  lemma ReturnedExactly(u: User)
    ensures Returned(u) == u <==> u.cpsr & CPSR_RESERVED == 0 && u.fpsr < 0x1_0000_0000 && u.fpcr < 0x1_0000_0000
  {
    assert u.cpsr & !CPSR_RESERVED == u.cpsr <==> u.cpsr & CPSR_RESERVED == 0;
    assert Returned(u).cpsr == u.cpsr & !CPSR_RESERVED;
  }

  /** So a status with bit 32 of fpsr set comes back without it. */
  lemma FpsrLost(u: User)
    requires u.fpsr == 0x1_0000_0000
    ensures Returned(u).fpsr == 0 && Returned(u) != u
  {
  }

  /** The bytes of a frame that the kernel built parse back to the registers they were made from. */
  lemma BuiltRecords(u: User, tail: seq<byte>)
    requires UserOk(u)
    ensures var area := EncodeAll([FpsimdRec(u.fpsr, u.fpcr, u.vregs)]) + TERMINATOR + tail;
            && Parse(area, 0, Absent) == Good(Fpsimd.At(0, FPSIMD_SIZE))
            && FPSIMD_SIZE <= |area|
            && VregsFrom(area[16..528]) == u.vregs
            && Word(area, 8) == u.fpsr % 0x1_0000_0000 && Word(area, 12) == u.fpcr % 0x1_0000_0000
  {
    hide Le, Word, VregsFrom, VregBytes, Parse;
    var r := FpsimdRec(u.fpsr, u.fpcr, u.vregs);
    var recs := [r];
    assert RecSize(r) == FPSIMD_SIZE;
    assert recs[1..] == [];
    var area := EncodeAll(recs) + TERMINATOR + tail;
    ParseAccepts([], recs, tail, Absent);
    assert [] + EncodeAll(recs) + TERMINATOR + tail == area;
    assert Locate(recs, 0, Absent) == Fpsimd.At(0, FPSIMD_SIZE);
    assert EncodeAll(recs) == Encode(r);
    assert area[0..FPSIMD_SIZE] == Encode(r);
    FpsimdFields(area, 0, u.fpsr, u.fpcr, u.vregs);
  }

  /**
   rt_sigreturn on a frame that holds `u`, `mask` and `alt`. The handler may have left any
   registers and any mask, as long as it comes back on the frame's address and leaves the
   frame and the alternate stack alone: the interrupted program then continues in its own
   state, with its own mask and alternate stack.
   */
  method MatchingReturn(ctx: ArchContext, thread: Thread, frame: Frame, ghost u: User, ghost mask: SigSet, ghost alt: AltStack)
    requires ctx.Valid() && thread.Valid() && frame.Holds(u, mask, alt)
    requires frame.addr == ctx.sp && frame.addr % 16 == 0
    requires EntersUser(u.cpsr) && Maskable(mask) && AltOk(alt, thread.minSize) && thread.alt == Disarmed(alt)
    modifies ctx, thread
    ensures ctx.View() == Returned(u) && !ctx.inSyscall
    ensures thread.Valid() && thread.blocked == mask && thread.alt == alt
    ensures thread.needRestore == old(thread.needRestore)
  {
    hide ClearReserved, EntersUser, Parse, Word, VregsFrom, VregBytes, EncodeAll, AltOk;
    ghost var tail :| frame.reserved == EncodeAll([FpsimdRec(u.fpsr, u.fpcr, u.vregs)]) + TERMINATOR + tail;
    BuiltRecords(u, tail);
    AltRoundTrip(alt, u.sp, thread.minSize);
    var segv := RtSigreturn(ctx, frame, thread, true);
    assert !segv;
  }

  lemma EntryAligned(u: User, ksig: KSignal, alt: AltStack)
    requires UserOk(u) && ksig.sig < U64
    ensures HandlerEntry(u, ksig, alt).sp % 16 == 0
  {
  }
}
