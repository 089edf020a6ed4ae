/**
 The restart of an interrupted system call: arch_do_signal's two-phase adjustment of x0,
 x8 and the program counter, against a table of what the program is meant to see.
 */
module SignalRestart {
  import opened Options
  import opened SignalFrame
  import opened SignalDelivery
  import opened SignalLayout
  import opened SignalRecords

  const ERR_RESTART_IF_SIGNAL := 600
  const ERR_RESTART_ALWAYS := 601
  const ERR_RESTART_IF_NO_HANDLER := 602
  const ERR_RESTART_WITH_BLOCK := 603
  const EINTR := 4
  const NR_RESTART_SYSCALL := 128
  const INSN_SIZE := 4

  /** A 64-bit register assigned to a C int: its low 32 bits, signed. */
  function ToInt(x: u64): (r: int)
    ensures -0x8000_0000 <= r < 0x8000_0000
  {
    var low := x % 0x1_0000_0000;
    if low < 0x8000_0000 then low else low - 0x1_0000_0000
  }

  /** A negative C int assigned to a 64-bit register. */
  function Negative(code: nat): u64
    requires 0 < code < 0x8000_0000
  {
    U64 - code
  }

  predicate IsRestart(code: int) {
    code == ERR_RESTART_IF_SIGNAL || code == ERR_RESTART_ALWAYS ||
    code == ERR_RESTART_IF_NO_HANDLER || code == ERR_RESTART_WITH_BLOCK
  }

  /** What becomes of a system call that returned `-code`. */
  datatype Outcome = Finished | Again | AgainFromBlock | Interrupted

  /** The table: by code, by whether a handler runs, and by its SA_RESTART flag. */
  function Decide(code: int, handler: Option<KSignal>): Outcome {
    if !IsRestart(code) then Finished
    else match handler
      case None => if code == ERR_RESTART_WITH_BLOCK then AgainFromBlock else Again
      case Some(ksig) =>
        if code == ERR_RESTART_ALWAYS || (code == ERR_RESTART_IF_SIGNAL && ksig.restart) then Again else Interrupted
  }

  /** What the program is to see once the signal has been dealt with. */
  function Resumed(u: User, origX0: u64, outcome: Outcome): (r: User)
    requires UserOk(u)
    ensures UserOk(r)
  {
    match outcome
    case Finished => u
    case Again => u.(regs := u.regs[0 := origX0], pc := Sub64(u.pc, INSN_SIZE))
    case AgainFromBlock => u.(regs := u.regs[0 := origX0][8 := NR_RESTART_SYSCALL], pc := Sub64(u.pc, INSN_SIZE))
    case Interrupted => u.(regs := u.regs[0 := Negative(EINTR)])
  }

  function OutcomeOf(u: User, inSyscall: bool, handler: Option<KSignal>): Outcome
    requires UserOk(u)
  {
    if inSyscall then Decide(-ToInt(u.regs[0]), handler) else Finished
  }

  /** What SetupRestart leaves of the program: all but the number of a restart from a block. */
  function Rewound(u: User, origX0: u64, code: int): (r: User)
    requires UserOk(u)
    ensures UserOk(r)
  {
    Resumed(u, origX0, if Decide(code, None) == AgainFromBlock then Again else Decide(code, None))
  }

  /**
   setup_syscall_restart: the context becomes what the table says for a call that no handler
   interrupts, but for the number of a restart from a block, which is put in later.
   */
  method SetupRestart(ctx: ArchContext, restart: u64, retval: int)
    requires ctx.Valid() && restart == Sub64(ctx.elr, INSN_SIZE)
    modifies ctx`regs, ctx`elr
    ensures ctx.View() == Rewound(old(ctx.View()), ctx.origX0, -retval)
  {
    if IsRestart(-retval) {
      ctx.regs := ctx.regs[0 := ctx.origX0];
      ctx.elr := restart;
    }
  }

  /** restart_to_eintr. */
  method RestartToEintr(ctx: ArchContext, continue': u64, restart: u64, retval: int, ksig: KSignal)
    requires ctx.Valid()
    modifies ctx`regs, ctx`elr
    ensures ctx.View() ==
            if old(ctx.elr) == restart && IsRestart(-retval) && Decide(-retval, Some(ksig)) == Interrupted
            then old(ctx.View()).(regs := old(ctx.regs)[0 := Negative(EINTR)], pc := continue') else old(ctx.View())
  {
    if ctx.elr == restart &&
       (retval == -ERR_RESTART_IF_NO_HANDLER || retval == -ERR_RESTART_WITH_BLOCK ||
        (retval == -ERR_RESTART_IF_SIGNAL && !ksig.restart)) {
      ctx.regs := ctx.regs[0 := Negative(EINTR)];
      ctx.elr := continue';
    }
  }

  /** Nothing changes but x0, x8 and the program counter. */
  lemma ResumedElse(u: User, origX0: u64, outcome: Outcome)
    requires UserOk(u)
    ensures var r := Resumed(u, origX0, outcome);
            && r.sp == u.sp && r.cpsr == u.cpsr && r.vregs == u.vregs && r.fpsr == u.fpsr && r.fpcr == u.fpcr
            && forall i :: 1 <= i < 31 && i != 8 ==> r.regs[i] == u.regs[i]
  {
  }

  /** Every register but x0 and x8, which become `x0` and `x8`, and the program counter, which becomes `pc`. */
  predicate Becomes(was: User, now: seq<u64>, nowPc: u64, x0: u64, x8: u64, pc: u64) {
    && |was.regs| == |now| == 31 && now[0] == x0 && now[8] == x8 && nowPc == pc
    && forall i :: 1 <= i < 31 && i != 8 ==> now[i] == was.regs[i]
  }

  /** Four bytes back. */
  function Back(pc: u64): u64 {
    if pc >= 4 then pc - 4 else pc + 0xFFFF_FFFF_FFFF_FFFC
  }

  /**
   A system call that a handler interrupts, in numbers: -600 is made again with SA_RESTART and is
   EINTR without, -601 is made again, -602 and -603 are EINTR, and any other result stands.
   */
  predicate HandledCall(was: User, origX0: u64, restart: bool, now: seq<u64>, nowPc: u64)
    requires UserOk(was)
  {
    var x0, x8, pc := was.regs[0], was.regs[8], was.pc;
    if x0 == 0xFFFF_FFFF_FFFF_FDA8 && restart then Becomes(was, now, nowPc, origX0, x8, Back(pc))
    else if x0 == 0xFFFF_FFFF_FFFF_FDA8 then Becomes(was, now, nowPc, 0xFFFF_FFFF_FFFF_FFFC, x8, pc)
    else if x0 == 0xFFFF_FFFF_FFFF_FDA7 then Becomes(was, now, nowPc, origX0, x8, Back(pc))
    else if x0 == 0xFFFF_FFFF_FFFF_FDA6 then Becomes(was, now, nowPc, 0xFFFF_FFFF_FFFF_FFFC, x8, pc)
    else if x0 == 0xFFFF_FFFF_FFFF_FDA5 then Becomes(was, now, nowPc, 0xFFFF_FFFF_FFFF_FFFC, x8, pc)
    else x0 % 0x1_0000_0000 !in {0xFFFF_FDA8, 0xFFFF_FDA7, 0xFFFF_FDA6, 0xFFFF_FDA5} ==> Becomes(was, now, nowPc, x0, x8, pc)
  }

  /** And one that no handler interrupts: the first three are made again, and -603 as system call 128. */
  predicate UnhandledCall(was: User, origX0: u64, now: seq<u64>, nowPc: u64)
    requires UserOk(was)
  {
    var x0, x8, pc := was.regs[0], was.regs[8], was.pc;
    if x0 == 0xFFFF_FFFF_FFFF_FDA8 || x0 == 0xFFFF_FFFF_FFFF_FDA7 || x0 == 0xFFFF_FFFF_FFFF_FDA6
    then Becomes(was, now, nowPc, origX0, x8, Back(pc))
    else if x0 == 0xFFFF_FFFF_FFFF_FDA5 then Becomes(was, now, nowPc, origX0, 128, Back(pc))
    else x0 % 0x1_0000_0000 !in {0xFFFF_FDA8, 0xFFFF_FDA7, 0xFFFF_FDA6, 0xFFFF_FDA5} ==> Becomes(was, now, nowPc, x0, x8, pc)
  }

  /** The table in numbers. */
  lemma InNumbers(u: User, origX0: u64, ksig: KSignal)
    requires UserOk(u)
    ensures var r := Resumed(u, origX0, OutcomeOf(u, true, Some(ksig))); HandledCall(u, origX0, ksig.restart, r.regs, r.pc)
    ensures Resumed(u, origX0, OutcomeOf(u, false, Some(ksig))) == u
  {
    BackIs(u.pc);
    CodeOf(u.regs[0]);
    hide Sub64, ToInt;
  }

  lemma InNumbersAlone(u: User, origX0: u64)
    requires UserOk(u)
    ensures var r := Resumed(u, origX0, OutcomeOf(u, true, None)); UnhandledCall(u, origX0, r.regs, r.pc)
    ensures Resumed(u, origX0, OutcomeOf(u, false, None)) == u
  {
    BackIs(u.pc);
    CodeOf(u.regs[0]);
    hide Sub64, ToInt;
  }

  lemma InNumbersFor(u: User, origX0: u64, pending: Option<KSignal>)
    requires UserOk(u)
    ensures var r := Resumed(u, origX0, OutcomeOf(u, true, pending));
            if pending.Some? then HandledCall(u, origX0, pending.value.restart, r.regs, r.pc)
            else UnhandledCall(u, origX0, r.regs, r.pc)
  {
    hide HandledCall, UnhandledCall, Resumed, OutcomeOf;
    if pending.Some? {
      InNumbers(u, origX0, pending.value);
    } else {
      InNumbersAlone(u, origX0);
    }
  }

  lemma BackIs(pc: u64)
    ensures Sub64(pc, INSN_SIZE) == Back(pc)
  {
  }

  lemma CodeOf(x0: u64)
    ensures x0 == 0xFFFF_FFFF_FFFF_FDA8 ==> ToInt(x0) == -600
    ensures x0 == 0xFFFF_FFFF_FFFF_FDA7 ==> ToInt(x0) == -601
    ensures x0 == 0xFFFF_FFFF_FFFF_FDA6 ==> ToInt(x0) == -602
    ensures x0 == 0xFFFF_FFFF_FFFF_FDA5 ==> ToInt(x0) == -603
    ensures x0 % 0x1_0000_0000 !in {0xFFFF_FDA8, 0xFFFF_FDA7, 0xFFFF_FDA6, 0xFFFF_FDA5} ==> !IsRestart(-ToInt(x0))
  {
  }

  lemma ResumedFinished(u: User, origX0: u64)
    requires UserOk(u)
    ensures Resumed(u, origX0, Finished) == u && !IsRestart(0)
  {
  }

  /** With a handler, turning the codes that it cuts short into EINTR completes the table. */
  lemma Signalled(u: User, origX0: u64, code: int, ksig: KSignal)
    requires UserOk(u)
    ensures var r := Rewound(u, origX0, code);
            Resumed(u, origX0, Decide(code, Some(ksig))) ==
            if r.pc == Sub64(u.pc, INSN_SIZE) && IsRestart(code) && Decide(code, Some(ksig)) == Interrupted
            then r.(regs := r.regs[0 := Negative(EINTR)], pc := u.pc) else r
  {
    assert u.regs[0 := origX0][0 := Negative(EINTR)] == u.regs[0 := Negative(EINTR)];
  }

  /** Without one, the number of the restart does. */
  lemma Retried(u: User, origX0: u64, code: int)
    requires UserOk(u)
    ensures var r := Rewound(u, origX0, code);
            Resumed(u, origX0, Decide(code, None)) ==
            if r.pc == Sub64(u.pc, INSN_SIZE) && code == ERR_RESTART_WITH_BLOCK
            then r.(regs := r.regs[8 := NR_RESTART_SYSCALL]) else r
  {
  }

  /** The part of arch_do_signal before signals are looked for. */
  method FirstPhase(ctx: ArchContext) returns (wasIn: bool, continue': u64, restart: u64, retval: int)
    requires ctx.Valid()
    modifies ctx`inSyscall, ctx`regs, ctx`elr
    ensures wasIn == old(ctx.inSyscall) && !ctx.inSyscall && ctx.Valid()
    ensures if wasIn then
              && continue' == old(ctx.elr) && restart == Sub64(continue', INSN_SIZE) && retval == ToInt(old(ctx.regs)[0])
              && ctx.View() == Rewound(old(ctx.View()), ctx.origX0, -retval)
            else retval == 0 && ctx.View() == old(ctx.View())
  {
    hide Rewound, ToInt;
    wasIn := ctx.inSyscall;
    continue', restart, retval := 0, 0, 0;
    if wasIn {
      continue', restart := ctx.elr, Sub64(ctx.elr, INSN_SIZE);
      retval := ToInt(ctx.regs[0]);
      ctx.inSyscall := false;
      SetupRestart(ctx, restart, retval);
    }
  }

  /**
   arch_do_signal. `pending` is the signal that signal_fetch_deliverable found a handler for.
   With none, the context itself is adjusted and the mask put back; with one, the adjusted
   state is what the frame holds for the return.
   */
  method DoSignal(ctx: ArchContext, thread: Thread, pending: Option<KSignal>, writable: bool) returns (frame: Frame?)
    requires ctx.Valid() && thread.Valid() && (pending.Some? ==> pending.value.sig < U64)
    modifies ctx, thread
    ensures ctx.Valid() && thread.Valid() && ctx.origX0 == old(ctx.origX0) && !ctx.inSyscall
    ensures var u := Resumed(old(ctx.View()), old(ctx.origX0), OutcomeOf(old(ctx.View()), old(ctx.inSyscall), pending));
            if pending.None? then
              frame == null && ctx.View() == u && thread.blocked == old(thread.SaveTarget()) && !thread.needRestore
              && thread.alt == old(thread.alt)
            else if writable then
              var ksig := pending.value;
              frame != null && fresh(frame) && frame.addr == ctx.sp
              && frame.Holds(u, old(thread.SaveTarget()), old(thread.alt))
              && (var entry := HandlerEntry(u, ksig, old(thread.alt));
                  ctx.View() == entry.(cpsr := Validated(entry.cpsr)))
              && thread.blocked == (old(thread.blocked) + ksig.mask + (if ksig.noDefer then {} else {ksig.sig}))
                                   - {SIGKILL, SIGSTOP}
              && !thread.needRestore && thread.alt == Disarmed(old(thread.alt))
            else frame == null && ctx.View() == u && thread.blocked == old(thread.blocked)
    ensures old(ctx.inSyscall) && pending.None? ==> UnhandledCall(old(ctx.View()), old(ctx.origX0), ctx.regs, ctx.elr)
    ensures old(ctx.inSyscall) && pending.Some? && writable ==>
              frame != null && HandledCall(old(ctx.View()), old(ctx.origX0), pending.value.restart, frame.regs, frame.pc)
  {
    hide Validated, HandlerEntry, Disarmed, AltOk, Resumed, Decide, IsRestart, ToInt, Maskable;
    hide HandledCall, UnhandledCall, FramePlaced, HandlerBits;
    ghost var u := ctx.View();
    InNumbersFor(u, ctx.origX0, pending);
    ResumedFinished(u, ctx.origX0);
    Retried(u, ctx.origX0, -ToInt(u.regs[0]));
    var wasIn, continue', restart, retval := FirstPhase(ctx);
    if pending.Some? {
      Signalled(u, ctx.origX0, -ToInt(u.regs[0]), pending.value);
      RestartToEintr(ctx, continue', restart, retval, pending.value);
      frame := EnterHandler(pending.value, ctx, thread, writable);
      return;
    }
    if wasIn && ctx.elr == restart && retval == -ERR_RESTART_WITH_BLOCK {
      ctx.regs := ctx.regs[8 := NR_RESTART_SYSCALL];
    }
    thread.RestoreSaved();
    frame := null;
  }

  /**
   A whole interruption: the signal is taken, its handler runs and leaves any registers
   (`left`) and any mask (`leftMask`), and rt_sigreturn brings the program back. It sees
   the outcome that the table gives, its own mask and its own alternate stack.
   */
  method Interruption(ctx: ArchContext, thread: Thread, ksig: KSignal, left: User, leftMask: SigSet)
    requires ctx.Valid() && thread.Valid() && ksig.sig < U64 && EntersUser(ctx.cpsr)
    requires UserOk(left) && Maskable(leftMask)
    modifies ctx, thread
    ensures var u := old(ctx.View());
            ctx.View() == Returned(Resumed(u, old(ctx.origX0), OutcomeOf(u, old(ctx.inSyscall), Some(ksig))))
    ensures thread.Valid() && thread.blocked == old(thread.SaveTarget()) && !thread.needRestore
    ensures thread.alt == old(thread.alt) && !ctx.inSyscall
    ensures BitsKept(old(ctx.cpsr), ctx.cpsr)
    ensures if old(ctx.inSyscall) then HandledCall(old(ctx.View()), old(ctx.origX0), ksig.restart, ctx.regs, ctx.elr)
            else ctx.regs == old(ctx.regs) && ctx.elr == old(ctx.elr)
  {
    hide HandledCall, UnhandledCall, FramePlaced, HandlerBits, BitsKept, ClearReserved, Resumed;
    hide Validated, HandlerEntry, Disarmed, AltOk, Decide, ToInt, EntersUser, Maskable;
    InNumbers(ctx.View(), ctx.origX0, ksig);
    ReturnBits(ctx.cpsr);
    ResumedElse(ctx.View(), ctx.origX0, OutcomeOf(ctx.View(), ctx.inSyscall, Some(ksig)));
    ghost var u := Resumed(ctx.View(), ctx.origX0, OutcomeOf(ctx.View(), ctx.inSyscall, Some(ksig)));
    ghost var mask, alt := thread.SaveTarget(), thread.alt;
    var frame := DoSignal(ctx, thread, Some(ksig), true);
    EntryAligned(u, ksig, alt);

    // the handler runs, and the trampoline issues rt_sigreturn
    ctx.regs, ctx.elr, ctx.cpsr, ctx.vregs, ctx.fpsr, ctx.fpcr := left.regs, left.pc, left.cpsr, left.vregs, left.fpsr, left.fpcr;
    ctx.inSyscall := true;
    thread.blocked := leftMask;

    MatchingReturn(ctx, thread, frame, u, mask, alt);
  }

  // ------------------------------------------------------------------ the cut to a C int

  /**
   The result register is read as a C int. That tells a restart code from any other 64-bit
   result exactly unless only the low half of the register looks like a restart code.
   */
  lemma ReadAsInt(x0: u64)
    ensures (IsRestart(-ToInt(x0)) <==> IsRestart(U64 - x0))
            <==> !(IsRestart(0x1_0000_0000 - x0 % 0x1_0000_0000) && x0 / 0x1_0000_0000 != 0xFFFF_FFFF)
  {
    var high, low := x0 / 0x1_0000_0000, x0 % 0x1_0000_0000;
    assert x0 == high * 0x1_0000_0000 + low && high <= 0xFFFF_FFFF;
    LowHalf(high, low);
  }

  lemma LowHalf(high: nat, low: nat)
    requires low < 0x1_0000_0000 && high <= 0xFFFF_FFFF
    ensures IsRestart(U64 - (high * 0x1_0000_0000 + low)) <==> IsRestart(0x1_0000_0000 - low) && high == 0xFFFF_FFFF
  {
  }

  /** So a call that succeeded with 0xFFFFFDA8 is made again. */
  lemma SuccessMadeAgain(u: User, origX0: u64)
    requires UserOk(u) && u.regs[0] == 0xFFFF_FDA8
    ensures !IsRestart(U64 - u.regs[0])
    ensures OutcomeOf(u, true, None) == Again && Resumed(u, origX0, Again).regs[0] == origX0
  {
  }
}
