/** Why a step traps, by the numbers: the cause code each reason has, the bad address, and the handler. */
module Causes {
  import opened Words
  import opened Memory
  import opened Mmu
  import opened Cpu
  import opened Privilege

  datatype Reason =
    | UntranslatedFetch | UntranslatedLoad | UntranslatedStore
    | OutsideMemory | Misaligned | SupervisorRegister
    | IllegalInstruction | PrivilegedInstruction | ZeroDivisor | SystemCall

  function Number(r: Reason): Word {
    match r
    case IllegalInstruction => 0
    case PrivilegedInstruction => 0
    case Misaligned => 1
    case OutsideMemory => 2
    case SupervisorRegister => 2
    case SystemCall => 3
    case ZeroDivisor => 4
    case UntranslatedFetch => 7
    case UntranslatedLoad => 8
    case UntranslatedStore => 9
  }

  /** A word that is no instruction: an opcode above 0x3F, or a branch with a condition above 10. */
  predicate Illegal(w: Word) {
    w / 0x100_0000 > 0x3F || (w / 0x100_0000 == 0x0D && w / 0x10_0000 % 16 > 10)
  }

  /** DIV, DIVU, MOD or MODU. */
  predicate Divides(w: Word) {
    var op := w / 0x100_0000;
    op == 0x0A || op == 0x24 || op == 0x25 || op == 0x26
  }

  /** Why a fetch from `pc` fails. */
  function WhyNoFetch(mode: Mode, s: State, pc: Word): Option<Reason> {
    match Xlated(mode, s, pc, Fetch).pa
    case None => Some(UntranslatedFetch)
    case Some(a) => if a >= 0x0400_0000 then Some(OutsideMemory) else None
  }

  /** Why an access of `n` bytes to `va` fails; supervisor registers end at `last`. */
  function WhyNoAccess(x: Option<Word>, user: bool, n: Width, last: Word, untranslated: Reason): Option<Reason> {
    match x
    case None => Some(untranslated)
    case Some(a) =>
      if a >= 0x0400_0000 then Some(OutsideMemory)
      else if a % n != 0 then Some(Misaligned)
      else if user && 0x03FF_F000 <= a <= last then Some(SupervisorRegister)
      else None
  }

  /** Why the instruction word `w`, decoded as `op`, traps in state `t`. */
  function WhyOp(mode: Mode, t: State, w: Word, op: Op): Option<Reason> {
    var user := t.core.User();
    if Illegal(w) then Some(IllegalInstruction)
    else if Divides(w) && t.core.r[w / 0x1000 % 16] == 0 then Some(ZeroDivisor)
    else match op
    case LoadOp(_, va, n, _) =>
      WhyNoAccess(Xlated(mode, t, va, Load).pa, user, n, 0x03FF_F01C, UntranslatedLoad)
    case StoreOp(va, n, _) =>
      WhyNoAccess(Xlated(mode, t, va, Access.Store).pa, user, n, 0x03FF_F020, UntranslatedStore)
    case Cas(rd, addr, _) =>
      if addr % 4 != 0 then Some(Misaligned)
      else if addr >= 0x0400_0000 then Some(OutsideMemory)
      else if user && 0x03FF_F000 <= addr <= 0x03FF_F020 && (addr == 0x03FF_F020 ==> t.core.r[rd] == 0) then
        Some(SupervisorRegister)
      else None
    case Syscall => Some(SystemCall)
    case Sfence => if user then Some(PrivilegedInstruction) else None
    case Sysret => if user then Some(PrivilegedInstruction) else None
    case Kret => if user then Some(PrivilegedInstruction) else None
    case _ => None
  }

  /** Why the step traps, if it does. */
  function Why(mode: Mode, s: State): Option<Reason> {
    match Fetched(mode, s).1
    case None => WhyNoFetch(mode, s, s.core.r[15])
    case Some(w) => var (t, op) := Executed(mode, s); WhyOp(mode, t, w, op)
  }

  /** The address a page fault is about. */
  function FaultAddress(mode: Mode, s: State): Word {
    var why, op := Why(mode, s), Executed(mode, s).1;
    if why == Some(UntranslatedFetch) then s.core.r[15]
    else if why == Some(UntranslatedLoad) && op.LoadOp? then op.va
    else if why == Some(UntranslatedStore) && op.StoreOp? then op.va
    else s.core.badaddr
  }

  /** The word of the vector table for cause `n`. */
  function HandlerWord(mem: Mem, evec: Word, n: Word): Word {
    var at := (evec + 4 * n) % 0x1_0000_0000;
    if at < 0x0400_0000 then Read32(mem, at) else 0
  }

  /* ---- Decoding ---- */

  lemma DecodedFaults(c: Core, pc: Word, w: Word)
    ensures var op := Decode(c, pc, w);
      op.Fault? <==> Illegal(w) || (Divides(w) && c.r[w / 0x1000 % 16] == 0)
    ensures var op := Decode(c, pc, w);
      op.Fault? ==> op.cause == if Illegal(w) then 0 else 4
  {
    hide AddOp, SubOp, Logical, Scaled, Lsl, Lsr, Asr, Rol, Ror, And, OrW, XorW, TruncDiv, TruncMod, SignExtend,
         Taken, Wrap, Signed;
  }

  /* ---- One instruction ---- */

  /** What a trap leaves of cause and bad address. */
  predicate CausedBy(c: Core, d: Core, cause: Word, badaddr: Word) {
    d.cause == cause && d.badaddr == badaddr
  }

  lemma ReadCause(mode: Mode, s: State, va: Word, n: Width)
    ensures var why := WhyNoAccess(Xlated(mode, s, va, Load).pa, s.core.User(), n, 0x03FF_F01C, UntranslatedLoad);
      && (AccessTraps(mode, s, va, n, Load) <==> why.Some?)
      && (why.Some? ==> CausedBy(s.core, CpuRead(mode, s, va, n).0.core, Number(why.value),
                                 if why == Some(UntranslatedLoad) then va else s.core.badaddr))
  {
    hide Xlated, ReadN, Vector, Read32;
  }

  lemma WriteCause(mode: Mode, s: State, va: Word, n: Width, v: Word)
    ensures var why := WhyNoAccess(Xlated(mode, s, va, Access.Store).pa, s.core.User(), n, 0x03FF_F020,
        UntranslatedStore);
      && (AccessTraps(mode, s, va, n, Access.Store) <==> why.Some?)
      && (why.Some? ==> CausedBy(s.core, CpuWrite(mode, s, va, n, v).core, Number(why.value),
                                 if why == Some(UntranslatedStore) then va else s.core.badaddr))
  {
    hide Xlated, WriteN, Vector, DeviceWrite, SupervisorWrite, FlushNonGlobal;
  }

  lemma CasCause(s: State, rd: Reg, addr: Word, rs2: Reg)
    requires CasTraps(s.core, rd, addr)
    ensures CausedBy(s.core, ExecuteCas(s, rd, addr, rs2).core, if addr % 4 != 0 then 1 else 2, s.core.badaddr)
  {
    hide Read32, Write32, Vector, DeviceWrite, FlushNonGlobal, OrW, And;
  }

  /** The instruction traps exactly when there is a reason, and then with the reason's number. */
  lemma OpCause(mode: Mode, t: State, pc: Word, w: Word)
    ensures var op := Decode(t.core, pc, w);
      var why := WhyOp(mode, t, w, op);
      && (OpTraps(mode, t, op) <==> why.Some?) && why != Some(UntranslatedFetch)
      && (why.Some? ==>
            CausedBy(t.core, Execute(mode, t, op).core, Number(why.value),
                     if why == Some(UntranslatedLoad) && op.LoadOp? then op.va
                     else if why == Some(UntranslatedStore) && op.StoreOp? then op.va else t.core.badaddr))
  {
    hide Decode, CpuRead, CpuWrite, ExecuteCas, Xlated, AccessTraps, WhyNoAccess, Illegal, Divides, Vector;
    DecodedFaults(t.core, pc, w);
    match Decode(t.core, pc, w)
    case LoadOp(rd, va, n, _) =>
      ReadCause(mode, t, va, n);
      AccessReasons(Xlated(mode, t, va, Load).pa, t.core.User(), n, 0x03FF_F01C, UntranslatedLoad);
    case StoreOp(va, n, v) =>
      WriteCause(mode, t, va, n, v);
      AccessReasons(Xlated(mode, t, va, Access.Store).pa, t.core.User(), n, 0x03FF_F020, UntranslatedStore);
    case Cas(rd, addr, rs2) =>
      if CasTraps(t.core, rd, addr) {
        CasCause(t, rd, addr, rs2);
      }
    case _ =>
  }

  lemma AccessReasons(x: Option<Word>, user: bool, n: Width, last: Word, untranslated: Reason)
    ensures WhyNoAccess(x, user, n, last, untranslated)
            in {None, Some(untranslated), Some(OutsideMemory), Some(Misaligned), Some(SupervisorRegister)}
  {
  }

  /* ---- One step ---- */

  lemma FetchCause(mode: Mode, s: State)
    ensures var (t, w) := Fetched(mode, s);
      var why := WhyNoFetch(mode, s, s.core.r[15]);
      && (w.None? <==> why.Some?)
      && if w.None? then
           CausedBy(s.core, t.core, Number(why.value),
                    if why == Some(UntranslatedFetch) then s.core.r[15] else s.core.badaddr)
         else t.core.badaddr == s.core.badaddr
  {
    hide CachedTranslate, WalkTranslate, Read32, Vector;
  }

  lemma TickPollKeepsAddress(c: Core, rx: Option<Byte>)
    ensures Poll(Tick(c), rx).badaddr == c.badaddr
  {
    hide OrW;
  }

  lemma StepKeepsAddress(mode: Mode, s: State, rx: Option<Byte>)
    ensures Step(mode, s, rx).core.badaddr == AfterInstruction(mode, s).core.badaddr
  {
    hide Fetched, Decode, Execute, Tick, Poll, Vector, IrqDue;
    TickPollKeepsAddress(AfterInstruction(mode, s).core, rx);
  }

  lemma HandlerIsVector(mem: Mem, evec: Word, n: Word)
    ensures HandlerWord(mem, evec, n) == Vector(mem, evec, n)
  {
    hide Read32;
    assert evec + 4 * n == evec + n * 4;
  }

  /** Main result, for every state, mode and instruction: a step traps exactly when there is a reason; CAUSE is then
      the reason's number, BADADDR the faulting address for a page fault and unchanged for anything else, and PC is
      the word at EVEC + 4 times the number, unless the instruction was a load into PC, which clears it. */
  lemma StepCause(mode: Mode, s: State, rx: Option<Byte>)
    requires CleanStep(mode, s)
    ensures StepTraps(mode, s) <==> Why(mode, s).Some?
    ensures Why(mode, s).Some? ==>
      var (t, op) := Executed(mode, s);
      var q := Step(mode, s, rx);
      && q.core.cause == Number(Why(mode, s).value)
      && q.core.badaddr == FaultAddress(mode, s)
      && q.core.r[15] == (if Cleared(t.core, op) == Some(15) then 0
                          else HandlerWord(q.mem, s.core.evec, Number(Why(mode, s).value)))
  {
    hide Fetched, Decode, Execute, Step, OpTraps, WhyOp, WhyNoFetch, Vector, HandlerWord, StepInterrupted,
         CasOverwrites, Xlated;
    FetchCause(mode, s);
    FetchOutcome(mode, s);
    var (t, w) := Fetched(mode, s);
    var (t1, op) := Executed(mode, s);
    if w.Some? {
      OpCause(mode, t, s.core.r[15], w.value);
    }
    if StepTraps(mode, s) {
      var q := Step(mode, s, rx);
      TrapStep(mode, s, rx);
      InterruptStep(mode, s, rx);
      StepKeepsAddress(mode, s, rx);
      HandlerIsVector(q.mem, s.core.evec, q.core.cause);
      EntryPc(t1.core, op, q.core, q.mem);
    }
  }

  /** An interrupt has cause 6, leaves BADADDR to the instruction before it and goes to the seventh handler. */
  lemma InterruptCause(mode: Mode, s: State, rx: Option<Byte>)
    requires StepInterrupted(mode, s, rx)
    ensures var u, q := AfterInstruction(mode, s), Step(mode, s, rx);
      q.core.cause == 6 && q.core.badaddr == u.core.badaddr && q.core.r[15] == HandlerWord(q.mem, u.core.evec, 6)
  {
    hide Fetched, Decode, Execute, Step, Vector, HandlerWord, StepInterrupted, AfterInstruction;
    InterruptStep(mode, s, rx);
    StepKeepsAddress(mode, s, rx);
    HandlerIsVector(Step(mode, s, rx).mem, AfterInstruction(mode, s).core.evec, 6);
  }
}
