/** The timer preempts: with its interrupt armed, user code runs for at most `count` steps. */
module Preemption {
  import opened Words
  import opened Memory
  import opened Mmu
  import opened Cpu
  import opened Privilege

  /* ---- Expiry times ---- */

  function AfterTicks(t: Timer, n: nat): Timer {
    if n == 0 then t else TimerTick(AfterTicks(t, n - 1)).0
  }

  /** Does the n-th tick from `t` (counting from 1) expire? */
  predicate ExpiresAt(t: Timer, n: nat)
    requires n >= 1
  {
    TimerTick(AfterTicks(t, n - 1)).1
  }

  /** From count c with period P the enabled timer expires at ticks c, c+P, c+2P, ... and at no other. */
  lemma ExpiryTimes(t: Timer, n: nat)
    requires t.control % 4 == 3 && t.count >= 1 && t.period >= 1 && n >= 1
    ensures ExpiresAt(t, n) <==> n >= t.count && (n - t.count) % t.period == 0
  {
    CountAfter(t, n - 1);
    hide AfterTicks, Bit;
    var u := AfterTicks(t, n - 1);
    assert Bit(u.control, 2) && u.control % 2 == 1 by { IrqBit(u.control); }
    if n > t.count {
      NextMod(n - 1 - t.count, t.period);
    } else if n == t.count {
      DivUnique(0, t.period, 0, 0);
    }
  }

  lemma IrqBit(w: Word)
    requires w % 4 == 3
    ensures Bit(w, 2) && w % 2 == 1
  {
    DivUnique(w, 2, w / 4 * 2 + 1, 1);
    DivUnique(w / 4 * 2 + 1, 2, w / 4, 1);
  }

  lemma NextMod(k: nat, p: nat)
    requires p >= 1
    ensures (k + 1) % p == if k % p == p - 1 then 0 else k % p + 1
    ensures k % p < p
  {
    var q, m := k / p, k % p;
    var t := q * p;
    assert k == t + m;
    if m == p - 1 {
      assert (q + 1) * p == t + p;
      DivUnique(k + 1, p, q + 1, 0);
    } else {
      DivUnique(k + 1, p, q, m + 1);
    }
  }

  lemma {:induction false} CountAfter(t: Timer, n: nat)
    requires t.control % 4 == 3 && t.count >= 1 && t.period >= 1
    ensures var u := AfterTicks(t, n);
      u.control == t.control && u.period == t.period && u.count >= 1
      && u.count == if n < t.count then t.count - n else t.period - (n - t.count) % t.period
  {
    if n == 0 {
    } else {
      CountAfter(t, n - 1);
      if n > t.count {
        NextMod(n - 1 - t.count, t.period);
      } else if n == t.count {
        DivUnique(0, t.period, 0, 0);
      }
    }
  }

  /** Every iteration ticks exactly once, whichever path it takes: fetch fault, trap, KRET, interrupt. */
  lemma OneTickPerStep(mode: Mode, s: State, rx: Option<Byte>)
    ensures Step(mode, s, rx).core.timer == TimerTick(AfterInstruction(mode, s).core.timer).0
  {
    hide Fetched, Decode, Execute, TimerTick, OrW, And, Vector;
  }

  /* ---- Bounded preemption ---- */

  /** User mode, interrupts on, timer and its interrupt enabled and unmasked. */
  predicate Armed(c: Core) {
    c.User() && c.InterruptsEnabled() && c.timer.control % 4 == 3 && c.icMask % 2 == 1 && c.timer.count >= 1
  }

  predicate TimerOrIcRegister(pa: Word) {
    TIMER_BASE <= pa < TIMER_BASE + 8 || IC_BASE <= pa < IC_BASE + 0xC
  }

  /** The step does not write a timer or interrupt-controller register. */
  predicate SparesTimer(mode: Mode, s: State) {
    var (t, op) := Executed(mode, s);
    match op
    case StoreOp(va, n, v) =>
      var (u, pa) := Translate(mode, t, va, Access.Store);
      pa.Some? ==> !TimerOrIcRegister(pa.value)
    case Cas(rd, addr, rs2) => !TimerOrIcRegister(addr)
    case _ => true
  }

  predicate SameTimer(c: Core, d: Core) {
    d.timer == c.timer && d.icMask == c.icMask
  }

  lemma MmioWriteSpares(s: State, a: Word, v: Word)
    requires !TimerOrIcRegister(a)
    ensures SameTimer(s.core, MmioWrite(s, a, v).core) && MmioWrite(s, a, v).core.halted == s.core.halted
  {
    hide And, OrW, Vector;
  }

  lemma CasSpares(s: State, rd: Reg, addr: Word, rs2: Reg)
    requires !TimerOrIcRegister(addr)
    ensures SameTimer(s.core, ExecuteCas(s, rd, addr, rs2).core)
  {
    hide And, OrW, Vector, Read32, Write32, TimerOrIcRegister, MmioWrite, MmioRead;
    if MMIO_BASE <= addr < MEM_SIZE {
      MmioReadSpares(s.core, s.mem, addr);
      var c := MmioRead(s.core, s.mem, addr).0;
      MmioWriteSpares(s.(core := c), addr, c.r[rs2]);
    }
  }

  lemma MmioReadSpares(c: Core, mem: Mem, a: Word)
    ensures SameTimer(c, MmioRead(c, mem, a).0)
  {
    hide Vector;
  }

  lemma ReadSpares(mode: Mode, s: State, va: Word, n: Width)
    ensures SameTimer(s.core, CpuRead(mode, s, va, n).0.core)
  {
    hide Translate, Xlated, Vector, ReadN, MmioRead;
    TranslateOutcome(mode, s, va, Load);
    var (t, pa) := Translate(mode, s, va, Load);
    if pa.Some? {
      MmioReadSpares(t.core, t.mem, pa.value);
    }
  }

  lemma WriteSpares(mode: Mode, s: State, va: Word, n: Width, v: Word)
    requires var (u, pa) := Translate(mode, s, va, Access.Store);
      pa.Some? ==> !TimerOrIcRegister(pa.value)
    ensures SameTimer(s.core, CpuWrite(mode, s, va, n, v).core)
  {
    hide Translate, Xlated, Vector, WriteN, TimerOrIcRegister, MmioWrite;
    TranslateOutcome(mode, s, va, Access.Store);
    var (t, pa) := Translate(mode, s, va, Access.Store);
    if pa.Some? {
      MmioWriteSpares(t, pa.value, v % Modulus(n));
    }
  }

  lemma ExecuteSpares(mode: Mode, s: State, op: Op)
    requires match op
      case StoreOp(va, n, v) =>
        var (u, pa) := Translate(mode, s, va, Access.Store);
        pa.Some? ==> !TimerOrIcRegister(pa.value)
      case Cas(rd, addr, rs2) => !TimerOrIcRegister(addr)
      case _ => true
    ensures SameTimer(s.core, Execute(mode, s, op).core)
  {
    hide Translate, CpuRead, CpuWrite, ExecuteCas, Vector, FlushNonGlobal, TimerOrIcRegister, Extend;
    match op
    case LoadOp(rd, va, n, signed) => ReadSpares(mode, s, va, n);
    case StoreOp(va, n, v) => WriteSpares(mode, s, va, n, v);
    case Cas(rd, addr, rs2) => CasSpares(s, rd, addr, rs2);
    case _ =>
  }

  lemma OddPending(x: Word, y: Word, mask: Word)
    requires mask % 2 == 1 && y % 2 == 1
    ensures OrW(x, 1) % 2 == 1 && OrW(y, 2) % 2 == 1 && And(y, mask) != 0
  {
    assert And(x, 1) == x % 2;
    DivUnique(OrW(x, 1), 2, x / 2, 1);
    var z := And(y / 2, 1);
    assert And(y, 2) == 2 * z;
    DivUnique(OrW(y, 2), 2, y / 2 + 1 - z, 1);
    assert And(y, mask) == 1 + 2 * And(y / 2, mask / 2);
  }

  /** The tick after an armed timer's last count makes an interrupt due, whatever else is pending. */
  lemma TickOfArmed(u: Core, rx: Option<Byte>)
    requires u.InterruptsEnabled() && u.timer.control % 4 == 3 && u.icMask % 2 == 1 && u.timer.count >= 1
    ensures var d := Poll(Tick(u), rx);
      if u.timer.count == 1 then IrqDue(d)
      else d.timer == u.timer.(count := u.timer.count - 1) && d.icMask == u.icMask
  {
    hide OrW, And;
    var x := u.icPending;
    OddPending(x, OrW(x, 1) / 2 * 2 + 1, u.icMask);
    OddPending(x, OrW(x, 1), u.icMask);
    OddPending(x, OrW(OrW(x, 1), 2), u.icMask);
  }

  predicate Stopped(c: Core) {
    c.halted || !c.User()
  }

  /** A user step either stops (halts, or enters supervisor mode) or uses up one tick of several. */
  lemma StepCountsDown(mode: Mode, s: State, rx: Option<Byte>)
    requires Armed(s.core) && SparesTimer(mode, s) && CleanStep(mode, s)
    ensures var d := Step(mode, s, rx).core;
      Stopped(d) || (Armed(d) && s.core.timer.count > 1 && d.timer.count == s.core.timer.count - 1)
  {
    hide Decode, Execute, Fetched, CasOverwrites, Vector, IrqDue, Translate, Tick, Poll, TrappedIn;
    UserStep(mode, s, rx);
    FetchOutcome(mode, s);
    var (t, op) := Executed(mode, s);
    var u, d := AfterInstruction(mode, s), Step(mode, s, rx).core;
    TickPollKeeps(u.core, rx);
    TrappedStops(t.core, op, d, Step(mode, s, rx).mem);
    if !Stopped(d) {
      assert Fetched(mode, s).1.Some? by { TrappedStops(s.core.(faultingPc := s.core.r[15]), Fall, u.core, u.mem); }
      assert d == Poll(Tick(u.core), rx);
      ExecuteSpares(mode, t, op);
      TickOfArmed(u.core, rx);
    }
  }

  lemma TrappedStops(c: Core, op: Op, d: Core, mem: Mem)
    ensures TrappedIn(c, op, d, mem) ==> !d.User()
  {
  }

  predicate SparesTimerRun(mode: Mode, s: State, rxs: seq<Option<Byte>>)
    decreases |rxs|
  {
    rxs != [] && !Stopped(s.core) ==>
      SparesTimer(mode, s) && CleanStep(mode, s) && SparesTimerRun(mode, Step(mode, s, rxs[0]), rxs[1..])
  }

  /** Within its timer count, user code has halted or been taken to supervisor mode. */
  lemma {:induction false} BoundedPreemption(mode: Mode, s: State, rxs: seq<Option<Byte>>)
    requires Armed(s.core) && SparesTimerRun(mode, s, rxs) && |rxs| >= s.core.timer.count
    ensures exists k :: 1 <= k <= s.core.timer.count && Stopped(Run(mode, s, rxs[..k]).core)
    decreases |rxs|
  {
    hide Step, SparesTimer, CleanStep, Armed;
    ArmedFacts(s.core);
    if s.core.halted {
      assert Stopped(Run(mode, s, rxs[..1]).core);
    } else {
      StepCountsDown(mode, s, rxs[0]);
      var t := Step(mode, s, rxs[0]);
      assert rxs[..1][1..] == [];
      assert Run(mode, s, rxs[..1]) == Run(mode, t, []) == t;
      if !Stopped(t.core) {
        BoundedPreemption(mode, t, rxs[1..]);
        var k :| 1 <= k <= t.core.timer.count && Stopped(Run(mode, t, rxs[1..][..k]).core);
        assert rxs[..k + 1][1..] == rxs[1..][..k];
        assert Stopped(Run(mode, s, rxs[..k + 1]).core);
      }
    }
  }

  lemma ArmedFacts(c: Core)
    requires Armed(c)
    ensures c.User() && c.timer.count >= 1
  {
  }
}
