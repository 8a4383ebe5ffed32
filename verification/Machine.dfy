/** The emulator in its own form: one object whose methods update registers, devices, memory and the TLB
    in place. Every method is proved to have exactly the effect of its counterpart in `Cpu` and `Mmu`. */
module Machines {
  import opened Words
  import opened Memory
  import opened Mmu
  import opened Cpu

  class Machine {
    const mem: array<Byte>
    const tlb: array<TlbEntry>
    const r: array<Word>
    var flags: Word
    var epc: Word
    var eflags: Word
    var evec: Word
    var cause: Word
    var status: Word
    var estatus: Word
    var satp: Word
    var badaddr: Word
    var halted: bool
    var pollDivider: Word
    var faultingPc: Word
    var uart: Uart
    var timerPeriod: Word
    var timerCount: Word
    var timerControl: Word
    var icPending: Word
    var icMask: Word
    var blk: Blk

    ghost predicate Valid() {
      mem.Length == 0x0400_0000 && tlb.Length == 64 && r.Length == 16 && mem as object != r
    }

    /** The registers and devices as one value. */
    function CoreNow(): Core
      requires Valid()
      reads this, r
    {
      Core(r[..], flags, epc, eflags, evec, cause, status, estatus, satp, badaddr, halted, pollDivider,
           faultingPc, uart, Timer(timerPeriod, timerCount, timerControl), icPending, icMask, blk)
    }

    ghost function Abs(): State
      requires Valid()
      reads this, mem, tlb, r
    {
      State(CoreNow(), mem[..], tlb[..])
    }

    /** Reset: all zero but STATUS (supervisor) and ESTATUS (user, interrupts on). */
    constructor ()
      ensures Valid() && fresh(mem) && fresh(tlb) && fresh(r)
      ensures Abs().core.status == 1 && Abs().core.estatus == 2 && Abs().core.satp == 0 && !Abs().core.halted
      ensures forall i :: 0 <= i < 64 ==> !Abs().tlb[i].valid
      ensures forall i :: 0 <= i < 16 ==> Abs().core.r[i] == 0
      ensures var c := Abs().core;
        && c.flags == 0 && c.epc == 0 && c.eflags == 0 && c.evec == 0 && c.cause == 0 && c.badaddr == 0
        && c.timer == Timer(0, 0, 0) && c.icPending == 0 && c.icMask == 0 && c.blk == Blk(0, 0, 0, 0)
        && c.uart.control == 0 && !c.uart.rxReady && c.uart.tx == [] && c.pollDivider == 0
      ensures forall a :: 0 <= a < 0x0400_0000 ==> Abs().mem[a] == 0
    {
      mem := new Byte[0x0400_0000](_ => 0);
      tlb := new TlbEntry[64](_ => EMPTY_ENTRY);
      r := new Word[16](_ => 0);
      flags, epc, eflags, evec, cause, satp, badaddr := 0, 0, 0, 0, 0, 0, 0;
      status, estatus := 1, 2;
      halted, pollDivider, faultingPc := false, 0, 0;
      uart := Uart(0, false, 0, []);
      timerPeriod, timerCount, timerControl, icPending, icMask := 0, 0, 0, 0, 0;
      blk := Blk(0, 0, 0, 0);
      new;
      assert forall i :: 0 <= i < 64 ==> tlb[..][i] == tlb[i];
    }

    method MemRead32(a: Word) returns (v: Word)
      requires Valid()
      ensures v == Read32(mem[..], a)
    {
      var b0: int := MemRead8(a);
      var b1: int := MemRead8(a + 1);
      var b2: int := MemRead8(a + 2);
      var b3: int := MemRead8(a + 3);
      v := b0 + 0x100 * b1 + 0x1_0000 * b2 + 0x100_0000 * b3;
    }

    method MemRead8(a: nat) returns (b: Byte)
      requires Valid()
      ensures b == ByteAt(mem[..], a)
    {
      b := if a < mem.Length then mem[a] else 0;
    }

    method MemWrite8(a: nat, v: int)
      requires Valid() && a < MEM_SIZE
      modifies mem
      ensures mem[..] == Write8(old(mem[..]), a, v)
    {
      mem[a] := v % 0x100;
    }

    method MemWrite16(a: nat, v: int)
      requires Valid() && a + 2 <= MEM_SIZE
      modifies mem
      ensures mem[..] == Write16(old(mem[..]), a, v)
    {
      MemWrite8(a, v);
      MemWrite8(a + 1, v / 0x100);
    }

    method MemWrite32(a: nat, v: int)
      requires Valid() && a + 4 <= MEM_SIZE
      modifies mem
      ensures mem[..] == Write32(old(mem[..]), a, v)
    {
      MemWrite16(a, v);
      MemWrite16(a + 2, v / 0x1_0000);
    }

    method ReadVector(code: Word) returns (handler: Word)
      requires Valid()
      ensures handler == Vector(mem[..], evec, code)
    {
      hide Read32;
      var hvec := Wrap(evec + code * 4);
      handler := 0;
      if hvec < MEM_SIZE {
        handler := MemRead32(hvec);
      }
    }

    method RaiseException(code: Word)
      requires Valid()
      modifies this, r
      ensures CoreNow() == Raise(old(CoreNow()), mem[..], code)
    {
      hide Vector;
      ghost var m := mem[..];
      estatus := status;
      epc := faultingPc;
      eflags := flags;
      cause := code;
      status := 1;
      r[15] := ReadVector(code);
      assert mem[..] == m;
    }

    method TlbFlushNonGlobal()
      requires Valid()
      modifies tlb
      ensures tlb[..] == FlushNonGlobal(old(tlb[..]))
    {
      var i := 0;
      while i < 64
        invariant 0 <= i <= 64
        invariant forall k :: 0 <= k < i ==> tlb[k] == old(tlb[k]).(valid := old(tlb[k]).valid && old(tlb[k]).global)
        invariant forall k :: i <= k < 64 ==> tlb[k] == old(tlb[k])
      {
        if !tlb[i].global {
          tlb[i] := tlb[i].(valid := false);
        }
        i := i + 1;
      }
    }

    method PageFault(va: Word, acc: Access)
      requires Valid()
      modifies this, r
      ensures CoreNow() == Raise(old(CoreNow()).(badaddr := va), mem[..], acc.Cause())
    {
      badaddr := va;
      RaiseException(acc.Cause());
    }

    method SetDirtyBit(a: Word, pte: Word)
      requires Valid() && a + 4 <= MEM_SIZE && pte == Read32(mem[..], a)
      modifies mem
      ensures mem[..] == SetDirty(old(mem[..]), a)
    {
      MemWrite32(a, WithD(pte));
    }

    /** Look in the TLB; on a miss walk the tables and fill the entry. */
    method MmuTranslate(va: Word, acc: Access) returns (pa: Option<Word>)
      requires Valid()
      modifies this, r, mem, tlb
      ensures (Abs(), pa) == Translate(Cached, old(Abs()), va, acc)
    {
      hide HitTranslate, MissTranslate, Raise;
      if satp < 0x8000_0000 {
        return Some(va);
      }
      if va >= MMIO_BASE {
        return Some(va);
      }
      var vpn := va / 0x1000;
      var te := tlb[vpn % 64];
      if te.valid && te.vaTag == vpn {
        pa := TlbHit(va, acc);
      } else {
        pa := TableWalk(va, acc);
      }
      FaultChangesNothing(old(mem[..]), old(tlb[..]), satp, status % 2 == 0, va, acc);
      ghost var m, t := mem[..], tlb[..];
      if pa.None? {
        PageFault(va, acc);
        assert mem[..] == m && tlb[..] == t;
      }
    }

    /** Permissions are checked again on every hit; a first store sets D in the entry and in memory. */
    method TlbHit(va: Word, acc: Access) returns (pa: Option<Word>)
      requires Valid()
      modifies mem, tlb
      ensures Xlate(mem[..], tlb[..], pa) == HitTranslate(old(mem[..]), old(tlb[..]), status % 2 == 0, va, acc)
    {
      hide Read32, SetDirty, OrW, Bit;
      var i := va / 0x1000 % 64;
      var te := tlb[i];
      if !Permits(te.flags, status % 2 == 0, acc) {
        return None;
      }
      if acc.Store? && !Dirty(te.flags) {
        tlb[i] := te.(flags := WithD(te.flags));
        if te.spPaBase < MEM_SIZE - 3 {
          var pte := MemRead32(te.spPaBase);
          SetDirtyBit(te.spPaBase, pte);
        }
      }
      if te.superpage {
        pa := Some(OrW(te.spPaBase, va % 0x40_0000));
      } else {
        pa := Some(OrW(te.pa, va % 0x1000));
      }
    }

    method TableWalk(va: Word, acc: Access) returns (pa: Option<Word>)
      requires Valid()
      modifies mem, tlb
      ensures Xlate(mem[..], tlb[..], pa) == MissTranslate(old(mem[..]), old(tlb[..]), satp, status % 2 == 0, va, acc)
    {
      hide Read32, SetDirty, Bit, Permits, LeafPa, Fill, WithD;
      var a1 := L1Addr(satp, va);
      if a1 + 3 >= MEM_SIZE || a1 >= MMIO_BASE {
        return None;
      }
      var pte1 := MemRead32(a1);
      if !Bit(pte1, 1) {
        return None;
      }
      if pte1 / 0x20 % 8 != 0 {
        pa := UseLeaf(va, acc, Leaf(a1, pte1, true));
        return;
      }
      var a2 := L2Addr(pte1, va);
      if a2 + 3 >= MEM_SIZE || a2 >= MMIO_BASE {
        return None;
      }
      var pte2 := MemRead32(a2);
      if !Bit(pte2, 1) {
        return None;
      }
      pa := UseLeaf(va, acc, Leaf(a2, pte2, false));
    }

    /** Check the leaf's permissions, set its D bit on a store, and cache it. */
    method UseLeaf(va: Word, acc: Access, leaf: Leaf) returns (pa: Option<Word>)
      requires Valid() && leaf.addr + 4 <= MEM_SIZE && leaf.pte == Read32(mem[..], leaf.addr)
      modifies mem, tlb
      ensures pa == if Permits(leaf.pte, status % 2 == 0, acc) then Some(LeafPa(leaf, va)) else None
      ensures pa.None? ==> mem[..] == old(mem[..]) && tlb[..] == old(tlb[..])
      ensures pa.Some? ==>
        && mem[..] == (if acc.Store? then SetDirty(old(mem[..]), leaf.addr) else old(mem[..]))
        && tlb[..] == old(tlb[..])[va / 0x1000 % 64 :=
             Fill(va, leaf, if acc.Store? then WithD(leaf.pte) else leaf.pte)]
    {
      hide Read32, SetDirty, Bit, Permits, WithD;
      if !Permits(leaf.pte, status % 2 == 0, acc) {
        return None;
      }
      pa := Some(if leaf.superpage then leaf.pte / 0x40_0000 * 0x40_0000 + va % 0x40_0000
                 else leaf.pte / 0x1000 * 0x1000 + va % 0x1000);
      var pte := leaf.pte;
      if acc.Store? {
        SetDirtyBit(leaf.addr, pte);
        pte := WithD(pte);
      }
      var page := if leaf.superpage then 0 else pte / 0x1000 * 0x1000;
      tlb[va / 0x1000 % 64] :=
        TlbEntry(va / 0x1000, page, pte % 0x1000, true, Bit(pte, 0x200), leaf.superpage, leaf.addr);
    }

    /* ---- Devices ---- */

    method MmioRead(a: Word) returns (v: Word)
      requires Valid()
      modifies this, r
      ensures (CoreNow(), v) == Cpu.MmioRead(old(CoreNow()), mem[..], a)
    {
      hide Cpu.Raise;
      v := 0;
      if SV_BASE <= a <= SV_BASE + 0x1C {
        if status % 2 == 0 {
          RaiseException(2);
          return 0;
        }
        match a - SV_BASE
        case 0x00 => v := epc;
        case 0x04 => v := eflags;
        case 0x08 => v := evec;
        case 0x0C => v := cause;
        case 0x10 => v := status;
        case 0x14 => v := estatus;
        case 0x18 => v := satp;
        case 0x1C => v := badaddr;
        case _ =>
      } else if UART_BASE <= a < UART_BASE + 0x10 {
        match a - UART_BASE
        case 0x00 => v := if uart.rxReady then 3 else 1;
        case 0x08 =>
          if uart.rxReady {
            uart := uart.(rxReady := false);
            v := uart.rxByte;
          }
        case 0x0C => v := uart.control;
        case _ =>
      } else if TIMER_BASE <= a < TIMER_BASE + 8 {
        match a - TIMER_BASE
        case 0x00 => v := timerCount;
        case 0x04 => v := timerControl;
        case _ =>
      } else if IC_BASE <= a < IC_BASE + 0xC {
        match a - IC_BASE
        case 0x00 => v := icPending;
        case 0x04 => v := icMask;
        case _ =>
      } else if BLK_BASE <= a < BLK_BASE + 0x14 {
        match a - BLK_BASE
        case 0x00 => v := blk.sector;
        case 0x04 => v := blk.buffer;
        case 0x0C => v := blk.status;
        case 0x10 => v := blk.control;
        case _ =>
      }
    }

    method MmioWrite(a: Word, v: Word)
      requires Valid()
      modifies this, r, tlb
      ensures Abs() == Cpu.MmioWrite(old(Abs()), a, v)
    {
      hide Cpu.Raise, FlushNonGlobal, And, OrW;
      ghost var m, t, regs := mem[..], tlb[..], r[..];
      if SV_BASE <= a <= SV_BASE + 0x20 {
        if status % 2 == 0 {
          RaiseException(2);
          assert mem[..] == m && tlb[..] == t;
        } else {
          SupervisorRegister(a, v);
        }
      } else {
        DeviceRegister(a, v);
      }
    }

    method SupervisorRegister(a: Word, v: Word)
      requires Valid() && SV_BASE <= a <= SV_BASE + 0x20
      modifies this, tlb
      ensures Abs() == if a == SV_BASE + 0x18
                       then State(old(CoreNow()).(satp := v), old(mem[..]), FlushNonGlobal(old(tlb[..])))
                       else State(SupervisorWrite(old(CoreNow()), a - SV_BASE, v), old(mem[..]), old(tlb[..]))
    {
      hide FlushNonGlobal;
      ghost var m, regs := mem[..], r[..];
      match a - SV_BASE
      case 0x00 => epc := v;
      case 0x04 => eflags := v;
      case 0x08 => evec := v;
      case 0x10 => status := v;
      case 0x14 => estatus := v;
      case 0x18 =>
        satp := v;
        TlbFlushNonGlobal();
        assert mem[..] == m && r[..] == regs;
      case _ =>
    }

    method DeviceRegister(a: Word, v: Word)
      requires Valid()
      modifies this
      ensures CoreNow() == DeviceWrite(old(CoreNow()), a, v)
    {
      hide And, OrW;
      if UART_BASE <= a < UART_BASE + 0x10 {
        match a - UART_BASE
        case 0x04 =>
          uart := uart.(tx := uart.tx + [v % 0x100]);
          if Bit(uart.control, 2) {
            icPending := OrW(icPending, 4);
          }
        case 0x0C => uart := uart.(control := v);
        case _ =>
      } else if TIMER_BASE <= a < TIMER_BASE + 8 {
        match a - TIMER_BASE
        case 0x00 =>
          timerPeriod := v;
          timerCount := v;
        case 0x04 => timerControl := v;
        case _ =>
      } else if IC_BASE <= a < IC_BASE + 0xC {
        match a - IC_BASE
        case 0x04 => icMask := v;
        case 0x08 => icPending := icPending - And(icPending, v);
        case _ =>
      } else if BLK_BASE <= a < BLK_BASE + 0x14 {
        match a - BLK_BASE
        case 0x00 => blk := blk.(sector := v);
        case 0x04 => blk := blk.(buffer := v);
        case 0x08 => blk := blk.(status := 2);
        case 0x10 => blk := blk.(control := v);
        case _ =>
      }
    }

    /* ---- Checked accesses ---- */

    method CpuRead(va: Word, n: Width) returns (v: Word)
      requires Valid()
      modifies this, r, mem, tlb
      ensures (Abs(), v) == Cpu.CpuRead(Cached, old(Abs()), va, n)
    {
      hide Translate, Raise, Cpu.MmioRead, Read32;
      var pa := MmuTranslate(va, Load);
      ghost var m, t := mem[..], tlb[..];
      if pa.None? {
        return 0;
      }
      v := 0;
      if pa.value >= MEM_SIZE {
        RaiseException(2);
      } else if pa.value % n != 0 {
        RaiseException(1);
      } else if pa.value >= MMIO_BASE {
        v := MmioRead(pa.value);
        v := v % Modulus(n);
      } else {
        v := MemRead(pa.value, n);
      }
      assert mem[..] == m && tlb[..] == t;
    }

    method MemRead(a: Word, n: Width) returns (v: Word)
      requires Valid()
      ensures v == ReadN(mem[..], a, n)
    {
      if n == 1 {
        v := MemRead8(a);
      } else if n == 2 {
        var lo: int := MemRead8(a);
        var hi: int := MemRead8(a + 1);
        v := lo + 0x100 * hi;
      } else {
        v := MemRead32(a);
      }
    }

    method CpuWrite(va: Word, n: Width, v: Word)
      requires Valid()
      modifies this, r, mem, tlb
      ensures Abs() == Cpu.CpuWrite(Cached, old(Abs()), va, n, v)
    {
      hide Translate, Raise, Cpu.MmioWrite, Write8, Write16, Write32;
      var pa := MmuTranslate(va, Access.Store);
      ghost var m, t, regs := mem[..], tlb[..], r[..];
      if pa.None? {
        return;
      }
      if pa.value >= MEM_SIZE {
        RaiseException(2);
        assert mem[..] == m && tlb[..] == t;
      } else if pa.value % n != 0 {
        RaiseException(1);
        assert mem[..] == m && tlb[..] == t;
      } else if pa.value >= MMIO_BASE {
        MmioWrite(pa.value, v % Modulus(n));
      } else {
        MemWrite(pa.value, n, v);
        assert tlb[..] == t && r[..] == regs;
      }
    }

    method MemWrite(a: Word, n: Width, v: Word)
      requires Valid() && a + n <= MEM_SIZE
      modifies mem
      ensures mem[..] == WriteN(old(mem[..]), a, n, v)
    {
      if n == 1 {
        MemWrite8(a, v);
      } else if n == 2 {
        MemWrite16(a, v);
      } else {
        MemWrite32(a, v);
      }
    }

    method CpuFetch(pc: Word) returns (w: Option<Word>)
      requires Valid()
      modifies this, r, mem, tlb
      ensures (Abs(), w) == Cpu.CpuFetch(Cached, old(Abs()), pc)
    {
      hide Translate, Raise, Read32;
      var pa := MmuTranslate(pc, Fetch);
      ghost var m, t := mem[..], tlb[..];
      if pa.None? {
        return None;
      }
      if pa.value >= MEM_SIZE {
        RaiseException(2);
        assert mem[..] == m && tlb[..] == t;
        return None;
      }
      var instr := MemRead32(pa.value);
      w := Some(instr);
    }

    /* ---- Housekeeping ---- */

    method TimerTick()
      requires Valid()
      modifies this
      ensures CoreNow() == Tick(old(CoreNow()))
    {
      hide OrW;
      if timerControl % 2 == 0 {
        return;
      }
      if timerCount > 0 {
        timerCount := timerCount - 1;
      }
      if timerCount == 0 {
        timerCount := timerPeriod;
        if Bit(timerControl, 2) {
          icPending := OrW(icPending, 1);
        }
      }
    }

    method UartPoll(rx: Option<Byte>)
      requires Valid()
      modifies this
      ensures CoreNow() == Poll(old(CoreNow()), rx)
    {
      hide OrW;
      pollDivider := Wrap(pollDivider + 1);
      if pollDivider >= 1000 {
        pollDivider := 0;
        if !uart.rxReady && rx.Some? {
          uart := uart.(rxByte := rx.value, rxReady := true);
          if Bit(uart.control, 1) {
            icPending := OrW(icPending, 2);
          }
        }
      }
    }

    /** The return address of an interrupt is the next instruction, not the one that just ran. */
    method InterruptCheck()
      requires Valid()
      modifies this, r
      ensures CoreNow() == Cpu.InterruptCheck(old(CoreNow()), mem[..])
    {
      hide Vector, And;
      if Bit(status, 2) && And(icPending, icMask) != 0 {
        var saved := faultingPc;
        faultingPc := r[15];
        RaiseException(6);
        faultingPc := saved;
      }
    }

    /* ---- The execute loop ---- */

    method WriteReg(rd: Reg, v: Word)
      requires Valid()
      modifies r
      ensures CoreNow() == SetReg(old(CoreNow()), rd, v) && mem[..] == old(mem[..])
    {
      r[rd] := v;
    }

    method Cas(rd: Reg, addr: Word, rs2: Reg)
      requires Valid()
      modifies this, r, mem, tlb
      ensures Abs() == ExecuteCas(old(Abs()), rd, addr, rs2)
    {
      hide Raise, Cpu.MmioRead, Cpu.MmioWrite, Read32, Write32, And, OrW;
      ghost var m, t := mem[..], tlb[..];
      if addr % 4 != 0 {
        RaiseException(1);
        assert mem[..] == m && tlb[..] == t;
        return;
      }
      if addr >= MEM_SIZE {
        RaiseException(2);
        assert mem[..] == m && tlb[..] == t;
        return;
      }
      var cur;
      if addr >= MMIO_BASE {
        cur := MmioRead(addr);
        assert mem[..] == m && tlb[..] == t;
      } else {
        cur := MemRead32(addr);
      }
      if cur == r[rd] {
        if addr >= MMIO_BASE {
          MmioWrite(addr, r[rs2]);
        } else {
          ghost var c := CoreNow();
          MemWrite32(addr, r[rs2]);
          assert CoreNow() == c && tlb[..] == t;
        }
        flags := OrW(flags, 0x4000_0000);
      } else {
        WriteReg(rd, cur);
        flags := flags - And(flags, 0x4000_0000);
        assert mem[..] == m && tlb[..] == t;
      }
    }

    /** SYSRET and KRET, which differ in the privilege bit only. */
    method Return(newStatus: Word)
      requires Valid()
      modifies this, r
      ensures CoreNow() == (if old(status) % 2 == 0 then Raise(old(CoreNow()), mem[..], 0)
        else SetReg(old(CoreNow()), 15, old(epc)).(flags := old(eflags), status := newStatus))
      ensures mem[..] == old(mem[..])
    {
      hide Raise;
      ghost var m := mem[..];
      if status % 2 == 0 {
        RaiseException(0);
      } else {
        r[15] := epc;
        flags := eflags;
        status := newStatus;
      }
      assert mem[..] == m;
    }

    method SyscallTrap()
      requires Valid()
      modifies this, r
      ensures CoreNow() == Enter(old(CoreNow()), mem[..], 3, old(CoreNow()).r[15]) && mem[..] == old(mem[..])
    {
      hide Vector;
      ghost var m, before := mem[..], CoreNow();
      var handler := ReadVector(3);
      estatus := status;
      epc := r[15];
      eflags := flags;
      cause := 3;
      status := 1;
      r[15] := handler;
      assert mem[..] == m;
      assert r[..] == before.r[15 := handler];
    }

    method ExecuteTransfer(op: Op)
      requires Valid() && (op.Link? || op.Goto?)
      modifies this, r
      ensures Abs() == Cpu.Execute(Cached, old(Abs()), op)
    {
      ghost var m, t := mem[..], tlb[..];
      if op.Link? {
        WriteReg(op.rd, r[15]);
      }
      WriteReg(15, op.target);
      assert mem[..] == m && tlb[..] == t;
    }

    method ExecuteFence()
      requires Valid()
      modifies this, r, tlb
      ensures Abs() == Cpu.Execute(Cached, old(Abs()), Sfence)
    {
      hide Raise, FlushNonGlobal;
      ghost var m, t := mem[..], tlb[..];
      if status % 2 == 0 {
        RaiseException(0);
        assert mem[..] == m && tlb[..] == t;
      } else {
        ghost var c := CoreNow();
        TlbFlushNonGlobal();
        assert mem[..] == m && CoreNow() == c;
      }
    }

    /** Traps, returns and HALT. */
    method ExecuteSystem(op: Op)
      requires Valid() && (op.Fault? || op.Syscall? || op.Sysret? || op.Kret? || op.Halt?)
      modifies this, r
      ensures Abs() == Cpu.Execute(Cached, old(Abs()), op)
    {
      hide Raise, Enter;
      ghost var m, t := mem[..], tlb[..];
      match op
      case Fault(code) =>
        RaiseException(code);
        assert mem[..] == m && tlb[..] == t;
      case Syscall =>
        SyscallTrap();
        assert tlb[..] == t;
      case Sysret =>
        Return(estatus - estatus % 2);
        assert tlb[..] == t;
      case Kret =>
        Return(estatus);
        assert tlb[..] == t;
      case Halt => halted := true;
    }

    /** The effect of a decoded instruction. */
    method Execute(op: Op)
      requires Valid()
      modifies this, r, mem, tlb
      ensures Abs() == Cpu.Execute(Cached, old(Abs()), op)
    {
      hide Raise, Cpu.CpuRead, Cpu.CpuWrite, ExecuteCas, FlushNonGlobal, Enter, Extend;
      ghost var m, t := mem[..], tlb[..];
      match op
      case Put(rd, v, f) =>
        WriteReg(rd, v);
        flags := f;
        assert mem[..] == m && tlb[..] == t;
      case Compare(f) => flags := f;
      case LoadOp(rd, va, n, signed) =>
        var v := CpuRead(va, n);
        ghost var m', t' := mem[..], tlb[..];
        WriteReg(rd, Extend(v, n, signed));
        assert mem[..] == m' && tlb[..] == t';
      case StoreOp(va, n, v) => CpuWrite(va, n, v);
      case Cas(rd, addr, rs2) => Cas(rd, addr, rs2);
      case Link(_, _) => ExecuteTransfer(op);
      case Goto(_) => ExecuteTransfer(op);
      case Fall =>
      case Sfence => ExecuteFence();
      case _ => ExecuteSystem(op);
    }

    method Housekeeping(rx: Option<Byte>)
      requires Valid()
      modifies this, r
      ensures Abs() == Housekeep(old(Abs()), rx)
    {
      hide Tick, Poll, Cpu.InterruptCheck;
      ghost var m, t := mem[..], tlb[..];
      TimerTick();
      UartPoll(rx);
      if !halted {
        InterruptCheck();
      }
      assert mem[..] == m && tlb[..] == t;
    }

    /** One iteration of the loop. */
    method Iterate(rx: Option<Byte>)
      requires Valid()
      modifies this, r, mem, tlb
      ensures Abs() == Step(Cached, old(Abs()), rx)
    {
      hide Tick, Poll, Housekeep, Decode, Cpu.Execute, Cpu.CpuFetch;
      var pc: Word := r[15];
      faultingPc := pc;
      assert Abs() == old(Abs()).(core := old(Abs()).core.(faultingPc := pc));
      var w := CpuFetch(pc);
      if w.None? {
        Housekeeping(rx);
        return;
      }
      ghost var m, t := mem[..], tlb[..];
      WriteReg(15, Wrap(pc + 4));
      assert mem[..] == m && tlb[..] == t;
      var supervisor := status % 2 != 0;
      var op := Decode(CoreNow(), pc, w.value);
      Execute(op);
      if op.Kret? && supervisor {
        ghost var m', t', r' := mem[..], tlb[..], r[..];
        TimerTick();
        UartPoll(rx);
        assert mem[..] == m' && tlb[..] == t';
      } else {
        Housekeeping(rx);
      }
    }

    method CpuRun(rxs: seq<Option<Byte>>)
      requires Valid()
      modifies this, r, mem, tlb
      ensures Abs() == Run(Cached, old(Abs()), rxs)
    {
      hide Step;
      var i := 0;
      while i < |rxs| && !halted
        invariant 0 <= i <= |rxs|
        invariant Run(Cached, Abs(), rxs[i..]) == Run(Cached, old(Abs()), rxs)
      {
        Iterate(rxs[i]);
        i := i + 1;
      }
    }
  }
}
