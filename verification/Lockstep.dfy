/** The whole machine with its TLB runs in lockstep with a machine that walks the page tables on every
    fetch, load and store: same registers, devices, traps and memory, instruction by instruction. That holds as
    long as no access is answered by a stale entry; and none ever is when stores miss the tables in use. */
module Lockstep {
  import opened Words
  import opened Memory
  import opened Mmu
  import opened TlbRefinement
  import opened Cpu

  /** Equal except for the TLB. */
  predicate Same(s: State, t: State) {
    s.core == t.core && s.mem == t.mem
  }

  /* ---- Lockstep while no stale entry is hit ---- */

  /** An access to `va` is not answered by a stale entry (one that disagrees with the tables as they are now), nor by
      a superpage entry with a wrong address. True of every miss. */
  predicate HitOk(s: State, va: Word) {
    var te, leaf := s.tlb[va / 0x1000 % 64], FindLeaf(s.mem, s.core.satp, va);
    !Bypassed(s.core.satp, va) && Hits(s.tlb, va) ==>
      EntryCoherent(s.mem, s.core.satp, te) && (leaf.Some? ==> HitAddressRight(te, leaf.value, va))
  }

  /** No access of the next step is. Page tables may have been edited and SATP changed at will. */
  predicate Fresh(s: State) {
    var pc := s.core.r[15];
    var (t, w) := Fetched(Cached, s);
    && HitOk(s, pc)
    && (w.Some? ==>
          match Decode(t.core, pc, w.value)
          case LoadOp(_, va, _, _) => HitOk(t, va)
          case StoreOp(va, _, _) => HitOk(t, va)
          case _ => true)
  }

  predicate RunFresh(s: State, rxs: seq<Option<Byte>>)
    decreases |rxs|
  {
    !s.core.halted && rxs != [] ==> Fresh(s) && RunFresh(Step(Cached, s, rxs[0]), rxs[1..])
  }

  lemma TranslateSame(s: State, t: State, va: Word, acc: Access)
    requires Same(s, t) && HitOk(s, va)
    ensures var (s', pa), (t', pa') := Translate(Cached, s, va, acc), Translate(Walking, t, va, acc);
      Same(s', t') && pa == pa' && s'.core.satp == s.core.satp
  {
    hide FindLeaf, HitAddressRight, HitTranslate, EntryCoherent, Read32, Permits;
    var w, w' := Xlated(Walking, s, va, acc), Xlated(Walking, t, va, acc);
    assert w.mem == w'.mem && w.pa == w'.pa;
    if !Bypassed(s.core.satp, va) && Hits(s.tlb, va) {
      FreshHitIsWalk(s.mem, s.tlb, s.core.satp, s.core.User(), va, acc);
    }
  }

  lemma FetchSame(s: State, t: State)
    requires Same(s, t) && HitOk(s, s.core.r[15])
    ensures var (s', w), (t', w') := Fetched(Cached, s), Fetched(Walking, t);
      Same(s', t') && w == w'
  {
    hide HitOk, Read32;
    var pc := s.core.r[15];
    FaultingPcIrrelevant(s, pc);
    TranslateSame(s.(core := s.core.(faultingPc := pc)), t.(core := t.core.(faultingPc := pc)), pc, Fetch);
  }

  lemma FaultingPcIrrelevant(s: State, pc: Word)
    requires HitOk(s, pc)
    ensures HitOk(s.(core := s.core.(faultingPc := pc)), pc)
  {
  }

  lemma ReadSame(s: State, t: State, va: Word, n: Width)
    requires Same(s, t) && HitOk(s, va)
    ensures var (s', v), (t', v') := CpuRead(Cached, s, va, n), CpuRead(Walking, t, va, n);
      Same(s', t') && v == v'
  {
    hide HitOk, ReadN, Translate;
    TranslateSame(s, t, va, Load);
  }

  lemma MmioWriteSame(s: State, t: State, a: Word, v: Word)
    requires Same(s, t)
    ensures Same(MmioWrite(s, a, v), MmioWrite(t, a, v))
  {
    hide FlushNonGlobal;
  }

  lemma WriteSame(s: State, t: State, va: Word, n: Width, v: Word)
    requires Same(s, t) && HitOk(s, va)
    ensures Same(CpuWrite(Cached, s, va, n, v), CpuWrite(Walking, t, va, n, v))
  {
    hide HitOk, WriteN, Translate, MmioWrite;
    TranslateSame(s, t, va, Access.Store);
    var (u, pa) := Translate(Cached, s, va, Access.Store);
    if pa.Some? {
      MmioWriteSame(u, Translate(Walking, t, va, Access.Store).0, pa.value, v % Modulus(n));
    }
  }

  lemma CasSame(s: State, t: State, rd: Reg, addr: Word, rs2: Reg)
    requires Same(s, t)
    ensures Same(ExecuteCas(s, rd, addr, rs2), ExecuteCas(t, rd, addr, rs2))
  {
    hide Read32, Write32, MmioWrite, OrW, And;
    if MMIO_BASE <= addr < MEM_SIZE {
      var c := MmioRead(s.core, s.mem, addr).0;
      MmioWriteSame(s.(core := c), t.(core := c), addr, c.r[rs2]);
    }
  }

  lemma ExecuteSame(s: State, t: State, op: Op)
    requires Same(s, t)
    requires match op case LoadOp(_, va, _, _) => HitOk(s, va) case StoreOp(va, _, _) => HitOk(s, va) case _ => true
    ensures Same(Execute(Cached, s, op), Execute(Walking, t, op))
  {
    hide HitOk, CpuRead, CpuWrite, ExecuteCas, FlushNonGlobal, Read32;
    match op
    case LoadOp(rd, va, n, _) => ReadSame(s, t, va, n);
    case StoreOp(va, n, v) => WriteSame(s, t, va, n, v);
    case Cas(rd, addr, rs2) => CasSame(s, t, rd, addr, rs2);
    case _ =>
  }

  /** One instruction, whatever it does, that hits no stale entry. */
  lemma StepSame(s: State, t: State, rx: Option<Byte>)
    requires Same(s, t) && Fresh(s)
    ensures Same(Step(Cached, s, rx), Step(Walking, t, rx))
  {
    hide Decode, Execute, Fetched, Tick, Poll, HitOk, And, Read32;
    FetchSame(s, t);
    var (s1, w) := Fetched(Cached, s);
    if w.Some? {
      ExecuteSame(s1, Fetched(Walking, t).0, Decode(s1.core, s.core.r[15], w.value));
    }
  }

  /** Whole runs, of any length and with any input, in which tables are edited and roots switched at will: the TLB
      is invisible as long as no access hits an entry that the edits have made stale. */
  lemma {:induction false} RunSame(s: State, t: State, rxs: seq<Option<Byte>>)
    requires Same(s, t) && RunFresh(s, rxs)
    ensures Same(Run(Cached, s, rxs), Run(Walking, t, rxs))
    decreases |rxs|
  {
    hide Step, Fresh;
    if s.core.halted || rxs == [] {
    } else {
      StepSame(s, t, rxs[0]);
      RunSame(Step(Cached, s, rxs[0]), Step(Walking, t, rxs[0]), rxs[1..]);
    }
  }

  /* ---- A discipline under which no entry goes stale ---- */

  predicate TlbOk(s: State) {
    Coherent(s.mem, s.tlb, s.core.satp)
  }

  /** No superpage hit answers `va` with a wrong address. True of every 4 KB hit and of every miss. */
  predicate AddressRight(s: State, va: Word) {
    var leaf := FindLeaf(s.mem, s.core.satp, va);
    !Bypassed(s.core.satp, va) && Hits(s.tlb, va) && leaf.Some? ==>
      HitAddressRight(s.tlb[va / 0x1000 % 64], leaf.value, va)
  }

  /** The surviving global entries are mapped by the same leaves under the new root. */
  predicate GlobalsAgree(s: State, satp: Word) {
    forall i :: 0 <= i < 64 && s.tlb[i].valid && s.tlb[i].global ==>
      FindLeaf(s.mem, satp, TagVa(s.tlb[i])) == FindLeaf(s.mem, s.core.satp, TagVa(s.tlb[i]))
  }

  /** What is asked of a write to physical address `pa`: RAM writes miss the page tables in use, and a
      SATP write keeps the surviving global pages where they are. */
  predicate WriteDisciplined(s: State, pa: Word, n: Width, v: Word) {
    && (pa < MMIO_BASE ==> MissesWalks(s.tlb, s.core.satp, pa, n))
    && (pa == SV_BASE + 0x18 ==> GlobalsAgree(s, v))
  }

  /** What is asked of the software for one step. Checked on the state the step starts from. */
  predicate Disciplined(s: State) {
    var pc := s.core.r[15];
    var (t, w) := Fetched(Cached, s);
    && AddressRight(s, pc)
    && (w.Some? ==>
          match Decode(t.core, pc, w.value)
          case LoadOp(_, va, _, _) => AddressRight(t, va)
          case StoreOp(va, n, v) =>
            && AddressRight(t, va)
            && var (u, pa) := Translate(Cached, t, va, Access.Store);
               pa.Some? ==> WriteDisciplined(u, pa.value, n, v % Modulus(n))
          case Cas(_, addr, rs2) => WriteDisciplined(t, addr, 4, t.core.r[rs2])
                                    && WriteDisciplined(t, addr, 4, Raise(t.core, t.mem, 2).r[rs2])
          case _ => true)
  }

  predicate RunDisciplined(s: State, rxs: seq<Option<Byte>>)
    decreases |rxs|
  {
    !s.core.halted && rxs != [] ==> Disciplined(s) && RunDisciplined(Step(Cached, s, rxs[0]), rxs[1..])
  }

  lemma TranslateKeeps(s: State, va: Word, acc: Access)
    requires TlbOk(s)
    ensures TlbOk(Translate(Cached, s, va, acc).0)
  {
    hide FindLeaf, HitAddressRight, Coherent, HitTranslate, MissTranslate, Read32;
    TlbRefinesWalk(s.mem, s.tlb, s.core.satp, s.core.User(), va, acc);
  }

  lemma FetchKeeps(s: State)
    requires TlbOk(s)
    ensures TlbOk(Fetched(Cached, s).0)
  {
    hide Read32, Coherent, Translate;
    TranslateKeeps(s.(core := s.core.(faultingPc := s.core.r[15])), s.core.r[15], Fetch);
  }

  lemma ReadKeeps(s: State, va: Word, n: Width)
    requires TlbOk(s)
    ensures TlbOk(CpuRead(Cached, s, va, n).0)
  {
    hide ReadN, Coherent, Translate;
    TranslateKeeps(s, va, Load);
  }

  lemma MmioWriteKeeps(s: State, a: Word, v: Word)
    requires TlbOk(s) && (a == SV_BASE + 0x18 ==> GlobalsAgree(s, v))
    ensures TlbOk(MmioWrite(s, a, v))
  {
    hide FindLeaf, Coherent, FlushNonGlobal;
    RootSwitchCoherence(s.mem, s.tlb, s.core.satp, v);
  }

  lemma WriteKeeps(s: State, va: Word, n: Width, v: Word)
    requires TlbOk(s)
    requires var (u, pa) := Translate(Cached, s, va, Access.Store);
      pa.Some? ==> WriteDisciplined(u, pa.value, n, v % Modulus(n))
    ensures TlbOk(CpuWrite(Cached, s, va, n, v))
  {
    hide WriteN, Coherent, Translate, MmioWrite, MissesWalks, GlobalsAgree;
    TranslateKeeps(s, va, Access.Store);
    var (u, pa) := Translate(Cached, s, va, Access.Store);
    if pa.Some? && pa.value < MEM_SIZE && pa.value % n == 0 {
      if pa.value >= MMIO_BASE {
        MmioWriteKeeps(u, pa.value, v % Modulus(n));
      } else {
        StoreKeepsCoherence(u.mem, u.tlb, u.core.satp, pa.value, n, v);
      }
    }
  }

  lemma CasKeeps(s: State, rd: Reg, addr: Word, rs2: Reg)
    requires TlbOk(s)
    requires WriteDisciplined(s, addr, 4, s.core.r[rs2])
    requires WriteDisciplined(s, addr, 4, Raise(s.core, s.mem, 2).r[rs2])
    ensures TlbOk(ExecuteCas(s, rd, addr, rs2))
  {
    hide Read32, Write32, Coherent, MissesWalks, MmioWrite, OrW, And;
    if addr % 4 == 0 && addr < MEM_SIZE {
      if addr >= MMIO_BASE {
        var c := MmioRead(s.core, s.mem, addr).0;
        assert c.satp == s.core.satp;
        assert addr == SV_BASE + 0x18 ==> c == s.core || c == Raise(s.core, s.mem, 2);
        MmioWriteKeeps(s.(core := c), addr, c.r[rs2]);
      } else {
        StoreKeepsCoherence(s.mem, s.tlb, s.core.satp, addr, 4, s.core.r[rs2]);
      }
    }
  }

  lemma ExecuteKeeps(s: State, op: Op)
    requires TlbOk(s)
    requires match op
      case StoreOp(va, n, v) =>
        var (u, pa) := Translate(Cached, s, va, Access.Store);
        pa.Some? ==> WriteDisciplined(u, pa.value, n, v % Modulus(n))
      case Cas(_, addr, rs2) => WriteDisciplined(s, addr, 4, s.core.r[rs2])
                                && WriteDisciplined(s, addr, 4, Raise(s.core, s.mem, 2).r[rs2])
      case _ => true
    ensures TlbOk(Execute(Cached, s, op))
  {
    hide WriteDisciplined, Coherent, CpuRead, CpuWrite, ExecuteCas, FlushNonGlobal, Read32, FindLeaf, Translate;
    match op
    case LoadOp(rd, va, n, _) => ReadKeeps(s, va, n);
    case StoreOp(va, n, v) => WriteKeeps(s, va, n, v);
    case Cas(rd, addr, rs2) => CasKeeps(s, rd, addr, rs2);
    case Sfence => RootSwitchCoherence(s.mem, s.tlb, s.core.satp, s.core.satp);
    case _ =>
  }

  lemma HousekeepKeeps(s: State, rx: Option<Byte>)
    requires TlbOk(s)
    ensures TlbOk(Housekeep(s, rx)) && TlbOk(s.(core := Poll(Tick(s.core), rx)))
  {
    hide Coherent, OrW, And, Read32;
  }

  /** From a coherent TLB the discipline keeps it coherent ... */
  lemma StepKeeps(s: State, rx: Option<Byte>)
    requires TlbOk(s) && Disciplined(s)
    ensures TlbOk(Step(Cached, s, rx))
  {
    hide Decode, Execute, Housekeep, Fetched, Tick, Poll, AddressRight, TlbOk, Translate, WriteDisciplined;
    FetchKeeps(s);
    var (s1, w) := Fetched(Cached, s);
    if w.None? {
      HousekeepKeeps(s1, rx);
    } else {
      var op := Decode(s1.core, s.core.r[15], w.value);
      ExecuteKeeps(s1, op);
      HousekeepKeeps(Execute(Cached, s1, op), rx);
    }
  }

  lemma CoherentHitOk(s: State, va: Word)
    requires TlbOk(s) && AddressRight(s, va)
    ensures HitOk(s, va)
  {
    hide FindLeaf, HitAddressRight, EntryCoherent;
  }

  /** ... and no access is answered by a stale entry. */
  lemma DisciplinedIsFresh(s: State)
    requires TlbOk(s) && Disciplined(s)
    ensures Fresh(s)
  {
    hide Decode, Fetched, AddressRight, TlbOk, Translate, WriteDisciplined, HitOk;
    CoherentHitOk(s, s.core.r[15]);
    FetchKeeps(s);
    var (t, w) := Fetched(Cached, s);
    if w.Some? {
      match Decode(t.core, s.core.r[15], w.value)
      case LoadOp(_, va, _, _) => CoherentHitOk(t, va);
      case StoreOp(va, _, _) => CoherentHitOk(t, va);
      case _ =>
    }
  }

  /** One disciplined instruction: the cached and the walking machine end up the same. */
  lemma StepLockstep(s: State, t: State, rx: Option<Byte>)
    requires Same(s, t) && TlbOk(s) && Disciplined(s)
    ensures Same(Step(Cached, s, rx), Step(Walking, t, rx)) && TlbOk(Step(Cached, s, rx))
  {
    hide Step, Disciplined, Fresh, TlbOk;
    DisciplinedIsFresh(s);
    StepSame(s, t, rx);
    StepKeeps(s, rx);
  }

  /** Whole runs, of any length and with any input: the TLB is invisible. */
  lemma {:induction false} RunLockstep(s: State, t: State, rxs: seq<Option<Byte>>)
    requires Same(s, t) && TlbOk(s) && RunDisciplined(s, rxs)
    ensures Same(Run(Cached, s, rxs), Run(Walking, t, rxs)) && TlbOk(Run(Cached, s, rxs))
    decreases |rxs|
  {
    hide Step, Disciplined, Coherent;
    if s.core.halted || rxs == [] {
    } else {
      StepLockstep(s, t, rxs[0]);
      RunLockstep(Step(Cached, s, rxs[0]), Step(Walking, t, rxs[0]), rxs[1..]);
    }
  }

  /** A machine out of reset qualifies: its TLB is empty. */
  lemma ResetQualifies(s: State)
    requires forall i :: 0 <= i < 64 ==> !s.tlb[i].valid
    ensures TlbOk(s)
  {
  }

  /** An SFENCE in a TLB without global entries makes good whatever was done to the tables before. */
  lemma FenceQualifies(s: State)
    requires !s.core.User() && forall i :: 0 <= i < 64 ==> !(s.tlb[i].valid && s.tlb[i].global)
    ensures TlbOk(Execute(Cached, s, Sfence))
  {
    hide EntryCoherent;
    FlushRestoresCoherence(s.mem, s.tlb, s.core.satp);
  }
}
