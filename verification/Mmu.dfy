/** The MMU: a two-level page walk, and the 64-entry direct-mapped TLB in front of it. */
module Mmu {
  import opened Words
  import opened Memory

  const TLB_SIZE := 64

  datatype Access = Fetch | Load | Store
  {
    /** Page-fault cause raised for this kind of access. */
    function Cause(): Word {
      match this case Fetch => 7 case Load => 8 case Store => 9
    }
  }

  datatype TlbEntry = TlbEntry(vaTag: Word, pa: Word, flags: Word, valid: bool, global: bool,
                               superpage: bool, spPaBase: Word)

  const EMPTY_ENTRY := TlbEntry(0, 0, 0, false, false, false, 0)

  type Tlb = t: seq<TlbEntry> | |t| == 64 witness seq(64, _ => EMPTY_ENTRY)

  /* ---- Page table entries: PPN 31:12, G 9, U 8, X 7, W 6, R 5, D 1, V 0 ---- */

  predicate Permits(flags: Word, user: bool, acc: Access) {
    && (user ==> Bit(flags, 0x100))
    && (match acc case Fetch => Bit(flags, 0x80) case Load => Bit(flags, 0x20) case Store => Bit(flags, 0x40))
  }

  /** The D bit (weight 2), and the entry with it set. */
  predicate Dirty(pte: Word) {
    pte % 4 >= 2
  }

  function WithD(pte: Word): Word {
    pte / 4 * 4 + 2 + pte % 2
  }

  /** Equal in every bit but D. */
  predicate EqualButD(p: Word, q: Word) {
    p / 4 == q / 4 && p % 2 == q % 2
  }

  /** A leaf entry reached by a walk: its own address, its value, and its level. */
  datatype Leaf = Leaf(addr: Word, pte: Word, superpage: bool)

  function Root(satp: Word): Word {
    satp % 0x10_0000 * 0x1000
  }

  function L1Addr(satp: Word, va: Word): Word {
    Root(satp) + va / 0x40_0000 * 4
  }

  function L2Addr(pte1: Word, va: Word): Word {
    pte1 / 0x1000 * 0x1000 + va / 0x1000 % 0x400 * 4
  }

  predicate PteReachable(a: Word) {
    a + 3 < MEM_SIZE && a < MMIO_BASE
  }

  /** The two-level walk: the leaf for `va`, or None if the walk faults before permissions are looked at. */
  function FindLeaf(mem: Mem, satp: Word, va: Word): Option<Leaf> {
    var a1 := L1Addr(satp, va);
    if !PteReachable(a1) then None else
    var pte1 := Read32(mem, a1);
    if !Bit(pte1, 1) then None
    else if pte1 / 0x20 % 8 != 0 then Some(Leaf(a1, pte1, true))
    else
      var a2 := L2Addr(pte1, va);
      if !PteReachable(a2) then None else
      var pte2 := Read32(mem, a2);
      if !Bit(pte2, 1) then None else Some(Leaf(a2, pte2, false))
  }

  function LeafPa(leaf: Leaf, va: Word): Word {
    if leaf.superpage then leaf.pte / 0x40_0000 * 0x40_0000 + va % 0x40_0000
    else leaf.pte / 0x1000 * 0x1000 + va % 0x1000
  }

  predicate Bypassed(satp: Word, va: Word) {
    satp < 0x8000_0000 || va >= MMIO_BASE
  }

  /** Result of a translation; `pa` is None when a page fault is due. */
  datatype Xlate = Xlate(mem: Mem, tlb: Tlb, pa: Option<Word>)

  function SetDirty(mem: Mem, a: Word): Mem
    requires a + 4 <= MEM_SIZE
  {
    Write32(mem, a, WithD(Read32(mem, a)))
  }

  /** The reference machine: every access walks the tables. The TLB is carried along untouched. */
  function WalkTranslate(mem: Mem, tlb: Tlb, satp: Word, user: bool, va: Word, acc: Access): Xlate {
    if Bypassed(satp, va) then Xlate(mem, tlb, Some(va)) else
    match FindLeaf(mem, satp, va)
    case None => Xlate(mem, tlb, None)
    case Some(leaf) =>
      if !Permits(leaf.pte, user, acc) then Xlate(mem, tlb, None)
      else Xlate(if acc.Store? then SetDirty(mem, leaf.addr) else mem, tlb, Some(LeafPa(leaf, va)))
  }

  /* ---- The machine with a TLB ---- */

  predicate Hits(tlb: Tlb, va: Word) {
    var te := tlb[va / 0x1000 % 64];
    te.valid && te.vaTag == va / 0x1000
  }

  function HitPa(te: TlbEntry, va: Word): Word {
    if te.superpage then OrW(te.spPaBase, va % 0x40_0000) else OrW(te.pa, va % 0x1000)
  }

  function HitTranslate(mem: Mem, tlb: Tlb, user: bool, va: Word, acc: Access): Xlate {
    var i := va / 0x1000 % 64;
    var te := tlb[i];
    if !Permits(te.flags, user, acc) then Xlate(mem, tlb, None)
    else if acc.Store? && !Dirty(te.flags) then
      Xlate(if te.spPaBase < MEM_SIZE - 3 then SetDirty(mem, te.spPaBase) else mem,
            tlb[i := te.(flags := WithD(te.flags))], Some(HitPa(te, va)))
    else Xlate(mem, tlb, Some(HitPa(te, va)))
  }

  function Fill(va: Word, leaf: Leaf, pte: Word): TlbEntry {
    TlbEntry(va / 0x1000, if leaf.superpage then 0 else pte / 0x1000 * 0x1000, pte % 0x1000, true,
             Bit(pte, 0x200), leaf.superpage, leaf.addr)
  }

  function MissTranslate(mem: Mem, tlb: Tlb, satp: Word, user: bool, va: Word, acc: Access): Xlate {
    match FindLeaf(mem, satp, va)
    case None => Xlate(mem, tlb, None)
    case Some(leaf) =>
      if !Permits(leaf.pte, user, acc) then Xlate(mem, tlb, None) else
      var pte := if acc.Store? then WithD(leaf.pte) else leaf.pte;
      Xlate(if acc.Store? then SetDirty(mem, leaf.addr) else mem,
            tlb[va / 0x1000 % 64 := Fill(va, leaf, pte)], Some(LeafPa(leaf, va)))
  }

  function CachedTranslate(mem: Mem, tlb: Tlb, satp: Word, user: bool, va: Word, acc: Access): Xlate {
    if Bypassed(satp, va) then Xlate(mem, tlb, Some(va))
    else if Hits(tlb, va) then HitTranslate(mem, tlb, user, va, acc)
    else MissTranslate(mem, tlb, satp, user, va, acc)
  }

  /** A page fault leaves memory and TLB as they were. */
  lemma FaultChangesNothing(mem: Mem, tlb: Tlb, satp: Word, user: bool, va: Word, acc: Access)
    ensures var x := HitTranslate(mem, tlb, user, va, acc); x.pa.None? ==> x.mem == mem && x.tlb == tlb
    ensures var x := MissTranslate(mem, tlb, satp, user, va, acc); x.pa.None? ==> x.mem == mem && x.tlb == tlb
    ensures var x := CachedTranslate(mem, tlb, satp, user, va, acc); x.pa.None? ==> x.mem == mem && x.tlb == tlb
    ensures var x := WalkTranslate(mem, tlb, satp, user, va, acc); x.pa.None? ==> x.mem == mem && x.tlb == tlb
  {
    hide FindLeaf, Permits, SetDirty;
  }

  function FlushNonGlobal(tlb: Tlb): Tlb {
    seq(64, i requires 0 <= i < 64 => tlb[i].(valid := tlb[i].valid && tlb[i].global))
  }

  /* ---- Coherence ---- */

  /** A cached entry agrees with the leaf its walk reaches, except that its D bit may lag behind. */
  predicate Matches(te: TlbEntry, leaf: Leaf) {
    && te.spPaBase == leaf.addr
    && te.superpage == leaf.superpage
    && te.global == Bit(leaf.pte, 0x200)
    && te.flags < 0x1000
    && te.flags / 4 == leaf.pte / 4 % 0x400 && te.flags % 2 == leaf.pte % 2
    && (Dirty(te.flags) ==> Dirty(leaf.pte))
    && te.pa == (if te.superpage then 0 else leaf.pte / 0x1000 * 0x1000)
  }

  /** The first address of the cached page. */
  function TagVa(te: TlbEntry): Word {
    te.vaTag % 0x10_0000 * 0x1000
  }

  predicate EntryCoherent(mem: Mem, satp: Word, te: TlbEntry) {
    && te.vaTag < 0x10_0000
    && var leaf := FindLeaf(mem, satp, TagVa(te));
       leaf.Some? && Matches(te, leaf.value)
  }

  predicate Coherent(mem: Mem, tlb: Tlb, satp: Word) {
    forall i :: 0 <= i < 64 && tlb[i].valid ==> EntryCoherent(mem, satp, tlb[i])
  }
}
