/** What page tables mean, read off their raw words: which frame a page has, which bits allow an access, and what the
    machine answers. The formulas are those of the table format, not of the walk. */
module PageTables {
  import opened Words
  import opened Memory
  import opened Mmu
  import opened TlbRefinement
  import opened Cpu

  /* ---- The format ---- */

  /** Bit 8 is for user mode; bit 5 allows loads, bit 6 stores, bit 7 fetches. */
  predicate Allowed(w: Word, user: bool, acc: Access) {
    && (user ==> w / 256 % 2 == 1)
    && (acc == Load ==> w / 32 % 2 == 1)
    && (acc == Access.Store ==> w / 64 % 2 == 1)
    && (acc == Fetch ==> w / 128 % 2 == 1)
  }

  /** The first-level word for page `v`: one word for 1024 pages. */
  function FirstAt(satp: Word, v: nat): nat {
    satp % 0x10_0000 * 4096 + 4 * (v / 1024)
  }

  /** The second-level word for page `v` in the table that the first-level word `w1` points to. */
  function SecondAt(w1: Word, v: nat): nat {
    w1 / 4096 * 4096 + 4 * (v % 1024)
  }

  /** A 4 KB page: the first-level word has bit 0 set and bits 5-7 clear, the second-level word `w` has bit 0 set. */
  predicate MapsPage(mem: Mem, satp: Word, v: nat, w: Word) {
    && FirstAt(satp, v) < 0x03F0_0000
    && var w1 := Read32(mem, FirstAt(satp, v));
       && w1 % 2 == 1 && w1 / 32 % 8 == 0
       && SecondAt(w1, v) < 0x03F0_0000 && Read32(mem, SecondAt(w1, v)) == w && w % 2 == 1
  }

  /** A 4 MB page: the first-level word `w` has bit 0 and one of bits 5-7 set. */
  predicate MapsRegion(mem: Mem, satp: Word, v: nat, w: Word) {
    && FirstAt(satp, v) < 0x03F0_0000 && Read32(mem, FirstAt(satp, v)) == w
    && w % 2 == 1 && w / 32 % 8 != 0
  }

  /** Memory after an allowed store through the entry at `at`: bit 1 of the entry is set. */
  predicate Marked(mem: Mem, mem': Mem, at: nat, acc: Access) {
    if acc == Access.Store then
      && (forall a :: 0 <= a < 0x0400_0000 && !(at <= a < at + 4) ==> mem'[a] == mem[a])
      && Read32(mem', at) == Read32(mem, at) / 4 * 4 + 2 + Read32(mem, at) % 2
    else mem' == mem
  }

  /** Two pages of one 4 MB region have different second-level words, and two regions different first-level ones. */
  lemma EntriesApart(satp: Word, w1: Word, v: nat, v': nat)
    requires v != v'
    ensures v / 1024 == v' / 1024 ==>
      SecondAt(w1, v) + 4 <= SecondAt(w1, v') || SecondAt(w1, v') + 4 <= SecondAt(w1, v)
    ensures v / 1024 != v' / 1024 ==>
      FirstAt(satp, v) + 4 <= FirstAt(satp, v') || FirstAt(satp, v') + 4 <= FirstAt(satp, v)
  {
    assert v == v / 1024 * 1024 + v % 1024 && v' == v' / 1024 * 1024 + v' % 1024;
  }

  /* ---- The reference walk ---- */

  lemma PermissionBits(w: Word, user: bool, acc: Access)
    ensures Permits(w, user, acc) <==> Allowed(w, user, acc)
  {
  }

  lemma RegionOfPage(va: Word)
    ensures va / 0x40_0000 == va / 4096 / 1024
  {
  }

  lemma LeafOfPage(mem: Mem, satp: Word, va: Word, w: Word)
    requires MapsPage(mem, satp, va / 4096, w)
    ensures FindLeaf(mem, satp, va) == Some(Leaf(SecondAt(Read32(mem, FirstAt(satp, va / 4096)), va / 4096), w, false))
  {
    hide Read32;
    RegionOfPage(va);
    AlignedRoom(satp, va);
  }

  lemma LeafOfRegion(mem: Mem, satp: Word, va: Word, w: Word)
    requires MapsRegion(mem, satp, va / 4096, w)
    ensures FindLeaf(mem, satp, va) == Some(Leaf(FirstAt(satp, va / 4096), w, true))
  {
    hide Read32;
    RegionOfPage(va);
    AlignedRoom(satp, va);
  }

  lemma AlignedRoom(satp: Word, va: Word)
    ensures FirstAt(satp, va / 4096) == L1Addr(satp, va)
  {
    RegionOfPage(va);
  }

  lemma LeafMeans(mem: Mem, satp: Word, va: Word)
    ensures FindLeaf(mem, satp, va).Some? ==>
      var leaf := FindLeaf(mem, satp, va).value;
      if leaf.superpage then MapsRegion(mem, satp, va / 4096, leaf.pte) else MapsPage(mem, satp, va / 4096, leaf.pte)
  {
    hide Read32;
    RegionOfPage(va);
    AlignedRoom(satp, va);
  }

  lemma SetDirtyMarks(mem: Mem, at: Word)
    requires at + 4 <= MEM_SIZE && at % 4 == 0
    ensures Marked(mem, SetDirty(mem, at), at, Access.Store)
  {
    hide Read32;
    SetDirtyReads(mem, at, at);
    OtherBytes(mem, at, WithD(Read32(mem, at)));
  }

  lemma OtherBytes(mem: Mem, at: Word, v: Word)
    requires at + 4 <= MEM_SIZE
    ensures forall a :: 0 <= a < 0x0400_0000 && !(at <= a < at + 4) ==> Write32(mem, at, v)[a] == mem[a]
  {
  }

  /** Main result on 4 KB pages, for every address: with translation on, page `v` mapped by the word `w`, the walk
      answers w / 4096 * 4096 + va % 4096 exactly when `w` allows the access, and else raises a page fault. */
  lemma PageAnswer(mem: Mem, tlb: Tlb, satp: Word, user: bool, va: Word, acc: Access, w: Word)
    requires satp >= 0x8000_0000 && va < 0x03F0_0000 && MapsPage(mem, satp, va / 4096, w)
    ensures var x := WalkTranslate(mem, tlb, satp, user, va, acc);
      && x.pa == (if Allowed(w, user, acc) then Some(w / 4096 * 4096 + va % 4096) else None)
      && if Allowed(w, user, acc) then
           Marked(mem, x.mem, SecondAt(Read32(mem, FirstAt(satp, va / 4096)), va / 4096), acc)
         else x.mem == mem
  {
    hide Read32, SetDirty, FindLeaf, Permits, Allowed, Marked;
    LeafOfPage(mem, satp, va, w);
    PermissionBits(w, user, acc);
    FindLeafFacts(mem, satp, va);
    var leaf := FindLeaf(mem, satp, va).value;
    SetDirtyMarks(mem, leaf.addr);
    Unmarked(mem, leaf.addr, acc);
  }

  lemma Unmarked(mem: Mem, at: nat, acc: Access)
    ensures acc != Access.Store ==> Marked(mem, mem, at, acc)
  {
  }

  /** The same for a 4 MB page: the frame comes from the upper ten bits of the first-level word. */
  lemma RegionAnswer(mem: Mem, tlb: Tlb, satp: Word, user: bool, va: Word, acc: Access, w: Word)
    requires satp >= 0x8000_0000 && va < 0x03F0_0000 && MapsRegion(mem, satp, va / 4096, w)
    ensures var x := WalkTranslate(mem, tlb, satp, user, va, acc);
      && x.pa == (if Allowed(w, user, acc) then Some(w / 0x40_0000 * 0x40_0000 + va % 0x40_0000) else None)
      && if Allowed(w, user, acc) then Marked(mem, x.mem, FirstAt(satp, va / 4096), acc) else x.mem == mem
  {
    hide Read32, SetDirty, FindLeaf, Permits, Allowed, Marked;
    LeafOfRegion(mem, satp, va, w);
    PermissionBits(w, user, acc);
    FindLeafFacts(mem, satp, va);
    var leaf := FindLeaf(mem, satp, va).value;
    SetDirtyMarks(mem, leaf.addr);
    Unmarked(mem, leaf.addr, acc);
  }

  /** And there is no other answer: a page fault is due exactly when no page and no region maps the address in a way
      that allows the access. */
  lemma NoOtherAnswer(mem: Mem, tlb: Tlb, satp: Word, user: bool, va: Word, acc: Access)
    requires satp >= 0x8000_0000 && va < 0x03F0_0000
    ensures WalkTranslate(mem, tlb, satp, user, va, acc).pa.None? <==>
      forall w: Word :: MapsPage(mem, satp, va / 4096, w) || MapsRegion(mem, satp, va / 4096, w) ==>
          !Allowed(w, user, acc)
  {
    hide Read32, SetDirty, FindLeaf, Permits, Allowed, MapsPage, MapsRegion;
    LeafMeans(mem, satp, va);
    forall w: Word | MapsPage(mem, satp, va / 4096, w)
      ensures FindLeaf(mem, satp, va).Some? && FindLeaf(mem, satp, va).value.pte == w
    {
      LeafOfPage(mem, satp, va, w);
    }
    forall w: Word | MapsRegion(mem, satp, va / 4096, w)
      ensures FindLeaf(mem, satp, va).Some? && FindLeaf(mem, satp, va).value.pte == w
    {
      LeafOfRegion(mem, satp, va, w);
    }
    if FindLeaf(mem, satp, va).Some? {
      PermissionBits(FindLeaf(mem, satp, va).value.pte, user, acc);
    }
  }

  /** Without translation, and from the devices on, an address stands for itself. */
  lemma Untranslated(mem: Mem, tlb: Tlb, satp: Word, user: bool, va: Word, acc: Access)
    requires satp < 0x8000_0000 || va >= 0x03F0_0000
    ensures WalkTranslate(mem, tlb, satp, user, va, acc) == CachedTranslate(mem, tlb, satp, user, va, acc)
            == Xlate(mem, tlb, Some(va))
  {
  }

  /* ---- The machine ---- */

  /** Every page of `f` is mapped by its word. */
  predicate TableMaps(mem: Mem, satp: Word, f: map<nat, Word>) {
    forall v :: v in f ==> MapsPage(mem, satp, v, f[v])
  }

  function FrameAddress(f: map<nat, Word>, va: Word): Word
    requires va / 4096 in f
  {
    f[va / 4096] / 4096 * 4096 + va % 4096
  }

  /** `s` translates through the table `f`, and its TLB, if it has one, agrees with the tables. */
  predicate Paged(mode: Mode, s: State, f: map<nat, Word>) {
    && s.core.satp >= 0x8000_0000 && TableMaps(s.mem, s.core.satp, f)
    && (mode.Cached? ==> Coherent(s.mem, s.tlb, s.core.satp))
  }

  /** With or without TLB: the machine answers frame times 4096 plus offset, if the entry allows the access, and
      leaves everything but the entry's D bit and the TLB alone. */
  lemma MachineAnswers(mode: Mode, s: State, f: map<nat, Word>, va: Word, acc: Access)
    requires Paged(mode, s, f) && va < 0x03F0_0000 && va / 4096 in f
    ensures var (t, pa) := Translate(mode, s, va, acc);
      var w := f[va / 4096];
      && pa == (if Allowed(w, s.core.User(), acc) then Some(FrameAddress(f, va)) else None)
      && (pa.Some? ==>
            && t.core == s.core
            && Marked(s.mem, t.mem, SecondAt(Read32(s.mem, FirstAt(s.core.satp, va / 4096)), va / 4096), acc))
  {
    hide Read32, FindLeaf, Permits, Allowed, Marked, Coherent, MapsPage, WalkTranslate, CachedTranslate,
         HitAddressRight;
    var user, satp := s.core.User(), s.core.satp;
    assert MapsPage(s.mem, satp, va / 4096, f[va / 4096]);
    PageAnswer(s.mem, s.tlb, satp, user, va, acc, f[va / 4096]);
    if mode.Cached? {
      SmallHitRight(s.mem, s.tlb, satp, user, va, acc, f[va / 4096]);
    }
  }

  lemma SmallHitRight(mem: Mem, tlb: Tlb, satp: Word, user: bool, va: Word, acc: Access, w: Word)
    requires Coherent(mem, tlb, satp) && satp >= 0x8000_0000 && va < 0x03F0_0000 && MapsPage(mem, satp, va / 4096, w)
    ensures var c, x := CachedTranslate(mem, tlb, satp, user, va, acc), WalkTranslate(mem, tlb, satp, user, va, acc);
      c.pa == x.pa && c.mem == x.mem
  {
    hide Read32, FindLeaf, Permits, MapsPage, WalkTranslate, HitTranslate, MissTranslate, Coherent;
    LeafOfPage(mem, satp, va, w);
    TlbRefinesWalk(mem, tlb, satp, user, va, acc);
    if Hits(tlb, va) {
      HitRefinesWalk(mem, tlb, satp, user, va, acc);
    }
  }

  /** A load reads the frame. */
  lemma MappedLoad(mode: Mode, s: State, f: map<nat, Word>, va: Word, n: Width)
    requires Paged(mode, s, f) && va < 0x03F0_0000 && va / 4096 in f && Allowed(f[va / 4096], s.core.User(), Load)
    requires FrameAddress(f, va) < 0x03F0_0000 && FrameAddress(f, va) % n == 0
    ensures var (t, v) := CpuRead(mode, s, va, n);
      v == ReadN(s.mem, FrameAddress(f, va), n) && t.core == s.core && t.mem == s.mem
  {
    hide Read32, ReadN, Translate, Allowed, Paged;
    MachineAnswers(mode, s, f, va, Load);
  }

  /** A store writes the frame, and nothing else but the D bit of the entry. */
  lemma MappedStore(mode: Mode, s: State, f: map<nat, Word>, va: Word, n: Width, v: Word)
    requires Paged(mode, s, f) && va < 0x03F0_0000 && va / 4096 in f
        && Allowed(f[va / 4096], s.core.User(), Access.Store)
    requires FrameAddress(f, va) < 0x03F0_0000 && FrameAddress(f, va) % n == 0
    ensures var t, pa := CpuWrite(mode, s, va, n, v), FrameAddress(f, va);
      var at := SecondAt(Read32(s.mem, FirstAt(s.core.satp, va / 4096)), va / 4096);
      && t.core == s.core && ReadN(t.mem, pa, n)
          == v % (if n == 1 then 0x100 else if n == 2 then 0x1_0000 else 0x1_0000_0000)
      && (forall a :: 0 <= a < 0x0400_0000 && !(pa <= a < pa + n) && !(at <= a < at + 4) ==> t.mem[a] == s.mem[a])
  {
    hide Read32, ReadN, WriteN, Translate, Allowed, Paged;
    MachineAnswers(mode, s, f, va, Access.Store);
    var u := Translate(mode, s, va, Access.Store).0;
    var pa := FrameAddress(f, va);
    WidthFits(pa, n);
    ReadOverWrite(u.mem, pa, n, v);
    BytesOutside(u.mem, pa, n, v);
    WholeWord(v);
  }

  lemma WidthFits(pa: nat, n: Width)
    requires pa < 0x03F0_0000 && pa % n == 0
    ensures pa + n <= 0x0400_0000
  {
  }

  lemma WholeWord(v: Word)
    ensures v % 0x1_0000_0000 == v
  {
  }

  lemma BytesOutside(m: seq<Byte>, a: nat, n: Width, v: int)
    requires a + n <= |m|
    ensures forall k :: 0 <= k < |m| && !(a <= k < a + n) ==> WriteN(m, a, n, v)[k] == m[k]
  {
  }

  /** A fetch takes the instruction from the frame. */
  lemma MappedFetch(mode: Mode, s: State, f: map<nat, Word>)
    requires Paged(mode, s, f) && s.core.r[15] < 0x03F0_0000 && s.core.r[15] / 4096 in f
    requires Allowed(f[s.core.r[15] / 4096], s.core.User(), Fetch) && FrameAddress(f, s.core.r[15]) < MEM_SIZE
    ensures Fetched(mode, s).1 == Some(Read32(s.mem, FrameAddress(f, s.core.r[15])))
  {
    hide Read32, Translate, Allowed, Coherent, TableMaps, Marked;
    var pc := s.core.r[15];
    var s0 := s.(core := s.core.(faultingPc := pc));
    assert Paged(mode, s0, f);
    MachineAnswers(mode, s0, f, pc, Fetch);
    var at := SecondAt(Read32(s.mem, FirstAt(s.core.satp, pc / 4096)), pc / 4096);
    NotMarked(s.mem, Translate(mode, s0, pc, Fetch).0.mem, at, Fetch);
  }

  lemma NotMarked(mem: Mem, mem': Mem, at: nat, acc: Access)
    requires Marked(mem, mem', at, acc) && acc != Access.Store
    ensures mem' == mem
  {
  }
}
