/** The TLB refines the page walk: from a coherent TLB every access has the result, the fault and the
    memory effect it would have on a machine that always walks, and coherence is kept. */
module TlbRefinement {
  import opened Words
  import opened Memory
  import opened Mmu

  /* ---- The D bit is invisible to walks ---- */

  lemma WithDFacts(p: Word)
    ensures EqualButD(p, WithD(p)) && Dirty(WithD(p)) && (Dirty(p) ==> WithD(p) == p)
  {
    var q, b := p / 4, p % 2;
    var h := p % 4 / 2;
    Halves(q, h, b);
    Halves(q, 1, b);
  }

  lemma Halves(q: nat, h: nat, b: nat)
    requires h < 2 && b < 2
    ensures var n := 4 * q + 2 * h + b; n / 4 == q && n % 4 == 2 * h + b && n % 2 == b
  {
    DivUnique(4 * q + 2 * h + b, 4, q, 2 * h + b);
    DivUnique(4 * q + 2 * h + b, 2, 2 * q + h, b);
  }

  lemma Quarters(p: Word)
    ensures p / 0x20 == p / 4 / 8 && p / 0x40 == p / 4 / 0x10 && p / 0x80 == p / 4 / 0x20
    ensures p / 0x100 == p / 4 / 0x40 && p / 0x200 == p / 4 / 0x80
    ensures p / 0x1000 == p / 4 / 0x400 && p / 0x40_0000 == p / 4 / 0x10_0000
  {
  }

  /** Everything a walk or a permission check looks at survives a change of the D bit. */
  lemma EqualButDDecides(p: Word, q: Word)
    requires EqualButD(p, q)
    ensures p / 0x1000 == q / 0x1000 && p / 0x40_0000 == q / 0x40_0000 && p / 0x20 % 8 == q / 0x20 % 8
    ensures Bit(p, 1) == Bit(q, 1) && Bit(p, 0x200) == Bit(q, 0x200)
    ensures forall user, acc :: Permits(p, user, acc) == Permits(q, user, acc)
  {
    Quarters(p);
    Quarters(q);
  }

  lemma ShiftedBit(y: nat, x: nat, c: nat, k: nat)
    requires c > 0 && y == 2 * (k * c) + x
    ensures y / c % 2 == x / c % 2
  {
    var q, r := x / c, x % c;
    Distribute(k, k, c);
    Distribute(2 * k, q, c);
    DivUnique(y, c, 2 * k + q, r);
    DivUnique(2 * k + q, 2, k + q / 2, q % 2);
  }

  lemma Distribute(a: nat, b: nat, c: nat)
    ensures (a + b) * c == a * c + b * c
  {
  }

  /** The twelve cached flag bits decide permissions as the full entry does. */
  lemma FlagsDecide(flags: Word, pte: Word)
    requires flags / 4 == pte / 4 % 0x400
    ensures forall user, acc :: Permits(flags, user, acc) == Permits(pte, user, acc)
  {
    hide Permits;
    var x, y := flags / 4, pte / 4;
    var k := y / 0x400;
    assert y == 0x400 * k + x;
    ShiftedBit(y, x, 8, 0x40 * k);
    ShiftedBit(y, x, 0x10, 0x20 * k);
    ShiftedBit(y, x, 0x20, 0x10 * k);
    ShiftedBit(y, x, 0x40, 8 * k);
    Quarters(flags);
    Quarters(pte);
    SameBitsPermit(flags, pte);
  }

  lemma SameBitsPermit(p: Word, q: Word)
    requires p / 0x20 % 2 == q / 0x20 % 2 && p / 0x40 % 2 == q / 0x40 % 2
    requires p / 0x80 % 2 == q / 0x80 % 2 && p / 0x100 % 2 == q / 0x100 % 2
    ensures forall user, acc :: Permits(p, user, acc) == Permits(q, user, acc)
  {
  }

  /** Setting D in one aligned word changes no other aligned word, and only bit 1 of its own. */
  lemma SetDirtyReads(mem: Mem, a: Word, b: Word)
    requires a + 4 <= MEM_SIZE && a % 4 == 0 && b % 4 == 0
    ensures Read32(SetDirty(mem, a), b) == if a == b then WithD(Read32(mem, b)) else Read32(mem, b)
  {
    if a == b {
      ReadOverWrite(mem, a, 4, WithD(Read32(mem, a)));
    } else {
      ReadMissesWrite(mem, a, 4, WithD(Read32(mem, a)), b);
    }
  }

  /** Two walks that agree but for the D bit of the leaf, which may only have been set. */
  predicate SameWalk(x: Option<Leaf>, y: Option<Leaf>) {
    && x.Some? == y.Some?
    && (x.Some? ==>
          && x.value.addr == y.value.addr && x.value.superpage == y.value.superpage
          && EqualButD(x.value.pte, y.value.pte)
          && (Dirty(x.value.pte) ==> Dirty(y.value.pte)))
  }

  lemma AddressesAligned(satp: Word, va: Word)
    ensures L1Addr(satp, va) % 4 == 0
    ensures forall pte :: L2Addr(pte, va) % 4 == 0
  {
    DivUnique(L1Addr(satp, va), 4, satp % 0x10_0000 * 0x400 + va / 0x40_0000, 0);
    forall pte: Word ensures L2Addr(pte, va) % 4 == 0 {
      DivUnique(L2Addr(pte, va), 4, pte / 0x1000 * 0x400 + va / 0x1000 % 0x400, 0);
    }
  }

  lemma PointerButD(p: Word, q: Word, va: Word)
    requires p / 0x1000 == q / 0x1000
    ensures L2Addr(p, va) == L2Addr(q, va)
  {
  }

  /** A D-bit write changes no walk at all, except for the D bit of the leaf it finds. */
  lemma DirtyKeepsWalks(mem: Mem, a: Word, satp: Word, va: Word)
    requires a + 4 <= MEM_SIZE && a % 4 == 0
    ensures SameWalk(FindLeaf(mem, satp, va), FindLeaf(SetDirty(mem, a), satp, va))
  {
    hide Read32, SetDirty, L1Addr, L2Addr, Bit, WithD, Dirty, EqualButD;
    AddressesAligned(satp, va);
    var mem' := SetDirty(mem, a);
    var a1 := L1Addr(satp, va);
    DirtyReads(mem, a, a1);
    if PteReachable(a1) {
      var p, q := Read32(mem, a1), Read32(mem', a1);
      EqualButDDecides(p, q);
      PointerButD(p, q, va);
      DirtyReads(mem, a, L2Addr(p, va));
      EqualButDDecides(Read32(mem, L2Addr(p, va)), Read32(mem', L2Addr(p, va)));
    }
  }

  lemma DirtyReads(mem: Mem, a: Word, b: Word)
    requires a + 4 <= MEM_SIZE && a % 4 == 0 && b % 4 == 0
    ensures var p, q := Read32(mem, b), Read32(SetDirty(mem, a), b);
      EqualButD(p, q) && (Dirty(p) ==> Dirty(q))
  {
    hide Read32, SetDirty;
    SetDirtyReads(mem, a, b);
    WithDFacts(Read32(mem, b));
  }

  /** Walks see only the page number; leaf entries are aligned words inside memory. */
  lemma FindLeafFacts(mem: Mem, satp: Word, va: Word)
    ensures var l := FindLeaf(mem, satp, va);
      l.Some? ==> l.value.addr % 4 == 0 && l.value.addr + 4 <= MEM_SIZE && l.value.pte == Read32(mem, l.value.addr)
    ensures FindLeaf(mem, satp, va) == FindLeaf(mem, satp, va / 0x1000 * 0x1000)
  {
    hide Read32, L1Addr, L2Addr, Bit;
    AddressesAligned(satp, va);
    PageOnly(satp, va);
  }

  lemma PageOnly(satp: Word, va: Word)
    ensures L1Addr(satp, va / 0x1000 * 0x1000) == L1Addr(satp, va)
    ensures forall pte :: L2Addr(pte, va / 0x1000 * 0x1000) == L2Addr(pte, va)
  {
    var v := va / 0x1000;
    DivUnique(v * 0x1000, 0x1000, v, 0);
    DivUnique(v * 0x1000, 0x40_0000, v / 0x400, v % 0x400 * 0x1000);
    DivUnique(va, 0x40_0000, v / 0x400, v % 0x400 * 0x1000 + va % 0x1000);
  }

  lemma MatchesButD(te: TlbEntry, l: Leaf, m: Leaf)
    requires Matches(te, l) && SameWalk(Some(l), Some(m))
    ensures Matches(te, m)
  {
    EqualButDDecides(l.pte, m.pte);
  }

  /** Any D-bit write keeps the whole TLB coherent. */
  lemma DirtyKeepsCoherence(mem: Mem, tlb: Tlb, satp: Word, a: Word)
    requires a + 4 <= MEM_SIZE && a % 4 == 0 && Coherent(mem, tlb, satp)
    ensures Coherent(SetDirty(mem, a), tlb, satp)
  {
    forall i | 0 <= i < 64 && tlb[i].valid ensures EntryCoherent(SetDirty(mem, a), satp, tlb[i]) {
      var va := TagVa(tlb[i]);
      DirtyKeepsWalks(mem, a, satp, va);
      MatchesButD(tlb[i], FindLeaf(mem, satp, va).value, FindLeaf(SetDirty(mem, a), satp, va).value);
    }
  }

  /* ---- One access ---- */

  /** When does the address served by a TLB hit equal the walk's? Always for a 4 KB page. A superpage hit
      ORs the address of the L1 entry into the offset, so it is right exactly when the entry lies in the
      superpage it maps and its offset there is covered by the bits of the accessed offset. */
  predicate HitAddressRight(te: TlbEntry, leaf: Leaf, va: Word) {
    te.superpage ==>
      && te.spPaBase / 0x40_0000 == leaf.pte / 0x40_0000
      && And(te.spPaBase % 0x40_0000, va % 0x40_0000) == te.spPaBase % 0x40_0000
  }

  lemma {:induction false} AndHigh(a: nat, b: nat, n: nat)
    requires b < Pow2(n)
    ensures And(a, b) == And(a % Pow2(n), b)
  {
    if n == 0 || a == 0 || b == 0 {
    } else {
      HalfMod(a, Pow2(n - 1));
      AndHigh(a / 2, b / 2, n - 1);
    }
  }

  lemma HitPaIsWalkPa(te: TlbEntry, leaf: Leaf, va: Word)
    requires Matches(te, leaf)
    ensures HitPa(te, va) == LeafPa(leaf, va) <==> HitAddressRight(te, leaf, va)
  {
    hide OrW, And;
    if te.superpage {
      SuperpagePa(te.spPaBase, leaf.pte, va % 0x40_0000);
    } else {
      PagePa(leaf.pte / 0x1000, va % 0x1000);
    }
  }

  /** A superpage hit: the or of the entry's own address `a` and the offset, against the superpage and the offset. */
  lemma SuperpagePa(a: Word, pte: Word, off: Word)
    requires off < 0x40_0000
    ensures OrW(a, off) == pte / 0x40_0000 * 0x40_0000 + off <==>
      a / 0x40_0000 == pte / 0x40_0000 && And(a % 0x40_0000, off) == a % 0x40_0000
  {
    hide And, Pow2;
    Pow2Literals();
    var n := And(a, off);
    AndHigh(a, off, 22);
    assert n == And(a % 0x40_0000, off) <= a % 0x40_0000;
    assert OrW(a, off) == a - n + off;
    SuperpageOr(a, pte, n);
  }

  lemma PagePa(page: Word, off: Word)
    requires page < 0x10_0000 && off < 0x1000
    ensures OrW(page * 0x1000, off) == page * 0x1000 + off
  {
    hide And, Pow2;
    Pow2Literals();
    MultipleMod(page, 0x1000);
    AndDisjoint(page * 0x1000, off, 12);
  }

  lemma SuperpageOr(a: Word, pte: Word, n: nat)
    requires n <= a % 0x40_0000
    ensures a - n == pte / 0x40_0000 * 0x40_0000 <==> a / 0x40_0000 == pte / 0x40_0000 && n == a % 0x40_0000
  {
    DivUnique(a - n, 0x40_0000, a / 0x40_0000, a % 0x40_0000 - n);
    DivUnique(pte / 0x40_0000 * 0x40_0000, 0x40_0000, pte / 0x40_0000, 0);
  }

  lemma HitRefinesWalk(mem: Mem, tlb: Tlb, satp: Word, user: bool, va: Word, acc: Access)
    requires Coherent(mem, tlb, satp) && !Bypassed(satp, va) && Hits(tlb, va)
    ensures var te := tlb[va / 0x1000 % 64];
      var leaf := FindLeaf(mem, satp, va);
      var c := HitTranslate(mem, tlb, user, va, acc);
      var w := WalkTranslate(mem, tlb, satp, user, va, acc);
      && leaf.Some? && Matches(te, leaf.value)
      && c.mem == w.mem && c.pa.Some? == w.pa.Some?
      && (c.pa.Some? ==> (c.pa == w.pa <==> HitAddressRight(te, leaf.value, va)))
      && Coherent(c.mem, c.tlb, satp)
  {
    hide Read32, SetDirty, FindLeaf, HitPa, LeafPa, HitAddressRight;
    var i := va / 0x1000 % 64;
    var te := tlb[i];
    FindLeafFacts(mem, satp, va);
    var leaf := FindLeaf(mem, satp, va).value;
    assert Matches(te, leaf);
    FlagsDecide(te.flags, leaf.pte);
    HitPaIsWalkPa(te, leaf, va);
    if acc.Store? && Permits(te.flags, user, acc) {
      if Dirty(te.flags) {
        WriteBack(mem, leaf.addr);
      } else {
        var mem' := SetDirty(mem, leaf.addr);
        DirtyKeepsCoherence(mem, tlb, satp, leaf.addr);
        SetDirtyReads(mem, leaf.addr, leaf.addr);
        DirtyKeepsWalks(mem, leaf.addr, satp, TagVa(te));
        FindLeafFacts(mem', satp, TagVa(te));
        DirtiedMatches(te, leaf, FindLeaf(mem', satp, TagVa(te)).value);
      }
    }
  }

  /** For the result of a hit only the entry hit has to be coherent. */
  lemma FreshHitIsWalk(mem: Mem, tlb: Tlb, satp: Word, user: bool, va: Word, acc: Access)
    requires !Bypassed(satp, va) && Hits(tlb, va) && EntryCoherent(mem, satp, tlb[va / 0x1000 % 64])
    ensures var te := tlb[va / 0x1000 % 64];
      var leaf := FindLeaf(mem, satp, va);
      var c := HitTranslate(mem, tlb, user, va, acc);
      var w := WalkTranslate(mem, tlb, satp, user, va, acc);
      && leaf.Some? && c.mem == w.mem && c.pa.Some? == w.pa.Some?
      && (c.pa.Some? ==> (c.pa == w.pa <==> HitAddressRight(te, leaf.value, va)))
  {
    hide Read32, SetDirty, FindLeaf, HitPa, LeafPa, HitAddressRight;
    var te := tlb[va / 0x1000 % 64];
    FindLeafFacts(mem, satp, va);
    var leaf := FindLeaf(mem, satp, va).value;
    assert Matches(te, leaf);
    FlagsDecide(te.flags, leaf.pte);
    HitPaIsWalkPa(te, leaf, va);
    if acc.Store? && Permits(te.flags, user, acc) && Dirty(te.flags) {
      WriteBack(mem, leaf.addr);
    }
  }

  lemma DirtiedMatches(te: TlbEntry, leaf: Leaf, leaf': Leaf)
    requires Matches(te, leaf) && SameWalk(Some(leaf), Some(leaf')) && leaf'.pte == WithD(leaf.pte)
    ensures Matches(te.(flags := WithD(te.flags)), leaf')
  {
    EqualButDDecides(leaf.pte, leaf'.pte);
    WithDFacts(te.flags);
    WithDFacts(leaf.pte);
    assert WithD(te.flags) == te.flags / 4 * 4 + 2 + te.flags % 2;
  }

  lemma WriteBack(mem: Mem, a: Word)
    requires a + 4 <= MEM_SIZE && Dirty(Read32(mem, a))
    ensures SetDirty(mem, a) == mem
  {
    WithDFacts(Read32(mem, a));
    WriteSame(mem, a, mem[a], mem[a + 1], mem[a + 2], mem[a + 3]);
  }

  lemma WriteSame(mem: Mem, a: Word, b0: Byte, b1: Byte, b2: Byte, b3: Byte)
    requires a + 4 <= MEM_SIZE && [b0, b1, b2, b3] == mem[a..a + 4]
    ensures Write32(mem, a, b0 + 0x100 * b1 + 0x1_0000 * b2 + 0x100_0000 * b3) == mem
  {
    var v := b0 + 0x100 * b1 + 0x1_0000 * b2 + 0x100_0000 * b3;
    assert mem[a..a + 4][0] == mem[a] && mem[a..a + 4][1] == mem[a + 1]
        && mem[a..a + 4][2] == mem[a + 2] && mem[a..a + 4][3] == mem[a + 3];
    assert v % 0x100 == b0;
    assert v / 0x100 == b1 + 0x100 * b2 + 0x1_0000 * b3;
    assert v / 0x1_0000 == b2 + 0x100 * b3;
  }

  /** The entry filled in by a miss matches the leaf it was filled from. */
  lemma FillMatches(va: Word, leaf: Leaf, pte: Word)
    requires va < MMIO_BASE
    ensures Matches(Fill(va, leaf, pte), leaf.(pte := pte))
    ensures Fill(va, leaf, pte).vaTag == va / 0x1000 < 0x10_0000
  {
    LowTwelve(pte);
  }

  lemma LowTwelve(p: Word)
    ensures p % 0x1000 / 4 == p / 4 % 0x400 && p % 0x1000 % 4 == p % 4 && p % 0x1000 % 2 == p % 2
  {
    var k, f := p / 0x1000, p % 0x1000;
    DivUnique(p, 4, 0x400 * k + f / 4, f % 4);
    DivUnique(0x400 * k + f / 4, 0x400, k, f / 4);
    DivUnique(p, 2, 0x800 * k + f / 2, f % 2);
  }

  lemma MissRefinesWalk(mem: Mem, tlb: Tlb, satp: Word, user: bool, va: Word, acc: Access)
    requires Coherent(mem, tlb, satp) && !Bypassed(satp, va)
    ensures var c := MissTranslate(mem, tlb, satp, user, va, acc);
      var w := WalkTranslate(mem, tlb, satp, user, va, acc);
      c.mem == w.mem && c.pa == w.pa && Coherent(c.mem, c.tlb, satp)
  {
    hide Read32, SetDirty, FindLeaf, Matches, Fill, LeafPa, WithD;
    FindLeafFacts(mem, satp, va);
    var c := MissTranslate(mem, tlb, satp, user, va, acc);
    var leaf := FindLeaf(mem, satp, va);
    if leaf.Some? && Permits(leaf.value.pte, user, acc) {
      var a := leaf.value.addr;
      if acc.Store? {
        DirtyKeepsCoherence(mem, tlb, satp, a);
        SetDirtyReads(mem, a, a);
        DirtyKeepsWalks(mem, a, satp, va);
      }
      FindLeafFacts(c.mem, satp, va);
      var leaf' := FindLeaf(c.mem, satp, va).value;
      FillMatches(va, leaf.value, leaf'.pte);
    }
  }

  /** Main result for one access. Faults, memory (D bits included) and the next TLB's coherence always
      agree with the walking machine; the address agrees exactly when no superpage hit goes astray. */
  lemma TlbRefinesWalk(mem: Mem, tlb: Tlb, satp: Word, user: bool, va: Word, acc: Access)
    requires Coherent(mem, tlb, satp)
    ensures var c := CachedTranslate(mem, tlb, satp, user, va, acc);
      var w := WalkTranslate(mem, tlb, satp, user, va, acc);
      && c.mem == w.mem && c.pa.Some? == w.pa.Some?
      && Coherent(c.mem, c.tlb, satp)
      && (c.pa == w.pa <==> (c.pa.Some? && !Bypassed(satp, va) && Hits(tlb, va) ==>
            FindLeaf(mem, satp, va).Some?
            && HitAddressRight(tlb[va / 0x1000 % 64], FindLeaf(mem, satp, va).value, va)))
  {
    if !Bypassed(satp, va) {
      if Hits(tlb, va) {
        HitRefinesWalk(mem, tlb, satp, user, va, acc);
      } else {
        MissRefinesWalk(mem, tlb, satp, user, va, acc);
      }
    }
  }

  /* ---- What else keeps the TLB coherent ---- */

  predicate Apart(a: nat, n: nat, b: nat) {
    a + n <= b || b + 4 <= a
  }

  /** The bytes [a, a+n) miss every page-table word read by the walk of a valid entry. */
  predicate MissesWalks(tlb: Tlb, satp: Word, a: nat, n: nat) {
    forall i :: 0 <= i < 64 && tlb[i].valid ==>
      Apart(a, n, tlb[i].spPaBase) && Apart(a, n, L1Addr(satp, TagVa(tlb[i])))
  }

  /** A store that misses the tables in use changes no cached walk. */
  lemma StoreKeepsCoherence(mem: Mem, tlb: Tlb, satp: Word, a: nat, n: Width, v: int)
    requires a + n <= MEM_SIZE && Coherent(mem, tlb, satp) && MissesWalks(tlb, satp, a, n)
    ensures Coherent(WriteN(mem, a, n, v), tlb, satp)
  {
    hide Read32, WriteN, L1Addr, L2Addr, Bit;
    var mem' := WriteN(mem, a, n, v);
    forall i | 0 <= i < 64 && tlb[i].valid ensures EntryCoherent(mem', satp, tlb[i]) {
      var va := TagVa(tlb[i]);
      ReadMissesWrite(mem, a, n, v, L1Addr(satp, va));
      ReadMissesWrite(mem, a, n, v, tlb[i].spPaBase);
      assert FindLeaf(mem', satp, va) == FindLeaf(mem, satp, va);
    }
  }

  /** Flushing makes the TLB coherent for any root and memory under which the surviving entries are:
      no assumption on the flushed ones, nor on what was done to the tables before. */
  lemma FlushRestoresCoherence(mem: Mem, tlb: Tlb, satp: Word)
    ensures Coherent(mem, FlushNonGlobal(tlb), satp) <==>
      forall i :: 0 <= i < 64 && tlb[i].valid && tlb[i].global ==> EntryCoherent(mem, satp, tlb[i])
  {
    hide FindLeaf, Matches;
    var f := FlushNonGlobal(tlb);
    forall i | 0 <= i < 64 && tlb[i].valid && tlb[i].global
      ensures f[i] == tlb[i]
    {
    }
    if Coherent(mem, f, satp) {
      forall i | 0 <= i < 64 && tlb[i].valid && tlb[i].global ensures EntryCoherent(mem, satp, tlb[i]) {
        assert f[i].valid;
      }
    }
  }

  /** Changing the root: the flushed TLB is coherent for the new root exactly when every surviving
      global entry is mapped there by the very same leaf. */
  lemma RootSwitchCoherence(mem: Mem, tlb: Tlb, satp: Word, satp': Word)
    requires Coherent(mem, tlb, satp)
    ensures Coherent(mem, FlushNonGlobal(tlb), satp') <==>
      forall i :: 0 <= i < 64 && tlb[i].valid && tlb[i].global ==>
        FindLeaf(mem, satp', TagVa(tlb[i])) == FindLeaf(mem, satp, TagVa(tlb[i]))
  {
    FlushRestoresCoherence(mem, tlb, satp');
    forall i | 0 <= i < 64 && tlb[i].valid && tlb[i].global
      ensures EntryCoherent(mem, satp', tlb[i]) <==>
        FindLeaf(mem, satp', TagVa(tlb[i])) == FindLeaf(mem, satp, TagVa(tlb[i]))
    {
      hide FindLeaf, Read32;
      FindLeafFacts(mem, satp, TagVa(tlb[i]));
      FindLeafFacts(mem, satp', TagVa(tlb[i]));
    }
  }

  /** The address of a superpage hit does go astray: a leaf for VA 0 whose L1 entry sits at 0x1000
      maps VA 0x10 to 0x10, but the hit after the fill answers 0x1010. */
  lemma SuperpageHitAstray(mem: Mem, tlb: Tlb)
    requires !tlb[0].valid && Read32(mem, 0x1000) == 0x21
    ensures var satp: Word := 0x8000_0001;
      var first := CachedTranslate(mem, tlb, satp, false, 0x10, Load);
      var second := CachedTranslate(first.mem, first.tlb, satp, false, 0x10, Load);
      && first.pa == WalkTranslate(mem, tlb, satp, false, 0x10, Load).pa == Some(0x10)
      && second.pa == Some(0x1010)
  {
    hide Read32;
    Pow2Literals();
    assert Root(0x8000_0001) == 0x1000;
    assert FindLeaf(mem, 0x8000_0001, 0x10) == Some(Leaf(0x1000, 0x21, true));
    assert Permits(0x21, false, Load);
    AndDisjoint(0x1000, 0x10, 12);
  }
}
