/** Assembling to an object file and linking it gives the bytes of a flat assembly. */
module Toolchain {
  import opened Words
  import opened Memory
  import opened OpTable
  import opened Lexer
  import opened Assembler
  import opened Passes
  import opened Symbols
  import opened Dobj
  import opened Linker
  import opened Moving
  import opened Tables

  /* ---- Emissions put together ---- */

  lemma ReadInAppend(a: seq<Byte>, b: seq<Byte>, o: nat)
    ensures o + 4 <= |a| ==> Read32(a + b, o) == Read32(a, o)
    ensures o + 4 <= |b| ==> Read32(a + b, |a| + o) == Read32(b, o)
  {
  }

  lemma DoneInPrefix(r: Reloc, g: seq<Byte>, f: seq<Byte>, g2: seq<Byte>, f2: seq<Byte>, syms: Symtab, shift: nat)
    requires RelocDone(r, g, f, syms, shift)
    ensures RelocDone(r, g + g2, f + f2, syms, shift)
  {
    hide PatchWord, Read32, Int32, Wrap;
    ReadInAppend(g, g2, r.offset);
    ReadInAppend(f, f2, r.offset);
  }

  lemma DoneInSuffix(r: Reloc, g: seq<Byte>, f: seq<Byte>, g2: seq<Byte>, f2: seq<Byte>, syms: Symtab, shift: nat)
    requires |g| == |f| && |g| + |g2| < 0x1_0000_0000 && RelocDone(r, g2, f2, syms, shift)
    ensures Place(r, |g|).offset == |g| + r.offset
    ensures RelocDone(Place(r, |g|), g + g2, f + f2, syms, shift)
  {
    hide Read32, Int32;
    WrapSmall(|g| + r.offset);
    ReadInAppend(g, g2, r.offset);
    ReadInAppend(f, f2, r.offset);
    SameKindSamePatch(Wanted(Place(r, |g|), syms, shift), Wanted(r, syms, shift), Read32(g2, r.offset));
  }

  lemma SameKindSamePatch(s: Site, t: Site, w: Word)
    requires s.kind == t.kind && WideKind(s.kind) && s.target == t.target
    ensures PatchWord(s, w) == PatchWord(t, w)
  {
  }

  /** What both have emitted so far, then one more line. */
  lemma RelocatesAppend(g: Emission, f: seq<Byte>, h: Emission, e: seq<Byte>, syms: Symtab, shift: nat)
    requires Relocates(g, f, syms, shift) && Relocates(h, e, syms, shift) && |g.bytes| + |h.bytes| < 0x1_0000_0000
    ensures Relocates(Emission(g.bytes + h.bytes, g.relocs + PlaceAll(h.relocs, |g.bytes|)), f + e, syms, shift)
  {
    hide RelocDone, Wanted;
    var n, m := |g.bytes|, |g.relocs|;
    var rs := g.relocs + PlaceAll(h.relocs, n);
    forall i | 0 <= i < |rs|
      ensures RelocDone(rs[i], g.bytes + h.bytes, f + e, syms, shift)
      ensures if i < m then rs[i].offset + 4 <= n else rs[i].offset == n + h.relocs[i - m].offset
    {
      if i < m {
        DoneInPrefix(rs[i], g.bytes, f, h.bytes, e, syms, shift);
        DoneFits(g.relocs[i], g.bytes, f, syms, shift);
      } else {
        DoneInSuffix(h.relocs[i - m], g.bytes, f, h.bytes, e, syms, shift);
      }
    }
    forall k | 0 <= k < |f + e| && !Touched(rs, k) ensures (f + e)[k] == (g.bytes + h.bytes)[k] {
      if k < n {
        assert !Touched(g.relocs, k) by {
          forall i | 0 <= i < m ensures !InWord(g.relocs[i], k) {
            assert !InWord(rs[i], k);
          }
        }
      } else {
        assert !Touched(h.relocs, k - n) by {
          forall i | 0 <= i < |h.relocs| ensures !InWord(h.relocs[i], k - n) {
            assert !InWord(rs[m + i], k);
          }
        }
      }
    }
  }

  lemma DoneFits(r: Reloc, g: seq<Byte>, f: seq<Byte>, syms: Symtab, shift: nat)
    requires RelocDone(r, g, f, syms, shift)
    ensures r.offset + 4 <= |g| && r.offset + 4 <= |f|
  {
  }

  /** A later table with the same labels will do. */
  lemma RelocatesKept(g: Emission, f: seq<Byte>, a: Symtab, b: Symtab, shift: nat)
    requires Relocates(g, f, a, shift) && KeepsLabels(a, b)
    ensures Relocates(g, f, b, shift)
  {
    hide PatchWord, Read32, Int32, Wrap;
    forall i | 0 <= i < |g.relocs| ensures RelocDone(g.relocs[i], g.bytes, f, b, shift) {
      assert RelocDone(g.relocs[i], g.bytes, f, a, shift);
    }
  }

  /* ---- Pass 2, object file against flat program ---- */

  /** The flat program has emitted `shift` zeros and then the relocated bytes of the object file. */
  predicate Follows(p: Pass2, q: Pass2, shift: nat) {
    && |q.out| == shift + |p.out|
    && q.out[..shift] == Zeros(shift)
    && q.syms == Move(p.syms, shift)
    && Relocates(Emission(p.out, p.relocs), q.out[shift..], p.syms, shift)
  }

  predicate MovedPass2(a: Option<Pass2>, b: Option<Pass2>, shift: nat) {
    && (b.Some? <==> a.Some? && |a.value.out| + shift <= MAX_OUTPUT)
    && (b.Some? ==> Follows(a.value, b.value, shift))
  }

  ghost predicate GoodTable(lines: seq<Line>, syms: Symtab, shift: nat) {
    TableOf(lines, syms, shift) && UniqueNames(syms)
  }

  lemma FollowsLine(p: Pass2, q: Pass2, g: Emission, f: Emission, t: Symtab, shift: nat)
    requires Follows(p, q, shift) && Relocates(g, f.bytes, p.syms, shift) && KeepsLabels(p.syms, t)
    requires |p.out| + |g.bytes| + shift <= MAX_OUTPUT
    ensures Follows(Pass2(p.out + g.bytes, t, p.relocs + PlaceAll(g.relocs, |p.out|)),
                    Pass2(q.out + f.bytes, Move(t, shift), q.relocs + PlaceAll(f.relocs, |q.out|)), shift)
  {
    hide Relocates, Move, KeepsLabels;
    RelocatesLength(g, f.bytes, p.syms, shift);
    RelocatesAppend(Emission(p.out, p.relocs), q.out[shift..], g, f.bytes, p.syms, shift);
    assert (q.out + f.bytes)[shift..] == q.out[shift..] + f.bytes;
    assert (q.out + f.bytes)[..shift] == q.out[..shift];
    RelocatesKept(Emission(p.out + g.bytes, p.relocs + PlaceAll(g.relocs, |p.out|)), q.out[shift..] + f.bytes,
        p.syms, t, shift);
  }

  lemma RelocatesLength(g: Emission, f: seq<Byte>, syms: Symtab, shift: nat)
    requires Relocates(g, f, syms, shift)
    ensures |g.bytes| == |f|
  {
  }

  lemma TableSound(lines: seq<Line>, syms: Symtab, shift: nat)
    requires GoodTable(lines, syms, shift)
    ensures Sound(lines, syms, 0)
  {
  }

  lemma Pass2LineMoves(lines: seq<Line>, toks: Line, p: Pass2, q: Pass2, shift: nat)
    requires GoodTable(lines, p.syms, shift) && Follows(p, q, shift) && |q.out| <= MAX_OUTPUT
    requires Linkable(lines, toks) && (shift == 0 || Movable(lines, toks, shift))
    ensures MovedPass2(Pass2Line(toks, p, 0, true), Pass2Line(toks, q, 0, false), shift)
  {
    hide LineBytes, LineSymbols, Relocates, Linkable, Movable, TableOf, UniqueNames, Sound, Move, KeepsLabels,
         Follows, Agree;
    FollowsFacts(p, q, shift);
    TableSound(lines, p.syms, shift);
    var org := |p.out|;
    WrapSmall(org);
    WrapSmall(org + shift);
    LineMoves(lines, toks, p.syms, shift, org);
    LineSymbolsMoved(lines, toks, p.syms, shift);
    var g, f := LineBytes(toks, p.syms, org, true), LineBytes(toks, Move(p.syms, shift), org + shift, false);
    AgreeFacts(g, f, p.syms, shift);
    if g.Some? && LineSymbols(toks, p.syms).Some? {
      LineSymbolsKeep(lines, toks, p.syms, shift);
      if org + |g.value.bytes| + shift <= MAX_OUTPUT {
        FollowsLine(p, q, g.value, f.value, LineSymbols(toks, p.syms).value, shift);
      }
    }
  }

  lemma FollowsFacts(p: Pass2, q: Pass2, shift: nat)
    requires Follows(p, q, shift)
    ensures |q.out| == |p.out| + shift && q.syms == Move(p.syms, shift)
  {
  }

  lemma AgreeFacts(g: Option<Emission>, f: Option<Emission>, syms: Symtab, shift: nat)
    requires Agree(g, f, syms, shift)
    ensures g.Some? <==> f.Some?
    ensures g.Some? ==>
      |g.value.bytes| == |f.value.bytes| && f.value.relocs == [] && Relocates(g.value, f.value.bytes, syms, shift)
  {
  }

  lemma Pass2Grows(toks: Line, p: Pass2, base: Word, obj: bool)
    ensures var r := Pass2Line(toks, p, base, obj);
      r.Some? ==> |p.out| <= |r.value.out| <= MAX_OUTPUT
  {
    hide LineBytes, LineSymbols;
  }

  lemma Pass2KeepsTable(lines: seq<Line>, toks: Line, p: Pass2, base: Word, shift: nat)
    requires GoodTable(lines, p.syms, shift) && Linkable(lines, toks) && Pass2Line(toks, p, base, true).Some?
    ensures GoodTable(lines, Pass2Line(toks, p, base, true).value.syms, shift)
  {
    hide LineBytes, LineSymbols, TableOf, UniqueNames, Linkable;
    LineSymbolsKeep(lines, toks, p.syms, shift);
  }

  lemma {:induction false} Pass2Moves(lines: seq<Line>, pre: seq<Line>, k: nat, syms: Symtab, shift: nat)
    requires k <= |lines| && AllLinkable(lines) && AllMovable(lines, shift) && GoodTable(lines, syms, shift)
    requires MovedPass2(Some(Pass2([], syms, [])), RunPass2(pre + lines, |pre|, Move(syms, shift), 0, false), shift)
    ensures MovedPass2(RunPass2(lines, k, syms, 0, true),
        RunPass2(pre + lines, |pre| + k, Move(syms, shift), 0, false), shift)
    ensures RunPass2(lines, k, syms, 0, true).Some? ==>
        GoodTable(lines, RunPass2(lines, k, syms, 0, true).value.syms, shift)
  {
    hide Pass2Line, Linkable, Movable, Follows, TableOf, UniqueNames;
    if k == 0 {
    } else {
      Pass2Moves(lines, pre, k - 1, syms, shift);
      hide MovedPass2;
      var a, b := RunPass2(lines, k - 1, syms, 0, true),
          RunPass2(pre + lines, |pre| + k - 1, Move(syms, shift), 0, false);
      assert (pre + lines)[|pre| + k - 1] == lines[k - 1];
      MovedStep(lines, lines[k - 1], a, b, shift);
    }
  }

  function Then(toks: Line, p: Option<Pass2>, base: Word, obj: bool): Option<Pass2> {
    if p.None? then None else Pass2Line(toks, p.value, base, obj)
  }

  lemma MovedStep(lines: seq<Line>, toks: Line, a: Option<Pass2>, b: Option<Pass2>, shift: nat)
    requires MovedPass2(a, b, shift) && (a.Some? ==> GoodTable(lines, a.value.syms, shift))
    requires Linkable(lines, toks) && (shift == 0 || Movable(lines, toks, shift))
    ensures var c, d := Then(toks, a, 0, true), Then(toks, b, 0, false);
      MovedPass2(c, d, shift) && (c.Some? ==> GoodTable(lines, c.value.syms, shift))
  {
    hide Pass2Line, Linkable, Movable, Follows, GoodTable;
    if a.Some? {
      Pass2Grows(toks, a.value, 0, true);
      if Pass2Line(toks, a.value, 0, true).Some? {
        Pass2KeepsTable(lines, toks, a.value, 0, shift);
      }
      if b.Some? {
        FollowsFacts(a.value, b.value, shift);
        Pass2LineMoves(lines, toks, a.value, b.value, shift);
      }
    }
  }

  /* ---- Relocation offsets count from the section's base ---- */

  function Rebase(r: Reloc, base: Word): Reloc {
    r.(offset := Wrap(r.offset - base))
  }

  function RebaseAll(rs: seq<Reloc>, base: Word): (t: seq<Reloc>)
    ensures |t| == |rs|
  {
    seq(|rs|, i requires 0 <= i < |rs| => Rebase(rs[i], base))
  }

  lemma PlaceRebased(rs: seq<Reloc>, n: nat, base: Word)
    ensures PlaceAll(rs, n - base) == RebaseAll(PlaceAll(rs, n), base)
  {
    forall i | 0 <= i < |rs| ensures Place(rs[i], n - base) == Rebase(Place(rs[i], n), base) {
      WrapTwice(n, rs[i].offset, 0 - base);
      WrapShift(Wrap(n - base) + rs[i].offset, (n - base) / 0x1_0000_0000);
    }
  }

  lemma {:induction false} Pass2Rebased(lines: seq<Line>, k: nat, syms: Symtab, base: Word)
    requires k <= |lines|
    ensures var a, b := RunPass2(lines, k, syms, 0, true), RunPass2(lines, k, syms, base, true);
      && (a.Some? <==> b.Some?)
      && (a.Some? ==> b.value == Pass2(a.value.out, a.value.syms, RebaseAll(a.value.relocs, base)))
  {
    hide LineBytes, LineSymbols, PlaceAll, Rebase;
    if k == 0 {
    } else {
      Pass2Rebased(lines, k - 1, syms, base);
      var a := RunPass2(lines, k - 1, syms, 0, true);
      if a.Some? {
        var p := a.value;
        var e := LineBytes(lines[k - 1], p.syms, Wrap(|p.out|), true);
        if e.Some? {
          PlaceRebased(e.value.relocs, |p.out|, base);
          assert RebaseAll(p.relocs + PlaceAll(e.value.relocs, |p.out|), base)
              == RebaseAll(p.relocs, base) + RebaseAll(PlaceAll(e.value.relocs, |p.out|), base);
        }
      }
    }
  }

  /* ---- Nothing before the first .org ---- */

  /** A line that defines and declares, but takes no room. */
  predicate EmitsNothing(toks: Line) {
    var ts := DropLabels(toks);
    || ts == []
    || (ts[0].Dot? && var d := DirectiveOf(ts[0].name); d.Extern? || d.Section? || d.Global? || d.Equ?)
  }

  predicate OrgLine(toks: Line, b: Word) {
    var (d, args) := LineDirective(toks);
    d.Org? && args != [] && args[0].Int? && Wrap(args[0].value) == b
  }

  /** Line `j` is the first that takes room, and sets the origin. */
  predicate OriginAt(lines: seq<Line>, j: nat, b: Word) {
    j < |lines| && b != 0 && OrgLine(lines[j], b) && forall i :: 0 <= i < j ==> EmitsNothing(lines[i])
  }

  lemma QuietLine(toks: Line, p: Pass1, q: Pass2)
    requires EmitsNothing(toks)
    ensures Pass1Line(toks, p, true).Some? ==>
      Pass1Line(toks, p, true).value.org == p.org && Pass1Line(toks, p, true).value.base == p.base
    ensures Pass2Line(toks, q, 0, true).Some? ==>
      Pass2Line(toks, q, 0, true).value.out == q.out && Pass2Line(toks, q, 0, true).value.relocs == q.relocs
  {
    hide DirectiveOf, DefineLabels, LineSymbols, Eval, SetGlobal, SetExtern, SetValue;
  }

  lemma {:induction false} QuietLines(lines: seq<Line>, j: nat, syms: Symtab)
    requires j <= |lines| && forall i :: 0 <= i < j ==> EmitsNothing(lines[i])
    ensures var p := RunPass1(lines, j, true);
      p.Some? ==> p.value.org == 0 && p.value.base == 0
    ensures var q := RunPass2(lines, j, syms, 0, true);
      q.Some? ==> q.value.out == [] && q.value.relocs == []
  {
    hide Pass1Line, Pass2Line, EmitsNothing;
    if j == 0 {
    } else {
      QuietLines(lines, j - 1, syms);
      var p, q := RunPass1(lines, j - 1, true), RunPass2(lines, j - 1, syms, 0, true);
      QuietLine(lines[j - 1], if p.Some? then p.value else Pass1(0, [], 0), if q.Some? then q.value
          else Pass2([], [], []));
    }
  }

  lemma EncodeOffsets(e: OpEntry, ts: seq<Token>, syms: Symtab, addr: Word)
    ensures var r := Encode(e, ts, syms, addr, true);
      r.Some? ==> forall i :: 0 <= i < |r.value.relocs| ==> r.value.relocs[i].offset <= 4
  {
    hide RegisterComma, Register, Eval, RegRegImm, MemOperand, IndexOperands, PeekSymbol, Instr, WordLe;
  }

  lemma LineOffsets(toks: Line, syms: Symtab, org: Word)
    ensures var r := LineBytes(toks, syms, org, true);
      r.Some? ==> forall i :: 0 <= i < |r.value.relocs| ==> r.value.relocs[i].offset <= 4
  {
    hide Encode, Eval, PeekSymbol, FindOpcode, DirectiveOf, AlignUp;
    var ts := DropLabels(toks);
    if ts != [] && ts[0].Ident? && FindOpcode(ts[0].name).Some? {
      EncodeOffsets(FindOpcode(ts[0].name).value, ts[1..], syms, org);
    }
  }

  /** Zeros up to the origin, and every relocation behind it. */
  predicate FromBase(p: Pass2, b: Word) {
    && |p.out| >= b && p.out[..b] == Zeros(b)
    && forall i :: 0 <= i < |p.relocs| ==> p.relocs[i].offset >= b
  }

  lemma LineFromBase(toks: Line, p: Pass2, b: Word)
    requires FromBase(p, b) && Pass2Line(toks, p, 0, true).Some?
    ensures FromBase(Pass2Line(toks, p, 0, true).value, b)
  {
    hide LineBytes, LineSymbols;
    LineOffsets(toks, p.syms, Wrap(|p.out|));
    var e := LineBytes(toks, p.syms, Wrap(|p.out|), true).value;
    var out := Pass2Line(toks, p, 0, true).value.out;
    assert out[..b] == p.out[..b];
    forall i | 0 <= i < |e.relocs| ensures Place(e.relocs[i], |p.out|).offset >= b {
      WrapSmall(|p.out| + e.relocs[i].offset);
    }
  }

  lemma OriginLine(toks: Line, p: Pass1, q: Pass2, b: Word)
    requires OrgLine(toks, b) && b != 0 && p.base == 0 && q.out == [] && q.relocs == []
    ensures Pass1Line(toks, p, true).Some? ==> Pass1Line(toks, p, true).value.base == b
    ensures Pass2Line(toks, q, 0, true).Some? ==> FromBase(Pass2Line(toks, q, 0, true).value, b)
  {
    hide DirectiveOf, DefineLabels, LineSymbols;
    WrapSmall(0);
    if Pass2Line(toks, q, 0, true).Some? {
      assert Pass2Line(toks, q, 0, true).value.out == [] + Zeros(b);
    }
  }

  lemma BaseStays(toks: Line, p: Pass1)
    requires p.base != 0 && Pass1Line(toks, p, true).Some?
    ensures Pass1Line(toks, p, true).value.base == p.base
  {
    hide DirectiveOf, DefineLabels, DirectiveSize, Eval, SetGlobal, SetExtern, SetValue, InstrSize, AlignUp;
  }

  lemma {:induction false} AfterOrigin(lines: seq<Line>, j: nat, b: Word, k: nat, syms: Symtab)
    requires OriginAt(lines, j, b) && j < k <= |lines|
    ensures var p := RunPass1(lines, k, true);
      p.Some? ==> p.value.base == b
    ensures var q := RunPass2(lines, k, syms, 0, true);
      q.Some? ==> FromBase(q.value, b)
    decreases k
  {
    hide Pass1Line, Pass2Line, EmitsNothing, OrgLine, FromBase;
    var p, q := RunPass1(lines, k - 1, true), RunPass2(lines, k - 1, syms, 0, true);
    if k == j + 1 {
      QuietLines(lines, j, syms);
      OriginLine(lines[j], if p.Some? then p.value else Pass1(0, [], 0), if q.Some? then q.value
          else Pass2([], [], []), b);
    } else {
      AfterOrigin(lines, j, b, k - 1, syms);
      if RunPass1(lines, k, true).Some? {
        BaseStays(lines[k - 1], p.value);
      }
      if RunPass2(lines, k, syms, 0, true).Some? {
        LineFromBase(lines[k - 1], q.value, b);
      }
    }
  }

  predicate NoOrg(lines: seq<Line>) {
    forall i :: 0 <= i < |lines| ==> !LineDirective(lines[i]).0.Org?
  }

  lemma NoOrgLine(toks: Line, p: Pass1)
    requires !LineDirective(toks).0.Org? && Pass1Line(toks, p, true).Some?
    ensures Pass1Line(toks, p, true).value.base == p.base
  {
    hide DirectiveOf, DefineLabels, DirectiveSize, Eval, SetGlobal, SetExtern, SetValue, InstrSize, AlignUp;
  }

  lemma {:induction false} NoOrgNoBase(lines: seq<Line>, k: nat)
    requires NoOrg(lines) && k <= |lines| && RunPass1(lines, k, true).Some?
    ensures RunPass1(lines, k, true).value.base == 0
  {
    hide Pass1Line, LineDirective;
    if k == 0 {
    } else {
      NoOrgNoBase(lines, k - 1);
      NoOrgLine(lines[k - 1], RunPass1(lines, k - 1, true).value);
    }
  }

  /* ---- Linking one object ---- */

  predicate Closed(o: Object) {
    && UniqueNames(o.syms) && |o.syms| < 0x1_0000_0000
    && (forall i :: 0 <= i < |o.syms| ==> !o.syms[i].extern)
    && (forall i :: 0 <= i < |o.relocs| ==> o.relocs[i].sym < |o.syms|)
  }

  /** What the linker makes of a relocation of an object placed at `at`. */
  function SiteAt(o: Object, at: Word, r: Reloc): Site
    requires r.sym < |o.syms|
  {
    Site(0, r.offset, r.kind, Wrap(Wrap(at + Wrap(o.syms[r.sym].addr - o.base)) + Int32(r.addend)), Wrap(at + r.offset))
  }

  function SitesAt(o: Object, at: Word): seq<Site>
    requires Closed(o)
  {
    seq(|o.relocs|, i requires 0 <= i < |o.relocs| => SiteAt(o, at, o.relocs[i]))
  }

  lemma MeaningValid(o: Object)
    requires Closed(o)
    ensures ValidIndices(Meaning(o)) && |Meaning(o).secs| == 1
    ensures forall i :: 0 <= i < |o.syms| ==> Meaning(o).syms[i].secIdx == 0
  {
    forall i | 0 <= i < |o.relocs| ensures Meaning(o).rels[i].symIdx < |o.syms| {
      WrapSmall(o.relocs[i].sym);
    }
  }

  lemma {:induction false} OneObjectGlobals(o: Object, bases: seq<Word>, k: nat)
    requires Closed(o) && k <= |o.syms| && |bases| == 1 && ValidIndices(Meaning(o))
    ensures var gs := ObjGlobals(Meaning(o), bases, 0, k, []);
      gs.Some? && forall y :: FindGlobal(gs.value, y).Some? ==> exists i :: 0 <= i < k && o.syms[i].name == y
  {
    hide Wrap;
    MeaningValid(o);
    if k == 0 {
    } else {
      OneObjectGlobals(o, bases, k - 1);
      var hs := ObjGlobals(Meaning(o), bases, 0, k - 1, []).value;
      var name := o.syms[k - 1].name;
      assert FindGlobal(hs, name).None?;
      forall y, g: GlobalSym | g.name == name && FindGlobal(hs + [g], y).Some?
          ensures exists i :: 0 <= i < k && o.syms[i].name == y {
        FindGlobalAppend(hs, g, y);
      }
    }
  }

  lemma OneObjectSites(o: Object, at: Word, gs: seq<GlobalSym>)
    requires Closed(o) && ValidIndices(Meaning(o))
    ensures ObjSites(Meaning(o), [at], 0, gs, |o.relocs|) == Some(SitesAt(o, at))
  {
    hide Wrap, Int32, ObjSites;
    MeaningValid(o);
    var m := Meaning(o);
    ObjSitesAre(m, [at], 0, gs, |o.relocs|);
    forall i | 0 <= i < |o.relocs| ensures SiteOf(m, [at], 0, gs, m.rels[i]) == Some(SiteAt(o, at, o.relocs[i])) {
      WrapSmall(o.relocs[i].sym);
      assert m.rels[i] == RelMeaning(o.relocs[i])
          && m.syms[o.relocs[i].sym] == SymMeaning(o.syms[o.relocs[i].sym], o.base);
    }
    var t := ObjSites(m, [at], 0, gs, |o.relocs|);
    forall i | 0 <= i < |o.relocs| ensures Resolves(m, gs, m.rels[i]) {
      assert SiteOf(m, [at], 0, gs, m.rels[i]).Some?;
    }
    assert t.Some? && t.value == SitesAt(o, at);
  }

  lemma OneSectionImage(at: Word, e: seq<Byte>)
    ensures Image([at], [e], 1) == Zeros(at) + e
  {
    assert Linker.End([at], [e], 1) == at + |e|;
    assert Image([at], [e], 0) == Zeros(at + |e|);
    assert Zeros(at + |e|)[..at] == Zeros(at);
  }

  lemma LinkOne(o: Object, at: Word, textBase: Word, e: seq<Byte>)
    requires Closed(o) && AssignAddresses([Sec(o.vmaHint, o.data)], textBase) == [at]
    requires AllApart(SitesAt(o, at)) && (forall s :: s in SitesAt(o, at) ==> SiteOk(s, [o.data]))
    requires Patched(SitesAt(o, at), [o.data], [e])
    ensures AllValid([Meaning(o)]) && Link([Meaning(o)], textBase) == Some(Zeros(at) + e)
  {
    hide AssignAddresses, ObjGlobals, ObjSites, SitesAt, ApplySites, Patched, SiteOk, Image, Closed, AllApart,
         ValidIndices;
    MeaningValid(o);
    var objs := [Meaning(o)];
    assert AllValid(objs);
    assert Sections(objs, 0) == [];
    assert Sections(objs, 1) == [Sec(o.vmaHint, o.data)];
    var bases := [at];
    OneObjectGlobals(o, bases, |o.syms|);
    var gs := ObjGlobals(Meaning(o), bases, 0, |o.syms|, []).value;
    assert Globals(objs, bases, 0) == Some([]);
    assert Globals(objs, bases, 1) == Some(gs);
    OneObjectSites(o, at, gs);
    assert Sites(objs, bases, gs, 0) == Some([]);
    assert [] + SitesAt(o, at) == SitesAt(o, at);
    assert Sites(objs, bases, gs, 1) == Some(SitesAt(o, at));
    assert SectionData(objs) == [o.data];
    RelocationSucceedsIff(SitesAt(o, at), [o.data]);
    ApplySitesPatches(SitesAt(o, at), [o.data]);
    PatchedUnique(SitesAt(o, at), SitesAt(o, at), [o.data], ApplySites(SitesAt(o, at), [o.data]).value, [e]);
    OneSectionImage(at, e);
  }

  /* ---- The object's data against the flat bytes ---- */

  lemma ReadSlice(x: seq<Byte>, base: nat, o: nat)
    requires base <= o && o + 4 <= |x|
    ensures Read32(x[base..], o - base) == Read32(x, o)
  {
  }

  lemma TargetMoves(addr: Word, base: Word, shift: nat, addend: int)
    requires base + shift < 0x1_0000_0000 && addend == Int32(addend)
    ensures Wrap(Wrap(base + shift + Wrap(addr - base)) + Int32(addend)) == Wrap(addr + shift + addend)
  {
    var q, r := (addr - base) / 0x1_0000_0000, (base + shift + Wrap(addr - base)) / 0x1_0000_0000;
    WrapShift(addr + shift + addend, -q - r);
    assert Wrap(base + shift + Wrap(addr - base)) + addend == addr + shift + addend + (-q - r) * 0x1_0000_0000;
  }

  lemma RebasedSite(o: Object, r: Reloc, g: seq<Byte>, f: seq<Byte>, base: Word, shift: nat)
    requires RelocDone(r, g, f, o.syms, shift) && base <= r.offset && |g| == |f| < 0x1_0000_0000
        && base + shift < 0x1_0000_0000
    requires o.base == base && o.data == g[base..]
    ensures Rebase(r, base).offset == r.offset - base
    ensures var s := SiteAt(o, base + shift, Rebase(r, base));
      SiteOk(s, [g[base..]]) && SiteDone(s, [g[base..]], [f[base..]])
  {
    hide Read32, Wrap, Int32;
    WrapSmall(r.offset - base);
    ReadSlice(g, base, r.offset);
    ReadSlice(f, base, r.offset);
    TargetMoves(o.syms[r.sym].addr, base, shift, r.addend);
    SameKindSamePatch(SiteAt(o, base + shift, Rebase(r, base)), Wanted(r, o.syms, shift), Read32(g, r.offset));
  }

  /** The sites of the object, patched, are the flat bytes. */
  lemma SitesPatched(o: Object, rs: seq<Reloc>, g: seq<Byte>, f: seq<Byte>, base: Word, shift: nat)
    requires Relocates(Emission(g, rs), f, o.syms, shift) && base <= |g| < 0x1_0000_0000 && base + shift < 0x1_0000_0000
    requires forall i :: 0 <= i < |rs| ==> rs[i].offset >= base
    requires o.base == base && o.data == g[base..] && o.relocs == RebaseAll(rs, base) && Closed(o)
    ensures var sites := SitesAt(o, base + shift);
      AllApart(sites) && (forall s :: s in sites ==> SiteOk(s, [o.data])) && Patched(sites, [o.data], [f[base..]])
  {
    hide RelocDone, SiteAt, Rebase, SiteOk, SiteDone, Read32;
    var sites := SitesAt(o, base + shift);
    var d, e := [o.data], [f[base..]];
    forall i | 0 <= i < |rs|
      ensures SiteOk(sites[i], d) && SiteDone(sites[i], d, e)
      ensures sites[i].offset == rs[i].offset - base && sites[i].sec == 0
    {
      RebasedSite(o, rs[i], g, f, base, shift);
      assert o.relocs[i] == Rebase(rs[i], base);
      assert sites[i] == SiteAt(o, base + shift, Rebase(rs[i], base));
      SiteField(o, base + shift, Rebase(rs[i], base));
    }
    forall k | 0 <= k < |d[0]| && (forall s :: s in sites ==> !Covers(s, 0, k)) ensures e[0][k] == d[0][k] {
      assert !Touched(rs, base + k) by {
        forall i | 0 <= i < |rs| ensures !InWord(rs[i], base + k) {
          assert !Covers(sites[i], 0, k);
        }
      }
    }
    forall s | s in sites ensures SiteOk(s, d) && SiteDone(s, d, e) {
      var i :| 0 <= i < |sites| && sites[i] == s;
    }
  }

  lemma SiteField(o: Object, at: Word, r: Reloc)
    requires r.sym < |o.syms|
    ensures SiteAt(o, at, r).offset == r.offset && SiteAt(o, at, r).sec == 0
  {
  }

  /* ---- The theorems ---- */

  /** The limits of the object file format. */
  predicate ObjectFits(o: Object) {
    DataOffset(o) + |o.data| < 0x1_0000_0000 && forall i :: 0 <= i < |o.syms| ==> NameFits(o.syms[i].name)
  }

  /** The file, read back and linked alone. */
  function LinkFile(file: seq<Byte>, textBase: Word): Option<seq<Byte>> {
    var m :- Load(file);
    if ValidIndices(m) then Link([m], textBase) else None
  }

  predicate OffsetsFrom(rs: seq<Reloc>, base: Word) {
    forall i :: 0 <= i < |rs| ==> rs[i].offset >= base
  }

  lemma FollowsClosed(o: Object, p: Pass2, q: Pass2, lines: seq<Line>, base: Word, shift: nat)
    requires Follows(p, q, shift) && GoodTable(lines, p.syms, shift)
    requires o.syms == p.syms && o.relocs == RebaseAll(p.relocs, base) && DataOffset(o) < 0x1_0000_0000
    ensures Closed(o) && Relocates(Emission(p.out, p.relocs), q.out[shift..], p.syms, shift)
  {
    hide Read32, PatchWord, KnownLabel, Move, Fits;
    forall i | 0 <= i < |o.relocs| ensures o.relocs[i].sym < |o.syms| {
      assert RelocDone(p.relocs[i], p.out, q.out[shift..], p.syms, shift);
    }
  }

  lemma FlatBytes(p: Pass2, q: Pass2, base: Word, shift: nat)
    requires Follows(p, q, shift) && base <= |p.out| && (shift == 0 || base == 0)
    requires OffsetsFrom(p.relocs, base) && p.out[..base] == Zeros(base)
    ensures Zeros(base + shift) + q.out[shift..][base..] == q.out
  {
    hide RelocDone, Move;
    var f := q.out[shift..];
    if shift == 0 {
      assert f == q.out;
      forall k | 0 <= k < base ensures f[k] == 0 {
        assert !Touched(p.relocs, k);
        assert p.out[..base][k] == 0;
      }
    } else {
      assert forall k :: 0 <= k < shift ==> q.out[..shift][k] == 0;
    }
  }

  /** The two pass-2 runs, put together into the object and the image. */
  lemma LinkFollows(o: Object, p: Pass2, q: Pass2, lines: seq<Line>, base: Word, shift: nat, textBase: Word)
    requires Follows(p, q, shift) && GoodTable(lines, p.syms, shift) && base <= |p.out| && |q.out| <= MAX_OUTPUT
    requires OffsetsFrom(p.relocs, base) && p.out[..base] == Zeros(base)
    requires o == Object(base, p.out[base..], base, p.syms, RebaseAll(p.relocs, base)) && ObjectFits(o)
    requires AssignAddresses([Sec(o.vmaHint, o.data)], textBase) == [base + shift] && (shift == 0 || base == 0)
    ensures LinkFile(Write(o), textBase) == Some(q.out)
  {
    hide Relocates, Write, Link, Load, AssignAddresses, Rebase, Move, NameFits, KnownLabel, TableOf, UniqueNames,
         ValidIndices;
    FollowsFacts(p, q, shift);
    FollowsClosed(o, p, q, lines, base, shift);
    RoundTrip(o);
    SitesPatched(o, p.relocs, p.out, q.out[shift..], base, shift);
    LinkOne(o, base + shift, textBase, q.out[shift..][base..]);
    assert ValidIndices([Meaning(o)][0]);
    FlatBytes(p, q, base, shift);
  }

  function ObjectOf(p: Pass2, base: Word): Object {
    Object(base, if |p.out| > base then p.out[base..] else [], base, p.syms, RebaseAll(p.relocs, base))
  }

  /** What an assembly to an object file is, in terms of a pass 2 that counts from zero. */
  lemma ObjectRun(lines: seq<Line>)
    requires RunPass1(lines, |lines|, true).Some?
    ensures var p1 := RunPass1(lines, |lines|, true).value;
      var p := RunPass2(lines, |lines|, p1.syms, 0, true);
      && (AssembleObject(lines).Some? <==> p.Some?)
      && (p.Some? ==> AssembleObject(lines).value == ObjectOf(p.value, p1.base))
  {
    hide RunPass1, RunPass2, Rebase;
    var p1 := RunPass1(lines, |lines|, true).value;
    Pass2Rebased(lines, |lines|, p1.syms, p1.base);
  }

  /** Main result, with an origin: for a source that takes no room before its first `.org`, linking the object
      file alone gives the flat image, whatever the text base; and one assembles exactly when the other does. */
  lemma LinkedIsFlat(lines: seq<Line>, j: nat, b: Word, textBase: Word)
    requires AllLinkable(lines) && OriginAt(lines, j, b)
    ensures AssembleObject(lines).Some? <==> AssembleFlat(lines).Some?
    ensures AssembleObject(lines).Some? && ObjectFits(AssembleObject(lines).value) ==>
      LinkFile(Write(AssembleObject(lines).value), textBase) == AssembleFlat(lines)
  {
    hide RunPass1, RunPass2, Linkable, LinkFile, ObjectFits, Write, OriginAt, TableOf, UniqueNames, Follows,
         RebaseAll, AssembleObject;
    var n := |lines|;
    assert [] + lines == lines;
    PassesStart(lines);
    Pass1Moves(lines, [], n, 0);
    var p1 := RunPass1(lines, n, true);
    if p1.Some? {
      var syms := p1.value.syms;
      ObjectRun(lines);
      MoveByZero(syms);
      FinalTable(lines, true, 0);
      PassTwoStart(lines, syms);
      Pass2Moves(lines, [], n, syms, 0);
      var p, q := RunPass2(lines, n, syms, 0, true), RunPass2(lines, n, syms, 0, false);
      OutputFits(lines, n, syms);
      OriginBound(lines, j, b, syms);
      if p.Some? && ObjectFits(AssembleObject(lines).value) {
        FollowsFacts(p.value, q.value, 0);
        AddressOfHint(b, p.value.out[b..], textBase);
        LinkFollows(AssembleObject(lines).value, p.value, q.value, lines, b, 0, textBase);
      }
    } else {
      NoObject(lines);
    }
  }

  lemma NoObject(lines: seq<Line>)
    requires RunPass1(lines, |lines|, true).None?
    ensures AssembleObject(lines).None?
  {
  }

  lemma PassesStart(lines: seq<Line>)
    ensures MovedPass1(Some(Pass1(0, [], 0)), RunPass1(lines, 0, false), 0)
  {
  }

  lemma PassTwoStart(lines: seq<Line>, syms: Symtab)
    ensures MovedPass2(Some(Pass2([], syms, [])), RunPass2(lines, 0, Move(syms, 0), 0, false), 0)
  {
  }

  lemma OutputFits(lines: seq<Line>, k: nat, syms: Symtab)
    requires k <= |lines|
    ensures var p := RunPass2(lines, k, syms, 0, true);
      p.Some? ==> |p.value.out| <= MAX_OUTPUT
  {
    hide Pass2Line;
    if k > 0 && RunPass2(lines, k - 1, syms, 0, true).Some? {
      Pass2Grows(lines[k - 1], RunPass2(lines, k - 1, syms, 0, true).value, 0, true);
    }
  }

  lemma OriginBound(lines: seq<Line>, j: nat, b: Word, syms: Symtab)
    requires OriginAt(lines, j, b)
    ensures b != 0
    ensures RunPass1(lines, |lines|, true).Some? ==> RunPass1(lines, |lines|, true).value.base == b
    ensures var p := RunPass2(lines, |lines|, syms, 0, true);
      p.Some? ==> |p.value.out| >= b && p.value.out[..b] == Zeros(b) && OffsetsFrom(p.value.relocs, b)
  {
    hide RunPass1, RunPass2;
    AfterOrigin(lines, j, b, |lines|, syms);
  }

  lemma AddressOfHint(b: Word, data: seq<Byte>, textBase: Word)
    requires b != 0
    ensures AssignAddresses([Sec(b, data)], textBase) == [b + 0]
  {
  }

  lemma AddressOfBase(data: seq<Byte>, b: Word)
    requires b % 4 == 0
    ensures AssignAddresses([Sec(0, data)], b) == [0 + b]
  {
    DivUnique(b + 3, 4, b / 4, 3);
    WrapSmall(b + 3);
  }

  /** The `.org` line that puts a program at `b`. */
  function Origin(b: Word): Line {
    [Dot(".org"), Int(b)]
  }

  lemma OrgIsOrg()
    ensures DirectiveOf(".org") == Org
  {
  }

  lemma OriginRuns(lines: seq<Line>, b: Word, syms: Symtab)
    ensures MovedPass1(Some(Pass1(0, [], 0)), RunPass1([Origin(b)] + lines, 1, false), b)
    ensures MovedPass2(Some(Pass2([], syms, [])), RunPass2([Origin(b)] + lines, 1, Move(syms, b), 0, false), b)
  {
    hide DirectiveOf;
    OrgIsOrg();
    WrapSmall(b);
    var prog := [Origin(b)] + lines;
    assert prog[0] == Origin(b) && Origin(b)[1..] == [Int(b)];
    assert RunPass1(prog, 0, false) == Some(Pass1(0, [], 0));
    assert RunPass2(prog, 0, Move(syms, b), 0, false) == Some(Pass2([], Move(syms, b), []));
    assert Move([], b) == [];
    if b <= MAX_OUTPUT {
      assert [] + Zeros(b) == Zeros(b) && Zeros(b)[b..] == [] && Zeros(b)[..b] == Zeros(b);
    }
  }

  /** Main result, without an origin: for a source without `.org` whose alignments divide `b`, linking the
      object file at `b` gives the flat image of the source with `.org b` put before it. */
  lemma LinkedAtBaseIsFlat(lines: seq<Line>, b: Word)
    requires AllLinkable(lines) && NoOrg(lines) && AllMovable(lines, b) && AddressesFit(lines, b, true) && b % 4 == 0
    ensures var o := AssembleObject(lines);
      var flat := AssembleFlat([Origin(b)] + lines);
      && (flat.Some? <==> o.Some? && b + |o.value.data| <= MAX_OUTPUT)
      && (flat.Some? && ObjectFits(o.value) ==> LinkFile(Write(o.value), b) == flat)
  {
    hide RunPass1, RunPass2, Linkable, LinkFile, ObjectFits, Write, NoOrg, TableOf, UniqueNames, Follows, RebaseAll,
         AssembleObject, Origin, AddressesFit, AllMovable, Move;
    var n := |lines|;
    var prog := [Origin(b)] + lines;
    OriginRuns(lines, b, []);
    Pass1Moves(lines, [Origin(b)], n, b);
    var p1 := RunPass1(lines, n, true);
    if p1.Some? {
      var syms := p1.value.syms;
      ObjectRun(lines);
      FinalTable(lines, true, b);
      OriginRuns(lines, b, syms);
      Pass2Moves(lines, [Origin(b)], n, syms, b);
      NoOrgNoBase(lines, n);
      var p, q := RunPass2(lines, n, syms, 0, true), RunPass2(prog, 1 + n, Move(syms, b), 0, false);
      if p.Some? {
        assert p.value.out[0..] == p.value.out && p.value.out[..0] == Zeros(0);
        if q.Some? && ObjectFits(AssembleObject(lines).value) {
          FollowsFacts(p.value, q.value, b);
          AddressOfBase(p.value.out, b);
          LinkFollows(AssembleObject(lines).value, p.value, q.value, lines, 0, b, b);
        }
      }
    } else {
      NoObject(lines);
    }
  }
}
