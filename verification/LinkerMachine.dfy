/** The linker in its own form: sections with their own mutable bytes, patched in place, and loops over the
    loaded objects. Every method is proved to have exactly the effect of its counterpart in `Linker`; `ok` is
    false where the program counts an error. */
module LinkerMachine {
  import opened Words
  import opened Memory
  import opened Assembler
  import opened Dobj
  import opened Linker

  /** A loaded section: where the linker puts it, and its bytes. */
  class Section {
    const vmaHint: Word
    const data: array<Byte>
    var base: Word

    constructor (s: Sec)
      ensures vmaHint == s.vmaHint && data[..] == s.data && fresh(data) && base == 0
    {
      vmaHint := s.vmaHint;
      var bytes := s.data;
      data := new Byte[|bytes|](i requires 0 <= i < |bytes| => bytes[i]);
      base := 0;
    }
  }

  class LinkRun {
    const objs: Objs
    /** The sections of all objects, in order. */
    const secs: seq<Section>
    var globSyms: seq<GlobalSym>

    /** The sections are those of the objects, each with an array of its own. */
    ghost predicate Valid() {
      var all := Sections(objs, |objs|);
      && AllValid(objs) && |secs| == |all|
      && (forall i :: 0 <= i < |secs| ==> secs[i].vmaHint == all[i].vmaHint && secs[i].data.Length == |all[i].data|)
      && (forall i, j :: 0 <= i < j < |secs| ==> secs[i] != secs[j] && secs[i].data != secs[j].data)
    }

    ghost function Arrays(): set<object>
    {
      set i | 0 <= i < |secs| :: secs[i].data
    }

    function BytesNow(): (d: Data)
      reads Arrays()
      ensures |d| == |secs|
    {
      seq(|secs|, i requires 0 <= i < |secs| reads Arrays() => secs[i].data[..])
    }

    function BasesNow(): (b: seq<Word>)
      reads secs
      ensures |b| == |secs|
    {
      seq(|secs|, i requires 0 <= i < |secs| reads secs => secs[i].base)
    }

    constructor (objs: Objs)
      requires AllValid(objs)
      ensures Valid() && this.objs == objs && fresh(secs) && fresh(Arrays())
      ensures BytesNow() == SectionData(objs)
    {
      this.objs := objs;
      globSyms := [];
      var all := Sections(objs, |objs|);
      var made: seq<Section> := [];
      var k := 0;
      while k < |all|
        invariant 0 <= k == |made| <= |all|
        invariant forall i :: 0 <= i < k ==>
          fresh(made[i]) && fresh(made[i].data) && made[i].vmaHint == all[i].vmaHint && made[i].data[..] == all[i].data
        invariant forall i, j :: 0 <= i < j < k ==> made[i] != made[j] && made[i].data != made[j].data
      {
        var s := new Section(all[k]);
        made := made + [s];
        k := k + 1;
      }
      secs := made;
      new;
      forall i | 0 <= i < |secs| ensures BytesNow()[i] == SectionData(objs)[i] {
      }
    }

    /* ---- Layout ---- */

    /** One pass over the sections with the next free address. */
    method AssignBases(textBase: Word)
      requires Valid()
      modifies secs
      ensures BasesNow() == AssignAddresses(Sections(objs, |objs|), textBase)
    {
      hide Sections, SecBase, NextFree;
      var next := textBase;
      ghost var all := Sections(objs, |objs|);
      ghost var bases := AssignAddresses(all, textBase);
      var i := 0;
      assert all[0..] == all && bases[0..] == bases;
      while i < |secs|
        invariant 0 <= i <= |secs| && AssignAddresses(all[i..], next) == bases[i..]
        invariant forall k :: 0 <= k < i ==> secs[k].base == bases[k]
      {
        AssignOne(all[i..], next, bases[i..]);
        assert all[i..][0] == all[i] && all[i..][1..] == all[i + 1..] && bases[i..][0] == bases[i]
            && bases[i..][1..] == bases[i + 1..];
        next := PlaceSection(secs[i], all[i], next);
        i := i + 1;
      }
    }

    method PlaceSection(sec: Section, ghost s: Sec, next: Word) returns (free: Word)
      requires sec.vmaHint == s.vmaHint && sec.data.Length == |s.data|
      modifies sec
      ensures sec.base == SecBase(s, next) && free == NextFree(s, next)
    {
      hide Align4;
      free := next;
      if sec.vmaHint != 0 {
        sec.base := sec.vmaHint;
      } else {
        sec.base := Align4(next);
      }
      var end := Wrap(sec.base + sec.data.Length);
      if end > next {
        free := Align4(end);
      }
    }

    /* ---- Symbols ---- */

    method LookUp(name: string) returns (addr: Option<Word>)
      ensures addr == FindGlobal(globSyms, name)
    {
      var i := 0;
      assert globSyms[0..] == globSyms;
      while i < |globSyms|
        invariant 0 <= i <= |globSyms| && FindGlobal(globSyms[i..], name) == FindGlobal(globSyms, name)
      {
        assert globSyms[i..][1..] == globSyms[i + 1..];
        if globSyms[i].name == name {
          return Some(globSyms[i].addr);
        }
        i := i + 1;
      }
      addr := None;
    }

    method BuildGlobals() returns (ok: bool)
      requires Valid()
      modifies this`globSyms
      ensures Globals(objs, BasesNow(), |objs|) == if ok then Some(globSyms) else None
    {
      hide ObjGlobals, ValidIndices;
      ghost var bases := BasesNow();
      globSyms := [];
      var n, start := 0, 0;
      while n < |objs|
        invariant 0 <= n <= |objs| && start == |Sections(objs, n)| && bases == BasesNow()
        invariant |Sections(objs, n)| <= |bases|
        invariant Globals(objs, bases, n) == Some(globSyms)
      {
        SectionsGrow(objs, n + 1, |objs|);
        ok := AddGlobals(n, start);
        if !ok {
          GlobalsStayNone(objs, bases, n + 1, |objs|);
          return;
        }
        start := start + |objs[n].secs|;
        n := n + 1;
      }
      ok := true;
    }

    /** The exported symbols of one object; a name exported before is an error. */
    method AddGlobals(n: nat, start: nat) returns (ok: bool)
      requires Valid() && n < |objs| && start + |objs[n].secs| <= |secs|
      modifies this`globSyms
      ensures ObjGlobals(objs[n], BasesNow(), start, |objs[n].syms|, old(globSyms))
              == if ok then Some(globSyms) else None
    {
      hide ObjGlobals;
      ghost var bases, first := BasesNow(), globSyms;
      var o := objs[n];
      assert ObjGlobals(o, bases, start, 0, first) == Some(globSyms) by { NoGlobalsYet(o, bases, start, first); }
      var k := 0;
      while k < |o.syms|
        invariant 0 <= k <= |o.syms| && bases == BasesNow()
        invariant ObjGlobals(o, bases, start, k, first) == Some(globSyms)
      {
        NextGlobal(o, bases, start, k, first);
        ok := AddSymbol(n, start, o.syms[k]);
        if !ok {
          ObjGlobalsStayNone(o, bases, start, k + 1, |o.syms|, first);
          return;
        }
        k := k + 1;
      }
      ok := true;
    }

    method AddSymbol(n: nat, start: nat, s: Sym) returns (ok: bool)
      requires Valid() && n < |objs| && start + |objs[n].secs| <= |secs| && s in objs[n].syms
      modifies this`globSyms
      ensures WithSymbol(objs[n], BasesNow(), start, s, old(globSyms)) == if ok then Some(globSyms) else None
    {
      ok := true;
      if s.global != 0 && s.secIdx != SEC_UNDEF {
        var existing := LookUp(s.name);
        if existing.Some? {
          return false;
        }
        assert BasesNow()[start + s.secIdx] == secs[start + s.secIdx].base;
        globSyms := globSyms + [GlobalSym(s.name, Wrap(secs[start + s.secIdx].base + s.value))];
      }
    }

    /* ---- Relocation ---- */

    method Put32(a: array<Byte>, at: nat, v: Word)
      requires at + 4 <= a.Length
      modifies a
      ensures a[..] == Write32(old(a[..]), at, v)
    {
      a[at] := v % 0x100;
      a[at + 1] := v / 0x100 % 0x100;
      a[at + 2] := v / 0x1_0000 % 0x100;
      a[at + 3] := v / 0x100_0000 % 0x100;
      assert v / 0x1_0000 / 0x100 == v / 0x100_0000 by { WordBytes(v); }
    }

    method Get32(a: array<Byte>, at: nat) returns (v: Word)
      requires at + 4 <= a.Length
      ensures v == Read32(a[..], at)
    {
      var b0: int, b1: int, b2: int, b3: int := a[at], a[at + 1], a[at + 2], a[at + 3];
      v := b0 + 0x100 * b1 + 0x1_0000 * b2 + 0x100_0000 * b3;
    }

    /** Patch one site in its section's bytes. */
    method Patch(s: Site) returns (ok: bool)
      requires Valid() && s.sec < |secs|
      modifies Arrays()
      ensures ApplySite(s, old(BytesNow())) == if ok then Some(BytesNow()) else None
    {
      hide PatchWord, Read32, Write32;
      var data := secs[s.sec].data;
      ghost var before := BytesNow();
      assert before[s.sec] == data[..];
      if s.offset + 4 > data.Length || !KnownKind(s.kind) {
        return false;
      }
      if (s.kind == BRANCH20 || s.kind == JUMP20) && !(-524288 <= s.target - s.addr <= 524287) {
        return false;
      }
      var word := Get32(data, s.offset);
      Put32(data, s.offset, PatchWord(s, word));
      ok := true;
      forall i | 0 <= i < |secs|
        ensures BytesNow()[i] == before[s.sec := Write32(before[s.sec], s.offset, PatchWord(s, word))][i]
      {
        assert i != s.sec ==> secs[i].data != data && secs[i].data[..] == before[i];
      }
      assert BytesNow() == before[s.sec := Write32(before[s.sec], s.offset, PatchWord(s, word))];
    }

    /** Where a relocation is and what it asks for; None when its section or its symbol is missing. */
    method Resolve(n: nat, start: nat, r: Rel) returns (s: Option<Site>)
      requires Valid() && n < |objs| && r in objs[n].rels && start + |objs[n].secs| <= |secs|
      ensures s == SiteOf(objs[n], BasesNow(), start, globSyms, r)
    {
      var o := objs[n];
      if r.secIdx >= |o.secs| {
        return None;
      }
      var sym := o.syms[r.symIdx];
      var a: Word;
      if sym.secIdx == SEC_UNDEF {
        var g := LookUp(sym.name);
        if g.None? {
          return None;
        }
        a := g.value;
      } else {
        assert BasesNow()[start + sym.secIdx] == secs[start + sym.secIdx].base;
        a := Wrap(secs[start + sym.secIdx].base + sym.value);
      }
      assert BasesNow()[start + r.secIdx] == secs[start + r.secIdx].base;
      s := Some(Site(start + r.secIdx, r.offset, r.kind, Wrap(a + r.addend),
          Wrap(secs[start + r.secIdx].base + r.offset)));
    }

    /** All relocations of one object, one after the other. */
    method ResolveObject(n: nat, start: nat, ghost first: Data, ghost done: seq<Site>) returns (ok: bool)
      requires Valid() && n < |objs| && start + |objs[n].secs| <= |secs|
      requires ApplySites(done, first) == Some(BytesNow())
      modifies Arrays()
      ensures Resolved(done, ObjSites(objs[n], BasesNow(), start, globSyms, |objs[n].rels|), first)
              == if ok then Some(BytesNow()) else None
    {
      hide SiteOf, ApplySite;
      ghost var bases := BasesNow();
      var o := objs[n];
      assert done + [] == done;
      var k := 0;
      while k < |o.rels|
        invariant 0 <= k <= |o.rels| && bases == BasesNow()
        invariant Resolved(done, ObjSites(o, bases, start, globSyms, k), first) == Some(BytesNow())
      {
        var s := Resolve(n, start, o.rels[k]);
        ghost var before := ObjSites(o, bases, start, globSyms, k).value;
        if s.None? {
          ResolvedStaysNone(o, bases, start, globSyms, k + 1, |o.rels|, done, first);
          return false;
        }
        assert done + (before + [s.value]) == (done + before) + [s.value];
        ApplyOneMore(done + before, s.value, first);
        SiteInRange(o, bases, start, globSyms, o.rels[k]);
        ok := Patch(s.value);
        if !ok {
          ResolvedStaysNone(o, bases, start, globSyms, k + 1, |o.rels|, done, first);
          return;
        }
        k := k + 1;
      }
      ok := true;
    }

    method ResolveRelocs() returns (ok: bool)
      requires Valid()
      modifies Arrays()
      ensures Resolved([], Sites(objs, BasesNow(), globSyms, |objs|), old(BytesNow()))
              == if ok then Some(BytesNow()) else None
    {
      hide ObjSites, ApplySites, ValidIndices;
      ghost var bases, first := BasesNow(), BytesNow();
      ApplyNone(first);
      var n, start := 0, 0;
      while n < |objs|
        invariant 0 <= n <= |objs| && start == |Sections(objs, n)| <= |bases| && bases == BasesNow()
        invariant Resolved([], Sites(objs, bases, globSyms, n), first) == Some(BytesNow())
      {
        SectionsGrow(objs, n + 1, |objs|);
        ghost var before := Sites(objs, bases, globSyms, n).value;
        assert [] + before == before;
        ok := ResolveObject(n, start, first, before);
        ResolvedNext(before, ObjSites(objs[n], bases, start, globSyms, |objs[n].rels|), first);
        if !ok {
          AllResolvedStaysNone(objs, bases, globSyms, n + 1, |objs|, first);
          return;
        }
        start := start + |objs[n].secs|;
        n := n + 1;
      }
      ok := true;
    }

    /* ---- Output ---- */

    /** The size of the image: the highest section end. */
    method OutputSize() returns (size: nat)
      requires Valid()
      ensures size == End(BasesNow(), BytesNow(), |secs|)
    {
      size := 0;
      var i := 0;
      while i < |secs|
        invariant 0 <= i <= |secs| && size == End(BasesNow(), BytesNow(), i)
      {
        assert BasesNow()[i] == secs[i].base && BytesNow()[i] == secs[i].data[..];
        var end := secs[i].base + secs[i].data.Length;
        if end > size {
          size := end;
        }
        i := i + 1;
      }
    }

    /** memcpy of one section into the buffer. */
    method CopyInto(buf: array<Byte>, at: nat, src: array<Byte>)
      requires at + src.Length <= buf.Length && buf != src
      modifies buf
      ensures buf[..] == Overlay(old(buf[..]), at, src[..])
    {
      var i := 0;
      while i < src.Length
        invariant 0 <= i <= src.Length && src[..] == old(src[..])
        invariant forall k :: 0 <= k < buf.Length ==> buf[k] == if at <= k < at + i then src[k - at] else old(buf[k])
      {
        buf[at + i] := src[i];
        i := i + 1;
      }
    }

    method EmitOutput() returns (image: seq<Byte>)
      requires Valid()
      ensures image == Image(BasesNow(), BytesNow(), |secs|)
    {
      hide Overlay, Sections, ValidIndices, End;
      ghost var bases, data := BasesNow(), BytesNow();
      var size := OutputSize();
      assert bases == BasesNow() && data == BytesNow();
      var buf := new Byte[size](_ => 0);
      assert buf[..] == Zeros(size) && Image(bases, data, 0) == Zeros(End(bases, data, |data|));
      var i := 0;
      while i < |secs|
        invariant 0 <= i <= |secs| && bases == BasesNow() && data == BytesNow()
        invariant buf[..] == Image(bases, data, i)
      {
        EndBounds(bases, data, i, |data|);
        assert bases[i] == secs[i].base && data[i] == secs[i].data[..];
        CopyInto(buf, secs[i].base, secs[i].data);
        forall k | 0 <= k < |secs| ensures BytesNow()[k] == data[k] {
          assert secs[k].data[..] == data[k];
        }
        i := i + 1;
      }
      image := buf[..];
    }
  }

  /* ---- The specification, one relocation or object at a time ---- */

  /** The data after the sites already done and these. */
  function Resolved(done: seq<Site>, more: Option<seq<Site>>, first: Data): Option<Data> {
    if more.None? then None else ApplySites(done + more.value, first)
  }

  /** The globals with one more symbol, if it is exported; None if its name is taken. */
  function WithSymbol(o: ObjFile, bases: seq<Word>, start: nat, s: Sym, gs: seq<GlobalSym>): Option<seq<GlobalSym>>
    requires ValidIndices(o) && s in o.syms && start + |o.secs| <= |bases|
  {
    if s.global == 0 || s.secIdx == SEC_UNDEF then Some(gs)
    else if FindGlobal(gs, s.name).Some? then None
    else Some(gs + [GlobalSym(s.name, Wrap(bases[start + s.secIdx] + s.value))])
  }

  lemma NoGlobalsYet(o: ObjFile, bases: seq<Word>, start: nat, gs: seq<GlobalSym>)
    requires ValidIndices(o) && start + |o.secs| <= |bases|
    ensures ObjGlobals(o, bases, start, 0, gs) == Some(gs)
  {
  }

  lemma NextGlobal(o: ObjFile, bases: seq<Word>, start: nat, k: nat, gs: seq<GlobalSym>)
    requires k < |o.syms| && ValidIndices(o) && start + |o.secs| <= |bases| && ObjGlobals(o, bases, start, k, gs).Some?
    ensures ObjGlobals(o, bases, start, k + 1, gs)
        == WithSymbol(o, bases, start, o.syms[k], ObjGlobals(o, bases, start, k, gs).value)
  {
  }

  lemma AssignOne(secs: seq<Sec>, next: Word, bases: seq<Word>)
    requires secs != [] && AssignAddresses(secs, next) == bases
    ensures bases[0] == SecBase(secs[0], next) && AssignAddresses(secs[1..], NextFree(secs[0], next)) == bases[1..]
  {
    hide SecBase, NextFree;
  }

  lemma ApplyNone(d: Data)
    ensures Resolved([], Some([]), d) == Some(d)
  {
    var none: seq<Site> := [];
    assert none + none == none;
  }

  lemma {:induction false} ApplyAppend(a: seq<Site>, b: seq<Site>, d: Data)
    ensures ApplySites(a + b, d) == if ApplySites(a, d).None? then None else ApplySites(b, ApplySites(a, d).value)
  {
    hide ApplySite;
    if a == [] {
      assert a + b == b;
    } else {
      assert (a + b)[0] == a[0] && (a + b)[1..] == a[1..] + b;
      if ApplySite(a[0], d).Some? {
        ApplyAppend(a[1..], b, ApplySite(a[0], d).value);
      }
    }
  }

  lemma ApplyOneMore(a: seq<Site>, s: Site, d: Data)
    requires ApplySites(a, d).Some?
    ensures ApplySites(a + [s], d) == ApplySite(s, ApplySites(a, d).value)
  {
    hide ApplySite;
    ApplyAppend(a, [s], d);
    var e := ApplySites(a, d).value;
    assert [s][1..] == [];
    assert ApplySites([s], e) == if ApplySite(s, e).None? then None else ApplySites([], ApplySite(s, e).value);
  }

  lemma SiteInRange(o: ObjFile, bases: seq<Word>, start: nat, gs: seq<GlobalSym>, r: Rel)
    requires ValidIndices(o) && r in o.rels && start + |o.secs| <= |bases| && SiteOf(o, bases, start, gs, r).Some?
    ensures SiteOf(o, bases, start, gs, r).value.sec < start + |o.secs|
  {
  }

  lemma {:induction false} ResolvedStaysNone(o: ObjFile, bases: seq<Word>, start: nat, gs: seq<GlobalSym>, k: nat,
                                             n: nat, done: seq<Site>, first: Data)
    requires k <= n <= |o.rels| && ValidIndices(o) && start + |o.secs| <= |bases|
    requires Resolved(done, ObjSites(o, bases, start, gs, k), first).None?
    ensures Resolved(done, ObjSites(o, bases, start, gs, n), first).None?
    decreases n
  {
    hide SiteOf, ApplySites;
    if k >= n {
    } else {
      ResolvedStaysNone(o, bases, start, gs, k, n - 1, done, first);
      if ObjSites(o, bases, start, gs, n).Some? {
        var before := ObjSites(o, bases, start, gs, n - 1).value;
        var s := SiteOf(o, bases, start, gs, o.rels[n - 1]).value;
        assert done + (before + [s]) == (done + before) + [s];
        ApplyAppend(done + before, [s], first);
      }
    }
  }

  lemma ResolvedNext(before: seq<Site>, more: Option<seq<Site>>, first: Data)
    ensures more.Some? ==> Resolved([], Some(before + more.value), first) == Resolved(before, more, first)
  {
    if more.Some? {
      assert [] + (before + more.value) == before + more.value;
    }
  }

  lemma {:induction false} AllResolvedStaysNone(objs: Objs, bases: seq<Word>, gs: seq<GlobalSym>, k: nat, n: nat,
      first: Data)
    requires k <= n <= |objs| && AllValid(objs) && |Sections(objs, n)| <= |bases| && |Sections(objs, k)| <= |bases|
    requires Resolved([], Sites(objs, bases, gs, k), first).None?
    ensures Resolved([], Sites(objs, bases, gs, n), first).None?
    decreases n
  {
    hide ObjSites, ApplySites;
    if k >= n {
    } else {
      SectionsGrow(objs, n - 1, n);
      AllResolvedStaysNone(objs, bases, gs, k, n - 1, first);
      if Sites(objs, bases, gs, n).Some? {
        var before := Sites(objs, bases, gs, n - 1).value;
        var more := ObjSites(objs[n - 1], bases, |Sections(objs, n - 1)|, gs, |objs[n - 1].rels|).value;
        assert [] + (before + more) == ([] + before) + more;
        ApplyAppend([] + before, more, first);
      }
    }
  }

  lemma {:induction false} ObjGlobalsStayNone(o: ObjFile, bases: seq<Word>, start: nat, k: nat, n: nat,
      gs: seq<GlobalSym>)
    requires k <= n <= |o.syms| && ValidIndices(o) && start + |o.secs| <= |bases|
        && ObjGlobals(o, bases, start, k, gs).None?
    ensures ObjGlobals(o, bases, start, n, gs).None?
    decreases n
  {
    if k >= n {
    } else {
      ObjGlobalsStayNone(o, bases, start, k, n - 1, gs);
    }
  }

  lemma {:induction false} GlobalsStayNone(objs: Objs, bases: seq<Word>, k: nat, n: nat)
    requires k <= n <= |objs| && AllValid(objs) && |Sections(objs, n)| <= |bases| && |Sections(objs, k)| <= |bases|
    requires Globals(objs, bases, k).None?
    ensures Globals(objs, bases, n).None?
    decreases n
  {
    hide ObjGlobals;
    if k >= n {
    } else {
      SectionsGrow(objs, n - 1, n);
      GlobalsStayNone(objs, bases, k, n - 1);
    }
  }

  /** The whole program: load, lay out, collect symbols, relocate, write the image. */
  method LinkObjects(objs: Objs, textBase: Word) returns (image: Option<seq<Byte>>)
    requires AllValid(objs)
    ensures image == Link(objs, textBase)
  {
    hide AssignAddresses, Globals, Sites, ApplySites, Image, SectionData;
    var run := new LinkRun(objs);
    run.AssignBases(textBase);
    assert run.BytesNow() == SectionData(objs);
    ghost var bases := run.BasesNow();
    var ok := run.BuildGlobals();
    if !ok {
      return None;
    }
    ok := run.ResolveRelocs();
    assert bases == run.BasesNow();
    assert Sites(objs, bases, run.globSyms, |objs|).Some? ==>
      [] + Sites(objs, bases, run.globSyms, |objs|).value == Sites(objs, bases, run.globSyms, |objs|).value;
    if !ok {
      return None;
    }
    var out := run.EmitOutput();
    image := Some(out);
  }
}
