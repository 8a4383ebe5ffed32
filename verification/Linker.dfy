/** The linker: section layout, global symbols, relocation and the output image. */
module Linker {
  import opened Words
  import opened Memory
  import opened Assembler
  import opened Dobj

  /* ---- Layout ---- */

  function Align4(x: Word): Word {
    Wrap(x + 3) / 4 * 4
  }

  function SecBase(s: Sec, next: Word): Word {
    if s.vmaHint != 0 then s.vmaHint else Align4(next)
  }

  function NextFree(s: Sec, next: Word): Word {
    var end := Wrap(SecBase(s, next) + |s.data|);
    if end > next then Align4(end) else next
  }

  /** Base addresses of the sections, in order. */
  function AssignAddresses(secs: seq<Sec>, next: Word): (b: seq<Word>)
    ensures |b| == |secs|
  {
    if secs == [] then [] else [SecBase(secs[0], next)] + AssignAddresses(secs[1..], NextFree(secs[0], next))
  }

  /** No 32-bit overflow happens in the layout. */
  predicate NoOverflow(secs: seq<Sec>, next: Word) {
    next + 3 < 0x1_0000_0000
    && (secs != [] ==>
          SecBase(secs[0], next) + |secs[0].data| + 3 < 0x1_0000_0000 && NoOverflow(secs[1..], NextFree(secs[0], next)))
  }

  lemma NextFreeFacts(s: Sec, next: Word)
    requires next + 3 < 0x1_0000_0000 && SecBase(s, next) + |s.data| + 3 < 0x1_0000_0000
    ensures NextFree(s, next) >= next && NextFree(s, next) >= SecBase(s, next) + |s.data|
    ensures s.vmaHint == 0 ==> SecBase(s, next) >= next && SecBase(s, next) % 4 == 0
  {
    hide Align4;
    var end := SecBase(s, next) + |s.data|;
    Align4Facts(next);
    Align4Facts(end);
    DivUnique(end, 0x1_0000_0000, 0, end);
  }

  lemma Align4Facts(x: Word)
    requires x + 3 < 0x1_0000_0000
    ensures x <= Align4(x) < x + 4 && Align4(x) % 4 == 0
  {
    DivUnique(Align4(x), 4, (x + 3) / 4, 0);
  }

  lemma {:induction false} BasesFrom(secs: seq<Sec>, next: Word, i: nat)
    requires NoOverflow(secs, next) && i < |secs| && secs[i].vmaHint == 0
    ensures AssignAddresses(secs, next)[i] % 4 == 0 && AssignAddresses(secs, next)[i] >= next
  {
    hide SecBase, NextFree;
    NextFreeFacts(secs[0], next);
    if i == 0 {
    } else {
      BasesFrom(secs[1..], NextFree(secs[0], next), i - 1);
    }
  }

  /** Layout: a section without a hint is 4-aligned, at or above the text base, and starts at or after the
      end of every earlier section. So two sections can only overlap when the later one has a hint. */
  lemma {:induction false} LayoutSound(secs: seq<Sec>, textBase: Word, i: nat, j: nat)
    requires NoOverflow(secs, textBase) && i < j < |secs| && secs[j].vmaHint == 0
    ensures var b := AssignAddresses(secs, textBase);
      b[j] % 4 == 0 && b[j] >= textBase && b[j] >= b[i] + |secs[i].data|
  {
    hide SecBase, NextFree;
    NextFreeFacts(secs[0], textBase);
    BasesFrom(secs, textBase, j);
    var next := NextFree(secs[0], textBase);
    if i == 0 {
      BasesFrom(secs[1..], next, j - 1);
    } else {
      LayoutSound(secs[1..], next, i - 1, j - 1);
    }
  }

  /** `x` is the text base or the end of one of the first `k` sections. */
  predicate Reached(secs: seq<Sec>, textBase: Word, k: nat, x: nat)
    requires k <= |secs|
  {
    x == textBase || exists i :: 0 <= i < k && x == AssignAddresses(secs, textBase)[i] + |secs[i].data|
  }

  lemma NextFreeIs(s: Sec, next: Word)
    requires next + 3 < 0x1_0000_0000 && SecBase(s, next) + |s.data| + 3 < 0x1_0000_0000
    ensures var n, end := NextFree(s, next), SecBase(s, next) + |s.data|;
      n == next || (end <= n < end + 4 && n % 4 == 0)
    ensures s.vmaHint == 0 ==> next <= SecBase(s, next) < next + 4 && SecBase(s, next) % 4 == 0
  {
    hide Align4;
    var end := SecBase(s, next) + |s.data|;
    Align4Facts(next);
    Align4Facts(end);
    DivUnique(end, 0x1_0000_0000, 0, end);
  }

  /** And no higher than needed: a section with a hint is at its hint, one without is at the first multiple of 4 from
      the text base or from the end of an earlier section. */
  lemma {:induction false} LayoutTight(secs: seq<Sec>, textBase: Word, j: nat)
    requires NoOverflow(secs, textBase) && j < |secs|
    ensures var b := AssignAddresses(secs, textBase);
      if secs[j].vmaHint != 0 then b[j] == secs[j].vmaHint
      else b[j] % 4 == 0 && exists x: nat :: x <= b[j] < x + 4 && Reached(secs, textBase, j, x)
  {
    hide SecBase, NextFree, Reached;
    var b := AssignAddresses(secs, textBase);
    NextFreeIs(secs[0], textBase);
    HintedBase(secs[0], textBase);
    if j == 0 {
      assert Reached(secs, textBase, 0, textBase) by { StartReached(secs, textBase, 0); }
    } else {
      var next := NextFree(secs[0], textBase);
      LayoutTight(secs[1..], next, j - 1);
      if secs[j].vmaHint == 0 {
        var x: nat :| x <= b[j] < x + 4 && Reached(secs[1..], next, j - 1, x);
        TightBefore(secs, textBase, j, x);
      }
    }
  }

  lemma HintedBase(s: Sec, next: Word)
    ensures s.vmaHint != 0 ==> SecBase(s, next) == s.vmaHint
  {
  }

  lemma StartReached(secs: seq<Sec>, textBase: Word, k: nat)
    requires k <= |secs|
    ensures Reached(secs, textBase, k, textBase)
  {
  }

  lemma TightBefore(secs: seq<Sec>, textBase: Word, j: nat, x: nat)
    requires NoOverflow(secs, textBase) && 0 < j < |secs| && Reached(secs[1..], NextFree(secs[0], textBase), j - 1, x)
    requires var b := AssignAddresses(secs, textBase)[j]; b % 4 == 0 && x <= b < x + 4
    ensures var b := AssignAddresses(secs, textBase)[j];
      exists y: nat :: y <= b < y + 4 && Reached(secs, textBase, j, y)
  {
    hide SecBase, NextFree;
    var b, next := AssignAddresses(secs, textBase), NextFree(secs[0], textBase);
    NextFreeIs(secs[0], textBase);
    if x == next {
      var y := if next == textBase then textBase else b[0] + |secs[0].data|;
      assert Reached(secs, textBase, j, y);
    } else {
      var i :| 0 <= i < j - 1 && x == AssignAddresses(secs[1..], next)[i] + |secs[1..][i].data|;
      assert x == b[i + 1] + |secs[i + 1].data|;
      assert Reached(secs, textBase, j, x);
    }
  }

  /* ---- Relocation of single sites ---- */

  /** A relocation with its symbol resolved: where it is and what it wants. */
  datatype Site = Site(sec: nat, offset: Word, kind: Byte, target: Word, addr: Word)

  predicate KnownKind(kind: Byte) {
    1 <= kind <= 5
  }

  predicate DeltaFits(s: Site) {
    (s.kind == BRANCH20 || s.kind == JUMP20) ==> -524288 <= s.target - s.addr <= 524287
  }

  /** The patched instruction or data word. */
  function PatchWord(s: Site, word: Word): Word {
    if s.kind == ABS32 then s.target
    else if s.kind == MOVI32_LO then word / 0x1_0000 * 0x1_0000 + s.target % 0x1_0000
    else if s.kind == MOVI32_HI then word / 0x1_0000 * 0x1_0000 + s.target / 0x1_0000
    else word / 0x10_0000 * 0x10_0000 + (s.target - s.addr) % 0x10_0000
  }

  type Data = seq<seq<Byte>>

  predicate InBounds(s: Site, data: Data) {
    s.sec < |data| && s.offset + 4 <= |data[s.sec]|
  }

  predicate SiteOk(s: Site, data: Data) {
    InBounds(s, data) && KnownKind(s.kind) && DeltaFits(s)
  }

  predicate SameShape(d: Data, e: Data) {
    |d| == |e| && forall i :: 0 <= i < |d| ==> |d[i]| == |e[i]|
  }

  function ApplySite(s: Site, data: Data): (r: Option<Data>)
    ensures r.Some? ==> SameShape(data, r.value)
  {
    if SiteOk(s, data)
    then Some(data[s.sec := Write32(data[s.sec], s.offset, PatchWord(s, Read32(data[s.sec], s.offset)))])
    else None
  }

  function ApplySites(sites: seq<Site>, data: Data): (r: Option<Data>)
    ensures r.Some? ==> SameShape(data, r.value)
  {
    if sites == [] then Some(data) else
    var d :- ApplySite(sites[0], data);
    ApplySites(sites[1..], d)
  }

  /* ---- Relocation is a well-framed transformation ---- */

  predicate Apart(s: Site, t: Site) {
    s.sec != t.sec || s.offset + 4 <= t.offset || t.offset + 4 <= s.offset
  }

  predicate AllApart(sites: seq<Site>) {
    forall i, j :: 0 <= i < j < |sites| ==> Apart(sites[i], sites[j])
  }

  predicate Covers(s: Site, sec: nat, k: nat) {
    s.sec == sec && s.offset <= k < s.offset + 4
  }

  predicate SiteDone(s: Site, d: Data, e: Data) {
    InBounds(s, d) && InBounds(s, e)
    && Read32(e[s.sec], s.offset) == PatchWord(s, Read32(d[s.sec], s.offset))
  }

  /** `e` is `d` with every site patched and every other byte as it was. */
  ghost predicate Patched(sites: seq<Site>, d: Data, e: Data) {
    && SameShape(d, e)
    && (forall s :: s in sites ==> SiteDone(s, d, e))
    && (forall i, k :: 0 <= i < |d| && 0 <= k < |d[i]| && (forall s :: s in sites ==> !Covers(s, i, k)) ==>
        e[i][k] == d[i][k])
  }

  lemma ApplySitePatches(s: Site, d: Data)
    requires ApplySite(s, d).Some?
    ensures Patched([s], d, ApplySite(s, d).value)
  {
    hide PatchWord;
    var v := PatchWord(s, Read32(d[s.sec], s.offset));
    ReadOverWrite(d[s.sec], s.offset, 4, v);
    var e := ApplySite(s, d).value;
    forall i, k | 0 <= i < |d| && 0 <= k < |d[i]| && (forall t :: t in [s] ==> !Covers(t, i, k))
        ensures e[i][k] == d[i][k] {
      assert !Covers(s, i, k);
    }
  }

  /** The effect of all sites, whatever their order: each patches its own field, nothing else changes. */
  lemma {:induction false} ApplySitesPatches(sites: seq<Site>, d: Data)
    requires ApplySites(sites, d).Some? && AllApart(sites)
    ensures Patched(sites, d, ApplySites(sites, d).value)
  {
    hide ApplySite, PatchWord, Read32;
    if sites == [] {
    } else {
      var s, rest := sites[0], sites[1..];
      var d1 := ApplySite(s, d).value;
      var e := ApplySites(rest, d1).value;
      ApplySitePatches(s, d);
      assert s in [s];
      ApplySitesPatches(rest, d1);
      forall t | t in sites ensures SiteDone(t, d, e) {
        if t in rest {
          var j :| 0 <= j < |rest| && rest[j] == t;
          assert Apart(sites[0], sites[j + 1]);
          UntouchedWord([s], d, d1, t);
        } else {
          forall u | u in rest ensures Apart(s, u) {
            var j :| 0 <= j < |rest| && rest[j] == u;
            assert Apart(sites[0], sites[j + 1]);
          }
          UntouchedWord(rest, d1, e, s);
        }
      }
    }
  }

  /** A word apart from every patched site keeps its value. */
  lemma UntouchedWord(sites: seq<Site>, d: Data, e: Data, t: Site)
    requires Patched(sites, d, e) && InBounds(t, d) && forall s :: s in sites ==> Apart(s, t)
    ensures InBounds(t, e) && Read32(e[t.sec], t.offset) == Read32(d[t.sec], t.offset)
  {
    hide PatchWord;
    forall k | t.offset <= k < t.offset + 4 ensures e[t.sec][k] == d[t.sec][k] {
      forall s | s in sites ensures !Covers(s, t.sec, k) {
        assert Apart(s, t);
      }
    }
  }

  lemma SameWordSameBytes(x: seq<Byte>, y: seq<Byte>, o: nat, k: nat)
    requires o + 4 <= |x| && o + 4 <= |y| && Read32(x, o) == Read32(y, o) && o <= k < o + 4
    ensures x[k] == y[k]
  {
    BytesUnique(x[o], x[o + 1], x[o + 2], x[o + 3], y[o], y[o + 1], y[o + 2], y[o + 3]);
  }

  lemma BytesUnique(a: Byte, b: Byte, c: Byte, d: Byte, p: Byte, q: Byte, r: Byte, s: Byte)
    requires a + 0x100 * b + 0x1_0000 * c + 0x100_0000 * d == p + 0x100 * q + 0x1_0000 * r + 0x100_0000 * s
    ensures a == p && b == q && c == r && d == s
  {
    assert a - p == 0x100 * (q - b + 0x100 * (r - c) + 0x1_0000 * (s - d));
    assert b - q == 0x100 * (r - c + 0x100 * (s - d));
  }

  /** There is only one way to patch a set of sites. */
  lemma PatchedUnique(sites: seq<Site>, sites': seq<Site>, d: Data, x: Data, y: Data)
    requires forall s :: s in sites <==> s in sites'
    requires Patched(sites, d, x) && Patched(sites', d, y)
    ensures x == y
  {
    hide PatchWord, Read32;
    forall i, k | 0 <= i < |d| && 0 <= k < |d[i]| ensures x[i][k] == y[i][k] {
      if s :| s in sites && Covers(s, i, k) {
        assert SiteDone(s, d, x) && SiteDone(s, d, y);
        SameWordSameBytes(x[i], y[i], s.offset, k);
      }
    }
    forall i | 0 <= i < |d| ensures x[i] == y[i] {
      assert |x[i]| == |y[i]|;
    }
  }

  /** Relocation succeeds exactly when every site is in bounds, of a known kind, and reaches its target. */
  lemma {:induction false} RelocationSucceedsIff(sites: seq<Site>, d: Data)
    ensures ApplySites(sites, d).Some? <==>
      forall s :: s in sites ==> SiteOk(s, d)
  {
    hide PatchWord, Read32, Write32;
    if sites != [] && ApplySite(sites[0], d).Some? {
      var d1 := ApplySite(sites[0], d).value;
      RelocationSucceedsIff(sites[1..], d1);
      assert forall s :: InBounds(s, d1) == InBounds(s, d);
    }
    if sites != [] {
      assert forall s :: s in sites <==> s == sites[0] || s in sites[1..];
    }
  }

  /** Relocation does not depend on the order of the relocations. */
  lemma RelocationOrderFree(sites: seq<Site>, sites': seq<Site>, d: Data)
    requires AllApart(sites) && AllApart(sites') && forall s :: s in sites <==> s in sites'
    ensures ApplySites(sites, d) == ApplySites(sites', d)
  {
    hide ApplySites, PatchWord, Read32;
    RelocationSucceedsIff(sites, d);
    RelocationSucceedsIff(sites', d);
    if ApplySites(sites, d).Some? {
      ApplySitesPatches(sites, d);
      ApplySitesPatches(sites', d);
      PatchedUnique(sites, sites', d, ApplySites(sites, d).value, ApplySites(sites', d).value);
    }
  }

  lemma PatchTwice(s: Site, w: Word)
    ensures PatchWord(s, PatchWord(s, w)) == PatchWord(s, w)
  {
    DivUnique(w / 0x1_0000 * 0x1_0000 + s.target % 0x1_0000, 0x1_0000, w / 0x1_0000, s.target % 0x1_0000);
    DivUnique(w / 0x1_0000 * 0x1_0000 + s.target / 0x1_0000, 0x1_0000, w / 0x1_0000, s.target / 0x1_0000);
    DivUnique(w / 0x10_0000 * 0x10_0000 + (s.target - s.addr) % 0x10_0000, 0x10_0000, w / 0x10_0000,
        (s.target - s.addr) % 0x10_0000);
  }

  /** Relocating a relocated image again changes nothing. */
  lemma RelocationIdempotent(sites: seq<Site>, d: Data)
    requires AllApart(sites) && ApplySites(sites, d).Some?
    ensures ApplySites(sites, ApplySites(sites, d).value) == ApplySites(sites, d)
  {
    hide ApplySites, Read32, PatchWord;
    var e := ApplySites(sites, d).value;
    ApplySitesPatches(sites, d);
    RelocationSucceedsIff(sites, d);
    RelocationSucceedsIff(sites, e);
    forall s | s in sites ensures InBounds(s, e) && SiteDone(s, e, e) {
      assert SiteDone(s, d, e);
      PatchTwice(s, Read32(d[s.sec], s.offset));
    }
    ApplySitesPatches(sites, e);
    assert Patched(sites, e, e);
    PatchedUnique(sites, sites, e, e, ApplySites(sites, e).value);
  }

  /* ---- Sections and symbols of all objects ---- */

  /** Indices the format cannot check: relocations name existing symbols, symbols existing sections. */
  predicate ValidIndices(o: ObjFile) {
    && (forall i :: 0 <= i < |o.rels| ==> o.rels[i].symIdx < |o.syms|)
    && (forall i :: 0 <= i < |o.syms| ==> o.syms[i].secIdx == SEC_UNDEF || o.syms[i].secIdx < |o.secs|)
  }

  type Objs = seq<ObjFile>

  predicate AllValid(objs: Objs) {
    forall i :: 0 <= i < |objs| ==> ValidIndices(objs[i])
  }

  /** The sections of the first `n` objects, in order. */
  function Sections(objs: Objs, n: nat): seq<Sec>
    requires n <= |objs|
  {
    if n == 0 then [] else Sections(objs, n - 1) + objs[n - 1].secs
  }

  lemma {:induction false} SectionsGrow(objs: Objs, m: nat, n: nat)
    requires m <= n <= |objs|
    ensures |Sections(objs, m)| <= |Sections(objs, n)|
  {
    if m >= n {
    } else {
      SectionsGrow(objs, m, n - 1);
    }
  }

  datatype GlobalSym = GlobalSym(name: string, addr: Word)

  function FindGlobal(gs: seq<GlobalSym>, name: string): Option<Word> {
    if gs == [] then None else if gs[0].name == name then Some(gs[0].addr) else FindGlobal(gs[1..], name)
  }

  /** Globals after the first `k` symbols of an object whose sections start at index `start`. */
  function ObjGlobals(o: ObjFile, bases: seq<Word>, start: nat, k: nat, gs: seq<GlobalSym>): Option<seq<GlobalSym>>
    requires k <= |o.syms| && ValidIndices(o) && start + |o.secs| <= |bases|
  {
    if k == 0 then Some(gs) else
    var hs :- ObjGlobals(o, bases, start, k - 1, gs);
    var s := o.syms[k - 1];
    if s.global == 0 || s.secIdx == SEC_UNDEF then Some(hs)
    else if FindGlobal(hs, s.name).Some? then None
    else Some(hs + [GlobalSym(s.name, Wrap(bases[start + s.secIdx] + s.value))])
  }

  function Globals(objs: Objs, bases: seq<Word>, n: nat): Option<seq<GlobalSym>>
    requires n <= |objs| && AllValid(objs) && |Sections(objs, n)| <= |bases|
  {
    if n == 0 then Some([]) else
    var gs :- Globals(objs, bases, n - 1);
    ObjGlobals(objs[n - 1], bases, |Sections(objs, n - 1)|, |objs[n - 1].syms|, gs)
  }

  /** A relocation with its symbol and addend resolved. */
  function SiteOf(o: ObjFile, bases: seq<Word>, start: nat, gs: seq<GlobalSym>, r: Rel): Option<Site>
    requires ValidIndices(o) && r in o.rels && start + |o.secs| <= |bases|
  {
    if r.secIdx >= |o.secs| then None else
    var s := o.syms[r.symIdx];
    var a :- if s.secIdx == SEC_UNDEF then FindGlobal(gs, s.name) else Some(Wrap(bases[start + s.secIdx] + s.value));
    Some(Site(start + r.secIdx, r.offset, r.kind, Wrap(a + r.addend), Wrap(bases[start + r.secIdx] + r.offset)))
  }

  function ObjSites(o: ObjFile, bases: seq<Word>, start: nat, gs: seq<GlobalSym>, k: nat): Option<seq<Site>>
    requires k <= |o.rels| && ValidIndices(o) && start + |o.secs| <= |bases|
  {
    if k == 0 then Some([]) else
    var sites :- ObjSites(o, bases, start, gs, k - 1);
    var s :- SiteOf(o, bases, start, gs, o.rels[k - 1]);
    Some(sites + [s])
  }

  function Sites(objs: Objs, bases: seq<Word>, gs: seq<GlobalSym>, n: nat): Option<seq<Site>>
    requires n <= |objs| && AllValid(objs) && |Sections(objs, n)| <= |bases|
  {
    if n == 0 then Some([]) else
    var sites :- Sites(objs, bases, gs, n - 1);
    var more :- ObjSites(objs[n - 1], bases, |Sections(objs, n - 1)|, gs, |objs[n - 1].rels|);
    Some(sites + more)
  }

  /* ---- The output image ---- */

  function End(bases: seq<Word>, data: Data, k: nat): nat
    requires k <= |bases| == |data|
  {
    if k == 0 then 0 else
    var e := bases[k - 1] + |data[k - 1]|;
    if e > End(bases, data, k - 1) then e else End(bases, data, k - 1)
  }

  lemma {:induction false} EndBounds(bases: seq<Word>, data: Data, i: nat, k: nat)
    requires i < k <= |bases| == |data|
    ensures bases[i] + |data[i]| <= End(bases, data, k)
  {
    if i >= k - 1 {
    } else {
      EndBounds(bases, data, i, k - 1);
    }
  }

  function Overlay(buf: seq<Byte>, at: nat, bytes: seq<Byte>): (r: seq<Byte>)
    requires at + |bytes| <= |buf|
    ensures |r| == |buf|
  {
    buf[..at] + bytes + buf[at + |bytes|..]
  }

  /** The zeroed buffer after copying the first `k` sections. */
  function Image(bases: seq<Word>, data: Data, k: nat): (r: seq<Byte>)
    requires k <= |bases| == |data|
    ensures |r| == End(bases, data, |data|)
  {
    if k == 0 then Zeros(End(bases, data, |data|)) else
    EndBounds(bases, data, k - 1, |data|);
    Overlay(Image(bases, data, k - 1), bases[k - 1], data[k - 1])
  }

  predicate Within(bases: seq<Word>, data: Data, i: nat, a: nat)
    requires i < |bases| == |data|
  {
    bases[i] <= a < bases[i] + |data[i]|
  }

  predicate DisjointSections(bases: seq<Word>, data: Data)
    requires |bases| == |data|
  {
    forall i, j :: 0 <= i < j < |data| ==>
      bases[i] + |data[i]| <= bases[j] || bases[j] + |data[j]| <= bases[i] || data[i] == [] || data[j] == []
  }

  /** Copying one more section. */
  lemma CopyNext(bases: seq<Word>, data: Data, k: nat, a: nat)
    requires 0 < k <= |bases| == |data| && a < End(bases, data, |data|)
    ensures Image(bases, data, k)[a]
            == if Within(bases, data, k - 1, a) then data[k - 1][a - bases[k - 1]] else Image(bases, data, k - 1)[a]
  {
    EndBounds(bases, data, k - 1, |data|);
  }

  /** With disjoint sections the image has every section at its base, and zero elsewhere. */
  lemma {:induction false} ImageHoldsSections(bases: seq<Word>, data: Data, k: nat, a: nat)
    requires k <= |bases| == |data| && DisjointSections(bases, data) && a < End(bases, data, |data|)
    ensures forall i :: 0 <= i < k && Within(bases, data, i, a) ==> Image(bases, data, k)[a] == data[i][a - bases[i]]
    ensures (forall i :: 0 <= i < k ==> !Within(bases, data, i, a)) ==> Image(bases, data, k)[a] == 0
  {
    hide End, Image, Within, DisjointSections;
    if k == 0 {
      assert Image(bases, data, 0)[a] == 0 by { NothingCopied(bases, data, a); }
    } else {
      ImageHoldsSections(bases, data, k - 1, a);
      CopyNext(bases, data, k, a);
      if Within(bases, data, k - 1, a) {
        WithinOne(bases, data, k - 1, a);
      }
    }
  }

  lemma NothingCopied(bases: seq<Word>, data: Data, a: nat)
    requires |bases| == |data| && a < End(bases, data, |data|)
    ensures Image(bases, data, 0)[a] == 0
  {
    hide End;
  }

  lemma WithinOne(bases: seq<Word>, data: Data, j: nat, a: nat)
    requires j < |bases| == |data| && DisjointSections(bases, data) && Within(bases, data, j, a)
    ensures forall i :: 0 <= i < j ==> !Within(bases, data, i, a)
  {
  }

  /* ---- Linking ---- */

  function SectionData(objs: Objs): Data {
    var secs := Sections(objs, |objs|);
    seq(|secs|, i requires 0 <= i < |secs| => secs[i].data)
  }

  /** Bases, globals, relocation, image; None after any error. */
  function Link(objs: Objs, textBase: Word): Option<seq<Byte>>
    requires AllValid(objs)
  {
    var bases := AssignAddresses(Sections(objs, |objs|), textBase);
    var gs :- Globals(objs, bases, |objs|);
    var sites :- Sites(objs, bases, gs, |objs|);
    var data :- ApplySites(sites, SectionData(objs));
    Some(Image(bases, data, |data|))
  }

  /* ---- What the symbol table and the error count mean ---- */

  /** The relocation's section exists, and its symbol if external is defined somewhere. */
  predicate Resolves(o: ObjFile, gs: seq<GlobalSym>, r: Rel)
    requires ValidIndices(o) && r in o.rels
  {
    r.secIdx < |o.secs| && (o.syms[r.symIdx].secIdx == SEC_UNDEF ==> FindGlobal(gs, o.syms[r.symIdx].name).Some?)
  }

  /** One site per relocation, in order, exactly when all of them resolve. */
  lemma {:induction false} ObjSitesAre(o: ObjFile, bases: seq<Word>, start: nat, gs: seq<GlobalSym>, k: nat)
    requires k <= |o.rels| && ValidIndices(o) && start + |o.secs| <= |bases|
    ensures var t := ObjSites(o, bases, start, gs, k);
      && (t.Some? <==> forall i :: 0 <= i < k ==> Resolves(o, gs, o.rels[i]))
      && (t.Some? ==> |t.value| == k)
      && (t.Some? ==> forall i :: 0 <= i < k ==> SiteOf(o, bases, start, gs, o.rels[i]) == Some(t.value[i]))
  {
    if k == 0 {
    } else {
      ObjSitesAre(o, bases, start, gs, k - 1);
    }
  }

  /** Everything that has to be right about one relocation for the link to succeed. */
  predicate RelOk(o: ObjFile, bases: seq<Word>, start: nat, gs: seq<GlobalSym>, data: Data, r: Rel)
    requires ValidIndices(o) && r in o.rels && start + |o.secs| <= |bases|
  {
    Resolves(o, gs, r) && SiteOk(SiteOf(o, bases, start, gs, r).value, data)
  }

  predicate ObjRelsOk(o: ObjFile, bases: seq<Word>, start: nat, gs: seq<GlobalSym>, data: Data)
    requires ValidIndices(o) && start + |o.secs| <= |bases|
  {
    forall i :: 0 <= i < |o.rels| ==> RelOk(o, bases, start, gs, data, o.rels[i])
  }

  predicate AllRelsOk(objs: Objs, bases: seq<Word>, gs: seq<GlobalSym>, data: Data, n: nat)
    requires n <= |objs| && AllValid(objs) && |Sections(objs, n)| <= |bases|
  {
    if n == 0 then true else
    AllRelsOk(objs, bases, gs, data, n - 1)
    && ObjRelsOk(objs[n - 1], bases, |Sections(objs, n - 1)|, gs, data)
  }

  lemma {:induction false} SitesAreOk(objs: Objs, bases: seq<Word>, gs: seq<GlobalSym>, data: Data, n: nat)
    requires n <= |objs| && AllValid(objs) && |Sections(objs, n)| <= |bases|
    ensures AllRelsOk(objs, bases, gs, data, n) <==>
      var t := Sites(objs, bases, gs, n);
      t.Some? && forall s :: s in t.value ==> SiteOk(s, data)
  {
    hide SiteOk, SiteOf, Resolves;
    if n == 0 {
    } else {
      SitesAreOk(objs, bases, gs, data, n - 1);
      ObjSitesOk(objs[n - 1], bases, |Sections(objs, n - 1)|, gs, data);
    }
  }

  lemma ObjSitesOk(o: ObjFile, bases: seq<Word>, start: nat, gs: seq<GlobalSym>, data: Data)
    requires ValidIndices(o) && start + |o.secs| <= |bases|
    ensures ObjRelsOk(o, bases, start, gs, data) <==>
      var t := ObjSites(o, bases, start, gs, |o.rels|);
      t.Some? && forall s :: s in t.value ==> SiteOk(s, data)
  {
    hide SiteOk, SiteOf, Resolves, ObjSites;
    ObjSitesAre(o, bases, start, gs, |o.rels|);
    var t := ObjSites(o, bases, start, gs, |o.rels|);
    if ObjRelsOk(o, bases, start, gs, data) {
      assert forall i :: 0 <= i < |o.rels| ==> RelOk(o, bases, start, gs, data, o.rels[i]);
      forall s | t.Some? && s in t.value ensures SiteOk(s, data) {
        var i :| 0 <= i < |t.value| && t.value[i] == s;
        assert RelOk(o, bases, start, gs, data, o.rels[i]);
      }
    }
    if t.Some? && forall s :: s in t.value ==> SiteOk(s, data) {
      forall i | 0 <= i < |o.rels| ensures RelOk(o, bases, start, gs, data, o.rels[i]) {
        assert t.value[i] in t.value && Resolves(o, gs, o.rels[i]);
      }
    }
  }

  /** Main result on errors: with no duplicate global, linking succeeds exactly when every relocation names an
      existing section, every external symbol is defined, every type is known, every site is in bounds and
      every PC-relative distance fits 20 signed bits. */
  lemma LinkSucceedsIff(objs: Objs, textBase: Word)
    requires AllValid(objs)
    requires Globals(objs, AssignAddresses(Sections(objs, |objs|), textBase), |objs|).Some?
    ensures var bases := AssignAddresses(Sections(objs, |objs|), textBase);
      Link(objs, textBase).Some? <==>
        AllRelsOk(objs, bases, Globals(objs, bases, |objs|).value, SectionData(objs), |objs|)
  {
    hide AllRelsOk, Globals, Sites, ApplySites, SiteOk;
    var bases := AssignAddresses(Sections(objs, |objs|), textBase);
    var gs := Globals(objs, bases, |objs|).value;
    SitesAreOk(objs, bases, gs, SectionData(objs), |objs|);
    if Sites(objs, bases, gs, |objs|).Some? {
      RelocationSucceedsIff(Sites(objs, bases, gs, |objs|).value, SectionData(objs));
    }
  }

  lemma {:induction false} FindGlobalAppend(gs: seq<GlobalSym>, g: GlobalSym, name: string)
    ensures FindGlobal(gs + [g], name) ==
      if FindGlobal(gs, name).Some? then FindGlobal(gs, name) else if g.name == name then Some(g.addr) else None
  {
    if gs == [] {
      assert [] + [g] == [g] && [g][1..] == [];
    } else {
      assert (gs + [g])[1..] == gs[1..] + [g];
      FindGlobalAppend(gs[1..], g, name);
    }
  }

  predicate Exports(o: ObjFile, i: nat) {
    i < |o.syms| && o.syms[i].global != 0 && o.syms[i].secIdx != SEC_UNDEF
  }

  lemma {:induction false} ObjGlobalsFound(o: ObjFile, bases: seq<Word>, start: nat, k: nat, gs: seq<GlobalSym>,
      i: nat, name: string)
    requires k <= |o.syms| && ValidIndices(o) && start + |o.secs| <= |bases|
    requires ObjGlobals(o, bases, start, k, gs).Some?
    ensures var hs := ObjGlobals(o, bases, start, k, gs).value;
      && (FindGlobal(gs, name).Some? ==> FindGlobal(hs, name) == FindGlobal(gs, name))
      && (i < k && Exports(o, i) ==>
            FindGlobal(hs, o.syms[i].name) == Some(Wrap(bases[start + o.syms[i].secIdx] + o.syms[i].value)))
  {
    if k == 0 {
    } else {
      ObjGlobalsFound(o, bases, start, k - 1, gs, i, name);
      var hs := ObjGlobals(o, bases, start, k - 1, gs).value;
      if Exports(o, k - 1) {
        var g := GlobalSym(o.syms[k - 1].name, Wrap(bases[start + o.syms[k - 1].secIdx] + o.syms[k - 1].value));
        FindGlobalAppend(hs, g, name);
        FindGlobalAppend(hs, g, o.syms[k - 1].name);
        if i < k {
          FindGlobalAppend(hs, g, o.syms[i].name);
        }
      }
    }
  }

  /** An external reference resolves to the one object that exports the name: its section base plus offset. */
  lemma {:induction false} GlobalsFound(objs: Objs, bases: seq<Word>, n: nat, m: nat, i: nat)
    requires m < n <= |objs| && AllValid(objs) && |Sections(objs, n)| <= |bases|
    requires Globals(objs, bases, n).Some? && Exports(objs[m], i)
    ensures |Sections(objs, m)| + |objs[m].secs| <= |Sections(objs, n)|
    ensures FindGlobal(Globals(objs, bases, n).value, objs[m].syms[i].name)
            == Some(Wrap(bases[|Sections(objs, m)| + objs[m].syms[i].secIdx] + objs[m].syms[i].value))
  {
    SectionsGrow(objs, m + 1, n);
    var o := objs[n - 1];
    var gs := Globals(objs, bases, n - 1).value;
    if m < n - 1 {
      GlobalsFound(objs, bases, n - 1, m, i);
    }
    ObjGlobalsFound(o, bases, |Sections(objs, n - 1)|, |o.syms|, gs, if m == n - 1 then i else 0, objs[m].syms[i].name);
  }

  /* ---- Names, by what the objects export ---- */

  /** Symbol `i` of object `m` is exported under the name `y`. */
  predicate ExportAt(objs: Objs, m: nat, i: nat, y: string) {
    m < |objs| && Exports(objs[m], i) && objs[m].syms[i].name == y
  }

  /** One of the first `n` objects exports `y`. */
  ghost predicate Exported(objs: Objs, n: nat, y: string) {
    exists m: nat, i: nat :: m < n && ExportAt(objs, m, i, y)
  }

  /** No name is exported twice by the first `n` objects. */
  ghost predicate DistinctExports(objs: Objs, n: nat) {
    forall y, m: nat, i: nat, m': nat, i': nat ::
      m < n && m' < n && ExportAt(objs, m, i, y) && ExportAt(objs, m', i', y) ==> m == m' && i == i'
  }

  predicate ExportOf(o: ObjFile, i: nat, y: string) {
    Exports(o, i) && o.syms[i].name == y
  }

  /** The table after the first `k` symbols of an object holds what it held and what they export. */
  lemma {:induction false} ObjGlobalsNames(o: ObjFile, bases: seq<Word>, start: nat, k: nat, gs: seq<GlobalSym>,
      y: string)
    requires k <= |o.syms| && ValidIndices(o) && start + |o.secs| <= |bases|
    requires ObjGlobals(o, bases, start, k, gs).Some?
    ensures FindGlobal(ObjGlobals(o, bases, start, k, gs).value, y).Some? <==>
      FindGlobal(gs, y).Some? || exists i: nat :: i < k && ExportOf(o, i, y)
  {
    if k == 0 {
    } else {
      ObjGlobalsNames(o, bases, start, k - 1, gs, y);
      var hs := ObjGlobals(o, bases, start, k - 1, gs).value;
      if Exports(o, k - 1) {
        var g := GlobalSym(o.syms[k - 1].name, Wrap(bases[start + o.syms[k - 1].secIdx] + o.syms[k - 1].value));
        FindGlobalAppend(hs, g, y);
        assert ExportOf(o, k - 1, o.syms[k - 1].name);
      }
    }
  }

  /** It can be built exactly when no exported name is there already, or comes twice. */
  lemma {:induction false} ObjGlobalsSucceedIff(o: ObjFile, bases: seq<Word>, start: nat, k: nat, gs: seq<GlobalSym>)
    requires k <= |o.syms| && ValidIndices(o) && start + |o.secs| <= |bases|
    ensures ObjGlobals(o, bases, start, k, gs).Some? <==>
      && (forall i: nat :: i < k && Exports(o, i) ==> FindGlobal(gs, o.syms[i].name).None?)
      && (forall i: nat, i': nat :: i < i' < k && Exports(o, i) && Exports(o, i') ==> o.syms[i].name != o.syms[i'].name)
  {
    if k == 0 {
    } else {
      ObjGlobalsSucceedIff(o, bases, start, k - 1, gs);
      if ObjGlobals(o, bases, start, k - 1, gs).Some? && Exports(o, k - 1) {
        var y := o.syms[k - 1].name;
        ObjGlobalsNames(o, bases, start, k - 1, gs, y);
        if i: nat :| i < k - 1 && ExportOf(o, i, y) {
          assert Exports(o, i);
        }
        forall i: nat | i < k - 1 && Exports(o, i) && o.syms[i].name == y ensures ExportOf(o, i, y) {
        }
      }
    }
  }

  /** A name is found in the global table exactly when some object exports it. */
  lemma {:induction false} FoundIffExported(objs: Objs, bases: seq<Word>, n: nat, y: string)
    requires n <= |objs| && AllValid(objs) && |Sections(objs, n)| <= |bases| && Globals(objs, bases, n).Some?
    ensures FindGlobal(Globals(objs, bases, n).value, y).Some? <==> Exported(objs, n, y)
  {
    hide ObjGlobals, FindGlobal;
    if n == 0 {
      assert FindGlobal([], y).None? by { NothingFound(y); }
    } else {
      var o, gs := objs[n - 1], Globals(objs, bases, n - 1).value;
      FoundIffExported(objs, bases, n - 1, y);
      ObjGlobalsNames(o, bases, |Sections(objs, n - 1)|, |o.syms|, gs, y);
      if i: nat :| i < |o.syms| && ExportOf(o, i, y) {
        assert ExportAt(objs, n - 1, i, y);
      }
      if Exported(objs, n, y) {
        var m: nat, i: nat :| m < n && ExportAt(objs, m, i, y);
        assert m < n - 1 || ExportOf(o, i, y);
      }
    }
  }

  lemma NothingFound(y: string)
    ensures FindGlobal([], y).None?
  {
  }

  /** The global table can be built exactly when no name is exported twice. */
  lemma {:induction false} GlobalsSucceedIff(objs: Objs, bases: seq<Word>, n: nat)
    requires n <= |objs| && AllValid(objs) && |Sections(objs, n)| <= |bases|
    ensures Globals(objs, bases, n).Some? <==> DistinctExports(objs, n)
  {
    hide ObjGlobals, FindGlobal;
    if n == 0 {
    } else {
      var o := objs[n - 1];
      GlobalsSucceedIff(objs, bases, n - 1);
      if Globals(objs, bases, n - 1).Some? {
        var gs := Globals(objs, bases, n - 1).value;
        ObjGlobalsSucceedIff(o, bases, |Sections(objs, n - 1)|, |o.syms|, gs);
        forall i: nat | i < |o.syms| && Exports(o, i)
          ensures FindGlobal(gs, o.syms[i].name).Some? <==> Exported(objs, n - 1, o.syms[i].name)
        {
          FoundIffExported(objs, bases, n - 1, o.syms[i].name);
        }
        DistinctStep(objs, n);
      } else {
        assert !DistinctExports(objs, n);
      }
    }
  }

  /** Object `m` exports no name twice and none that an object before it exports. */
  ghost predicate ExportsNew(objs: Objs, m: nat)
    requires m < |objs|
  {
    var o := objs[m];
    && (forall i: nat :: i < |o.syms| && Exports(o, i) ==> !Exported(objs, m, o.syms[i].name))
    && (forall i: nat, i': nat :: i < i' < |o.syms| && Exports(o, i) && Exports(o, i') ==>
        o.syms[i].name != o.syms[i'].name)
  }

  lemma DistinctStep(objs: Objs, n: nat)
    requires 0 < n <= |objs| && DistinctExports(objs, n - 1)
    ensures DistinctExports(objs, n) <==> ExportsNew(objs, n - 1)
  {
    hide Exports;
    var o := objs[n - 1];
    if DistinctExports(objs, n) {
      forall i: nat | i < |o.syms| && Exports(o, i) ensures !Exported(objs, n - 1, o.syms[i].name) {
        assert ExportAt(objs, n - 1, i, o.syms[i].name);
      }
      forall i: nat, i': nat | i < i' < |o.syms| && Exports(o, i) && Exports(o, i')
        ensures o.syms[i].name != o.syms[i'].name
      {
        assert ExportAt(objs, n - 1, i, o.syms[i].name) && ExportAt(objs, n - 1, i', o.syms[i'].name);
      }
    }
    if ExportsNew(objs, n - 1) {
      forall y, m: nat, i: nat, m': nat, i': nat
        | m < n && m' < n && ExportAt(objs, m, i, y) && ExportAt(objs, m', i', y)
        ensures m == m' && i == i'
      {
        NewIsUnique(objs, n, y, m, i, m', i');
      }
    }
  }

  lemma NewIsUnique(objs: Objs, n: nat, y: string, m: nat, i: nat, m': nat, i': nat)
    requires 0 < n <= |objs| && DistinctExports(objs, n - 1) && ExportsNew(objs, n - 1)
    requires m < n && m' < n && ExportAt(objs, m, i, y) && ExportAt(objs, m', i', y)
    ensures m == m' && i == i'
  {
    hide DistinctExports, ExportsNew;
    if Exported(objs, n - 1, y) {
      NotAgain(objs, n - 1, y);
      DistinctAt(objs, n - 1, y, m, i, m', i');
    } else {
      OnceOnly(objs, n - 1, y);
    }
  }

  /** What an earlier object exports the new one does not ... */
  lemma NotAgain(objs: Objs, m: nat, y: string)
    requires m < |objs| && ExportsNew(objs, m) && Exported(objs, m, y)
    ensures forall i: nat :: !ExportAt(objs, m, i, y)
  {
    hide Exported;
  }

  /** ... and what it exports it exports once. */
  lemma OnceOnly(objs: Objs, m: nat, y: string)
    requires m < |objs| && ExportsNew(objs, m)
    ensures forall i: nat, i': nat :: ExportAt(objs, m, i, y) && ExportAt(objs, m, i', y) ==> i == i'
  {
  }

  lemma DistinctAt(objs: Objs, n: nat, y: string, m: nat, i: nat, m': nat, i': nat)
    requires DistinctExports(objs, n) && m < n && m' < n && ExportAt(objs, m, i, y) && ExportAt(objs, m', i', y)
    ensures m == m' && i == i'
  {
  }

  /** A relocation that can be resolved: its section exists, and its symbol if external is exported by an object. */
  ghost predicate Resolvable(objs: Objs, m: nat, j: nat)
    requires m < |objs| && AllValid(objs) && j < |objs[m].rels|
  {
    var o, r := objs[m], objs[m].rels[j];
    r.secIdx < |o.secs| && (o.syms[r.symIdx].secIdx == SEC_UNDEF ==> Exported(objs, |objs|, o.syms[r.symIdx].name))
  }

  lemma ResolvesIffExported(objs: Objs, bases: seq<Word>, m: nat, j: nat)
    requires AllValid(objs) && |Sections(objs, |objs|)| <= |bases| && Globals(objs, bases, |objs|).Some?
    requires m < |objs| && j < |objs[m].rels|
    ensures Resolves(objs[m], Globals(objs, bases, |objs|).value, objs[m].rels[j]) <==> Resolvable(objs, m, j)
  {
    hide Globals, FindGlobal;
    FoundIffExported(objs, bases, |objs|, objs[m].syms[objs[m].rels[j].symIdx].name);
  }

  /** Every relocation is resolvable, of a known type, in bounds and within reach. */
  ghost predicate EveryRelocationOk(objs: Objs, bases: seq<Word>, gs: seq<GlobalSym>)
    requires AllValid(objs) && |Sections(objs, |objs|)| <= |bases|
    requires forall m :: 0 <= m < |objs| ==> |Sections(objs, m)| + |objs[m].secs| <= |bases|
  {
    forall m, j :: 0 <= m < |objs| && 0 <= j < |objs[m].rels| ==> RelationOk(objs, bases, gs, m, j)
  }

  ghost predicate RelationOk(objs: Objs, bases: seq<Word>, gs: seq<GlobalSym>, m: nat, j: nat)
    requires m < |objs| && AllValid(objs) && j < |objs[m].rels| && |Sections(objs, m)| + |objs[m].secs| <= |bases|
  {
    && Resolvable(objs, m, j)
    && var s := SiteOf(objs[m], bases, |Sections(objs, m)|, gs, objs[m].rels[j]);
       s.Some? && SiteOk(s.value, SectionData(objs))
  }

  lemma SectionsUpTo(objs: Objs, d: nat)
    requires d < |objs|
    ensures |Sections(objs, d + 1)| == |Sections(objs, d)| + |objs[d].secs|
  {
  }

  lemma SectionsFit(objs: Objs, n: nat)
    requires n <= |objs|
    ensures forall m :: 0 <= m < n ==> |Sections(objs, m)| + |objs[m].secs| <= |Sections(objs, n)|
  {
    hide Sections;
    forall m | 0 <= m < n ensures |Sections(objs, m)| + |objs[m].secs| <= |Sections(objs, n)| {
      SectionsGrow(objs, m + 1, n);
      SectionsUpTo(objs, m);
    }
  }

  lemma {:induction false} AllRelsByIndex(objs: Objs, bases: seq<Word>, gs: seq<GlobalSym>, data: Data, n: nat)
    requires n <= |objs| && AllValid(objs) && |Sections(objs, n)| <= |bases|
    ensures forall m :: 0 <= m < n ==> |Sections(objs, m)| + |objs[m].secs| <= |bases|
    ensures AllRelsOk(objs, bases, gs, data, n) <==>
      forall m :: 0 <= m < n ==> ObjRelsOk(objs[m], bases, |Sections(objs, m)|, gs, data)
  {
    hide ObjRelsOk, Sections, ValidIndices;
    SectionsFit(objs, n);
    if n == 0 {
    } else {
      SectionsGrow(objs, n - 1, n);
      AllRelsByIndex(objs, bases, gs, data, n - 1);
    }
  }

  /** Main result on errors, in terms of the objects alone: linking succeeds exactly when no name is exported twice
      and every relocation names an existing section and a symbol of its own or one some object exports, is of
      a known type, in bounds, and within 20 signed bits if it is PC-relative. */
  lemma LinkSucceedsExactly(objs: Objs, textBase: Word)
    requires AllValid(objs)
    ensures forall m :: 0 <= m < |objs| ==> |Sections(objs, m)| + |objs[m].secs| <= |Sections(objs, |objs|)|
    ensures var bases := AssignAddresses(Sections(objs, |objs|), textBase);
      Link(objs, textBase).Some? <==>
        && DistinctExports(objs, |objs|)
        && var gs := Globals(objs, bases, |objs|);
           gs.Some? && EveryRelocationOk(objs, bases, gs.value)
  {
    hide Sections, AssignAddresses, Globals, Sites, ApplySites, AllRelsOk, SectionData, Image, SiteOf, SiteOk,
         Resolvable, Resolves;
    SectionsFit(objs, |objs|);
    var bases := AssignAddresses(Sections(objs, |objs|), textBase);
    GlobalsSucceedIff(objs, bases, |objs|);
    if Globals(objs, bases, |objs|).Some? {
      var gs := Globals(objs, bases, |objs|).value;
      LinkSucceedsIff(objs, textBase);
      AllRelsByIndex(objs, bases, gs, SectionData(objs), |objs|);
      forall m, j | 0 <= m < |objs| && 0 <= j < |objs[m].rels|
        ensures RelationOk(objs, bases, gs, m, j) <==>
          RelOk(objs[m], bases, |Sections(objs, m)|, gs, SectionData(objs), objs[m].rels[j])
      {
        ResolvesIffExported(objs, bases, m, j);
        SiteResolves(objs[m], bases, |Sections(objs, m)|, gs, objs[m].rels[j]);
      }
    }
  }

  lemma SiteResolves(o: ObjFile, bases: seq<Word>, start: nat, gs: seq<GlobalSym>, r: Rel)
    requires ValidIndices(o) && r in o.rels && start + |o.secs| <= |bases|
    ensures SiteOf(o, bases, start, gs, r).Some? <==> Resolves(o, gs, r)
  {
    hide FindGlobal;
  }
}
