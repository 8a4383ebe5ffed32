/** The object file: what the assembler writes, what the linker reads, and that they are inverses. */
module Dobj {
  import opened Words
  import opened Assembler

  const SEC_UNDEF: Word := 0xFFFF

  datatype Sym = Sym(name: string, value: Word, secIdx: Word, global: Byte)
  datatype Rel = Rel(offset: Word, symIdx: Word, kind: Byte, secIdx: Byte, addend: int)
  datatype Sec = Sec(vmaHint: Word, data: seq<Byte>)

  /** A loaded object file. */
  datatype ObjFile = ObjFile(secs: seq<Sec>, syms: seq<Sym>, rels: seq<Rel>)

  /** What an assembled object means to the linker: addresses relative to its one section. */
  function Meaning(o: Object): ObjFile {
    ObjFile([Sec(o.vmaHint, o.data)],
            seq(|o.syms|, i requires 0 <= i < |o.syms| => SymMeaning(o.syms[i], o.base)),
            seq(|o.relocs|, i requires 0 <= i < |o.relocs| => RelMeaning(o.relocs[i])))
  }

  function SymMeaning(s: Symbol, base: Word): Sym {
    Sym(s.name, if s.extern then 0 else Wrap(s.addr - base), if s.extern then SEC_UNDEF else 0,
        if s.global then 1 else 0)
  }

  function RelMeaning(r: Reloc): Rel {
    Rel(r.offset, Wrap(r.sym), r.kind, 0, Int32(r.addend))
  }

  /* ---- Writing ---- */

  function HalfLe(v: Word): (b: seq<Byte>)
    ensures |b| == 2
  {
    [v % 0x100, v / 0x100 % 0x100]
  }

  /** strncpy of at most 27 characters into 28 zeroed bytes. */
  function NameBytes(name: string): (b: seq<Byte>)
    ensures |b| == 28
  {
    seq(28, i requires 0 <= i < 28 => if i < 27 && i < |CText(name)| then CText(name)[i] as int % 0x100 else 0)
  }

  function Header(o: Object): (b: seq<Byte>)
    ensures |b| == 24
  {
    [0x44, 0x4F, 0x42, 0x4A] + [1, 0, 0, 0] + WordLe(1) + WordLe(Wrap(|o.syms|)) + WordLe(Wrap(|o.relocs|))
        + WordLe(Wrap(DataOffset(o)))
  }

  function DataOffset(o: Object): nat {
    48 + 36 * |o.syms| + 16 * |o.relocs|
  }

  /** Name ".text", offset in the blob, size, address hint, flags EXEC and ALLOC. */
  function SectionHeader(o: Object): (b: seq<Byte>)
    ensures |b| == 24
  {
    [0x2E, 0x74, 0x65, 0x78, 0x74, 0, 0, 0] + WordLe(0) + WordLe(Wrap(|o.data|)) + WordLe(o.vmaHint) + WordLe(5)
  }

  function SymBytes(s: Symbol, base: Word): (b: seq<Byte>)
    ensures |b| == 36
  {
    var m := SymMeaning(s, base);
    NameBytes(s.name) + WordLe(m.value) + HalfLe(m.secIdx) + [m.global, 0]
  }

  function RelBytes(r: Reloc): (b: seq<Byte>)
    ensures |b| == 16
  {
    WordLe(r.offset) + WordLe(Wrap(r.sym)) + [r.kind, 0, 0, 0] + WordLe(Wrap(r.addend))
  }

  function SymsBytes(syms: seq<Symbol>, base: Word): (b: seq<Byte>)
    ensures |b| == 36 * |syms|
  {
    if syms == [] then [] else SymsBytes(syms[..|syms| - 1], base) + SymBytes(syms[|syms| - 1], base)
  }

  function RelsBytes(rels: seq<Reloc>): (b: seq<Byte>)
    ensures |b| == 16 * |rels|
  {
    if rels == [] then [] else RelsBytes(rels[..|rels| - 1]) + RelBytes(rels[|rels| - 1])
  }

  function Write(o: Object): seq<Byte> {
    Header(o) + SectionHeader(o) + SymsBytes(o.syms, o.base) + RelsBytes(o.relocs) + o.data
  }

  /** The writer as the program does it: record by record, in two loops. */
  method WriteDobj(o: Object) returns (f: seq<Byte>)
    ensures f == Write(o)
  {
    hide Header, SectionHeader, SymBytes, RelBytes;
    f := Header(o) + SectionHeader(o);
    var i := 0;
    while i < |o.syms|
      invariant 0 <= i <= |o.syms|
      invariant f == Header(o) + SectionHeader(o) + SymsBytes(o.syms[..i], o.base)
    {
      assert o.syms[..i + 1][..i] == o.syms[..i];
      f := f + SymBytes(o.syms[i], o.base);
      i := i + 1;
    }
    assert o.syms[..i] == o.syms;
    var j := 0;
    while j < |o.relocs|
      invariant 0 <= j <= |o.relocs|
      invariant f == Header(o) + SectionHeader(o) + SymsBytes(o.syms, o.base) + RelsBytes(o.relocs[..j])
    {
      assert o.relocs[..j + 1][..j] == o.relocs[..j];
      f := f + RelBytes(o.relocs[j]);
      j := j + 1;
    }
    assert o.relocs[..j] == o.relocs;
    f := f + o.data;
  }

  /* ---- Reading ---- */

  /** fgetc past the end of the file gives EOF, read as 0xFF. */
  function GetByte(f: seq<Byte>, at: nat): Byte {
    if at < |f| then f[at] else 0xFF
  }

  function Get16(f: seq<Byte>, at: nat): Word {
    GetByte(f, at) + 0x100 * GetByte(f, at + 1)
  }

  function Get32(f: seq<Byte>, at: nat): Word {
    GetByte(f, at) + 0x100 * GetByte(f, at + 1) + 0x1_0000 * GetByte(f, at + 2) + 0x100_0000 * GetByte(f, at + 3)
  }

  /** A name field: fread into zeroed memory, ended by its first NUL. */
  function GetName(f: seq<Byte>, at: nat): string {
    CText(seq(28, i requires 0 <= i < 28 => if at + i < |f| then f[at + i] as char else '\0'))
  }

  function GetSym(f: seq<Byte>, at: nat): Sym {
    Sym(GetName(f, at), Get32(f, at + 28), Get16(f, at + 32), GetByte(f, at + 34))
  }

  function GetRel(f: seq<Byte>, at: nat): Rel {
    Rel(Get32(f, at), Get32(f, at + 4), GetByte(f, at + 8), GetByte(f, at + 9), Signed(Get32(f, at + 12)))
  }

  /** A section's bytes, taken from the blob at `dataOff`; what the blob lacks is zero. */
  function GetSec(f: seq<Byte>, at: nat, dataOff: nat): Sec {
    var off, size, blobSize := Get32(f, at + 8), Get32(f, at + 12), Wrap(|f| - dataOff);
    var copy := if off >= blobSize then 0 else if Wrap(off + size) > blobSize then blobSize - off else size;
    Sec(Get32(f, at + 16),
        seq(size, k requires 0 <= k < size => if k < copy && dataOff + off + k < |f| then f[dataOff + off + k] else 0))
  }

  function Load(f: seq<Byte>): Option<ObjFile> {
    if |f| < 4 || f[..4] != [0x44, 0x4F, 0x42, 0x4A] then None else
    var nsec, nsym, nrel, dataOff := Get32(f, 8), Get32(f, 12), Get32(f, 16), Get32(f, 20);
    var symsAt := 24 + 24 * nsec;
    var relsAt := symsAt + 36 * nsym;
    Some(ObjFile(seq(nsec, i requires 0 <= i < nsec => GetSec(f, 24 + 24 * i, dataOff)),
                 seq(nsym, i requires 0 <= i < nsym => GetSym(f, symsAt + 36 * i)),
                 seq(nrel, i requires 0 <= i < nrel => GetRel(f, relsAt + 16 * i))))
  }

  /* ---- Round trip ---- */

  /** Symbol names the format can hold: at most 27 bytes, no NUL. */
  predicate NameFits(name: string) {
    |name| <= 27 && forall i :: 0 <= i < |name| ==> 0 < name[i] as int < 0x100
  }

  /** The record `r` lies in the file at `at`. */
  predicate LiesAt(f: seq<Byte>, at: nat, r: seq<Byte>) {
    at + |r| <= |f| && f[at..at + |r|] == r
  }

  lemma ReadInRecord(f: seq<Byte>, at: nat, r: seq<Byte>, k: nat)
    requires LiesAt(f, at, r)
    ensures k < |r| ==> GetByte(f, at + k) == r[k]
    ensures k + 2 <= |r| ==> Get16(f, at + k) == Get16(r, k)
    ensures k + 4 <= |r| ==> Get32(f, at + k) == Get32(r, k)
  {
    forall j | 0 <= j < |r| ensures r[j] == f[at + j] {
      assert f[at..at + |r|][j] == f[at + j];
    }
  }

  lemma WordReads(r: seq<Byte>, k: nat, v: Word)
    requires LiesAt(r, k, WordLe(v))
    ensures Get32(r, k) == v
  {
    var b := WordLe(v);
    assert r[k..k + 4][0] == r[k] && r[k..k + 4][1] == r[k + 1] && r[k..k + 4][2] == r[k + 2]
        && r[k..k + 4][3] == r[k + 3];
    WordBytes(v);
  }

  lemma {:induction false} CTextWhole(s: string)
    requires forall i :: 0 <= i < |s| ==> s[i] != '\0'
    ensures CText(s) == s
  {
    if s == "" {
    } else {
      CTextWhole(s[1..]);
    }
  }

  lemma {:induction false} CTextPadded(s: string, t: string)
    requires |s| < |t| && t[..|s|] == s && t[|s|] == '\0' && forall i :: 0 <= i < |s| ==> s[i] != '\0'
    ensures CText(t) == s
  {
    if s == "" {
    } else {
      assert t[0] == t[..|s|][0] == s[0];
      assert t[1..][..|s| - 1] == s[1..];
      CTextPadded(s[1..], t[1..]);
    }
  }

  lemma NameRoundTrip(f: seq<Byte>, at: nat, name: string)
    requires NameFits(name) && LiesAt(f, at, NameBytes(name))
    ensures GetName(f, at) == name
  {
    CTextWhole(name);
    var t: string := seq(28, i requires 0 <= i < 28 => if at + i < |f| then f[at + i] as char else '\0');
    forall i | 0 <= i < 28 ensures t[i] == (if i < |name| then name[i] else '\0') {
      ReadInRecord(f, at, NameBytes(name), i);
    }
    assert t[..|name|] == name;
    CTextPadded(name, t);
  }

  lemma SymRoundTrip(f: seq<Byte>, at: nat, s: Symbol, base: Word)
    requires NameFits(s.name) && LiesAt(f, at, SymBytes(s, base))
    ensures GetSym(f, at) == SymMeaning(s, base)
  {
    hide Get32, Get16, WordLe, NameBytes, HalfLe, GetName;
    var m, r := SymMeaning(s, base), SymBytes(s, base);
    Part(f, at, r, 0, 28);
    assert r[0..28] == NameBytes(s.name);
    NameRoundTrip(f, at, s.name);
    assert r[28..32] == WordLe(m.value);
    WordReads(r, 28, m.value);
    ReadInRecord(f, at, r, 28);
    assert r[32..34] == HalfLe(m.secIdx);
    HalfReads(r, 32, m.secIdx);
    ReadInRecord(f, at, r, 32);
    ReadInRecord(f, at, r, 34);
  }

  lemma HalfReads(r: seq<Byte>, k: nat, v: Word)
    requires v < 0x1_0000 && LiesAt(r, k, HalfLe(v))
    ensures Get16(r, k) == v
  {
    assert r[k..k + 2][0] == r[k] && r[k..k + 2][1] == r[k + 1];
  }

  lemma Part(f: seq<Byte>, at: nat, r: seq<Byte>, a: nat, b: nat)
    requires LiesAt(f, at, r) && a <= b <= |r|
    ensures LiesAt(f, at + a, r[a..b])
  {
    forall k | 0 <= k < b - a ensures f[at + a..at + b][k] == r[a..b][k] {
      ReadInRecord(f, at, r, a + k);
    }
  }

  lemma RelRoundTrip(f: seq<Byte>, at: nat, r: Reloc)
    requires LiesAt(f, at, RelBytes(r))
    ensures GetRel(f, at) == RelMeaning(r)
  {
    hide Get32, WordLe;
    var b := RelBytes(r);
    assert b[0..4] == WordLe(r.offset) && b[4..8] == WordLe(Wrap(r.sym)) && b[12..16] == WordLe(Wrap(r.addend));
    WordReads(b, 0, r.offset);
    WordReads(b, 4, Wrap(r.sym));
    WordReads(b, 12, Wrap(r.addend));
    ReadInRecord(f, at, b, 0);
    ReadInRecord(f, at, b, 4);
    ReadInRecord(f, at, b, 8);
    ReadInRecord(f, at, b, 9);
    ReadInRecord(f, at, b, 12);
  }

  lemma {:induction false} SymLies(syms: seq<Symbol>, base: Word, i: nat)
    requires i < |syms|
    ensures LiesAt(SymsBytes(syms, base), 36 * i, SymBytes(syms[i], base))
    decreases |syms|
  {
    hide SymBytes;
    var n := |syms| - 1;
    if i >= n {
    } else {
      SymLies(syms[..n], base, i);
      LiesInPrefix(SymsBytes(syms[..n], base), SymBytes(syms[n], base), 36 * i, SymBytes(syms[i], base));
    }
  }

  lemma {:induction false} RelLies(rels: seq<Reloc>, i: nat)
    requires i < |rels|
    ensures LiesAt(RelsBytes(rels), 16 * i, RelBytes(rels[i]))
    decreases |rels|
  {
    hide RelBytes;
    var n := |rels| - 1;
    if i >= n {
    } else {
      RelLies(rels[..n], i);
      LiesInPrefix(RelsBytes(rels[..n]), RelBytes(rels[n]), 16 * i, RelBytes(rels[i]));
    }
  }

  lemma LiesInPrefix(f: seq<Byte>, g: seq<Byte>, at: nat, r: seq<Byte>)
    requires LiesAt(f, at, r)
    ensures LiesAt(f + g, at, r)
  {
    assert (f + g)[at..at + |r|] == f[at..at + |r|];
  }

  lemma LiesInSuffix(f: seq<Byte>, g: seq<Byte>, at: nat, r: seq<Byte>)
    requires LiesAt(g, at, r)
    ensures LiesAt(f + g, |f| + at, r)
  {
    assert (f + g)[|f| + at..|f| + at + |r|] == g[at..at + |r|];
  }

  lemma HeadersLie(o: Object)
    ensures LiesAt(Write(o), 0, Header(o)) && LiesAt(Write(o), 24, SectionHeader(o))
    ensures |Write(o)| == DataOffset(o) + |o.data| && LiesAt(Write(o), DataOffset(o), o.data)
  {
    hide Header, SectionHeader, SymBytes, RelBytes, SymsBytes, RelsBytes;
    var h, s, r := Header(o) + SectionHeader(o), SymsBytes(o.syms, o.base), RelsBytes(o.relocs);
    assert Write(o) == h + s + r + o.data;
    LiesInSuffix(h + s + r, o.data, 0, o.data);
  }

  lemma SymRecordLies(o: Object, i: nat)
    requires i < |o.syms|
    ensures LiesAt(Write(o), 48 + 36 * i, SymBytes(o.syms[i], o.base))
  {
    hide Header, SectionHeader, SymBytes, RelBytes, SymsBytes, RelsBytes;
    var h, s, r := Header(o) + SectionHeader(o), SymsBytes(o.syms, o.base), RelsBytes(o.relocs);
    assert Write(o) == h + (s + (r + o.data));
    SymLies(o.syms, o.base, i);
    LiesInPrefix(s, r + o.data, 36 * i, SymBytes(o.syms[i], o.base));
    LiesInSuffix(h, s + (r + o.data), 36 * i, SymBytes(o.syms[i], o.base));
  }

  lemma RelRecordLies(o: Object, i: nat)
    requires i < |o.relocs|
    ensures LiesAt(Write(o), 48 + 36 * |o.syms| + 16 * i, RelBytes(o.relocs[i]))
  {
    hide Header, SectionHeader, SymBytes, RelBytes, SymsBytes, RelsBytes;
    var h, s, r := Header(o) + SectionHeader(o), SymsBytes(o.syms, o.base), RelsBytes(o.relocs);
    assert Write(o) == (h + s) + (r + o.data);
    RelLies(o.relocs, i);
    LiesInPrefix(r, o.data, 16 * i, RelBytes(o.relocs[i]));
    LiesInSuffix(h + s, r + o.data, 16 * i, RelBytes(o.relocs[i]));
  }

  lemma FieldReads(f: seq<Byte>, at: nat, r: seq<Byte>, k: nat, v: Word)
    requires LiesAt(f, at, r) && k + 4 <= |r| && r[k..k + 4] == WordLe(v)
    ensures Get32(f, at + k) == v
  {
    hide WordLe, Get32;
    WordReads(r, k, v);
    ReadInRecord(f, at, r, k);
  }

  lemma HeaderReads(o: Object)
    requires DataOffset(o) < 0x1_0000_0000
    ensures var f := Write(o);
      && |f| >= 4 && f[..4] == [0x44, 0x4F, 0x42, 0x4A]
      && Get32(f, 8) == 1 && Get32(f, 12) == |o.syms| && Get32(f, 16) == |o.relocs| && Get32(f, 20) == DataOffset(o)
  {
    hide Get32, WordLe, Write;
    HeadersLie(o);
    var f, h := Write(o), Header(o);
    assert f[..4] == f[0..24][..4] == h[..4];
    FieldReads(f, 0, h, 8, 1);
    FieldReads(f, 0, h, 12, Wrap(|o.syms|));
    FieldReads(f, 0, h, 16, Wrap(|o.relocs|));
    FieldReads(f, 0, h, 20, Wrap(DataOffset(o)));
  }

  lemma SectionReads(o: Object)
    requires |o.data| < 0x1_0000_0000
    ensures var f := Write(o);
      Get32(f, 32) == 0 && Get32(f, 36) == |o.data| && Get32(f, 40) == o.vmaHint
  {
    hide Get32, WordLe, Write;
    HeadersLie(o);
    var f, s := Write(o), SectionHeader(o);
    FieldReads(f, 24, s, 8, 0);
    FieldReads(f, 24, s, 12, Wrap(|o.data|));
    FieldReads(f, 24, s, 16, o.vmaHint);
  }

  /** Main result: reading what was written gives back section, symbols, relocations and data. */
  lemma RoundTrip(o: Object)
    requires DataOffset(o) + |o.data| < 0x1_0000_0000
    requires forall i :: 0 <= i < |o.syms| ==> NameFits(o.syms[i].name)
    ensures Load(Write(o)) == Some(Meaning(o))
  {
    hide Get32, Write, SymBytes, RelBytes, GetSym, GetRel, SymMeaning, RelMeaning, Header, SectionHeader;
    HeaderReads(o);
    var f := Write(o);
    forall i | 0 <= i < |o.syms| ensures GetSym(f, 48 + 36 * i) == SymMeaning(o.syms[i], o.base) {
      SymRecordLies(o, i);
      SymRoundTrip(f, 48 + 36 * i, o.syms[i], o.base);
    }
    forall i | 0 <= i < |o.relocs| ensures GetRel(f, 48 + 36 * |o.syms| + 16 * i) == RelMeaning(o.relocs[i]) {
      RelRecordLies(o, i);
      RelRoundTrip(f, 48 + 36 * |o.syms| + 16 * i, o.relocs[i]);
    }
    SectionRoundTrip(o);
    var g := Load(f).value;
    assert g.syms == Meaning(o).syms;
    assert g.rels == Meaning(o).rels;
    assert g.secs == Meaning(o).secs;
  }

  lemma SectionRoundTrip(o: Object)
    requires DataOffset(o) + |o.data| < 0x1_0000_0000
    ensures GetSec(Write(o), 24, DataOffset(o)) == Sec(o.vmaHint, o.data)
  {
    hide Get32, Write, Header, SectionHeader;
    HeadersLie(o);
    SectionReads(o);
    var f, at := Write(o), DataOffset(o);
    var s := GetSec(f, 24, at);
    forall k | 0 <= k < |o.data| ensures s.data[k] == o.data[k] {
      ReadInRecord(f, at, o.data, k);
    }
  }

  /** The layout of a symbol record, 36 bytes each from byte 48 on: 28 bytes of name, the value, the section index in
      two bytes, one byte for global, one unused. */
  lemma SymbolLayout(o: Object, i: nat)
    requires i < |o.syms| && NameFits(o.syms[i].name)
    ensures var f, at, s := Write(o), 48 + 36 * i, o.syms[i];
      && at + 36 <= |f|
      && (forall k :: 0 <= k < 28 ==> f[at + k] as int == if k < |s.name| then s.name[k] as int else 0)
      && Get32(f, at + 28) == (if s.extern then 0 else (s.addr - o.base) % 0x1_0000_0000)
      && Get16(f, at + 32) == (if s.extern then 0xFFFF else 0)
      && f[at + 34] == (if s.global then 1 else 0) && f[at + 35] == 0
  {
    hide Get32, Get16, WordLe, HalfLe, Write;
    var f, at, s := Write(o), 48 + 36 * i, o.syms[i];
    SymRecordLies(o, i);
    SymRoundTrip(f, at, s, o.base);
    var r := SymBytes(s, o.base);
    CTextWhole(s.name);
    forall k | 0 <= k < 36 ensures f[at + k] == r[k] {
      ReadInRecord(f, at, r, k);
    }
    forall k | 0 <= k < 28 ensures f[at + k] as int == if k < |s.name| then s.name[k] as int else 0 {
      assert r[k] == NameBytes(s.name)[k];
      NameByte(s.name, k);
    }
  }

  lemma NameByte(name: string, k: nat)
    requires NameFits(name) && k < 28
    ensures NameBytes(name)[k] as int == if k < |name| then name[k] as int else 0
  {
    CTextWhole(name);
  }

  /** The layout of a relocation record, 16 bytes each behind the symbols: offset, symbol index, type, section,
      addend. */
  lemma RelocationLayout(o: Object, j: nat)
    requires j < |o.relocs|
    ensures var f, at, r := Write(o), 48 + 36 * |o.syms| + 16 * j, o.relocs[j];
      && at + 16 <= |f|
      && Get32(f, at) == r.offset && Get32(f, at + 4) == r.sym % 0x1_0000_0000
      && f[at + 8] == r.kind && f[at + 9] == 0 && f[at + 10] == 0 && f[at + 11] == 0
      && Get32(f, at + 12) == r.addend % 0x1_0000_0000
  {
    hide Get32, WordLe, Write;
    var f, at, r := Write(o), 48 + 36 * |o.syms| + 16 * j, o.relocs[j];
    RelRecordLies(o, j);
    var b := RelBytes(r);
    FieldReads(f, at, b, 0, r.offset);
    FieldReads(f, at, b, 4, Wrap(r.sym));
    FieldReads(f, at, b, 12, Wrap(r.addend));
    forall k | 0 <= k < 16 ensures f[at + k] == b[k] {
      ReadInRecord(f, at, b, k);
    }
  }
}
