/** The data directives: which bytes their lines are, and that the flat image has them at the lines' addresses. */
module DataLines {
  import opened Words
  import opened OpTable
  import opened Lexer
  import opened Assembler
  import opened Passes
  import opened Moving
  import Landing

  /** The directives by name, in any case. */
  lemma DirectiveNames(d: string)
    ensures UpperCase(d) == ".ORG" <==> DirectiveOf(d) == Org
    ensures UpperCase(d) == ".EXTERN" <==> DirectiveOf(d) == Extern
    ensures UpperCase(d) == ".SECTION" <==> DirectiveOf(d) == Section
    ensures UpperCase(d) == ".GLOBAL" <==> DirectiveOf(d) == Global
    ensures UpperCase(d) == ".WORD" <==> DirectiveOf(d) == WordDir
    ensures UpperCase(d) == ".BYTE" <==> DirectiveOf(d) == ByteDir
    ensures UpperCase(d) == ".SPACE" <==> DirectiveOf(d) == Space
    ensures UpperCase(d) == ".ASCII" <==> DirectiveOf(d) == Ascii
    ensures UpperCase(d) == ".ASCIIZ" <==> DirectiveOf(d) == Asciiz
    ensures UpperCase(d) == ".ALIGN" <==> DirectiveOf(d) == Align
    ensures UpperCase(d) == ".EQU" <==> DirectiveOf(d) == Equ
  {
    LowerNames();
    hide UpperCase;
  }

  lemma LowerNames()
    ensures UpperCase(".org") == ".ORG" && UpperCase(".extern") == ".EXTERN" && UpperCase(".section") == ".SECTION"
    ensures UpperCase(".global") == ".GLOBAL" && UpperCase(".word") == ".WORD" && UpperCase(".byte") == ".BYTE"
    ensures UpperCase(".space") == ".SPACE" && UpperCase(".ascii") == ".ASCII" && UpperCase(".asciiz") == ".ASCIIZ"
    ensures UpperCase(".align") == ".ALIGN" && UpperCase(".equ") == ".EQU"
  {
  }

  /** Behind its labels the line is the directive `name`, in any case, with these arguments. */
  predicate Directs(toks: Line, name: string, args: seq<Token>) {
    var ts := DropLabels(toks);
    |ts| == |args| + 1 && ts[0].Dot? && UpperCase(ts[0].name) == name && ts[1..] == args
  }

  lemma DirectiveLine(toks: Line, name: string, args: seq<Token>, syms: Symtab, at: Word, obj: bool)
    requires Directs(toks, name, args)
    ensures LineBytes(toks, syms, at, obj) == DirectiveBytes(DirectiveOf(DropLabels(toks)[0].name), args, syms, at, obj)
  {
    hide UpperCase, DirectiveOf, DirectiveBytes;
  }

  /** The line is these bytes, without a relocation. */
  predicate Is(toks: Line, syms: Symtab, at: Word, obj: bool, bytes: seq<Byte>) {
    LineBytes(toks, syms, at, obj) == Some(Emission(bytes, []))
  }

  /** `.byte e` is one byte, the value modulo 256. */
  lemma ByteLine(toks: Line, args: seq<Token>, syms: Symtab, at: Word, obj: bool)
    requires Directs(toks, ".BYTE", args) && Eval(args, syms, true).Some?
    ensures Is(toks, syms, at, obj, [Eval(args, syms, true).value.0 % 256])
  {
    hide UpperCase, DirectiveOf, Eval, LineBytes;
    DirectiveNames(DropLabels(toks)[0].name);
    DirectiveLine(toks, ".BYTE", args, syms, at, obj);
  }

  /** `.word e` in a flat assembly is four bytes, the lowest first, of the value modulo 2^32. */
  lemma WordLine(toks: Line, args: seq<Token>, syms: Symtab, at: Word)
    requires Directs(toks, ".WORD", args) && Eval(args, syms, true).Some?
    ensures var v := Eval(args, syms, true).value.0;
      Is(toks, syms, at, false, [v % 256, v / 256 % 256, v / 65536 % 256, v / 16777216 % 256])
  {
    hide UpperCase, DirectiveOf, Eval, LineBytes, PeekSymbol;
    DirectiveNames(DropLabels(toks)[0].name);
    DirectiveLine(toks, ".WORD", args, syms, at, false);
    LowBytes(Eval(args, syms, true).value.0);
  }

  lemma LowBytes(v: int)
    ensures WordLe(Wrap(v)) == [v % 256, v / 256 % 256, v / 65536 % 256, v / 16777216 % 256]
  {
    var q, w := v / 0x1_0000_0000, v % 0x1_0000_0000;
    var a, b, c := w / 0x100, w / 0x1_0000, w / 0x100_0000;
    EuclideanUnique(v, 0x100, q * 0x100_0000 + a, w % 0x100);
    EuclideanUnique(v, 0x1_0000, q * 0x1_0000 + b, w % 0x1_0000);
    EuclideanUnique(v, 0x100_0000, q * 0x100 + c, w % 0x100_0000);
    EuclideanUnique(q * 0x100_0000 + a, 0x100, q * 0x1_0000 + a / 0x100, a % 0x100);
    EuclideanUnique(q * 0x1_0000 + b, 0x100, q * 0x100 + b / 0x100, b % 0x100);
    EuclideanUnique(q * 0x100 + c, 0x100, q, c);
  }

  /** The line is `n` zero bytes. */
  predicate Blank(toks: Line, syms: Symtab, at: Word, obj: bool, n: nat) {
    Is(toks, syms, at, obj, seq(n, _ => 0))
  }

  /** `.space n` is n zero bytes, n modulo 2^32. */
  lemma SpaceLine(toks: Line, args: seq<Token>, syms: Symtab, at: Word, obj: bool)
    requires Directs(toks, ".SPACE", args)
    ensures args != [] && args[0].Int? ==> Blank(toks, syms, at, obj, args[0].value % 0x1_0000_0000)
    ensures args == [] || !args[0].Int? ==> LineBytes(toks, syms, at, obj) == None
  {
    hide UpperCase, DirectiveOf, LineBytes;
    DirectiveNames(DropLabels(toks)[0].name);
    DirectiveLine(toks, ".SPACE", args, syms, at, obj);
  }

  /** The text ends at its first NUL; each character is one byte. */
  predicate TextOf(text: string, bytes: seq<Byte>) {
    && |bytes| <= |text| && (|bytes| < |text| ==> text[|bytes|] == '\0')
    && forall i :: 0 <= i < |bytes| ==> text[i] != '\0' && bytes[i] == text[i] as int % 256
  }

  lemma {:induction false} TextIs(text: string)
    ensures TextOf(text, TextBytes(CText(text)))
  {
    var c := CText(text);
    if text == "" || text[0] == '\0' {
    } else {
      TextIs(text[1..]);
      var d := CText(text[1..]);
      assert c == [text[0]] + d;
      forall i | 0 <= i < |c| ensures text[i] != '\0' && TextBytes(c)[i] == text[i] as int % 256 {
        if i > 0 {
          assert TextBytes(d)[i - 1] == text[1..][i - 1] as int % 256;
        }
      }
    }
  }

  /** The line is these bytes, with a zero byte behind them if `ended`. */
  predicate Texts(toks: Line, syms: Symtab, at: Word, obj: bool, bytes: seq<Byte>, ended: bool) {
    Is(toks, syms, at, obj, if ended then bytes + [0] else bytes)
  }

  /** `.ascii "text"` is the bytes of the text, `.asciiz` those and a zero byte. */
  lemma TextLine(toks: Line, name: string, args: seq<Token>, syms: Symtab, at: Word, obj: bool)
    requires (name == ".ASCII" || name == ".ASCIIZ") && Directs(toks, name, args)
    ensures args != [] && args[0].Str? ==>
      exists b :: TextOf(args[0].text, b) && Texts(toks, syms, at, obj, b, name == ".ASCIIZ")
    ensures args == [] || !args[0].Str? ==> LineBytes(toks, syms, at, obj) == None
  {
    hide UpperCase, DirectiveOf, LineBytes, TextOf, TextBytes, CText;
    DirectiveNames(DropLabels(toks)[0].name);
    DirectiveLine(toks, name, args, syms, at, obj);
    if args != [] && args[0].Str? {
      TextIs(args[0].text);
    }
  }

  /** `.align a` for a power of two is zero bytes, fewer than `a`, up to a multiple of `a`. */
  lemma AlignLine(toks: Line, args: seq<Token>, syms: Symtab, at: Word, obj: bool)
    requires Directs(toks, ".ALIGN", args) && args != [] && args[0].Int? && PowerOfTwo(Wrap(args[0].value))
    ensures var a := Wrap(args[0].value);
      a > 0 && exists n :: 0 <= n < a && (at + n) % a == 0 && Blank(toks, syms, at, obj, n)
  {
    hide UpperCase, DirectiveOf, LineBytes, AlignUp, PowerOfTwo;
    DirectiveNames(DropLabels(toks)[0].name);
    DirectiveLine(toks, ".ALIGN", args, syms, at, obj);
    var a := Wrap(args[0].value);
    PowerPositive(a);
    AlignGap(at, a);
    var n := (0 - at) % a;
    GapFills(at, a);
    assert Zeros(n) == seq(n, _ => 0);
    assert Blank(toks, syms, at, obj, n);
  }

  lemma PowerPositive(a: nat)
    requires PowerOfTwo(a)
    ensures a > 0
  {
  }

  lemma GapFills(at: nat, a: nat)
    requires a > 0
    ensures (at + (0 - at) % a) % a == 0
  {
    var q := (0 - at) / a;
    assert at + (0 - at) % a == (-q) * a by { assert 0 - at == q * a + (0 - at) % a; }
    EuclideanUnique((-q) * a, a, -q, 0);
  }

  /** `.org a` is zero bytes up to address `a`, and an error when the address has gone beyond. */
  lemma OriginLine(toks: Line, args: seq<Token>, syms: Symtab, at: Word, obj: bool)
    requires Directs(toks, ".ORG", args) && args != [] && args[0].Int? && 0 <= args[0].value < 0x1_0000_0000
    ensures args[0].value >= at ==> Blank(toks, syms, at, obj, args[0].value - at)
    ensures args[0].value < at ==> LineBytes(toks, syms, at, obj) == None
  {
    hide UpperCase, DirectiveOf, LineBytes;
    DirectiveNames(DropLabels(toks)[0].name);
    DirectiveLine(toks, ".ORG", args, syms, at, obj);
    WrapSmall(args[0].value);
  }

  const DECLARATIONS: set<string> := {".EXTERN", ".SECTION", ".GLOBAL", ".EQU"}
  const DATA: set<string> := {".ORG", ".WORD", ".BYTE", ".SPACE", ".ASCII", ".ASCIIZ", ".ALIGN"}

  /** Declarations take no room; an unknown directive is an error. */
  lemma SilentLine(toks: Line, name: string, args: seq<Token>, syms: Symtab, at: Word, obj: bool)
    requires Directs(toks, name, args)
    ensures name in DECLARATIONS ==> Is(toks, syms, at, obj, [])
    ensures name !in DECLARATIONS && name !in DATA ==> LineBytes(toks, syms, at, obj) == None
  {
    hide UpperCase, LineBytes, DirectiveOf, Eval, PeekSymbol, AlignUp, CText;
    DirectiveNames(DropLabels(toks)[0].name);
    DirectiveLine(toks, name, args, syms, at, obj);
  }

  /** Main result: in the image of a flat assembly every line's bytes are at the line's address, and the next line
      starts behind them; the image ends behind the last line. */
  lemma DataInImage(lines: seq<Line>, k: nat, bytes: seq<Byte>)
    requires AssembleFlat(lines).Some? && k < |lines|
    requires Is(lines[k], Landing.Before(lines, k).syms, Wrap(Landing.AddressOf(lines, k)), false, bytes)
    ensures var out, at := AssembleFlat(lines).value, Landing.AddressOf(lines, k);
      && at + |bytes| <= |out| && out[at..at + |bytes|] == bytes && Landing.AddressOf(lines, k + 1) == at + |bytes|
    ensures Landing.AddressOf(lines, |lines|) == |AssembleFlat(lines).value| && Landing.AddressOf(lines, 0) == 0
  {
    hide LineBytes, LineSymbols, RunPass1, RunPass2;
    var syms := RunPass1(lines, |lines|, false).value.syms;
    LineBytesInImage(lines, k, |lines|, syms, 0, false);
    RunsArePrefixClosed(lines, k + 1, |lines|, syms, 0, false);
    LastLine(lines, k + 1, syms, 0, false);
    NoOutputYet(lines, syms);
  }

  lemma NoOutputYet(lines: seq<Line>, syms: Symtab)
    ensures RunPass2(lines, 0, syms, 0, false) == Some(Pass2([], syms, []))
  {
  }

  /** The output holds 8 MB: a source that reserves n bytes assembles exactly when n is no more. */
  lemma OutputLimit(n: nat)
    requires n < 0x1_0000_0000
    ensures AssembleFlat([[Dot(".space"), Int(n)]]) == if n <= 0x80_0000 then Some(seq(n, _ => 0)) else None
  {
    hide UpperCase, LineBytes, LineSymbols, DirectiveSize;
    var toks := [Dot(".space"), Int(n)];
    var lines := [toks];
    LowerNames();
    DirectiveNames(".space");
    assert DropLabels(toks) == toks && toks[1..] == [Int(n)];
    WrapSmall(n);
    SpaceLine(toks, [Int(n)], [], 0, false);
    assert RunPass1(lines, 0, false) == Some(Pass1(0, [], 0));
    assert DefineLabels(toks, [], 0) == Some([]);
    assert RunPass1(lines, 1, false).Some? && RunPass1(lines, 1, false).value.syms == [];
    assert RunPass2(lines, 0, [], 0, false) == Some(Pass2([], [], []));
    SilentSymbols(toks);
    assert RunPass2(lines, 1, [], 0, false) == Pass2Line(toks, Pass2([], [], []), 0, false);
    var z: seq<Byte> := seq(n, _ => 0);
    assert Is(toks, [], 0, false, z) && |z| == n && [] + z == z;
    assert Wrap(0) == 0;
  }

  lemma SilentSymbols(toks: Line)
    requires toks != [] && toks[0].Dot? && DirectiveOf(toks[0].name) == Space
    ensures LineSymbols(toks, []) == Some([])
  {
    hide DirectiveOf;
  }
}
