/** The tokenizer reads back what is written: every token list, spelled out with any blanks between the tokens, any
    comment behind them, strings with escapes, numbers in decimal, hexadecimal or octal. */
module Spelling {
  import opened Words
  import opened OpTable
  import opened Lexer
  import opened Disasm

  datatype Radix = Decimal | Hexadecimal | Octal

  /** A token as it may be written: with blanks before it, and a number in one of three ways. */
  datatype Spelled = Spelled(tok: Token, gap: string, radix: Radix)

  function Oct(n: nat): (s: string)
    ensures s != ""
  {
    if n < 8 then [DigitChar(n)] else Oct(n / 8) + [DigitChar(n % 8)]
  }

  function Number(v: nat, radix: Radix): string {
    match radix
    case Decimal => Dec(v)
    case Hexadecimal => if v < 0x1_0000_0000 then "0x" + Hex(v, 8) else Dec(v)
    case Octal => "0" + Oct(v)
  }

  predicate Blanks(s: string) {
    forall i :: 0 <= i < |s| ==> s[i] == ' ' || s[i] == '\t'
  }

  /** Names start with a letter or an underscore, directives with a dot; numbers are not negative. */
  predicate Writable(t: Token) {
    match t
    case Ident(x) => IsName(x)
    case Label(x) => IsName(x)
    case Dot(x) => x != "" && x[0] == '.' && forall i :: 1 <= i < |x| ==> IsIdentChar(x[i])
    case Int(v) => 0 <= v < 0x8000_0000_0000_0000
    case _ => true
  }

  function EscapedChar(c: char): string {
    if c == '\n' then "\\n" else if c == '\r' then "\\r" else if c == '\t' then "\\t" else if c == '\0' then "\\0"
    else if c == '"' then "\\\"" else if c == '\\' then "\\\\" else [c]
  }

  function Escaped(s: string): string {
    if s == "" then "" else EscapedChar(s[0]) + Escaped(s[1..])
  }

  function Text(s: Spelled): string {
    match s.tok
    case Ident(x) => x
    case Label(x) => x + ":"
    case Dot(x) => x
    case Int(v) => if v >= 0 then Number(v, s.radix) else ""
    case Str(t) => "\"" + (Escaped(t) + "\"")
    case Comma => ","
    case LBracket => "["
    case RBracket => "]"
    case Plus => "+"
    case Minus => "-"
    case RShiftTok => ">>"
  }

  function Spell(ss: seq<Spelled>): string {
    if ss == [] then "" else ss[0].gap + (Text(ss[0]) + Spell(ss[1..]))
  }

  function Tokens(ss: seq<Spelled>): (ts: seq<Token>)
    ensures |ts| == |ss|
  {
    seq(|ss|, i requires 0 <= i < |ss| => ss[i].tok)
  }

  /** Blanks are needed only where a word or number would run into the next. */
  predicate Separated(s: Token, t: Spelled) {
    (s.Ident? || s.Dot? || s.Int?) && (t.tok.Ident? || t.tok.Label? || t.tok.Int?) ==> t.gap != ""
  }

  predicate WellSpelled(ss: seq<Spelled>) {
    && (forall i :: 0 <= i < |ss| ==> Writable(ss[i].tok) && Blanks(ss[i].gap))
    && (forall i :: 0 < i < |ss| ==> Separated(ss[i - 1].tok, ss[i]))
  }

  /** What may come after the last token: blanks, and nothing or a comment. */
  predicate Tail(s: string) {
    SkipBlanks(s) == "" || SkipBlanks(s)[0] == ';' || SkipBlanks(s)[0] == '\n'
  }

  /* ---- Blanks ---- */

  lemma {:induction false} SkipGap(g: string, s: string)
    requires Blanks(g)
    ensures SkipBlanks(g + s) == SkipBlanks(s)
  {
    if g == "" {
      assert g + s == s;
    } else {
      assert (g + s)[1..] == g[1..] + s;
      SkipGap(g[1..], s);
    }
  }

  lemma SkipTwice(s: string)
    ensures SkipBlanks(SkipBlanks(s)) == SkipBlanks(s)
    ensures NextToken(SkipBlanks(s)) == NextToken(s) && Tokenize(SkipBlanks(s)) == Tokenize(s)
  {
  }

  lemma GapIgnored(g: string, s: string)
    requires Blanks(g)
    ensures Tokenize(g + s) == Tokenize(s)
  {
    SkipGap(g, s);
    SkipTwice(s);
    SkipTwice(g + s);
  }

  /* ---- Starts ---- */

  /** What can follow a word: nothing, or no character of a word, and behind blanks no colon. */
  predicate Stops(s: string) {
    (s == "" || !IsIdentChar(s[0])) && (SkipBlanks(s) == "" || SkipBlanks(s)[0] != ':')
  }

  lemma TextStarts(s: Spelled)
    requires Writable(s.tok)
    ensures Text(s) != "" && !IsBlank(Text(s)[0]) && Text(s)[0] != ':'
    ensures !(s.tok.Ident? || s.tok.Label? || s.tok.Int?) ==> !IsIdentChar(Text(s)[0])
  {
    hide Escaped;
    match s.tok
    case Int(v) =>
      DecFacts(v);
      assert Text(s)[0] == '0' || Text(s)[0] == Dec(v)[0];
    case _ =>
  }

  lemma GapStops(g: string, s: string)
    requires Blanks(g) && s != "" && !IsBlank(s[0]) && s[0] != ':' && (g == "" ==> !IsIdentChar(s[0]))
    ensures Stops(g + s)
  {
    SkipGap(g, s);
    assert (g + s)[0] == if g == "" then s[0] else g[0];
  }

  lemma RestStops(t: Token, ss: seq<Spelled>, tail: string)
    requires WellSpelled(ss) && Stops(tail) && (ss != [] ==> Separated(t, ss[0])) && (t.Ident? || t.Dot? || t.Int?)
    ensures Stops(Spell(ss) + tail)
  {
    hide Text, Stops, Writable;
    var s := Spell(ss) + tail;
    if ss == [] {
      assert s == tail;
    } else {
      var x := Text(ss[0]);
      var rest := x + (Spell(ss[1..]) + tail);
      assert s == ss[0].gap + rest;
      TextStarts(ss[0]);
      assert rest[0] == x[0];
      GapStops(ss[0].gap, rest);
    }
  }

  /* ---- Single tokens ---- */

  /** `x` is read as the token `t`, whatever acceptable text follows. */
  predicate ReadsAs(x: string, rest: string, t: Token) {
    Tokenize(x + rest) == if Tokenize(rest).None? then None else Some([t] + Tokenize(rest).value)
  }

  lemma NextReads(x: string, rest: string, t: Token)
    requires NextToken(x + rest) == Tok(t, rest) || NextToken(x + rest) == Tok(t, SkipBlanks(rest))
    ensures ReadsAs(x, rest, t)
  {
    SkipTwice(rest);
  }

  lemma NameReads(x: string, rest: string)
    requires IsName(x) && Stops(rest)
    ensures ReadsAs(x, rest, Ident(x))
  {
    var t := x + rest;
    IdentPrefix(x, rest);
    assert t[0] == x[0] && t[..|x|] == x && t[|x|..] == rest;
    assert SkipBlanks(t) == t && Punctuation(t[0]).None?;
    NextReads(x, rest, Ident(x));
  }

  lemma LabelReads(x: string, rest: string)
    requires IsName(x)
    ensures ReadsAs(x + ":", rest, Label(x))
  {
    var t := (x + ":") + rest;
    assert t == x + (":" + rest);
    IdentPrefix(x, ":" + rest);
    assert t[0] == x[0] && t[..|x|] == x && t[|x|..] == ":" + rest && (":" + rest)[1..] == rest;
    assert SkipBlanks(t) == t && Punctuation(t[0]).None?;
    assert SkipBlanks(":" + rest) == ":" + rest;
    NextReads(x + ":", rest, Label(x));
  }

  lemma DotReads(x: string, rest: string)
    requires Writable(Dot(x)) && Stops(rest)
    ensures ReadsAs(x, rest, Dot(x))
  {
    var t := x + rest;
    assert t[1..] == x[1..] + rest;
    IdentPrefix(x[1..], rest);
    assert t[..|x|] == x && t[|x|..] == rest && t[0] == '.';
    assert SkipBlanks(t) == t && Punctuation(t[0]).None?;
    NextReads(x, rest, Dot(x));
  }

  lemma NumberReads(x: string, rest: string, v: int)
    requires x != "" && IsDigit(x[0]) && ParseNumber(x + rest) == (v, |x|)
    ensures ReadsAs(x, rest, Int(v))
  {
    var t := x + rest;
    assert t[0] == x[0] && t[|x|..] == rest;
    assert SkipBlanks(t) == t && Punctuation(t[0]).None?;
    NextReads(x, rest, Int(v));
  }

  lemma NoDigit(s: string, base: nat)
    requires (base == 8 || base == 10 || base == 16) && (s == "" || !IsIdentChar(s[0]))
    ensures s == "" || DigitValue(s[0]) >= base
  {
  }

  lemma DecReads(v: nat, rest: string)
    requires v < 0x8000_0000_0000_0000 && Stops(rest)
    ensures ReadsAs(Dec(v), rest, Int(v))
  {
    var d, t := Dec(v), Dec(v) + rest;
    DecFacts(v);
    NoDigit(rest, 10);
    NoDigit(rest, 8);
    DigitsPrefix(d, rest, 10);
    assert t[0] == d[0] && t[..|d|] == d;
    if v == 0 {
      assert d == "0" && DigitsValue(d[..0], 8) == 0;
      DigitsPrefix(d, rest, 8);
      assert |t| >= 2 ==> t[1] == rest[0];
    }
    NumberReads(d, rest, v);
  }

  lemma {:induction false} OctFacts(n: nat)
    ensures AllDigits(Oct(n), 8) && DigitsValue(Oct(n), 8) == n && IsDigit(Oct(n)[0])
  {
    if n < 8 {
      assert DigitsValue(Oct(n)[..0], 8) == 0;
    } else {
      OctFacts(n / 8);
      assert Oct(n)[..|Oct(n)| - 1] == Oct(n / 8);
    }
  }

  lemma {:induction false} LeadingZero(d: string, base: nat)
    ensures DigitsValue("0" + d, base) == DigitsValue(d, base)
  {
    if d == "" {
      assert "0" + d == "0" && "0"[..0] == "";
    } else {
      var n := |d| - 1;
      assert ("0" + d)[..n + 1] == "0" + d[..n];
      LeadingZero(d[..n], base);
    }
  }

  /** A leading zero makes a number octal. */
  lemma OctReads(v: nat, rest: string)
    requires v < 0x8000_0000_0000_0000 && Stops(rest)
    ensures ReadsAs("0" + Oct(v), rest, Int(v))
  {
    var d := "0" + Oct(v);
    var t := d + rest;
    OctFacts(v);
    LeadingZero(Oct(v), 8);
    NoDigit(rest, 8);
    assert AllDigits(d, 8);
    DigitsPrefix(d, rest, 8);
    assert t[0] == '0' && t[1] == Oct(v)[0] && t[..|d|] == d;
    NumberReads(d, rest, v);
  }

  lemma HexReads(v: nat, rest: string)
    requires v < 0x1_0000_0000 && Stops(rest)
    ensures ReadsAs("0x" + Hex(v, 8), rest, Int(v))
  {
    hide Pow2;
    Pow2Literals();
    var d := Hex(v, 8);
    var x, t := "0x" + d, ("0x" + d) + rest;
    HexFacts(v, 8);
    NoDigit(rest, 16);
    DigitsPrefix(d, rest, 16);
    assert t[2..] == d + rest && t[2..10] == d && t[2] == d[0] && t[0] == '0' && t[1] == 'x' && x[0] == '0';
    NumberReads(x, rest, v);
  }

  lemma EscapedBack(c: char, more: string)
    ensures var (t, rest) := Quoted(more); Quoted(EscapedChar(c) + more) == ([c] + t, rest)
  {
    var e := EscapedChar(c);
    var s := e + more;
    if |e| == 1 {
      assert s[0] == c && s[1..] == more;
    } else {
      assert s[0] == '\\' && s[1] == e[1] && s[2..] == more;
    }
  }

  lemma {:induction false} QuotedBack(s: string, rest: string)
    ensures Quoted(Escaped(s) + ("\"" + rest)) == (s, rest)
  {
    hide EscapedChar;
    var end := "\"" + rest;
    if s == "" {
      assert Escaped(s) + end == end && end[1..] == rest;
    } else {
      hide Quoted;
      QuotedBack(s[1..], rest);
      EscapedBack(s[0], Escaped(s[1..]) + end);
      assert Escaped(s) + end == EscapedChar(s[0]) + (Escaped(s[1..]) + end);
      assert [s[0]] + s[1..] == s;
    }
  }

  lemma StringReads(s: string, rest: string)
    ensures ReadsAs("\"" + (Escaped(s) + "\""), rest, Str(s))
  {
    hide Escaped;
    var t := ("\"" + (Escaped(s) + "\"")) + rest;
    var body := Escaped(s) + ("\"" + rest);
    assert t == "\"" + body && t[1..] == body && t[0] == '"';
    QuotedBack(s, rest);
    assert SkipBlanks(t) == t && Punctuation(t[0]).None?;
    NextReads("\"" + (Escaped(s) + "\""), rest, Str(s));
  }

  lemma MarkReads(c: char, rest: string)
    requires Punctuation(c).Some?
    ensures ReadsAs([c], rest, Punctuation(c).value)
  {
    var t := [c] + rest;
    assert t[1..] == rest && SkipBlanks(t) == t;
    NextReads([c], rest, Punctuation(c).value);
  }

  lemma ShiftReads(rest: string)
    ensures ReadsAs(">>", rest, RShiftTok)
  {
    var t := ">>" + rest;
    assert t[0] == '>' && t[1] == '>' && t[2..] == rest && SkipBlanks(t) == t;
    NextReads(">>", rest, RShiftTok);
  }

  lemma TokenReads(s: Spelled, rest: string)
    requires Writable(s.tok) && (s.tok.Ident? || s.tok.Dot? || s.tok.Int? ==> Stops(rest))
    ensures ReadsAs(Text(s), rest, s.tok)
  {
    hide ReadsAs, Stops, Escaped, IsName;
    match s.tok
    case Ident(x) => NameReads(x, rest);
    case Label(x) => LabelReads(x, rest);
    case Dot(x) => DotReads(x, rest);
    case Int(v) =>
      DecReads(v, rest);
      OctReads(v, rest);
      if v < 0x1_0000_0000 {
        HexReads(v, rest);
      }
    case Str(t) => StringReads(t, rest);
    case Comma => MarkReads(',', rest);
    case LBracket => MarkReads('[', rest);
    case RBracket => MarkReads(']', rest);
    case Plus => MarkReads('+', rest);
    case Minus => MarkReads('-', rest);
    case RShiftTok => ShiftReads(rest);
  }

  /* ---- Lines ---- */

  /** Written tokens before any text are read before it. */
  lemma {:induction false} SpelledBefore(ss: seq<Spelled>, tail: string)
    requires WellSpelled(ss) && Stops(tail)
    ensures Tokenize(Spell(ss) + tail) ==
      if Tokenize(tail).None? then None else Some(Tokens(ss) + Tokenize(tail).value)
  {
    hide Text, Stops, Writable, Spell, Tokenize, WellSpelled, Blanks, Separated;
    SpellSplit(ss, tail);
    if ss == [] {
      assert Tokenize(tail).Some? ==> [] + Tokenize(tail).value == Tokenize(tail).value;
    } else {
      var t, rest := ss[0].tok, Spell(ss[1..]) + tail;
      TailSpelled(ss);
      SpelledBefore(ss[1..], tail);
      if t.Ident? || t.Dot? || t.Int? {
        RestStops(t, ss[1..], tail);
      }
      TokenReads(ss[0], rest);
      GapIgnored(ss[0].gap, Text(ss[0]) + rest);
      Prepended(ss, Tokenize(tail));
    }
  }

  lemma SpellSplit(ss: seq<Spelled>, tail: string)
    ensures if ss == [] then Spell(ss) + tail == tail && Tokens(ss) == []
            else Spell(ss) + tail == ss[0].gap + (Text(ss[0]) + (Spell(ss[1..]) + tail))
  {
    hide Text;
    if ss == [] {
      assert Spell(ss) + tail == tail;
    }
  }

  lemma Prepended(ss: seq<Spelled>, more: Option<seq<Token>>)
    requires ss != []
    ensures more.Some? ==> [ss[0].tok] + (Tokens(ss[1..]) + more.value) == Tokens(ss) + more.value
  {
    assert Tokens(ss) == [ss[0].tok] + Tokens(ss[1..]);
  }

  lemma TailSpelled(ss: seq<Spelled>)
    requires WellSpelled(ss) && ss != []
    ensures WellSpelled(ss[1..]) && Writable(ss[0].tok) && Blanks(ss[0].gap)
    ensures ss[1..] != [] ==> Separated(ss[0].tok, ss[1..][0])
  {
    hide Writable, Separated;
    forall i | 0 < i < |ss[1..]| ensures Separated(ss[1..][i - 1].tok, ss[1..][i]) {
      assert Separated(ss[i + 1 - 1].tok, ss[i + 1]);
    }
    if |ss| > 1 {
      assert Separated(ss[1 - 1].tok, ss[1]);
    }
  }

  lemma TailReads(tail: string)
    requires Tail(tail)
    ensures Tokenize(tail) == Some([]) && Stops(tail)
  {
  }

  /** Main result: every line of writable tokens, with any blanks and any comment, is read as these tokens. */
  lemma SpelledIsRead(ss: seq<Spelled>, tail: string)
    requires WellSpelled(ss) && Tail(tail)
    ensures Tokenize(Spell(ss) + tail) == Some(Tokens(ss))
  {
    hide Spell, WellSpelled, Stops, Tail, Tokenize;
    TailReads(tail);
    SpelledBefore(ss, tail);
    assert Tokens(ss) + [] == Tokens(ss);
  }

  /** A character that starts no token: anything else than letters, digits, blanks and the marks of the language. */
  predicate Unexpected(s: string) {
    s != "" && !IsIdentChar(s[0]) && !IsBlank(s[0]) && s[0] !in ",[]+-\".;:\n\0"
    && (s[0] == '>' ==> |s| == 1 || s[1] != '>')
  }

  /** Such a character outside a string or a comment makes the line an error, wherever it is. */
  lemma UnexpectedIsRefused(ss: seq<Spelled>, tail: string)
    requires WellSpelled(ss) && Unexpected(tail)
    ensures Tokenize(Spell(ss) + tail) == None
  {
    hide Spell, WellSpelled;
    RefusedAlone(tail);
    SpelledBefore(ss, tail);
  }

  lemma RefusedAlone(s: string)
    requires Unexpected(s)
    ensures Tokenize(s) == None && Stops(s)
  {
    assert SkipBlanks(s) == s;
    var marks := ",[]+-\".;:\n\0";
    assert marks[0] == ',' && marks[1] == '[' && marks[2] == ']' && marks[3] == '+' && marks[4] == '-';
    assert marks[5] == '"' && marks[6] == '.' && marks[7] == ';' && marks[8] == ':' && marks[9] == '\n'
        && marks[10] == '\0';
    assert NextToken(s) == Bad;
  }
}
