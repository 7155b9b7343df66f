/** Programs as people write them: a grammar of texts with any white space and
    comments, spelled out in characters, and what the reader makes of them. */
module LispSource {
  import opened Decimals
  import opened Wrappers
  import opened LispText

  // ----- the grammar -----

  /** Tab, line feed, vertical tab, form feed, carriage return, space. */
  predicate BlankChar(c: char) { 9 <= c as int <= 13 || c as int == 32 }

  predicate DigitChar(c: char) { 48 <= c as int <= 57 }

  /** ASCII digits and letters, and these marks. */
  predicate WordChar(c: char) {
    DigitChar(c) || 65 <= c as int <= 90 || 97 <= c as int <= 122 || c in "_+-*/\\=<>!&|%^"
  }

  /** One white space character, or a comment with the end of its line. */
  datatype Piece = Blank(c: char) | Comment(text: string)

  /** A character of a string literal, as itself or behind a backslash. */
  datatype Glyph = Plain(c: char) | Escaped(c: char)

  /** A list has a gap before each form and one before the closing bracket. */
  datatype Form =
    | Word(name: string)
    | Numeral(minus: bool, digits: string)
    | Quoted(glyphs: seq<Glyph>)
    | List(round: bool, forms: seq<Form>, gaps: seq<seq<Piece>>)

  function PieceText(p: Piece): string {
    match p
    case Blank(c) => [c]
    case Comment(t) => [';'] + t + ['\n']
  }

  function GapText(g: seq<Piece>): string {
    if g == [] then "" else PieceText(g[0]) + GapText(g[1..])
  }

  function GlyphText(g: Glyph): string { if g.Plain? then [g.c] else ['\\', g.c] }

  function GlyphsText(gs: seq<Glyph>): string {
    if gs == [] then "" else GlyphText(gs[0]) + GlyphsText(gs[1..])
  }

  function Text(f: Form): string
    decreases f, 0
  {
    match f
    case Word(name) => name
    case Numeral(minus, digits) => (if minus then ['-'] else []) + digits
    case Quoted(gs) => ['"'] + (GlyphsText(gs) + ['"'])
    case List(round, fs, gaps) => [if round then '(' else '{'] + (Laid(fs, gaps) + [if round then ')' else '}'])
  }

  /** Forms with the gaps around them. */
  function Laid(fs: seq<Form>, gaps: seq<seq<Piece>>): string
    decreases fs, 1
  {
    if gaps == [] then ""
    else if fs == [] then GapText(gaps[0])
    else GapText(gaps[0]) + (Text(fs[0]) + Laid(fs[1..], gaps[1..]))
  }

  predicate GoodPiece(p: Piece) { if p.Blank? then BlankChar(p.c) else '\n' !in p.text }

  predicate GoodGap(g: seq<Piece>) { forall i :: 0 <= i < |g| ==> GoodPiece(g[i]) }

  /** Two forms have something between them. */
  predicate GoodGaps(fs: seq<Form>, gaps: seq<seq<Piece>>) {
    && |gaps| == |fs| + 1
    && (forall i :: 0 <= i < |gaps| ==> GoodGap(gaps[i]))
    && (forall i :: 0 < i < |fs| ==> gaps[i] != [])
  }

  predicate AllDigitChars(t: string) { forall i :: 0 <= i < |t| ==> DigitChar(t[i]) }

  predicate IsNumeral(t: string) {
    var d := if t != "" && t[0] == '-' then t[1..] else t;
    d != "" && AllDigitChars(d)
  }

  predicate Good(f: Form) {
    match f
    case Word(name) => 0 < |name| <= 255 && (forall i :: 0 <= i < |name| ==> WordChar(name[i])) && !IsNumeral(name)
    case Numeral(_, digits) => 0 < |digits| <= 15 && AllDigitChars(digits)
    case Quoted(gs) => |gs| <= 4095 && forall i :: 0 <= i < |gs| ==> gs[i].Plain? ==> gs[i].c != '"' && gs[i].c != '\\'
    case List(_, fs, gaps) => GoodGaps(fs, gaps) && forall i :: 0 <= i < |fs| ==> Good(fs[i])
  }

  // ----- what it means -----

  function Weigh(digits: string): int {
    if digits == "" then 0 else 10 * Weigh(digits[..|digits| - 1]) + (digits[|digits| - 1] as int - 48)
  }

  function GlyphValue(g: Glyph): char {
    if g.Plain? then g.c
    else if g.c == 'n' then '\U{000A}' else if g.c == 't' then '\U{0009}' else if g.c == 'r' then '\U{000D}' else g.c
  }

  function GlyphValues(gs: seq<Glyph>): string {
    if gs == [] then "" else [GlyphValue(gs[0])] + GlyphValues(gs[1..])
  }

  function Meaning(f: Form): Value
    decreases f, 0
  {
    match f
    case Word(name) => Sym(name)
    case Numeral(minus, digits) => Num(if minus then -Weigh(digits) else Weigh(digits))
    case Quoted(gs) => Str(GlyphValues(gs))
    case List(round, fs, _) => if round then SExpr(Meanings(fs)) else QExpr(Meanings(fs))
  }

  function Meanings(fs: seq<Form>): seq<Value>
    decreases fs, 1
  {
    if fs == [] then [] else [Meaning(fs[0])] + Meanings(fs[1..])
  }

  // ----- characters -----

  lemma BlankChars(c: char)
    ensures IsSpace(c) <==> BlankChar(c)
  {
  }

  lemma DigitChars(c: char)
    ensures IsDigit(c) <==> DigitChar(c)
  {
  }

  lemma WordChars(c: char)
    ensures IsSymbolChar(c) <==> WordChar(c)
  {
  }

  // ----- gaps -----

  lemma BlankSkips(s: string, p: nat)
    requires p < |s| && BlankChar(s[p])
    ensures SkipWs(s, p) == SkipWs(s, p + 1)
  {
    BlankChars(s[p]);
  }

  lemma {:induction false} LineEndsAt(s: string, p: nat, q: nat)
    requires p < q < |s| && s[p] != '\n' && s[q] == '\n' && forall i :: p < i < q ==> s[i] != '\n'
    ensures LineEnd(s, p) == q
    decreases q - p
  {
    if p + 1 < q {
      LineEndsAt(s, p + 1, q);
    }
  }

  lemma CommentSkips(s: string, p: nat, t: string)
    requires At(s, p, [';'] + t + ['\n']) && '\n' !in t
    ensures p + |t| + 2 <= |s| && SkipWs(s, p) == SkipWs(s, p + |t| + 2)
  {
    var c := [';'] + t + ['\n'];
    forall i | 0 <= i < |c| ensures s[p + i] == c[i] {
      AtChar(s, p, c, i);
    }
    var q := p + |t| + 1;
    forall i | p < i < q ensures s[i] != '\n' {
      assert s[i] == s[p + (i - p)] == c[i - p] == t[i - p - 1];
    }
    assert s[q] == s[p + (|t| + 1)] == '\n';
    LineEndsAt(s, p, q);
    BlankSkips(s, q);
  }

  lemma PieceSkips(s: string, p: nat, x: Piece)
    requires GoodPiece(x) && At(s, p, PieceText(x))
    ensures p + |PieceText(x)| <= |s| && SkipWs(s, p) == SkipWs(s, p + |PieceText(x)|)
  {
    hide SkipWs;
    match x
    case Blank(c) =>
      AtChar(s, p, [c], 0);
      BlankSkips(s, p);
    case Comment(t) => CommentSkips(s, p, t);
  }

  lemma AtInside(s: string, p: nat, t: string)
    requires At(s, p, t)
    ensures p + |t| <= |s|
  {
  }

  lemma {:induction false} GapSkips(s: string, p: nat, g: seq<Piece>)
    requires GoodGap(g) && At(s, p, GapText(g))
    ensures p + |GapText(g)| <= |s| && SkipWs(s, p) == SkipWs(s, p + |GapText(g)|)
    decreases |g|
  {
    hide SkipWs, PieceText, GoodPiece, At;
    if g == [] {
      AtInside(s, p, "");
    } else {
      var t := PieceText(g[0]);
      AtSplit(s, p, t, GapText(g[1..]));
      PieceSkips(s, p, g[0]);
      GapSkips(s, p + |t|, g[1..]);
    }
  }

  /** A gap ends a token. */
  lemma GapStops(s: string, p: nat, g: seq<Piece>)
    requires GoodGap(g) && g != [] && At(s, p, GapText(g))
    ensures p < |s| && Stops(s, p)
  {
    hide GapText, At, IsSymbolChar, IsSpace;
    GapFirst(g);
    AtSplit(s, p, PieceText(g[0]), GapText(g[1..]));
    AtInside(s, p, PieceText(g[0]));
    AtChar(s, p, PieceText(g[0]), 0);
    assert !IsSymbolChar(';') by { NotWord(';'); }
    if g[0].Blank? {
      BlankChars(s[p]);
      NotWord(s[p]);
    }
  }

  lemma GapFirst(g: seq<Piece>)
    requires g != []
    ensures GapText(g) == PieceText(g[0]) + GapText(g[1..]) && |PieceText(g[0])| > 0
  {
  }

  lemma NotWord(c: char)
    requires IsSpace(c) || c == ';'
    ensures !IsSymbolChar(c)
  {
  }

  // ----- tokens -----

  lemma {:induction false} WeighIs(digits: string)
    requires AllDigitChars(digits)
    ensures NumberOf(digits) == Weigh(digits)
  {
    if digits != "" {
      WeighIs(digits[..|digits| - 1]);
    }
  }

  lemma NumeralLooks(t: string)
    ensures LooksLikeNumber(t) <==> IsNumeral(t)
  {
    hide IsDigit, DigitChar;
    var d := if t != "" && t[0] == '-' then t[1..] else t;
    forall i | 0 <= i < |d| ensures IsDigit(d[i]) <==> DigitChar(d[i]) {
      DigitChars(d[i]);
    }
  }

  /** Words and numerals are tokens that stand for what they say. */
  lemma TokenMeans(f: Form)
    requires Good(f) && (f.Word? || f.Numeral?)
    ensures var t := Text(f);
      0 < |t| <= MAX_TOKEN && Atom(t) == Meaning(f) && forall i :: 0 <= i < |t| ==> IsSymbolChar(t[i])
  {
    hide IsSymbolChar, WordChar, DigitChar, LooksLikeNumber;
    var t := Text(f);
    NumeralLooks(t);
    if f.Word? {
      forall i | 0 <= i < |t| ensures IsSymbolChar(t[i]) {
        WordChars(t[i]);
      }
    } else {
      NumeralToken(f.minus, f.digits);
    }
  }

  lemma NumeralToken(minus: bool, digits: string)
    requires 0 < |digits| <= 15 && AllDigitChars(digits)
    ensures var t := (if minus then ['-'] else []) + digits;
      && IsNumeral(t) && ToNumber(t) == (if minus then -Weigh(digits) else Weigh(digits))
      && forall i :: 0 <= i < |t| ==> IsSymbolChar(t[i])
  {
    var t := (if minus then ['-'] else []) + digits;
    WeighIs(digits);
    assert if minus then t[1..] == digits else t == digits;
    forall i | 0 <= i < |t| ensures IsSymbolChar(t[i]) {
      assert t[i] == '-' || DigitChar(t[i]);
      WordChars(t[i]);
    }
  }

  /** The rest of a string literal. */
  lemma {:induction false} GlyphsParse(s: string, p: nat, gs: seq<Glyph>, acc: string)
    requires At(s, p, GlyphsText(gs) + ['"']) && |acc| + |gs| <= MAX_STRING
    requires forall i :: 0 <= i < |gs| ==> gs[i].Plain? ==> gs[i].c != '"' && gs[i].c != '\\'
    ensures p + |GlyphsText(gs)| + 1 <= |s|
    ensures StringRest(s, p, acc) == Got(acc + GlyphValues(gs), p + |GlyphsText(gs)| + 1)
    decreases |gs|
  {
    hide StringRest, GlyphText, GlyphValue, At;
    AtInside(s, p, GlyphsText(gs) + ['"']);
    if gs == [] {
      AtChar(s, p, GlyphsText(gs) + ['"'], 0);
      StringCloses(s, p, acc);
      assert acc + GlyphValues(gs) == acc;
    } else {
      var t, rest := GlyphText(gs[0]), GlyphsText(gs[1..]) + ['"'];
      assert GlyphsText(gs) + ['"'] == t + rest;
      AtSplit(s, p, t, rest);
      GlyphStep(s, p, acc, gs[0]);
      GlyphsParse(s, p + |t|, gs[1..], acc + [GlyphValue(gs[0])]);
      assert acc + [GlyphValue(gs[0])] + GlyphValues(gs[1..]) == acc + GlyphValues(gs);
    }
  }

  lemma GlyphStep(s: string, p: nat, acc: string, g: Glyph)
    requires At(s, p, GlyphText(g)) && |acc| < MAX_STRING && (g.Plain? ==> g.c != '"' && g.c != '\\')
    ensures p + |GlyphText(g)| <= |s|
    ensures StringRest(s, p, acc) == StringRest(s, p + |GlyphText(g)|, acc + [GlyphValue(g)])
  {
    AtChar(s, p, GlyphText(g), 0);
    if g.Escaped? {
      AtChar(s, p, GlyphText(g), 1);
    }
  }

  // ----- forms -----

  /** A form starts with a character that is no space, comment or bracket close. */
  lemma FormFirst(f: Form)
    requires Good(f)
    ensures |Text(f)| > 0
    ensures var c := Text(f)[0]; !IsSpace(c) && c != ';' && c != ')' && c != '}'
    ensures f.Word? || f.Numeral? ==> var c := Text(f)[0]; c != '(' && c != '{' && c != '"'
  {
    hide IsSymbolChar, IsSpace, WordChar, DigitChar;
    Brackets();
    if f.Word? || f.Numeral? {
      TokenMeans(f);
      SymbolNot(Text(f)[0]);
    }
  }

  lemma SameCells(s: string, p: nat, q: nat, close: char, acc: seq<Value>)
    requires p <= |s| && q <= |s| && SkipWs(s, p) == SkipWs(s, q)
    ensures ParseCells(s, p, close, acc) == ParseCells(s, q, close, acc)
  {
    hide SkipWs, ParseExpr;
  }

  /** A form is read as what it means, wherever it stands, when what follows ends a token. */
  lemma {:induction false} FormParses(f: Form, s: string, p: nat)
    requires Good(f) && At(s, p, Text(f)) && p + |Text(f)| <= |s| && Stops(s, p + |Text(f)|)
    ensures ParseExpr(s, p) == Got(Meaning(f), p + |Text(f)|)
    decreases f, 0
  {
    hide SkipWs, ParseExpr, ParseCells, ParseAtom, StringRest, Laid, GlyphsText, IsSymbolChar, IsSpace, At, GoodGaps, Meanings, Stops;
    FormFirst(f);
    AtChar(s, p, Text(f), 0);
    NoSkip(s, p);
    match f
    case Word(_) => TokenParses(f, s, p);
    case Numeral(_, _) => TokenParses(f, s, p);
    case Quoted(gs) => QuotedParses(gs, s, p);
    case List(round, fs, gaps) =>
      var open, close := if round then '(' else '{', if round then ')' else '}';
      ListParts(round, fs, gaps, s, p);
      FormsParse(fs, gaps, s, p + 1, close, []);
      if round { ParenExpr(s, p); } else { BraceExpr(s, p); }
      assert [] + Meanings(fs) == Meanings(fs);
  }

  lemma TokenParses(f: Form, s: string, p: nat)
    requires Good(f) && (f.Word? || f.Numeral?) && At(s, p, Text(f)) && p + |Text(f)| <= |s| && Stops(s, p + |Text(f)|)
    requires p < |s| && s[p] == Text(f)[0] && SkipWs(s, p) == p && |Text(f)| > 0
    ensures ParseExpr(s, p) == Got(Meaning(f), p + |Text(f)|)
  {
    hide SkipWs, ParseExpr, ParseAtom, IsSymbolChar, IsSpace, At, Text, Good, Meaning, Stops;
    FormFirst(f);
    TokenMeans(f);
    AtomParses(s, p, Text(f));
    AtomExpr(s, p);
  }

  lemma ListParts(round: bool, fs: seq<Form>, gaps: seq<seq<Piece>>, s: string, p: nat)
    requires var f := List(round, fs, gaps); At(s, p, Text(f)) && Good(f)
    ensures var close := if round then ')' else '}'; At(s, p + 1, Laid(fs, gaps) + [close])
    ensures |Text(List(round, fs, gaps))| == |Laid(fs, gaps)| + 2
    ensures GoodGaps(fs, gaps) && forall i :: 0 <= i < |fs| ==> Good(fs[i])
  {
    hide At, Laid, GoodGaps;
    AtSplit(s, p, [if round then '(' else '{'], Laid(fs, gaps) + [if round then ')' else '}']);
  }

  lemma QuotedParses(gs: seq<Glyph>, s: string, p: nat)
    requires Good(Quoted(gs)) && At(s, p, Text(Quoted(gs))) && p < |s| && s[p] == '"' && SkipWs(s, p) == p
    ensures ParseExpr(s, p) == Got(Meaning(Quoted(gs)), p + |Text(Quoted(gs))|)
  {
    hide SkipWs, StringRest, GlyphsText, GlyphValues, At;
    AtSplit(s, p, ['"'], GlyphsText(gs) + ['"']);
    GlyphsParse(s, p + 1, gs, "");
    assert "" + GlyphValues(gs) == GlyphValues(gs);
  }

  /** What follows a form ends it. */
  lemma AfterForm(fs: seq<Form>, gaps: seq<seq<Piece>>, s: string, p: nat, end: string)
    requires gaps != [] && GoodGap(gaps[0]) && (fs != [] ==> gaps[0] != []) && At(s, p, Laid(fs, gaps) + end)
    requires p <= |s| && (fs == [] && gaps[0] == [] ==> Stops(s, p))
    ensures Stops(s, p)
  {
    hide At, Stops, Text, GapText;
    if gaps[0] != [] {
      var rest := if fs == [] then end else Text(fs[0]) + Laid(fs[1..], gaps[1..]) + end;
      assert Laid(fs, gaps) + end == GapText(gaps[0]) + rest;
      AtSplit(s, p, GapText(gaps[0]), rest);
      GapStops(s, p, gaps[0]);
    }
  }

  /** The gaps after the first form. */
  lemma GapsRest(fs: seq<Form>, gaps: seq<seq<Piece>>)
    requires fs != [] && GoodGaps(fs, gaps)
    ensures GoodGaps(fs[1..], gaps[1..]) && GoodGap(gaps[0]) && GoodGap(gaps[1]) && (|fs| > 1 ==> gaps[1] != [])
  {
    hide GoodGap;
    forall i | 0 < i < |fs| - 1 ensures gaps[1..][i] != [] {
      assert gaps[1..][i] == gaps[i + 1];
    }
  }

  lemma {:induction false} FormsParse(fs: seq<Form>, gaps: seq<seq<Piece>>, s: string, p: nat, close: char, acc: seq<Value>)
    requires GoodGaps(fs, gaps) && (forall i :: 0 <= i < |fs| ==> Good(fs[i])) && (close == ')' || close == '}')
    requires At(s, p, Laid(fs, gaps) + [close])
    ensures p + |Laid(fs, gaps)| + 1 <= |s|
    ensures ParseCells(s, p, close, acc) == Got(acc + Meanings(fs), p + |Laid(fs, gaps)| + 1)
    decreases fs, 1
  {
    hide SkipWs, ParseExpr, ParseCells, At, GapText, Text, Good, Meaning, Stops, IsSpace, IsSymbolChar, GoodGap;
    AtInside(s, p, Laid(fs, gaps) + [close]);
    var g := GapText(gaps[0]);
    var q := p + |g|;
    if fs == [] {
      AtSplit(s, p, g, [close]);
      GapSkips(s, p, gaps[0]);
      AtInside(s, q, [close]);
      AtChar(s, q, [close], 0);
      CloseStops(s, q, close);
      SameCells(s, p, q, close, acc);
      CloseEnds(s, q, close, acc);
      assert acc + Meanings(fs) == acc;
    } else {
      var rest, gs := fs[1..], gaps[1..];
      var t, more := Text(fs[0]), Laid(rest, gs) + [close];
      assert Laid(fs, gaps) + [close] == g + (t + more);
      AtSplit(s, p, g, t + more);
      AtSplit(s, q, t, more);
      AtInside(s, q, t + more);
      GapsRest(fs, gaps);
      GapSkips(s, p, gaps[0]);
      SameCells(s, p, q, close, acc);
      CloseAfter(rest, gs, s, q + |t|, close);
      FirstForm(fs[0], s, q, close, acc);
      FormsParse(rest, gs, s, q + |t|, close, acc + [Meaning(fs[0])]);
      assert acc + [Meaning(fs[0])] + Meanings(rest) == acc + Meanings(fs);
    }
  }

  lemma CloseAfter(fs: seq<Form>, gaps: seq<seq<Piece>>, s: string, p: nat, close: char)
    requires gaps != [] && GoodGap(gaps[0]) && (fs != [] ==> gaps[0] != []) && (close == ')' || close == '}')
    requires p <= |s| && At(s, p, Laid(fs, gaps) + [close])
    ensures Stops(s, p)
  {
    hide At, Stops, Text, GoodGap;
    if fs == [] && gaps[0] == [] {
      assert Laid(fs, gaps) + [close] == [close];
      AtInside(s, p, [close]);
      AtChar(s, p, [close], 0);
      CloseStops(s, p, close);
    }
    AfterForm(fs, gaps, s, p, [close]);
  }

  lemma FirstForm(f: Form, s: string, p: nat, close: char, acc: seq<Value>)
    requires Good(f) && At(s, p, Text(f)) && p + |Text(f)| <= |s| && Stops(s, p + |Text(f)|) && (close == ')' || close == '}')
    ensures ParseCells(s, p, close, acc) == ParseCells(s, p + |Text(f)|, close, acc + [Meaning(f)])
    decreases f, 1
  {
    hide SkipWs, ParseExpr, At, Text, Good, Meaning, Stops, IsSpace;
    FormFirst(f);
    AtChar(s, p, Text(f), 0);
    NoSkip(s, p);
    FormParses(f, s, p);
  }

  // ----- programs -----

  lemma SameRead(s: string, p: nat, q: nat, acc: seq<Value>)
    requires p <= |s| && q <= |s| && SkipWs(s, p) == SkipWs(s, q)
    ensures ReadAll(s, p, acc) == ReadAll(s, q, acc)
  {
    hide SkipWs, ParseExpr;
  }

  /** Nothing, or a last comment that no line end closes. */
  predicate GoodTail(t: string) { t != "" ==> t[0] == ';' && '\n' !in t }

  lemma TailSkips(s: string, p: nat, tail: string)
    requires GoodTail(tail) && p <= |s| && s[p..] == tail
    ensures SkipWs(s, p) == |s| && Stops(s, p)
  {
    if tail != "" {
      assert s[p] == tail[0];
      assert !IsSymbolChar(';') by { NotWord(';'); }
      forall i | p <= i < |s| ensures s[i] != '\n' {
        assert s[i] == tail[i - p];
      }
      assert SkipWs(s, p) == SkipWs(s, LineEnd(s, p));
    }
  }

  /** Reading goes past forms to whatever comes after them. */
  lemma {:induction false} ReadUpTo(fs: seq<Form>, gaps: seq<seq<Piece>>, rest: string, s: string, p: nat, acc: seq<Value>)
    requires GoodGaps(fs, gaps) && (forall i :: 0 <= i < |fs| ==> Good(fs[i]))
    requires fs == [] || gaps[|fs|] != [] || rest == "" || !WordChar(rest[0])
    requires p <= |s| && s[p..] == Laid(fs, gaps) + rest
    ensures |rest| <= |s| && s[|s| - |rest|..] == rest
    ensures ReadAll(s, p, acc) == ReadAll(s, |s| - |rest|, acc + Meanings(fs))
    decreases |fs|
  {
    hide SkipWs, ParseExpr, ReadAll, At, Laid, GapText, Text, Good, Meaning, Stops, WordChar, GoodGaps;
    if fs == [] {
      var q := LastGap(gaps, rest, s, p);
      SameRead(s, p, q, acc);
      assert acc + Meanings(fs) == acc;
    } else {
      var q, e := FirstParts(fs, gaps, rest, s, p);
      SameRead(s, p, q, acc);
      FirstRead(fs[0], s, q, acc);
      ReadUpTo(fs[1..], gaps[1..], rest, s, e, acc + [Meaning(fs[0])]);
      assert acc + [Meaning(fs[0])] + Meanings(fs[1..]) == acc + Meanings(fs);
    }
  }

  lemma LastGap(gaps: seq<seq<Piece>>, rest: string, s: string, p: nat) returns (q: nat)
    requires GoodGaps([], gaps) && p <= |s| && s[p..] == Laid([], gaps) + rest
    ensures q <= |s| && s[q..] == rest && q == |s| - |rest| && SkipWs(s, p) == SkipWs(s, q)
  {
    hide SkipWs, At, GapText, GoodGap;
    var g := GapText(gaps[0]);
    q := p + |g|;
    AtEnd(s, p, g + rest);
    AtSplit(s, p, g, rest);
    GapSkips(s, p, gaps[0]);
    assert s[q..] == s[p..][|g|..];
  }

  /** Where the first form begins and ends, and what follows. */
  lemma FirstParts(fs: seq<Form>, gaps: seq<seq<Piece>>, rest: string, s: string, p: nat) returns (q: nat, e: nat)
    requires GoodGaps(fs, gaps) && fs != [] && p <= |s| && s[p..] == Laid(fs, gaps) + rest
    requires gaps[|fs|] != [] || rest == "" || !WordChar(rest[0])
    ensures q <= e <= |s| && SkipWs(s, p) == SkipWs(s, q) && At(s, q, Text(fs[0])) && e == q + |Text(fs[0])| && Stops(s, e)
    ensures |gaps| == |fs| + 1 && s[e..] == Laid(fs[1..], gaps[1..]) + rest && GoodGaps(fs[1..], gaps[1..])
  {
    hide SkipWs, At, GapText, Text, Stops, WordChar, GoodGap;
    var g, t, more := GapText(gaps[0]), Text(fs[0]), Laid(fs[1..], gaps[1..]) + rest;
    q, e := p + |g|, p + |g| + |t|;
    assert Laid(fs, gaps) + rest == g + (t + more);
    AtEnd(s, p, g + (t + more));
    AtSplit(s, p, g, t + more);
    AtSplit(s, q, t, more);
    GapsRest(fs, gaps);
    GapSkips(s, p, gaps[0]);
    assert s[e..] == s[p..][|g| + |t|..] == more;
    RestAfter(fs[1..], gaps[1..], s, e, rest);
  }

  lemma AllRead(s: string, p: nat, acc: seq<Value>)
    requires p <= |s| && SkipWs(s, p) == |s|
    ensures ReadAll(s, p, acc) == Ok(SExpr(acc))
  {
  }

  lemma RestAfter(fs: seq<Form>, gaps: seq<seq<Piece>>, s: string, p: nat, rest: string)
    requires gaps != [] && GoodGap(gaps[0]) && (fs != [] ==> gaps[0] != [])
    requires fs == [] && gaps[0] == [] ==> rest == "" || !WordChar(rest[0])
    requires p <= |s| && s[p..] == Laid(fs, gaps) + rest
    ensures Stops(s, p)
  {
    hide At, Text, GoodGap, WordChar, IsSymbolChar;
    AtEnd(s, p, Laid(fs, gaps) + rest);
    if fs == [] && gaps[0] == [] {
      assert Laid(fs, gaps) + rest == rest;
      if rest != "" {
        assert s[p] == rest[0];
        WordChars(rest[0]);
      }
    }
    AfterForm(fs, gaps, s, p, rest);
  }

  lemma FirstRead(f: Form, s: string, p: nat, acc: seq<Value>)
    requires Good(f) && At(s, p, Text(f)) && p + |Text(f)| <= |s| && Stops(s, p + |Text(f)|)
    ensures ReadAll(s, p, acc) == ReadAll(s, p + |Text(f)|, acc + [Meaning(f)])
  {
    hide SkipWs, ParseExpr, At, Text, Good, Meaning, Stops, IsSpace;
    FormFirst(f);
    AtChar(s, p, Text(f), 0);
    NoSkip(s, p);
    FormParses(f, s, p);
  }

  /** Any program of this grammar, whatever white space and comments it has, is read
      as exactly its forms. */
  lemma ProgramMeans(fs: seq<Form>, gaps: seq<seq<Piece>>, tail: string)
    requires GoodGaps(fs, gaps) && (forall i :: 0 <= i < |fs| ==> Good(fs[i])) && GoodTail(tail)
    ensures Read(Laid(fs, gaps) + tail) == Ok(SExpr(Meanings(fs)))
  {
    hide ReadAll, Laid, Meanings, Good, SkipWs;
    var s := Laid(fs, gaps) + tail;
    assert s[0..] == s && [] + Meanings(fs) == Meanings(fs);
    ReadUpTo(fs, gaps, tail, s, 0, []);
    TailSkips(s, |s| - |tail|, tail);
    AllRead(s, |s| - |tail|, Meanings(fs));
  }

  // ----- texts that are refused -----

  /** Cells go past forms to whatever comes after them. */
  lemma {:induction false} CellsUpTo(fs: seq<Form>, gaps: seq<seq<Piece>>, rest: string, s: string, p: nat, close: char, acc: seq<Value>)
    requires GoodGaps(fs, gaps) && (forall i :: 0 <= i < |fs| ==> Good(fs[i])) && (close == ')' || close == '}')
    requires fs == [] || gaps[|fs|] != [] || rest == "" || !WordChar(rest[0])
    requires p <= |s| && s[p..] == Laid(fs, gaps) + rest
    ensures |rest| <= |s| && s[|s| - |rest|..] == rest
    ensures ParseCells(s, p, close, acc) == ParseCells(s, |s| - |rest|, close, acc + Meanings(fs))
    decreases |fs|
  {
    hide SkipWs, ParseExpr, ParseCells, At, Laid, GapText, Text, Good, Meaning, Stops, WordChar, GoodGaps;
    if fs == [] {
      var q := LastGap(gaps, rest, s, p);
      SameCells(s, p, q, close, acc);
      assert acc + Meanings(fs) == acc;
    } else {
      var q, e := FirstParts(fs, gaps, rest, s, p);
      SameCells(s, p, q, close, acc);
      FirstForm(fs[0], s, q, close, acc);
      CellsUpTo(fs[1..], gaps[1..], rest, s, e, close, acc + [Meaning(fs[0])]);
      assert acc + [Meaning(fs[0])] + Meanings(fs[1..]) == acc + Meanings(fs);
    }
  }

  /** A form that begins and is not finished, or a character no form begins with. */
  datatype Broken =
    | StrayClose(c: char, more: string)
    | StrayChar(c: char, more: string)
    | OpenText(glyphs: seq<Glyph>, backslash: bool)
    | OpenList(round: bool, forms: seq<Form>, gaps: seq<seq<Piece>>, tail: string)

  function BrokenText(b: Broken): string {
    match b
    case StrayClose(c, more) => [c] + more
    case StrayChar(c, more) => [c] + more
    case OpenText(gs, backslash) => ['"'] + (GlyphsText(gs) + (if backslash then ['\\'] else []))
    case OpenList(round, fs, gaps, tail) => [if round then '(' else '{'] + (Laid(fs, gaps) + tail)
  }

  predicate IsBroken(b: Broken) {
    match b
    case StrayClose(c, _) => c == ')' || c == '}'
    case StrayChar(c, _) => !BlankChar(c) && !WordChar(c) && c !in ";(){}\""
    case OpenText(gs, _) => |gs| <= 4095 && forall i :: 0 <= i < |gs| ==> gs[i].Plain? ==> gs[i].c != '"' && gs[i].c != '\\'
    case OpenList(_, fs, gaps, tail) => GoodGaps(fs, gaps) && GoodTail(tail) && forall i :: 0 <= i < |fs| ==> Good(fs[i])
  }

  function BrokenError(b: Broken): Error {
    match b
    case StrayClose(_, _) => UnexpectedClose
    case StrayChar(_, _) => UnexpectedChar
    case OpenText(_, backslash) => if backslash then OpenEscape else OpenString
    case OpenList(round, _, _, _) => if round then UnmatchedParen else UnmatchedBrace
  }

  lemma {:induction false} OpenGlyphs(s: string, p: nat, gs: seq<Glyph>, backslash: bool, acc: string)
    requires p <= |s| && s[p..] == GlyphsText(gs) + (if backslash then ['\\'] else []) && |acc| + |gs| <= MAX_STRING
    requires forall i :: 0 <= i < |gs| ==> gs[i].Plain? ==> gs[i].c != '"' && gs[i].c != '\\'
    ensures StringRest(s, p, acc) == Fail(if backslash then OpenEscape else OpenString)
    decreases |gs|
  {
    hide GlyphText, GlyphValue, At, GlyphsText, StringRest;
    var end := if backslash then ['\\'] else [];
    if gs == [] {
      assert GlyphsText(gs) == "" by { GlyphsNone(); }
      StringEnds(s, p, backslash, acc);
    } else {
      GlyphsFirst(gs);
      var t, more := GlyphText(gs[0]), GlyphsText(gs[1..]) + end;
      assert GlyphsText(gs) + end == t + more;
      AtEnd(s, p, t + more);
      AtSplit(s, p, t, more);
      GlyphStep(s, p, acc, gs[0]);
      assert s[p + |t|..] == s[p..][|t|..] == more;
      OpenGlyphs(s, p + |t|, gs[1..], backslash, acc + [GlyphValue(gs[0])]);
    }
  }

  lemma GlyphsNone()
    ensures GlyphsText([]) == ""
  {
  }

  lemma GlyphsFirst(gs: seq<Glyph>)
    requires gs != []
    ensures GlyphsText(gs) == GlyphText(gs[0]) + GlyphsText(gs[1..])
  {
  }

  lemma StringEnds(s: string, p: nat, backslash: bool, acc: string)
    requires p <= |s| && s[p..] == if backslash then ['\\'] else []
    ensures StringRest(s, p, acc) == Fail(if backslash then OpenEscape else OpenString)
  {
    if backslash {
      assert s[p] == s[p..][0];
    }
  }

  /** What stands at the end of a text and is broken makes the whole text be refused. */
  lemma BrokenFails(b: Broken, s: string, p: nat, acc: seq<Value>)
    requires IsBroken(b) && p <= |s| && s[p..] == BrokenText(b)
    ensures ReadAll(s, p, acc) == Err(BrokenError(b))
  {
    hide SkipWs, ParseExpr, IsSpace, IsSymbolChar, WordChar, BlankChar;
    var c := BrokenText(b)[0];
    assert s[p] == c;
    BrokenFirst(b);
    NoSkip(s, p);
    ExprFails(b, s, p);
  }

  lemma BrokenFirst(b: Broken)
    requires IsBroken(b)
    ensures BrokenText(b) != "" && !IsSpace(BrokenText(b)[0]) && BrokenText(b)[0] != ';'
  {
    Brackets();
    BlankChars(BrokenText(b)[0]);
  }

  lemma ExprFails(b: Broken, s: string, p: nat)
    requires IsBroken(b) && p < |s| && s[p..] == BrokenText(b) && s[p] == BrokenText(b)[0] && SkipWs(s, p) == p
    ensures ParseExpr(s, p) == Fail(BrokenError(b))
  {
    hide SkipWs, ParseCells, StringRest, IsSymbolChar, WordChar, BlankChar, Laid, GlyphsText, GoodGaps, GoodTail;
    assert s[p + 1..] == BrokenText(b)[1..];
    match b
    case StrayClose(c, _) =>
    case StrayChar(c, _) =>
      WordChars(c);
      AtomExpr(s, p);
      assert AtomEnd(s, p) == p;
    case OpenText(gs, backslash) => OpenGlyphs(s, p + 1, gs, backslash, "");
    case OpenList(round, fs, gaps, tail) => ListOpen(fs, gaps, tail, s, p + 1, if round then ')' else '}');
  }

  lemma ListOpen(fs: seq<Form>, gaps: seq<seq<Piece>>, tail: string, s: string, p: nat, close: char)
    requires GoodGaps(fs, gaps) && GoodTail(tail) && (forall i :: 0 <= i < |fs| ==> Good(fs[i])) && (close == ')' || close == '}')
    requires p <= |s| && s[p..] == Laid(fs, gaps) + tail
    ensures ParseCells(s, p, close, []) == Fail(if close == '}' then UnmatchedBrace else UnmatchedParen)
  {
    hide SkipWs, ParseExpr, Laid, Good, GoodGaps, Meanings;
    CellsUpTo(fs, gaps, tail, s, p, close, []);
    TailSkips(s, |s| - |tail|, tail);
  }

  /** A text that is fine up to something broken is refused with that error. */
  lemma TextFails(fs: seq<Form>, gaps: seq<seq<Piece>>, b: Broken)
    requires GoodGaps(fs, gaps) && (forall i :: 0 <= i < |fs| ==> Good(fs[i])) && IsBroken(b)
    ensures Read(Laid(fs, gaps) + BrokenText(b)) == Err(BrokenError(b))
  {
    hide ReadAll, Laid, Meanings, Good, GoodGaps, BrokenText, IsBroken, WordChar;
    var s := Laid(fs, gaps) + BrokenText(b);
    assert s[0..] == s;
    BrokenStops(b);
    ReadUpTo(fs, gaps, BrokenText(b), s, 0, []);
    BrokenFails(b, s, |s| - |BrokenText(b)|, [] + Meanings(fs));
  }

  lemma BrokenStops(b: Broken)
    requires IsBroken(b)
    ensures BrokenText(b) != "" && !WordChar(BrokenText(b)[0])
  {
  }

  // ----- what is printed -----

  /** Five characters are printed behind a backslash. */
  function GlyphOf(c: char): Glyph {
    if c == '"' || c == '\\' then Escaped(c)
    else if c as int == 10 then Escaped('n') else if c as int == 9 then Escaped('t') else if c as int == 13 then Escaped('r')
    else Plain(c)
  }

  function GlyphsOf(t: string): seq<Glyph> {
    if t == "" then [] else [GlyphOf(t[0])] + GlyphsOf(t[1..])
  }

  /** Single spaces between n forms, none at the brackets. */
  function Spaces(n: nat): (r: seq<seq<Piece>>)
    ensures |r| == n + 1
  {
    seq(n + 1, i => if i == 0 || i == n then [] else [Blank(' ')])
  }

  function Spelled(v: Value): Form
    decreases v, 0
  {
    match v
    case Num(n) => Numeral(n < 0, Decimal(if n < 0 then -n else n))
    case Sym(name) => Word(name)
    case Str(t) => Quoted(GlyphsOf(t))
    case SExpr(cs) => List(true, SpelledAll(cs), Spaces(|cs|))
    case QExpr(cs) => List(false, SpelledAll(cs), Spaces(|cs|))
  }

  function SpelledAll(cs: seq<Value>): (r: seq<Form>)
    ensures |r| == |cs|
    decreases cs, 1
  {
    if cs == [] then [] else [Spelled(cs[0])] + SpelledAll(cs[1..])
  }

  lemma {:induction false} GlyphsPrinted(t: string)
    ensures GlyphsText(GlyphsOf(t)) == EscapeAll(t) && GlyphValues(GlyphsOf(t)) == t
  {
    if t != "" {
      GlyphsPrinted(t[1..]);
      assert [t[0]] + t[1..] == t;
      assert GlyphText(GlyphOf(t[0])) == Escape(t[0]);
    }
  }

  lemma {:induction false} PrintSpells(v: Value)
    ensures Text(Spelled(v)) == Print(v)
    decreases v, 0
  {
    hide Join, Laid, SpelledAll, Decimal, GlyphsText, GlyphsOf, EscapeAll;
    match v
    case Num(_) =>
    case Sym(_) =>
    case Str(t) => GlyphsPrinted(t);
    case SExpr(cs) => JoinSpells(cs, Spaces(|cs|));
    case QExpr(cs) => JoinSpells(cs, Spaces(|cs|));
  }

  /** Gaps that are one space between forms, whatever the first is. */
  predicate Single(gaps: seq<seq<Piece>>, n: nat) {
    |gaps| == n + 1 && (n > 0 ==> gaps[n] == []) && forall i :: 0 < i < n ==> gaps[i] == [Blank(' ')]
  }

  lemma {:induction false} JoinSpells(cs: seq<Value>, gaps: seq<seq<Piece>>)
    requires Single(gaps, |cs|) && gaps[0] == []
    ensures Laid(SpelledAll(cs), gaps) == Join(cs)
    decreases cs, 1
  {
    hide Print, Spelled, Text;
    if cs == [] {
    } else if |cs| == 1 {
      PrintSpells(cs[0]);
      assert cs[1..] == [] && gaps[1..] == [[]];
      assert Laid([], [[]]) == "";
    } else {
      PrintSpells(cs[0]);
      var rest, gs := cs[1..], gaps[1..];
      var closer := gs[0 := []];
      JoinSpells(rest, closer);
      SpaceFirst(SpelledAll(rest), gs, closer);
      assert Print(cs[0]) + ([' '] + Join(rest)) == Print(cs[0]) + " " + Join(rest);
    }
  }

  lemma SpaceFirst(fs: seq<Form>, gaps: seq<seq<Piece>>, closer: seq<seq<Piece>>)
    requires gaps != [] && fs != [] && gaps[0] == [Blank(' ')] && closer == gaps[0 := []]
    ensures Laid(fs, gaps) == [' '] + Laid(fs, closer)
  {
    hide Laid, Text;
    assert closer[1..] == gaps[1..];
    LaidFirst(fs, gaps);
    LaidFirst(fs, closer);
    var rest := Text(fs[0]) + Laid(fs[1..], gaps[1..]);
    assert GapText([Blank(' ')]) == [' '] && GapText([]) == "";
    assert [] + rest == rest;
  }

  lemma LaidFirst(fs: seq<Form>, gaps: seq<seq<Piece>>)
    requires fs != [] && gaps != []
    ensures Laid(fs, gaps) == GapText(gaps[0]) + (Text(fs[0]) + Laid(fs[1..], gaps[1..]))
  {
    hide Text, GapText;
  }

  lemma {:induction false} SpelledMeans(v: Value)
    ensures Meaning(Spelled(v)) == v
    decreases v, 0
  {
    match v
    case Num(n) =>
      var d := Decimal(if n < 0 then -n else n);
      DecimalValue(if n < 0 then -n else n);
      WeighDecimal(d);
    case Sym(_) =>
    case Str(t) => GlyphsPrinted(t);
    case SExpr(cs) => AllMean(cs);
    case QExpr(cs) => AllMean(cs);
  }

  lemma WeighDecimal(d: string)
    requires forall i :: 0 <= i < |d| ==> IsDigit(d[i])
    ensures NumberOf(d) == Weigh(d)
  {
    forall i | 0 <= i < |d| ensures DigitChar(d[i]) {
      DigitChars(d[i]);
    }
    WeighIs(d);
  }

  lemma {:induction false} AllMean(cs: seq<Value>)
    ensures Meanings(SpelledAll(cs)) == cs
    decreases cs, 1
  {
    hide Meaning, Spelled;
    if cs != [] {
      SpelledMeans(cs[0]);
      AllMean(cs[1..]);
      assert SpelledAll(cs)[1..] == SpelledAll(cs[1..]);
    }
  }

  /** What the printer writes is a text of this grammar that means the value: single
      spaces, and a backslash before quotes, backslashes, line feeds, tabs and returns. */
  lemma PrintMeans(v: Value)
    ensures Text(Spelled(v)) == Print(v) && Meaning(Spelled(v)) == v
  {
    hide Text, Spelled, Meaning, Print;
    PrintSpells(v);
    SpelledMeans(v);
  }
}
