/** The Lisp printer and reader, as functions of the text, and the round trip
    between them.

    Reading is by position, as the parser's own cursor moves: a printed atom,
    string or list that stands at a position of any text, followed by something
    that ends an atom, is read as that value, and the cursor stops right behind it.
*/
module LispText {
  import opened Decimals
  import opened Wrappers

  datatype Value = Num(n: int) | Sym(name: string) | Str(text: string) | SExpr(cells: seq<Value>) | QExpr(cells: seq<Value>)

  const MAX_TOKEN: nat := 255
  const MAX_STRING: nat := 4095

  predicate IsSpace(c: char) { c == ' ' || c == '\t' || c == '\n' || c == '\U{000B}' || c == '\U{000C}' || c == '\r' }

  predicate IsSymbolChar(c: char) {
    IsDigit(c) || 'a' <= c <= 'z' || 'A' <= c <= 'Z' || c in "_+-*/\\=<>!&|%^"
  }

  // ----- printing -----

  function PrintNum(n: int): string { if n < 0 then "-" + Decimal(-n) else Decimal(n) }

  function Escape(c: char): string {
    if c == '"' then "\\\"" else if c == '\\' then "\\\\" else if c == '\n' then "\\n"
    else if c == '\t' then "\\t" else if c == '\r' then "\\r" else [c]
  }

  function EscapeAll(s: string): string {
    if s == "" then "" else Escape(s[0]) + EscapeAll(s[1..])
  }

  function Print(v: Value): string
    decreases v, 0
  {
    match v
    case Num(n) => PrintNum(n)
    case Sym(s) => s
    case Str(s) => "\"" + EscapeAll(s) + "\""
    case SExpr(cs) => "(" + Join(cs) + ")"
    case QExpr(cs) => "{" + Join(cs) + "}"
  }

  /** The printed cells with single spaces between them. */
  function Join(cs: seq<Value>): string
    decreases cs, 1
  {
    if cs == [] then ""
    else if |cs| == 1 then Print(cs[0])
    else Print(cs[0]) + " " + Join(cs[1..])
  }

  // ----- reading -----

  datatype Error = EndOfInput | UnmatchedParen | UnmatchedBrace | UnexpectedClose | UnexpectedChar | OpenEscape | OpenString

  datatype Parsed<T> = Got(v: T, pos: nat) | Fail(e: Error)

  /** Past white space and comments. */
  function SkipWs(s: string, p: nat): (r: nat)
    requires p <= |s|
    ensures p <= r <= |s|
    decreases |s| - p
  {
    if p == |s| then p
    else if IsSpace(s[p]) then SkipWs(s, p + 1)
    else if s[p] == ';' then SkipWs(s, LineEnd(s, p))
    else p
  }

  function LineEnd(s: string, p: nat): (r: nat)
    requires p < |s| && s[p] != '\n'
    ensures p < r <= |s| && (r < |s| ==> s[r] == '\n')
    decreases |s| - p
  {
    if p + 1 == |s| || s[p + 1] == '\n' then p + 1 else LineEnd(s, p + 1)
  }

  function Unescape(c: char): char {
    if c == 'n' then '\n' else if c == 't' then '\t' else if c == 'r' then '\r' else c
  }

  /** The rest of a string literal; characters past the buffer are dropped. */
  function StringRest(s: string, p: nat, acc: string): (r: Parsed<string>)
    requires p <= |s|
    ensures r.Got? ==> p < r.pos <= |s|
    decreases |s| - p
  {
    if p == |s| then Fail(OpenString)
    else if s[p] == '"' then Got(acc, p + 1)
    else if s[p] == '\\' then
      if p + 1 == |s| then Fail(OpenEscape) else StringRest(s, p + 2, Keep(acc, Unescape(s[p + 1])))
    else StringRest(s, p + 1, Keep(acc, s[p]))
  }

  function Keep(acc: string, c: char): string { if |acc| < MAX_STRING then acc + [c] else acc }

  function AtomEnd(s: string, p: nat): (r: nat)
    requires p <= |s|
    ensures p <= r <= |s| && (r < |s| ==> !IsSymbolChar(s[r])) && forall i :: p <= i < r ==> IsSymbolChar(s[i])
    decreases |s| - p
  {
    if p < |s| && IsSymbolChar(s[p]) then AtomEnd(s, p + 1) else p
  }

  predicate AllDigits(t: string) { t != "" && forall i :: 0 <= i < |t| ==> IsDigit(t[i]) }

  /** Digits with an optional minus; a token holds no point. */
  predicate LooksLikeNumber(t: string) { AllDigits(if t != "" && t[0] == '-' then t[1..] else t) }

  function ToNumber(t: string): int {
    if t != "" && t[0] == '-' then 0 - NumberOf(t[1..]) else NumberOf(t)
  }

  function Atom(t: string): Value { if LooksLikeNumber(t) then Num(ToNumber(t)) else Sym(t) }

  function ParseAtom(s: string, p: nat): (r: Parsed<Value>)
    requires p <= |s|
    ensures r.Got? ==> p < r.pos <= |s|
  {
    var e := AtomEnd(s, p);
    if e == p then Fail(UnexpectedChar)
    else Got(Atom(s[p..if e - p > MAX_TOKEN then p + MAX_TOKEN else e]), e)
  }

  function ParseExpr(s: string, p: nat): (r: Parsed<Value>)
    requires p <= |s|
    ensures r.Got? ==> p < r.pos <= |s|
    decreases |s| - p, 0
  {
    var q := SkipWs(s, p);
    if q == |s| then Fail(EndOfInput)
    else if s[q] == '(' then
      match ParseCells(s, q + 1, ')', [])
      case Got(cs, r) => Got(SExpr(cs), r)
      case Fail(e) => Fail(e)
    else if s[q] == '{' then
      match ParseCells(s, q + 1, '}', [])
      case Got(cs, r) => Got(QExpr(cs), r)
      case Fail(e) => Fail(e)
    else if s[q] == ')' || s[q] == '}' then Fail(UnexpectedClose)
    else if s[q] == '"' then
      match StringRest(s, q + 1, "")
      case Got(t, r) => Got(Str(t), r)
      case Fail(e) => Fail(e)
    else ParseAtom(s, q)
  }

  /** The cells up to the closing bracket. */
  function ParseCells(s: string, p: nat, close: char, acc: seq<Value>): (r: Parsed<seq<Value>>)
    requires p <= |s|
    ensures r.Got? ==> p < r.pos <= |s|
    decreases |s| - p, 1
  {
    var q := SkipWs(s, p);
    if q == |s| then Fail(if close == '}' then UnmatchedBrace else UnmatchedParen)
    else if s[q] == close then Got(acc, q + 1)
    else match ParseExpr(s, q)
      case Got(x, r) => ParseCells(s, r, close, acc + [x])
      case Fail(e) => Fail(e)
  }

  /** All top-level forms. */
  function ReadAll(s: string, p: nat, acc: seq<Value>): Result<Value, Error>
    requires p <= |s|
    decreases |s| - p
  {
    var q := SkipWs(s, p);
    if q == |s| then Ok(SExpr(acc))
    else match ParseExpr(s, q)
      case Got(x, r) => ReadAll(s, r, acc + [x])
      case Fail(e) => Err(e)
  }

  function Read(s: string): Result<Value, Error> { ReadAll(s, 0, []) }

  // ----- what survives printing and reading -----

  /** Integers the printer writes in full, symbols the reader takes for symbols and
      does not cut, strings that fit its buffer, and lists of these. */
  predicate Readable(v: Value) {
    match v
    case Num(n) => -1000000000000000 < n < 1000000000000000
    case Sym(s) => 0 < |s| <= MAX_TOKEN && (forall i :: 0 <= i < |s| ==> IsSymbolChar(s[i])) && !LooksLikeNumber(s)
    case Str(s) => |s| <= MAX_STRING
    case SExpr(cs) => forall i :: 0 <= i < |cs| ==> Readable(cs[i])
    case QExpr(cs) => forall i :: 0 <= i < |cs| ==> Readable(cs[i])
  }

  ghost predicate At(s: string, p: nat, t: string) { p + |t| <= |s| && s[p..p + |t|] == t }

  /** Where an atom may end. */
  predicate Stops(s: string, p: nat)
    requires p <= |s|
  {
    p < |s| ==> !IsSymbolChar(s[p])
  }

  lemma AtSplit(s: string, p: nat, a: string, b: string)
    requires At(s, p, a + b)
    ensures At(s, p, a) && At(s, p + |a|, b)
  {
    var t := s[p..p + |a + b|];
    assert s[p..p + |a|] == t[..|a|];
    assert s[p + |a|..p + |a| + |b|] == t[|a|..];
  }

  lemma AtChar(s: string, p: nat, t: string, i: nat)
    requires At(s, p, t) && i < |t|
    ensures s[p + i] == t[i]
  {
    assert s[p + i] == s[p..p + |t|][i];
  }

  /** A printed integer is short enough for a token, and reads as itself. */
  lemma NumRoundTrip(n: int)
    requires -1000000000000000 < n < 1000000000000000
    ensures var t := PrintNum(n); Atom(t) == Num(n) && 0 < |t| <= MAX_TOKEN && forall i :: 0 <= i < |t| ==> IsSymbolChar(t[i])
  {
    hide Decimal, NumberOf, Pow10;
    Pow10Fifteen();
    var d := Decimal(if n < 0 then -n else n);
    DecimalValue(if n < 0 then -n else n);
    DecimalLength(if n < 0 then -n else n, 15);
    if n < 0 {
      assert PrintNum(n)[1..] == d;
    }
  }

  lemma Pow10Fifteen()
    ensures Pow10(15) == 1000000000000000
  {
    assert Pow10(5) == 100000;
    assert Pow10(10) == 10000000000;
  }

  lemma AtomParses(s: string, p: nat, t: string)
    requires At(s, p, t) && 0 < |t| <= MAX_TOKEN && Stops(s, p + |t|) && forall i :: 0 <= i < |t| ==> IsSymbolChar(t[i])
    ensures ParseAtom(s, p) == Got(Atom(t), p + |t|)
  {
    hide IsSymbolChar, Atom;
    var e := AtomEnd(s, p);
    forall i | p <= i < p + |t| ensures IsSymbolChar(s[i]) {
      AtChar(s, p, t, i - p);
    }
    var atE := if e < |s| then s[e] else ' ';
    var atT := if p + |t| < |s| then s[p + |t|] else ' ';
    assert e == p + |t|;
  }

  /** The rest of a printed string. */
  lemma {:induction false} StringParses(s: string, p: nat, t: string, acc: string)
    requires At(s, p, EscapeAll(t) + "\"") && |acc| + |t| <= MAX_STRING
    ensures StringRest(s, p, acc) == Got(acc + t, p + |EscapeAll(t)| + 1)
    decreases t
  {
    hide Escape, StringRest;
    if t == "" {
      AtChar(s, p, EscapeAll(t) + "\"", 0);
      StringCloses(s, p, acc);
      assert acc + t == acc;
    } else {
      var e, rest := Escape(t[0]), EscapeAll(t[1..]) + "\"";
      assert EscapeAll(t) + "\"" == e + rest;
      AtSplit(s, p, e, rest);
      StringStep(s, p, acc, t[0]);
      StringParses(s, p + |e|, t[1..], acc + [t[0]]);
      assert acc + [t[0]] + t[1..] == acc + t;
    }
  }

  lemma StringCloses(s: string, p: nat, acc: string)
    requires p < |s| && s[p] == '"'
    ensures StringRest(s, p, acc) == Got(acc, p + 1)
  {
  }

  /** One escaped character. */
  lemma StringStep(s: string, p: nat, acc: string, c: char)
    requires At(s, p, Escape(c))
    ensures StringRest(s, p, acc) == StringRest(s, p + |Escape(c)|, Keep(acc, c))
  {
    AtChar(s, p, Escape(c), 0);
    if |Escape(c)| == 2 {
      AtChar(s, p, Escape(c), 1);
    }
  }

  /** Symbol characters are no white space, punctuation or brackets. */
  lemma SymbolNot(c: char)
    requires IsSymbolChar(c)
    ensures !IsSpace(c) && c != ';' && c != ')' && c != '}' && c != '(' && c != '{' && c != '"'
  {
  }

  /** A printed value starts with a character that is no space, comment or bracket close. */
  lemma FirstChar(v: Value)
    requires Readable(v)
    ensures |Print(v)| > 0
    ensures var c := Print(v)[0]; !IsSpace(c) && c != ';' && c != ')' && c != '}'
    ensures !v.SExpr? && !v.QExpr? && !v.Str? ==> IsSymbolChar(Print(v)[0])
  {
    hide IsSymbolChar, IsSpace, LooksLikeNumber, PrintNum;
    if v.Num? {
      NumRoundTrip(v.n);
    }
    if v.Num? || v.Sym? {
      SymbolNot(Print(v)[0]);
    } else {
      assert !IsSpace('"') && !IsSpace('(') && !IsSpace('{') by { Brackets(); }
    }
  }

  lemma Brackets()
    ensures !IsSpace('"') && !IsSpace('(') && !IsSpace('{') && !IsSpace(')') && !IsSpace('}')
  {
  }

  lemma NoSkip(s: string, p: nat)
    requires p < |s| && !IsSpace(s[p]) && s[p] != ';'
    ensures SkipWs(s, p) == p
  {
  }

  /** A printed value is read back as itself, wherever it stands, when what follows
      ends a token. */
  lemma {:induction false} ValueParses(v: Value, s: string, p: nat)
    requires Readable(v) && At(s, p, Print(v)) && Stops(s, p + |Print(v)|)
    ensures ParseExpr(s, p) == Got(v, p + |Print(v)|)
    decreases v, 0
  {
    assert v.Str? ==> |v.text| <= MAX_STRING;
    hide SkipWs, Readable, ParseExpr, ParseAtom, ParseCells, StringRest, Join, EscapeAll, IsSymbolChar, IsSpace, PrintNum;
    FirstChar(v);
    AtChar(s, p, Print(v), 0);
    NoSkip(s, p);
    match v
    case Num(n) => AtomValue(v, s, p);
    case Sym(name) => AtomValue(v, s, p);
    case Str(t) => StringValue(t, s, p);
    case SExpr(cs) =>
      ListText(v, s, p);
      CellsParse(cs, s, p + 1, ')', []);
      ParenExpr(s, p);
      assert [] + cs == cs;
    case QExpr(cs) =>
      ListText(v, s, p);
      CellsParse(cs, s, p + 1, '}', []);
      BraceExpr(s, p);
      assert [] + cs == cs;
  }

  lemma AtomValue(v: Value, s: string, p: nat)
    requires Readable(v) && (v.Num? || v.Sym?) && At(s, p, Print(v)) && Stops(s, p + |Print(v)|)
    requires p < |s| && SkipWs(s, p) == p && |Print(v)| > 0 && s[p] == Print(v)[0]
    ensures ParseExpr(s, p) == Got(v, p + |Print(v)|)
  {
    hide SkipWs, Readable, ParseExpr, ParseAtom, IsSymbolChar, PrintNum, Stops;
    FirstIsSymbol(v);
    AtomShape(v);
    AtomParses(s, p, Print(v));
    AtomExpr(s, p);
  }

  lemma StringValue(t: string, s: string, p: nat)
    requires |t| <= MAX_STRING && At(s, p, Print(Str(t))) && SkipWs(s, p) == p
    ensures ParseExpr(s, p) == Got(Str(t), p + |Print(Str(t))|)
  {
    hide SkipWs, StringRest, EscapeAll;
    assert Print(Str(t)) == "\"" + (EscapeAll(t) + "\"");
    AtSplit(s, p, "\"", EscapeAll(t) + "\"");
    AtChar(s, p, "\"", 0);
    StringParses(s, p + 1, t, "");
    assert "" + t == t;
  }

  lemma ListText(v: Value, s: string, p: nat)
    requires Readable(v) && (v.SExpr? || v.QExpr?) && At(s, p, Print(v))
    ensures At(s, p + 1, Join(v.cells) + [if v.SExpr? then ')' else '}']) && |Print(v)| == |Join(v.cells)| + 2
    ensures p < |s| && s[p] == (if v.SExpr? then '(' else '{')
    ensures forall i :: 0 <= i < |v.cells| ==> Readable(v.cells[i])
  {
    hide Join;
    var open, close := if v.SExpr? then "(" else "{", if v.SExpr? then ")" else "}";
    assert Print(v) == open + (Join(v.cells) + close);
    AtSplit(s, p, open, Join(v.cells) + close);
    AtChar(s, p, open, 0);
    assert close == [if v.SExpr? then ')' else '}'];
  }

  lemma ParenExpr(s: string, p: nat)
    requires p < |s| && s[p] == '(' && SkipWs(s, p) == p && ParseCells(s, p + 1, ')', []).Got?
    ensures ParseExpr(s, p) == Got(SExpr(ParseCells(s, p + 1, ')', []).v), ParseCells(s, p + 1, ')', []).pos)
  {
    hide SkipWs, ParseCells;
  }

  lemma BraceExpr(s: string, p: nat)
    requires p < |s| && s[p] == '{' && SkipWs(s, p) == p && ParseCells(s, p + 1, '}', []).Got?
    ensures ParseExpr(s, p) == Got(QExpr(ParseCells(s, p + 1, '}', []).v), ParseCells(s, p + 1, '}', []).pos)
  {
    hide SkipWs, ParseCells;
  }

  lemma AtomExpr(s: string, p: nat)
    requires p < |s| && SkipWs(s, p) == p && s[p] != '(' && s[p] != '{' && s[p] != ')' && s[p] != '}' && s[p] != '"'
    ensures ParseExpr(s, p) == ParseAtom(s, p)
  {
    hide SkipWs, ParseAtom;
  }

  lemma FirstIsSymbol(v: Value)
    requires Readable(v) && (v.Num? || v.Sym?)
    ensures |Print(v)| > 0 && (var c := Print(v)[0]; c != '(' && c != '{' && c != '"' && c != ')' && c != '}')
  {
    hide IsSymbolChar;
    FirstChar(v);
    SymbolNot(Print(v)[0]);
  }

  lemma AtomShape(v: Value)
    requires Readable(v) && (v.Num? || v.Sym?)
    ensures var t := Print(v); 0 < |t| <= MAX_TOKEN && Atom(t) == v && forall i :: 0 <= i < |t| ==> IsSymbolChar(t[i])
  {
    hide IsSymbolChar, PrintNum;
    if v.Num? {
      NumRoundTrip(v.n);
    }
  }

  lemma CloseStops(s: string, p: nat, close: char)
    requires p < |s| && s[p] == close && (close == ')' || close == '}' || close == ' ')
    ensures Stops(s, p) && (close != ' ' ==> SkipWs(s, p) == p)
    ensures close == ' ' ==> SkipWs(s, p) == SkipWs(s, p + 1)
  {
  }

  lemma {:induction false} CellsParse(cs: seq<Value>, s: string, p: nat, close: char, acc: seq<Value>)
    requires (close == ')' || close == '}') && At(s, p, Join(cs) + [close]) && forall i :: 0 <= i < |cs| ==> Readable(cs[i])
    ensures ParseCells(s, p, close, acc) == Got(acc + cs, p + |Join(cs)| + 1)
    decreases cs, 1
  {
    hide SkipWs, Readable, ParseExpr, ParseCells, Print, IsSymbolChar, IsSpace, Stops, Join, At;
    AtSplit(s, p, Join(cs), [close]);
    AtChar(s, p + |Join(cs)|, [close], 0);
    JoinParts(cs);
    if cs == [] {
      CloseStops(s, p, close);
      CloseEnds(s, p, close, acc);
      assert acc + cs == acc;
    } else if |cs| == 1 {
      var n := |Print(cs[0])|;
      CloseStops(s, p + n, close);
      CloseEnds(s, p + n, close, acc + [cs[0]]);
      FirstCell(cs[0], s, p, close, acc);
      assert acc + [cs[0]] == acc + cs;
    } else {
      var n, rest := |Print(cs[0])|, cs[1..];
      assert Join(cs) + [close] == Print(cs[0]) + [' '] + (Join(rest) + [close]);
      CellThenSpace(s, p, Print(cs[0]), Join(rest) + [close]);
      FirstCell(cs[0], s, p, close, acc);
      CellsParse(rest, s, p + n + 1, close, acc + [cs[0]]);
      SpaceSkips(s, p + n, close, acc + [cs[0]]);
      assert acc + [cs[0]] + rest == acc + cs;
    }
  }

  /** A cell, a space and what follows. */
  lemma CellThenSpace(s: string, p: nat, cell: string, rest: string)
    requires At(s, p, cell + [' '] + rest)
    ensures At(s, p, cell) && At(s, p + |cell| + 1, rest)
    ensures p + |cell| < |s| && Stops(s, p + |cell|) && SkipWs(s, p + |cell|) == SkipWs(s, p + |cell| + 1)
  {
    hide SkipWs, IsSymbolChar, IsSpace, Stops;
    var n := |cell|;
    AtSplit(s, p, cell + [' '], rest);
    AtSplit(s, p, cell, [' ']);
    AtChar(s, p + n, [' '], 0);
    CloseStops(s, p + n, ' ');
  }

  lemma JoinParts(cs: seq<Value>)
    ensures cs == [] ==> Join(cs) == ""
    ensures |cs| == 1 ==> Join(cs) == Print(cs[0])
    ensures |cs| > 1 ==> Join(cs) == Print(cs[0]) + [' '] + Join(cs[1..])
  {
    hide Print;
    assert " " == [' '];
  }

  lemma CloseEnds(s: string, p: nat, close: char, acc: seq<Value>)
    requires p < |s| && s[p] == close && SkipWs(s, p) == p
    ensures ParseCells(s, p, close, acc) == Got(acc, p + 1)
  {
  }

  lemma SpaceSkips(s: string, p: nat, close: char, acc: seq<Value>)
    requires p < |s| && SkipWs(s, p) == SkipWs(s, p + 1)
    ensures ParseCells(s, p, close, acc) == ParseCells(s, p + 1, close, acc)
  {
    hide SkipWs, ParseExpr;
  }

  lemma FirstCell(x: Value, s: string, p: nat, close: char, acc: seq<Value>)
    requires Readable(x) && At(s, p, Print(x)) && Stops(s, p + |Print(x)|) && (close == ')' || close == '}')
    ensures ParseCells(s, p, close, acc) == ParseCells(s, p + |Print(x)|, close, acc + [x])
    decreases x, 1
  {
    hide SkipWs, Readable, ParseExpr, Print;
    FirstChar(x);
    AtChar(s, p, Print(x), 0);
    NoSkip(s, p);
    ValueParses(x, s, p);
  }

  /** Reading the printed form of any list of values gives those values back, with
      all input consumed. */
  lemma {:induction false} ProgramParses(cs: seq<Value>, s: string, p: nat, acc: seq<Value>)
    requires p <= |s| && s[p..] == Join(cs) && forall i :: 0 <= i < |cs| ==> Readable(cs[i])
    ensures ReadAll(s, p, acc) == Ok(SExpr(acc + cs))
    decreases cs
  {
    hide SkipWs, Readable, ParseExpr, Print, IsSymbolChar, IsSpace, Stops, ReadAll, Join, At;
    JoinParts(cs);
    AtEnd(s, p, Join(cs));
    if cs == [] {
      ReadEnd(s, acc);
      assert acc + cs == acc;
    } else if |cs| == 1 {
      StopsEnd(s);
      FirstValue(cs[0], s, p, acc);
      ReadEnd(s, acc + [cs[0]]);
      assert acc + [cs[0]] == acc + cs;
    } else {
      var x, rest := cs[0], cs[1..];
      var n := |Print(x)|;
      CellThenSpace(s, p, Print(x), Join(rest));
      FirstValue(x, s, p, acc);
      ReadSpace(s, p + n, acc + [x]);
      assert s[p + n + 1..] == s[p..][n + 1..] == Join(rest);
      ProgramParses(rest, s, p + n + 1, acc + [x]);
      assert acc + [x] + rest == acc + cs;
    }
  }

  lemma AtEnd(s: string, p: nat, t: string)
    requires p <= |s| && s[p..] == t
    ensures At(s, p, t) && p + |t| == |s|
  {
    assert s[p..] == s[p..|s|];
  }

  lemma FirstValue(x: Value, s: string, p: nat, acc: seq<Value>)
    requires Readable(x) && At(s, p, Print(x)) && Stops(s, p + |Print(x)|)
    ensures ReadAll(s, p, acc) == ReadAll(s, p + |Print(x)|, acc + [x])
  {
    hide SkipWs, Readable, ParseExpr, Print, IsSymbolChar, IsSpace, Stops, ReadAll;
    FirstChar(x);
    AtChar(s, p, Print(x), 0);
    NoSkip(s, p);
    ValueParses(x, s, p);
    ReadStep(s, p, acc);
  }

  lemma StopsEnd(s: string)
    ensures Stops(s, |s|)
  {
  }

  lemma ReadEnd(s: string, acc: seq<Value>)
    ensures ReadAll(s, |s|, acc) == Ok(SExpr(acc))
  {
  }

  lemma ReadSpace(s: string, p: nat, acc: seq<Value>)
    requires p < |s| && SkipWs(s, p) == SkipWs(s, p + 1)
    ensures ReadAll(s, p, acc) == ReadAll(s, p + 1, acc)
  {
    hide SkipWs, ParseExpr;
  }

  lemma ReadStep(s: string, p: nat, acc: seq<Value>)
    requires p < |s| && SkipWs(s, p) == p && ParseExpr(s, p).Got?
    ensures ReadAll(s, p, acc) == ReadAll(s, ParseExpr(s, p).pos, acc + [ParseExpr(s, p).v])
  {
    hide SkipWs, ParseExpr;
  }

  /** The reader inverts the printer. */
  lemma ReadPrint(v: Value)
    requires Readable(v)
    ensures Read(Print(v)) == Ok(SExpr([v]))
  {
    hide Print;
    var s := Print(v);
    assert s[0..] == s == Join([v]);
    ProgramParses([v], s, 0, []);
    assert [] + [v] == [v];
  }
}
