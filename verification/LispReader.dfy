/** The reader as it runs, with a position that moves and an error that sticks, and
    the printer as it writes. */
module LispReader {
  import opened Wrappers
  import T = LispText

  class Parser {
    const s: string
    var pos: nat
    var error: Option<T.Error>

    ghost predicate Valid()
      reads this
    {
      pos <= |s|
    }

    constructor (input: string)
      ensures Valid() && s == input && pos == 0 && error == None
    {
      s, pos, error := input, 0, None;
    }

    /** What a parse step leaves: the value and the new position, or the first error. */
    ghost predicate Left<A>(before: Option<T.Error>, p: T.Parsed<A>, r: Option<A>)
      reads this
    {
      match p
      case Got(v, q) => r == Some(v) && pos == q && error == before
      case Fail(e) => r == None && error == if before.Some? then before else Some(e)
    }

    method SetError(e: T.Error)
      modifies this`error
      ensures error == if old(error).Some? then old(error) else Some(e)
    {
      if error.None? { error := Some(e); }
    }

    method SkipWs()
      requires Valid()
      modifies this`pos
      ensures Valid() && pos == T.SkipWs(s, old(pos))
    {
      while true
        invariant Valid() && T.SkipWs(s, pos) == T.SkipWs(s, old(pos))
        decreases |s| - pos
      {
        while pos < |s| && T.IsSpace(s[pos])
          invariant Valid() && T.SkipWs(s, pos) == T.SkipWs(s, old(pos))
          decreases |s| - pos
        {
          pos := pos + 1;
        }
        if pos < |s| && s[pos] == ';' {
          var start := pos;
          pos := pos + 1;
          while pos < |s| && s[pos] != '\n'
            invariant start < pos <= |s| && T.LineEnd(s, start) == (if pos == |s| || s[pos] == '\n' then pos else T.LineEnd(s, pos))
            decreases |s| - pos
          {
            pos := pos + 1;
          }
          continue;
        }
        break;
      }
    }

    /** After the opening quote has been seen. */
    method ParseString() returns (r: Option<string>)
      requires Valid() && pos < |s|
      modifies this
      ensures Valid() && Left(old(error), T.StringRest(s, old(pos) + 1, ""), r)
    {
      hide T.Keep, T.Unescape;
      pos := pos + 1;
      var buf := "";
      while pos < |s| && s[pos] != '"'
        invariant Valid() && error == old(error)
        invariant T.StringRest(s, pos, buf) == T.StringRest(s, old(pos) + 1, "")
        decreases |s| - pos
      {
        var c := s[pos];
        if c == '\\' {
          if pos + 1 >= |s| {
            SetError(T.OpenEscape);
            return None;
          }
          pos := pos + 1;
          c := T.Unescape(s[pos]);
        }
        buf := T.Keep(buf, c);
        pos := pos + 1;
      }
      if pos >= |s| {
        SetError(T.OpenString);
        return None;
      }
      pos := pos + 1;
      return Some(buf);
    }

    method ParseAtom() returns (r: Option<T.Value>)
      requires Valid()
      modifies this
      ensures Valid() && Left(old(error), T.ParseAtom(s, old(pos)), r)
    {
      hide T.IsSymbolChar, T.Atom;
      var start := pos;
      while pos < |s| && T.IsSymbolChar(s[pos])
        invariant start <= pos <= |s| && T.AtomEnd(s, pos) == T.AtomEnd(s, start) && error == old(error)
        decreases |s| - pos
      {
        pos := pos + 1;
      }
      var len := pos - start;
      if len == 0 {
        SetError(T.UnexpectedChar);
        return None;
      }
      if len > T.MAX_TOKEN { len := T.MAX_TOKEN; }
      return Some(T.Atom(s[start..start + len]));
    }

    /** After the opening bracket has been seen. */
    method ParseList(close: char) returns (r: Option<seq<T.Value>>)
      requires Valid() && pos < |s|
      modifies this
      ensures Valid() && Left(old(error), T.ParseCells(s, old(pos) + 1, close, []), r)
      decreases |s| - pos, 0
    {
      pos := pos + 1;
      var cells: seq<T.Value> := [];
      while true
        invariant Valid() && pos > old(pos) && error == old(error)
        invariant T.ParseCells(s, pos, close, cells) == T.ParseCells(s, old(pos) + 1, close, [])
        decreases |s| - pos
      {
        ghost var p := pos;
        SkipWs();
        if pos >= |s| {
          SetError(if close == '}' then T.UnmatchedBrace else T.UnmatchedParen);
          return None;
        }
        if s[pos] == close {
          pos := pos + 1;
          return Some(cells);
        }
        assert T.SkipWs(s, p) == pos;
        SkipTwice(s, p);
        var x := ParseExpr();
        if x.None? { return None; }
        cells := cells + [x.value];
      }
    }

    method ParseExpr() returns (r: Option<T.Value>)
      requires Valid()
      modifies this
      ensures Valid() && Left(old(error), T.ParseExpr(s, old(pos)), r)
      decreases |s| - pos, 1
    {
      SkipWs();
      if pos >= |s| {
        SetError(T.EndOfInput);
        return None;
      }
      var c := s[pos];
      if c == '(' {
        var cells := ParseList(')');
        return if cells.Some? then Some(T.SExpr(cells.value)) else None;
      }
      if c == '{' {
        var cells := ParseList('}');
        return if cells.Some? then Some(T.QExpr(cells.value)) else None;
      }
      if c == ')' || c == '}' {
        SetError(T.UnexpectedClose);
        return None;
      }
      if c == '"' {
        var t := ParseString();
        return if t.Some? then Some(T.Str(t.value)) else None;
      }
      r := ParseAtom();
    }
  }

  lemma {:induction false} SkipTwice(s: string, p: nat)
    requires p <= |s|
    ensures T.SkipWs(s, T.SkipWs(s, p)) == T.SkipWs(s, p)
    decreases |s| - p
  {
    if p < |s| {
      if T.IsSpace(s[p]) {
        SkipTwice(s, p + 1);
      } else if s[p] == ';' {
        SkipTwice(s, T.LineEnd(s, p));
      }
    }
  }

  /** All forms of the input, or the first error. */
  method ParserRead(input: string) returns (r: Result<T.Value, T.Error>)
    ensures r == T.Read(input)
  {
    var p := new Parser(input);
    var prog: seq<T.Value> := [];
    while true
      invariant p.Valid() && p.s == input && p.error == None && fresh(p)
      invariant T.ReadAll(input, p.pos, prog) == T.Read(input)
      decreases |input| - p.pos
    {
      ghost var was := p.pos;
      p.SkipWs();
      if p.pos >= |input| { break; }
      SkipTwice(input, was);
      var x := p.ParseExpr();
      if x.None? {
        return Err(p.error.value);
      }
      prog := prog + [x.value];
    }
    return Ok(T.SExpr(prog));
  }

  lemma Reassociate(a: string, b: string, c: string)
    ensures a + (b + c) == (a + b) + c
  {
  }

  /** What is written to the output. */
  class Printer {
    var out: string

    constructor ()
      ensures out == ""
    {
      out := "";
    }

    method PrintStr(s: string)
      modifies this
      ensures out == old(out) + T.Print(T.Str(s))
    {
      hide T.Escape;
      out := out + "\"";
      ghost var o := out;
      var i := 0;
      assert s[0..] == s;
      while i < |s|
        invariant i <= |s| && out + T.EscapeAll(s[i..]) == o + T.EscapeAll(s)
      {
        assert s[i..][1..] == s[i + 1..];
        Reassociate(out, T.Escape(s[i]), T.EscapeAll(s[i + 1..]));
        out := out + T.Escape(s[i]);
        i := i + 1;
      }
      assert s[i..] == "";
      assert out == o + T.EscapeAll(s);
      out := out + "\"";
      Reassociate(old(out), "\"", T.EscapeAll(s));
      Reassociate(old(out), "\"" + T.EscapeAll(s), "\"");
    }

    /** The cells between brackets, a space after each but the last. */
    method PrintCells(cs: seq<T.Value>, open: char, close: char)
      modifies this
      ensures out == old(out) + ([open] + T.Join(cs) + [close])
      decreases cs, 1
    {
      out := out + [open];
      var i := 0;
      assert cs[0..] == cs;
      while i < |cs|
        invariant i <= |cs| && out + T.Join(cs[i..]) == old(out) + [open] + T.Join(cs)
      {
        hide T.Print;
        ghost var before := out;
        T.JoinParts(cs[i..]);
        Print(cs[i]);
        assert cs[i..][1..] == cs[i + 1..];
        if i != |cs| - 1 {
          out := out + " ";
          assert out + T.Join(cs[i + 1..]) == before + (T.Print(cs[i]) + " " + T.Join(cs[i + 1..]));
        } else {
          assert T.Join(cs[i + 1..]) == "" by { T.JoinParts(cs[i + 1..]); }
        }
        i := i + 1;
      }
      assert T.Join(cs[i..]) == "" by { T.JoinParts(cs[i..]); }
      assert out == old(out) + [open] + T.Join(cs);
      out := out + [close];
      assert old(out) + [open] + T.Join(cs) + [close] == old(out) + ([open] + T.Join(cs) + [close]);
    }

    method Print(v: T.Value)
      modifies this
      ensures out == old(out) + T.Print(v)
      decreases v, 0
    {
      match v
      case Num(n) => out := out + T.PrintNum(n);
      case Sym(name) => out := out + name;
      case Str(t) => PrintStr(t);
      case SExpr(cs) =>
        assert "(" == ['('] && ")" == [')'];
        PrintCells(cs, '(', ')');
      case QExpr(cs) =>
        assert "{" == ['{'] && "}" == ['}'];
        PrintCells(cs, '{', '}');
    }
  }

  /** Structural comparison, cell by cell. */
  method LvalEq(a: T.Value, b: T.Value) returns (eq: bool)
    ensures eq == (a == b)
    decreases a
  {
    match (a, b)
    case (Num(x), Num(y)) => return x == y;
    case (Sym(x), Sym(y)) => return x == y;
    case (Str(x), Str(y)) => return x == y;
    case (SExpr(x), SExpr(y)) => eq := CellsEq(x, y);
    case (QExpr(x), QExpr(y)) => eq := CellsEq(x, y);
    case _ => return false;
  }

  method CellsEq(a: seq<T.Value>, b: seq<T.Value>) returns (eq: bool)
    ensures eq == (a == b)
    decreases a
  {
    if |a| != |b| { return false; }
    var i := 0;
    while i < |a|
      invariant i <= |a| && a[..i] == b[..i]
    {
      var e := LvalEq(a[i], b[i]);
      if !e { return false; }
      i := i + 1;
    }
    assert a[..i] == a && b[..i] == b;
    return true;
  }
}
