/** The resolver: it gives every parameter and local its own frame offset,
    writes the offsets into the tree, and rejects bad programs. The functions say
    what the pass computes; the class performs it on its own state. */
module MiniCResolver {
  import opened Wrappers
  import opened MiniCAst

  datatype Error =
    | TooManyParams(name: string)
    | ConflictingArity(name: string)
    | Redefinition(name: string)
    | Redeclaration(name: string)
    | Undeclared(name: string)
    | UndeclaredFunction(name: string)
    | WrongArgCount(name: string)
    | BreakOutside
    | ContinueOutside

  const MAX_PARAMS: int := 6

  datatype FuncInfo = FuncInfo(arity: nat, hasBody: bool)
  type Functions = map<string, FuncInfo>
  type Scope = map<string, int>

  /** The resolver's working state within one function. */
  datatype State = State(scopes: seq<Scope>, cur: int, max: int, loops: int)

  function Collect(p: Program): Result<Functions, Error> {
    if p == [] then Ok(map[])
    else
      var fns :- Collect(p[..|p| - 1]);
      AddSignature(fns, p[|p| - 1])
  }

  function AddSignature(fns: Functions, f: Function): Result<Functions, Error> {
    if |f.params| > MAX_PARAMS then Err(TooManyParams(f.name))
    else if f.name !in fns then Ok(fns[f.name := FuncInfo(|f.params|, f.body.Some?)])
    else if fns[f.name].arity != |f.params| then Err(ConflictingArity(f.name))
    else if fns[f.name].hasBody && f.body.Some? then Err(Redefinition(f.name))
    else Ok(fns[f.name := fns[f.name].(hasBody := fns[f.name].hasBody || f.body.Some?)])
  }

  function Lookup(scopes: seq<Scope>, x: string): Result<int, Error> {
    if scopes == [] then Err(Undeclared(x))
    else if x in scopes[|scopes| - 1] then Ok(scopes[|scopes| - 1][x])
    else Lookup(scopes[..|scopes| - 1], x)
  }

  function DeclareSlot(st: State, x: string): Result<State, Error>
    requires st.scopes != []
  {
    var top := |st.scopes| - 1;
    if x in st.scopes[top] then Err(Redeclaration(x))
    else
      var cur := st.cur - 8;
      Ok(st.(scopes := st.scopes[top := st.scopes[top][x := cur]], cur := cur, max := if -cur > st.max then -cur else st.max))
  }

  function Expression(fns: Functions, scopes: seq<Scope>, e: Expr): Result<Expr, Error>
    decreases e, 1
  {
    match e
    case IntLit(_) => Ok(e)
    case VarRef(x, _) => var s :- Lookup(scopes, x); Ok(VarRef(x, s))
    case Assign(x, e1, _) =>
      var s :- Lookup(scopes, x);
      var r1 :- Expression(fns, scopes, e1);
      Ok(Assign(x, r1, s))
    case Unary(op, e1) => var r1 :- Expression(fns, scopes, e1); Ok(Unary(op, r1))
    case Binary(op, e1, e2) =>
      var r1 :- Expression(fns, scopes, e1);
      var r2 :- Expression(fns, scopes, e2);
      Ok(Binary(op, r1, r2))
    case Logical(op, e1, e2) =>
      var r1 :- Expression(fns, scopes, e1);
      var r2 :- Expression(fns, scopes, e2);
      Ok(Logical(op, r1, r2))
    case Call(f, args) =>
      if f !in fns then Err(UndeclaredFunction(f))
      else if fns[f].arity != |args| then Err(WrongArgCount(f))
      else
        var rs :- Arguments(fns, scopes, args);
        Ok(Call(f, rs))
  }

  function Arguments(fns: Functions, scopes: seq<Scope>, es: seq<Expr>): (r: Result<seq<Expr>, Error>)
    ensures r.Ok? ==> |r.value| == |es|
    decreases es, 0
  {
    if es == [] then Ok([])
    else
      var rs :- Arguments(fns, scopes, es[..|es| - 1]);
      var r :- Expression(fns, scopes, es[|es| - 1]);
      Ok(rs + [r])
  }

  function Maybe(fns: Functions, scopes: seq<Scope>, e: Option<Expr>): (r: Result<Option<Expr>, Error>)
    ensures r.Ok? ==> r.value.Some? == e.Some?
  {
    if e.None? then Ok(None)
    else
      var r :- Expression(fns, scopes, e.value);
      Ok(Some(r))
  }

  /** The state a statement leaves: scopes outside the innermost one untouched. */
  ghost predicate SameOuter(a: State, b: State) {
    && a.scopes != [] && |b.scopes| == |a.scopes|
    && b.scopes[..|a.scopes| - 1] == a.scopes[..|a.scopes| - 1]
    && b.loops == a.loops
  }

  function Opened(st: State): (r: State)
    ensures r.scopes != []
  {
    st.(scopes := st.scopes + [map[]])
  }

  function Closed(ghost st: State, inner: State): (r: State)
    requires st.scopes != [] && SameOuter(Opened(st), inner)
    ensures r == inner.(scopes := st.scopes) && SameOuter(st, r)
  {
    assert inner.scopes[..|inner.scopes| - 1] == Opened(st).scopes[..|st.scopes|] == st.scopes;
    inner.(scopes := inner.scopes[..|inner.scopes| - 1])
  }

  function Statement(fns: Functions, st: State, s: Stmt): (r: Result<(Stmt, State), Error>)
    requires st.scopes != []
    ensures r.Ok? ==> SameOuter(st, r.value.1)
    decreases s, 1
  {
    match s
    case VarDecl(x, init, _) =>
      var i :- Maybe(fns, st.scopes, init);
      var st1 :- DeclareSlot(st, x);
      Ok((VarDecl(x, i, st1.cur), st1))
    case ExprStmt(e) => var r :- Expression(fns, st.scopes, e); Ok((ExprStmt(r), st))
    case Return(e) => var r :- Maybe(fns, st.scopes, e); Ok((Return(r), st))
    case If(c, thn, els) =>
      var rc :- Expression(fns, st.scopes, c);
      var rt :- Statement(fns, st, thn);
      if els.None? then Ok((If(rc, rt.0, None), rt.1))
      else
        var re :- Statement(fns, rt.1, els.value);
        Ok((If(rc, rt.0, Some(re.0)), re.1))
    case While(c, body) =>
      var rc :- Expression(fns, st.scopes, c);
      var rb :- InLoop(fns, st, body);
      Ok((While(rc, rb.0), rb.1))
    case For(_, _, _, _) => ForStatement(fns, st, s)
    case Break => if st.loops == 0 then Err(BreakOutside) else Ok((s, st))
    case Continue => if st.loops == 0 then Err(ContinueOutside) else Ok((s, st))
    case Block(items) =>
      var rs :- Statements(fns, Opened(st), items);
      Ok((Block(rs.0), Closed(st, rs.1)))
    case Empty => Ok((s, st))
  }

  function InLoop(fns: Functions, st: State, body: Stmt): (r: Result<(Stmt, State), Error>)
    requires st.scopes != []
    ensures r.Ok? ==> SameOuter(st, r.value.1)
    decreases body, 2
  {
    var rb :- Statement(fns, st.(loops := st.loops + 1), body);
    Ok((rb.0, rb.1.(loops := rb.1.loops - 1)))
  }

  function ForStatement(fns: Functions, st: State, s: Stmt): (r: Result<(Stmt, State), Error>)
    requires st.scopes != [] && s.For?
    ensures r.Ok? ==> SameOuter(st, r.value.1)
    decreases s, 0
  {
    var ri :- ForInit(fns, Opened(st), s);
    var rc :- Maybe(fns, ri.1.scopes, s.fcond);
    var rp :- Maybe(fns, ri.1.scopes, s.fpost);
    var rb :- InLoop(fns, ri.1, s.fbody);
    Ok((For(ri.0, rc, rp, rb.0), Closed(st, rb.1)))
  }

  function ForInit(fns: Functions, st: State, s: Stmt): (r: Result<(Option<Stmt>, State), Error>)
    requires st.scopes != [] && s.For?
    ensures r.Ok? ==> SameOuter(st, r.value.1) && r.value.0.Some? == s.finit.Some?
    decreases s, -1
  {
    if s.finit.None? then Ok((None, st))
    else
      var i :- Statement(fns, st, s.finit.value);
      Ok((Some(i.0), i.1))
  }

  function Statements(fns: Functions, st: State, items: seq<Stmt>): (r: Result<(seq<Stmt>, State), Error>)
    requires st.scopes != []
    ensures r.Ok? ==> SameOuter(st, r.value.1) && |r.value.0| == |items|
    decreases items, 0
  {
    if items == [] then Ok(([], st))
    else
      var rs :- Statements(fns, st, items[..|items| - 1]);
      var r :- Statement(fns, rs.1, items[|items| - 1]);
      Ok((rs.0 + [r.0], r.1))
  }

  function Params(st: State, ps: seq<Param>): (r: Result<(seq<Param>, State), Error>)
    requires st.scopes != []
    ensures r.Ok? ==> SameOuter(st, r.value.1) && |r.value.0| == |ps|
  {
    if ps == [] then Ok(([], st))
    else
      var rs :- Params(st, ps[..|ps| - 1]);
      var st1 :- DeclareSlot(rs.1, ps[|ps| - 1].name);
      Ok((rs.0 + [Param(ps[|ps| - 1].name, st1.cur)], st1))
  }

  function RoundUp16(x: int): int { (x + 15) - (x + 15) % 16 }

  function FunctionDecl(fns: Functions, f: Function): (r: Result<Function, Error>)
    requires f.body.Some?
    ensures r.Ok? ==> r.value.name == f.name && |r.value.params| == |f.params| && r.value.body.Some?
  {
    var ps :- Params(State([map[]], 0, 0, 0), f.params);
    var b :- Statements(fns, ps.1, f.body.value);
    Ok(Function(f.name, ps.0, Some(b.0), RoundUp16(b.1.max)))
  }

  function Definitions(fns: Functions, p: Program): (r: Result<Program, Error>)
    ensures r.Ok? ==> |r.value| == |p|
  {
    if p == [] then Ok([])
    else
      var q :- Definitions(fns, p[..|p| - 1]);
      var last := p[|p| - 1];
      if last.body.None? then Ok(q + [last])
      else
        var f :- FunctionDecl(fns, last);
        Ok(q + [f])
  }

  function Resolve(p: Program): (r: Result<Program, Error>)
    ensures r.Ok? ==> |r.value| == |p|
  {
    var fns :- Collect(p);
    Definitions(fns, p)
  }

  // ----- errors end the pass where they are found -----

  lemma {:induction false} StatementsFail(fns: Functions, st: State, items: seq<Stmt>, k: nat)
    requires st.scopes != [] && k <= |items| && Statements(fns, st, items[..k]).Err?
    ensures Statements(fns, st, items) == Err(Statements(fns, st, items[..k]).error)
  {
    hide Statement;
    if k == |items| {
      assert items[..k] == items;
    } else {
      assert items[..|items| - 1][..k] == items[..k];
      StatementsFail(fns, st, items[..|items| - 1], k);
    }
  }

  lemma {:induction false} ArgumentsFail(fns: Functions, scopes: seq<Scope>, es: seq<Expr>, k: nat)
    requires k <= |es| && Arguments(fns, scopes, es[..k]).Err?
    ensures Arguments(fns, scopes, es) == Err(Arguments(fns, scopes, es[..k]).error)
  {
    hide Expression;
    if k == |es| {
      assert es[..k] == es;
    } else {
      assert es[..|es| - 1][..k] == es[..k];
      ArgumentsFail(fns, scopes, es[..|es| - 1], k);
    }
  }

  lemma {:induction false} ParamsFail(st: State, ps: seq<Param>, k: nat)
    requires st.scopes != [] && k <= |ps| && Params(st, ps[..k]).Err?
    ensures Params(st, ps) == Err(Params(st, ps[..k]).error)
  {
    if k == |ps| {
      assert ps[..k] == ps;
    } else {
      assert ps[..|ps| - 1][..k] == ps[..k];
      ParamsFail(st, ps[..|ps| - 1], k);
    }
  }

  lemma {:induction false} CollectFail(p: Program, k: nat)
    requires k <= |p| && Collect(p[..k]).Err?
    ensures Collect(p) == Err(Collect(p[..k]).error)
  {
    if k == |p| {
      assert p[..k] == p;
    } else {
      assert p[..|p| - 1][..k] == p[..k];
      CollectFail(p[..|p| - 1], k);
    }
  }

  lemma {:induction false} DefinitionsFail(fns: Functions, p: Program, k: nat)
    requires k <= |p| && Definitions(fns, p[..k]).Err?
    ensures Definitions(fns, p) == Err(Definitions(fns, p[..k]).error)
  {
    hide FunctionDecl;
    if k == |p| {
      assert p[..k] == p;
    } else {
      assert p[..|p| - 1][..k] == p[..k];
      DefinitionsFail(fns, p[..|p| - 1], k);
    }
  }

  /** The result of a method that resolved `s` and is now in state `now`. */
  ghost predicate Did<T>(want: Result<(T, State), Error>, got: Result<T, Error>, now: State) {
    match want
    case Ok(r) => got == Ok(r.0) && now == r.1
    case Err(e) => got == Err(e)
  }

  /** The pass itself. Its fields are the working state; an error result stands
      for the exception the pass throws, after which it is not used again. */
  class Resolver {
    var functions: Functions
    var scopes: seq<Scope>
    var currentOffset: int
    var maxOffsetMagnitude: int
    var loopDepth: int

    constructor ()
      ensures functions == map[] && scopes == [] && loopDepth == 0
    {
      functions, scopes := map[], [];
      currentOffset, maxOffsetMagnitude, loopDepth := 0, 0, 0;
    }

    ghost function Now(): State
      reads this
    {
      State(scopes, currentOffset, maxOffsetMagnitude, loopDepth)
    }

    method CollectSignatures(p: Program) returns (r: Result<(), Error>)
      requires functions == map[]
      modifies this`functions
      ensures match Collect(p) case Ok(fns) => r == Ok(()) && functions == fns case Err(e) => r == Err(e)
    {
      var i := 0;
      while i < |p|
        invariant 0 <= i <= |p| && Collect(p[..i]) == Ok(functions)
      {
        assert p[..i + 1][..i] == p[..i];
        var f := p[i];
        ghost var step := AddSignature(functions, f);
        if |f.params| > MAX_PARAMS {
          CollectFail(p, i + 1);
          return Err(TooManyParams(f.name));
        }
        if f.name !in functions {
          functions := functions[f.name := FuncInfo(|f.params|, f.body.Some?)];
        } else {
          var known := functions[f.name];
          if known.arity != |f.params| {
            CollectFail(p, i + 1);
            return Err(ConflictingArity(f.name));
          }
          if known.hasBody && f.body.Some? {
            CollectFail(p, i + 1);
            return Err(Redefinition(f.name));
          }
          functions := functions[f.name := known.(hasBody := known.hasBody || f.body.Some?)];
        }
        i := i + 1;
      }
      assert p[..i] == p;
      r := Ok(());
    }

    method DeclareVariable(x: string) returns (r: Result<int, Error>)
      requires scopes != []
      modifies this`scopes, this`currentOffset, this`maxOffsetMagnitude
      ensures match DeclareSlot(old(Now()), x) case Ok(st) => r == Ok(st.cur) && Now() == st case Err(e) => r == Err(e)
    {
      var top := |scopes| - 1;
      if x in scopes[top] {
        return Err(Redeclaration(x));
      }
      currentOffset := currentOffset - 8;
      if -currentOffset > maxOffsetMagnitude {
        maxOffsetMagnitude := -currentOffset;
      }
      scopes := scopes[top := scopes[top][x := currentOffset]];
      r := Ok(currentOffset);
    }

    /** From the innermost scope outwards. */
    method LookupVariable(x: string) returns (r: Result<int, Error>)
      ensures r == Lookup(scopes, x)
    {
      var i := |scopes|;
      assert scopes[..i] == scopes;
      while i > 0
        invariant 0 <= i <= |scopes| && Lookup(scopes, x) == Lookup(scopes[..i], x)
      {
        assert scopes[..i][..i - 1] == scopes[..i - 1];
        if x in scopes[i - 1] {
          return Ok(scopes[i - 1][x]);
        }
        i := i - 1;
      }
      r := Err(Undeclared(x));
    }

    method ResolveExpr(e: Expr) returns (r: Result<Expr, Error>)
      ensures r == Expression(functions, scopes, e)
      decreases e, 1
    {
      match e {
        case IntLit(_) => r := Ok(e);
        case VarRef(x, _) =>
          var s :- LookupVariable(x);
          r := Ok(VarRef(x, s));
        case Assign(x, e1, _) =>
          var s :- LookupVariable(x);
          var r1 :- ResolveExpr(e1);
          r := Ok(Assign(x, r1, s));
        case Unary(op, e1) =>
          var r1 :- ResolveExpr(e1);
          r := Ok(Unary(op, r1));
        case Binary(op, e1, e2) =>
          var r1 :- ResolveExpr(e1);
          var r2 :- ResolveExpr(e2);
          r := Ok(Binary(op, r1, r2));
        case Logical(op, e1, e2) =>
          var r1 :- ResolveExpr(e1);
          var r2 :- ResolveExpr(e2);
          r := Ok(Logical(op, r1, r2));
        case Call(f, args) =>
          if f !in functions {
            return Err(UndeclaredFunction(f));
          }
          if functions[f].arity != |args| {
            return Err(WrongArgCount(f));
          }
          var rs :- ResolveArgs(args);
          r := Ok(Call(f, rs));
      }
    }

    method ResolveArgs(args: seq<Expr>) returns (r: Result<seq<Expr>, Error>)
      ensures r == Arguments(functions, scopes, args)
      decreases args, 0
    {
      var done: seq<Expr> := [];
      var i := 0;
      while i < |args|
        invariant 0 <= i <= |args| && Arguments(functions, scopes, args[..i]) == Ok(done)
      {
        assert args[..i + 1][..i] == args[..i];
        var one := ResolveExpr(args[i]);
        if one.Err? {
          ArgumentsFail(functions, scopes, args, i + 1);
          return Err(one.error);
        }
        done := done + [one.value];
        i := i + 1;
      }
      assert args[..i] == args;
      r := Ok(done);
    }

    method ResolveMaybe(e: Option<Expr>) returns (r: Result<Option<Expr>, Error>)
      ensures r == Maybe(functions, scopes, e)
    {
      if e.None? {
        return Ok(None);
      }
      var one :- ResolveExpr(e.value);
      r := Ok(Some(one));
    }

    method ResolveStmt(s: Stmt) returns (r: Result<Stmt, Error>)
      requires scopes != []
      modifies this`scopes, this`currentOffset, this`maxOffsetMagnitude, this`loopDepth
      ensures Did(Statement(functions, old(Now()), s), r, Now())
      decreases s, 1
    {
      hide Expression;
      match s {
        case VarDecl(x, init, _) =>
          var i :- ResolveMaybe(init);
          var slot :- DeclareVariable(x);
          r := Ok(VarDecl(x, i, slot));
        case ExprStmt(e) =>
          var e1 :- ResolveExpr(e);
          r := Ok(ExprStmt(e1));
        case Return(e) =>
          var e1 :- ResolveMaybe(e);
          r := Ok(Return(e1));
        case If(c, thn, els) =>
          var rc :- ResolveExpr(c);
          var rt :- ResolveStmt(thn);
          if els.Some? {
            var re :- ResolveStmt(els.value);
            r := Ok(If(rc, rt, Some(re)));
          } else {
            r := Ok(If(rc, rt, None));
          }
        case While(c, body) =>
          var rc :- ResolveExpr(c);
          var rb :- ResolveLoopBody(body);
          r := Ok(While(rc, rb));
        case For(_, _, _, _) => r := ResolveFor(s);
        case Break =>
          r := if loopDepth == 0 then Err(BreakOutside) else Ok(s);
        case Continue =>
          r := if loopDepth == 0 then Err(ContinueOutside) else Ok(s);
        case Block(items) =>
          scopes := scopes + [map[]];
          var rs :- ResolveItems(items);
          scopes := scopes[..|scopes| - 1];
          r := Ok(Block(rs));
        case Empty => r := Ok(s);
      }
    }

    method ResolveLoopBody(body: Stmt) returns (r: Result<Stmt, Error>)
      requires scopes != []
      modifies this`scopes, this`currentOffset, this`maxOffsetMagnitude, this`loopDepth
      ensures Did(InLoop(functions, old(Now()), body), r, Now())
      decreases body, 2
    {
      loopDepth := loopDepth + 1;
      var rb :- ResolveStmt(body);
      loopDepth := loopDepth - 1;
      r := Ok(rb);
    }

    method ResolveFor(s: Stmt) returns (r: Result<Stmt, Error>)
      requires scopes != [] && s.For?
      modifies this`scopes, this`currentOffset, this`maxOffsetMagnitude, this`loopDepth
      ensures Did(ForStatement(functions, old(Now()), s), r, Now())
      decreases s, 0
    {
      hide Expression, Statement;
      scopes := scopes + [map[]];
      var init: Option<Stmt> := None;
      if s.finit.Some? {
        var i :- ResolveStmt(s.finit.value);
        init := Some(i);
      }
      var c :- ResolveMaybe(s.fcond);
      var post :- ResolveMaybe(s.fpost);
      var body :- ResolveLoopBody(s.fbody);
      scopes := scopes[..|scopes| - 1];
      r := Ok(For(init, c, post, body));
    }

    method ResolveItems(items: seq<Stmt>) returns (r: Result<seq<Stmt>, Error>)
      requires scopes != []
      modifies this`scopes, this`currentOffset, this`maxOffsetMagnitude, this`loopDepth
      ensures Did(Statements(functions, old(Now()), items), r, Now())
      decreases items, 0
    {
      hide Statement, SameOuter;
      var done: seq<Stmt> := [];
      var i := 0;
      while i < |items|
        invariant 0 <= i <= |items| && scopes != []
        invariant Statements(functions, old(Now()), items[..i]) == Ok((done, Now()))
      {
        assert items[..i + 1][..i] == items[..i];
        StillScoped(functions, Now(), items[i]);
        var one := ResolveStmt(items[i]);
        if one.Err? {
          StatementsFail(functions, old(Now()), items, i + 1);
          return Err(one.error);
        }
        done := done + [one.value];
        i := i + 1;
      }
      assert items[..i] == items;
      r := Ok(done);
    }

    /** A prototype keeps its tree; a definition gets its slots and frame size. */
    method ResolveFunction(f: Function) returns (r: Result<Function, Error>)
      requires f.body.Some? && loopDepth == 0
      modifies this`scopes, this`currentOffset, this`maxOffsetMagnitude, this`loopDepth
      ensures r == FunctionDecl(functions, f)
      ensures r.Ok? ==> loopDepth == 0
    {
      scopes, currentOffset, maxOffsetMagnitude := [map[]], 0, 0;
      var ps :- ResolveParams(f.params);
      StillScopedItems(functions, Now(), f.body.value);
      var items :- ResolveItems(f.body.value);
      r := Ok(Function(f.name, ps, Some(items), RoundUp16(maxOffsetMagnitude)));
    }

    method ResolveParams(ps: seq<Param>) returns (r: Result<seq<Param>, Error>)
      requires scopes != []
      modifies this`scopes, this`currentOffset, this`maxOffsetMagnitude
      ensures Did(Params(old(Now()), ps), r, Now()) && (r.Ok? ==> scopes != []) && loopDepth == old(loopDepth)
    {
      var done: seq<Param> := [];
      var i := 0;
      while i < |ps|
        invariant 0 <= i <= |ps| && scopes != []
        invariant Params(old(Now()), ps[..i]) == Ok((done, Now()))
      {
        assert ps[..i + 1][..i] == ps[..i];
        var slot := DeclareVariable(ps[i].name);
        if slot.Err? {
          ParamsFail(old(Now()), ps, i + 1);
          return Err(slot.error);
        }
        done := done + [Param(ps[i].name, slot.value)];
        i := i + 1;
      }
      assert ps[..i] == ps;
      r := Ok(done);
    }

    method Run(p: Program) returns (r: Result<Program, Error>)
      requires functions == map[] && loopDepth == 0
      modifies this
      ensures r == Resolve(p)
    {
      hide FunctionDecl, Collect;
      var c := CollectSignatures(p);
      if c.Err? {
        return Err(c.error);
      }
      var done: Program := [];
      var i := 0;
      while i < |p|
        invariant 0 <= i <= |p| && loopDepth == 0 && Collect(p) == Ok(functions)
        invariant Definitions(functions, p[..i]) == Ok(done)
      {
        assert p[..i + 1][..i] == p[..i];
        if p[i].body.Some? {
          var f := ResolveFunction(p[i]);
          if f.Err? {
            DefinitionsFail(functions, p, i + 1);
            return Err(f.error);
          }
          done := done + [f.value];
        } else {
          done := done + [p[i]];
        }
        i := i + 1;
      }
      assert p[..i] == p;
      r := Ok(done);
    }
  }

  lemma StillScoped(fns: Functions, st: State, s: Stmt)
    requires st.scopes != []
    ensures Statement(fns, st, s).Ok? ==> Statement(fns, st, s).value.1.scopes != []
  {
  }

  lemma StillScopedItems(fns: Functions, st: State, items: seq<Stmt>)
    requires st.scopes != []
    ensures Statements(fns, st, items).Ok? ==> Statements(fns, st, items).value.1.loops == st.loops
  {
  }
}
