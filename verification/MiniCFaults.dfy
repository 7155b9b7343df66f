/** Every error the resolver reports is one the program has. */
module MiniCFaults {
  import opened Wrappers
  import opened MiniCAst
  import opened MiniCResolver
  import opened MiniCLegal

  // ----- errors of a tree -----

  /** Where these names are seen, the expression has this error. */
  ghost predicate FaultExpr(p: Program, seen: set<string>, e: Expr, err: Error) {
    match e
    case IntLit(_) => false
    case VarRef(x, _) => x !in seen && err == Undeclared(x)
    case Assign(x, e1, _) => (x !in seen && err == Undeclared(x)) || FaultExpr(p, seen, e1, err)
    case Unary(_, e1) => FaultExpr(p, seen, e1, err)
    case Binary(_, e1, e2) => FaultExpr(p, seen, e1, err) || FaultExpr(p, seen, e2, err)
    case Logical(_, e1, e2) => FaultExpr(p, seen, e1, err) || FaultExpr(p, seen, e2, err)
    case Call(f, args) =>
      || (err == UndeclaredFunction(f) && forall n: nat :: !Takes(p, f, n))
      || (err == WrongArgCount(f) && !Takes(p, f, |args|) && exists n: nat :: Takes(p, f, n))
      || exists i :: 0 <= i < |args| && FaultExpr(p, seen, args[i], err)
  }

  ghost predicate FaultMaybe(p: Program, seen: set<string>, e: Option<Expr>, err: Error) {
    e.Some? && FaultExpr(p, seen, e.value, err)
  }

  /** The same for a statement, with the names of the blocks around it and of its own. */
  ghost predicate FaultStmt(p: Program, outer: set<string>, here: set<string>, inLoop: bool, s: Stmt, err: Error)
    decreases s
  {
    match s
    case VarDecl(x, init, _) => FaultMaybe(p, outer + here, init, err) || (x in here && err == Redeclaration(x))
    case ExprStmt(e) => FaultExpr(p, outer + here, e, err)
    case Return(e) => FaultMaybe(p, outer + here, e, err)
    case Block(items) =>
      exists i :: 0 <= i < |items| && FaultStmt(p, outer + here, DeclaredBy(items[..i]), inLoop, items[i], err)
    case If(c, thn, els) =>
      || FaultExpr(p, outer + here, c, err) || FaultStmt(p, outer, here, inLoop, thn, err)
      || (els.Some? && FaultStmt(p, outer, here + Declares(thn), inLoop, els.value, err))
    case While(c, body) => FaultExpr(p, outer + here, c, err) || FaultStmt(p, outer, here, true, body, err)
    case For(init, c, post, body) =>
      var first := if init.Some? then Declares(init.value) else {};
      || (init.Some? && FaultStmt(p, outer + here, {}, inLoop, init.value, err))
      || FaultMaybe(p, outer + here + first, c, err) || FaultMaybe(p, outer + here + first, post, err)
      || FaultStmt(p, outer + here, first, true, body, err)
    case Break => !inLoop && err == BreakOutside
    case Continue => !inLoop && err == ContinueOutside
    case Empty => false
  }

  ghost predicate FaultItems(p: Program, outer: set<string>, here: set<string>, inLoop: bool, items: seq<Stmt>, err: Error) {
    exists i :: 0 <= i < |items| && FaultStmt(p, outer, here + DeclaredBy(items[..i]), inLoop, items[i], err)
  }

  /** Two parameters have this name, or the body has the error. */
  ghost predicate FaultFunction(p: Program, f: Function, err: Error) {
    || (err.Redeclaration? && exists i, j :: 0 <= i < j < |f.params| && f.params[i].name == f.params[j].name == err.name)
    || (f.body.Some? && FaultItems(p, {}, Parameters(f.params), false, f.body.value, err))
  }

  ghost predicate FaultHeads(p: Program, err: Error) {
    match err
    case TooManyParams(f) => exists i :: 0 <= i < |p| && p[i].name == f && |p[i].params| > 6
    case ConflictingArity(f) => exists n: nat, k: nat :: Takes(p, f, n) && Takes(p, f, k) && n != k
    case Redefinition(f) =>
      exists i, j :: 0 <= i < j < |p| && p[i].name == f && p[j].name == f && p[i].body.Some? && p[j].body.Some?
    case _ => false
  }

  ghost predicate Fault(p: Program, err: Error) {
    FaultHeads(p, err) || exists i :: 0 <= i < |p| && p[i].body.Some? && FaultFunction(p, p[i], err)
  }

  // ----- signatures -----

  lemma {:induction false} HeadsFault(p: Program)
    requires Collect(p).Err?
    ensures FaultHeads(p, Collect(p).error)
  {
    var q, last := p[..|p| - 1], p[|p| - 1];
    assert q + [last] == p;
    CollectExactly(q);
    if Collect(q).Err? {
      HeadsFault(q);
      MoreHeads(q, last, Collect(q).error);
    } else {
      LastFault(Collect(q).value, q, last);
    }
  }

  lemma MoreHeads(q: Program, last: Function, err: Error)
    requires FaultHeads(q, err)
    ensures FaultHeads(q + [last], err)
  {
    hide Takes;
    var p := q + [last];
    assert forall i :: 0 <= i < |q| ==> p[i] == q[i];
    match err
    case ConflictingArity(f) =>
      var n: nat, k: nat :| Takes(q, f, n) && Takes(q, f, k) && n != k;
      TakesMore(q, last, f, n);
      TakesMore(q, last, f, k);
    case _ =>
  }

  lemma LastFault(fns: Functions, q: Program, last: Function)
    requires Knows(fns, q) && AddSignature(fns, last).Err?
    ensures FaultHeads(q + [last], AddSignature(fns, last).error)
  {
    hide Takes, Bodied;
    var p, f := q + [last], last.name;
    assert p[|q|] == last && forall i :: 0 <= i < |q| ==> p[i] == q[i];
    if |last.params| <= 6 {
      TakesMore(q, last, f, fns[f].arity);
      TakesMore(q, last, f, |last.params|);
      if fns[f].arity == |last.params| {
        BodyBefore(q, f);
      }
    }
  }

  lemma BodyBefore(q: Program, f: string)
    requires Bodied(q, f)
    ensures exists i :: 0 <= i < |q| && q[i].name == f && q[i].body.Some?
  {
  }

  // ----- expressions -----

  lemma {:induction false} ExprFault(p: Program, fns: Functions, scopes: seq<Scope>, e: Expr)
    requires Knows(fns, p) && Expression(fns, scopes, e).Err?
    ensures FaultExpr(p, Names(scopes), e, Expression(fns, scopes, e).error)
    decreases e, 1
  {
    hide Names, Lookup, Takes, Bodied;
    match e
    case VarRef(x, _) => LookupFault(scopes, x);
    case Assign(x, e1, _) =>
      LookupFault(scopes, x);
      if Lookup(scopes, x).Ok? {
        ExprFault(p, fns, scopes, e1);
      }
    case Unary(_, e1) => ExprFault(p, fns, scopes, e1);
    case Binary(_, e1, e2) => TwoFault(p, fns, scopes, e, e1, e2);
    case Logical(_, e1, e2) => TwoFault(p, fns, scopes, e, e1, e2);
    case Call(f, args) =>
      if f !in fns {
        assert forall n: nat :: !Takes(p, f, n);
      } else if fns[f].arity != |args| {
        assert Takes(p, f, fns[f].arity) && !Takes(p, f, |args|);
      } else {
        ArgsFault(p, fns, scopes, args);
      }
  }

  lemma {:induction false} TwoFault(p: Program, fns: Functions, scopes: seq<Scope>, e: Expr, e1: Expr, e2: Expr)
    requires Knows(fns, p) && ((e.Binary? && e1 == e.lhs && e2 == e.right) || (e.Logical? && e1 == e.left && e2 == e.second))
    requires Expression(fns, scopes, e).Err?
    ensures var err := Expression(fns, scopes, e).error;
      FaultExpr(p, Names(scopes), e1, err) || FaultExpr(p, Names(scopes), e2, err)
    decreases e, 0
  {
    hide Names, FaultExpr;
    if Expression(fns, scopes, e1).Err? {
      ExprFault(p, fns, scopes, e1);
    } else {
      ExprFault(p, fns, scopes, e2);
    }
  }

  lemma {:induction false} LookupFault(scopes: seq<Scope>, x: string)
    ensures Lookup(scopes, x).Err? ==> Lookup(scopes, x).error == Undeclared(x) && x !in Names(scopes)
  {
    if scopes != [] {
      LookupFault(scopes[..|scopes| - 1], x);
    }
  }

  lemma {:induction false} ArgsFault(p: Program, fns: Functions, scopes: seq<Scope>, es: seq<Expr>)
    requires Knows(fns, p) && Arguments(fns, scopes, es).Err?
    ensures exists i :: 0 <= i < |es| && FaultExpr(p, Names(scopes), es[i], Arguments(fns, scopes, es).error)
    decreases es, 0
  {
    hide Names, Expression, FaultExpr;
    var n := |es| - 1;
    if Arguments(fns, scopes, es[..n]).Err? {
      ArgsFault(p, fns, scopes, es[..n]);
      var i :| 0 <= i < n && FaultExpr(p, Names(scopes), es[..n][i], Arguments(fns, scopes, es[..n]).error);
      assert es[..n][i] == es[i];
    } else {
      ExprFault(p, fns, scopes, es[n]);
    }
  }

  lemma MaybeFault(p: Program, fns: Functions, scopes: seq<Scope>, e: Option<Expr>)
    requires Knows(fns, p) && Maybe(fns, scopes, e).Err?
    ensures FaultMaybe(p, Names(scopes), e, Maybe(fns, scopes, e).error)
  {
    hide Names, Expression, FaultExpr;
    ExprFault(p, fns, scopes, e.value);
  }

  // ----- statements -----

  lemma {:induction false} StmtFault(p: Program, fns: Functions, st: State, s: Stmt, outer: set<string>, here: set<string>, inLoop: bool)
    requires Knows(fns, p) && Sees(st, outer, here, inLoop) && st.scopes != [] && Statement(fns, st, s).Err?
    ensures FaultStmt(p, outer, here, inLoop, s, Statement(fns, st, s).error)
    decreases s, 1
  {
    hide Knows, Names, Expression, FaultExpr, Maybe, FaultMaybe, DeclareSlot, Sees;
    SeesNames(st, outer, here, inLoop);
    SeesLoops(st, outer, here, inLoop);
    match s
    case VarDecl(x, init, _) =>
      if Maybe(fns, st.scopes, init).Err? {
        MaybeFault(p, fns, st.scopes, init);
      } else {
        DeclareFault(st, x, outer, here, inLoop);
      }
    case ExprStmt(e) => ExprFault(p, fns, st.scopes, e);
    case Return(e) => MaybeFault(p, fns, st.scopes, e);
    case If(c, thn, els) => IfFault(p, fns, st, s, outer, here, inLoop);
    case While(c, body) =>
      if Expression(fns, st.scopes, c).Err? {
        ExprFault(p, fns, st.scopes, c);
      } else {
        LoopFault(p, fns, st, body, outer, here, inLoop);
      }
    case For(_, _, _, _) => ForFault(p, fns, st, s, outer, here, inLoop);
    case Break =>
    case Continue =>
    case Block(items) =>
      ItemsFault(p, fns, Opened(st), items, outer + here, {}, inLoop);
      BlockFault(p, outer, here, inLoop, items, Statement(fns, st, s).error);
  }

  lemma DeclareFault(st: State, x: string, outer: set<string>, here: set<string>, inLoop: bool)
    requires Sees(st, outer, here, inLoop) && DeclareSlot(st, x).Err?
    ensures x in here && DeclareSlot(st, x).error == Redeclaration(x)
  {
  }

  lemma BlockFault(p: Program, outer: set<string>, here: set<string>, inLoop: bool, items: seq<Stmt>, err: Error)
    requires FaultItems(p, outer + here, {}, inLoop, items, err)
    ensures FaultStmt(p, outer, here, inLoop, Block(items), err)
  {
    var i :| 0 <= i < |items| && FaultStmt(p, outer + here, {} + DeclaredBy(items[..i]), inLoop, items[i], err);
    assert {} + DeclaredBy(items[..i]) == DeclaredBy(items[..i]);
  }

  lemma {:induction false} IfFault(p: Program, fns: Functions, st: State, s: Stmt, outer: set<string>, here: set<string>, inLoop: bool)
    requires Knows(fns, p) && Sees(st, outer, here, inLoop) && st.scopes != [] && s.If? && Statement(fns, st, s).Err?
    ensures FaultStmt(p, outer, here, inLoop, s, Statement(fns, st, s).error)
    decreases s, 0
  {
    hide Knows, Names, Expression, FaultExpr, Sees;
    SeesNames(st, outer, here, inLoop);
    if Expression(fns, st.scopes, s.cond).Err? {
      ExprFault(p, fns, st.scopes, s.cond);
    } else if Statement(fns, st, s.thn).Err? {
      StmtFault(p, fns, st, s.thn, outer, here, inLoop);
    } else {
      StmtLegal(p, fns, st, s.thn, outer, here, inLoop);
      StmtFault(p, fns, Statement(fns, st, s.thn).value.1, s.els.value, outer, here + Declares(s.thn), inLoop);
    }
  }

  lemma {:induction false} LoopFault(p: Program, fns: Functions, st: State, body: Stmt, outer: set<string>, here: set<string>, inLoop: bool)
    requires Knows(fns, p) && Sees(st, outer, here, inLoop) && st.scopes != [] && InLoop(fns, st, body).Err?
    ensures FaultStmt(p, outer, here, true, body, InLoop(fns, st, body).error)
    decreases body, 2
  {
    hide Knows, Names, Statement, FaultStmt;
    SeesNames(st, outer, here, inLoop);
    StmtFault(p, fns, st.(loops := st.loops + 1), body, outer, here, true);
  }

  lemma {:induction false} ForFault(p: Program, fns: Functions, st: State, s: Stmt, outer: set<string>, here: set<string>, inLoop: bool)
    requires Knows(fns, p) && Sees(st, outer, here, inLoop) && st.scopes != [] && s.For? && ForStatement(fns, st, s).Err?
    ensures FaultStmt(p, outer, here, inLoop, s, ForStatement(fns, st, s).error)
    decreases s, 0
  {
    hide Knows, Names, Maybe, FaultMaybe, Statement, Declares, Sees, InLoop;
    SeesNames(st, outer, here, inLoop);
    var o := outer + here;
    var first := if s.finit.Some? then Declares(s.finit.value) else {};
    var ri := ForInit(fns, Opened(st), s);
    if ri.Err? {
      StmtFault(p, fns, Opened(st), s.finit.value, o, {}, inLoop);
    } else {
      var st1 := ri.value.1;
      if s.finit.Some? {
        StmtLegal(p, fns, Opened(st), s.finit.value, o, {}, inLoop);
        assert {} + first == first;
      }
      SeesNames(st1, o, first, inLoop);
      if Maybe(fns, st1.scopes, s.fcond).Err? {
        MaybeFault(p, fns, st1.scopes, s.fcond);
      } else if Maybe(fns, st1.scopes, s.fpost).Err? {
        MaybeFault(p, fns, st1.scopes, s.fpost);
      } else {
        LoopFault(p, fns, st1, s.fbody, o, first, inLoop);
      }
    }
  }

  lemma {:induction false} ItemsFault(p: Program, fns: Functions, st: State, items: seq<Stmt>, outer: set<string>, here: set<string>, inLoop: bool)
    requires Knows(fns, p) && Sees(st, outer, here, inLoop) && st.scopes != [] && Statements(fns, st, items).Err?
    ensures FaultItems(p, outer, here, inLoop, items, Statements(fns, st, items).error)
    decreases items, 0
  {
    hide Knows, Names, Statement, FaultStmt, Declares, DeclaredBy, Sees;
    var n := |items| - 1;
    if Statements(fns, st, items[..n]).Err? {
      ItemsFault(p, fns, st, items[..n], outer, here, inLoop);
      var err := Statements(fns, st, items).error;
      var i :| 0 <= i < n && FaultStmt(p, outer, here + DeclaredBy(items[..n][..i]), inLoop, items[..n][i], err);
      assert items[..n][i] == items[i] && items[..n][..i] == items[..i];
    } else {
      ItemsLegal(p, fns, st, items[..n], outer, here, inLoop);
      StmtFault(p, fns, Statements(fns, st, items[..n]).value.1, items[n], outer, here + DeclaredBy(items[..n]), inLoop);
    }
  }

  // ----- functions and programs -----

  lemma {:induction false} ParamsFault(st: State, ps: seq<Param>)
    requires Sees(st, {}, {}, false) && st.scopes != [] && Params(st, ps).Err?
    ensures var err := Params(st, ps).error;
      err.Redeclaration? && exists i, j :: 0 <= i < j < |ps| && ps[i].name == ps[j].name == err.name
  {
    hide Sees, DeclareSlot;
    var n := |ps| - 1;
    if Params(st, ps[..n]).Err? {
      ParamsFault(st, ps[..n]);
      var err := Params(st, ps).error;
      var i, j :| 0 <= i < j < n && ps[..n][i].name == ps[..n][j].name == err.name;
      assert ps[i] == ps[..n][i] && ps[j] == ps[..n][j];
    } else {
      ParamsLegal(st, ps[..n]);
      DeclareFault(Params(st, ps[..n]).value.1, ps[n].name, {}, Parameters(ps[..n]), false);
      var i :| 0 <= i < n && ps[..n][i].name == ps[n].name;
      assert ps[i] == ps[..n][i];
    }
  }

  lemma FunctionFault(p: Program, fns: Functions, f: Function)
    requires Knows(fns, p) && f.body.Some? && FunctionDecl(fns, f).Err?
    ensures FaultFunction(p, f, FunctionDecl(fns, f).error)
  {
    hide Knows, Statements, Params, Sees, Parameters, FaultItems;
    var st := State([map[]], 0, 0, 0);
    FirstSees(st);
    if Params(st, f.params).Err? {
      ParamsFault(st, f.params);
    } else {
      ParamsLegal(st, f.params);
      ItemsFault(p, fns, Params(st, f.params).value.1, f.body.value, {}, Parameters(f.params), false);
    }
  }

  lemma {:induction false} DefinitionsFault(p: Program, fns: Functions, q: Program)
    requires Knows(fns, p) && Definitions(fns, q).Err?
    ensures exists i :: 0 <= i < |q| && q[i].body.Some? && FaultFunction(p, q[i], Definitions(fns, q).error)
    decreases |q|
  {
    hide Knows, FunctionDecl, FaultFunction;
    var n := |q| - 1;
    if Definitions(fns, q[..n]).Err? {
      DefinitionsFault(p, fns, q[..n]);
      var i :| 0 <= i < n && q[..n][i].body.Some? && FaultFunction(p, q[..n][i], Definitions(fns, q[..n]).error);
      assert q[..n][i] == q[i];
    } else {
      FunctionFault(p, fns, q[n]);
    }
  }

  /** A program is only refused for an error it has. */
  lemma ErrorMeans(p: Program)
    ensures Resolve(p).Err? ==> Fault(p, Resolve(p).error)
  {
    hide Collect, Definitions, FaultHeads, FaultFunction, Knows;
    CollectExactly(p);
    if Collect(p).Err? {
      HeadsFault(p);
    } else if Resolve(p).Err? {
      DefinitionsFault(p, Collect(p).value, p);
    }
  }
}
