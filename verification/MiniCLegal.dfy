/** Which programs are accepted, said of the tree and of sets of names. */
module MiniCLegal {
  import opened Wrappers
  import opened MiniCAst
  import opened MiniCResolver

  // ----- legal programs -----

  /** Some declaration of f takes n parameters. */
  predicate Takes(p: Program, f: string, n: nat) {
    exists i :: 0 <= i < |p| && p[i].name == f && |p[i].params| == n
  }

  /** Every variable is in sight, every call fits a declaration. */
  predicate LegalExpr(p: Program, seen: set<string>, e: Expr) {
    match e
    case IntLit(_) => true
    case VarRef(x, _) => x in seen
    case Assign(x, e1, _) => x in seen && LegalExpr(p, seen, e1)
    case Unary(_, e1) => LegalExpr(p, seen, e1)
    case Binary(_, e1, e2) => LegalExpr(p, seen, e1) && LegalExpr(p, seen, e2)
    case Logical(_, e1, e2) => LegalExpr(p, seen, e1) && LegalExpr(p, seen, e2)
    case Call(f, args) => Takes(p, f, |args|) && forall i :: 0 <= i < |args| ==> LegalExpr(p, seen, args[i])
  }

  predicate LegalMaybe(p: Program, seen: set<string>, e: Option<Expr>) { e.Some? ==> LegalExpr(p, seen, e.value) }

  /** The names a statement declares in the block it stands in. */
  function Declares(s: Stmt): set<string> {
    match s
    case VarDecl(x, _, _) => {x}
    case If(_, thn, els) => Declares(thn) + if els.Some? then Declares(els.value) else {}
    case While(_, body) => Declares(body)
    case _ => {}
  }

  function DeclaredBy(items: seq<Stmt>): set<string> {
    if items == [] then {} else DeclaredBy(items[..|items| - 1]) + Declares(items[|items| - 1])
  }

  /** `outer` are the names of the blocks around, `here` those already declared in
      this block. A name may hide one of `outer`, not one of `here`. */
  predicate LegalStmt(p: Program, outer: set<string>, here: set<string>, inLoop: bool, s: Stmt)
    decreases s
  {
    match s
    case VarDecl(x, init, _) => LegalMaybe(p, outer + here, init) && x !in here
    case ExprStmt(e) => LegalExpr(p, outer + here, e)
    case Return(e) => LegalMaybe(p, outer + here, e)
    case Block(items) =>
      forall i :: 0 <= i < |items| ==> LegalStmt(p, outer + here, DeclaredBy(items[..i]), inLoop, items[i])
    case If(c, thn, els) =>
      && LegalExpr(p, outer + here, c) && LegalStmt(p, outer, here, inLoop, thn)
      && (els.Some? ==> LegalStmt(p, outer, here + Declares(thn), inLoop, els.value))
    case While(c, body) => LegalExpr(p, outer + here, c) && LegalStmt(p, outer, here, true, body)
    case For(init, c, post, body) =>
      var first := if init.Some? then Declares(init.value) else {};
      && (init.Some? ==> LegalStmt(p, outer + here, {}, inLoop, init.value))
      && LegalMaybe(p, outer + here + first, c) && LegalMaybe(p, outer + here + first, post)
      && LegalStmt(p, outer + here, first, true, body)
    case Break => inLoop
    case Continue => inLoop
    case Empty => true
  }

  /** Parameters have different names; the body is a block they belong to. */
  predicate LegalFunction(p: Program, f: Function) {
    && (forall i, j :: 0 <= i < j < |f.params| ==> f.params[i].name != f.params[j].name)
    && (f.body.Some? ==> forall i :: 0 <= i < |f.body.value| ==>
          LegalStmt(p, {}, Parameters(f.params) + DeclaredBy(f.body.value[..i]), false, f.body.value[i]))
  }

  function Parameters(ps: seq<Param>): set<string> { set i | 0 <= i < |ps| :: ps[i].name }

  /** Six parameters at most, declarations of a name agree, and one body a name. */
  predicate LegalHeads(p: Program) {
    && (forall i :: 0 <= i < |p| ==> |p[i].params| <= 6)
    && (forall i, j :: 0 <= i < j < |p| && p[i].name == p[j].name ==>
          |p[i].params| == |p[j].params| && !(p[i].body.Some? && p[j].body.Some?))
  }

  predicate Legal(p: Program) {
    LegalHeads(p) && forall i :: 0 <= i < |p| && p[i].body.Some? ==> LegalFunction(p, p[i])
  }

  // ----- signatures -----

  /** The table knows exactly the declared functions. */
  ghost predicate Knows(fns: Functions, p: Program) {
    && (forall f, n: nat :: f in fns && fns[f].arity == n <==> Takes(p, f, n))
    && (forall f :: f in fns && fns[f].hasBody <==> Bodied(p, f))
  }

  lemma {:induction false} CollectExactly(p: Program)
    ensures Collect(p).Ok? <==> LegalHeads(p)
    ensures Collect(p).Ok? ==> Knows(Collect(p).value, p)
  {
    if p != [] {
      var q, last := p[..|p| - 1], p[|p| - 1];
      CollectExactly(q);
      if Collect(q).Ok? {
        HeadsMore(Collect(q).value, q, last);
        assert q + [last] == p;
      }
    }
  }

  ghost predicate Bodied(p: Program, f: string) { exists i :: 0 <= i < |p| && p[i].name == f && p[i].body.Some? }

  lemma TakesMore(q: Program, last: Function, f: string, n: nat)
    ensures Takes(q + [last], f, n) <==> Takes(q, f, n) || (f == last.name && n == |last.params|)
  {
    var p := q + [last];
    if Takes(q, f, n) {
      var i :| 0 <= i < |q| && q[i].name == f && |q[i].params| == n;
      assert p[i] == q[i];
    }
    assert p[|q|] == last;
  }

  lemma BodiedMore(q: Program, last: Function, f: string)
    ensures Bodied(q + [last], f) <==> Bodied(q, f) || (f == last.name && last.body.Some?)
  {
    var p := q + [last];
    if Bodied(q, f) {
      var i :| 0 <= i < |q| && q[i].name == f && q[i].body.Some?;
      assert p[i] == q[i];
    }
    assert p[|q|] == last;
  }

  lemma AgreesMore(q: Program, last: Function)
    requires LegalHeads(q)
    ensures LegalHeads(q + [last]) <==>
      && |last.params| <= 6 && (forall n: nat :: Takes(q, last.name, n) ==> n == |last.params|)
      && !(Bodied(q, last.name) && last.body.Some?)
  {
    var p := q + [last];
    assert p[|q|] == last && forall i :: 0 <= i < |q| ==> p[i] == q[i];
    if LegalHeads(p) {
      forall n: nat | Takes(q, last.name, n) ensures n == |last.params| {
        var i :| 0 <= i < |q| && q[i].name == last.name && |q[i].params| == n;
        assert p[i].name == p[|q|].name;
      }
      if Bodied(q, last.name) {
        var i :| 0 <= i < |q| && q[i].name == last.name && q[i].body.Some?;
        assert p[i].name == p[|q|].name;
      }
    }
    if |last.params| <= 6 && (forall n: nat :: Takes(q, last.name, n) ==> n == |last.params|) && !(Bodied(q, last.name) && last.body.Some?) {
      forall i, j | 0 <= i < j < |p| && p[i].name == p[j].name
        ensures |p[i].params| == |p[j].params| && !(p[i].body.Some? && p[j].body.Some?)
      {
        if j == |q| {
          assert Takes(q, last.name, |q[i].params|);
          assert q[i].body.Some? ==> Bodied(q, last.name);
        }
      }
    }
  }

  lemma HeadsMore(fns: Functions, q: Program, last: Function)
    requires LegalHeads(q) && Knows(fns, q)
    ensures AddSignature(fns, last).Ok? <==> LegalHeads(q + [last])
    ensures AddSignature(fns, last).Ok? ==> Knows(AddSignature(fns, last).value, q + [last])
  {
    hide Takes, Bodied, LegalHeads;
    AgreesMore(q, last);
    var r := AddSignature(fns, last);
    assert last.name in fns ==> Takes(q, last.name, fns[last.name].arity);
    if r.Ok? {
      forall f, n: nat ensures f in r.value && r.value[f].arity == n <==> Takes(q + [last], f, n) {
        TakesMore(q, last, f, n);
      }
      forall f ensures f in r.value && r.value[f].hasBody <==> Bodied(q + [last], f) {
        BodiedMore(q, last, f);
      }
    }
  }

  // ----- expressions -----

  /** All names in these scopes. */
  function Names(scopes: seq<Scope>): set<string> {
    if scopes == [] then {} else Names(scopes[..|scopes| - 1]) + scopes[|scopes| - 1].Keys
  }

  lemma {:induction false} LookupFinds(scopes: seq<Scope>, x: string)
    ensures Lookup(scopes, x).Ok? <==> x in Names(scopes)
  {
    if scopes != [] {
      LookupFinds(scopes[..|scopes| - 1], x);
    }
  }

  lemma {:induction false} ExprLegal(p: Program, fns: Functions, scopes: seq<Scope>, e: Expr)
    requires Knows(fns, p)
    ensures Expression(fns, scopes, e).Ok? <==> LegalExpr(p, Names(scopes), e)
    decreases e, 1
  {
    hide Names, Lookup, Takes, Bodied;
    match e
    case IntLit(_) =>
    case VarRef(x, _) => LookupFinds(scopes, x);
    case Assign(x, e1, _) =>
      LookupFinds(scopes, x);
      ExprLegal(p, fns, scopes, e1);
    case Unary(_, e1) => ExprLegal(p, fns, scopes, e1);
    case Binary(_, e1, e2) =>
      ExprLegal(p, fns, scopes, e1);
      ExprLegal(p, fns, scopes, e2);
    case Logical(_, e1, e2) =>
      ExprLegal(p, fns, scopes, e1);
      ExprLegal(p, fns, scopes, e2);
    case Call(f, args) =>
      ArgsLegal(p, fns, scopes, args);
      assert f in fns && fns[f].arity == |args| <==> Takes(p, f, |args|);
  }

  lemma {:induction false} ArgsLegal(p: Program, fns: Functions, scopes: seq<Scope>, es: seq<Expr>)
    requires Knows(fns, p)
    ensures Arguments(fns, scopes, es).Ok? <==> forall i :: 0 <= i < |es| ==> LegalExpr(p, Names(scopes), es[i])
    decreases es, 0
  {
    hide Names, Expression, LegalExpr;
    if es != [] {
      ArgsLegal(p, fns, scopes, es[..|es| - 1]);
      ExprLegal(p, fns, scopes, es[|es| - 1]);
    }
  }

  lemma MaybeLegal(p: Program, fns: Functions, scopes: seq<Scope>, e: Option<Expr>)
    requires Knows(fns, p)
    ensures Maybe(fns, scopes, e).Ok? <==> LegalMaybe(p, Names(scopes), e)
  {
    hide Names, Expression, LegalExpr;
    if e.Some? {
      ExprLegal(p, fns, scopes, e.value);
    }
  }

  // ----- statements -----

  /** What the pass has open: names around, names of this block, and loops. */
  ghost predicate Sees(st: State, outer: set<string>, here: set<string>, inLoop: bool) {
    && st.scopes != [] && st.loops >= 0 && (inLoop <==> st.loops > 0)
    && Names(st.scopes[..|st.scopes| - 1]) == outer && st.scopes[|st.scopes| - 1].Keys == here
  }

  lemma SeesNames(st: State, outer: set<string>, here: set<string>, inLoop: bool)
    requires Sees(st, outer, here, inLoop)
    ensures Names(st.scopes) == outer + here
    ensures Sees(Opened(st), outer + here, {}, inLoop)
    ensures Sees(st.(loops := st.loops + 1), outer, here, true)
  {
    assert Opened(st).scopes[..|st.scopes|] == st.scopes;
  }

  /** A statement is accepted exactly when it is legal, and then adds its declarations. */
  ghost predicate Judged(r: Result<State, Error>, legal: bool, outer: set<string>, here: set<string>, inLoop: bool) {
    (r.Ok? <==> legal) && (r.Ok? ==> Sees(r.value, outer, here, inLoop))
  }

  function After<T>(r: Result<(T, State), Error>): Result<State, Error> {
    match r
    case Ok(x) => Ok(x.1)
    case Err(e) => Err(e)
  }

  lemma DeclareLegal(st: State, x: string, outer: set<string>, here: set<string>, inLoop: bool)
    requires Sees(st, outer, here, inLoop)
    ensures Judged(DeclareSlot(st, x), x !in here, outer, here + {x}, inLoop)
  {
    hide Names;
    if x !in here {
      var top := |st.scopes| - 1;
      var st' := DeclareSlot(st, x).value;
      assert st'.scopes[..top] == st.scopes[..top];
    }
  }

  lemma {:induction false} StmtLegal(p: Program, fns: Functions, st: State, s: Stmt, outer: set<string>, here: set<string>, inLoop: bool)
    requires Knows(fns, p) && Sees(st, outer, here, inLoop)
    ensures Judged(After(Statement(fns, st, s)), LegalStmt(p, outer, here, inLoop, s), outer, here + Declares(s), inLoop)
    decreases s, 1
  {
    hide Knows, Names, Expression, LegalExpr, Maybe, LegalMaybe, DeclareSlot, Sees;
    SeesNames(st, outer, here, inLoop);
    SeesLoops(st, outer, here, inLoop);
    match s
    case VarDecl(x, init, _) =>
      MaybeLegal(p, fns, st.scopes, init);
      DeclareLegal(st, x, outer, here, inLoop);
    case ExprStmt(e) =>
      ExprLegal(p, fns, st.scopes, e);
      assert here + Declares(s) == here;
    case Return(e) =>
      MaybeLegal(p, fns, st.scopes, e);
      assert here + Declares(s) == here;
    case If(c, thn, els) => IfLegal(p, fns, st, s, outer, here, inLoop);
    case While(c, body) =>
      ExprLegal(p, fns, st.scopes, c);
      LoopLegal(p, fns, st, body, outer, here, inLoop);
    case For(_, _, _, _) =>
      ForLegal(p, fns, st, s, outer, here, inLoop);
      assert here + Declares(s) == here;
    case Break => PlainLegal(p, fns, st, s, outer, here, inLoop);
    case Continue => PlainLegal(p, fns, st, s, outer, here, inLoop);
    case Block(items) =>
      ItemsLegal(p, fns, Opened(st), items, outer + here, {}, inLoop);
      BlockClosed(p, fns, st, items, outer, here, inLoop);
      assert here + Declares(s) == here;
    case Empty => PlainLegal(p, fns, st, s, outer, here, inLoop);
  }

  lemma PlainLegal(p: Program, fns: Functions, st: State, s: Stmt, outer: set<string>, here: set<string>, inLoop: bool)
    requires Sees(st, outer, here, inLoop) && st.scopes != [] && (s.Break? || s.Continue? || s.Empty?)
    ensures Judged(After(Statement(fns, st, s)), LegalStmt(p, outer, here, inLoop, s), outer, here + Declares(s), inLoop)
  {
    hide Names, Sees;
    SeesLoops(st, outer, here, inLoop);
    assert Declares(s) == {};
    assert here + Declares(s) == here;
  }

  lemma SeesLoops(st: State, outer: set<string>, here: set<string>, inLoop: bool)
    requires Sees(st, outer, here, inLoop)
    ensures st.scopes != [] && (inLoop <==> st.loops != 0)
  {
  }

  lemma BlockClosed(p: Program, fns: Functions, st: State, items: seq<Stmt>, outer: set<string>, here: set<string>, inLoop: bool)
    requires Sees(st, outer, here, inLoop)
    requires Statements(fns, Opened(st), items).Ok? ==> Statements(fns, Opened(st), items).value.1.loops == st.loops
    requires LegalItems(p, outer + here, {}, inLoop, items) <==> Statements(fns, Opened(st), items).Ok?
    ensures Judged(After(Statement(fns, st, Block(items))), LegalStmt(p, outer, here, inLoop, Block(items)), outer, here, inLoop)
  {
    hide Statements, Names, LegalStmt;
    LegalBlock(p, outer, here, inLoop, items);
  }

  /** The items of a block, `here` being declared already. */
  predicate LegalItems(p: Program, outer: set<string>, here: set<string>, inLoop: bool, items: seq<Stmt>) {
    forall i :: 0 <= i < |items| ==> LegalStmt(p, outer, here + DeclaredBy(items[..i]), inLoop, items[i])
  }

  lemma LegalBlock(p: Program, outer: set<string>, here: set<string>, inLoop: bool, items: seq<Stmt>)
    ensures LegalStmt(p, outer, here, inLoop, Block(items)) <==> LegalItems(p, outer + here, {}, inLoop, items)
  {
    assert forall i :: 0 <= i < |items| ==> {} + DeclaredBy(items[..i]) == DeclaredBy(items[..i]);
  }

  lemma {:induction false} IfLegal(p: Program, fns: Functions, st: State, s: Stmt, outer: set<string>, here: set<string>, inLoop: bool)
    requires Knows(fns, p) && Sees(st, outer, here, inLoop) && s.If?
    ensures Judged(After(Statement(fns, st, s)), LegalStmt(p, outer, here, inLoop, s), outer, here + Declares(s), inLoop)
    decreases s, 0
  {
    hide Knows, Names, Expression, LegalExpr, Sees;
    SeesNames(st, outer, here, inLoop);
    SeesLoops(st, outer, here, inLoop);
    ExprLegal(p, fns, st.scopes, s.cond);
    StmtLegal(p, fns, st, s.thn, outer, here, inLoop);
    var d := Declares(s.thn);
    if s.els.Some? && Statement(fns, st, s.thn).Ok? {
      StmtLegal(p, fns, Statement(fns, st, s.thn).value.1, s.els.value, outer, here + d, inLoop);
      assert here + d + Declares(s.els.value) == here + Declares(s);
    } else if s.els.None? {
      assert here + d == here + Declares(s);
    }
  }

  lemma {:induction false} LoopLegal(p: Program, fns: Functions, st: State, body: Stmt, outer: set<string>, here: set<string>, inLoop: bool)
    requires Knows(fns, p) && Sees(st, outer, here, inLoop)
    ensures Judged(After(InLoop(fns, st, body)), LegalStmt(p, outer, here, true, body), outer, here + Declares(body), inLoop)
    decreases body, 2
  {
    hide Knows, Names, Statement, LegalStmt, Declares;
    SeesNames(st, outer, here, inLoop);
    StmtLegal(p, fns, st.(loops := st.loops + 1), body, outer, here, true);
  }

  lemma {:induction false} ForLegal(p: Program, fns: Functions, st: State, s: Stmt, outer: set<string>, here: set<string>, inLoop: bool)
    requires Knows(fns, p) && Sees(st, outer, here, inLoop) && s.For?
    ensures Judged(After(ForStatement(fns, st, s)), LegalStmt(p, outer, here, inLoop, s), outer, here, inLoop)
    decreases s, 0
  {
    hide Knows, Names, Maybe, LegalMaybe, Statement, Declares, Sees, InLoop;
    SeesNames(st, outer, here, inLoop);
    SeesLoops(st, outer, here, inLoop);
    var o := outer + here;
    var first := if s.finit.Some? then Declares(s.finit.value) else {};
    if s.finit.Some? {
      StmtLegal(p, fns, Opened(st), s.finit.value, o, {}, inLoop);
      assert {} + first == first;
    }
    var ri := ForInit(fns, Opened(st), s);
    if ri.Ok? {
      var st1 := ri.value.1;
      SeesNames(st1, o, first, inLoop);
      MaybeLegal(p, fns, st1.scopes, s.fcond);
      MaybeLegal(p, fns, st1.scopes, s.fpost);
      LoopLegal(p, fns, st1, s.fbody, o, first, inLoop);
      if ForStatement(fns, st, s).Ok? {
        SeesAgain(st, ForStatement(fns, st, s).value.1, outer, here, inLoop);
      }
    }
  }

  lemma SeesAgain(st: State, st': State, outer: set<string>, here: set<string>, inLoop: bool)
    requires Sees(st, outer, here, inLoop) && st'.scopes == st.scopes && st'.loops == st.loops
    ensures Sees(st', outer, here, inLoop)
  {
  }

  lemma {:induction false} ItemsLegal(p: Program, fns: Functions, st: State, items: seq<Stmt>, outer: set<string>, here: set<string>, inLoop: bool)
    requires Knows(fns, p) && Sees(st, outer, here, inLoop)
    ensures Judged(After(Statements(fns, st, items)), LegalItems(p, outer, here, inLoop, items), outer, here + DeclaredBy(items), inLoop)
    decreases items, 0
  {
    hide Knows, Names, Statement, LegalStmt, Declares, Sees;
    if items == [] {
      assert here + {} == here;
    } else {
      var n := |items| - 1;
      SeesLoops(st, outer, here, inLoop);
      ItemsLegal(p, fns, st, items[..n], outer, here, inLoop);
      ItemsMore(p, outer, here, inLoop, items);
      if Statements(fns, st, items[..n]).Ok? {
        StmtLegal(p, fns, Statements(fns, st, items[..n]).value.1, items[n], outer, here + DeclaredBy(items[..n]), inLoop);
        assert here + DeclaredBy(items[..n]) + Declares(items[n]) == here + DeclaredBy(items);
      }
    }
  }

  lemma ItemsMore(p: Program, outer: set<string>, here: set<string>, inLoop: bool, items: seq<Stmt>)
    requires items != []
    ensures var n := |items| - 1;
      LegalItems(p, outer, here, inLoop, items) <==>
        LegalItems(p, outer, here, inLoop, items[..n]) && LegalStmt(p, outer, here + DeclaredBy(items[..n]), inLoop, items[n])
  {
    hide LegalStmt, DeclaredBy;
    var n := |items| - 1;
    assert forall i :: 0 <= i < n ==> items[..n][i] == items[i] && items[..n][..i] == items[..i];
  }

  // ----- functions and programs -----

  lemma {:induction false} ParamsLegal(st: State, ps: seq<Param>)
    requires Sees(st, {}, {}, false)
    ensures Judged(After(Params(st, ps)), forall i, j :: 0 <= i < j < |ps| ==> ps[i].name != ps[j].name, {}, Parameters(ps), false)
  {
    hide Sees, DeclareSlot;
    SeesLoops(st, {}, {}, false);
    if ps == [] {
      assert Parameters(ps) == {};
    } else {
      var n := |ps| - 1;
      ParamsLegal(st, ps[..n]);
      ParametersMore(ps);
      if Params(st, ps[..n]).Ok? {
        DeclareLegal(Params(st, ps[..n]).value.1, ps[n].name, {}, Parameters(ps[..n]), false);
      }
    }
  }

  lemma ParametersMore(ps: seq<Param>)
    requires ps != []
    ensures var n := |ps| - 1;
      && Parameters(ps) == Parameters(ps[..n]) + {ps[n].name}
      && ((forall i, j :: 0 <= i < j < |ps| ==> ps[i].name != ps[j].name) <==>
            (forall i, j :: 0 <= i < j < n ==> ps[..n][i].name != ps[..n][j].name) && ps[n].name !in Parameters(ps[..n]))
  {
    var n := |ps| - 1;
    assert forall i :: 0 <= i < n ==> ps[..n][i] == ps[i];
    forall x | x in Parameters(ps[..n]) ensures x in Parameters(ps) {
      var i :| 0 <= i < n && ps[..n][i].name == x;
      assert ps[i].name == x;
    }
    forall i | 0 <= i < n ensures ps[i].name in Parameters(ps[..n]) {
      assert ps[..n][i].name == ps[i].name;
    }
  }

  lemma FunctionLegal(p: Program, fns: Functions, f: Function)
    requires Knows(fns, p) && f.body.Some?
    ensures FunctionDecl(fns, f).Ok? <==> LegalFunction(p, f)
  {
    hide Knows, Statements, LegalStmt, Params, Sees, Parameters;
    var st := State([map[]], 0, 0, 0);
    assert Sees(st, {}, {}, false) by { FirstSees(st); }
    ParamsLegal(st, f.params);
    if Params(st, f.params).Ok? {
      ItemsLegal(p, fns, Params(st, f.params).value.1, f.body.value, {}, Parameters(f.params), false);
    }
  }

  lemma FirstSees(st: State)
    requires st == State([map[]], 0, 0, 0)
    ensures Sees(st, {}, {}, false)
  {
    assert st.scopes[..0] == [];
  }

  lemma {:induction false} DefinitionsLegal(p: Program, fns: Functions, q: Program)
    requires Knows(fns, p)
    ensures Definitions(fns, q).Ok? <==> forall i :: 0 <= i < |q| && q[i].body.Some? ==> LegalFunction(p, q[i])
    decreases |q|
  {
    hide Knows, FunctionDecl, LegalFunction;
    if q != [] {
      DefinitionsLegal(p, fns, q[..|q| - 1]);
      if q[|q| - 1].body.Some? {
        FunctionLegal(p, fns, q[|q| - 1]);
      }
    }
  }

  /** The resolver accepts exactly the legal programs. */
  lemma ResolvesExactly(p: Program)
    ensures Resolve(p).Ok? <==> Legal(p)
  {
    hide Collect, Definitions, LegalHeads, LegalFunction, Knows;
    CollectExactly(p);
    if Collect(p).Ok? {
      DefinitionsLegal(p, Collect(p).value, p);
    }
  }
}
