/** The resolver preserves meaning: a program it accepts behaves the same read by
    name, with C block scoping, and read by the frame offsets it assigns; and it
    never goes wrong.

    The relation kept at every step: each variable visible by name has a slot of
    its own inside the frame, and the frame holds there what the scope holds under
    the name. Leaving a block forgets names but no value of an outer block, so the
    relation is restored for what stays visible.
*/
module MiniCScoping {
  import opened Wrappers
  import opened MiniCAst
  import opened MiniCWord
  import opened MiniCSemantics
  import opened MiniCResolver
  import opened MiniCCodegen

  // ----- what the resolver's state satisfies -----

  /** Distinct variables in scope have distinct slots, all below the frame
      pointer and not beyond the last one handed out. */
  ghost predicate ScopesOk(scopes: seq<Scope>, cur: int) {
    && (forall i, x :: 0 <= i < |scopes| && x in scopes[i] ==> cur <= scopes[i][x] <= -8 && scopes[i][x] % 8 == 0)
    && (forall i, x, j, y :: 0 <= i < |scopes| && x in scopes[i] && 0 <= j < |scopes| && y in scopes[j] && scopes[i][x] == scopes[j][y] ==>
          i == j && x == y)
  }

  ghost predicate StateOk(st: State) {
    st.scopes != [] && ScopesOk(st.scopes, st.cur) && st.cur <= 0 && st.cur % 8 == 0 && st.max >= -st.cur && st.loops >= 0
  }

  ghost predicate FnsOk(fns: Functions) {
    forall f :: f in fns ==> fns[f].arity <= MAX_PARAMS
  }

  lemma DeclareOk(st: State, x: string)
    requires StateOk(st) && DeclareSlot(st, x).Ok?
    ensures var r := DeclareSlot(st, x).value;
      StateOk(r) && r.cur == st.cur - 8 && r.max >= st.max && SameOuter(st, r)
  {
    hide ScopesOk;
    DeclaredOk(st.scopes, st.cur, x);
  }

  lemma DeclaredOk(scopes: seq<Scope>, cur: int, x: string)
    requires ScopesOk(scopes, cur) && scopes != [] && cur <= 0 && cur % 8 == 0
    ensures var top := |scopes| - 1; ScopesOk(scopes[top := scopes[top][x := cur - 8]], cur - 8)
  {
    var top := |scopes| - 1;
    var now: seq<Scope> := scopes[top := scopes[top][x := cur - 8]];
    forall i, y | 0 <= i < |now| && y in now[i]
      ensures now[i][y] == (if i == top && y == x then cur - 8 else scopes[i][y])
      ensures cur - 8 <= now[i][y] <= -8 && now[i][y] % 8 == 0
    {
      if !(i == top && y == x) {
        assert y in scopes[i];
      }
    }
    forall i, y, j, z | 0 <= i < |now| && y in now[i] && 0 <= j < |now| && z in now[j] && now[i][y] == now[j][z]
      ensures i == j && y == z
    {
      if !(i == top && y == x) && !(j == top && z == x) {
        assert y in scopes[i] && z in scopes[j];
      }
    }
  }

  lemma {:induction false} ExprOk(fns: Functions, scopes: seq<Scope>, e: Expr)
    requires FnsOk(fns) && Expression(fns, scopes, e).Ok?
    ensures CallsFit(Expression(fns, scopes, e).value)
    decreases e, 1
  {
    match e {
      case IntLit(_) =>
      case VarRef(_, _) =>
      case Assign(_, e1, _) => ExprOk(fns, scopes, e1);
      case Unary(_, e1) => ExprOk(fns, scopes, e1);
      case Binary(_, e1, e2) => ExprOk(fns, scopes, e1); ExprOk(fns, scopes, e2);
      case Logical(_, e1, e2) => ExprOk(fns, scopes, e1); ExprOk(fns, scopes, e2);
      case Call(_, args) => ArgsOk(fns, scopes, args);
    }
  }

  lemma {:induction false} ArgsOk(fns: Functions, scopes: seq<Scope>, es: seq<Expr>)
    requires FnsOk(fns) && Arguments(fns, scopes, es).Ok?
    ensures ArgsFit(Arguments(fns, scopes, es).value)
    decreases es, 0
  {
    if es != [] {
      ArgsOk(fns, scopes, es[..|es| - 1]);
      ExprOk(fns, scopes, es[|es| - 1]);
      var rs := Arguments(fns, scopes, es).value;
      assert rs[..|rs| - 1] == Arguments(fns, scopes, es[..|es| - 1]).value;
    }
  }

  lemma MaybeOk(fns: Functions, scopes: seq<Scope>, e: Option<Expr>)
    requires FnsOk(fns) && Maybe(fns, scopes, e).Ok?
    ensures MaybeFits(Maybe(fns, scopes, e).value)
  {
    if e.Some? {
      ExprOk(fns, scopes, e.value);
    }
  }

  /** What resolving a statement guarantees, whatever happens at run time. */
  ghost predicate StmtOk(st: State, s: Stmt, s': Stmt, st': State, size: int) {
    && StateOk(st') && st'.cur <= st.cur && st'.max >= st.max && st'.loops == st.loops
    && (!s.VarDecl? ==> st'.scopes == st.scopes)
    && StmtFits(s', st.loops > 0) && (st'.max <= size ==> SlotsFit(s', size))
    && (s.VarDecl? <==> s'.VarDecl?) && (s.ExprStmt? <==> s'.ExprStmt?)
  }

  lemma {:induction false} StatementOk(fns: Functions, st: State, s: Stmt, size: int)
    requires FnsOk(fns) && StateOk(st) && Parsed(s) && Statement(fns, st, s).Ok?
    ensures var r := Statement(fns, st, s).value; StmtOk(st, s, r.0, r.1, size)
    decreases s, 2
  {
    hide ScopesOk, CallsFit, Expression;
    match s {
      case VarDecl(x, init, _) =>
        MaybeOk(fns, st.scopes, init);
        DeclareOk(st, x);
      case ExprStmt(e) => ExprOk(fns, st.scopes, e);
      case Return(e) => MaybeOk(fns, st.scopes, e);
      case If(c, thn, els) =>
        ExprOk(fns, st.scopes, c);
        StatementOk(fns, st, thn, size);
        var rt := Statement(fns, st, thn).value;
        if els.Some? {
          StatementOk(fns, rt.1, els.value, size);
        }
      case While(c, body) =>
        ExprOk(fns, st.scopes, c);
        LoopOk(fns, st, body, size);
      case For(_, _, _, _) => ForOk(fns, st, s, size);
      case Block(items) =>
        OpenOk(st);
        ItemsOk(fns, Opened(st), items, size);
        CloseOk(st, Statements(fns, Opened(st), items).value.1);
      case _ =>
    }
  }

  lemma OpenOk(st: State)
    requires StateOk(st)
    ensures StateOk(Opened(st))
  {
  }

  lemma CloseOk(st: State, inner: State)
    requires StateOk(st) && StateOk(inner) && SameOuter(Opened(st), inner)
    ensures StateOk(Closed(st, inner))
  {
    assert inner.scopes[..|st.scopes|] == st.scopes;
    assert forall i :: 0 <= i < |st.scopes| ==> inner.scopes[i] == st.scopes[i];
  }

  lemma {:induction false} LoopOk(fns: Functions, st: State, body: Stmt, size: int)
    requires FnsOk(fns) && StateOk(st) && Parsed(body) && !body.VarDecl? && InLoop(fns, st, body).Ok?
    ensures var r := InLoop(fns, st, body).value;
      && StateOk(r.1) && r.1.cur <= st.cur && r.1.max >= st.max && r.1.loops == st.loops && r.1.scopes == st.scopes
      && StmtFits(r.0, true) && (r.1.max <= size ==> SlotsFit(r.0, size)) && !r.0.VarDecl?
    decreases body, 3
  {
    hide ScopesOk, CallsFit, Expression;
    StatementOk(fns, st.(loops := st.loops + 1), body, size);
  }

  lemma {:induction false} ForOk(fns: Functions, st: State, s: Stmt, size: int)
    requires FnsOk(fns) && StateOk(st) && Parsed(s) && s.For? && Statement(fns, st, s).Ok?
    ensures var r := Statement(fns, st, s).value; StmtOk(st, s, r.0, r.1, size)
    decreases s, 1
  {
    hide ScopesOk, CallsFit, Expression;
    OpenOk(st);
    var st0 := Opened(st);
    assert ForStatement(fns, st, s).Ok? && ForInit(fns, st0, s).Ok?;
    if s.finit.Some? {
      StatementOk(fns, st0, s.finit.value, size);
    }
    var ri := ForInit(fns, st0, s).value;
    MaybeOk(fns, ri.1.scopes, s.fcond);
    MaybeOk(fns, ri.1.scopes, s.fpost);
    LoopOk(fns, ri.1, s.fbody, size);
    CloseOk(st, InLoop(fns, ri.1, s.fbody).value.1);
  }

  lemma {:induction false} ItemsOk(fns: Functions, st: State, items: seq<Stmt>, size: int)
    requires FnsOk(fns) && StateOk(st) && ParsedItems(items) && Statements(fns, st, items).Ok?
    ensures var r := Statements(fns, st, items).value;
      && StateOk(r.1) && r.1.cur <= st.cur && r.1.max >= st.max && r.1.loops == st.loops
      && ItemsFit(r.0, st.loops > 0) && (r.1.max <= size ==> ItemSlotsFit(r.0, size))
    decreases items, 0
  {
    hide ScopesOk, Statement;
    if items != [] {
      ItemsOk(fns, st, items[..|items| - 1], size);
      var rs := Statements(fns, st, items[..|items| - 1]).value;
      StatementOk(fns, rs.1, items[|items| - 1], size);
      var r := Statements(fns, st, items).value.0;
      assert r[..|r| - 1] == rs.0;
    }
  }

  lemma {:induction false} ParamsOk(st: State, ps: seq<Param>)
    requires StateOk(st) && Params(st, ps).Ok?
    ensures var r := Params(st, ps).value;
      && StateOk(r.1) && r.1.cur <= st.cur && r.1.max >= st.max && r.1.loops == st.loops
      && forall i, size :: 0 <= i < |r.0| && r.1.max <= size ==> SlotOk(r.0[i].slot, size)
  {
    hide ScopesOk;
    if ps != [] {
      ParamsOk(st, ps[..|ps| - 1]);
      var rs := Params(st, ps[..|ps| - 1]).value;
      DeclareOk(rs.1, ps[|ps| - 1].name);
    }
  }

  // ----- environments -----

  /** The scopes of a run hold the variables the resolver knows, with the values
      the frame holds in their slots. */
  ghost predicate Match(scopes: seq<Scope>, env: seq<map<string, Int32>>, f: map<int, Int32>) {
    && |env| == |scopes|
    && (forall i :: 0 <= i < |scopes| ==> env[i].Keys == scopes[i].Keys)
    && (forall i, x :: 0 <= i < |scopes| && x in scopes[i] ==> scopes[i][x] in f && f[scopes[i][x]] == env[i][x])
  }

  lemma {:induction false} SameLevel(scopes: seq<Scope>, env: seq<map<string, Int32>>, x: string)
    requires |env| == |scopes| && forall i :: 0 <= i < |scopes| ==> env[i].Keys == scopes[i].Keys
    ensures Level(env, x) == Level(scopes, x)
    ensures if Level(scopes, x).Some? then Lookup(scopes, x) == Ok(scopes[Level(scopes, x).value][x]) else Lookup(scopes, x).Err?
  {
    if scopes != [] {
      assert (x in scopes[|scopes| - 1]) == (x in env[|scopes| - 1].Keys);
      SameLevel(scopes[..|scopes| - 1], env[..|scopes| - 1], x);
    }
  }

  lemma MatchRead(scopes: seq<Scope>, env: seq<map<string, Int32>>, f: map<int, Int32>, x: string)
    requires Match(scopes, env, f) && Lookup(scopes, x).Ok?
    ensures var s := Lookup(scopes, x).value;
      Read(Scopes(env), x, 0).Some? && Read(Frame(f), x, s) == Read(Scopes(env), x, 0)
  {
    SameLevel(scopes, env, x);
  }

  lemma MatchWrite(scopes: seq<Scope>, cur: int, env: seq<map<string, Int32>>, f: map<int, Int32>, x: string, v: Int32)
    requires ScopesOk(scopes, cur) && Match(scopes, env, f) && Lookup(scopes, x).Ok?
    ensures var s := Lookup(scopes, x).value; var r := Write(Scopes(env), x, 0, v);
      && r.Some? && r.value.Scopes? && Write(Frame(f), x, s, v) == Some(Frame(f[s := v])) && Match(scopes, r.value.scopes, f[s := v])
  {
    hide ScopesOk;
    SameLevel(scopes, env, x);
    MatchRebind(scopes, cur, env, f, Level(scopes, x).value, x, v);
  }

  lemma MatchRebind(scopes: seq<Scope>, cur: int, env: seq<map<string, Int32>>, f: map<int, Int32>, k: nat, x: string, v: Int32)
    requires ScopesOk(scopes, cur) && Match(scopes, env, f) && k < |scopes| && x in scopes[k]
    ensures Match(scopes, Rebind(env, k, x, v), f[scopes[k][x] := v])
  {
    var s := scopes[k][x];
    var env' := Rebind(env, k, x, v);
    assert env'[k].Keys == env[k].Keys + {x} == env[k].Keys;
    forall i, y | 0 <= i < |scopes| && y in scopes[i]
      ensures scopes[i][y] in f[s := v] && f[s := v][scopes[i][y]] == env'[i][y]
    {
      if scopes[i][y] != s {
        assert i != k || y != x;
      }
    }
  }

  /** A fresh slot for a name that is new in the innermost scope. */
  lemma MatchDeclare(st: State, env: seq<map<string, Int32>>, f: map<int, Int32>, x: string, v: Int32)
    requires StateOk(st) && Match(st.scopes, env, f) && DeclareSlot(st, x).Ok?
    ensures var r := DeclareSlot(st, x).value; Match(r.scopes, Rebind(env, |env| - 1, x, v), f[r.cur := v])
  {
    var r := DeclareSlot(st, x).value;
    var env' := Rebind(env, |env| - 1, x, v);
    var k := |env| - 1;
    assert env'[k].Keys == env[k].Keys + {x} == r.scopes[k].Keys;
    forall i, y | 0 <= i < |r.scopes| && y in r.scopes[i]
      ensures r.scopes[i][y] in f[r.cur := v] && f[r.cur := v][r.scopes[i][y]] == env'[i][y]
    {
      if !(i == k && y == x) {
        assert y in st.scopes[i] && st.scopes[i][y] != r.cur;
      }
    }
  }

  lemma MatchOpen(scopes: seq<Scope>, env: seq<map<string, Int32>>, f: map<int, Int32>)
    requires Match(scopes, env, f)
    ensures Match(scopes + [map[]], env + [map[]], f)
  {
  }

  lemma MatchClose(scopes: seq<Scope>, env: seq<map<string, Int32>>, f: map<int, Int32>)
    requires Match(scopes, env, f) && scopes != []
    ensures Match(scopes[..|scopes| - 1], env[..|scopes| - 1], f)
  {
  }

  // ----- expressions -----

  /** A source program, its signatures and what the resolver made of it. */
  ghost predicate Resolved(p: Program, fns: Functions, q: Program) {
    ParsedProgram(p) && Collect(p) == Ok(fns) && Definitions(fns, p) == Ok(q)
  }

  ghost predicate ExprSame(scopes: seq<Scope>, a: ExprOut, b: ExprOut) {
    match a
    case Val(v, env, tr) => env.Scopes? && b.Val? && b.env.Frame? && b == Val(v, b.env, tr) && Match(scopes, env.scopes, b.env.cells)
    case EFault(_) => b == a
    case ETimeout(_) => b == a
    case EWrong => false
  }

  ghost predicate ArgsSame(scopes: seq<Scope>, a: ArgsOut, b: ArgsOut) {
    match a
    case Vals(vs, env, tr) => env.Scopes? && b.Vals? && b.env.Frame? && b == Vals(vs, b.env, tr) && Match(scopes, env.scopes, b.env.cells)
    case AFault(_) => b == a
    case ATimeout(_) => b == a
    case AWrong => false
  }

  lemma {:induction false} ExprResolves(w: World, p: Program, fns: Functions, q: Program, scopes: seq<Scope>, cur: int, e: Expr,
      env: seq<map<string, Int32>>, f: map<int, Int32>, tr: Trace, fuel: nat)
    requires Resolved(p, fns, q) && Expression(fns, scopes, e).Ok? && ScopesOk(scopes, cur) && Match(scopes, env, f)
    ensures ExprSame(scopes, EvalExpr(w, p, e, Scopes(env), tr, fuel), EvalExpr(w, q, Expression(fns, scopes, e).value, Frame(f), tr, fuel))
    decreases 2 * fuel + 1, e, 1
  {
    hide Resolved, ScopesOk, Match, Read, Write, Lookup, BinaryValue, UnaryValue, Wrap32, Truth, EvalCall;
    match e {
      case IntLit(_) =>
      case VarRef(x, _) => MatchRead'(scopes, env, f, x, e.slot);
      case Assign(x, e1, _) =>
        ExprResolves(w, p, fns, q, scopes, cur, e1, env, f, tr, fuel);
        var a := EvalExpr(w, p, e1, Scopes(env), tr, fuel);
        if a.Val? {
          var b := EvalExpr(w, q, Expression(fns, scopes, e1).value, Frame(f), tr, fuel);
          MatchWrite'(scopes, cur, a.env.scopes, b.env.cells, x, a.v, e.slot);
        }
      case Unary(_, e1) => ExprResolves(w, p, fns, q, scopes, cur, e1, env, f, tr, fuel);
      case Binary(_, e1, e2) => TwoResolve(w, p, fns, q, scopes, cur, e, e1, e2, env, f, tr, fuel);
      case Logical(_, e1, e2) => TwoResolve(w, p, fns, q, scopes, cur, e, e1, e2, env, f, tr, fuel);
      case Call(g, args) =>
        ArgsResolve(w, p, fns, q, scopes, cur, args, env, f, tr, fuel);
        var a := EvalArgs(w, p, args, Scopes(env), tr, fuel);
        if a.Vals? {
          CallResolves(w, p, fns, q, g, a.vs, a.tr, fuel);
        }
    }
  }

  /** Two operands, one after the other. */
  lemma {:induction false} TwoResolve(w: World, p: Program, fns: Functions, q: Program, scopes: seq<Scope>, cur: int, e: Expr, e1: Expr, e2: Expr,
      env: seq<map<string, Int32>>, f: map<int, Int32>, tr: Trace, fuel: nat)
    requires Resolved(p, fns, q) && ScopesOk(scopes, cur) && Match(scopes, env, f)
    requires (e.Binary? && e1 == e.lhs && e2 == e.right) || (e.Logical? && e1 == e.left && e2 == e.second)
    requires Expression(fns, scopes, e1).Ok? && Expression(fns, scopes, e2).Ok?
    ensures var a := EvalExpr(w, p, e1, Scopes(env), tr, fuel);
      var b := EvalExpr(w, q, Expression(fns, scopes, e1).value, Frame(f), tr, fuel);
      && ExprSame(scopes, a, b)
      && (a.Val? ==> ExprSame(scopes, EvalExpr(w, p, e2, a.env, a.tr, fuel),
            EvalExpr(w, q, Expression(fns, scopes, e2).value, b.env, b.tr, fuel)))
    decreases 2 * fuel + 1, e, 0
  {
    hide Resolved, ScopesOk, Match, Expression, EvalExpr;
    ExprResolves(w, p, fns, q, scopes, cur, e1, env, f, tr, fuel);
    var a := EvalExpr(w, p, e1, Scopes(env), tr, fuel);
    if a.Val? {
      var b := EvalExpr(w, q, Expression(fns, scopes, e1).value, Frame(f), tr, fuel);
      ExprResolves(w, p, fns, q, scopes, cur, e2, a.env.scopes, b.env.cells, a.tr, fuel);
    }
  }

  /** Reading by name does not look at the slot field of the tree. */
  lemma MatchRead'(scopes: seq<Scope>, env: seq<map<string, Int32>>, f: map<int, Int32>, x: string, slot: int)
    requires Match(scopes, env, f) && Lookup(scopes, x).Ok?
    ensures var s := Lookup(scopes, x).value;
      Read(Scopes(env), x, slot).Some? && Read(Frame(f), x, s) == Read(Scopes(env), x, slot)
  {
    hide Match, Lookup;
    MatchRead(scopes, env, f, x);
  }

  lemma MatchWrite'(scopes: seq<Scope>, cur: int, env: seq<map<string, Int32>>, f: map<int, Int32>, x: string, v: Int32, slot: int)
    requires ScopesOk(scopes, cur) && Match(scopes, env, f) && Lookup(scopes, x).Ok?
    ensures var s := Lookup(scopes, x).value; var r := Write(Scopes(env), x, slot, v);
      && r.Some? && r.value.Scopes? && Write(Frame(f), x, s, v) == Some(Frame(f[s := v])) && Match(scopes, r.value.scopes, f[s := v])
  {
    hide Match, Lookup, ScopesOk;
    MatchWrite(scopes, cur, env, f, x, v);
  }

  lemma {:induction false} ArgsResolve(w: World, p: Program, fns: Functions, q: Program, scopes: seq<Scope>, cur: int, es: seq<Expr>,
      env: seq<map<string, Int32>>, f: map<int, Int32>, tr: Trace, fuel: nat)
    requires Resolved(p, fns, q) && Arguments(fns, scopes, es).Ok? && ScopesOk(scopes, cur) && Match(scopes, env, f)
    ensures ArgsSame(scopes, EvalArgs(w, p, es, Scopes(env), tr, fuel), EvalArgs(w, q, Arguments(fns, scopes, es).value, Frame(f), tr, fuel))
    decreases 2 * fuel + 1, es, 0
  {
    hide Resolved, ScopesOk, Match, EvalExpr, Expression;
    if es != [] {
      var j := |es| - 1;
      ArgsResolve(w, p, fns, q, scopes, cur, es[..j], env, f, tr, fuel);
      var rs := Arguments(fns, scopes, es).value;
      assert rs[..j] == Arguments(fns, scopes, es[..j]).value;
      var a := EvalArgs(w, p, es[..j], Scopes(env), tr, fuel);
      if a.Vals? {
        var b := EvalArgs(w, q, rs[..j], Frame(f), tr, fuel);
        ExprResolves(w, p, fns, q, scopes, cur, es[j], a.env.scopes, b.env.cells, a.tr, fuel);
      }
    }
  }

  lemma {:induction false} CallResolves(w: World, p: Program, fns: Functions, q: Program, g: string, vs: seq<Int32>, tr: Trace, fuel: nat)
    requires Resolved(p, fns, q) && g in fns && fns[g].arity == |vs|
    ensures EvalCall(w, p, g, vs, true, tr, fuel) == EvalCall(w, q, g, vs, false, tr, fuel)
    ensures !EvalCall(w, p, g, vs, true, tr, fuel).CWrong?
    decreases 2 * fuel
  {
    hide Resolved, EvalItems, FindBody, Arities;
    SameShape(p, fns, q);
    Signatures(p, fns, q, g);
    SameBody(p, fns, q, g);
    match FindBody(p, g) {
      case None =>
      case Some(i) =>
        if fuel > 0 {
          DefinedAs(p, fns, q, i);
          BodyResolves(w, p, fns, q, i, vs, tr, fuel - 1);
        }
    }
  }

  lemma {:induction false} BodyResolves(w: World, p: Program, fns: Functions, q: Program, i: nat, vs: seq<Int32>, tr: Trace, fuel: nat)
    requires Resolved(p, fns, q) && i < |p| == |q| && p[i].body.Some? && |p[i].params| == |vs|
    requires FunctionDecl(fns, p[i]) == Ok(q[i])
    ensures
      var a := EvalItems(w, p, p[i].body.value, Scopes([BindNames(p[i].params, vs)]), tr, fuel);
      var b := EvalItems(w, q, q[i].body.value, Frame(BindSlots(q[i].params, vs)), tr, fuel);
      match a
      case Normal(_, t) => b.Normal? && b.tr == t
      case Returns(_, _) => b == a
      case SFault(_) => b == a
      case STimeout(_) => b == a
      case _ => false
    decreases 2 * fuel + 1, p[i].body.value, 1
  {
    hide EvalItems, Match, ScopesOk;
    var st0 := State([map[]], 0, 0, 0);
    EmptyOk();
    ParamsMatch(st0, p[i].params, vs);
    ParamsOk(st0, p[i].params);
    var ps := Params(st0, p[i].params).value;
    ItemsResolve(w, p, fns, q, ps.1, p[i].body.value, [BindNames(p[i].params, vs)], BindSlots(ps.0, vs), tr, fuel);
  }

  lemma EmptyOk()
    ensures StateOk(State([map[]], 0, 0, 0)) && Match([map[]], [map[]], map[])
  {
  }

  lemma {:induction false} ParamsMatch(st: State, ps: seq<Param>, vs: seq<Int32>)
    requires st == State([map[]], 0, 0, 0) && Params(st, ps).Ok? && |ps| == |vs|
    ensures var r := Params(st, ps).value; Match(r.1.scopes, [BindNames(ps, vs)], BindSlots(r.0, vs))
  {
    hide ScopesOk, Match;
    EmptyOk();
    if ps == [] {
      assert [BindNames(ps, vs)] == [map[]];
    } else {
      var j := |ps| - 1;
      ParamsMatch(st, ps[..j], vs[..j]);
      ParamsOk(st, ps[..j]);
      var rs := Params(st, ps[..j]).value;
      MatchDeclare(rs.1, [BindNames(ps[..j], vs[..j])], BindSlots(rs.0, vs[..j]), ps[j].name, vs[j]);
      var r := Params(st, ps).value;
      assert r.0[..j] == rs.0;
      assert [BindNames(ps, vs)] == Rebind([BindNames(ps[..j], vs[..j])], 0, ps[j].name, vs[j]);
    }
  }

  // ----- program-wide facts -----

  lemma {:induction false} DefinitionAt(fns: Functions, p: Program, i: nat)
    requires Definitions(fns, p).Ok? && i < |p|
    ensures var q := Definitions(fns, p).value;
      if p[i].body.Some? then FunctionDecl(fns, p[i]) == Ok(q[i]) else q[i] == p[i]
  {
    hide FunctionDecl;
    if i < |p| - 1 {
      DefinitionAt(fns, p[..|p| - 1], i);
    }
  }

  lemma DefinedAs(p: Program, fns: Functions, q: Program, i: nat)
    requires Resolved(p, fns, q) && i < |p| && p[i].body.Some?
    ensures |q| == |p| && FunctionDecl(fns, p[i]) == Ok(q[i])
  {
    hide FunctionDecl, Collect;
    DefinitionAt(fns, p, i);
  }

  lemma SameShape(p: Program, fns: Functions, q: Program)
    requires Resolved(p, fns, q)
    ensures |q| == |p|
    ensures forall i :: 0 <= i < |p| ==> q[i].name == p[i].name && |q[i].params| == |p[i].params| && q[i].body.Some? == p[i].body.Some?
  {
    hide FunctionDecl, Collect;
    forall i | 0 <= i < |p| ensures q[i].name == p[i].name && |q[i].params| == |p[i].params| && q[i].body.Some? == p[i].body.Some? {
      DefinitionAt(fns, p, i);
    }
  }

  lemma {:induction false} SameFind(p: Program, q: Program, g: string)
    requires |q| == |p| && forall i :: 0 <= i < |p| ==> q[i].name == p[i].name && |q[i].params| == |p[i].params| && q[i].body.Some? == p[i].body.Some?
    ensures FindBody(q, g) == FindBody(p, g) && Arities(q) == Arities(p)
  {
    if p != [] {
      SameFind(p[..|p| - 1], q[..|q| - 1], g);
    }
  }

  lemma SameBody(p: Program, fns: Functions, q: Program, g: string)
    requires Resolved(p, fns, q)
    ensures FindBody(q, g) == FindBody(p, g) && Arities(q) == Arities(p)
  {
    hide Resolved, FindBody, Arities;
    SameShape(p, fns, q);
    SameFind(p, q, g);
  }

  /** Signatures agree with every declaration; a name is defined at most once. */
  lemma {:induction false} CollectOk(p: Program, fns: Functions)
    requires Collect(p) == Ok(fns)
    ensures FnsOk(fns)
    ensures forall i :: 0 <= i < |p| ==> p[i].name in fns && fns[p[i].name].arity == |p[i].params|
    ensures forall g :: g in fns ==> g in Arities(p) && Arities(p)[g] == fns[g].arity
    ensures forall i :: 0 <= i < |p| && p[i].body.Some? ==> fns[p[i].name].hasBody
    ensures forall i, j :: 0 <= i < j < |p| && p[i].body.Some? && p[j].body.Some? ==> p[i].name != p[j].name
  {
    if p != [] {
      var q, last := p[..|p| - 1], p[|p| - 1];
      var prev := Collect(q).value;
      CollectOk(q, prev);
      assert AddSignature(prev, last) == Ok(fns);
      assert forall i :: 0 <= i < |q| ==> q[i] == p[i];
      assert forall g :: g in prev ==> g in fns && fns[g].arity == prev[g].arity && (prev[g].hasBody ==> fns[g].hasBody);
    }
  }

  lemma Signatures(p: Program, fns: Functions, q: Program, g: string)
    requires Resolved(p, fns, q) && g in fns
    ensures g in Arities(p) && Arities(p)[g] == fns[g].arity
    ensures FindBody(p, g).Some? ==> |p[FindBody(p, g).value].params| == fns[g].arity
  {
    hide FindBody, Arities, Definitions, Collect;
    CollectOk(p, fns);
  }

  // ----- statements -----

  ghost predicate StmtSame(st: State, st': State, a: StmtOut, b: StmtOut) {
    match a
    case Normal(env, tr) => env.Scopes? && b.Normal? && b.env.Frame? && b.tr == tr && Match(st'.scopes, env.scopes, b.env.cells)
    case Broke(env, tr) => st.loops > 0 && env.Scopes? && b.Broke? && b.env.Frame? && b.tr == tr && Match(st.scopes, env.scopes, b.env.cells)
    case Continued(env, tr) => st.loops > 0 && env.Scopes? && b.Continued? && b.env.Frame? && b.tr == tr && Match(st.scopes, env.scopes, b.env.cells)
    case Returns(_, _) => b == a
    case SFault(_) => b == a
    case STimeout(_) => b == a
    case SWrong => false
  }

  /** For a list of block items an early exit only fixes the outer scopes. */
  ghost predicate ItemsSame(st: State, st': State, a: StmtOut, b: StmtOut) {
    var k := |st.scopes| - 1;
    match a
    case Broke(env, tr) =>
      k >= 0 && st.loops > 0 && env.Scopes? && b.Broke? && b.env.Frame? && b.tr == tr && |env.scopes| == k + 1
      && Match(st.scopes[..k], env.scopes[..k], b.env.cells)
    case Continued(env, tr) =>
      k >= 0 && st.loops > 0 && env.Scopes? && b.Continued? && b.env.Frame? && b.tr == tr && |env.scopes| == k + 1
      && Match(st.scopes[..k], env.scopes[..k], b.env.cells)
    case _ => StmtSame(st, st', a, b)
  }

  lemma {:induction false} ItemsResolve(w: World, p: Program, fns: Functions, q: Program, st: State, items: seq<Stmt>,
      env: seq<map<string, Int32>>, f: map<int, Int32>, tr: Trace, fuel: nat)
    requires Resolved(p, fns, q) && StateOk(st) && ParsedItems(items) && Statements(fns, st, items).Ok? && Match(st.scopes, env, f)
    ensures var r := Statements(fns, st, items).value;
      ItemsSame(st, r.1, EvalItems(w, p, items, Scopes(env), tr, fuel), EvalItems(w, q, r.0, Frame(f), tr, fuel))
    decreases 2 * fuel + 1, items, 0
  {
    hide Resolved, ScopesOk, Match, EvalStmt, Statement, StmtFits, SlotsFit, Parsed;
    if items != [] {
      var j := |items| - 1;
      ResolvedFns(p, fns, q);
      ItemsResolve(w, p, fns, q, st, items[..j], env, f, tr, fuel);
      ItemsOk(fns, st, items[..j], 0);
      var rs := Statements(fns, st, items[..j]).value;
      var r := Statements(fns, st, items).value;
      assert r.0[..j] == rs.0;
      var a := EvalItems(w, p, items[..j], Scopes(env), tr, fuel);
      if a.Normal? {
        var b := EvalItems(w, q, rs.0, Frame(f), tr, fuel);
        StmtResolves(w, p, fns, q, rs.1, items[j], a.env.scopes, b.env.cells, a.tr, fuel);
        var a2 := EvalStmt(w, p, items[j], a.env, a.tr, fuel);
        var b2 := EvalStmt(w, q, r.0[j], b.env, b.tr, fuel);
        LastItem(st, rs.1, r.1, a2, b2);
      }
    }
  }

  lemma LastItem(st: State, mid: State, end: State, a: StmtOut, b: StmtOut)
    requires SameOuter(st, mid) && StmtSame(mid, end, a, b)
    ensures ItemsSame(st, end, a, b)
  {
    hide Match;
    if a.Broke? || a.Continued? {
      MatchLength(mid.scopes, a.env.scopes, b.env.cells);
      MatchClose(mid.scopes, a.env.scopes, b.env.cells);
    }
  }

  lemma ResolvedFns(p: Program, fns: Functions, q: Program)
    requires Resolved(p, fns, q)
    ensures FnsOk(fns)
  {
    CollectOk(p, fns);
  }

  lemma MatchLength(scopes: seq<Scope>, env: seq<map<string, Int32>>, f: map<int, Int32>)
    requires Match(scopes, env, f)
    ensures |env| == |scopes|
  {
  }

  lemma {:induction false} StmtResolves(w: World, p: Program, fns: Functions, q: Program, st: State, s: Stmt,
      env: seq<map<string, Int32>>, f: map<int, Int32>, tr: Trace, fuel: nat)
    requires Resolved(p, fns, q) && StateOk(st) && Parsed(s) && Statement(fns, st, s).Ok? && Match(st.scopes, env, f)
    ensures var r := Statement(fns, st, s).value;
      StmtSame(st, r.1, EvalStmt(w, p, s, Scopes(env), tr, fuel), EvalStmt(w, q, r.0, Frame(f), tr, fuel))
    decreases 2 * fuel + 1, s, 5
  {
    hide Resolved, ScopesOk, Match, EvalExpr, EvalItems, EvalLoop, Expression, DeclareSlot;
    ResolvedFns(p, fns, q);
    match s {
      case VarDecl(_, _, _) => DeclResolves(w, p, fns, q, st, s, env, f, tr, fuel);
      case ExprStmt(e) => ExprResolves(w, p, fns, q, st.scopes, st.cur, e, env, f, tr, fuel);
      case Return(e) =>
        if e.Some? {
          ExprResolves(w, p, fns, q, st.scopes, st.cur, e.value, env, f, tr, fuel);
        }
      case Block(items) => BlockResolves(w, p, fns, q, st, s, env, f, tr, fuel);
      case If(_, _, _) => IfResolves(w, p, fns, q, st, s, env, f, tr, fuel);
      case While(c, body) =>
        LoopOk(fns, st, body, 0);
        assert Maybe(fns, st.scopes, LoopCond(s)).Ok?;
        LoopResolves(w, p, fns, q, st, s, Statement(fns, st, s).value.0, env, f, tr, fuel);
      case For(_, _, _, _) => ForResolves(w, p, fns, q, st, s, env, f, tr, fuel);
      case _ =>
    }
  }

  lemma {:induction false} DeclResolves(w: World, p: Program, fns: Functions, q: Program, st: State, s: Stmt,
      env: seq<map<string, Int32>>, f: map<int, Int32>, tr: Trace, fuel: nat)
    requires Resolved(p, fns, q) && StateOk(st) && s.VarDecl? && Statement(fns, st, s).Ok? && Match(st.scopes, env, f)
    ensures var r := Statement(fns, st, s).value;
      StmtSame(st, r.1, EvalStmt(w, p, s, Scopes(env), tr, fuel), EvalStmt(w, q, r.0, Frame(f), tr, fuel))
    decreases 2 * fuel + 1, s, 0
  {
    hide Resolved, ScopesOk, Match, EvalExpr, Expression, DeclareSlot;
    if s.init.Some? {
      ExprResolves(w, p, fns, q, st.scopes, st.cur, s.init.value, env, f, tr, fuel);
    }
    var a := if s.init.Some? then EvalExpr(w, p, s.init.value, Scopes(env), tr, fuel) else Val(0, Scopes(env), tr);
    var init := Maybe(fns, st.scopes, s.init).value;
    var b := if init.Some? then EvalExpr(w, q, init.value, Frame(f), tr, fuel) else Val(0, Frame(f), tr);
    if a.Val? {
      MatchLength(st.scopes, a.env.scopes, b.env.cells);
      MatchDeclare(st, a.env.scopes, b.env.cells, s.name, a.v);
    }
  }

  lemma {:induction false} BlockResolves(w: World, p: Program, fns: Functions, q: Program, st: State, s: Stmt,
      env: seq<map<string, Int32>>, f: map<int, Int32>, tr: Trace, fuel: nat)
    requires Resolved(p, fns, q) && StateOk(st) && Parsed(s) && s.Block? && Statement(fns, st, s).Ok? && Match(st.scopes, env, f)
    ensures var r := Statement(fns, st, s).value;
      StmtSame(st, r.1, EvalStmt(w, p, s, Scopes(env), tr, fuel), EvalStmt(w, q, r.0, Frame(f), tr, fuel))
    decreases 2 * fuel + 1, s, 0
  {
    hide Resolved, ScopesOk, Match, EvalItems, Statements;
    OpenOk(st);
    MatchOpen(st.scopes, env, f);
    var st0 := Opened(st);
    ItemsResolve(w, p, fns, q, st0, s.items, env + [map[]], f, tr, fuel);
    var r := Statements(fns, st0, s.items).value;
    var a := EvalItems(w, p, s.items, Scopes(env + [map[]]), tr, fuel);
    var b := EvalItems(w, q, r.0, Frame(f), tr, fuel);
    assert st0.scopes[..|st.scopes|] == st.scopes;
    if a.Normal? {
      MatchLength(r.1.scopes, a.env.scopes, b.env.cells);
      MatchClose(r.1.scopes, a.env.scopes, b.env.cells);
      assert r.1.scopes[..|st.scopes|] == st.scopes;
    }
  }

  lemma {:induction false} IfResolves(w: World, p: Program, fns: Functions, q: Program, st: State, s: Stmt,
      env: seq<map<string, Int32>>, f: map<int, Int32>, tr: Trace, fuel: nat)
    requires Resolved(p, fns, q) && StateOk(st) && Parsed(s) && s.If? && Statement(fns, st, s).Ok? && Match(st.scopes, env, f)
    ensures var r := Statement(fns, st, s).value;
      StmtSame(st, r.1, EvalStmt(w, p, s, Scopes(env), tr, fuel), EvalStmt(w, q, r.0, Frame(f), tr, fuel))
    decreases 2 * fuel + 1, s, 4
  {
    hide Resolved, ScopesOk, Match, EvalExpr, Expression, StmtFits, SlotsFit;
    ResolvedFns(p, fns, q);
    ExprResolves(w, p, fns, q, st.scopes, st.cur, s.cond, env, f, tr, fuel);
    StatementOk(fns, st, s.thn, 0);
    var rt := Statement(fns, st, s.thn).value;
    if s.els.Some? {
      StatementOk(fns, rt.1, s.els.value, 0);
    }
    var a := EvalExpr(w, p, s.cond, Scopes(env), tr, fuel);
    if a.Val? {
      var b := EvalExpr(w, q, Expression(fns, st.scopes, s.cond).value, Frame(f), tr, fuel);
      if a.v != 0 {
        StmtResolves(w, p, fns, q, st, s.thn, a.env.scopes, b.env.cells, a.tr, fuel);
      } else if s.els.Some? {
        StmtResolves(w, p, fns, q, rt.1, s.els.value, a.env.scopes, b.env.cells, a.tr, fuel);
      }
    }
  }

  /** A loop ends with the scopes it started with, and consumes its own breaks. */
  ghost predicate LoopSame(scopes: seq<Scope>, a: StmtOut, b: StmtOut) {
    match a
    case Normal(env, tr) => env.Scopes? && b.Normal? && b.env.Frame? && b.tr == tr && Match(scopes, env.scopes, b.env.cells)
    case Returns(_, _) => b == a
    case SFault(_) => b == a
    case STimeout(_) => b == a
    case _ => false
  }

  /** The parts of a loop and of its resolved form. */
  ghost predicate LoopParts(fns: Functions, st: State, s: Stmt, s': Stmt) {
    && st.scopes != [] && ((s.While? && s'.While?) || (s.For? && s'.For?))
    && Maybe(fns, st.scopes, LoopCond(s)) == Ok(LoopCond(s')) && Maybe(fns, st.scopes, LoopPost(s)) == Ok(LoopPost(s'))
    && Parsed(LoopBody(s)) && !LoopBody(s).VarDecl?
    && InLoop(fns, st, LoopBody(s)).Ok? && InLoop(fns, st, LoopBody(s)).value.0 == LoopBody(s')
  }

  lemma {:induction false} LoopResolves(w: World, p: Program, fns: Functions, q: Program, st: State, s: Stmt, s': Stmt,
      env: seq<map<string, Int32>>, f: map<int, Int32>, tr: Trace, fuel: nat)
    requires Resolved(p, fns, q) && StateOk(st) && LoopParts(fns, st, s, s') && Match(st.scopes, env, f)
    ensures LoopSame(st.scopes, EvalLoop(w, p, s, Scopes(env), tr, fuel), EvalLoop(w, q, s', Frame(f), tr, fuel))
    decreases 2 * fuel + 1, s, 3
  {
    hide Resolved, ScopesOk, Match, EvalExpr, EvalStmt, EvalRest, Expression, StmtFits, SlotsFit;
    ResolvedFns(p, fns, q);
    if LoopCond(s).Some? {
      ExprResolves(w, p, fns, q, st.scopes, st.cur, LoopCond(s).value, env, f, tr, fuel);
    }
    var a := if LoopCond(s).Some? then EvalExpr(w, p, LoopCond(s).value, Scopes(env), tr, fuel) else Val(1, Scopes(env), tr);
    var b := if LoopCond(s').Some? then EvalExpr(w, q, LoopCond(s').value, Frame(f), tr, fuel) else Val(1, Frame(f), tr);
    if a.Val? && a.v != 0 {
      var st1 := st.(loops := st.loops + 1);
      StatementOk(fns, st1, LoopBody(s), 0);
      StmtResolves(w, p, fns, q, st1, LoopBody(s), a.env.scopes, b.env.cells, a.tr, fuel);
      var a1 := EvalStmt(w, p, LoopBody(s), a.env, a.tr, fuel);
      var b1 := EvalStmt(w, q, LoopBody(s'), b.env, b.tr, fuel);
      if a1.Normal? || a1.Continued? {
        RestResolves(w, p, fns, q, st, s, s', a1.env.scopes, b1.env.cells, a1.tr, fuel);
      }
    }
  }

  lemma {:induction false} RestResolves(w: World, p: Program, fns: Functions, q: Program, st: State, s: Stmt, s': Stmt,
      env: seq<map<string, Int32>>, f: map<int, Int32>, tr: Trace, fuel: nat)
    requires Resolved(p, fns, q) && StateOk(st) && LoopParts(fns, st, s, s') && Match(st.scopes, env, f)
    ensures LoopSame(st.scopes, EvalRest(w, p, s, Scopes(env), tr, fuel), EvalRest(w, q, s', Frame(f), tr, fuel))
    decreases 2 * fuel + 1, s, 2
  {
    hide Resolved, ScopesOk, Match, EvalExpr, EvalLoop, Expression;
    if LoopPost(s).Some? {
      ExprResolves(w, p, fns, q, st.scopes, st.cur, LoopPost(s).value, env, f, tr, fuel);
    }
    var a := if LoopPost(s).Some? then EvalExpr(w, p, LoopPost(s).value, Scopes(env), tr, fuel) else Val(0, Scopes(env), tr);
    var b := if LoopPost(s').Some? then EvalExpr(w, q, LoopPost(s').value, Frame(f), tr, fuel) else Val(0, Frame(f), tr);
    if a.Val? && fuel > 0 {
      LoopResolves(w, p, fns, q, st, s, s', a.env.scopes, b.env.cells, a.tr, fuel - 1);
    }
  }

  lemma {:induction false} ForResolves(w: World, p: Program, fns: Functions, q: Program, st: State, s: Stmt,
      env: seq<map<string, Int32>>, f: map<int, Int32>, tr: Trace, fuel: nat)
    requires Resolved(p, fns, q) && StateOk(st) && Parsed(s) && s.For? && Statement(fns, st, s).Ok? && Match(st.scopes, env, f)
    ensures var r := Statement(fns, st, s).value;
      StmtSame(st, r.1, EvalStmt(w, p, s, Scopes(env), tr, fuel), EvalStmt(w, q, r.0, Frame(f), tr, fuel))
    decreases 2 * fuel + 1, s, 4
  {
    hide Resolved, ScopesOk, Match, EvalLoop, Statement, StmtFits, SlotsFit, Maybe, InLoop;
    ForPieces(fns, st, s);
    var ri := ForInit(fns, Opened(st), s).value;
    var s' := Statement(fns, st, s).value.0;
    OpenOk(st);
    var env0 := Scopes(env + [map[]]);
    ForFirstResolves(w, p, fns, q, st, s, env, f, tr, fuel);
    var a0 := if s.finit.Some? then EvalStmt(w, p, s.finit.value, env0, tr, fuel) else Normal(env0, tr);
    var b0 := if s'.finit.Some? then EvalStmt(w, q, s'.finit.value, Frame(f), tr, fuel) else Normal(Frame(f), tr);
    if a0.Normal? {
      ForFirstOk(p, fns, q, st, s);
      LoopResolves(w, p, fns, q, ri.1, s, s', a0.env.scopes, b0.env.cells, a0.tr, fuel);
      CloseSame(st, ri.1, Statement(fns, st, s).value.1,
                EvalLoop(w, p, s, a0.env, a0.tr, fuel), EvalLoop(w, q, s', b0.env, b0.tr, fuel));
    } else {
      NoJump(w, p, s.finit.value, env0, tr, fuel);
    }
  }

  /** What resolving a `for` is made of. */
  lemma ForPieces(fns: Functions, st: State, s: Stmt)
    requires StateOk(st) && Parsed(s) && s.For? && Statement(fns, st, s).Ok?
    ensures ForInit(fns, Opened(st), s).Ok?
    ensures var ri := ForInit(fns, Opened(st), s).value; var r := Statement(fns, st, s).value;
      && r.0.For? && r.0.finit == ri.0 && LoopParts(fns, ri.1, s, r.0)
      && SameOuter(Opened(st), ri.1) && r.1.scopes == st.scopes
    ensures s.finit.Some? ==>
      var i := Statement(fns, Opened(st), s.finit.value); i.Ok? && ForInit(fns, Opened(st), s).value == (Some(i.value.0), i.value.1)
  {
    hide ScopesOk, Expression;
    assert ForStatement(fns, st, s).Ok? && ForInit(fns, Opened(st), s).Ok?;
  }

  lemma ForFirstOk(p: Program, fns: Functions, q: Program, st: State, s: Stmt)
    requires Resolved(p, fns, q) && StateOk(st) && Parsed(s) && s.For? && Statement(fns, st, s).Ok?
    ensures ForInit(fns, Opened(st), s).Ok? && StateOk(ForInit(fns, Opened(st), s).value.1)
  {
    hide Resolved, ScopesOk, Statement, StmtFits, SlotsFit;
    ResolvedFns(p, fns, q);
    ForPieces(fns, st, s);
    OpenOk(st);
    if s.finit.Some? {
      StatementOk(fns, Opened(st), s.finit.value, 0);
    }
  }

  lemma {:induction false} ForFirstResolves(w: World, p: Program, fns: Functions, q: Program, st: State, s: Stmt,
      env: seq<map<string, Int32>>, f: map<int, Int32>, tr: Trace, fuel: nat)
    requires Resolved(p, fns, q) && StateOk(st) && Parsed(s) && s.For? && Statement(fns, st, s).Ok? && Match(st.scopes, env, f)
    ensures ForInit(fns, Opened(st), s).Ok?
    ensures
      var env0 := Scopes(env + [map[]]);
      var ri := ForInit(fns, Opened(st), s).value;
      var a0 := if s.finit.Some? then EvalStmt(w, p, s.finit.value, env0, tr, fuel) else Normal(env0, tr);
      var b0 := if ri.0.Some? then EvalStmt(w, q, ri.0.value, Frame(f), tr, fuel) else Normal(Frame(f), tr);
      StmtSame(Opened(st), ri.1, a0, b0)
    decreases 2 * fuel + 1, s, 3
  {
    hide Resolved, ScopesOk, Match, Statement, EvalStmt, StmtFits, SlotsFit;
    ForPieces(fns, st, s);
    OpenOk(st);
    MatchOpen(st.scopes, env, f);
    if s.finit.Some? {
      StmtResolves(w, p, fns, q, Opened(st), s.finit.value, env + [map[]], f, tr, fuel);
    }
  }

  /** Leaving the scope that an inner state had opened. */
  lemma CloseSame(st: State, inner: State, end: State, a: StmtOut, b: StmtOut)
    requires st.scopes != [] && SameOuter(Opened(st), inner) && end.scopes == st.scopes && LoopSame(inner.scopes, a, b)
    ensures StmtSame(st, end, LeaveStmt(a), LeaveStmt(b))
  {
    hide Match;
    assert Opened(st).scopes[..|st.scopes|] == st.scopes;
    if a.Normal? {
      MatchLength(inner.scopes, a.env.scopes, b.env.cells);
      MatchClose(inner.scopes, a.env.scopes, b.env.cells);
      assert inner.scopes[..|st.scopes|] == st.scopes;
    }
  }

  /** The first clause of a `for` cannot break or continue. */
  lemma NoJump(w: World, p: Program, s: Stmt, env: Env, tr: Trace, fuel: nat)
    requires s.VarDecl? || s.ExprStmt?
    ensures !EvalStmt(w, p, s, env, tr, fuel).Broke? && !EvalStmt(w, p, s, env, tr, fuel).Continued?
  {
    hide EvalExpr;
  }

  // ----- the whole program -----

  lemma FunctionOk(fns: Functions, f: Function)
    requires FnsOk(fns) && f.body.Some? && ParsedItems(f.body.value) && |f.params| <= MAX_PARAMS && FunctionDecl(fns, f).Ok?
    ensures var r := FunctionDecl(fns, f).value; FunctionFits(r) && FrameFits(r)
  {
    hide ScopesOk, Statements, Params;
    EmptyOk();
    var st0 := State([map[]], 0, 0, 0);
    ParamsOk(st0, f.params);
    var ps := Params(st0, f.params).value;
    var size := FunctionDecl(fns, f).value.frameSize;
    ItemsOk(fns, ps.1, f.body.value, size);
    var max := Statements(fns, ps.1, f.body.value).value.1.max;
    assert max <= size && size % 16 == 0;
  }

  /** Every resolved program meets the assumptions of the code generator. */
  lemma ProgramOk(p: Program, fns: Functions, q: Program)
    requires Resolved(p, fns, q)
    ensures ProgramFits(q) && forall i :: 0 <= i < |q| && q[i].body.Some? ==> FrameFits(q[i])
    ensures forall i, j :: 0 <= i < j < |q| && q[i].body.Some? && q[j].body.Some? ==> q[i].name != q[j].name
  {
    hide FunctionFits, FrameFits, FunctionDecl, Collect, Definitions;
    CollectOk(p, fns);
    SameShape(p, fns, q);
    forall i | 0 <= i < |q| ensures FunctionFits(q[i]) && (q[i].body.Some? ==> FrameFits(q[i])) {
      assert p[i].name in fns;
      if p[i].body.Some? {
        DefinedAs(p, fns, q, i);
        FunctionOk(fns, p[i]);
      } else {
        PrototypeFits(p, fns, q, i);
      }
    }
  }

  lemma PrototypeFits(p: Program, fns: Functions, q: Program, i: nat)
    requires Resolved(p, fns, q) && i < |p| == |q| && p[i].body.None? && |p[i].params| <= MAX_PARAMS
    ensures FunctionFits(q[i])
  {
    hide Collect, Definitions;
    SameShape(p, fns, q);
  }
}
