/** What a mini-C program means: a definitional interpreter, left to right, over
    32-bit words. The same rules run in two kinds of environment. In `Scopes` the
    tree is read by name, with C block scoping, and slot fields are ignored; in
    `Frame` it is read by the slots the resolver wrote, and names are ignored.
    `fuel` bounds the nesting of loop rounds and calls: a larger fuel only
    replaces `Timeout` by a more defined outcome. */
module MiniCSemantics {
  import opened Wrappers
  import opened MiniCAst
  import opened MiniCWord

  datatype Event = Event(callee: string, args: seq<Int32>, result: Int32)
  type Trace = seq<Event>

  /** External functions answer as any function of the history. */
  datatype World = World(ext: (string, seq<Int32>, Trace) -> Int32)

  datatype Env = Scopes(scopes: seq<map<string, Int32>>) | Frame(cells: map<int, Int32>)

  datatype ExprOut = Val(v: Int32, env: Env, tr: Trace) | EFault(tr: Trace) | ETimeout(tr: Trace) | EWrong
  datatype ArgsOut = Vals(vs: seq<Int32>, env: Env, tr: Trace) | AFault(tr: Trace) | ATimeout(tr: Trace) | AWrong
  datatype StmtOut =
    | Normal(env: Env, tr: Trace) | Broke(env: Env, tr: Trace) | Continued(env: Env, tr: Trace)
    | Returns(v: Int32, tr: Trace) | SFault(tr: Trace) | STimeout(tr: Trace) | SWrong
  datatype CallOut = Returned(v: Int32, tr: Trace) | CFault(tr: Trace) | CTimeout(tr: Trace) | CWrong

  /** The innermost scope that declares `x`. */
  function Level<V>(scopes: seq<map<string, V>>, x: string): (r: Option<nat>)
    ensures r.Some? ==> r.value < |scopes| && x in scopes[r.value]
  {
    if scopes == [] then None
    else if x in scopes[|scopes| - 1] then Some(|scopes| - 1)
    else Level(scopes[..|scopes| - 1], x)
  }

  /** `x` rebound to `v` in scope `i`. */
  function Rebind(ss: seq<map<string, Int32>>, i: nat, x: string, v: Int32): seq<map<string, Int32>>
    requires i < |ss|
  {
    var m: map<string, Int32> := ss[i][x := v];
    ss[i := m]
  }

  function Read(env: Env, x: string, slot: int): Option<Int32> {
    match env
    case Scopes(ss) => (match Level(ss, x) case None => None case Some(i) => Some(ss[i][x]))
    case Frame(f) => if slot in f then Some(f[slot]) else None
  }

  function Write(env: Env, x: string, slot: int, v: Int32): Option<Env> {
    match env
    case Scopes(ss) => (match Level(ss, x) case None => None case Some(i) => Some(Scopes(Rebind(ss, i, x, v))))
    case Frame(f) => if slot in f then Some(Frame(f[slot := v])) else None
  }

  function Declare(env: Env, x: string, slot: int, v: Int32): Option<Env> {
    match env
    case Scopes(ss) => if ss == [] then None else Some(Scopes(Rebind(ss, |ss| - 1, x, v)))
    case Frame(f) => Some(Frame(f[slot := v]))
  }

  function Enter(env: Env): Env {
    match env case Scopes(ss) => Scopes(ss + [map[]]) case Frame(_) => env
  }

  function Leave(env: Env): Env {
    match env case Scopes(ss) => if ss == [] then env else Scopes(ss[..|ss| - 1]) case Frame(_) => env
  }

  function LeaveStmt(o: StmtOut): StmtOut {
    match o
    case Normal(env, tr) => Normal(Leave(env), tr)
    case Broke(env, tr) => Broke(Leave(env), tr)
    case Continued(env, tr) => Continued(Leave(env), tr)
    case _ => o
  }

  function BindNames(ps: seq<Param>, vs: seq<Int32>): map<string, Int32>
    requires |ps| == |vs|
  {
    if ps == [] then map[]
    else BindNames(ps[..|ps| - 1], vs[..|vs| - 1])[ps[|ps| - 1].name := vs[|vs| - 1]]
  }

  function BindSlots(ps: seq<Param>, vs: seq<Int32>): map<int, Int32>
    requires |ps| == |vs|
  {
    if ps == [] then map[]
    else BindSlots(ps[..|ps| - 1], vs[..|vs| - 1])[ps[|ps| - 1].slot := vs[|vs| - 1]]
  }

  /** The environment a call starts in, of the same kind as the caller's. */
  function CallEnv(byName: bool, ps: seq<Param>, vs: seq<Int32>): Env
    requires |ps| == |vs|
  {
    if byName then Scopes([BindNames(ps, vs)]) else Frame(BindSlots(ps, vs))
  }

  /** The definition of `f`: the first declaration of that name with a body. */
  function FindBody(p: Program, f: string): (r: Option<nat>)
    ensures r.Some? ==> r.value < |p| && p[r.value].name == f && p[r.value].body.Some?
    ensures r.None? ==> forall i :: 0 <= i < |p| && p[i].name == f ==> p[i].body.None?
  {
    if p == [] then None
    else match FindBody(p[..|p| - 1], f)
      case Some(i) => Some(i)
      case None => if p[|p| - 1].name == f && p[|p| - 1].body.Some? then Some(|p| - 1) else None
  }

  /** Parameter counts by name, defined or only declared. */
  function Arities(p: Program): map<string, nat> {
    if p == [] then map[]
    else Arities(p[..|p| - 1])[p[|p| - 1].name := |p[|p| - 1].params|]
  }

  function EvalExpr(w: World, p: Program, e: Expr, env: Env, tr: Trace, fuel: nat): ExprOut
    decreases 2 * fuel + 1, e, 1
  {
    match e
    case IntLit(n) => Val(Wrap32(n), env, tr)
    case VarRef(x, s) => (match Read(env, x, s) case None => EWrong case Some(v) => Val(v, env, tr))
    case Assign(x, e1, s) => (
      match EvalExpr(w, p, e1, env, tr, fuel)
      case Val(v, env1, tr1) => (match Write(env1, x, s, v) case None => EWrong case Some(env2) => Val(v, env2, tr1))
      case o => o)
    case Unary(op, e1) => (
      match EvalExpr(w, p, e1, env, tr, fuel)
      case Val(v, env1, tr1) => Val(UnaryValue(op, v), env1, tr1)
      case o => o)
    case Binary(op, e1, e2) => (
      match EvalExpr(w, p, e1, env, tr, fuel)
      case Val(a, env1, tr1) => (
        match EvalExpr(w, p, e2, env1, tr1, fuel)
        case Val(b, env2, tr2) => (match BinaryValue(op, a, b) case None => EFault(tr2) case Some(v) => Val(v, env2, tr2))
        case o => o)
      case o => o)
    case Logical(op, e1, e2) => (
      match EvalExpr(w, p, e1, env, tr, fuel)
      case Val(a, env1, tr1) =>
        if op.And? && a == 0 then Val(0, env1, tr1)
        else if op.Or? && a != 0 then Val(1, env1, tr1)
        else (
          match EvalExpr(w, p, e2, env1, tr1, fuel)
          case Val(b, env2, tr2) => Val(Truth(b != 0), env2, tr2)
          case o => o)
      case o => o)
    case Call(f, args) => (
      match EvalArgs(w, p, args, env, tr, fuel)
      case Vals(vs, env1, tr1) => (
        match EvalCall(w, p, f, vs, env.Scopes?, tr1, fuel)
        case Returned(v, tr2) => Val(v, env1, tr2)
        case CFault(t) => EFault(t)
        case CTimeout(t) => ETimeout(t)
        case CWrong => EWrong)
      case AFault(t) => EFault(t)
      case ATimeout(t) => ETimeout(t)
      case AWrong => EWrong)
  }

  function EvalArgs(w: World, p: Program, args: seq<Expr>, env: Env, tr: Trace, fuel: nat): (r: ArgsOut)
    ensures r.Vals? ==> |r.vs| == |args|
    decreases 2 * fuel + 1, args, 0
  {
    if args == [] then Vals([], env, tr)
    else match EvalArgs(w, p, args[..|args| - 1], env, tr, fuel)
      case Vals(vs, env1, tr1) => (
        match EvalExpr(w, p, args[|args| - 1], env1, tr1, fuel)
        case Val(v, env2, tr2) => Vals(vs + [v], env2, tr2)
        case EFault(t) => AFault(t)
        case ETimeout(t) => ATimeout(t)
        case EWrong => AWrong)
      case o => o
  }

  /** Calling a defined function runs its body; falling off the end returns 0.
      Calling any other declared function is an external event. */
  function EvalCall(w: World, p: Program, f: string, vs: seq<Int32>, byName: bool, tr: Trace, fuel: nat): CallOut
    decreases 2 * fuel
  {
    match FindBody(p, f)
    case None =>
      var ar := Arities(p);
      if f in ar && ar[f] == |vs| then
        var r := w.ext(f, vs, tr);
        Returned(r, tr + [Event(f, vs, r)])
      else CWrong
    case Some(i) =>
      if |p[i].params| != |vs| then CWrong
      else if fuel == 0 then CTimeout(tr)
      else match EvalItems(w, p, p[i].body.value, CallEnv(byName, p[i].params, vs), tr, fuel - 1)
        case Normal(_, t) => Returned(0, t)
        case Returns(v, t) => Returned(v, t)
        case SFault(t) => CFault(t)
        case STimeout(t) => CTimeout(t)
        case _ => CWrong
  }

  function EvalItems(w: World, p: Program, items: seq<Stmt>, env: Env, tr: Trace, fuel: nat): StmtOut
    decreases 2 * fuel + 1, items, 0
  {
    if items == [] then Normal(env, tr)
    else match EvalItems(w, p, items[..|items| - 1], env, tr, fuel)
      case Normal(env1, tr1) => EvalStmt(w, p, items[|items| - 1], env1, tr1, fuel)
      case o => o
  }

  function FromExpr(o: ExprOut): StmtOut {
    match o
    case Val(_, env, tr) => Normal(env, tr)
    case EFault(t) => SFault(t)
    case ETimeout(t) => STimeout(t)
    case EWrong => SWrong
  }

  function EvalStmt(w: World, p: Program, s: Stmt, env: Env, tr: Trace, fuel: nat): StmtOut
    decreases 2 * fuel + 1, s, 2
  {
    match s
    case VarDecl(x, init, slot) => (
      match (if init.Some? then EvalExpr(w, p, init.value, env, tr, fuel) else Val(0, env, tr))
      case Val(v, env1, tr1) => (match Declare(env1, x, slot, v) case None => SWrong case Some(env2) => Normal(env2, tr1))
      case o => FromExpr(o))
    case ExprStmt(e) => FromExpr(EvalExpr(w, p, e, env, tr, fuel))
    case Return(e) => (
      match (if e.Some? then EvalExpr(w, p, e.value, env, tr, fuel) else Val(0, env, tr))
      case Val(v, _, tr1) => Returns(v, tr1)
      case o => FromExpr(o))
    case Block(items) => LeaveStmt(EvalItems(w, p, items, Enter(env), tr, fuel))
    case If(c, thn, els) => (
      match EvalExpr(w, p, c, env, tr, fuel)
      case Val(v, env1, tr1) =>
        if v != 0 then EvalStmt(w, p, thn, env1, tr1, fuel)
        else if els.Some? then EvalStmt(w, p, els.value, env1, tr1, fuel)
        else Normal(env1, tr1)
      case o => FromExpr(o))
    case While(_, _) => EvalLoop(w, p, s, env, tr, fuel)
    case For(init, _, _, _) =>
      var first := if init.Some? then EvalStmt(w, p, init.value, Enter(env), tr, fuel) else Normal(Enter(env), tr);
      (match first
       case Normal(env1, tr1) => LeaveStmt(EvalLoop(w, p, s, env1, tr1, fuel))
       case o => LeaveStmt(o))
    case Break => Broke(env, tr)
    case Continue => Continued(env, tr)
    case Empty => Normal(env, tr)
  }

  function LoopCond(s: Stmt): (r: Option<Expr>)
    requires s.While? || s.For?
    ensures r.Some? ==> r.value < s
  {
    if s.While? then Some(s.wcond) else s.fcond
  }

  function LoopBody(s: Stmt): (r: Stmt)
    requires s.While? || s.For?
    ensures r < s
  {
    if s.While? then s.wbody else s.fbody
  }

  function LoopPost(s: Stmt): (r: Option<Expr>)
    requires s.While? || s.For?
    ensures r.Some? ==> r.value < s
  {
    if s.While? then None else s.fpost
  }

  /** The rounds of a loop: an absent condition is true, `continue` still runs
      the post expression. */
  function EvalLoop(w: World, p: Program, s: Stmt, env: Env, tr: Trace, fuel: nat): StmtOut
    requires s.While? || s.For?
    decreases 2 * fuel + 1, s, 1
  {
    match (if LoopCond(s).Some? then EvalExpr(w, p, LoopCond(s).value, env, tr, fuel) else Val(1, env, tr))
    case Val(v, env1, tr1) =>
      if v == 0 then Normal(env1, tr1)
      else (
        match EvalStmt(w, p, LoopBody(s), env1, tr1, fuel)
        case Broke(env2, tr2) => Normal(env2, tr2)
        case Normal(env2, tr2) => EvalRest(w, p, s, env2, tr2, fuel)
        case Continued(env2, tr2) => EvalRest(w, p, s, env2, tr2, fuel)
        case o => o)
    case o => FromExpr(o)
  }

  /** The post expression and every later round. */
  function EvalRest(w: World, p: Program, s: Stmt, env: Env, tr: Trace, fuel: nat): StmtOut
    requires s.While? || s.For?
    decreases 2 * fuel + 1, s, 0
  {
    match (if LoopPost(s).Some? then EvalExpr(w, p, LoopPost(s).value, env, tr, fuel) else Val(0, env, tr))
    case Val(_, env1, tr1) => if fuel == 0 then STimeout(tr1) else EvalLoop(w, p, s, env1, tr1, fuel - 1)
    case o => FromExpr(o)
  }
}
