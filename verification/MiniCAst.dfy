/** The syntax tree the mini-C parser hands to the resolver. Identifier nodes
    carry the frame offset that the resolver fills in (0 until then). */
module MiniCAst {
  import opened Wrappers

  datatype UnaryOp = Neg | Not | BitNot
  datatype BinaryOp =
    | Add | Sub | Mul | Div | Mod
    | Eq | Ne | Lt | Le | Gt | Ge
    | BitAnd | BitOr | BitXor
  datatype LogicalOp = And | Or

  datatype Expr =
    | IntLit(value: nat)
    | VarRef(name: string, slot: int)
    | Assign(name: string, rhs: Expr, slot: int)
    | Unary(uop: UnaryOp, operand: Expr)
    | Binary(bop: BinaryOp, lhs: Expr, right: Expr)
    | Logical(lop: LogicalOp, left: Expr, second: Expr)
    | Call(callee: string, args: seq<Expr>)

  datatype Stmt =
    | VarDecl(name: string, init: Option<Expr>, slot: int)
    | ExprStmt(expr: Expr)
    | Return(value: Option<Expr>)
    | Block(items: seq<Stmt>)
    | If(cond: Expr, thn: Stmt, els: Option<Stmt>)
    | While(wcond: Expr, wbody: Stmt)
    | For(finit: Option<Stmt>, fcond: Option<Expr>, fpost: Option<Expr>, fbody: Stmt)
    | Break
    | Continue
    | Empty

  datatype Param = Param(name: string, slot: int)

  /** A prototype has no body. The body is the item list of its block. */
  datatype Function = Function(name: string, params: seq<Param>, body: Option<seq<Stmt>>, frameSize: int)

  type Program = seq<Function>

  /** The statement shapes the parser builds: a declaration is only ever a block
      item or the first clause of a `for`, whose first clause is a declaration
      or an expression. */
  ghost predicate Parsed(s: Stmt) {
    match s
    case Block(items) => ParsedItems(items)
    case If(_, thn, els) =>
      Parsed(thn) && !thn.VarDecl? && (els.Some? ==> Parsed(els.value) && !els.value.VarDecl?)
    case While(_, body) => Parsed(body) && !body.VarDecl?
    case For(init, _, _, body) =>
      && (init.Some? ==> init.value.VarDecl? || init.value.ExprStmt?)
      && Parsed(body) && !body.VarDecl?
    case _ => true
  }

  ghost predicate ParsedItems(items: seq<Stmt>) {
    forall i :: 0 <= i < |items| ==> Parsed(items[i])
  }

  ghost predicate ParsedProgram(p: Program) {
    forall i :: 0 <= i < |p| && p[i].body.Some? ==> ParsedItems(p[i].body.value)
  }
}
