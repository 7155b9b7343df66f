/** The code generator. `Emit*` say which instructions each construct becomes,
    given the label counter, the number of live pushes and the enclosing loops. */
module MiniCCodegen {
  import opened Wrappers
  import opened MiniCAst
  import opened MiniCMachine

  datatype Piece = Piece(code: seq<Instr>, next: nat)

  /** Where `continue` and `break` go. */
  datatype Loop = Loop(cont: Label, brk: Label)

  function CondOf(op: BinaryOp): Cond {
    match op
    case Eq => CE
    case Ne => CNE
    case Lt => CL
    case Le => CLE
    case Gt => CG
    case _ => CGE
  }

  function UnaryTail(op: UnaryOp): seq<Instr> {
    match op
    case Neg => [NegReg(AX)]
    case BitNot => [NotReg(AX)]
    case Not => [CmpImm(AX, 0), SetAl(CE), MovzxEaxAl]
  }

  /** From the left operand in ecx and the right one in eax. */
  function BinaryTail(op: BinaryOp): seq<Instr> {
    match op
    case Add => [AddReg(AX, CX)]
    case Sub => [SubReg(CX, AX), MovReg(AX, CX)]
    case Mul => [IMulReg(AX, CX)]
    case Div => [MovReg(R11, AX), MovReg(AX, CX), Cdq, IDiv(R11)]
    case Mod => [MovReg(R11, AX), MovReg(AX, CX), Cdq, IDiv(R11), MovReg(AX, DX)]
    case BitAnd => [AndReg(AX, CX)]
    case BitOr => [OrReg(AX, CX)]
    case BitXor => [XorReg(AX, CX)]
    case _ => [CmpReg(CX, AX), SetAl(CondOf(op)), MovzxEaxAl]
  }

  function ShortJump(op: LogicalOp, l: Label): Instr { if op.And? then Je(l) else Jne(l) }

  /** Pops the last k pushed arguments into their registers. */
  function Pops(k: nat): seq<Instr>
    requires k <= |ARG_REGS|
  {
    if k == 0 then [] else [Pop(ARG_REGS[k - 1])] + Pops(k - 1)
  }

  function PadBefore(d: nat): seq<Instr> { if d % 2 != 0 then [SubSp(8)] else [] }

  function PadAfter(d: nat): seq<Instr> { if d % 2 != 0 then [AddSp(8)] else [] }

  function EmitExpr(e: Expr, n: nat, d: nat): Piece
    requires CallsFit(e)
    decreases e, 1
  {
    match e
    case IntLit(v) => Piece([MovImm(AX, v)], n)
    case VarRef(_, s) => Piece([MovLoad(AX, s)], n)
    case Assign(_, e1, s) =>
      var a := EmitExpr(e1, n, d);
      Piece(a.code + [MovStore(s, AX)], a.next)
    case Unary(op, e1) =>
      var a := EmitExpr(e1, n, d);
      Piece(a.code + UnaryTail(op), a.next)
    case Binary(op, e1, e2) =>
      var a := EmitExpr(e1, n, d);
      var b := EmitExpr(e2, a.next, d + 1);
      Piece(a.code + ([Push(AX)] + (b.code + ([Pop(CX)] + BinaryTail(op)))), b.next)
    case Logical(op, e1, e2) =>
      var short := ShortLabel(op, n);
      var end := Local("Llogic_end", n + 1);
      var a := EmitExpr(e1, n + 2, d);
      var b := EmitExpr(e2, a.next, d);
      Piece(a.code + ([CmpImm(AX, 0), ShortJump(op, short)] + (b.code + LogicalTail(op, short, end))), b.next)
    case Call(f, args) =>
      var a := EmitArgs(args, n, d);
      Piece(a.code + (Pops(|args|) + (PadBefore(d) + ([CallFn(f)] + PadAfter(d)))), a.next)
  }

  function ShortLabel(op: LogicalOp, n: nat): Label {
    Local(if op.And? then "Land_false" else "Lor_true", n)
  }

  function LogicalTail(op: LogicalOp, short: Label, end: Label): seq<Instr> {
    [CmpImm(AX, 0), ShortJump(op, short), MovImm(AX, if op.And? then 1 else 0), Jmp(end),
     Lab(short), MovImm(AX, if op.And? then 0 else 1), Lab(end)]
  }

  function EmitArgs(args: seq<Expr>, n: nat, d: nat): Piece
    requires ArgsFit(args)
    decreases args, 0
  {
    if args == [] then Piece([], n)
    else
      var a := EmitArgs(args[..|args| - 1], n, d);
      var b := EmitExpr(args[|args| - 1], a.next, d + |args| - 1);
      Piece(a.code + (b.code + [Push(AX)]), b.next)
  }

  /** No call passes more arguments than there are registers. */
  predicate CallsFit(e: Expr)
    decreases e, 1
  {
    match e
    case IntLit(_) => true
    case VarRef(_, _) => true
    case Assign(_, e1, _) => CallsFit(e1)
    case Unary(_, e1) => CallsFit(e1)
    case Binary(_, e1, e2) => CallsFit(e1) && CallsFit(e2)
    case Logical(_, e1, e2) => CallsFit(e1) && CallsFit(e2)
    case Call(_, args) => |args| <= |ARG_REGS| && ArgsFit(args)
  }

  predicate ArgsFit(args: seq<Expr>)
    decreases args, 0
  {
    args == [] || (ArgsFit(args[..|args| - 1]) && CallsFit(args[|args| - 1]))
  }

  predicate MaybeFits(e: Option<Expr>) { e.None? || CallsFit(e.value) }

  /** Every call fits and no `break` or `continue` stands outside a loop. */
  predicate StmtFits(s: Stmt, inLoop: bool)
    decreases s, 1
  {
    match s
    case VarDecl(_, init, _) => MaybeFits(init)
    case ExprStmt(e) => CallsFit(e)
    case Return(e) => MaybeFits(e)
    case Block(items) => ItemsFit(items, inLoop)
    case If(c, thn, els) =>
      CallsFit(c) && StmtFits(thn, inLoop) && (els.Some? ==> StmtFits(els.value, inLoop))
    case While(c, body) => CallsFit(c) && StmtFits(body, true)
    case For(init, c, post, body) =>
      (init.Some? ==> StmtFits(init.value, inLoop)) && MaybeFits(c) && MaybeFits(post) && StmtFits(body, true)
    case Break => inLoop
    case Continue => inLoop
    case Empty => true
  }

  predicate ItemsFit(items: seq<Stmt>, inLoop: bool)
    decreases items, 0
  {
    items == [] || (ItemsFit(items[..|items| - 1], inLoop) && StmtFits(items[|items| - 1], inLoop))
  }

  /** Every declared slot of a statement is an own cell inside the frame. */
  predicate SlotOk(slot: int, size: int) { -size <= slot < 0 && slot % 8 == 0 }

  predicate SlotsFit(s: Stmt, size: int)
    decreases s, 1
  {
    match s
    case VarDecl(_, _, slot) => SlotOk(slot, size)
    case Block(items) => ItemSlotsFit(items, size)
    case If(_, thn, els) => SlotsFit(thn, size) && (els.Some? ==> SlotsFit(els.value, size))
    case While(_, body) => SlotsFit(body, size)
    case For(init, _, _, body) => (init.Some? ==> SlotsFit(init.value, size)) && SlotsFit(body, size)
    case _ => true
  }

  predicate ItemSlotsFit(items: seq<Stmt>, size: int)
    decreases items, 0
  {
    items == [] || (ItemSlotsFit(items[..|items| - 1], size) && SlotsFit(items[|items| - 1], size))
  }

  predicate FrameFits(f: Function) {
    && f.frameSize >= 0 && f.frameSize % 16 == 0
    && (forall i :: 0 <= i < |f.params| ==> SlotOk(f.params[i].slot, f.frameSize))
    && (f.body.Some? ==> ItemSlotsFit(f.body.value, f.frameSize))
  }

  function EmitMaybe(e: Option<Expr>, absent: seq<Instr>, n: nat, d: nat): Piece
    requires MaybeFits(e)
  {
    if e.Some? then EmitExpr(e.value, n, d) else Piece(absent, n)
  }

  /** The exit test of a loop: nothing at all when there is no condition. */
  function EmitTest(e: Option<Expr>, end: Label, n: nat, d: nat): Piece
    requires MaybeFits(e)
  {
    if e.None? then Piece([], n)
    else
      var c := EmitExpr(e.value, n, d);
      Piece(c.code + [CmpImm(AX, 0), Je(end)], c.next)
  }

  function EmitStmt(s: Stmt, n: nat, loops: seq<Loop>, d: nat): Piece
    requires StmtFits(s, loops != [])
    decreases s, 1
  {
    match s
    case VarDecl(_, init, slot) =>
      var a := EmitMaybe(init, [MovImm(AX, 0)], n, d);
      Piece(a.code + [MovStore(slot, AX)], a.next)
    case ExprStmt(e) => EmitExpr(e, n, d)
    case Return(e) =>
      var a := EmitMaybe(e, [MovImm(AX, 0)], n, d);
      Piece(a.code + [LeaveFrame, Ret], a.next)
    case Block(items) => EmitItems(items, n, loops, d)
    case If(c, thn, els) =>
      var lelse := Local("Lelse", n);
      var a := EmitExpr(c, n + 1, d);
      var b := EmitStmt(thn, a.next, loops, d);
      if els.Some? then
        var lend := Local("Lend", b.next);
        var e := EmitStmt(els.value, b.next + 1, loops, d);
        Piece(a.code + ([CmpImm(AX, 0), Je(lelse)] + (b.code + ([Jmp(lend), Lab(lelse)] + (e.code + [Lab(lend)])))), e.next)
      else
        Piece(a.code + ([CmpImm(AX, 0), Je(lelse)] + (b.code + [Lab(lelse)])), b.next)
    case While(c, body) =>
      var start := Local("Lwhile", n);
      var end := Local("Lwhileend", n + 1);
      var a := EmitTest(Some(c), end, n + 2, d);
      var b := EmitStmt(body, a.next, loops + [Loop(start, end)], d);
      Piece([Lab(start)] + (a.code + (b.code + [Jmp(start), Lab(end)])), b.next)
    case For(init, c, post, body) =>
      var start := Local("Lfor", n);
      var lpost := Local("Lforpost", n + 1);
      var end := Local("Lforend", n + 2);
      var i := if init.Some? then EmitStmt(init.value, n + 3, loops, d) else Piece([], n + 3);
      var a := EmitTest(c, end, i.next, d);
      var b := EmitStmt(body, a.next, loops + [Loop(lpost, end)], d);
      var p := EmitMaybe(post, [], b.next, d);
      Piece(i.code + ([Lab(start)] + (a.code + (b.code + ([Lab(lpost)] + (p.code + [Jmp(start), Lab(end)]))))), p.next)
    case Break => Piece([Jmp(loops[|loops| - 1].brk)], n)
    case Continue => Piece([Jmp(loops[|loops| - 1].cont)], n)
    case Empty => Piece([], n)
  }

  function EmitItems(items: seq<Stmt>, n: nat, loops: seq<Loop>, d: nat): Piece
    requires ItemsFit(items, loops != [])
    decreases items, 0
  {
    if items == [] then Piece([], n)
    else
      var a := EmitItems(items[..|items| - 1], n, loops, d);
      var b := EmitStmt(items[|items| - 1], a.next, loops, d);
      Piece(a.code + b.code, b.next)
  }

  function StoreParams(ps: seq<Param>): seq<Instr>
    requires |ps| <= |ARG_REGS|
  {
    if ps == [] then []
    else StoreParams(ps[..|ps| - 1]) + [MovStore(ps[|ps| - 1].slot, ARG_REGS[|ps| - 1])]
  }

  predicate FunctionFits(f: Function) {
    |f.params| <= |ARG_REGS| && (f.body.Some? ==> ItemsFit(f.body.value, false))
  }

  function Prologue(f: Function): seq<Instr> {
    [Lab(Fn(f.name)), PushBp, MovBpSp] + (if f.frameSize > 0 then [SubSp(f.frameSize)] else [])
  }

  function EmitFunction(f: Function, n: nat): Piece
    requires FunctionFits(f) && f.body.Some?
  {
    var b := EmitItems(f.body.value, n, [], 0);
    Piece(Prologue(f) + (StoreParams(f.params) + (b.code + [MovImm(AX, 0), LeaveFrame, Ret])), b.next)
  }

  predicate ProgramFits(p: Program) { forall i :: 0 <= i < |p| ==> FunctionFits(p[i]) }

  function EmitProgram(p: Program, n: nat): Piece
    requires ProgramFits(p)
  {
    if p == [] then Piece([], n)
    else
      var a := EmitProgram(p[..|p| - 1], n);
      if p[|p| - 1].body.None? then a
      else
        var b := EmitFunction(p[|p| - 1], a.next);
        Piece(a.code + b.code, b.next)
  }

  // ----- the shapes of the longer pieces -----

  lemma IfCode(s: Stmt, n: nat, loops: seq<Loop>, d: nat)
    requires StmtFits(s, loops != []) && s.If?
    ensures var a := EmitExpr(s.cond, n + 1, d); var b := EmitStmt(s.thn, a.next, loops, d);
      var lelse := Local("Lelse", n); var test := [CmpImm(AX, 0), Je(lelse)];
      if s.els.Some? then
        var e := EmitStmt(s.els.value, b.next + 1, loops, d); var lend := Local("Lend", b.next);
        EmitStmt(s, n, loops, d).code == a.code + (test + (b.code + ([Jmp(lend)] + ([Lab(lelse)] + (e.code + [Lab(lend)])))))
      else
        EmitStmt(s, n, loops, d).code == a.code + (test + (b.code + [Lab(lelse)]))
  {
    hide EmitExpr;
    var b := EmitStmt(s.thn, EmitExpr(s.cond, n + 1, d).next, loops, d);
    if s.els.Some? {
      Regroup(Jmp(Local("Lend", b.next)), Lab(Local("Lelse", n)),
              EmitStmt(s.els.value, b.next + 1, loops, d).code + [Lab(Local("Lend", b.next))]);
    }
  }

  lemma Regroup(x: Instr, y: Instr, z: seq<Instr>)
    ensures [x, y] + z == [x] + ([y] + z)
  {
  }

  lemma IfNext(s: Stmt, n: nat, loops: seq<Loop>, d: nat)
    requires StmtFits(s, loops != []) && s.If?
    ensures var b := EmitStmt(s.thn, EmitExpr(s.cond, n + 1, d).next, loops, d);
      EmitStmt(s, n, loops, d).next == if s.els.Some? then EmitStmt(s.els.value, b.next + 1, loops, d).next else b.next
  {
    hide EmitExpr;
  }

  ghost function ForFirst(s: Stmt, n: nat, loops: seq<Loop>, d: nat): Piece
    requires StmtFits(s, loops != []) && s.For?
  {
    if s.finit.Some? then EmitStmt(s.finit.value, n + 3, loops, d) else Piece([], n + 3)
  }

  lemma ForCode(s: Stmt, n: nat, loops: seq<Loop>, d: nat)
    requires StmtFits(s, loops != []) && s.For?
    ensures
      var start := Local("Lfor", n); var lpost := Local("Lforpost", n + 1); var end := Local("Lforend", n + 2);
      var i := ForFirst(s, n, loops, d); var a := EmitTest(s.fcond, end, i.next, d);
      var b := EmitStmt(s.fbody, a.next, loops + [Loop(lpost, end)], d); var p := EmitMaybe(s.fpost, [], b.next, d);
      EmitStmt(s, n, loops, d).code ==
        i.code + ([Lab(start)] + (a.code + (b.code + ([Lab(lpost)] + (p.code + ([Jmp(start)] + [Lab(end)]))))))
  {
    hide EmitTest, EmitMaybe, EmitExpr;
  }

  lemma WhileCode(s: Stmt, n: nat, loops: seq<Loop>, d: nat)
    requires StmtFits(s, loops != []) && s.While?
    ensures
      var start := Local("Lwhile", n); var end := Local("Lwhileend", n + 1);
      var a := EmitTest(Some(s.wcond), end, n + 2, d); var b := EmitStmt(s.wbody, a.next, loops + [Loop(start, end)], d);
      EmitStmt(s, n, loops, d) == Piece([Lab(start)] + (a.code + (b.code + ([Jmp(start)] + [Lab(end)]))), b.next)
  {
    hide EmitTest, EmitExpr, CallsFit;
  }

  lemma ForNext(s: Stmt, n: nat, loops: seq<Loop>, d: nat)
    requires StmtFits(s, loops != []) && s.For?
    ensures
      var lpost := Local("Lforpost", n + 1); var end := Local("Lforend", n + 2);
      var a := EmitTest(s.fcond, end, ForFirst(s, n, loops, d).next, d);
      var b := EmitStmt(s.fbody, a.next, loops + [Loop(lpost, end)], d);
      EmitStmt(s, n, loops, d).next == EmitMaybe(s.fpost, [], b.next, d).next
  {
    hide EmitTest, EmitMaybe, EmitExpr;
  }

  lemma LogicalCode(e: Expr, n: nat, d: nat)
    requires CallsFit(e) && e.Logical?
    ensures var a := EmitExpr(e.left, n + 2, d); var b := EmitExpr(e.second, a.next, d);
      var short := ShortLabel(e.lop, n); var end := Local("Llogic_end", n + 1);
      EmitExpr(e, n, d) ==
        Piece(a.code + ([CmpImm(AX, 0), ShortJump(e.lop, short)] + (b.code + LogicalTail(e.lop, short, end))), b.next)
  {
    hide LogicalTail, ShortJump;
  }

  lemma Assoc4(o: seq<Instr>, a: seq<Instr>, b: seq<Instr>, c: seq<Instr>, e: seq<Instr>)
    ensures o + a + b + c + e == o + (a + (b + (c + e)))
  {
  }

  lemma Assoc3(o: seq<Instr>, a: seq<Instr>, b: seq<Instr>, c: seq<Instr>)
    ensures o + a + b + c == o + (a + (b + c))
  {
  }

  lemma Assoc2(o: seq<Instr>, a: seq<Instr>, b: seq<Instr>)
    ensures o + a + b == o + (a + b)
  {
  }

  /** The generator itself: an output it appends to, a label counter, the number
      of live pushes and the stack of enclosing loops. */
  class Codegen {
    var out: seq<Instr>
    var labelCounter: nat
    var tempDepth: nat
    var loopStack: seq<Loop>

    constructor ()
      ensures out == [] && labelCounter == 0 && tempDepth == 0 && loopStack == []
    {
      out, labelCounter, tempDepth, loopStack := [], 0, 0, [];
    }

    method NewLabel(prefix: string) returns (l: Label)
      modifies this`labelCounter
      ensures l == Local(prefix, old(labelCounter)) && labelCounter == old(labelCounter) + 1
    {
      l := Local(prefix, labelCounter);
      labelCounter := labelCounter + 1;
    }

    method Emit(code: seq<Instr>)
      modifies this`out
      ensures out == old(out) + code
    {
      out := out + code;
    }

    method EmitPush(r: Reg)
      modifies this`out, this`tempDepth
      ensures out == old(out) + [Push(r)] && tempDepth == old(tempDepth) + 1
    {
      Emit([Push(r)]);
      tempDepth := tempDepth + 1;
    }

    method EmitPop(r: Reg)
      requires tempDepth > 0
      modifies this`out, this`tempDepth
      ensures out == old(out) + [Pop(r)] && tempDepth == old(tempDepth) - 1
    {
      Emit([Pop(r)]);
      tempDepth := tempDepth - 1;
    }

    method EmitExpression(e: Expr)
      requires CallsFit(e)
      modifies this`out, this`labelCounter, this`tempDepth
      ensures out == old(out) + EmitExpr(e, old(labelCounter), old(tempDepth)).code
      ensures labelCounter == EmitExpr(e, old(labelCounter), old(tempDepth)).next && tempDepth == old(tempDepth)
      decreases e, 1
    {
      match e {
        case IntLit(v) => Emit([MovImm(AX, v)]);
        case VarRef(_, s) => Emit([MovLoad(AX, s)]);
        case Assign(_, e1, s) =>
          EmitExpression(e1);
          Emit([MovStore(s, AX)]);
        case Unary(op, e1) =>
          EmitExpression(e1);
          Emit(UnaryTail(op));
        case Binary(_, _, _) => EmitBinary(e);
        case Logical(_, _, _) => EmitLogical(e);
        case Call(_, _) => EmitCall(e);
      }
    }

    method EmitBinary(e: Expr)
      requires CallsFit(e) && e.Binary?
      modifies this`out, this`labelCounter, this`tempDepth
      ensures out == old(out) + EmitExpr(e, old(labelCounter), old(tempDepth)).code
      ensures labelCounter == EmitExpr(e, old(labelCounter), old(tempDepth)).next && tempDepth == old(tempDepth)
      decreases e, 0
    {
      hide BinaryTail;
      ghost var o, n, d := out, labelCounter, tempDepth;
      EmitExpression(e.lhs);
      ghost var a := EmitExpr(e.lhs, n, d);
      EmitPush(AX);
      EmitExpression(e.right);
      ghost var b := EmitExpr(e.right, a.next, d + 1);
      EmitPop(CX);
      Emit(BinaryTail(e.bop));
      Assoc2(o + a.code + [Push(AX)] + b.code, [Pop(CX)], BinaryTail(e.bop));
      Assoc4(o, a.code, [Push(AX)], b.code, [Pop(CX)] + BinaryTail(e.bop));
    }

    method EmitLogical(e: Expr)
      requires CallsFit(e) && e.Logical?
      modifies this`out, this`labelCounter, this`tempDepth
      ensures out == old(out) + EmitExpr(e, old(labelCounter), old(tempDepth)).code
      ensures labelCounter == EmitExpr(e, old(labelCounter), old(tempDepth)).next && tempDepth == old(tempDepth)
      decreases e, 0
    {
      hide LogicalTail, EmitExpr, ShortJump;
      LogicalCode(e, labelCounter, tempDepth);
      ghost var o, n, d := out, labelCounter, tempDepth;
      var short := NewLabel(if e.lop.And? then "Land_false" else "Lor_true");
      var end := NewLabel("Llogic_end");
      EmitExpression(e.left);
      ghost var a := EmitExpr(e.left, n + 2, d);
      Emit([CmpImm(AX, 0), ShortJump(e.lop, short)]);
      EmitExpression(e.second);
      ghost var b := EmitExpr(e.second, a.next, d);
      Emit(LogicalTail(e.lop, short, end));
      Assoc4(o, a.code, [CmpImm(AX, 0), ShortJump(e.lop, short)], b.code, LogicalTail(e.lop, short, end));
    }

    method EmitArguments(args: seq<Expr>)
      requires ArgsFit(args)
      modifies this`out, this`labelCounter, this`tempDepth
      ensures out == old(out) + EmitArgs(args, old(labelCounter), old(tempDepth)).code
      ensures labelCounter == EmitArgs(args, old(labelCounter), old(tempDepth)).next
      ensures tempDepth == old(tempDepth) + |args|
      decreases args, 0
    {
      hide EmitExpr, CallsFit;
      ghost var o, n, d := out, labelCounter, tempDepth;
      var i := 0;
      while i < |args|
        invariant 0 <= i <= |args| && ArgsFit(args[..i])
        invariant out == o + EmitArgs(args[..i], n, d).code
        invariant labelCounter == EmitArgs(args[..i], n, d).next
        invariant tempDepth == d + i
      {
        PrefixFits(args, i + 1);
        assert args[..i + 1][..i] == args[..i];
        ghost var a := EmitArgs(args[..i], n, d);
        EmitExpression(args[i]);
        ghost var b := EmitExpr(args[i], a.next, d + i);
        EmitPush(AX);
        Assoc3(o, a.code, b.code, [Push(AX)]);
        i := i + 1;
      }
      assert args[..i] == args;
    }

    method EmitPops(k: nat)
      requires k <= |ARG_REGS| && k <= tempDepth
      modifies this`out, this`tempDepth
      ensures out == old(out) + Pops(k) && tempDepth == old(tempDepth) - k
    {
      var j := k;
      while j > 0
        invariant 0 <= j <= k && tempDepth == old(tempDepth) - k + j
        invariant out + Pops(j) == old(out) + Pops(k)
      {
        Assoc2(out, [Pop(ARG_REGS[j - 1])], Pops(j - 1));
        EmitPop(ARG_REGS[j - 1]);
        j := j - 1;
      }
    }

    method EmitCall(e: Expr)
      requires CallsFit(e) && e.Call?
      modifies this`out, this`labelCounter, this`tempDepth
      ensures out == old(out) + EmitExpr(e, old(labelCounter), old(tempDepth)).code
      ensures labelCounter == EmitExpr(e, old(labelCounter), old(tempDepth)).next && tempDepth == old(tempDepth)
      decreases e, 0
    {
      hide EmitArgs, Pops;
      ghost var o, n, d := out, labelCounter, tempDepth;
      EmitArguments(e.args);
      EmitPops(|e.args|);
      ghost var a, ps := EmitArgs(e.args, n, d).code, Pops(|e.args|);
      var pad := tempDepth % 2 != 0;
      if pad {
        Emit([SubSp(8)]);
      }
      Emit([CallFn(e.callee)]);
      if pad {
        Emit([AddSp(8)]);
      }
      assert out == o + a + ps + PadBefore(d) + [CallFn(e.callee)] + PadAfter(d);
      Assoc2(o + a + ps + PadBefore(d), [CallFn(e.callee)], PadAfter(d));
      Assoc4(o, a, ps, PadBefore(d), [CallFn(e.callee)] + PadAfter(d));
    }

    method EmitOptional(e: Option<Expr>, absent: seq<Instr>)
      requires MaybeFits(e)
      modifies this`out, this`labelCounter, this`tempDepth
      ensures out == old(out) + EmitMaybe(e, absent, old(labelCounter), old(tempDepth)).code
      ensures labelCounter == EmitMaybe(e, absent, old(labelCounter), old(tempDepth)).next && tempDepth == old(tempDepth)
    {
      if e.Some? {
        EmitExpression(e.value);
      } else {
        Emit(absent);
      }
    }

    method EmitExitTest(e: Option<Expr>, end: Label)
      requires MaybeFits(e)
      modifies this`out, this`labelCounter, this`tempDepth
      ensures out == old(out) + EmitTest(e, end, old(labelCounter), old(tempDepth)).code
      ensures labelCounter == EmitTest(e, end, old(labelCounter), old(tempDepth)).next && tempDepth == old(tempDepth)
    {
      if e.Some? {
        EmitExpression(e.value);
        Emit([CmpImm(AX, 0), Je(end)]);
      }
    }

    method EmitStatement(s: Stmt)
      requires StmtFits(s, loopStack != [])
      modifies this
      ensures out == old(out) + EmitStmt(s, old(labelCounter), old(loopStack), old(tempDepth)).code
      ensures labelCounter == EmitStmt(s, old(labelCounter), old(loopStack), old(tempDepth)).next
      ensures tempDepth == old(tempDepth) && loopStack == old(loopStack)
      decreases s, 2
    {
      match s {
        case VarDecl(_, init, slot) =>
          EmitOptional(init, [MovImm(AX, 0)]);
          Emit([MovStore(slot, AX)]);
        case ExprStmt(e) => EmitExpression(e);
        case Return(e) =>
          EmitOptional(e, [MovImm(AX, 0)]);
          Emit([LeaveFrame, Ret]);
        case Block(items) => EmitBlock(items);
        case If(_, _, _) => EmitIf(s);
        case While(_, _) => EmitWhile(s);
        case For(_, _, _, _) => EmitFor(s);
        case Break => Emit([Jmp(loopStack[|loopStack| - 1].brk)]);
        case Continue => Emit([Jmp(loopStack[|loopStack| - 1].cont)]);
        case Empty =>
      }
    }

    method EmitIf(s: Stmt)
      requires s.If? && StmtFits(s, loopStack != [])
      modifies this
      ensures out == old(out) + EmitStmt(s, old(labelCounter), old(loopStack), old(tempDepth)).code
      ensures labelCounter == EmitStmt(s, old(labelCounter), old(loopStack), old(tempDepth)).next
      ensures tempDepth == old(tempDepth) && loopStack == old(loopStack)
      decreases s, 1
    {
      hide EmitStmt, EmitExpr;
      IfCode(s, labelCounter, loopStack, tempDepth);
      IfNext(s, labelCounter, loopStack, tempDepth);
      ghost var o, n := out, labelCounter;
      var lelse := NewLabel("Lelse");
      EmitExpression(s.cond);
      ghost var a := EmitExpr(s.cond, n + 1, tempDepth);
      Emit([CmpImm(AX, 0), Je(lelse)]);
      EmitStatement(s.thn);
      ghost var b := EmitStmt(s.thn, a.next, loopStack, tempDepth);
      if s.els.Some? {
        var lend := NewLabel("Lend");
        ghost var o2 := out;
        Emit([Jmp(lend), Lab(lelse)]);
        EmitStatement(s.els.value);
        ghost var c := EmitStmt(s.els.value, b.next + 1, loopStack, tempDepth);
        Emit([Lab(lend)]);
        ghost var rest := [Jmp(lend)] + ([Lab(lelse)] + (c.code + [Lab(lend)]));
        Assoc3(o2, [Jmp(lend), Lab(lelse)], c.code, [Lab(lend)]);
        Regroup(Jmp(lend), Lab(lelse), c.code + [Lab(lend)]);
        Assoc4(o, a.code, [CmpImm(AX, 0), Je(lelse)], b.code, rest);
      } else {
        Emit([Lab(lelse)]);
        Assoc4(o, a.code, [CmpImm(AX, 0), Je(lelse)], b.code, [Lab(lelse)]);
      }
    }

    method EmitWhile(s: Stmt)
      requires s.While? && StmtFits(s, loopStack != [])
      modifies this
      ensures out == old(out) + EmitStmt(s, old(labelCounter), old(loopStack), old(tempDepth)).code
      ensures labelCounter == EmitStmt(s, old(labelCounter), old(loopStack), old(tempDepth)).next
      ensures tempDepth == old(tempDepth) && loopStack == old(loopStack)
      decreases s, 1
    {
      hide EmitStmt, EmitExpr, EmitTest, CallsFit;
      WhileCode(s, labelCounter, loopStack, tempDepth);
      ghost var o, n, loops, d := out, labelCounter, loopStack, tempDepth;
      var start := NewLabel("Lwhile");
      var end := NewLabel("Lwhileend");
      Emit([Lab(start)]);
      EmitExitTest(Some(s.wcond), end);
      ghost var a := EmitTest(Some(s.wcond), end, n + 2, d);
      loopStack := loopStack + [Loop(start, end)];
      EmitStatement(s.wbody);
      ghost var b := EmitStmt(s.wbody, a.next, loops + [Loop(start, end)], d);
      loopStack := loopStack[..|loopStack| - 1];
      Emit([Jmp(start), Lab(end)]);
      assert [Jmp(start), Lab(end)] == [Jmp(start)] + [Lab(end)];
      Assoc4(o, [Lab(start)], a.code, b.code, [Jmp(start)] + [Lab(end)]);
    }

    method EmitFor(s: Stmt)
      requires s.For? && StmtFits(s, loopStack != [])
      modifies this
      ensures out == old(out) + EmitStmt(s, old(labelCounter), old(loopStack), old(tempDepth)).code
      ensures labelCounter == EmitStmt(s, old(labelCounter), old(loopStack), old(tempDepth)).next
      ensures tempDepth == old(tempDepth) && loopStack == old(loopStack)
      decreases s, 1
    {
      hide EmitStmt, EmitExpr, EmitTest, EmitMaybe;
      ForCode(s, labelCounter, loopStack, tempDepth);
      ForNext(s, labelCounter, loopStack, tempDepth);
      ghost var o, n, loops, d := out, labelCounter, loopStack, tempDepth;
      var start := NewLabel("Lfor");
      var lpost := NewLabel("Lforpost");
      var end := NewLabel("Lforend");
      ghost var i := ForFirst(s, n, loops, d);
      if s.finit.Some? {
        EmitStatement(s.finit.value);
      }
      assert out == o + i.code && labelCounter == i.next;
      Emit([Lab(start)]);
      EmitExitTest(s.fcond, end);
      ghost var a := EmitTest(s.fcond, end, i.next, d);
      loopStack := loopStack + [Loop(lpost, end)];
      EmitStatement(s.fbody);
      ghost var b := EmitStmt(s.fbody, a.next, loops + [Loop(lpost, end)], d);
      loopStack := loopStack[..|loopStack| - 1];
      ghost var o2 := out;
      Emit([Lab(lpost)]);
      EmitOptional(s.fpost, []);
      ghost var p := EmitMaybe(s.fpost, [], b.next, d);
      Emit([Jmp(start), Lab(end)]);
      assert [Jmp(start), Lab(end)] == [Jmp(start)] + [Lab(end)];
      ghost var back := [Jmp(start)] + [Lab(end)];
      Assoc3(o2, [Lab(lpost)], p.code, back);
      ghost var tail := [Lab(lpost)] + (p.code + back);
      Assoc4(o + i.code, [Lab(start)], a.code, b.code, tail);
      Assoc2(o, i.code, [Lab(start)] + (a.code + (b.code + tail)));
    }

    method EmitBlock(items: seq<Stmt>)
      requires ItemsFit(items, loopStack != [])
      modifies this
      ensures out == old(out) + EmitItems(items, old(labelCounter), old(loopStack), old(tempDepth)).code
      ensures labelCounter == EmitItems(items, old(labelCounter), old(loopStack), old(tempDepth)).next
      ensures tempDepth == old(tempDepth) && loopStack == old(loopStack)
      decreases items, 0
    {
      hide EmitStmt, StmtFits;
      ghost var o, n := out, labelCounter;
      var i := 0;
      while i < |items|
        invariant 0 <= i <= |items| && ItemsFit(items[..i], loopStack != [])
        invariant out == o + EmitItems(items[..i], n, loopStack, tempDepth).code
        invariant labelCounter == EmitItems(items[..i], n, loopStack, tempDepth).next
        invariant tempDepth == old(tempDepth) && loopStack == old(loopStack)
      {
        ItemPrefixFits(items, i + 1, loopStack != []);
        assert items[..i + 1][..i] == items[..i];
        ghost var a := EmitItems(items[..i], n, loopStack, tempDepth);
        EmitStatement(items[i]);
        Assoc2(o, a.code, EmitStmt(items[i], a.next, loopStack, tempDepth).code);
        i := i + 1;
      }
      assert items[..i] == items;
    }

    method EmitFunctionDecl(f: Function)
      requires FunctionFits(f) && f.body.Some? && loopStack == []
      modifies this
      ensures out == old(out) + EmitFunction(f, old(labelCounter)).code
      ensures labelCounter == EmitFunction(f, old(labelCounter)).next && loopStack == []
    {
      hide EmitItems, StoreParams;
      ghost var o := out;
      Emit([Lab(Fn(f.name))]);
      Emit([PushBp]);
      Emit([MovBpSp]);
      if f.frameSize > 0 {
        Emit([SubSp(f.frameSize)]);
      }
      assert out == o + Prologue(f);
      tempDepth := 0;
      EmitParams(f.params);
      EmitBlock(f.body.value);
      Emit([MovImm(AX, 0), LeaveFrame, Ret]);
      Assoc4(o, Prologue(f), StoreParams(f.params), EmitItems(f.body.value, old(labelCounter), [], 0).code, [MovImm(AX, 0), LeaveFrame, Ret]);
    }

    method EmitParams(ps: seq<Param>)
      requires |ps| <= |ARG_REGS|
      modifies this`out
      ensures out == old(out) + StoreParams(ps)
    {
      var i := 0;
      while i < |ps|
        invariant 0 <= i <= |ps|
        invariant out == old(out) + StoreParams(ps[..i])
      {
        assert ps[..i + 1][..i] == ps[..i];
        Emit([MovStore(ps[i].slot, ARG_REGS[i])]);
        Assoc2(old(out), StoreParams(ps[..i]), [MovStore(ps[i].slot, ARG_REGS[i])]);
        i := i + 1;
      }
      assert ps[..i] == ps;
    }

    method EmitWholeProgram(p: Program)
      requires ProgramFits(p) && loopStack == []
      modifies this
      ensures out == old(out) + EmitProgram(p, old(labelCounter)).code
      ensures labelCounter == EmitProgram(p, old(labelCounter)).next
    {
      var i := 0;
      while i < |p|
        invariant 0 <= i <= |p| && loopStack == []
        invariant out == old(out) + EmitProgram(p[..i], old(labelCounter)).code
        invariant labelCounter == EmitProgram(p[..i], old(labelCounter)).next
      {
        assert p[..i + 1][..i] == p[..i];
        if p[i].body.Some? {
          ghost var a := EmitProgram(p[..i], old(labelCounter));
          EmitFunctionDecl(p[i]);
          Assoc2(old(out), a.code, EmitFunction(p[i], a.next).code);
        }
        i := i + 1;
      }
      assert p[..i] == p;
    }
  }

  lemma {:induction false} PrefixFits(args: seq<Expr>, k: nat)
    requires ArgsFit(args) && k <= |args|
    ensures ArgsFit(args[..k])
  {
    if k == |args| {
      assert args[..k] == args;
    } else {
      PrefixFits(args[..|args| - 1], k);
      assert args[..|args| - 1][..k] == args[..k];
    }
  }

  lemma {:induction false} ItemPrefixFits(items: seq<Stmt>, k: nat, inLoop: bool)
    requires ItemsFit(items, inLoop) && k <= |items|
    ensures ItemsFit(items[..k], inLoop)
  {
    if k == |items| {
      assert items[..k] == items;
    } else {
      ItemPrefixFits(items[..|items| - 1], k, inLoop);
      assert items[..|items| - 1][..k] == items[..k];
    }
  }
}
