/** Emitting a whole program makes code that can be linked: no label occurs
    twice, and every definition's code sits at the label of its name.

    Local labels are numbered by one counter that never goes back, so the labels
    a construct places lie in the range of numbers it consumed and ranges of
    different constructs do not meet; function labels occur once because a program
    has at most one definition of each name. The last lemmas look up a definition's
    label in the finished program.
*/
module MiniCLink {
  import opened Wrappers
  import opened MiniCAst
  import opened MiniCSemantics
  import opened MiniCMachine
  import opened MiniCCodegen
  import opened MiniCExec
  import opened MiniCSimulation

  /** How often a label is placed. */
  function Count(code: seq<Instr>, l: Label): nat {
    if code == [] then 0 else (if code[0] == Lab(l) then 1 else 0) + Count(code[1..], l)
  }

  lemma {:induction false} CountCat(a: seq<Instr>, b: seq<Instr>, l: Label)
    ensures Count(a + b, l) == Count(a, l) + Count(b, l)
  {
    if a == [] {
      assert a + b == b;
    } else {
      assert (a + b)[1..] == a[1..] + b;
      CountCat(a[1..], b, l);
    }
  }

  lemma Distributes(l: Label)
    ensures forall a, b {:trigger Count(a + b, l)} :: Count(a + b, l) == Count(a, l) + Count(b, l)
  {
    forall a, b ensures Count(a + b, l) == Count(a, l) + Count(b, l) {
      CountCat(a, b, l);
    }
  }

  lemma {:induction false} NoLabels(code: seq<Instr>, l: Label)
    requires forall i :: 0 <= i < |code| ==> !code[i].Lab?
    ensures Count(code, l) == 0
  {
    if code != [] {
      NoLabels(code[1..], l);
    }
  }

  lemma Single(x: Label, l: Label)
    ensures Count([Lab(x)], l) == if x == l then 1 else 0
  {
    assert [Lab(x)][1..] == [];
  }

  /** At most one placement, and only of local labels numbered in [lo, hi). */
  ghost predicate Within(code: seq<Instr>, l: Label, lo: nat, hi: nat) {
    lo <= hi && Count(code, l) <= if l.Local? && lo <= l.n < hi then 1 else 0
  }

  lemma {:induction false} ExprLabels(e: Expr, n: nat, d: nat, l: Label)
    requires CallsFit(e)
    ensures Within(EmitExpr(e, n, d).code, l, n, EmitExpr(e, n, d).next)
    decreases e, 1
  {
    hide Count;
    Distributes(l);
    match e {
      case IntLit(v) => NoLabels([MovImm(AX, v)], l);
      case VarRef(_, s) => NoLabels([MovLoad(AX, s)], l);
      case Assign(_, e1, s) =>
        ExprLabels(e1, n, d, l);
        NoLabels([MovStore(s, AX)], l);
      case Unary(op, e1) =>
        ExprLabels(e1, n, d, l);
        NoLabels(UnaryTail(op), l);
      case Binary(_, _, _) => BinaryLabels(e, n, d, l);
      case Logical(_, _, _) => LogicalLabels(e, n, d, l);
      case Call(_, _) => CallLabels(e, n, d, l);
    }
  }

  lemma {:induction false} BinaryLabels(e: Expr, n: nat, d: nat, l: Label)
    requires CallsFit(e) && e.Binary?
    ensures Within(EmitExpr(e, n, d).code, l, n, EmitExpr(e, n, d).next)
    decreases e, 0
  {
    hide Count, BinaryTail;
    Distributes(l);
    ExprLabels(e.lhs, n, d, l);
    ExprLabels(e.right, EmitExpr(e.lhs, n, d).next, d + 1, l);
    NoLabels([Push(AX)], l);
    NoLabels([Pop(CX)], l);
    OperatorLabels(e.bop, l);
  }

  lemma OperatorLabels(op: BinaryOp, l: Label)
    ensures Count(BinaryTail(op), l) == 0
  {
    hide Count;
    NoLabels(BinaryTail(op), l);
  }

  lemma {:induction false} LogicalLabels(e: Expr, n: nat, d: nat, l: Label)
    requires CallsFit(e) && e.Logical?
    ensures Within(EmitExpr(e, n, d).code, l, n, EmitExpr(e, n, d).next)
    decreases e, 0
  {
    hide Count, LogicalTail, ShortJump;
    Distributes(l);
    var a := EmitExpr(e.left, n + 2, d);
    ExprLabels(e.left, n + 2, d, l);
    ExprLabels(e.second, a.next, d, l);
    var short := ShortLabel(e.lop, n);
    JumpLabels(e.lop, short, l);
    TailLabels(e.lop, short, Local("Llogic_end", n + 1), l);
  }

  lemma JumpLabels(op: LogicalOp, short: Label, l: Label)
    ensures Count([CmpImm(AX, 0), ShortJump(op, short)], l) == 0
  {
    hide Count;
    NoLabels([CmpImm(AX, 0), ShortJump(op, short)], l);
  }

  lemma {:induction false} CallLabels(e: Expr, n: nat, d: nat, l: Label)
    requires CallsFit(e) && e.Call?
    ensures Within(EmitExpr(e, n, d).code, l, n, EmitExpr(e, n, d).next)
    decreases e, 0
  {
    hide Count, Pops, PadBefore, PadAfter;
    Distributes(l);
    ArgsLabels(e.args, n, d, l);
    PopsLabels(|e.args|, l);
    PadLabels(d, l);
    NoLabels([CallFn(e.callee)], l);
  }

  lemma PadLabels(d: nat, l: Label)
    ensures Count(PadBefore(d), l) == 0 && Count(PadAfter(d), l) == 0
  {
    hide Count;
    NoLabels(PadBefore(d), l);
    NoLabels(PadAfter(d), l);
  }

  lemma TailLabels(op: LogicalOp, short: Label, end: Label, l: Label)
    ensures Count(LogicalTail(op, short, end), l) == (if short == l then 1 else 0) + (if end == l then 1 else 0)
  {
    hide Count;
    var t := LogicalTail(op, short, end);
    assert t == t[..4] + ([Lab(short)] + (t[5..6] + [Lab(end)]));
    Distributes(l);
    NoLabels(t[..4], l);
    NoLabels(t[5..6], l);
    Single(short, l);
    Single(end, l);
  }

  lemma {:induction false} PopsLabels(k: nat, l: Label)
    requires k <= |ARG_REGS|
    ensures Count(Pops(k), l) == 0
  {
    hide Count;
    Distributes(l);
    if k == 0 {
      NoLabels([], l);
    } else {
      NoLabels([Pop(ARG_REGS[k - 1])], l);
      PopsLabels(k - 1, l);
    }
  }

  lemma {:induction false} ArgsLabels(args: seq<Expr>, n: nat, d: nat, l: Label)
    requires ArgsFit(args)
    ensures Within(EmitArgs(args, n, d).code, l, n, EmitArgs(args, n, d).next)
    decreases args, 0
  {
    hide Count, EmitExpr, CallsFit;
    if args == [] {
      NoLabels([], l);
    } else {
      var a := EmitArgs(args[..|args| - 1], n, d);
      var b := EmitExpr(args[|args| - 1], a.next, d + |args| - 1);
      ArgsLabels(args[..|args| - 1], n, d, l);
      ExprLabels(args[|args| - 1], a.next, d + |args| - 1, l);
      NoLabels([Push(AX)], l);
      CountCat(b.code, [Push(AX)], l);
      CountCat(a.code, b.code + [Push(AX)], l);
    }
  }

  lemma MaybeLabels(e: Option<Expr>, absent: seq<Instr>, n: nat, d: nat, l: Label)
    requires MaybeFits(e) && (forall i :: 0 <= i < |absent| ==> !absent[i].Lab?)
    ensures Within(EmitMaybe(e, absent, n, d).code, l, n, EmitMaybe(e, absent, n, d).next)
  {
    hide Count;
    if e.Some? {
      ExprLabels(e.value, n, d, l);
    } else {
      NoLabels(absent, l);
    }
  }

  lemma TestLabels(e: Option<Expr>, end: Label, n: nat, d: nat, l: Label)
    requires MaybeFits(e)
    ensures Within(EmitTest(e, end, n, d).code, l, n, EmitTest(e, end, n, d).next)
  {
    hide Count;
    Distributes(l);
    if e.Some? {
      ExprLabels(e.value, n, d, l);
      NoLabels([CmpImm(AX, 0), Je(end)], l);
    } else {
      NoLabels([], l);
    }
  }

  lemma {:induction false} StmtLabels(s: Stmt, n: nat, loops: seq<Loop>, d: nat, l: Label)
    requires StmtFits(s, loops != [])
    ensures Within(EmitStmt(s, n, loops, d).code, l, n, EmitStmt(s, n, loops, d).next)
    decreases s, 1
  {
    hide Count, EmitExpr, EmitMaybe, EmitTest;
    Distributes(l);
    match s {
      case VarDecl(_, init, slot) =>
        MaybeLabels(init, [MovImm(AX, 0)], n, d, l);
        NoLabels([MovStore(slot, AX)], l);
      case ExprStmt(e) => ExprLabels(e, n, d, l);
      case Return(e) =>
        MaybeLabels(e, [MovImm(AX, 0)], n, d, l);
        NoLabels([LeaveFrame, Ret], l);
      case Block(items) => ItemsLabels(items, n, loops, d, l);
      case If(_, _, _) => IfLabels(s, n, loops, d, l);
      case While(_, _) => WhileLabels(s, n, loops, d, l);
      case For(_, _, _, _) => ForLabels(s, n, loops, d, l);
      case Break => NoLabels(EmitStmt(s, n, loops, d).code, l);
      case Continue => NoLabels(EmitStmt(s, n, loops, d).code, l);
      case Empty => NoLabels([], l);
    }
  }

  lemma {:induction false} IfLabels(s: Stmt, n: nat, loops: seq<Loop>, d: nat, l: Label)
    requires StmtFits(s, loops != []) && s.If?
    ensures Within(EmitStmt(s, n, loops, d).code, l, n, EmitStmt(s, n, loops, d).next)
    decreases s, 0
  {
    hide Count, EmitExpr, EmitStmt;
    IfCode(s, n, loops, d);
    IfNext(s, n, loops, d);
    var a := EmitExpr(s.cond, n + 1, d);
    var b := EmitStmt(s.thn, a.next, loops, d);
    var lelse := Local("Lelse", n);
    var test := [CmpImm(AX, 0), Je(lelse)];
    ExprLabels(s.cond, n + 1, d, l);
    StmtLabels(s.thn, a.next, loops, d, l);
    NoLabels(test, l);
    Single(lelse, l);
    if s.els.Some? {
      var e := EmitStmt(s.els.value, b.next + 1, loops, d);
      var lend := Local("Lend", b.next);
      StmtLabels(s.els.value, b.next + 1, loops, d, l);
      NoLabels([Jmp(lend)], l);
      Single(lend, l);
      var r1 := e.code + [Lab(lend)];
      var r2 := [Lab(lelse)] + r1;
      var r3 := [Jmp(lend)] + r2;
      CountCat(e.code, [Lab(lend)], l);
      CountCat([Lab(lelse)], r1, l);
      CountCat([Jmp(lend)], r2, l);
      CountCat(b.code, r3, l);
      CountCat(test, b.code + r3, l);
      CountCat(a.code, test + (b.code + r3), l);
    } else {
      CountCat(b.code, [Lab(lelse)], l);
      CountCat(test, b.code + [Lab(lelse)], l);
      CountCat(a.code, test + (b.code + [Lab(lelse)]), l);
    }
  }

  lemma {:induction false} WhileLabels(s: Stmt, n: nat, loops: seq<Loop>, d: nat, l: Label)
    requires StmtFits(s, loops != []) && s.While?
    ensures Within(EmitStmt(s, n, loops, d).code, l, n, EmitStmt(s, n, loops, d).next)
    decreases s, 0
  {
    hide Count, EmitExpr, EmitTest, EmitStmt;
    Distributes(l);
    WhileCode(s, n, loops, d);
    var start := Local("Lwhile", n);
    var end := Local("Lwhileend", n + 1);
    var a := EmitTest(Some(s.wcond), end, n + 2, d);
    TestLabels(Some(s.wcond), end, n + 2, d, l);
    StmtLabels(s.wbody, a.next, loops + [Loop(start, end)], d, l);
    Single(start, l);
    NoLabels([Jmp(start)], l);
    Single(end, l);
  }

  lemma {:induction false} ForLabels(s: Stmt, n: nat, loops: seq<Loop>, d: nat, l: Label)
    requires StmtFits(s, loops != []) && s.For?
    ensures Within(EmitStmt(s, n, loops, d).code, l, n, EmitStmt(s, n, loops, d).next)
    decreases s, 0
  {
    hide Count, EmitExpr, EmitTest, EmitMaybe, EmitStmt;
    Distributes(l);
    ForCode(s, n, loops, d);
    ForNext(s, n, loops, d);
    ForFirstLabels(s, n, loops, d, l);
    var start := Local("Lfor", n);
    var lpost := Local("Lforpost", n + 1);
    var end := Local("Lforend", n + 2);
    var i := ForFirst(s, n, loops, d);
    var a := EmitTest(s.fcond, end, i.next, d);
    TestLabels(s.fcond, end, i.next, d, l);
    var b := EmitStmt(s.fbody, a.next, loops + [Loop(lpost, end)], d);
    StmtLabels(s.fbody, a.next, loops + [Loop(lpost, end)], d, l);
    MaybeLabels(s.fpost, [], b.next, d, l);
    Single(start, l);
    Single(lpost, l);
    Single(end, l);
    NoLabels([Jmp(start)], l);
  }

  lemma {:induction false} ForFirstLabels(s: Stmt, n: nat, loops: seq<Loop>, d: nat, l: Label)
    requires StmtFits(s, loops != []) && s.For?
    ensures Within(ForFirst(s, n, loops, d).code, l, n + 3, ForFirst(s, n, loops, d).next)
    decreases s, -1
  {
    hide Count, EmitStmt;
    if s.finit.Some? {
      StmtLabels(s.finit.value, n + 3, loops, d, l);
    } else {
      NoLabels([], l);
    }
  }

  lemma {:induction false} ItemsLabels(items: seq<Stmt>, n: nat, loops: seq<Loop>, d: nat, l: Label)
    requires ItemsFit(items, loops != [])
    ensures Within(EmitItems(items, n, loops, d).code, l, n, EmitItems(items, n, loops, d).next)
    decreases items, 0
  {
    hide Count;
    if items == [] {
      NoLabels([], l);
    } else {
      Distributes(l);
      ItemsLabels(items[..|items| - 1], n, loops, d, l);
      StmtLabels(items[|items| - 1], EmitItems(items[..|items| - 1], n, loops, d).next, loops, d, l);
    }
  }

  lemma {:induction false} ParamsLabels(ps: seq<Param>, l: Label)
    requires |ps| <= |ARG_REGS|
    ensures Count(StoreParams(ps), l) == 0
  {
    hide Count;
    Distributes(l);
    if ps == [] {
      NoLabels([], l);
    } else {
      ParamsLabels(ps[..|ps| - 1], l);
      NoLabels([MovStore(ps[|ps| - 1].slot, ARG_REGS[|ps| - 1])], l);
    }
  }

  lemma FunctionLabels(f: Function, n: nat, l: Label)
    requires FunctionFits(f) && f.body.Some?
    ensures n <= EmitFunction(f, n).next
    ensures Count(EmitFunction(f, n).code, l)
         <= if l == Fn(f.name) then 1 else if l.Local? && n <= l.n < EmitFunction(f, n).next then 1 else 0
  {
    hide Count, EmitItems;
    Distributes(l);
    ItemsLabels(f.body.value, n, [], 0, l);
    ParamsLabels(f.params, l);
    var tail := [PushBp, MovBpSp] + (if f.frameSize > 0 then [SubSp(f.frameSize)] else []);
    assert Prologue(f) == [Lab(Fn(f.name))] + tail;
    Single(Fn(f.name), l);
    NoLabels(tail, l);
    NoLabels([MovImm(AX, 0), LeaveFrame, Ret], l);
  }

  /** No two definitions share a name. */
  ghost predicate OneBody(p: Program) {
    forall i, j :: 0 <= i < j < |p| && p[i].body.Some? && p[j].body.Some? ==> p[i].name != p[j].name
  }

  ghost predicate Defines(p: Program, f: string) {
    exists i :: 0 <= i < |p| && p[i].name == f && p[i].body.Some?
  }

  lemma {:induction false} ProgramLabels(p: Program, n: nat, l: Label)
    requires ProgramFits(p) && OneBody(p)
    ensures n <= EmitProgram(p, n).next
    ensures Count(EmitProgram(p, n).code, l)
         <= if l.Fn? then (if Defines(p, l.name) then 1 else 0)
            else if n <= l.n < EmitProgram(p, n).next then 1 else 0
  {
    hide Count, EmitFunction;
    if p == [] {
      NoLabels([], l);
    } else {
      var q := p[..|p| - 1];
      var last := p[|p| - 1];
      ProgramLabels(q, n, l);
      if last.body.Some? {
        FunctionLabels(last, EmitProgram(q, n).next, l);
        CountCat(EmitProgram(q, n).code, EmitFunction(last, EmitProgram(q, n).next).code, l);
        if l == Fn(last.name) {
          assert p[|p| - 1].name == l.name;
          assert Defines(p, l.name);
          assert !Defines(q, l.name);
        }
      }
      if l.Fn? && Defines(q, l.name) {
        var i :| 0 <= i < |q| && q[i].name == l.name && q[i].body.Some?;
        assert p[i].name == l.name && p[i].body.Some?;
      }
    }
  }

  /** A label that is placed once is found where it is placed. */
  lemma {:induction false} FoundAt(code: seq<Instr>, l: Label, k: nat)
    requires k < |code| && code[k] == Lab(l) && Count(code, l) <= 1
    ensures Target(code, l) == k
  {
    if k > 0 {
      PlacedCounts(code[1..], l, k - 1);
      FoundAt(code[1..], l, k - 1);
    }
  }

  lemma {:induction false} PlacedCounts(code: seq<Instr>, l: Label, k: nat)
    requires k < |code| && code[k] == Lab(l)
    ensures Count(code, l) >= 1
  {
    if k > 0 {
      PlacedCounts(code[1..], l, k - 1);
    }
  }

  /** The code of the i-th function is somewhere in the program. */
  lemma {:induction false} Placed(p: Program, n: nat, i: nat) returns (pos: nat, m: nat)
    requires ProgramFits(p) && i < |p| && p[i].body.Some?
    ensures CodeAt(EmitProgram(p, n).code, pos, EmitFunction(p[i], m).code)
  {
    hide EmitFunction;
    var q := p[..|p| - 1];
    var a := EmitProgram(q, n).code;
    var code := EmitProgram(p, n).code;
    if i == |p| - 1 {
      pos, m := |a|, EmitProgram(q, n).next;
      assert code[pos..] == EmitFunction(p[i], m).code;
    } else {
      pos, m := Placed(q, n, i);
      var piece := EmitFunction(p[i], m).code;
      assert code[..|a|] == a;
      assert code[pos..pos + |piece|] == a[pos..pos + |piece|];
    }
  }

  function Link(p: Program): Linked
    requires ProgramFits(p)
  {
    Linked(EmitProgram(p, 0).code, Arities(p))
  }

  /** Linking the emitted code of a well-formed program meets every assumption of
      the simulation. */
  lemma Links(w: World, p: Program)
    requires ProgramFits(p) && OneBody(p) && forall i :: 0 <= i < |p| && p[i].body.Some? ==> FrameFits(p[i])
    ensures LinkOk(Setup(w, p, Link(p)))
  {
    hide EmitFunction, FrameFits, Count, Target, ProgramFits, FunctionFits, EmitProgram;
    var c := Setup(w, p, Link(p));
    var code := c.m.code;
    forall k | 0 <= k < |code| && code[k].Lab? ensures Target(code, code[k].lbl) == k {
      ProgramLabels(p, 0, code[k].lbl);
      FoundAt(code, code[k].lbl, k);
    }
    forall f | FindBody(p, f).Some? ensures PlacedAt(c, FindBody(p, f).value, Target(code, Fn(f))) {
      EntryAt(c, p, f);
    }
    forall f | f in Arities(p) && FindBody(p, f).None? ensures Target(code, Fn(f)) == |code| {
      ProgramLabels(p, 0, Fn(f));
      if Target(code, Fn(f)) < |code| {
        PlacedCounts(code, Fn(f), Target(code, Fn(f)));
      }
    }
  }

  lemma EntryAt(c: Setup, p: Program, f: string)
    requires ProgramFits(p) && OneBody(p) && c.p == p && c.m == Link(p) && FindBody(p, f).Some?
    ensures PlacedAt(c, FindBody(p, f).value, Target(c.m.code, Fn(f)))
  {
    hide Count, Target, EmitProgram, EmitItems, StoreParams, FindBody, ItemsFit;
    var i := FindBody(p, f).value;
    var pos, n := Placed(p, 0, i);
    var piece := EmitFunction(p[i], n).code;
    assert piece[0] == Lab(Fn(f));
    assert c.m.code[pos] == c.m.code[pos..pos + |piece|][0];
    ProgramLabels(p, 0, Fn(f));
    FoundAt(c.m.code, Fn(f), pos);
  }
}
