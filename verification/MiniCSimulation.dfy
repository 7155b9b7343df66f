/** The code generator preserves meaning: the machine, started where a
    construct's code begins in a state that represents its environment, does what
    the interpreter says, and keeps the stack discipline while doing it. A
    `Timeout` after fuel n means at least n machine steps with no end.

    One lemma per construct, by recursion on the syntax for expressions and
    statements and on the fuel for loops and calls. The state relation ties the
    machine's frame cells to the interpreter's slots, the stack pointer to the
    tracked depth, and the trace of foreign calls to the events.
*/
module MiniCSimulation {
  import opened Wrappers
  import opened MiniCAst
  import opened MiniCWord
  import opened MiniCSemantics
  import opened MiniCMachine
  import opened MiniCCodegen
  import opened MiniCExec

  /** A world, a resolved program and its linked code. */
  datatype Setup = Setup(w: World, p: Program, m: Linked)

  /** An activation record: slots lie in [base - size, base), the saved frame
      pointer at base, the return address above it. */
  datatype Act = Act(base: int, size: nat, link: int, ret: int)

  /** Labels are unambiguous, every definition's code is where its label is, and
      every other declared function is an external of the same arity. */
  ghost predicate LinkOk(c: Setup) {
    && ProgramFits(c.p)
    && (forall i :: 0 <= i < |c.p| && c.p[i].body.Some? ==> FrameFits(c.p[i]))
    && (forall k :: 0 <= k < |c.m.code| && c.m.code[k].Lab? ==> Target(c.m.code, c.m.code[k].lbl) == k)
    && (forall f :: FindBody(c.p, f).Some? ==> PlacedAt(c, FindBody(c.p, f).value, Target(c.m.code, Fn(f))))
    && (forall f :: f in Arities(c.p) && FindBody(c.p, f).None? ==>
          Target(c.m.code, Fn(f)) == |c.m.code| && f in c.m.externs && c.m.externs[f] == Arities(c.p)[f])
  }

  ghost predicate PlacedAt(c: Setup, i: nat, pos: int)
    requires i < |c.p| && ProgramFits(c.p)
  {
    c.p[i].body.Some? && exists n: nat :: CodeAt(c.m.code, pos, EmitFunction(c.p[i], n).code)
  }

  /** The state represents `env` in activation `act` with d live pushes. */
  ghost predicate At(act: Act, st: State, pc: int, d: nat, env: Env, tr: Trace) {
    && env.Frame? && st.pc == pc && st.tr == tr
    && st.bp == act.base && st.sp == act.base - act.size - 8 * d
    && act.base % 16 == 0 && act.size % 16 == 0
    && act.base in st.mem && st.mem[act.base] == Ptr(act.link)
    && act.base + 8 in st.mem && st.mem[act.base + 8] == RetTo(act.ret)
    && Holding(act, env.cells, st.mem)
  }

  ghost predicate Holding(act: Act, f: map<int, Int32>, mem: Memory) {
    forall o :: o in f ==> SlotOk(o, act.size) && act.base + o in mem && mem[act.base + o] == Word(f[o])
  }

  /** Memory from `lo` up is kept, except the slots of the activation. */
  ghost predicate Keeps(act: Act, lo: int, a: Memory, b: Memory) {
    forall x :: x in a && x >= lo && !(act.base - act.size <= x < act.base) ==> x in b && b[x] == a[x]
  }

  ghost predicate ExprDone(c: Setup, act: Act, st: State, pc: int, d: nat, fuel: nat, o: ExprOut, k: nat, st': State) {
    match o
    case Val(v, env, tr) =>
      && Run(c.w, c.m, st, k) == Next(st')
      && At(act, st', pc, d, env, tr) && AX in st'.regs && st'.regs[AX] == v
      && Keeps(act, st.sp, st.mem, st'.mem)
    case EFault(tr) => Run(c.w, c.m, st, k) == Trap(tr)
    case ETimeout(tr) => Run(c.w, c.m, st, k) == Next(st') && st'.tr == tr && k >= fuel
    case EWrong => true
  }

  ghost predicate ArgsDone(c: Setup, act: Act, st: State, pc: int, d: nat, fuel: nat, o: ArgsOut, k: nat, st': State) {
    match o
    case Vals(vs, env, tr) =>
      && Run(c.w, c.m, st, k) == Next(st')
      && At(act, st', pc, d + |vs|, env, tr) && Pushed(st.sp, vs, st'.mem)
      && Keeps(act, st.sp, st.mem, st'.mem)
    case AFault(tr) => Run(c.w, c.m, st, k) == Trap(tr)
    case ATimeout(tr) => Run(c.w, c.m, st, k) == Next(st') && st'.tr == tr && k >= fuel
    case AWrong => true
  }

  /** The words pushed below `top`, first one highest. */
  ghost predicate Pushed(top: int, vs: seq<Int32>, mem: Memory) {
    forall i :: 0 <= i < |vs| ==> Below(top, i) in mem && mem[Below(top, i)] == Word(vs[i])
  }

  ghost function Below(top: int, i: int): int { top - 8 * (i + 1) }

  ghost predicate RegsHold(vs: seq<Int32>, regs: Regs) {
    |vs| <= |ARG_REGS| && forall i :: 0 <= i < |vs| ==> ARG_REGS[i] in regs && regs[ARG_REGS[i]] == vs[i]
  }

  ghost predicate CallDone(c: Setup, st: State, ret: int, fuel: nat, o: CallOut, k: nat, st': State) {
    match o
    case Returned(v, tr) =>
      && Run(c.w, c.m, st, k) == Next(st')
      && st'.pc == ret && st'.sp == st.sp + 8 && st'.bp == st.bp && st'.tr == tr
      && AX in st'.regs && st'.regs[AX] == v
      && (forall x :: x in st.mem && x >= st.sp + 8 ==> x in st'.mem && st'.mem[x] == st.mem[x])
    case CFault(tr) => Run(c.w, c.m, st, k) == Trap(tr)
    case CTimeout(tr) => Run(c.w, c.m, st, k) == Next(st') && st'.tr == tr && k >= fuel
    case CWrong => true
  }

  ghost predicate StmtDone(c: Setup, act: Act, st: State, pc: int, loops: seq<Loop>, d: nat, fuel: nat, o: StmtOut, k: nat, st': State) {
    match o
    case Normal(env, tr) => Run(c.w, c.m, st, k) == Next(st') && At(act, st', pc, d, env, tr) && Keeps(act, st.sp, st.mem, st'.mem)
    case Broke(env, tr) =>
      loops != [] ==>
      && Run(c.w, c.m, st, k) == Next(st') && At(act, st', Target(c.m.code, loops[|loops| - 1].brk), d, env, tr)
      && Keeps(act, st.sp, st.mem, st'.mem)
    case Continued(env, tr) =>
      loops != [] ==>
      && Run(c.w, c.m, st, k) == Next(st') && At(act, st', Target(c.m.code, loops[|loops| - 1].cont), d, env, tr)
      && Keeps(act, st.sp, st.mem, st'.mem)
    case Returns(v, tr) =>
      && Run(c.w, c.m, st, k) == Next(st')
      && st'.pc == act.ret && st'.sp == act.base + 16 && st'.bp == act.link && st'.tr == tr
      && AX in st'.regs && st'.regs[AX] == v
      && (forall x :: x in st.mem && x >= act.base + 16 ==> x in st'.mem && st'.mem[x] == st.mem[x])
    case SFault(tr) => Run(c.w, c.m, st, k) == Trap(tr)
    case STimeout(tr) => Run(c.w, c.m, st, k) == Next(st') && st'.tr == tr && k >= fuel
    case SWrong => true
  }

  // ----- what single steps do to a represented state -----

  /** Only the program counter, registers and flags changed. */
  lemma AtMove(act: Act, st: State, d: nat, env: Env, tr: Trace, st': State)
    requires At(act, st, st.pc, d, env, tr)
    requires st' == st.(pc := st'.pc, regs := st'.regs, flags := st'.flags)
    ensures At(act, st', st'.pc, d, env, tr)
  {
  }

  lemma AtPush(act: Act, st: State, d: nat, env: Env, tr: Trace, v: Int32, st': State)
    requires At(act, st, st.pc, d, env, tr)
    requires st' == st.(pc := st.pc + 1, sp := st.sp - 8, mem := st.mem[st.sp - 8 := Word(v)])
    ensures At(act, st', st.pc + 1, d + 1, env, tr) && Keeps(act, st.sp, st.mem, st'.mem)
    ensures st'.sp in st'.mem && st'.mem[st'.sp] == Word(v) && st'.sp < act.base - act.size
  {
  }

  lemma AtPop(act: Act, st: State, d: nat, env: Env, tr: Trace, st': State)
    requires At(act, st, st.pc, d + 1, env, tr)
    requires st' == st.(pc := st.pc + 1, sp := st.sp + 8, regs := st'.regs)
    ensures At(act, st', st.pc + 1, d, env, tr)
  {
  }

  lemma AtStore(act: Act, st: State, d: nat, env: Env, tr: Trace, slot: int, v: Int32)
    requires At(act, st, st.pc, d, env, tr) && SlotOk(slot, act.size)
    ensures var st' := st.(pc := st.pc + 1, mem := st.mem[st.bp + slot := Word(v)]);
      At(act, st', st.pc + 1, d, Frame(env.cells[slot := v]), tr) && Keeps(act, st.sp, st.mem, st'.mem)
  {
  }

  lemma KeepsTrans(act: Act, lo: int, lo': int, a: Memory, b: Memory, c: Memory)
    requires Keeps(act, lo, a, b) && Keeps(act, lo', b, c) && lo' <= lo
    ensures Keeps(act, lo, a, c)
  {
  }

  lemma KeptWord(act: Act, lo: int, a: Memory, b: Memory, x: int)
    requires Keeps(act, lo, a, b) && x in a && lo <= x < act.base - act.size
    ensures x in b && b[x] == a[x]
  {
  }

  /** The stack pointer is where d says. */
  lemma AtSp(act: Act, st: State, pc: int, d: nat, env: Env, tr: Trace)
    requires At(act, st, pc, d, env, tr)
    ensures env.Frame? && st.sp == act.base - act.size - 8 * d && st.pc == pc && st.bp == act.base && st.tr == tr
  {
  }

  // ----- expressions -----

  lemma {:induction false} ExprSim(c: Setup, act: Act, e: Expr, n: nat, d: nat, st: State, env: Env, tr: Trace, fuel: nat)
    returns (k: nat, st': State)
    requires LinkOk(c) && CallsFit(e)
    requires CodeAt(c.m.code, st.pc, EmitExpr(e, n, d).code)
    requires At(act, st, st.pc, d, env, tr)
    ensures ExprDone(c, act, st, st.pc + |EmitExpr(e, n, d).code|, d, fuel, EvalExpr(c.w, c.p, e, env, tr, fuel), k, st')
    decreases 2 * fuel + 1, e, 1
  {
    hide *;
    match e {
      case IntLit(_) => k, st' := LeafSim(c, act, e, n, d, st, env, tr, fuel);
      case VarRef(_, _) => k, st' := LeafSim(c, act, e, n, d, st, env, tr, fuel);
      case Assign(_, _, _) => k, st' := AssignSim(c, act, e, n, d, st, env, tr, fuel);
      case Unary(_, _) => k, st' := UnarySim(c, act, e, n, d, st, env, tr, fuel);
      case Binary(_, _, _) => k, st' := BinarySim(c, act, e, n, d, st, env, tr, fuel);
      case Logical(_, _, _) => k, st' := LogicalSim(c, act, e, n, d, st, env, tr, fuel);
      case Call(_, _) => k, st' := CallExprSim(c, act, e, n, d, st, env, tr, fuel);
    }
  }

  lemma LeafSim(c: Setup, act: Act, e: Expr, n: nat, d: nat, st: State, env: Env, tr: Trace, fuel: nat)
    returns (k: nat, st': State)
    requires LinkOk(c) && CallsFit(e) && (e.IntLit? || e.VarRef?)
    requires CodeAt(c.m.code, st.pc, EmitExpr(e, n, d).code)
    requires At(act, st, st.pc, d, env, tr)
    ensures ExprDone(c, act, st, st.pc + |EmitExpr(e, n, d).code|, d, fuel, EvalExpr(c.w, c.p, e, env, tr, fuel), k, st')
    decreases 2 * fuel + 1, e, 0
  {
    hide Run, LinkOk, At, Keeps, CodeAt;
    AtSp(act, st, st.pc, d, env, tr);
    k, st' := 0, st;
    if e.IntLit? {
      MovImmRun(c.w, c.m, st, AX, e.value);
      k, st' := 1, SetReg(st, AX, Wrap32(e.value));
      AtMove(act, st, d, env, tr, st');
    } else if e.slot in env.cells {
      AtSlot(act, st, st.pc, d, env, tr, e.slot);
      LoadRun(c.w, c.m, st, e.slot, env.cells[e.slot]);
      k, st' := 1, SetReg(st, AX, env.cells[e.slot]);
      AtMove(act, st, d, env, tr, st');
    }
    KeepsSame(act, st.sp, st.mem);
  }

  lemma KeepsSame(act: Act, lo: int, mem: Memory)
    ensures Keeps(act, lo, mem, mem)
  {
  }

  lemma UnaryParts(code: seq<Instr>, pos: int, e: Expr, n: nat, d: nat)
    requires CallsFit(e) && e.Unary?
    requires CodeAt(code, pos, EmitExpr(e, n, d).code)
    ensures var a := EmitExpr(e.operand, n, d);
      && CodeAt(code, pos, a.code) && CodeAt(code, pos + |a.code|, UnaryTail(e.uop))
      && |EmitExpr(e, n, d).code| == |a.code| + |UnaryTail(e.uop)|
  {
    hide CodeAt, UnaryTail;
    CodeAtSplit(code, pos, EmitExpr(e.operand, n, d).code, UnaryTail(e.uop));
  }

  lemma {:induction false} UnarySim(c: Setup, act: Act, e: Expr, n: nat, d: nat, st: State, env: Env, tr: Trace, fuel: nat)
    returns (k: nat, st': State)
    requires LinkOk(c) && CallsFit(e) && e.Unary?
    requires CodeAt(c.m.code, st.pc, EmitExpr(e, n, d).code)
    requires At(act, st, st.pc, d, env, tr)
    ensures ExprDone(c, act, st, st.pc + |EmitExpr(e, n, d).code|, d, fuel, EvalExpr(c.w, c.p, e, env, tr, fuel), k, st')
    decreases 2 * fuel + 1, e, 0
  {
    hide Run, LinkOk, Keeps, At, EmitExpr, UnaryTail, UnaryValue, CodeAt;
    UnaryParts(c.m.code, st.pc, e, n, d);
    AtSp(act, st, st.pc, d, env, tr);
    k, st' := ExprSim(c, act, e.operand, n, d, st, env, tr, fuel);
    var o := EvalExpr(c.w, c.p, e.operand, env, tr, fuel);
    if o.Val? {
      var s1 := st';
      AtSp(act, s1, st.pc + |EmitExpr(e.operand, n, d).code|, d, o.env, o.tr);
      st' := UnaryRuns(c.w, c.m, s1, e.uop);
      AtMove(act, s1, d, o.env, o.tr, st');
      RunTrans(c.w, c.m, st, k, s1, |UnaryTail(e.uop)|);
      k := k + |UnaryTail(e.uop)|;
    }
  }

  lemma AssignParts(code: seq<Instr>, pos: int, e: Expr, n: nat, d: nat)
    requires CallsFit(e) && e.Assign?
    requires CodeAt(code, pos, EmitExpr(e, n, d).code)
    ensures var a := EmitExpr(e.rhs, n, d);
      && CodeAt(code, pos, a.code) && CodeAt(code, pos + |a.code|, [MovStore(e.slot, AX)])
      && |EmitExpr(e, n, d).code| == |a.code| + 1
  {
    hide CodeAt;
    CodeAtSplit(code, pos, EmitExpr(e.rhs, n, d).code, [MovStore(e.slot, AX)]);
  }

  lemma {:induction false} AssignSim(c: Setup, act: Act, e: Expr, n: nat, d: nat, st: State, env: Env, tr: Trace, fuel: nat)
    returns (k: nat, st': State)
    requires LinkOk(c) && CallsFit(e) && e.Assign?
    requires CodeAt(c.m.code, st.pc, EmitExpr(e, n, d).code)
    requires At(act, st, st.pc, d, env, tr)
    ensures ExprDone(c, act, st, st.pc + |EmitExpr(e, n, d).code|, d, fuel, EvalExpr(c.w, c.p, e, env, tr, fuel), k, st')
    decreases 2 * fuel + 1, e, 0
  {
    hide Run, LinkOk, Keeps, At, EmitExpr, CodeAt;
    AssignParts(c.m.code, st.pc, e, n, d);
    AtSp(act, st, st.pc, d, env, tr);
    k, st' := ExprSim(c, act, e.rhs, n, d, st, env, tr, fuel);
    var o := EvalExpr(c.w, c.p, e.rhs, env, tr, fuel);
    if o.Val? {
      AtSp(act, st', st.pc + |EmitExpr(e.rhs, n, d).code|, d, o.env, o.tr);
      if e.slot in o.env.cells {
        AtSlot(act, st', st'.pc, d, o.env, o.tr, e.slot);
        k, st' := StoreAfter(c, act, st, k, st', d, o.env, o.tr, e.slot);
      }
    }
  }

  /** Storing eax into a slot, after some run. */
  lemma StoreAfter(c: Setup, act: Act, st: State, k0: nat, s1: State, d: nat, env: Env, tr: Trace, slot: int)
    returns (k: nat, st': State)
    requires Run(c.w, c.m, st, k0) == Next(s1) && Keeps(act, st.sp, st.mem, s1.mem)
    requires At(act, s1, s1.pc, d, env, tr) && s1.sp <= st.sp && AX in s1.regs && SlotOk(slot, act.size)
    requires CodeAt(c.m.code, s1.pc, [MovStore(slot, AX)])
    ensures k == k0 + 1 && Run(c.w, c.m, st, k) == Next(st')
    ensures At(act, st', s1.pc + 1, d, Frame(env.cells[slot := s1.regs[AX]]), tr) && st'.regs == s1.regs
    ensures Keeps(act, st.sp, st.mem, st'.mem)
  {
    hide Run, Keeps, At, CodeAt;
    AtSp(act, s1, s1.pc, d, env, tr);
    StoreRun(c.w, c.m, s1, slot, AX);
    AtStore(act, s1, d, env, tr, slot, s1.regs[AX]);
    st' := s1.(pc := s1.pc + 1, mem := s1.mem[s1.bp + slot := Word(s1.regs[AX])]);
    KeepsTrans(act, st.sp, s1.sp, st.mem, s1.mem, st'.mem);
    RunTrans(c.w, c.m, st, k0, s1, 1);
    k := k0 + 1;
  }

  /** A slot of the environment is a word of the frame. */
  lemma AtSlot(act: Act, st: State, pc: int, d: nat, env: Env, tr: Trace, slot: int)
    requires At(act, st, pc, d, env, tr) && slot in env.cells
    ensures SlotOk(slot, act.size) && act.base + slot in st.mem && st.mem[act.base + slot] == Word(env.cells[slot])
  {
  }

  lemma BinaryParts(code: seq<Instr>, pos: int, e: Expr, n: nat, d: nat)
    requires CallsFit(e) && e.Binary?
    requires CodeAt(code, pos, EmitExpr(e, n, d).code)
    ensures var a := EmitExpr(e.lhs, n, d); var b := EmitExpr(e.right, a.next, d + 1); var q := pos + |a.code| + 1 + |b.code|;
      && CodeAt(code, pos, a.code) && CodeAt(code, pos + |a.code|, [Push(AX)]) && CodeAt(code, pos + |a.code| + 1, b.code)
      && CodeAt(code, q, [Pop(CX)]) && CodeAt(code, q + 1, BinaryTail(e.bop))
      && pos + |EmitExpr(e, n, d).code| == q + 1 + |BinaryTail(e.bop)|
  {
    hide CodeAt, BinaryTail;
    var a := EmitExpr(e.lhs, n, d);
    var b := EmitExpr(e.right, a.next, d + 1);
    var tail := BinaryTail(e.bop);
    CodeAtSplit(code, pos, a.code, [Push(AX)] + (b.code + ([Pop(CX)] + tail)));
    CodeAtSplit(code, pos + |a.code|, [Push(AX)], b.code + ([Pop(CX)] + tail));
    CodeAtSplit(code, pos + |a.code| + 1, b.code, [Pop(CX)] + tail);
    CodeAtSplit(code, pos + |a.code| + 1 + |b.code|, [Pop(CX)], tail);
  }

  lemma {:induction false} BinarySim(c: Setup, act: Act, e: Expr, n: nat, d: nat, st: State, env: Env, tr: Trace, fuel: nat)
    returns (k: nat, st': State)
    requires LinkOk(c) && CallsFit(e) && e.Binary?
    requires CodeAt(c.m.code, st.pc, EmitExpr(e, n, d).code)
    requires At(act, st, st.pc, d, env, tr)
    ensures ExprDone(c, act, st, st.pc + |EmitExpr(e, n, d).code|, d, fuel, EvalExpr(c.w, c.p, e, env, tr, fuel), k, st')
    decreases 2 * fuel + 1, e, 0
  {
    hide Run, LinkOk, Keeps, At, EmitExpr, BinaryTail, BinaryValue, CodeAt;
    var a := EmitExpr(e.lhs, n, d);
    BinaryParts(c.m.code, st.pc, e, n, d);
    AtSp(act, st, st.pc, d, env, tr);
    k, st' := ExprSim(c, act, e.lhs, n, d, st, env, tr, fuel);
    var o1 := EvalExpr(c.w, c.p, e.lhs, env, tr, fuel);
    if o1.Val? {
      var s1 := st';
      AtSp(act, s1, st.pc + |a.code|, d, o1.env, o1.tr);
      PushRun(c.w, c.m, s1, AX);
      var s2 := s1.(pc := s1.pc + 1, sp := s1.sp - 8, mem := s1.mem[s1.sp - 8 := Word(o1.v)]);
      AtPush(act, s1, d, o1.env, o1.tr, o1.v, s2);
      RunTrans(c.w, c.m, st, k, s1, 1);
      KeepsTrans(act, st.sp, s1.sp, st.mem, s1.mem, s2.mem);
      k, st' := BinaryRest(c, act, e, n, d, st, k + 1, s2, o1, fuel);
    }
  }

  /** The right operand and the operator, after the left operand was pushed. */
  lemma {:induction false} BinaryRest(c: Setup, act: Act, e: Expr, n: nat, d: nat, st: State, k0: nat, s2: State, o1: ExprOut, fuel: nat)
    returns (k: nat, st': State)
    requires LinkOk(c) && CallsFit(e) && e.Binary? && o1.Val?
    requires CodeAt(c.m.code, st.pc, EmitExpr(e, n, d).code)
    requires st.sp == act.base - act.size - 8 * d
    requires Run(c.w, c.m, st, k0) == Next(s2)
    requires At(act, s2, st.pc + |EmitExpr(e.lhs, n, d).code| + 1, d + 1, o1.env, o1.tr)
    requires s2.sp in s2.mem && s2.mem[s2.sp] == Word(o1.v) && Keeps(act, st.sp, st.mem, s2.mem)
    ensures var o2 := EvalExpr(c.w, c.p, e.right, o1.env, o1.tr, fuel);
      var o := if o2.Val? then (if BinaryValue(e.bop, o1.v, o2.v).Some? then o2.(v := BinaryValue(e.bop, o1.v, o2.v).value) else EFault(o2.tr)) else o2;
      ExprDone(c, act, st, st.pc + |EmitExpr(e, n, d).code|, d, fuel, o, k, st')
    decreases 2 * fuel + 1, e, -1
  {
    hide Run, LinkOk, Keeps, At, EmitExpr, EvalExpr, BinaryTail, BinaryValue, CodeAt;
    var a := EmitExpr(e.lhs, n, d);
    var tail := BinaryTail(e.bop);
    BinaryParts(c.m.code, st.pc, e, n, d);
    AtSp(act, s2, st.pc + |a.code| + 1, d + 1, o1.env, o1.tr);
    var k2, s3 := ExprSim(c, act, e.right, a.next, d + 1, s2, o1.env, o1.tr, fuel);
    RunTrans(c.w, c.m, st, k0, s2, k2);
    k, st' := k0 + k2, s3;
    var o2 := EvalExpr(c.w, c.p, e.right, o1.env, o1.tr, fuel);
    if o2.Val? {
      KeptWord(act, s2.sp, s2.mem, s3.mem, s2.sp);
      AtSp(act, s3, s2.pc + |EmitExpr(e.right, a.next, d + 1).code|, d + 1, o2.env, o2.tr);
      KeepsTrans(act, st.sp, s2.sp, st.mem, s2.mem, s3.mem);
      PopRun(c.w, c.m, s3, CX, o1.v);
      var s4 := s3.(pc := s3.pc + 1, regs := s3.regs[CX := o1.v], sp := s3.sp + 8);
      AtPop(act, s3, d, o2.env, o2.tr, s4);
      RunTrans(c.w, c.m, st, k, s3, 1);
      st' := BinaryRuns(c.w, c.m, s4, e.bop);
      RunTrans(c.w, c.m, st, k + 1, s4, |tail|);
      k := k + 1 + |tail|;
      if BinaryValue(e.bop, o1.v, o2.v).Some? {
        AtMove(act, s4, d, o2.env, o2.tr, st');
      }
    }
  }

  lemma TargetHere(c: Setup, pos: int, l: Label)
    requires LinkOk(c) && CodeAt(c.m.code, pos, [Lab(l)])
    ensures Target(c.m.code, l) == pos
  {
    hide Target, PlacedAt, FrameFits, ProgramFits;
    CodeAtHead(c.m.code, pos, Lab(l), []);
  }

  /** Where the pieces of a logical operator lie: the exit that loads the
      short-circuit value starts at `q`. */
  lemma LogicalParts(code: seq<Instr>, pos: int, e: Expr, n: nat, d: nat)
    requires CallsFit(e) && e.Logical?
    requires CodeAt(code, pos, EmitExpr(e, n, d).code)
    ensures var a := EmitExpr(e.left, n + 2, d); var b := EmitExpr(e.second, a.next, d);
      var short := ShortLabel(e.lop, n); var end := Local("Llogic_end", n + 1); var j := ShortJump(e.lop, short);
      var q := pos + |a.code| + 2 + |b.code|;
      && CodeAt(code, pos, a.code) && CodeAt(code, pos + |a.code|, [CmpImm(AX, 0), j]) && CodeAt(code, pos + |a.code| + 2, b.code)
      && CodeAt(code, q, [CmpImm(AX, 0), j])
      && CodeAt(code, q + 2, [MovImm(AX, if e.lop.And? then 1 else 0)]) && CodeAt(code, q + 3, [Jmp(end)])
      && CodeAt(code, q + 4, [Lab(short)]) && CodeAt(code, q + 5, [MovImm(AX, if e.lop.And? then 0 else 1)])
      && CodeAt(code, q + 6, [Lab(end)])
      && pos + |EmitExpr(e, n, d).code| == q + 7
  {
    hide CodeAt, LogicalTail, ShortJump, ShortLabel;
    var a := EmitExpr(e.left, n + 2, d);
    var b := EmitExpr(e.second, a.next, d);
    var short := ShortLabel(e.lop, n);
    var end := Local("Llogic_end", n + 1);
    var j := ShortJump(e.lop, short);
    var tail := LogicalTail(e.lop, short, end);
    CodeAtSplit(code, pos, a.code, [CmpImm(AX, 0), j] + (b.code + tail));
    CodeAtSplit(code, pos + |a.code|, [CmpImm(AX, 0), j], b.code + tail);
    CodeAtSplit(code, pos + |a.code| + 2, b.code, tail);
    var q := pos + |a.code| + 2 + |b.code|;
    TailParts(code, q, e.lop, short, end);
  }

  lemma TailParts(code: seq<Instr>, q: int, op: LogicalOp, short: Label, end: Label)
    requires CodeAt(code, q, LogicalTail(op, short, end))
    ensures |LogicalTail(op, short, end)| == 7
    ensures CodeAt(code, q, [CmpImm(AX, 0), ShortJump(op, short)])
    ensures CodeAt(code, q + 2, [MovImm(AX, if op.And? then 1 else 0)]) && CodeAt(code, q + 3, [Jmp(end)])
    ensures CodeAt(code, q + 4, [Lab(short)]) && CodeAt(code, q + 5, [MovImm(AX, if op.And? then 0 else 1)])
    ensures CodeAt(code, q + 6, [Lab(end)])
  {
    hide CodeAt;
    var t := LogicalTail(op, short, end);
    CodeAtSlice(code, q, t, 0, 2);
    assert t[0..2] == [CmpImm(AX, 0), ShortJump(op, short)];
    CodeAtSlice(code, q, t, 2, 3);
    assert t[2..3] == [MovImm(AX, if op.And? then 1 else 0)];
    CodeAtSlice(code, q, t, 3, 4);
    assert t[3..4] == [Jmp(end)];
    CodeAtSlice(code, q, t, 4, 5);
    assert t[4..5] == [Lab(short)];
    CodeAtSlice(code, q, t, 5, 6);
    assert t[5..6] == [MovImm(AX, if op.And? then 0 else 1)];
    CodeAtSlice(code, q, t, 6, 7);
    assert t[6..7] == [Lab(end)];
  }

  lemma CodeAtSlice(code: seq<Instr>, q: int, t: seq<Instr>, i: nat, j: nat)
    requires CodeAt(code, q, t) && i <= j <= |t|
    ensures CodeAt(code, q + i, t[i..j])
  {
    assert t == t[..i] + (t[i..j] + t[j..]);
    CodeAtSplit(code, q, t[..i], t[i..j] + t[j..]);
    CodeAtSplit(code, q + i, t[i..j], t[j..]);
  }

  /** Loading the result and getting past the end label. */
  lemma ShortExit(c: Setup, act: Act, st: State, d: nat, env: Env, tr: Trace, v: Int32, viaShort: bool, short: Label, end: Label, q: int)
    returns (k: nat, st': State)
    requires LinkOk(c) && At(act, st, st.pc, d, env, tr)
    requires if viaShort then st.pc == q + 4 && CodeAt(c.m.code, q + 4, [Lab(short)]) && CodeAt(c.m.code, q + 5, [MovImm(AX, v)])
             else st.pc == q + 2 && CodeAt(c.m.code, q + 2, [MovImm(AX, v)]) && CodeAt(c.m.code, q + 3, [Jmp(end)])
    requires CodeAt(c.m.code, q + 6, [Lab(end)])
    ensures Run(c.w, c.m, st, k) == Next(st') && At(act, st', q + 7, d, env, tr)
    ensures AX in st'.regs && st'.regs[AX] == v && st'.mem == st.mem
  {
    hide Run, LinkOk, At, CodeAt, Target;
    AtSp(act, st, st.pc, d, env, tr);
    var s2: State;
    if viaShort {
      LabRun(c.w, c.m, st, short);
      var s1 := st.(pc := q + 5);
      MovImmRun(c.w, c.m, s1, AX, v);
      s2 := SetReg(s1, AX, v);
      RunTrans(c.w, c.m, st, 1, s1, 1);
    } else {
      MovImmRun(c.w, c.m, st, AX, v);
      var s1 := SetReg(st, AX, v);
      JmpRun(c.w, c.m, s1, end);
      TargetHere(c, q + 6, end);
      s2 := s1.(pc := q + 6);
      RunTrans(c.w, c.m, st, 1, s1, 1);
    }
    LabRun(c.w, c.m, s2, end);
    RunTrans(c.w, c.m, st, 2, s2, 1);
    k, st' := 3, s2.(pc := q + 7);
    AtMove(act, st, d, env, tr, st');
  }

  lemma {:induction false} LogicalSim(c: Setup, act: Act, e: Expr, n: nat, d: nat, st: State, env: Env, tr: Trace, fuel: nat)
    returns (k: nat, st': State)
    requires LinkOk(c) && CallsFit(e) && e.Logical?
    requires CodeAt(c.m.code, st.pc, EmitExpr(e, n, d).code)
    requires At(act, st, st.pc, d, env, tr)
    ensures ExprDone(c, act, st, st.pc + |EmitExpr(e, n, d).code|, d, fuel, EvalExpr(c.w, c.p, e, env, tr, fuel), k, st')
    decreases 2 * fuel + 1, e, 0
  {
    hide Run, LinkOk, Keeps, At, EmitExpr, CodeAt, Target, EvalExpr, AfterLeft;
    LogicalParts(c.m.code, st.pc, e, n, d);
    AtSp(act, st, st.pc, d, env, tr);
    k, st' := ExprSim(c, act, e.left, n + 2, d, st, env, tr, fuel);
    var o := EvalExpr(c.w, c.p, e.left, env, tr, fuel);
    LogicalEval(c, e, env, tr, fuel);
    if o.Val? {
      AtSp(act, st', st.pc + |EmitExpr(e.left, n + 2, d).code|, d, o.env, o.tr);
      k, st' := LeftSim(c, act, e, n, d, st, k, st', o.v, o.env, o.tr, fuel);
    }
  }

  /** What a logical operator gives once its first operand has a value. */
  ghost function AfterLeft(c: Setup, e: Expr, v: Int32, env: Env, tr: Trace, fuel: nat): ExprOut
    requires e.Logical?
  {
    if e.lop.And? && v == 0 then Val(0, env, tr)
    else if e.lop.Or? && v != 0 then Val(1, env, tr)
    else
      var o := EvalExpr(c.w, c.p, e.second, env, tr, fuel);
      if o.Val? then o.(v := Truth(o.v != 0)) else o
  }

  lemma LogicalEval(c: Setup, e: Expr, env: Env, tr: Trace, fuel: nat)
    requires e.Logical?
    ensures var o := EvalExpr(c.w, c.p, e.left, env, tr, fuel);
      EvalExpr(c.w, c.p, e, env, tr, fuel) == if o.Val? then AfterLeft(c, e, o.v, o.env, o.tr, fuel) else o
  {
  }

  /** The rest of a logical operator, from the value of the first operand. */
  lemma {:induction false} LeftSim(c: Setup, act: Act, e: Expr, n: nat, d: nat, st: State, k0: nat, s0: State, v: Int32, env: Env, tr: Trace, fuel: nat)
    returns (k: nat, st': State)
    requires LinkOk(c) && CallsFit(e) && e.Logical?
    requires CodeAt(c.m.code, st.pc, EmitExpr(e, n, d).code)
    requires Run(c.w, c.m, st, k0) == Next(s0) && Keeps(act, st.sp, st.mem, s0.mem) && s0.sp <= st.sp
    requires s0.pc == st.pc + |EmitExpr(e.left, n + 2, d).code| && At(act, s0, s0.pc, d, env, tr) && AX in s0.regs && s0.regs[AX] == v
    ensures ExprDone(c, act, st, st.pc + |EmitExpr(e, n, d).code|, d, fuel, AfterLeft(c, e, v, env, tr, fuel), k, st')
    decreases 2 * fuel + 1, e, 0, 0
  {
    hide Run, LinkOk, Keeps, At, EmitExpr, CodeAt, Target, EvalExpr;
    var a := EmitExpr(e.left, n + 2, d);
    var b := EmitExpr(e.second, a.next, d);
    var short := ShortLabel(e.lop, n);
    var q := st.pc + |a.code| + 2 + |b.code|;
    LogicalParts(c.m.code, st.pc, e, n, d);
    TargetHere(c, q + 4, short);
    var s1 := TestRun(c.w, c.m, s0, ShortJump(e.lop, short), short);
    AtMove(act, s0, d, env, tr, s1);
    RunTrans(c.w, c.m, st, k0, s0, 2);
    if s1.pc == q + 4 {
      k, st' := ExitAfter(c, act, st, k0 + 2, s1, d, env, tr, Truth(!e.lop.And?), true, short, Local("Llogic_end", n + 1), q);
    } else {
      k, st' := SecondSim(c, act, e, n, d, st, k0 + 2, s1, env, tr, fuel);
    }
  }

  lemma ExitAfter(c: Setup, act: Act, st: State, k0: nat, s1: State, d: nat, env: Env, tr: Trace, v: Int32, viaShort: bool, short: Label, end: Label, q: int)
    returns (k: nat, st': State)
    requires LinkOk(c) && At(act, s1, s1.pc, d, env, tr)
    requires Run(c.w, c.m, st, k0) == Next(s1) && Keeps(act, st.sp, st.mem, s1.mem)
    requires if viaShort then s1.pc == q + 4 && CodeAt(c.m.code, q + 4, [Lab(short)]) && CodeAt(c.m.code, q + 5, [MovImm(AX, v)])
             else s1.pc == q + 2 && CodeAt(c.m.code, q + 2, [MovImm(AX, v)]) && CodeAt(c.m.code, q + 3, [Jmp(end)])
    requires CodeAt(c.m.code, q + 6, [Lab(end)])
    ensures Run(c.w, c.m, st, k) == Next(st') && At(act, st', q + 7, d, env, tr)
    ensures AX in st'.regs && st'.regs[AX] == v && Keeps(act, st.sp, st.mem, st'.mem)
  {
    hide *;
    k, st' := ShortExit(c, act, s1, d, env, tr, v, viaShort, short, end, q);
    RunTrans(c.w, c.m, st, k0, s1, k);
    k := k0 + k;
  }

  /** The second operand, when the first did not decide. */
  lemma {:induction false} SecondSim(c: Setup, act: Act, e: Expr, n: nat, d: nat, st: State, k0: nat, s1: State, env: Env, tr: Trace, fuel: nat)
    returns (k: nat, st': State)
    requires LinkOk(c) && CallsFit(e) && e.Logical?
    requires CodeAt(c.m.code, st.pc, EmitExpr(e, n, d).code)
    requires Run(c.w, c.m, st, k0) == Next(s1) && Keeps(act, st.sp, st.mem, s1.mem) && s1.sp <= st.sp
    requires s1.pc == st.pc + |EmitExpr(e.left, n + 2, d).code| + 2 && At(act, s1, s1.pc, d, env, tr)
    ensures var o := EvalExpr(c.w, c.p, e.second, env, tr, fuel);
      ExprDone(c, act, st, st.pc + |EmitExpr(e, n, d).code|, d, fuel, if o.Val? then o.(v := Truth(o.v != 0)) else o, k, st')
    decreases 2 * fuel + 1, e, -1
  {
    hide Run, LinkOk, Keeps, At, EmitExpr, CodeAt, Target, EvalExpr;
    var a := EmitExpr(e.left, n + 2, d);
    var b := EmitExpr(e.second, a.next, d);
    var short := ShortLabel(e.lop, n);
    var end := Local("Llogic_end", n + 1);
    var q := st.pc + |a.code| + 2 + |b.code|;
    LogicalParts(c.m.code, st.pc, e, n, d);
    TargetHere(c, q + 4, short);
    var k2, s2 := ExprSim(c, act, e.second, a.next, d, s1, env, tr, fuel);
    RunTrans(c.w, c.m, st, k0, s1, k2);
    k, st' := k0 + k2, s2;
    var o := EvalExpr(c.w, c.p, e.second, env, tr, fuel);
    if o.Val? {
      KeepsTrans(act, st.sp, s1.sp, st.mem, s1.mem, s2.mem);
      AtSp(act, s2, q, d, o.env, o.tr);
      var s3 := TestRun(c.w, c.m, s2, ShortJump(e.lop, short), short);
      AtMove(act, s2, d, o.env, o.tr, s3);
      RunTrans(c.w, c.m, st, k, s2, 2);
      k, st' := ExitAfter(c, act, st, k + 2, s3, d, o.env, o.tr, Truth(o.v != 0), s3.pc == q + 4, short, end, q);
    }
  }

  // ----- calls -----

  lemma ArgsParts(code: seq<Instr>, pos: int, args: seq<Expr>, n: nat, d: nat)
    requires ArgsFit(args) && args != []
    requires CodeAt(code, pos, EmitArgs(args, n, d).code)
    ensures var a := EmitArgs(args[..|args| - 1], n, d); var b := EmitExpr(args[|args| - 1], a.next, d + |args| - 1);
      && CodeAt(code, pos, a.code) && CodeAt(code, pos + |a.code|, b.code) && CodeAt(code, pos + |a.code| + |b.code|, [Push(AX)])
      && |EmitArgs(args, n, d).code| == |a.code| + |b.code| + 1
  {
    hide CodeAt;
    var a := EmitArgs(args[..|args| - 1], n, d);
    var b := EmitExpr(args[|args| - 1], a.next, d + |args| - 1);
    CodeAtSplit(code, pos, a.code, b.code + [Push(AX)]);
    CodeAtSplit(code, pos + |a.code|, b.code, [Push(AX)]);
  }

  lemma {:induction false} ArgsSim(c: Setup, act: Act, args: seq<Expr>, n: nat, d: nat, st: State, env: Env, tr: Trace, fuel: nat)
    returns (k: nat, st': State)
    requires LinkOk(c) && ArgsFit(args)
    requires CodeAt(c.m.code, st.pc, EmitArgs(args, n, d).code)
    requires At(act, st, st.pc, d, env, tr)
    ensures ArgsDone(c, act, st, st.pc + |EmitArgs(args, n, d).code|, d, fuel, EvalArgs(c.w, c.p, args, env, tr, fuel), k, st')
    decreases 2 * fuel + 1, args, 0
  {
    hide Run, LinkOk, Keeps, At, EmitExpr, EvalExpr, CodeAt, CallsFit;
    AtSp(act, st, st.pc, d, env, tr);
    if args == [] {
      k, st' := 0, st;
      RunNone(c, st);
      KeepsSame(act, st.sp, st.mem);
    } else {
      var a := EmitArgs(args[..|args| - 1], n, d);
      ArgsParts(c.m.code, st.pc, args, n, d);
      k, st' := ArgsSim(c, act, args[..|args| - 1], n, d, st, env, tr, fuel);
      var o := EvalArgs(c.w, c.p, args[..|args| - 1], env, tr, fuel);
      if o.Vals? {
        AtSp(act, st', st.pc + |a.code|, d + |args| - 1, o.env, o.tr);
        k, st' := LastArg(c, act, args[|args| - 1], a.next, d, st, k, st', o, fuel);
      }
    }
  }

  lemma RunNone(c: Setup, st: State)
    ensures Run(c.w, c.m, st, 0) == Next(st)
  {
  }

  lemma {:induction false} LastArg(c: Setup, act: Act, e: Expr, n: nat, d: nat, st: State, k0: nat, s1: State, o: ArgsOut, fuel: nat)
    returns (k: nat, st': State)
    requires LinkOk(c) && CallsFit(e) && o.Vals?
    requires Run(c.w, c.m, st, k0) == Next(s1) && Keeps(act, st.sp, st.mem, s1.mem) && Pushed(st.sp, o.vs, s1.mem)
    requires At(act, s1, s1.pc, d + |o.vs|, o.env, o.tr) && st.sp == act.base - act.size - 8 * d
    requires CodeAt(c.m.code, s1.pc, EmitExpr(e, n, d + |o.vs|).code)
    requires CodeAt(c.m.code, s1.pc + |EmitExpr(e, n, d + |o.vs|).code|, [Push(AX)])
    ensures var o2 := EvalExpr(c.w, c.p, e, o.env, o.tr, fuel);
      ArgsDone(c, act, st, s1.pc + |EmitExpr(e, n, d + |o.vs|).code| + 1, d, fuel,
               match o2 case Val(v, env2, tr2) => Vals(o.vs + [v], env2, tr2) case EFault(t) => AFault(t)
                        case ETimeout(t) => ATimeout(t) case EWrong => AWrong, k, st')
    decreases 2 * fuel + 1, e, 2
  {
    hide Run, LinkOk, Keeps, At, EmitExpr, EvalExpr, CodeAt, Pushed;
    var d1 := d + |o.vs|;
    AtSp(act, s1, s1.pc, d1, o.env, o.tr);
    var k2, s2 := ExprSim(c, act, e, n, d1, s1, o.env, o.tr, fuel);
    RunTrans(c.w, c.m, st, k0, s1, k2);
    k, st' := k0 + k2, s2;
    var o2 := EvalExpr(c.w, c.p, e, o.env, o.tr, fuel);
    if o2.Val? {
      AtSp(act, s2, s1.pc + |EmitExpr(e, n, d1).code|, d1, o2.env, o2.tr);
      KeepsTrans(act, st.sp, s1.sp, st.mem, s1.mem, s2.mem);
      PushedKept(act, st.sp, o.vs, s1.mem, s2.mem);
      PushRun(c.w, c.m, s2, AX);
      st' := s2.(pc := s2.pc + 1, sp := s2.sp - 8, mem := s2.mem[s2.sp - 8 := Word(o2.v)]);
      AtPush(act, s2, d1, o2.env, o2.tr, o2.v, st');
      KeepsTrans(act, st.sp, s2.sp, st.mem, s2.mem, st'.mem);
      PushedMore(st.sp, o.vs, s2.mem, o2.v);
      RunTrans(c.w, c.m, st, k, s2, 1);
      k := k + 1;
    }
  }

  /** What was pushed below the frame and above the stack pointer stays. */
  lemma PushedKept(act: Act, top: int, vs: seq<Int32>, a: Memory, b: Memory)
    requires Pushed(top, vs, a) && top <= act.base - act.size && Keeps(act, top - 8 * |vs|, a, b)
    ensures Pushed(top, vs, b)
  {
    forall i | 0 <= i < |vs| ensures Below(top, i) in b && b[Below(top, i)] == Word(vs[i]) {
      assert Below(top, i) in a;
    }
  }

  lemma PushedMore(top: int, vs: seq<Int32>, a: Memory, v: Int32)
    requires Pushed(top, vs, a)
    ensures Pushed(top, vs + [v], a[top - 8 * (|vs| + 1) := Word(v)])
  {
    var b: Memory := a[top - 8 * (|vs| + 1) := Word(v)];
    forall i | 0 <= i < |vs| + 1 ensures Below(top, i) in b && b[Below(top, i)] == Word((vs + [v])[i]) {
      if i < |vs| {
        assert Below(top, i) in a;
      }
    }
  }

  /** The pops move the pushed words into the argument registers. */
  lemma {:induction false} PopsRun(c: Setup, st: State, top: int, vs: seq<Int32>, j: nat) returns (st': State)
    requires |vs| <= |ARG_REGS| && j <= |vs| && Pushed(top, vs, st.mem) && st.sp == top - 8 * j
    requires CodeAt(c.m.code, st.pc, Pops(j))
    requires forall i :: j <= i < |vs| ==> ARG_REGS[i] in st.regs && st.regs[ARG_REGS[i]] == vs[i]
    ensures Run(c.w, c.m, st, j) == Next(st') && RegsHold(vs, st'.regs)
    ensures st' == st.(pc := st.pc + |Pops(j)|, sp := top, regs := st'.regs) && |Pops(j)| == j
    decreases j
  {
    hide Run, CodeAt;
    if j == 0 {
      st' := st;
      RunNone(c, st);
    } else {
      CodeAtSplit(c.m.code, st.pc, [Pop(ARG_REGS[j - 1])], Pops(j - 1));
      assert Below(top, j - 1) in st.mem;
      PopRun(c.w, c.m, st, ARG_REGS[j - 1], vs[j - 1]);
      var s1 := st.(pc := st.pc + 1, regs := st.regs[ARG_REGS[j - 1] := vs[j - 1]], sp := st.sp + 8);
      assert forall i :: j <= i < |vs| ==> ARG_REGS[i] != ARG_REGS[j - 1];
      st' := PopsRun(c, s1, top, vs, j - 1);
      RunTrans(c.w, c.m, st, 1, s1, j - 1);
    }
  }

  lemma PadRuns(c: Setup, st: State, d: nat) returns (st': State)
    requires CodeAt(c.m.code, st.pc, PadBefore(d))
    ensures Run(c.w, c.m, st, |PadBefore(d)|) == Next(st')
    ensures st' == st.(pc := st.pc + |PadBefore(d)|, sp := st.sp - 8 * (d % 2), flags := st'.flags)
  {
    hide ExecCall, ExecDiv, Target;
    if d % 2 != 0 {
      CodeAtHead(c.m.code, st.pc, SubSp(8), []);
      One(c.w, c.m, st, SubSp(8));
      st' := st.(pc := st.pc + 1, sp := st.sp - 8, flags := None);
    } else {
      st' := st;
    }
  }

  lemma UnpadRuns(c: Setup, st: State, d: nat) returns (st': State)
    requires CodeAt(c.m.code, st.pc, PadAfter(d))
    ensures Run(c.w, c.m, st, |PadAfter(d)|) == Next(st')
    ensures st' == st.(pc := st.pc + |PadAfter(d)|, sp := st.sp + 8 * (d % 2), flags := st'.flags)
  {
    hide ExecCall, ExecDiv, Target;
    if d % 2 != 0 {
      CodeAtHead(c.m.code, st.pc, AddSp(8), []);
      One(c.w, c.m, st, AddSp(8));
      st' := st.(pc := st.pc + 1, sp := st.sp + 8, flags := None);
    } else {
      st' := st;
    }
  }

  /** The values an external call reads are the ones the pops put there. */
  lemma {:induction false} ReadsArgs(vs: seq<Int32>, regs: Regs, j: nat)
    requires RegsHold(vs, regs) && j <= |vs|
    ensures ReadArgs(regs, j) == Some(vs[..j])
    decreases j
  {
    if j > 0 {
      ReadsArgs(vs, regs, j - 1);
      assert vs[..j] == vs[..j - 1] + [vs[j - 1]];
    }
  }

  lemma CallParts(code: seq<Instr>, pos: int, e: Expr, n: nat, d: nat)
    requires CallsFit(e) && e.Call?
    requires CodeAt(code, pos, EmitExpr(e, n, d).code)
    ensures var a := EmitArgs(e.args, n, d); var q := pos + |a.code| + |Pops(|e.args|)|; var q2 := q + |PadBefore(d)|;
      && CodeAt(code, pos, a.code) && CodeAt(code, pos + |a.code|, Pops(|e.args|)) && CodeAt(code, q, PadBefore(d))
      && CodeAt(code, q2, [CallFn(e.callee)]) && CodeAt(code, q2 + 1, PadAfter(d))
      && pos + |EmitExpr(e, n, d).code| == q2 + 1 + |PadAfter(d)|
  {
    hide CodeAt, PadBefore, PadAfter, Pops;
    var a := EmitArgs(e.args, n, d);
    var ps := Pops(|e.args|);
    var rest := [CallFn(e.callee)] + PadAfter(d);
    CodeAtSplit(code, pos, a.code, ps + (PadBefore(d) + rest));
    CodeAtSplit(code, pos + |a.code|, ps, PadBefore(d) + rest);
    CodeAtSplit(code, pos + |a.code| + |ps|, PadBefore(d), rest);
    CodeAtSplit(code, pos + |a.code| + |ps| + |PadBefore(d)|, [CallFn(e.callee)], PadAfter(d));
  }

  lemma {:induction false} CallExprSim(c: Setup, act: Act, e: Expr, n: nat, d: nat, st: State, env: Env, tr: Trace, fuel: nat)
    returns (k: nat, st': State)
    requires LinkOk(c) && CallsFit(e) && e.Call?
    requires CodeAt(c.m.code, st.pc, EmitExpr(e, n, d).code)
    requires At(act, st, st.pc, d, env, tr)
    ensures ExprDone(c, act, st, st.pc + |EmitExpr(e, n, d).code|, d, fuel, EvalExpr(c.w, c.p, e, env, tr, fuel), k, st')
    decreases 2 * fuel + 1, e, 0
  {
    hide Run, LinkOk, Keeps, At, EmitExpr, EmitArgs, CodeAt, Pops, PadBefore, PadAfter, EvalCall, EvalArgs, Pushed, RegsHold;
    CallParts(c.m.code, st.pc, e, n, d);
    AtSp(act, st, st.pc, d, env, tr);
    k, st' := ArgsSim(c, act, e.args, n, d, st, env, tr, fuel);
    var o := EvalArgs(c.w, c.p, e.args, env, tr, fuel);
    if o.Vals? {
      var s1 := st';
      AtSp(act, s1, st.pc + |EmitArgs(e.args, n, d).code|, d + |o.vs|, o.env, o.tr);
      var s2 := PopsRun(c, s1, st.sp, o.vs, |o.vs|);
      AtPops(act, s1, d, |o.vs|, o.env, o.tr, s2);
      RunTrans(c.w, c.m, st, k, s1, |o.vs|);
      k, st' := InvokeSim(c, act, e, n, d, st, k + |o.vs|, s2, o, fuel);
    }
  }

  lemma AtPops(act: Act, st: State, d: nat, j: nat, env: Env, tr: Trace, st': State)
    requires At(act, st, st.pc, d + j, env, tr)
    requires st' == st.(pc := st'.pc, sp := st.sp + 8 * j, regs := st'.regs)
    ensures At(act, st', st'.pc, d, env, tr)
  {
  }

  /** The call instruction with its padding, once the arguments are in place. */
  lemma {:induction false} InvokeSim(c: Setup, act: Act, e: Expr, n: nat, d: nat, st: State, k0: nat, s2: State, o: ArgsOut, fuel: nat)
    returns (k: nat, st': State)
    requires LinkOk(c) && CallsFit(e) && e.Call? && o.Vals? && |o.vs| == |e.args|
    requires CodeAt(c.m.code, st.pc, EmitExpr(e, n, d).code)
    requires Run(c.w, c.m, st, k0) == Next(s2) && Keeps(act, st.sp, st.mem, s2.mem) && RegsHold(o.vs, s2.regs)
    requires s2.pc == st.pc + |EmitArgs(e.args, n, d).code| + |Pops(|e.args|)| && At(act, s2, s2.pc, d, o.env, o.tr)
    requires st.sp == s2.sp
    ensures var r := EvalCall(c.w, c.p, e.callee, o.vs, false, o.tr, fuel);
      ExprDone(c, act, st, st.pc + |EmitExpr(e, n, d).code|, d, fuel,
               match r case Returned(v, t) => Val(v, o.env, t) case CFault(t) => EFault(t) case CTimeout(t) => ETimeout(t)
                       case CWrong => EWrong, k, st')
    decreases 2 * fuel + 1, e, -1
  {
    hide Run, LinkOk, Keeps, At, EmitExpr, EmitArgs, CodeAt, Pops, PadBefore, PadAfter, EvalCall, RegsHold, AtCall;
    CallParts(c.m.code, st.pc, e, n, d);
    var s3 := PadRuns(c, s2, d);
    RunTrans(c.w, c.m, st, k0, s2, |PadBefore(d)|);
    AtCallSite(act, s2, d, o.env, o.tr, s3);
    var k4, s4 := TransferSim(c, act, e.callee, d, s3, o.env, o.vs, o.tr, fuel);
    RunTrans(c.w, c.m, st, k0 + |PadBefore(d)|, s3, k4);
    k, st' := k0 + |PadBefore(d)| + k4, s4;
    var r := EvalCall(c.w, c.p, e.callee, o.vs, false, o.tr, fuel);
    if r.Returned? {
      st' := UnpadRuns(c, s4, d);
      RunTrans(c.w, c.m, st, k, s4, |PadAfter(d)|);
      k := k + |PadAfter(d)|;
      AtUnpad(act, s4, d, o.env, r.tr, st');
      KeepsTrans(act, st.sp, s3.sp, st.mem, s3.mem, s4.mem);
    }
  }

  /** At the call instruction: like `At`, with the padding, so that the stack
      pointer is a multiple of 16. */
  ghost predicate AtCall(act: Act, st: State, pc: int, d: nat, env: Env, tr: Trace) {
    At(act, st.(sp := st.sp + 8 * (d % 2)), pc, d, env, tr) && st.sp % 16 == 0
  }

  lemma AtCallSite(act: Act, st: State, d: nat, env: Env, tr: Trace, st': State)
    requires At(act, st, st.pc, d, env, tr)
    requires st' == st.(pc := st'.pc, sp := st.sp - 8 * (d % 2), flags := st'.flags)
    ensures AtCall(act, st', st'.pc, d, env, tr)
  {
    assert (8 * d + 8 * (d % 2)) % 16 == 0;
  }

  lemma AtUnpad(act: Act, st: State, d: nat, env: Env, tr: Trace, st': State)
    requires AtCall(act, st, st.pc, d, env, tr)
    requires st' == st.(pc := st'.pc, sp := st.sp + 8 * (d % 2), flags := st'.flags)
    ensures At(act, st', st'.pc, d, env, tr)
  {
  }

  /** The call instruction itself. */
  lemma {:induction false} TransferSim(c: Setup, act: Act, f: string, d: nat, st: State, env: Env, vs: seq<Int32>, tr: Trace, fuel: nat)
    returns (k: nat, st': State)
    requires LinkOk(c) && CodeAt(c.m.code, st.pc, [CallFn(f)]) && AtCall(act, st, st.pc, d, env, tr) && RegsHold(vs, st.regs)
    ensures var r := EvalCall(c.w, c.p, f, vs, false, tr, fuel);
      match r
      case Returned(v, t) =>
        && Run(c.w, c.m, st, k) == Next(st') && AtCall(act, st', st.pc + 1, d, env, t) && st'.sp == st.sp && st'.pc == st.pc + 1
        && AX in st'.regs && st'.regs[AX] == v && Keeps(act, st.sp, st.mem, st'.mem)
      case CFault(t) => Run(c.w, c.m, st, k) == Trap(t)
      case CTimeout(t) => Run(c.w, c.m, st, k) == Next(st') && st'.tr == t && k >= fuel
      case CWrong => true
    decreases 2 * fuel, 1
  {
    hide Run, LinkOk, At, AtCall, CodeAt, Keeps, RegsHold, EvalItems;
    AtCallSp(act, st, st.pc, d, env, tr);
    k, st' := 0, st;
    var found := FindBody(c.p, f);
    if found.Some? {
      if |c.p[found.value].params| == |vs| {
        LinkDefined(c, f);
        var s1 := EnterRun(c, st, f);
        var k1, s2 := CallSim(c, f, s1, vs, st.pc + 1, tr, fuel);
        RunTrans(c.w, c.m, st, 1, s1, k1);
        k, st' := 1 + k1, s2;
        var r := EvalCall(c.w, c.p, f, vs, false, tr, fuel);
        if r.Returned? {
          AtBack(act, st, d, env, tr, s1.mem, st', r.tr);
        }
      }
    } else if f in Arities(c.p) && Arities(c.p)[f] == |vs| {
      LinkExternal(c, f);
      st' := ExternRun(c, st, f, vs);
      k := 1;
      AtBack(act, st, d, env, tr, st.mem, st', st'.tr);
    }
  }

  lemma AtCallSp(act: Act, st: State, pc: int, d: nat, env: Env, tr: Trace)
    requires AtCall(act, st, pc, d, env, tr)
    ensures st.sp % 16 == 0 && st.tr == tr && st.pc == pc && st.sp <= act.base - act.size
  {
  }

  lemma LinkDefined(c: Setup, f: string)
    requires LinkOk(c) && FindBody(c.p, f).Some?
    ensures PlacedAt(c, FindBody(c.p, f).value, Target(c.m.code, Fn(f))) && Target(c.m.code, Fn(f)) < |c.m.code|
    ensures FrameFits(c.p[FindBody(c.p, f).value]) && FunctionFits(c.p[FindBody(c.p, f).value])
  {
    hide FrameFits, Target, FindBody, ItemsFit, EmitItems, StoreParams;
  }

  lemma LinkExternal(c: Setup, f: string)
    requires LinkOk(c) && FindBody(c.p, f).None? && f in Arities(c.p)
    ensures Target(c.m.code, Fn(f)) == |c.m.code| && f in c.m.externs && c.m.externs[f] == Arities(c.p)[f]
  {
    hide FrameFits, Target, FindBody;
  }

  lemma EnterRun(c: Setup, st: State, f: string) returns (st': State)
    requires CodeAt(c.m.code, st.pc, [CallFn(f)]) && st.sp % 16 == 0 && Target(c.m.code, Fn(f)) < |c.m.code|
    ensures Run(c.w, c.m, st, 1) == Next(st')
    ensures st' == st.(pc := Target(c.m.code, Fn(f)), sp := st.sp - 8, mem := st.mem[st.sp - 8 := RetTo(st.pc + 1)])
  {
    hide ExecDiv, Target, Run;
    CodeAtHead(c.m.code, st.pc, CallFn(f), []);
    One(c.w, c.m, st, CallFn(f));
    st' := Exec(c.w, c.m, st, CallFn(f)).st;
  }

  lemma ExternRun(c: Setup, st: State, f: string, vs: seq<Int32>) returns (st': State)
    requires CodeAt(c.m.code, st.pc, [CallFn(f)]) && st.sp % 16 == 0 && Target(c.m.code, Fn(f)) == |c.m.code|
    requires f in c.m.externs && c.m.externs[f] == |vs| && RegsHold(vs, st.regs)
    ensures Run(c.w, c.m, st, 1) == Next(st')
    ensures st'.pc == st.pc + 1 && st'.sp == st.sp && st'.bp == st.bp
    ensures var r := c.w.ext(f, vs, st.tr); AX in st'.regs && st'.regs[AX] == r && st'.tr == st.tr + [Event(f, vs, r)]
    ensures forall x :: x in st.mem && x >= st.sp ==> x in st'.mem && st'.mem[x] == st.mem[x]
  {
    hide ExecDiv, Target, Run, ReadArgs, RegsHold;
    CodeAtHead(c.m.code, st.pc, CallFn(f), []);
    One(c.w, c.m, st, CallFn(f));
    ReadsArgs(vs, st.regs, |vs|);
    assert vs[..|vs|] == vs;
    st' := Exec(c.w, c.m, st, CallFn(f)).st;
  }

  /** Back from a callee that kept everything above its own frame. */
  lemma AtBack(act: Act, st: State, d: nat, env: Env, tr: Trace, mid: Memory, st': State, tr': Trace)
    requires AtCall(act, st, st.pc, d, env, tr)
    requires forall x :: x in st.mem && x >= st.sp ==> x in mid && mid[x] == st.mem[x]
    requires forall x :: x in mid && x >= st.sp ==> x in st'.mem && st'.mem[x] == mid[x]
    requires st'.pc == st.pc + 1 && st'.sp == st.sp && st'.bp == st.bp && st'.tr == tr'
    ensures AtCall(act, st', st.pc + 1, d, env, tr') && Keeps(act, st.sp, st.mem, st'.mem)
  {
  }

  // ----- functions -----

  lemma FunctionParts(code: seq<Instr>, pos: int, f: Function, n: nat)
    requires FunctionFits(f) && f.body.Some? && CodeAt(code, pos, EmitFunction(f, n).code)
    ensures var b := EmitItems(f.body.value, n, [], 0);
      var q := pos + |Prologue(f)|; var q2 := q + |StoreParams(f.params)|;
      && CodeAt(code, pos, Prologue(f)) && CodeAt(code, q, StoreParams(f.params)) && CodeAt(code, q2, b.code)
      && CodeAt(code, q2 + |b.code|, [MovImm(AX, 0)]) && CodeAt(code, q2 + |b.code| + 1, [LeaveFrame, Ret])
  {
    hide CodeAt, EmitItems, StoreParams, Prologue;
    var b := EmitItems(f.body.value, n, [], 0);
    var end := [MovImm(AX, 0), LeaveFrame, Ret];
    CodeAtSplit(code, pos, Prologue(f), StoreParams(f.params) + (b.code + end));
    CodeAtSplit(code, pos + |Prologue(f)|, StoreParams(f.params), b.code + end);
    CodeAtSplit(code, pos + |Prologue(f)| + |StoreParams(f.params)|, b.code, end);
    var q := pos + |Prologue(f)| + |StoreParams(f.params)| + |b.code|;
    assert end == [MovImm(AX, 0)] + [LeaveFrame, Ret];
    CodeAtSplit(code, q, [MovImm(AX, 0)], [LeaveFrame, Ret]);
  }

  lemma PrologueSteps(w: World, m: Linked, st: State, l: Label, n: int)
    ensures Exec(w, m, st, Lab(l)) == Next(st.(pc := st.pc + 1))
    ensures Exec(w, m, st, PushBp) == Next(st.(pc := st.pc + 1, sp := st.sp - 8, mem := st.mem[st.sp - 8 := Ptr(st.bp)]))
    ensures Exec(w, m, st, MovBpSp) == Next(st.(pc := st.pc + 1, bp := st.sp))
    ensures Exec(w, m, st, SubSp(n)) == Next(st.(pc := st.pc + 1, sp := st.sp - n, flags := None))
  {
    hide ExecDiv, ExecCall, Target;
  }

  lemma PrologueRun(c: Setup, st: State, f: Function, ret: int) returns (st': State)
    requires CodeAt(c.m.code, st.pc, Prologue(f)) && f.frameSize >= 0 && f.frameSize % 16 == 0
    requires st.sp in st.mem && st.mem[st.sp] == RetTo(ret) && (st.sp + 8) % 16 == 0
    ensures Run(c.w, c.m, st, |Prologue(f)|) == Next(st')
    ensures At(Act(st.sp - 8, f.frameSize, st.bp, ret), st', st.pc + |Prologue(f)|, 0, Frame(map[]), st.tr)
    ensures st'.regs == st.regs && st'.mem == st.mem[st.sp - 8 := Ptr(st.bp)]
  {
    hide Exec, Straight, Run;
    RunStraight(c.w, c.m, st, Prologue(f));
    var l := Fn(f.name);
    var tail := if f.frameSize > 0 then [SubSp(f.frameSize)] else [];
    assert Prologue(f) == [Lab(l)] + ([PushBp] + ([MovBpSp] + tail));
    StraightCons(c.w, c.m, st, Lab(l), [PushBp] + ([MovBpSp] + tail));
    PrologueSteps(c.w, c.m, st, l, 0);
    var s1 := st.(pc := st.pc + 1);
    StraightCons(c.w, c.m, s1, PushBp, [MovBpSp] + tail);
    PrologueSteps(c.w, c.m, s1, l, 0);
    var s2 := s1.(pc := s1.pc + 1, sp := s1.sp - 8, mem := s1.mem[s1.sp - 8 := Ptr(s1.bp)]);
    StraightCons(c.w, c.m, s2, MovBpSp, tail);
    PrologueSteps(c.w, c.m, s2, l, 0);
    st' := s2.(pc := s2.pc + 1, bp := s2.sp);
    if f.frameSize > 0 {
      var s3 := st';
      Straight1(c.w, c.m, s3, SubSp(f.frameSize));
      PrologueSteps(c.w, c.m, s3, l, f.frameSize);
      st' := s3.(pc := s3.pc + 1, sp := s3.sp - f.frameSize, flags := None);
    } else {
      StraightNil(c.w, c.m, st');
    }
  }

  lemma {:induction false} ParamsRun(c: Setup, act: Act, st: State, ps: seq<Param>, vs: seq<Int32>, tr: Trace) returns (st': State)
    requires |ps| == |vs| && RegsHold(vs, st.regs) && CodeAt(c.m.code, st.pc, StoreParams(ps))
    requires At(act, st, st.pc, 0, Frame(map[]), tr)
    requires forall i :: 0 <= i < |ps| ==> SlotOk(ps[i].slot, act.size)
    ensures Run(c.w, c.m, st, |StoreParams(ps)|) == Next(st')
    ensures At(act, st', st.pc + |StoreParams(ps)|, 0, Frame(BindSlots(ps, vs)), tr)
    ensures st'.regs == st.regs && Keeps(act, st.sp, st.mem, st'.mem)
  {
    hide Run, Keeps, At, CodeAt;
    AtSp(act, st, st.pc, 0, Frame(map[]), tr);
    if ps == [] {
      st' := st;
      RunNone(c, st);
      KeepsSame(act, st.sp, st.mem);
    } else {
      var j := |ps| - 1;
      CodeAtSplit(c.m.code, st.pc, StoreParams(ps[..j]), [MovStore(ps[j].slot, ARG_REGS[j])]);
      var s1 := ParamsRun(c, act, st, ps[..j], vs[..j], tr);
      var env := Frame(BindSlots(ps[..j], vs[..j]));
      AtSp(act, s1, st.pc + |StoreParams(ps[..j])|, 0, env, tr);
      StoreRun(c.w, c.m, s1, ps[j].slot, ARG_REGS[j]);
      AtStore(act, s1, 0, env, tr, ps[j].slot, vs[j]);
      st' := s1.(pc := s1.pc + 1, mem := s1.mem[s1.bp + ps[j].slot := Word(vs[j])]);
      KeepsTrans(act, st.sp, s1.sp, st.mem, s1.mem, st'.mem);
      RunTrans(c.w, c.m, st, |StoreParams(ps[..j])|, s1, 1);
    }
  }

  /** Control has come back to the caller of an activation. */
  ghost predicate Home(act: Act, st: State, v: Int32, tr: Trace) {
    st.pc == act.ret && st.sp == act.base + 16 && st.bp == act.link && st.tr == tr && AX in st.regs && st.regs[AX] == v
  }

  lemma LeaveSim(c: Setup, act: Act, st: State, d: nat, env: Env, tr: Trace) returns (st': State)
    requires CodeAt(c.m.code, st.pc, [LeaveFrame, Ret]) && At(act, st, st.pc, d, env, tr) && AX in st.regs
    ensures Run(c.w, c.m, st, 2) == Next(st') && Home(act, st', st.regs[AX], tr) && st'.mem == st.mem
  {
    hide Run, CodeAt;
    LeaveRun(c.w, c.m, st, act.link, act.ret);
    st' := st.(pc := act.ret, sp := st.bp + 16, bp := act.link);
  }

  /** A call of a defined function, from its label to the return address. */
  lemma {:induction false} CallSim(c: Setup, f: string, st: State, vs: seq<Int32>, ret: int, tr: Trace, fuel: nat)
    returns (k: nat, st': State)
    requires LinkOk(c) && FindBody(c.p, f).Some? && |c.p[FindBody(c.p, f).value].params| == |vs|
    requires st.pc == Target(c.m.code, Fn(f)) && RegsHold(vs, st.regs) && st.tr == tr
    requires st.sp in st.mem && st.mem[st.sp] == RetTo(ret) && (st.sp + 8) % 16 == 0
    ensures CallDone(c, st, ret, fuel, EvalCall(c.w, c.p, f, vs, false, tr, fuel), k, st')
    decreases 2 * fuel, 0
  {
    hide Run, LinkOk, At, CodeAt, Keeps, RegsHold, EvalItems, Target, EmitFunction, EmitItems, StoreParams, Prologue;
    LinkDefined(c, f);
    var fn := c.p[FindBody(c.p, f).value];
    if fuel == 0 {
      k, st' := 0, st;
      RunNone(c, st);
    } else {
      var n: nat :| CodeAt(c.m.code, st.pc, EmitFunction(fn, n).code);
      FunctionParts(c.m.code, st.pc, fn, n);
      var act := Act(st.sp - 8, fn.frameSize, st.bp, ret);
      var k0, s1 := BodyEntry(c, fn, n, st, vs, ret);
      k, st' := BodySim(c, fn, n, act, st, k0, s1, vs, tr, fuel - 1);
    }
  }

  lemma BodyEntry(c: Setup, fn: Function, n: nat, st: State, vs: seq<Int32>, ret: int)
    returns (k: nat, st': State)
    requires FunctionFits(fn) && fn.body.Some? && CodeAt(c.m.code, st.pc, EmitFunction(fn, n).code)
    requires FrameFits(fn) && |fn.params| == |vs| && RegsHold(vs, st.regs)
    requires st.sp in st.mem && st.mem[st.sp] == RetTo(ret) && (st.sp + 8) % 16 == 0
    ensures k == |Prologue(fn)| + |StoreParams(fn.params)| && k >= 1
    ensures Run(c.w, c.m, st, k) == Next(st')
    ensures At(Act(st.sp - 8, fn.frameSize, st.bp, ret), st', st.pc + k, 0, Frame(BindSlots(fn.params, vs)), st.tr)
    ensures forall x :: x in st.mem && x >= st.sp + 8 ==> x in st'.mem && st'.mem[x] == st.mem[x]
  {
    hide Run, At, CodeAt, EmitFunction, EmitItems, StoreParams, RegsHold, ItemSlotsFit, BindSlots;
    FunctionParts(c.m.code, st.pc, fn, n);
    var act := Act(st.sp - 8, fn.frameSize, st.bp, ret);
    var s1 := PrologueRun(c, st, fn, ret);
    AtSp(act, s1, st.pc + |Prologue(fn)|, 0, Frame(map[]), st.tr);
    st' := ParamsRun(c, act, s1, fn.params, vs, st.tr);
    RunTrans(c.w, c.m, st, |Prologue(fn)|, s1, |StoreParams(fn.params)|);
    k := |Prologue(fn)| + |StoreParams(fn.params)|;
  }

  lemma {:induction false} BodySim(c: Setup, fn: Function, n: nat, act: Act, st: State, k0: nat, s1: State, vs: seq<Int32>, tr: Trace, fuel: nat)
    returns (k: nat, st': State)
    requires LinkOk(c) && FunctionFits(fn) && FrameFits(fn) && fn.body.Some? && |fn.params| == |vs|
    requires CodeAt(c.m.code, st.pc, EmitFunction(fn, n).code)
    requires k0 == |Prologue(fn)| + |StoreParams(fn.params)| && k0 >= 1 && Run(c.w, c.m, st, k0) == Next(s1)
    requires act.base == st.sp - 8 && act.link == st.bp && act.size == fn.frameSize
    requires At(act, s1, st.pc + k0, 0, Frame(BindSlots(fn.params, vs)), tr)
    requires forall x :: x in st.mem && x >= st.sp + 8 ==> x in s1.mem && s1.mem[x] == st.mem[x]
    ensures var o := EvalItems(c.w, c.p, fn.body.value, Frame(BindSlots(fn.params, vs)), tr, fuel);
      CallDone(c, st, act.ret, fuel + 1, match o case Normal(_, t) => Returned(0, t) case Returns(v, t) => Returned(v, t)
               case SFault(t) => CFault(t) case STimeout(t) => CTimeout(t) case _ => CWrong, k, st')
    decreases 2 * fuel + 1, fn.body.value, 3
  {
    hide Run, LinkOk, At, CodeAt, Keeps, EvalItems, Target, EmitFunction, EmitItems, StoreParams, Prologue, BindSlots;
    var env := Frame(BindSlots(fn.params, vs));
    var b := EmitItems(fn.body.value, n, [], 0);
    FunctionParts(c.m.code, st.pc, fn, n);
    AtSp(act, s1, st.pc + k0, 0, env, tr);
    var k2, s2 := ItemsSim(c, act, fn.body.value, n, [], 0, s1, env, tr, fuel);
    RunTrans(c.w, c.m, st, k0, s1, k2);
    k, st' := k0 + k2, s2;
    var o := EvalItems(c.w, c.p, fn.body.value, env, tr, fuel);
    if o.Normal? {
      AtSp(act, s2, s1.pc + |b.code|, 0, o.env, o.tr);
      MovImmRun(c.w, c.m, s2, AX, 0);
      var s3 := SetReg(s2, AX, 0);
      AtMove(act, s2, 0, o.env, o.tr, s3);
      RunTrans(c.w, c.m, st, k, s2, 1);
      st' := LeaveSim(c, act, s3, 0, o.env, o.tr);
      RunTrans(c.w, c.m, st, k + 1, s3, 2);
      k := k + 3;
      KeptAbove(act, s1.sp, s1.mem, s2.mem);
    }
  }

  lemma KeptAbove(act: Act, lo: int, a: Memory, b: Memory)
    requires Keeps(act, lo, a, b) && lo <= act.base
    ensures forall x :: x in a && x >= act.base ==> x in b && b[x] == a[x]
  {
  }

  // ----- statements -----

  lemma {:induction false} ItemsSim(c: Setup, act: Act, items: seq<Stmt>, n: nat, loops: seq<Loop>, d: nat, st: State, env: Env, tr: Trace, fuel: nat)
    returns (k: nat, st': State)
    requires LinkOk(c) && ItemsFit(items, loops != []) && ItemSlotsFit(items, act.size)
    requires CodeAt(c.m.code, st.pc, EmitItems(items, n, loops, d).code)
    requires At(act, st, st.pc, d, env, tr)
    ensures StmtDone(c, act, st, st.pc + |EmitItems(items, n, loops, d).code|, loops, d, fuel, EvalItems(c.w, c.p, items, env, tr, fuel), k, st')
    decreases 2 * fuel + 1, items, 0
  {
    hide Run, LinkOk, At, CodeAt, Keeps, EvalStmt, EmitStmt, Target;
    AtSp(act, st, st.pc, d, env, tr);
    if items == [] {
      k, st' := 0, st;
      RunNone(c, st);
      KeepsSame(act, st.sp, st.mem);
    } else {
      var j := |items| - 1;
      var a := EmitItems(items[..j], n, loops, d);
      CodeAtSplit(c.m.code, st.pc, a.code, EmitStmt(items[j], a.next, loops, d).code);
      k, st' := ItemsSim(c, act, items[..j], n, loops, d, st, env, tr, fuel);
      var o := EvalItems(c.w, c.p, items[..j], env, tr, fuel);
      if o.Normal? {
        AtSp(act, st', st.pc + |a.code|, d, o.env, o.tr);
        var k2, s2 := StmtSim(c, act, items[j], a.next, loops, d, st', o.env, o.tr, fuel);
        var pc := st'.pc + |EmitStmt(items[j], a.next, loops, d).code|;
        StmtAfter(c, act, st, k, st', pc, loops, d, fuel, EvalStmt(c.w, c.p, items[j], o.env, o.tr, fuel), k2, s2);
        k, st' := k + k2, s2;
      }
    }
  }

  /** A statement run that starts after some other run with the same stack. */
  lemma StmtAfter(c: Setup, act: Act, st: State, k0: nat, s1: State, pc: int, loops: seq<Loop>, d: nat, fuel: nat, o: StmtOut, k: nat, st': State)
    requires Run(c.w, c.m, st, k0) == Next(s1) && Keeps(act, st.sp, st.mem, s1.mem) && s1.sp == st.sp && s1.sp <= act.base
    requires StmtDone(c, act, s1, pc, loops, d, fuel, o, k, st')
    ensures StmtDone(c, act, st, pc, loops, d, fuel, o, k0 + k, st')
  {
    hide Run, At, Target;
    RunTrans(c.w, c.m, st, k0, s1, k);
  }

  lemma {:induction false} StmtSim(c: Setup, act: Act, s: Stmt, n: nat, loops: seq<Loop>, d: nat, st: State, env: Env, tr: Trace, fuel: nat)
    returns (k: nat, st': State)
    requires LinkOk(c) && StmtFits(s, loops != []) && SlotsFit(s, act.size)
    requires CodeAt(c.m.code, st.pc, EmitStmt(s, n, loops, d).code)
    requires At(act, st, st.pc, d, env, tr)
    ensures StmtDone(c, act, st, st.pc + |EmitStmt(s, n, loops, d).code|, loops, d, fuel, EvalStmt(c.w, c.p, s, env, tr, fuel), k, st')
    decreases 2 * fuel + 1, s, 5
  {
    hide *;
    match s {
      case VarDecl(_, _, _) => k, st' := DeclSim(c, act, s, n, loops, d, st, env, tr, fuel);
      case ExprStmt(_) => k, st' := ExprStmtSim(c, act, s, n, loops, d, st, env, tr, fuel);
      case Return(_) => k, st' := ReturnSim(c, act, s, n, loops, d, st, env, tr, fuel);
      case Block(_) => k, st' := BlockSim(c, act, s, n, loops, d, st, env, tr, fuel);
      case If(_, _, _) => k, st' := IfSim(c, act, s, n, loops, d, st, env, tr, fuel);
      case While(_, _) => k, st' := WhileSim(c, act, s, n, loops, d, st, env, tr, fuel);
      case For(_, _, _, _) => k, st' := ForSim(c, act, s, n, loops, d, st, env, tr, fuel);
      case _ => k, st' := JumpSim(c, act, s, n, loops, d, st, env, tr, fuel);
    }
  }

  lemma JumpSim(c: Setup, act: Act, s: Stmt, n: nat, loops: seq<Loop>, d: nat, st: State, env: Env, tr: Trace, fuel: nat)
    returns (k: nat, st': State)
    requires LinkOk(c) && StmtFits(s, loops != []) && SlotsFit(s, act.size)
    requires s.Break? || s.Continue? || s.Empty?
    requires CodeAt(c.m.code, st.pc, EmitStmt(s, n, loops, d).code)
    requires At(act, st, st.pc, d, env, tr)
    ensures StmtDone(c, act, st, st.pc + |EmitStmt(s, n, loops, d).code|, loops, d, fuel, EvalStmt(c.w, c.p, s, env, tr, fuel), k, st')
    decreases 2 * fuel + 1, s, 0
  {
    hide Run, LinkOk, At, CodeAt, Keeps, Target;
    AtSp(act, st, st.pc, d, env, tr);
    KeepsSame(act, st.sp, st.mem);
    k, st' := 0, st;
    RunNone(c, st);
    if !s.Empty? {
      var l := if s.Break? then loops[|loops| - 1].brk else loops[|loops| - 1].cont;
      JmpRun(c.w, c.m, st, l);
      k, st' := 1, st.(pc := Target(c.m.code, l));
      AtMove(act, st, d, env, tr, st');
    }
  }

  /** An optional expression, or the instructions emitted in its place. */
  lemma {:induction false} MaybeSim(c: Setup, act: Act, e: Option<Expr>, absent: seq<Instr>, n: nat, d: nat, st: State, env: Env, tr: Trace, fuel: nat)
    returns (k: nat, st': State)
    requires LinkOk(c) && MaybeFits(e) && (absent == [] || absent == [MovImm(AX, 0)])
    requires CodeAt(c.m.code, st.pc, EmitMaybe(e, absent, n, d).code)
    requires At(act, st, st.pc, d, env, tr)
    ensures var o := if e.Some? then EvalExpr(c.w, c.p, e.value, env, tr, fuel) else Val(0, env, tr);
      && (o.Val? ==>
          && Run(c.w, c.m, st, k) == Next(st')
          && At(act, st', st.pc + |EmitMaybe(e, absent, n, d).code|, d, o.env, o.tr)
          && Keeps(act, st.sp, st.mem, st'.mem)
          && (e.Some? || absent != [] ==> AX in st'.regs && st'.regs[AX] == o.v))
      && (!o.Val? ==> ExprDone(c, act, st, 0, d, fuel, o, k, st'))
    decreases 2 * fuel + 1, e, 0
  {
    hide Run, LinkOk, At, CodeAt, Keeps, EmitExpr, EvalExpr;
    AtSp(act, st, st.pc, d, env, tr);
    if e.Some? {
      k, st' := ExprSim(c, act, e.value, n, d, st, env, tr, fuel);
    } else {
      KeepsSame(act, st.sp, st.mem);
      RunNone(c, st);
      k, st' := 0, st;
      if absent != [] {
        MovImmRun(c.w, c.m, st, AX, 0);
        k, st' := 1, SetReg(st, AX, 0);
        AtMove(act, st, d, env, tr, st');
      }
    }
  }

  lemma {:induction false} DeclSim(c: Setup, act: Act, s: Stmt, n: nat, loops: seq<Loop>, d: nat, st: State, env: Env, tr: Trace, fuel: nat)
    returns (k: nat, st': State)
    requires LinkOk(c) && StmtFits(s, loops != []) && SlotsFit(s, act.size) && s.VarDecl?
    requires CodeAt(c.m.code, st.pc, EmitStmt(s, n, loops, d).code)
    requires At(act, st, st.pc, d, env, tr)
    ensures StmtDone(c, act, st, st.pc + |EmitStmt(s, n, loops, d).code|, loops, d, fuel, EvalStmt(c.w, c.p, s, env, tr, fuel), k, st')
    decreases 2 * fuel + 1, s, 2
  {
    hide Run, LinkOk, At, CodeAt, Keeps, EmitMaybe, EvalExpr, Target;
    var zero := [MovImm(AX, 0)];
    var a := EmitMaybe(s.init, zero, n, d);
    CodeAtSplit(c.m.code, st.pc, a.code, [MovStore(s.slot, AX)]);
    AtSp(act, st, st.pc, d, env, tr);
    k, st' := MaybeSim(c, act, s.init, zero, n, d, st, env, tr, fuel);
    var o := if s.init.Some? then EvalExpr(c.w, c.p, s.init.value, env, tr, fuel) else Val(0, env, tr);
    if o.Val? {
      AtSp(act, st', st.pc + |a.code|, d, o.env, o.tr);
      k, st' := StoreAfter(c, act, st, k, st', d, o.env, o.tr, s.slot);
    }
  }

  lemma {:induction false} ExprStmtSim(c: Setup, act: Act, s: Stmt, n: nat, loops: seq<Loop>, d: nat, st: State, env: Env, tr: Trace, fuel: nat)
    returns (k: nat, st': State)
    requires LinkOk(c) && StmtFits(s, loops != []) && SlotsFit(s, act.size) && s.ExprStmt?
    requires CodeAt(c.m.code, st.pc, EmitStmt(s, n, loops, d).code)
    requires At(act, st, st.pc, d, env, tr)
    ensures StmtDone(c, act, st, st.pc + |EmitStmt(s, n, loops, d).code|, loops, d, fuel, EvalStmt(c.w, c.p, s, env, tr, fuel), k, st')
    decreases 2 * fuel + 1, s, 0
  {
    hide Run, LinkOk, At, CodeAt, Keeps, EmitExpr, EvalExpr, Target;
    k, st' := ExprSim(c, act, s.expr, n, d, st, env, tr, fuel);
  }

  lemma {:induction false} ReturnSim(c: Setup, act: Act, s: Stmt, n: nat, loops: seq<Loop>, d: nat, st: State, env: Env, tr: Trace, fuel: nat)
    returns (k: nat, st': State)
    requires LinkOk(c) && StmtFits(s, loops != []) && SlotsFit(s, act.size) && s.Return?
    requires CodeAt(c.m.code, st.pc, EmitStmt(s, n, loops, d).code)
    requires At(act, st, st.pc, d, env, tr)
    ensures StmtDone(c, act, st, st.pc + |EmitStmt(s, n, loops, d).code|, loops, d, fuel, EvalStmt(c.w, c.p, s, env, tr, fuel), k, st')
    decreases 2 * fuel + 1, s, 2
  {
    hide Run, LinkOk, At, CodeAt, Keeps, EmitMaybe, EvalExpr, Target;
    var zero := [MovImm(AX, 0)];
    var a := EmitMaybe(s.value, zero, n, d);
    CodeAtSplit(c.m.code, st.pc, a.code, [LeaveFrame, Ret]);
    AtSp(act, st, st.pc, d, env, tr);
    k, st' := MaybeSim(c, act, s.value, zero, n, d, st, env, tr, fuel);
    var o := if s.value.Some? then EvalExpr(c.w, c.p, s.value.value, env, tr, fuel) else Val(0, env, tr);
    if o.Val? {
      var s1 := st';
      AtSp(act, s1, st.pc + |a.code|, d, o.env, o.tr);
      st' := LeaveSim(c, act, s1, d, o.env, o.tr);
      KeptAbove(act, st.sp, st.mem, s1.mem);
      RunTrans(c.w, c.m, st, k, s1, 2);
      k := k + 2;
    }
  }

  /** Leaving a scope does nothing to a frame. */
  lemma DoneLeave(c: Setup, act: Act, st: State, pc: int, loops: seq<Loop>, d: nat, fuel: nat, o: StmtOut, k: nat, st': State)
    requires StmtDone(c, act, st, pc, loops, d, fuel, o, k, st')
    ensures StmtDone(c, act, st, pc, loops, d, fuel, LeaveStmt(o), k, st')
  {
    hide Run, Keeps, Target;
  }

  lemma {:induction false} BlockSim(c: Setup, act: Act, s: Stmt, n: nat, loops: seq<Loop>, d: nat, st: State, env: Env, tr: Trace, fuel: nat)
    returns (k: nat, st': State)
    requires LinkOk(c) && StmtFits(s, loops != []) && SlotsFit(s, act.size) && s.Block?
    requires CodeAt(c.m.code, st.pc, EmitStmt(s, n, loops, d).code)
    requires At(act, st, st.pc, d, env, tr)
    ensures StmtDone(c, act, st, st.pc + |EmitStmt(s, n, loops, d).code|, loops, d, fuel, EvalStmt(c.w, c.p, s, env, tr, fuel), k, st')
    decreases 2 * fuel + 1, s, 0
  {
    hide Run, LinkOk, Target, EmitItems, EvalItems, CodeAt, Keeps, At, ItemsFit, ItemSlotsFit;
    AtSp(act, st, st.pc, d, env, tr);
    k, st' := ItemsSim(c, act, s.items, n, loops, d, st, env, tr, fuel);
    DoneLeave(c, act, st, st.pc + |EmitItems(s.items, n, loops, d).code|, loops, d, fuel, EvalItems(c.w, c.p, s.items, env, tr, fuel), k, st');
  }

  lemma IfParts(code: seq<Instr>, pos: int, s: Stmt, n: nat, loops: seq<Loop>, d: nat)
    requires StmtFits(s, loops != []) && s.If? && CodeAt(code, pos, EmitStmt(s, n, loops, d).code)
    ensures var a := EmitExpr(s.cond, n + 1, d); var b := EmitStmt(s.thn, a.next, loops, d);
      var lelse := Local("Lelse", n); var lend := Local("Lend", b.next); var q := pos + |a.code| + 2 + |b.code|;
      && CodeAt(code, pos, a.code) && CodeAt(code, pos + |a.code|, [CmpImm(AX, 0), Je(lelse)]) && CodeAt(code, pos + |a.code| + 2, b.code)
      && (s.els.None? ==> CodeAt(code, q, [Lab(lelse)]) && pos + |EmitStmt(s, n, loops, d).code| == q + 1)
      && (s.els.Some? ==>
          var e := EmitStmt(s.els.value, b.next + 1, loops, d);
          && CodeAt(code, q, [Jmp(lend)]) && CodeAt(code, q + 1, [Lab(lelse)]) && CodeAt(code, q + 2, e.code)
          && CodeAt(code, q + 2 + |e.code|, [Lab(lend)]) && pos + |EmitStmt(s, n, loops, d).code| == q + 3 + |e.code|)
  {
    hide CodeAt, EmitStmt, EmitExpr;
    var a := EmitExpr(s.cond, n + 1, d);
    var b := EmitStmt(s.thn, a.next, loops, d);
    var lelse := Local("Lelse", n);
    var test := [CmpImm(AX, 0), Je(lelse)];
    IfCode(s, n, loops, d);
    if s.els.Some? {
      var e := EmitStmt(s.els.value, b.next + 1, loops, d);
      var lend := Local("Lend", b.next);
      SplitFive(code, pos, a.code, test, b.code, [Jmp(lend)], [Lab(lelse)] + (e.code + [Lab(lend)]));
      SplitThree(code, pos + |a.code| + 2 + |b.code| + 1, [Lab(lelse)], e.code, [Lab(lend)]);
    } else {
      SplitThree(code, pos, a.code, test, b.code + [Lab(lelse)]);
      CodeAtSplit(code, pos + |a.code| + 2, b.code, [Lab(lelse)]);
    }
  }

  lemma SplitThree(code: seq<Instr>, pos: int, a: seq<Instr>, b: seq<Instr>, c: seq<Instr>)
    requires CodeAt(code, pos, a + (b + c))
    ensures CodeAt(code, pos, a) && CodeAt(code, pos + |a|, b) && CodeAt(code, pos + |a| + |b|, c)
  {
    hide CodeAt;
    CodeAtSplit(code, pos, a, b + c);
    CodeAtSplit(code, pos + |a|, b, c);
  }

  lemma SplitFive(code: seq<Instr>, pos: int, a: seq<Instr>, b: seq<Instr>, c: seq<Instr>, d: seq<Instr>, e: seq<Instr>)
    requires CodeAt(code, pos, a + (b + (c + (d + e))))
    ensures CodeAt(code, pos, a) && CodeAt(code, pos + |a|, b) && CodeAt(code, pos + |a| + |b|, c)
    ensures CodeAt(code, pos + |a| + |b| + |c|, d) && CodeAt(code, pos + |a| + |b| + |c| + |d|, e)
  {
    hide CodeAt;
    CodeAtSplit(code, pos, a, b + (c + (d + e)));
    CodeAtSplit(code, pos + |a|, b, c + (d + e));
    CodeAtSplit(code, pos + |a| + |b|, c, d + e);
    CodeAtSplit(code, pos + |a| + |b| + |c|, d, e);
  }

  lemma {:induction false} IfSim(c: Setup, act: Act, s: Stmt, n: nat, loops: seq<Loop>, d: nat, st: State, env: Env, tr: Trace, fuel: nat)
    returns (k: nat, st': State)
    requires LinkOk(c) && StmtFits(s, loops != []) && SlotsFit(s, act.size) && s.If?
    requires CodeAt(c.m.code, st.pc, EmitStmt(s, n, loops, d).code)
    requires At(act, st, st.pc, d, env, tr)
    ensures StmtDone(c, act, st, st.pc + |EmitStmt(s, n, loops, d).code|, loops, d, fuel, EvalStmt(c.w, c.p, s, env, tr, fuel), k, st')
    decreases 2 * fuel + 1, s, 4
  {
    hide Run, LinkOk, At, CodeAt, Keeps, EmitExpr, EmitStmt, EvalExpr, Target;
    var a := EmitExpr(s.cond, n + 1, d);
    var b := EmitStmt(s.thn, a.next, loops, d);
    var lelse := Local("Lelse", n);
    var q := st.pc + |a.code| + 2 + |b.code|;
    IfParts(c.m.code, st.pc, s, n, loops, d);
    TargetHere(c, if s.els.Some? then q + 1 else q, lelse);
    AtSp(act, st, st.pc, d, env, tr);
    k, st' := ExprSim(c, act, s.cond, n + 1, d, st, env, tr, fuel);
    var o := EvalExpr(c.w, c.p, s.cond, env, tr, fuel);
    if o.Val? {
      AtSp(act, st', st.pc + |a.code|, d, o.env, o.tr);
      var s1 := TestRun(c.w, c.m, st', Je(lelse), lelse);
      AtMove(act, st', d, o.env, o.tr, s1);
      RunTrans(c.w, c.m, st, k, st', 2);
      var k2, s2 := BranchSim(c, act, s, n, loops, d, st.pc, s1, o.v, o.env, o.tr, fuel);
      var o2 := if o.v != 0 then EvalStmt(c.w, c.p, s.thn, o.env, o.tr, fuel)
                else if s.els.Some? then EvalStmt(c.w, c.p, s.els.value, o.env, o.tr, fuel) else Normal(o.env, o.tr);
      StmtAfter(c, act, st, k + 2, s1, st.pc + |EmitStmt(s, n, loops, d).code|, loops, d, fuel, o2, k2, s2);
      k, st' := k + 2 + k2, s2;
    }
  }

  /** The chosen branch of an `if`, up to the end of the statement. */
  lemma {:induction false} BranchSim(c: Setup, act: Act, s: Stmt, n: nat, loops: seq<Loop>, d: nat, pos: int, s1: State, v: Int32, env: Env, tr: Trace, fuel: nat)
    returns (k: nat, st': State)
    requires LinkOk(c) && StmtFits(s, loops != []) && SlotsFit(s, act.size) && s.If?
    requires CodeAt(c.m.code, pos, EmitStmt(s, n, loops, d).code)
    requires At(act, s1, s1.pc, d, env, tr)
    requires var a := EmitExpr(s.cond, n + 1, d); var b := EmitStmt(s.thn, a.next, loops, d); var q := pos + |a.code| + 2 + |b.code|;
      s1.pc == if v != 0 then pos + |a.code| + 2 else if s.els.Some? then q + 1 else q
    ensures var o := if v != 0 then EvalStmt(c.w, c.p, s.thn, env, tr, fuel)
                     else if s.els.Some? then EvalStmt(c.w, c.p, s.els.value, env, tr, fuel) else Normal(env, tr);
      StmtDone(c, act, s1, pos + |EmitStmt(s, n, loops, d).code|, loops, d, fuel, o, k, st')
    decreases 2 * fuel + 1, s, 3
  {
    hide Run, LinkOk, At, CodeAt, Keeps, EmitExpr, EmitStmt, EvalStmt, Target;
    var a := EmitExpr(s.cond, n + 1, d);
    var b := EmitStmt(s.thn, a.next, loops, d);
    var lelse := Local("Lelse", n);
    var lend := Local("Lend", b.next);
    var q := pos + |a.code| + 2 + |b.code|;
    IfParts(c.m.code, pos, s, n, loops, d);
    AtSp(act, s1, s1.pc, d, env, tr);
    if v != 0 {
      k, st' := StmtSim(c, act, s.thn, a.next, loops, d, s1, env, tr, fuel);
      var o := EvalStmt(c.w, c.p, s.thn, env, tr, fuel);
      if o.Normal? {
        if s.els.Some? {
          var e := EmitStmt(s.els.value, b.next + 1, loops, d);
          TargetHere(c, q + 2 + |e.code|, lend);
          k, st' := JumpAfter(c, act, s1, k, st', q, lend, d, o.env, o.tr);
          k, st' := LabelAfter(c, act, s1, k, st', q + 2 + |e.code|, lend, d, o.env, o.tr);
        } else {
          k, st' := LabelAfter(c, act, s1, k, st', q, lelse, d, o.env, o.tr);
        }
      }
    } else {
      RunNone(c, s1);
      KeepsSame(act, s1.sp, s1.mem);
      var k1, s2 := LabelAfter(c, act, s1, 0, s1, s1.pc, lelse, d, env, tr);
      k, st' := k1, s2;
      if s.els.Some? {
        var e := EmitStmt(s.els.value, b.next + 1, loops, d);
        AtSp(act, s2, q + 2, d, env, tr);
        var k2, s3 := StmtSim(c, act, s.els.value, b.next + 1, loops, d, s2, env, tr, fuel);
        var o := EvalStmt(c.w, c.p, s.els.value, env, tr, fuel);
        StmtAfter(c, act, s1, k, s2, q + 2 + |e.code|, loops, d, fuel, o, k2, s3);
        k, st' := k + k2, s3;
        if o.Normal? {
          k, st' := LabelAfter(c, act, s1, k, st', q + 2 + |e.code|, lend, d, o.env, o.tr);
        }
      }
    }
  }

  /** Passing a label after some run. */
  lemma LabelAfter(c: Setup, act: Act, st: State, k0: nat, s1: State, pc: int, l: Label, d: nat, env: Env, tr: Trace)
    returns (k: nat, st': State)
    requires Run(c.w, c.m, st, k0) == Next(s1) && At(act, s1, pc, d, env, tr) && CodeAt(c.m.code, pc, [Lab(l)])
    ensures k == k0 + 1 && Run(c.w, c.m, st, k) == Next(st') && At(act, st', pc + 1, d, env, tr) && st'.mem == s1.mem
  {
    hide Run, At, CodeAt;
    AtSp(act, s1, pc, d, env, tr);
    LabRun(c.w, c.m, s1, l);
    st' := s1.(pc := pc + 1);
    AtMove(act, s1, d, env, tr, st');
    RunTrans(c.w, c.m, st, k0, s1, 1);
    k := k0 + 1;
  }

  /** A jump after some run. */
  lemma JumpAfter(c: Setup, act: Act, st: State, k0: nat, s1: State, pc: int, l: Label, d: nat, env: Env, tr: Trace)
    returns (k: nat, st': State)
    requires Run(c.w, c.m, st, k0) == Next(s1) && At(act, s1, pc, d, env, tr) && CodeAt(c.m.code, pc, [Jmp(l)])
    ensures k == k0 + 1 && Run(c.w, c.m, st, k) == Next(st')
    ensures At(act, st', Target(c.m.code, l), d, env, tr) && st'.mem == s1.mem
  {
    hide Run, At, CodeAt, Target;
    AtSp(act, s1, pc, d, env, tr);
    JmpRun(c.w, c.m, s1, l);
    st' := s1.(pc := Target(c.m.code, l));
    AtMove(act, s1, d, env, tr, st');
    RunTrans(c.w, c.m, st, k0, s1, 1);
    k := k0 + 1;
  }

  // ----- loops -----

  /** Where the pieces of a loop lie. `cont` is where `continue` resumes: the
      start of a `while`, the post expression of a `for`. */
  datatype Layout = Layout(start: int, cont: int, after: int, end: int, startLabel: Label, lp: Loop, n: nat)

  ghost predicate LoopAt(c: Setup, s: Stmt, y: Layout, loops: seq<Loop>, d: nat)
    requires s.While? || s.For?
    requires MaybeFits(LoopCond(s)) && MaybeFits(LoopPost(s)) && StmtFits(LoopBody(s), true)
  {
    var code := c.m.code;
    var t := EmitTest(LoopCond(s), y.lp.brk, y.n, d);
    var b := EmitStmt(LoopBody(s), t.next, loops + [y.lp], d);
    var p := EmitMaybe(LoopPost(s), [], b.next, d);
    && CodeAt(code, y.start, [Lab(y.startLabel)]) && CodeAt(code, y.start + 1, t.code)
    && CodeAt(code, y.start + 1 + |t.code|, b.code) && y.after == y.start + 1 + |t.code| + |b.code|
    && Target(code, y.lp.cont) == y.cont && Target(code, y.lp.brk) == y.end && Target(code, y.startLabel) == y.start
    && (s.While? ==> y.cont == y.start && CodeAt(code, y.after, [Jmp(y.startLabel)]))
    && (s.For? ==>
        && y.cont == y.after && CodeAt(code, y.after, [Lab(y.lp.cont)]) && CodeAt(code, y.after + 1, p.code)
        && CodeAt(code, y.after + 1 + |p.code|, [Jmp(y.startLabel)]))
    && CodeAt(code, y.end, [Lab(y.lp.brk)])
  }

  /** The exit test: on to the body, or to the end of the loop. */
  lemma {:induction false} TestSim(c: Setup, act: Act, s: Stmt, y: Layout, loops: seq<Loop>, d: nat, st: State, env: Env, tr: Trace, fuel: nat)
    returns (k: nat, st': State)
    requires LinkOk(c) && (s.While? || s.For?) && MaybeFits(LoopCond(s)) && MaybeFits(LoopPost(s)) && StmtFits(LoopBody(s), true)
    requires SlotsFit(LoopBody(s), act.size) && LoopAt(c, s, y, loops, d)
    requires st.pc == y.start + 1 && At(act, st, st.pc, d, env, tr)
    ensures var o := if LoopCond(s).Some? then EvalExpr(c.w, c.p, LoopCond(s).value, env, tr, fuel) else Val(1, env, tr);
      && (o.Val? ==>
          && Run(c.w, c.m, st, k) == Next(st')
          && At(act, st', if o.v == 0 then y.end else st.pc + |EmitTest(LoopCond(s), y.lp.brk, y.n, d).code|, d, o.env, o.tr)
          && Keeps(act, st.sp, st.mem, st'.mem))
      && (!o.Val? ==> ExprDone(c, act, st, 0, d, fuel, o, k, st'))
    decreases 2 * fuel + 1, s, 0
  {
    hide Run, LinkOk, At, CodeAt, Keeps, EmitExpr, EmitStmt, EvalExpr, Target, StmtFits, SlotsFit;
    if LoopCond(s).None? {
      RunNone(c, st);
      KeepsSame(act, st.sp, st.mem);
      k, st' := 0, st;
    } else {
      var e := LoopCond(s).value;
      var a := EmitExpr(e, y.n, d);
      CodeAtSplit(c.m.code, st.pc, a.code, [CmpImm(AX, 0), Je(y.lp.brk)]);
      k, st' := ExprSim(c, act, e, y.n, d, st, env, tr, fuel);
      var o := EvalExpr(c.w, c.p, e, env, tr, fuel);
      if o.Val? {
        AtSp(act, st', st.pc + |a.code|, d, o.env, o.tr);
        var s1 := TestRun(c.w, c.m, st', Je(y.lp.brk), y.lp.brk);
        AtMove(act, st', d, o.env, o.tr, s1);
        RunTrans(c.w, c.m, st, k, st', 2);
        k, st' := k + 2, s1;
      }
    }
  }

  /** From the start label of a loop to just past its end label. A timeout takes
      more than `fuel` steps, because every round passes the start label. */
  lemma {:induction false} LoopSim(c: Setup, act: Act, s: Stmt, y: Layout, loops: seq<Loop>, d: nat, st: State, env: Env, tr: Trace, fuel: nat)
    returns (k: nat, st': State)
    requires LinkOk(c) && (s.While? || s.For?) && MaybeFits(LoopCond(s)) && MaybeFits(LoopPost(s)) && StmtFits(LoopBody(s), true)
    requires SlotsFit(LoopBody(s), act.size) && LoopAt(c, s, y, loops, d)
    requires st.pc == y.start && At(act, st, st.pc, d, env, tr)
    ensures StmtDone(c, act, st, y.end + 1, loops, d, fuel + 1, EvalLoop(c.w, c.p, s, env, tr, fuel), k, st')
    decreases 2 * fuel + 1, s, 3
  {
    hide Run, LinkOk, At, CodeAt, Keeps, EmitExpr, EmitStmt, EmitTest, EvalExpr, EvalStmt, EvalRest, Target, StmtFits, SlotsFit;
    RunNone(c, st);
    AtSp(act, st, y.start, d, env, tr);
    var k1, s1 := LabelAfter(c, act, st, 0, st, y.start, y.startLabel, d, env, tr);
    AtSp(act, s1, y.start + 1, d, env, tr);
    var k2, s2 := TestSim(c, act, s, y, loops, d, s1, env, tr, fuel);
    RunTrans(c.w, c.m, st, k1, s1, k2);
    k, st' := k1 + k2, s2;
    var o := if LoopCond(s).Some? then EvalExpr(c.w, c.p, LoopCond(s).value, env, tr, fuel) else Val(1, env, tr);
    if o.Val? {
      KeepsFrom(act, st.sp, st.mem, s1.mem, s2.mem);
      if o.v == 0 {
        k, st' := LabelAfter(c, act, st, k, s2, y.end, y.lp.brk, d, o.env, o.tr);
      } else {
        AtSp(act, s2, y.start + 1 + |EmitTest(LoopCond(s), y.lp.brk, y.n, d).code|, d, o.env, o.tr);
        var k3, s3 := RoundSim(c, act, s, y, loops, d, s2, o.env, o.tr, fuel);
        var o3 := RoundOut(c, s, o.env, o.tr, fuel);
        RoundAfter(c, act, st, k, s2, y.end + 1, loops, d, fuel, o3, k3, s3);
        k, st' := k + k3, s3;
      }
    }
  }

  /** What the body and everything after it do. */
  ghost function RoundOut(c: Setup, s: Stmt, env: Env, tr: Trace, fuel: nat): StmtOut
    requires s.While? || s.For?
  {
    match EvalStmt(c.w, c.p, LoopBody(s), env, tr, fuel)
    case Broke(env2, tr2) => Normal(env2, tr2)
    case Normal(env2, tr2) => EvalRest(c.w, c.p, s, env2, tr2, fuel)
    case Continued(env2, tr2) => EvalRest(c.w, c.p, s, env2, tr2, fuel)
    case o => o
  }

  lemma KeepsFrom(act: Act, lo: int, a: Memory, b: Memory, c: Memory)
    requires a == b && Keeps(act, lo, b, c)
    ensures Keeps(act, lo, a, c)
  {
  }

  lemma RoundAfter(c: Setup, act: Act, st: State, k0: nat, s1: State, pc: int, loops: seq<Loop>, d: nat, fuel: nat, o: StmtOut, k: nat, st': State)
    requires Run(c.w, c.m, st, k0) == Next(s1) && Keeps(act, st.sp, st.mem, s1.mem) && s1.sp == st.sp && s1.sp <= act.base
    requires StmtDone(c, act, s1, pc, loops, d, fuel, o, k, st') && k0 >= 1
    ensures StmtDone(c, act, st, pc, loops, d, fuel + 1, o, k0 + k, st')
  {
    hide Run, At, Target;
    StmtAfter(c, act, st, k0, s1, pc, loops, d, fuel, o, k, st');
  }

  lemma {:induction false} RoundSim(c: Setup, act: Act, s: Stmt, y: Layout, loops: seq<Loop>, d: nat, st: State, env: Env, tr: Trace, fuel: nat)
    returns (k: nat, st': State)
    requires LinkOk(c) && (s.While? || s.For?) && MaybeFits(LoopCond(s)) && MaybeFits(LoopPost(s)) && StmtFits(LoopBody(s), true)
    requires SlotsFit(LoopBody(s), act.size) && LoopAt(c, s, y, loops, d)
    requires st.pc == y.start + 1 + |EmitTest(LoopCond(s), y.lp.brk, y.n, d).code| && At(act, st, st.pc, d, env, tr)
    ensures StmtDone(c, act, st, y.end + 1, loops, d, fuel, RoundOut(c, s, env, tr, fuel), k, st')
    decreases 2 * fuel + 1, s, 2
  {
    hide Run, LinkOk, At, CodeAt, Keeps, EmitExpr, EmitStmt, EmitTest, EvalExpr, EvalStmt, EvalRest, Target, StmtFits, SlotsFit;
    var n1 := EmitTest(LoopCond(s), y.lp.brk, y.n, d).next;
    var inner := loops + [y.lp];
    AtSp(act, st, st.pc, d, env, tr);
    k, st' := StmtSim(c, act, LoopBody(s), n1, inner, d, st, env, tr, fuel);
    var s1 := st';
    match EvalStmt(c.w, c.p, LoopBody(s), env, tr, fuel) {
      case Broke(env1, tr1) =>
        k, st' := LabelAfter(c, act, st, k, s1, y.end, y.lp.brk, d, env1, tr1);
      case Normal(env1, tr1) =>
        AtSp(act, s1, y.after, d, env1, tr1);
        var k2, s2 := RestSim(c, act, s, y, loops, d, s1, env1, tr1, fuel);
        StmtAfter(c, act, st, k, s1, y.end + 1, loops, d, fuel, EvalRest(c.w, c.p, s, env1, tr1, fuel), k2, s2);
        k, st' := k + k2, s2;
      case Continued(env1, tr1) =>
        AtSp(act, s1, y.cont, d, env1, tr1);
        var k2, s2 := RestSim(c, act, s, y, loops, d, s1, env1, tr1, fuel);
        StmtAfter(c, act, st, k, s1, y.end + 1, loops, d, fuel, EvalRest(c.w, c.p, s, env1, tr1, fuel), k2, s2);
        k, st' := k + k2, s2;
      case _ =>
    }
  }

  /** After the body: the post expression of a `for`, then back to the start. */
  lemma {:induction false} RestSim(c: Setup, act: Act, s: Stmt, y: Layout, loops: seq<Loop>, d: nat, st: State, env: Env, tr: Trace, fuel: nat)
    returns (k: nat, st': State)
    requires LinkOk(c) && (s.While? || s.For?) && MaybeFits(LoopCond(s)) && MaybeFits(LoopPost(s)) && StmtFits(LoopBody(s), true)
    requires SlotsFit(LoopBody(s), act.size) && LoopAt(c, s, y, loops, d)
    requires (st.pc == y.after || st.pc == y.cont) && At(act, st, st.pc, d, env, tr)
    ensures StmtDone(c, act, st, y.end + 1, loops, d, fuel, EvalRest(c.w, c.p, s, env, tr, fuel), k, st')
    decreases 2 * fuel + 1, s, 1
  {
    hide Run, LinkOk, At, CodeAt, Keeps, EmitExpr, EmitStmt, EmitTest, EmitMaybe, EvalExpr, EvalStmt, EvalLoop, Target, StmtFits, SlotsFit;
    RunNone(c, st);
    KeepsSame(act, st.sp, st.mem);
    AtSp(act, st, st.pc, d, env, tr);
    if s.While? {
      k, st' := 0, st;
      if st.pc == y.after {
        k, st' := JumpAfter(c, act, st, 0, st, y.after, y.startLabel, d, env, tr);
        AtSp(act, st', y.start, d, env, tr);
      }
      k, st' := AgainSim(c, act, s, y, loops, d, st, k, st', env, tr, fuel);
    } else {
      var k1, s1 := LabelAfter(c, act, st, 0, st, y.after, y.lp.cont, d, env, tr);
      AtSp(act, s1, y.after + 1, d, env, tr);
      var t := EmitTest(LoopCond(s), y.lp.brk, y.n, d);
      var n2 := EmitStmt(LoopBody(s), t.next, loops + [y.lp], d).next;
      var p := EmitMaybe(s.fpost, [], n2, d);
      var k2, s2 := MaybeSim(c, act, s.fpost, [], n2, d, s1, env, tr, fuel);
      RunTrans(c.w, c.m, st, k1, s1, k2);
      k, st' := k1 + k2, s2;
      var o := if s.fpost.Some? then EvalExpr(c.w, c.p, s.fpost.value, env, tr, fuel) else Val(0, env, tr);
      if o.Val? {
        KeepsFrom(act, st.sp, st.mem, s1.mem, s2.mem);
        k, st' := JumpAfter(c, act, st, k, s2, y.after + 1 + |p.code|, y.startLabel, d, o.env, o.tr);
        AtSp(act, st', y.start, d, o.env, o.tr);
        k, st' := AgainSim(c, act, s, y, loops, d, st, k, st', o.env, o.tr, fuel);
      }
    }
  }

  /** The next round, if there is fuel for it. */
  lemma {:induction false} AgainSim(c: Setup, act: Act, s: Stmt, y: Layout, loops: seq<Loop>, d: nat, st: State, k0: nat, s1: State, env: Env, tr: Trace, fuel: nat)
    returns (k: nat, st': State)
    requires LinkOk(c) && (s.While? || s.For?) && MaybeFits(LoopCond(s)) && MaybeFits(LoopPost(s)) && StmtFits(LoopBody(s), true)
    requires SlotsFit(LoopBody(s), act.size) && LoopAt(c, s, y, loops, d)
    requires Run(c.w, c.m, st, k0) == Next(s1) && Keeps(act, st.sp, st.mem, s1.mem) && s1.sp == st.sp && s1.sp <= act.base
    requires s1.pc == y.start && At(act, s1, s1.pc, d, env, tr)
    ensures var o := if fuel == 0 then STimeout(tr) else EvalLoop(c.w, c.p, s, env, tr, fuel - 1);
      StmtDone(c, act, st, y.end + 1, loops, d, fuel, o, k, st')
    decreases 2 * fuel + 1, s, 0
  {
    hide Run, LinkOk, At, CodeAt, Keeps, EvalLoop, Target, StmtFits, SlotsFit, LoopAt;
    AtSp(act, s1, y.start, d, env, tr);
    if fuel == 0 {
      k, st' := k0, s1;
    } else {
      var k1, s2 := LoopSim(c, act, s, y, loops, d, s1, env, tr, fuel - 1);
      StmtAfter(c, act, st, k0, s1, y.end + 1, loops, d, fuel, EvalLoop(c.w, c.p, s, env, tr, fuel - 1), k1, s2);
      k, st' := k0 + k1, s2;
    }
  }

  lemma WhileParts(c: Setup, pos: int, s: Stmt, n: nat, loops: seq<Loop>, d: nat) returns (y: Layout)
    requires LinkOk(c) && StmtFits(s, loops != []) && s.While? && CodeAt(c.m.code, pos, EmitStmt(s, n, loops, d).code)
    ensures LoopAt(c, s, y, loops, d) && y.start == pos && y.end + 1 == pos + |EmitStmt(s, n, loops, d).code|
  {
    hide LinkOk, CodeAt, EmitTest, Target, CallsFit, EmitStmt;
    var code := c.m.code;
    var start := Local("Lwhile", n);
    var end := Local("Lwhileend", n + 1);
    var a := EmitTest(Some(s.wcond), end, n + 2, d);
    var b := EmitStmt(s.wbody, a.next, loops + [Loop(start, end)], d);
    WhileCode(s, n, loops, d);
    SplitFive(code, pos, [Lab(start)], a.code, b.code, [Jmp(start)], [Lab(end)]);
    var q := pos + 1 + |a.code| + |b.code|;
    TargetHere(c, pos, start);
    TargetHere(c, q + 1, end);
    y := Layout(pos, pos, q, q + 1, start, Loop(start, end), n + 2);
  }

  lemma {:induction false} WhileSim(c: Setup, act: Act, s: Stmt, n: nat, loops: seq<Loop>, d: nat, st: State, env: Env, tr: Trace, fuel: nat)
    returns (k: nat, st': State)
    requires LinkOk(c) && StmtFits(s, loops != []) && SlotsFit(s, act.size) && s.While?
    requires CodeAt(c.m.code, st.pc, EmitStmt(s, n, loops, d).code)
    requires At(act, st, st.pc, d, env, tr)
    ensures StmtDone(c, act, st, st.pc + |EmitStmt(s, n, loops, d).code|, loops, d, fuel, EvalStmt(c.w, c.p, s, env, tr, fuel), k, st')
    decreases 2 * fuel + 1, s, 4
  {
    hide Run, LinkOk, At, CodeAt, Keeps, EmitStmt, EvalLoop, Target, LoopAt;
    var y := WhileParts(c, st.pc, s, n, loops, d);
    k, st' := LoopSim(c, act, s, y, loops, d, st, env, tr, fuel);
  }

  lemma ForParts(c: Setup, pos: int, s: Stmt, n: nat, loops: seq<Loop>, d: nat) returns (y: Layout)
    requires LinkOk(c) && StmtFits(s, loops != []) && s.For? && CodeAt(c.m.code, pos, EmitStmt(s, n, loops, d).code)
    ensures LoopAt(c, s, y, loops, d) && y.end + 1 == pos + |EmitStmt(s, n, loops, d).code|
    ensures s.finit.None? ==> y.start == pos
    ensures s.finit.Some? ==> var i := EmitStmt(s.finit.value, n + 3, loops, d); CodeAt(c.m.code, pos, i.code) && y.start == pos + |i.code|
  {
    hide LinkOk, CodeAt, EmitTest, Target, EmitMaybe, EmitStmt;
    var code := c.m.code;
    var start := Local("Lfor", n);
    var lpost := Local("Lforpost", n + 1);
    var end := Local("Lforend", n + 2);
    var i := ForFirst(s, n, loops, d);
    var a := EmitTest(s.fcond, end, i.next, d);
    var b := EmitStmt(s.fbody, a.next, loops + [Loop(lpost, end)], d);
    var p := EmitMaybe(s.fpost, [], b.next, d);
    ForCode(s, n, loops, d);
    var q0 := pos + |i.code|;
    var q := q0 + 1 + |a.code| + |b.code|;
    SplitFive(code, pos, i.code, [Lab(start)], a.code, b.code, [Lab(lpost)] + (p.code + ([Jmp(start)] + [Lab(end)])));
    CodeAtSplit(code, q, [Lab(lpost)], p.code + ([Jmp(start)] + [Lab(end)]));
    CodeAtSplit(code, q + 1, p.code, [Jmp(start)] + [Lab(end)]);
    CodeAtSplit(code, q + 1 + |p.code|, [Jmp(start)], [Lab(end)]);
    TargetHere(c, q0, start);
    TargetHere(c, q, lpost);
    TargetHere(c, q + 2 + |p.code|, end);
    y := Layout(q0, q, q, q + 2 + |p.code|, start, Loop(lpost, end), i.next);
  }

  lemma {:induction false} ForSim(c: Setup, act: Act, s: Stmt, n: nat, loops: seq<Loop>, d: nat, st: State, env: Env, tr: Trace, fuel: nat)
    returns (k: nat, st': State)
    requires LinkOk(c) && StmtFits(s, loops != []) && SlotsFit(s, act.size) && s.For?
    requires CodeAt(c.m.code, st.pc, EmitStmt(s, n, loops, d).code)
    requires At(act, st, st.pc, d, env, tr)
    ensures StmtDone(c, act, st, st.pc + |EmitStmt(s, n, loops, d).code|, loops, d, fuel, EvalStmt(c.w, c.p, s, env, tr, fuel), k, st')
    decreases 2 * fuel + 1, s, 4
  {
    hide Run, LinkOk, At, CodeAt, Keeps, EmitStmt, EvalLoop, Target, LoopAt;
    var y := ForParts(c, st.pc, s, n, loops, d);
    AtSp(act, st, st.pc, d, env, tr);
    if s.finit.None? {
      k, st' := LoopSim(c, act, s, y, loops, d, st, env, tr, fuel);
      DoneLeave(c, act, st, y.end + 1, loops, d, fuel, EvalLoop(c.w, c.p, s, env, tr, fuel), k, st');
    } else {
      k, st' := StmtSim(c, act, s.finit.value, n + 3, loops, d, st, env, tr, fuel);
      var o := EvalStmt(c.w, c.p, s.finit.value, env, tr, fuel);
      if o.Normal? {
        var s1 := st';
        AtSp(act, s1, y.start, d, o.env, o.tr);
        var k2, s2 := LoopSim(c, act, s, y, loops, d, s1, o.env, o.tr, fuel);
        StmtAfter(c, act, st, k, s1, y.end + 1, loops, d, fuel, EvalLoop(c.w, c.p, s, o.env, o.tr, fuel), k2, s2);
        k, st' := k + k2, s2;
        DoneLeave(c, act, st, y.end + 1, loops, d, fuel, EvalLoop(c.w, c.p, s, o.env, o.tr, fuel), k, st');
      } else {
        DoneLeave(c, act, st, 0, loops, d, fuel, o, k, st');
      }
    }
  }
}
