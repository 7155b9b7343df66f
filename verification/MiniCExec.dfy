/** How the fixed instruction sequences of the generator run.

    Each lemma takes a piece of code the generator emits whole - a push, a pop, a
    comparison and its set, the sign extension and division, a load or store of a
    frame slot, a test and its jump, the return from a frame - and says which state
    the machine reaches after it, or that it faults. The lemmas about expressions
    and statements are composed of these.
*/
module MiniCExec {
  import opened Arithmetic
  import opened Wrappers
  import opened MiniCAst
  import opened MiniCWord
  import opened MiniCSemantics
  import opened MiniCMachine
  import opened MiniCCodegen

  ghost predicate CodeAt(code: seq<Instr>, pos: int, piece: seq<Instr>) {
    0 <= pos && pos + |piece| <= |code| && code[pos..pos + |piece|] == piece
  }

  lemma CodeAtSplit(code: seq<Instr>, pos: int, a: seq<Instr>, b: seq<Instr>)
    requires CodeAt(code, pos, a + b)
    ensures CodeAt(code, pos, a) && CodeAt(code, pos + |a|, b)
  {
    var c := code[pos..pos + |a + b|];
    assert a == c[..|a|] && b == c[|a|..];
  }

  lemma CodeAtHead(code: seq<Instr>, pos: int, i: Instr, b: seq<Instr>)
    requires CodeAt(code, pos, [i] + b)
    ensures 0 <= pos < |code| && code[pos] == i && CodeAt(code, pos + 1, b)
  {
    CodeAtSplit(code, pos, [i], b);
    assert code[pos] == code[pos..pos + 1][0];
  }

  lemma One(w: World, m: Linked, st: State, i: Instr)
    requires 0 <= st.pc < |m.code| && m.code[st.pc] == i
    ensures Run(w, m, st, 1) == Exec(w, m, st, i)
  {
    hide Exec;
    assert StepOnce(w, m, st) == Exec(w, m, st, i);
  }

  /** Runs a list of instructions that contains no jump. */
  function Straight(w: World, m: Linked, st: State, seg: seq<Instr>): Step
    decreases |seg|
  {
    if seg == [] then Next(st)
    else match Exec(w, m, st, seg[0])
      case Next(s) => Straight(w, m, s, seg[1..])
      case r => r
  }

  /** None of these changes the program counter other than by one. */
  predicate Plain(i: Instr) {
    !i.Jmp? && !i.Je? && !i.Jne? && !i.CallFn? && !i.Ret?
  }

  lemma ExecPlain(w: World, m: Linked, st: State, i: Instr)
    requires Plain(i)
    ensures Exec(w, m, st, i).Next? ==> Exec(w, m, st, i).st.pc == st.pc + 1
  {
  }

  lemma {:induction false} RunStraight(w: World, m: Linked, st: State, seg: seq<Instr>)
    requires CodeAt(m.code, st.pc, seg)
    requires forall i :: 0 <= i < |seg| ==> Plain(seg[i])
    ensures Straight(w, m, st, seg) == Run(w, m, st, |seg|)
    decreases |seg|
  {
    hide Exec;
    if seg != [] {
      assert seg == [seg[0]] + seg[1..];
      CodeAtHead(m.code, st.pc, seg[0], seg[1..]);
      One(w, m, st, seg[0]);
      ExecPlain(w, m, st, seg[0]);
      match Exec(w, m, st, seg[0]) {
        case Next(s) =>
          RunStraight(w, m, s, seg[1..]);
          RunTrans(w, m, st, 1, s, |seg| - 1);
        case r =>
          RunStops(w, m, st, 1, |seg|);
      }
    }
  }

  lemma StraightCons(w: World, m: Linked, st: State, i: Instr, rest: seq<Instr>)
    ensures Straight(w, m, st, [i] + rest)
         == if Exec(w, m, st, i).Next? then Straight(w, m, Exec(w, m, st, i).st, rest) else Exec(w, m, st, i)
  {
    hide Exec;
    assert ([i] + rest)[1..] == rest;
  }

  lemma StraightNil(w: World, m: Linked, st: State)
    ensures Straight(w, m, st, []) == Next(st)
  {
    hide Exec;
  }

  lemma Straight1(w: World, m: Linked, st: State, i: Instr)
    ensures Straight(w, m, st, [i]) == Exec(w, m, st, i)
  {
    hide Exec;
    assert [i][1..] == [];
  }

  lemma SetAlStep(w: World, m: Linked, st: State, cc: Cond)
    requires AX in st.regs && st.flags.Some?
    ensures var y: int := st.regs[AX] - st.regs[AX] % 256 + Truth(Holds(cc, st.flags.value));
      Exec(w, m, st, SetAl(cc)) == Next(SetReg(st, AX, Wrap32(y))) && -TWO31 <= y < TWO31 && y % 256 == Truth(Holds(cc, st.flags.value))
  {
    hide ExecDiv, ExecCall, Target, Wrap32, Holds;
    LowByte(st.regs[AX], Truth(Holds(cc, st.flags.value)));
  }

  lemma LowByte(x: int, b: int)
    requires -TWO31 <= x < TWO31 && 0 <= b <= 1
    ensures -TWO31 <= x - x % 256 + b < TWO31 && (x - x % 256 + b) % 256 == b
  {
    assert -TWO31 <= x - x % 256 <= TWO31 - 256;
  }

  lemma MovzxStep(w: World, m: Linked, st: State)
    requires AX in st.regs
    ensures Exec(w, m, st, MovzxEaxAl) == Next(SetReg(st, AX, st.regs[AX] % 256))
  {
    hide ExecDiv, ExecCall, Target;
  }

  /** The three instructions that turn flags into 0 or 1. */
  lemma CompareRuns(w: World, m: Linked, st: State, i: Instr, cc: Cond, flags: Flags)
    requires AX in st.regs
    requires Exec(w, m, st, i) == Next(st.(pc := st.pc + 1, flags := Some(flags)))
    ensures Straight(w, m, st, [i, SetAl(cc), MovzxEaxAl])
         == Next(st.(pc := st.pc + 3, regs := st.regs[AX := Truth(Holds(cc, flags))], flags := Some(flags)))
  {
    hide Exec, Straight, Holds;
    var s1 := st.(pc := st.pc + 1, flags := Some(flags));
    assert [i, SetAl(cc), MovzxEaxAl] == [i] + [SetAl(cc), MovzxEaxAl];
    StraightCons(w, m, st, i, [SetAl(cc), MovzxEaxAl]);
    assert [SetAl(cc), MovzxEaxAl] == [SetAl(cc)] + [MovzxEaxAl];
    StraightCons(w, m, s1, SetAl(cc), [MovzxEaxAl]);
    SetAlStep(w, m, s1, cc);
    var s2 := Exec(w, m, s1, SetAl(cc)).st;
    MovzxStep(w, m, s2);
    Straight1(w, m, s2, MovzxEaxAl);
  }

  lemma NegSteps(w: World, m: Linked, st: State)
    requires AX in st.regs
    ensures Exec(w, m, st, NegReg(AX)) == Next(SetArith(st, AX, Sub32(0, st.regs[AX])))
    ensures Exec(w, m, st, NotReg(AX)) == Next(SetReg(st, AX, -1 - st.regs[AX]))
  {
    hide ExecDiv, ExecCall, Target, Sub32;
  }

  lemma CmpImmStep(w: World, m: Linked, st: State, n: Int32)
    requires AX in st.regs
    ensures Exec(w, m, st, CmpImm(AX, n)) == Next(st.(pc := st.pc + 1, flags := Some(Compare(st.regs[AX], n))))
  {
    hide ExecDiv, ExecCall, Target, Compare;
  }

  /** A unary operator leaves its value in eax. */
  lemma UnaryRuns(w: World, m: Linked, st: State, op: UnaryOp) returns (st': State)
    requires AX in st.regs
    requires CodeAt(m.code, st.pc, UnaryTail(op))
    ensures Run(w, m, st, |UnaryTail(op)|) == Next(st')
    ensures AX in st'.regs && st'.regs[AX] == UnaryValue(op, st.regs[AX])
    ensures st' == st.(pc := st.pc + |UnaryTail(op)|, regs := st'.regs, flags := st'.flags)
  {
    hide Run, Straight, Compare, Exec;
    RunStraight(w, m, st, UnaryTail(op));
    match op {
      case Neg => NegSteps(w, m, st); Straight1(w, m, st, NegReg(AX));
      case BitNot => NegSteps(w, m, st); Straight1(w, m, st, NotReg(AX));
      case Not =>
        CompareDecides(BinaryOp.Eq, st.regs[AX], 0);
        CmpImmStep(w, m, st, 0);
        CompareRuns(w, m, st, CmpImm(AX, 0), CE, Compare(st.regs[AX], 0));
    }
    st' := Straight(w, m, st, UnaryTail(op)).st;
  }

  /** The flags of cmp decide the signed comparison. */
  lemma CompareDecides(op: BinaryOp, a: Int32, b: Int32)
    requires op.Eq? || op.Ne? || op.Lt? || op.Le? || op.Gt? || op.Ge?
    ensures BinaryValue(op, a, b) == Some(Truth(Holds(CondOf(op), Compare(a, b))))
  {
  }

  /** cdq makes edx:eax the sign-extended dividend. */
  lemma Dividend(a: Int32)
    ensures (if a < 0 then -1 else 0) * TWO32 + a % TWO32 == a
  {
  }

  /** idiv of the sign-extended dividend. */
  lemma IDivStep(w: World, m: Linked, st: State, a: Int32)
    requires AX in st.regs && DX in st.regs && R11 in st.regs
    requires st.regs[AX] == a && st.regs[DX] == if a < 0 then -1 else 0
    ensures var b := st.regs[R11];
      Exec(w, m, st, IDiv(R11)) ==
        if b == 0 || (a == -TWO31 && b == -1) then Trap(st.tr)
        else Next(st.(pc := st.pc + 1, flags := None,
                      regs := st.regs[AX := Wrap32(TruncDiv(a, b))][DX := Wrap32(a - b * TruncDiv(a, b))]))
  {
    hide ExecCall, Target;
    hide Wrap32, TruncDiv;
    Dividend(a);
    if st.regs[R11] != 0 {
      DivFits(a, st.regs[R11]);
    }
  }

  lemma MovRegStep(w: World, m: Linked, st: State, d: Reg, r: Reg)
    requires r in st.regs
    ensures Exec(w, m, st, MovReg(d, r)) == Next(SetReg(st, d, st.regs[r]))
  {
    hide ExecDiv, ExecCall, Target;
  }

  lemma CdqStep(w: World, m: Linked, st: State)
    requires AX in st.regs
    ensures Exec(w, m, st, Cdq) == Next(SetReg(st, DX, if st.regs[AX] < 0 then -1 else 0))
  {
    hide ExecDiv, ExecCall, Target;
  }

  lemma DivRuns(w: World, m: Linked, st: State, op: BinaryOp) returns (st': State)
    requires op.Div? || op.Mod?
    requires AX in st.regs && CX in st.regs
    ensures BinaryValue(op, st.regs[CX], st.regs[AX]).None? ==> Straight(w, m, st, BinaryTail(op)) == Trap(st.tr)
    ensures BinaryValue(op, st.regs[CX], st.regs[AX]).Some? ==>
      && Straight(w, m, st, BinaryTail(op)) == Next(st')
      && AX in st'.regs && st'.regs[AX] == BinaryValue(op, st.regs[CX], st.regs[AX]).value
      && st' == st.(pc := st.pc + |BinaryTail(op)|, regs := st'.regs, flags := st'.flags)
  {
    hide Wrap32, TruncDiv, Exec, Straight;
    var a, b := st.regs[CX], st.regs[AX];
    var rest := if op.Div? then [] else [MovReg(AX, DX)];
    assert BinaryTail(op) == [MovReg(R11, AX)] + ([MovReg(AX, CX)] + ([Cdq] + ([IDiv(R11)] + rest)));
    StraightCons(w, m, st, MovReg(R11, AX), [MovReg(AX, CX)] + ([Cdq] + ([IDiv(R11)] + rest)));
    MovRegStep(w, m, st, R11, AX);
    var s1 := SetReg(st, R11, b);
    StraightCons(w, m, s1, MovReg(AX, CX), [Cdq] + ([IDiv(R11)] + rest));
    MovRegStep(w, m, s1, AX, CX);
    var s2 := SetReg(s1, AX, a);
    StraightCons(w, m, s2, Cdq, [IDiv(R11)] + rest);
    CdqStep(w, m, s2);
    var s3 := SetReg(s2, DX, if a < 0 then -1 else 0);
    StraightCons(w, m, s3, IDiv(R11), rest);
    IDivStep(w, m, s3, a);
    st' := st;
    if Exec(w, m, s3, IDiv(R11)).Next? {
      var s4 := Exec(w, m, s3, IDiv(R11)).st;
      if op.Mod? {
        MovRegStep(w, m, s4, AX, DX);
        Straight1(w, m, s4, MovReg(AX, DX));
      } else {
        StraightNil(w, m, s4);
      }
      st' := Straight(w, m, st, BinaryTail(op)).st;
    }
  }

  lemma SubRuns(w: World, m: Linked, st: State)
    requires AX in st.regs && CX in st.regs
    ensures var v := Sub32(st.regs[CX], st.regs[AX]);
      Straight(w, m, st, BinaryTail(BinaryOp.Sub)) == Next(st.(pc := st.pc + 2, regs := st.regs[CX := v][AX := v], flags := None))
  {
    hide ExecCall, ExecDiv, Target, And32, Or32, Xor32, Mul32, Add32, Wrap32;
    assert BinaryTail(BinaryOp.Sub) == [SubReg(CX, AX)] + [MovReg(AX, CX)];
    StraightCons(w, m, st, SubReg(CX, AX), [MovReg(AX, CX)]);
    Straight1(w, m, SetArith(st, CX, Sub32(st.regs[CX], st.regs[AX])), MovReg(AX, CX));
  }

  /** The operators that are one instruction. */
  lemma SimpleRuns(w: World, m: Linked, st: State, op: BinaryOp)
    requires op.Add? || op.Mul? || op.BitAnd? || op.BitOr? || op.BitXor?
    requires AX in st.regs && CX in st.regs
    ensures Straight(w, m, st, BinaryTail(op)) == Next(SetArith(st, AX, BinaryValue(op, st.regs[CX], st.regs[AX]).value))
  {
    hide And32, Or32, Xor32, Mul32, Add32, ExecDiv, ExecCall, Target;
    Straight1(w, m, st, BinaryTail(op)[0]);
    Commutes(op, st.regs[CX], st.regs[AX]);
  }

  /** These compute rhs op lhs, in that order. */
  lemma Commutes(op: BinaryOp, a: Int32, b: Int32)
    requires op.Add? || op.Mul? || op.BitAnd? || op.BitOr? || op.BitXor?
    ensures BinaryValue(op, a, b) == BinaryValue(op, b, a)
  {
    var x, y := Bits(a), Bits(b);
    assert x & y == y & x && x | y == y | x && x ^ y == y ^ x;
    assert (a as int) * (b as int) == (b as int) * (a as int);
  }

  /** From both operands, lhs in ecx and rhs in eax, to the result in eax. */
  lemma BinaryRuns(w: World, m: Linked, st: State, op: BinaryOp) returns (st': State)
    requires AX in st.regs && CX in st.regs
    requires CodeAt(m.code, st.pc, BinaryTail(op))
    ensures BinaryValue(op, st.regs[CX], st.regs[AX]).None? ==> Run(w, m, st, |BinaryTail(op)|) == Trap(st.tr)
    ensures BinaryValue(op, st.regs[CX], st.regs[AX]).Some? ==>
      && Run(w, m, st, |BinaryTail(op)|) == Next(st')
      && AX in st'.regs && st'.regs[AX] == BinaryValue(op, st.regs[CX], st.regs[AX]).value
      && st' == st.(pc := st.pc + |BinaryTail(op)|, regs := st'.regs, flags := st'.flags)
  {
    hide Exec, Run, Straight;
    RunStraight(w, m, st, BinaryTail(op));
    if op.Div? || op.Mod? {
      st' := DivRuns(w, m, st, op);
    } else {
      if op.Sub? {
        SubRuns(w, m, st);
      } else if op.Add? || op.Mul? || op.BitAnd? || op.BitOr? || op.BitXor? {
        SimpleRuns(w, m, st, op);
      } else {
        CompareDecides(op, st.regs[CX], st.regs[AX]);
        CompareExec(w, m, st);
        CompareRuns(w, m, st, CmpReg(CX, AX), CondOf(op), Compare(st.regs[CX], st.regs[AX]));
      }
      st' := Straight(w, m, st, BinaryTail(op)).st;
    }
  }

  lemma CompareExec(w: World, m: Linked, st: State)
    requires AX in st.regs && CX in st.regs
    ensures Exec(w, m, st, CmpReg(CX, AX)) == Next(st.(pc := st.pc + 1, flags := Some(Compare(st.regs[CX], st.regs[AX]))))
  {
    hide ExecCall, ExecDiv, Target, And32, Or32, Xor32, Mul32, Add32, Wrap32;
  }

  // ----- single steps and short runs used by the simulation -----

  lemma PushRun(w: World, m: Linked, st: State, r: Reg)
    requires CodeAt(m.code, st.pc, [Push(r)]) && r in st.regs
    ensures Run(w, m, st, 1)
         == Next(st.(pc := st.pc + 1, sp := st.sp - 8, mem := st.mem[st.sp - 8 := Word(st.regs[r])]))
  {
    hide ExecDiv, ExecCall, Target, Run;
    CodeAtHead(m.code, st.pc, Push(r), []);
    One(w, m, st, Push(r));
  }

  lemma PopRun(w: World, m: Linked, st: State, r: Reg, v: Int32)
    requires CodeAt(m.code, st.pc, [Pop(r)]) && st.sp in st.mem && st.mem[st.sp] == Word(v)
    ensures Run(w, m, st, 1) == Next(st.(pc := st.pc + 1, regs := st.regs[r := v], sp := st.sp + 8))
  {
    hide ExecDiv, ExecCall, Target, Run;
    CodeAtHead(m.code, st.pc, Pop(r), []);
    One(w, m, st, Pop(r));
  }

  lemma MovImmRun(w: World, m: Linked, st: State, r: Reg, n: int)
    requires CodeAt(m.code, st.pc, [MovImm(r, n)])
    ensures Run(w, m, st, 1) == Next(SetReg(st, r, Wrap32(n)))
  {
    hide ExecDiv, ExecCall, Target, Run;
    CodeAtHead(m.code, st.pc, MovImm(r, n), []);
    One(w, m, st, MovImm(r, n));
  }

  lemma LoadRun(w: World, m: Linked, st: State, off: int, v: Int32)
    requires CodeAt(m.code, st.pc, [MovLoad(AX, off)]) && st.bp + off in st.mem && st.mem[st.bp + off] == Word(v)
    ensures Run(w, m, st, 1) == Next(SetReg(st, AX, v))
  {
    hide ExecDiv, ExecCall, Target, Run;
    CodeAtHead(m.code, st.pc, MovLoad(AX, off), []);
    One(w, m, st, MovLoad(AX, off));
  }

  lemma StoreRun(w: World, m: Linked, st: State, off: int, r: Reg)
    requires CodeAt(m.code, st.pc, [MovStore(off, r)]) && r in st.regs
    ensures Run(w, m, st, 1) == Next(st.(pc := st.pc + 1, mem := st.mem[st.bp + off := Word(st.regs[r])]))
  {
    hide ExecDiv, ExecCall, Target, Run;
    CodeAtHead(m.code, st.pc, MovStore(off, r), []);
    One(w, m, st, MovStore(off, r));
  }

  lemma LabRun(w: World, m: Linked, st: State, l: Label)
    requires CodeAt(m.code, st.pc, [Lab(l)])
    ensures Run(w, m, st, 1) == Next(st.(pc := st.pc + 1))
  {
    hide ExecDiv, ExecCall, Target, Run;
    CodeAtHead(m.code, st.pc, Lab(l), []);
    One(w, m, st, Lab(l));
  }

  lemma JmpRun(w: World, m: Linked, st: State, l: Label)
    requires CodeAt(m.code, st.pc, [Jmp(l)])
    ensures Run(w, m, st, 1) == Next(st.(pc := Target(m.code, l)))
  {
    hide ExecDiv, ExecCall, Target, Run;
    CodeAtHead(m.code, st.pc, Jmp(l), []);
    One(w, m, st, Jmp(l));
  }

  lemma BranchSteps(w: World, m: Linked, st: State, l: Label)
    requires st.flags.Some?
    ensures Exec(w, m, st, Je(l)) == Next(st.(pc := if st.flags.value.z then Target(m.code, l) else st.pc + 1))
    ensures Exec(w, m, st, Jne(l)) == Next(st.(pc := if st.flags.value.z then st.pc + 1 else Target(m.code, l)))
  {
    hide ExecDiv, ExecCall, Target;
  }

  /** Test eax and branch: je when it is zero, jne when it is not. */
  lemma TestRun(w: World, m: Linked, st: State, j: Instr, l: Label) returns (st': State)
    requires j == Je(l) || j == Jne(l)
    requires CodeAt(m.code, st.pc, [CmpImm(AX, 0), j]) && AX in st.regs
    ensures Run(w, m, st, 2) == Next(st')
    ensures st' == st.(pc := if (st.regs[AX] == 0) == j.Je? then Target(m.code, l) else st.pc + 2, flags := st'.flags)
  {
    hide Exec, Run, Target, Compare;
    assert [CmpImm(AX, 0), j] == [CmpImm(AX, 0)] + ([j] + []);
    CodeAtHead(m.code, st.pc, CmpImm(AX, 0), [j] + []);
    CodeAtHead(m.code, st.pc + 1, j, []);
    One(w, m, st, CmpImm(AX, 0));
    CmpImmStep(w, m, st, 0);
    CompareDecides(BinaryOp.Eq, st.regs[AX], 0);
    var s1 := st.(pc := st.pc + 1, flags := Some(Compare(st.regs[AX], 0)));
    One(w, m, s1, j);
    BranchSteps(w, m, s1, l);
    RunTrans(w, m, st, 1, s1, 1);
    st' := Exec(w, m, s1, j).st;
  }

  /** leave; ret: back to the caller. */
  lemma LeaveRun(w: World, m: Linked, st: State, link: int, ret: int)
    requires CodeAt(m.code, st.pc, [LeaveFrame, Ret])
    requires st.bp in st.mem && st.mem[st.bp] == Ptr(link)
    requires st.bp + 8 in st.mem && st.mem[st.bp + 8] == RetTo(ret)
    ensures Run(w, m, st, 2) == Next(st.(pc := ret, sp := st.bp + 16, bp := link))
  {
    hide ExecDiv, ExecCall, Target, Run;
    assert [LeaveFrame, Ret] == [LeaveFrame] + ([Ret] + []);
    CodeAtHead(m.code, st.pc, LeaveFrame, [Ret] + []);
    CodeAtHead(m.code, st.pc + 1, Ret, []);
    One(w, m, st, LeaveFrame);
    var s1 := st.(pc := st.pc + 1, sp := st.bp + 8, bp := link);
    One(w, m, s1, Ret);
    RunTrans(w, m, st, 1, s1, 1);
  }
}
