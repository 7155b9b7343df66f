/** The compiled bytes compute the expression: on the processor always in wrapping
    words, and as the evaluator does whenever every value fits.

    The first part runs the code of one expression inside a larger function, with
    the stack above it untouched; then the whole function with its return; the last
    part compares the processor's words with the evaluator's unbounded integers.
*/
module JitCorrectness {
  import opened Arithmetic
  import opened ByteStrings
  import opened Wrappers
  import opened JitMachine
  import opened JitCompiler

  /** Cells of stack an expression needs. */
  function Depth(e: Expr): (r: nat)
    ensures r >= 1
  {
    match e
    case Num(_) => 1
    case Var(_) => 1
    case Negate(a) => Depth(a)
    case BinOp(_, a, b) => if Depth(a) > 1 + Depth(b) then Depth(a) else 1 + Depth(b)
  }

  /** Instructions the code of an expression runs. */
  function Steps(e: Expr): nat {
    match e
    case Num(_) => 2
    case Var(_) => 2
    case Negate(a) => Steps(a) + 3
    case BinOp(op, a, b) => Steps(a) + Steps(b) + (if op == Over then 5 else 4)
  }

  /** The variable slots are in memory at rdi, aligned, and out of the way of the
      next `depth` pushes. */
  ghost predicate Ready(st: State, slots: Slots, depth: nat) {
    var sp: int := st.regs[RSP];
    var base: int := st.regs[RDI];
    && sp % 8 == 0 && base % 8 == 0 && 8 * depth <= sp
    && (base >= sp || base + 8 * 26 <= sp - 8 * depth)
    && forall i :: 0 <= i < 26 ==> base + 8 * i in st.mem && st.mem[base + 8 * i] == slots[i]
  }

  function Sp(st: State): int { st.regs[RSP] }

  /** Registers and memory the code must leave alone: everything but rax, rbx,
      rdx and the cells below `floor`. */
  ghost predicate Kept(st: State, st': State, floor: int) {
    && (forall r: Reg :: r != RAX && r != RBX && r != RDX && r != RSP ==> st'.regs[r] == st.regs[r])
    && (forall a :: a in st.mem && (a >= st.regs[RSP] || a < floor) ==> a in st'.mem && st'.mem[a] == st.mem[a])
  }

  /** One more word on the stack than before. */
  ghost predicate Pushed(st: State, st': State, v: Int64, len: nat, depth: nat) {
    && st'.ip == st.ip + len
    && st'.regs[RSP] == Sp(st) - 8
    && Sp(st) - 8 in st'.mem && st'.mem[Sp(st) - 8] == v
    && Kept(st, st', Sp(st) - 8 * depth)
  }

  ghost predicate Computes(code: seq<Byte>, st: State, steps: nat, len: nat, depth: nat, v: Option<Int64>) {
    var r := Run(code, st, steps);
    if v.None? then r == Fault else r.Next? && Pushed(st, r.st, v.value, len, depth)
  }

  ghost predicate Correct(e: Expr, code: seq<Byte>, st: State, slots: Slots) {
    Computes(code, st, Steps(e), |Code(e)|, Depth(e), Value(e, slots))
  }

  /** The code of an expression, wherever it stands, leaves its value on top of
      the stack and everything else as it was, or faults. */
  lemma {:induction false} ExprRuns(e: Expr, code: seq<Byte>, st: State, slots: Slots)
    requires Holds(code, st.ip, Code(e)) && Ready(st, slots, Depth(e))
    ensures Correct(e, code, st, slots)
    decreases e
  {
    hide Run, Holds, Pushed, Ready, Code, Depth, Steps, Value;
    ReadySp(st, slots, Depth(e));
    match e
    case Num(n) => NumRuns(n, code, st, slots);
    case Var(x) => VarRuns(x, code, st, slots);
    case Negate(a) =>
      NegParts(a);
      HoldsSplit(code, st.ip, Code(a), POP_RAX + (NEG_RAX + PUSH_RAX));
      ExprRuns(a, code, st, slots);
      NegRuns(a, code, st, slots);
    case BinOp(op, a, b) =>
      BinParts(op, a, b);
      HoldsSplit(code, st.ip, Code(a), Code(b) + Tail(op));
      HoldsSplit(code, st.ip + |Code(a)|, Code(b), Tail(op));
      ReadyLess(st, slots, Depth(e), Depth(a));
      ExprRuns(a, code, st, slots);
      var r := Run(code, st, Steps(a));
      if r.Next? {
        ReadyNext(st, r.st, slots, Depth(e), Depth(b), Value(a, slots).value, |Code(a)|, Depth(a));
        ExprRuns(b, code, r.st, slots);
      }
      BinRuns(op, a, b, code, st, slots);
  }

  lemma NegParts(a: Expr)
    ensures Code(Negate(a)) == Code(a) + (POP_RAX + (NEG_RAX + PUSH_RAX)) && Depth(Negate(a)) == Depth(a)
  {
  }

  lemma BinParts(op: Op, a: Expr, b: Expr)
    ensures Code(BinOp(op, a, b)) == Code(a) + (Code(b) + Tail(op))
    ensures Depth(BinOp(op, a, b)) >= Depth(a) && Depth(BinOp(op, a, b)) >= 1 + Depth(b)
  {
  }

  function Tail(op: Op): seq<Byte> { POP_RBX + (POP_RAX + (OpCode(op) + PUSH_RAX)) }

  lemma ReadySp(st: State, slots: Slots, d: nat)
    requires Ready(st, slots, d)
    ensures Sp(st) % 8 == 0 && 8 * d <= Sp(st)
  {
  }

  lemma ReadyLess(st: State, slots: Slots, d: nat, d': nat)
    requires Ready(st, slots, d) && d' <= d
    ensures Ready(st, slots, d')
  {
  }

  /** After the left operand there is still room for the right one. */
  lemma ReadyNext(st: State, st': State, slots: Slots, d: nat, d': nat, v: Int64, len: nat, used: nat)
    requires Ready(st, slots, d) && 1 + d' <= d && used <= d && Pushed(st, st', v, len, used)
    ensures Ready(st', slots, d') && st'.ip == st.ip + len
  {
    assert st'.regs[RDI] == st.regs[RDI];
    var base: int := st.regs[RDI];
    forall i | 0 <= i < 26 ensures base + 8 * i in st'.mem && st'.mem[base + 8 * i] == slots[i] {
      assert base + 8 * i in st.mem;
    }
  }

  // ----- single instructions -----

  lemma StepPush(code: seq<Byte>, st: State)
    requires Holds(code, st.ip, PUSH_RAX) && 8 <= Sp(st) && Sp(st) % 8 == 0
    ensures StepOnce(code, st) == Next(State(st.ip + 1, st.regs[RSP := Sp(st) - 8], st.mem[Sp(st) - 8 := st.regs[RAX]]))
  {
    hide Decode;
    OneByteCodes(code, st.ip);
  }

  lemma StepPop(code: seq<Byte>, st: State)
    requires Sp(st) % 8 == 0 && Sp(st) in st.mem
    ensures Holds(code, st.ip, POP_RAX) ==>
      StepOnce(code, st) == Next(State(st.ip + 1, st.regs[RSP := Add64(Sp(st), 8)][RAX := st.mem[Sp(st)]], st.mem))
    ensures Holds(code, st.ip, POP_RBX) ==>
      StepOnce(code, st) == Next(State(st.ip + 1, st.regs[RSP := Add64(Sp(st), 8)][RBX := st.mem[Sp(st)]], st.mem))
  {
    hide Decode;
    OneByteCodes(code, st.ip);
  }

  lemma StepNeg(code: seq<Byte>, st: State)
    requires Holds(code, st.ip, NEG_RAX)
    ensures StepOnce(code, st) == Next(State(st.ip + 3, st.regs[RAX := Sub64(0, st.regs[RAX])], st.mem))
  {
    hide Decode;
    WideCodes(code, st.ip);
  }

  lemma StepMovImm(code: seq<Byte>, st: State, n: int)
    requires Holds(code, st.ip, MovRaxImm64(n))
    ensures StepOnce(code, st) == Next(State(st.ip + 10, st.regs[RAX := Wrap64(n)], st.mem))
  {
    hide Decode;
    ImmCode(code, st.ip, n);
  }

  lemma StepLoad(code: seq<Byte>, st: State, x: Letter, slots: Slots)
    requires Holds(code, st.ip, MovRaxMemRdi(VarSlot(x) * 8)) && Ready(st, slots, 0)
    ensures StepOnce(code, st) == Next(State(st.ip + 7, st.regs[RAX := slots[VarSlot(x)]], st.mem))
  {
    hide Decode, Ready, Readable, VarSlot;
    MemCode(code, st.ip, VarSlot(x) * 8);
    SlotReadable(st, slots, VarSlot(x));
  }

  lemma SlotReadable(st: State, slots: Slots, i: nat)
    requires i < 26 && Ready(st, slots, 0)
    ensures var a: int := st.regs[RDI] + i * 8; Readable(st.mem, a) && st.mem[a] == slots[i]
  {
    var base: int := st.regs[RDI];
    assert base + 8 * i in st.mem;
    ModUnique(base + 8 * i, 8, base / 8 + i, 0);
  }

  lemma StepRet(code: seq<Byte>, st: State)
    requires Holds(code, st.ip, RET) && Sp(st) % 8 == 0 && Sp(st) in st.mem
    ensures StepOnce(code, st) == Done(State(st.ip + 1, st.regs[RSP := Add64(Sp(st), 8)], st.mem))
  {
    hide Decode;
    OneByteCodes(code, st.ip);
  }

  lemma StepArith(op: Op, code: seq<Byte>, st: State)
    requires op != Over && Holds(code, st.ip, OpCode(op))
    ensures StepOnce(code, st)
         == Next(State(st.ip + |OpCode(op)|, st.regs[RAX := ApplyWord(op, st.regs[RAX], st.regs[RBX]).value], st.mem))
  {
    hide Decode, Wrap64;
    WideCodes(code, st.ip);
    OtherCodes(code, st.ip);
  }

  /** Running one or two instructions more. */
  lemma RunTwo(code: seq<Byte>, st: State)
    ensures var r := StepOnce(code, st); Run(code, st, 2) == if r.Next? then StepOnce(code, r.st) else r
  {
    hide StepOnce;
    var r := StepOnce(code, st);
    if r.Next? {
      RunOne(code, r.st);
    }
  }

  lemma RunThree(code: seq<Byte>, st: State)
    ensures var r := StepOnce(code, st); Run(code, st, 3) == if r.Next? then Run(code, r.st, 2) else r
  {
    hide StepOnce;
  }

  lemma NumRuns(n: nat, code: seq<Byte>, st: State, slots: Slots)
    requires Holds(code, st.ip, Code(Num(n))) && Sp(st) % 8 == 0 && 8 <= Sp(st)
    ensures Correct(Num(n), code, st, slots)
  {
    hide StepOnce, Run, Wrap64, Holds;
    HoldsSplit(code, st.ip, MovRaxImm64(n), PUSH_RAX);
    ImmCode(code, st.ip, n);
    StepMovImm(code, st, n);
    StepPush(code, StepOnce(code, st).st);
    RunTwo(code, st);
  }

  lemma VarRuns(x: Letter, code: seq<Byte>, st: State, slots: Slots)
    requires Holds(code, st.ip, Code(Var(x))) && Ready(st, slots, Depth(Var(x)))
    ensures Correct(Var(x), code, st, slots)
  {
    hide StepOnce, Run, Holds;
    HoldsSplit(code, st.ip, MovRaxMemRdi(VarSlot(x) * 8), PUSH_RAX);
    MemCode(code, st.ip, VarSlot(x) * 8);
    StepLoad(code, st, x, slots);
    StepPush(code, StepOnce(code, st).st);
    RunTwo(code, st);
  }

  lemma NegRuns(a: Expr, code: seq<Byte>, st: State, slots: Slots)
    requires Holds(code, st.ip + |Code(a)|, POP_RAX + (NEG_RAX + PUSH_RAX))
    requires Ready(st, slots, Depth(a)) && Correct(a, code, st, slots)
    ensures Correct(Negate(a), code, st, slots)
  {
    NegLen(a);
    hide Run, StepOnce, Holds, Code, Ready, Kept, Wrap64;
    ReadySp(st, slots, Depth(a));
    var r := Run(code, st, Steps(a));
    if r.Next? {
      var s := r.st;
      RunTrans(code, st, Steps(a), s, 3);
      HoldsSplit(code, s.ip, POP_RAX, NEG_RAX + PUSH_RAX);
      HoldsSplit(code, s.ip + 1, NEG_RAX, PUSH_RAX);
      var v := Value(a, slots).value;
      NegTail(code, s, Sp(st), v);
      KeptTop(st, s, State(s.ip + 5, s.regs[RAX := Sub64(0, v)], s.mem[Sp(s) := Sub64(0, v)]), |Code(a)|, Depth(a), Sub64(0, v));
    } else {
      RunStops(code, st, Steps(a), Steps(a) + 3);
    }
  }

  lemma NegLen(a: Expr)
    ensures |Code(Negate(a))| == |Code(a)| + 5
  {
  }

  lemma NegTail(code: seq<Byte>, s: State, sp: Int64, v: Int64)
    requires Holds(code, s.ip, POP_RAX) && Holds(code, s.ip + 1, NEG_RAX) && Holds(code, s.ip + 4, PUSH_RAX)
    requires Sp(s) == sp - 8 && Sp(s) % 8 == 0 && Sp(s) >= 0 && Sp(s) in s.mem && s.mem[Sp(s)] == v
    ensures Run(code, s, 3) == Next(State(s.ip + 5, s.regs[RAX := Sub64(0, v)], s.mem[Sp(s) := Sub64(0, v)]))
  {
    hide Decode, Run, StepOnce, Holds;
    StepPop(code, s);
    var s1 := StepOnce(code, s).st;
    assert Add64(Sp(s), 8) == sp;
    StepNeg(code, s1);
    var s2 := StepOnce(code, s1).st;
    StepPush(code, s2);
    RunThree(code, s);
    RunTwo(code, s1);
    assert StepOnce(code, s2).st.regs == s.regs[RAX := Sub64(0, v)];
  }

  lemma BinRuns(op: Op, a: Expr, b: Expr, code: seq<Byte>, st: State, slots: Slots)
    requires var e := BinOp(op, a, b);
      && Ready(st, slots, Depth(e)) && Holds(code, st.ip + |Code(a)| + |Code(b)|, Tail(op))
      && Correct(a, code, st, slots)
      && (Run(code, st, Steps(a)).Next? ==> Correct(b, code, Run(code, st, Steps(a)).st, slots))
    ensures Correct(BinOp(op, a, b), code, st, slots)
  {
    hide Run, Holds, Code, Tail, Ready, ApplyWord, Pushed;
    var e := BinOp(op, a, b);
    var ra := Run(code, st, Steps(a));
    if ra.Fault? {
      RunStops(code, st, Steps(a), Steps(e));
    } else {
      var rb := Run(code, ra.st, Steps(b));
      RunTrans(code, st, Steps(a), ra.st, Steps(b));
      if rb.Fault? {
        RunStops(code, st, Steps(a) + Steps(b), Steps(e));
      } else {
        BinTail(op, a, b, code, st, ra.st, rb.st, slots, Value(a, slots).value, Value(b, slots).value);
      }
    }
  }

  /** Both operands are on the stack. */
  lemma BinTail(op: Op, a: Expr, b: Expr, code: seq<Byte>, st: State, s1: State, s2: State, slots: Slots, l: Int64, r: Int64)
    requires var e := BinOp(op, a, b);
      && Ready(st, slots, Depth(e)) && Holds(code, st.ip + |Code(a)| + |Code(b)|, Tail(op))
      && Run(code, st, Steps(a) + Steps(b)) == Next(s2)
      && Pushed(st, s1, l, |Code(a)|, Depth(a)) && Pushed(s1, s2, r, |Code(b)|, Depth(b))
    ensures var e := BinOp(op, a, b); Computes(code, st, Steps(e), |Code(e)|, Depth(e), ApplyWord(op, l, r))
  {
    hide Run, Holds, Code, Tail, Ready, ApplyWord, Kept;
    var e := BinOp(op, a, b);
    var n := if op == Over then 5 else 4;
    ReadySp(st, slots, Depth(e));
    RunTrans(code, st, Steps(a) + Steps(b), s2, n);
    LeftStays(s1, s2, Depth(b), l);
    TailRuns(op, code, s2, r, l, Sp(s1));
    TailLen(op, a, b);
    if ApplyWord(op, l, r).Some? {
      KeptThrough(st, s1, s2, Run(code, s2, n).st, Depth(a), Depth(b), Depth(e), ApplyWord(op, l, r).value);
    }
  }

  lemma TailLen(op: Op, a: Expr, b: Expr)
    ensures |Code(BinOp(op, a, b))| == |Code(a)| + |Code(b)| + |Tail(op)|
  {
  }

  /** Pop both operands, combine, push: `top` is where the left operand lies. */
  lemma TailRuns(op: Op, code: seq<Byte>, st: State, right: Int64, left: Int64, top: Int64)
    requires Holds(code, st.ip, Tail(op)) && top == Sp(st) + 8 && top % 8 == 0 && Sp(st) >= 0 && top < TWO63 - 8
    requires Sp(st) in st.mem && st.mem[Sp(st)] == right && top in st.mem && st.mem[top] == left
    ensures var r := Run(code, st, if op == Over then 5 else 4); var v := ApplyWord(op, left, right);
      if v.None? then r == Fault
      else
        && r.Next? && r.st.ip == st.ip + |Tail(op)| && r.st.regs[RSP] == top
        && r.st.mem == st.mem[top := v.value]
        && forall k: Reg :: k != RAX && k != RBX && k != RDX && k != RSP ==> r.st.regs[k] == st.regs[k]
  {
    hide Run, StepOnce, Holds, Wrap64;
    HoldsSplit(code, st.ip, POP_RBX, POP_RAX + (OpCode(op) + PUSH_RAX));
    HoldsSplit(code, st.ip + 1, POP_RAX, OpCode(op) + PUSH_RAX);
    HoldsSplit(code, st.ip + 2, OpCode(op), PUSH_RAX);
    var s := PopsRun(code, st, right, left, top);
    if op == Over {
      DivRuns(code, s, left, right);
      RunTrans(code, st, 2, s, 3);
      if ApplyWord(op, left, right).Some? {
        RunTrans(code, s, 2, Run(code, s, 2).st, 1);
        PushRuns(code, Run(code, s, 2).st, top);
      } else {
        RunStops(code, s, 2, 3);
      }
    } else {
      StepArith(op, code, s);
      RunOne(code, s);
      RunTrans(code, st, 2, s, 2);
      RunTrans(code, s, 1, Run(code, s, 1).st, 1);
      PushRuns(code, Run(code, s, 1).st, top);
    }
  }

  lemma PopsRun(code: seq<Byte>, st: State, right: Int64, left: Int64, top: Int64) returns (s: State)
    requires Holds(code, st.ip, POP_RBX) && Holds(code, st.ip + 1, POP_RAX)
    requires top == Sp(st) + 8 && top % 8 == 0 && Sp(st) >= 0
    requires Sp(st) in st.mem && st.mem[Sp(st)] == right && top in st.mem && st.mem[top] == left
    ensures Run(code, st, 2) == Next(s) && s.ip == st.ip + 2 && s.mem == st.mem
    ensures s.regs == st.regs[RBX := right][RAX := left][RSP := Add64(top, 8)]
  {
    hide StepOnce, Run, Holds;
    StepPop(code, st);
    var s1 := StepOnce(code, st).st;
    assert Sp(s1) == top;
    StepPop(code, s1);
    RunTwo(code, st);
    s := StepOnce(code, s1).st;
  }

  lemma PushRuns(code: seq<Byte>, s: State, top: Int64)
    requires Holds(code, s.ip, PUSH_RAX) && Sp(s) == Add64(top, 8) && top % 8 == 0 && 0 <= top
    requires top < TWO63 - 8
    ensures Run(code, s, 1) == Next(State(s.ip + 1, s.regs[RSP := top], s.mem[top := s.regs[RAX]]))
  {
    hide StepOnce, Run;
    assert Sp(s) == top + 8;
    StepPush(code, s);
    RunOne(code, s);
  }

  /** Sign-extending rax into rdx makes the 128-bit dividend the word itself. */
  lemma DivRuns(code: seq<Byte>, s: State, left: Int64, right: Int64)
    requires Holds(code, s.ip, CQO + IDIV_RBX) && s.regs[RAX] == left && s.regs[RBX] == right
    ensures var r := Run(code, s, 2); var v := ApplyWord(Over, left, right);
      if v.None? then r == Fault
      else
        && r.Next? && r.st.ip == s.ip + 5 && r.st.mem == s.mem && r.st.regs[RAX] == v.value
        && forall k: Reg :: k != RAX && k != RDX ==> r.st.regs[k] == s.regs[k]
  {
    hide Decode, TruncDiv;
    HoldsSplit(code, s.ip, CQO, IDIV_RBX);
    OtherCodes(code, s.ip);
    WideCodes(code, s.ip + 2);
    RunTwo(code, s);
    if right != 0 {
      QuotientRange(left, right);
    }
  }

  /** The only quotient of two words that is not a word is -2^63 / -1. */
  lemma QuotientRange(a: Int64, b: Int64)
    requires b != 0
    ensures -TWO63 <= TruncDiv(a, b) < TWO63 <==> !(a == -TWO63 && b == -1)
  {
    var n, d := Abs(a), Abs(b);
    SmallQuotient(n, d);
    QuotientAbs(a, b);
    if d == 1 {
      assert n / d == n;
    }
  }

  lemma SmallQuotient(n: nat, d: nat)
    requires d > 0
    ensures n / d <= n && (d > 1 ==> 2 * (n / d) <= n)
  {
    var q, r := n / d, n % d;
    DivMod(n, d);
    Grows(q, d);
  }

  lemma {:induction false} Grows(q: nat, d: nat)
    requires d > 0
    ensures q * d >= q && (d > 1 ==> q * d >= 2 * q)
  {
    if q > 0 {
      Grows(q - 1, d);
      assert q * d == (q - 1) * d + d;
    }
  }

  /** Both ways of dividing toward zero agree. */
  lemma QuotientAbs(a: int, b: int)
    requires b != 0
    ensures TruncDiv(a, b) == TruncatingDiv(a, b)
  {
    DivNeg(Abs(a), Abs(b));
  }

  lemma DivNeg(n: int, d: int)
    requires d > 0 && n >= 0
    ensures n / (-d) == -(n / d)
  {
    var q, r := n / d, n % d;
    DivMod(n, d);
    assert (-q) * (-d) == q * d;
    ModUnique(n, -d, -q, r);
  }

  /** Computing the right operand leaves the left one where it was pushed. */
  lemma LeftStays(s1: State, s2: State, db: nat, v: Int64)
    requires Kept(s1, s2, Sp(s1) - 8 * db) && Sp(s1) in s1.mem && s1.mem[Sp(s1)] == v
    ensures Sp(s1) in s2.mem && s2.mem[Sp(s1)] == v
  {
  }

  /** Rewriting the word on top keeps everything else. */
  lemma KeptTop(st: State, s: State, s': State, len: nat, d: nat, v: Int64)
    requires d >= 1 && s.ip == st.ip + len && Sp(s) == Sp(st) - 8 && Kept(st, s, Sp(st) - 8 * d)
    requires s'.ip == s.ip + 5 && s'.mem == s.mem[Sp(s) := v] && s'.regs == s.regs[RAX := v]
    ensures Pushed(st, s', v, len + 5, d)
  {
  }

  lemma KeptThrough(st: State, s1: State, s2: State, s3: State, da: nat, db: nat, d: nat, v: Int64)
    requires da <= d && 1 + db <= d
    requires Sp(s1) == Sp(st) - 8
    requires Kept(st, s1, Sp(st) - 8 * da) && Kept(s1, s2, Sp(s1) - 8 * db)
    requires s3.mem == s2.mem[Sp(s1) := v]
    requires forall k: Reg :: k != RAX && k != RBX && k != RDX && k != RSP ==> s3.regs[k] == s2.regs[k]
    ensures Kept(st, s3, Sp(st) - 8 * d)
  {
  }

  // ----- the whole function -----

  lemma HoldsAll(code: seq<Byte>)
    ensures Holds(code, 0, code)
  {
  }

  /** A caller's frame: the return address on top of the stack. */
  ghost predicate Called(st: State, slots: Slots, depth: nat) {
    Ready(st, slots, depth) && st.ip == 0 && Sp(st) in st.mem && Sp(st) < TWO63 - 8
  }

  /** Running the compiled function returns to the caller with the value in rax,
      the stack as it was and only rax, rbx and rdx changed; or it faults. */
  lemma FunctionRuns(e: Expr, st: State, slots: Slots)
    requires Called(st, slots, Depth(e))
    ensures var r := Run(Code(e) + (POP_RAX + RET), st, Steps(e) + 2);
      match Value(e, slots)
      case None => r == Fault
      case Some(v) =>
        && r.Done? && r.st.regs[RAX] == v && r.st.regs[RSP] == Sp(st) + 8
        && Kept(st, r.st, Sp(st) - 8 * Depth(e))
  {
    hide Code, StepOnce, Run, Holds, Ready, Kept, Value, Steps, Depth;
    ReadySp(st, slots, Depth(e));
    var code := Code(e) + (POP_RAX + RET);
    assert Holds(code, 0, code) by { HoldsAll(code); }
    HoldsSplit(code, 0, Code(e), POP_RAX + RET);
    HoldsSplit(code, |Code(e)|, POP_RAX, RET);
    ExprRuns(e, code, st, slots);
    var r := Run(code, st, Steps(e));
    if r.Next? {
      RunTrans(code, st, Steps(e), r.st, 2);
      KeptAbove(st, r.st, Sp(st) - 8 * Depth(e));
      ReturnRuns(code, r.st, Sp(st), Value(e, slots).value);
      KeptRegs(st, r.st, Run(code, r.st, 2).st, Sp(st) - 8 * Depth(e));
    } else {
      RunStops(code, st, Steps(e), Steps(e) + 2);
    }
  }

  lemma KeptAbove(st: State, s: State, floor: int)
    requires Kept(st, s, floor) && Sp(st) in st.mem
    ensures Sp(st) in s.mem
  {
  }

  lemma KeptRegs(st: State, s: State, s': State, floor: int)
    requires Kept(st, s, floor) && s'.mem == s.mem
    requires forall k: Reg :: k != RAX && k != RSP ==> s'.regs[k] == s.regs[k]
    ensures Kept(st, s', floor)
  {
  }

  /** Pop the result and return. */
  lemma ReturnRuns(code: seq<Byte>, s: State, sp: Int64, v: Int64)
    requires Holds(code, s.ip, POP_RAX) && Holds(code, s.ip + 1, RET)
    requires Sp(s) == sp - 8 && sp % 8 == 0 && 0 <= Sp(s) < TWO63 - 16
    requires Sp(s) in s.mem && s.mem[Sp(s)] == v && sp in s.mem
    ensures var r := Run(code, s, 2);
      && r.Done? && r.st.mem == s.mem && r.st.regs[RAX] == v && Sp(r.st) == sp + 8
      && forall k: Reg :: k != RAX && k != RSP ==> r.st.regs[k] == s.regs[k]
  {
    hide StepOnce, Run, Holds;
    StepPop(code, s);
    assert Add64(Sp(s), 8) == sp;
    StepRet(code, StepOnce(code, s).st);
    RunTwo(code, s);
  }

  // ----- the processor against the oracle -----

  predicate Fits(v: Option<int>) { v.None? || -TWO63 <= v.value < TWO63 }

  /** Every value the evaluator computes on the way is a 64-bit integer. */
  predicate AllFit(e: Expr, vars: Vars) {
    && Fits(Evaluate(e, vars))
    && match e
       case Num(_) => true
       case Var(_) => true
       case Negate(a) => AllFit(a, vars)
       case BinOp(_, a, b) => AllFit(a, vars) && AllFit(b, vars)
  }

  predicate HasDivision(e: Expr) {
    match e
    case Num(_) => false
    case Var(_) => false
    case Negate(a) => HasDivision(a)
    case BinOp(op, a, b) => op == Over || HasDivision(a) || HasDivision(b)
  }

  /** The caller's array: word i is for the letter with code 97 + i, and 0 where no
      variable is given. */
  ghost predicate IsArray(slots: Slots, vars: Vars) {
    forall i :: 0 <= i < 26 ==> slots[i] == var x: Letter := (97 + i) as char; if x in vars then Wrap64(vars[x]) else 0
  }

  lemma ArrayAt(slots: Slots, vars: Vars, x: Letter)
    requires IsArray(slots, vars)
    ensures slots[VarSlot(x)] == if x in vars then Wrap64(vars[x]) else 0
  {
    assert (97 + VarSlot(x)) as char == x;
  }

  /** Fills the array from the given variables, in any order; numbers wrap on the way in. */
  method FillSlots(vars: Vars) returns (slots: array<Int64>)
    ensures fresh(slots) && slots.Length == 26 && IsArray(slots[..], vars)
  {
    slots := new Int64[26](_ => 0);
    var left := vars.Keys;
    while left != {}
      invariant left <= vars.Keys
      invariant forall i :: 0 <= i < 26 ==>
        slots[i] == var x: Letter := (97 + i) as char; if x in vars && x !in left then Wrap64(vars[x]) else 0
      decreases |left|
    {
      var x :| x in left;
      slots[x as int - 'a' as int] := Wrap64(vars[x]);
      left := left - {x};
    }
  }

  /** Without overflow the processor does what the evaluator does; it faults
      exactly where the evaluator divides by zero. */
  lemma {:induction false} ValueExact(e: Expr, vars: Vars, slots: Slots)
    requires AllFit(e, vars) && IsArray(slots, vars)
    ensures Value(e, slots) == Evaluate(e, vars)
  {
    hide IsArray, Wrap64;
    match e
    case Num(_) =>
    case Var(x) => ArrayAt(slots, vars, x);
    case Negate(a) => ValueExact(a, vars, slots);
    case BinOp(op, a, b) =>
      ValueExact(a, vars, slots);
      ValueExact(b, vars, slots);
      var l, r := Evaluate(a, vars), Evaluate(b, vars);
      if op == Over && l.Some? && r.Some? && r.value != 0 {
        QuotientAbs(l.value, r.value);
        QuotientRange(l.value, r.value);
      }
  }

  /** Without division it computes the evaluator's value modulo 2^64, whatever
      the size of the values on the way. */
  lemma {:induction false} ValueModulo(e: Expr, vars: Vars, slots: Slots)
    requires !HasDivision(e) && IsArray(slots, vars)
    ensures Evaluate(e, vars).Some? && Value(e, slots) == Some(Wrap64(Evaluate(e, vars).value))
  {
    hide IsArray, Wrap64;
    match e
    case Num(_) =>
    case Var(x) =>
      ArrayAt(slots, vars, x);
      assert Wrap64(0) == 0;
    case Negate(a) =>
      ValueModulo(a, vars, slots);
      WrapSub(0, Evaluate(a, vars).value);
    case BinOp(op, a, b) =>
      ValueModulo(a, vars, slots);
      ValueModulo(b, vars, slots);
      var x, y := Evaluate(a, vars).value, Evaluate(b, vars).value;
      WrapAdd(x, y);
      WrapSub(x, y);
      WrapMul(x, y);
  }

  /** How far wrapping moves a value. */
  lemma WrapShift(x: int) returns (k: int)
    ensures Wrap64(x) == x + k * TWO64
  {
    k := -((x + TWO63) / TWO64);
  }

  lemma WrapSame(x: int, k: int)
    ensures Wrap64(x + k * TWO64) == Wrap64(x)
  {
    var i := WrapShift(x);
    var j := WrapShift(x + k * TWO64);
    assert Wrap64(x + k * TWO64) - Wrap64(x) == (k + j - i) * TWO64;
  }

  lemma WrapAdd(x: int, y: int)
    ensures Add64(Wrap64(x), Wrap64(y)) == Wrap64(x + y)
  {
    var i := WrapShift(x);
    var j := WrapShift(y);
    WrapSame(x + y, i + j);
  }

  lemma WrapSub(x: int, y: int)
    ensures Sub64(Wrap64(x), Wrap64(y)) == Wrap64(x - y)
    ensures x == 0 ==> Sub64(0, Wrap64(y)) == Wrap64(-y)
  {
    var i := WrapShift(x);
    var j := WrapShift(y);
    WrapSame(x - y, i - j);
    if x == 0 { assert Wrap64(0) == 0; }
  }

  lemma WrapMul(x: int, y: int)
    ensures Mul64(Wrap64(x), Wrap64(y)) == Wrap64(x * y)
  {
    var i := WrapShift(x);
    var j := WrapShift(y);
    var k := x * j + i * y + i * j * TWO64;
    calc {
      Wrap64(x) * Wrap64(y);
      (x + i * TWO64) * (y + j * TWO64);
      x * y + k * TWO64;
    }
    WrapSame(x * y, k);
  }

  /** The compiled function returns the evaluator's value when all values fit,
      and faults exactly when the evaluator divides by zero. */
  lemma JitExact(e: Expr, vars: Vars, slots: Slots, st: State)
    requires IsArray(slots, vars) && Called(st, slots, Depth(e)) && AllFit(e, vars)
    ensures var r := Run(Code(e) + (POP_RAX + RET), st, Steps(e) + 2);
      match Evaluate(e, vars)
      case None => r == Fault
      case Some(v) =>
        && r.Done? && r.st.regs[RAX] == v
        && r.st.regs[RSP] == Sp(st) + 8 && Kept(st, r.st, Sp(st) - 8 * Depth(e))
  {
    hide Run, Code, IsArray, Called;
    ValueExact(e, vars, slots);
    FunctionRuns(e, st, slots);
  }

  /** Without division the function agrees with the evaluator if and only if the
      evaluator's own result fits in 64 bits. */
  lemma JitModulo(e: Expr, vars: Vars, slots: Slots, st: State)
    requires IsArray(slots, vars) && Called(st, slots, Depth(e)) && !HasDivision(e)
    ensures Evaluate(e, vars).Some?
    ensures var r := Run(Code(e) + (POP_RAX + RET), st, Steps(e) + 2); var v := Evaluate(e, vars).value;
      && r.Done? && (r.st.regs[RAX] - v) % TWO64 == 0
      && (r.st.regs[RAX] == v <==> -TWO63 <= v < TWO63)
  {
    hide Run, Code, IsArray, Called, Wrap64, Kept, Evaluate, Value, Steps, Depth, HasDivision;
    ValueModulo(e, vars, slots);
    FunctionRuns(e, st, slots);
    var v := Evaluate(e, vars).value;
    var k := WrapShift(v);
    assert Wrap64(v) - v == k * TWO64;
  }

  /** 4294967296 * 4294967296 needs 65 bits: the evaluator gives 2^64, the
      compiled function 0. */
  lemma SquareWraps(vars: Vars, slots: Slots, st: State)
    requires IsArray(slots, vars) && Called(st, slots, 2)
    ensures var e := BinOp(Times, Num(0x1_0000_0000), Num(0x1_0000_0000));
      var r := Run(Code(e) + (POP_RAX + RET), st, Steps(e) + 2);
      Evaluate(e, vars) == Some(TWO64) && r.Done? && r.st.regs[RAX] == 0
  {
    hide Run, Code, IsArray, Called;
    var e := BinOp(Times, Num(0x1_0000_0000), Num(0x1_0000_0000));
    assert Depth(e) == 2 && !HasDivision(e) && Evaluate(e, vars) == Some(TWO64);
    JitModulo(e, vars, slots, st);
  }

  /** The bytes of a variable: mov rax, [rdi + 8 * i], push rax, where i counts the
      letter from a. */
  lemma VarBytes(x: Letter)
    ensures Code(Var(x)) == [0x48, 0x8B, 0x87, 8 * (x as int - 97), 0, 0, 0, 0x50]
  {
    hide LittleEndian;
    var d := 8 * (x as int - 97);
    LowFour(d, 4);
    LowAndRest(d / 0x1_0000_0000, 1);
    assert LittleEndian(d, 4) == [d, 0, 0, 0];
  }

  /** The bytes of a number: mov rax, imm64 with its low 64 bits, lowest byte first,
      push rax. */
  lemma NumBytes(n: nat)
    ensures var m := n % 0x1_0000_0000_0000_0000;
      Code(Num(n)) == [0x48, 0xB8, m % 256, m / 0x100 % 256, m / 0x1_0000 % 256, m / 0x100_0000 % 256,
        m / 0x1_0000_0000 % 256, m / 0x100_0000_0000 % 256, m / 0x1_0000_0000_0000 % 256, m / 0x100_0000_0000_0000 % 256, 0x50]
  {
    hide LittleEndian;
    var m := n % TWO64;
    var h := m / 0x1_0000_0000;
    LowFour(m, 8);
    LowFour(h, 4);
    assert h / 0x100 == m / 0x100_0000_0000 && h / 0x1_0000 == m / 0x1_0000_0000_0000 && h / 0x100_0000 == m / 0x100_0000_0000_0000;
    LowAndRest(h / 0x1_0000_0000, 1);
    assert LittleEndian(h, 4) == [h % 256, h / 0x100 % 256, h / 0x1_0000 % 256, h / 0x100_0000 % 256];
    assert Code(Num(n)) == ([0x48, 0xB8] + LittleEndian(m, 8)) + [0x50];
  }

  /** The first four bytes. */
  lemma LowFour(n: nat, k: nat)
    requires k >= 4
    ensures LittleEndian(n, k)
      == [n % 256, n / 0x100 % 256, n / 0x1_0000 % 256, n / 0x100_0000 % 256] + LittleEndian(n / 0x1_0000_0000, k - 4)
  {
    hide LittleEndian;
    LowAndRest(n, k);
    LowAndRest(n / 0x100, k - 1);
    assert n / 0x100 / 256 == n / 0x1_0000;
    LowAndRest(n / 0x1_0000, k - 2);
    assert n / 0x1_0000 / 256 == n / 0x100_0000;
    LowAndRest(n / 0x100_0000, k - 3);
    assert n / 0x100_0000 / 256 == n / 0x1_0000_0000;
  }

  lemma LowAndRest(n: nat, k: nat)
    requires k > 0
    ensures LittleEndian(n, k) == [n % 256] + LittleEndian(n / 256, k - 1) && |LittleEndian(n, 0)| == 0
  {
  }
}
