/** The x86-64 instructions the code generator emits, and a machine that runs
    them. Registers and cells that were never written, or that a foreign callee
    may have overwritten, are absent: reading one is `Stuck`, as is a call with a
    misaligned stack. A program is correct only if it never gets stuck. */
module MiniCMachine {
  import opened Arithmetic
  import opened Wrappers
  import opened MiniCWord
  import opened MiniCSemantics

  datatype Reg = AX | CX | DX | SI | DI | R8 | R9 | R11
  datatype Cond = CE | CNE | CL | CLE | CG | CGE
  datatype Label = Fn(name: string) | Local(prefix: string, n: nat)

  datatype Instr =
    | Lab(lbl: Label)
    | MovImm(dst: Reg, imm: int)
    | MovLoad(dst: Reg, off: int)
    | MovStore(off: int, src: Reg)
    | MovReg(dst: Reg, src: Reg)
    | AddReg(dst: Reg, src: Reg)
    | SubReg(dst: Reg, src: Reg)
    | IMulReg(dst: Reg, src: Reg)
    | AndReg(dst: Reg, src: Reg)
    | OrReg(dst: Reg, src: Reg)
    | XorReg(dst: Reg, src: Reg)
    | NegReg(dst: Reg)
    | NotReg(dst: Reg)
    | CmpImm(dst: Reg, against: Int32)
    | CmpReg(dst: Reg, src: Reg)
    | SetAl(cc: Cond)
    | MovzxEaxAl
    | Cdq
    | IDiv(src: Reg)
    | Push(src: Reg)
    | Pop(dst: Reg)
    | PushBp
    | MovBpSp
    | SubSp(n: int)
    | AddSp(n: int)
    | LeaveFrame
    | Ret
    | Jmp(to: Label)
    | Je(to: Label)
    | Jne(to: Label)
    | CallFn(name: string)

  /** Stack cells are eight bytes wide and hold a word, a saved frame pointer or
      a return address. */
  datatype Cell = Word(w: Int32) | Ptr(a: int) | RetTo(pc: int)

  /** Zero, sign and overflow flags. */
  datatype Flags = Flags(z: bool, s: bool, o: bool)

  type Regs = map<Reg, Int32>
  type Memory = map<int, Cell>

  datatype State = State(pc: int, regs: Regs, sp: int, bp: int, flags: Option<Flags>, mem: Memory, tr: Trace)

  datatype Step = Next(st: State) | Trap(tr: Trace) | Exit(st: State) | Stuck

  /** A linked program: its code and the external functions with their arities. */
  datatype Linked = Linked(code: seq<Instr>, externs: map<string, nat>)

  const ARG_REGS: seq<Reg> := [DI, SI, DX, CX, R8, R9]

  /** Returning to this address ends the run. */
  const EXIT_PC: int := -1

  /** Index of the first occurrence of a label, |code| if there is none. */
  function Target(code: seq<Instr>, l: Label): (r: nat)
    ensures r <= |code|
    ensures r < |code| ==> code[r] == Lab(l)
  {
    if code == [] then 0
    else if code[0] == Lab(l) then 0
    else 1 + Target(code[1..], l)
  }

  /** cmp a, b computes a - b in 32 bits. */
  function Compare(a: Int32, b: Int32): Flags {
    var d: int := a as int - b as int;
    var w: int := Wrap32(d);
    Flags(w == 0, w < 0, w != d)
  }

  predicate Holds(cc: Cond, f: Flags) {
    match cc
    case CE => f.z
    case CNE => !f.z
    case CL => f.s != f.o
    case CLE => f.z || f.s != f.o
    case CG => !f.z && f.s == f.o
    case CGE => f.s == f.o
  }

  /** The arguments of an external call, read from the argument registers. */
  function ReadArgs(regs: Regs, n: nat): Option<seq<Int32>>
  {
    if n == 0 then Some([])
    else if n > |ARG_REGS| || ARG_REGS[n - 1] !in regs then None
    else match ReadArgs(regs, n - 1)
      case None => None
      case Some(vs) => Some(vs + [regs[ARG_REGS[n - 1]]])
  }

  function SetReg(st: State, r: Reg, v: Int32): State {
    st.(pc := st.pc + 1, regs := st.regs[r := v])
  }

  /** An arithmetic result; the flags it leaves are not modelled. */
  function SetArith(st: State, r: Reg, v: Int32): State {
    st.(pc := st.pc + 1, regs := st.regs[r := v], flags := None)
  }

  function Branch(st: State, taken: bool, target: int): State {
    st.(pc := if taken then target else st.pc + 1)
  }

  function Exec(w: World, m: Linked, st: State, i: Instr): Step {
    match i
    case Lab(_) => Next(st.(pc := st.pc + 1))
    case MovImm(r, n) => Next(SetReg(st, r, Wrap32(n)))
    case MovLoad(r, off) =>
      if st.bp + off in st.mem && st.mem[st.bp + off].Word? then Next(SetReg(st, r, st.mem[st.bp + off].w)) else Stuck
    case MovStore(off, r) =>
      if r in st.regs then Next(st.(pc := st.pc + 1, mem := st.mem[st.bp + off := Word(st.regs[r])])) else Stuck
    case MovReg(d, s) => if s in st.regs then Next(SetReg(st, d, st.regs[s])) else Stuck
    case AddReg(d, s) =>
      if d in st.regs && s in st.regs then Next(SetArith(st, d, Add32(st.regs[d], st.regs[s]))) else Stuck
    case SubReg(d, s) =>
      if d in st.regs && s in st.regs then Next(SetArith(st, d, Sub32(st.regs[d], st.regs[s]))) else Stuck
    case IMulReg(d, s) =>
      if d in st.regs && s in st.regs then Next(SetArith(st, d, Mul32(st.regs[d], st.regs[s]))) else Stuck
    case AndReg(d, s) =>
      if d in st.regs && s in st.regs then Next(SetArith(st, d, And32(st.regs[d], st.regs[s]))) else Stuck
    case OrReg(d, s) =>
      if d in st.regs && s in st.regs then Next(SetArith(st, d, Or32(st.regs[d], st.regs[s]))) else Stuck
    case XorReg(d, s) =>
      if d in st.regs && s in st.regs then Next(SetArith(st, d, Xor32(st.regs[d], st.regs[s]))) else Stuck
    case NegReg(d) => if d in st.regs then Next(SetArith(st, d, Sub32(0, st.regs[d]))) else Stuck
    case NotReg(d) => if d in st.regs then Next(SetReg(st, d, -1 - st.regs[d])) else Stuck
    case CmpImm(r, n) =>
      if r in st.regs then Next(st.(pc := st.pc + 1, flags := Some(Compare(st.regs[r], n)))) else Stuck
    case CmpReg(a, b) =>
      if a in st.regs && b in st.regs
      then Next(st.(pc := st.pc + 1, flags := Some(Compare(st.regs[a], st.regs[b])))) else Stuck
    case SetAl(cc) =>
      if AX in st.regs && st.flags.Some?
      then Next(SetReg(st, AX, Wrap32(st.regs[AX] - st.regs[AX] % 256 + Truth(Holds(cc, st.flags.value))))) else Stuck
    case MovzxEaxAl => if AX in st.regs then Next(SetReg(st, AX, st.regs[AX] % 256)) else Stuck
    case Cdq => if AX in st.regs then Next(SetReg(st, DX, if st.regs[AX] < 0 then -1 else 0)) else Stuck
    case IDiv(r) => ExecDiv(st, r)
    case Push(r) =>
      if r in st.regs then Next(st.(pc := st.pc + 1, sp := st.sp - 8, mem := st.mem[st.sp - 8 := Word(st.regs[r])])) else Stuck
    case Pop(r) =>
      if st.sp in st.mem && st.mem[st.sp].Word? then Next(SetReg(st, r, st.mem[st.sp].w).(sp := st.sp + 8)) else Stuck
    case PushBp => Next(st.(pc := st.pc + 1, sp := st.sp - 8, mem := st.mem[st.sp - 8 := Ptr(st.bp)]))
    case MovBpSp => Next(st.(pc := st.pc + 1, bp := st.sp))
    case SubSp(n) => Next(st.(pc := st.pc + 1, sp := st.sp - n, flags := None))
    case AddSp(n) => Next(st.(pc := st.pc + 1, sp := st.sp + n, flags := None))
    case LeaveFrame =>
      if st.bp in st.mem && st.mem[st.bp].Ptr? then Next(st.(pc := st.pc + 1, sp := st.bp + 8, bp := st.mem[st.bp].a)) else Stuck
    case Ret =>
      if st.sp in st.mem && st.mem[st.sp].RetTo? then Next(st.(pc := st.mem[st.sp].pc, sp := st.sp + 8)) else Stuck
    case Jmp(l) => Next(Branch(st, true, Target(m.code, l)))
    case Je(l) => if st.flags.Some? then Next(Branch(st, st.flags.value.z, Target(m.code, l))) else Stuck
    case Jne(l) => if st.flags.Some? then Next(Branch(st, !st.flags.value.z, Target(m.code, l))) else Stuck
    case CallFn(f) => ExecCall(w, m, st, f)
  }

  /** The 64-bit dividend edx:eax over a 32-bit divisor; faults when the divisor
      is zero or the quotient does not fit. */
  function ExecDiv(st: State, r: Reg): Step {
    if AX !in st.regs || DX !in st.regs || r !in st.regs then Stuck
    else
      var dividend: int := st.regs[DX] as int * TWO32 + st.regs[AX] as int % TWO32;
      var divisor: int := st.regs[r];
      if divisor == 0 then Trap(st.tr)
      else
        var q := TruncDiv(dividend, divisor);
        if -TWO31 <= q < TWO31
        then Next(st.(pc := st.pc + 1, flags := None, regs := st.regs[AX := q][DX := Wrap32(dividend - divisor * q)]))
        else Trap(st.tr)
  }

  /** A call to code in the program pushes a return address. An external callee
      returns a value, keeps the frame pointer and what lies above the stack
      pointer, and may overwrite everything else. */
  function ExecCall(w: World, m: Linked, st: State, f: string): Step {
    if st.sp % 16 != 0 then Stuck
    else if Target(m.code, Fn(f)) < |m.code| then
      Next(st.(pc := Target(m.code, Fn(f)), sp := st.sp - 8, mem := st.mem[st.sp - 8 := RetTo(st.pc + 1)]))
    else if f in m.externs then
      match ReadArgs(st.regs, m.externs[f])
      case None => Stuck
      case Some(vs) =>
        var r := w.ext(f, vs, st.tr);
        Next(st.(pc := st.pc + 1, regs := map[AX := r], flags := None,
                 mem := map a | a in st.mem && a >= st.sp :: st.mem[a],
                 tr := st.tr + [Event(f, vs, r)]))
    else Stuck
  }

  function StepOnce(w: World, m: Linked, st: State): Step {
    if st.pc == EXIT_PC then Exit(st)
    else if 0 <= st.pc < |m.code| then Exec(w, m, st, m.code[st.pc])
    else Stuck
  }

  function Run(w: World, m: Linked, st: State, k: nat): Step
    decreases k
  {
    if k == 0 then Next(st)
    else match StepOnce(w, m, st)
      case Next(st1) => Run(w, m, st1, k - 1)
      case r => r
  }

  lemma {:induction false} RunTrans(w: World, m: Linked, st: State, a: nat, mid: State, b: nat)
    requires Run(w, m, st, a) == Next(mid)
    ensures Run(w, m, st, a + b) == Run(w, m, mid, b)
    decreases a
  {
    hide StepOnce;
    if a > 0 {
      RunTrans(w, m, StepOnce(w, m, st).st, a - 1, mid, b);
    }
  }

  /** A run that has ended stays ended. */
  lemma {:induction false} RunStops(w: World, m: Linked, st: State, a: nat, b: nat)
    requires a <= b && !Run(w, m, st, a).Next?
    ensures Run(w, m, st, b) == Run(w, m, st, a)
    decreases a
  {
    hide StepOnce;
    if a > 0 && StepOnce(w, m, st).Next? {
      RunStops(w, m, StepOnce(w, m, st).st, a - 1, b - 1);
    }
  }

  /** The trace a step ends with, if it ends with one. */
  function TraceOf(s: Step): Option<Trace> {
    match s
    case Next(x) => Some(x.tr)
    case Exit(x) => Some(x.tr)
    case Trap(tr) => Some(tr)
    case Stuck => None
  }

  lemma DivTrace(st: State, r: Reg)
    ensures TraceOf(ExecDiv(st, r)).Some? ==> TraceOf(ExecDiv(st, r)).value == st.tr
  {
    hide TruncDiv, Wrap32;
  }

  lemma CallTrace(w: World, m: Linked, st: State, f: string)
    ensures TraceOf(ExecCall(w, m, st, f)).Some? ==> st.tr <= TraceOf(ExecCall(w, m, st, f)).value
  {
    hide Target, ReadArgs;
  }

  lemma OtherTrace(w: World, m: Linked, st: State, i: Instr)
    requires !i.IDiv? && !i.CallFn?
    ensures Exec(w, m, st, i).Stuck? || (Exec(w, m, st, i).Next? && Exec(w, m, st, i).st.tr == st.tr)
  {
    hide ExecDiv, ExecCall, Target, Wrap32, Add32, Sub32, Mul32, And32, Or32, Xor32, Compare, Holds, Truth;
  }

  /** One instruction adds to the trace of foreign calls or leaves it. */
  lemma ExecTrace(w: World, m: Linked, st: State, i: Instr)
    ensures TraceOf(Exec(w, m, st, i)).Some? ==> st.tr <= TraceOf(Exec(w, m, st, i)).value
  {
    if i.IDiv? {
      DivTrace(st, i.src);
    } else if i.CallFn? {
      CallTrace(w, m, st, i.name);
    } else {
      hide Exec;
      OtherTrace(w, m, st, i);
    }
  }

  /** So does a run. */
  lemma {:induction false} RunTrace(w: World, m: Linked, st: State, k: nat)
    ensures TraceOf(Run(w, m, st, k)).Some? ==> st.tr <= TraceOf(Run(w, m, st, k)).value
    decreases k
  {
    hide Exec;
    if k > 0 && st.pc != EXIT_PC && 0 <= st.pc < |m.code| {
      ExecTrace(w, m, st, m.code[st.pc]);
      if StepOnce(w, m, st).Next? {
        RunTrace(w, m, StepOnce(w, m, st).st, k - 1);
      }
    }
  }
}
