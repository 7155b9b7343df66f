/** The whole compiler: the linked code of an accepted program does what it means. */
module MiniCCompiler {
  import opened Wrappers
  import opened MiniCAst
  import opened MiniCWord
  import opened MiniCSemantics
  import opened MiniCResolver
  import opened MiniCMachine
  import opened MiniCCodegen
  import opened MiniCSimulation
  import opened MiniCScoping
  import opened MiniCLink
  import opened MiniCLegal
  import opened MiniCFaults

  /** Everything a compilation produced: the source, the resolved tree and the
      linked code. */
  ghost predicate Compiled(p: Program, m: Linked) {
    && ParsedProgram(p) && Resolve(p).Ok?
    && ProgramFits(Resolve(p).value) && m == Link(Resolve(p).value)
  }

  /** A caller has just called `f` with `vs`, following the System V AMD64 ABI: the
      arguments are in registers, the return address is on the stack, and the
      stack pointer was a multiple of 16 before the call. */
  ghost predicate Started(m: Linked, f: string, vs: seq<Int32>, st: MiniCMachine.State) {
    && st.pc == Target(m.code, Fn(f)) && RegsHold(vs, st.regs) && st.tr == []
    && st.sp in st.mem && st.mem[st.sp] == RetTo(EXIT_PC) && (st.sp + 8) % 16 == 0
  }

  /** The arguments of a call, in the order of the System V AMD64 ABI, section 3.2.3. */
  lemma ArgumentRegisters(vs: seq<Int32>, regs: Regs)
    requires |vs| == 6 && RegsHold(vs, regs)
    ensures DI in regs && SI in regs && DX in regs && CX in regs && R8 in regs && R9 in regs
    ensures [regs[DI], regs[SI], regs[DX], regs[CX], regs[R8], regs[R9]] == vs
  {
    assert ARG_REGS[0] == DI && ARG_REGS[1] == SI && ARG_REGS[2] == DX && ARG_REGS[3] == CX && ARG_REGS[4] == R8 && ARG_REGS[5] == R9;
  }

  /** `f` is defined in `p` and takes as many arguments as it is given. */
  ghost predicate Callable(p: Program, f: string, vs: seq<Int32>) {
    FindBody(p, f).Some? && |p[FindBody(p, f).value].params| == |vs|
  }

  function Source(w: World, p: Program, f: string, vs: seq<Int32>, fuel: nat): CallOut {
    EvalCall(w, p, f, vs, true, [], fuel)
  }

  /** The run is over: control is back at the caller with the result in eax and
      the caller's stack and frame pointer as the ABI wants them. */
  ghost predicate BackHome(st: MiniCMachine.State, end: MiniCMachine.State, v: Int32, tr: Trace) {
    && AX in end.regs && end.regs[AX] == v && end.tr == tr
    && end.sp == st.sp + 8 && end.bp == st.bp
    && forall x :: x in st.mem && x >= st.sp + 8 ==> x in end.mem && end.mem[x] == st.mem[x]
  }

  /** Every program the resolver accepts can be emitted and linked. */
  lemma Compiles(p: Program)
    requires ParsedProgram(p) && Resolve(p).Ok?
    ensures ProgramFits(Resolve(p).value) && Compiled(p, Link(Resolve(p).value))
  {
    hide Collect, Definitions, ProgramFits, ParsedProgram;
    ProgramOk(p, Collect(p).value, Resolve(p).value);
  }

  /** The driver: resolve, then emit. */
  method Compile(p: Program) returns (r: Result<seq<Instr>, Error>)
    requires ParsedProgram(p)
    ensures r.Ok? <==> Legal(p)
    ensures r.Ok? <==> Resolve(p).Ok?
    ensures r.Err? ==> Resolve(p) == Err(r.error) && Fault(p, r.error)
    ensures r.Ok? ==> ProgramFits(Resolve(p).value) && r.value == Link(Resolve(p).value).code
  {
    hide Resolve, EmitProgram, ProgramFits, Legal, Fault;
    ResolvesExactly(p);
    ErrorMeans(p);
    var resolver := new Resolver();
    var q :- resolver.Run(p);
    Compiles(p);
    var generator := new Codegen();
    generator.EmitWholeProgram(q);
    r := Ok(generator.out);
  }

  /** The simulation, from the source by name to the machine. */
  lemma Simulates(w: World, p: Program, m: Linked, f: string, vs: seq<Int32>, st: MiniCMachine.State, fuel: nat)
    returns (k: nat, end: MiniCMachine.State)
    requires Compiled(p, m) && Callable(p, f, vs) && Started(m, f, vs, st)
    ensures match Source(w, p, f, vs, fuel)
      case Returned(v, tr) => Run(w, m, st, k) == Exit(end) && BackHome(st, end, v, tr)
      case CFault(tr) => Run(w, m, st, k) == Trap(tr)
      case CTimeout(tr) => Run(w, m, st, k) == Next(end) && end.tr == tr && k >= fuel
      case CWrong => false
  {
    hide Run, StepOnce, Target, EvalCall, LinkOk, Collect, Definitions, ProgramFits, EmitProgram, FindBody, FrameFits, RegsHold, Resolved;
    var fns := Collect(p).value;
    var q := Resolve(p).value;
    assert Resolved(p, fns, q) by {
      IsResolved(p);
    }
    ProgramOk(p, fns, q);
    Links(w, q);
    SameBody(p, fns, q, f);
    SameShape(p, fns, q);
    Accepted(p, fns, q, f);
    CallResolves(w, p, fns, q, f, vs, [], fuel);
    var c := Setup(w, q, m);
    k, end := CallSim(c, f, st, vs, EXIT_PC, [], fuel);
    if Source(w, p, f, vs, fuel).Returned? {
      RunTrans(w, m, st, k, end, 1);
      AtExit(w, m, end);
      k := k + 1;
    }
  }

  lemma IsResolved(p: Program)
    requires ParsedProgram(p) && Resolve(p).Ok?
    ensures Resolved(p, Collect(p).value, Resolve(p).value)
  {
    hide Collect, Definitions, ParsedProgram;
  }

  lemma AtExit(w: World, m: Linked, st: MiniCMachine.State)
    requires st.pc == EXIT_PC
    ensures Run(w, m, st, 1) == Exit(st)
  {
    hide Exec;
  }

  lemma Accepted(p: Program, fns: Functions, q: Program, f: string)
    requires Resolved(p, fns, q) && FindBody(p, f).Some?
    ensures f in fns && |p[FindBody(p, f).value].params| == fns[f].arity
  {
    hide Collect, Definitions, ParsedProgram;
    CollectOk(p, fns);
  }

  /** Two ends of one run are the same end. */
  lemma OneEnd(w: World, m: Linked, st: MiniCMachine.State, a: nat, b: nat)
    requires !Run(w, m, st, a).Next? && !Run(w, m, st, b).Next?
    ensures Run(w, m, st, a) == Run(w, m, st, b)
  {
    hide Run;
    if a <= b {
      RunStops(w, m, st, a, b);
    } else {
      RunStops(w, m, st, b, a);
    }
  }

  /** The source returns v with trace tr exactly when the machine does. */
  lemma SameReturn(w: World, p: Program, m: Linked, f: string, vs: seq<Int32>, st: MiniCMachine.State, v: Int32, tr: Trace)
    requires Compiled(p, m) && Callable(p, f, vs) && Started(m, f, vs, st)
    ensures (exists fuel: nat :: Source(w, p, f, vs, fuel) == Returned(v, tr))
       <==> (exists k: nat :: Run(w, m, st, k).Exit? && BackHome(st, Run(w, m, st, k).st, v, tr))
  {
    hide Run, Source, Compiled, Callable, Started;
    if fuel: nat :| Source(w, p, f, vs, fuel) == Returned(v, tr) {
      var k, end := Simulates(w, p, m, f, vs, st, fuel);
    }
    if k: nat :| Run(w, m, st, k).Exit? && BackHome(st, Run(w, m, st, k).st, v, tr) {
      var k', end := Simulates(w, p, m, f, vs, st, k + 1);
      if Source(w, p, f, vs, k + 1).CTimeout? {
        RunStops(w, m, st, k, k');
        assert false;
      } else {
        OneEnd(w, m, st, k, k');
        assert Source(w, p, f, vs, k + 1) == Returned(v, tr);
      }
    }
  }

  /** The source faults (a zero divisor, or a quotient that does not fit) with
      trace tr exactly when the machine traps with that trace. */
  lemma SameFault(w: World, p: Program, m: Linked, f: string, vs: seq<Int32>, st: MiniCMachine.State, tr: Trace)
    requires Compiled(p, m) && Callable(p, f, vs) && Started(m, f, vs, st)
    ensures (exists fuel: nat :: Source(w, p, f, vs, fuel) == CFault(tr)) <==> (exists k: nat :: Run(w, m, st, k) == Trap(tr))
  {
    hide Run, Source, Compiled, Callable, Started;
    if fuel: nat :| Source(w, p, f, vs, fuel) == CFault(tr) {
      var k, end := Simulates(w, p, m, f, vs, st, fuel);
    }
    if k: nat :| Run(w, m, st, k) == Trap(tr) {
      var k', end := Simulates(w, p, m, f, vs, st, k + 1);
      if Source(w, p, f, vs, k + 1).CTimeout? {
        RunStops(w, m, st, k, k');
        assert false;
      } else {
        OneEnd(w, m, st, k, k');
        assert Source(w, p, f, vs, k + 1) == CFault(tr);
      }
    }
  }

  ghost predicate Diverges(w: World, p: Program, f: string, vs: seq<Int32>) {
    forall fuel: nat :: Source(w, p, f, vs, fuel).CTimeout?
  }

  ghost predicate RunsForever(w: World, m: Linked, st: MiniCMachine.State) {
    forall k: nat :: Run(w, m, st, k).Next?
  }

  /** The source never ends exactly when the machine never ends. */
  lemma SameDivergence(w: World, p: Program, m: Linked, f: string, vs: seq<Int32>, st: MiniCMachine.State)
    requires Compiled(p, m) && Callable(p, f, vs) && Started(m, f, vs, st)
    ensures Diverges(w, p, f, vs) <==> RunsForever(w, m, st)
  {
    hide Run, Source, Compiled, Callable, Started;
    if Diverges(w, p, f, vs) {
      forall k: nat ensures Run(w, m, st, k).Next? {
        var k', end := Simulates(w, p, m, f, vs, st, k);
        assert Source(w, p, f, vs, k).CTimeout?;
        if !Run(w, m, st, k).Next? {
          RunStops(w, m, st, k, k');
        }
      }
      assert RunsForever(w, m, st);
    } else {
      var fuel: nat :| !Source(w, p, f, vs, fuel).CTimeout?;
      var k', end := Simulates(w, p, m, f, vs, st, fuel);
      assert !Run(w, m, st, k').Next?;
    }
  }

  /** In a run without end, every trace the source shows is shown by the machine,
      no earlier than after `fuel` steps. */
  lemma SamePrefix(w: World, p: Program, m: Linked, f: string, vs: seq<Int32>, st: MiniCMachine.State, fuel: nat) returns (k: nat)
    requires Compiled(p, m) && Callable(p, f, vs) && Started(m, f, vs, st) && Source(w, p, f, vs, fuel).CTimeout?
    ensures k >= fuel && Run(w, m, st, k).Next? && Run(w, m, st, k).st.tr == Source(w, p, f, vs, fuel).tr
  {
    hide Run, Source, Compiled, Callable, Started;
    var end;
    k, end := Simulates(w, p, m, f, vs, st, fuel);
  }

  /** Conversely, whatever trace the machine shows after k steps, the source shows a
      trace with budget k that starts with it. With `SamePrefix`, the two endless
      traces of a run without end are the same. */
  lemma ShownBySource(w: World, p: Program, m: Linked, f: string, vs: seq<Int32>, st: MiniCMachine.State, k: nat)
    requires Compiled(p, m) && Callable(p, f, vs) && Started(m, f, vs, st) && Run(w, m, st, k).Next?
    ensures match Source(w, p, f, vs, k)
      case Returned(_, tr) => Run(w, m, st, k).st.tr <= tr
      case CFault(tr) => Run(w, m, st, k).st.tr <= tr
      case CTimeout(tr) => Run(w, m, st, k).st.tr <= tr
      case CWrong => false
  {
    hide Run, Source, Compiled, Callable, Started, BackHome;
    var k', end := Simulates(w, p, m, f, vs, st, k);
    var now := Run(w, m, st, k).st;
    if k' < k {
      assert !Source(w, p, f, vs, k).CTimeout?;
      RunStops(w, m, st, k', k);
    } else {
      RunTrans(w, m, st, k, now, k' - k);
      RunTrace(w, m, now, k' - k);
    }
    if Source(w, p, f, vs, k).Returned? {
      HomeTrace(st, end, Source(w, p, f, vs, k).v, Source(w, p, f, vs, k).tr);
    }
  }

  lemma HomeTrace(st: MiniCMachine.State, end: MiniCMachine.State, v: Int32, tr: Trace)
    requires BackHome(st, end, v, tr)
    ensures end.tr == tr
  {
  }

  /** No run reads an undefined register or cell, jumps outside the code, or
      reaches a call with a misaligned stack. */
  lemma NeverStuck(w: World, p: Program, m: Linked, f: string, vs: seq<Int32>, st: MiniCMachine.State, k: nat)
    requires Compiled(p, m) && Callable(p, f, vs) && Started(m, f, vs, st)
    ensures !Run(w, m, st, k).Stuck?
  {
    hide Run, Source, Compiled, Callable, Started;
    var k', end := Simulates(w, p, m, f, vs, st, k + 1);
    if Run(w, m, st, k).Stuck? {
      if Source(w, p, f, vs, k + 1).CTimeout? {
        RunStops(w, m, st, k, k');
      } else {
        OneEnd(w, m, st, k, k');
      }
    }
  }

  /** Likewise an accepted source program never goes wrong: it reads no undeclared
      variable and meets no `break` or `continue` outside a loop. */
  lemma NeverWrong(w: World, p: Program, m: Linked, f: string, vs: seq<Int32>, st: MiniCMachine.State, fuel: nat)
    requires Compiled(p, m) && Callable(p, f, vs) && Started(m, f, vs, st)
    ensures !Source(w, p, f, vs, fuel).CWrong?
  {
    hide Run, Source, Compiled, Callable, Started;
    var k', end := Simulates(w, p, m, f, vs, st, fuel);
  }
}
