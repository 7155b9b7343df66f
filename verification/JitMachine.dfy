/** The part of an x86-64 processor the expression compiler relies on: words,
    instruction bytes and what they do. Memory is read and written in aligned
    eight-byte cells; anything outside the modelled encodings is `Stuck`. */
module JitMachine {
  import opened Arithmetic
  import opened ByteStrings
  import opened Wrappers

  const TWO63: int := 0x8000_0000_0000_0000
  const TWO64: int := 0x1_0000_0000_0000_0000

  type Int64 = x: int | -0x8000_0000_0000_0000 <= x < 0x8000_0000_0000_0000

  function Wrap64(x: int): (r: Int64)
    ensures -TWO63 <= x < TWO63 ==> r == x
  {
    (x + 0x8000_0000_0000_0000) % 0x1_0000_0000_0000_0000 - 0x8000_0000_0000_0000
  }

  function Add64(a: int, b: int): Int64 { Wrap64(a + b) }
  function Sub64(a: int, b: int): Int64 { Wrap64(a - b) }
  function Mul64(a: int, b: int): Int64 { Wrap64(a * b) }

  // ----- little-endian immediates -----

  /** The low k bytes of n, lowest first. */
  function LittleEndian(n: nat, k: nat): seq<Byte> {
    if k == 0 then [] else [n % 256] + LittleEndian(n / 256, k - 1)
  }

  function FromBytes(bs: seq<Byte>): nat {
    if bs == [] then 0 else bs[0] + 256 * FromBytes(bs[1..])
  }

  function Pow256(k: nat): nat {
    if k == 0 then 1 else 256 * Pow256(k - 1)
  }

  lemma {:induction false} BytesRoundTrip(n: nat, k: nat)
    requires n < Pow256(k)
    ensures |LittleEndian(n, k)| == k && FromBytes(LittleEndian(n, k)) == n
  {
    if k > 0 {
      BytesRoundTrip(n / 256, k - 1);
      assert LittleEndian(n, k)[1..] == LittleEndian(n / 256, k - 1);
    }
  }

  // ----- instructions -----

  /** Registers by their number in an instruction. */
  const RAX := 0
  const RDX := 2
  const RBX := 3
  const RSP := 4
  const RDI := 7
  type Reg = x: int | 0 <= x < 8

  datatype Instr =
    | MovImm(dst: Reg, imm: Int64)
    | Load(dst: Reg, base: Reg, disp: int)
    | Push(src: Reg)
    | Pop(dst: Reg)
    | Add(dst: Reg, src: Reg)
    | Sub(dst: Reg, src: Reg)
    | Imul(dst: Reg, src: Reg)
    | Cqo
    | Idiv(src: Reg)
    | Neg(dst: Reg)
    | Ret

  /** An instruction and its length in bytes. */
  datatype Decoded = Decoded(instr: Instr, len: nat)

  function At(code: seq<Byte>, i: nat): int {
    if i < |code| then code[i] else -1
  }

  /** Fields of a ModRM byte. */
  function Mod(b: Byte): int { b / 64 }
  function RegField(b: Byte): Reg { b / 8 % 8 }
  function RmField(b: Byte): Reg { b % 8 }

  function SignExtend32(n: int): int { if n >= 0x8000_0000 then n - 0x1_0000_0000 else n }

  /** The instruction at an address. */
  function Decode(code: seq<Byte>, ip: nat): Option<Decoded> {
    var b := At(code, ip);
    if 0x50 <= b < 0x58 then Some(Decoded(Push(b - 0x50), 1))
    else if 0x58 <= b < 0x60 then Some(Decoded(Pop(b - 0x58), 1))
    else if b == 0xC3 then Some(Decoded(Ret, 1))
    else if b == 0x48 then DecodeWide(code, ip)
    else None
  }

  /** After the REX.W prefix. */
  function DecodeWide(code: seq<Byte>, ip: nat): Option<Decoded> {
    var b := At(code, ip + 1);
    if 0xB8 <= b < 0xC0 then
      if ip + 10 <= |code| then Some(Decoded(MovImm(b - 0xB8, Wrap64(FromBytes(code[ip + 2..ip + 10]))), 10)) else None
    else if b == 0x99 then Some(Decoded(Cqo, 2))
    else if b == 0x8B then
      if ip + 7 <= |code| && Mod(code[ip + 2]) == 2 && RmField(code[ip + 2]) != 4
      then Some(Decoded(Load(RegField(code[ip + 2]), RmField(code[ip + 2]), SignExtend32(FromBytes(code[ip + 3..ip + 7]))), 7))
      else None
    else if b == 0x0F then
      if ip + 4 <= |code| && code[ip + 2] == 0xAF && Mod(code[ip + 3]) == 3
      then Some(Decoded(Imul(RegField(code[ip + 3]), RmField(code[ip + 3])), 4)) else None
    else if ip + 3 <= |code| && Mod(code[ip + 2]) == 3 then
      var m: Byte := code[ip + 2];
      if b == 0x01 then Some(Decoded(Add(RmField(m), RegField(m)), 3))
      else if b == 0x29 then Some(Decoded(Sub(RmField(m), RegField(m)), 3))
      else if b == 0xF7 && RegField(m) == 3 then Some(Decoded(Neg(RmField(m)), 3))
      else if b == 0xF7 && RegField(m) == 7 then Some(Decoded(Idiv(RmField(m)), 3))
      else None
    else None
  }

  // ----- execution -----

  type Regs = s: seq<Int64> | |s| == 8 witness [0, 0, 0, 0, 0, 0, 0, 0]
  type Memory = map<int, Int64>

  datatype State = State(ip: nat, regs: Regs, mem: Memory)

  /** `Done` is a return to the caller; `Fault` is the divide error. */
  datatype Step = Next(st: State) | Fault | Done(st: State) | Stuck

  predicate Readable(mem: Memory, a: int) { a % 8 == 0 && a in mem }

  function SetReg(st: State, r: Reg, v: Int64): State { st.(regs := st.regs[r := v]) }

  function Exec(st: State, i: Instr): Step {
    var r := st.regs;
    match i
    case MovImm(d, n) => Next(SetReg(st, d, n))
    case Load(d, b, disp) =>
      if Readable(st.mem, r[b] + disp) then Next(SetReg(st, d, st.mem[r[b] + disp])) else Stuck
    case Push(s) =>
      if r[RSP] < 8 || r[RSP] % 8 != 0 then Stuck
      else Next(st.(regs := r[RSP := r[RSP] - 8], mem := st.mem[r[RSP] - 8 := r[s]]))
    case Pop(d) =>
      if Readable(st.mem, r[RSP]) then Next(st.(regs := r[RSP := Add64(r[RSP], 8)][d := st.mem[r[RSP]]])) else Stuck
    case Add(d, s) => Next(SetReg(st, d, Add64(r[d], r[s])))
    case Sub(d, s) => Next(SetReg(st, d, Sub64(r[d], r[s])))
    case Imul(d, s) => Next(SetReg(st, d, Mul64(r[d], r[s])))
    case Neg(d) => Next(SetReg(st, d, Sub64(0, r[d])))
    case Cqo => Next(SetReg(st, RDX, if r[RAX] < 0 then -1 else 0))
    case Idiv(s) => ExecDiv(st, r[s])
    case Ret => if Readable(st.mem, r[RSP]) then Done(st.(regs := r[RSP := Add64(r[RSP], 8)])) else Stuck
  }

  /** The 128-bit dividend rdx:rax over a word. */
  function ExecDiv(st: State, divisor: int): Step {
    var dividend: int := st.regs[RDX] * TWO64 + st.regs[RAX] % TWO64;
    if divisor == 0 then Fault
    else
      var q := TruncDiv(dividend, divisor);
      if -TWO63 <= q < TWO63
      then Next(st.(regs := st.regs[RAX := q][RDX := Wrap64(dividend - divisor * q)]))
      else Fault
  }

  function StepOnce(code: seq<Byte>, st: State): Step {
    match Decode(code, st.ip)
    case None => Stuck
    case Some(d) => Exec(st.(ip := st.ip + d.len), d.instr)
  }

  function Run(code: seq<Byte>, st: State, k: nat): Step
    decreases k
  {
    if k == 0 then Next(st)
    else match StepOnce(code, st)
      case Next(st1) => Run(code, st1, k - 1)
      case r => r
  }

  lemma {:induction false} RunTrans(code: seq<Byte>, st: State, a: nat, mid: State, b: nat)
    requires Run(code, st, a) == Next(mid)
    ensures Run(code, st, a + b) == Run(code, mid, b)
    decreases a
  {
    hide StepOnce;
    if a > 0 {
      RunTrans(code, StepOnce(code, st).st, a - 1, mid, b);
    }
  }

  lemma {:induction false} RunStops(code: seq<Byte>, st: State, a: nat, b: nat)
    requires a <= b && !Run(code, st, a).Next?
    ensures Run(code, st, b) == Run(code, st, a)
    decreases a
  {
    hide StepOnce;
    if a > 0 && StepOnce(code, st).Next? {
      RunStops(code, StepOnce(code, st).st, a - 1, b - 1);
    }
  }

  lemma RunOne(code: seq<Byte>, st: State)
    ensures Run(code, st, 1) == StepOnce(code, st)
  {
    hide StepOnce;
    var s := StepOnce(code, st);
    if s.Next? {
      assert Run(code, s.st, 0) == Next(s.st);
    }
  }

  // ----- code at an address -----

  ghost predicate Holds(code: seq<Byte>, ip: nat, bytes: seq<Byte>) {
    ip + |bytes| <= |code| && code[ip..ip + |bytes|] == bytes
  }

  lemma HoldsSplit(code: seq<Byte>, ip: nat, a: seq<Byte>, b: seq<Byte>)
    requires Holds(code, ip, a + b)
    ensures Holds(code, ip, a) && Holds(code, ip + |a|, b)
  {
    var s := code[ip..ip + |a + b|];
    assert code[ip..ip + |a|] == s[..|a|];
    assert code[ip + |a|..ip + |a| + |b|] == s[|a|..];
  }

  lemma HoldsAt(code: seq<Byte>, ip: nat, bytes: seq<Byte>, i: nat)
    requires Holds(code, ip, bytes) && i < |bytes|
    ensures At(code, ip + i) == code[ip + i] == bytes[i]
  {
    assert code[ip + i] == code[ip..ip + |bytes|][i];
  }
}
