/** The expression compiler: hand-encoded bytes, proved against the evaluator. */
module JitCompiler {
  import opened Arithmetic
  import opened ByteStrings
  import opened Wrappers
  import opened JitMachine

  type Letter = c: char | 'a' <= c <= 'z' witness 'a'

  datatype Op = Plus | Minus | Times | Over

  datatype Expr = Num(value: nat) | Var(name: Letter) | BinOp(op: Op, left: Expr, right: Expr) | Negate(operand: Expr)

  // ----- the oracle -----

  function TruncatingDiv(a: int, b: int): int
    requires b != 0
  {
    var q := Abs(a) / Abs(b);
    if (a < 0) != (b < 0) then -q else q
  }

  /** None is a division by zero. */
  function Apply(op: Op, a: int, b: int): Option<int> {
    match op
    case Plus => Some(a + b)
    case Minus => Some(a - b)
    case Times => Some(a * b)
    case Over => if b == 0 then None else Some(TruncatingDiv(a, b))
  }

  type Vars = map<Letter, int>

  function Evaluate(e: Expr, vars: Vars): Option<int> {
    match e
    case Num(n) => Some(n)
    case Var(x) => Some(if x in vars then vars[x] else 0)
    case Negate(a) =>
      (match Evaluate(a, vars)
       case None => None
       case Some(v) => Some(-v))
    case BinOp(op, a, b) =>
      match Evaluate(a, vars)
      case None => None
      case Some(l) =>
        match Evaluate(b, vars)
        case None => None
        case Some(r) => Apply(op, l, r)
  }

  // ----- the encoders -----

  function Imm64(n: int): seq<Byte> { LittleEndian(n % TWO64, 8) }

  function Imm32(n: int): seq<Byte> { LittleEndian(n % 0x1_0000_0000, 4) }

  function MovRaxImm64(n: int): seq<Byte> { [0x48, 0xB8] + Imm64(n) }

  function MovRaxMemRdi(disp: int): seq<Byte> { [0x48, 0x8B, 0x87] + Imm32(disp) }

  const PUSH_RAX: seq<Byte> := [0x50]
  const POP_RAX: seq<Byte> := [0x58]
  const POP_RBX: seq<Byte> := [0x5B]
  const ADD_RAX_RBX: seq<Byte> := [0x48, 0x01, 0xD8]
  const SUB_RAX_RBX: seq<Byte> := [0x48, 0x29, 0xD8]
  const IMUL_RAX_RBX: seq<Byte> := [0x48, 0x0F, 0xAF, 0xC3]
  const CQO: seq<Byte> := [0x48, 0x99]
  const IDIV_RBX: seq<Byte> := [0x48, 0xF7, 0xFB]
  const NEG_RAX: seq<Byte> := [0x48, 0xF7, 0xD8]
  const RET: seq<Byte> := [0xC3]

  function OpCode(op: Op): seq<Byte> {
    match op
    case Plus => ADD_RAX_RBX
    case Minus => SUB_RAX_RBX
    case Times => IMUL_RAX_RBX
    case Over => CQO + IDIV_RBX
  }

  function VarSlot(name: Letter): (r: nat)
    ensures r < 26
  {
    name as int - 'a' as int
  }

  /** The code of an expression, as one byte string. */
  function Code(e: Expr): seq<Byte> {
    match e
    case Num(n) => MovRaxImm64(n) + PUSH_RAX
    case Var(x) => MovRaxMemRdi(VarSlot(x) * 8) + PUSH_RAX
    case Negate(a) => Code(a) + (POP_RAX + (NEG_RAX + PUSH_RAX))
    case BinOp(op, a, b) => Code(a) + (Code(b) + (POP_RBX + (POP_RAX + (OpCode(op) + PUSH_RAX))))
  }

  lemma Assoc(a: seq<Byte>, b: seq<Byte>, c: seq<Byte>)
    ensures (a + b) + c == a + (b + c)
  {
  }

  /** Appending pieces one by one appends their concatenation. */
  lemma AppendFour(o: seq<Byte>, a: seq<Byte>, b: seq<Byte>, c: seq<Byte>, d: seq<Byte>)
    ensures o + a + b + c + d == o + (a + (b + (c + d)))
  {
    Assoc(o + a + b, c, d);
    Assoc(o + a, b, c + d);
    Assoc(o, a, b + (c + d));
  }

  /** The output buffer. */
  class Buffer {
    var out: seq<Byte>

    constructor ()
      ensures out == []
    {
      out := [];
    }

    /** Appends the code of a node, operand by operand. */
    method Emit(node: Expr)
      modifies this
      ensures out == old(out) + Code(node)
      decreases node
    {
      hide MovRaxImm64, MovRaxMemRdi;
      ghost var o := out;
      match node
      case Num(n) =>
        out := out + MovRaxImm64(n);
        out := out + PUSH_RAX;
        Assoc(o, MovRaxImm64(n), PUSH_RAX);
      case Var(x) =>
        out := out + MovRaxMemRdi(VarSlot(x) * 8);
        out := out + PUSH_RAX;
        Assoc(o, MovRaxMemRdi(VarSlot(x) * 8), PUSH_RAX);
      case Negate(a) =>
        Emit(a);
        out := out + POP_RAX;
        out := out + NEG_RAX;
        out := out + PUSH_RAX;
        AppendFour(o, Code(a), POP_RAX, NEG_RAX, PUSH_RAX);
      case BinOp(op, a, b) =>
        Emit(a);
        Emit(b);
        out := out + POP_RBX;
        out := out + POP_RAX;
        ghost var half := out;
        if op == Over {
          out := out + CQO;
          out := out + IDIV_RBX;
          Assoc(half, CQO, IDIV_RBX);
        } else {
          out := out + OpCode(op);
        }
        out := out + PUSH_RAX;
        Assoc(half, OpCode(op), PUSH_RAX);
        AppendFour(o, Code(a), Code(b), POP_RBX, POP_RAX);
        AppendFour(o, Code(a), Code(b), POP_RBX, POP_RAX + (OpCode(op) + PUSH_RAX));
        Assoc(o + Code(a) + Code(b) + POP_RBX, POP_RAX, OpCode(op) + PUSH_RAX);
    }
  }

  method CompileToMachineCode(ast: Expr) returns (code: seq<Byte>)
    ensures code == Code(ast) + (POP_RAX + RET)
  {
    var b := new Buffer();
    b.Emit(ast);
    b.out := b.out + POP_RAX;
    b.out := b.out + RET;
    Assoc(Code(ast), POP_RAX, RET);
    return b.out;
  }

  // ----- what the processor computes: the oracle's tree on wrapping words -----

  function ApplyWord(op: Op, a: Int64, b: Int64): Option<Int64> {
    match op
    case Plus => Some(Add64(a, b))
    case Minus => Some(Sub64(a, b))
    case Times => Some(Mul64(a, b))
    case Over => if b == 0 || (a == -TWO63 && b == -1) then None else Some(Wrap64(TruncDiv(a, b)))
  }

  type Slots = s: seq<Int64> | |s| == 26 witness seq(26, _ => 0)

  function Value(e: Expr, slots: Slots): Option<Int64> {
    match e
    case Num(n) => Some(Wrap64(n))
    case Var(x) => Some(slots[VarSlot(x)])
    case Negate(a) =>
      (match Value(a, slots)
       case None => None
       case Some(v) => Some(Sub64(0, v)))
    case BinOp(op, a, b) =>
      match Value(a, slots)
      case None => None
      case Some(l) =>
        match Value(b, slots)
        case None => None
        case Some(r) => ApplyWord(op, l, r)
  }

  // ----- each encoding is the instruction it is meant to be -----

  lemma OneByteCodes(code: seq<Byte>, ip: nat)
    ensures Holds(code, ip, PUSH_RAX) ==> Decode(code, ip) == Some(Decoded(Push(RAX), 1))
    ensures Holds(code, ip, POP_RAX) ==> Decode(code, ip) == Some(Decoded(Pop(RAX), 1))
    ensures Holds(code, ip, POP_RBX) ==> Decode(code, ip) == Some(Decoded(Pop(RBX), 1))
    ensures Holds(code, ip, RET) ==> Decode(code, ip) == Some(Decoded(Ret, 1))
  {
    if ip < |code| {
      assert code[ip..ip + 1] == [code[ip]];
    }
  }

  lemma WideCodes(code: seq<Byte>, ip: nat)
    ensures Holds(code, ip, ADD_RAX_RBX) ==> Decode(code, ip) == Some(Decoded(Add(RAX, RBX), 3))
    ensures Holds(code, ip, SUB_RAX_RBX) ==> Decode(code, ip) == Some(Decoded(Sub(RAX, RBX), 3))
    ensures Holds(code, ip, NEG_RAX) ==> Decode(code, ip) == Some(Decoded(Neg(RAX), 3))
    ensures Holds(code, ip, IDIV_RBX) ==> Decode(code, ip) == Some(Decoded(Idiv(RBX), 3))
  {
    if ip + 3 <= |code| {
      assert code[ip..ip + 3] == [code[ip], code[ip + 1], code[ip + 2]];
    }
  }

  lemma OtherCodes(code: seq<Byte>, ip: nat)
    ensures Holds(code, ip, IMUL_RAX_RBX) ==> Decode(code, ip) == Some(Decoded(Imul(RAX, RBX), 4))
    ensures Holds(code, ip, CQO) ==> Decode(code, ip) == Some(Decoded(Cqo, 2))
  {
    if ip + 4 <= |code| {
      assert code[ip..ip + 4] == [code[ip], code[ip + 1], code[ip + 2], code[ip + 3]];
    }
    if ip + 2 <= |code| {
      assert code[ip..ip + 2] == [code[ip], code[ip + 1]];
    }
  }

  lemma ImmCode(code: seq<Byte>, ip: nat, n: int)
    requires Holds(code, ip, MovRaxImm64(n))
    ensures |MovRaxImm64(n)| == 10 && Decode(code, ip) == Some(Decoded(MovImm(RAX, Wrap64(n)), 10))
  {
    hide LittleEndian, FromBytes;
    assert Pow256(8) == TWO64;
    BytesRoundTrip(n % TWO64, 8);
    HoldsAt(code, ip, MovRaxImm64(n), 0);
    HoldsAt(code, ip, MovRaxImm64(n), 1);
    HoldsSplit(code, ip, [0x48, 0xB8], Imm64(n));
    WrapMod(n);
  }

  lemma WrapMod(n: int)
    ensures Wrap64(n % TWO64) == Wrap64(n)
  {
  }

  lemma MemCode(code: seq<Byte>, ip: nat, disp: nat)
    requires disp < 0x8000_0000 && Holds(code, ip, MovRaxMemRdi(disp))
    ensures |MovRaxMemRdi(disp)| == 7 && Decode(code, ip) == Some(Decoded(Load(RAX, RDI, disp), 7))
  {
    hide LittleEndian, FromBytes;
    assert Pow256(4) == 0x1_0000_0000;
    BytesRoundTrip(disp, 4);
    HoldsAt(code, ip, MovRaxMemRdi(disp), 0);
    HoldsAt(code, ip, MovRaxMemRdi(disp), 1);
    HoldsAt(code, ip, MovRaxMemRdi(disp), 2);
    HoldsSplit(code, ip, [0x48, 0x8B, 0x87], Imm32(disp));
  }
}
