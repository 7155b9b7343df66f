/** Signed 32-bit arithmetic as the mini-C language defines it: every operator
    wraps, division truncates toward zero and faults on a zero divisor and on the
    one quotient that does not fit. */
module MiniCWord {
  import opened Arithmetic
  import opened Wrappers
  import opened MiniCAst

  const TWO31: int := 0x8000_0000
  const TWO32: int := 0x1_0000_0000

  type Int32 = x: int | -0x8000_0000 <= x < 0x8000_0000

  function Wrap32(x: int): (r: Int32)
    ensures -TWO31 <= x < TWO31 ==> r == x
  {
    (x + 0x8000_0000) % 0x1_0000_0000 - 0x8000_0000
  }

  function Add32(a: int, b: int): Int32 { Wrap32(a + b) }
  function Sub32(a: int, b: int): Int32 { Wrap32(a - b) }
  function Mul32(a: int, b: int): Int32 { Wrap32(a * b) }

  function Truth(b: bool): Int32 { if b then 1 else 0 }

  function Bits(x: Int32): bv32 { (x % TWO32) as bv32 }

  function FromBits(b: bv32): Int32 { Wrap32(b as int) }

  function And32(a: Int32, b: Int32): Int32 { FromBits(Bits(a) & Bits(b)) }
  function Or32(a: Int32, b: Int32): Int32 { FromBits(Bits(a) | Bits(b)) }
  function Xor32(a: Int32, b: Int32): Int32 { FromBits(Bits(a) ^ Bits(b)) }

  function UnaryValue(op: UnaryOp, a: Int32): Int32 {
    match op
    case Neg => Sub32(0, a)
    case Not => Truth(a == 0)
    case BitNot => -1 - a
  }

  /** None is a fault. */
  function BinaryValue(op: BinaryOp, a: Int32, b: Int32): Option<Int32> {
    match op
    case Add => Some(Add32(a, b))
    case Sub => Some(Sub32(a, b))
    case Mul => Some(Mul32(a, b))
    case Div => if b == 0 || (a == -TWO31 && b == -1) then None else Some(Wrap32(TruncDiv(a, b)))
    case Mod => if b == 0 || (a == -TWO31 && b == -1) then None else Some(Wrap32(a - b * TruncDiv(a, b)))
    case Eq => Some(Truth(a == b))
    case Ne => Some(Truth(a != b))
    case Lt => Some(Truth(a < b))
    case Le => Some(Truth(a <= b))
    case Gt => Some(Truth(a > b))
    case Ge => Some(Truth(a >= b))
    case BitAnd => Some(And32(a, b))
    case BitOr => Some(Or32(a, b))
    case BitXor => Some(Xor32(a, b))
  }

  // ----- what the operators mean -----

  /** Wrapping changes a number by a multiple of 2^32. */
  lemma WrapMeans(x: int)
    ensures (Wrap32(x) - x) % 0x1_0000_0000 == 0
  {
  }

  /** Quotient and remainder: the remainder is smaller than the divisor and takes the
      dividend's sign. */
  lemma DivisionMeans(a: Int32, b: Int32)
    requires BinaryValue(Div, a, b).Some?
    ensures BinaryValue(Mod, a, b).Some? && b != 0
    ensures var q: int, r: int := BinaryValue(Div, a, b).value, BinaryValue(Mod, a, b).value;
      a == b * q + r && Abs(r) < Abs(b) && (r != 0 ==> (r < 0 <==> a < 0))
  {
    hide Wrap32;
    var q := TruncDiv(a, b);
    TruncParts(a, b);
    DivFits(a, b);
    WrapFits(q);
    WrapFits(a - b * q);
  }

  lemma WrapFits(x: int)
    ensures -TWO31 <= x < TWO31 ==> Wrap32(x) == x
  {
  }

  lemma TruncParts(a: int, b: int)
    requires b != 0
    ensures var r := a - b * TruncDiv(a, b); Abs(r) < Abs(b) && (r != 0 ==> (r < 0 <==> a < 0))
  {
    if a >= 0 {
      DivMod(a, b);
    } else {
      DivMod(-a, b);
      assert b * -(-a / b) == -(-a / b * b);
    }
  }

  /** The quotient fits unless it is the one that overflows. */
  lemma DivFits(a: Int32, b: Int32)
    requires b != 0
    ensures -TWO31 <= TruncDiv(a, b) < TWO31 <==> !(a == -TWO31 && b == -1)
  {
  }
}
