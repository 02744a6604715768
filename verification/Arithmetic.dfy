/** 32-bit arithmetic of expressions: the operators of the assembler over int values that wrap. */
module Arithmetic {
  import opened Bytes

  const TWO_31 := 0x8000_0000
  const TWO_32 := 0x1_0000_0000

  predicate Int32(v: int) {
    -TWO_31 <= v < TWO_31
  }

  /** The value a 32-bit int holds after an unbounded result is stored in it. */
  function Wrap(v: int): (r: int)
    ensures Int32(r) && (Int32(v) ==> r == v)
    decreases if Int32(v) then 0 else if v < 0 then -v else v
  {
    if v < -TWO_31 then Wrap(v + TWO_32)
    else if v >= TWO_31 then Wrap(v - TWO_32)
    else v
  }

  /** Wrapping takes 2^32 off or adds it, and nothing else. */
  lemma {:induction false} WrapPeriod(v: int)
    ensures Wrap(v + TWO_32) == Wrap(v)
    decreases if Int32(v) then 0 else if v < 0 then -v else v
  {
    if v < -TWO_31 {
    } else if v >= TWO_31 {
    }
  }

  /** A wrapped value can be wrapped again after more is added. */
  lemma {:induction false} WrapAdd(v: int, c: int)
    ensures Wrap(Wrap(v) + c) == Wrap(v + c)
    decreases if Int32(v) then 0 else if v < 0 then -v else v
  {
    if v < -TWO_31 {
      WrapAdd(v + TWO_32, c);
      WrapPeriod(v + c);
    } else if v >= TWO_31 {
      WrapAdd(v - TWO_32, c);
      WrapPeriod(v - TWO_32 + c);
    }
  }

  lemma {:induction false} WrapTimes(v: int, n: nat, c: int)
    ensures Wrap(Wrap(v) * n + c) == Wrap(v * n + c)
    decreases n
  {
    if n > 0 {
      var w := Wrap(v);
      WrapTimes(v, n - 1, c + w);
      WrapAdd(v, v * (n - 1) + c);
      Distribute(w, n, c);
      Distribute(v, n, c);
      assert v * (n - 1) + (c + w) == w + (v * (n - 1) + c);
    }
  }

  lemma Distribute(v: int, n: int, c: int)
    ensures v * n + c == v * (n - 1) + (c + v)
  {
  }

  /** The bits of v read as an unsigned number. */
  function Unsigned(v: int): (r: nat)
    ensures r < TWO_32
  {
    if Wrap(v) < 0 then Wrap(v) + TWO_32 else Wrap(v)
  }

  datatype Gate = OnlyOne | Both | Either

  function Bit(g: Gate, a: nat, b: nat): nat {
    match g
    case OnlyOne => (a + b) % 2
    case Both => a * b % 2
    case Either => if a + b > 0 then 1 else 0
  }

  /** A bitwise operation on the n low bits of two numbers. */
  function Bitwise(g: Gate, a: nat, b: nat, n: nat): nat {
    if n == 0 then 0 else Bit(g, a % 2, b % 2) + 2 * Bitwise(g, a / 2, b / 2, n - 1)
  }

  function TwoTo(n: nat): (r: int)
    ensures r >= 1
  {
    if n == 0 then 1 else 2 * TwoTo(n - 1)
  }

  /** C division truncates toward zero, and the remainder takes the sign of the dividend. */
  function Quotient(a: int, b: int): int
    requires b != 0
  {
    if a >= 0 then a / b else -((-a) / b)
  }

  function Remainder(a: int, b: int): int
    requires b != 0
  {
    if a >= 0 then a % b else -((-a) % b)
  }

  /** Quotient and remainder belong together, as C has them. */
  lemma DivisionTruncates(a: int, b: int)
    requires b != 0
    ensures a == Quotient(a, b) * b + Remainder(a, b)
    ensures -Magnitude(b) < Remainder(a, b) < Magnitude(b)
    ensures if a >= 0 then Remainder(a, b) >= 0 else Remainder(a, b) <= 0
  {
    if a < 0 {
      NegatedDivision(-a, b);
    }
  }

  function Magnitude(v: int): int {
    if v < 0 then -v else v
  }

  lemma NegatedDivision(a: int, b: int)
    requires a >= 0 && b != 0
    ensures -a == -(a / b) * b - a % b
  {
    var q := a / b;
    assert a == q * b + a % b;
    assert -q * b == -(q * b);
  }

  /** The bit of weight 2^k. */
  function BitAt(a: nat, k: nat): nat {
    if k == 0 then a % 2 else BitAt(a / 2, k - 1)
  }

  /** Every bit of the result comes from the two bits of its weight. */
  lemma {:induction false} BitwiseAt(g: Gate, a: nat, b: nat, n: nat, k: nat)
    requires k < n
    ensures BitAt(Bitwise(g, a, b, n), k) == 1 <==>
      match g
      case OnlyOne => BitAt(a, k) != BitAt(b, k)
      case Both => BitAt(a, k) == 1 && BitAt(b, k) == 1
      case Either => BitAt(a, k) == 1 || BitAt(b, k) == 1
    decreases n
  {
    var low, rest := Bit(g, a % 2, b % 2), Bitwise(g, a / 2, b / 2, n - 1);
    GateBit(g, a % 2, b % 2);
    assert (low + 2 * rest) % 2 == low && (low + 2 * rest) / 2 == rest;
    if k > 0 { BitwiseAt(g, a / 2, b / 2, n - 1, k - 1); }
  }

  lemma GateBit(g: Gate, a: nat, b: nat)
    requires a < 2 && b < 2
    ensures Bit(g, a, b) < 2
    ensures Bit(g, a, b) == 1 <==>
      match g
      case OnlyOne => a != b
      case Both => a == 1 && b == 1
      case Either => a == 1 || b == 1
  {
  }

  datatype Op =
    | ShiftLeft | ShiftRight | And | Or | AtMost | AtLeast | Less | Greater | Equal | NotEqual
    | Add | Subtract | Multiply | Divide | Modulo | Xor | BitAnd | BitOr

  function Truth(b: bool): int {
    if b then 1 else 0
  }

  /** One operator on two values; nothing where C leaves the result undefined: a zero divisor, the
      one quotient that overflows and a shift by a negative or too large amount. */
  function Apply(op: Op, a: int, b: int): (r: Option<int>)
    ensures r.Some? ==> Int32(r.value)
  {
    match op
    case Add => Some(Wrap(a + b))
    case Subtract => Some(Wrap(a - b))
    case Multiply => Some(Wrap(a * b))
    case Divide => if b == 0 || (a == -TWO_31 && b == -1) then None else Some(Wrap(Quotient(a, b)))
    case Modulo => if b == 0 || (a == -TWO_31 && b == -1) then None else Some(Wrap(Remainder(a, b)))
    case Xor => Some(Wrap(Bitwise(OnlyOne, Unsigned(a), Unsigned(b), 32)))
    case BitAnd => Some(Wrap(Bitwise(Both, Unsigned(a), Unsigned(b), 32)))
    case BitOr => Some(Wrap(Bitwise(Either, Unsigned(a), Unsigned(b), 32)))
    case ShiftLeft => if 0 <= b < 32 then Some(Wrap(a * TwoTo(b))) else None
    case ShiftRight => if 0 <= b < 32 then Some(Wrap(a / TwoTo(b))) else None
    case And => Some(Truth(a != 0 && b != 0))
    case Or => Some(Truth(a != 0 || b != 0))
    case Less => Some(Truth(a < b))
    case Greater => Some(Truth(a > b))
    case AtMost => Some(Truth(a <= b))
    case AtLeast => Some(Truth(a >= b))
    case Equal => Some(Truth(a == b))
    case NotEqual => Some(Truth(a != b))
  }

  function Negate(v: int): int {
    Wrap(-v)
  }

  function Complement(v: int): int {
    Wrap(-v - 1)
  }
}
