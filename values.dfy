/**
  The calculator's runtime values (`struct variable`) and the operators over
  them: arithmetic with the Int/Double numeric tower, string concatenation,
  and the comparison family.

  The C struct is a union of `int`, `double` and `char *` with a separate
  `type` byte. Here it is a sum type, so a payload can only be read through
  its own kind. Doubles are modelled as exact reals.
*/
module Values {
  import opened Wrappers

  /** C `int` is 32 bits wide; signed overflow is undefined behaviour. */
  const INT_MIN: int := -0x8000_0000
  const INT_MAX: int := 0x7fff_ffff

  predicate IsInt32(x: int) {
    INT_MIN <= x <= INT_MAX
  }

  type Int32 = x: int | IsInt32(x)

  /** The values of the `type` byte. */
  const NONE_TYPE: nat := 0
  const INTEGER_TYPE: nat := 1
  const DOUBLE_TYPE: nat := 2
  const STRING_TYPE: nat := 3
  const ERROR_TYPE: nat := 9

  /** A tagged value. `Err` is the result tagged 9 by `sumOrConcat`. */
  datatype Value = Undef | Int(n: Int32) | Dbl(x: real) | Str(s: string) | Err

  function Tag(v: Value): nat {
    match v
    case Undef => NONE_TYPE
    case Int(_) => INTEGER_TYPE
    case Dbl(_) => DOUBLE_TYPE
    case Str(_) => STRING_TYPE
    case Err => ERROR_TYPE
  }

  /** Why an operator terminated the process (the C code calls `exit`). */
  datatype Fault = DivisionByZero | IncrementString | DecrementString

  /** The result of an operator that may terminate instead of returning. */
  datatype Outcome = Done(v: Value) | Exit(fault: Fault)

  // ---------------------------------------------------------------------
  // Tags and the numeric reading of a value: the reference against which
  // the operators are specified.
  // ---------------------------------------------------------------------

  predicate IsNumeric(v: Value) {
    v.Int? || v.Dbl?
  }

  /** The mathematical number a numeric value stands for. */
  function Num(v: Value): real
    requires IsNumeric(v)
  {
    if v.Int? then v.n as real else v.x
  }

  /** The numeric tower on tags: Int with Int stays Int, any Double widens to Double, anything else is an error. */
  function ArithTag(t1: nat, t2: nat): nat {
    if t1 == INTEGER_TYPE && t2 == INTEGER_TYPE then INTEGER_TYPE
    else if (t1 == INTEGER_TYPE || t1 == DOUBLE_TYPE) && (t2 == INTEGER_TYPE || t2 == DOUBLE_TYPE) then DOUBLE_TYPE
    else ERROR_TYPE
  }

  /** `+` additionally concatenates two strings. */
  function SumTag(t1: nat, t2: nat): nat {
    if t1 == STRING_TYPE && t2 == STRING_TYPE then STRING_TYPE else ArithTag(t1, t2)
  }

  // ---------------------------------------------------------------------
  // Arithmetic
  // ---------------------------------------------------------------------

  /** `sumOrConcat`: numeric addition, or concatenation of two strings into a fresh string. */
  function SumOrConcat(a: Value, b: Value): (r: Value)
    requires a.Int? && b.Int? ==> IsInt32(a.n + b.n)
    ensures Tag(r) == SumTag(Tag(a), Tag(b))
    ensures Tag(r) == ERROR_TYPE <==> !((a.Str? && b.Str?) || (IsNumeric(a) && IsNumeric(b)))
    ensures IsNumeric(r) ==> IsNumeric(a) && IsNumeric(b) && Num(r) == Num(a) + Num(b)
    ensures r.Str? ==> a.Str? && b.Str? && r.s == a.s + b.s
  {
    if a.Str? && b.Str? then Str(a.s + b.s)
    else if a.Int? && b.Int? then Int(a.n + b.n)
    else if a.Int? && b.Dbl? then Dbl(a.n as real + b.x)
    else if a.Dbl? && b.Int? then Dbl(a.x + b.n as real)
    else if a.Dbl? && b.Dbl? then Dbl(a.x + b.x)
    else Err
  }

  /** `sub`: numeric subtraction; a non-numeric operand gives `Err`. */
  function Sub(a: Value, b: Value): (r: Value)
    requires a.Int? && b.Int? ==> IsInt32(a.n - b.n)
    ensures Tag(r) == ArithTag(Tag(a), Tag(b))
    ensures IsNumeric(r) ==> IsNumeric(a) && IsNumeric(b) && Num(r) == Num(a) - Num(b)
  {
    if a.Int? && b.Int? then Int(a.n - b.n)
    else if a.Int? && b.Dbl? then Dbl(a.n as real - b.x)
    else if a.Dbl? && b.Int? then Dbl(a.x - b.n as real)
    else if a.Dbl? && b.Dbl? then Dbl(a.x - b.x)
    else Err
  }

  /** `mult`: numeric multiplication; a non-numeric operand gives `Err`. */
  function Mult(a: Value, b: Value): (r: Value)
    requires a.Int? && b.Int? ==> IsInt32(a.n * b.n)
    ensures Tag(r) == ArithTag(Tag(a), Tag(b))
    ensures IsNumeric(r) ==> IsNumeric(a) && IsNumeric(b) && Num(r) == Num(a) * Num(b)
  {
    if a.Int? && b.Int? then Int(a.n * b.n)
    else if a.Int? && b.Dbl? then Dbl(a.n as real * b.x)
    else if a.Dbl? && b.Int? then Dbl(a.x * b.n as real)
    else if a.Dbl? && b.Dbl? then Dbl(a.x * b.x)
    else Err
  }

  function Abs(x: int): nat {
    if x < 0 then -x else x
  }

  /**
    C's `/` on `int`: the quotient truncated toward zero. Dafny's own `/` is
    Euclidean, so it differs for a negative dividend.
  */
  function TruncDiv(x: int, y: int): (q: int)
    requires y != 0
    ensures Abs(x - q * y) < Abs(y)
    ensures 0 <= x ==> 0 <= x - q * y
    ensures x <= 0 ==> x - q * y <= 0
  {
    if (0 <= x) == (0 < y) then Abs(x) / Abs(y) else -(Abs(x) / Abs(y))
  }

  /** The divisors `divide` refuses. */
  predicate IsZero(v: Value) {
    v == Int(0) || v == Dbl(0.0)
  }

  /**
    `divide`: a zero divisor terminates before anything is computed;
    otherwise the numeric tower applies and Int by Int truncates toward zero.
  */
  function Divide(a: Value, b: Value): (r: Outcome)
    requires a.Int? && b.Int? && b.n != 0 ==> IsInt32(TruncDiv(a.n, b.n))
    ensures r.Exit? <==> IsZero(b)
    ensures r.Exit? ==> r.fault == DivisionByZero
    ensures r.Done? ==> Tag(r.v) == ArithTag(Tag(a), Tag(b))
    ensures r.Done? && r.v.Int? ==> a.Int? && b.Int? && r.v.n == TruncDiv(a.n, b.n)
    ensures r.Done? && r.v.Dbl? ==> IsNumeric(a) && IsNumeric(b) && Num(b) != 0.0 && Num(r.v) == Num(a) / Num(b)
  {
    if IsZero(b) then Exit(DivisionByZero)
    else if a.Int? && b.Int? then Done(Int(TruncDiv(a.n, b.n)))
    else if a.Int? && b.Dbl? then Done(Dbl(a.n as real / b.x))
    else if a.Dbl? && b.Int? then Done(Dbl(a.x / b.n as real))
    else if a.Dbl? && b.Dbl? then Done(Dbl(a.x / b.x))
    else Done(Err)
  }

  /** `inc`: adds one, keeping the kind; a string terminates. */
  function Inc(v: Value): (r: Outcome)
    requires v.Int? ==> v.n < INT_MAX
    ensures r.Exit? <==> v.Str?
    ensures r.Exit? ==> r.fault == IncrementString
    ensures r.Done? && IsNumeric(v) ==> Tag(r.v) == Tag(v) && IsNumeric(r.v) && Num(r.v) == Num(v) + 1.0
    ensures r.Done? && !IsNumeric(v) ==> r.v == Err
  {
    match v
    case Str(_) => Exit(IncrementString)
    case Int(n) => Done(Int(n + 1))
    case Dbl(x) => Done(Dbl(x + 1.0))
    case _ => Done(Err)
  }

  /** `dec`: subtracts one, keeping the kind; a string terminates. */
  function Dec(v: Value): (r: Outcome)
    requires v.Int? ==> INT_MIN < v.n
    ensures r.Exit? <==> v.Str?
    ensures r.Exit? ==> r.fault == DecrementString
    ensures r.Done? && IsNumeric(v) ==> Tag(r.v) == Tag(v) && IsNumeric(r.v) && Num(r.v) == Num(v) - 1.0
    ensures r.Done? && !IsNumeric(v) ==> r.v == Err
  {
    match v
    case Str(_) => Exit(DecrementString)
    case Int(n) => Done(Int(n - 1))
    case Dbl(x) => Done(Dbl(x - 1.0))
    case _ => Done(Err)
  }

  // ---------------------------------------------------------------------
  // Comparison
  // ---------------------------------------------------------------------

  /** Two strings with the same content. */
  predicate SameString(a: Value, b: Value) {
    a.Str? && b.Str? && a.s == b.s
  }

  /** `greaterNum`: numeric comparison with Int widened to Double; false for any other pairing. */
  function GreaterNum(a: Value, b: Value): (r: bool)
    ensures r <==> IsNumeric(a) && IsNumeric(b) && Num(a) > Num(b)
  {
    if a.Int? && b.Int? then a.n > b.n
    else if a.Dbl? && b.Dbl? then a.x > b.x
    else if a.Dbl? && b.Int? then a.x > b.n as real
    else if a.Int? && b.Dbl? then a.n as real > b.x
    else false
  }

  /** `equal`: numeric equality across Int and Double, or string content equality. */
  function Equal(a: Value, b: Value): (r: bool)
    ensures r <==> (IsNumeric(a) && IsNumeric(b) && Num(a) == Num(b)) || SameString(a, b)
  {
    if a.Int? && b.Int? then a.n == b.n
    else if a.Dbl? && b.Dbl? then a.x == b.x
    else if a.Dbl? && b.Int? then a.x == b.n as real
    else if a.Int? && b.Dbl? then a.n as real == b.x
    else if a.Str? && b.Str? then a.s == b.s
    else false
  }

  /**
    `lesserNum`: neither equal nor greater. On a non-numeric pairing this is
    true unless the two are equal strings.
  */
  function LesserNum(a: Value, b: Value): (r: bool)
    ensures IsNumeric(a) && IsNumeric(b) ==> (r <==> Num(a) < Num(b))
    ensures !(IsNumeric(a) && IsNumeric(b)) ==> (r <==> !SameString(a, b))
  {
    !Equal(a, b) && !GreaterNum(a, b)
  }

  /** `neqNum`: the negation of `equal`. */
  function NeqNum(a: Value, b: Value): (r: bool)
    ensures IsNumeric(a) && IsNumeric(b) ==> (r <==> Num(a) != Num(b))
    ensures !(IsNumeric(a) && IsNumeric(b)) ==> (r <==> !SameString(a, b))
  {
    !Equal(a, b)
  }

  /** `geqNum`: greater or equal. On a non-numeric pairing only equal strings qualify. */
  function GeqNum(a: Value, b: Value): (r: bool)
    ensures IsNumeric(a) && IsNumeric(b) ==> (r <==> Num(a) >= Num(b))
    ensures !(IsNumeric(a) && IsNumeric(b)) ==> (r <==> SameString(a, b))
  {
    GreaterNum(a, b) || Equal(a, b)
  }

  /** `leqNum`: lesser or equal, which always comes down to "not greater". */
  function LeqNum(a: Value, b: Value): (r: bool)
    ensures r <==> !GreaterNum(a, b)
    ensures IsNumeric(a) && IsNumeric(b) ==> (r <==> Num(a) <= Num(b))
  {
    LesserNum(a, b) || Equal(a, b)
  }

  // ---------------------------------------------------------------------
  // Type names
  // ---------------------------------------------------------------------

  /** The tag a type name stands for: the inverse of `VarType`. */
  function TagOfTypeName(name: string): Option<nat> {
    if name == "none" then Some(NONE_TYPE)
    else if name == "int" then Some(INTEGER_TYPE)
    else if name == "double" then Some(DOUBLE_TYPE)
    else if name == "string" then Some(STRING_TYPE)
    else None
  }

  /** `varType`: the name of a value's type tag; tags other than 0..3 have none. */
  function VarType(v: Value): (name: Option<string>)
    ensures name.Some? <==> Tag(v) <= STRING_TYPE
    ensures name.Some? ==> TagOfTypeName(name.value) == Some(Tag(v))
  {
    match v
    case Int(_) => Some("int")
    case Dbl(_) => Some("double")
    case Str(_) => Some("string")
    case Undef => Some("none")
    case Err => None
  }

  // ---------------------------------------------------------------------
  // Properties relating the operators
  // ---------------------------------------------------------------------

  lemma PositiveMultiple(a: nat, b: nat)
    requires 1 <= a
    ensures a * b >= b
  {
    assert a * b == (a - 1) * b + b;
  }

  /** A non-zero multiple of `y` is at least as large as `y`. */
  lemma NonZeroMultiple(d: int, y: int)
    requires d != 0
    ensures Abs(d * y) >= Abs(y)
  {
    PositiveMultiple(Abs(d), Abs(y));
    if d < 0 && y < 0 { assert d * y == (-d) * (-y); }
    else if d < 0 { assert d * y == -((-d) * y); }
    else if y < 0 { assert d * y == -(d * (-y)); }
  }

  /** The remainder rules of C's `/` leave exactly one quotient, so `TruncDiv` is that quotient. */
  lemma TruncDivUnique(x: int, y: int, q: int)
    requires y != 0
    requires Abs(x - q * y) < Abs(y)
    requires 0 <= x ==> 0 <= x - q * y
    requires x <= 0 ==> x - q * y <= 0
    ensures q == TruncDiv(x, y)
  {
    var t := TruncDiv(x, y);
    if q != t {
      assert (x - q * y) - (x - t * y) == (t - q) * y;
      NonZeroMultiple(t - q, y);
    }
  }

  /** Truncation is symmetric about zero, which Euclidean division is not. */
  lemma TruncDivOdd(x: int, y: int)
    requires y != 0
    ensures TruncDiv(-x, y) == -TruncDiv(x, y)
    ensures TruncDiv(x, -y) == -TruncDiv(x, y)
  {
  }

  /** For a non-negative dividend and a positive divisor the two divisions agree. */
  lemma TruncDivNonNegative(x: int, y: int)
    requires 0 <= x && 0 < y
    ensures TruncDiv(x, y) == x / y
  {
  }

  /** `inc` is addition of the integer one, for the kinds it accepts. */
  lemma IncIsSumWithOne(v: Value)
    requires IsNumeric(v)
    requires v.Int? ==> v.n < INT_MAX
    ensures Inc(v) == Done(SumOrConcat(v, Int(1)))
  {
  }

  /** `dec` is subtraction of the integer one, for the kinds it accepts. */
  lemma DecIsSubOne(v: Value)
    requires IsNumeric(v)
    requires v.Int? ==> INT_MIN < v.n
    ensures Dec(v) == Done(Sub(v, Int(1)))
  {
  }

  /** `dec` undoes `inc` on numbers. */
  lemma IncDecRoundTrip(v: Value)
    requires IsNumeric(v)
    requires v.Int? ==> v.n < INT_MAX
    ensures Inc(v).Done? && Dec(Inc(v).v) == Done(v)
  {
  }

  /** Numeric addition does not depend on operand order; concatenation does. */
  lemma SumOrConcatCommutesOnNumbers(a: Value, b: Value)
    requires IsNumeric(a) && IsNumeric(b)
    requires a.Int? && b.Int? ==> IsInt32(a.n + b.n)
    ensures SumOrConcat(a, b) == SumOrConcat(b, a)
  {
  }

  /** Concatenation keeps operand order and is associative. */
  lemma ConcatAssociative(a: string, b: string, c: string)
    ensures SumOrConcat(SumOrConcat(Str(a), Str(b)), Str(c)) == SumOrConcat(Str(a), SumOrConcat(Str(b), Str(c)))
    ensures SumOrConcat(Str(a), Str(b)).s[..|a|] == a
  {
    assert (a + b) + c == a + (b + c);
  }

  /** For two numbers exactly one of greater, equal and lesser holds. */
  lemma NumericTrichotomy(a: Value, b: Value)
    requires IsNumeric(a) && IsNumeric(b)
    ensures (if GreaterNum(a, b) then 1 else 0) + (if Equal(a, b) then 1 else 0) + (if LesserNum(a, b) then 1 else 0) == 1
  {
  }

  /** On two integers the comparison family is C's integer comparison. */
  lemma IntComparisons(a: Int32, b: Int32)
    ensures GreaterNum(Int(a), Int(b)) <==> a > b
    ensures Equal(Int(a), Int(b)) <==> a == b
    ensures LesserNum(Int(a), Int(b)) <==> a < b
    ensures NeqNum(Int(a), Int(b)) <==> a != b
    ensures GeqNum(Int(a), Int(b)) <==> a >= b
    ensures LeqNum(Int(a), Int(b)) <==> a <= b
  {
  }

  /** Undefined never compares equal or greater, and a string is never greater or less than anything by `greaterNum`. */
  lemma NonNumericComparisons(a: Value, b: Value)
    ensures a.Undef? || b.Undef? ==> !Equal(a, b) && !GreaterNum(a, b)
    ensures a.Str? || b.Str? ==> !GreaterNum(a, b) && !GreaterNum(b, a)
    ensures a.Undef? || b.Undef? ==> LesserNum(a, b) && LesserNum(b, a)
  {
  }

  /** `equal` is symmetric, and reflexive exactly on the kinds it compares. */
  lemma EqualIsSymmetric(a: Value, b: Value)
    ensures Equal(a, b) == Equal(b, a)
    ensures Equal(a, a) <==> IsNumeric(a) || a.Str?
  {
  }

  /** `greaterNum` is a strict order on numbers. */
  lemma GreaterNumIsStrictOrder(a: Value, b: Value, c: Value)
    ensures !GreaterNum(a, a)
    ensures GreaterNum(a, b) ==> !GreaterNum(b, a)
    ensures GreaterNum(a, b) && GreaterNum(b, c) ==> GreaterNum(a, c)
  {
  }
}
