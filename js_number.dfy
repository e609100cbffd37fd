/** JavaScript numbers as the statistics code meets them: exact reals, plus the
    three non-finite values that a division by zero, a Math.min/Math.max over
    nothing or a read past the end of an array produce.  Rounding and signed
    zero are not modelled. */
module JsNumber {

  datatype Num = Finite(v: real) | PosInf | NegInf | NaN

  /** Number.MAX_VALUE, the largest finite double: (2^53 - 1) * 2^971. */
  const MaxValue: real := 179769313486231570814527423731704356798070567525844996598917476803157260780028538760589558632766878171540458953514382464234321326889464182768467546703537516986049910576551282076245490090389328944075868508455133942304583236903222948165808559332123348274797826204144723168738177180919299881250404026184124858368.0

  /** Number.MIN_VALUE, the smallest POSITIVE double: 2^-1074. */
  const MinValue: real := 1.0 / 202402253307310618352495346718917307049556649764142118356901358027430339567995346891960383701437124495187077864316811911389808737385793476867013399940738509921517424276566361364466907742093216341239767678472745068562007483424692698618103355649159556340810056512358769552333414615230502532186327508646006263307707741093494784.0

  /** 2^1024 - 2^970, halfway between Number.MAX_VALUE and 2^1024: the least magnitude that
      round-to-nearest sends to an infinity. */
  const OverflowBound: real := 179769313486231580793728971405303415079934132710037826936173778980444968292764750946649017977587207096330286416692887910946555547851940402630657488671505820681908902000708383676273854845817711531764475730270069855571366959622842914819860834936475292719074168444365510704342711559699508093042880177904174497792.0

  /** A real result stored as a double: an infinity once its magnitude reaches OverflowBound.
      Below that bound the result is kept exact. */
  function Overflow(a: real): Num
  {
    if a >= OverflowBound then PosInf
    else if a <= -OverflowBound then NegInf
    else Finite(a)
  }

  /** Math.trunc: rounds toward zero. */
  function Trunc(x: real): (t: int)
    ensures 0.0 <= x ==> t as real <= x < t as real + 1.0
    ensures x < 0.0 ==> t as real - 1.0 < x <= t as real
  {
    if x >= 0.0 then x.Floor else -((-x).Floor)
  }

  /** `x / y` for finite operands. */
  function Div(x: real, y: real): Num
  {
    if y != 0.0 then Finite(x / y)
    else if x > 0.0 then PosInf
    else if x < 0.0 then NegInf
    else NaN
  }

  /** The order of doubles on the values that are not NaN (NaN compares false). */
  predicate Le(x: Num, y: Num)
  {
    match (x, y)
    case (NaN, _) => false
    case (_, NaN) => false
    case (NegInf, _) => true
    case (_, PosInf) => true
    case (Finite(a), Finite(b)) => a <= b
    case _ => false
  }

  /** `x > c` for a finite constant c. */
  predicate Gt(x: Num, c: real)
  {
    match x
    case Finite(a) => a > c
    case PosInf => true
    case _ => false
  }

  /** Math.min of two numbers: NaN if either is NaN. */
  function Min(x: Num, y: Num): (m: Num)
    ensures m.NaN? <==> x.NaN? || y.NaN?
    ensures !m.NaN? ==> Le(m, x) && Le(m, y) && (m == x || m == y)
  {
    if x.NaN? || y.NaN? then NaN else if Le(x, y) then x else y
  }

  /** Math.max of two numbers: NaN if either is NaN. */
  function Max(x: Num, y: Num): (m: Num)
    ensures m.NaN? <==> x.NaN? || y.NaN?
    ensures !m.NaN? ==> Le(x, m) && Le(y, m) && (m == x || m == y)
  {
    if x.NaN? || y.NaN? then NaN else if Le(x, y) then y else x
  }

  /** `x / d` for a positive finite divisor; a quotient too large for a double overflows. */
  function DivBy(x: Num, d: real): Num
    requires d > 0.0
  {
    match x
    case Finite(a) => Overflow(a / d)
    case _ => x
  }

  /** `x * d` for a positive finite factor. */
  function Times(x: Num, d: real): Num
    requires d > 0.0
  {
    match x
    case Finite(a) => Finite(a * d)
    case _ => x
  }

  /** `c + x` for a finite constant c. */
  function Plus(c: real, x: Num): Num
  {
    match x
    case Finite(a) => Finite(c + a)
    case _ => x
  }

  /** Math.trunc on a number: infinities and NaN are left as they are. */
  function TruncNum(x: Num): Num
  {
    match x
    case Finite(a) => Finite(Trunc(a) as real)
    case _ => x
  }

  lemma LeTransitive(x: Num, y: Num, z: Num)
    requires Le(x, y) && Le(y, z)
    ensures Le(x, z)
  {
  }

  lemma MinValuePositive()
    ensures 0.0 < MinValue < 1.0 < MaxValue < OverflowBound
  {
  }
}
