/** Money as int64 minor units, exact decimals, half-even conversion and the basis-point fee. */
module Money {
  import opened Core

  // ---------- int64 ----------

  const TWO63: int := 0x8000_0000_0000_0000
  const TWO64: int := 0x1_0000_0000_0000_0000

  predicate FitsInt64(x: int) {
    -TWO63 <= x < TWO63
  }

  type Int64 = x: int | FitsInt64(x) witness 0

  /** Two's-complement wrap-around of a Go int64 result. */
  function Wrap64(x: int): (r: Int64)
    ensures (x - r) % TWO64 == 0
    ensures FitsInt64(x) ==> r == x
  {
    (x + TWO63) % TWO64 - TWO63
  }

  /** Go's integer quotient and remainder truncate toward zero. */
  function GoDiv(a: int, b: int): (q: int)
    requires b > 0
  {
    if a >= 0 then a / b else -((-a) / b)
  }

  function GoMod(a: int, b: int): int
    requires b > 0
  {
    a - b * GoDiv(a, b)
  }

  // ---------- decimals ----------

  function Pow10(n: nat): (p: nat)
    ensures p >= 1
  {
    if n == 0 then 1 else 10 * Pow10(n - 1)
  }

  /** v times ten to the power e, for any integer e. */
  ghost function Scaled(v: real, e: int): real
    decreases if e < 0 then -e else e
  {
    if e == 0 then v else if e > 0 then 10.0 * Scaled(v, e - 1) else Scaled(v, e + 1) / 10.0
  }

  /** The integer nearest to n/d, ties to the even neighbour. */
  function HalfEven(n: int, d: int): int
    requires d > 0
  {
    var q, r := n / d, n % d;
    if 2 * r < d || (2 * r == d && q % 2 == 0) then q else q + 1
  }

  datatype Decimal = Decimal(coef: int, exp: int) {
    ghost function Value(): real {
      Scaled(coef as real, exp)
    }

    function Mul(other: Decimal): Decimal {
      Decimal(coef * other.coef, exp + other.exp)
    }

    function Shift(places: int): Decimal {
      Decimal(coef, exp + places)
    }

    function RoundBank(): int {
      if exp >= 0 then coef * Pow10(exp) else HalfEven(coef, Pow10(-exp))
    }
  }

  // ---------- money ----------

  /** A currency code; every code other than the four supported ones is `Unknown`. */
  datatype Currency = KRW | USD | JPY | EUR | Unknown(code: string)

  predicate Supported(c: Currency) {
    !c.Unknown?
  }

  /** Minor-unit digits; an unknown code scales by zero. */
  function Scale(c: Currency): nat {
    if c == USD || c == EUR then 2 else 0
  }

  datatype Money = Money(currency: Currency, minor: Int64) {
    function DecimalAmount(): Decimal {
      Decimal(minor, 0).Shift(0 - Scale(currency))
    }

    function Add(other: Money): Result<Money> {
      if currency != other.currency then Err(Validation)
      else Ok(Money(currency, Wrap64(minor + other.minor)))
    }
  }

  function NewMoney(currency: Currency, minor: Int64): Result<Money> {
    if Supported(currency) then Ok(Money(currency, minor)) else Err(Validation)
  }

  /** The converted amount in minor units of `target`, before it is narrowed to int64. */
  function ConvertedUnits(base: Money, target: Currency, rate: Decimal): int {
    base.DecimalAmount().Mul(rate).Shift(Scale(target)).RoundBank()
  }

  function Convert(base: Money, target: Currency, rate: Decimal): Result<Money> {
    if base.minor <= 0 then Err(Validation)
    else if rate.coef <= 0 then Err(Validation)
    else NewMoney(target, Wrap64(ConvertedUnits(base, target, rate)))
  }

  function FeeFromBPS(base: Money, feeBPS: Int64, minimum: Money): Result<Money> {
    if base.currency != minimum.currency then Err(Validation)
    else if feeBPS < 0 then Err(Validation)
    else
      var product := Wrap64(base.minor * feeBPS);
      var quotient := GoDiv(product, 10000);
      var calculated := if GoMod(product, 10000) != 0 then quotient + 1 else quotient;
      NewMoney(base.currency, if calculated < minimum.minor then minimum.minor else calculated)
  }
}
