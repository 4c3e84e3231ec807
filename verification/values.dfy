/** The Java values that flow through the query builder as bound parameters. */
module Values {

  /** `java.lang.Integer` payload. */
  newtype Int32 = x: int | -0x8000_0000 <= x < 0x8000_0000

  /** `java.lang.Long` payload. */
  newtype Int64 = x: int | -0x8000_0000_0000_0000 <= x < 0x8000_0000_0000_0000

  /** `java.math.BigDecimal`: the number `unscaled * 10^-scale`. */
  datatype Decimal = Decimal(unscaled: int, scale: int)

  /** `BigDecimal.valueOf(long)`: the long itself, with scale zero. */
  function DecimalOf(n: Int64): (d: Decimal)
    ensures d.scale == 0 && d.unscaled == n as int
  {
    Decimal(n as int, 0)
  }

  /** A non-null object returned by a getter. `ClassRef` is what `getClass()`
      returns: a reference to the class with the given canonical name. */
  datatype Value =
    | IntegerValue(i: Int32)
    | LongValue(l: Int64)
    | DecimalValue(d: Decimal)
    | ClassRef(name: string)
}
