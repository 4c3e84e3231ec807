/** The persisted model: `BaseModel` (the inherited `id`) and `Rate`, a price
    for an age band of an insurance product. A Java reference field is an
    `Option`: `None` is null. Setters return the updated object. */
module Model {
  import opened Wrappers
  import opened Values

  /** Fields declared in `BaseModel`. */
  datatype BaseModel = BaseModel(id: Option<Int64>)

  /** `new BaseModel()`. */
  function NewBaseModel(): (b: BaseModel)
    ensures b.id.None?
  {
    BaseModel(None)
  }

  /** `new BaseModel(id)`; a null `Long` argument stores null. */
  function NewBaseModelWithId(id: Option<Int64>): (b: BaseModel)
    ensures GetId(b) == id
  {
    BaseModel(id)
  }

  function GetId(b: BaseModel): Option<Int64> {
    b.id
  }

  function SetId(b: BaseModel, id: Option<Int64>): (b': BaseModel)
    ensures GetId(b') == id
  {
    b.(id := id)
  }

  /** `setId` then `getId` returns what was set; setting the current value
      changes nothing; a second `setId` overrides the first. */
  lemma BaseModelAccessorLaws(b: BaseModel, x: Option<Int64>, y: Option<Int64>)
    ensures GetId(SetId(b, x)) == x
    ensures SetId(b, GetId(b)) == b
    ensures SetId(SetId(b, x), y) == SetId(b, y)
  {
  }

  /** `Rate extends BaseModel`: the inherited part plus Rate's own fields. */
  datatype Rate = Rate(
    base: BaseModel,
    minAge: Option<Int32>,
    maxAge: Option<Int32>,
    productId: Option<Int32>,
    rate: Option<Decimal>)

  /** `new Rate()`: every field, the inherited `id` included, is null. */
  function NewRate(): (r: Rate)
    ensures r.base == NewBaseModel()
    ensures r.minAge.None? && r.maxAge.None? && r.productId.None? && r.rate.None?
  {
    Rate(NewBaseModel(), None, None, None, None)
  }

  /** `new Rate(int minAge, int maxAge, BigDecimal rate)`: the ages are
      primitives, so they are boxed into non-null values; the rate is a
      reference and may be null. Nothing is validated. */
  function NewRateWith(minAge: Int32, maxAge: Int32, rate: Option<Decimal>): (r: Rate)
    ensures GetMinAge(r) == Some(minAge) && GetMaxAge(r) == Some(maxAge) && GetRate(r) == rate
    ensures GetProductId(r).None? && GetRateId(r).None?
  {
    Rate(NewBaseModel(), Some(minAge), Some(maxAge), None, rate)
  }

  function GetRateId(r: Rate): Option<Int64> { GetId(r.base) }
  function GetMinAge(r: Rate): Option<Int32> { r.minAge }
  function GetMaxAge(r: Rate): Option<Int32> { r.maxAge }
  function GetProductId(r: Rate): Option<Int32> { r.productId }
  function GetRate(r: Rate): Option<Decimal> { r.rate }

  /** The inherited `setId`, applied to a Rate. */
  function SetRateId(r: Rate, id: Option<Int64>): (r': Rate)
    ensures GetRateId(r') == id
    ensures GetMinAge(r') == GetMinAge(r) && GetMaxAge(r') == GetMaxAge(r)
    ensures GetProductId(r') == GetProductId(r) && GetRate(r') == GetRate(r)
  {
    r.(base := SetId(r.base, id))
  }

  function SetMinAge(r: Rate, v: Option<Int32>): (r': Rate)
    ensures GetMinAge(r') == v
    ensures GetRateId(r') == GetRateId(r) && GetMaxAge(r') == GetMaxAge(r)
    ensures GetProductId(r') == GetProductId(r) && GetRate(r') == GetRate(r)
  {
    r.(minAge := v)
  }

  function SetMaxAge(r: Rate, v: Option<Int32>): (r': Rate)
    ensures GetMaxAge(r') == v
    ensures GetRateId(r') == GetRateId(r) && GetMinAge(r') == GetMinAge(r)
    ensures GetProductId(r') == GetProductId(r) && GetRate(r') == GetRate(r)
  {
    r.(maxAge := v)
  }

  function SetProductId(r: Rate, v: Option<Int32>): (r': Rate)
    ensures GetProductId(r') == v
    ensures GetRateId(r') == GetRateId(r) && GetMinAge(r') == GetMinAge(r)
    ensures GetMaxAge(r') == GetMaxAge(r) && GetRate(r') == GetRate(r)
  {
    r.(productId := v)
  }

  function SetRate(r: Rate, v: Option<Decimal>): (r': Rate)
    ensures GetRate(r') == v
    ensures GetRateId(r') == GetRateId(r) && GetMinAge(r') == GetMinAge(r)
    ensures GetMaxAge(r') == GetMaxAge(r) && GetProductId(r') == GetProductId(r)
  {
    r.(rate := v)
  }

  /** Two rates with the same getter results are the same rate: the five
      getters observe the whole object, so the setter frames above are
      complete. */
  lemma {:induction false} RateExtensionality(a: Rate, b: Rate)
    requires GetRateId(a) == GetRateId(b) && GetMinAge(a) == GetMinAge(b) && GetMaxAge(a) == GetMaxAge(b)
    requires GetProductId(a) == GetProductId(b) && GetRate(a) == GetRate(b)
    ensures a == b
  {
    assert a.base == b.base;
  }

  /** Setting a field to the value it already holds changes nothing, and the
      last of two writes to the same field wins. */
  lemma RateSetterLaws(r: Rate, x: Option<Int32>, y: Option<Int32>, a: Option<Decimal>, b: Option<Decimal>,
                       i: Option<Int64>, j: Option<Int64>)
    ensures SetMinAge(r, GetMinAge(r)) == r && SetMinAge(SetMinAge(r, x), y) == SetMinAge(r, y)
    ensures SetMaxAge(r, GetMaxAge(r)) == r && SetMaxAge(SetMaxAge(r, x), y) == SetMaxAge(r, y)
    ensures SetProductId(r, GetProductId(r)) == r && SetProductId(SetProductId(r, x), y) == SetProductId(r, y)
    ensures SetRate(r, GetRate(r)) == r && SetRate(SetRate(r, a), b) == SetRate(r, b)
    ensures SetRateId(r, GetRateId(r)) == r && SetRateId(SetRateId(r, i), j) == SetRateId(r, j)
  {
  }

  /** The three-argument constructor is the empty constructor followed by the
      three matching setters. */
  lemma ConstructorIsSetters(minAge: Int32, maxAge: Int32, rate: Option<Decimal>)
    ensures NewRateWith(minAge, maxAge, rate)
         == SetRate(SetMaxAge(SetMinAge(NewRate(), Some(minAge)), Some(maxAge)), rate)
  {
  }

  /** The constructor accepts an inverted age band. */
  lemma ConstructorAcceptsInvertedBand()
    ensures var r := NewRateWith(65, 18, None);
      GetMinAge(r).value > GetMaxAge(r).value
  {
  }
}
