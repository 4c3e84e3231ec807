/** The Rate lookups: `DatabaseRateDao` queries by example with only the
    product id set; `FakeRateDao` returns two fixed rate bands. Rate's bean
    properties are spelled out here as the introspector reports them; their
    order is left open. */
module RateDao {
  import opened Wrappers
  import opened Values
  import opened Model
  import opened Reflection
  import opened QueryBuilder
  import QueryProperties
  import Seqs

  const RateClassName := "com.celerity.censusmodel.model.Rate"

  /** `getClass()`: readable, not writable. */
  const ClassProperty := Descriptor("class", true, false, false)
  const IdProperty := Descriptor("id", true, true, false)
  const MinAgeProperty := Descriptor("minAge", true, true, false)
  const MaxAgeProperty := Descriptor("maxAge", true, true, false)
  const ProductIdProperty := Descriptor("productId", true, true, false)
  const RateProperty := Descriptor("rate", true, true, false)

  const RateProperties: set<Descriptor> :=
    {ClassProperty, IdProperty, MinAgeProperty, MaxAgeProperty, ProductIdProperty, RateProperty}

  /** A descriptor sequence the introspector may report for `Rate`: each of
      its six properties exactly once, in any order. */
  predicate IsRateIntrospection(ds: seq<Descriptor>) {
    && (forall i :: 0 <= i < |ds| ==> ds[i] in RateProperties)
    && ClassProperty in ds && IdProperty in ds && MinAgeProperty in ds
    && MaxAgeProperty in ds && ProductIdProperty in ds && RateProperty in ds
    && (forall i, j :: 0 <= i < j < |ds| ==> ds[i] != ds[j])
  }

  /** `Rate.class`: an `@Entity`. */
  function RateClass(ds: seq<Descriptor>): ClassInfo {
    ClassInfo(true, RateClassName, ds)
  }

  function BoxInteger(v: Option<Int32>): Option<Value> {
    if v.Some? then Some(IntegerValue(v.value)) else None
  }

  function BoxLong(v: Option<Int64>): Option<Value> {
    if v.Some? then Some(LongValue(v.value)) else None
  }

  function BoxDecimal(v: Option<Decimal>): Option<Value> {
    if v.Some? then Some(DecimalValue(v.value)) else None
  }

  /** Invoking the getter of the named property on a Rate; `None` for a null
      result or a name that is not a property of Rate. */
  function RateGetter(r: Rate, name: string): Option<Value> {
    if name == "class" then Some(ClassRef(RateClassName))
    else if name == "id" then BoxLong(GetRateId(r))
    else if name == "minAge" then BoxInteger(GetMinAge(r))
    else if name == "maxAge" then BoxInteger(GetMaxAge(r))
    else if name == "productId" then BoxInteger(GetProductId(r))
    else if name == "rate" then BoxDecimal(GetRate(r))
    else None
  }

  const RatePropertyNames: set<string> := {"class", "id", "minAge", "maxAge", "productId", "rate"}

  /** A Rate seen through reflection, with the given introspection order. */
  function RateExample(r: Rate, ds: seq<Descriptor>): (e: Example)
    ensures e.cls == RateClass(ds)
    ensures forall name :: Read(e, name) == RateGetter(r, name)
  {
    var values := map name | name in RatePropertyNames && RateGetter(r, name).Some? :: RateGetter(r, name).value;
    Example(RateClass(ds), values)
  }

  /** The example `findRatesByProductId` builds: a new Rate with only the
      product id set. */
  function ProductIdExample(productId: Option<Int32>): (r: Rate)
    ensures GetProductId(r) == productId
    ensures GetRateId(r).None? && GetMinAge(r).None? && GetMaxAge(r).None? && GetRate(r).None?
  {
    SetProductId(NewRate(), productId)
  }

  /** No property of Rate is boolean, so every field name is computable. */
  lemma RatePropertiesRenderable(ds: seq<Descriptor>)
    requires forall i :: 0 <= i < |ds| ==> ds[i] in RateProperties
    ensures QueryProperties.Renderable(ReadWrite(ds))
  {
    var rw := ReadWrite(ds);
    forall i | 0 <= i < |rw|
      ensures !rw[i].isBooleanType
    {
      var j :| 0 <= j < |ds| && ds[j] == rw[i];
      assert ds[j] in RateProperties;
    }
  }

  /** What reflection reads for each of Rate's properties. */
  lemma RateGetters(r: Rate)
    ensures RateGetter(r, ClassProperty.name) == Some(ClassRef(RateClassName))
    ensures RateGetter(r, IdProperty.name) == BoxLong(GetRateId(r))
    ensures RateGetter(r, MinAgeProperty.name) == BoxInteger(GetMinAge(r))
    ensures RateGetter(r, MaxAgeProperty.name) == BoxInteger(GetMaxAge(r))
    ensures RateGetter(r, ProductIdProperty.name) == BoxInteger(GetProductId(r))
    ensures RateGetter(r, RateProperty.name) == BoxDecimal(GetRate(r))
  {
  }

  /** Whether a Rate property, read from example `e` of Rate `r`, contributes
      a criterion: it must be read/write and its getter must return non-null. */
  lemma RatePropertyQualifies(r: Rate, e: Example, x: Descriptor)
    requires e.values == RateExample(r, e.cls.descriptors).values
    requires x in RateProperties
    ensures IsReadWrite(x) && QueryProperties.Qualifies(e)(x)
        <==> x != ClassProperty && RateGetter(r, x.name).Some?
  {
    assert Read(e, x.name) == RateGetter(r, x.name);
  }

  /** For a Rate whose only non-null property is `d`, the query filters on
      `d` alone, whatever order the introspector reports. */
  lemma SinglePropertyRateQuery(r: Rate, ds: seq<Descriptor>, d: Descriptor)
    requires IsRateIntrospection(ds)
    requires d in RateProperties && d != ClassProperty
    requires RateGetter(r, d.name).Some?
    requires forall i :: 0 <= i < |ds| && ds[i] != ClassProperty && ds[i] != d ==> RateGetter(r, ds[i].name).None?
    ensures ExampleQuery(RateExample(r, ds))
         == Success(Query("from " + RateClassName + " where " + d.name + " = ?", [RateGetter(r, d.name).value]))
  {
    var e := RateExample(r, ds);
    var both := (x: Descriptor) => IsReadWrite(x) && QueryProperties.Qualifies(e)(x);
    Seqs.FilterFilter(IsReadWrite, QueryProperties.Qualifies(e), both, ds);
    forall i | 0 <= i < |ds|
      ensures both(ds[i]) <==> ds[i] == d
    {
      RatePropertyQualifies(r, e, ds[i]);
    }
    Seqs.FilterSingle(both, ds, d);
    RatePropertiesRenderable(ds);
    QueryProperties.SingleCriterionQuery(e, d, RateGetter(r, d.name).value);
  }

  /** The where clauses the Rate lookups produce, spelled out. */
  lemma ByProductIdText(head: string)
    ensures head + " where " + ProductIdProperty.name + " = ?" == head + " where productId = ?"
  {
    assert " where " + "productId" == " where productId";
    assert " where productId" + " = ?" == " where productId = ?";
  }

  lemma ByIdText(head: string)
    ensures head + " where " + IdProperty.name + " = ?" == head + " where id = ?"
  {
    assert " where " + "id" == " where id";
    assert " where id" + " = ?" == " where id = ?";
  }

  /** The query `findRatesByProductId(p)` runs for a non-null `p`. */
  lemma ProductIdQuery(p: Int32, ds: seq<Descriptor>)
    requires IsRateIntrospection(ds)
    ensures ExampleQuery(RateExample(ProductIdExample(Some(p)), ds))
         == Success(Query("from " + RateClassName + " where productId = ?", [IntegerValue(p)]))
  {
    var r := ProductIdExample(Some(p));
    RateGetters(r);
    forall i | 0 <= i < |ds| && ds[i] != ClassProperty && ds[i] != ProductIdProperty
      ensures RateGetter(r, ds[i].name).None?
    {
      assert ds[i] in RateProperties;
      assert ds[i] in {IdProperty, MinAgeProperty, MaxAgeProperty, RateProperty};
    }
    SinglePropertyRateQuery(r, ds, ProductIdProperty);
    ByProductIdText("from " + RateClassName);
  }

  /** A Rate with only its inherited `id` set is queried by `id`: the id is a
      read/write property and is not reserved. */
  lemma IdQuery(id: Int64, ds: seq<Descriptor>)
    requires IsRateIntrospection(ds)
    ensures ExampleQuery(RateExample(SetRateId(NewRate(), Some(id)), ds))
         == Success(Query("from " + RateClassName + " where id = ?", [LongValue(id)]))
  {
    var r := SetRateId(NewRate(), Some(id));
    RateGetters(r);
    forall i | 0 <= i < |ds| && ds[i] != ClassProperty && ds[i] != IdProperty
      ensures RateGetter(r, ds[i].name).None?
    {
      assert ds[i] in RateProperties;
      assert ds[i] in {MinAgeProperty, MaxAgeProperty, ProductIdProperty, RateProperty};
    }
    SinglePropertyRateQuery(r, ds, IdProperty);
    ByIdText("from " + RateClassName);
  }

  /** The query `findRatesByProductId(null)` runs: every Rate, no parameters.
      The non-null `class` property is read-only and so never a filter. */
  lemma NullProductIdQuery(ds: seq<Descriptor>)
    requires forall i :: 0 <= i < |ds| ==> ds[i] in RateProperties
    ensures ExampleQuery(RateExample(ProductIdExample(None), ds))
         == Success(Query("from " + RateClassName, []))
  {
    var r := ProductIdExample(None);
    var e := RateExample(r, ds);
    RateGetters(r);
    forall i | 0 <= i < |ds|
      ensures !(IsReadWrite(ds[i]) && QueryProperties.Qualifies(e)(ds[i]))
    {
      RatePropertyQualifies(r, e, ds[i]);
    }
    RatePropertiesRenderable(ds);
    QueryProperties.NoCriteriaQuery(e);
  }

  lemma SingleBinding(v: Value)
    ensures Bindings([v]) == [Binding(1, v)]
  {
  }

  /** `DatabaseRateDao.findRatesByProductId`: query by the example with only
      the product id set and pass on the query engine's answer. */
  method FindRatesByProductId(productId: Option<Int32>, ds: seq<Descriptor>,
                              run: (string, seq<Binding>) -> Result<seq<Rate>, string>)
    returns (rates: Result<seq<Rate>, DaoError>)
    ensures IsRateIntrospection(ds) && productId.Some? ==>
      rates == FromEngine(run("from " + RateClassName + " where productId = ?",
                              [Binding(1, IntegerValue(productId.value))]))
    ensures IsRateIntrospection(ds) && productId.None? ==>
      rates == FromEngine(run("from " + RateClassName, []))
    ensures var q := ExampleQuery(RateExample(ProductIdExample(productId), ds));
      && (q.Failure? ==> rates == Failure(BuildFailed(q.error)))
      && (q.Success? ==> rates == FromEngine(run(q.value.text, Bindings(q.value.parameters))))
  {
    var example := ProductIdExample(productId);
    rates := GetByExample(RateExample(example, ds), run);
    if IsRateIntrospection(ds) {
      if productId.Some? {
        ProductIdQuery(productId.value, ds);
        SingleBinding(IntegerValue(productId.value));
      } else {
        NullProductIdQuery(ds);
      }
    }
  }

  /** `FakeRateDao.findRatesByProductId`: two fixed bands, ages 0-50 at 3333
      and 0-99 at 4444, built with the three-argument constructor. */
  function FakeFindRatesByProductId(productId: Option<Int32>): (rates: seq<Rate>)
    ensures |rates| == 2
    ensures forall i :: 0 <= i < |rates| ==>
      GetProductId(rates[i]).None? && GetRateId(rates[i]).None? && GetMinAge(rates[i]) == Some(0)
    ensures GetMaxAge(rates[0]) == Some(50) && GetRate(rates[0]) == Some(DecimalOf(3333))
    ensures GetMaxAge(rates[1]) == Some(99) && GetRate(rates[1]) == Some(DecimalOf(4444))
  {
    [NewRateWith(0, 50, Some(DecimalOf(3333))), NewRateWith(0, 99, Some(DecimalOf(4444)))]
  }

  /** The fake ignores its argument, and its bands are well formed. */
  lemma FakeRatesIgnoreProductId(p: Option<Int32>, q: Option<Int32>)
    ensures FakeFindRatesByProductId(p) == FakeFindRatesByProductId(q)
    ensures forall r :: r in FakeFindRatesByProductId(p) ==> GetMinAge(r).value <= GetMaxAge(r).value
  {
  }
}
