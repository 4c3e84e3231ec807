/** The query-by-example builder of `BaseDao`: from an example object it builds
    the query text `from <Class> where f1 = ? and f2 = ? ...` and the list of
    values to bind to the placeholders, then hands both to the query engine. */
module QueryBuilder {
  import opened Wrappers
  import opened Values
  import opened Reflection
  import Seqs

  /** Property names that never become a filter. */
  predicate IsReserved(name: string) {
    name == "version" || name == "uniqueIdentifier"
  }

  /** One equality predicate: the field compared and the value bound to it. */
  datatype Criterion = Criterion(field: string, value: Value)

  /** The query text and the parameter list, in placeholder order. */
  datatype Query = Query(text: string, parameters: seq<Value>)

  /** The criteria the read/write descriptors `ds` of `e` contribute, in
      descriptor order: reserved properties are skipped, every other property
      has its field name computed (which fails for a boolean property with an
      empty name), and those whose getter returns null are skipped. Defined on
      the processed prefix, the way the builder's loop visits them. */
  function DiscoverCriteria(ds: seq<Descriptor>, e: Example): Result<seq<Criterion>, Error>
    decreases |ds|
  {
    if |ds| == 0 then Success([])
    else
      var prior :- DiscoverCriteria(ds[..|ds| - 1], e);
      VisitDescriptor(prior, ds[|ds| - 1], e)
  }

  /** One iteration of the builder's loop, on the criteria found so far. */
  function VisitDescriptor(prior: seq<Criterion>, d: Descriptor, e: Example): Result<seq<Criterion>, Error> {
    if IsReserved(d.name) then Success(prior)
    else match FieldName(d)
      case None => Failure(StringIndexOutOfBounds)
      case Some(field) =>
        match Read(e, d.name)
        case None => Success(prior)
        case Some(v) => Success(prior + [Criterion(field, v)])
  }

  /** Extending the processed prefix by one descriptor. */
  lemma DiscoverPrefixStep(ds: seq<Descriptor>, i: nat, e: Example)
    requires i < |ds|
    ensures DiscoverCriteria(ds[..i], e).Failure? ==> DiscoverCriteria(ds[..i + 1], e).Failure?
    ensures DiscoverCriteria(ds[..i], e).Success? ==>
      DiscoverCriteria(ds[..i + 1], e) == VisitDescriptor(DiscoverCriteria(ds[..i], e).value, ds[i], e)
  {
    assert ds[..i + 1][..i] == ds[..i];
  }

  function PredicateText(c: Criterion): string {
    c.field + " = ?"
  }

  /** Each criterion preceded by `" and "`. */
  function AndTail(cs: seq<Criterion>): string
    decreases |cs|
  {
    if |cs| == 0 then "" else " and " + PredicateText(cs[0]) + AndTail(cs[1..])
  }

  /** Nothing for no criteria; otherwise the first predicate preceded by
      `" where "` and every later one by `" and "`. */
  function WhereClause(cs: seq<Criterion>): string {
    if |cs| == 0 then "" else " where " + PredicateText(cs[0]) + AndTail(cs[1..])
  }

  function ParametersOf(cs: seq<Criterion>): (ps: seq<Value>)
    ensures |ps| == |cs|
  {
    seq(|cs|, k requires 0 <= k < |cs| => cs[k].value)
  }

  /** The query for an example: empty for a class that is not an entity,
      otherwise `from <canonical name>` followed by the where clause of the
      example's criteria. */
  function ExampleQuery(e: Example): Result<Query, Error> {
    if !e.cls.isEntity then Success(Query("", []))
    else match DiscoverCriteria(ReadWrite(e.cls.descriptors), e)
      case Failure(err) => Failure(err)
      case Success(cs) => Success(Query("from " + e.cls.canonicalName + WhereClause(cs), ParametersOf(cs)))
  }

  lemma {:induction false} AndTailSnoc(cs: seq<Criterion>, c: Criterion)
    ensures AndTail(cs + [c]) == AndTail(cs) + " and " + PredicateText(c)
    decreases |cs|
  {
    if |cs| == 0 {
      assert AndTail([c]) == " and " + PredicateText(c) + AndTail([]);
    } else {
      assert (cs + [c])[1..] == cs[1..] + [c];
      AndTailSnoc(cs[1..], c);
    }
  }

  /** Appending a criterion appends `" where "` before the first predicate
      and `" and "` before every later one. */
  lemma {:induction false} WhereClauseSnoc(cs: seq<Criterion>, c: Criterion)
    ensures WhereClause(cs + [c])
         == WhereClause(cs) + (if |cs| == 0 then " where " else " and ") + PredicateText(c)
  {
    if |cs| == 0 {
      assert cs + [c] == [c];
    } else {
      assert (cs + [c])[1..] == cs[1..] + [c];
      AndTailSnoc(cs[1..], c);
    }
  }

  /** Once a prefix of the descriptors fails, the whole sequence fails. */
  lemma {:induction false} DiscoverFailurePersists(ds: seq<Descriptor>, i: nat, e: Example)
    requires i <= |ds|
    requires DiscoverCriteria(ds[..i], e).Failure?
    ensures DiscoverCriteria(ds, e).Failure?
    decreases |ds| - i
  {
    if i < |ds| {
      assert ds[..i + 1][..i] == ds[..i];
      DiscoverFailurePersists(ds, i + 1, e);
    } else {
      assert ds[..i] == ds;
    }
  }

  /** A descriptor whose field name cannot be computed fails the whole query. */
  lemma FailureAtDescriptor(e: Example, ds: seq<Descriptor>, i: nat, cs: seq<Criterion>)
    requires e.cls.isEntity && ds == ReadWrite(e.cls.descriptors)
    requires i < |ds| && DiscoverCriteria(ds[..i], e) == Success(cs)
    requires VisitDescriptor(cs, ds[i], e).Failure?
    ensures ExampleQuery(e) == Failure(StringIndexOutOfBounds)
  {
    DiscoverPrefixStep(ds, i, e);
    DiscoverFailurePersists(ds, i + 1, e);
    assert DiscoverCriteria(ds, e).error.StringIndexOutOfBounds?;
  }

  /** The text the loop appends for one more criterion. */
  lemma AppendPredicate(head: string, cs: seq<Criterion>, c: Criterion)
    ensures head + WhereClause(cs) + (if |cs| == 0 then " where " else " and ") + c.field + " = ?"
         == head + WhereClause(cs + [c])
  {
    WhereClauseSnoc(cs, c);
  }

  lemma ParametersSnoc(cs: seq<Criterion>, c: Criterion)
    ensures ParametersOf(cs + [c]) == ParametersOf(cs) + [c.value]
  {
    var a := ParametersOf(cs + [c]);
    var b := ParametersOf(cs) + [c.value];
    assert |a| == |b|;
    forall k | 0 <= k < |a|
      ensures a[k] == b[k]
    {
      if k < |cs| {
        assert (cs + [c])[k] == cs[k];
      }
    }
  }

  /** `buildTypedExampleQueryString`, statement by statement. The third arm of
      `if (!isWhere) ... else if (needAnd)` never runs: `isWhere` and `needAnd`
      are always equal. */
  method BuildTypedExampleQueryString(e: Example) returns (r: Result<Query, Error>)
    ensures r == ExampleQuery(e)
  {
    var query := "";
    var list: seq<Value> := [];
    if e.cls.isEntity {
      query := "from " + e.cls.canonicalName;
      var isWhere := false;
      var needAnd := false;
      var descriptors := GetReadWritePropertyDescriptors(e.cls);
      ghost var cs: seq<Criterion> := [];
      var i := 0;
      while i < |descriptors|
        invariant 0 <= i <= |descriptors|
        invariant DiscoverCriteria(descriptors[..i], e) == Success(cs)
        invariant query == "from " + e.cls.canonicalName + WhereClause(cs)
        invariant list == ParametersOf(cs)
        invariant isWhere == needAnd == (|cs| > 0)
      {
        var descriptor := descriptors[i];
        DiscoverPrefixStep(descriptors, i, e);
        if descriptor.name != "version" && descriptor.name != "uniqueIdentifier" {
          var name := FieldName(descriptor);
          if name.None? {
            FailureAtDescriptor(e, descriptors, i, cs);
            return Failure(StringIndexOutOfBounds);
          }
          var value := Read(e, descriptor.name);
          if value.Some? {
            var c := Criterion(name.value, value.value);
            AppendPredicate("from " + e.cls.canonicalName, cs, c);
            ParametersSnoc(cs, c);
            list := list + [value.value];
            if !isWhere {
              isWhere := true;
              query := query + " where ";
            } else if needAnd {
              query := query + " and ";
            }
            query := query + name.value + " = ?";
            needAnd := true;
            cs := cs + [c];
          }
        }
        i := i + 1;
      }
      assert descriptors[..i] == descriptors;
    }
    return Success(Query(query, list));
  }

  /** A positional parameter setting: `setParameter(position, value)`. */
  datatype Binding = Binding(position: int, value: Value)

  /** The value a query engine sees for placeholder `pos`: the last value bound
      at that position, if any. */
  function PositionalValue(bs: seq<Binding>, pos: int): Option<Value>
    decreases |bs|
  {
    if |bs| == 0 then None
    else if bs[|bs| - 1].position == pos then Some(bs[|bs| - 1].value)
    else PositionalValue(bs[..|bs| - 1], pos)
  }

  /** Parameter `k` (from zero) bound at position `k + 1`. */
  function Bindings(ps: seq<Value>): (bs: seq<Binding>)
    ensures |bs| == |ps|
  {
    seq(|ps|, k requires 0 <= k < |ps| => Binding(k + 1, ps[k]))
  }

  /** Binding in order from position 1 makes placeholder `pos` see parameter
      `pos - 1` for every placeholder `1..n`, and nothing elsewhere. */
  lemma {:induction false} BindingsArePositional(ps: seq<Value>, pos: int)
    ensures PositionalValue(Bindings(ps), pos) == if 1 <= pos <= |ps| then Some(ps[pos - 1]) else None
    decreases |ps|
  {
    if |ps| > 0 {
      var ps' := ps[..|ps| - 1];
      assert Bindings(ps)[..|ps| - 1] == Bindings(ps');
      BindingsArePositional(ps', pos);
    }
  }

  /** The binding loop of `getByExample`: `setParameter(index++, obj)` for each
      parameter, starting at index 1. */
  method BindParameters(parameters: seq<Value>) returns (bs: seq<Binding>)
    ensures |bs| == |parameters|
    ensures forall k :: 0 <= k < |bs| ==> bs[k].position == k + 1 && bs[k].value == parameters[k]
    ensures forall pos :: PositionalValue(bs, pos) == if 1 <= pos <= |parameters| then Some(parameters[pos - 1]) else None
  {
    bs := [];
    var index := 1;
    var i := 0;
    while i < |parameters|
      invariant 0 <= i <= |parameters|
      invariant index == i + 1
      invariant bs == Bindings(parameters[..i])
    {
      var obj := parameters[i];
      bs := bs + [Binding(index, obj)];
      index := index + 1;
      i := i + 1;
    }
    assert parameters[..i] == parameters;
    forall pos
      ensures PositionalValue(bs, pos) == if 1 <= pos <= |parameters| then Some(parameters[pos - 1]) else None
    {
      BindingsArePositional(parameters, pos);
    }
  }

  /** Why `getByExample` threw: building the query failed, or the query
      engine (`createQuery`, `setParameter` or `getResultList`) threw with the
      given message. */
  datatype DaoError = BuildFailed(cause: Error) | EngineFailed(message: string)

  /** An exception of the query engine passes through unchanged. */
  function FromEngine<R>(answer: Result<seq<R>, string>): (r: Result<seq<R>, DaoError>)
    ensures answer.Success? <==> r.Success?
    ensures answer.Success? ==> r.value == answer.value
    ensures answer.Failure? ==> r.error == EngineFailed(answer.error)
  {
    if answer.Success? then Success(answer.value) else Failure(EngineFailed(answer.error))
  }

  /** `getByExample`: builds the query, binds its parameters in order and
      hands both to the query engine `run`, whose answer (a result list or an
      exception) it passes on. The query text of a non-entity example is empty
      and is still handed to `run`. */
  method GetByExample<R>(e: Example, run: (string, seq<Binding>) -> Result<seq<R>, string>)
    returns (r: Result<seq<R>, DaoError>)
    ensures ExampleQuery(e).Failure? ==> r == Failure(BuildFailed(ExampleQuery(e).error))
    ensures ExampleQuery(e).Success? ==>
      var q := ExampleQuery(e).value;
      r == FromEngine(run(q.text, Bindings(q.parameters)))
    ensures r.Success? ==> ExampleQuery(e).Success?
  {
    var built := BuildTypedExampleQueryString(e);
    if built.Failure? {
      return Failure(BuildFailed(built.error));
    }
    var queryText := built.value.text;
    var bs := BindParameters(built.value.parameters);
    assert bs == Bindings(built.value.parameters);
    var answer := run(queryText, bs);
    if answer.Failure? {
      return Failure(EngineFailed(answer.error));
    }
    return Success(answer.value);
  }
}
