/** What the query-by-example builder guarantees: which properties become
    criteria and in what order, what reserved and null properties contribute,
    and how placeholders and parameters line up. */
module QueryProperties {
  import opened Wrappers
  import opened Values
  import opened Reflection
  import opened QueryBuilder
  import Seqs

  /** A descriptor contributes a criterion to the query of `e`: it is not
      reserved and its getter returns a non-null value. */
  function Qualifies(e: Example): Descriptor -> bool {
    (d: Descriptor) => !IsReserved(d.name) && d.name in e.values
  }

  /** Every non-reserved descriptor has a computable field name. */
  predicate Renderable(ds: seq<Descriptor>) {
    forall i :: 0 <= i < |ds| && !IsReserved(ds[i].name) ==> FieldName(ds[i]).Some?
  }

  /** Criteria `cs` are the criteria of the selected descriptors `sel`: one
      each, in order, named by its field name and holding its value. */
  predicate CriteriaOf(cs: seq<Criterion>, sel: seq<Descriptor>, e: Example) {
    && |cs| == |sel|
    && forall k :: 0 <= k < |cs| ==>
         FieldName(sel[k]) == Some(cs[k].field) && Read(e, sel[k].name) == Some(cs[k].value)
  }

  lemma RenderableSnoc(ds: seq<Descriptor>)
    requires |ds| > 0
    ensures Renderable(ds) <==>
      Renderable(ds[..|ds| - 1]) && (IsReserved(ds[|ds| - 1].name) || FieldName(ds[|ds| - 1]).Some?)
  {
    var n := |ds| - 1;
    var ds' := ds[..n];
    assert forall i :: 0 <= i < n ==> ds'[i] == ds[i];
  }

  lemma CriteriaOfAppend(cs: seq<Criterion>, sel: seq<Descriptor>, c: Criterion, d: Descriptor, e: Example)
    requires CriteriaOf(cs, sel, e)
    requires FieldName(d) == Some(c.field) && Read(e, d.name) == Some(c.value)
    ensures CriteriaOf(cs + [c], sel + [d], e)
  {
    var cs2 := cs + [c];
    var sel2 := sel + [d];
    forall k | 0 <= k < |cs2|
      ensures FieldName(sel2[k]) == Some(cs2[k].field) && Read(e, sel2[k].name) == Some(cs2[k].value)
    {
      if k < |cs| {
        assert cs2[k] == cs[k] && sel2[k] == sel[k];
      }
    }
  }

  /** Visiting one more descriptor keeps criteria and selection in step: a
      qualifying descriptor adds itself to both. */
  lemma CriteriaOfVisit(cs: seq<Criterion>, sel: seq<Descriptor>, d: Descriptor, e: Example)
    requires CriteriaOf(cs, sel, e) && VisitDescriptor(cs, d, e).Success?
    ensures CriteriaOf(VisitDescriptor(cs, d, e).value, if Qualifies(e)(d) then sel + [d] else sel, e)
  {
    if Qualifies(e)(d) {
      var c := Criterion(FieldName(d).value, e.values[d.name]);
      assert VisitDescriptor(cs, d, e).value == cs + [c];
      CriteriaOfAppend(cs, sel, c, d, e);
    }
  }

  /** Discovery succeeds exactly when every non-reserved descriptor has a
      field name, and then yields one criterion per qualifying descriptor, in
      order, named by its field name and holding its value. */
  lemma {:induction false} DiscoverCriteriaSelects(ds: seq<Descriptor>, e: Example)
    ensures DiscoverCriteria(ds, e).Success? <==> Renderable(ds)
    ensures DiscoverCriteria(ds, e).Success? ==>
      CriteriaOf(DiscoverCriteria(ds, e).value, Seqs.Filter(Qualifies(e), ds), e)
    decreases |ds|
  {
    if |ds| > 0 {
      var n := |ds| - 1;
      var ds' := ds[..n];
      DiscoverCriteriaSelects(ds', e);
      RenderableSnoc(ds);
      DiscoverPrefixStep(ds, n, e);
      assert ds[..n + 1] == ds;
      if DiscoverCriteria(ds, e).Success? {
        assert ds == ds' + [ds[n]];
        Seqs.FilterSnoc(Qualifies(e), ds', ds[n]);
        CriteriaOfVisit(DiscoverCriteria(ds', e).value, Seqs.Filter(Qualifies(e), ds'), ds[n], e);
      }
    }
  }

  /** The query of an entity example, read back against its read/write
      descriptors `rw`: its text is `from <name>` plus the where clause of
      criteria `cs`; criterion `k` and parameter `k` come from descriptor
      `rw[idx[k]]`, which is not reserved and has a non-null value; the
      positions `idx` increase (descriptor order is kept); and every
      non-reserved descriptor with a non-null value is among them. */
  lemma ExampleQueryCharacterization(e: Example) returns (cs: seq<Criterion>, idx: seq<nat>)
    requires e.cls.isEntity && ExampleQuery(e).Success?
    ensures var q := ExampleQuery(e).value;
      && q.text == "from " + e.cls.canonicalName + WhereClause(cs)
      && |cs| == |idx| == |q.parameters|
    ensures var q := ExampleQuery(e).value; var rw := ReadWrite(e.cls.descriptors);
      forall k :: 0 <= k < |idx| ==>
        && idx[k] < |rw|
        && !IsReserved(rw[idx[k]].name)
        && FieldName(rw[idx[k]]) == Some(cs[k].field)
        && Read(e, rw[idx[k]].name) == Some(q.parameters[k])
        && cs[k].value == q.parameters[k]
    ensures forall k1, k2 :: 0 <= k1 < k2 < |idx| ==> idx[k1] < idx[k2]
    ensures var rw := ReadWrite(e.cls.descriptors);
      forall i :: 0 <= i < |rw| && !IsReserved(rw[i].name) && Read(e, rw[i].name).Some? ==> i in idx
  {
    var rw := ReadWrite(e.cls.descriptors);
    cs := DiscoverCriteria(rw, e).value;
    DiscoverCriteriaSelects(rw, e);
    idx := Seqs.FilterSubsequence(Qualifies(e), rw);
  }

  /** The query fails exactly when the example is an entity and some
      non-reserved read/write property is a boolean with an empty name. */
  lemma ExampleQueryFails(e: Example)
    ensures ExampleQuery(e).Failure? <==> e.cls.isEntity && !Renderable(ReadWrite(e.cls.descriptors))
  {
    DiscoverCriteriaSelects(ReadWrite(e.cls.descriptors), e);
  }

  /** A class without `@Entity` yields the empty query and no parameters,
      whatever its properties hold. */
  lemma NonEntityQueryIsEmpty(e: Example)
    requires !e.cls.isEntity
    ensures ExampleQuery(e) == Success(Query("", []))
  {
  }

  /** With no qualifying property the query selects every entity of the
      class: `from <name>` with no where clause and no parameters. */
  lemma NoCriteriaQuery(e: Example)
    requires e.cls.isEntity && Renderable(ReadWrite(e.cls.descriptors))
    requires forall i :: 0 <= i < |e.cls.descriptors| ==> !(IsReadWrite(e.cls.descriptors[i]) && Qualifies(e)(e.cls.descriptors[i]))
    ensures ExampleQuery(e) == Success(Query("from " + e.cls.canonicalName, []))
  {
    var rw := ReadWrite(e.cls.descriptors);
    DiscoverCriteriaSelects(rw, e);
    Seqs.FilterNone(Qualifies(e), rw);
    assert "from " + e.cls.canonicalName + "" == "from " + e.cls.canonicalName;
  }

  /** With exactly one qualifying property `d` holding `v` the query is
      `from <name> where <field of d> = ?` with the single parameter `v`. */
  lemma SingleCriterionQuery(e: Example, d: Descriptor, v: Value)
    requires e.cls.isEntity && Renderable(ReadWrite(e.cls.descriptors))
    requires Seqs.Filter(Qualifies(e), ReadWrite(e.cls.descriptors)) == [d]
    requires Read(e, d.name) == Some(v)
    ensures FieldName(d).Some?
    ensures ExampleQuery(e) == Success(Query("from " + e.cls.canonicalName + " where " + FieldName(d).value + " = ?", [v]))
  {
    var rw := ReadWrite(e.cls.descriptors);
    DiscoverCriteriaSelects(rw, e);
    var cs := DiscoverCriteria(rw, e).value;
    assert Seqs.Filter(Qualifies(e), rw)[0] == d;
    var f := FieldName(d).value;
    assert cs == [Criterion(f, v)];
    SingleWhereClause(e.cls.canonicalName, Criterion(f, v));
    assert ParametersOf(cs) == [v];
  }

  lemma SingleWhereClause(name: string, c: Criterion)
    ensures "from " + name + WhereClause([c]) == "from " + name + " where " + c.field + " = ?"
  {
    var w := " where " + c.field + " = ?";
    assert WhereClause([c]) == w;
    assert "from " + name + w == "from " + name + " where " + c.field + " = ?";
  }

  /** Two examples whose non-reserved properties read the same discover the
      same criteria. */
  lemma {:induction false} DiscoverIgnoresReserved(ds: seq<Descriptor>, e: Example, e': Example)
    requires forall i :: 0 <= i < |ds| && !IsReserved(ds[i].name) ==> Read(e, ds[i].name) == Read(e', ds[i].name)
    ensures DiscoverCriteria(ds, e) == DiscoverCriteria(ds, e')
    decreases |ds|
  {
    if |ds| > 0 {
      var ds' := ds[..|ds| - 1];
      assert forall i :: 0 <= i < |ds'| ==> ds'[i] == ds[i];
      DiscoverIgnoresReserved(ds', e, e');
    }
  }

  /** The example with property `name` reading `v` (null for `None`). */
  function WithProperty(e: Example, name: string, v: Option<Value>): (e': Example)
    ensures e'.cls == e.cls && Read(e', name) == v
    ensures forall n :: n != name ==> Read(e', n) == Read(e, n)
  {
    if v.Some? then e.(values := e.values[name := v.value])
    else e.(values := e.values - {name})
  }

  /** `version` and `uniqueIdentifier` never influence the query, whatever
      value, null or not, they hold. */
  lemma ReservedPropertiesIgnored(e: Example, name: string, v: Option<Value>)
    requires IsReserved(name)
    ensures ExampleQuery(WithProperty(e, name, v)) == ExampleQuery(e)
  {
    DiscoverIgnoresReserved(ReadWrite(e.cls.descriptors), WithProperty(e, name, v), e);
  }

  /** Criteria of a concatenation: both halves' criteria, one after the other;
      a failure in either half fails the whole. */
  function Combine(a: Result<seq<Criterion>, Error>, b: Result<seq<Criterion>, Error>): Result<seq<Criterion>, Error> {
    if a.Success? && b.Success? then Success(a.value + b.value) else Failure(StringIndexOutOfBounds)
  }

  lemma VisitAfterPrefix(p: seq<Criterion>, q: seq<Criterion>, d: Descriptor, e: Example)
    ensures VisitDescriptor(p + q, d, e) == Combine(Success(p), VisitDescriptor(q, d, e))
  {
    if !IsReserved(d.name) && FieldName(d).Some? && Read(e, d.name).Some? {
      assert (p + q) + [Criterion(FieldName(d).value, Read(e, d.name).value)]
          == p + (q + [Criterion(FieldName(d).value, Read(e, d.name).value)]);
    }
  }

  lemma {:induction false} DiscoverAppend(a: seq<Descriptor>, b: seq<Descriptor>, e: Example)
    ensures DiscoverCriteria(a + b, e) == Combine(DiscoverCriteria(a, e), DiscoverCriteria(b, e))
    decreases |b|
  {
    if |b| == 0 {
      assert a + b == a;
      if DiscoverCriteria(a, e).Success? {
        assert DiscoverCriteria(a, e).value + [] == DiscoverCriteria(a, e).value;
      } else {
        assert DiscoverCriteria(a, e).error.StringIndexOutOfBounds?;
      }
    } else {
      var b' := b[..|b| - 1];
      var x := b[|b| - 1];
      assert (a + b)[..|a + b| - 1] == a + b';
      DiscoverAppend(a, b', e);
      if DiscoverCriteria(a, e).Success? && DiscoverCriteria(b', e).Success? {
        VisitAfterPrefix(DiscoverCriteria(a, e).value, DiscoverCriteria(b', e).value, x, e);
      }
    }
  }

  /** Read/write selection around one position of the descriptor sequence. */
  lemma ReadWriteAround(ds: seq<Descriptor>, i: nat)
    requires i < |ds|
    ensures ReadWrite(ds) == ReadWrite(ds[..i]) + ReadWrite([ds[i]]) + ReadWrite(ds[i + 1..])
    ensures ReadWrite(ds[..i] + ds[i + 1..]) == ReadWrite(ds[..i]) + ReadWrite(ds[i + 1..])
  {
    var a, d, b := ds[..i], ds[i], ds[i + 1..];
    assert ds == (a + [d]) + b;
    Seqs.FilterAppend(IsReadWrite, a + [d], b);
    Seqs.FilterAppend(IsReadWrite, a, [d]);
    Seqs.FilterAppend(IsReadWrite, a, b);
  }

  /** Descriptors that discover no criteria can be dropped. */
  lemma DiscoverDropsEmpty(a: seq<Descriptor>, m: seq<Descriptor>, b: seq<Descriptor>, e: Example)
    requires DiscoverCriteria(m, e) == Success([])
    ensures DiscoverCriteria(a + m + b, e) == DiscoverCriteria(a + b, e)
  {
    DiscoverAppend(a + m, b, e);
    DiscoverAppend(a, m, e);
    DiscoverAppend(a, b, e);
    if DiscoverCriteria(a, e).Success? {
      assert DiscoverCriteria(a, e).value + [] == DiscoverCriteria(a, e).value;
    }
  }

  /** A property whose getter returns null adds nothing: the query is the one
      for the same class without that property. */
  lemma NullPropertyAddsNothing(e: Example, i: nat)
    requires i < |e.cls.descriptors|
    requires Read(e, e.cls.descriptors[i].name).None?
    requires FieldName(e.cls.descriptors[i]).Some?
    ensures var ds := e.cls.descriptors;
      ExampleQuery(e) == ExampleQuery(e.(cls := e.cls.(descriptors := ds[..i] + ds[i + 1..])))
  {
    var ds := e.cls.descriptors;
    var d := ds[i];
    ReadWriteAround(ds, i);
    var rd := ReadWrite([d]);
    assert DiscoverCriteria(rd, e) == Success([]) by {
      if IsReadWrite(d) {
        assert rd == [d];
        assert [d][..0] == [];
      } else {
        assert rd == [];
      }
    }
    DiscoverDropsEmpty(ReadWrite(ds[..i]), rd, ReadWrite(ds[i + 1..]), e);
    var e' := e.(cls := e.cls.(descriptors := ds[..i] + ds[i + 1..]));
    var rw' := ReadWrite(ds[..i] + ds[i + 1..]);
    DiscoverIgnoresReserved(rw', e, e');
    assert DiscoverCriteria(ReadWrite(ds), e) == DiscoverCriteria(ReadWrite(e'.cls.descriptors), e');
  }

  /** The strings of `ss`, one after another. */
  function Concat(ss: seq<string>): string
    decreases |ss|
  {
    if |ss| == 0 then "" else ss[0] + Concat(ss[1..])
  }

  /** The joiner before predicate `k`: `" where "` before the first, `" and "`
      before every later one. */
  function Joiner(k: nat): string {
    if k == 0 then " where " else " and "
  }

  /** Predicate `k` of `cs`, with the joiner in front of it. */
  function Pieces(cs: seq<Criterion>, from: nat): (ps: seq<string>)
    requires from <= |cs|
    ensures |ps| == |cs| - from
  {
    seq(|cs| - from, k requires 0 <= k < |cs| - from => Joiner(from + k) + PredicateText(cs[from + k]))
  }

  lemma PiecesCons(cs: seq<Criterion>, from: nat)
    requires from < |cs|
    ensures Pieces(cs, from) == [Joiner(from) + PredicateText(cs[from])] + Pieces(cs, from + 1)
  {
    var a := Pieces(cs, from);
    var b := [Joiner(from) + PredicateText(cs[from])] + Pieces(cs, from + 1);
    assert |a| == |b|;
    forall k | 0 <= k < |a|
      ensures a[k] == b[k]
    {
      if k > 0 {
        assert b[k] == Pieces(cs, from + 1)[k - 1];
      }
    }
  }

  lemma {:induction false} AndTailPieces(cs: seq<Criterion>, from: nat)
    requires 0 < from <= |cs|
    ensures AndTail(cs[from..]) == Concat(Pieces(cs, from))
    decreases |cs| - from
  {
    if from < |cs| {
      PiecesCons(cs, from);
      AndTailPieces(cs, from + 1);
      assert cs[from..][1..] == cs[from + 1..];
    }
  }

  /** The where clause, piece by piece: criterion `k` is written as
      `<joiner> <field> = ?`, where the joiner is `" where "` for the first
      criterion and `" and "` for each of the other `|cs| - 1`. */
  lemma WhereClauseJoiners(cs: seq<Criterion>)
    ensures WhereClause(cs) == Concat(Pieces(cs, 0))
    ensures forall k :: 0 <= k < |cs| ==>
      Pieces(cs, 0)[k] == (if k == 0 then " where " else " and ") + cs[k].field + " = ?"
  {
    if |cs| > 0 {
      PiecesCons(cs, 0);
      AndTailPieces(cs, 1);
      assert " where " + PredicateText(cs[0]) + AndTail(cs[1..])
          == (" where " + PredicateText(cs[0])) + Concat(Pieces(cs, 1));
    }
  }

  /** One predicate after a joiner free of `?` adds one `?`. */
  lemma PredicatePlaceholder(joiner: string, c: Criterion, rest: string)
    requires '?' !in joiner && '?' !in c.field
    ensures Seqs.CountChar(joiner + PredicateText(c) + rest, '?') == 1 + Seqs.CountChar(rest, '?')
  {
    assert joiner + PredicateText(c) + rest == (joiner + c.field) + (" = ?" + rest);
    Seqs.CountCharAppend(joiner, c.field, '?');
    Seqs.CountCharAppend(joiner + c.field, " = ?" + rest, '?');
    Seqs.CountCharAppend(" = ?", rest, '?');
    assert Seqs.CountChar(" = ?", '?') == 1;
  }

  /** `?` occurs once per criterion in a where clause whose field names do
      not contain it. */
  lemma {:induction false} AndTailPlaceholders(cs: seq<Criterion>)
    requires forall k :: 0 <= k < |cs| ==> '?' !in cs[k].field
    ensures Seqs.CountChar(AndTail(cs), '?') == |cs|
    decreases |cs|
  {
    if |cs| > 0 {
      AndTailPlaceholders(cs[1..]);
      PredicatePlaceholder(" and ", cs[0], AndTail(cs[1..]));
    }
  }

  lemma WhereClausePlaceholders(cs: seq<Criterion>)
    requires forall k :: 0 <= k < |cs| ==> '?' !in cs[k].field
    ensures Seqs.CountChar(WhereClause(cs), '?') == |cs|
  {
    if |cs| > 0 {
      AndTailPlaceholders(cs[1..]);
      PredicatePlaceholder(" where ", cs[0], AndTail(cs[1..]));
    }
  }

  /** A field name contains `?` only if the property name does. */
  lemma FieldNameKeepsPlaceholderOut(d: Descriptor)
    requires '?' !in d.name && FieldName(d).Some?
    ensures '?' !in FieldName(d).value
  {
    if d.isBooleanType {
      assert ToUpperAscii(d.name[0]) != '?';
      assert forall j :: 0 <= j < |d.name| - 1 ==> d.name[1..][j] == d.name[j + 1];
    }
  }

  /** Every parameter has exactly one placeholder: in a query over names
      free of `?`, the number of `?` equals the number of parameters. */
  lemma PlaceholdersMatchParameters(e: Example)
    requires '?' !in e.cls.canonicalName
    requires forall i :: 0 <= i < |e.cls.descriptors| ==> '?' !in e.cls.descriptors[i].name
    ensures ExampleQuery(e).Success? ==>
      Seqs.CountChar(ExampleQuery(e).value.text, '?') == |ExampleQuery(e).value.parameters|
  {
    if e.cls.isEntity && ExampleQuery(e).Success? {
      var cs, idx := ExampleQueryCharacterization(e);
      var rw := ReadWrite(e.cls.descriptors);
      forall k | 0 <= k < |cs|
        ensures '?' !in cs[k].field
      {
        assert rw[idx[k]] in e.cls.descriptors;
        FieldNameKeepsPlaceholderOut(rw[idx[k]]);
      }
      WhereClausePlaceholders(cs);
      Seqs.CountCharAppend("from ", e.cls.canonicalName, '?');
      Seqs.CountCharAppend("from " + e.cls.canonicalName, WhereClause(cs), '?');
    }
  }
}
