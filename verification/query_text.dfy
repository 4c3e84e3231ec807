/** Reading a where clause back: the text the builder writes determines the
    sequence of fields it filters on, so the joiner structure is exactly
    `" where " f1 " = ?" (" and " fi " = ?")*`. */
module QueryText {
  import opened Wrappers
  import opened Reflection
  import opened QueryBuilder
  import QueryProperties

  /** A field name as it can appear in a query: non-empty, without spaces. */
  predicate IsToken(s: string) {
    |s| > 0 && ' ' !in s
  }

  /** Position of the first space in `s`, or `|s|` when there is none. */
  function IndexOfSpace(s: string): (i: nat)
    ensures i <= |s|
    ensures i < |s| ==> s[i] == ' '
    ensures forall j :: 0 <= j < i ==> s[j] != ' '
    decreases |s|
  {
    if |s| == 0 then 0
    else if s[0] == ' ' then 0
    else 1 + IndexOfSpace(s[1..])
  }

  predicate PlaceholderAt(s: string, i: nat) {
    i + 4 <= |s| && s[i..i + 4] == " = ?"
  }

  predicate StartsWithAnd(s: string) {
    5 <= |s| && s[..5] == " and "
  }

  /** `f1 = ? and f2 = ? and ...` back to `[f1, f2, ...]`. */
  function ParsePredicates(s: string): Option<seq<string>>
    decreases |s|
  {
    var i := IndexOfSpace(s);
    if i == 0 || !PlaceholderAt(s, i) then None
    else
      var after := s[i + 4..];
      if |after| == 0 then Some([s[..i]])
      else if !StartsWithAnd(after) then None
      else match ParsePredicates(after[5..])
        case None => None
        case Some(fields) => Some([s[..i]] + fields)
  }

  /** A where clause back to its fields; the empty clause has none. */
  function ParseWhereClause(s: string): Option<seq<string>> {
    if |s| == 0 then Some([])
    else if |s| < 7 || s[..7] != " where " then None
    else ParsePredicates(s[7..])
  }

  function FieldsOf(cs: seq<Criterion>): (fs: seq<string>)
    ensures |fs| == |cs|
  {
    seq(|cs|, k requires 0 <= k < |cs| => cs[k].field)
  }

  lemma FieldsOfCons(cs: seq<Criterion>)
    requires |cs| > 0
    ensures FieldsOf(cs) == [cs[0].field] + FieldsOf(cs[1..])
  {
    var a := FieldsOf(cs);
    var b := [cs[0].field] + FieldsOf(cs[1..]);
    assert |a| == |b|;
    forall k | 0 <= k < |a|
      ensures a[k] == b[k]
    {
      if k > 0 {
        assert b[k] == FieldsOf(cs[1..])[k - 1] == cs[1..][k - 1].field;
      }
    }
  }

  lemma {:induction false} IndexOfSpaceAfterToken(f: string, rest: string)
    requires IsToken(f) && |rest| > 0 && rest[0] == ' '
    ensures IndexOfSpace(f + rest) == |f|
    decreases |f|
  {
    if |f| > 1 {
      assert (f + rest)[1..] == f[1..] + rest;
      IndexOfSpaceAfterToken(f[1..], rest);
    } else {
      assert (f + rest)[1..] == rest;
    }
  }

  /** The last predicate of a list. */
  lemma ParseLastPredicate(f: string)
    requires IsToken(f)
    ensures ParsePredicates(f + " = ?") == Some([f])
  {
    var s := f + " = ?";
    IndexOfSpaceAfterToken(f, " = ?");
    assert s[..|f|] == f;
    assert s[|f|..|f| + 4] == " = ?";
    assert s[|f| + 4..] == [];
  }

  /** One step of `ParsePredicates` on a predicate followed by more. */
  lemma ParsePredicatesJoin(s: string, i: nat, fields: seq<string>)
    requires i == IndexOfSpace(s) && i > 0 && PlaceholderAt(s, i)
    requires StartsWithAnd(s[i + 4..]) && ParsePredicates(s[i + 4..][5..]) == Some(fields)
    ensures ParsePredicates(s) == Some([s[..i]] + fields)
  {
  }

  /** A predicate followed by `" and "` and more predicates. */
  lemma ParseJoinedPredicate(f: string, more: string, fields: seq<string>)
    requires IsToken(f) && ParsePredicates(more) == Some(fields)
    ensures ParsePredicates(f + " = ? and " + more) == Some([f] + fields)
  {
    var tail := " = ? and " + more;
    var s := f + tail;
    assert f + " = ? and " + more == s;
    IndexOfSpaceAfterToken(f, tail);
    var i := |f|;
    assert s[..i] == f;
    assert s[i..] == tail;
    assert tail[..4] == " = ?";
    assert s[i..i + 4] == tail[..4];
    var after := s[i + 4..];
    assert after == tail[4..];
    assert tail[4..] == " and " + more;
    assert after[..5] == " and ";
    assert after[5..] == more;
    ParsePredicatesJoin(s, i, fields);
  }

  lemma PredicatesRoundTripLast(c: Criterion, cs: seq<Criterion>)
    requires IsToken(c.field) && |cs| == 0
    ensures ParsePredicates(PredicateText(c) + AndTail(cs)) == Some([c.field] + FieldsOf(cs))
  {
    assert PredicateText(c) + AndTail(cs) == c.field + " = ?";
    ParseLastPredicate(c.field);
    assert [c.field] + FieldsOf(cs) == [c.field];
  }

  lemma AndTailUnfold(c: Criterion, cs: seq<Criterion>)
    requires |cs| > 0
    ensures PredicateText(c) + AndTail(cs) == c.field + " = ? and " + (PredicateText(cs[0]) + AndTail(cs[1..]))
  {
  }

  lemma PredicatesRoundTripStep(c: Criterion, cs: seq<Criterion>)
    requires IsToken(c.field) && |cs| > 0
    requires ParsePredicates(PredicateText(cs[0]) + AndTail(cs[1..])) == Some([cs[0].field] + FieldsOf(cs[1..]))
    ensures ParsePredicates(PredicateText(c) + AndTail(cs)) == Some([c.field] + FieldsOf(cs))
  {
    var more := PredicateText(cs[0]) + AndTail(cs[1..]);
    var fields := [cs[0].field] + FieldsOf(cs[1..]);
    AndTailUnfold(c, cs);
    ParseJoinedPredicate(c.field, more, fields);
    FieldsOfCons(cs);
  }

  lemma {:induction false} PredicatesRoundTrip(c: Criterion, cs: seq<Criterion>)
    requires IsToken(c.field)
    requires forall k :: 0 <= k < |cs| ==> IsToken(cs[k].field)
    ensures ParsePredicates(PredicateText(c) + AndTail(cs)) == Some([c.field] + FieldsOf(cs))
    decreases |cs|
  {
    if |cs| == 0 {
      PredicatesRoundTripLast(c, cs);
    } else {
      assert forall k :: 0 <= k < |cs| - 1 ==> cs[1..][k] == cs[k + 1];
      PredicatesRoundTrip(cs[0], cs[1..]);
      PredicatesRoundTripStep(c, cs);
    }
  }

  /** Reading back the where clause of criteria with token field names gives
      exactly their fields, in order. */
  lemma WhereClauseRoundTrip(cs: seq<Criterion>)
    requires forall k :: 0 <= k < |cs| ==> IsToken(cs[k].field)
    ensures ParseWhereClause(WhereClause(cs)) == Some(FieldsOf(cs))
  {
    if |cs| > 0 {
      var body := PredicateText(cs[0]) + AndTail(cs[1..]);
      assert WhereClause(cs) == " where " + body;
      assert (" where " + body)[7..] == body;
      PredicatesRoundTrip(cs[0], cs[1..]);
      FieldsOfCons(cs);
    }
  }

  /** A field name is a token when the property name is. */
  lemma FieldNameIsToken(d: Descriptor)
    requires IsToken(d.name)
    ensures FieldName(d).Some? && IsToken(FieldName(d).value)
  {
    if d.isBooleanType {
      var f := FieldName(d).value;
      assert ToUpperAscii(d.name[0]) != ' ';
      forall j | 0 <= j < |f|
        ensures f[j] != ' '
      {
        if j >= 3 {
          assert f[j] == d.name[j - 2];
        }
      }
    }
  }

  /** The parameters line up with the placeholders: reading the where clause
      back out of the query text gives one field per parameter, and field `k`
      and parameter `k` belong to the same property, read/write descriptor
      `rw[idx[k]]`. */
  lemma QueryReadBack(e: Example) returns (idx: seq<nat>)
    requires e.cls.isEntity && ExampleQuery(e).Success?
    requires forall i :: 0 <= i < |e.cls.descriptors| ==> IsToken(e.cls.descriptors[i].name)
    ensures var q := ExampleQuery(e).value; var head := "from " + e.cls.canonicalName;
      && |head| <= |q.text| && q.text[..|head|] == head
      && ParseWhereClause(q.text[|head|..]).Some?
    ensures var q := ExampleQuery(e).value; var head := "from " + e.cls.canonicalName;
      var rw := ReadWrite(e.cls.descriptors);
      var fs := ParseWhereClause(q.text[|head|..]).value;
      && |fs| == |idx| == |q.parameters|
      && forall k :: 0 <= k < |idx| ==>
           idx[k] < |rw| && FieldName(rw[idx[k]]) == Some(fs[k]) && Read(e, rw[idx[k]].name) == Some(q.parameters[k])
  {
    var cs;
    cs, idx := QueryProperties.ExampleQueryCharacterization(e);
    var rw := ReadWrite(e.cls.descriptors);
    var head := "from " + e.cls.canonicalName;
    var text := ExampleQuery(e).value.text;
    assert text[..|head|] == head && text[|head|..] == WhereClause(cs);
    forall k | 0 <= k < |cs|
      ensures IsToken(cs[k].field)
    {
      assert rw[idx[k]] in e.cls.descriptors;
      FieldNameIsToken(rw[idx[k]]);
    }
    WhereClauseRoundTrip(cs);
  }
}
