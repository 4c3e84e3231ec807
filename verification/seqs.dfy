/** Order-preserving selection from a sequence, the shape shared by every
    loop of the form `for (x : xs) if (p(x)) list.add(x);`. */
module Seqs {

  /** The elements of `s` that satisfy `p`, in their original order. Defined on
      the processed prefix, the way a left-to-right loop builds its list. */
  function Filter<T>(p: T -> bool, s: seq<T>): (r: seq<T>)
    ensures |r| <= |s|
    ensures forall i :: 0 <= i < |r| ==> r[i] in s && p(r[i])
    ensures forall i :: 0 <= i < |s| && p(s[i]) ==> s[i] in r
    decreases |s|
  {
    if |s| == 0 then []
    else
      var prefix := Filter(p, s[..|s| - 1]);
      assert s == s[..|s| - 1] + [s[|s| - 1]];
      if p(s[|s| - 1]) then prefix + [s[|s| - 1]] else prefix
  }

  /** One more element appended to the input appends at most that element to
      the output. */
  lemma FilterSnoc<T>(p: T -> bool, s: seq<T>, x: T)
    ensures Filter(p, s + [x]) == if p(x) then Filter(p, s) + [x] else Filter(p, s)
  {
    assert (s + [x])[..|s + [x]| - 1] == s;
  }

  /** Filtering distributes over concatenation. */
  lemma {:induction false} FilterAppend<T>(p: T -> bool, a: seq<T>, b: seq<T>)
    ensures Filter(p, a + b) == Filter(p, a) + Filter(p, b)
    decreases |b|
  {
    if |b| == 0 {
      assert a + b == a;
    } else {
      var b' := b[..|b| - 1];
      var x := b[|b| - 1];
      assert b == b' + [x];
      assert a + b == (a + b') + [x];
      FilterAppend(p, a, b');
      FilterSnoc(p, a + b', x);
      FilterSnoc(p, b', x);
    }
  }

  /** The input positions `Filter` keeps, in increasing order. */
  function FilterPositions<T>(p: T -> bool, s: seq<T>): seq<nat>
    decreases |s|
  {
    if |s| == 0 then []
    else
      var prior := FilterPositions(p, s[..|s| - 1]);
      if p(s[|s| - 1]) then prior + [|s| - 1] else prior
  }

  lemma {:induction false} FilterPositionsSound<T>(p: T -> bool, s: seq<T>)
    ensures var idx := FilterPositions(p, s);
      && |idx| == |Filter(p, s)|
      && (forall k :: 0 <= k < |idx| ==> idx[k] < |s| && Filter(p, s)[k] == s[idx[k]] && p(s[idx[k]]))
      && (forall k1, k2 :: 0 <= k1 < k2 < |idx| ==> idx[k1] < idx[k2])
    decreases |s|
  {
    if |s| > 0 {
      var n := |s| - 1;
      var s' := s[..n];
      FilterPositionsSound(p, s');
      var prior := FilterPositions(p, s');
      var idx := FilterPositions(p, s);
      var r := Filter(p, s);
      var r' := Filter(p, s');
      forall k | 0 <= k < |idx|
        ensures idx[k] < |s| && r[k] == s[idx[k]] && p(s[idx[k]])
      {
        if k < |prior| {
          assert idx[k] == prior[k] && r[k] == r'[k] && s'[prior[k]] == s[prior[k]];
        }
      }
    }
  }

  lemma {:induction false} FilterPositionsComplete<T>(p: T -> bool, s: seq<T>, i: nat)
    requires i < |s| && p(s[i])
    ensures i in FilterPositions(p, s)
    decreases |s|
  {
    var n := |s| - 1;
    if i < n {
      assert s[..n][i] == s[i];
      FilterPositionsComplete(p, s[..n], i);
    }
  }

  /** The output is a subsequence of the input: `idx` gives, for each output
      position, the strictly increasing input position it was taken from, and
      every input position whose element satisfies `p` is among them. */
  lemma FilterSubsequence<T>(p: T -> bool, s: seq<T>) returns (idx: seq<nat>)
    ensures |idx| == |Filter(p, s)|
    ensures forall k :: 0 <= k < |idx| ==> idx[k] < |s| && Filter(p, s)[k] == s[idx[k]] && p(s[idx[k]])
    ensures forall k1, k2 :: 0 <= k1 < k2 < |idx| ==> idx[k1] < idx[k2]
    ensures forall i :: 0 <= i < |s| && p(s[i]) ==> i in idx
  {
    idx := FilterPositions(p, s);
    FilterPositionsSound(p, s);
    forall i | 0 <= i < |s| && p(s[i])
      ensures i in idx
    {
      FilterPositionsComplete(p, s, i);
    }
  }

  /** Filtering by `p` and then by `q` is filtering once by their
      conjunction `pq`. */
  lemma {:induction false} FilterFilter<T>(p: T -> bool, q: T -> bool, pq: T -> bool, s: seq<T>)
    requires forall x :: pq(x) == (p(x) && q(x))
    ensures Filter(q, Filter(p, s)) == Filter(pq, s)
    decreases |s|
  {
    if |s| > 0 {
      var s' := s[..|s| - 1];
      var x := s[|s| - 1];
      FilterFilter(p, q, pq, s');
      if p(x) {
        FilterSnoc(q, Filter(p, s'), x);
      }
    }
  }

  /** Nothing is kept when no element satisfies `p`. */
  lemma {:induction false} FilterNone<T>(p: T -> bool, s: seq<T>)
    requires forall i :: 0 <= i < |s| ==> !p(s[i])
    ensures Filter(p, s) == []
    decreases |s|
  {
    if |s| > 0 {
      FilterNone(p, s[..|s| - 1]);
    }
  }

  /** Keeping only the elements that satisfy `p` from a sequence with no
      repeated elements in which exactly one element, `x`, satisfies it. */
  lemma {:induction false} FilterSingle<T>(p: T -> bool, s: seq<T>, x: T)
    requires x in s
    requires forall i :: 0 <= i < |s| ==> (p(s[i]) <==> s[i] == x)
    requires forall i, j :: 0 <= i < j < |s| ==> s[i] != s[j]
    ensures Filter(p, s) == [x]
    decreases |s|
  {
    var n := |s| - 1;
    var s' := s[..n];
    assert s == s' + [s[n]];
    if s[n] == x {
      assert forall j :: 0 <= j < n ==> s'[j] == s[j] && !p(s'[j]);
      FilterNone(p, s');
    } else {
      FilterSingle(p, s', x);
    }
  }

  /** Number of occurrences of `c` in `s`. */
  function CountChar(s: string, c: char): (n: nat)
    ensures n <= |s|
    ensures n == 0 <==> c !in s
    decreases |s|
  {
    if |s| == 0 then 0
    else (if s[0] == c then 1 else 0) + CountChar(s[1..], c)
  }

  lemma {:induction false} CountCharAppend(a: string, b: string, c: char)
    ensures CountChar(a + b, c) == CountChar(a, c) + CountChar(b, c)
    decreases |a|
  {
    if |a| == 0 {
      assert a + b == b;
    } else {
      assert (a + b)[1..] == a[1..] + b;
      CountCharAppend(a[1..], b, c);
    }
  }
}
