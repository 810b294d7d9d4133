/**
 * The static class `Combination`: the two `Combine` overloads (outer product
 * of two sources, and extension of tuples by one more source) and the N-ary
 * entry points, proved equal to the nested-loop `Product`.
 */
module Combination {
  import opened Wrappers
  import opened HasId
  import opened CartesianProduct

  /** Each element of `s` wrapped as a one-element tuple:
      `values[0].Select(v => new IHasID[] { v })`. */
  function Singletons<T>(s: seq<T>): seq<seq<T>> {
    seq(|s|, i requires 0 <= i < |s| => [s[i]])
  }

  /** `values2.Select(v2 => v1.Concat(new T[] { v2 }))`. */
  function AppendEach<T>(v1: seq<T>, values2: seq<T>): seq<seq<T>> {
    seq(|values2|, j requires 0 <= j < |values2| => v1 + [values2[j]])
  }

  /** The first `Combine` overload:
      `values1.SelectMany(v1 => values2.Select(v2 => new T[] { v1, v2 }))`. */
  function Combine<T>(values1: seq<T>, values2: seq<T>): (r: seq<seq<T>>)
    ensures |r| == |values1| * |values2|
  {
    if values1 == [] then []
    else seq(|values2|, j requires 0 <= j < |values2| => [values1[0], values2[j]])
         + Combine(values1[1..], values2)
  }

  /** The second `Combine` overload:
      `values1.SelectMany(v1 => values2.Select(v2 => v1.Concat(new T[] { v2 })))`. */
  function Extend<T>(values1: seq<seq<T>>, values2: seq<T>): (r: seq<seq<T>>)
    ensures |r| == |values1| * |values2|
  {
    if values1 == [] then [] else AppendEach(values1[0], values2) + Extend(values1[1..], values2)
  }

  /** Pair (i, j) sits at position i * |values2| + j: `values1` varies slowest. */
  lemma {:induction false} CombineAt<T>(values1: seq<T>, values2: seq<T>, i: nat, j: nat)
    requires i < |values1| && j < |values2|
    ensures i * |values2| + j < |Combine(values1, values2)|
    ensures Combine(values1, values2)[i * |values2| + j] == [values1[i], values2[j]]
  {
    if i > 0 {
      CombineAt(values1[1..], values2, i - 1, j);
      assert i * |values2| + j == |values2| + ((i - 1) * |values2| + j);
    }
  }

  /** Position k of an m-by-n enumeration is row k / n, column k % n. */
  lemma RowColumn(k: nat, m: nat, n: nat) returns (i: nat, j: nat)
    requires k < m * n
    ensures i == k / n && j == k % n
    ensures i < m && j < n && k == i * n + j
  {
    i, j := k / n, k % n;
  }

  /** The k-th pair is `[values1[k / |values2|], values2[k % |values2|]]`. */
  lemma CombineAtIndex<T>(values1: seq<T>, values2: seq<T>, k: nat)
    requires k < |Combine(values1, values2)|
    ensures |values2| > 0 && k / |values2| < |values1|
    ensures Combine(values1, values2)[k] == [values1[k / |values2|], values2[k % |values2|]]
  {
    var i, j := RowColumn(k, |values1|, |values2|);
    CombineAt(values1, values2, i, j);
    assert Combine(values1, values2)[k] == [values1[i], values2[j]];
  }

  /** Tuple p extended by element j sits at position p * |values2| + j. */
  lemma {:induction false} ExtendAt<T>(values1: seq<seq<T>>, values2: seq<T>, p: nat, j: nat)
    requires p < |values1| && j < |values2|
    ensures p * |values2| + j < |Extend(values1, values2)|
    ensures Extend(values1, values2)[p * |values2| + j] == values1[p] + [values2[j]]
  {
    if p > 0 {
      ExtendAt(values1[1..], values2, p - 1, j);
      assert p * |values2| + j == |values2| + ((p - 1) * |values2| + j);
    }
  }

  /** The k-th result is prior tuple k / |values2| followed by element k % |values2|. */
  lemma ExtendAtIndex<T>(values1: seq<seq<T>>, values2: seq<T>, k: nat)
    requires k < |Extend(values1, values2)|
    ensures |values2| > 0 && k / |values2| < |values1|
    ensures Extend(values1, values2)[k] == values1[k / |values2|] + [values2[k % |values2|]]
  {
    var p, j := RowColumn(k, |values1|, |values2|);
    ExtendAt(values1, values2, p, j);
    assert Extend(values1, values2)[k] == values1[p] + [values2[j]];
  }

  /** Every extended tuple is one prior tuple followed by exactly one element
      of `values2`, so it is one longer than that prior. */
  lemma ExtendMember<T>(values1: seq<seq<T>>, values2: seq<T>, k: nat)
    requires k < |Extend(values1, values2)|
    ensures exists p, j ::
              && 0 <= p < |values1| && 0 <= j < |values2|
              && Extend(values1, values2)[k] == values1[p] + [values2[j]]
              && |Extend(values1, values2)[k]| == |values1[p]| + 1
  {
    var p, j := RowColumn(k, |values1|, |values2|);
    ExtendAt(values1, values2, p, j);
  }

  lemma {:induction false} SpreadOfUnit<T>(s: seq<T>)
    ensures Spread(s, [[]]) == Singletons(s)
  {
    if s != [] {
      SpreadOfUnit(s[1..]);
      assert PrependEach(s[0], [[]])[0] == [s[0]] + [] == [s[0]];
      assert Singletons(s) == [[s[0]]] + Singletons(s[1..]);
    }
  }

  /** One source alone: its elements as singleton tuples, in order. */
  lemma SingletonsIsProduct<T>(s: seq<T>)
    ensures Product([s]) == Singletons(s)
  {
    assert [s][1..] == [];
    SpreadOfUnit(s);
  }

  lemma {:induction false} CombineIsSpread<T>(values1: seq<T>, values2: seq<T>)
    ensures Combine(values1, values2) == Spread(values1, Singletons(values2))
  {
    if values1 != [] {
      CombineIsSpread(values1[1..], values2);
      assert seq(|values2|, j requires 0 <= j < |values2| => [values1[0], values2[j]])
          == PrependEach(values1[0], Singletons(values2)) by {
        forall j | 0 <= j < |values2|
          ensures [values1[0], values2[j]] == [values1[0]] + Singletons(values2)[j]
        {
        }
      }
    }
  }

  /** The pairwise overload enumerates the product of its two sources. */
  lemma CombineIsProduct<T>(values1: seq<T>, values2: seq<T>)
    ensures Combine(values1, values2) == Product([values1, values2])
  {
    assert [values1, values2][1..] == [values2];
    SingletonsIsProduct(values2);
    CombineIsSpread(values1, values2);
  }

  lemma {:induction false} ExtendConcat<T>(p1: seq<seq<T>>, p2: seq<seq<T>>, s: seq<T>)
    ensures Extend(p1 + p2, s) == Extend(p1, s) + Extend(p2, s)
  {
    if p1 == [] {
      assert p1 + p2 == p2;
    } else {
      assert (p1 + p2)[0] == p1[0] && (p1 + p2)[1..] == p1[1..] + p2;
      ExtendConcat(p1[1..], p2, s);
    }
  }

  lemma PrependEachConcat<T>(x: T, q1: seq<seq<T>>, q2: seq<seq<T>>)
    ensures PrependEach(x, q1 + q2) == PrependEach(x, q1) + PrependEach(x, q2)
  {
  }

  lemma {:induction false} ExtendPrependEach<T>(x: T, q: seq<seq<T>>, s: seq<T>)
    ensures Extend(PrependEach(x, q), s) == PrependEach(x, Extend(q, s))
  {
    if q != [] {
      var pq := PrependEach(x, q);
      assert pq[0] == [x] + q[0] && pq[1..] == PrependEach(x, q[1..]);
      ExtendPrependEach(x, q[1..], s);
      PrependEachConcat(x, AppendEach(q[0], s), Extend(q[1..], s));
      assert AppendEach([x] + q[0], s) == PrependEach(x, AppendEach(q[0], s)) by {
        forall j | 0 <= j < |s|
          ensures ([x] + q[0]) + [s[j]] == [x] + (q[0] + [s[j]])
        {
        }
      }
    }
  }

  lemma {:induction false} SpreadExtend<T>(s0: seq<T>, q: seq<seq<T>>, s: seq<T>)
    ensures Spread(s0, Extend(q, s)) == Extend(Spread(s0, q), s)
  {
    if s0 != [] {
      SpreadExtend(s0[1..], q, s);
      ExtendConcat(PrependEach(s0[0], q), Spread(s0[1..], q), s);
      ExtendPrependEach(s0[0], q, s);
    }
  }

  /** Folding one more source in with `Extend` is the product with that source
      appended: the left fold agrees with the nested-loop order. */
  lemma {:induction false} ProductSnoc<T>(ss: seq<seq<T>>, s: seq<T>)
    ensures Product(ss + [s]) == Extend(Product(ss), s)
  {
    if ss == [] {
      assert ss + [s] == [s];
      SingletonsIsProduct(s);
      assert Extend([[]], s) == AppendEach([], s);
      assert AppendEach([], s) == Singletons(s) by {
        forall j | 0 <= j < |s|
          ensures [] + [s[j]] == [s[j]]
        {
        }
      }
    } else {
      assert (ss + [s])[0] == ss[0] && (ss + [s])[1..] == ss[1..] + [s];
      ProductSnoc(ss[1..], s);
      SpreadExtend(ss[0], Product(ss[1..]), s);
    }
  }

  /** `CreateValuesCore`: an `ArgumentException` for no sources, singleton
      tuples for one, otherwise the first two combined and every further source
      folded in from left to right. */
  method CreateValuesCore(values: seq<seq<Tagged>>) returns (r: Result<seq<seq<Tagged>>, Exception>)
    ensures r.Failure? <==> |values| == 0
    ensures r.Failure? ==> r.error == ArgumentException
    ensures |values| == 1 ==> r == Success(Singletons(values[0]))
    ensures r.Success? ==> r.value == Product(values)
    ensures r.Success? ==> |r.value| == Size(values)
    ensures r.Success? ==> forall t :: t in r.value <==> IsTupleOf(t, values)
  {
    if |values| == 0 {
      return Failure(ArgumentException);
    }
    if |values| == 1 {
      SingletonsIsProduct(values[0]);
      assert values == [values[0]];
      r := Success(Singletons(values[0]));
    } else {
      var temp := Combine(values[0], values[1]);
      CombineIsProduct(values[0], values[1]);
      assert values[..2] == [values[0], values[1]];
      for i := 2 to |values|
        invariant temp == Product(values[..i])
      {
        ProductSnoc(values[..i], values[i]);
        assert values[..i + 1] == values[..i] + [values[i]];
        temp := Extend(temp, values[i]);
      }
      assert values[..|values|] == values;
      r := Success(temp);
    }
    forall t
      ensures t in r.value <==> IsTupleOf(t, values)
    {
      ProductMember(values, t);
    }
  }

  /** `CreateValues(params IEnumerable<IHasID>[])`: sources of any mix of types. */
  method CreateValues(values: seq<seq<Tagged>>) returns (r: Result<seq<seq<Tagged>>, Exception>)
    ensures r.Failure? <==> |values| == 0
    ensures r.Failure? ==> r.error == ArgumentException
    ensures r.Success? ==> r.value == Product(values)
  {
    r := CreateValuesCore(values);
  }

  /** Each raw source tagged by its own type, as a caller of `CreateValues`
      builds them with `CreateParameters`. */
  function TagAll(tys: seq<Ty>, raws: seq<seq<Val>>): (ss: seq<seq<Tagged>>)
    requires |tys| == |raws|
    requires forall i, v :: 0 <= i < |raws| && v in raws[i] ==> HasType(v, tys[i])
    ensures |ss| == |raws| && forall i :: 0 <= i < |ss| ==> |ss[i]| == |raws[i]|
  {
    seq(|raws|, i requires 0 <= i < |raws| => CreateParameters(tys[i], raws[i]))
  }

  /** `CreateValuesFromRaw<T>`: every source tagged with the one type `T`, then
      combined by `CreateValuesCore`. */
  method CreateValuesFromRaw(ty: Ty, values: seq<seq<Val>>) returns (r: Result<seq<seq<Tagged>>, Exception>)
    requires forall s <- values, v <- s :: HasType(v, ty)
    ensures r.Failure? <==> |values| == 0
    ensures r.Failure? ==> r.error == ArgumentException
    ensures r.Success? ==> r.value == Product(TagAll(seq(|values|, _ => ty), values))
  {
    var sources := TagAll(seq(|values|, _ => ty), values);
    r := CreateValuesCore(sources);
  }

  /** Identity law through the combination: in the tuple chosen by `idx`, the
      i-th component has id `idx[i]`, the i-th source's type and its
      `idx[i]`-th raw value. */
  lemma TaggedProductAt(tys: seq<Ty>, raws: seq<seq<Val>>, idx: seq<nat>)
    requires |tys| == |raws|
    requires forall i, v :: 0 <= i < |raws| && v in raws[i] ==> HasType(v, tys[i])
    requires IsIndexOf(idx, raws)
    ensures IsIndexOf(idx, TagAll(tys, raws))
    ensures Rank(TagAll(tys, raws), idx) < |Product(TagAll(tys, raws))|
    ensures |Product(TagAll(tys, raws))[Rank(TagAll(tys, raws), idx)]| == |idx|
    ensures forall i :: 0 <= i < |idx| ==>
      Product(TagAll(tys, raws))[Rank(TagAll(tys, raws), idx)][i] == Tagged(idx[i], tys[i], raws[i][idx[i]])
  {
    var ss := TagAll(tys, raws);
    assert IsIndexOf(idx, ss);
    ProductAt(ss, idx);
  }
}
