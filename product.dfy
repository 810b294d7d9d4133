/**
 * The reference definition of what the combination engine enumerates: the
 * Cartesian product of a list of sources in nested-loop order,
 *
 *   for v1 in s1 { for v2 in s2 { ... for vn in sn { yield [v1, ..., vn] } } }
 *
 * so the first source varies slowest and the last fastest. The laws proved
 * here are the cardinality law, membership (no omissions, nothing foreign) and
 * the mixed-radix ordering law.
 */
module CartesianProduct {

  /** Each tuple of `q` with `x` put in front, in the order of `q`. */
  function PrependEach<T>(x: T, q: seq<seq<T>>): seq<seq<T>> {
    seq(|q|, p requires 0 <= p < |q| => [x] + q[p])
  }

  /** The outer loop over `s` around an inner enumeration `q`. */
  function Spread<T>(s: seq<T>, q: seq<seq<T>>): (r: seq<seq<T>>)
    ensures |r| == |s| * |q|
  {
    if s == [] then [] else PrependEach(s[0], q) + Spread(s[1..], q)
  }

  /** The nested-loop enumeration of all tuples, one element per source. */
  function Product<T>(ss: seq<seq<T>>): (r: seq<seq<T>>)
    ensures |r| == Size(ss)
  {
    if ss == [] then [[]] else Spread(ss[0], Product(ss[1..]))
  }

  /** The product of the source sizes. */
  function Size<T>(ss: seq<seq<T>>): nat {
    if ss == [] then 1 else |ss[0]| * Size(ss[1..])
  }

  /** `t` takes its i-th component from the i-th source, for every source. */
  predicate IsTupleOf<T(==)>(t: seq<T>, ss: seq<seq<T>>) {
    |t| == |ss| && forall i :: 0 <= i < |ss| ==> t[i] in ss[i]
  }

  /** `idx` chooses one position in each source. */
  predicate IsIndexOf<T>(idx: seq<nat>, ss: seq<seq<T>>) {
    |idx| == |ss| && forall i :: 0 <= i < |ss| ==> idx[i] < |ss[i]|
  }

  /** The tuple that the index vector `idx` chooses. */
  function Pick<T>(ss: seq<seq<T>>, idx: seq<nat>): (t: seq<T>)
    requires IsIndexOf(idx, ss)
    ensures IsTupleOf(t, ss)
  {
    seq(|ss|, i requires 0 <= i < |ss| => ss[i][idx[i]])
  }

  /** `idx` read as a mixed-radix number whose i-th digit weighs the product of
      the sizes of the sources after i. */
  function Rank<T>(ss: seq<seq<T>>, idx: seq<nat>): nat
    requires IsIndexOf(idx, ss)
  {
    if ss == [] then 0 else idx[0] * Size(ss[1..]) + Rank(ss[1..], idx[1..])
  }

  lemma {:induction false} SpreadAt<T>(s: seq<T>, q: seq<seq<T>>, i: nat, p: nat)
    requires i < |s| && p < |q|
    ensures i * |q| + p < |Spread(s, q)|
    ensures Spread(s, q)[i * |q| + p] == [s[i]] + q[p]
  {
    if i > 0 {
      SpreadAt(s[1..], q, i - 1, p);
      assert i * |q| + p == |q| + ((i - 1) * |q| + p);
    }
  }

  lemma {:induction false} SpreadMember<T>(s: seq<T>, q: seq<seq<T>>, t: seq<T>)
    ensures t in Spread(s, q) <==> |t| > 0 && t[0] in s && t[1..] in q
  {
    if s != [] {
      SpreadMember(s[1..], q, t);
      var head := PrependEach(s[0], q);
      assert Spread(s, q) == head + Spread(s[1..], q);
      if t in head {
        var p :| 0 <= p < |head| && head[p] == t;
        assert t[1..] == q[p];
      }
      if |t| > 0 && t[0] == s[0] && t[1..] in q {
        var p :| 0 <= p < |q| && q[p] == t[1..];
        assert head[p] == t;
      }
      assert t in Spread(s, q) <==> t in head || t in Spread(s[1..], q);
      assert |t| > 0 ==> (t[0] in s <==> t[0] == s[0] || t[0] in s[1..]);
    }
  }

  /** Membership law: the product holds exactly the tuples with one component
      from each source, and nothing else. */
  lemma {:induction false} ProductMember<T>(ss: seq<seq<T>>, t: seq<T>)
    ensures t in Product(ss) <==> IsTupleOf(t, ss)
  {
    if ss == [] {
      assert t in [[]] <==> t == [];
    } else {
      SpreadMember(ss[0], Product(ss[1..]), t);
      if |t| > 0 {
        ProductMember(ss[1..], t[1..]);
        if IsTupleOf(t, ss) {
          assert forall i :: 0 <= i < |ss| - 1 ==> t[1..][i] == t[i + 1] && ss[1..][i] == ss[i + 1];
        }
        if t[0] in ss[0] && IsTupleOf(t[1..], ss[1..]) {
          forall i | 0 <= i < |ss|
            ensures t[i] in ss[i]
          {
            if i > 0 {
              assert t[1..][i - 1] == t[i];
            }
          }
        }
      }
    }
  }

  /** Ordering law: the tuple chosen by `idx` sits at the position given by the
      mixed-radix number `idx`, so the first source varies slowest. */
  lemma {:induction false} ProductAt<T>(ss: seq<seq<T>>, idx: seq<nat>)
    requires IsIndexOf(idx, ss)
    ensures Rank(ss, idx) < |Product(ss)|
    ensures Product(ss)[Rank(ss, idx)] == Pick(ss, idx)
  {
    if ss != [] {
      assert IsIndexOf(idx[1..], ss[1..]);
      ProductAt(ss[1..], idx[1..]);
      SpreadAt(ss[0], Product(ss[1..]), idx[0], Rank(ss[1..], idx[1..]));
      assert Pick(ss, idx) == [ss[0][idx[0]]] + Pick(ss[1..], idx[1..]);
    }
  }

  lemma MulGrows(x: nat, y: nat, n: nat)
    requires x < y
    ensures x * n + n <= y * n
  {
    var d: nat := y - x - 1;
    assert y * n == x * n + n + d * n;
  }

  lemma DigitsUnique(x: nat, r: nat, y: nat, u: nat, n: nat)
    requires r < n && u < n && x * n + r == y * n + u
    ensures x == y && r == u
  {
    if x < y {
      MulGrows(x, y, n);
    } else if y < x {
      MulGrows(y, x, n);
    }
  }

  /** No duplicates: different index vectors have different positions. */
  lemma {:induction false} RankInjective<T>(ss: seq<seq<T>>, a: seq<nat>, b: seq<nat>)
    requires IsIndexOf(a, ss) && IsIndexOf(b, ss)
    requires Rank(ss, a) == Rank(ss, b)
    ensures a == b
  {
    if ss != [] {
      assert IsIndexOf(a[1..], ss[1..]) && IsIndexOf(b[1..], ss[1..]);
      ProductAt(ss[1..], a[1..]);
      ProductAt(ss[1..], b[1..]);
      DigitsUnique(a[0], Rank(ss[1..], a[1..]), b[0], Rank(ss[1..], b[1..]), Size(ss[1..]));
      RankInjective(ss[1..], a[1..], b[1..]);
      assert a == [a[0]] + a[1..] && b == [b[0]] + b[1..];
    }
  }
}
