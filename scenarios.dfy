/**
 * The demonstration program's uses of the engine, as concrete instances of
 * the laws: three enums of 3, 3 and 5 members; the integers 5..14 against
 * 99, 999 and 9999, tagged and raw; and the mixed call over two integer
 * sources and two enums.
 */
module Scenarios {
  import opened Wrappers
  import opened HasId
  import opened CartesianProduct
  import opened Combination
  import opened Tuples

  const A_TYPE: Ty := EnumT("AType", 3)
  const B_TYPE: Ty := EnumT("BType", 3)
  const C_TYPE: Ty := EnumT("CType", 5)

  /** `Enumerable.Range(5, 10)`. */
  function RangeFrom5(): (vs: seq<Val>)
    ensures |vs| == 10 && forall v <- vs :: HasType(v, IntT)
  {
    seq(10, i requires 0 <= i < 10 => IntV(5 + i))
  }

  function Multipliers(): (vs: seq<Val>)
    ensures |vs| == 3 && forall v <- vs :: HasType(v, IntT)
  {
    [IntV(99), IntV(999), IntV(9999)]
  }

  function EnumSources(): (ss: seq<seq<Tagged>>)
    ensures |ss| == 3 && |ss[0]| == 3 && |ss[1]| == 3 && |ss[2]| == 5
  {
    [CreateParametersFromEnum(A_TYPE).value,
     CreateParametersFromEnum(B_TYPE).value,
     CreateParametersFromEnum(C_TYPE).value]
  }

  /** In a product of three sources, the choice (a, b, c) sits at position
      a * |s1| * |s2| + b * |s2| + c. */
  lemma ThreeSourcesAt<T>(ss: seq<seq<T>>, a: nat, b: nat, c: nat)
    requires |ss| == 3 && a < |ss[0]| && b < |ss[1]| && c < |ss[2]|
    ensures a * (|ss[1]| * |ss[2]|) + b * |ss[2]| + c < |Product(ss)|
    ensures Product(ss)[a * (|ss[1]| * |ss[2]|) + b * |ss[2]| + c] == [ss[0][a], ss[1][b], ss[2][c]]
  {
    var idx: seq<nat> := [a, b, c];
    assert IsIndexOf(idx, ss);
    assert ss[1..][1..] == [ss[2]] && ss[1..][1..][1..] == [];
    assert idx[1..][1..] == [c] && idx[1..][1..][1..] == [];
    assert Size(ss[1..][1..]) == |ss[2]| * Size(ss[1..][1..][1..]) == |ss[2]|;
    assert Size(ss[1..]) == |ss[1]| * |ss[2]|;
    assert Rank(ss[1..][1..], idx[1..][1..]) == c;
    assert Rank(ss[1..], idx[1..]) == b * |ss[2]| + c;
    ProductAt(ss, idx);
  }

  /** The tuple of members (a, b, c) sits at position a * 15 + b * 5 + c. */
  lemma EnumTupleAt(a: nat, b: nat, c: nat)
    requires a < 3 && b < 3 && c < 5
    ensures a * 15 + b * 5 + c < |Product(EnumSources())|
    ensures Product(EnumSources())[a * 15 + b * 5 + c] ==
      [Tagged(a, A_TYPE, EnumV(a)), Tagged(b, B_TYPE, EnumV(b)), Tagged(c, C_TYPE, EnumV(c))]
  {
    ThreeSourcesAt(EnumSources(), a, b, c);
  }

  /** 3 * 3 * 5 = 45 tuples; the first is (A1, B1, C1), the second (A1, B1, C2),
      the last (A3, B3, C5), and there is no 46th. */
  lemma EnumScenario()
    ensures |Product(EnumSources())| == 45
    ensures Product(EnumSources())[0] ==
      [Tagged(0, A_TYPE, EnumV(0)), Tagged(0, B_TYPE, EnumV(0)), Tagged(0, C_TYPE, EnumV(0))]
    ensures Product(EnumSources())[1] ==
      [Tagged(0, A_TYPE, EnumV(0)), Tagged(0, B_TYPE, EnumV(0)), Tagged(1, C_TYPE, EnumV(1))]
    ensures Product(EnumSources())[44] ==
      [Tagged(2, A_TYPE, EnumV(2)), Tagged(2, B_TYPE, EnumV(2)), Tagged(4, C_TYPE, EnumV(4))]
  {
    var ss := EnumSources();
    assert ss[1..][1..] == [ss[2]] && ss[1..][1..][1..] == [];
    assert Size(ss[1..][1..]) == 5 * Size(ss[1..][1..][1..]) == 5;
    assert Size(ss[1..]) == 3 * Size(ss[1..][1..]) == 15;
    assert Size(ss) == 3 * Size(ss[1..]) == 45;
    EnumTupleAt(0, 0, 0);
    EnumTupleAt(0, 0, 1);
    EnumTupleAt(2, 2, 4);
  }

  /** `CreateValues(pb1, pb2)`: 10 * 3 = 30 pairs in row-major order, so
      position 2 is (5, 9999) and position 3 is (6, 99). */
  lemma IntScenario()
    ensures
      var pb1, pb2 := CreateParameters(IntT, RangeFrom5()), CreateParameters(IntT, Multipliers());
      && |Product([pb1, pb2])| == 30
      && ParameterValues(Product([pb1, pb2])[2]) == [IntV(5), IntV(9999)]
      && ParameterValues(Product([pb1, pb2])[3]) == [IntV(6), IntV(99)]
      && Ids(Product([pb1, pb2])[3]) == [1, 0]
  {
    var pb1, pb2 := CreateParameters(IntT, RangeFrom5()), CreateParameters(IntT, Multipliers());
    CombineIsProduct(pb1, pb2);
    CombineAtIndex(pb1, pb2, 2);
    CombineAtIndex(pb1, pb2, 3);
  }

  /** One source alone gives one singleton tuple per element. */
  lemma SingleSourceScenario()
    ensures
      var pb2 := CreateParameters(IntT, Multipliers());
      Product([pb2]) == [[pb2[0]], [pb2[1]], [pb2[2]]]
  {
    var pb2 := CreateParameters(IntT, Multipliers());
    SingletonsIsProduct(pb2);
  }

  /** `CreateValuesFromRaw(pc1, pc2)` tags both raw sources with `int` exactly as
      `CreateValues(pb1, pb2)` has them, so it enumerates the same 30 pairs. */
  lemma RawScenario()
    ensures
      var pb1, pb2 := CreateParameters(IntT, RangeFrom5()), CreateParameters(IntT, Multipliers());
      && TagAll(seq(2, _ => IntT), [RangeFrom5(), Multipliers()]) == [pb1, pb2]
      && Product(TagAll(seq(2, _ => IntT), [RangeFrom5(), Multipliers()])) == Combine(pb1, pb2)
      && |Product(TagAll(seq(2, _ => IntT), [RangeFrom5(), Multipliers()]))| == 30
  {
    var pb1, pb2 := CreateParameters(IntT, RangeFrom5()), CreateParameters(IntT, Multipliers());
    assert TagAll(seq(2, _ => IntT), [RangeFrom5(), Multipliers()]) == [pb1, pb2];
    CombineIsProduct(pb1, pb2);
  }

  /** The sources of `CreateValues(pb1, pb2, pa1, pa2)`: two integer sources and
      two enums. */
  function MixedSources(): (ss: seq<seq<Tagged>>)
    ensures |ss| == 4 && |ss[0]| == 10 && |ss[1]| == 3 && |ss[2]| == 3 && |ss[3]| == 3
  {
    [CreateParameters(IntT, RangeFrom5()),
     CreateParameters(IntT, Multipliers()),
     CreateParametersFromEnum(A_TYPE).value,
     CreateParametersFromEnum(B_TYPE).value]
  }

  /** Source i of the mixed call holds only values of its i-th type argument. */
  lemma MixedSourcesTyped()
    ensures forall i: int, x: Tagged :: 0 <= i < 4 && x in MixedSources()[i] ==>
      x.ty == [IntT, IntT, A_TYPE, B_TYPE][i]
  {
    var ss := MixedSources();
    assert forall x: Tagged <- ss[2] :: x.ty == A_TYPE;
    assert forall x: Tagged <- ss[3] :: x.ty == B_TYPE;
  }

  /** `CreateValues(pb1, pb2, pa1, pa2)` gives 10 * 3 * 3 * 3 = 270 tuples. */
  lemma MixedCount()
    ensures |Product(MixedSources())| == 270
  {
    var ss := MixedSources();
    assert ss[1..][1..][1..] == [ss[3]] && ss[1..][1..][1..][1..] == [];
    assert Size(ss[1..][1..][1..]) == 3 * Size(ss[1..][1..][1..][1..]) == 3;
    assert Size(ss[1..][1..]) == 3 * Size(ss[1..][1..][1..]) == 9;
    assert Size(ss[1..]) == 3 * Size(ss[1..][1..]) == 27;
  }

  /** In a product of four sources with type arguments `tys`, every tuple
      reads back under `tys` through a view of count 4, fails under a type
      other than tys[2] at position 2, and fails at position 4. */
  lemma FourSourcesRead(ss: seq<seq<Tagged>>, tys: seq<Ty>, other: Ty, t: seq<Tagged>)
    requires |ss| == 4 && |tys| == 4 && other != tys[2]
    requires forall i, x :: 0 <= i < 4 && x in ss[i] ==> x.ty == tys[i]
    requires t in Product(ss)
    ensures |t| == 4
    ensures ReadAt(t, 4, 0, tys[0]).Success? && ReadAt(t, 4, 1, tys[1]).Success?
    ensures ReadAt(t, 4, 2, tys[2]).Success? && ReadAt(t, 4, 3, tys[3]).Success?
    ensures ReadAt(t, 4, 2, other) == Failure(NullReferenceException)
    ensures ReadAt(t, 4, 4, other) == Failure(ArgumentOutOfRangeException)
  {
    ProducedTupleReads(ss, tys, t);
    assert ReadAt(t, 4, 2, tys[2]).Success?;
  }

  /** Every tuple of `CreateValues(pb1, pb2, pa1, pa2)` reads back as
      (int, int, AType, BType) through a view of count 4, as `new Parameters(p)`
      and `new ParametersI(v, 4)` both have it; reading position 2 as `int`
      fails, and so does position 4. */
  lemma MixedReads(t: seq<Tagged>)
    requires t in Product(MixedSources())
    ensures |t| == 4
    ensures ReadAt(t, 4, 0, IntT).Success? && ReadAt(t, 4, 1, IntT).Success?
    ensures ReadAt(t, 4, 2, A_TYPE).Success? && ReadAt(t, 4, 3, B_TYPE).Success?
    ensures ReadAt(t, 4, 2, IntT) == Failure(NullReferenceException)
    ensures ReadAt(t, 4, 4, IntT) == Failure(ArgumentOutOfRangeException)
  {
    MixedSourcesTyped();
    FourSourcesRead(MixedSources(), [IntT, IntT, A_TYPE, B_TYPE], IntT, t);
  }

  /** A caller of the engine: no sources is an `ArgumentException`; reading a
      produced tuple through `Parameters` with the right types gives back the
      enum members, and a wrong type or index fails. */
  method Client() {
    var none := CreateValues([]);
    assert none == Failure(ArgumentException);

    var ss := EnumSources();
    var all := CreateValues(ss);
    EnumScenario();
    var ps := new Parameters(all.value[1]);
    var c := ps.GetValue(2, C_TYPE);
    assert c == Success(EnumV(1));
    var wrongType := ps.GetValue(0, StrT);
    assert wrongType == Failure(NullReferenceException);
    var outOfRange := ps.GetValue(5, IntT);
    assert outOfRange == Failure(ArgumentOutOfRangeException);

    var lazy := new ParametersI.WithCount(all.value[1], 4);
    var past := lazy.GetValue(3, C_TYPE);
    assert past == Failure(ArgumentOutOfRangeException);
  }
}
