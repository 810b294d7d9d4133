/**
 * The two views over one produced combination: `Parameters`, which copies
 * the tuple into an array, and `ParametersI`, which keeps the sequence and a
 * count. Both read through the same index-checked `GetValue<T>`.
 */
module Tuples {
  import opened Wrappers
  import opened HasId
  import opened CartesianProduct
  import opened Combination

  /** The read shared by both views: `-1 < index && index < Count` or an
      `ArgumentOutOfRangeException`; then the element at `index` (whose lookup
      also throws `ArgumentOutOfRangeException` past the end of the sequence)
      read strictly under `ty`. */
  function ReadAt(elements: seq<Tagged>, count: int, index: int, ty: Ty): (r: Result<Val, Exception>)
    ensures r.Success? <==> 0 <= index < count && index < |elements| && elements[index].ty == ty
    ensures r.Success? ==> r.value == elements[index].parameter
    ensures !(0 <= index < count && index < |elements|) ==> r == Failure(ArgumentOutOfRangeException)
    ensures 0 <= index < count && index < |elements| && elements[index].ty != ty ==>
      r == Failure(NullReferenceException)
  {
    if -1 < index && index < count then
      if index < |elements| then GetParameter(elements[index], ty) else Failure(ArgumentOutOfRangeException)
    else Failure(ArgumentOutOfRangeException)
  }

  /** The eager view: the tuple copied into a private array, `Count` its length. */
  class Parameters {
    const Count: int
    const values: array<Tagged>

    ghost predicate Valid()
      reads this
    {
      values.Length == Count
    }

    /** The copied tuple. */
    function Elements(): seq<Tagged>
      reads this, values
    {
      values[..]
    }

    /** `new Parameters(values)`: `values.ToArray()` and its count. */
    constructor (values: seq<Tagged>)
      ensures Valid() && fresh(this.values)
      ensures Count == |values| && Elements() == values
    {
      this.values := new Tagged[|values|](i requires 0 <= i < |values| => values[i]);
      Count := |values|;
    }

    /** `GetValue<T>(index)`. */
    method GetValue(index: int, ty: Ty) returns (r: Result<Val, Exception>)
      requires Valid()
      ensures r.Success? <==> 0 <= index < Count && values[index].ty == ty
      ensures r.Success? ==> r.value == values[index].parameter
      ensures !(0 <= index < Count) ==> r == Failure(ArgumentOutOfRangeException)
      ensures 0 <= index < Count && values[index].ty != ty ==> r == Failure(NullReferenceException)
      ensures r == ReadAt(Elements(), Count, index, ty)
    {
      if -1 < index && index < Count {
        r := GetParameter(values[index], ty);
      } else {
        r := Failure(ArgumentOutOfRangeException);
      }
    }
  }

  /** The lazy view: the tuple kept as it is, with a count given by the caller
      or taken from the tuple. */
  class ParametersI {
    const Count: int
    const values: seq<Tagged>

    /** `new ParametersI(values, count)`. */
    constructor WithCount(values: seq<Tagged>, count: int)
      ensures this.values == values && Count == count
    {
      this.values := values;
      Count := count;
    }

    /** `new ParametersI(values)`: the count is `values.Count()`. */
    constructor (values: seq<Tagged>)
      ensures this.values == values && Count == |values|
    {
      this.values := values;
      Count := |values|;
    }

    /** `GetValue<T>(index)`: `values.ElementAt(index)` after the count check. */
    method GetValue(index: int, ty: Ty) returns (r: Result<Val, Exception>)
      ensures r.Success? <==> 0 <= index < Count && index < |values| && values[index].ty == ty
      ensures r.Success? ==> r.value == values[index].parameter
      ensures !(0 <= index < Count && index < |values|) ==> r == Failure(ArgumentOutOfRangeException)
      ensures r == ReadAt(values, Count, index, ty)
    {
      if -1 < index && index < Count {
        if index < |values| {
          r := GetParameter(values[index], ty);
        } else {
          r := Failure(ArgumentOutOfRangeException);
        }
      } else {
        r := Failure(ArgumentOutOfRangeException);
      }
    }
  }

  /** The lazy view with an explicit count reads like the eager view below that
      count and fails with `ArgumentOutOfRangeException` at and above it; with
      the derived count the two views agree everywhere. */
  lemma ViewsAgree(elements: seq<Tagged>, count: int, index: int, ty: Ty)
    ensures ReadAt(elements, count, index, ty) ==
      if index < count then ReadAt(elements, |elements|, index, ty) else Failure(ArgumentOutOfRangeException)
  {
  }

  /** Round-trip and bounds laws over a produced combination: in the tuple that
      `idx` chooses, position i read under the i-th source's type gives back the
      raw value put there, under any other type it fails with a
      `NullReferenceException`, and outside [0, count) it fails with an
      `ArgumentOutOfRangeException`. */
  lemma GetValueRoundTrip(tys: seq<Ty>, raws: seq<seq<Val>>, idx: seq<nat>, index: int, ty: Ty)
    requires |tys| == |raws|
    requires forall i, v :: 0 <= i < |raws| && v in raws[i] ==> HasType(v, tys[i])
    requires IsIndexOf(idx, raws)
    ensures IsIndexOf(idx, TagAll(tys, raws))
    ensures Rank(TagAll(tys, raws), idx) < |Product(TagAll(tys, raws))|
    ensures
      var tuple := Product(TagAll(tys, raws))[Rank(TagAll(tys, raws), idx)];
      ReadAt(tuple, |tuple|, index, ty) ==
        if !(0 <= index < |raws|) then Failure(ArgumentOutOfRangeException)
        else if ty == tys[index] then Success(raws[index][idx[index]])
        else Failure(NullReferenceException)
  {
    TaggedProductAt(tys, raws, idx);
  }

  /** Every produced combination reads back under its sources' types: when
      each source holds only values of one type argument, position i of any
      tuple in the product, read under source i's type through a view whose
      count is the number of sources, returns that component's parameter. */
  lemma ProducedTupleReads(ss: seq<seq<Tagged>>, tys: seq<Ty>, t: seq<Tagged>)
    requires |tys| == |ss|
    requires forall i, x :: 0 <= i < |ss| && x in ss[i] ==> x.ty == tys[i]
    requires t in Product(ss)
    ensures |t| == |ss|
    ensures forall i :: 0 <= i < |ss| ==> ReadAt(t, |ss|, i, tys[i]) == Success(t[i].parameter)
  {
    ProductMember(ss, t);
  }
}
