# ParameterCombination: a verified model of the combination engine

ParameterCombination enumerates every combination of several parameter
sources, one value per source. It hands each combination back as a tuple that
can be read by position and type. This project models the engine in
`ParameterCombination/Combination.cs` and proves the properties its callers
rely on:

- **Tagged values** (`HasId`). A `HasID<T>` is a datatype `Tagged(id, ty,
  parameter)`. The erased type argument `T` becomes a runtime tag `Ty`
  (`IntT`, `StrT`, or `EnumT(name, memberCount)`). The factories
  `CreateParameters` and `CreateParametersFromEnum` are functions. So are the
  readers `GetParameter` and `GetParameterSafe`; `TryGetValue` is a method
  with two out-parameters. A cast `value as IHasID<T>` becomes a comparison of
  tags, because `IHasID<T>` is invariant in `T`.
- **A reference enumeration** (`CartesianProduct`). `Product(ss)` is the
  nested loop `for v1 in s1 … for vn in sn`. `Size` is the product of the
  source sizes. `Rank` reads an index vector as a mixed-radix number. Lemmas
  prove the cardinality law, the membership law (no omissions, nothing
  foreign), the ordering law and that different choices land at different
  positions.
- **The combinator** (`Combination`). The two `Combine` overloads are the
  recursive functions `Combine` (outer product of two sources) and `Extend`
  (each tuple extended by one element of a further source). `SelectMany` is
  modelled as concatenation over the first argument. `CreateValuesCore` is a
  method that combines the first two sources and then folds the others in with
  a loop. It is proved equal to `Product`. `CreateValues` and
  `CreateValuesFromRaw` are the entry points built on it.
- **The tuple views** (`Tuples`). `Parameters` copies the tuple into an
  `array` and fixes `Count`. `ParametersI` keeps the sequence and a count
  (given by the caller or derived). Both `GetValue` methods are specified
  through one read function, `ReadAt`.
- **Scenarios** (`Scenarios`). Four calls of the demonstration program
  (`ParameterCombination/Program.cs`) are stated as lemmas:
  - `paramsA`: three enums of 3, 3 and 5 members give 45 tuples;
  - `paramsB`: the sources 5..14 and 99, 999, 9999 give 30 pairs;
  - `paramsC`: `CreateValuesFromRaw` over the same raw values gives the same
    30 pairs;
  - `paramsD`: the mixed call over `pb1`, `pb2`, `pa1` and `pa2` gives
    10 * 3 * 3 * 3 = 270 tuples, each readable as (int, int, AType, BType).
    The same reads cover the `ParametersI(v, 4)` views of `paramsE`.

  A single-source lemma covers the `CreateValuesCore` branch for one source.
  A client method shows what callers can prove from the contracts alone.

Exceptions become `Result` values whose error is an `Exception` constructor
(`ArgumentException`, `NullReferenceException` or
`ArgumentOutOfRangeException`). No `requires` excludes an input that the code
handles.

The model follows the code in these details:

- A strict read under the wrong type does not raise a dedicated type-mismatch
  error. `(value as IHasID<T>).Parameter` dereferences null, so it raises a
  `NullReferenceException` (`Combination.cs:122-126`).
- An index outside `[0, Count)` raises `ArgumentOutOfRangeException`
  (`Combination.cs:253-259`, `282-288`).
- `ParametersI` accepts any count (`Combination.cs:266-270`). With a count
  larger than the tuple, `ElementAt` past the end also raises
  `ArgumentOutOfRangeException`. With a smaller count, the positions at or above
  it fail. `ReadAt` and `ViewsAgree` state this.
- In the row-major order, the 30-pair integer scenario has `(5, 9999)` at
  position 2 and `(6, 99)` at position 3 (`IntScenario`).

## Model

| member | source | states |
|---|---|---|
| `HasId.CreateParameters` | ParameterCombination/Combination.cs:195-198 | one tagged value per input element; every one carries the source's type argument and a parameter of that type |
| `HasId.CreateParametersIdentity` | ParameterCombination/Combination.cs:195-198 | the i-th tagged value has id i; the parameters read back are exactly the input in order; a strict read under the source's type returns the i-th element and under any other type fails with NullReferenceException; an empty input gives an empty output |
| `HasId.CreateParametersFromEnum` | ParameterCombination/Combination.cs:205-212 | ArgumentException exactly when the type is not an enum; otherwise k tagged values, the i-th being member i with id i |
| `HasId.EnumDomainLaw` | ParameterCombination/Combination.cs:205-212 | for an enum with k members: success, ids 0..k-1, parameters the members in declaration order; a strict read of the i-th value under the enum type returns member i, and under any other type fails with NullReferenceException |
| `HasId.GetParameter` | ParameterCombination/Combination.cs:122-126 | succeeds exactly when the requested type is the type argument, and then returns the stored parameter; otherwise NullReferenceException |
| `HasId.GetParameterSafe` | ParameterCombination/Combination.cs:109-138 | Some(parameter) exactly when the requested type is the type argument, None otherwise |
| `HasId.SafeIsStrictWithoutException` | ParameterCombination/Combination.cs:109-138 | the safe read is the strict read with the exception turned into None |
| `HasId.TryGetValue` | ParameterCombination/Combination.cs:147-160 | true with the stored parameter exactly when the type matches, false with default(T) otherwise; the out value is always of type T |
| `Combination.Combine` | ParameterCombination/Combination.cs:33-36 | the pairwise product has \|values1\| * \|values2\| tuples |
| `Combination.CombineAt` | ParameterCombination/Combination.cs:33-36 | the pair (values1[i], values2[j]) is at position i * \|values2\| + j, so values1 varies slowest |
| `Combination.CombineAtIndex` | ParameterCombination/Combination.cs:33-36 | the k-th tuple is [values1[k / \|values2\|], values2[k % \|values2\|]] |
| `Combination.CombineIsProduct` | ParameterCombination/Combination.cs:33-36 | the pairwise product is the nested-loop product of the two sources |
| `Combination.Extend` | ParameterCombination/Combination.cs:45-48 | extending gives \|values1\| * \|values2\| tuples |
| `Combination.ExtendAt` | ParameterCombination/Combination.cs:45-48 | prior tuple p followed by values2[j] is at position p * \|values2\| + j (row-major over prior, next) |
| `Combination.ExtendAtIndex` | ParameterCombination/Combination.cs:45-48 | the k-th tuple is values1[k / \|values2\|] + [values2[k % \|values2\|]] |
| `Combination.ExtendMember` | ParameterCombination/Combination.cs:45-48 | every extended tuple is a prior tuple followed by exactly one element of values2, one longer than that prior |
| `Combination.SingletonsIsProduct` | ParameterCombination/Combination.cs:84-87 | with one source, the result is one singleton tuple per element, in source order, which is the product of that one source |
| `Combination.ProductSnoc` | ParameterCombination/Combination.cs:90-93 | folding one more source in with the extending overload equals the nested-loop product with that source appended |
| `Combination.CreateValuesCore` | ParameterCombination/Combination.cs:77-97 | ArgumentException exactly when there are no sources; one source gives its singletons; otherwise the result is the nested-loop product, with the product of the sizes as its length, and it holds exactly the tuples whose i-th component comes from source i |
| `Combination.CreateValues` | ParameterCombination/Combination.cs:67-70 | ArgumentException exactly for no sources, otherwise the nested-loop product of the sources |
| `Combination.CreateValuesFromRaw` | ParameterCombination/Combination.cs:57-60 | ArgumentException exactly for no sources, otherwise the product of the sources each tagged by CreateParameters |
| `Combination.TaggedProductAt` | ParameterCombination/Combination.cs:195-198 | in the combination chosen by an index vector, component i has id idx[i], source i's type and source i's idx[i]-th raw value: ids are positions in the originating source, not in the tuple |
| `CartesianProduct.Product` | ParameterCombination/Combination.cs:88-96 | the nested-loop enumeration has the product of the source sizes as its length |
| `CartesianProduct.ProductMember` | ParameterCombination/Combination.cs:88-96 | a tuple is enumerated exactly when it has one component per source and its i-th component is in source i |
| `CartesianProduct.ProductAt` | ParameterCombination/Combination.cs:88-96 | the tuple chosen by the index vector idx is at the mixed-radix position Rank(idx), whose digits weigh the product of the later source sizes, so source 1 varies slowest and source n fastest |
| `CartesianProduct.RankInjective` | ParameterCombination/Combination.cs:88-96 | different index vectors have different positions, so the enumeration has no duplicate choices |
| `Tuples.ReadAt` | ParameterCombination/Combination.cs:282-288 | success exactly for an index in [0, count) and within the tuple whose element has the requested type, returning its parameter; ArgumentOutOfRangeException outside; NullReferenceException on a type mismatch |
| `Tuples.Parameters.constructor` | ParameterCombination/Combination.cs:243-247 | the view copies the tuple into a fresh array and Count is its length |
| `Tuples.Parameters.GetValue` | ParameterCombination/Combination.cs:253-259 | ArgumentOutOfRangeException unless 0 <= index < Count; otherwise the strict read of the element at index |
| `Tuples.ParametersI.WithCount` | ParameterCombination/Combination.cs:266-270 | the view keeps the tuple and the count the caller gives |
| `Tuples.ParametersI.constructor` | ParameterCombination/Combination.cs:272-275 | the view keeps the tuple and Count is its length |
| `Tuples.ParametersI.GetValue` | ParameterCombination/Combination.cs:282-288 | ArgumentOutOfRangeException unless 0 <= index < Count and the index is within the tuple; otherwise the strict read of the element at index |
| `Tuples.ViewsAgree` | ParameterCombination/Combination.cs:264-288 | the lazy view with count c reads like the eager view below c and fails with ArgumentOutOfRangeException at and above it; with the derived count the two read contracts coincide |
| `Tuples.ProducedTupleReads` | ParameterCombination/Combination.cs:253-259 | when source i holds only values of type argument i, every produced tuple has one component per source, and reading position i under type argument i through a view of that count returns the component's parameter |
| `Tuples.GetValueRoundTrip` | ParameterCombination/Combination.cs:253-259 | on a produced combination, GetValue(i) under source i's type returns the raw value placed at position i, under another type fails with NullReferenceException, and outside [0, count) fails with ArgumentOutOfRangeException |
| `Scenarios.ThreeSourcesAt` | ParameterCombination/Program.cs:34-38 | in a product of three sources, choice (a, b, c) is at position a * \|s1\| * \|s2\| + b * \|s2\| + c |
| `Scenarios.EnumTupleAt` | ParameterCombination/Program.cs:34-38 | for the enums AType, BType and CType, members (a, b, c) are at position a * 15 + b * 5 + c |
| `Scenarios.EnumScenario` | ParameterCombination/Program.cs:34-47 | 45 tuples; the first (A1, B1, C1), the second (A1, B1, C2), the last (A3, B3, C5) |
| `Scenarios.IntScenario` | ParameterCombination/Program.cs:50-62 | 30 pairs; position 2 is (5, 9999); position 3 is (6, 99), with ids (1, 0) |
| `Scenarios.SingleSourceScenario` | ParameterCombination/Combination.cs:84-87 | the one source `pb2` of three values gives three singleton tuples |
| `Scenarios.RawScenario` | ParameterCombination/Program.cs:64-77 | tagging 5..14 and 99, 999, 9999 as `int` gives exactly `pb1` and `pb2`, so `CreateValuesFromRaw(pc1, pc2)` yields the same 30 pairs as `CreateValues(pb1, pb2)` |
| `Scenarios.MixedCount` | ParameterCombination/Program.cs:80-87 | `CreateValues(pb1, pb2, pa1, pa2)` has 270 tuples |
| `Scenarios.FourSourcesRead` | ParameterCombination/Program.cs:80-93 | in a four-source product, every tuple reads back under the sources' types through a count-4 view; a wrong type at position 2 and position 4 fail |
| `Scenarios.MixedReads` | ParameterCombination/Program.cs:80-93 | every tuple of the mixed call reads as (int, int, AType, BType) through `Parameters` and through `ParametersI(v, 4)`; reading position 2 as int raises NullReferenceException and position 4 raises ArgumentOutOfRangeException |

## Left out

- The `ToString` overrides (`Combination.cs:228`, `261`, `289`). They only build diagnostic text.
- `ParameterCombination/Program.cs` as a program. It only writes to the console. The `paramsA` to `paramsD` calls and the `ParametersI(v, 4)` views of `paramsE` appear as `Scenarios` lemmas.
- `paramsE`'s `Where` filter (`GetValue<int>(0) * GetValue<int>(1) > 1000`), the `ToParameters` calls and the `Sample*` callbacks. `ToParameters` is not modelled, and the filter and callbacks are client code.
- `ParameterHelper.ToParameters` and `ToParametersI` (`Combination.cs:236-237`). These convenience mappers wrap each tuple in a view. They are not part of the modelled core.
- Lazy enumeration. `IEnumerable` deferred execution, `.ToArray()` and `ElementAt` are all modelled on `seq`. Their read contract is the same.
- Runtime reflection. `typeof(T).IsEnum` becomes `ty.EnumT?`. `Enum.GetValues` becomes the member values 0..k-1. Enums with explicit or duplicate underlying values are not modelled, because `Enum.GetValues` orders members by value.
- The CLR type system beyond the three type tags. A `HasID<T>` for any other `T` is not modelled.
- Null. A `null` params array passed to `CreateValuesCore` and null sources are not modelled. The two safe readers, `GetParameterSafe` for value types and `staticGetParameterSafeFromClass` for reference types, are one `Option`-returning function. So a `HasID<string>` that stores `null` reads back as `Some(Null)` in the model. In C#, `staticGetParameterSafeFromClass` returns `null` there, the same as for a type mismatch.
- The forwarding wrappers `HasID.CreateParameters` and `HasID.CreateParametersFromEnum` (`Combination.cs:168-185`). They have the same semantics as `HasID<T>`'s factories, which model both.
- `HasId.CreateParameters`: its `requires` is C#'s static typing of `IEnumerable<T>`. Every element must be a value of `T`.
- Ids are unbounded `nat`s. The overflow of the `int` index that `Select` passes past 2^31 - 1 elements is not modelled.
