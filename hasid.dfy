/**
 * Type-erased parameters carrying their source position: the `IHasID` /
 * `IHasID<T>` interfaces, the `HasID<T>` class with its factories, and the
 * extension methods that read a typed value back out.
 *
 * The erased generic argument `T` of a `HasID<T>` becomes a runtime type tag
 * `Ty`; a cast `value as IHasID<T>` becomes a comparison of that tag with the
 * requested type, because `IHasID<T>` is invariant in `T`.
 */
module HasId {
  import opened Wrappers

  /** The type arguments a parameter source can have. An enum type is known by
      its name and by the number of members it declares. */
  datatype Ty = IntT | StrT | EnumT(name: string, memberCount: nat)

  /** Runtime values. `Null` is the null string reference; an enum value is its
      underlying integer. */
  datatype Val = IntV(i: int) | StrV(s: string) | Null | EnumV(underlying: int)

  /** Whether `v` is a value of the type `ty`. */
  predicate HasType(v: Val, ty: Ty) {
    match ty
    case IntT => v.IntV?
    case StrT => v.StrV? || v.Null?
    case EnumT(_, _) => v.EnumV?
  }

  /** `default(T)`: zero for numbers and enums, null for strings. */
  function Default(ty: Ty): (d: Val)
    ensures HasType(d, ty)
  {
    match ty
    case IntT => IntV(0)
    case StrT => Null
    case EnumT(_, _) => EnumV(0)
  }

  /** One `HasID<T>`: its position `id` in the source it was made from, its type
      argument `ty` and its `Parameter`. Only the factories below build one. */
  datatype Tagged = Tagged(id: nat, ty: Ty, parameter: Val)

  /** The parameter is a value of the declared type argument. */
  predicate WellTyped(t: Tagged) {
    HasType(t.parameter, t.ty)
  }

  /** The parameters of a sequence of tagged values, in order. */
  function ParameterValues(ts: seq<Tagged>): (vs: seq<Val>)
    ensures |vs| == |ts|
  {
    seq(|ts|, i requires 0 <= i < |ts| => ts[i].parameter)
  }

  /** The ids of a sequence of tagged values, in order. */
  function Ids(ts: seq<Tagged>): (ids: seq<nat>)
    ensures |ids| == |ts|
  {
    seq(|ts|, i requires 0 <= i < |ts| => ts[i].id)
  }

  /** `HasID<T>.CreateParameters`: `values.Select((v, i) => new HasID<T>(i, v))`.
      The requires is the C# static typing of `IEnumerable<T>`. */
  function CreateParameters(ty: Ty, values: seq<Val>): (r: seq<Tagged>)
    requires forall v <- values :: HasType(v, ty)
    ensures |r| == |values|
    ensures forall t <- r :: t.ty == ty && WellTyped(t)
  {
    seq(|values|, i requires 0 <= i < |values| => Tagged(i, ty, values[i]))
  }

  /** The underlying values of an enum's members, as `Enum.GetValues` lists them:
      members numbered 0, 1, ... in declaration order. */
  function EnumMembers(ty: Ty): (vs: seq<Val>)
    requires ty.EnumT?
    ensures |vs| == ty.memberCount
    ensures forall v <- vs :: HasType(v, ty)
  {
    seq(ty.memberCount, i requires 0 <= i < ty.memberCount => EnumV(i))
  }

  /** `HasID<T>.CreateParametersFromEnum`: an `ArgumentException` unless `T` is
      an enum, otherwise one tagged value per member in declaration order. */
  function CreateParametersFromEnum(ty: Ty): (r: Result<seq<Tagged>, Exception>)
    ensures r.Failure? <==> !ty.EnumT?
    ensures r.Failure? ==> r.error == ArgumentException
    ensures r.Success? ==> |r.value| == ty.memberCount
    ensures r.Success? ==> forall i :: 0 <= i < |r.value| ==> r.value[i] == Tagged(i, ty, EnumV(i))
  {
    if !ty.EnumT? then Failure(ArgumentException)
    else Success(CreateParameters(ty, EnumMembers(ty)))
  }

  /** `GetParameter<T>`: `(value as IHasID<T>).Parameter`, which dereferences
      null when the type argument is not `T`. */
  function GetParameter(t: Tagged, ty: Ty): (r: Result<Val, Exception>)
    ensures r.Success? <==> t.ty == ty
    ensures r.Success? ==> r.value == t.parameter
    ensures r.Failure? ==> r.error == NullReferenceException
  {
    if t.ty == ty then Success(t.parameter) else Failure(NullReferenceException)
  }

  /** `GetParameterSafe<T>` and `staticGetParameterSafeFromClass<T>`:
      `(value as IHasID<T>)?.Parameter`, null (here `None`) on a mismatch. */
  function GetParameterSafe(t: Tagged, ty: Ty): (r: Option<Val>)
    ensures r.Some? <==> t.ty == ty
    ensures r.Some? ==> r.value == t.parameter
  {
    if t.ty == ty then Some(t.parameter) else None
  }

  /** `TryGetValue<T>(out T dest)`: true with the parameter when the type
      argument is `T`, false with `default(T)` otherwise. */
  method TryGetValue(t: Tagged, ty: Ty) returns (found: bool, dest: Val)
    ensures found <==> t.ty == ty
    ensures found ==> dest == t.parameter
    ensures !found ==> dest == Default(ty)
    ensures WellTyped(t) ==> HasType(dest, ty)
  {
    if t.ty == ty {
      found, dest := true, t.parameter;
    } else {
      found, dest := false, Default(ty);
    }
  }

  /** The safe read is the strict read with the exception turned into `None`. */
  lemma SafeIsStrictWithoutException(t: Tagged, ty: Ty)
    ensures GetParameterSafe(t, ty) == GetParameter(t, ty).ToOption()
    ensures GetParameterSafe(t, ty).GetOr(Default(ty)) == if t.ty == ty then t.parameter else Default(ty)
  {
  }

  /** Identity law of the factory: the i-th tagged value has id i and reads back
      exactly the i-th input under its own type, and nothing under another. */
  lemma CreateParametersIdentity(ty: Ty, values: seq<Val>)
    requires forall v <- values :: HasType(v, ty)
    ensures ParameterValues(CreateParameters(ty, values)) == values
    ensures Ids(CreateParameters(ty, values)) == seq(|values|, i => i)
    ensures forall i :: 0 <= i < |values| ==>
      GetParameter(CreateParameters(ty, values)[i], ty) == Success(values[i])
    ensures forall i, other: Ty :: 0 <= i < |values| && other != ty ==>
      GetParameter(CreateParameters(ty, values)[i], other) == Failure(NullReferenceException)
  {
  }

  /** Enumerated-domain law: ids 0..k-1, the members in declaration order, the
      strict read under the enum type giving back member i, and every read
      under another type failing. */
  lemma EnumDomainLaw(ty: Ty)
    requires ty.EnumT?
    ensures CreateParametersFromEnum(ty).Success?
    ensures Ids(CreateParametersFromEnum(ty).value) == seq(ty.memberCount, i => i)
    ensures ParameterValues(CreateParametersFromEnum(ty).value) == EnumMembers(ty)
    ensures forall i :: 0 <= i < ty.memberCount ==>
      GetParameter(CreateParametersFromEnum(ty).value[i], ty) == Success(EnumV(i))
    ensures forall i, other: Ty :: 0 <= i < ty.memberCount && other != ty ==>
      GetParameter(CreateParametersFromEnum(ty).value[i], other) == Failure(NullReferenceException)
  {
    CreateParametersIdentity(ty, EnumMembers(ty));
  }
}
