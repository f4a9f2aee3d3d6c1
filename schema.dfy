/**
 * The superstruct struct kinds the project's schemas are built from, applied
 * with masking and coercion (`mask(...)`, or `validate` with `mask: true,
 * coerce: true`): unknown keys of an object are dropped, a `defaulted` field
 * that is absent takes its default, and a present field must have its type.
 * A key that is absent reads as `undefined`.
 */
module Schema {
  import opened Wrappers
  import opened JsonText

  /** A `StructError`: the value is not an object, or names the first field, in schema order, that failed. */
  datatype StructError = ExpectedObject | InvalidField(key: string)

  type Fields = map<string, Json>

  /** `nonempty(string())` */
  function NonEmptyString(f: Fields, key: string): (r: Result<string, StructError>)
    ensures r.Success? <==> key in f && f[key].JStr? && f[key].s != ""
    ensures r.Success? ==> r.value == f[key].s
    ensures r.Failure? ==> r.error == InvalidField(key)
  {
    if key in f && f[key].JStr? && f[key].s != "" then Success(f[key].s) else Failure(InvalidField(key))
  }

  /** `string()` */
  function RequiredString(f: Fields, key: string): (r: Result<string, StructError>)
    ensures r.Success? <==> key in f && f[key].JStr?
    ensures r.Success? ==> r.value == f[key].s
    ensures r.Failure? ==> r.error == InvalidField(key)
  {
    if key in f && f[key].JStr? then Success(f[key].s) else Failure(InvalidField(key))
  }

  /** `optional(string())` */
  function OptionalString(f: Fields, key: string): (r: Result<Option<string>, StructError>)
    ensures r.Success? <==> key !in f || f[key].JStr?
    ensures r.Success? ==> r.value == if key in f then Some(f[key].s) else None
    ensures r.Failure? ==> r.error == InvalidField(key)
  {
    if key !in f then Success(None)
    else if f[key].JStr? then Success(Some(f[key].s))
    else Failure(InvalidField(key))
  }

  /** `optional(number())` */
  function OptionalNumber(f: Fields, key: string): (r: Result<Option<real>, StructError>)
    ensures r.Success? <==> key !in f || f[key].JNum?
    ensures r.Success? ==> r.value == if key in f then Some(f[key].n) else None
    ensures r.Failure? ==> r.error == InvalidField(key)
  {
    if key !in f then Success(None)
    else if f[key].JNum? then Success(Some(f[key].n))
    else Failure(InvalidField(key))
  }

  /** `defaulted(string(), fallback)` */
  function DefaultedString(f: Fields, key: string, fallback: string): (r: Result<string, StructError>)
    ensures r.Success? <==> key !in f || f[key].JStr?
    ensures r.Success? ==> r.value == if key in f then f[key].s else fallback
    ensures r.Failure? ==> r.error == InvalidField(key)
  {
    if key !in f then Success(fallback)
    else if f[key].JStr? then Success(f[key].s)
    else Failure(InvalidField(key))
  }

  /** `defaulted(boolean(), fallback)` */
  function DefaultedBool(f: Fields, key: string, fallback: bool): (r: Result<bool, StructError>)
    ensures r.Success? <==> key !in f || f[key].JBool?
    ensures r.Success? ==> r.value == if key in f then f[key].b else fallback
    ensures r.Failure? ==> r.error == InvalidField(key)
  {
    if key !in f then Success(fallback)
    else if f[key].JBool? then Success(f[key].b)
    else Failure(InvalidField(key))
  }
}
