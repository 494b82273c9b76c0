/**
 * The timestamp normalizer of the auto-sign-out job: a stored `time_in`
 * value, of whatever shape, is turned into epoch milliseconds or into
 * "no value" (`null` in the job).
 */
module Timestamps {
  import opened Wrappers

  /**
   * The stored JavaScript values the normalizer can be handed, as a closed
   * union. `Func(result)` is a callable that yields `result` when called
   * with no arguments. `Obj(members, date)` is any non-null object:
   * `members` are the properties reachable with `in` (own or inherited),
   * and `date` is `Some(t)` exactly when the object is an instance of
   * `Date`, `t` being what its `getTime()` returns. Numbers are whole
   * milliseconds.
   */
  datatype Value =
    | Undefined
    | Null
    | Bool(b: bool)
    | Number(n: int)
    | Str(s: string)
    | Func(result: int)
    | Obj(members: map<string, Value>, date: Option<int>)

  /** A store timestamp holding `ms`: an object whose `toMillis()` yields `ms`. */
  function TimestampOf(ms: int): Value {
    Obj(map["toMillis" := Func(ms)], None)
  }

  /** A `Date` whose `getTime()` yields `ms` and that has no `toMillis` member. */
  function DateOf(ms: int): Value {
    Obj(map[], Some(ms))
  }

  /**
   * The structural test of the source: a non-null object that has a
   * `toMillis` member which is a function.
   */
  predicate IsTimestampLike(v: Value)
    ensures IsTimestampLike(v) ==> v.Obj?
  {
    v.Obj? && "toMillis" in v.members && v.members["toMillis"].Func?
  }

  /**
   * Epoch milliseconds of a stored value, or `None` where the source
   * returns `null`. `parse` stands for `Date.parse` followed by the NaN
   * test: `parse(s) == None` means `Date.parse(s)` is NaN.
   * Only objects and strings ever normalize.
   */
  function ToMillis(v: Value, parse: string -> Option<int>): (r: Option<int>)
    ensures r.Some? ==> v.Obj? || v.Str?
    ensures v.Obj? && v.date.None? && !IsTimestampLike(v) ==> r.None?
  {
    if IsTimestampLike(v) then Some(v.members["toMillis"].result)
    else if v.Obj? && v.date.Some? then Some(v.date.value)
    else if v.Str? then parse(v.s)
    else None
  }

  /**
   * The case table of the normalizer: a timestamp-like object gives its
   * own `toMillis()`, otherwise a `Date` gives `getTime()`, a string gives
   * what `Date.parse` gives, and every other value gives `None`.
   */
  lemma ToMillisCases(v: Value, parse: string -> Option<int>)
    ensures IsTimestampLike(v) ==> ToMillis(v, parse) == Some(v.members["toMillis"].result)
    ensures !IsTimestampLike(v) && v.Obj? && v.date.Some? ==> ToMillis(v, parse) == Some(v.date.value)
    ensures v.Str? ==> ToMillis(v, parse) == parse(v.s)
    ensures !v.Obj? && !v.Str? ==> ToMillis(v, parse) == None
  {
  }

  /**
   * `ToMillis` is `None` exactly for an unparseable string, or for a value
   * that is neither timestamp-like, nor a `Date`, nor a string.
   */
  lemma ToMillisNoneIff(v: Value, parse: string -> Option<int>)
    ensures ToMillis(v, parse).None? <==>
      (v.Str? && parse(v.s).None?) ||
      (!IsTimestampLike(v) && !(v.Obj? && v.date.Some?) && !v.Str?)
  {
  }

  /** The timestamp the job writes as `time_out` normalizes back to its millisecond value. */
  lemma ToMillisOfTimestamp(ms: int, parse: string -> Option<int>)
    ensures ToMillis(TimestampOf(ms), parse) == Some(ms)
  {
  }

  /** A `toMillis` member takes precedence over `Date`-ness, which takes precedence over nothing. */
  lemma TimestampLikeWinsOverDate(ms: int, t: int, parse: string -> Option<int>)
    ensures ToMillis(Obj(map["toMillis" := Func(ms)], Some(t)), parse) == Some(ms)
    ensures ToMillis(DateOf(t), parse) == Some(t)
    ensures ToMillis(Obj(map["toMillis" := Number(ms)], None), parse) == None
  {
  }
}
