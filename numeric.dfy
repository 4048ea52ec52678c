/** Values as the pricing classes hold them: a float or a one-dimensional
    float array, where any element may be NaN ("absent"). NaN is modelled
    explicitly as `None`, so that "absent" is never confused with a number. */
module Numeric {

  datatype Option<+T> = None | Some(value: T)

  /** One float: `None` stands for NaN. */
  type Num = Option<real>

  /** What a price, a volatility, a parameter, d1/d2 or a greek holds. */
  datatype Value = Scalar(x: Num) | Array(xs: seq<Num>)

  /** The scalar `np.nan` that the classes store to mark a side absent. */
  const Nan: Value := Scalar(None)

  /** Failures of a read that the source does not turn into NaN. */
  datatype Failure =
    | AmbiguousTruth      // `if np.isnan(v)` on an array that is not one element long raises
    | EndlessRecursion    // resolution re-enters itself with the same inputs without end
    | NoSuchAttribute     // a greek the class was not built with has no property (AttributeError)

  datatype Result<+T> = Ok(value: T) | Err(failure: Failure)

  /** `np.any(np.isnan(v))`: some element is NaN (false for an empty array). */
  predicate AnyAbsent(v: Value): (b: bool)
    ensures v.Scalar? ==> (b <==> v.x == None)
    ensures v.Array? ==> (b <==> None in v.xs)
  {
    match v
    case Scalar(x) => x.None?
    case Array(xs) => exists i :: 0 <= i < |xs| && xs[i].None?
  }

  /** `np.array(v).reshape(1, -1).flatten()`: the elements in order. */
  function Flatten(v: Value): (r: seq<Num>)
    ensures v.Scalar? ==> r == [v.x]
    ensures v.Array? ==> r == v.xs
    ensures AnyAbsent(v) <==> exists i :: 0 <= i < |r| && r[i].None?
  {
    match v
    case Scalar(x) => var r := [x]; assert r[0] == x; r
    case Array(xs) => xs
  }

  /** How a solver result is stored: a longer result as an array, a
      one-element result unpacked to a scalar (`res, = res`), and an empty
      result not at all, because that unpacking raises. */
  function Unpack(xs: seq<Num>): (r: Option<Value>)
    ensures r.Some? <==> |xs| > 0
    ensures r.Some? ==> Flatten(r.value) == xs
    ensures r.Some? ==> (r.value.Scalar? <==> |xs| == 1)
  {
    if |xs| > 1 then Some(Array(xs))
    else if |xs| == 1 then Some(Scalar(xs[0]))
    else None
  }

  /** The truth value of `np.isnan(v)` in an `if`: defined for a scalar and a
      one-element array; any other array raises "truth value of an array is
      ambiguous" (`None` here). */
  function NanTruth(v: Value): (r: Option<bool>)
    ensures v.Scalar? ==> r.Some?
    ensures v.Array? ==> (r.Some? <==> |v.xs| == 1)
    ensures r.Some? ==> r.value == AnyAbsent(v)
  {
    match v
    case Scalar(x) => Some(x.None?)
    case Array(xs) => if |xs| == 1 then Some(xs[0].None?) else None
  }
}
