/** The pricing-model base: the names a model class is built with, the
    dispatch of lazy resolution, and the base `Model` class whose resolution
    steps are the stubs that a concrete model overrides. */
module Base {
  import opened Numeric

  /** The ten greeks a model class can be built to track. */
  datatype Greek = Delta | Gamma | Vega | Theta | Rho | Vanna | Charm | Vomma | Speed | Zomma

  /** The order in which `_update_greeks` refreshes the tracked greeks
      (rho comes before theta here, unlike in the default greek list). */
  const UpdateOrder: seq<Greek> := [Delta, Gamma, Vega, Rho, Theta, Vanna, Charm, Vomma, Speed, Zomma]

  lemma UpdateOrderListsEachGreekOnce(g: Greek)
    ensures g in UpdateOrder
    ensures |UpdateOrder| == 10
    ensures forall i, j :: 0 <= i < j < |UpdateOrder| ==> UpdateOrder[i] != UpdateOrder[j]
  {
  }

  /** The five option parameters; each has a plain getter and setter. */
  datatype Param = Spot | Strike | Tte | Ir | Div

  datatype Params = Params(spot: Value, strike: Value, tte: Value, ir: Value, div: Value)

  /** Reading `_<p>`. */
  function ParamOf(ps: Params, p: Param): Value
  {
    match p
    case Spot => ps.spot
    case Strike => ps.strike
    case Tte => ps.tte
    case Ir => ps.ir
    case Div => ps.div
  }

  /** Writing `_<p>` (base_setter): only that parameter changes. */
  function WithParam(ps: Params, p: Param, v: Value): (r: Params)
    ensures ParamOf(r, p) == v
    ensures forall q :: q != p ==> ParamOf(r, q) == ParamOf(ps, q)
  {
    match p
    case Spot => ps.(spot := v)
    case Strike => ps.(strike := v)
    case Tte => ps.(tte := v)
    case Ir => ps.(ir := v)
    case Div => ps.(div := v)
  }

  /** Which resolution step `_update_values` takes. */
  datatype Action = SolveVol | PriceFromVol | Nothing

  /** An absent vol is resolved first, even when the price is absent too;
      only with every vol element present is an absent price computed. */
  function Dispatch(price: Value, vol: Value): (a: Action)
    ensures a == SolveVol <==> AnyAbsent(vol)
    ensures a == PriceFromVol <==> !AnyAbsent(vol) && AnyAbsent(price)
    ensures a == Nothing <==> !AnyAbsent(vol) && !AnyAbsent(price)
  {
    if AnyAbsent(vol) then SolveVol
    else if AnyAbsent(price) then PriceFromVol
    else Nothing
  }

  /** `str.upper` on one character; only ASCII letters are mapped, since no
      other character upper-cases to one of the letters of "CALL". */
  function UpperChar(c: char): char
  {
    if 'a' <= c <= 'z' then (c as int - 32) as char else c
  }

  function Upper(t: string): (u: string)
    ensures |u| == |t|
    ensures forall i :: 0 <= i < |t| ==> u[i] == UpperChar(t[i])
  {
    seq(|t|, i requires 0 <= i < |t| => UpperChar(t[i]))
  }

  /** `option_type.upper() in ["C", "CALL"]`; every other token is a put. */
  predicate IsCallToken(t: string): (b: bool)
    ensures b ==> |t| == 1 || |t| == 4
    ensures b ==> t[0] == 'c' || t[0] == 'C'
  {
    Upper(t) == "C" || Upper(t) == "CALL"
  }

  lemma {:induction false} CallTokensAreCaseInsensitive(t: string)
    ensures IsCallToken(t) <==>
      (|t| == 1 && t[0] in "cC") ||
      (|t| == 4 && t[0] in "cC" && t[1] in "aA" && t[2] in "lL" && t[3] in "lL")
  {
    var u := Upper(t);
    if |t| == 1 {
      assert u == "C" <==> u[0] == 'C';
    } else if |t| == 4 {
      assert u == "CALL" <==> u[0] == 'C' && u[1] == 'A' && u[2] == 'L' && u[3] == 'L';
    } else {
      assert |u| != 1 && |u| != 4;
    }
  }

  /** Tracked greeks start out NaN (the class attribute `_<greek> = np.nan`). */
  function AllAbsent(tracked: set<Greek>): (m: map<Greek, Value>)
    ensures m.Keys == tracked
    ensures forall g :: g in m ==> m[g] == Nan
  {
    map g | g in tracked :: Nan
  }

  /** The class `PricingModelBase` creates. `tracked` is the greek list the
      class was created with; `resolveOnRead` is the getter factory it was
      given for the generated parameter and greek properties: `gen_getter`
      (resolve, then read) when true, `base_getter` (plain read) when false.
      Its own price and vol properties do not depend on that choice. */
  class Model {
    const tracked: set<Greek>
    const resolveOnRead: bool
    const optionType: string
    const isCall: bool
    var price: Value
    var vol: Value
    var spot: Value
    var strike: Value
    var tte: Value
    var ir: Value
    var div: Value
    var greeks: map<Greek, Value>

    /** Greek properties have no setter, and every stub writer stores NaN,
        so the tracked greeks stay NaN for the whole life of a `Model`. */
    ghost predicate Valid()
      reads this
    {
      greeks == AllAbsent(tracked) && isCall == IsCallToken(optionType)
    }

    function Parameters(): Params
      reads this
    {
      Params(spot, strike, tte, ir, div)
    }

    /** Every argument is stored as given; price and vol do not clear each other here. */
    constructor (tracked: set<Greek>, resolveOnRead: bool, strike: Value, tte: Value, ir: Value,
                 div: Value, optionType: string, spot: Value, price: Value, vol: Value)
      ensures Valid()
      ensures this.tracked == tracked && this.resolveOnRead == resolveOnRead
      ensures this.price == price && this.vol == vol
      ensures Parameters() == Params(spot, strike, tte, ir, div)
      ensures this.optionType == optionType && isCall == IsCallToken(optionType)
      ensures greeks == AllAbsent(tracked)
    {
      this.tracked := tracked;
      this.resolveOnRead := resolveOnRead;
      this.strike := strike;
      this.tte := tte;
      this.ir := ir;
      this.div := div;
      this.vol := vol;
      this.price := price;
      this.spot := spot;
      this.optionType := optionType;
      this.isCall := IsCallToken(optionType);
      this.greeks := AllAbsent(tracked);
    }

    /** The price setter: a present price (every element) makes vol absent;
        an absent price leaves vol alone. */
    method SetPrice(value: Value) returns (r: Result<()>)
      modifies this`price, this`vol
      ensures NanTruth(value).None? ==> r == Err(AmbiguousTruth) && price == old(price) && vol == old(vol)
      ensures NanTruth(value).Some? ==> r == Ok(()) && price == value
      ensures NanTruth(value) == Some(false) ==> vol == Nan
      ensures NanTruth(value) == Some(true) ==> vol == old(vol)
    {
      var absent := NanTruth(value);
      if absent.None? {
        return Err(AmbiguousTruth);
      }
      if !absent.value {
        vol := Nan;
      }
      price := value;
      r := Ok(());
    }

    /** The vol setter, symmetric to the price setter. */
    method SetVol(value: Value) returns (r: Result<()>)
      modifies this`price, this`vol
      ensures NanTruth(value).None? ==> r == Err(AmbiguousTruth) && price == old(price) && vol == old(vol)
      ensures NanTruth(value).Some? ==> r == Ok(()) && vol == value
      ensures NanTruth(value) == Some(false) ==> price == Nan
      ensures NanTruth(value) == Some(true) ==> price == old(price)
    {
      var absent := NanTruth(value);
      if absent.None? {
        return Err(AmbiguousTruth);
      }
      if !absent.value {
        price := Nan;
      }
      vol := value;
      r := Ok(());
    }

    /** `float_vol`: vol becomes absent, nothing else changes, and the model
        itself is returned for chaining. */
    method FloatVol() returns (self: Model)
      modifies this`price, this`vol
      ensures self == this && vol == Nan && price == old(price)
    {
      var _ := SetVol(Nan);
      self := this;
    }

    /** `fix_price`: the same transition as `float_vol`. */
    method FixPrice() returns (self: Model)
      modifies this`price, this`vol
      ensures self == this && vol == Nan && price == old(price)
    {
      var _ := SetVol(Nan);
      self := this;
    }

    /** `float_price`: price becomes absent, nothing else changes. */
    method FloatPrice() returns (self: Model)
      modifies this`price, this`vol
      ensures self == this && price == Nan && vol == old(vol)
    {
      var _ := SetPrice(Nan);
      self := this;
    }

    /** `fix_vol`: the same transition as `float_price`. */
    method FixVol() returns (self: Model)
      modifies this`price, this`vol
      ensures self == this && price == Nan && vol == old(vol)
    {
      var _ := SetPrice(Nan);
      self := this;
    }

    /** The stub `_cal_iv`: vol becomes a scalar NaN. */
    method CalIv()
      modifies this`vol
      ensures vol == Nan
    {
      vol := Nan;
    }

    /** The stub `_cal_price`: price becomes a scalar NaN. */
    method CalPrice()
      modifies this`price
      ensures price == Nan
    {
      price := Nan;
    }

    /** The stub `_update_<g>`: the greek becomes NaN. */
    method UpdateGreek(g: Greek)
      requires Valid() && g in tracked
      modifies this`greeks
      ensures Valid()
      ensures greeks == old(greeks)[g := Nan]
    {
      greeks := greeks[g := Nan];
    }

    /** `_update_greeks`: every tracked greek is refreshed, in `UpdateOrder`;
        the source spells the ten membership checks out one after another. */
    method UpdateGreeks()
      requires Valid()
      modifies this`greeks
      ensures Valid()
      ensures greeks == AllAbsent(tracked)
    {
      for i := 0 to |UpdateOrder|
        invariant Valid()
        invariant forall g :: g in greeks ==> greeks[g] == (if g in UpdateOrder[..i] then Nan else old(greeks)[g])
      {
        if UpdateOrder[i] in tracked {
          UpdateGreek(UpdateOrder[i]);
        }
      }
      assert UpdateOrder[..|UpdateOrder|] == UpdateOrder;
      forall g | g in greeks
        ensures greeks[g] == Nan
      {
        UpdateOrderListsEachGreekOnce(g);
      }
    }

    /** `_update_values` with the stub steps. */
    method UpdateValues()
      requires Valid()
      modifies this`price, this`vol, this`greeks
      ensures Valid()
      ensures Dispatch(old(price), old(vol)) == SolveVol ==>
        vol == Nan && price == old(price) && greeks == AllAbsent(tracked)
      ensures Dispatch(old(price), old(vol)) == PriceFromVol ==>
        price == Nan && vol == old(vol) && greeks == AllAbsent(tracked)
      ensures Dispatch(old(price), old(vol)) == Nothing ==>
        price == old(price) && vol == old(vol) && greeks == old(greeks)
    {
      match Dispatch(price, vol)
      case SolveVol =>
        CalIv();
        UpdateGreeks();
      case PriceFromVol =>
        CalPrice();
        UpdateGreeks();
      case Nothing =>
    }

    /** The price getter: resolves only when the stored price is NaN, then
        returns the stored price. */
    method GetPrice() returns (r: Result<Value>)
      requires Valid()
      modifies this`price, this`vol, this`greeks
      ensures Valid()
      ensures NanTruth(old(price)).None? ==> r == Err(AmbiguousTruth) && unchanged(this)
      ensures NanTruth(old(price)) == Some(false) ==> r == Ok(price) && unchanged(this)
      ensures NanTruth(old(price)) == Some(true) ==> r == Ok(price) && greeks == AllAbsent(tracked)
      ensures NanTruth(old(price)) == Some(true) && AnyAbsent(old(vol)) ==> price == old(price) && vol == Nan
      ensures NanTruth(old(price)) == Some(true) && !AnyAbsent(old(vol)) ==> price == Nan && vol == old(vol)
    {
      var absent := NanTruth(price);
      if absent.None? {
        return Err(AmbiguousTruth);
      }
      if absent.value {
        UpdateValues();
      }
      r := Ok(price);
    }

    /** The vol getter: resolves only when the stored vol is NaN. */
    method GetVol() returns (r: Result<Value>)
      requires Valid()
      modifies this`price, this`vol, this`greeks
      ensures Valid()
      ensures NanTruth(old(vol)).None? ==> r == Err(AmbiguousTruth) && unchanged(this)
      ensures NanTruth(old(vol)) == Some(false) ==> r == Ok(vol) && unchanged(this)
      ensures NanTruth(old(vol)) == Some(true) ==>
        r == Ok(vol) && vol == Nan && price == old(price) && greeks == AllAbsent(tracked)
    {
      var absent := NanTruth(vol);
      if absent.None? {
        return Err(AmbiguousTruth);
      }
      if absent.value {
        UpdateValues();
      }
      r := Ok(vol);
    }

    /** A generated parameter getter: `gen_getter` resolves first (the
        transition of `UpdateValues`), `base_getter` only reads. */
    method ReadParam(p: Param) returns (r: Value)
      requires Valid()
      modifies this`price, this`vol, this`greeks
      ensures Valid() && Parameters() == old(Parameters())
      ensures r == ParamOf(old(Parameters()), p)
      ensures !resolveOnRead ==> unchanged(this)
      ensures resolveOnRead && Dispatch(old(price), old(vol)) == SolveVol ==>
        vol == Nan && price == old(price)
      ensures resolveOnRead && Dispatch(old(price), old(vol)) == PriceFromVol ==>
        price == Nan && vol == old(vol)
      ensures resolveOnRead && Dispatch(old(price), old(vol)) == Nothing ==>
        price == old(price) && vol == old(vol)
    {
      if resolveOnRead {
        UpdateValues();
      }
      r := ParamOf(Parameters(), p);
    }

    /** A generated greek getter. It exists only for tracked greeks; any
        other greek name is no attribute of the class. The value read is
        always NaN, since only the stub writers ever store a greek. */
    method ReadGreek(g: Greek) returns (r: Result<Value>)
      requires Valid()
      modifies this`price, this`vol, this`greeks
      ensures Valid()
      ensures g !in tracked ==> r == Err(NoSuchAttribute) && unchanged(this)
      ensures g in tracked ==> r == Ok(Nan)
      ensures !resolveOnRead ==> unchanged(this)
      ensures g in tracked && resolveOnRead && Dispatch(old(price), old(vol)) == SolveVol ==>
        vol == Nan && price == old(price)
      ensures g in tracked && resolveOnRead && Dispatch(old(price), old(vol)) == PriceFromVol ==>
        price == Nan && vol == old(vol)
      ensures g in tracked && resolveOnRead && Dispatch(old(price), old(vol)) == Nothing ==>
        price == old(price) && vol == old(vol)
    {
      if g !in tracked {
        return Err(NoSuchAttribute);
      }
      if resolveOnRead {
        UpdateValues();
      }
      r := Ok(greeks[g]);
    }

    /** A generated parameter setter (`base_setter`): a plain store that
        leaves price, vol and the greeks as they are. */
    method WriteParam(p: Param, v: Value)
      modifies this`spot, this`strike, this`tte, this`ir, this`div
      ensures Parameters() == WithParam(old(Parameters()), p, v)
    {
      match p
      case Spot => spot := v;
      case Strike => strike := v;
      case Tte => tte := v;
      case Ir => ir := v;
      case Div => div := v;
    }

    /** `is_call`: a plain read of the side fixed at construction. */
    method IsCall() returns (b: bool)
      requires Valid()
      ensures b <==> IsCallToken(optionType)
    {
      b := isCall;
    }
  }
}
