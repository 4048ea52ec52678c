/** The Black-Scholes model class: how it resolves an absent vol (solving
    for the implied volatility) or an absent price (pricing from vol), how it
    refreshes its greeks, and the re-entrant reads through which every
    generated property resolves first.

    The Black-Scholes arithmetic itself (the call and put formulas, d1/d2,
    the greek formulas) and the root solver are not modelled: they are
    function-valued parameters collected in `Numerics`. */
module Bs {
  import opened Numeric
  import opened Base

  /** The objective handed to the root solver: x |-> pricing(x) - target,
      for the model's current parameters and side. */
  datatype Objective = Objective(params: Params, isCall: bool, target: seq<Num>)

  /** The numerical pieces the model treats as given. */
  datatype Numerics = Numerics(
    // `_bs_call(vol)` and `_bs_put(vol)`, for the current parameters
    bsCall: (Params, Value) -> Value,
    bsPut: (Params, Value) -> Value,
    // `_update_d(vol)`, from (spot, strike, tte, ir, vol): the dividend yield is not an input
    dTerms: (Value, Value, Value, Value, Value) -> (Value, Value),
    // `scipy.optimize.root(objective, guess).x`; `None` when the call raises
    root: (Objective, seq<Num>) -> Option<seq<Num>>,
    // the formulas of delta, theta, rho and charm, for a call (true) or a put
    sided: (Greek, bool, Params, Value, Value, Value) -> Value,
    // the formulas of gamma, vega, vanna, vomma, speed and zomma
    unsided: (Greek, Params, Value, Value, Value) -> Value)

  /** A solver that returns one root per element of its initial guess. */
  ghost predicate PreservesLength(num: Numerics)
  {
    forall o, guess :: num.root(o, guess).Some? ==> |num.root(o, guess).value| == |guess|
  }

  /** The greeks whose formula differs between a call and a put. */
  const Sided: set<Greek> := {Delta, Theta, Rho, Charm}

  /** `pricing`: the call formula for a call and the put formula otherwise. */
  function Pricing(num: Numerics, ps: Params, isCall: bool, vol: Value): (r: Value)
    ensures isCall ==> r == num.bsCall(ps, vol)
    ensures !isCall ==> r == num.bsPut(ps, vol)
  {
    if isCall then num.bsCall(ps, vol) else num.bsPut(ps, vol)
  }

  /** `_update_d(vol)`: d1 and d2 for the current parameters. */
  function UpdateD(num: Numerics, ps: Params, vol: Value): (Value, Value)
  {
    num.dTerms(ps.spot, ps.strike, ps.tte, ps.ir, vol)
  }

  /** Records which inputs `_update_d` reads: spot, strike, tte, ir and the
      given vol. The dividend yield is not among them, which the signature of
      `Numerics.dTerms` fixes; the lemma states it for readers of the model. */
  lemma UpdateDIgnoresDiv(num: Numerics, ps: Params, vol: Value, div: Value)
    ensures UpdateD(num, ps.(div := div), vol) == UpdateD(num, ps, vol)
  {
  }

  /** The initial guess `np.ones_like(price) * 0.2`. */
  function Guess(n: nat): (g: seq<Num>)
    ensures |g| == n && forall i :: 0 <= i < n ==> g[i] == Some(0.2)
  {
    seq(n, _ => Some(0.2))
  }

  /** Everything a `BS` instance holds. `greeks` has exactly the tracked
      greeks as keys. */
  datatype State = State(
    price: Value, vol: Value, params: Params, isCall: bool,
    d1: Value, d2: Value, greeks: map<Greek, Value>)

  /** What `_update_<g>` stores, computed from the state's parameters, vol
      and cached d1/d2; only the sided greeks look at the option side. */
  function GreekValue(num: Numerics, g: Greek, s: State): Value
  {
    if g in Sided then num.sided(g, s.isCall, s.params, s.vol, s.d1, s.d2)
    else num.unsided(g, s.params, s.vol, s.d1, s.d2)
  }

  /** Records which greek formulas read the option side (those in `Sided`);
      it holds by the shape of `Numerics.unsided`, which takes no side. */
  lemma {:induction false} OnlySidedGreeksDependOnSide(num: Numerics, g: Greek, s: State)
    ensures g !in Sided ==> GreekValue(num, g, s.(isCall := true)) == GreekValue(num, g, s.(isCall := false))
    ensures g !in Sided <==> g in {Gamma, Vega, Vanna, Vomma, Speed, Zomma}
  {
  }

  /** Records that no greek formula reads the price or another greek; it
      holds because neither is an argument of `Numerics.sided`/`unsided`. */
  lemma GreekValueIgnoresPriceAndGreeks(num: Numerics, g: Greek, s: State, price: Value, greeks: map<Greek, Value>)
    ensures GreekValue(num, g, s.(price := price, greeks := greeks)) == GreekValue(num, g, s)
  {
  }

  /** The solver call of `_cal_iv`: one unknown per flattened price
      element, each starting from 0.2. */
  function Solve(num: Numerics, s: State): (r: Option<seq<Num>>)
    ensures PreservesLength(num) && r.Some? ==> |r.value| == |Flatten(s.price)|
  {
    var target := Flatten(s.price);
    num.root(Objective(s.params, s.isCall, target), Guess(|target|))
  }

  /** `_cal_iv`: solve for the vol that reprices the stored price. On success
      the root is stored (unpacked to a scalar when it has one element)
      together with its d1/d2, and the price is kept; when the solver raises,
      or the empty root cannot be unpacked, vol becomes a scalar NaN and
      d1/d2 are left alone. */
  function IvStep(num: Numerics, s: State): (r: State)
    ensures r.price == s.price && r.params == s.params && r.isCall == s.isCall && r.greeks == s.greeks
    ensures Solve(num, s).None? || Solve(num, s).value == [] ==> r == s.(vol := Nan)
    ensures Solve(num, s).Some? && Solve(num, s).value != [] ==>
      Flatten(r.vol) == Solve(num, s).value && (r.vol.Scalar? <==> |Solve(num, s).value| == 1) &&
      (r.d1, r.d2) == UpdateD(num, s.params, r.vol)
    ensures PreservesLength(num) && Solve(num, s).Some? && Solve(num, s).value != [] ==>
      |Flatten(r.vol)| == |Flatten(s.price)|
  {
    match Solve(num, s)
    case None => s.(vol := Nan)
    case Some(xs) =>
      match Unpack(xs)
      case None => s.(vol := Nan)
      case Some(v) =>
        var (d1, d2) := UpdateD(num, s.params, v);
        s.(d1 := d1, d2 := d2, vol := v)
  }

  /** `_cal_price`: d1/d2 and the price from the stored vol. */
  function PriceStep(num: Numerics, s: State): (r: State)
    ensures r.vol == s.vol && r.params == s.params && r.isCall == s.isCall && r.greeks == s.greeks
    ensures r.price == Pricing(num, s.params, s.isCall, s.vol)
    ensures (r.d1, r.d2) == UpdateD(num, s.params, s.vol)
  {
    var (d1, d2) := UpdateD(num, s.params, s.vol);
    s.(d1 := d1, d2 := d2, price := Pricing(num, s.params, s.isCall, s.vol))
  }

  /** How far a state is from resolved: 2 while vol is absent, 1 while
      only the price is absent, 0 when both are present. */
  function Stage(s: State): nat
  {
    match Dispatch(s.price, s.vol)
    case SolveVol => 2
    case PriceFromVol => 1
    case Nothing => 0
  }

  /** The resolution step `_update_values` takes before refreshing greeks. */
  function Step(num: Numerics, s: State): (r: State)
    ensures r.params == s.params && r.isCall == s.isCall && r.greeks == s.greeks
  {
    match Dispatch(s.price, s.vol)
    case SolveVol => IvStep(num, s)
    case PriceFromVol => PriceStep(num, s)
    case Nothing => s
  }

  /** `_update_greeks` on a state whose reads no longer resolve: every
      tracked greek recomputed, no other field touched. */
  function Refresh(num: Numerics, s: State): (r: State)
    ensures r.greeks.Keys == s.greeks.Keys
    ensures r.(greeks := s.greeks) == s
    ensures forall g :: g in r.greeks ==> r.greeks[g] == GreekValue(num, g, s)
  {
    s.(greeks := map g | g in s.greeks :: GreekValue(num, g, s))
  }

  /** `Refresh` part way through: only the greeks in `done` recomputed. */
  ghost function RefreshedUpTo(num: Numerics, s: State, done: seq<Greek>): State
  {
    s.(greeks := map g | g in s.greeks :: if g in done then GreekValue(num, g, s) else s.greeks[g])
  }

  lemma RefreshedUpToNext(num: Numerics, s: State, i: nat)
    requires i < |UpdateOrder|
    ensures UpdateOrder[i] in s.greeks ==>
      var t := RefreshedUpTo(num, s, UpdateOrder[..i]);
      RefreshedUpTo(num, s, UpdateOrder[..i + 1]) == t.(greeks := t.greeks[UpdateOrder[i] := GreekValue(num, UpdateOrder[i], s)])
    ensures UpdateOrder[i] !in s.greeks ==>
      RefreshedUpTo(num, s, UpdateOrder[..i + 1]) == RefreshedUpTo(num, s, UpdateOrder[..i])
  {
    assert UpdateOrder[..i + 1] == UpdateOrder[..i] + [UpdateOrder[i]];
  }

  /** One tracked writer inside `_update_greeks`, after a step that left
      state `s`: the first writer resolves `s` (or finds that resolution
      never ends); every later writer reads an already resolved state. */
  lemma WriterKeepsProgress(num: Numerics, s: State, entered: nat, i: nat, touched: bool,
                            before: State, after: State, ok: bool)
    requires i < |UpdateOrder| && UpdateOrder[i] in s.greeks && before.greeks.Keys == s.greeks.Keys
    requires !touched ==> before == s && forall j :: 0 <= j < i ==> UpdateOrder[j] !in s.greeks
    requires touched ==> (Stage(s) < entered && Resolve(num, s).Resolved? &&
      before == RefreshedUpTo(num, Resolve(num, s).state, UpdateOrder[..i]))
    requires ok == (Stage(before) < entered && Resolve(num, before).Resolved?)
    requires ok ==> var t := Resolve(num, before).state;
      after == t.(greeks := t.greeks[UpdateOrder[i] := GreekValue(num, UpdateOrder[i], t)])
    ensures ok ==> (Stage(s) < entered && Resolve(num, s).Resolved? &&
      after == RefreshedUpTo(num, Resolve(num, s).state, UpdateOrder[..i + 1]))
    ensures !ok ==> Refreshed(num, s, entered).Unbounded?
  {
    RefreshedCases(num, s, entered);
    if ok {
      if touched {
        LaterWriter(num, Resolve(num, s).state, i, before);
      } else {
        FirstWriter(num, s, i);
      }
    }
  }

  lemma FirstWriter(num: Numerics, s: State, i: nat)
    requires i < |UpdateOrder| && UpdateOrder[i] in s.greeks
    requires forall j :: 0 <= j < i ==> UpdateOrder[j] !in s.greeks
    requires Resolve(num, s).Resolved?
    ensures var t := Resolve(num, s).state;
      t.(greeks := t.greeks[UpdateOrder[i] := GreekValue(num, UpdateOrder[i], t)])
        == RefreshedUpTo(num, t, UpdateOrder[..i + 1])
  {
    var t := Resolve(num, s).state;
    RefreshedUpToNext(num, t, i);
    RefreshedUpToAll(num, t);
    assert t.greeks.Keys == s.greeks.Keys;
  }

  lemma LaterWriter(num: Numerics, t: State, i: nat, before: State)
    requires i < |UpdateOrder| && UpdateOrder[i] in t.greeks && Stage(t) == 0
    requires before == RefreshedUpTo(num, t, UpdateOrder[..i])
    ensures Resolve(num, before) == Resolved(before)
    ensures before.(greeks := before.greeks[UpdateOrder[i] := GreekValue(num, UpdateOrder[i], before)])
      == RefreshedUpTo(num, t, UpdateOrder[..i + 1])
  {
    var g := UpdateOrder[i];
    assert Stage(before) == 0;
    RefreshedUpToNext(num, t, i);
    GreekValueIgnoresPriceAndGreeks(num, g, t, t.price, before.greeks);
    assert t.(price := t.price, greeks := before.greeks) == before;
  }

  lemma RefreshedUpToAll(num: Numerics, s: State)
    ensures RefreshedUpTo(num, s, UpdateOrder) == Refresh(num, s)
    ensures RefreshedUpTo(num, s, []) == s
  {
    forall g | g in s.greeks
      ensures g in UpdateOrder
    {
      UpdateOrderListsEachGreekOnce(g);
    }
  }

  /** The outcome of a read: the state it leaves, or `Unbounded` when the
      source would recurse without end. */
  datatype Outcome = Resolved(state: State) | Unbounded

  /** `_update_values`. A state with nothing absent is left alone. Otherwise
      one step is taken and the greeks are refreshed; see `Refreshed`. */
  function Resolve(num: Numerics, s: State): (r: Outcome)
    decreases Stage(s), 1
    ensures Stage(s) == 0 ==> r == Resolved(s)
    ensures r.Resolved? ==> r.state.params == s.params && r.state.isCall == s.isCall
    ensures r.Resolved? ==> r.state.greeks.Keys == s.greeks.Keys
    ensures r.Resolved? && s.greeks.Keys != {} ==> Stage(r.state) == 0
    ensures r.Resolved? && s.greeks.Keys != {} && Stage(s) > 0 ==> Refresh(num, r.state) == r.state
  {
    if Stage(s) == 0 then Resolved(s) else Refreshed(num, Step(num, s), Stage(s))
  }

  /** `_update_greeks` right after a step taken at stage `entered`, leaving
      state `s`. With no tracked greek nothing happens. Otherwise the first
      tracked writer reads a generated property, which runs `_update_values`
      again on `s`: when the step left its side absent (`s` is still at
      stage `entered`) that nested call repeats the same step on the same
      inputs, and so on forever (`StuckStepRepeats`); otherwise it resolves
      `s` and the writers store greeks computed from the result. */
  function Refreshed(num: Numerics, s: State, entered: nat): (r: Outcome)
    decreases entered, 0
    ensures r.Resolved? ==> r.state.params == s.params && r.state.isCall == s.isCall
    ensures r.Resolved? ==> r.state.greeks.Keys == s.greeks.Keys
    ensures r.Resolved? && s.greeks.Keys != {} ==> Stage(r.state) == 0 && Refresh(num, r.state) == r.state
  {
    if s.greeks.Keys == {} then Resolved(s)
    else if Stage(s) >= entered then Unbounded
    else
      match Resolve(num, s)
      case Resolved(t) => RefreshTwice(num, t); Resolved(Refresh(num, t))
      case Unbounded => Unbounded
  }

  /** `Refreshed` unfolded once, stated in terms of `Resolve`. */
  lemma RefreshedCases(num: Numerics, s: State, entered: nat)
    ensures s.greeks.Keys == {} ==> Refreshed(num, s, entered) == Resolved(s)
    ensures s.greeks.Keys != {} ==>
      (Refreshed(num, s, entered).Resolved? <==> Stage(s) < entered && Resolve(num, s).Resolved?)
    ensures s.greeks.Keys != {} && Refreshed(num, s, entered).Resolved? ==>
      Refreshed(num, s, entered).state == Refresh(num, Resolve(num, s).state)
  {
  }

  lemma RefreshTwice(num: Numerics, s: State)
    ensures Refresh(num, Refresh(num, s)) == Refresh(num, s)
  {
    var r := Refresh(num, s);
    forall g | g in r.greeks
      ensures GreekValue(num, g, r) == GreekValue(num, g, s)
    {
      GreekValueIgnoresPriceAndGreeks(num, g, s, s.price, r.greeks);
      assert r == s.(price := s.price, greeks := r.greeks);
    }
  }

  /** The source's re-entrant recursion taken literally, with at most
      `depth` nested entries: `None` when it needs more. */
  function Unroll(num: Numerics, s: State, depth: nat): (r: Option<State>)
    decreases depth
    ensures Stage(s) == 0 ==> r == Some(s)
    ensures r.Some? ==> r.value.params == s.params && r.value.isCall == s.isCall
    ensures r.Some? ==> r.value.greeks.Keys == s.greeks.Keys
    ensures r.Some? && s.greeks.Keys != {} ==> Stage(r.value) == 0
  {
    if Stage(s) == 0 then Some(s)
    else
      var s1 := Step(num, s);
      if s1.greeks.Keys == {} then Some(s1)
      else if depth == 0 then None
      else
        match Unroll(num, s1, depth - 1)
        case Some(t) => Some(Refresh(num, t))
        case None => None
  }

  lemma {:induction false} IvStepIdempotent(num: Numerics, s: State)
    ensures IvStep(num, IvStep(num, s)) == IvStep(num, s)
  {
  }

  lemma {:induction false} PriceStepIdempotent(num: Numerics, s: State)
    ensures PriceStep(num, PriceStep(num, s)) == PriceStep(num, s)
  {
  }

  /** A step that leaves its own side absent changes nothing when repeated:
      the source's nested `_update_values` then takes it again and again. */
  lemma {:induction false} StuckStepRepeats(num: Numerics, s: State)
    requires Stage(s) > 0 && Stage(Step(num, s)) >= Stage(s)
    ensures Stage(Step(num, s)) == Stage(s)
    ensures Step(num, Step(num, s)) == Step(num, s)
  {
    if Stage(s) == 2 {
      IvStepIdempotent(num, s);
    } else {
      assert Step(num, s) == PriceStep(num, s);
      PriceStepIdempotent(num, s);
    }
  }

  lemma {:induction false} UnrollAtFixedPoint(num: Numerics, s: State, depth: nat)
    requires Stage(s) > 0 && Step(num, s) == s && s.greeks.Keys != {}
    ensures Unroll(num, s, depth) == None
    decreases depth
  {
    if depth > 0 {
      UnrollAtFixedPoint(num, s, depth - 1);
    }
  }

  /** `Resolve`, which stops as soon as a step would repeat itself, agrees
      with the unbounded recursion of the source: a resolved read is reached
      within `Stage(s)` nested entries, and an unbounded one is never reached
      however deep the recursion may go. */
  lemma {:induction false} ResolveAgreesWithRecursion(num: Numerics, s: State, depth: nat)
    ensures Resolve(num, s).Resolved? && depth >= Stage(s) ==> Unroll(num, s, depth) == Some(Resolve(num, s).state)
    ensures Resolve(num, s).Unbounded? ==> Unroll(num, s, depth) == None
    decreases Stage(s)
  {
    if Stage(s) > 0 {
      var s1 := Step(num, s);
      RefreshedCases(num, s1, Stage(s));
      if s1.greeks.Keys != {} && depth > 0 {
        if Stage(s1) >= Stage(s) {
          StuckStepRepeats(num, s);
          UnrollAtFixedPoint(num, s1, depth - 1);
          assert Unroll(num, s, depth) == None;
        } else {
          ResolveAgreesWithRecursion(num, s1, depth - 1);
        }
      }
    }
  }

  /** Resolution in closed form: with greeks tracked it takes at most two
      steps (vol, then price), and succeeds exactly when they leave nothing
      absent; without greeks it takes one step and stops. */
  lemma {:induction false} ResolveInAtMostTwoSteps(num: Numerics, s: State)
    requires Stage(s) > 0
    ensures s.greeks.Keys == {} ==> Resolve(num, s) == Resolved(Step(num, s))
    ensures s.greeks.Keys != {} ==>
      (Resolve(num, s).Resolved? <==> Stage(Step(num, Step(num, s))) == 0)
    ensures s.greeks.Keys != {} && Resolve(num, s).Resolved? ==>
      Resolve(num, s).state == Refresh(num, Step(num, Step(num, s)))
  {
    var s1 := Step(num, s);
    assert s1.greeks == s.greeks;
    if s.greeks.Keys != {} {
      if Stage(s1) >= Stage(s) {
        StuckStepRepeats(num, s);
      } else if Stage(s1) > 0 {
        var s2 := Step(num, s1);
        assert s2.greeks == s.greeks;
        RefreshedCases(num, s1, Stage(s));
        RefreshedCases(num, s2, Stage(s1));
        if Stage(s2) >= Stage(s1) {
          StuckStepRepeats(num, s1);
          assert Resolve(num, s1) == Unbounded;
        } else {
          assert Resolve(num, s2) == Resolved(s2);
          assert Resolve(num, s1) == Resolved(Refresh(num, s2));
          RefreshTwice(num, s2);
          assert Step(num, Step(num, s)) == s2;
        }
      }
    }
  }

  /** A price that is present is the fixed quantity: resolution keeps it. */
  lemma {:induction false} ResolveKeepsPresentPrice(num: Numerics, s: State)
    requires !AnyAbsent(s.price)
    ensures Resolve(num, s).Resolved? ==> Resolve(num, s).state.price == s.price
  {
    if Stage(s) > 0 {
      var s1 := Step(num, s);
      assert s1.price == s.price;
      if s.greeks.Keys != {} && Stage(s1) < Stage(s) {
        assert Stage(s1) == 0;
      }
    }
  }

  /** A vol that is present is the fixed quantity: resolution keeps it and,
      when the price was absent, prices the contract from it. */
  lemma {:induction false} ResolveKeepsPresentVol(num: Numerics, s: State)
    requires !AnyAbsent(s.vol)
    ensures Resolve(num, s).Resolved? ==> Resolve(num, s).state.vol == s.vol
    ensures Resolve(num, s).Resolved? && AnyAbsent(s.price) ==>
      Resolve(num, s).state.price == Pricing(num, s.params, s.isCall, s.vol) &&
      (Resolve(num, s).state.d1, Resolve(num, s).state.d2) == UpdateD(num, s.params, s.vol)
  {
    if Stage(s) > 0 {
      var s1 := Step(num, s);
      assert s1 == PriceStep(num, s);
      if s.greeks.Keys != {} && Stage(s1) < Stage(s) {
        assert Stage(s1) == 0;
      }
    }
  }

  /** `fix_vol` (or `float_price`), then a parameter edit, then a read: the
      price is recomputed from the unchanged vol and the edited parameters. */
  lemma {:induction false} FixVolThenEdit(num: Numerics, s: State, p: Param, v: Value)
    requires !AnyAbsent(s.vol)
    ensures var t := s.(price := Nan, params := WithParam(s.params, p, v));
      Resolve(num, t).Resolved? ==>
        Resolve(num, t).state.vol == s.vol &&
        Resolve(num, t).state.price == Pricing(num, WithParam(s.params, p, v), s.isCall, s.vol)
  {
    var t := s.(price := Nan, params := WithParam(s.params, p, v));
    assert AnyAbsent(t.price);
    ResolveKeepsPresentVol(num, t);
  }

  /** `fix_price` (or `float_vol`), then a parameter edit, then a read: the
      price is kept and vol is solved again against the edited parameters. */
  lemma {:induction false} FixPriceThenEdit(num: Numerics, s: State, p: Param, v: Value)
    requires !AnyAbsent(s.price)
    ensures var t := s.(vol := Nan, params := WithParam(s.params, p, v));
      Resolve(num, t).Resolved? ==>
        Resolve(num, t).state.price == s.price &&
        (s.greeks.Keys == {} ==> Resolve(num, t).state.vol == IvStep(num, t).vol) &&
        (s.greeks.Keys != {} ==> Resolve(num, t).state.vol == IvStep(num, t).vol != Nan)
  {
    var t := s.(vol := Nan, params := WithParam(s.params, p, v));
    assert AnyAbsent(t.vol);
    ResolveKeepsPresentPrice(num, t);
    var s1 := Step(num, t);
    assert s1 == IvStep(num, t);
    if t.greeks.Keys != {} && Stage(s1) < Stage(t) {
      assert Stage(s1) == 0;
    }
  }

  /** A parameter edit on a resolved contract is not seen by the next read:
      only the fix/float selectors make a side absent again. */
  lemma {:induction false} EditAfterResolveIsNotSeen(num: Numerics, s: State, p: Param, v: Value)
    requires Stage(s) == 0
    ensures var t := s.(params := WithParam(s.params, p, v));
      Resolve(num, t) == Resolved(t) && t.price == s.price && t.vol == s.vol && t.greeks == s.greeks
  {
    var t := s.(params := WithParam(s.params, p, v));
    assert Stage(t) == 0;
  }

  /** The value a generated property reads, `_<key>`. */
  datatype Field = PriceField | VolField | ParamField(p: Param) | GreekField(g: Greek)

  function Stored(s: State, f: Field): Value
    requires f.GreekField? ==> f.g in s.greeks
  {
    match f
    case PriceField => s.price
    case VolField => s.vol
    case ParamField(p) => ParamOf(s.params, p)
    case GreekField(g) => s.greeks[g]
  }

  /** An instance of the class `BSModel` returns. `tracked` is the greek
      list the class was built with. Its price, vol and parameter properties
      all come from `gen_getter` and `base_setter`, so they resolve on every
      read and store plainly on every write. */
  class BS {
    const num: Numerics
    const tracked: set<Greek>
    const optionType: string
    const isCall: bool
    var price: Value
    var vol: Value
    var spot: Value
    var strike: Value
    var tte: Value
    var ir: Value
    var div: Value
    var d1: Value
    var d2: Value
    var greeks: map<Greek, Value>

    ghost predicate Valid()
      reads this
    {
      greeks.Keys == tracked && isCall == IsCallToken(optionType)
    }

    function Parameters(): Params
      reads this
    {
      Params(spot, strike, tte, ir, div)
    }

    function Snapshot(): State
      reads this
    {
      State(price, vol, Parameters(), isCall, d1, d2, greeks)
    }

    /** The base constructor's stores, then d1 and d2 absent. */
    constructor (num: Numerics, tracked: set<Greek>, strike: Value, tte: Value, ir: Value,
                 div: Value, optionType: string, spot: Value, price: Value, vol: Value)
      ensures Valid()
      ensures this.num == num && this.tracked == tracked && this.optionType == optionType
      ensures Snapshot() == State(price, vol, Params(spot, strike, tte, ir, div), IsCallToken(optionType),
                               Nan, Nan, AllAbsent(tracked))
    {
      this.num := num;
      this.tracked := tracked;
      this.strike := strike;
      this.tte := tte;
      this.ir := ir;
      this.div := div;
      this.vol := vol;
      this.price := price;
      this.spot := spot;
      this.optionType := optionType;
      this.isCall := IsCallToken(optionType);
      this.greeks := AllAbsent(tracked);
      this.d1 := Nan;
      this.d2 := Nan;
    }

    /** The price property's setter is `base_setter`: a plain store, vol kept. */
    method SetPrice(value: Value)
      modifies this`price
      ensures Snapshot() == old(Snapshot()).(price := value)
    {
      price := value;
    }

    /** The vol property's setter is `base_setter`: a plain store, price kept. */
    method SetVol(value: Value)
      modifies this`vol
      ensures Snapshot() == old(Snapshot()).(vol := value)
    {
      vol := value;
    }

    /** A parameter setter: only that parameter changes; nothing is invalidated. */
    method SetParam(p: Param, value: Value)
      modifies this`spot, this`strike, this`tte, this`ir, this`div
      ensures Snapshot() == old(Snapshot()).(params := WithParam(old(Parameters()), p, value))
    {
      match p
      case Spot => spot := value;
      case Strike => strike := value;
      case Tte => tte := value;
      case Ir => ir := value;
      case Div => div := value;
    }

    /** `float_vol`: vol becomes absent; the model is returned for chaining. */
    method FloatVol() returns (self: BS)
      modifies this`vol
      ensures self == this && Snapshot() == old(Snapshot()).(vol := Nan)
    {
      SetVol(Nan);
      self := this;
    }

    /** `fix_price`: the same transition as `float_vol`. */
    method FixPrice() returns (self: BS)
      modifies this`vol
      ensures self == this && Snapshot() == old(Snapshot()).(vol := Nan)
    {
      SetVol(Nan);
      self := this;
    }

    /** `float_price`: price becomes absent; the model is returned for chaining. */
    method FloatPrice() returns (self: BS)
      modifies this`price
      ensures self == this && Snapshot() == old(Snapshot()).(price := Nan)
    {
      SetPrice(Nan);
      self := this;
    }

    /** `fix_vol`: the same transition as `float_price`. */
    method FixVol() returns (self: BS)
      modifies this`price
      ensures self == this && Snapshot() == old(Snapshot()).(price := Nan)
    {
      SetPrice(Nan);
      self := this;
    }

    /** `d1`: a plain read of the cached value; it never resolves. */
    method D1() returns (r: Value)
      ensures r == Snapshot().d1
    {
      r := d1;
    }

    /** `d2`: a plain read of the cached value; it never resolves. */
    method D2() returns (r: Value)
      ensures r == Snapshot().d2
    {
      r := d2;
    }

    method CalIv()
      modifies this`vol, this`d1, this`d2
      ensures Snapshot() == IvStep(num, old(Snapshot()))
    {
      var target := Flatten(price);
      var res := num.root(Objective(Parameters(), isCall, target), Guess(|target|));
      if res.None? {
        vol := Nan;
        return;
      }
      var unpacked := Unpack(res.value);
      if unpacked.None? {
        vol := Nan;
        return;
      }
      var (a, b) := UpdateD(num, Parameters(), unpacked.value);
      d1, d2 := a, b;
      vol := unpacked.value;
    }

    method CalPrice()
      modifies this`price, this`d1, this`d2
      ensures Snapshot() == PriceStep(num, old(Snapshot()))
    {
      var (a, b) := UpdateD(num, Parameters(), vol);
      d1, d2 := a, b;
      price := Pricing(num, Parameters(), isCall, vol);
    }

    /** `_update_values`. */
    method UpdateValues() returns (ok: bool)
      requires Valid()
      modifies this
      decreases Stage(Snapshot()), 2
      ensures Valid()
      ensures ok == Resolve(num, old(Snapshot())).Resolved?
      ensures ok ==> Snapshot() == Resolve(num, old(Snapshot())).state
    {
      match Dispatch(price, vol)
      case SolveVol =>
        CalIv();
        ok := UpdateGreeks(2);
      case PriceFromVol =>
        CalPrice();
        ok := UpdateGreeks(1);
      case Nothing =>
        ok := true;
    }

    /** `_update_greeks` after a step taken at stage `entered`: the tracked
        greeks in `UpdateOrder`; the source spells the ten membership checks
        out one after another. */
    method UpdateGreeks(entered: nat) returns (ok: bool)
      requires Valid() && entered > 0
      modifies this
      decreases entered, 1
      ensures Valid()
      ensures ok == Refreshed(num, old(Snapshot()), entered).Resolved?
      ensures ok ==> Snapshot() == Refreshed(num, old(Snapshot()), entered).state
    {
      ghost var s := Snapshot();
      RefreshedCases(num, s, entered);
      ghost var touched := false;
      ok := true;
      var i := 0;
      while i < |UpdateOrder| && ok
        invariant 0 <= i <= |UpdateOrder|
        invariant Valid()
        invariant !touched ==> ok && Snapshot() == s && forall j :: 0 <= j < i ==> UpdateOrder[j] !in tracked
        invariant touched ==> s.greeks.Keys != {}
        invariant touched && ok ==>
          Stage(s) < entered && Resolve(num, s).Resolved? &&
          Snapshot() == RefreshedUpTo(num, Resolve(num, s).state, UpdateOrder[..i])
        invariant !ok ==> Refreshed(num, s, entered).Unbounded?
      {
        var g := UpdateOrder[i];
        if g in tracked {
          ghost var before := Snapshot();
          ok := UpdateGreek(g, entered);
          WriterKeepsProgress(num, s, entered, i, touched, before, Snapshot(), ok);
          touched := true;
        } else if touched && ok {
          RefreshedUpToNext(num, Resolve(num, s).state, i);
        }
        i := i + 1;
      }
      if ok {
        assert UpdateOrder[..i] == UpdateOrder;
        if touched {
          RefreshedUpToAll(num, Resolve(num, s).state);
        } else {
          forall g | g in tracked
            ensures false
          {
            UpdateOrderListsEachGreekOnce(g);
          }
          assert s.greeks.Keys == {};
        }
      }
    }

    /** `_update_<g>`. Its first operand is a generated property, whose
        getter runs `_update_values` again before the greek is computed. */
    method UpdateGreek(g: Greek, entered: nat) returns (ok: bool)
      requires Valid() && g in tracked
      modifies this
      decreases entered, 0
      ensures Valid()
      ensures ok == (Stage(old(Snapshot())) < entered && Resolve(num, old(Snapshot())).Resolved?)
      ensures ok ==> var t := Resolve(num, old(Snapshot())).state;
        Snapshot() == t.(greeks := t.greeks[g := GreekValue(num, g, t)])
    {
      if Stage(Snapshot()) >= entered {
        // The nested `_update_values` would take the step just taken, on the
        // same inputs, and recurse again without end.
        return false;
      }
      ok := UpdateValues();
      if ok {
        greeks := greeks[g := GreekValue(num, g, Snapshot())];
      }
    }

    /** A generated property read (`gen_getter`): resolve, then return `_<key>`.
        Greek properties exist only for the tracked greeks; reading any other
        greek fails before any getter runs. */
    method Read(f: Field) returns (r: Result<Value>)
      requires Valid()
      modifies this
      ensures Valid()
      ensures f.GreekField? && f.g !in tracked ==> r == Err(NoSuchAttribute) && unchanged(this)
      ensures (f.GreekField? ==> f.g in tracked) ==>
        (r.Ok? <==> Resolve(num, old(Snapshot())).Resolved?)
      ensures r.Ok? ==> Snapshot() == Resolve(num, old(Snapshot())).state && r.value == Stored(Snapshot(), f)
      ensures (f.GreekField? ==> f.g in tracked) && r.Err? ==> r.failure == EndlessRecursion
    {
      if f.GreekField? && f.g !in tracked {
        return Err(NoSuchAttribute);
      }
      var ok := UpdateValues();
      if !ok {
        return Err(EndlessRecursion);
      }
      r := Ok(Stored(Snapshot(), f));
    }
  }
}
