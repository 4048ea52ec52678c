# Lazy price/volatility valuation of a Black-Scholes option contract

This project models the valuation state machine of the `blackscholes`
package. A contract holds a price and a volatility. Normally one of them is
fixed and the other is NaN ("absent"). Whichever side is absent is derived
lazily when the contract is read:

- an absent vol is solved for (implied volatility) from the price;
- an absent price is computed from the vol;
- the tracked greeks and the cached d1/d2 are then refreshed.

The fluent selectors `fix_vol`/`float_price` and `fix_price`/`float_vol`
mark one side absent again, so that the next read re-derives it after a
parameter edit.

Files:

- `numeric.dfy` (module `Numeric`): the values the classes hold. A value is
  a float or a one-dimensional array, and every element may be NaN. NaN is
  `None`. The module also gives the numpy predicates the source relies on:
  "any element is NaN", flattening, the unpacking of a solver result, and
  the truth value of `np.isnan(v)` inside an `if`.
- `base.dfy` (module `Base`): the class that `PricingModelBase` creates
  (`Model`). Its resolution steps and greek writers are stubs that store NaN.
  Its own price and vol setters clear the other side. The module also holds
  what the two classes share: the greek names and their update order, the
  parameters, the dispatch of `_update_values`, and the option-type test.
- `bs.dfy` (module `Bs`): the class that `BSModel` creates (`BS`). It holds:
  - the implied-vol step and the pricing step;
  - the greek writers;
  - the re-entrant reads, described below;
  - a pure specification of each transition: the vol step (`IvStep`), the
    price step (`PriceStep`), the greek refresh (`Refresh`), the re-entrant
    refresh (`Refreshed`) and the whole resolution (`Resolve`), with lemmas
    about them. The resolving methods are proved equal to these functions,
    and the setters and selectors are proved against `Snapshot()`.

The Black-Scholes formulas, `_update_d`, the greek formulas and the root
solver are not modelled. They are function-valued fields of the datatype
`Numerics`, and a `BS` instance holds one as a constant.

Three points where the source behaves in a way a reader might not expect:

- **Setters on `BS` do not clear.** `BS` is created by the metaclass again
  (blackscholes/bs.py:17). `price` and `vol` are not in `BS`'s own namespace,
  so blackscholes/base.py:40-43 regenerates them with `gen_getter` and the
  plain `base_setter`. On a `BS` instance, assigning price or vol is a plain
  store that keeps the other side (`Bs.BS.SetPrice`). Only `Model`'s own
  setters (blackscholes/base.py:91-107) clear the other side
  (`Base.Model.SetPrice`). On a `BS`, only the selectors make a side absent.
- **Parameter setters invalidate nothing.** A parameter write is a plain
  store; d1/d2 and the greeks are left as they are. On a resolved contract,
  the edit is not seen by the next read (`Bs.EditAfterResolveIsNotSeen`).
- **Greek writers re-enter resolution.** Every greek writer's first operand
  is a generated property, whose getter runs `_update_values` again
  (blackscholes/bs.py:9-13, 72-118). After a successful step that nested call
  does nothing, or takes the price step that is still pending. Sometimes a
  step leaves its own side absent: the solver fails, or the price formula
  yields NaN. The nested call then takes the same step on the same inputs,
  and so on without end. The model detects this (`Bs.StuckStepRepeats`) and
  reports it as the outcome `Unbounded`, or as `Err(EndlessRecursion)` from a
  read. `Bs.ResolveAgreesWithRecursion` proves that this agrees with the
  literal, unbounded recursion (`Bs.Unroll`) at every depth.

## Model

| member | source | states |
|---|---|---|
| `Numeric.Flatten` | blackscholes/bs.py:37 | a scalar flattens to one element and an array to its elements, and "some element is NaN" (`np.any(np.isnan(v))`) holds exactly when some flattened element is NaN |
| `Numeric.Unpack` | blackscholes/bs.py:39-43 | a solver result can be stored exactly when it is non-empty; flattening the stored value gives the result back; it is stored as a scalar exactly when it has one element |
| `Numeric.NanTruth` | blackscholes/base.py:87 | `if np.isnan(v)` is decided for every scalar and exactly for one-element arrays, and when decided it agrees with "some element is NaN" |
| `Numeric.AnyAbsent` | blackscholes/base.py:111-114 | `np.any(np.isnan(v))`: a scalar is absent exactly when it is NaN, an array exactly when NaN is among its elements (never for an empty array) |
| `Base.UpdateOrderListsEachGreekOnce` | blackscholes/base.py:126-146 | the refresh order names each of the ten greeks exactly once |
| `Base.WithParam` | blackscholes/base.py:20-23 | writing one parameter sets it and leaves the other four as they were |
| `Base.Dispatch` | blackscholes/base.py:110-118 | the vol step is taken exactly when some vol element is absent, even if the price is absent too; the price step is taken exactly when vol is fully present and some price element is absent; otherwise nothing |
| `Base.Upper` | blackscholes/base.py:59 | `str.upper` keeps the length and upper-cases each character on its own |
| `Base.IsCallToken` | blackscholes/base.py:59 | a call token has one or four characters and starts with "c" or "C" |
| `Base.CallTokensAreCaseInsensitive` | blackscholes/base.py:59 | the contract is a call exactly when the option type is "c"/"C" or "call" in any mix of letter cases; every other token is a put |
| `Base.AllAbsent` | blackscholes/base.py:36-39 | exactly the tracked greeks exist, each starting as NaN |
| `Base.Model.constructor` | blackscholes/base.py:50-59 | every argument is stored as given, price and vol without clearing each other; the side is a call exactly for a call token |
| `Base.Model.SetPrice` | blackscholes/base.py:91-95 | a present price is stored and makes vol NaN; an absent price is stored and leaves vol alone; an array of other than one element raises and changes nothing |
| `Base.Model.SetVol` | blackscholes/base.py:103-107 | a present vol is stored and makes the price NaN; an absent vol is stored and leaves the price alone; an ambiguous array raises |
| `Base.Model.FloatVol` | blackscholes/base.py:61-64 | vol becomes NaN, price and everything else is kept, and the same model is returned |
| `Base.Model.FixPrice` | blackscholes/base.py:66-69 | the same transition as `float_vol` |
| `Base.Model.FloatPrice` | blackscholes/base.py:71-74 | price becomes NaN, vol and everything else is kept, and the same model is returned |
| `Base.Model.FixVol` | blackscholes/base.py:76-79 | the same transition as `float_price` |
| `Base.Model.IsCall` | blackscholes/base.py:81-83 | returns whether the option-type token denotes a call, without changing anything |
| `Base.Model.GetPrice` | blackscholes/base.py:85-89 | resolves only when the stored price is NaN, then returns the stored price; a present price is returned with nothing changed; an ambiguous array raises |
| `Base.Model.GetVol` | blackscholes/base.py:97-101 | resolves only when the stored vol is NaN, then returns the stored vol |
| `Base.Model.CalIv` | blackscholes/base.py:120-121 | the stub vol step stores a scalar NaN |
| `Base.Model.CalPrice` | blackscholes/base.py:123-124 | the stub price step stores a scalar NaN |
| `Base.Model.UpdateGreek` | blackscholes/base.py:148-176 | a stub greek writer stores NaN in its own greek only |
| `Base.Model.UpdateGreeks` | blackscholes/base.py:126-146 | every tracked greek is written, in the fixed order, and no other greek appears |
| `Base.Model.UpdateValues` | blackscholes/base.py:110-118 | with the stub steps: vol absent gives vol NaN and fresh greeks, price kept; otherwise price absent gives price NaN and fresh greeks, vol kept; otherwise nothing changes |
| `Base.Model.ReadParam` | blackscholes/base.py:40-43 | a parameter getter returns the stored parameter and never changes a parameter; built with `base_getter` it changes nothing; built with `gen_getter` it first takes the `_update_values` transition (vol absent: vol NaN, price kept; else price absent: price NaN, vol kept; else nothing) |
| `Base.Model.ReadGreek` | blackscholes/base.py:36-39 | an untracked greek is no attribute and its read changes nothing; a tracked greek's getter returns NaN (the only value a stub writer stores), after the same `_update_values` transition when built with `gen_getter` |
| `Base.Model.WriteParam` | blackscholes/base.py:20-23 | a parameter setter changes only that parameter; price, vol and greeks are not invalidated |
| `Bs.Pricing` | blackscholes/bs.py:23-25 | the call formula for a call and the put formula for a put |
| `Bs.UpdateD` | blackscholes/bs.py:66-69 | d1 and d2 are the formula applied to spot, strike, tte, ir and the given vol; its input list is stated by `Bs.UpdateDIgnoresDiv` |
| `Bs.UpdateDIgnoresDiv` | blackscholes/bs.py:66-69 | d1 and d2 do not depend on the dividend yield |
| `Bs.Guess` | blackscholes/bs.py:38 | the solver starts from 0.2 for each flattened price element |
| `Bs.GreekValue` | blackscholes/bs.py:72-118 | the value `_update_<g>` stores: the sided formula for delta, theta, rho and charm, the unsided one otherwise, over parameters, vol and d1/d2; its inputs are stated by the next two lemmas |
| `Bs.OnlySidedGreeksDependOnSide` | blackscholes/bs.py:72-118 | gamma, vega, vanna, vomma, speed and zomma are the same for a call and a put; only delta, theta, rho and charm branch on the side |
| `Bs.GreekValueIgnoresPriceAndGreeks` | blackscholes/bs.py:72-118 | no greek writer reads the price or another greek |
| `Bs.Solve` | blackscholes/bs.py:37-38 | the root call solves for one vol per flattened price element; with a length-preserving solver a root has exactly that many elements |
| `Bs.IvStep` | blackscholes/bs.py:35-47 | on success vol is the solver root (a scalar exactly for a one-element root) with d1/d2 from it, and the price is kept; with a length-preserving solver there is one vol per flattened price element; when the solver raises or returns nothing, vol becomes a scalar NaN and d1/d2 are kept |
| `Bs.PriceStep` | blackscholes/bs.py:50-52 | the price is the pricing formula at the stored vol, d1/d2 come from that vol, and vol and the parameters are kept |
| `Bs.Step` | blackscholes/base.py:110-118 | a resolution step keeps the parameters, the side and the greeks |
| `Bs.Refresh` | blackscholes/base.py:126-146 | every tracked greek is recomputed from the current state, nothing else changes, and no greek is added or dropped |
| `Bs.RefreshTwice` | blackscholes/base.py:126-146 | refreshing the greeks a second time changes nothing |
| `Bs.IvStepIdempotent` | blackscholes/bs.py:35-47 | running the vol step again on its own result changes nothing |
| `Bs.PriceStepIdempotent` | blackscholes/bs.py:50-52 | running the price step again on its own result changes nothing |
| `Bs.StuckStepRepeats` | blackscholes/bs.py:9-13 | a step that leaves its own side absent is a fixed point, so the nested resolution repeats it forever |
| `Bs.Resolve` | blackscholes/base.py:110-118 | a fully present state is left alone; resolution keeps the parameters, the side and the tracked set; with greeks tracked a resolved state has nothing absent and its greeks agree with it |
| `Bs.Refreshed` | blackscholes/bs.py:9-13 | after a step, the re-entrant greek refresh keeps parameters and tracked set, and when it returns with greeks tracked nothing is absent and the greeks agree with the final state |
| `Bs.RefreshedCases` | blackscholes/base.py:126-146 | without tracked greeks the refresh after a step returns at once; with greeks it returns exactly when the step made progress and the nested resolution returns, and then holds that resolution with fresh greeks |
| `Bs.Unroll` | blackscholes/bs.py:9-13 | the literal re-entrant recursion of `gen_getter` through `_update_values` and `_update_greeks` (blackscholes/base.py:110-146), cut at a depth: a resolved state is returned as is; a result keeps parameters, side and tracked set, and with greeks tracked it has nothing absent |
| `Bs.ResolveAgreesWithRecursion` | blackscholes/bs.py:9-13 | the model's resolution returns exactly when the source's unbounded re-entrant recursion does (within at most two nested entries), with the same state; when it reports endless recursion, no depth suffices |
| `Bs.ResolveInAtMostTwoSteps` | blackscholes/base.py:110-118 | without greeks a read takes one step; with greeks it succeeds exactly when the vol step and then the price step leave nothing absent, and the result is that state with fresh greeks |
| `Bs.ResolveKeepsPresentPrice` | blackscholes/bs.py:35-47 | a present price is never changed by resolution |
| `Bs.ResolveKeepsPresentVol` | blackscholes/bs.py:50-52 | a present vol is never changed by resolution; an absent price is then the pricing formula at that vol, with d1/d2 from it |
| `Bs.FixVolThenEdit` | blackscholes/base.py:76-79 | `fix_vol`, a parameter edit, then a read: vol is unchanged and the price is repriced with the edited parameters |
| `Bs.FixPriceThenEdit` | blackscholes/base.py:66-69 | `fix_price`, a parameter edit, then a read: the price is unchanged and vol is the implied vol solved against the edited parameters |
| `Bs.EditAfterResolveIsNotSeen` | blackscholes/base.py:40-43 | on a resolved contract a parameter edit leaves price, vol and greeks as they were through the next read |
| `Bs.BS.constructor` | blackscholes/bs.py:18-21 | the base constructor's stores, d1/d2 NaN, tracked greeks NaN |
| `Bs.BS.SetPrice` | blackscholes/bs.py:17 | assigning price on a `BS` is a plain store that keeps vol |
| `Bs.BS.SetVol` | blackscholes/bs.py:17 | assigning vol on a `BS` is a plain store that keeps the price |
| `Bs.BS.SetParam` | blackscholes/base.py:40-43 | a parameter write changes only that parameter |
| `Bs.BS.FloatVol` | blackscholes/base.py:61-64 | vol becomes NaN, all else kept, the same instance returned |
| `Bs.BS.FixPrice` | blackscholes/base.py:66-69 | the same transition as `float_vol` |
| `Bs.BS.FloatPrice` | blackscholes/base.py:71-74 | price becomes NaN, all else kept, the same instance returned |
| `Bs.BS.FixVol` | blackscholes/base.py:76-79 | the same transition as `float_price` |
| `Bs.BS.D1` | blackscholes/bs.py:27-29 | returns the cached d1 and changes nothing (no resolution) |
| `Bs.BS.D2` | blackscholes/bs.py:31-33 | returns the cached d2 and changes nothing (no resolution) |
| `Bs.BS.CalIv` | blackscholes/bs.py:35-47 | the new state is the vol step of the old one |
| `Bs.BS.CalPrice` | blackscholes/bs.py:50-52 | the new state is the price step of the old one |
| `Bs.BS.UpdateValues` | blackscholes/base.py:110-118 | returns exactly when `Resolve` does, leaving its state |
| `Bs.BS.UpdateGreeks` | blackscholes/base.py:126-146 | writes the tracked greeks in the fixed order, the first writer resolving through its nested read; the result is the re-entrant refresh of the specification |
| `Bs.BS.UpdateGreek` | blackscholes/bs.py:72-118 | a writer first resolves through its nested read, then stores its own greek computed from the resolved state |
| `Bs.BS.Read` | blackscholes/bs.py:9-13 | reading an untracked greek fails as no attribute and changes nothing; every other generated property read resolves first, then returns the stored field; it then fails only with endless recursion, exactly when `Resolve` does |

## Left out

- The Black-Scholes arithmetic is not modelled. This covers the call and put
  formulas, `_update_d` and the ten greek formulas (blackscholes/bs.py:54-118).
  They are floating-point expressions over exp, log, sqrt and the normal
  CDF/PDF, and appear only as the uninterpreted fields of `Numerics`. Note
  that `_update_d` halves the drift term and takes no dividend input; the
  model keeps only the second fact (`Bs.UpdateDIgnoresDiv`).
- `scipy.optimize.root` is an uninterpreted field of `Numerics`. It returns a
  root or raises. Its numerical behaviour and tolerance are not modelled.
  Only the lemmas that name `PreservesLength` assume it returns one root per
  element of its guess.
- Floats are reals or NaN. Infinities, rounding, and the float value of 0.2
  are not modelled.
- numpy shapes are not modelled. Only one-dimensional arrays and scalars are
  modelled, with no broadcasting and no dtypes. For an empty array, `if
  np.isnan(v)` is modelled as raising, as NumPy 2.2 and later do; earlier
  versions read it as false.
- The metaclass and property factories are replaced by explicit fields and
  methods. Greek names outside the ten known greeks are not modelled; the
  source would turn them into properties that are never refreshed. The
  `setter_generator` argument is not modelled, because only `base_setter` is
  ever passed.
- `base_repr` (blackscholes/base.py:25-31) is not modelled, because it is
  string formatting of floats. It lists the seven base properties and then
  the tracked greeks, and reads each one through its getter.
- `str.upper` is modelled on ASCII letters only. No other character
  upper-cases to a letter of "CALL". A non-string option type, which would
  raise, is excluded by typing.
- `self.option_type` stays a plain attribute. Reassigning it later does not
  change the side, so it is a constant here.
- Bs.BS.UpdateValues: when the source would recurse without end, the
  contract says nothing about the state. The source never returns from that
  call, and what Python does at its recursion limit is not modelled.
- Bs.BS.UpdateGreeks: the same gap in the endless-recursion case.
- Bs.BS.UpdateGreek: the same gap in the endless-recursion case.
- Bs.BS.Read: the same gap in the endless-recursion case.
- Bs.PriceStep: the price formula and `_update_d` are total here, so the
  price step never fails. In the source, `_cal_price`
  (blackscholes/bs.py:50-52) lets an exception from the formulas reach the
  reader, for example ZeroDivisionError from `self._spot/self._strike` when
  the strike is a Python number 0. `_cal_iv` turns the same error into a NaN
  vol only because it happens inside its `try`.
- Bs.GreekValue: the greek formulas are total here, so a greek writer never
  fails; in the source an exception in a formula (blackscholes/bs.py:72-118)
  reaches the reader.
- Values are immutable here. The source stores the arrays it is given by
  reference (blackscholes/base.py:51-57), so an in-place edit of such an
  array by the caller changes the contract without any setter running; the
  model does not capture that aliasing.
- The example scripts and the packaging file have no logic of their own and
  are not part of this model.
