# Predict-Next-Element-In-Sequence in Dafny

This project models the core of Predict-Next-Element-In-Sequence, a Python
library that guesses the next element of a numeric sequence. Each strategy
says how to simplify a sequence (its *reduction*), when a sequence is simple
enough to stop (its *base case*), and how to turn a prediction for the
simplified sequence back into one for the original (its *inference*). A
generic *extrapolation engine* descends by reducing until the base case
fires, then climbs back up by inferring.

The model has four modules:

- `engine.dfy` (module `Engine`): the engine, generic in the level type and
  the prediction type. The recursive version `predict_next_element_recursive`
  is a function. The iterative version `predict_next_element` is a method
  whose two loops are `Descend` (build the generation stack) and `Ascend`
  (walk it backwards). It is proved to return what the recursive version
  returns. Its ghost outputs record the order in which reduce and infer
  were called.
- `primitives.dfy` (module `Primitives`): the seven primitive strategies.
  These are `Division`, `DivisionFrac`, `ImprovedDivision`,
  `DivisionCanDealWithZero`, `ImprovedDivisionCanDealWithZero`,
  `ImprovedDivisionFrac` and `Subtraction`. The module also has the default
  and Division trims (`get_sublist_which_can_be_predicted`) and `predict`.
  The zero-tolerant reduction is also written as the two loops of the
  source, in the method `ReduceCanDealWithZero`.
- `composite.dfy` (module `Composite`): `SlopeAndBias`. It rewrites a list
  as slopes and biases and predicts both with two primitive strategies
  running side by side. A level is either the flat input (`Flat`) or a pair
  of lists (`Paired`). A prediction is either a number (`Scalar`) or a
  (slope, bias) pair (`Pair`).
- `extension.dfy` (module `Extension`): `create_prediction_series` and
  `get_lists_of_predictions` as methods over a predictor's `predict`
  operation. Lemmas show that Subtraction rebuilds every arithmetic
  progression from any prefix of two or more elements. Each ratio strategy
  does the same for a geometric progression away from zero; for the guarded
  strategies (`ImprovedDivision`, `ImprovedDivisionCanDealWithZero`) only
  when the common ratio q has |q| ≥ 0.6666666667.

Numbers are exact reals. The engine's callbacks are partial functions. A
strategy's callbacks come with a size measure and a soundness proof
(`Primitives.Soundness`, `Composite.Soundness`). The soundness proof
establishes that the engine only reduces lists it may reduce. For example,
Division never divides by zero, because reduction only runs when the base
case did not fire.

### Division's trim

`predictors.py:104-110` computes the position one past the last zero and
then slices from one further. So the trim also drops the element right after
the last zero: `[1, 0, 7, 2, 4]` becomes `[2, 4]`, and `[0, 3]` predicts
nothing. The model computes the same slice (`Primitives.DivisionTrim`,
`Primitives.DivisionTrimExample`).

## Model

| member | source | states |
|---|---|---|
| Engine.PredictNextElementRecursive | abstract_prediction_methods.py:1-33 | No prediction exactly when the input is empty. The prediction for a reduced level is again one that infer accepts. |
| Engine.Generations | abstract_prediction_methods.py:58-65 | The generation stack starts with the input. Every level but the last is one the engine goes past, and its successor is its reduction. The base case fires on the last level. |
| Engine.RecursiveIsUnwind | abstract_prediction_methods.py:20-33 | The recursive engine returns infer(g0, infer(g1, … infer(gk, b))), where g0…gk are the generations and b is the base value of gk. |
| Engine.ImmediateBaseCase | abstract_prediction_methods.py:23-25 | If the base case fires on the input, the stack is just the input and the result is infer(input, base value). Nothing is reduced. |
| Engine.DescentStep | abstract_prediction_methods.py:60-65 | On the generation stack, the base case fires exactly on the last level. Before that, the next level is the reduction of the current one and is strictly smaller. |
| Engine.AscentStep | abstract_prediction_methods.py:71-73 | The ascent from level i is infer on level i of the ascent from level i+1. On the last level it is infer of the base value. |
| Engine.Descend | abstract_prediction_methods.py:58-65 | The first loop builds exactly the generation stack and ends with the base value of its last level. reduce is called on every level but the last, in order. |
| Engine.Ascend | abstract_prediction_methods.py:67-75 | The second loop returns the ascent over the stack from the base value. infer is called once per level, from the last level back to the first. |
| Engine.PredictNextElement | abstract_prediction_methods.py:36-75 | The iterative engine returns the same as the recursive one. It returns None on empty input. Otherwise it returns the ascent over the generation stack. reduce runs on every level but the last. infer runs once more than reduce, in reverse order. |
| Primitives.BaseCaseNumber | predictors.py:86-91 | Inferring from the base number reproduces the last element: 1 for the ratio strategies, 0 for Subtraction. |
| Primitives.InferExtends | predictors.py:101-102 | `Infer` (also lines 245-246) extends a list with an element whose last difference, for Subtraction, is the prediction for the reduced list. For the ratio strategies it is the last ratio, when the last element is not 0. Its meaning in the engine is also stated by `Primitives.BaseCaseNumber` and `Primitives.InferUndoesReduce`. |
| Primitives.BaseCase | predictors.py:93-96 | Fires on a singleton. For the strategies that inherit Division's base case, it also fires on any list containing 0, and only then. It yields the base number. |
| Primitives.Ratio | predictors.py:99 | The ratio at i times element i gives element i+1. |
| Primitives.Ratios | predictors.py:98-99 | One ratio per consecutive pair. Each ratio times its divisor gives back the next element. |
| Primitives.Differences | predictors.py:242-243 | One difference per consecutive pair. Each difference plus its predecessor gives back the next element. |
| Primitives.MinAbs | predictors.py:145 | The least absolute value of the list: no element is below it, and some element attains it. |
| Primitives.GuardSemantics | predictors.py:138-147 | The precision guard turns the reduction into [1] when some element has absolute value below 0.6666666667. When none does, it keeps the reduction whole. |
| Primitives.GuardKeeps | predictors.py:145-147 | A reduction whose least absolute value reaches the threshold passes the guard unchanged. |
| Primitives.PartialRatios | predictors.py:157 | One entry per consecutive pair. An entry is undefined exactly where the divisor is 0. A defined entry times its divisor gives the next element. |
| Primitives.MaxDefined | predictors.py:158-161 | The maximum of the defined entries, if any is defined. It is an upper bound of all of them and equal to one of them. |
| Primitives.ZeroTolerantRatios | predictors.py:156-171 | [1] when every divisor is 0. Otherwise one entry per consecutive pair. |
| Primitives.ZeroTolerantRatiosValues | predictors.py:156-171 | Where the divisor is non-zero, the entry is the ratio. Where it is zero, the entry is the largest of the ratios, attained by one of them; this is what the substitution loop at lines 167-169 achieves. |
| Primitives.ZeroTolerantWithoutZeros | predictors.py:156-171 | With no zero divisor, the zero-tolerant reduction equals the plain ratios. |
| Primitives.ReduceCanDealWithZero | predictors.py:156-171 | The two loops of DivisionCanDealWithZero.reduce_function compute the zero-tolerant ratios. |
| Primitives.Reduce | predictors.py:140-147 | Each strategy's reduction shortens a list of two or more without emptying it. It is [1] when it collapsed. Otherwise it has one element per pair. The other reductions are at lines 98-99, 115-116, 195-202, 207-208 and 242-243. |
| Primitives.UncollapsedRatio | predictors.py:98-99 | Where a ratio strategy did not collapse, element i of its reduction is the ratio at i. This also holds after zero substitution and the guard. |
| Primitives.ScaleBack | predictors.py:101-102 | Inferring the ratio at i on the list up to position i gives back element i+1. |
| Primitives.InferUndoesReduce | predictors.py:98-102 | Infer undoes reduce for every strategy, wherever the reduction did not collapse. For ratio strategies this requires the divisor to be non-zero. |
| Primitives.LastZero | predictors.py:106 | The index of the last zero. No zero follows it. |
| Primitives.DivisionTrim | predictors.py:104-110 | Division's trim returns a zero-free suffix. It is the whole list when there is no zero. Otherwise it starts two places after the last zero, or is empty when that is past the end. |
| Primitives.Trim | predictors.py:56-67 | The trim returns a suffix. It is the identity for the strategies that do not stop at zeros. |
| Primitives.ReduceSafe | predictors.py:93-99 | A non-empty list the base case does not stop at has two or more elements. It can be reduced without dividing by zero, to a shorter non-empty list. |
| Primitives.Soundness | predictors.py:69-82 | Every primitive strategy meets the engine's needs. |
| Primitives.Extrapolate | predictors.py:79-82 | The engine gives a prediction exactly for non-empty lists. |
| Primitives.Predict | predictors.py:69-82 | predict gives no prediction exactly when the trimmed list is empty. |
| Primitives.PredictUntrimmed | predictors.py:76-82 | On a list that its trim keeps whole, predict is the engine's prediction. |
| Primitives.UniformRatios | predictors.py:98-99 | A ratio strategy reduces a zero-free list whose ratios are all q to copies of q, when the guard lets q through. |
| Primitives.ReduceConstant | predictors.py:98-99 | A constant list reduces to zeros under Subtraction and to ones under a ratio strategy. A list of zeros reduces to [1] under the zero-tolerant strategies. |
| Primitives.EngineLevel | predictors.py:79-82 | The engine gives the last element where the base case fires. Otherwise it gives the inference from its prediction for the reduction. |
| Primitives.EngineStep | predictors.py:79-82 | From the prediction v for the reduction, the engine predicts infer(s, v). |
| Primitives.PredictStep | predictors.py:76-82 | On an untrimmed list that does not stop, predict is infer(s, v), where v is the prediction for the reduction. |
| Primitives.EngineConstant | predictors.py:79-82 | The engine continues a constant list with its constant, for every strategy. On a list of zeros the strategies that stop at zero take the base case (lines 93-96; the others' base cases are at 151-154 and 237-240) and scale 0 by 1. |
| Primitives.PredictConstant | predictors.py:93-96 | A constant list predicts its constant. The only exception is a list of zeros under the strategies that stop at zeros: they trim it away and predict nothing. |
| Primitives.SubtractionSingleton | predictors.py:237-240 | Subtraction predicts c for [c]. |
| Primitives.ArithmeticDifferences | predictors.py:242-243 | The differences of an arithmetic progression are its common difference. |
| Primitives.SubtractionExtendsArithmetic | predictors.py:242-246 | For n ≥ 2, Subtraction continues a + i·d (i < n) with a + n·d. |
| Primitives.GeometricRatios | predictors.py:99 | A geometric progression that starts away from zero, with a non-zero ratio, has no zero. All its ratios are q. |
| Primitives.UniformRatiosPredict | predictors.py:98-102 | A ratio strategy continues a zero-free list whose ratios are all q with last·q, when the guard lets q through. |
| Primitives.ConstantReductionPredict | predictors.py:101-102 | A zero-free list that a ratio strategy reduces to copies of q is continued with last·q. |
| Primitives.RatioExtendsGeometric | predictors.py:98-102 | Every ratio strategy continues a geometric progression away from zero with last·q. For the guarded strategies this requires \|q\| ≥ 0.6666666667. |
| Primitives.DivisionTrimExample | predictors.py:104-110 | Division trims [1, 0, 7, 2, 4] to [2, 4]. |
| Primitives.DivisionExample | predictors.py:85-110 | Division predicts 0.0001 after 100, 1, 0.01. |
| Primitives.GuardExampleReduce | predictors.py:140-147 | ImprovedDivision reduces 100, 1, 0.01 to [1], because both ratios are 0.01. |
| Primitives.GuardExample | predictors.py:140-147 | ImprovedDivision therefore predicts 0.01 after 100, 1, 0.01. |
| Primitives.ZeroTolerantExample | predictors.py:156-171 | DivisionCanDealWithZero reduces 0, 0, 5 to [1] and predicts 5. |
| Composite.Floors | predictors.py:396 | Every slope is rounded down to an integer. |
| Composite.Slopes | predictors.py:396 | A list of two or more has at least one slope, and fewer slopes than elements. |
| Composite.Biases | predictors.py:397 | Slopes and biases rebuild the list: element i+1 is element i times slope i plus bias i. |
| Composite.Convert | predictors.py:383-399 | When either sub-strategy's base case fires on the list, it returns the singletons of the two base numbers. Otherwise it returns the floored slopes and the biases that rebuild the list. |
| Composite.BaseCase | predictors.py:412-426 | On a pair, it fires exactly when either sub-strategy's base case fires on its component. On a flat list it fires at least when either sub-strategy's base case fires on the list itself. When it fires, it yields both base numbers. |
| Composite.Reduce | predictors.py:428-437 | The result is always a pair of lists. A pair whose lists both have two or more elements becomes a smaller non-empty pair. |
| Composite.Infer | predictors.py:439-449 | A flat level gets a number, and a pair of lists gets a pair. |
| Composite.FlatInferUndoesConvert | predictors.py:446-449 | Infer on the flat list undoes its conversion (lines 396-397): from slope i and bias i, the list up to position i is continued with element i+1. |
| Composite.BaseCaseNumbers | predictors.py:401-410 | The pair of the two base-case numbers. Inferred on a pair of lists, it continues each list with its last element. |
| Composite.PairedReduceSafe | predictors.py:428-432 | A pair the base case does not stop at can be reduced, to a smaller non-empty pair. |
| Composite.Soundness | predictors.py:412-449 | SlopeAndBias meets the engine's needs, whatever its two sub-strategies. |
| Composite.Extrapolate | predictors.py:79-82 | The engine gives a number exactly for non-empty lists. |
| Composite.Trim | predictors.py:451-452 | The trim of the slopes creator keeps the whole list. |
| Composite.Predict | predictors.py:69-82 | SlopeAndBias predicts a number for every non-empty list. |
| Composite.ExtrapolatePaired | predictors.py:412-449 | On a pair of lists, the engine gives a (slope, bias) pair. |
| Composite.PairedLevel | predictors.py:420-444 | Where a pair stops, each list is continued with its last element. Otherwise each strategy infers its component from the prediction for the reduced pair. |
| Composite.FlatLevel | predictors.py:412-449 | On a flat list, the result is the inference from the base numbers where the base case fires. Otherwise it is the inference from the pair predicted for the slopes and biases. |
| Composite.ShortCircuit | predictors.py:388-394 | When either sub-strategy's base case fires on the input, the prediction is last·(slope base number) + (bias base number). |
| Composite.PairedInferUndoesReduce | predictors.py:439-444 | Componentwise infer undoes componentwise reduce at i, wherever neither component collapsed and, for a ratio component, its element i is not 0. |
| Composite.ExampleRatios | predictors.py:396 | The slope-creator ratios of 1, 5, 13, 29, 61 are 5, 13/5, 29/13 and 61/29. |
| Composite.ExampleSlopes | predictors.py:396 | The slopes of 1, 5, 13, 29, 61 are 5, 2, 2, 2. |
| Composite.ExampleBiases | predictors.py:397 | Their biases are 0, 3, 3, 3. |
| Composite.ExampleSlopesCollapse | predictors.py:195-202 | The slopes 5, 2, 2, 2 reduce to [1], because 2/5 is below the guard. |
| Composite.ExampleBiasesReduce | predictors.py:156-171 | The biases 0, 3, 3, 3 reduce to 1, 1, 1. The entry after the zero takes the largest ratio. |
| Composite.ExampleConvert | predictors.py:383-399 | The conversion of 1, 5, 13, 29, 61. |
| Composite.ExamplePaired | predictors.py:412-449 | The slopes and biases of that list predict the pair (2, 3). |
| Composite.SlopeAndBiasExample | predictors.py:439-449 | With the default sub-strategies, SlopeAndBias predicts 125 after 1, 5, 13, 29, 61. |
| Extension.Predict | predictors.py:69-82 | Dispatch to the predictor's own predict. There is no prediction on the empty list. A predictor that never trims predicts on every other list. |
| Extension.TotalIffNeverTrims | predictors.py:104-110 | A predictor predicts on every non-empty list exactly when it never trims. The Division family gives nothing on [0]. |
| Extension.CreatePredictionSeries | extend_prediction_capabilities.py:6-20 | Same length as the input. Element 0 is the first input element. Element i is the prediction from the first i elements. |
| Extension.GetListsOfPredictions | extend_prediction_capabilities.py:23-42 | Returns len−1 lists, or none for inputs of length 0 or 1. List k has the input's length and starts with its first k+1 elements. Every later element is the prediction from the elements before it. |
| Extension.SelfExtendedUnique | extend_prediction_capabilities.py:36-38 | Two lists that agree on a prefix, and that the same predictor continues exactly from there on, are equal. |
| Extension.ArithmeticPrefix | extend_prediction_capabilities.py:36 | The prefixes of an arithmetic progression are arithmetic progressions. |
| Extension.ArithmeticStep | extend_prediction_capabilities.py:37-38 | Subtraction predicts the next element of an arithmetic progression from any prefix of two or more elements. |
| Extension.ArithmeticSelfExtended | extend_prediction_capabilities.py:37-38 | An arithmetic progression is continued exactly by Subtraction from its second element on. |
| Extension.SubtractionRebuildsArithmetic | extend_prediction_capabilities.py:23-42 | Every list get_lists_of_predictions builds with Subtraction from a prefix of two or more elements of an arithmetic progression is that progression. |
| Extension.GeometricPrefix | extend_prediction_capabilities.py:36 | The prefixes of a geometric progression are geometric, and the last element of a prefix times q is the next element. |
| Extension.GeometricStep | extend_prediction_capabilities.py:37-38 | A ratio strategy predicts last·q after a geometric progression away from zero; for the guarded strategies, \|q\| ≥ 0.6666666667. |
| Extension.GeometricSelfExtended | extend_prediction_capabilities.py:37-38 | A geometric progression away from zero is continued exactly by a ratio strategy from its second element on; for the guarded strategies, \|q\| ≥ 0.6666666667. |
| Extension.RatioRebuildsGeometric | extend_prediction_capabilities.py:23-42 | Every list built by a ratio strategy from a prefix of two or more elements of a geometric progression away from zero is that progression; for the guarded strategies, \|q\| ≥ 0.6666666667. |

## Left out

- `TruncationWrapperCreator` (`predictors.py:249-319`), the metaclass that rounds strategy results, is not part of this model.
- `get_name` and the report names of strategies are left out. They are display only.
- Floating point is left out. Numbers are exact reals. For `DivisionFrac` and `ImprovedDivisionFrac` they stand for int or `Fraction` inputs: on those, `DivisionFrac` computes what `Division` computes, and `ImprovedDivisionFrac` what unguarded `Division` computes. On float elements `Fraction(lis[i], lis[i - 1])` (`predictors.py:116` and `208`) raises TypeError; that error is not modelled. Rounding effects that the 0.6666666667 guard works around in floating point do not arise.
- The testing harness under `testing_on_oeis/` and `main.py` are left out. They do input, output and reporting.
- Composite.SlopeAndBias: the slope and bias sub-strategies range over the seven primitive strategies; a SlopeAndBias nested inside a SlopeAndBias is not modelled. The slopes creator is fixed to its class default, `ImprovedDivisionCanDealWithZero`.
- Composite.BaseCase: the runtime probe `type(lis[0]) is TYPE_LIST` becomes the `Flat`/`Paired` tag of a level. A flat list whose first element is itself a list is not modelled.
- Composite.Infer: inferring a flat level from a plain number raises in Python, because the pair cannot be unpacked. The model rules this out by requiring a pair.
- Engine.PredictNextElement: the engine's final generation `[base_case_result]` is kept as a separate value instead of a one-element list on the stack.
- Primitives.Predict and Composite.Predict: both run the recursive engine. The iterative method is tied to it by `Engine.PredictNextElement`'s postcondition.
- Extension.GetListsOfPredictions: requires a predictor that predicts on every non-empty list (`Extension.TotalIffNeverTrims`: exactly the ones that never trim). With a predictor that trims, Python may append None; each later prediction either trims it away or raises TypeError on it. That behaviour is not modelled.
- Extension.CreatePredictionSeries: requires a non-empty list. On the empty list Python raises IndexError at `lis[0]` (`extend_prediction_capabilities.py:16`); that error is not modelled.
- Extension.CreatePredictionSeries, Extension.GetListsOfPredictions: both take the predictor's `predict` as a function value rather than a predictor object.
- The input list is never modified, but this is not stated. The model works on immutable sequences, so it holds by construction.
