/**
  The SlopeAndBias strategy of predictors.py: it assumes that every element
  is the previous one times a slope plus a bias, turns the list into the list
  of slopes and the list of biases, and predicts both with two primitive
  strategies running side by side.

  A level of the engine is therefore either the flat input list or a pair of
  lists (slopes, biases); a prediction is either a number (for the flat list)
  or a (slope, bias) pair (for a paired level).
*/
module Composite {
  import opened Engine
  import Primitives

  datatype Level = Flat(s: seq<real>) | Paired(slopes: seq<real>, biases: seq<real>)

  datatype Value = Scalar(x: real) | Pair(slope: real, bias: real)

  /** The strategies that predict the slopes and the biases. */
  datatype SlopeAndBias = SlopeAndBias(slopePredictor: Primitives.Primitive, biasPredictor: Primitives.Primitive)

  /** The class defaults: the zero-tolerant guarded division for both. */
  const Default := SlopeAndBias(Primitives.ImprovedDivisionCanDealWithZero, Primitives.ImprovedDivisionCanDealWithZero)

  /** The strategy whose reduction supplies the slopes, and whose trim is the composite's trim. */
  const SlopesCreator := Primitives.ImprovedDivisionCanDealWithZero

  /** A level of two lists is as long as the shorter of them. */
  function Size(l: Level): nat
  {
    match l
    case Flat(s) => |s|
    case Paired(a, b) => if |a| < |b| then |a| else |b|
  }

  /** The two base-case numbers, as a (slope, bias) prediction: inferred on
      a pair of lists, it continues each list with its last element. */
  function BaseCaseNumbers(sb: SlopeAndBias): (r: Value)
    ensures r.Pair?
    ensures forall a, b :: |a| > 0 && |b| > 0 ==> Infer(sb, Paired(a, b), r) == Pair(a[|a| - 1], b[|b| - 1])
  {
    Pair(Primitives.BaseCaseNumber(sb.slopePredictor), Primitives.BaseCaseNumber(sb.biasPredictor))
  }

  /** The composite base-case test on a pair of lists: the slope strategy's
      base case fires on the slopes or the bias strategy's on the biases. */
  predicate PairStops(sb: SlopeAndBias, slopes: seq<real>, biases: seq<real>)
  {
    Primitives.BaseCase(sb.slopePredictor, slopes).Some? || Primitives.BaseCase(sb.biasPredictor, biases).Some?
  }

  /** Each element rounded down to an integer. */
  function Floors(r: seq<real>): (f: seq<real>)
    ensures |f| == |r|
    ensures forall i {:trigger r[i]} :: 0 <= i < |r| ==> f[i] == r[i].Floor as real
  {
    if |r| == 0 then []
    else
      var rest := Floors(r[1..]);
      assert forall i :: 1 <= i < |r| ==> r[1..][i - 1] == r[i];
      [r[0].Floor as real] + rest
  }

  /** The slopes of a list of two or more: the slopes creator's ratios, rounded down. */
  function Slopes(lis: seq<real>): (slopes: seq<real>)
    requires |lis| >= 2
    ensures 0 < |slopes| < |lis|
  {
    Floors(Primitives.Reduce(SlopesCreator, lis))
  }

  /** The bias at i: what element i+1 needs on top of element i times the
      slope at i, so that slopes and biases rebuild the list. */
  function Biases(lis: seq<real>, slopes: seq<real>): (b: seq<real>)
    requires |slopes| < |lis|
    ensures |b| == |slopes|
    ensures forall i {:trigger b[i]} :: 0 <= i < |slopes| ==> lis[i + 1] == lis[i] * slopes[i] + b[i]
  {
    seq(|slopes|, i requires 0 <= i < |slopes| => lis[i + 1] - lis[i] * slopes[i])
  }

  /** convert_list_to_slopes_and_biases: when either sub-strategy's base case
      fires on the list itself, the singleton lists of their base-case
      numbers; otherwise the floors of the slopes creator's reduction as the
      slopes, and as biases what each element needs on top of its
      predecessor times the slope. */
  function Convert(sb: SlopeAndBias, lis: seq<real>): (r: Level)
    requires |lis| > 0
    ensures r.Paired? && |r.slopes| == |r.biases| > 0
    ensures PairStops(sb, lis, lis) ==>
              && r.slopes == [Primitives.BaseCaseNumber(sb.slopePredictor)]
              && r.biases == [Primitives.BaseCaseNumber(sb.biasPredictor)]
    ensures !PairStops(sb, lis, lis) ==>
              && |lis| >= 2 && |r.slopes| < |lis|
              && r.slopes == Slopes(lis) && r.biases == Biases(lis, r.slopes)
  {
    if PairStops(sb, lis, lis) then
      Paired([Primitives.BaseCaseNumber(sb.slopePredictor)], [Primitives.BaseCaseNumber(sb.biasPredictor)])
    else
      var slopes := Slopes(lis);
      Paired(slopes, Biases(lis, slopes))
  }

  /** base_case: a flat list is converted first; the base case fires when a
      sub-strategy's base case fires on the slopes or on the biases, in
      particular when it fires on the flat list itself, and then yields both
      base-case numbers. */
  function BaseCase(sb: SlopeAndBias, l: Level): (r: Option<Value>)
    requires l.Flat? ==> |l.s| > 0
    ensures r.Some? ==> r.value == BaseCaseNumbers(sb)
    ensures l.Flat? && PairStops(sb, l.s, l.s) ==> r.Some?
    ensures l.Paired? ==> (r.Some? <==> PairStops(sb, l.slopes, l.biases))
  {
    var pair := if l.Flat? then Convert(sb, l.s) else l;
    if PairStops(sb, pair.slopes, pair.biases) then Some(BaseCaseNumbers(sb)) else None
  }

  /** What reduce_function needs: a non-empty flat list, or a pair of lists
      each of which its own strategy can reduce. */
  predicate ReduceDefined(sb: SlopeAndBias, l: Level)
  {
    match l
    case Flat(s) => |s| > 0
    case Paired(a, b) =>
      Primitives.ReduceDefined(sb.slopePredictor, a) && Primitives.ReduceDefined(sb.biasPredictor, b)
  }

  /** reduce_function: a flat list becomes its slopes and biases; a pair of
      lists is reduced component by component, each shrinking. */
  function Reduce(sb: SlopeAndBias, l: Level): (r: Level)
    requires ReduceDefined(sb, l)
    ensures r.Paired?
    ensures l.Paired? && |l.slopes| >= 2 && |l.biases| >= 2 ==> 0 < Size(r) < Size(l)
  {
    match l
    case Flat(s) => Convert(sb, s)
    case Paired(a, b) =>
      Paired(Primitives.Reduce(sb.slopePredictor, a), Primitives.Reduce(sb.biasPredictor, b))
  }

  /** inference_function: on a pair of lists each strategy infers its own
      component; on the flat list the last element times the slope plus the
      bias. */
  function Infer(sb: SlopeAndBias, l: Level, v: Value): (r: Value)
    requires v.Pair? && Size(l) > 0
    ensures l.Flat? <==> r.Scalar?
  {
    match l
    case Flat(s) => Scalar(s[|s| - 1] * v.slope + v.bias)
    case Paired(a, b) =>
      Pair(Primitives.Infer(sb.slopePredictor, a, v.slope), Primitives.Infer(sb.biasPredictor, b, v.bias))
  }

  /** Infer on the flat list undoes its conversion: inferring from slope i
      and bias i on the list up to position i gives back element i+1. */
  lemma FlatInferUndoesConvert(sb: SlopeAndBias, s: seq<real>, sl: seq<real>, b: seq<real>, i: nat)
    requires |s| >= 2 && |sl| < |s| && b == Biases(s, sl) && i < |sl|
    ensures Infer(sb, Flat(s[..i + 1]), Pair(sl[i], b[i])) == Scalar(s[i + 1])
  {
    assert s[..i + 1][i] == s[i];
    assert s[i + 1] == s[i] * sl[i] + b[i];
  }

  /** The callbacks the composite strategy hands to the engine. */
  function Cb(sb: SlopeAndBias): Callbacks<Level, Value>
  {
    Callbacks(
      (l: Level) requires l.Flat? ==> |l.s| > 0 => BaseCase(sb, l),
      (l: Level) requires ReduceDefined(sb, l) => Reduce(sb, l),
      (l: Level, v: Value) requires v.Pair? && Size(l) > 0 => Infer(sb, l, v),
      (l: Level) => Size(l),
      (v: Value) => v.Pair?)
  }

  /** A pair of lists the base case does not stop at can be reduced, and the
      reduction is shorter and not empty. */
  lemma PairedReduceSafe(sb: SlopeAndBias, a: seq<real>, b: seq<real>)
    requires |a| > 0 && |b| > 0 && !PairStops(sb, a, b)
    ensures ReduceDefined(sb, Paired(a, b)) && 0 < Size(Reduce(sb, Paired(a, b))) < Size(Paired(a, b))
  {
    Primitives.ReduceSafe(sb.slopePredictor, a);
    Primitives.ReduceSafe(sb.biasPredictor, b);
  }

  /** The composite strategy meets the engine's needs, whatever its two sub-strategies. */
  lemma Soundness(sb: SlopeAndBias)
    ensures Sound(Cb(sb))
  {
    var cb := Cb(sb);
    forall l | Continues(cb, l)
      ensures ReduceDefined(sb, l) && 0 < Size(Reduce(sb, l)) < Size(l)
    {
      match l
      case Flat(s) =>
        assert !PairStops(sb, s, s);
      case Paired(a, b) =>
        PairedReduceSafe(sb, a, b);
    }
  }

  /** The engine run on the composite callbacks from a flat list: a number. */
  function Extrapolate(sb: SlopeAndBias, s: seq<real>): (r: Option<Value>)
    ensures r.None? <==> |s| == 0
    ensures r.Some? ==> r.value.Scalar?
  {
    Soundness(sb);
    PredictNextElementRecursive(Cb(sb), Flat(s))
  }

  /** get_sublist_which_can_be_predicted: the slopes creator's, which keeps the whole list. */
  function Trim(lis: seq<real>): (t: seq<real>)
    ensures t == lis
  {
    Primitives.Trim(SlopesCreator, lis)
  }

  /** AbstractStaticPredictor.predict for the composite strategy. */
  function Predict(sb: SlopeAndBias, lis: seq<real>): (r: Option<real>)
    ensures r.None? <==> |lis| == 0
  {
    var sublistToPredict := Trim(lis);
    if |sublistToPredict| == 0 then None
    else Some(Extrapolate(sb, sublistToPredict).value.x)
  }

  // ---------------------------------------------------------------- properties

  /** The engine run on the composite callbacks from a pair of lists: a (slope, bias) pair. */
  function ExtrapolatePaired(sb: SlopeAndBias, a: seq<real>, b: seq<real>): (r: Option<Value>)
    requires |a| > 0 && |b| > 0
    ensures r.Some? && r.value.Pair?
  {
    Soundness(sb);
    PredictNextElementRecursive(Cb(sb), Paired(a, b))
  }

  /** The engine on a pair of lists, one level at a time: where the base case
      fires, each list is continued with its last element; otherwise each
      strategy infers its component from the prediction for the reduced pair. */
  lemma PairedLevel(sb: SlopeAndBias, a: seq<real>, b: seq<real>)
    requires |a| > 0 && |b| > 0
    ensures PairStops(sb, a, b) ==> ExtrapolatePaired(sb, a, b) == Some(Pair(a[|a| - 1], b[|b| - 1]))
    ensures !PairStops(sb, a, b) ==>
              && Primitives.ReduceDefined(sb.slopePredictor, a) && Primitives.ReduceDefined(sb.biasPredictor, b)
              && var ra := Primitives.Reduce(sb.slopePredictor, a);
                 var rb := Primitives.Reduce(sb.biasPredictor, b);
                 && |ra| > 0 && |rb| > 0
                 && var v := ExtrapolatePaired(sb, ra, rb).value;
                    ExtrapolatePaired(sb, a, b)
                    == Some(Pair(Primitives.Infer(sb.slopePredictor, a, v.slope), Primitives.Infer(sb.biasPredictor, b, v.bias)))
  {
    Soundness(sb);
    if !PairStops(sb, a, b) {
      PairedReduceSafe(sb, a, b);
      assert Continues(Cb(sb), Paired(a, b));
    }
  }

  /** The engine on a flat list: where the base case fires, the inference
      from both base numbers; otherwise the inference from the (slope, bias)
      prediction for the list's slopes and biases. */
  lemma FlatLevel(sb: SlopeAndBias, s: seq<real>)
    requires |s| > 0
    ensures BaseCase(sb, Flat(s)).Some? ==> Extrapolate(sb, s) == Some(Infer(sb, Flat(s), BaseCaseNumbers(sb)))
    ensures BaseCase(sb, Flat(s)).None? ==>
              && !PairStops(sb, s, s)
              && var c := Convert(sb, s);
                 Extrapolate(sb, s) == Some(Infer(sb, Flat(s), ExtrapolatePaired(sb, c.slopes, c.biases).value))
  {
    Soundness(sb);
    if BaseCase(sb, Flat(s)).None? {
      assert Continues(Cb(sb), Flat(s));
    }
  }

  /** When either sub-strategy's base case fires on the input itself, nothing
      is converted: the prediction is the last element times the slope base
      number plus the bias base number. */
  lemma ShortCircuit(sb: SlopeAndBias, s: seq<real>)
    requires |s| > 0 && PairStops(sb, s, s)
    ensures var v := BaseCaseNumbers(sb); Predict(sb, s) == Some(s[|s| - 1] * v.slope + v.bias)
  {
    var v := BaseCaseNumbers(sb);
    assert BaseCase(sb, Flat(s)).Some?;
    FlatLevel(sb, s);
    assert Extrapolate(sb, s) == Some(Infer(sb, Flat(s), v));
    assert Infer(sb, Flat(s), v) == Scalar(s[|s| - 1] * v.slope + v.bias);
    assert Trim(s) == s;
    assert Predict(sb, s) == Some(s[|s| - 1] * v.slope + v.bias);
  }

  /** Inference undoes the reduction on a pair of lists: unless a component
      collapsed, inferring the reduced pair's element i on the lists up to
      position i gives back both elements i+1 (for a ratio strategy, wherever
      its divisor is not zero). */
  lemma PairedInferUndoesReduce(sb: SlopeAndBias, a: seq<real>, b: seq<real>, i: nat)
    requires Primitives.ReduceDefined(sb.slopePredictor, a) && !Primitives.Collapsed(sb.slopePredictor, a)
    requires Primitives.ReduceDefined(sb.biasPredictor, b) && !Primitives.Collapsed(sb.biasPredictor, b)
    requires i < |a| - 1 && (sb.slopePredictor.Subtraction? || a[i] != 0.0)
    requires i < |b| - 1 && (sb.biasPredictor.Subtraction? || b[i] != 0.0)
    ensures var r := Reduce(sb, Paired(a, b));
            && i < |r.slopes| && i < |r.biases|
            && Infer(sb, Paired(a[..i + 1], b[..i + 1]), Pair(r.slopes[i], r.biases[i])) == Pair(a[i + 1], b[i + 1])
  {
    Primitives.InferUndoesReduce(sb.slopePredictor, a, i);
    Primitives.InferUndoesReduce(sb.biasPredictor, b, i);
  }

  // ---------------------------------------------------------------- example

  /** The zero-tolerant ratios of 1, 5, 13, 29, 61: no divisor is zero, so
      they are the plain ratios. */
  lemma ExampleRatios(s: seq<real>)
    requires s == [1.0, 5.0, 13.0, 29.0, 61.0]
    ensures Primitives.ZeroTolerantRatios(s) == [5.0, 13.0 / 5.0, 29.0 / 13.0, 61.0 / 29.0]
  {
    Primitives.ZeroTolerantWithoutZeros(s);
  }

  /** The slopes of 1, 5, 13, 29, 61: its ratios 5, 2.6, 2.23.., 2.10.. all
      pass the guard and round down to 5, 2, 2, 2. */
  lemma ExampleSlopes(s: seq<real>)
    requires s == [1.0, 5.0, 13.0, 29.0, 61.0]
    ensures Slopes(s) == [5.0, 2.0, 2.0, 2.0]
  {
    var z := Primitives.ZeroTolerantRatios(s);
    ExampleRatios(s);
    assert Primitives.Reduce(SlopesCreator, s) == z by {
      assert Primitives.MinAbs(z) >= Primitives.MinimumAllowedNumber by {
        forall i | 0 <= i < 4 ensures Primitives.Abs(z[i]) >= 2.0 { }
      }
      Primitives.GuardKeeps(z);
    }
    var f := Floors(z);
    assert f[0] == 5.0 && f[1] == 2.0 && f[2] == 2.0 && f[3] == 2.0 by {
      assert z[0] == 5.0 && z[1] == 13.0 / 5.0 && z[2] == 29.0 / 13.0 && z[3] == 61.0 / 29.0;
    }
  }

  /** The biases of 1, 5, 13, 29, 61 under the slopes 5, 2, 2, 2. */
  lemma ExampleBiases(s: seq<real>, slopes: seq<real>)
    requires s == [1.0, 5.0, 13.0, 29.0, 61.0] && slopes == [5.0, 2.0, 2.0, 2.0]
    ensures Biases(s, slopes) == [0.0, 3.0, 3.0, 3.0]
  {
    var b := Biases(s, slopes);
    assert b[0] == 0.0 && b[1] == 3.0 && b[2] == 3.0 && b[3] == 3.0;
  }

  /** The slopes 5, 2, 2, 2 have the ratio 0.4, below the guard's threshold:
      the slope strategy reduces them to [1]. */
  lemma ExampleSlopesCollapse(a: seq<real>)
    requires a == [5.0, 2.0, 2.0, 2.0]
    ensures Primitives.Reduce(Primitives.ImprovedDivisionCanDealWithZero, a) == [1.0]
  {
    var z := Primitives.ZeroTolerantRatios(a);
    assert !Primitives.AllDivisorsZero(a) by { assert a[0] != 0.0; }
    Primitives.ZeroTolerantRatiosValues(a);
    assert z[0] == Primitives.Ratio(a, 0) == 0.4;
    assert Primitives.MinAbs(z) < Primitives.MinimumAllowedNumber;
  }

  /** The biases 0, 3, 3, 3: the ratio through the zero takes the largest
      other ratio, 1, so the bias strategy reduces them to 1, 1, 1. */
  lemma ExampleBiasesReduce(b: seq<real>)
    requires b == [0.0, 3.0, 3.0, 3.0]
    ensures Primitives.Reduce(Primitives.ImprovedDivisionCanDealWithZero, b) == [1.0, 1.0, 1.0]
  {
    var z := Primitives.ZeroTolerantRatios(b);
    assert !Primitives.AllDivisorsZero(b) by { assert b[1] != 0.0; }
    Primitives.ZeroTolerantRatiosValues(b);
    assert z[1] == Primitives.Ratio(b, 1) == 1.0;
    assert z[2] == Primitives.Ratio(b, 2) == 1.0;
    assert z[0] == 1.0 by {
      var j :| 0 <= j < |z| && b[j] != 0.0 && z[0] == Primitives.Ratio(b, j);
      assert j == 1 || j == 2;
    }
    assert z == [1.0, 1.0, 1.0];
    assert Primitives.MinAbs(z) >= Primitives.MinimumAllowedNumber by {
      forall i | 0 <= i < 3 ensures Primitives.Abs(z[i]) >= 1.0 { }
    }
    Primitives.GuardKeeps(z);
  }

  /** 1, 5, 13, 29, 61 converts to the slopes 5, 2, 2, 2 and the biases
      0, 3, 3, 3, on which no base case fires. */
  lemma ExampleConvert(s: seq<real>)
    requires s == [1.0, 5.0, 13.0, 29.0, 61.0]
    ensures Convert(Default, s) == Paired([5.0, 2.0, 2.0, 2.0], [0.0, 3.0, 3.0, 3.0])
    ensures BaseCase(Default, Flat(s)).None?
  {
    var slopes, biases := [5.0, 2.0, 2.0, 2.0], [0.0, 3.0, 3.0, 3.0];
    ExampleSlopes(s);
    ExampleBiases(s, slopes);
    assert !PairStops(Default, s, s);
    assert !PairStops(Default, slopes, biases);
  }

  /** The engine on the slopes 5, 2, 2, 2 and the biases 0, 3, 3, 3 predicts
      the pair (2, 3). */
  lemma ExamplePaired(a: seq<real>, b: seq<real>)
    requires a == [5.0, 2.0, 2.0, 2.0] && b == [0.0, 3.0, 3.0, 3.0]
    ensures ExtrapolatePaired(Default, a, b) == Some(Pair(2.0, 3.0))
  {
    ExampleSlopesCollapse(a);
    ExampleBiasesReduce(b);
    var ra, rb := [1.0], [1.0, 1.0, 1.0];
    PairedLevel(Default, ra, rb);
    assert PairStops(Default, ra, rb);
    assert ExtrapolatePaired(Default, ra, rb) == Some(Pair(1.0, 1.0));
    assert !PairStops(Default, a, b);
    PairedLevel(Default, a, b);
  }

  /** With the default strategies, 1, 5, 13, 29, 61 (each element twice the
      previous plus 3) is continued with 125: the slopes 5, 2, 2, 2 collapse to
      [1] and the biases 0, 3, 3, 3 reduce to 1, 1, 1, where the base case
      fires with (1, 1); inferring back gives (2, 3), and 61 * 2 + 3. */
  lemma SlopeAndBiasExample()
    ensures Predict(Default, [1.0, 5.0, 13.0, 29.0, 61.0]) == Some(125.0)
  {
    var s := [1.0, 5.0, 13.0, 29.0, 61.0];
    ExampleConvert(s);
    ExamplePaired([5.0, 2.0, 2.0, 2.0], [0.0, 3.0, 3.0, 3.0]);
    FlatLevel(Default, s);
    assert Extrapolate(Default, s) == Some(Scalar(125.0));
    assert Trim(s) == s;
  }
}
