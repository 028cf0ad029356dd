/**
  The primitive strategies of predictors.py: the ratio family (Division and its
  exact, precision-guarded and zero-tolerant variants) and the difference
  strategy (Subtraction).  Every one of them is stateless; a strategy is a tag
  and its operations are functions of the tag and the list.

  Numbers are exact reals, so a ratio computed as a float and one computed as a
  Fraction coincide: Division and DivisionFrac behave identically here.
*/
module Primitives {
  import opened Engine

  datatype Primitive =
    | Division
    | DivisionFrac
    | ImprovedDivision
    | DivisionCanDealWithZero
    | ImprovedDivisionCanDealWithZero
    | ImprovedDivisionFrac
    | Subtraction

  /** Below this absolute ratio the precision-guarded strategies give up on a reduction. */
  const MinimumAllowedNumber: real := 0.6666666667

  /** The strategies that inherit Division's base case and trim, both of which stop at zeros. */
  predicate StopsAtZero(p: Primitive)
  {
    p.Division? || p.DivisionFrac? || p.ImprovedDivision? || p.ImprovedDivisionFrac?
  }

  /** The strategies whose reduction applies the precision guard. */
  predicate Guarded(p: Primitive)
  {
    p.ImprovedDivision? || p.ImprovedDivisionCanDealWithZero?
  }

  function Abs(x: real): real
  {
    if x < 0.0 then -x else x
  }

  function Min(a: int, b: int): int
  {
    if a < b then a else b
  }

  /** Number of consecutive pairs in s, that is, range(1, len(s)) in length. */
  function PairCount(s: seq<real>): nat
  {
    if |s| == 0 then 0 else |s| - 1
  }

  predicate NonZeroDivisors(s: seq<real>)
  {
    forall i :: 0 <= i < |s| - 1 ==> s[i] != 0.0
  }

  predicate AllDivisorsZero(s: seq<real>)
  {
    forall i :: 0 <= i < |s| - 1 ==> s[i] == 0.0
  }

  /** The ratio of element i+1 to element i. */
  function Ratio(s: seq<real>, i: nat): (r: real)
    requires i < |s| - 1 && s[i] != 0.0
    ensures s[i] * r == s[i + 1]
  {
    s[i + 1] / s[i]
  }

  // ---------------------------------------------------------------- base case

  /** The number b such that infer(s, b) repeats the last element of s. */
  function BaseCaseNumber(p: Primitive): (b: real)
    ensures forall s :: |s| > 0 ==> Infer(p, s, b) == s[|s| - 1]
  {
    if p.Subtraction? then 0.0 else 1.0
  }

  /** Division's family stops at a singleton or at any zero; the others only at a singleton. */
  function BaseCase(p: Primitive, s: seq<real>): (r: Option<real>)
    ensures r.Some? ==> r.value == BaseCaseNumber(p)
    ensures |s| == 1 ==> r.Some?
    ensures StopsAtZero(p) && 0.0 in s ==> r.Some?
    ensures r.Some? && |s| != 1 ==> StopsAtZero(p) && 0.0 in s
  {
    if |s| == 1 || (StopsAtZero(p) && 0.0 in s) then Some(BaseCaseNumber(p)) else None
  }

  // ---------------------------------------------------------------- inference

  /** Ratio strategies scale the last element; Subtraction adds to it. */
  function Infer(p: Primitive, s: seq<real>, predicted: real): real
    requires |s| > 0
  {
    if p.Subtraction? then s[|s| - 1] + predicted else s[|s| - 1] * predicted
  }

  /** The inferred element extends s so that its last difference (for
      Subtraction) or its last ratio (for the others, when the last element
      is not zero) is the predicted element of the reduced list. */
  lemma InferExtends(p: Primitive, s: seq<real>, predicted: real)
    requires |s| > 0
    ensures var t := s + [Infer(p, s, predicted)];
            && (p.Subtraction? ==> Differences(t)[|s| - 1] == predicted)
            && (!p.Subtraction? && s[|s| - 1] != 0.0 ==> Ratio(t, |s| - 1) == predicted)
  {
    var t := s + [Infer(p, s, predicted)];
    assert t[|s| - 1] == s[|s| - 1];
  }

  // ---------------------------------------------------------------- reductions

  /** Consecutive ratios s[i+1]/s[i]: each times its divisor gives back the next element. */
  function Ratios(s: seq<real>): (r: seq<real>)
    requires NonZeroDivisors(s)
    ensures |r| == PairCount(s)
    ensures forall i {:trigger r[i]} :: 0 <= i < |r| ==> s[i] * r[i] == s[i + 1]
  {
    seq(PairCount(s), i requires 0 <= i < PairCount(s) => Ratio(s, i))
  }

  /** Consecutive differences s[i+1]-s[i]: each plus its predecessor gives back the next element. */
  function Differences(s: seq<real>): (r: seq<real>)
    ensures |r| == PairCount(s)
    ensures forall i {:trigger r[i]} :: 0 <= i < |r| ==> s[i] + r[i] == s[i + 1]
  {
    seq(PairCount(s), i requires 0 <= i < PairCount(s) => s[i + 1] - s[i])
  }

  /** The smallest absolute value in a non-empty list. */
  function MinAbs(r: seq<real>): (m: real)
    requires |r| > 0
    ensures forall i :: 0 <= i < |r| ==> m <= Abs(r[i])
    ensures exists i :: 0 <= i < |r| && m == Abs(r[i])
  {
    if |r| == 1 then Abs(r[0])
    else
      var rest := MinAbs(r[1..]);
      assert forall i :: 1 <= i < |r| ==> r[1..][i - 1] == r[i];
      if Abs(r[0]) < rest then Abs(r[0]) else rest
  }

  /** The precision guard: a reduction with any element of absolute value
      below the threshold is thrown away in favour of [1]. */
  function Guard(r: seq<real>): seq<real>
    requires |r| > 0
  {
    if MinAbs(r) < MinimumAllowedNumber then [1.0] else r
  }

  /** The guard throws a reduction away exactly when one of its elements is
      below the threshold in absolute value, and otherwise keeps it whole. */
  lemma GuardSemantics(r: seq<real>)
    requires |r| > 0
    ensures (exists i :: 0 <= i < |r| && Abs(r[i]) < MinimumAllowedNumber) ==> Guard(r) == [1.0]
    ensures (forall i :: 0 <= i < |r| ==> Abs(r[i]) >= MinimumAllowedNumber) ==> Guard(r) == r
  {
  }

  lemma GuardKeeps(r: seq<real>)
    requires |r| > 0 && MinAbs(r) >= MinimumAllowedNumber
    ensures Guard(r) == r
  {
  }

  /** The ratios of DivisionCanDealWithZero before substitution: None where the divisor is zero. */
  function PartialRatios(s: seq<real>): (rs: seq<Option<real>>)
    ensures |rs| == PairCount(s)
    ensures forall i {:trigger rs[i]} :: 0 <= i < |rs| ==> (rs[i].None? <==> s[i] == 0.0)
    ensures forall i {:trigger rs[i]} :: 0 <= i < |rs| && s[i] != 0.0 ==> rs[i] == Some(Ratio(s, i))
    ensures forall i {:trigger rs[i]} :: 0 <= i < |rs| && rs[i].Some? ==> s[i] * rs[i].value == s[i + 1]
  {
    seq(PairCount(s), i requires 0 <= i < PairCount(s) =>
      if s[i] != 0.0 then Some(Ratio(s, i)) else None)
  }

  /** The running maximum of the defined entries, scanning left to right. */
  function MaxDefined(rs: seq<Option<real>>): (m: Option<real>)
    ensures m.None? <==> forall i :: 0 <= i < |rs| ==> rs[i].None?
    ensures m.Some? ==> forall i :: 0 <= i < |rs| && rs[i].Some? ==> rs[i].value <= m.value
    ensures m.Some? ==> exists i :: 0 <= i < |rs| && rs[i] == m
  {
    if |rs| == 0 then None
    else
      var best := MaxDefined(rs[..|rs| - 1]);
      var item := rs[|rs| - 1];
      assert forall i :: 0 <= i < |rs| - 1 ==> rs[..|rs| - 1][i] == rs[i];
      if item.Some? && (best.None? || item.value > best.value) then item else best
  }

  /** Every undefined entry replaced by m. */
  function Fill(rs: seq<Option<real>>, m: real): seq<real>
  {
    seq(|rs|, i requires 0 <= i < |rs| => if rs[i].Some? then rs[i].value else m)
  }

  /** DivisionCanDealWithZero's reduction: [1] when every divisor is zero,
      otherwise one entry per consecutive pair (see ZeroTolerantRatiosValues). */
  function ZeroTolerantRatios(s: seq<real>): (r: seq<real>)
    ensures AllDivisorsZero(s) ==> r == [1.0]
    ensures !AllDivisorsZero(s) ==> |r| == |s| - 1
  {
    var rs := PartialRatios(s);
    match MaxDefined(rs)
    case None =>
      assert AllDivisorsZero(s) by {
        forall i | 0 <= i < |s| - 1 ensures s[i] == 0.0 { assert rs[i].None?; }
      }
      [1.0]
    case Some(m) => Fill(rs, m)
  }

  /** The entries of the zero-tolerant reduction: the ratio wherever the
      divisor is non-zero; wherever it is zero, the largest of those ratios. */
  lemma ZeroTolerantRatiosValues(s: seq<real>)
    requires !AllDivisorsZero(s)
    ensures var r := ZeroTolerantRatios(s);
            && (forall i {:trigger r[i]} :: 0 <= i < |r| && s[i] != 0.0 ==> r[i] == Ratio(s, i))
            && (forall i {:trigger r[i]} :: 0 <= i < |r| && s[i] == 0.0 ==>
                  (forall j :: 0 <= j < |r| && s[j] != 0.0 ==> Ratio(s, j) <= r[i]) &&
                  (exists j :: 0 <= j < |r| && s[j] != 0.0 && r[i] == Ratio(s, j)))
  {
    var rs := PartialRatios(s);
    var k :| 0 <= k < |s| - 1 && s[k] != 0.0;
    assert rs[k].Some?;
    var m := MaxDefined(rs).value;
    var r := ZeroTolerantRatios(s);
    assert r == Fill(rs, m);
    forall i | 0 <= i < |r| && s[i] == 0.0
      ensures forall j :: 0 <= j < |r| && s[j] != 0.0 ==> Ratio(s, j) <= r[i]
      ensures exists j :: 0 <= j < |r| && s[j] != 0.0 && r[i] == Ratio(s, j)
    {
      assert r[i] == m;
      forall j | 0 <= j < |r| && s[j] != 0.0
        ensures Ratio(s, j) <= r[i]
      {
        assert rs[j].Some?;
      }
      var j :| 0 <= j < |rs| && rs[j] == Some(m);
      assert s[j] != 0.0;
    }
  }

  /** With no zero divisor, the zero-tolerant reduction is the plain ratios. */
  lemma ZeroTolerantWithoutZeros(s: seq<real>)
    requires |s| >= 2 && NonZeroDivisors(s)
    ensures ZeroTolerantRatios(s) == Ratios(s)
  {
    assert !AllDivisorsZero(s) by { assert s[0] != 0.0; }
    ZeroTolerantRatiosValues(s);
    var r := ZeroTolerantRatios(s);
    forall i | 0 <= i < |r| ensures r[i] == Ratios(s)[i] {
      assert r[i] == Ratio(s, i);
    }
  }

  /** DivisionCanDealWithZero.reduce_function as the loops the source runs: one
      pass for the maximum of the defined ratios, one pass that overwrites the
      undefined entries with it. */
  method ReduceCanDealWithZero(s: seq<real>) returns (r: seq<real>)
    ensures r == ZeroTolerantRatios(s)
  {
    var toReturn := PartialRatios(s);
    var maxInToReturn: Option<real> := None;  // None stands for -inf
    var k := 0;
    while k < |toReturn|
      invariant 0 <= k <= |toReturn|
      invariant maxInToReturn == MaxDefined(toReturn[..k])
    {
      var item := toReturn[k];
      if item.Some? && (maxInToReturn.None? || item.value > maxInToReturn.value) {
        maxInToReturn := item;
      }
      assert toReturn[..k + 1][..k] == toReturn[..k];
      k := k + 1;
    }
    assert toReturn[..k] == toReturn;
    if maxInToReturn.None? {
      // no divisor was non-zero: the reduction collapses to the base number
      return [BaseCaseNumber(DivisionCanDealWithZero)];
    }
    ghost var original := toReturn;
    var i := 0;
    while i < |toReturn|
      invariant 0 <= i <= |toReturn| == |original|
      invariant forall j :: 0 <= j < i ==>
                  toReturn[j] == if original[j].Some? then original[j] else maxInToReturn
      invariant forall j :: i <= j < |toReturn| ==> toReturn[j] == original[j]
    {
      if toReturn[i].None? {
        toReturn := toReturn[i := maxInToReturn];
      }
      i := i + 1;
    }
    r := seq(|toReturn|, j requires 0 <= j < |toReturn| => toReturn[j].value);
    assert r == Fill(original, maxInToReturn.value);
  }

  /** What each strategy's reduction needs of its input: the plain ratio
      strategies a non-zero divisor everywhere, ImprovedDivision also a pair
      (the minimum of an empty list is undefined). */
  predicate ReduceDefined(p: Primitive, s: seq<real>)
  {
    match p
    case Division | DivisionFrac | ImprovedDivisionFrac => NonZeroDivisors(s)
    case ImprovedDivision => NonZeroDivisors(s) && |s| >= 2
    case DivisionCanDealWithZero | ImprovedDivisionCanDealWithZero | Subtraction => true
  }

  /** The reduction fell back to the base list [1]: the guard found a small
      ratio, or (zero-tolerant strategies) every divisor was zero. */
  predicate Collapsed(p: Primitive, s: seq<real>)
    requires ReduceDefined(p, s)
  {
    match p
    case ImprovedDivision => MinAbs(Ratios(s)) < MinimumAllowedNumber
    case DivisionCanDealWithZero => AllDivisorsZero(s)
    case ImprovedDivisionCanDealWithZero =>
      AllDivisorsZero(s) || MinAbs(ZeroTolerantRatios(s)) < MinimumAllowedNumber
    case Division | DivisionFrac | ImprovedDivisionFrac | Subtraction => false
  }

  /** A reduction shortens a list of two or more; it either collapses to [1]
      or has one element per consecutive pair. */
  function Reduce(p: Primitive, s: seq<real>): (r: seq<real>)
    requires ReduceDefined(p, s)
    ensures |s| >= 2 ==> 0 < |r| < |s|
    ensures Collapsed(p, s) ==> r == [1.0]
    ensures !Collapsed(p, s) ==> |r| == PairCount(s)
  {
    match p
    case Division | DivisionFrac | ImprovedDivisionFrac => Ratios(s)
    case ImprovedDivision => Guard(Ratios(s))
    case DivisionCanDealWithZero => ZeroTolerantRatios(s)
    case ImprovedDivisionCanDealWithZero => Guard(ZeroTolerantRatios(s))
    case Subtraction => Differences(s)
  }

  /** For the ratio strategies, inferring the ratio at i on the list up to
      position i gives back element i+1. */
  lemma ScaleBack(p: Primitive, s: seq<real>, i: nat)
    requires !p.Subtraction? && i < |s| - 1 && s[i] != 0.0
    ensures Infer(p, s[..i + 1], Ratio(s, i)) == s[i + 1]
  {
    assert s[..i + 1][i] == s[i];
  }

  /** Where a ratio strategy did not collapse, its element i is the ratio at i. */
  lemma UncollapsedRatio(p: Primitive, s: seq<real>, i: nat)
    requires ReduceDefined(p, s) && !Collapsed(p, s) && !p.Subtraction?
    requires i < |s| - 1 && s[i] != 0.0
    ensures i < |Reduce(p, s)| && Reduce(p, s)[i] == Ratio(s, i)
  {
    match p
    case DivisionCanDealWithZero =>
      ZeroTolerantRatiosValues(s);
    case ImprovedDivisionCanDealWithZero =>
      GuardKeeps(ZeroTolerantRatios(s));
      ZeroTolerantRatiosValues(s);
    case ImprovedDivision =>
      GuardKeeps(Ratios(s));
    case Division | DivisionFrac | ImprovedDivisionFrac =>
  }

  /** Infer undoes reduce: unless the reduction collapsed, inferring from its
      element i on the list up to position i gives back element i+1 (for the
      ratio strategies, wherever that divisor is not zero). */
  lemma InferUndoesReduce(p: Primitive, s: seq<real>, i: nat)
    requires ReduceDefined(p, s) && !Collapsed(p, s)
    requires i < |s| - 1 && (p.Subtraction? || s[i] != 0.0)
    ensures i < |Reduce(p, s)| && Infer(p, s[..i + 1], Reduce(p, s)[i]) == s[i + 1]
  {
    if p.Subtraction? {
      assert s[..i + 1][i] == s[i];
    } else {
      UncollapsedRatio(p, s, i);
      ScaleBack(p, s, i);
    }
  }

  // ---------------------------------------------------------------- trim

  /** Index of the last zero of s. */
  function LastZero(s: seq<real>): (k: nat)
    requires 0.0 in s
    ensures k < |s| && s[k] == 0.0
    ensures forall j :: k < j < |s| ==> s[j] != 0.0
  {
    if s[|s| - 1] == 0.0 then |s| - 1
    else
      assert exists j :: 0 <= j < |s| - 1 && s[j] == 0.0;
      assert 0.0 in s[..|s| - 1];
      LastZero(s[..|s| - 1])
  }

  /** Division's trim: with no zero the whole list; otherwise the suffix that
      starts two places after the last zero (so the element right after the
      zero is dropped as well), empty when that is past the end. */
  function DivisionTrim(s: seq<real>): (t: seq<real>)
    ensures |t| <= |s| && t == s[|s| - |t|..]
    ensures 0.0 !in t
    ensures 0.0 !in s ==> t == s
    ensures 0.0 in s ==> |s| - |t| == Min(|s|, LastZero(s) + 2)
  {
    if 0.0 !in s then s
    else
      // the position just after the last zero
      var lastOccurrenceOfZero := LastZero(s) + 1;
      s[Min(lastOccurrenceOfZero + 1, |s|)..]
  }

  /** The sublist a strategy predicts from: a suffix of the input; Division's
      family drops everything up to past the last zero, the others keep it all. */
  function Trim(p: Primitive, s: seq<real>): (t: seq<real>)
    ensures |t| <= |s| && t == s[|s| - |t|..]
    ensures StopsAtZero(p) ==> 0.0 !in t && (0.0 !in s ==> t == s)
    ensures !StopsAtZero(p) ==> t == s
  {
    if StopsAtZero(p) then DivisionTrim(s) else s
  }

  // ---------------------------------------------------------------- predict

  /** The callbacks a primitive strategy hands to the engine. */
  function Cb(p: Primitive): Callbacks<seq<real>, real>
  {
    Callbacks(
      s => BaseCase(p, s),
      s requires ReduceDefined(p, s) => Reduce(p, s),
      (s, x) requires |s| > 0 => Infer(p, s, x),
      s => |s|,
      x => true)
  }

  /** A non-empty list the base case does not stop at can be reduced: it has
      two elements or more and, for the strategies that divide without
      tolerating zero, no zero, so no division by zero happens; the reduction
      is shorter and not empty. */
  lemma ReduceSafe(p: Primitive, s: seq<real>)
    requires |s| > 0 && BaseCase(p, s).None?
    ensures |s| >= 2 && ReduceDefined(p, s) && 0 < |Reduce(p, s)| < |s|
  {
    if StopsAtZero(p) {
      forall i | 0 <= i < |s| ensures s[i] != 0.0 {
        assert s[i] in s;
      }
    }
  }

  /** Every primitive strategy meets the engine's needs: the engine never
      reduces a list its base case stops at, and every reduction shortens a
      non-empty list without emptying it. */
  lemma Soundness(p: Primitive)
    ensures Sound(Cb(p))
  {
    forall s | Continues(Cb(p), s)
      ensures ReduceDefined(p, s) && 0 < |Reduce(p, s)| < |s|
    {
      ReduceSafe(p, s);
    }
  }

  /** The engine run on a primitive strategy's callbacks. */
  function Extrapolate(p: Primitive, s: seq<real>): (r: Option<real>)
    ensures r.None? <==> |s| == 0
  {
    Soundness(p);
    PredictNextElementRecursive(Cb(p), s)
  }

  /** AbstractStaticPredictor.predict: no prediction when the trimmed list is
      empty, the engine's prediction on it otherwise. */
  function Predict(p: Primitive, lis: seq<real>): (r: Option<real>)
    ensures r.None? <==> |Trim(p, lis)| == 0
  {
    var sublistToPredict := Trim(p, lis);
    if |sublistToPredict| == 0 then None
    else Extrapolate(p, sublistToPredict)
  }

  // ---------------------------------------------------------------- properties of predict

  /** On a list its trim keeps whole, a strategy's prediction is the engine's. */
  lemma PredictUntrimmed(p: Primitive, s: seq<real>)
    requires |s| > 0 && Trim(p, s) == s
    ensures Predict(p, s) == Extrapolate(p, s)
  {
  }

  /** n copies of c.  The postcondition only spells out the elements, so
      that the proofs about constant lists need not unfold the body. */
  function Constant(c: real, n: nat): (s: seq<real>)
    ensures |s| == n && forall i :: 0 <= i < n ==> s[i] == c
  {
    seq(n, _ => c)
  }

  /** A ratio strategy reduces a list without zero divisors whose ratios all
      equal q to n - 1 copies of q, provided the guard lets q through. */
  lemma UniformRatios(p: Primitive, s: seq<real>, q: real)
    requires !p.Subtraction? && |s| >= 2 && NonZeroDivisors(s)
    requires forall i :: 0 <= i < |s| - 1 ==> Ratio(s, i) == q
    requires Guarded(p) ==> Abs(q) >= MinimumAllowedNumber
    ensures ReduceDefined(p, s) && Reduce(p, s) == Constant(q, |s| - 1)
  {
    var qs := Constant(q, |s| - 1);
    assert Ratios(s) == qs;
    if p.DivisionCanDealWithZero? || p.ImprovedDivisionCanDealWithZero? {
      ZeroTolerantWithoutZeros(s);
    }
    if Guarded(p) {
      assert MinAbs(qs) == Abs(q);
    }
  }

  /** The reduction of a constant list of two or more: all differences are 0;
      all ratios are 1 (the guard keeps them); with every divisor 0 the
      zero-tolerant strategies collapse to [1]. */
  lemma ReduceConstant(p: Primitive, c: real, n: nat)
    requires n >= 2 && (c == 0.0 ==> p.Subtraction? || p.DivisionCanDealWithZero? || p.ImprovedDivisionCanDealWithZero?)
    ensures ReduceDefined(p, Constant(c, n))
    ensures p.Subtraction? ==> Reduce(p, Constant(c, n)) == Constant(0.0, n - 1)
    ensures !p.Subtraction? && c != 0.0 ==> Reduce(p, Constant(c, n)) == Constant(1.0, n - 1)
    ensures !p.Subtraction? && c == 0.0 ==> Reduce(p, Constant(c, n)) == [1.0]
  {
    var s := Constant(c, n);
    if p.Subtraction? {
      assert Reduce(p, s) == Constant(0.0, n - 1);
    } else if c != 0.0 {
      forall i | 0 <= i < n - 1 ensures Ratio(s, i) == 1.0 {
        assert s[i] == c && s[i + 1] == c;
        assert Ratio(s, i) == c / c;
      }
      UniformRatios(p, s, 1.0);
    } else {
      assert AllDivisorsZero(s);
    }
  }

  /** The engine on a primitive strategy, one level at a time: a list the base
      case stops at is continued with its last element; any other non-empty
      list with the inference from the prediction for its reduction. */
  lemma EngineLevel(p: Primitive, s: seq<real>)
    requires |s| > 0
    ensures BaseCase(p, s).Some? ==> Extrapolate(p, s) == Some(s[|s| - 1])
    ensures BaseCase(p, s).None? ==>
              && |s| >= 2 && ReduceDefined(p, s)
              && Extrapolate(p, Reduce(p, s)).Some?
              && Extrapolate(p, s) == Some(Infer(p, s, Extrapolate(p, Reduce(p, s)).value))
  {
    Soundness(p);
    if BaseCase(p, s).None? {
      assert Continues(Cb(p), s);
    }
  }

  /** One level of the engine: from the prediction v for the reduction of a
      list the base case does not stop at, the engine infers on the list. */
  lemma EngineStep(p: Primitive, s: seq<real>, v: real)
    requires |s| > 0 && BaseCase(p, s).None?
    requires ReduceDefined(p, s) && Extrapolate(p, Reduce(p, s)) == Some(v)
    ensures Extrapolate(p, s) == Some(Infer(p, s, v))
  {
    EngineLevel(p, s);
  }

  /** Predict on a list the trim keeps whole and the base case does not stop:
      the inference from the prediction v for its reduction. */
  lemma PredictStep(p: Primitive, s: seq<real>, v: real)
    requires |s| > 0 && Trim(p, s) == s && BaseCase(p, s).None?
    requires ReduceDefined(p, s) && Extrapolate(p, Reduce(p, s)) == Some(v)
    ensures Predict(p, s) == Some(Infer(p, s, v))
  {
    EngineStep(p, s, v);
    PredictUntrimmed(p, s);
  }

  /** The engine continues a constant list with its constant, for every
      strategy: the strategies that stop at zeros stop at once on a list of
      zeros, and scale its last element, 0, by 1. */
  lemma {:induction false} EngineConstant(p: Primitive, c: real, n: nat)
    requires n > 0
    ensures Extrapolate(p, Constant(c, n)) == Some(c)
    decreases n
  {
    var s := Constant(c, n);
    if n == 1 || (StopsAtZero(p) && c == 0.0) {
      assert s[n - 1] == c;
      EngineLevel(p, s);
    } else {
      assert BaseCase(p, s).None? by {
        if StopsAtZero(p) { assert 0.0 !in s; }
      }
      ReduceConstant(p, c, n);
      var v := if p.Subtraction? then 0.0 else 1.0;
      var m := if !p.Subtraction? && c == 0.0 then 1 else n - 1;
      assert Reduce(p, s) == Constant(v, m);
      EngineConstant(p, v, m);
      EngineStep(p, s, v);
    }
  }

  /** A constant list predicts its constant; only the strategies that stop at
      zeros give no prediction for a list of zeros (they trim it all away). */
  lemma PredictConstant(p: Primitive, c: real, n: nat)
    requires n > 0
    ensures Predict(p, Constant(c, n)) == if StopsAtZero(p) && c == 0.0 then None else Some(c)
  {
    var s := Constant(c, n);
    if StopsAtZero(p) && c == 0.0 {
      assert s[n - 1] == 0.0;
      assert LastZero(s) == n - 1;
    } else {
      assert Trim(p, s) == s by {
        if StopsAtZero(p) { assert 0.0 !in s; }
      }
      EngineConstant(p, c, n);
    }
  }

  /** Subtraction: a list of one element predicts that element. */
  lemma SubtractionSingleton(c: real)
    ensures Predict(Subtraction, [c]) == Some(c)
  {
    PredictConstant(Subtraction, c, 1);
    assert Constant(c, 1) == [c];
  }

  /** a, a + d, ..., a + (n - 1) * d.  The postcondition only spells out the
      elements, so that the proofs about progressions need not unfold the body. */
  function Arithmetic(a: real, d: real, n: nat): (s: seq<real>)
    ensures |s| == n && forall i :: 0 <= i < n ==> s[i] == a + (i as real) * d
  {
    seq(n, i => a + (i as real) * d)
  }

  /** The differences of an arithmetic progression are its common difference. */
  lemma ArithmeticDifferences(a: real, d: real, n: nat)
    requires n >= 2
    ensures Differences(Arithmetic(a, d, n)) == Constant(d, n - 1)
  {
    var s := Arithmetic(a, d, n);
    forall i | 0 <= i < n - 1 ensures Differences(s)[i] == d {
      var x := i as real;
      assert (i + 1) as real == x + 1.0;
      assert (x + 1.0) * d == x * d + d;
    }
  }

  /** Subtraction continues every arithmetic progression of two or more terms. */
  lemma SubtractionExtendsArithmetic(a: real, d: real, n: nat)
    requires n >= 2
    ensures Predict(Subtraction, Arithmetic(a, d, n)) == Some(a + (n as real) * d)
  {
    var s := Arithmetic(a, d, n);
    ArithmeticDifferences(a, d, n);
    EngineConstant(Subtraction, d, n - 1);
    PredictStep(Subtraction, s, d);
    assert s[n - 1] + d == a + (n as real) * d by {
      var x := (n - 1) as real;
      assert s[n - 1] == a + x * d;
      assert (x + 1.0) * d == x * d + d;
    }
  }

  /** Every term is the previous one times q. */
  predicate IsGeometric(s: seq<real>, q: real)
  {
    forall i :: 0 <= i < |s| - 1 ==> s[i + 1] == s[i] * q
  }

  /** A geometric progression that starts away from zero with a non-zero
      ratio never reaches zero, and each of its ratios is q. */
  lemma GeometricRatios(s: seq<real>, q: real)
    requires IsGeometric(s, q) && |s| > 0 && s[0] != 0.0 && q != 0.0
    ensures 0.0 !in s && NonZeroDivisors(s)
    ensures forall i :: 0 <= i < |s| - 1 ==> Ratio(s, i) == q
  {
    var k := 0;
    while k < |s|
      invariant 0 <= k <= |s| && forall j :: 0 <= j < k ==> s[j] != 0.0
    {
      if k > 0 {
        assert s[k] == s[k - 1] * q;
      }
      k := k + 1;
    }
    forall i | 0 <= i < |s| - 1 ensures Ratio(s, i) == q {
      var x := s[i];
      assert x * Ratio(s, i) == x * q;
    }
  }

  /** A ratio strategy continues a list without zeros whose ratios all equal
      q by inferring from q, provided the guard lets q through. */
  lemma UniformRatiosPredict(p: Primitive, s: seq<real>, q: real)
    requires !p.Subtraction? && |s| >= 2 && 0.0 !in s && NonZeroDivisors(s) && q != 0.0
    requires forall i :: 0 <= i < |s| - 1 ==> Ratio(s, i) == q
    requires Guarded(p) ==> Abs(q) >= MinimumAllowedNumber
    ensures Predict(p, s) == Some(s[|s| - 1] * q)
  {
    UniformRatios(p, s, q);
    ConstantReductionPredict(p, s, q);
  }

  /** A ratio strategy continues a list without zeros that it reduces to
      copies of q by multiplying its last element by q. */
  lemma ConstantReductionPredict(p: Primitive, s: seq<real>, q: real)
    requires !p.Subtraction? && |s| >= 2 && 0.0 !in s && q != 0.0
    requires ReduceDefined(p, s) && Reduce(p, s) == Constant(q, |s| - 1)
    ensures Predict(p, s) == Some(s[|s| - 1] * q)
  {
    var v := Infer(p, s, q);
    assert v == s[|s| - 1] * q;
    ConstantReductionInfers(p, s, q);
  }

  /** Predict on a list without zeros that a ratio strategy reduces to copies
      of q: the inference from q. */
  lemma ConstantReductionInfers(p: Primitive, s: seq<real>, q: real)
    requires !p.Subtraction? && |s| >= 2 && 0.0 !in s && q != 0.0
    requires ReduceDefined(p, s) && Reduce(p, s) == Constant(q, |s| - 1)
    ensures Predict(p, s) == Some(Infer(p, s, q))
  {
    EngineConstant(p, q, |s| - 1);
    PredictStep(p, s, q);
  }

  /** Every ratio strategy continues a geometric progression of two or more
      terms that starts away from zero with a non-zero ratio, provided the
      guard lets the ratio through. */
  lemma RatioExtendsGeometric(p: Primitive, s: seq<real>, q: real)
    requires !p.Subtraction? && |s| >= 2 && IsGeometric(s, q) && s[0] != 0.0 && q != 0.0
    requires Guarded(p) ==> Abs(q) >= MinimumAllowedNumber
    ensures Predict(p, s) == Some(s[|s| - 1] * q)
  {
    GeometricRatios(s, q);
    UniformRatiosPredict(p, s, q);
  }

  // ---------------------------------------------------------------- examples

  /** Division's trim drops the element right after the last zero as well. */
  lemma DivisionTrimExample()
    ensures Trim(Division, [1.0, 0.0, 7.0, 2.0, 4.0]) == [2.0, 4.0]
  {
    var s := [1.0, 0.0, 7.0, 2.0, 4.0];
    assert 0.0 in s by { assert s[1] == 0.0; }
    assert LastZero(s) == 1;
  }

  /** Division continues the progression 100, 1, 0.01. */
  lemma DivisionExample()
    ensures Predict(Division, [100.0, 1.0, 0.01]) == Some(0.0001)
  {
    var s := [100.0, 1.0, 0.01];
    assert IsGeometric(s, 0.01);
    RatioExtendsGeometric(Division, s, 0.01);
    assert s[|s| - 1] == 0.01;
    assert 0.01 * 0.01 == 0.0001;
  }

  /** The guard in action: the ratios of 100, 1, 0.01 are below the
      threshold, so ImprovedDivision reduces to [1] and predicts the last
      element again. */
  lemma GuardExample()
    ensures Reduce(ImprovedDivision, [100.0, 1.0, 0.01]) == [1.0]
    ensures Predict(ImprovedDivision, [100.0, 1.0, 0.01]) == Some(0.01)
  {
    var s := [100.0, 1.0, 0.01];
    GuardExampleReduce(s);
    EngineLevel(ImprovedDivision, [1.0]);
    PredictStep(ImprovedDivision, s, 1.0);
    assert Infer(ImprovedDivision, s, 1.0) == 0.01;
  }

  /** The ratios of 100, 1, 0.01 are both 0.01, below the guard. */
  lemma GuardExampleReduce(s: seq<real>)
    requires s == [100.0, 1.0, 0.01]
    ensures ReduceDefined(ImprovedDivision, s) && Reduce(ImprovedDivision, s) == [1.0]
  {
    assert Ratio(s, 0) == 0.01 && Ratio(s, 1) == 0.01;
    assert Ratios(s) == [0.01, 0.01];
    assert MinAbs(Ratios(s)) == 0.01;
  }

  /** The zero-tolerant strategy on all-zero divisors reduces to [1] and
      predicts the last element. */
  lemma ZeroTolerantExample()
    ensures Reduce(DivisionCanDealWithZero, [0.0, 0.0, 5.0]) == [1.0]
    ensures Predict(DivisionCanDealWithZero, [0.0, 0.0, 5.0]) == Some(5.0)
  {
    var s := [0.0, 0.0, 5.0];
    assert AllDivisorsZero(s);
    assert Reduce(DivisionCanDealWithZero, s) == [1.0];
    EngineLevel(DivisionCanDealWithZero, [1.0]);
    assert Trim(DivisionCanDealWithZero, s) == s;
    PredictStep(DivisionCanDealWithZero, s, 1.0);
  }
}
