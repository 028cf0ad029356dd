/**
  The helpers of extend_prediction_capabilities.py that run a predictor over
  the prefixes of a list: the series of one-step predictions, and the lists
  obtained by extending each prefix with the predictor's own predictions.

  The helpers only ever call the predictor's predict operation, so they are
  stated over that operation, a function from a list to an optional next
  element; PredictorFunction gives it for the predictors of this model.
*/
module Extension {
  import opened Engine
  import Primitives
  import Composite

  /** A predictor: one of the primitive strategies, or SlopeAndBias over two of them. */
  datatype Predictor =
    | Simple(p: Primitives.Primitive)
    | SlopeBias(sb: Composite.SlopeAndBias)

  /** The predictors whose trim keeps every list whole. */
  predicate NeverTrims(pr: Predictor)
  {
    pr.SlopeBias? || !Primitives.StopsAtZero(pr.p)
  }

  /** predictor.predict: no prediction on the empty list, and for a predictor
      that never trims, a prediction on every other list. */
  function Predict(pr: Predictor, lis: seq<real>): (r: Option<real>)
    ensures |lis| == 0 ==> r.None?
    ensures NeverTrims(pr) && |lis| > 0 ==> r.Some?
  {
    match pr
    case Simple(p) => Primitives.Predict(p, lis)
    case SlopeBias(sb) => Composite.Predict(sb, lis)
  }

  /** The predict operation of a predictor, as a value the helpers take. */
  function PredictorFunction(pr: Predictor): seq<real> -> Option<real>
  {
    lis => Predict(pr, lis)
  }

  /** A predict operation that gives a prediction for every non-empty list. */
  ghost predicate Total(predict: seq<real> -> Option<real>)
  {
    forall lis :: |lis| > 0 ==> predict(lis).Some?
  }

  /** The predictors that never trim are exactly those whose predict
      operation is total. */
  lemma TotalIffNeverTrims(pr: Predictor)
    ensures Total(PredictorFunction(pr)) <==> NeverTrims(pr)
  {
    if !NeverTrims(pr) {
      var p := pr.p;
      assert |Primitives.Trim(p, [0.0])| == 0;
      assert Predict(pr, [0.0]).None?;
      assert PredictorFunction(pr)([0.0]).None?;
    }
  }

  /** create_prediction_series: the first element as it is, then at each
      position the prediction from the elements before it. */
  method CreatePredictionSeries(lis: seq<real>, predict: seq<real> -> Option<real>) returns (p: seq<Option<real>>)
    requires |lis| > 0
    ensures |p| == |lis| && p[0] == Some(lis[0])
    ensures forall i :: 1 <= i < |lis| ==> p[i] == predict(lis[..i])
  {
    p := [Some(lis[0])];
    var i := 1;
    while i < |lis|
      invariant 1 <= i <= |lis| && |p| == i && p[0] == Some(lis[0])
      invariant forall j :: 1 <= j < i ==> p[j] == predict(lis[..j])
    {
      p := p + [predict(lis[..i])];
      i := i + 1;
    }
  }

  /** Every element of t from position k + 1 on is the prediction from the
      elements before it. */
  ghost predicate SelfExtended(predict: seq<real> -> Option<real>, t: seq<real>, k: nat)
  {
    forall j :: k + 1 <= j < |t| ==> predict(t[..j]) == Some(t[j])
  }

  /** get_lists_of_predictions: for each proper non-empty prefix of the list,
      that prefix extended by the predictor's own predictions up to the
      length of the list. */
  method GetListsOfPredictions(lis: seq<real>, predict: seq<real> -> Option<real>) returns (predictedLists: seq<seq<real>>)
    requires Total(predict)
    ensures |predictedLists| == if |lis| == 0 then 0 else |lis| - 1
    ensures forall k :: 0 <= k < |predictedLists| ==>
              && |predictedLists[k]| == |lis|
              && predictedLists[k][..k + 1] == lis[..k + 1]
              && SelfExtended(predict, predictedLists[k], k)
  {
    predictedLists := [];
    if |lis| == 0 {
      return;
    }
    var i := 1;
    while i < |lis|
      invariant 1 <= i <= |lis| && |predictedLists| == i - 1
      invariant forall k :: 0 <= k < |predictedLists| ==>
                  && |predictedLists[k]| == |lis|
                  && predictedLists[k][..k + 1] == lis[..k + 1]
                  && SelfExtended(predict, predictedLists[k], k)
    {
      var currentList := lis[..i];
      while |currentList| < |lis|
        invariant i <= |currentList| <= |lis|
        invariant currentList[..i] == lis[..i]
        invariant SelfExtended(predict, currentList, i - 1)
      {
        var next := predict(currentList);
        var extended := currentList + [next.value];
        forall j | 0 <= j <= |currentList| ensures extended[..j] == currentList[..j] {
          assert extended[..j] == currentList[..j];
        }
        currentList := extended;
      }
      predictedLists := predictedLists + [currentList];
      i := i + 1;
    }
  }

  /** Two lists that agree on their first k + 1 elements and are both
      self-extended from there on by the same predict operation are equal:
      a list that the predictor continues exactly is rebuilt from any of its
      prefixes. */
  lemma {:induction false} SelfExtendedUnique(predict: seq<real> -> Option<real>, lis: seq<real>, t: seq<real>, k: nat)
    requires |t| == |lis| && k < |lis| && t[..k + 1] == lis[..k + 1]
    requires SelfExtended(predict, t, k) && SelfExtended(predict, lis, k)
    ensures t == lis
  {
    var m := k + 1;
    while m < |lis|
      invariant k + 1 <= m <= |lis| && t[..m] == lis[..m]
    {
      assert predict(t[..m]) == Some(t[m]);
      assert predict(lis[..m]) == Some(lis[m]);
      assert t[..m + 1] == t[..m] + [t[m]];
      assert lis[..m + 1] == lis[..m] + [lis[m]];
      m := m + 1;
    }
    assert t == t[..m] && lis == lis[..m];
  }

  /** Subtraction predicts the element of an arithmetic progression that
      follows a prefix of two or more elements. */
  lemma ArithmeticStep(a: real, d: real, n: nat, j: nat)
    requires 2 <= j < n
    ensures Predict(Simple(Primitives.Subtraction), Primitives.Arithmetic(a, d, n)[..j]) == Some(Primitives.Arithmetic(a, d, n)[j])
  {
    var s := Primitives.Arithmetic(a, d, n);
    var next := a + (j as real) * d;
    ArithmeticPrefix(a, d, n, j);
    Primitives.SubtractionExtendsArithmetic(a, d, j);
    assert Primitives.Predict(Primitives.Subtraction, s[..j]) == Some(next);
    assert s[j] == next;
  }

  /** The prefixes of an arithmetic progression are arithmetic progressions. */
  lemma ArithmeticPrefix(a: real, d: real, n: nat, j: nat)
    requires j <= n
    ensures Primitives.Arithmetic(a, d, n)[..j] == Primitives.Arithmetic(a, d, j)
  {
  }

  /** An arithmetic progression is self-extended by Subtraction from its
      second element on. */
  lemma ArithmeticSelfExtended(a: real, d: real, n: nat)
    ensures SelfExtended(PredictorFunction(Simple(Primitives.Subtraction)), Primitives.Arithmetic(a, d, n), 1)
  {
    var s := Primitives.Arithmetic(a, d, n);
    forall j | 2 <= j < n ensures Predict(Simple(Primitives.Subtraction), s[..j]) == Some(s[j]) {
      ArithmeticStep(a, d, n, j);
    }
  }

  /** Subtraction rebuilds an arithmetic progression from any prefix of two
      or more elements: every list get_lists_of_predictions makes from such
      a prefix is the progression itself. */
  lemma SubtractionRebuildsArithmetic(a: real, d: real, n: nat, t: seq<real>, k: nat)
    requires 1 <= k < n && |t| == n
    requires t[..k + 1] == Primitives.Arithmetic(a, d, n)[..k + 1]
    requires SelfExtended(PredictorFunction(Simple(Primitives.Subtraction)), t, k)
    ensures t == Primitives.Arithmetic(a, d, n)
  {
    var f := PredictorFunction(Simple(Primitives.Subtraction));
    var s := Primitives.Arithmetic(a, d, n);
    ArithmeticSelfExtended(a, d, n);
    assert SelfExtended(f, s, k);
    SelfExtendedUnique(f, s, t, k);
  }

  /** The prefixes of a geometric progression are geometric progressions. */
  lemma GeometricPrefix(s: seq<real>, q: real, j: nat)
    requires j <= |s| && Primitives.IsGeometric(s, q)
    ensures Primitives.IsGeometric(s[..j], q)
    ensures 1 <= j < |s| ==> s[..j][|s[..j]| - 1] * q == s[j]
  {
    var u := s[..j];
    if 1 <= j < |s| {
      assert u[|u| - 1] == s[j - 1];
    }
    forall i | 0 <= i < |u| - 1 ensures u[i + 1] == u[i] * q {
      assert u[i] == s[i] && u[i + 1] == s[i + 1];
    }
  }

  /** A ratio strategy predicts the element that follows a geometric
      progression away from zero, when the guard lets its ratio through. */
  lemma GeometricStep(p: Primitives.Primitive, u: seq<real>, q: real, next: real)
    requires |u| >= 2 && u[0] != 0.0 && q != 0.0 && u[|u| - 1] * q == next
    requires !p.Subtraction? && Primitives.IsGeometric(u, q)
    requires Primitives.Guarded(p) ==> Primitives.Abs(q) >= Primitives.MinimumAllowedNumber
    ensures Predict(Simple(p), u) == Some(next)
  {
    Primitives.RatioExtendsGeometric(p, u, q);
  }

  /** A geometric progression away from zero is self-extended by a ratio
      strategy from its second element on, when the guard lets its ratio
      through. */
  lemma GeometricSelfExtended(p: Primitives.Primitive, s: seq<real>, q: real)
    requires !p.Subtraction? && |s| > 0 && Primitives.IsGeometric(s, q) && s[0] != 0.0 && q != 0.0
    requires Primitives.Guarded(p) ==> Primitives.Abs(q) >= Primitives.MinimumAllowedNumber
    ensures SelfExtended(PredictorFunction(Simple(p)), s, 1)
  {
    forall j | 2 <= j < |s| ensures Predict(Simple(p), s[..j]) == Some(s[j]) {
      GeometricPrefix(s, q, j);
      assert s[..j][0] == s[0];
      GeometricStep(p, s[..j], q, s[j]);
    }
  }

  /** A ratio strategy rebuilds a geometric progression away from zero from
      any prefix of two or more elements; a guarded strategy only when the
      common ratio passes the guard. */
  lemma RatioRebuildsGeometric(p: Primitives.Primitive, s: seq<real>, q: real, t: seq<real>, k: nat)
    requires !p.Subtraction? && Primitives.IsGeometric(s, q) && q != 0.0
    requires Primitives.Guarded(p) ==> Primitives.Abs(q) >= Primitives.MinimumAllowedNumber
    requires 1 <= k < |s| && s[0] != 0.0 && |t| == |s| && t[..k + 1] == s[..k + 1]
    requires SelfExtended(PredictorFunction(Simple(p)), t, k)
    ensures t == s
  {
    var f := PredictorFunction(Simple(p));
    GeometricSelfExtended(p, s, q);
    assert SelfExtended(f, s, k);
    SelfExtendedUnique(f, s, t, k);
  }
}
