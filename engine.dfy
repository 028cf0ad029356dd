/**
  The generic extrapolation engine (abstract_prediction_methods.py).

  A strategy hands the engine three callbacks: a base-case test that either
  stops the descent with a value or answers None, a reduction that turns a
  level into a "simpler" one, and an inference that turns a prediction for the
  reduced level into a prediction for the level above.  The engine descends by
  reducing until the base case fires, then climbs back up by inferring.
*/
module Engine {

  datatype Option<T> = None | Some(value: T)

  /** The callbacks of one strategy.  Besides the three operations the engine
      calls, a strategy names two things the engine relies on:
      - size: the measure each reduction shrinks; a level of size 0 is the
        empty input, on which the engine gives no prediction;
      - carries: the shape of prediction that infer accepts (every value for
        the flat strategies; a slope/bias pair for the composite one). */
  datatype Callbacks<!L, !V> = Callbacks(
    baseCase: L --> Option<V>,
    reduce: L --> L,
    infer: (L, V) --> V,
    size: L -> nat,
    carries: V -> bool)

  /** The engine goes on past level l: l is not empty and its base case does not fire. */
  ghost predicate Continues<L(!new), V(!new)>(cb: Callbacks<L, V>, l: L)
  {
    cb.size(l) > 0 && cb.baseCase.requires(l) && cb.baseCase(l).None?
  }

  /** The engine stops at level l: l is not empty and its base case fires. */
  ghost predicate Stops<L(!new), V(!new)>(cb: Callbacks<L, V>, l: L)
  {
    cb.size(l) > 0 && cb.baseCase.requires(l) && cb.baseCase(l).Some?
  }

  /** What the engine needs of a strategy: the base case can be asked of every
      non-empty level and yields a prediction infer accepts; a level the engine
      goes on past can be reduced, to a smaller non-empty level; infer accepts
      every non-empty level; and inferring on a reduced level yields again a
      prediction that infer accepts. */
  ghost predicate Sound<L(!new), V(!new)>(cb: Callbacks<L, V>)
  {
    && (forall l :: cb.size(l) > 0 ==> cb.baseCase.requires(l))
    && (forall l :: Stops(cb, l) ==> cb.carries(cb.baseCase(l).value))
    && (forall l :: Continues(cb, l) ==> cb.reduce.requires(l) && 0 < cb.size(cb.reduce(l)) < cb.size(l))
    && (forall l, v :: cb.size(l) > 0 && cb.carries(v) ==> cb.infer.requires(l, v))
    && (forall l, v {:trigger cb.infer(cb.reduce(l), v)} ::
          Continues(cb, l) && cb.carries(v) ==> cb.carries(cb.infer(cb.reduce(l), v)))
  }

  /** The recursive engine: None on the empty input; otherwise infer on this
      level from the base value, or from the prediction for the reduced level. */
  function PredictNextElementRecursive<L(!new), V(!new)>(cb: Callbacks<L, V>, lis: L): (r: Option<V>)
    requires Sound(cb)
    ensures r.None? <==> cb.size(lis) == 0
    ensures r.Some? ==> forall p :: Continues(cb, p) && cb.reduce(p) == lis ==> cb.carries(r.value)
    decreases cb.size(lis)
  {
    if cb.size(lis) == 0 then None
    else
      var baseCaseResult := cb.baseCase(lis);
      if baseCaseResult.Some? then Some(cb.infer(lis, baseCaseResult.value))
      else
        var nextElementInReducedList := PredictNextElementRecursive(cb, cb.reduce(lis));
        Some(cb.infer(lis, nextElementInReducedList.value))
  }

  /** gens is a generation stack: every level but the last is one the engine
      goes on past, and its successor is its reduction; the engine stops at the
      last level. */
  ghost predicate IsDescent<L(!new), V(!new)>(cb: Callbacks<L, V>, gens: seq<L>)
  {
    && |gens| > 0
    && (forall i :: 0 <= i < |gens| - 1 ==>
          Continues(cb, gens[i]) && cb.reduce.requires(gens[i]) && cb.reduce(gens[i]) == gens[i + 1])
    && Stops(cb, gens[|gens| - 1])
  }

  lemma DescentSuffix<L(!new), V(!new)>(cb: Callbacks<L, V>, gens: seq<L>, k: nat)
    requires IsDescent(cb, gens) && k < |gens|
    ensures IsDescent(cb, gens[k..])
  {
    forall i | 0 <= i < |gens[k..]| - 1
      ensures Continues(cb, gens[k..][i]) && cb.reduce.requires(gens[k..][i])
      ensures cb.reduce(gens[k..][i]) == gens[k..][i + 1]
    {
      assert gens[k..][i] == gens[k + i] && gens[k..][i + 1] == gens[k + i + 1];
    }
  }

  /** The generations the engine builds from a non-empty input: the input,
      then reductions of it, up to the first level whose base case fires. */
  ghost function Generations<L(!new), V(!new)>(cb: Callbacks<L, V>, lis: L): (gens: seq<L>)
    requires Sound(cb) && cb.size(lis) > 0
    ensures IsDescent(cb, gens) && gens[0] == lis
    decreases cb.size(lis)
  {
    if cb.baseCase(lis).Some? then [lis]
    else
      var rest := Generations(cb, cb.reduce(lis));
      assert forall i :: 0 < i < |[lis] + rest| ==> ([lis] + rest)[i] == rest[i - 1];
      [lis] + rest
  }

  /** The value the base case yields on the last generation. */
  ghost function BaseValue<L(!new), V(!new)>(cb: Callbacks<L, V>, gens: seq<L>): V
    requires IsDescent(cb, gens)
  {
    cb.baseCase(gens[|gens| - 1]).value
  }

  /** The ascent: infer(g0, infer(g1, ... infer(gk, b))). */
  ghost function Unwind<L(!new), V(!new)>(cb: Callbacks<L, V>, gens: seq<L>, b: V): (r: V)
    requires Sound(cb) && IsDescent(cb, gens) && cb.carries(b)
    ensures forall p :: Continues(cb, p) && cb.reduce(p) == gens[0] ==> cb.carries(r)
    decreases |gens|
  {
    if |gens| == 1 then cb.infer(gens[0], b)
    else
      DescentSuffix(cb, gens, 1);
      cb.infer(gens[0], Unwind(cb, gens[1..], b))
  }

  /** The recursive engine computes exactly the ascent over the generations of
      its input, seeded with the base value of the last generation. */
  lemma {:induction false} RecursiveIsUnwind<L(!new), V(!new)>(cb: Callbacks<L, V>, lis: L)
    requires Sound(cb) && cb.size(lis) > 0
    ensures var gens := Generations(cb, lis);
            PredictNextElementRecursive(cb, lis) == Some(Unwind(cb, gens, BaseValue(cb, gens)))
    decreases cb.size(lis)
  {
    var gens := Generations(cb, lis);
    if cb.baseCase(lis).None? {
      RecursiveIsUnwind(cb, cb.reduce(lis));
      assert gens[1..] == Generations(cb, cb.reduce(lis));
    }
  }

  /** If the base case fires on the input itself, nothing is reduced and the
      result is the inference from the base value on the input. */
  lemma ImmediateBaseCase<L(!new), V(!new)>(cb: Callbacks<L, V>, lis: L)
    requires Sound(cb) && Stops(cb, lis)
    ensures Generations(cb, lis) == [lis]
    ensures PredictNextElementRecursive(cb, lis) == Some(cb.infer(lis, cb.baseCase(lis).value))
  {
  }

  /** One step of the descent over the generation stack gens: the n-th level
      can be asked for its base case, which fires exactly on the last level;
      before that, the next level is its reduction and is smaller. */
  lemma DescentStep<L(!new), V(!new)>(cb: Callbacks<L, V>, gens: seq<L>, n: nat)
    requires Sound(cb) && IsDescent(cb, gens) && 0 < n <= |gens|
    ensures cb.size(gens[n - 1]) > 0 && cb.baseCase.requires(gens[n - 1])
    ensures cb.baseCase(gens[n - 1]).Some? <==> n == |gens|
    ensures n < |gens| ==> cb.reduce.requires(gens[n - 1]) && cb.reduce(gens[n - 1]) == gens[n]
    ensures n < |gens| ==> cb.size(gens[n]) < cb.size(gens[n - 1])
  {
  }

  /** One step of the ascent: the ascent from level i is infer on level i of
      the ascent from level i + 1 (of the base value, on the last level). */
  lemma AscentStep<L(!new), V(!new)>(cb: Callbacks<L, V>, gens: seq<L>, i: nat, b: V)
    requires Sound(cb) && IsDescent(cb, gens) && cb.carries(b) && i < |gens|
    ensures IsDescent(cb, gens[i..])
    ensures i == |gens| - 1 ==> cb.infer.requires(gens[i], b) && Unwind(cb, gens[i..], b) == cb.infer(gens[i], b)
    ensures i < |gens| - 1 ==>
              IsDescent(cb, gens[i + 1..]) &&
              var above := Unwind(cb, gens[i + 1..], b);
              cb.carries(above) && cb.infer.requires(gens[i], above) &&
              Unwind(cb, gens[i..], b) == cb.infer(gens[i], above)
  {
    DescentSuffix(cb, gens, i);
    if i < |gens| - 1 {
      DescentSuffix(cb, gens, i + 1);
      assert gens[i..][1..] == gens[i + 1..];
      assert Continues(cb, gens[i]) && cb.reduce(gens[i]) == gens[i + 1..][0];
    }
  }

  /** The first phase of the iterative engine: starting from the input, keep
      reducing the newest generation until its base case fires.  The ghost
      output records the levels reduce was called on, in call order. */
  method Descend<L(!new), V(!new)>(cb: Callbacks<L, V>, lis: L)
    returns (gens: seq<L>, baseCaseResult: V, ghost reduced: seq<L>)
    requires Sound(cb) && cb.size(lis) > 0
    ensures gens == Generations(cb, lis) && baseCaseResult == BaseValue(cb, gens)
    ensures reduced == gens[..|gens| - 1]
  {
    ghost var all := Generations(cb, lis);
    gens, reduced := [lis], [];
    while true
      invariant 0 < |gens| <= |all| && gens == all[..|gens|]
      invariant reduced == gens[..|gens| - 1]
      decreases cb.size(gens[|gens| - 1])
    {
      DescentStep(cb, all, |gens|);
      var current := gens[|gens| - 1];
      var found := cb.baseCase(current);
      if found.Some? {
        baseCaseResult := found.value;
        break;
      }
      reduced := reduced + [current];
      gens := gens + [cb.reduce(current)];
    }
    assert gens == all;
  }

  /** The second phase of the iterative engine: walk the generation stack
      backwards from the base value, threading the running prediction through
      infer.  The ghost output records the levels infer was called on, in
      call order. */
  method Ascend<L(!new), V(!new)>(cb: Callbacks<L, V>, gens: seq<L>, baseCaseResult: V)
    returns (predicted: V, ghost inferred: seq<L>)
    requires Sound(cb) && IsDescent(cb, gens) && cb.carries(baseCaseResult)
    ensures predicted == Unwind(cb, gens, baseCaseResult)
    ensures |inferred| == |gens| && forall k :: 0 <= k < |gens| ==> inferred[k] == gens[|gens| - 1 - k]
  {
    // the last generation holds only the base value: the running prediction starts there
    predicted, inferred := baseCaseResult, [];
    var i := |gens|;
    while i > 0
      invariant 0 <= i <= |gens|
      invariant i == |gens| ==> predicted == baseCaseResult
      invariant i < |gens| ==> predicted == Unwind(cb, gens[i..], baseCaseResult)
      invariant |inferred| == |gens| - i
      invariant forall k :: 0 <= k < |inferred| ==> inferred[k] == gens[|gens| - 1 - k]
    {
      i := i - 1;
      AscentStep(cb, gens, i, baseCaseResult);
      inferred := inferred + [gens[i]];
      predicted := cb.infer(gens[i], predicted);
    }
  }

  /** The iterative engine: build the generation stack, then walk it backwards
      threading the running prediction through infer.  The ghost outputs record
      the levels reduce and infer were called on, in call order. */
  method PredictNextElement<L(!new), V(!new)>(cb: Callbacks<L, V>, lis: L)
    returns (r: Option<V>, ghost reduced: seq<L>, ghost inferred: seq<L>)
    requires Sound(cb)
    ensures r == PredictNextElementRecursive(cb, lis)
    ensures cb.size(lis) == 0 ==> r == None && reduced == [] && inferred == []
    ensures cb.size(lis) > 0 ==>
              var gens := Generations(cb, lis);
              && r == Some(Unwind(cb, gens, BaseValue(cb, gens)))
              && reduced == gens[..|gens| - 1]
              && |inferred| == |gens|
              && (forall k :: 0 <= k < |gens| ==> inferred[k] == gens[|gens| - 1 - k])
  {
    if cb.size(lis) == 0 {
      return None, [], [];
    }
    var gens, baseCaseResult;
    gens, baseCaseResult, reduced := Descend(cb, lis);
    DescentStep(cb, gens, |gens|);
    var predicted;
    predicted, inferred := Ascend(cb, gens, baseCaseResult);
    RecursiveIsUnwind(cb, lis);
    r := Some(predicted);
  }
}
