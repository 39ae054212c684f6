/** What one call of `euf::solver::setup_bounds` computes and tells the theory
    solvers: literal counts over the unsatisfied clauses, the broadcast of every
    theory-carrying literal's node, and the step budget of the next round. */
module Bounds {
  import opened Sat
  import opened Classify

  /** The step budget never drops below this floor. */
  const StepFloor: u32 := 10000

  /** A request made to one theory solver. */
  datatype Request =
    | Attach                   // set_bool_search(&bool_search)
    | Begin                    // set_bounds_begin()
    | Bound(node: ENode)       // set_bounds(n)
    | End(numLiterals: nat)    // set_bounds_end(num_literals)
    | Search(round: nat)       // local_search(phase), in the given round

  /** The request `request` made to theory solver number `th`. */
  datatype TheoryCall = TheoryCall(th: nat, request: Request)

  /** One request sent to each of the first `n` theory solvers, in solver order. */
  function Each(n: nat, request: Request): (s: seq<TheoryCall>)
    ensures |s| == n
  {
    if n == 0 then [] else Each(n - 1, request) + [TheoryCall(n - 1, request)]
  }

  /** Solver `t` receives the `t`-th request, so each of the `n` solvers
      receives exactly one. */
  lemma {:induction false} EachAt(n: nat, request: Request, t: nat)
    requires t < n
    ensures Each(n, request)[t] == TheoryCall(t, request)
  {
    if t < n - 1 {
      EachAt(n - 1, request, t);
    }
  }

  /** The requests of `Each` are exactly one per solver below `n`. */
  lemma EachMembers(n: nat, request: Request, call: TheoryCall)
    ensures call in Each(n, request) <==> call.th < n && call.request == request
  {
    var s := Each(n, request);
    if call in s {
      var t :| 0 <= t < n && s[t] == call;
      EachAt(n, request, t);
    }
    if call.th < n && call.request == request {
      EachAt(n, request, call.th);
    }
  }

  /** The number of literal occurrences in `cs` (`num_literals`). */
  function TotalLiterals(cs: seq<Clause>): nat
  {
    if |cs| == 0 then 0 else TotalLiterals(cs[..|cs| - 1]) + |cs[|cs| - 1]|
  }

  /** The number of propositional literal occurrences in one clause. */
  function ClauseBool(euf: EufView, c: Clause): (k: nat)
    ensures k <= |c|
  {
    if |c| == 0 then 0
    else ClauseBool(euf, c[..|c| - 1]) + (if IsPropositional(euf, c[|c| - 1]) then 1 else 0)
  }

  /** The number of propositional literal occurrences in `cs` (`num_bool`);
      it never exceeds the number of all occurrences. */
  function CountBool(euf: EufView, cs: seq<Clause>): (k: nat)
    ensures k <= TotalLiterals(cs)
  {
    if |cs| == 0 then 0 else CountBool(euf, cs[..|cs| - 1]) + ClauseBool(euf, cs[|cs| - 1])
  }

  /** The `set_bounds` calls one literal causes: none for a propositional
      literal, its node to every theory solver otherwise. */
  function LiteralCalls(euf: EufView, l: Literal, numTheories: nat): seq<TheoryCall>
  {
    if IsPropositional(euf, l) then [] else Each(numTheories, Bound(TheoryNode(euf, l)))
  }

  /** The `set_bounds` calls of one clause, literal by literal. */
  function ClauseCalls(euf: EufView, c: Clause, numTheories: nat): seq<TheoryCall>
  {
    if |c| == 0 then []
    else ClauseCalls(euf, c[..|c| - 1], numTheories) + LiteralCalls(euf, c[|c| - 1], numTheories)
  }

  /** The `set_bounds` calls of all unsatisfied clauses, clause by clause. */
  function NotifyCalls(euf: EufView, cs: seq<Clause>, numTheories: nat): seq<TheoryCall>
  {
    if |cs| == 0 then []
    else NotifyCalls(euf, cs[..|cs| - 1], numTheories) + ClauseCalls(euf, cs[|cs| - 1], numTheories)
  }

  /** Everything one `setup_bounds` call asks of the theory solvers. */
  function BoundsCalls(euf: EufView, cs: seq<Clause>, numTheories: nat): seq<TheoryCall>
  {
    Each(numTheories, Begin) + NotifyCalls(euf, cs, numTheories) + Each(numTheories, End(TotalLiterals(cs)))
  }

  /** Appending two pieces to a log one after the other is appending their
      concatenation. */
  lemma AppendAssoc<T>(log: seq<T>, a: seq<T>, b: seq<T>)
    ensures log + (a + b) == log + a + b
  {
  }

  /** `L * n` in unsigned 32-bit arithmetic, as `n` wrapping additions of `L`. */
  function WrappedProduct(L: u32, n: nat): u32
  {
    if n == 0 then 0 else (WrappedProduct(L, n - 1) + L) % U32Modulus
  }

  /** Wrapping after every addition is wrapping the whole product once. */
  lemma {:induction false} WrappedProductIsProduct(L: u32, n: nat)
    ensures WrappedProduct(L, n) == (L * n) % U32Modulus
  {
    if n > 0 {
      WrappedProductIsProduct(L, n - 1);
      assert L * n == L * (n - 1) + L;
      WrapAdd(L * (n - 1), L);
    }
  }

  /** Adding after wrapping wraps to the same value as adding first. */
  lemma WrapAdd(x: nat, y: nat)
    ensures (x % U32Modulus + y) % U32Modulus == (x + y) % U32Modulus
  {
  }

  /** `max(10000u, L * num_bool)` with the product taken in unsigned arithmetic;
      never below the floor. */
  function StepBudget(L: u32, numBool: nat): (steps: u32)
    ensures steps >= StepFloor
  {
    var product := WrappedProduct(L, numBool);
    if product < StepFloor then StepFloor else product
  }

  /** The budget is exactly the floor when no literal is propositional, is
      otherwise `max(10000u, L * num_bool)` with the product wrapped to 32 bits,
      and is the plain `max(10000, L * num_bool)` whenever the product fits. */
  lemma StepBudgetValue(L: u32, numBool: nat)
    ensures numBool == 0 ==> StepBudget(L, numBool) == StepFloor
    ensures StepBudget(L, numBool)
            == if (L * numBool) % U32Modulus < StepFloor then StepFloor else (L * numBool) % U32Modulus
    ensures L * numBool < U32Modulus ==>
              StepBudget(L, numBool) == if L * numBool < StepFloor then StepFloor else L * numBool
  {
    WrappedProductIsProduct(L, numBool);
  }

  /** The budget depends on `num_bool` only modulo 2^32, so reading the counter
      as an unsigned value that wrapped gives the same budget. */
  lemma {:induction false} BudgetIgnoresCounterWrap(L: u32, numBool: nat)
    ensures StepBudget(L, numBool % U32Modulus) == StepBudget(L, numBool)
  {
    WrappedProductPeriodic(L, numBool % U32Modulus, numBool / U32Modulus);
    assert numBool == numBool % U32Modulus + U32Modulus * (numBool / U32Modulus);
  }

  /** Adding 2^32 to the count adds `L` full turns, which wrap away. */
  lemma {:induction false} WrappedProductPeriodic(L: u32, n: nat, turns: nat)
    ensures WrappedProduct(L, n + U32Modulus * turns) == WrappedProduct(L, n)
  {
    WrappedProductIsProduct(L, n);
    WrappedProductIsProduct(L, n + U32Modulus * turns);
    MulDistributes(L, n, U32Modulus * turns);
    assert L * (U32Modulus * turns) == U32Modulus * (L * turns);
    WrapMultiple(L * n, L * turns);
  }

  /** Whole multiples of 2^32 vanish when wrapping. */
  lemma WrapMultiple(x: nat, m: nat)
    ensures (x + U32Modulus * m) % U32Modulus == x % U32Modulus
  {
  }

  /** The number of theory-carrying literal occurrences in one clause. */
  function ClauseTheory(euf: EufView, c: Clause): (k: nat)
    ensures k == |c| - ClauseBool(euf, c)
  {
    if |c| == 0 then 0
    else ClauseTheory(euf, c[..|c| - 1]) + (if IsPropositional(euf, c[|c| - 1]) then 0 else 1)
  }

  lemma MulDistributes(n: nat, a: nat, b: nat)
    ensures n * (a + b) == n * a + n * b
  {
  }

  /** Each theory-carrying occurrence in a clause sends its node to every theory
      solver, so a clause causes `numTheories` calls per such occurrence. */
  lemma {:induction false} ClauseCallsCount(euf: EufView, c: Clause, numTheories: nat)
    ensures |ClauseCalls(euf, c, numTheories)| == numTheories * ClauseTheory(euf, c)
  {
    if |c| > 0 {
      var init, last := c[..|c| - 1], c[|c| - 1];
      ClauseCallsCount(euf, init, numTheories);
      var step := if IsPropositional(euf, last) then 0 else 1;
      assert |LiteralCalls(euf, last, numTheories)| == numTheories * step;
      MulDistributes(numTheories, ClauseTheory(euf, init), step);
    }
  }

  /** The number of theory-carrying literal occurrences in `cs`. */
  function CountTheory(euf: EufView, cs: seq<Clause>): (k: nat)
    ensures k == TotalLiterals(cs) - CountBool(euf, cs)
  {
    if |cs| == 0 then 0 else CountTheory(euf, cs[..|cs| - 1]) + ClauseTheory(euf, cs[|cs| - 1])
  }

  /** The broadcast makes `numTheories` calls for every theory-carrying
      occurrence and none for a propositional one. */
  lemma {:induction false} NotifyCallsCount(euf: EufView, cs: seq<Clause>, numTheories: nat)
    ensures |NotifyCalls(euf, cs, numTheories)| == numTheories * CountTheory(euf, cs)
  {
    if |cs| > 0 {
      var init, last := cs[..|cs| - 1], cs[|cs| - 1];
      NotifyCallsCount(euf, init, numTheories);
      ClauseCallsCount(euf, last, numTheories);
      MulDistributes(numTheories, CountTheory(euf, init), ClauseTheory(euf, last));
    }
  }

  /** When every literal of every unsatisfied clause is propositional, no theory
      solver receives a node. */
  lemma {:induction false} AllPropositionalNoBroadcast(euf: EufView, cs: seq<Clause>, numTheories: nat)
    requires forall i, j :: 0 <= i < |cs| && 0 <= j < |cs[i]| ==> IsPropositional(euf, cs[i][j])
    ensures NotifyCalls(euf, cs, numTheories) == []
    ensures CountBool(euf, cs) == TotalLiterals(cs)
  {
    AllPropositionalCount(euf, cs);
    assert CountTheory(euf, cs) == 0;
    NotifyCallsCount(euf, cs, numTheories);
    MulDistributes(numTheories, 0, 0);
  }

  lemma {:induction false} ClauseAllPropositional(euf: EufView, c: Clause)
    requires forall j :: 0 <= j < |c| ==> IsPropositional(euf, c[j])
    ensures ClauseBool(euf, c) == |c|
  {
    if |c| > 0 {
      var init := c[..|c| - 1];
      assert forall j :: 0 <= j < |init| ==> init[j] == c[j];
      ClauseAllPropositional(euf, init);
    }
  }

  lemma {:induction false} AllPropositionalCount(euf: EufView, cs: seq<Clause>)
    requires forall i, j :: 0 <= i < |cs| && 0 <= j < |cs[i]| ==> IsPropositional(euf, cs[i][j])
    ensures CountBool(euf, cs) == TotalLiterals(cs)
  {
    if |cs| > 0 {
      var init, last := cs[..|cs| - 1], cs[|cs| - 1];
      assert forall i, j :: 0 <= i < |init| && 0 <= j < |init[i]| ==> init[i][j] == cs[i][j];
      AllPropositionalCount(euf, init);
      ClauseAllPropositional(euf, last);
    }
  }

  /** Completeness of the broadcast: for every theory-carrying occurrence, every
      theory solver receives that occurrence's node. */
  lemma {:induction false} NotifyCallsComplete(euf: EufView, cs: seq<Clause>, numTheories: nat, i: nat, j: nat, t: nat)
    requires i < |cs| && j < |cs[i]| && t < numTheories
    requires !IsPropositional(euf, cs[i][j])
    ensures TheoryCall(t, Bound(TheoryNode(euf, cs[i][j]))) in NotifyCalls(euf, cs, numTheories)
  {
    var init, last := cs[..|cs| - 1], cs[|cs| - 1];
    if i < |cs| - 1 {
      assert init[i] == cs[i];
      NotifyCallsComplete(euf, init, numTheories, i, j, t);
    } else {
      ClauseCallsComplete(euf, last, numTheories, j, t);
    }
  }

  lemma {:induction false} ClauseCallsComplete(euf: EufView, c: Clause, numTheories: nat, j: nat, t: nat)
    requires j < |c| && t < numTheories
    requires !IsPropositional(euf, c[j])
    ensures TheoryCall(t, Bound(TheoryNode(euf, c[j]))) in ClauseCalls(euf, c, numTheories)
  {
    var init := c[..|c| - 1];
    if j < |c| - 1 {
      assert init[j] == c[j];
      ClauseCallsComplete(euf, init, numTheories, j, t);
    } else {
      EachMembers(numTheories, Bound(TheoryNode(euf, c[j])), TheoryCall(t, Bound(TheoryNode(euf, c[j]))));
    }
  }

  /** Soundness of the broadcast: every call it makes is a `set_bounds` to an
      existing theory solver with the node of some theory-carrying occurrence. */
  lemma {:induction false} NotifyCallsSound(euf: EufView, cs: seq<Clause>, numTheories: nat, call: TheoryCall)
    requires call in NotifyCalls(euf, cs, numTheories)
    ensures call.th < numTheories && call.request.Bound?
    ensures exists i, j :: 0 <= i < |cs| && 0 <= j < |cs[i]| && !IsPropositional(euf, cs[i][j])
                           && call.request.node == TheoryNode(euf, cs[i][j])
  {
    var init, last := cs[..|cs| - 1], cs[|cs| - 1];
    if call in NotifyCalls(euf, init, numTheories) {
      NotifyCallsSound(euf, init, numTheories, call);
      var i, j :| 0 <= i < |init| && 0 <= j < |init[i]| && !IsPropositional(euf, init[i][j])
                  && call.request.node == TheoryNode(euf, init[i][j]);
      assert init[i] == cs[i];
    } else {
      var j := ClauseCallsSound(euf, last, numTheories, call);
      assert cs[|cs| - 1] == last;
    }
  }

  lemma {:induction false} ClauseCallsSound(euf: EufView, c: Clause, numTheories: nat, call: TheoryCall) returns (j: nat)
    requires call in ClauseCalls(euf, c, numTheories)
    ensures call.th < numTheories && call.request.Bound?
    ensures j < |c| && !IsPropositional(euf, c[j]) && call.request.node == TheoryNode(euf, c[j])
  {
    var init := c[..|c| - 1];
    if call in ClauseCalls(euf, init, numTheories) {
      j := ClauseCallsSound(euf, init, numTheories, call);
      assert init[j] == c[j];
    } else {
      j := |c| - 1;
      EachMembers(numTheories, Bound(TheoryNode(euf, c[j])), call);
    }
  }

  /** Every `set_bounds` call of a round comes after all `set_bounds_begin`
      calls and before all `set_bounds_end(num_literals)` calls. */
  lemma BoundsCallsBracketed(euf: EufView, cs: seq<Clause>, numTheories: nat)
    ensures var s := BoundsCalls(euf, cs, numTheories);
      |s| >= 2 * numTheories &&
      (forall t :: 0 <= t < numTheories ==>
         s[t] == TheoryCall(t, Begin) &&
         s[|s| - numTheories + t] == TheoryCall(t, End(TotalLiterals(cs)))) &&
      (forall k :: numTheories <= k < |s| - numTheories ==> s[k].request.Bound? && s[k].th < numTheories)
  {
    var s := BoundsCalls(euf, cs, numTheories);
    var begins, notify, ends := Each(numTheories, Begin), NotifyCalls(euf, cs, numTheories), Each(numTheories, End(TotalLiterals(cs)));
    assert s == begins + notify + ends;
    forall t | 0 <= t < numTheories
      ensures s[t] == TheoryCall(t, Begin) && s[|s| - numTheories + t] == TheoryCall(t, End(TotalLiterals(cs)))
    {
      EachAt(numTheories, Begin, t);
      EachAt(numTheories, End(TotalLiterals(cs)), t);
    }
    forall k | numTheories <= k < |s| - numTheories
      ensures s[k].request.Bound? && s[k].th < numTheories
    {
      assert s[k] == notify[k - numTheories];
      NotifyCallsSound(euf, cs, numTheories, notify[k - numTheories]);
    }
  }
}
