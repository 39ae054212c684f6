/** The round structure of `euf::solver::local_search`, stated over the
    external collaborators of one call: how many rounds run, what the phase
    holds after each round and at the end, which step limits are pushed and
    popped, and what the theory solvers are asked. */
module Rounds {
  import opened Sat
  import opened Classify
  import opened Bounds

  /** The hard bound on the number of rounds (`max_rounds`). */
  const MaxRounds: nat := 30

  /** A theory solver's `local_search(phase)`: solver `t` in round `k` rewrites the
      phase, entry by entry, without changing its length. */
  type TheorySearch = f: (nat, nat, seq<bool>) -> seq<bool> | forall t: nat, k: nat, p: seq<bool> :: |f(t, k, p)| == |p|
    witness (t: nat, k: nat, p: seq<bool>) => p

  /** What one call observes of the world outside this file, round by round
      for rounds `0` to `MaxRounds`:
      - `inc[k]`: the answer of `m.inc()` at the loop test before round `k`;
      - `unsat[k]`: the clauses of the engine's unsatisfied set after `k` rounds
        (`unsat[0]` right after `reinit`), each read through `get_clause_info`;
      - `model[k]`: the engine's `get_model()` after `k` rounds;
      - `theory`: the theory solvers' refinement step. */
  datatype Observations = Observations(
    inc: seq<bool>,
    unsat: seq<seq<Clause>>,
    model: seq<seq<LBool>>,
    theory: TheorySearch)

  /** Observations that cover every round the loop can reach. */
  type Environment = env: Observations | |env.inc| == |env.unsat| == |env.model| == MaxRounds + 1
    witness Observations(seq(MaxRounds + 1, _ => false), seq(MaxRounds + 1, _ => []), seq(MaxRounds + 1, _ => []),
                         (t: nat, k: nat, p: seq<bool>) => p)

  /** The number of rounds run by the loop once it has reached round `k`:
      it stops before a round when `m.inc()` fails or the bound is reached, and
      after a round whose unsatisfied set is empty. */
  function RoundsFrom(env: Environment, k: nat): (r: nat)
    requires k <= MaxRounds
    ensures k <= r <= MaxRounds
    decreases MaxRounds - k
  {
    if !env.inc[k] || k == MaxRounds then k
    else if |env.unsat[k + 1]| == 0 then k + 1
    else RoundsFrom(env, k + 1)
  }

  /** The number of rounds one `local_search` call runs. */
  function RoundsRun(env: Environment): nat
  {
    RoundsFrom(env, 0)
  }

  lemma {:induction false} RoundsFromIsFirstExit(env: Environment, k: nat)
    requires k <= MaxRounds
    ensures var r := RoundsFrom(env, k);
      (forall j :: k <= j < r ==> env.inc[j]) &&
      (forall j :: k < j < r ==> |env.unsat[j]| > 0) &&
      (r == MaxRounds || !env.inc[r] || (k < r && |env.unsat[r]| == 0))
    decreases MaxRounds - k
  {
    if env.inc[k] && k < MaxRounds && |env.unsat[k + 1]| != 0 {
      RoundsFromIsFirstExit(env, k + 1);
    }
  }

  /** The loop stops exactly at the first exit point: every round that ran was
      entered with `m.inc()` true, no round before the last ended with an empty
      unsatisfied set, and the loop ended because the bound was reached,
      `m.inc()` failed, or the last round emptied the unsatisfied set. */
  lemma RoundsRunIsFirstExit(env: Environment)
    ensures RoundsRun(env) <= MaxRounds
    ensures forall j :: 0 <= j < RoundsRun(env) ==> env.inc[j]
    ensures forall j :: 0 < j < RoundsRun(env) ==> |env.unsat[j]| > 0
    ensures RoundsRun(env) == MaxRounds || !env.inc[RoundsRun(env)]
            || (0 < RoundsRun(env) && |env.unsat[RoundsRun(env)]| == 0)
  {
    RoundsFromIsFirstExit(env, 0);
  }

  /** The phase after the first `n` theory solvers have refined `p` in round `k`. */
  function TheoriesUpTo(env: Environment, k: nat, n: nat, p: seq<bool>): (q: seq<bool>)
    ensures |q| == |p|
  {
    if n == 0 then p else env.theory(n - 1, k, TheoriesUpTo(env, k, n - 1, p))
  }

  /** The phase after `k` rounds, starting from `p0`: only the theory solvers
      write it while the rounds run. */
  function PhaseAfter(env: Environment, numTheories: nat, p0: seq<bool>, k: nat): (p: seq<bool>)
    ensures |p| == |p0|
  {
    if k == 0 then p0 else TheoriesUpTo(env, k - 1, numTheories, PhaseAfter(env, numTheories, p0, k - 1))
  }

  /** The copy-back loop after the rounds: entry `i` becomes `mdl[i] == l_true`
      for every `i < |mdl|`, one index at a time. */
  function Overwrite(p: seq<bool>, mdl: seq<LBool>): (q: seq<bool>)
    requires |mdl| <= |p|
    ensures |q| == |p|
    ensures forall i :: 0 <= i < |mdl| ==> q[i] == (mdl[i] == LTrue)
    ensures forall i :: |mdl| <= i < |p| ==> q[i] == p[i]
  {
    if |mdl| == 0 then p
    else Overwrite(p, mdl[..|mdl| - 1])[|mdl| - 1 := mdl[|mdl| - 1] == LTrue]
  }

  /** The phase a call leaves behind. */
  function FinalPhase(env: Environment, numTheories: nat, p0: seq<bool>): (p: seq<bool>)
    requires forall k :: 0 <= k <= MaxRounds ==> |env.model[k]| <= |p0|
  {
    var n := RoundsRun(env);
    Overwrite(PhaseAfter(env, numTheories, p0, n), env.model[n])
  }

  /** The answer of a call: `l_true` exactly when the engine's unsatisfied set is
      empty after the last round, `l_undef` otherwise, and never `l_false`. */
  function Outcome(env: Environment): (r: LBool)
    ensures r != LFalse
    ensures r == LTrue <==> |env.unsat[RoundsRun(env)]| == 0
  {
    if |env.unsat[RoundsRun(env)]| == 0 then LTrue else LUndef
  }

  /** The budget computed by `setup_bounds` in round `k`. */
  function RoundBudget(euf: EufView, L: u32, env: Environment, k: nat): u32
    requires k <= MaxRounds
  {
    StepBudget(L, CountBool(euf, env.unsat[k]))
  }

  /** What the engine is asked during the rounds. */
  datatype EngineCall =
    | PushLimit(steps: u32)                   // bool_search.rlimit().push(steps)
    | Check(assumptions: seq<Literal>)        // bool_search.check(assumptions)
    | PopLimit                                // bool_search.rlimit().pop()

  /** The engine requests of the first `k` rounds. */
  function EngineLog(euf: EufView, L: u32, env: Environment, k: nat): (log: seq<EngineCall>)
    requires k <= MaxRounds
    ensures |log| == 3 * k
  {
    if k == 0 then []
    else EngineLog(euf, L, env, k - 1) + [PushLimit(RoundBudget(euf, L, env, k - 1)), Check([]), PopLimit]
  }

  /** How one request changes the number of pushed limits. */
  function DepthChange(c: EngineCall): int
  {
    match c
    case PushLimit(_) => 1
    case Check(_) => 0
    case PopLimit => -1
  }

  /** The number of step limits pushed and not yet popped after `log`. */
  function LimitDepth(log: seq<EngineCall>): int
  {
    if |log| == 0 then 0 else LimitDepth(log[..|log| - 1]) + DepthChange(log[|log| - 1])
  }

  lemma LimitDepthSnoc(log: seq<EngineCall>, c: EngineCall)
    ensures LimitDepth(log + [c]) == LimitDepth(log) + DepthChange(c)
  {
    assert (log + [c])[..|log|] == log;
  }

  /** Round `j` pushes its own budget, checks with no assumptions, and pops. */
  lemma {:induction false} EngineLogShape(euf: EufView, L: u32, env: Environment, k: nat, j: nat)
    requires j < k <= MaxRounds
    ensures var log := EngineLog(euf, L, env, k);
      |log| == 3 * k &&
      log[3 * j] == PushLimit(RoundBudget(euf, L, env, j)) &&
      log[3 * j + 1] == Check([]) &&
      log[3 * j + 2] == PopLimit &&
      log[..3 * j] == EngineLog(euf, L, env, j)
  {
    if j < k - 1 {
      EngineLogShape(euf, L, env, k - 1, j);
      var prev := EngineLog(euf, L, env, k - 1);
      assert EngineLog(euf, L, env, k)[..3 * j] == prev[..3 * j];
    } else {
      assert EngineLog(euf, L, env, k)[..3 * j] == EngineLog(euf, L, env, j);
    }
  }

  /** Pushes and pops balance over every round, and the check of round `j` runs
      under exactly one pushed limit, the one of that round. */
  lemma {:induction false} LimitsBalanced(euf: EufView, L: u32, env: Environment, k: nat, j: nat)
    requires j < k <= MaxRounds
    ensures LimitDepth(EngineLog(euf, L, env, k)) == 0
    ensures LimitDepth(EngineLog(euf, L, env, k)[..3 * j + 2]) == 1
  {
    EngineLogBalanced(euf, L, env, k);
    EngineLogShape(euf, L, env, k, j);
    EngineLogBalanced(euf, L, env, j);
    var log := EngineLog(euf, L, env, k);
    var push := PushLimit(RoundBudget(euf, L, env, j));
    assert log[..3 * j + 2] == EngineLog(euf, L, env, j) + [push] + [Check([])];
    LimitDepthSnoc(EngineLog(euf, L, env, j), push);
    LimitDepthSnoc(EngineLog(euf, L, env, j) + [push], Check([]));
  }

  lemma {:induction false} EngineLogBalanced(euf: EufView, L: u32, env: Environment, k: nat)
    requires k <= MaxRounds
    ensures LimitDepth(EngineLog(euf, L, env, k)) == 0
  {
    if k > 0 {
      EngineLogBalanced(euf, L, env, k - 1);
      var prev := EngineLog(euf, L, env, k - 1);
      var push := PushLimit(RoundBudget(euf, L, env, k - 1));
      LimitDepthSnoc(prev, push);
      LimitDepthSnoc(prev + [push], Check([]));
      LimitDepthSnoc(prev + [push] + [Check([])], PopLimit);
      assert EngineLog(euf, L, env, k) == prev + [push] + [Check([])] + [PopLimit];
    }
  }

  /** One request of a call, to a theory solver or to the engine, in the order
      the call makes them. */
  datatype Event = Theory(call: TheoryCall) | Engine(request: EngineCall)

  /** Theory-solver requests as events, in the same order. */
  function Theories(s: seq<TheoryCall>): (e: seq<Event>)
    ensures |e| == |s|
  {
    if |s| == 0 then [] else Theories(s[..|s| - 1]) + [Theory(s[|s| - 1])]
  }

  lemma TheoriesSnoc(s: seq<TheoryCall>, c: TheoryCall)
    ensures Theories(s + [c]) == Theories(s) + [Theory(c)]
  {
    assert (s + [c])[..|s|] == s;
  }

  lemma {:induction false} TheoriesAppend(a: seq<TheoryCall>, b: seq<TheoryCall>)
    ensures Theories(a + b) == Theories(a) + Theories(b)
    decreases |b|
  {
    if |b| == 0 {
      assert a + b == a;
    } else {
      var init := b[..|b| - 1];
      assert a + b == (a + init) + [b[|b| - 1]];
      TheoriesSnoc(a + init, b[|b| - 1]);
      TheoriesAppend(a, init);
      assert b == init + [b[|b| - 1]];
      TheoriesSnoc(init, b[|b| - 1]);
    }
  }

  /** Extending the clause prefix by one literal extends the events by that
      literal's requests; the step of the `count_literal` loop. */
  lemma ClauseEventsStep(euf: EufView, c: Clause, j: nat, numTheories: nat)
    requires j < |c|
    ensures ClauseBool(euf, c[..j + 1]) == ClauseBool(euf, c[..j]) + (if IsPropositional(euf, c[j]) then 1 else 0)
    ensures Theories(ClauseCalls(euf, c[..j + 1], numTheories))
            == Theories(ClauseCalls(euf, c[..j], numTheories)) + Theories(LiteralCalls(euf, c[j], numTheories))
  {
    assert c[..j + 1][..j] == c[..j];
    TheoriesAppend(ClauseCalls(euf, c[..j], numTheories), LiteralCalls(euf, c[j], numTheories));
  }

  /** Extending the clause prefix of the unsatisfied set by one clause; the step
      of the clause loop. */
  lemma UnsatEventsStep(euf: EufView, cs: seq<Clause>, i: nat, numTheories: nat)
    requires i < |cs|
    ensures TotalLiterals(cs[..i + 1]) == TotalLiterals(cs[..i]) + |cs[i]|
    ensures CountBool(euf, cs[..i + 1]) == CountBool(euf, cs[..i]) + ClauseBool(euf, cs[i])
    ensures Theories(NotifyCalls(euf, cs[..i + 1], numTheories))
            == Theories(NotifyCalls(euf, cs[..i], numTheories)) + Theories(ClauseCalls(euf, cs[i], numTheories))
  {
    assert cs[..i + 1][..i] == cs[..i];
    TheoriesAppend(NotifyCalls(euf, cs[..i], numTheories), ClauseCalls(euf, cs[i], numTheories));
  }

  /** The engine requests of one round: push the round's budget, check with no
      assumptions, pop. */
  function EngineRound(euf: EufView, L: u32, env: Environment, k: nat): seq<Event>
    requires k <= MaxRounds
  {
    [Engine(PushLimit(RoundBudget(euf, L, env, k))), Engine(Check([])), Engine(PopLimit)]
  }

  /** Everything round `k` asks, in order: the `setup_bounds` requests, the
      engine's push, check and pop, then one `local_search` per theory solver. */
  function RoundEvents(euf: EufView, L: u32, env: Environment, numTheories: nat, k: nat): seq<Event>
    requires k <= MaxRounds
  {
    Theories(BoundsCalls(euf, env.unsat[k], numTheories)) + EngineRound(euf, L, env, k)
    + Theories(Each(numTheories, Search(k)))
  }

  /** The requests of the first `k` rounds, round after round. */
  function Trace(euf: EufView, L: u32, env: Environment, numTheories: nat, k: nat): seq<Event>
    requires k <= MaxRounds
  {
    if k == 0 then [] else Trace(euf, L, env, numTheories, k - 1) + RoundEvents(euf, L, env, numTheories, k - 1)
  }

  /** Within round `k`, every `setup_bounds` request comes before the push, the
      check runs between push and pop, and every theory solver's `local_search`
      comes after the pop, in solver order. */
  lemma RoundEventsOrder(euf: EufView, L: u32, env: Environment, numTheories: nat, k: nat)
    requires k <= MaxRounds
    ensures var e, n := RoundEvents(euf, L, env, numTheories, k), |BoundsCalls(euf, env.unsat[k], numTheories)|;
      |e| == n + 3 + numTheories &&
      (forall i :: 0 <= i < n ==> e[i].Theory? && !e[i].call.request.Search?) &&
      e[n] == Engine(PushLimit(RoundBudget(euf, L, env, k))) &&
      e[n + 1] == Engine(Check([])) &&
      e[n + 2] == Engine(PopLimit) &&
      (forall t :: 0 <= t < numTheories ==> e[n + 3 + t] == Theory(TheoryCall(t, Search(k))))
  {
    var bounds := BoundsCalls(euf, env.unsat[k], numTheories);
    var e, n := RoundEvents(euf, L, env, numTheories, k), |bounds|;
    var searches := Each(numTheories, Search(k));
    assert e == Theories(bounds) + EngineRound(euf, L, env, k) + Theories(searches);
    BoundsCallsBracketed(euf, env.unsat[k], numTheories);
    forall i | 0 <= i < n
      ensures e[i].Theory? && !e[i].call.request.Search?
    {
      assert e[i] == Theories(bounds)[i];
      TheoriesAt(bounds, i);
      if i >= n - numTheories {
        var t := i - (n - numTheories);
        assert bounds[n - numTheories + t] == TheoryCall(t, End(TotalLiterals(env.unsat[k])));
      }
    }
    forall t | 0 <= t < numTheories
      ensures e[n + 3 + t] == Theory(TheoryCall(t, Search(k)))
    {
      assert e[n + 3 + t] == Theories(searches)[t];
      TheoriesAt(searches, t);
      EachAt(numTheories, Search(k), t);
    }
  }

  /** Event `i` is request `i`. */
  lemma {:induction false} TheoriesAt(s: seq<TheoryCall>, i: nat)
    requires i < |s|
    ensures Theories(s)[i] == Theory(s[i])
  {
    if i < |s| - 1 {
      TheoriesAt(s[..|s| - 1], i);
    }
  }

  /** The engine requests among `es`, in order. */
  function EngineCalls(es: seq<Event>): seq<EngineCall>
  {
    if |es| == 0 then []
    else EngineCalls(es[..|es| - 1]) + (if es[|es| - 1].Engine? then [es[|es| - 1].request] else [])
  }

  lemma {:induction false} EngineCallsAppend(a: seq<Event>, b: seq<Event>)
    ensures EngineCalls(a + b) == EngineCalls(a) + EngineCalls(b)
    decreases |b|
  {
    if |b| == 0 {
      assert a + b == a;
    } else {
      var init := b[..|b| - 1];
      assert (a + b)[..|a + b| - 1] == a + init;
      EngineCallsAppend(a, init);
    }
  }

  /** Lifted theory requests hold no engine request. */
  lemma {:induction false} TheoriesHoldNoEngineCall(s: seq<TheoryCall>)
    ensures EngineCalls(Theories(s)) == []
  {
    if |s| > 0 {
      var init := s[..|s| - 1];
      TheoriesHoldNoEngineCall(init);
      EngineCallsAppend(Theories(init), [Theory(s[|s| - 1])]);
      assert s == init + [s[|s| - 1]];
    }
  }

  /** The engine part of a round projects to itself. */
  lemma EngineRoundCalls(euf: EufView, L: u32, env: Environment, k: nat)
    requires k <= MaxRounds
    ensures EngineCalls(EngineRound(euf, L, env, k)) == [PushLimit(RoundBudget(euf, L, env, k)), Check([]), PopLimit]
  {
    var engine := EngineRound(euf, L, env, k);
    var e0, e1, e2 := [engine[0]], [engine[1]], [engine[2]];
    assert e0[..0] == [] && e1[..0] == [] && e2[..0] == [];
    assert engine == e0 + e1 + e2;
    EngineCallsAppend(e0 + e1, e2);
    EngineCallsAppend(e0, e1);
  }

  /** A round's events hold exactly its three engine requests. */
  lemma ProjectRoundEngine(euf: EufView, L: u32, env: Environment, numTheories: nat, k: nat)
    requires k <= MaxRounds
    ensures EngineCalls(RoundEvents(euf, L, env, numTheories, k))
            == [PushLimit(RoundBudget(euf, L, env, k)), Check([]), PopLimit]
  {
    var bounds := Theories(BoundsCalls(euf, env.unsat[k], numTheories));
    var engine := EngineRound(euf, L, env, k);
    var searches := Theories(Each(numTheories, Search(k)));
    TheoriesHoldNoEngineCall(BoundsCalls(euf, env.unsat[k], numTheories));
    TheoriesHoldNoEngineCall(Each(numTheories, Search(k)));
    EngineRoundCalls(euf, L, env, k);
    EngineCallsAppend(bounds + engine, searches);
    EngineCallsAppend(bounds, engine);
  }

  /** The engine requests among the events of round `j` are the three entries
      `EngineLog` holds for that round, whatever the number of rounds run after
      it. */
  lemma RoundInEngineLog(euf: EufView, L: u32, env: Environment, numTheories: nat, k: nat, j: nat)
    requires j < k <= MaxRounds
    ensures EngineCalls(RoundEvents(euf, L, env, numTheories, j)) == EngineLog(euf, L, env, k)[3 * j..3 * j + 3]
  {
    ProjectRoundEngine(euf, L, env, numTheories, j);
    EngineLogShape(euf, L, env, k, j);
    var log := EngineLog(euf, L, env, k);
    assert log[3 * j..3 * j + 3] == [log[3 * j], log[3 * j + 1], log[3 * j + 2]];
  }

  /** The engine requests in the trace of `k` rounds are exactly `EngineLog`:
      the requests to the theory solvers interleave with them but add none. */
  lemma {:induction false} TraceEngineLog(euf: EufView, L: u32, env: Environment, numTheories: nat, k: nat)
    requires k <= MaxRounds
    ensures EngineCalls(Trace(euf, L, env, numTheories, k)) == EngineLog(euf, L, env, k)
    decreases k
  {
    if k > 0 {
      TraceEngineLog(euf, L, env, numTheories, k - 1);
      EngineCallsAppend(Trace(euf, L, env, numTheories, k - 1), RoundEvents(euf, L, env, numTheories, k - 1));
      ProjectRoundEngine(euf, L, env, numTheories, k - 1);
      assert EngineLog(euf, L, env, k)
             == EngineLog(euf, L, env, k - 1) + [PushLimit(RoundBudget(euf, L, env, k - 1)), Check([]), PopLimit];
    }
  }

  /** After any number of rounds, the pushes and pops recorded in the trace
      balance. */
  lemma TraceLimitsBalanced(euf: EufView, L: u32, env: Environment, numTheories: nat, k: nat)
    requires k <= MaxRounds
    ensures LimitDepth(EngineCalls(Trace(euf, L, env, numTheories, k))) == 0
  {
    TraceEngineLog(euf, L, env, numTheories, k);
    EngineLogBalanced(euf, L, env, k);
  }

  /** A call whose first round empties the unsatisfied set runs that one round
      and answers `l_true`. */
  lemma ConvergesInOneRound(env: Environment)
    requires env.inc[0] && |env.unsat[1]| == 0
    ensures RoundsRun(env) == 1 && Outcome(env) == LTrue
  {
  }

  /** A call that is never cancelled and never empties the unsatisfied set runs
      all 30 rounds, answers `l_undef`, and leaves the engine's last model on the
      phase prefix it covers. */
  lemma GivesUpAfterMaxRounds(env: Environment, numTheories: nat, p0: seq<bool>)
    requires forall k :: 0 <= k <= MaxRounds ==> env.inc[k]
    requires forall k :: 0 < k <= MaxRounds ==> |env.unsat[k]| > 0
    requires forall k :: 0 <= k <= MaxRounds ==> |env.model[k]| <= |p0|
    ensures RoundsRun(env) == MaxRounds && Outcome(env) == LUndef
    ensures forall i :: 0 <= i < |env.model[MaxRounds]| ==>
              FinalPhase(env, numTheories, p0)[i] == (env.model[MaxRounds][i] == LTrue)
  {
    RoundsRunIsFirstExit(env);
  }
}
