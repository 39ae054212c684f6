/** `euf::solver::local_search` and `euf::solver::setup_bounds`: the round loop
    that alternates the boolean local-search engine with the theory solvers'
    refinement of the shared phase. */
module EufLocalSearch {
  import opened Sat
  import opened Classify
  import opened Bounds
  import opened Rounds

  /** The fields of the e-graph solver that the local-search dispatch reads or
      writes:
      - `euf`: the variable-to-expression vector, the uninterpreted constants and
        the e-graph, read by the classification;
      - `lsL`: the multiplier `m_ls_config.L`;
      - `numTheories`: the number of theory solvers, numbered `0 .. numTheories - 1`;
      - `maxBoolSteps`: `m_max_bool_steps`;
      - `trace`: every request made to a theory solver or to the engine, in order. */
  class Solver {
    var euf: EufView
    var lsL: u32
    const numTheories: nat
    var maxBoolSteps: u32
    ghost var trace: seq<Event>

    /** Hands the engine to every theory solver (`set_bool_search`). */
    method AttachBoolSearch()
      modifies this`trace
      ensures trace == old(trace) + Theories(Each(numTheories, Attach))
    {
      Broadcast(Attach);
    }

    /** Sends one request to every theory solver in turn. */
    method Broadcast(request: Request)
      modifies this`trace
      ensures trace == old(trace) + Theories(Each(numTheories, request))
    {
      var t := 0;
      while t < numTheories
        invariant t <= numTheories
        invariant trace == old(trace) + Theories(Each(t, request))
      {
        TheoriesSnoc(Each(t, request), TheoryCall(t, request));
        AppendAssoc(old(trace), Theories(Each(t, request)), [Theory(TheoryCall(t, request))]);
        trace := trace + [Theory(TheoryCall(t, request))];
        t := t + 1;
      }
    }

    /** The `count_literal` step for one occurrence: reports whether it is
        propositional, and otherwise sends its node to every theory solver. */
    method CountLiteral(l: Literal) returns (propositional: bool)
      modifies this`trace
      ensures propositional == IsPropositional(euf, l)
      ensures trace == old(trace) + Theories(LiteralCalls(euf, l, numTheories))
    {
      propositional := IsPropositional(euf, l);
      if !propositional {
        var n := TheoryNode(euf, l);
        Broadcast(Bound(n));
      }
    }

    /** Runs `count_literal` on every literal of one clause, in order, and
        returns how many of them are propositional. */
    method CountClause(c: Clause) returns (propositional: nat)
      modifies this`trace
      ensures propositional == ClauseBool(euf, c)
      ensures trace == old(trace) + Theories(ClauseCalls(euf, c, numTheories))
    {
      propositional := 0;
      var j := 0;
      while j < |c|
        invariant j <= |c|
        invariant propositional == ClauseBool(euf, c[..j])
        invariant trace == old(trace) + Theories(ClauseCalls(euf, c[..j], numTheories))
      {
        ClauseEventsStep(euf, c, j, numTheories);
        AppendAssoc(old(trace), Theories(ClauseCalls(euf, c[..j], numTheories)),
                         Theories(LiteralCalls(euf, c[j], numTheories)));
        var isBool := CountLiteral(c[j]);
        if isBool {
          propositional := propositional + 1;
        }
        j := j + 1;
      }
      assert c[..j] == c;
    }

    /** The clause loop of `setup_bounds`: counts all literal occurrences of the
        unsatisfied clauses and the propositional ones, broadcasting the node of
        every other one. */
    method CountUnsat(unsat: seq<Clause>) returns (numLiterals: nat, numBool: nat)
      modifies this`trace
      ensures numLiterals == TotalLiterals(unsat)
      ensures numBool == CountBool(euf, unsat)
      ensures trace == old(trace) + Theories(NotifyCalls(euf, unsat, numTheories))
    {
      numLiterals, numBool := 0, 0;
      var i := 0;
      while i < |unsat|
        invariant i <= |unsat|
        invariant numLiterals == TotalLiterals(unsat[..i])
        invariant numBool == CountBool(euf, unsat[..i])
        invariant trace == old(trace) + Theories(NotifyCalls(euf, unsat[..i], numTheories))
      {
        UnsatEventsStep(euf, unsat, i, numTheories);
        AppendAssoc(old(trace), Theories(NotifyCalls(euf, unsat[..i], numTheories)),
                         Theories(ClauseCalls(euf, unsat[i], numTheories)));
        numLiterals := numLiterals + |unsat[i]|;
        var k := CountClause(unsat[i]);
        numBool := numBool + k;
        i := i + 1;
      }
      assert unsat[..i] == unsat;
    }

    /** Counts the literal occurrences of the unsatisfied clauses, broadcasts the
        node of every theory-carrying one between the begin and end notices, and
        sets the next round's step budget. The two counts, local to the source,
        are returned so that they can be named. */
    method SetupBounds(unsat: seq<Clause>) returns (numLiterals: nat, numBool: nat)
      modifies this`maxBoolSteps, this`trace
      ensures numLiterals == TotalLiterals(unsat)
      ensures numBool == CountBool(euf, unsat) && numBool <= numLiterals
      ensures maxBoolSteps == StepBudget(lsL, numBool) && maxBoolSteps >= StepFloor
      ensures trace == old(trace) + Theories(BoundsCalls(euf, unsat, numTheories))
    {
      Broadcast(Begin);
      numLiterals, numBool := CountUnsat(unsat);
      maxBoolSteps := (lsL * numBool) % U32Modulus;
      WrappedProductIsProduct(lsL, numBool);
      maxBoolSteps := if maxBoolSteps < StepFloor then StepFloor else maxBoolSteps;
      Broadcast(End(numLiterals));
      ghost var begins, notify, ends :=
        Each(numTheories, Begin), NotifyCalls(euf, unsat, numTheories), Each(numTheories, End(numLiterals));
      TheoriesAppend(begins + notify, ends);
      TheoriesAppend(begins, notify);
      AppendAssoc(old(trace), Theories(begins) + Theories(notify), Theories(ends));
      AppendAssoc(old(trace), Theories(begins), Theories(notify));
    }

    /** Lets every theory solver refine the phase in place, in solver order. */
    method RefinePhase(phase: array<bool>, env: Environment, round: nat)
      modifies phase, this`trace
      ensures phase[..] == TheoriesUpTo(env, round, numTheories, old(phase[..]))
      ensures trace == old(trace) + Theories(Each(numTheories, Search(round)))
    {
      var t := 0;
      while t < numTheories
        invariant t <= numTheories
        invariant phase[..] == TheoriesUpTo(env, round, t, old(phase[..]))
        invariant trace == old(trace) + Theories(Each(t, Search(round)))
      {
        var next := env.theory(t, round, phase[..]);
        forall i | 0 <= i < phase.Length {
          phase[i] := next[i];
        }
        assert phase[..] == next;
        TheoriesSnoc(Each(t, Search(round)), TheoryCall(t, Search(round)));
        AppendAssoc(old(trace), Theories(Each(t, Search(round))), [Theory(TheoryCall(t, Search(round)))]);
        trace := trace + [Theory(TheoryCall(t, Search(round)))];
        t := t + 1;
      }
    }

    /** The state after `k` rounds that started from phase `p0`, trace `base`
        and budget `b0`. */
    ghost predicate AfterRounds(phase: array<bool>, env: Environment, k: nat, p0: seq<bool>, base: seq<Event>, b0: u32)
      reads this, phase
    {
      && k <= MaxRounds
      && phase[..] == PhaseAfter(env, numTheories, p0, k)
      && trace == base + Trace(euf, lsL, env, numTheories, k)
      && maxBoolSteps == if k == 0 then b0 else RoundBudget(euf, lsL, env, k - 1)
    }

    /** The body of one round: bounds, the engine's check under a pushed step
        limit that is popped right after, then the theory solvers' refinement.
        It takes the state after `round` rounds to the state after `round + 1`. */
    method RunRound(phase: array<bool>, env: Environment, round: nat, ghost p0: seq<bool>, ghost base: seq<Event>,
                    ghost b0: u32)
      requires round < MaxRounds
      requires AfterRounds(phase, env, round, p0, base, b0)
      modifies phase, this`maxBoolSteps, this`trace
      ensures AfterRounds(phase, env, round + 1, p0, base, b0)
    {
      ghost var before := trace;
      var numLiterals, numBool := SetupBounds(env.unsat[round]);
      RunEngine(env, round);
      RefinePhase(phase, env, round);
      ghost var bounds := Theories(BoundsCalls(euf, env.unsat[round], numTheories));
      ghost var searches := Theories(Each(numTheories, Search(round)));
      AppendAssoc(before, bounds + EngineRound(euf, lsL, env, round), searches);
      AppendAssoc(before, bounds, EngineRound(euf, lsL, env, round));
      AppendAssoc(base, Trace(euf, lsL, env, numTheories, round), RoundEvents(euf, lsL, env, numTheories, round));
    }

    /** The engine's part of a round: push the step budget set by the bounds,
        check with no assumptions, pop the limit. */
    method RunEngine(env: Environment, round: nat)
      requires round <= MaxRounds && maxBoolSteps == RoundBudget(euf, lsL, env, round)
      modifies this`trace
      ensures trace == old(trace) + EngineRound(euf, lsL, env, round)
    {
      var assumptions: seq<Literal> := [];
      trace := trace + [Engine(PushLimit(maxBoolSteps))];
      trace := trace + [Engine(Check(assumptions))];
      trace := trace + [Engine(PopLimit)];
    }

    /** The round loop: at most `MaxRounds` rounds, none begun once `m.inc()`
        fails, and none after a round that leaves the unsatisfied set empty.
        Returns the number of rounds run, which identifies the engine's state. */
    method RunRounds(phase: array<bool>, env: Environment) returns (rounds: nat)
      modifies phase, this`maxBoolSteps, this`trace
      ensures rounds == RoundsRun(env)
      ensures phase[..] == PhaseAfter(env, numTheories, old(phase[..]), rounds)
      ensures trace == old(trace) + Trace(euf, lsL, env, numTheories, rounds)
      ensures rounds == 0 ==> maxBoolSteps == old(maxBoolSteps)
      ensures rounds > 0 ==> maxBoolSteps == RoundBudget(euf, lsL, env, rounds - 1)
    {
      ghost var base, p0, b0 := trace, phase[..], maxBoolSteps;
      rounds := 0;
      while env.inc[rounds] && rounds < MaxRounds
        invariant rounds <= MaxRounds
        invariant RoundsFrom(env, rounds) == RoundsRun(env)
        invariant AfterRounds(phase, env, rounds, p0, base, b0)
        decreases MaxRounds - rounds
      {
        RunRound(phase, env, rounds, p0, base, b0);
        rounds := rounds + 1;
        if |env.unsat[rounds]| == 0 {
          break;
        }
      }
    }

    /** One call of the local-search dispatch. The engine's model must not be
        longer than the phase, which the copy-back relies on without checking.
        `roundsRun` exposes the number of rounds. */
    method LocalSearch(phase: array<bool>, env: Environment) returns (r: LBool, ghost roundsRun: nat)
      requires forall k :: 0 <= k <= MaxRounds ==> |env.model[k]| <= phase.Length
      modifies phase, this`maxBoolSteps, this`trace
      ensures roundsRun == RoundsRun(env) && roundsRun <= MaxRounds
      ensures phase[..] == FinalPhase(env, numTheories, old(phase[..]))
      ensures r == Outcome(env) && r != LFalse
      ensures r == LTrue <==> |env.unsat[roundsRun]| == 0
      ensures trace == old(trace) + Theories(Each(numTheories, Attach)) + Trace(euf, lsL, env, numTheories, roundsRun)
      ensures roundsRun == 0 ==> maxBoolSteps == old(maxBoolSteps)
      ensures roundsRun > 0 ==> maxBoolSteps == RoundBudget(euf, lsL, env, roundsRun - 1)
    {
      AttachBoolSearch();
      var rounds := RunRounds(phase, env);
      var mdl := env.model[rounds];
      CopyBack(phase, mdl);
      r := if |env.unsat[rounds]| == 0 then LTrue else LUndef;
      roundsRun := rounds;
    }
  }

  /** Copies the engine's model over the prefix of the phase it covers: entry
      `i` becomes `mdl[i] == l_true`, later entries are left as they are. */
  method CopyBack(phase: array<bool>, mdl: seq<LBool>)
    requires |mdl| <= phase.Length
    modifies phase
    ensures phase[..] == Overwrite(old(phase[..]), mdl)
  {
    var i := 0;
    while i < |mdl|
      invariant i <= |mdl|
      invariant phase[..] == Overwrite(old(phase[..]), mdl[..i])
    {
      assert mdl[..i + 1][..i] == mdl[..i];
      phase[i] := mdl[i] == LTrue;
      i := i + 1;
    }
    assert mdl[..i] == mdl;
  }
}
