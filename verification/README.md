# Local-search dispatch of the EUF solver

This project models `euf::solver::local_search` and the two helpers it depends on:

- `setup_bounds`, which prepares each round;
- `is_propositional`, which classifies literals.

`local_search` runs a boolean local-search engine (`sat::ddfw`) for at most 30 rounds. Each round does the following:

1. It counts the literal occurrences of the engine's unsatisfied clauses.
2. It sends the e-graph node of every theory-carrying occurrence to every theory solver, between a begin notice and an end notice.
3. It sets the next step budget to `max(10000, L * num_bool)` in unsigned arithmetic.
4. It runs the engine's `check` under that budget, pushed as a step limit and popped right after.
5. It lets every theory solver refine the shared `phase`.

The loop stops before a round when `m.inc()` fails. It also stops after any round that leaves the unsatisfied set empty. At the end, the engine's model is copied over the prefix of `phase` it covers. The answer is `l_true` when the unsatisfied set is empty and `l_undef` otherwise.

The model is split into four modules plus shared types:

- `Sat` (`sat.dfy`) holds the vocabulary: literals, clauses, `lbool` and 32-bit unsigned values.
- `Classify` (`euf_classify.dfy`) holds `is_propositional`, as a pure predicate over a view of the solver. The view has three parts:
  - the variable-to-expression vector;
  - the set of uninterpreted constants;
  - the e-graph's `find`, as a map.
- `Bounds` (`euf_bounds.dfy`) holds the specification of one `setup_bounds` call:
  - the counts;
  - the sequence of requests sent to the theory solvers;
  - the wrapped budget formula.
- `Rounds` (`euf_rounds.dfy`) holds the specification of the loop. It is stated over an `Environment` of observations for rounds 0 to 30: the answer of `m.inc()` before each round, the unsatisfied clauses and the engine model after each round, and the theory solvers' phase rewrite. It defines:
  - the number of rounds run;
  - the phase after each round and at the end;
  - the answer;
  - the engine's push/check/pop requests;
  - the trace: every request of a call to a theory solver or to the engine, as one sequence in the order the call makes them.
- `EufLocalSearch` (`euf_local_search.dfy`) holds the imperative code.
  - A `Solver` class has the fields the source reads and writes:
    - `euf`, the view of `m_bool_var2expr`, the uninterpreted constants and the e-graph that `is_propositional` and `setup_bounds` read;
    - `m_max_bool_steps`;
    - `m_ls_config.L`;
    - the number of theory solvers;
    - a ghost trace of every request made to a theory solver or to the engine, in order.
  - `phase` is an `array<bool>` that the methods update in place.
  - Each method is proved against the specification functions above.

External collaborators are parameters:

- The engine's unsatisfied sets and models are observations in `Environment`. The engine's `check` is a step that produces the next observation.
- The answer of `m.inc()` before each round is an observation.
- Each theory solver's `local_search` is a length-preserving function of solver, round and phase.
- The other theory-solver callbacks and the engine's step-limit and `check` requests are recorded in the trace rather than executed.

## Model

| member | source | states |
|---|---|---|
| Classify.PropositionalIffNotTheoryAtom | src/sat/smt/euf_local_search.cpp:77-80 | A literal is propositional exactly when its variable does not name an expression that is interpreted and held by the e-graph. Both directions are proved. |
| Classify.ClassificationIgnoresPolarity | src/sat/smt/euf_local_search.cpp:78 | Classification reads only the variable, never the literal's sign. |
| Classify.TheoryNode | src/sat/smt/euf_local_search.cpp:93 | For a non-propositional literal, the `find` lookup always succeeds. The node it returns is an e-graph node, and the variable is a theory atom. |
| Bounds.Each | src/sat/smt/euf_local_search.cpp:85-86 | A broadcast makes exactly one request per theory solver. |
| Bounds.EachAt | src/sat/smt/euf_local_search.cpp:85-86 | The broadcast goes out in solver order: solver `t` receives the `t`-th request. |
| Bounds.EachMembers | src/sat/smt/euf_local_search.cpp:94-95 | A broadcast contains a call if and only if the call goes to an existing solver with that request. |
| Bounds.ClauseBool | src/sat/smt/euf_local_search.cpp:101-102 | A clause has no more propositional occurrences than literals. |
| Bounds.CountBool | src/sat/smt/euf_local_search.cpp:98-103 | `num_bool` never exceeds `num_literals`. |
| Bounds.ClauseTheory | src/sat/smt/euf_local_search.cpp:88-96 | In a clause, the theory-carrying occurrences are exactly the occurrences that are not propositional. |
| Bounds.CountTheory | src/sat/smt/euf_local_search.cpp:98-103 | Across the unsatisfied set, the theory-carrying occurrences are `num_literals - num_bool`. |
| Bounds.ClauseCallsCount | src/sat/smt/euf_local_search.cpp:88-96 | One clause causes `numTheories` `set_bounds` calls for each theory-carrying occurrence. |
| Bounds.NotifyCallsCount | src/sat/smt/euf_local_search.cpp:98-103 | The broadcast makes `numTheories * (num_literals - num_bool)` calls. |
| Bounds.AllPropositionalNoBroadcast | src/sat/smt/euf_local_search.cpp:88-92 | If every literal is propositional, no `set_bounds` call is made and `num_bool == num_literals`. |
| Bounds.ClauseAllPropositional | src/sat/smt/euf_local_search.cpp:89-90 | A clause whose literals are all propositional adds its full size to `num_bool`. |
| Bounds.AllPropositionalCount | src/sat/smt/euf_local_search.cpp:98-103 | If every literal is propositional, `num_bool` equals the total number of occurrences. |
| Bounds.NotifyCallsComplete | src/sat/smt/euf_local_search.cpp:93-95 | For every theory-carrying occurrence of every unsatisfied clause, every theory solver receives that occurrence's node. |
| Bounds.ClauseCallsComplete | src/sat/smt/euf_local_search.cpp:101-102 | The same completeness, for the occurrences of one clause. |
| Bounds.NotifyCallsSound | src/sat/smt/euf_local_search.cpp:88-96 | Every call the broadcast makes is a `set_bounds` to an existing solver, carrying the node of some theory-carrying occurrence. |
| Bounds.ClauseCallsSound | src/sat/smt/euf_local_search.cpp:101-102 | Every call made for one clause carries the node of a theory-carrying literal of that clause. |
| Bounds.BoundsCallsBracketed | src/sat/smt/euf_local_search.cpp:85-86 | In a `setup_bounds` call, the solvers first receive `set_bounds_begin` in order, then only `set_bounds` calls, then `set_bounds_end(num_literals)` in order. Lines 109-110 are part of the same bracket. |
| Bounds.WrappedProductIsProduct | src/sat/smt/euf_local_search.cpp:105 | The unsigned product `L * num_bool` is the mathematical product modulo 2^32. |
| Bounds.StepBudget | src/sat/smt/euf_local_search.cpp:105-106 | The budget is never below 10000. |
| Bounds.StepBudgetValue | src/sat/smt/euf_local_search.cpp:105-106 | An empty count gives exactly 10000. In general the budget is `max(10000, (L * num_bool) mod 2^32)`, and it is `max(10000, L * num_bool)` whenever the product fits in 32 bits. |
| Bounds.BudgetIgnoresCounterWrap | src/sat/smt/euf_local_search.cpp:84 | Reading `num_bool` modulo 2^32 gives the same budget, so an unsigned counter that wrapped would not change it. |
| Bounds.WrappedProductPeriodic | src/sat/smt/euf_local_search.cpp:105 | The wrapped product is periodic in the count with period 2^32. |
| Rounds.RoundsFrom | src/sat/smt/euf_local_search.cpp:37 | Once the loop has reached round `k`, it runs to a round count between `k` and 30. |
| Rounds.RoundsFromIsFirstExit | src/sat/smt/euf_local_search.cpp:37-69 | From round `k`, every round run was entered with `m.inc()` true, and no earlier round left the unsatisfied set empty. The loop ends at the bound, at a failed `m.inc()`, or after a round that emptied the set. |
| Rounds.RoundsRunIsFirstExit | src/sat/smt/euf_local_search.cpp:32-69 | The same property for a whole call: the loop stops at the first exit point and never runs more than 30 rounds. |
| Rounds.TheoriesUpTo | src/sat/smt/euf_local_search.cpp:64-65 | The theory solvers' refinement keeps the phase's length. |
| Rounds.PhaseAfter | src/sat/smt/euf_local_search.cpp:37-69 | The rounds keep the phase's length. |
| Rounds.Overwrite | src/sat/smt/euf_local_search.cpp:70-72 | The copy-back sets entry `i` to `mdl[i] == l_true` for `i < mdl.size()`. It leaves every later entry and the length unchanged. |
| Rounds.Outcome | src/sat/smt/euf_local_search.cpp:74 | The answer is `l_true` exactly when the unsatisfied set is empty after the last round, and is never `l_false`. |
| Rounds.EngineLog | src/sat/smt/euf_local_search.cpp:51-54 | Each round makes exactly three engine requests. |
| Rounds.LimitDepthSnoc | src/sat/smt/euf_local_search.cpp:51-54 | Each request changes the step-limit stack depth by its own amount. |
| Rounds.EngineLogShape | src/sat/smt/euf_local_search.cpp:39-54 | Round `j` pushes the budget computed by that round's `setup_bounds`. It then checks with an empty assumption list and pops. |
| Rounds.EngineLogBalanced | src/sat/smt/euf_local_search.cpp:51-54 | After any number of rounds, pushes and pops balance. |
| Rounds.LimitsBalanced | src/sat/smt/euf_local_search.cpp:51-54 | The check of round `j` runs with exactly one step limit pushed, and the stack is empty again after the rounds. |
| Rounds.RoundEventsOrder | src/sat/smt/euf_local_search.cpp:39-65 | Within a round, every `setup_bounds` request (lines 85-86, 94-95, 109-110) comes first and none is a `local_search`. Then the engine gets the push of that round's budget (51), the check with no assumptions (53) and the pop (54), in that order. Then every theory solver gets `local_search` (64-65), in solver order. |
| Rounds.TheoriesHoldNoEngineCall | src/sat/smt/euf_local_search.cpp:85-110 | The requests `setup_bounds` sends to the theory solvers contain no engine request. |
| Rounds.EngineRoundCalls | src/sat/smt/euf_local_search.cpp:51-54 | The engine part of a round is exactly push, check and pop. |
| Rounds.ProjectRoundEngine | src/sat/smt/euf_local_search.cpp:39-65 | The engine requests of a whole round are exactly its push, check and pop. |
| Rounds.RoundInEngineLog | src/sat/smt/euf_local_search.cpp:37-65 | The engine requests of round `j` in the trace are the entries of `EngineLog` for that round, however many rounds follow. |
| Rounds.TraceEngineLog | src/sat/smt/euf_local_search.cpp:37-65 | Over any number of rounds, the engine requests in the trace are exactly `EngineLog`: the theory-solver requests between them add no push, check or pop. |
| Rounds.TraceLimitsBalanced | src/sat/smt/euf_local_search.cpp:51-54 | After any number of rounds, the pushes and pops recorded in the trace balance. |
| Rounds.TheoriesAppend | src/sat/smt/euf_local_search.cpp:85-110 | Recording requests in two parts records them in order. |
| Rounds.ConvergesInOneRound | src/sat/smt/euf_local_search.cpp:67-68 | A call whose first round empties the unsatisfied set stops after that round and answers `l_true`. |
| Rounds.GivesUpAfterMaxRounds | src/sat/smt/euf_local_search.cpp:32-74 | A call that is never cancelled and never empties the set runs exactly 30 rounds. It answers `l_undef` and copies the last model onto the phase. |
| EufLocalSearch.Solver.AttachBoolSearch | src/sat/smt/euf_local_search.cpp:34-35 | The trace grows by one `set_bool_search` per theory solver, in solver order. |
| EufLocalSearch.Solver.Broadcast | src/sat/smt/euf_local_search.cpp:85-86 | The trace grows by the request to every theory solver once, in solver order. Lines 94-95 and 109-110 do the same. |
| EufLocalSearch.Solver.CountLiteral | src/sat/smt/euf_local_search.cpp:88-96 | Reports the classification, and sends the literal's node to every solver exactly when the literal is not propositional. |
| EufLocalSearch.Solver.CountClause | src/sat/smt/euf_local_search.cpp:101-102 | Returns the clause's propositional count and makes exactly that clause's `set_bounds` calls, in order. |
| EufLocalSearch.Solver.CountUnsat | src/sat/smt/euf_local_search.cpp:98-103 | Computes `num_literals` and `num_bool` over the unsatisfied set and makes exactly its `set_bounds` calls. |
| EufLocalSearch.Solver.SetupBounds | src/sat/smt/euf_local_search.cpp:82-111 | Returns both counts with `num_bool <= num_literals`, and sets `m_max_bool_steps` to the clamped wrapped budget, at least 10000. The trace grows by exactly the begin/`set_bounds`/end bracket. |
| EufLocalSearch.Solver.RefinePhase | src/sat/smt/euf_local_search.cpp:64-65 | Every theory solver in turn rewrites `phase` in place, and the trace grows by one `local_search` per solver, in order. |
| EufLocalSearch.Solver.RunEngine | src/sat/smt/euf_local_search.cpp:51-54 | The trace grows by the push of the current budget, the check with no assumptions and the pop, in that order. |
| EufLocalSearch.Solver.RunRound | src/sat/smt/euf_local_search.cpp:39-65 | Takes the state after `k` rounds to the state after `k + 1` rounds. The state is the phase, the budget, and the trace of those rounds in the order `RoundEventsOrder` states. |
| EufLocalSearch.Solver.RunRounds | src/sat/smt/euf_local_search.cpp:37-69 | Runs exactly the rounds the loop specification says. It leaves the phase and budget of that many rounds, and their trace, in order. |
| EufLocalSearch.Solver.LocalSearch | src/sat/smt/euf_local_search.cpp:24-75 | A whole call: it runs the specified number of rounds (at most 30) and leaves the specified final phase. The answer is `l_true` if and only if the final unsatisfied set is empty, and never `l_false`. The method also states the last budget and the whole trace: the attach requests, then each round's requests in order. |
| EufLocalSearch.CopyBack | src/sat/smt/euf_local_search.cpp:70-72 | The in-place loop leaves `phase` equal to the copy-back specification. |

## Left out

- The internals of the engine (`reinit`, `updt_params`, `set_seed`, `check`, and its flip and weight policy) are not modelled, because they belong to a library outside this file. What `check` produces is taken as the per-round observations `unsat` and `model`, and the result of `check` is unused in the source.
- `scoped_limits`, `push_child` and the cancellation machinery behind `m.inc()` are reduced to the observed answers of `m.inc()` and the step-limit requests in the trace.
- `rand()` seeding and the `verbose_stream()` output are left out (lines 29, 49 and 107), because they are randomness and I/O with no effect on the result.
- The two `#if 0` blocks (lines 43-47 and 56-62) are compiled out and have no behaviour. The assumption list passed to `check` is therefore always empty.
- The theory solvers' `set_bool_search`, `set_bounds_begin`, `set_bounds` and `set_bounds_end` are recorded as requests, not executed. Their `local_search` is an arbitrary length-preserving rewrite of the phase. The e-graph and the variable-to-expression vector are held fixed during one call.
- Nothing undoes the `set_bool_search` calls of line 35. After the call, each theory solver keeps a pointer to `bool_search`, a local that no longer exists. The model follows the code: the trace has attach requests and no detach.
- Exceptions are not modelled. An exception from `check` (line 53) skips the pop at line 54, so the step limit of that round stays pushed. An exception from a theory solver's `local_search` (line 65) comes after that round's push and pop. Either one skips the rest of the rounds, the copy-back (lines 70-72) and the return (line 74). Unwinding then destroys the locals in scope: `assumptions` (line 42), `bool_search` (line 26) and the `scoped_limits` (line 25). `LimitsBalanced`, `TraceLimitsBalanced` and the trace stated by `LocalSearch` describe normal completion only.
- `SetupBounds`: the counters `num_literals` and `num_bool` are unbounded, and the source's unsigned counters would wrap only after 2^32 literal occurrences. For the budget this makes no difference (`BudgetIgnoresCounterWrap`). The number passed to `set_bounds_end` is the unwrapped count.
- `SetupBounds`: the `phase` parameter of `setup_bounds` is unused in the source and is not modelled.
- `LocalSearch`: requires that every engine model is no longer than `phase`. The copy-back at lines 70-72 relies on this without checking it.
- The construction of the solver and the configuration header that declares `m_ls_config` are not part of this model. `L` is taken as an unsigned 32-bit field.
