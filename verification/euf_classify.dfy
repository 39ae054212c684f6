/** Which boolean variables carry a theory atom the e-graph knows about
    (`euf::solver::is_propositional`). */
module Classify {
  import opened Sat

  /** Expressions and e-graph nodes are identified by number. */
  type Expr = nat
  type ENode = nat

  /** The part of the solver state the classification reads:
      - `boolVar2Expr`: the pointer vector from boolean variables to expressions,
        whose entries may be null (`None`);
      - `uninterpConsts`: the expressions that are uninterpreted constants;
      - `egraph`: the e-graph's `find`, defined exactly on the expressions it holds. */
  datatype EufView = EufView(boolVar2Expr: seq<Option<Expr>>, uninterpConsts: set<Expr>, egraph: map<Expr, ENode>)

  /** `m_bool_var2expr.get(v, nullptr)`: an index past the end reads as null. */
  function ExprOf(euf: EufView, v: nat): Option<Expr>
  {
    if v < |euf.boolVar2Expr| then euf.boolVar2Expr[v] else None
  }

  /** A literal is propositional when its variable has no expression, or the
      expression is an uninterpreted constant, or the e-graph does not hold it. */
  predicate IsPropositional(euf: EufView, l: Literal)
  {
    match ExprOf(euf, l.bvar)
    case None => true
    case Some(e) => e in euf.uninterpConsts || e !in euf.egraph
  }

  /** The theory-carrying variables, stated positively: the variable names an
      interpreted expression that the e-graph holds. */
  ghost predicate IsTheoryAtom(euf: EufView, v: nat)
  {
    exists e :: v < |euf.boolVar2Expr| && euf.boolVar2Expr[v] == Some(e) && e !in euf.uninterpConsts && e in euf.egraph
  }

  /** Classification is the exact complement of being a theory atom. */
  lemma PropositionalIffNotTheoryAtom(euf: EufView, l: Literal)
    ensures IsPropositional(euf, l) <==> !IsTheoryAtom(euf, l.bvar)
  {
    if !IsPropositional(euf, l) {
      var e := ExprOf(euf, l.bvar).value;
      assert euf.boolVar2Expr[l.bvar] == Some(e);
    }
  }

  /** Classification looks at the variable only, never at the polarity. */
  lemma ClassificationIgnoresPolarity(euf: EufView, v: nat, s1: bool, s2: bool)
    ensures IsPropositional(euf, Literal(v, s1)) == IsPropositional(euf, Literal(v, s2))
  {
  }

  /** `m_egraph.find(m_bool_var2expr.get(l.var(), nullptr))` for a literal that is
      not propositional: such a literal always has an expression and a node. */
  function TheoryNode(euf: EufView, l: Literal): (n: ENode)
    requires !IsPropositional(euf, l)
    ensures IsTheoryAtom(euf, l.bvar)
    ensures n in euf.egraph.Values
  {
    PropositionalIffNotTheoryAtom(euf, l);
    euf.egraph[ExprOf(euf, l.bvar).value]
  }
}
