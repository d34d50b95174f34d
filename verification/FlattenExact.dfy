/**
 Exactly when flattening keeps the meaning of a condition. Where all comparisons and
 subqueries are different, a junction that is dropped where it is not neutral changes the
 outcome for some values of them.
 */
module FlattenExact {
  import opened QueryAst
  import opened QuerySemantics
  import opened Normalizing
  import opened NormalizedMeaning

  predicate Occurs(x: Condition, c: Condition) {
    if c.And? || c.Or? then exists c' | c' in c.conditions :: Occurs(x, c') else x == c
  }

  /** No comparison or subquery occurs in two places. */
  ghost predicate AllDifferent(c: Condition) {
    (c.And? || c.Or?) ==>
      && (forall c' | c' in c.conditions :: AllDifferent(c'))
      && (forall i, j | 0 <= i < j < |c.conditions| :: Apart(c.conditions[i], c.conditions[j]))
  }

  ghost predicate Apart(a: Condition, b: Condition) {
    forall x :: !(Occurs(x, a) && Occurs(x, b))
  }

  function Always(b: bool): Valuation {
    x => b
  }

  /** A junction has its neutral value exactly when all its children have it. */
  lemma ByChildren(v: Valuation, c: Condition)
    requires c.And? || c.Or?
    ensures Eval(v, c) == c.And? <==> forall c' | c' in c.conditions :: Eval(v, c') == c.And?
    ensures NeutralEval(v, c) == c.And? <==> forall c' | c' in c.conditions && !Vacuous(c') :: NeutralEval(v, c') == c.And?
  {
  }

  lemma {:induction false} OnlyOccurring(v: Valuation, w: Valuation, c: Condition)
    requires forall x | Occurs(x, c) :: v(x) == w(x)
    ensures Eval(v, c) == Eval(w, c) && NeutralEval(v, c) == NeutralEval(w, c)
  {
    if c.And? || c.Or? {
      forall c' | c' in c.conditions ensures Eval(v, c') == Eval(w, c') && NeutralEval(v, c') == NeutralEval(w, c') {
        OnlyOccurring(v, w, c');
      }
      ByChildren(v, c);
      ByChildren(w, c);
    }
  }

  /** When all comparisons agree, so does the neutral reading. */
  lemma {:induction false} Uniform(b: bool, c: Condition)
    requires !Vacuous(c)
    ensures NeutralEval(Always(b), c) == b
  {
    if c.And? || c.Or? {
      forall c' | c' in c.conditions && !Vacuous(c') ensures NeutralEval(Always(b), c') == b {
        Uniform(b, c');
      }
      var d :| d in c.conditions && !Vacuous(d);
      ByChildren(Always(b), c);
    }
  }

  /** If the value of a child goes against its junction while all comparisons agree with it, the two readings differ. */
  lemma AgainstTheGrain(c: Condition, d: Condition)
    requires (c.And? || c.Or?) && !Vacuous(c) && d in c.conditions && Eval(Always(c.And?), d) != c.And?
    ensures Eval(Always(c.And?), c) != NeutralEval(Always(c.And?), c)
  {
    Uniform(c.And?, c);
    ByChildren(Always(c.And?), c);
  }

  /** The valuation `w` on the comparisons of `d`, and `b` elsewhere. */
  ghost function Override(d: Condition, w: Valuation, b: bool): Valuation {
    x => if Occurs(x, d) then w(x) else b
  }

  lemma Elsewhere(c: Condition, d: Condition, w: Valuation, b: bool)
    requires Apart(c, d)
    ensures Eval(Override(d, w, b), c) == Eval(Always(b), c) && NeutralEval(Override(d, w, b), c) == NeutralEval(Always(b), c)
  {
    OnlyOccurring(Override(d, w, b), Always(b), c);
  }

  lemma ApartFromOthers(c: Condition, d: Condition, other: Condition)
    requires (c.And? || c.Or?) && AllDifferent(c) && d in c.conditions && other in c.conditions && other != d
    ensures Apart(other, d)
  {
    var i :| 0 <= i < |c.conditions| && c.conditions[i] == d;
    var j :| 0 <= j < |c.conditions| && c.conditions[j] == other;
    if i < j {
      assert Apart(c.conditions[i], c.conditions[j]);
    } else {
      assert Apart(c.conditions[j], c.conditions[i]);
    }
  }

  /** A difference in one child shows when every other child keeps the junction's neutral value. */
  lemma DifferenceShows(c: Condition, d: Condition, w: Valuation)
    requires (c.And? || c.Or?) && AllDifferent(c) && d in c.conditions && !Vacuous(d)
    requires Eval(w, d) != NeutralEval(w, d)
    requires forall c' | c' in c.conditions && c' != d :: Eval(Always(c.And?), c') == c.And?
    ensures Eval(Override(d, w, c.And?), c) != NeutralEval(Override(d, w, c.And?), c)
  {
    var b := c.And?;
    var v := Override(d, w, b);
    OnlyOccurring(v, w, d);
    forall c' | c' in c.conditions && c' != d
      ensures Eval(v, c') == b && (!Vacuous(c') ==> NeutralEval(v, c') == b)
    {
      ApartFromOthers(c, d, c');
      Elsewhere(c', d, w, b);
      if !Vacuous(c') {
        Uniform(b, c');
      }
    }
    ByChildren(v, c);
  }

  /** An unbalanced condition is read differently once flattened, for some reading of its comparisons. */
  lemma {:induction false} UnbalancedDiffers(c: Condition) returns (v: Valuation)
    requires AllDifferent(c) && !Vacuous(c) && !Balanced(c)
    ensures Eval(v, c) != NeutralEval(v, c)
  {
    var b := c.And?;
    v := Always(b);
    if d :| d in c.conditions && Eval(v, d) != b && (Vacuous(d) || Balanced(d)) {
      AgainstTheGrain(c, d);
    } else {
      var d :| d in c.conditions && if Vacuous(d) then VacuousValue(d) != b else !Balanced(d);
      if Vacuous(d) {
        VacuousIsConstant(v, d);
        assert false;
      }
      var w := UnbalancedDiffers(d);
      if other :| other in c.conditions && other != d && Eval(v, other) != b {
        AgainstTheGrain(c, other);
      } else {
        DifferenceShows(c, d, w);
        v := Override(d, w, b);
      }
    }
  }

  /** Flattening a `where` keeps its value, whatever its comparisons and subqueries say, exactly when it is balanced. */
  lemma FlatteningKeepsMeaningExactly(c: Condition)
    requires AllDifferent(c)
    ensures (forall v: Valuation :: EvalWhere(v, Flatten(c)) == Eval(v, c)) <==> BalancedWhere(c)
  {
    if BalancedWhere(c) {
      forall v: Valuation ensures EvalWhere(v, Flatten(c)) == Eval(v, c) {
        FlattenKeepsValue(v, c);
      }
    } else {
      var v := FlatteningDiffers(c);
    }
  }

  lemma FlatteningDiffers(c: Condition) returns (v: Valuation)
    requires AllDifferent(c) && !BalancedWhere(c)
    ensures EvalWhere(v, Flatten(c)) != Eval(v, c)
  {
    v := Always(true);
    if Vacuous(c) {
      VacuousIsConstant(v, c);
    } else {
      v := UnbalancedDiffers(c);
    }
    FlattenReadsNeutrally(v, c);
  }

  /** A comparison that occurs twice can hide a junction dropped wrongly, so unbalanced does not mean different there. */
  lemma RepeatedComparisonHides(op: SimpleOperator, left: ValuePosition, right: ValuePosition, v: Valuation)
    ensures var x := Simple(op, left, right);
            var c := Or([x, And([Or([]), x])]);
            !BalancedWhere(c) && !AllDifferent(c) && EvalWhere(v, Flatten(c)) == Eval(v, c)
  {
    var x := Simple(op, left, right);
    var inner := And([Or([]), x]);
    var c := Or([x, inner]);
    assert Or([]) in inner.conditions && x in inner.conditions && inner in c.conditions && x in c.conditions;
    assert !Vacuous(x) && !Vacuous(inner) && Vacuous(Or([])) && !VacuousValue(Or([]));
    assert !Balanced(inner) && Occurs(x, x) && Occurs(x, inner);
    assert !Apart(x, inner) && !Apart(c.conditions[0], c.conditions[1]);
    assert !Eval(v, Or([])) && !Eval(v, inner);
    assert NeutralEval(v, inner) == v(x);
    assert forall c' | c' in c.conditions :: c' == x || c' == inner;
    assert NeutralEval(v, x) == v(x) && NeutralEval(v, c) == (NeutralEval(v, x) || NeutralEval(v, inner));
    assert Eval(v, c) == v(x);
    FlattenReadsNeutrally(v, c);
  }

  // ---- On rows ---------------------------------------------------------------

  predicate SubqueryFree(c: Condition) {
    match c
    case Simple(_, _, _) => true
    case And(cs) => forall c' | c' in cs :: SubqueryFree(c')
    case Or(cs) => forall c' | c' in cs :: SubqueryFree(c')
    case Subquery(_, _, _, _, _) => false
  }

  /** The meaning that gives every comparison its value. */
  function Reading(v: Valuation): Semantics {
    Semantics((op, left, right, row) => v(Simple(op, left, right)), (k, parent, row) => true, (start, limit, order, rows) => rows)
  }

  lemma OnlyComparisonsOccur(c: Condition, x: Condition)
    requires SubqueryFree(c) && Occurs(x, c)
    ensures x.Simple?
  {
    if c.And? || c.Or? {
      var c' :| c' in c.conditions && Occurs(x, c');
      OnlyComparisonsOccur(c', x);
    }
  }

  /** Without subqueries, a condition and what flattening makes of it hold as the values say. */
  lemma ReadingHolds(v: Valuation, db: Database, c: Condition)
    requires SubqueryFree(c)
    ensures Holds(Reading(v), db, c, []) == Eval(v, c)
    ensures WhereHolds(Reading(v), db, Flatten(c), []) <==> Vacuous(c) || NeutralEval(v, c)
  {
    var s := Reading(v);
    var w := OnRow(s, db, []);
    forall x | Occurs(x, c) ensures v(x) == w(x) {
      OnlyComparisonsOccur(c, x);
    }
    OnlyOccurring(v, w, c);
    FlattenReadsNeutrally(w, c);
    HoldsIsEval(s, db, c, []);
    if Flatten(c).Some? {
      HoldsIsEval(s, db, Flatten(c).value, []);
    }
  }

  /** Without subqueries, flattening an unbalanced `where` changes the rows it accepts, for some meaning of the comparisons. */
  lemma FlatteningChangesRows(c: Condition) returns (s: Semantics)
    requires SubqueryFree(c) && AllDifferent(c) && !BalancedWhere(c)
    ensures WhereHolds(s, map[], Flatten(c), []) != Holds(s, map[], c, [])
  {
    var v := FlatteningDiffers(c);
    s := Reading(v);
    ReadingHolds(v, map[], c);
    FlattenReadsNeutrally(v, c);
  }
}
