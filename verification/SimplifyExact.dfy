/**
 Exactly which conditions simplification leaves alone, which ones a second pass would
 simplify further, and that a third pass never does anything.
 */
module SimplifyExact {
  import opened Base
  import opened QueryAst
  import opened Normalizing
  import opened NormalizedMeaning
  import opened ReadAuthorizer

  // ---- What is left alone ----------------------------------------------------

  /** Nothing to do anywhere: no junction with one child, and no child that is empty or of its junction's own type. */
  predicate Settled(c: Condition) {
    (c.And? || c.Or?) ==>
      && |c.conditions| != 1
      && forall c' | c' in c.conditions :: !IsJunction(c.And?, c') && c' != Junction(!c.And?, []) && Settled(c')
  }

  lemma {:induction false} SettledIsFixed(c: Condition)
    requires Settled(c)
    ensures SimplifyCondition(c) == c
  {
    if c.And? || c.Or? {
      var cs := c.conditions;
      forall i | 0 <= i < |cs| ensures SimplifyAll(cs)[i] == cs[i] {
        assert cs[i] in cs;
        SettledIsFixed(cs[i]);
      }
      assert SimplifyAll(cs) == cs;
      NothingToSplice(c.And?, cs);
    }
  }

  lemma {:induction false} NothingToSplice(isAnd: bool, cs: seq<Condition>)
    requires forall c | c in cs :: !IsJunction(isAnd, c)
    ensures Splice(isAnd, cs) == cs
  {
    if cs != [] {
      NothingToSplice(isAnd, cs[1..]);
      assert cs[0] in cs;
    }
  }

  /** Simplification never grows a condition, and shrinks one that is not settled. */
  lemma {:induction false} UnsettledShrinks(c: Condition)
    ensures Size(SimplifyCondition(c)) <= Size(c)
    ensures !Settled(c) ==> Size(SimplifyCondition(c)) < Size(c)
    decreases c, 2
  {
    if c.And? || c.Or? {
      var cs := c.conditions;
      if |cs| == 1 {
        UnsettledShrinks(cs[0]);
        assert SizeAll(cs) == Size(cs[0]) + SizeAll([]);
      } else {
        PartsShrink(c.And?, cs);
        if d :| d in cs && d == Junction(!c.And?, []) {
          MembersAreSmaller(cs);
          AbsorbedShrinks(c.And?, cs);
        }
      }
    }
  }

  lemma AbsorbedShrinks(isAnd: bool, cs: seq<Condition>)
    requires |cs| != 1 && Junction(!isAnd, []) in cs
    ensures Size(SimplifyCompound(isAnd, cs)) < 1 + SizeAll(cs)
  {
    var i :| 0 <= i < |cs| && cs[i] == Junction(!isAnd, []);
    ConstantsStay(!isAnd);
    assert SimplifyAll(cs)[i] in SimplifyAll(cs) && Junction(!isAnd, []) in Spliced(isAnd, Junction(!isAnd, []));
    SpliceMembers(isAnd, SimplifyAll(cs), Junction(!isAnd, []));
    MembersAreSmaller(cs);
    assert Size(Junction(!isAnd, [])) == 1;
  }

  lemma ConstantsStay(b: bool)
    ensures SimplifyCondition(Junction(b, [])) == Junction(b, [])
  {
    assert SimplifyAll([]) == [];
  }

  lemma {:induction false} SpliceMembers(isAnd: bool, cs: seq<Condition>, x: Condition)
    ensures x in Splice(isAnd, cs) <==> exists c | c in cs :: x in Spliced(isAnd, c)
  {
    if cs != [] {
      SpliceMembers(isAnd, cs[1..], x);
      assert forall c :: c in cs <==> c == cs[0] || c in cs[1..];
    }
  }

  lemma {:induction false} PartsShrink(isAnd: bool, cs: seq<Condition>)
    ensures SizeAll(Splice(isAnd, SimplifyAll(cs))) <= SizeAll(cs)
    ensures (exists c | c in cs :: IsJunction(isAnd, c) || !Settled(c)) ==> SizeAll(Splice(isAnd, SimplifyAll(cs))) < SizeAll(cs)
    decreases cs, 1
  {
    if cs != [] {
      var first, rest := Spliced(isAnd, SimplifyCondition(cs[0])), Splice(isAnd, SimplifyAll(cs[1..]));
      assert SimplifyAll(cs)[1..] == SimplifyAll(cs[1..]);
      UnsettledShrinks(cs[0]);
      if Settled(cs[0]) {
        SettledIsFixed(cs[0]);
      }
      PartsShrink(isAnd, cs[1..]);
      SizeOfConcat(first, rest);
      assert SizeAll([SimplifyCondition(cs[0])]) == Size(SimplifyCondition(cs[0])) + SizeAll([]);
      assert forall c :: c in cs <==> c == cs[0] || c in cs[1..];
    }
  }

  /** Simplification leaves a condition alone exactly when it is settled. */
  lemma FixedExactly(c: Condition)
    ensures SimplifyCondition(c) == c <==> Settled(c)
  {
    UnsettledShrinks(c);
    if Settled(c) {
      SettledIsFixed(c);
    }
  }

  // ---- Constants -------------------------------------------------------------

  /** The truth value a condition has whatever its comparisons say, as far as its junctions tell. */
  function Known(c: Condition): Option<bool> {
    if !c.And? && !c.Or? then None
    else if exists c' | c' in c.conditions :: Known(c') == Some(!c.And?) then Some(!c.And?)
    else if forall c' | c' in c.conditions :: Known(c') == Some(c.And?) then Some(c.And?)
    else None
  }

  lemma {:induction false} SpliceIsEmpty(isAnd: bool, cs: seq<Condition>)
    ensures Splice(isAnd, cs) == [] <==> forall c | c in cs :: c == Junction(isAnd, [])
  {
    if cs != [] {
      SpliceIsEmpty(isAnd, cs[1..]);
      assert Spliced(isAnd, cs[0]) == [] <==> cs[0] == Junction(isAnd, []);
      assert Splice(isAnd, cs) == [] <==> Spliced(isAnd, cs[0]) == [] && Splice(isAnd, cs[1..]) == [];
      assert cs[0] in cs && forall c :: c in cs <==> c == cs[0] || c in cs[1..];
    }
  }

  /** A constant is the outcome exactly when the value is known. */
  lemma {:induction false} KnownIsConstant(c: Condition, b: bool)
    ensures SimplifyCondition(c) == Junction(b, []) <==> Known(c) == Some(b)
  {
    if c.And? || c.Or? {
      var isAnd, cs, simple := c.And?, c.conditions, SimplifyAll(c.conditions);
      forall i | 0 <= i < |cs|
        ensures simple[i] == Junction(isAnd, []) <==> Known(cs[i]) == Some(isAnd)
        ensures simple[i] == Junction(!isAnd, []) <==> Known(cs[i]) == Some(!isAnd)
        ensures Tidy(simple[i])
      {
        KnownIsConstant(cs[i], isAnd);
        KnownIsConstant(cs[i], !isAnd);
        SimplifyIsTidy(cs[i]);
      }
      ChildrenByIndex(isAnd, cs, simple);
      if |cs| == 1 {
        assert cs[0] in cs && cs == [cs[0]];
      } else {
        SpliceIsEmpty(isAnd, simple);
        AbsorbedBySplice(isAnd, simple);
      }
    }
  }

  lemma ChildrenByIndex(isAnd: bool, cs: seq<Condition>, simple: seq<Condition>)
    requires |simple| == |cs|
    requires forall i | 0 <= i < |cs| :: simple[i] == Junction(isAnd, []) <==> Known(cs[i]) == Some(isAnd)
    requires forall i | 0 <= i < |cs| :: simple[i] == Junction(!isAnd, []) <==> Known(cs[i]) == Some(!isAnd)
    ensures Junction(!isAnd, []) in simple <==> exists c | c in cs :: Known(c) == Some(!isAnd)
    ensures (forall c | c in simple :: c == Junction(isAnd, [])) <==> forall c | c in cs :: Known(c) == Some(isAnd)
  {
    if c :| c in cs && Known(c) == Some(!isAnd) {
      var i :| 0 <= i < |cs| && cs[i] == c;
      assert simple[i] in simple;
    }
    if c :| c in cs && Known(c) != Some(isAnd) {
      var i :| 0 <= i < |cs| && cs[i] == c;
      assert simple[i] in simple;
    }
    if c :| c in simple && c != Junction(isAnd, []) {
      var i :| 0 <= i < |cs| && simple[i] == c;
      assert cs[i] in cs;
    }
  }

  lemma AbsorbedBySplice(isAnd: bool, simple: seq<Condition>)
    requires forall i | 0 <= i < |simple| :: Tidy(simple[i])
    ensures Junction(!isAnd, []) in Splice(isAnd, simple) <==> Junction(!isAnd, []) in simple
  {
    SpliceMembers(isAnd, simple, Junction(!isAnd, []));
    forall c | c in simple ensures Junction(!isAnd, []) in Spliced(isAnd, c) <==> c == Junction(!isAnd, []) {
    }
  }

  /** A known value is the value, and an unknown one is whatever all comparisons and subqueries agree on. */
  lemma {:induction false} KnownIsValue(c: Condition, v: Valuation, b: bool)
    ensures Known(c).Some? ==> Eval(v, c) == Known(c).value
    ensures Known(c).None? ==> Eval(x => b, c) == b
  {
    if c.And? || c.Or? {
      forall c' | c' in c.conditions
        ensures Known(c').Some? ==> Eval(v, c') == Eval(x => b, c') == Known(c').value
        ensures Known(c').None? ==> Eval(x => b, c') == b
      {
        KnownIsValue(c', v, b);
        KnownIsValue(c', x => b, b);
      }
    }
  }

  /** A condition simplifies to a constant exactly when it has that value whatever its comparisons and subqueries say. */
  lemma ConstantExactly(c: Condition, b: bool)
    ensures SimplifyCondition(c) == Junction(b, []) <==> forall v: Valuation :: Eval(v, c) == b
  {
    KnownIsConstant(c, b);
    if Known(c) == Some(b) {
      forall v: Valuation ensures Eval(v, c) == b {
        KnownIsValue(c, v, b);
      }
    } else {
      var other: Valuation := x => !b;
      KnownIsValue(c, other, !b);
    }
  }

  // ---- What a second pass would still do -------------------------------------

  /** The condition inside junctions with one child. */
  function Core(c: Condition): (d: Condition)
    ensures Size(d) <= Size(c) && Known(d) == Known(c) && SimplifyCondition(d) == SimplifyCondition(c)
    ensures (d.And? || d.Or?) ==> |d.conditions| != 1
  {
    if (c.And? || c.Or?) && |c.conditions| == 1 then
      assert c.conditions == [c.conditions[0]];
      assert SizeAll(c.conditions) == Size(c.conditions[0]) + SizeAll([]);
      Core(c.conditions[0])
    else c
  }

  /** The children that count: constants dropped, those of the junction's own type replaced by theirs. */
  function Parts(isAnd: bool, cs: seq<Condition>): (parts: seq<Condition>)
    ensures SizeAll(parts) <= SizeAll(cs)
    decreases SizeAll(cs), |cs|
  {
    if cs == [] then []
    else
      var d := Core(cs[0]);
      var first := if Known(d).Some? then [] else if IsJunction(isAnd, d) then Parts(isAnd, d.conditions) else [d];
      assert SizeAll([d]) == Size(d) + SizeAll([]);
      SizeOfConcat(first, Parts(isAnd, cs[1..]));
      first + Parts(isAnd, cs[1..])
  }

  /** No junction of several children is left with a single part that counts. */
  predicate Steady(c: Condition)
    decreases Size(c)
  {
    var d := Core(c);
    (d.And? || d.Or?) && Known(d).None? ==>
      var parts := Parts(d.And?, d.conditions);
      MembersAreSmaller(parts);
      |parts| != 1 && forall p | p in parts :: Steady(p)
  }

  lemma SimplifyAllConcat(a: seq<Condition>, b: seq<Condition>)
    ensures SimplifyAll(a + b) == SimplifyAll(a) + SimplifyAll(b)
  {
  }

  /** A junction whose value is not known keeps its type. */
  lemma UnknownStays(d: Condition)
    requires (d.And? || d.Or?) && |d.conditions| != 1 && Known(d).None?
    ensures SimplifyCondition(d) == Junction(d.And?, Splice(d.And?, SimplifyAll(d.conditions)))
    ensures forall c | c in d.conditions :: Known(c) != Some(!d.And?)
  {
    KnownIsConstant(d, !d.And?);
  }

  lemma {:induction false} SplicedParts(isAnd: bool, cs: seq<Condition>)
    requires forall c | c in cs :: Known(c) != Some(!isAnd)
    ensures Splice(isAnd, SimplifyAll(cs)) == SimplifyAll(Parts(isAnd, cs))
    decreases SizeAll(cs), |cs|
  {
    if cs != [] {
      var d, rest := Core(cs[0]), Parts(isAnd, cs[1..]);
      assert SimplifyAll(cs)[1..] == SimplifyAll(cs[1..]);
      assert cs[0] in cs;
      SplicedParts(isAnd, cs[1..]);
      var first := if Known(d).Some? then [] else if IsJunction(isAnd, d) then Parts(isAnd, d.conditions) else [d];
      assert Spliced(isAnd, SimplifyCondition(d)) == SimplifyAll(first) by {
        if Known(d).Some? {
          KnownIsConstant(d, isAnd);
        } else if IsJunction(isAnd, d) {
          UnknownStays(d);
          SplicedParts(isAnd, d.conditions);
        } else {
          OtherPart(isAnd, d);
        }
      }
      SimplifyAllConcat(first, rest);
    }
  }

  lemma OtherPart(isAnd: bool, d: Condition)
    requires Known(d).None? && !IsJunction(isAnd, d) && ((d.And? || d.Or?) ==> |d.conditions| != 1)
    ensures Spliced(isAnd, SimplifyCondition(d)) == SimplifyAll([d])
  {
    if d.And? || d.Or? {
      UnknownStays(d);
    }
    assert SimplifyAll([d]) == [SimplifyCondition(d)];
  }

  /** No junction with exactly one child. */
  predicate NoSingle(c: Condition) {
    (c.And? || c.Or?) ==> |c.conditions| != 1 && forall c' | c' in c.conditions :: NoSingle(c')
  }

  lemma {:induction false} TidyIsSettled(c: Condition)
    requires Tidy(c)
    ensures Settled(c) <==> NoSingle(c)
  {
    if c.And? || c.Or? {
      forall c' | c' in c.conditions ensures Settled(c') <==> NoSingle(c') {
        TidyIsSettled(c');
      }
    }
  }

  lemma {:induction false} SteadyLeavesNoSingle(c: Condition)
    ensures NoSingle(SimplifyCondition(c)) <==> Steady(c)
    decreases Size(c)
  {
    var d := Core(c);
    if Known(d).Some? {
      KnownIsConstant(d, Known(d).value);
    } else if d.And? || d.Or? {
      var parts := Parts(d.And?, d.conditions);
      UnknownStays(d);
      SplicedParts(d.And?, d.conditions);
      MembersAreSmaller(parts);
      var simple := SimplifyAll(parts);
      forall i | 0 <= i < |parts| ensures NoSingle(simple[i]) <==> Steady(parts[i]) {
        SteadyLeavesNoSingle(parts[i]);
      }
      SteadyByIndex(parts, simple);
    }
  }

  lemma SteadyByIndex(parts: seq<Condition>, simple: seq<Condition>)
    requires |simple| == |parts| && forall i | 0 <= i < |parts| :: NoSingle(simple[i]) <==> Steady(parts[i])
    ensures (forall c | c in simple :: NoSingle(c)) <==> forall p | p in parts :: Steady(p)
  {
    forall p | p in parts ensures (forall c | c in simple :: NoSingle(c)) ==> Steady(p) {
      var i :| 0 <= i < |parts| && parts[i] == p;
      assert simple[i] in simple;
    }
  }

  /** A second pass changes nothing exactly when the condition is steady. */
  lemma SimplifyIsIdempotentExactly(c: Condition)
    ensures SimplifyCondition(SimplifyCondition(c)) == SimplifyCondition(c) <==> Steady(c)
  {
    SimplifyIsTidy(c);
    FixedExactly(SimplifyCondition(c));
    TidyIsSettled(SimplifyCondition(c));
    SteadyLeavesNoSingle(c);
  }

  /** A second pass can be needed: the test for a single child comes before constants are dropped. */
  lemma SecondPassIsNeeded(op: SimpleOperator, left: ValuePosition, right: ValuePosition)
    ensures var x := Simple(op, left, right);
            var c := And([And([]), x]);
            SimplifyCondition(c) == And([x]) && SimplifyCondition(SimplifyCondition(c)) == x
  {
    var x := Simple(op, left, right);
    var cs := [And([]), x];
    ConstantsStay(true);
    assert SimplifyAll(cs)[0] == SimplifyCondition(cs[0]) == And([]) && SimplifyAll(cs)[1] == SimplifyCondition(cs[1]) == x;
    assert SimplifyAll(cs) == cs && cs[1..] == [x] && [x][1..] == [];
    assert Splice(true, cs) == [x];
  }

  // ---- When one pass is enough -----------------------------------------------

  lemma {:induction false} NonEmptyIsUnknown(c: Condition)
    requires NoEmptyJunction(c)
    ensures Known(c) == None && NoEmptyJunction(Core(c))
  {
    if c.And? || c.Or? {
      forall c' | c' in c.conditions ensures Known(c') == None && NoEmptyJunction(Core(c')) {
        NonEmptyIsUnknown(c');
      }
      assert c.conditions[0] in c.conditions;
    }
  }

  lemma {:induction false} NonEmptyParts(isAnd: bool, cs: seq<Condition>)
    requires forall c | c in cs :: NoEmptyJunction(c)
    ensures |Parts(isAnd, cs)| >= |cs| && forall p | p in Parts(isAnd, cs) :: NoEmptyJunction(p)
    decreases SizeAll(cs), |cs|
  {
    if cs != [] {
      assert cs[0] in cs;
      var d := Core(cs[0]);
      NonEmptyIsUnknown(cs[0]);
      NonEmptyParts(isAnd, cs[1..]);
      if IsJunction(isAnd, d) {
        NonEmptyParts(isAnd, d.conditions);
      }
    }
  }

  /** Without empty junctions, one pass is enough. */
  lemma {:induction false} NonEmptyIsSteady(c: Condition)
    requires NoEmptyJunction(c)
    ensures Steady(c)
    decreases Size(c)
  {
    var d := Core(c);
    NonEmptyIsUnknown(c);
    if d.And? || d.Or? {
      var parts := Parts(d.And?, d.conditions);
      NonEmptyParts(d.And?, d.conditions);
      MembersAreSmaller(parts);
      forall p | p in parts ensures Steady(p) {
        NonEmptyIsSteady(p);
      }
    }
  }

  lemma {:induction false} TidyHasNoEmpty(c: Condition)
    requires Tidy(c) && c != TrueCondition && c != FalseCondition
    ensures NoEmptyJunction(c)
  {
    if c.And? || c.Or? {
      forall c' | c' in c.conditions ensures NoEmptyJunction(c') {
        TidyHasNoEmpty(c');
      }
    }
  }

  /** For every condition, a third pass changes nothing. */
  lemma TwoPassesAreEnough(c: Condition)
    ensures var twice := SimplifyCondition(SimplifyCondition(c)); SimplifyCondition(twice) == twice
  {
    var once := SimplifyCondition(c);
    SimplifyIsTidy(c);
    if once == TrueCondition || once == FalseCondition {
      FixedExactly(once);
    } else {
      TidyHasNoEmpty(once);
      NonEmptyIsSteady(once);
      SimplifyIsIdempotentExactly(once);
    }
  }
}
