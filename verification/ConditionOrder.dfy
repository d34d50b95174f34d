/**
 Where `CmpCondition` is a total order: on conditions without subqueries and static
 references whose literals render differently.
 */
module ConditionOrder {
  import opened Base
  import opened QueryAst
  import opened Comparing

  /** Rendering tells the literals of the set apart. */
  ghost predicate Distinguishes(fmt: NumberFormat, literals: iset<LiteralValue>) {
    forall a, b | a in literals && b in literals && RenderLiteral(fmt, a) == RenderLiteral(fmt, b) :: a == b
  }

  ghost predicate PlainPosition(v: ValuePosition, literals: iset<LiteralValue>) {
    v.Column? || (v.Literal? && v.value in literals)
  }

  /** No subquery and no static reference, and every literal drawn from the set. */
  ghost predicate Plain(c: Condition, literals: iset<LiteralValue>) {
    match c
    case Simple(_, left, right) => PlainPosition(left, literals) && PlainPosition(right, literals)
    case And(cs) => forall c' | c' in cs :: Plain(c', literals)
    case Or(cs) => forall c' | c' in cs :: Plain(c', literals)
    case Subquery(_, _, _, _, _) => false
  }

  ghost predicate AllPlain(cs: seq<Condition>, literals: iset<LiteralValue>) {
    forall c | c in cs :: Plain(c, literals)
  }

  /** String literals are always told apart, whatever the rendering of numbers. */
  lemma StringsAreDistinguished(fmt: NumberFormat)
    ensures Distinguishes(fmt, iset l: LiteralValue | l.LString?)
  {
  }

  // ---- Equal means identical -------------------------------------------------

  lemma EqualPositions(fmt: NumberFormat, literals: iset<LiteralValue>, a: ValuePosition, b: ValuePosition)
    requires Distinguishes(fmt, literals) && PlainPosition(a, literals) && PlainPosition(b, literals)
    ensures CmpPosition(fmt, a, b).Some?
    ensures CmpPosition(fmt, a, b) == Some(Equal) <==> a == b
  {
    if a.Literal? && b.Literal? {
      CmpStringReverses(RenderLiteral(fmt, a.value), RenderLiteral(fmt, b.value));
    } else if a.Column? && b.Column? {
      CmpStringReverses(a.name, b.name);
    }
  }

  lemma {:induction false} EqualMeansIdentical(fmt: NumberFormat, literals: iset<LiteralValue>, a: Condition, b: Condition)
    requires Distinguishes(fmt, literals) && Plain(a, literals) && Plain(b, literals)
    ensures CmpCondition(fmt, a, b).Some?
    ensures CmpCondition(fmt, a, b) == Some(Equal) <==> a == b
    decreases a, 1
  {
    if a.Simple? && b.Simple? {
      EqualPositions(fmt, literals, a.left, b.left);
      EqualPositions(fmt, literals, a.right, b.right);
      CmpStringReverses(OperatorString(a.op), OperatorString(b.op));
      OperatorRoundTrip(a.op);
      OperatorRoundTrip(b.op);
    } else if !a.Simple? && !b.Simple? {
      EqualChildrenAreIdentical(fmt, literals, a.conditions, b.conditions);
    }
  }

  lemma {:induction false} EqualChildrenAreIdentical(fmt: NumberFormat, literals: iset<LiteralValue>, a: seq<Condition>, b: seq<Condition>)
    requires Distinguishes(fmt, literals) && AllPlain(a, literals) && AllPlain(b, literals)
    ensures CmpChildren(fmt, a, b).Some?
    ensures CmpChildren(fmt, a, b) == Some(Equal) <==> a == b
    decreases a, 0
  {
    if a != [] && b != [] {
      EqualMeansIdentical(fmt, literals, a[0], b[0]);
      EqualChildrenAreIdentical(fmt, literals, a[1..], b[1..]);
      assert a == [a[0]] + a[1..] && b == [b[0]] + b[1..];
    }
  }

  // ---- Either way round ------------------------------------------------------

  lemma {:induction false} PlainNeverClash(fmt: NumberFormat, literals: iset<LiteralValue>, a: Condition, b: Condition)
    requires Plain(a, literals) && Plain(b, literals)
    ensures !Clash(fmt, a, b)
    decreases a, 1
  {
    if !a.Simple? && !b.Simple? {
      PlainChildrenNeverClash(fmt, literals, a.conditions, b.conditions);
    }
  }

  lemma {:induction false} PlainChildrenNeverClash(fmt: NumberFormat, literals: iset<LiteralValue>, a: seq<Condition>, b: seq<Condition>)
    requires AllPlain(a, literals) && AllPlain(b, literals)
    ensures !ChildrenClash(fmt, a, b)
    decreases a, 0
  {
    if a != [] && b != [] {
      PlainNeverClash(fmt, literals, a[0], b[0]);
      PlainChildrenNeverClash(fmt, literals, a[1..], b[1..]);
    }
  }

  // ---- Transitivity ----------------------------------------------------------

  lemma PositionsChain(fmt: NumberFormat, a: ValuePosition, b: ValuePosition, c: ValuePosition)
    ensures Chains(CmpPosition(fmt, a, b), CmpPosition(fmt, b, c), CmpPosition(fmt, a, c))
  {
    if a.Literal? && b.Literal? && c.Literal? {
      StringsChain(RenderLiteral(fmt, a.value), RenderLiteral(fmt, b.value), RenderLiteral(fmt, c.value));
    } else if a.Column? && b.Column? && c.Column? {
      StringsChain(a.name, b.name, c.name);
    }
  }

  /** Among conditions of which no two clash, the comparison is transitive. */
  lemma {:induction false} ConditionsChain(fmt: NumberFormat, a: Condition, b: Condition, c: Condition)
    requires !Clash(fmt, a, b) && !Clash(fmt, b, c) && !Clash(fmt, a, c)
    ensures Chains(CmpCondition(fmt, a, b), CmpCondition(fmt, b, c), CmpCondition(fmt, a, c))
    decreases a, 1
  {
    if a.Simple? && b.Simple? && c.Simple? {
      PositionsChain(fmt, a.left, b.left, c.left);
      PositionsChain(fmt, a.right, b.right, c.right);
      StringsChain(OperatorString(a.op), OperatorString(b.op), OperatorString(c.op));
    } else if a.Subquery? && b.Subquery? && c.Subquery? {
      StringsChain(AliasOf(a.related), AliasOf(b.related), AliasOf(c.related));
    } else if (a.And? && b.And? && c.And?) || (a.Or? && b.Or? && c.Or?) {
      ChildrenChain(fmt, a.conditions, b.conditions, c.conditions);
    }
  }

  lemma {:induction false} ChildrenChain(fmt: NumberFormat, a: seq<Condition>, b: seq<Condition>, c: seq<Condition>)
    requires !ChildrenClash(fmt, a, b) && !ChildrenClash(fmt, b, c) && !ChildrenClash(fmt, a, c)
    ensures Chains(CmpChildren(fmt, a, b), CmpChildren(fmt, b, c), CmpChildren(fmt, a, c))
    decreases a, 0
  {
    if a != [] && b != [] && c != [] {
      ConditionsChain(fmt, a[0], b[0], c[0]);
      if CmpCondition(fmt, a[0], b[0]) == Some(Equal) && CmpCondition(fmt, b[0], c[0]) == Some(Equal) {
        ChildrenChain(fmt, a[1..], b[1..], c[1..]);
      }
    }
  }

  // ---- Sorting ---------------------------------------------------------------

  /** `a` may stand before `b` in sorted order. */
  predicate Leq(fmt: NumberFormat, a: Condition, b: Condition) {
    CmpCondition(fmt, a, b) != Some(Greater)
  }

  /** On plain conditions the comparison is a total order whose ties are identities. */
  lemma ComparisonIsTotalOrder(fmt: NumberFormat, literals: iset<LiteralValue>, a: Condition, b: Condition, c: Condition)
    requires Distinguishes(fmt, literals) && AllPlain([a, b, c], literals)
    ensures Leq(fmt, a, b) || Leq(fmt, b, a)
    ensures Leq(fmt, a, b) && Leq(fmt, b, a) ==> a == b
    ensures Leq(fmt, a, b) && Leq(fmt, b, c) ==> Leq(fmt, a, c)
  {
    assert a in [a, b, c] && b in [a, b, c] && c in [a, b, c];
    EqualMeansIdentical(fmt, literals, a, b);
    EqualMeansIdentical(fmt, literals, b, c);
    PlainNeverClash(fmt, literals, a, b);
    ComparisonReversesUnlessClash(fmt, a, b);
    PlainNeverClash(fmt, literals, b, c);
    PlainNeverClash(fmt, literals, a, c);
    ConditionsChain(fmt, a, b, c);
  }

  /** The stable sort, as far as the comparison is consistent. */
  function SortConditions(fmt: NumberFormat, cs: seq<Condition>): seq<Condition> {
    if cs == [] then [] else Insert(fmt, cs[0], SortConditions(fmt, cs[1..]))
  }

  function Insert(fmt: NumberFormat, c: Condition, sorted: seq<Condition>): seq<Condition> {
    if sorted == [] || Leq(fmt, c, sorted[0]) then [c] + sorted
    else [sorted[0]] + Insert(fmt, c, sorted[1..])
  }

  lemma {:induction false} InsertPermutes(fmt: NumberFormat, c: Condition, cs: seq<Condition>)
    ensures multiset(Insert(fmt, c, cs)) == multiset{c} + multiset(cs)
  {
    if cs != [] && !Leq(fmt, c, cs[0]) {
      InsertPermutes(fmt, c, cs[1..]);
      assert cs == [cs[0]] + cs[1..];
    }
  }

  lemma {:induction false} SortPermutes(fmt: NumberFormat, cs: seq<Condition>)
    ensures multiset(SortConditions(fmt, cs)) == multiset(cs)
  {
    if cs != [] {
      SortPermutes(fmt, cs[1..]);
      InsertPermutes(fmt, cs[0], SortConditions(fmt, cs[1..]));
      assert cs == [cs[0]] + cs[1..];
    }
  }

  ghost predicate Sorted(fmt: NumberFormat, cs: seq<Condition>) {
    forall i, j | 0 <= i < j < |cs| :: Leq(fmt, cs[i], cs[j])
  }

  lemma {:induction false} InsertSorts(fmt: NumberFormat, literals: iset<LiteralValue>, c: Condition, cs: seq<Condition>)
    requires Distinguishes(fmt, literals) && Plain(c, literals) && AllPlain(cs, literals) && Sorted(fmt, cs)
    ensures Sorted(fmt, Insert(fmt, c, cs))
  {
    if cs != [] {
      if Leq(fmt, c, cs[0]) {
        forall j | 1 <= j < |cs| ensures Leq(fmt, c, cs[j]) {
          ComparisonIsTotalOrder(fmt, literals, c, cs[0], cs[j]);
        }
      } else {
        ComparisonIsTotalOrder(fmt, literals, c, cs[0], cs[0]);
        InsertSorts(fmt, literals, c, cs[1..]);
        InsertPermutes(fmt, c, cs[1..]);
        var rest := Insert(fmt, c, cs[1..]);
        forall j | 0 <= j < |rest| ensures Leq(fmt, cs[0], rest[j]) {
          assert rest[j] in multiset(rest);
          assert rest[j] == c || rest[j] in cs[1..];
        }
      }
    }
  }

  lemma {:induction false} SortSorts(fmt: NumberFormat, literals: iset<LiteralValue>, cs: seq<Condition>)
    requires Distinguishes(fmt, literals) && AllPlain(cs, literals)
    ensures Sorted(fmt, SortConditions(fmt, cs))
    ensures AllPlain(SortConditions(fmt, cs), literals)
  {
    SortPermutes(fmt, cs);
    forall c | c in SortConditions(fmt, cs) ensures Plain(c, literals) {
      assert c in multiset(SortConditions(fmt, cs));
    }
    if cs != [] {
      SortSorts(fmt, literals, cs[1..]);
      InsertSorts(fmt, literals, cs[0], SortConditions(fmt, cs[1..]));
    }
  }

  lemma SortedHeadLeq(fmt: NumberFormat, literals: iset<LiteralValue>, a: seq<Condition>, c: Condition)
    requires Distinguishes(fmt, literals) && AllPlain(a, literals) && Sorted(fmt, a) && c in a
    ensures Leq(fmt, a[0], c)
  {
    EqualMeansIdentical(fmt, literals, a[0], a[0]);
    var i :| 0 <= i < |a| && a[i] == c;
  }

  lemma SameHead(fmt: NumberFormat, literals: iset<LiteralValue>, a: seq<Condition>, b: seq<Condition>)
    requires Distinguishes(fmt, literals) && AllPlain(a, literals) && AllPlain(b, literals)
    requires Sorted(fmt, a) && Sorted(fmt, b) && a != [] && b != [] && a[0] in b && b[0] in a
    ensures a[0] == b[0]
  {
    SortedHeadLeq(fmt, literals, a, b[0]);
    SortedHeadLeq(fmt, literals, b, a[0]);
    ComparisonIsTotalOrder(fmt, literals, a[0], b[0], a[0]);
  }

  lemma SameTail<T>(a: seq<T>, b: seq<T>)
    requires a != [] && b != [] && a[0] == b[0] && multiset(a) == multiset(b)
    ensures multiset(a[1..]) == multiset(b[1..])
  {
    assert a == [a[0]] + a[1..] && b == [b[0]] + b[1..];
    assert multiset(a[1..]) == multiset(a) - multiset{a[0]};
    assert multiset(b[1..]) == multiset(b) - multiset{b[0]};
  }

  /** Two sorted arrangements of the same plain conditions are the same sequence. */
  lemma {:induction false} SortedIsUnique(fmt: NumberFormat, literals: iset<LiteralValue>, a: seq<Condition>, b: seq<Condition>)
    requires Distinguishes(fmt, literals) && AllPlain(a, literals) && AllPlain(b, literals)
    requires Sorted(fmt, a) && Sorted(fmt, b) && multiset(a) == multiset(b)
    ensures a == b
  {
    assert |a| == |multiset(a)| == |multiset(b)| == |b|;
    if a != [] {
      assert a[0] in multiset(b) && b[0] in multiset(a);
      SameHead(fmt, literals, a, b);
      SameTail(a, b);
      SortedIsUnique(fmt, literals, a[1..], b[1..]);
      assert a == [a[0]] + a[1..] && b == [b[0]] + b[1..];
    }
  }

  /** Sorting forgets the order its input came in. */
  lemma SortForgetsOrder(fmt: NumberFormat, literals: iset<LiteralValue>, a: seq<Condition>, b: seq<Condition>)
    requires Distinguishes(fmt, literals) && AllPlain(a, literals) && AllPlain(b, literals)
    requires multiset(a) == multiset(b)
    ensures SortConditions(fmt, a) == SortConditions(fmt, b)
  {
    SortSorts(fmt, literals, a);
    SortSorts(fmt, literals, b);
    SortPermutes(fmt, a);
    SortPermutes(fmt, b);
    SortedIsUnique(fmt, literals, SortConditions(fmt, a), SortConditions(fmt, b));
  }
}
