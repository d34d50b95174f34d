/**
 The order normalization sorts conditions by: `cmp_condition`, `cmp_related` and
 `cmp_value_position` of `crates/zero-cache-protocol/src/ast.rs`.

 The rendering of a number is a parameter. A comparison that meets two static
 references panics in the source; here it yields `None`.
 */
module Comparing {
  import opened Base
  import opened QueryAst

  datatype Order = Less | Equal | Greater

  type NumberFormat = real -> string

  function Reverse(o: Order): Order {
    match o
    case Less => Greater
    case Equal => Equal
    case Greater => Less
  }

  /** The first decisive comparison wins; later ones are not looked at. */
  function Then(first: Option<Order>, second: Option<Order>): Option<Order> {
    if first == Some(Equal) then second else first
  }

  function CmpInt(a: int, b: int): Order {
    if a < b then Less else if a == b then Equal else Greater
  }

  /** Lexicographic order of code points. */
  function CmpString(a: string, b: string): Order {
    if a == [] || b == [] then CmpInt(|a|, |b|)
    else if a[0] != b[0] then (if a[0] < b[0] then Less else Greater)
    else CmpString(a[1..], b[1..])
  }

  /** `undefined < false < true` */
  function OptionalBoolRank(b: Option<bool>): int {
    match b
    case None => 0
    case Some(v) => if v then 2 else 1
  }

  /** The alphabetical rank of "column", "literal" and "static". */
  function PositionRank(v: ValuePosition): int {
    match v
    case Column(_) => 0
    case Literal(_) => 1
    case Parameter(_) => 2
  }

  /** A literal the way JavaScript's `String()` renders it. */
  function RenderLiteral(fmt: NumberFormat, v: LiteralValue): string
    decreases v, 1
  {
    match v
    case LString(s) => s
    case LBool(b) => if b then "true" else "false"
    case LNull => "null"
    case LNumber(n) => fmt(n)
    case LArray(items) => RenderItems(fmt, items)
  }

  function RenderItems(fmt: NumberFormat, items: seq<LiteralValue>): string
    decreases items, 0
  {
    if items == [] then ""
    else if |items| == 1 then RenderLiteral(fmt, items[0])
    else RenderLiteral(fmt, items[0]) + "," + RenderItems(fmt, items[1..])
  }

  function CmpPosition(fmt: NumberFormat, a: ValuePosition, b: ValuePosition): Option<Order> {
    if PositionRank(a) != PositionRank(b) then Some(CmpInt(PositionRank(a), PositionRank(b)))
    else if a.Literal? && b.Literal? then Some(CmpString(RenderLiteral(fmt, a.value), RenderLiteral(fmt, b.value)))
    else if a.Column? && b.Column? then Some(CmpString(a.name, b.name))
    else None
  }

  function AliasOf(hop: CorrelatedSubquery): string {
    if hop.subquery.alias.Some? then hop.subquery.alias.value else ""
  }

  function CmpRelated(a: CorrelatedSubquery, b: CorrelatedSubquery): Order {
    CmpString(AliasOf(a), AliasOf(b))
  }

  /** "EXISTS" sorts before "NOT EXISTS". */
  function ExistsRank(op: ExistsOp): int {
    if op.Exists? then 0 else 1
  }

  /** "and" sorts before "or". */
  function JunctionRank(c: Condition): int
    requires c.And? || c.Or?
  {
    if c.And? then 0 else 1
  }

  function CmpCondition(fmt: NumberFormat, a: Condition, b: Condition): Option<Order>
    decreases a, 1
  {
    if a.Simple? then
      if b.Simple? then
        Then(CmpPosition(fmt, a.left, b.left),
        Then(Some(CmpString(OperatorString(a.op), OperatorString(b.op))),
             CmpPosition(fmt, a.right, b.right)))
      else Some(Less)
    else if b.Simple? then Some(Greater)
    else if a.Subquery? then
      if b.Subquery? then
        Then(Some(CmpRelated(a.related, b.related)),
        Then(Some(CmpInt(ExistsRank(a.existsOp), ExistsRank(b.existsOp))),
        Then(Some(CmpInt(OptionalBoolRank(a.flip), OptionalBoolRank(b.flip))),
             Some(CmpInt(OptionalBoolRank(a.scalar), OptionalBoolRank(b.scalar))))))
      else Some(Less)
    else if b.Subquery? then Some(Less)
    else Then(Some(CmpInt(JunctionRank(a), JunctionRank(b))), CmpChildren(fmt, a.conditions, b.conditions))
  }

  /** Child by child, then by length. */
  function CmpChildren(fmt: NumberFormat, a: seq<Condition>, b: seq<Condition>): Option<Order>
    decreases a, 0
  {
    if a == [] || b == [] then Some(CmpInt(|a|, |b|))
    else Then(CmpCondition(fmt, a[0], b[0]), CmpChildren(fmt, a[1..], b[1..]))
  }

  // ---- Where the comparison is consistent ------------------------------------

  /** The first place two conditions differ pits a subquery against a junction. */
  predicate Clash(fmt: NumberFormat, a: Condition, b: Condition)
    decreases a, 1
  {
    || (a.Subquery? && (b.And? || b.Or?))
    || (b.Subquery? && (a.And? || a.Or?))
    || (((a.And? && b.And?) || (a.Or? && b.Or?)) && ChildrenClash(fmt, a.conditions, b.conditions))
  }

  predicate ChildrenClash(fmt: NumberFormat, a: seq<Condition>, b: seq<Condition>)
    decreases a, 0
  {
    && a != [] && b != []
    && (Clash(fmt, a[0], b[0])
        || (CmpCondition(fmt, a[0], b[0]) == Some(Equal) && ChildrenClash(fmt, a[1..], b[1..])))
  }

  lemma {:induction false} CmpStringReverses(a: string, b: string)
    ensures CmpString(b, a) == Reverse(CmpString(a, b))
    ensures CmpString(a, b) == Equal <==> a == b
  {
    if a != [] && b != [] {
      CmpStringReverses(a[1..], b[1..]);
      assert a == [a[0]] + a[1..] && b == [b[0]] + b[1..];
    }
  }

  function ReverseOption(o: Option<Order>): Option<Order> {
    if o.Some? then Some(Reverse(o.value)) else None
  }

  lemma CmpPositionReverses(fmt: NumberFormat, a: ValuePosition, b: ValuePosition)
    ensures CmpPosition(fmt, b, a) == ReverseOption(CmpPosition(fmt, a, b))
  {
    if a.Literal? && b.Literal? {
      CmpStringReverses(RenderLiteral(fmt, a.value), RenderLiteral(fmt, b.value));
    } else if a.Column? && b.Column? {
      CmpStringReverses(a.name, b.name);
    }
  }

  /** The comparison is antisymmetric on exactly the pairs that do not clash. */
  lemma {:induction false} ComparisonReversesUnlessClash(fmt: NumberFormat, a: Condition, b: Condition)
    ensures CmpCondition(fmt, b, a) == ReverseOption(CmpCondition(fmt, a, b)) <==> !Clash(fmt, a, b)
    ensures Clash(fmt, a, b) ==> CmpCondition(fmt, a, b) == CmpCondition(fmt, b, a) == Some(Less)
    decreases a, 1
  {
    if a.Simple? && b.Simple? {
      CmpPositionReverses(fmt, a.left, b.left);
      CmpPositionReverses(fmt, a.right, b.right);
      CmpStringReverses(OperatorString(a.op), OperatorString(b.op));
    } else if a.Subquery? && b.Subquery? {
      CmpStringReverses(AliasOf(a.related), AliasOf(b.related));
    } else if (a.And? && b.And?) || (a.Or? && b.Or?) {
      ChildrenReverseUnlessClash(fmt, a.conditions, b.conditions);
    }
  }

  lemma {:induction false} ChildrenReverseUnlessClash(fmt: NumberFormat, a: seq<Condition>, b: seq<Condition>)
    ensures CmpChildren(fmt, b, a) == ReverseOption(CmpChildren(fmt, a, b)) <==> !ChildrenClash(fmt, a, b)
    ensures ChildrenClash(fmt, a, b) ==> CmpChildren(fmt, a, b) == CmpChildren(fmt, b, a) == Some(Less)
    decreases a, 0
  {
    if a != [] && b != [] {
      ComparisonReversesUnlessClash(fmt, a[0], b[0]);
      ChildrenReverseUnlessClash(fmt, a[1..], b[1..]);
    }
  }

  /** Two comparisons that do not go down chain to a third that goes strictly up unless both were ties. */
  predicate Chains(ab: Option<Order>, bc: Option<Order>, ac: Option<Order>) {
    ab.Some? && bc.Some? && ab.value != Greater && bc.value != Greater ==>
      ac == Some(if ab.value == Equal && bc.value == Equal then Equal else Less)
  }

  lemma {:induction false} StringsChain(a: string, b: string, c: string)
    ensures Chains(Some(CmpString(a, b)), Some(CmpString(b, c)), Some(CmpString(a, c)))
  {
    if a != [] && b != [] && c != [] {
      StringsChain(a[1..], b[1..], c[1..]);
    }
  }
}
