/**
 Which order the comparison of conditions is: kinds first, then the parts in turn, strings
 by their first differing character, lists by their first differing member.
 */
module ComparisonExact {
  import opened Base
  import opened QueryAst
  import opened Comparing
  import AstJson

  // ---- Strings and words -----------------------------------------------------

  /** A string is less than another if it ends first or has the smaller character where they first differ. */
  ghost predicate StringBelow(a: string, b: string) {
    a < b || exists k :: DifferFirstAt(a, b, k) && a[k] < b[k]
  }

  ghost predicate DifferFirstAt(a: string, b: string, k: int) {
    0 <= k < |a| && k < |b| && a[..k] == b[..k] && a[k] != b[k]
  }

  lemma {:induction false} CmpStringExactly(a: string, b: string)
    ensures CmpString(a, b) == Less <==> StringBelow(a, b)
    ensures CmpString(a, b) == Equal <==> a == b
    ensures CmpString(a, b) == Greater <==> StringBelow(b, a)
  {
    StringBelowExactly(a, b);
    StringBelowExactly(b, a);
    CmpStringReverses(a, b);
  }

  lemma {:induction false} StringBelowExactly(a: string, b: string)
    ensures CmpString(a, b) == Less <==> StringBelow(a, b)
  {
    if a != [] && b != [] {
      if a[0] != b[0] {
        assert DifferFirstAt(a, b, 0);
      } else {
        StringBelowExactly(a[1..], b[1..]);
        assert a < b <==> a[1..] < b[1..] by { PrefixFirst(a, b); }
        if k :| DifferFirstAt(a, b, k) && a[k] < b[k] {
          assert a[1..][..k - 1] == a[..k][1..] && b[1..][..k - 1] == b[..k][1..];
          assert DifferFirstAt(a[1..], b[1..], k - 1);
        }
        if k :| DifferFirstAt(a[1..], b[1..], k) && a[1..][k] < b[1..][k] {
          assert a[..k + 1] == [a[0]] + a[1..][..k] && b[..k + 1] == [b[0]] + b[1..][..k];
          assert DifferFirstAt(a, b, k + 1);
        }
      }
    }
  }

  lemma PrefixFirst(a: string, b: string)
    requires a != [] && b != [] && a[0] == b[0]
    ensures a < b <==> a[1..] < b[1..]
  {
    assert a == [a[0]] + a[1..] && b == [b[0]] + b[1..];
    if a < b {
      assert a[1..] == b[1..][..|a| - 1] by { assert a == b[..|a|]; }
    }
    if a[1..] < b[1..] {
      assert a[1..] == b[1..][..|a| - 1];
      assert a == b[..|a|];
    }
  }

  function PositionWord(v: ValuePosition): string {
    match v
    case Column(_) => "column"
    case Literal(_) => "literal"
    case Parameter(_) => "static"
  }

  function JunctionWord(c: Condition): string {
    if c.And? then "and" else "or"
  }

  /** The ranks are the alphabetical order of the words the source compares. */
  lemma RanksAreWords(a: ValuePosition, b: ValuePosition, op: ExistsOp, op': ExistsOp, c: Condition, d: Condition)
    requires (c.And? || c.Or?) && (d.And? || d.Or?)
    ensures CmpInt(PositionRank(a), PositionRank(b)) == CmpString(PositionWord(a), PositionWord(b))
    ensures CmpInt(ExistsRank(op), ExistsRank(op')) == CmpString(AstJson.ExistsString(op), AstJson.ExistsString(op'))
    ensures CmpInt(JunctionRank(c), JunctionRank(d)) == CmpString(JunctionWord(c), JunctionWord(d))
  {
    CmpStringReverses(PositionWord(a), PositionWord(b));
    CmpStringReverses(AstJson.ExistsString(op), AstJson.ExistsString(op'));
    CmpStringReverses(JunctionWord(c), JunctionWord(d));
    FirstLetters(PositionWord(a), PositionWord(b));
    FirstLetters(AstJson.ExistsString(op), AstJson.ExistsString(op'));
    FirstLetters(JunctionWord(c), JunctionWord(d));
  }

  lemma FirstLetters(a: string, b: string)
    requires a != [] && b != []
    ensures a[0] < b[0] ==> CmpString(a, b) == Less
    ensures a[0] > b[0] ==> CmpString(a, b) == Greater
  {
  }

  // ---- Literals --------------------------------------------------------------

  function Joined(parts: seq<string>): string {
    if |parts| == 0 then ""
    else if |parts| == 1 then parts[0]
    else Joined(parts[..|parts| - 1]) + "," + parts[|parts| - 1]
  }

  lemma {:induction false} JoinedFirst(parts: seq<string>)
    requires |parts| > 1
    ensures Joined(parts) == parts[0] + "," + Joined(parts[1..])
  {
    var n := |parts| - 1;
    if n == 1 {
      assert parts[..1] == [parts[0]] && parts[1..] == [parts[1]];
    } else {
      JoinedFirst(parts[..n]);
      assert parts[1..][..n - 1] == parts[..n][1..] && parts[1..][n - 1] == parts[n];
      assert Joined(parts[1..]) == Joined(parts[..n][1..]) + "," + parts[n];
      assert parts[0] + "," + (Joined(parts[..n][1..]) + "," + parts[n]) == (parts[0] + "," + Joined(parts[..n][1..])) + "," + parts[n];
    }
  }

  function Rendered(fmt: NumberFormat, items: seq<LiteralValue>): seq<string> {
    seq(|items|, i requires 0 <= i < |items| => RenderLiteral(fmt, items[i]))
  }

  lemma {:induction false} ItemsAreJoined(fmt: NumberFormat, items: seq<LiteralValue>)
    ensures RenderItems(fmt, items) == Joined(Rendered(fmt, items))
  {
    if |items| > 1 {
      ItemsAreJoined(fmt, items[1..]);
      assert Rendered(fmt, items)[1..] == Rendered(fmt, items[1..]);
      JoinedFirst(Rendered(fmt, items));
    }
  }

  /** Literals are rendered by their text, arrays as the texts of their items joined by commas. */
  lemma LiteralsAreRendered(fmt: NumberFormat, s: string, n: real, items: seq<LiteralValue>)
    ensures RenderLiteral(fmt, LString(s)) == s && RenderLiteral(fmt, LNumber(n)) == fmt(n) && RenderLiteral(fmt, LNull) == "null"
    ensures RenderLiteral(fmt, LBool(true)) == "true" && RenderLiteral(fmt, LBool(false)) == "false"
    ensures RenderLiteral(fmt, LArray(items)) == Joined(Rendered(fmt, items))
  {
    ItemsAreJoined(fmt, items);
  }

  // ---- Conditions ------------------------------------------------------------

  /** One side of a comparison stands before another: by kind, columns by name, literals by their text. */
  ghost predicate PositionBelow(fmt: NumberFormat, a: ValuePosition, b: ValuePosition) {
    || StringBelow(PositionWord(a), PositionWord(b))
    || (a.Column? && b.Column? && StringBelow(a.name, b.name))
    || (a.Literal? && b.Literal? && StringBelow(RenderLiteral(fmt, a.value), RenderLiteral(fmt, b.value)))
  }

  lemma WordsDecide(a: ValuePosition, b: ValuePosition)
    ensures StringBelow(PositionWord(a), PositionWord(b)) <==> PositionRank(a) < PositionRank(b)
  {
    CmpStringExactly(PositionWord(a), PositionWord(b));
    FirstLetters(PositionWord(a), PositionWord(b));
  }

  lemma PositionBelowExactly(fmt: NumberFormat, a: ValuePosition, b: ValuePosition)
    ensures CmpPosition(fmt, a, b) == Some(Less) <==> PositionBelow(fmt, a, b)
  {
    WordsDecide(a, b);
    if a.Column? && b.Column? {
      CmpStringExactly(a.name, b.name);
    } else if a.Literal? && b.Literal? {
      CmpStringExactly(RenderLiteral(fmt, a.value), RenderLiteral(fmt, b.value));
    }
  }

  /** Comparisons are ordered by their left side, then their operator, then their right side. */
  lemma SimpleOrder(fmt: NumberFormat, a: Condition, b: Condition)
    requires a.Simple? && b.Simple?
    ensures CmpCondition(fmt, a, b) == Some(Less)
       <==> || PositionBelow(fmt, a.left, b.left)
            || (CmpPosition(fmt, a.left, b.left) == Some(Equal)
                && (|| StringBelow(OperatorString(a.op), OperatorString(b.op))
                    || (OperatorString(a.op) == OperatorString(b.op) && PositionBelow(fmt, a.right, b.right))))
  {
    PositionBelowExactly(fmt, a.left, b.left);
    PositionBelowExactly(fmt, a.right, b.right);
    CmpStringExactly(OperatorString(a.op), OperatorString(b.op));
  }

  function OptionalBoolWord(b: Option<bool>): string {
    if b.None? then "" else if b.value then "true" else "false"
  }

  function AliasWord(c: Condition): string
    requires c.Subquery?
  {
    match c.related.subquery.alias
    case Some(alias) => alias
    case None => ""
  }

  /** Subqueries are ordered by alias, EXISTS before NOT EXISTS, then by `flip` and `scalar`, absent before false before true. */
  lemma SubqueryOrder(fmt: NumberFormat, a: Condition, b: Condition)
    requires a.Subquery? && b.Subquery?
    ensures CmpCondition(fmt, a, b) == Some(Less)
       <==> || StringBelow(AliasWord(a), AliasWord(b))
            || (AliasWord(a) == AliasWord(b)
                && (|| (a.existsOp == Exists && b.existsOp == NotExists)
                    || (a.existsOp == b.existsOp && StringBelow(OptionalBoolWord(a.flip), OptionalBoolWord(b.flip)))
                    || (a.existsOp == b.existsOp && a.flip == b.flip && StringBelow(OptionalBoolWord(a.scalar), OptionalBoolWord(b.scalar)))))
  {
    CmpStringExactly(AliasWord(a), AliasWord(b));
    BoolWords(a.flip, b.flip);
    BoolWords(a.scalar, b.scalar);
  }

  lemma BoolWords(a: Option<bool>, b: Option<bool>)
    ensures StringBelow(OptionalBoolWord(a), OptionalBoolWord(b)) <==> OptionalBoolRank(a) < OptionalBoolRank(b)
  {
    var x, y := OptionalBoolWord(a), OptionalBoolWord(b);
    CmpStringExactly(x, y);
    if x != "" && y != "" {
      FirstLetters(x, y);
    }
  }

  /** The first members that differ decide, or else the shorter list comes first. */
  ghost predicate DecidedAt(fmt: NumberFormat, a: seq<Condition>, b: seq<Condition>, k: nat) {
    && k <= |a| && k <= |b| && (forall i | 0 <= i < k :: CmpCondition(fmt, a[i], b[i]) == Some(Equal))
    && if k == |a| then k < |b| else k < |b| && CmpCondition(fmt, a[k], b[k]) == Some(Less)
  }

  lemma {:induction false} ChildrenOrder(fmt: NumberFormat, a: seq<Condition>, b: seq<Condition>)
    ensures CmpChildren(fmt, a, b) == Some(Less) <==> exists k: nat :: DecidedAt(fmt, a, b, k)
  {
    if a == [] || b == [] {
      if CmpChildren(fmt, a, b) == Some(Less) {
        assert DecidedAt(fmt, a, b, 0);
      }
    } else {
      var first := CmpCondition(fmt, a[0], b[0]);
      ChildrenOrder(fmt, a[1..], b[1..]);
      if first == Some(Less) {
        assert DecidedAt(fmt, a, b, 0);
      } else if k: nat :| DecidedAt(fmt, a, b, k) {
        assert k > 0;
        assert forall i | 0 <= i < k - 1 :: a[1..][i] == a[i + 1] && b[1..][i] == b[i + 1];
        assert DecidedAt(fmt, a[1..], b[1..], k - 1);
      }
      if first == Some(Equal) {
        if k: nat :| DecidedAt(fmt, a[1..], b[1..], k) {
          assert forall i | 0 < i < k + 1 :: a[i] == a[1..][i - 1] && b[i] == b[1..][i - 1];
          assert DecidedAt(fmt, a, b, k + 1);
        }
      }
    }
  }

  /** Comparisons come before everything else, And before Or, junctions of one type by their children; a subquery and a junction are each less than the other. */
  lemma KindsInOrder(fmt: NumberFormat, a: Condition, b: Condition)
    ensures a.Simple? && !b.Simple? ==> CmpCondition(fmt, a, b) == Some(Less) && CmpCondition(fmt, b, a) == Some(Greater)
    ensures a.Subquery? && (b.And? || b.Or?) ==> CmpCondition(fmt, a, b) == Some(Less) && CmpCondition(fmt, b, a) == Some(Less)
    ensures a.And? && b.Or? ==> CmpCondition(fmt, a, b) == Some(Less) && CmpCondition(fmt, b, a) == Some(Greater)
    ensures (a.And? && b.And?) || (a.Or? && b.Or?) ==>
              (CmpCondition(fmt, a, b) == Some(Less) <==> exists k: nat :: DecidedAt(fmt, a.conditions, b.conditions, k))
  {
    if (a.And? && b.And?) || (a.Or? && b.Or?) {
      ChildrenOrder(fmt, a.conditions, b.conditions);
    }
  }
}
