/**
 Exactly which bytes stand for which message: what each field must be, which bytes are not
 looked at, and how a read fails.
 */
module WireExact {
  import opened Base
  import opened WireFormat
  import opened WireProofs
  import opened WireEncoding

  // ---- Pieces ----------------------------------------------------------------

  lemma SpellsConcat(d: Bytes, p: nat, a: Bytes, b: Bytes)
    ensures Spells(d, p, a + b) <==> Spells(d, p, a) && Spells(d, p + |a|, b)
  {
    if Spells(d, p, a + b) {
      SpellsBoth(d, p, a, b);
    }
    if Spells(d, p, a) && Spells(d, p + |a|, b) {
      assert d[p..p + |a + b|] == d[p..p + |a|] + d[p + |a|..p + |a| + |b|];
    }
  }

  lemma ByteExactly(d: Bytes, p: nat, b: byte)
    ensures Spells(d, p, [b]) <==> p < |d| && d[p] == b
  {
    if p < |d| {
      assert d[p..p + 1] == [d[p]];
    }
  }

  lemma {:induction false} BytesBack(b: Bytes)
    ensures ToBytes(FromBytes(b), |b|) == b
  {
    if b != [] {
      var n := |b| - 1;
      BytesBack(b[..n]);
      assert FromBytes(b) / 256 == FromBytes(b[..n]) && FromBytes(b) % 256 == b[n];
      assert b == b[..n] + [b[n]];
    }
  }

  lemma TakeExactly(d: Bytes, p: nat, n: nat, b: Bytes, e: nat)
    ensures Take(d, p, n) == Got(b, e) <==> |b| == n && Spells(d, p, b) && e == p + n
  {
  }

  lemma UnsignedExactly(d: Bytes, p: nat, size: nat, n: nat, e: nat)
    ensures Unsigned(d, p, size) == Got(n, e) <==> FitsUnsigned(n, size) && Spells(d, p, ToBytes(n, size)) && e == p + size
  {
    if Unsigned(d, p, size) == Got(n, e) {
      BytesBack(d[p..p + size]);
    }
    if FitsUnsigned(n, size) && Spells(d, p, ToBytes(n, size)) {
      SpellsUnsigned(d, p, n, size);
    }
  }

  lemma SignedExactly(d: Bytes, p: nat, size: nat, i: int, e: nat)
    ensures SignedInt(d, p, size) == Got(i, e) <==> FitsSigned(i, size) && Spells(d, p, EncInt(i, size)) && e == p + size
  {
    if SignedInt(d, p, size) == Got(i, e) {
      BytesBack(d[p..p + size]);
    }
    if FitsSigned(i, size) && Spells(d, p, EncInt(i, size)) {
      SpellsSigned(d, p, i, size);
    }
  }

  lemma StringExactly(d: Bytes, p: nat, utf8: Utf8, s: Bytes, e: nat)
    ensures CStr(d, p, utf8) == Got(s, e) <==> Sendable(s, utf8) && Spells(d, p, EncString(s)) && e == p + |EncString(s)|
  {
    if CStr(d, p, utf8) == Got(s, e) {
      var z := FindZero(d, p).value;
      assert d[p..z + 1] == d[p..z] + [d[z]];
      forall i | 0 <= i < |s| ensures s[i] != 0 {
        assert s[i] == d[p + i];
      }
    }
    if Sendable(s, utf8) && Spells(d, p, EncString(s)) {
      SpellsString(d, p, s, utf8);
    }
  }

  lemma CountedExactly(d: Bytes, p: nat, b: Bytes, e: nat)
    ensures Counted(d, p) == Got(b, e) <==> Countable(b) && Spells(d, p, EncCounted(b)) && e == p + |EncCounted(b)|
  {
    if Counted(d, p) == Got(b, e) {
      SignedExactly(d, p, 4, |b|, p + 4);
      TakeExactly(d, p + 4, |b|, b, e);
      SpellsConcat(d, p, EncInt(|b|, 4), b);
    }
    if Countable(b) && Spells(d, p, EncCounted(b)) {
      SpellsCounted(d, p, b);
    }
  }

  lemma ColumnByKind(d: Bytes, p: nat, utf8: Utf8, c: TupleColumn, e: nat)
    requires ReadColumn(d, p, utf8) == Got(c, e)
    ensures p < |d|
    ensures match c
            case Null => d[p] == 'n' as int && e == p + 1
            case UnchangedToast => d[p] == 'u' as int && e == p + 1
            case Text(text) => d[p] == 't' as int && utf8(text) && Counted(d, p + 1) == Got(text, e)
            case Binary(raw) => d[p] == 'b' as int && Counted(d, p + 1) == Got(raw, e)
  {
  }

  lemma CountedAfter(d: Bytes, p: nat, kind: byte, b: Bytes, e: nat)
    requires p < |d| && d[p] == kind && Counted(d, p + 1) == Got(b, e)
    ensures Countable(b) && Spells(d, p, [kind] + EncCounted(b)) && e == p + 1 + |EncCounted(b)|
  {
    ByteExactly(d, p, kind);
    CountedExactly(d, p + 1, b, e);
    SpellsConcat(d, p, [kind], EncCounted(b));
  }

  lemma ColumnSpells(d: Bytes, p: nat, utf8: Utf8, c: TupleColumn, e: nat)
    requires ReadColumn(d, p, utf8) == Got(c, e)
    ensures ColumnFits(c, utf8) && Spells(d, p, EncColumn(c, utf8)) && e == p + |EncColumn(c, utf8)|
  {
    ColumnByKind(d, p, utf8, c, e);
    match c
    case Null => ByteExactly(d, p, 'n' as int);
    case UnchangedToast => ByteExactly(d, p, 'u' as int);
    case Text(text) => CountedAfter(d, p, 't' as int, text, e);
    case Binary(raw) => CountedAfter(d, p, 'b' as int, raw, e);
  }

  lemma ColumnExactly(d: Bytes, p: nat, utf8: Utf8, c: TupleColumn, e: nat)
    ensures ReadColumn(d, p, utf8) == Got(c, e) <==> ColumnFits(c, utf8) && Spells(d, p, EncColumn(c, utf8)) && e == p + |EncColumn(c, utf8)|
  {
    if ReadColumn(d, p, utf8) == Got(c, e) {
      ColumnSpells(d, p, utf8, c, e);
    } else if ColumnFits(c, utf8) && Spells(d, p, EncColumn(c, utf8)) {
      SpellsColumn(d, p, c, utf8);
    }
  }

  /** Whatever is read is spelled. */
  ghost predicate ReadsSpelled<T(!new)>(d: Bytes, fits: T -> bool, enc: T --> Bytes, read: nat -> Parsed<T>) {
    forall q: nat, x, e :: read(q) == Got(x, e) ==> fits(x) && enc.requires(x) && Spells(d, q, enc(x)) && e == q + |enc(x)|
  }

  lemma {:induction false} RepeatSpells<T(!new)>(d: Bytes, p: nat, n: nat, xs: seq<T>, e: nat, fits: T -> bool, enc: T --> Bytes, read: nat -> Parsed<T>)
    requires Bounded(read, |d|) && ReadsSpelled(d, fits, enc, read) && Repeat(read, p, n, |d|) == Got(xs, e)
    ensures |xs| == n && (forall i | 0 <= i < n :: fits(xs[i])) && AllEncode(xs, enc)
    ensures Spells(d, p, EncEach(xs, enc)) && e == p + |EncEach(xs, enc)|
    decreases n
  {
    if n > 0 {
      var q := read(p).end;
      var rest := Repeat(read, q, n - 1, |d|).value;
      RepeatSpells(d, q, n - 1, rest, e, fits, enc, read);
      assert xs[0] == read(p).value && xs[1..] == rest;
      assert read(p) == Got(xs[0], q);
      forall i | 0 <= i < |xs| ensures fits(xs[i]) && enc.requires(xs[i]) {
        assert i > 0 ==> xs[i] == rest[i - 1];
      }
      SpellsConcat(d, p, enc(xs[0]), EncEach(rest, enc));
    }
  }

  ghost predicate RowAt(d: Bytes, p: nat, utf8: Utf8, t: Tuple, e: nat) {
    TupleFits(t, utf8) && Exactly(d, p, EncTuple(t, utf8), e)
  }

  lemma TupleExactly(d: Bytes, p: nat, utf8: Utf8, t: Tuple, e: nat)
    ensures ReadTuple(d, p, utf8) == Got(t, e) <==> RowAt(d, p, utf8, t, e)
  {
    if ReadTuple(d, p, utf8) == Got(t, e) {
      TupleSpells(d, p, utf8, t, e);
    }
    if TupleFits(t, utf8) && Spells(d, p, EncTuple(t, utf8)) {
      SpellsTuple(d, p, t, utf8);
    }
  }

  lemma ColumnsSpelled(d: Bytes, utf8: Utf8, fits: TupleColumn -> bool, enc: TupleColumn --> Bytes, read: nat -> Parsed<TupleColumn>)
    requires (forall c :: fits(c) == ColumnFits(c, utf8)) && enc == ((c: TupleColumn) requires ColumnFits(c, utf8) => EncColumn(c, utf8))
    requires forall q: nat :: read(q) == ReadColumn(d, q, utf8)
    ensures ReadsSpelled(d, fits, enc, read) && Bounded(read, |d|)
  {
    forall q: nat, x, e | read(q) == Got(x, e) ensures fits(x) && enc.requires(x) && Spells(d, q, enc(x)) && e == q + |enc(x)| {
      ColumnSpells(d, q, utf8, x, e);
    }
  }

  lemma TupleOpens(d: Bytes, p: nat, utf8: Utf8, t: Tuple, e: nat)
    requires ReadTuple(d, p, utf8) == Got(t, e)
    ensures I16(d, p) == Got(|t|, p + 2) && Repeat(q => ReadColumn(d, q, utf8), p + 2, |t|, |d|) == Got(t, e)
  {
  }

  lemma TupleSpells(d: Bytes, p: nat, utf8: Utf8, t: Tuple, e: nat)
    requires ReadTuple(d, p, utf8) == Got(t, e)
    ensures TupleFits(t, utf8) && Spells(d, p, EncTuple(t, utf8)) && e == p + |EncTuple(t, utf8)|
  {
    var enc := (c: TupleColumn) requires ColumnFits(c, utf8) => EncColumn(c, utf8);
    var fits := (c: TupleColumn) => ColumnFits(c, utf8);
    TupleOpens(d, p, utf8, t, e);
    ColumnsSpelled(d, utf8, fits, enc, (q: nat) => ReadColumn(d, q, utf8));
    SignedExactly(d, p, 2, |t|, p + 2);
    RepeatSpells(d, p + 2, |t|, t, e, fits, enc, (q: nat) => ReadColumn(d, q, utf8));
    TupleFromParts(d, p, utf8, t, enc);
  }

  lemma TupleFromParts(d: Bytes, p: nat, utf8: Utf8, t: Tuple, enc: TupleColumn --> Bytes)
    requires enc == ((c: TupleColumn) requires ColumnFits(c, utf8) => EncColumn(c, utf8))
    requires TupleFits(t, utf8) && AllEncode(t, enc) && Spells(d, p, EncInt(|t|, 2)) && Spells(d, p + 2, EncEach(t, enc))
    ensures Spells(d, p, EncTuple(t, utf8)) && |EncTuple(t, utf8)| == 2 + |EncEach(t, enc)|
  {
    SpellsConcat(d, p, EncInt(|t|, 2), EncEach(t, enc));
  }

  lemma IdsSpell(d: Bytes, p: nat, n: nat, ids: seq<int>, e: nat, enc: int --> Bytes, read: nat -> Parsed<int>)
    requires enc == ((id: int) requires FitsSigned(id, 4) => EncInt(id, 4)) && forall q: nat :: read(q) == I32(d, q)
    requires FitsSigned(n, 4) && Bounded(read, |d|) && Repeat(read, p, n, |d|) == Got(ids, e)
    ensures |ids| == n && IdsFit(ids) && AllEncode(ids, enc) && Spells(d, p, EncEach(ids, enc)) && e == p + |EncEach(ids, enc)|
  {
    var fits := (id: int) => FitsSigned(id, 4);
    forall q: nat, x, e' | read(q) == Got(x, e') ensures fits(x) && enc.requires(x) && Spells(d, q, enc(x)) && e' == q + |enc(x)| {
      SignedExactly(d, q, 4, x, e');
    }
    RepeatSpells(d, p, n, ids, e, fits, enc, read);
    assert forall i | 0 <= i < |ids| :: fits(ids[i]);
  }

  lemma IdsExactly(d: Bytes, p: nat, n: nat, ids: seq<int>, e: nat)
    requires FitsSigned(n, 4)
    ensures Repeat(q => I32(d, q), p, n, |d|) == Got(ids, e) <==> |ids| == n && IdsFit(ids) && Spells(d, p, EncIds(ids)) && e == p + |EncIds(ids)|
  {
    if Repeat(q => I32(d, q), p, n, |d|) == Got(ids, e) {
      var read := (q: nat) => I32(d, q);
      IdsSpell(d, p, n, ids, e, (id: int) requires FitsSigned(id, 4) => EncInt(id, 4), read);
    }
    if |ids| == n && IdsFit(ids) && Spells(d, p, EncIds(ids)) {
      SpellsIds(d, p, ids);
    }
  }

  lemma NamesExactly(d: Bytes, p: nat, utf8: Utf8, names: (Bytes, Bytes), e: nat)
    ensures ReadNames(d, p, utf8) == Got(names, e)
       <==> Sendable(names.0, utf8) && Sendable(names.1, utf8) && Spells(d, p, EncNames(names.0, names.1)) && e == p + |EncNames(names.0, names.1)|
  {
    if ReadNames(d, p, utf8) == Got(names, e) {
      StringExactly(d, p, utf8, names.0, CStr(d, p, utf8).end);
      StringExactly(d, CStr(d, p, utf8).end, utf8, names.1, e);
      SpellsConcat(d, p, EncString(names.0), EncString(names.1));
    }
    if Sendable(names.0, utf8) && Sendable(names.1, utf8) && Spells(d, p, EncNames(names.0, names.1)) {
      SpellsNames(d, p, names.0, names.1, utf8);
    }
  }

  lemma PayloadExactly(d: Bytes, p: nat, utf8: Utf8, payload: (Bytes, Bytes), e: nat)
    ensures ReadPayload(d, p, utf8) == Got(payload, e)
       <==> && Sendable(payload.0, utf8) && Countable(payload.1)
            && Spells(d, p, EncPayload(payload.0, payload.1)) && e == p + |EncPayload(payload.0, payload.1)|
  {
    if ReadPayload(d, p, utf8) == Got(payload, e) {
      StringExactly(d, p, utf8, payload.0, CStr(d, p, utf8).end);
      CountedExactly(d, CStr(d, p, utf8).end, payload.1, e);
      SpellsConcat(d, p, EncString(payload.0), EncCounted(payload.1));
    }
    if Sendable(payload.0, utf8) && Countable(payload.1) && Spells(d, p, EncPayload(payload.0, payload.1)) {
      SpellsPayload(d, p, payload.0, payload.1, utf8);
    }
  }

  // ---- Relation columns ------------------------------------------------------

  /** All of a relation column but its flags. */
  function EncNamed(c: RelationColumn, utf8: Utf8): Bytes
    requires RelationColumnFits(c, utf8)
  {
    EncString(c.name) + (EncInt(c.typeOid, 4) + EncInt(c.atttypmod, 4))
  }

  /** A relation column at a position: of its flags only the lowest bit matters. */
  ghost predicate ColumnAt(d: Bytes, p: nat, utf8: Utf8, c: RelationColumn, e: nat) {
    RelationColumnFits(c, utf8) && p < |d| && (d[p] % 2 == 1) == c.isKey && Spells(d, p + 1, EncNamed(c, utf8)) && e == p + 1 + |EncNamed(c, utf8)|
  }

  lemma RelationColumnOpens(d: Bytes, p: nat, utf8: Utf8, c: RelationColumn, e: nat) returns (q: nat)
    requires ReadRelationColumn(d, p, utf8) == Got(c, e)
    ensures p < |d| && Bit(d[p], 1) == c.isKey && CStr(d, p + 1, utf8) == Got(c.name, q)
    ensures I32(d, q) == Got(c.typeOid, q + 4) && I32(d, q + 4) == Got(c.atttypmod, q + 8) && e == q + 8
  {
    q := CStr(d, p + 1, utf8).end;
  }

  lemma NamedExactly(d: Bytes, p: nat, utf8: Utf8, c: RelationColumn)
    requires RelationColumnFits(c, utf8)
    ensures Spells(d, p, EncNamed(c, utf8))
       <==> var q := p + |EncString(c.name)|; Spells(d, p, EncString(c.name)) && Spells(d, q, EncInt(c.typeOid, 4)) && Spells(d, q + 4, EncInt(c.atttypmod, 4))
    ensures |EncNamed(c, utf8)| == |EncString(c.name)| + 8
  {
    SpellsConcat(d, p, EncString(c.name), EncInt(c.typeOid, 4) + EncInt(c.atttypmod, 4));
    SpellsConcat(d, p + |EncString(c.name)|, EncInt(c.typeOid, 4), EncInt(c.atttypmod, 4));
  }

  lemma RelationColumnSpells(d: Bytes, p: nat, utf8: Utf8, c: RelationColumn, e: nat)
    requires ReadRelationColumn(d, p, utf8) == Got(c, e)
    ensures ColumnAt(d, p, utf8, c, e)
  {
    var q := RelationColumnOpens(d, p, utf8, c, e);
    StringExactly(d, p + 1, utf8, c.name, q);
    SignedExactly(d, q, 4, c.typeOid, q + 4);
    SignedExactly(d, q + 4, 4, c.atttypmod, q + 8);
    NamedExactly(d, p + 1, utf8, c);
  }

  lemma RelationColumnReads(d: Bytes, p: nat, utf8: Utf8, c: RelationColumn, e: nat)
    requires ColumnAt(d, p, utf8, c, e)
    ensures ReadRelationColumn(d, p, utf8) == Got(c, e)
  {
    var q := p + 1 + |EncString(c.name)|;
    NamedExactly(d, p + 1, utf8, c);
    SpellsString(d, p + 1, c.name, utf8);
    SpellsI32(d, q, c.typeOid);
    SpellsI32(d, q + 4, c.atttypmod);
    AssembleRelationColumn(d, p, d[p], c.name, q, c.typeOid, c.atttypmod, utf8);
  }

  ghost predicate ColumnsAt(d: Bytes, p: nat, utf8: Utf8, cs: seq<RelationColumn>, e: nat)
    decreases |cs|
  {
    if cs == [] then e == p <= |d| else exists q: nat :: ColumnAt(d, p, utf8, cs[0], q) && ColumnsAt(d, q, utf8, cs[1..], e)
  }

  lemma RepeatOpens<T>(read: nat -> Parsed<T>, p: nat, xs: seq<T>, e: nat, limit: nat) returns (q: nat)
    requires Bounded(read, limit) && xs != [] && Repeat(read, p, |xs|, limit) == Got(xs, e)
    ensures read(p) == Got(xs[0], q) && Repeat(read, q, |xs| - 1, limit) == Got(xs[1..], e)
  {
    q := read(p).end;
    var rest := Repeat(read, q, |xs| - 1, limit);
    assert xs == [read(p).value] + rest.value;
    assert xs[1..] == rest.value;
  }

  lemma {:induction false} RelationColumnsSpell(d: Bytes, p: nat, utf8: Utf8, cs: seq<RelationColumn>, e: nat, read: nat -> Parsed<RelationColumn>)
    requires Bounded(read, |d|) && (forall q: nat :: read(q).Got? ==> ColumnAt(d, q, utf8, read(q).value, read(q).end))
    requires Repeat(read, p, |cs|, |d|) == Got(cs, e)
    ensures ColumnsAt(d, p, utf8, cs, e)
    decreases |cs|
  {
    if cs != [] {
      var q := RepeatOpens(read, p, cs, e, |d|);
      assert ColumnAt(d, p, utf8, cs[0], q);
      RelationColumnsSpell(d, q, utf8, cs[1..], e, read);
    }
  }

  lemma {:induction false} RelationColumnsRead(d: Bytes, p: nat, utf8: Utf8, cs: seq<RelationColumn>, e: nat, read: nat -> Parsed<RelationColumn>)
    requires Bounded(read, |d|) && (forall q: nat :: read(q) == ReadRelationColumn(d, q, utf8)) && ColumnsAt(d, p, utf8, cs, e)
    ensures Repeat(read, p, |cs|, |d|) == Got(cs, e)
    decreases |cs|
  {
    if cs != [] {
      var q: nat :| ColumnAt(d, p, utf8, cs[0], q) && ColumnsAt(d, q, utf8, cs[1..], e);
      RelationColumnReads(d, p, utf8, cs[0], q);
      RelationColumnsRead(d, q, utf8, cs[1..], e, read);
      RepeatOnce(read, p, cs, q, |d|);
    }
  }

  /** The columns of a relation, with their number before them. */
  ghost predicate RelationColumnsAt(d: Bytes, p: nat, utf8: Utf8, cs: seq<RelationColumn>, e: nat) {
    FitsSigned(|cs|, 2) && Spells(d, p, EncInt(|cs|, 2)) && ColumnsAt(d, p + 2, utf8, cs, e)
  }

  lemma RelationColumnsOpen(d: Bytes, p: nat, utf8: Utf8, cs: seq<RelationColumn>, e: nat)
    ensures ReadRelationColumns(d, p, utf8) == Got(cs, e)
       <==> I16(d, p) == Got(|cs|, p + 2) && Repeat(q => ReadRelationColumn(d, q, utf8), p + 2, |cs|, |d|) == Got(cs, e)
  {
  }

  lemma RelationColumnsExactly(d: Bytes, p: nat, utf8: Utf8, cs: seq<RelationColumn>, e: nat)
    ensures ReadRelationColumns(d, p, utf8) == Got(cs, e) <==> RelationColumnsAt(d, p, utf8, cs, e)
  {
    RelationColumnsOpen(d, p, utf8, cs, e);
    SignedExactly(d, p, 2, |cs|, p + 2);
    if ReadRelationColumns(d, p, utf8) == Got(cs, e) {
      var read := (q: nat) => ReadRelationColumn(d, q, utf8);
      forall q: nat | read(q).Got? ensures ColumnAt(d, q, utf8, read(q).value, read(q).end) {
        RelationColumnSpells(d, q, utf8, read(q).value, read(q).end);
      }
      RelationColumnsSpell(d, p + 2, utf8, cs, e, read);
    } else if RelationColumnsAt(d, p, utf8, cs, e) {
      RelationColumnsRead(d, p + 2, utf8, cs, e, (q: nat) => ReadRelationColumn(d, q, utf8));
    }
  }

  lemma IdentityExactly(d: Bytes, p: nat, identity: ReplicaIdentity, e: nat)
    ensures ReadIdentity(d, p) == Got(identity, e) <==> Spells(d, p, [EncIdentity(identity)]) && e == p + 1
  {
    ByteExactly(d, p, EncIdentity(identity));
  }

  // ---- Messages --------------------------------------------------------------

  /** The fixed part of a body: nothing but these bytes. */
  ghost predicate Exactly(d: Bytes, p: nat, b: Bytes, e: nat) {
    Spells(d, p, b) && e == p + |b|
  }

  ghost predicate RelationAt(d: Bytes, p: nat, utf8: Utf8, id: int, namespace: Bytes, name: Bytes, identity: ReplicaIdentity,
                             columns: seq<RelationColumn>, e: nat) {
    && FitsSigned(id, 4) && Sendable(namespace, utf8) && Sendable(name, utf8)
    && var head := EncInt(id, 4) + (EncNames(namespace, name) + [EncIdentity(identity)]);
       Spells(d, p, head) && RelationColumnsAt(d, p + |head|, utf8, columns, e)
  }

  ghost predicate TypeAt(d: Bytes, p: nat, utf8: Utf8, oid: int, namespace: Bytes, name: Bytes, e: nat) {
    FitsSigned(oid, 4) && Sendable(namespace, utf8) && Sendable(name, utf8) && Exactly(d, p, EncInt(oid, 4) + EncNames(namespace, name), e)
  }

  /** What the bytes of a body have to be. The byte before a new row is not looked at, nor are flags without a meaning. */
  ghost predicate BodyAt(d: Bytes, p: nat, utf8: Utf8, m: Message, e: nat) {
    match m
    case Begin(_, _, _) => Encodable(m, utf8) && Exactly(d, p, EncBody(m, utf8), e)
    case Origin(_, _) => Encodable(m, utf8) && Exactly(d, p, EncBody(m, utf8), e)
    case Type(oid, namespace, name) => TypeAt(d, p, utf8, oid, namespace, name, e)
    case Commit(commitLsn, endLsn, timestamp) =>
      Encodable(m, utf8) && Exactly(d, p + 1, ToBytes(commitLsn, 8) + (ToBytes(endLsn, 8) + EncInt(timestamp, 8)), e)
    case Relation(id, namespace, name, identity, columns) => RelationAt(d, p, utf8, id, namespace, name, identity, columns, e)
    case Insert(id, new_) => FitsSigned(id, 4) && Spells(d, p, EncInt(id, 4)) && RowAt(d, p + 5, utf8, new_, e)
    case Update(id, old_, keyOnly, new_) =>
      && FitsSigned(id, 4) && Spells(d, p, EncInt(id, 4)) && p + 4 < |d|
      && (if old_.Some?
          then d[p + 4] == (if keyOnly then 'K' as int else 'O' as int) && BothRowsAt(d, p + 5, utf8, old_.value, new_, e)
          else d[p + 4] != 'K' as int && d[p + 4] != 'O' as int && !keyOnly && RowAt(d, p + 5, utf8, new_, e))
    case Delete(id, key, keyOnly) =>
      && FitsSigned(id, 4) && Spells(d, p, EncInt(id, 4)) && p + 4 < |d| && (d[p + 4] == 'K' as int) == keyOnly
      && RowAt(d, p + 5, utf8, key, e)
    case Truncate(ids, cascade, restart) =>
      && Encodable(m, utf8) && Spells(d, p, EncInt(|ids|, 4)) && p + 4 < |d|
      && (d[p + 4] % 2 == 1) == cascade && (d[p + 4] / 2 % 2 == 1) == restart && Exactly(d, p + 5, EncIds(ids), e)
    case LogicalMessage(transactional, lsn, prefix, content) =>
      && Encodable(m, utf8) && p < |d| && (d[p] % 2 == 1) == transactional && Exactly(d, p + 1, ToBytes(lsn, 8) + EncPayload(prefix, content), e)
    case Unsupported(_) => e == p
  }

  lemma BeginByParts(d: Bytes, p: nat, m: Message, e: nat)
    requires m.Begin?
    ensures ReadBegin(d, p) == Got(m, e)
       <==> U64(d, p) == Got(m.finalLsn, p + 8) && I64(d, p + 8) == Got(m.timestamp, p + 16) && I32(d, p + 16) == Got(m.xid, p + 20) && e == p + 20
  {
  }

  lemma BeginExactly(d: Bytes, p: nat, utf8: Utf8, m: Message, e: nat)
    requires p <= |d| && m.Begin?
    ensures ReadBody(Kind(m), d, p, utf8) == Got(m, e) <==> BodyAt(d, p, utf8, m, e)
  {
    BeginByParts(d, p, m, e);
    UnsignedExactly(d, p, 8, m.finalLsn, p + 8);
    SignedExactly(d, p + 8, 8, m.timestamp, p + 16);
    SignedExactly(d, p + 16, 4, m.xid, p + 20);
    if Encodable(m, utf8) {
      SpellsConcat(d, p, ToBytes(m.finalLsn, 8), EncInt(m.timestamp, 8) + EncInt(m.xid, 4));
      SpellsConcat(d, p + 8, EncInt(m.timestamp, 8), EncInt(m.xid, 4));
    }
  }

  lemma CommitByParts(d: Bytes, p: nat, m: Message, e: nat)
    requires m.Commit?
    ensures ReadCommit(d, p) == Got(m, e)
       <==> && U64(d, p + 1) == Got(m.commitLsn, p + 9) && U64(d, p + 9) == Got(m.endLsn, p + 17)
            && I64(d, p + 17) == Got(m.timestamp, p + 25) && e == p + 25
  {
  }

  lemma CommitExactly(d: Bytes, p: nat, utf8: Utf8, m: Message, e: nat)
    requires p <= |d| && m.Commit?
    ensures ReadBody(Kind(m), d, p, utf8) == Got(m, e) <==> BodyAt(d, p, utf8, m, e)
  {
    CommitByParts(d, p, m, e);
    UnsignedExactly(d, p + 1, 8, m.commitLsn, p + 9);
    UnsignedExactly(d, p + 9, 8, m.endLsn, p + 17);
    SignedExactly(d, p + 17, 8, m.timestamp, p + 25);
    if Encodable(m, utf8) {
      SpellsConcat(d, p + 1, ToBytes(m.commitLsn, 8), ToBytes(m.endLsn, 8) + EncInt(m.timestamp, 8));
      SpellsConcat(d, p + 9, ToBytes(m.endLsn, 8), EncInt(m.timestamp, 8));
    }
  }

  lemma OriginExactly(d: Bytes, p: nat, utf8: Utf8, m: Message, e: nat)
    requires p <= |d| && m.Origin?
    ensures ReadBody(Kind(m), d, p, utf8) == Got(m, e) <==> BodyAt(d, p, utf8, m, e)
  {
    UnsignedExactly(d, p, 8, m.originLsn, p + 8);
    StringExactly(d, p + 8, utf8, m.originName, e);
    if Encodable(m, utf8) {
      SpellsConcat(d, p, ToBytes(m.originLsn, 8), EncString(m.originName));
    }
  }

  lemma TypeByParts(d: Bytes, p: nat, utf8: Utf8, m: Message, e: nat)
    requires m.Type?
    ensures ReadType(d, p, utf8) == Got(m, e) <==> I32(d, p) == Got(m.typeOid, p + 4) && ReadNames(d, p + 4, utf8) == Got((m.namespace, m.name), e)
  {
  }

  lemma TypeSpells(d: Bytes, p: nat, utf8: Utf8, oid: int, names: (Bytes, Bytes), e: nat)
    requires I32(d, p) == Got(oid, p + 4) && ReadNames(d, p + 4, utf8) == Got(names, e)
    ensures TypeAt(d, p, utf8, oid, names.0, names.1, e)
  {
    SignedExactly(d, p, 4, oid, p + 4);
    NamesExactly(d, p + 4, utf8, names, e);
    SpellsConcat(d, p, EncInt(oid, 4), EncNames(names.0, names.1));
  }

  lemma TypeReads(d: Bytes, p: nat, utf8: Utf8, oid: int, names: (Bytes, Bytes), e: nat)
    requires TypeAt(d, p, utf8, oid, names.0, names.1, e)
    ensures I32(d, p) == Got(oid, p + 4) && ReadNames(d, p + 4, utf8) == Got(names, e)
  {
    SpellsConcat(d, p, EncInt(oid, 4), EncNames(names.0, names.1));
    SpellsI32(d, p, oid);
    SpellsNames(d, p + 4, names.0, names.1, utf8);
  }

  lemma TypeExactly(d: Bytes, p: nat, utf8: Utf8, m: Message, e: nat)
    requires p <= |d| && m.Type?
    ensures ReadBody(Kind(m), d, p, utf8) == Got(m, e) <==> BodyAt(d, p, utf8, m, e)
  {
    TypeByParts(d, p, utf8, m, e);
    if ReadType(d, p, utf8) == Got(m, e) {
      TypeSpells(d, p, utf8, m.typeOid, (m.namespace, m.name), e);
    } else if TypeAt(d, p, utf8, m.typeOid, m.namespace, m.name, e) {
      TypeReads(d, p, utf8, m.typeOid, (m.namespace, m.name), e);
    }
  }

  lemma InsertExactly(d: Bytes, p: nat, utf8: Utf8, m: Message, e: nat)
    requires p <= |d| && m.Insert?
    ensures ReadBody(Kind(m), d, p, utf8) == Got(m, e) <==> BodyAt(d, p, utf8, m, e)
  {
    SignedExactly(d, p, 4, m.relationId, p + 4);
    TupleExactly(d, p + 5, utf8, m.new_, e);
  }

  lemma DeleteExactly(d: Bytes, p: nat, utf8: Utf8, m: Message, e: nat)
    requires p <= |d| && m.Delete?
    ensures ReadBody(Kind(m), d, p, utf8) == Got(m, e) <==> BodyAt(d, p, utf8, m, e)
  {
    SignedExactly(d, p, 4, m.relationId, p + 4);
    TupleExactly(d, p + 5, utf8, m.key, e);
  }

  lemma BothRowsOpen(d: Bytes, p: nat, utf8: Utf8, old_: Tuple, new_: Tuple, e: nat) returns (q: nat)
    requires ReadBothRows(d, p, utf8) == Got((old_, new_), e)
    ensures ReadTuple(d, p, utf8) == Got(old_, q) && ReadTuple(d, q + 1, utf8) == Got(new_, e)
  {
    q := ReadTuple(d, p, utf8).end;
    assert U8(d, q).Got?;
    assert ReadTuple(d, q + 1, utf8).Got?;
  }

  /** An old row, any byte, and a new row. */
  ghost predicate BothRowsAt(d: Bytes, p: nat, utf8: Utf8, old_: Tuple, new_: Tuple, e: nat) {
    exists q: nat :: RowAt(d, p, utf8, old_, q) && RowAt(d, q + 1, utf8, new_, e)
  }

  lemma BothRowsExactly(d: Bytes, p: nat, utf8: Utf8, old_: Tuple, new_: Tuple, e: nat)
    ensures ReadBothRows(d, p, utf8) == Got((old_, new_), e) <==> BothRowsAt(d, p, utf8, old_, new_, e)
  {
    if ReadBothRows(d, p, utf8) == Got((old_, new_), e) {
      var q := BothRowsOpen(d, p, utf8, old_, new_, e);
      TupleExactly(d, p, utf8, old_, q);
      TupleExactly(d, q + 1, utf8, new_, e);
    } else if BothRowsAt(d, p, utf8, old_, new_, e) {
      var q: nat :| RowAt(d, p, utf8, old_, q) && RowAt(d, q + 1, utf8, new_, e);
      TupleExactly(d, p, utf8, old_, q);
      TupleExactly(d, q + 1, utf8, new_, e);
      AssembleRows(d, p, old_, q, new_, e, utf8);
    }
  }

  lemma UpdateByMarker(d: Bytes, p: nat, utf8: Utf8, m: Message, e: nat)
    requires m.Update?
    ensures ReadUpdate(d, p, utf8) == Got(m, e)
       <==> && I32(d, p) == Got(m.relationId, p + 4) && p + 4 < |d|
            && (if d[p + 4] == 'K' as int || d[p + 4] == 'O' as int
                then m.old_.Some? && m.oldIsKeyOnly == (d[p + 4] == 'K' as int) && ReadBothRows(d, p + 5, utf8) == Got((m.old_.value, m.new_), e)
                else m.old_.None? && !m.oldIsKeyOnly && ReadTuple(d, p + 5, utf8) == Got(m.new_, e))
  {
  }

  lemma UpdateExactly(d: Bytes, p: nat, utf8: Utf8, m: Message, e: nat)
    requires p <= |d| && m.Update?
    ensures ReadBody(Kind(m), d, p, utf8) == Got(m, e) <==> BodyAt(d, p, utf8, m, e)
  {
    UpdateByMarker(d, p, utf8, m, e);
    SignedExactly(d, p, 4, m.relationId, p + 4);
    if m.old_.Some? {
      BothRowsExactly(d, p + 5, utf8, m.old_.value, m.new_, e);
    } else {
      TupleExactly(d, p + 5, utf8, m.new_, e);
    }
  }

  lemma TruncateExactly(d: Bytes, p: nat, utf8: Utf8, m: Message, e: nat)
    requires p <= |d| && m.Truncate?
    ensures ReadBody(Kind(m), d, p, utf8) == Got(m, e) <==> BodyAt(d, p, utf8, m, e)
  {
    SignedExactly(d, p, 4, |m.relationIds|, p + 4);
    if FitsSigned(|m.relationIds|, 4) {
      IdsExactly(d, p + 5, |m.relationIds|, m.relationIds, e);
    }
    if ReadTruncate(d, p) == Got(m, e) {
      assert I32(d, p).value == |m.relationIds|;
    }
  }

  lemma LogicalByParts(d: Bytes, p: nat, utf8: Utf8, m: Message, e: nat)
    requires m.LogicalMessage?
    ensures ReadLogical(d, p, utf8) == Got(m, e)
       <==> && p < |d| && (d[p] % 2 == 1) == m.transactional && U64(d, p + 1) == Got(m.lsn, p + 9)
            && ReadPayload(d, p + 9, utf8) == Got((m.prefix, m.content), e)
  {
  }

  lemma LogicalExactly(d: Bytes, p: nat, utf8: Utf8, m: Message, e: nat)
    requires p <= |d| && m.LogicalMessage?
    ensures ReadBody(Kind(m), d, p, utf8) == Got(m, e) <==> BodyAt(d, p, utf8, m, e)
  {
    LogicalByParts(d, p, utf8, m, e);
    UnsignedExactly(d, p + 1, 8, m.lsn, p + 9);
    PayloadExactly(d, p + 9, utf8, (m.prefix, m.content), e);
    if Encodable(m, utf8) {
      SpellsConcat(d, p + 1, ToBytes(m.lsn, 8), EncPayload(m.prefix, m.content));
    }
  }

  lemma ShapeExactly(d: Bytes, p: nat, utf8: Utf8, identity: ReplicaIdentity, columns: seq<RelationColumn>, e: nat)
    ensures ReadShape(d, p, utf8) == Got((identity, columns), e)
       <==> Spells(d, p, [EncIdentity(identity)]) && RelationColumnsAt(d, p + 1, utf8, columns, e)
  {
    IdentityExactly(d, p, identity, p + 1);
    RelationColumnsExactly(d, p + 1, utf8, columns, e);
  }

  lemma RelationByParts(d: Bytes, p: nat, utf8: Utf8, m: Message, e: nat)
    requires m.Relation?
    ensures ReadRelation(d, p, utf8) == Got(m, e)
       <==> && I32(d, p) == Got(m.relationId, p + 4)
            && var names := ReadNames(d, p + 4, utf8);
               names.Got? && names.value == (m.namespace, m.name) && ReadShape(d, names.end, utf8) == Got((m.identity, m.columns), e)
  {
  }

  lemma HeadExactly(d: Bytes, p: nat, id: int, names: Bytes, identity: byte)
    requires FitsSigned(id, 4)
    ensures Spells(d, p, EncInt(id, 4) + (names + [identity]))
       <==> Spells(d, p, EncInt(id, 4)) && Spells(d, p + 4, names) && Spells(d, p + 4 + |names|, [identity])
  {
    SpellsConcat(d, p, EncInt(id, 4), names + [identity]);
    SpellsConcat(d, p + 4, names, [identity]);
  }

  lemma RelationOpens(d: Bytes, p: nat, utf8: Utf8, m: Message, e: nat) returns (q: nat)
    requires m.Relation? && ReadRelation(d, p, utf8) == Got(m, e)
    ensures I32(d, p) == Got(m.relationId, p + 4) && ReadNames(d, p + 4, utf8) == Got((m.namespace, m.name), q)
    ensures ReadShape(d, q, utf8) == Got((m.identity, m.columns), e)
  {
    RelationByParts(d, p, utf8, m, e);
    q := ReadNames(d, p + 4, utf8).end;
  }

  lemma RelationHeadSpells(d: Bytes, p: nat, utf8: Utf8, id: int, names: (Bytes, Bytes), identity: byte, q: nat)
    requires I32(d, p) == Got(id, p + 4) && ReadNames(d, p + 4, utf8) == Got(names, q) && Spells(d, q, [identity])
    ensures FitsSigned(id, 4) && Sendable(names.0, utf8) && Sendable(names.1, utf8) && q == p + 4 + |EncNames(names.0, names.1)|
    ensures Spells(d, p, EncInt(id, 4) + (EncNames(names.0, names.1) + [identity]))
  {
    SignedExactly(d, p, 4, id, p + 4);
    NamesExactly(d, p + 4, utf8, names, q);
    HeadExactly(d, p, id, EncNames(names.0, names.1), identity);
  }

  lemma RelationFromParts(d: Bytes, p: nat, utf8: Utf8, m: Message, q: nat, e: nat)
    requires m.Relation? && I32(d, p) == Got(m.relationId, p + 4) && ReadNames(d, p + 4, utf8) == Got((m.namespace, m.name), q)
    requires Spells(d, q, [EncIdentity(m.identity)]) && RelationColumnsAt(d, q + 1, utf8, m.columns, e)
    ensures RelationAt(d, p, utf8, m.relationId, m.namespace, m.name, m.identity, m.columns, e)
  {
    RelationHeadSpells(d, p, utf8, m.relationId, (m.namespace, m.name), EncIdentity(m.identity), q);
  }

  lemma RelationSpells(d: Bytes, p: nat, utf8: Utf8, m: Message, e: nat)
    requires m.Relation? && ReadRelation(d, p, utf8) == Got(m, e)
    ensures BodyAt(d, p, utf8, m, e)
  {
    var q := RelationOpens(d, p, utf8, m, e);
    ShapeExactly(d, q, utf8, m.identity, m.columns, e);
    RelationFromParts(d, p, utf8, m, q, e);
  }

  lemma RelationPartsRead(d: Bytes, p: nat, utf8: Utf8, m: Message, q: nat, e: nat)
    requires m.Relation? && RelationAt(d, p, utf8, m.relationId, m.namespace, m.name, m.identity, m.columns, e)
    requires q == p + 4 + |EncNames(m.namespace, m.name)|
    ensures I32(d, p) == Got(m.relationId, p + 4) && ReadNames(d, p + 4, utf8) == Got((m.namespace, m.name), q)
    ensures Spells(d, q, [EncIdentity(m.identity)]) && RelationColumnsAt(d, q + 1, utf8, m.columns, e)
  {
    HeadExactly(d, p, m.relationId, EncNames(m.namespace, m.name), EncIdentity(m.identity));
    assert |EncInt(m.relationId, 4)| == 4;
    SpellsI32(d, p, m.relationId);
    SpellsNames(d, p + 4, m.namespace, m.name, utf8);
  }

  lemma RelationReads(d: Bytes, p: nat, utf8: Utf8, m: Message, e: nat)
    requires m.Relation? && BodyAt(d, p, utf8, m, e)
    ensures ReadRelation(d, p, utf8) == Got(m, e)
  {
    var q := p + 4 + |EncNames(m.namespace, m.name)|;
    RelationPartsRead(d, p, utf8, m, q, e);
    ShapeExactly(d, q, utf8, m.identity, m.columns, e);
    AssembleRelation(d, p, m.relationId, (m.namespace, m.name), q, (m.identity, m.columns), e, utf8);
  }

  lemma RelationExactly(d: Bytes, p: nat, utf8: Utf8, m: Message, e: nat)
    requires p <= |d| && m.Relation?
    ensures ReadBody(Kind(m), d, p, utf8) == Got(m, e) <==> BodyAt(d, p, utf8, m, e)
  {
    if ReadRelation(d, p, utf8) == Got(m, e) {
      RelationSpells(d, p, utf8, m, e);
    } else if BodyAt(d, p, utf8, m, e) {
      RelationReads(d, p, utf8, m, e);
    }
  }

  predicate KnownKind(kind: byte) {
    kind in ['B' as int, 'C' as int, 'R' as int, 'I' as int, 'U' as int, 'D' as int, 'M' as int, 'T' as int, 'O' as int, 'Y' as int]
  }

  /** A first byte that is the message's, and then its body. */
  ghost predicate MessageAt(d: Bytes, utf8: Utf8, m: Message, e: nat) {
    d != [] && d[0] == Kind(m) && (m.Unsupported? ==> !KnownKind(m.kind)) && BodyAt(d, 1, utf8, m, e)
  }

  lemma BodyExactly(d: Bytes, p: nat, utf8: Utf8, m: Message, e: nat)
    requires p <= |d| && !m.Unsupported?
    ensures ReadBody(Kind(m), d, p, utf8) == Got(m, e) <==> BodyAt(d, p, utf8, m, e)
  {
    match m
    case Begin(_, _, _) => BeginExactly(d, p, utf8, m, e);
    case Commit(_, _, _) => CommitExactly(d, p, utf8, m, e);
    case Relation(_, _, _, _, _) => RelationExactly(d, p, utf8, m, e);
    case Insert(_, _) => InsertExactly(d, p, utf8, m, e);
    case Update(_, _, _, _) => UpdateExactly(d, p, utf8, m, e);
    case Delete(_, _, _) => DeleteExactly(d, p, utf8, m, e);
    case Truncate(_, _, _) => TruncateExactly(d, p, utf8, m, e);
    case LogicalMessage(_, _, _, _) => LogicalExactly(d, p, utf8, m, e);
    case Origin(_, _) => OriginExactly(d, p, utf8, m, e);
    case Type(_, _, _) => TypeExactly(d, p, utf8, m, e);
  }

  lemma BodiesAreOfTheirKind(d: Bytes, p: nat, utf8: Utf8)
    ensures ReadBegin(d, p).Got? ==> ReadBegin(d, p).value.Begin?
    ensures ReadCommit(d, p).Got? ==> ReadCommit(d, p).value.Commit?
    ensures ReadOrigin(d, p, utf8).Got? ==> ReadOrigin(d, p, utf8).value.Origin?
  {
  }

  lemma OthersAreOfTheirKind(d: Bytes, p: nat, utf8: Utf8)
    ensures ReadType(d, p, utf8).Got? ==> ReadType(d, p, utf8).value.Type?
    ensures ReadLogical(d, p, utf8).Got? ==> ReadLogical(d, p, utf8).value.LogicalMessage?
    ensures ReadTruncate(d, p).Got? ==> ReadTruncate(d, p).value.Truncate?
  {
  }

  lemma RowsAreOfTheirKind(d: Bytes, p: nat, utf8: Utf8)
    ensures ReadRelation(d, p, utf8).Got? ==> ReadRelation(d, p, utf8).value.Relation?
    ensures ReadInsert(d, p, utf8).Got? ==> ReadInsert(d, p, utf8).value.Insert?
    ensures ReadUpdate(d, p, utf8).Got? ==> ReadUpdate(d, p, utf8).value.Update?
    ensures ReadDelete(d, p, utf8).Got? ==> ReadDelete(d, p, utf8).value.Delete?
  {
  }

  lemma UnknownKinds(kind: byte, d: Bytes, p: nat, utf8: Utf8)
    requires p <= |d|
    ensures !KnownKind(kind) ==> ReadBody(kind, d, p, utf8) == Got(Unsupported(kind), p)
  {
    var kinds := ['B' as int, 'C' as int, 'R' as int, 'I' as int, 'U' as int, 'D' as int, 'M' as int, 'T' as int, 'O' as int, 'Y' as int];
    assert kinds[0] == 'B' as int && kinds[1] == 'C' as int && kinds[2] == 'R' as int && kinds[3] == 'I' as int && kinds[4] == 'U' as int;
    assert kinds[5] == 'D' as int && kinds[6] == 'M' as int && kinds[7] == 'T' as int && kinds[8] == 'O' as int && kinds[9] == 'Y' as int;
  }

  lemma RowKindIsRead(kind: byte, d: Bytes, p: nat, utf8: Utf8, m: Message, e: nat)
    requires kind == 'R' as int || kind == 'I' as int || kind == 'U' as int || kind == 'D' as int
    requires p <= |d| && ReadBody(kind, d, p, utf8) == Got(m, e)
    ensures kind == Kind(m) && !m.Unsupported?
  {
    RowsAreOfTheirKind(d, p, utf8);
  }

  lemma FrameKindIsRead(kind: byte, d: Bytes, p: nat, utf8: Utf8, m: Message, e: nat)
    requires kind == 'B' as int || kind == 'C' as int || kind == 'O' as int
    requires p <= |d| && ReadBody(kind, d, p, utf8) == Got(m, e)
    ensures kind == Kind(m) && !m.Unsupported?
  {
    BodiesAreOfTheirKind(d, p, utf8);
  }

  lemma OtherKindIsRead(kind: byte, d: Bytes, p: nat, utf8: Utf8, m: Message, e: nat)
    requires kind == 'Y' as int || kind == 'M' as int || kind == 'T' as int
    requires p <= |d| && ReadBody(kind, d, p, utf8) == Got(m, e)
    ensures kind == Kind(m) && !m.Unsupported?
  {
    OthersAreOfTheirKind(d, p, utf8);
  }

  lemma KindIsRead(kind: byte, d: Bytes, p: nat, utf8: Utf8, m: Message, e: nat)
    requires p <= |d| && ReadBody(kind, d, p, utf8) == Got(m, e)
    ensures kind == Kind(m) && (m.Unsupported? ==> !KnownKind(kind) && e == p)
  {
    if kind == 'R' as int || kind == 'I' as int || kind == 'U' as int || kind == 'D' as int {
      RowKindIsRead(kind, d, p, utf8, m, e);
    } else if kind == 'B' as int || kind == 'C' as int || kind == 'O' as int {
      FrameKindIsRead(kind, d, p, utf8, m, e);
    } else if kind == 'Y' as int || kind == 'M' as int || kind == 'T' as int {
      OtherKindIsRead(kind, d, p, utf8, m, e);
    } else {
      UnknownKinds(kind, d, p, utf8);
    }
  }

  /** Bytes are decoded to a message of a certain length exactly if they are that message's. */
  lemma DecodesExactly(d: Bytes, utf8: Utf8, m: Message, e: nat)
    ensures Decode(d, utf8) == Got(m, e) <==> MessageAt(d, utf8, m, e)
  {
    if d != [] {
      if Decode(d, utf8) == Got(m, e) {
        KindIsRead(d[0], d, 1, utf8, m, e);
      }
      UnknownKinds(d[0], d, 1, utf8);
      if !m.Unsupported? {
        BodyExactly(d, 1, utf8, m, e);
      }
    }
  }

  // ---- How a read fails ------------------------------------------------------

  /** A column fails with its kind byte if that is none of the four, with its text if that is not UTF-8, and panics on a negative length. */
  lemma ColumnFails(d: Bytes, p: nat, utf8: Utf8)
    requires p < |d|
    ensures d[p] !in ['n' as int, 'u' as int, 't' as int, 'b' as int] ==> ReadColumn(d, p, utf8) == Bad(UnknownColumnKind(d[p]))
    ensures d[p] == 't' as int || d[p] == 'b' as int ==>
              match I32(d, p + 1)
              case Got(n, _) =>
                if n < 0 then ReadColumn(d, p, utf8) == Panic
                else if p + 5 + n > |d| then ReadColumn(d, p, utf8) == Bad(TooShort)
                else d[p] == 't' as int && !utf8(d[p + 5..p + 5 + n]) ==> ReadColumn(d, p, utf8) == Bad(InvalidUtf8)
              case _ => ReadColumn(d, p, utf8) == Bad(TooShort)
  {
  }

  /** An unknown replica identity is named; a string without an end is too short, one that is not UTF-8 is refused. */
  lemma PiecesFail(d: Bytes, p: nat, z: nat, utf8: Utf8)
    ensures p < |d| && d[p] !in ['d' as int, 'n' as int, 'f' as int, 'i' as int] ==> ReadIdentity(d, p) == Bad(UnknownReplicaIdentity(d[p]))
    ensures (forall i | p <= i < |d| :: d[i] != 0) ==> CStr(d, p, utf8) == Bad(TooShort)
    ensures p <= z < |d| && d[z] == 0 && (forall i | p <= i < z :: d[i] != 0) && !utf8(d[p..z]) ==> CStr(d, p, utf8) == Bad(InvalidUtf8)
  {
    if p <= z < |d| && d[z] == 0 && forall i | p <= i < z :: d[i] != 0 {
      ZeroIsFirst(d, p, z);
    }
  }

  /** A list fails as its first item that fails. */
  lemma {:induction false} ListFailsAtFirst<T>(read: nat -> Parsed<T>, p: nat, n: nat, k: nat, limit: nat)
    requires Bounded(read, limit) && k < n && Repeat(read, p, k, limit).Got? && read(Repeat(read, p, k, limit).end).IsFailure()
    ensures Repeat(read, p, n, limit) == read(Repeat(read, p, k, limit).end).PropagateFailure()
    decreases n
  {
    if k > 0 {
      ListFailsAtFirst(read, read(p).end, n - 1, k - 1, limit);
    }
  }
}
