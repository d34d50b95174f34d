/**
 An encoder for the `pgoutput` format, after "Logical Replication Message Formats" in the
 Frontend/Backend Protocol chapter of the PostgreSQL documentation, and the round trip.
 */
module WireEncoding {
  import opened Base
  import opened WireFormat
  import opened WireProofs

  // ---- The encoder -----------------------------------------------------------

  function ToBytes(n: nat, size: nat): (b: Bytes)
    ensures |b| == size
  {
    if size == 0 then [] else ToBytes(n / 256, size - 1) + [n % 256]
  }

  /** The integers of `size` bytes in two's complement. */
  predicate FitsSigned(i: int, size: nat) {
    -1 * Pow256(size) <= 2 * i < Pow256(size)
  }

  predicate FitsUnsigned(n: nat, size: nat) {
    n < Pow256(size)
  }

  function EncInt(i: int, size: nat): (b: Bytes)
    requires FitsSigned(i, size)
    ensures |b| == size
  {
    ToBytes(if i < 0 then i + Pow256(size) else i, size)
  }

  /** A string that can be sent zero-terminated. */
  predicate Sendable(s: Bytes, utf8: Utf8) {
    utf8(s) && 0 !in s
  }

  function EncString(s: Bytes): Bytes {
    s + [0]
  }

  predicate Countable(b: Bytes) {
    FitsSigned(|b|, 4)
  }

  function EncCounted(b: Bytes): Bytes
    requires Countable(b)
  {
    EncInt(|b|, 4) + b
  }

  predicate ColumnFits(c: TupleColumn, utf8: Utf8) {
    match c
    case Text(text) => Countable(text) && utf8(text)
    case Binary(raw) => Countable(raw)
    case _ => true
  }

  function EncColumn(c: TupleColumn, utf8: Utf8): Bytes
    requires ColumnFits(c, utf8)
  {
    match c
    case Null => ['n' as int]
    case UnchangedToast => ['u' as int]
    case Text(text) => ['t' as int] + EncCounted(text)
    case Binary(raw) => ['b' as int] + EncCounted(raw)
  }

  /** The encodings of a list, one after the other. */
  function EncEach<T>(xs: seq<T>, enc: T --> Bytes): Bytes
    requires forall i | 0 <= i < |xs| :: enc.requires(xs[i])
  {
    if xs == [] then [] else enc(xs[0]) + EncEach(xs[1..], enc)
  }

  predicate TupleFits(t: Tuple, utf8: Utf8) {
    FitsSigned(|t|, 2) && forall i | 0 <= i < |t| :: ColumnFits(t[i], utf8)
  }

  function EncTuple(t: Tuple, utf8: Utf8): Bytes
    requires TupleFits(t, utf8)
  {
    EncInt(|t|, 2) + EncEach(t, (c: TupleColumn) requires ColumnFits(c, utf8) => EncColumn(c, utf8))
  }

  predicate RelationColumnFits(c: RelationColumn, utf8: Utf8) {
    Sendable(c.name, utf8) && FitsSigned(c.typeOid, 4) && FitsSigned(c.atttypmod, 4)
  }

  function EncFlag(b: bool): byte {
    if b then 1 else 0
  }

  function EncRelationColumn(c: RelationColumn, utf8: Utf8): Bytes
    requires RelationColumnFits(c, utf8)
  {
    [EncFlag(c.isKey)] + (EncString(c.name) + (EncInt(c.typeOid, 4) + EncInt(c.atttypmod, 4)))
  }

  predicate RelationColumnsFit(cs: seq<RelationColumn>, utf8: Utf8) {
    FitsSigned(|cs|, 2) && forall i | 0 <= i < |cs| :: RelationColumnFits(cs[i], utf8)
  }

  function EncRelationColumns(cs: seq<RelationColumn>, utf8: Utf8): Bytes
    requires RelationColumnsFit(cs, utf8)
  {
    EncInt(|cs|, 2) + EncEach(cs, (c: RelationColumn) requires RelationColumnFits(c, utf8) => EncRelationColumn(c, utf8))
  }

  function EncIdentity(i: ReplicaIdentity): byte {
    match i
    case Default => 'd' as int
    case Nothing => 'n' as int
    case Full => 'f' as int
    case UsingIndex => 'i' as int
  }

  predicate IdsFit(ids: seq<int>) {
    FitsSigned(|ids|, 4) && forall i | 0 <= i < |ids| :: FitsSigned(ids[i], 4)
  }

  function EncIds(ids: seq<int>): Bytes
    requires IdsFit(ids)
  {
    EncEach(ids, (id: int) requires FitsSigned(id, 4) => EncInt(id, 4))
  }

  /** A message the protocol can carry. */
  predicate Encodable(m: Message, utf8: Utf8) {
    match m
    case Begin(lsn, timestamp, xid) => FitsUnsigned(lsn, 8) && FitsSigned(timestamp, 8) && FitsSigned(xid, 4)
    case Commit(commitLsn, endLsn, timestamp) => FitsUnsigned(commitLsn, 8) && FitsUnsigned(endLsn, 8) && FitsSigned(timestamp, 8)
    case Relation(id, namespace, name, _, columns) =>
      FitsSigned(id, 4) && Sendable(namespace, utf8) && Sendable(name, utf8) && RelationColumnsFit(columns, utf8)
    case Insert(id, new_) => FitsSigned(id, 4) && TupleFits(new_, utf8)
    case Update(id, old_, keyOnly, new_) =>
      FitsSigned(id, 4) && TupleFits(new_, utf8) && (if old_.Some? then TupleFits(old_.value, utf8) else !keyOnly)
    case Delete(id, key, _) => FitsSigned(id, 4) && TupleFits(key, utf8)
    case Truncate(ids, _, _) => IdsFit(ids)
    case LogicalMessage(_, lsn, prefix, content) => FitsUnsigned(lsn, 8) && Sendable(prefix, utf8) && Countable(content)
    case Origin(lsn, name) => FitsUnsigned(lsn, 8) && Sendable(name, utf8)
    case Type(oid, namespace, name) => FitsSigned(oid, 4) && Sendable(namespace, utf8) && Sendable(name, utf8)
    case Unsupported(_) => false
  }

  function Kind(m: Message): byte {
    match m
    case Begin(_, _, _) => 'B' as int
    case Commit(_, _, _) => 'C' as int
    case Relation(_, _, _, _, _) => 'R' as int
    case Insert(_, _) => 'I' as int
    case Update(_, _, _, _) => 'U' as int
    case Delete(_, _, _) => 'D' as int
    case Truncate(_, _, _) => 'T' as int
    case LogicalMessage(_, _, _, _) => 'M' as int
    case Origin(_, _) => 'O' as int
    case Type(_, _, _) => 'Y' as int
    case Unsupported(kind) => kind
  }

  /** `N` before a new row, `K` before a key, `O` before a whole old row. */
  function OldMarker(keyOnly: bool): byte {
    if keyOnly then 'K' as int else 'O' as int
  }

  function EncRows(old_: Option<Tuple>, keyOnly: bool, new_: Tuple, utf8: Utf8): Bytes
    requires TupleFits(new_, utf8) && (old_.Some? ==> TupleFits(old_.value, utf8))
  {
    if old_.None? then ['N' as int] + EncTuple(new_, utf8)
    else [OldMarker(keyOnly)] + (EncTuple(old_.value, utf8) + (['N' as int] + EncTuple(new_, utf8)))
  }

  function EncNames(namespace: Bytes, name: Bytes): Bytes {
    EncString(namespace) + EncString(name)
  }

  function EncPayload(prefix: Bytes, content: Bytes): Bytes
    requires Countable(content)
  {
    EncString(prefix) + EncCounted(content)
  }

  function EncShape(identity: ReplicaIdentity, columns: seq<RelationColumn>, utf8: Utf8): Bytes
    requires RelationColumnsFit(columns, utf8)
  {
    [EncIdentity(identity)] + EncRelationColumns(columns, utf8)
  }

  function EncBody(m: Message, utf8: Utf8): Bytes
    requires Encodable(m, utf8)
  {
    match m
    case Begin(lsn, timestamp, xid) => ToBytes(lsn, 8) + (EncInt(timestamp, 8) + EncInt(xid, 4))
    case Commit(commitLsn, endLsn, timestamp) => [0] + (ToBytes(commitLsn, 8) + (ToBytes(endLsn, 8) + EncInt(timestamp, 8)))
    case Relation(id, namespace, name, identity, columns) =>
      EncInt(id, 4) + (EncNames(namespace, name) + EncShape(identity, columns, utf8))
    case Insert(id, new_) => EncInt(id, 4) + (['N' as int] + EncTuple(new_, utf8))
    case Update(id, old_, keyOnly, new_) => EncInt(id, 4) + EncRows(old_, keyOnly, new_, utf8)
    case Delete(id, key, keyOnly) => EncInt(id, 4) + ([OldMarker(keyOnly)] + EncTuple(key, utf8))
    case Truncate(ids, cascade, restart) => EncInt(|ids|, 4) + ([EncFlag(cascade) + 2 * EncFlag(restart)] + EncIds(ids))
    case LogicalMessage(transactional, lsn, prefix, content) =>
      [EncFlag(transactional)] + (ToBytes(lsn, 8) + EncPayload(prefix, content))
    case Origin(lsn, name) => ToBytes(lsn, 8) + EncString(name)
    case Type(oid, namespace, name) => EncInt(oid, 4) + EncNames(namespace, name)
  }

  function Encode(m: Message, utf8: Utf8): Bytes
    requires Encodable(m, utf8)
  {
    [Kind(m)] + EncBody(m, utf8)
  }

  // ---- Reading back ----------------------------------------------------------

  /** The buffer holds these bytes at this position. */
  ghost predicate Spells(d: Bytes, p: nat, b: Bytes) {
    p + |b| <= |d| && d[p..p + |b|] == b
  }

  lemma SpellsBoth(d: Bytes, p: nat, a: Bytes, b: Bytes)
    requires Spells(d, p, a + b)
    ensures Spells(d, p, a) && Spells(d, p + |a|, b)
  {
    var s := d[p..p + |a + b|];
    assert s == a + b;
    assert d[p..p + |a|] == s[..|a|] == a;
    assert d[p + |a|..p + |a| + |b|] == s[|a|..] == b;
  }

  lemma SpellsByte(d: Bytes, p: nat, b: byte)
    requires Spells(d, p, [b])
    ensures U8(d, p) == Got(b, p + 1)
  {
    assert d[p..p + 1][0] == b;
  }

  lemma {:induction false} BytesRoundTrip(n: nat, size: nat)
    requires FitsUnsigned(n, size)
    ensures FromBytes(ToBytes(n, size)) == n
  {
    if size > 0 {
      BytesRoundTrip(n / 256, size - 1);
      var b := ToBytes(n, size);
      assert b[..size - 1] == ToBytes(n / 256, size - 1) && b[size - 1] == n % 256;
    }
  }

  lemma SpellsTake(d: Bytes, p: nat, b: Bytes)
    requires Spells(d, p, b)
    ensures Take(d, p, |b|) == Got(b, p + |b|)
  {
  }

  lemma SpellsUnsigned(d: Bytes, p: nat, n: nat, size: nat)
    requires FitsUnsigned(n, size) && Spells(d, p, ToBytes(n, size))
    ensures Unsigned(d, p, size) == Got(n, p + size)
  {
    SpellsTake(d, p, ToBytes(n, size));
    BytesRoundTrip(n, size);
  }

  lemma SpellsSigned(d: Bytes, p: nat, i: int, size: nat)
    requires FitsSigned(i, size) && Spells(d, p, EncInt(i, size))
    ensures SignedInt(d, p, size) == Got(i, p + size)
  {
    SpellsTake(d, p, EncInt(i, size));
    BytesRoundTrip(if i < 0 then i + Pow256(size) else i, size);
  }

  lemma SpellsI16(d: Bytes, p: nat, i: int)
    requires FitsSigned(i, 2) && Spells(d, p, EncInt(i, 2))
    ensures I16(d, p) == Got(i, p + 2)
  {
    SpellsSigned(d, p, i, 2);
  }

  lemma SpellsI32(d: Bytes, p: nat, i: int)
    requires FitsSigned(i, 4) && Spells(d, p, EncInt(i, 4))
    ensures I32(d, p) == Got(i, p + 4)
  {
    SpellsSigned(d, p, i, 4);
  }

  lemma SpellsI64(d: Bytes, p: nat, i: int)
    requires FitsSigned(i, 8) && Spells(d, p, EncInt(i, 8))
    ensures I64(d, p) == Got(i, p + 8)
  {
    SpellsSigned(d, p, i, 8);
  }

  lemma SpellsU64(d: Bytes, p: nat, n: nat)
    requires FitsUnsigned(n, 8) && Spells(d, p, ToBytes(n, 8))
    ensures U64(d, p) == Got(n, p + 8)
  {
    SpellsUnsigned(d, p, n, 8);
  }

  lemma SpellsString(d: Bytes, p: nat, s: Bytes, utf8: Utf8)
    requires Sendable(s, utf8) && Spells(d, p, EncString(s))
    ensures CStr(d, p, utf8) == Got(s, p + |EncString(s)|)
  {
    SpellsBoth(d, p, s, [0]);
    SpellsByte(d, p + |s|, 0);
    forall i | p <= i < p + |s| ensures d[i] != 0 {
      assert d[p..p + |s|][i - p] == s[i - p];
    }
    ZeroIsFirst(d, p, p + |s|);
  }

  lemma SpellsCounted(d: Bytes, p: nat, b: Bytes)
    requires Countable(b) && Spells(d, p, EncCounted(b))
    ensures Counted(d, p) == Got(b, p + |EncCounted(b)|)
  {
    SpellsBoth(d, p, EncInt(|b|, 4), b);
    SpellsI32(d, p, |b|);
    SpellsTake(d, p + 4, b);
  }

  lemma SpellsColumn(d: Bytes, p: nat, c: TupleColumn, utf8: Utf8)
    requires ColumnFits(c, utf8) && Spells(d, p, EncColumn(c, utf8))
    ensures ReadColumn(d, p, utf8) == Got(c, p + |EncColumn(c, utf8)|)
  {
    match c
    case Null => SpellsByte(d, p, 'n' as int);
    case UnchangedToast => SpellsByte(d, p, 'u' as int);
    case Text(text) =>
      SpellsBoth(d, p, ['t' as int], EncCounted(text));
      SpellsByte(d, p, 't' as int);
      SpellsCounted(d, p + 1, text);
    case Binary(raw) =>
      SpellsBoth(d, p, ['b' as int], EncCounted(raw));
      SpellsByte(d, p, 'b' as int);
      SpellsCounted(d, p + 1, raw);
  }

  ghost predicate AllEncode<T>(xs: seq<T>, enc: T --> Bytes) {
    forall i | 0 <= i < |xs| :: enc.requires(xs[i])
  }

  /** Each item of a list reads back wherever the buffer holds its encoding. */
  ghost predicate ReadBack<T>(d: Bytes, xs: seq<T>, enc: T --> Bytes, read: nat -> Parsed<T>)
    requires AllEncode(xs, enc)
  {
    forall q: nat, i | 0 <= i < |xs| && Spells(d, q, enc(xs[i])) :: read(q) == Got(xs[i], q + |enc(xs[i])|)
  }

  lemma RestReadsBack<T>(d: Bytes, xs: seq<T>, enc: T --> Bytes, read: nat -> Parsed<T>)
    requires xs != [] && AllEncode(xs, enc) && ReadBack(d, xs, enc, read)
    ensures AllEncode(xs[1..], enc) && ReadBack(d, xs[1..], enc, read)
  {
    var rest := xs[1..];
    assert forall i | 0 <= i < |rest| :: rest[i] == xs[i + 1];
  }

  lemma FirstReadsBack<T>(d: Bytes, p: nat, xs: seq<T>, enc: T --> Bytes, read: nat -> Parsed<T>)
    requires xs != [] && AllEncode(xs, enc) && ReadBack(d, xs, enc, read) && Spells(d, p, EncEach(xs, enc))
    ensures read(p) == Got(xs[0], p + |enc(xs[0])|) && Spells(d, p + |enc(xs[0])|, EncEach(xs[1..], enc))
    ensures |EncEach(xs, enc)| == |enc(xs[0])| + |EncEach(xs[1..], enc)|
  {
    SpellsBoth(d, p, enc(xs[0]), EncEach(xs[1..], enc));
  }

  lemma RepeatOnce<T>(read: nat -> Parsed<T>, p: nat, xs: seq<T>, q: nat, limit: nat)
    requires Bounded(read, limit) && xs != [] && read(p) == Got(xs[0], q) && Repeat(read, q, |xs| - 1, limit).Got?
    requires Repeat(read, q, |xs| - 1, limit).value == xs[1..]
    ensures Repeat(read, p, |xs|, limit) == Got(xs, Repeat(read, q, |xs| - 1, limit).end)
  {
    assert [xs[0]] + xs[1..] == xs;
  }

  /** A list whose items read back, reads back. */
  lemma {:induction false} SpellsEach<T>(d: Bytes, p: nat, xs: seq<T>, enc: T --> Bytes, read: nat -> Parsed<T>)
    requires Bounded(read, |d|) && AllEncode(xs, enc) && ReadBack(d, xs, enc, read) && Spells(d, p, EncEach(xs, enc))
    ensures Repeat(read, p, |xs|, |d|) == Got(xs, p + |EncEach(xs, enc)|)
    decreases |xs|
  {
    if xs != [] {
      FirstReadsBack(d, p, xs, enc, read);
      RestReadsBack(d, xs, enc, read);
      var q, rest := p + |enc(xs[0])|, xs[1..];
      SpellsEach(d, q, rest, enc, read);
      assert |rest| == |xs| - 1;
      RepeatOnce(read, p, xs, q, |d|);
    }
  }

  lemma Split3(d: Bytes, p: nat, a: Bytes, b: Bytes, c: Bytes)
    requires Spells(d, p, a + (b + c))
    ensures Spells(d, p, a) && Spells(d, p + |a|, b) && Spells(d, p + |a| + |b|, c)
  {
    SpellsBoth(d, p, a, b + c);
    SpellsBoth(d, p + |a|, b, c);
  }

  lemma Split4(d: Bytes, p: nat, a: Bytes, b: Bytes, c: Bytes, e: Bytes)
    requires Spells(d, p, a + (b + (c + e)))
    ensures Spells(d, p, a) && Spells(d, p + |a|, b) && Spells(d, p + |a| + |b|, c) && Spells(d, p + |a| + |b| + |c|, e)
  {
    SpellsBoth(d, p, a, b + (c + e));
    Split3(d, p + |a|, b, c, e);
  }

  lemma ColumnsReadBack(d: Bytes, t: Tuple, utf8: Utf8, enc: TupleColumn --> Bytes, read: nat -> Parsed<TupleColumn>)
    requires TupleFits(t, utf8)
    requires enc == ((c: TupleColumn) requires ColumnFits(c, utf8) => EncColumn(c, utf8))
    requires forall q: nat :: read(q) == ReadColumn(d, q, utf8)
    ensures AllEncode(t, enc) && ReadBack(d, t, enc, read)
  {
    forall q: nat, i | 0 <= i < |t| && Spells(d, q, enc(t[i])) ensures read(q) == Got(t[i], q + |enc(t[i])|) {
      SpellsColumn(d, q, t[i], utf8);
    }
  }

  lemma SpellsTuple(d: Bytes, p: nat, t: Tuple, utf8: Utf8)
    requires TupleFits(t, utf8) && Spells(d, p, EncTuple(t, utf8))
    ensures ReadTuple(d, p, utf8) == Got(t, p + |EncTuple(t, utf8)|)
  {
    var enc := (c: TupleColumn) requires ColumnFits(c, utf8) => EncColumn(c, utf8);
    var read := (q: nat) => ReadColumn(d, q, utf8);
    SpellsBoth(d, p, EncInt(|t|, 2), EncEach(t, enc));
    SpellsI16(d, p, |t|);
    ColumnsReadBack(d, t, utf8, enc, read);
    SpellsEach(d, p + 2, t, enc, read);
  }

  lemma AssembleRelationColumn(d: Bytes, p: nat, flags: byte, name: Bytes, q: nat, typeOid: int, atttypmod: int, utf8: Utf8)
    requires U8(d, p) == Got(flags, p + 1) && CStr(d, p + 1, utf8) == Got(name, q)
    requires I32(d, q) == Got(typeOid, q + 4) && I32(d, q + 4) == Got(atttypmod, q + 8)
    ensures ReadRelationColumn(d, p, utf8) == Got(RelationColumn(Bit(flags, 1), name, typeOid, atttypmod), q + 8)
  {
  }

  lemma SpellsRelationColumn(d: Bytes, p: nat, c: RelationColumn, utf8: Utf8)
    requires RelationColumnFits(c, utf8) && Spells(d, p, EncRelationColumn(c, utf8))
    ensures ReadRelationColumn(d, p, utf8) == Got(c, p + |EncRelationColumn(c, utf8)|)
  {
    var flag, name := EncFlag(c.isKey), EncString(c.name);
    Split4(d, p, [flag], name, EncInt(c.typeOid, 4), EncInt(c.atttypmod, 4));
    var q := p + 1 + |name|;
    SpellsByte(d, p, flag);
    SpellsString(d, p + 1, c.name, utf8);
    SpellsI32(d, q, c.typeOid);
    SpellsI32(d, q + 4, c.atttypmod);
    AssembleRelationColumn(d, p, flag, c.name, q, c.typeOid, c.atttypmod, utf8);
  }

  lemma RelationColumnsReadBack(d: Bytes, cs: seq<RelationColumn>, utf8: Utf8, enc: RelationColumn --> Bytes, read: nat -> Parsed<RelationColumn>)
    requires RelationColumnsFit(cs, utf8)
    requires enc == ((c: RelationColumn) requires RelationColumnFits(c, utf8) => EncRelationColumn(c, utf8))
    requires forall q: nat :: read(q) == ReadRelationColumn(d, q, utf8)
    ensures AllEncode(cs, enc) && ReadBack(d, cs, enc, read)
  {
    forall q: nat, i | 0 <= i < |cs| && Spells(d, q, enc(cs[i])) ensures read(q) == Got(cs[i], q + |enc(cs[i])|) {
      SpellsRelationColumn(d, q, cs[i], utf8);
    }
  }

  lemma SpellsRelationColumns(d: Bytes, p: nat, cs: seq<RelationColumn>, utf8: Utf8)
    requires RelationColumnsFit(cs, utf8) && Spells(d, p, EncRelationColumns(cs, utf8))
    ensures ReadRelationColumns(d, p, utf8) == Got(cs, p + |EncRelationColumns(cs, utf8)|)
  {
    var enc := (c: RelationColumn) requires RelationColumnFits(c, utf8) => EncRelationColumn(c, utf8);
    var read := (q: nat) => ReadRelationColumn(d, q, utf8);
    SpellsBoth(d, p, EncInt(|cs|, 2), EncEach(cs, enc));
    SpellsI16(d, p, |cs|);
    RelationColumnsReadBack(d, cs, utf8, enc, read);
    SpellsEach(d, p + 2, cs, enc, read);
  }

  lemma SpellsIds(d: Bytes, p: nat, ids: seq<int>)
    requires IdsFit(ids) && Spells(d, p, EncIds(ids))
    ensures Repeat(q => I32(d, q), p, |ids|, |d|) == Got(ids, p + |EncIds(ids)|)
  {
    var enc := (id: int) requires FitsSigned(id, 4) => EncInt(id, 4);
    forall q: nat, i | 0 <= i < |ids| && Spells(d, q, enc(ids[i])) ensures I32(d, q) == Got(ids[i], q + |enc(ids[i])|) {
      SpellsI32(d, q, ids[i]);
    }
    SpellsEach(d, p, ids, enc, q => I32(d, q));
  }

  lemma SpellsNames(d: Bytes, p: nat, namespace: Bytes, name: Bytes, utf8: Utf8)
    requires Sendable(namespace, utf8) && Sendable(name, utf8) && Spells(d, p, EncNames(namespace, name))
    ensures ReadNames(d, p, utf8) == Got((namespace, name), p + |EncNames(namespace, name)|)
  {
    SpellsBoth(d, p, EncString(namespace), EncString(name));
    SpellsString(d, p, namespace, utf8);
    var q := p + |EncString(namespace)|;
    SpellsString(d, q, name, utf8);
  }

  lemma SpellsPayload(d: Bytes, p: nat, prefix: Bytes, content: Bytes, utf8: Utf8)
    requires Sendable(prefix, utf8) && Countable(content) && Spells(d, p, EncPayload(prefix, content))
    ensures ReadPayload(d, p, utf8) == Got((prefix, content), p + |EncPayload(prefix, content)|)
  {
    SpellsBoth(d, p, EncString(prefix), EncCounted(content));
    SpellsString(d, p, prefix, utf8);
    var q := p + |EncString(prefix)|;
    SpellsCounted(d, q, content);
  }

  lemma SpellsBegin(d: Bytes, p: nat, m: Message, utf8: Utf8)
    requires m.Begin? && Encodable(m, utf8) && Spells(d, p, EncBody(m, utf8))
    ensures ReadBegin(d, p) == Got(m, p + |EncBody(m, utf8)|)
  {
    Split3(d, p, ToBytes(m.finalLsn, 8), EncInt(m.timestamp, 8), EncInt(m.xid, 4));
    SpellsU64(d, p, m.finalLsn);
    SpellsI64(d, p + 8, m.timestamp);
    SpellsI32(d, p + 16, m.xid);
  }

  lemma SpellsCommit(d: Bytes, p: nat, m: Message, utf8: Utf8)
    requires m.Commit? && Encodable(m, utf8) && Spells(d, p, EncBody(m, utf8))
    ensures ReadCommit(d, p) == Got(m, p + |EncBody(m, utf8)|)
  {
    Split4(d, p, [0], ToBytes(m.commitLsn, 8), ToBytes(m.endLsn, 8), EncInt(m.timestamp, 8));
    SpellsByte(d, p, 0);
    SpellsU64(d, p + 1, m.commitLsn);
    SpellsU64(d, p + 9, m.endLsn);
    SpellsI64(d, p + 17, m.timestamp);
  }

  lemma SpellsIdentity(d: Bytes, p: nat, identity: ReplicaIdentity)
    requires Spells(d, p, [EncIdentity(identity)])
    ensures ReadIdentity(d, p) == Got(identity, p + 1)
  {
    SpellsByte(d, p, EncIdentity(identity));
  }

  lemma SpellsShape(d: Bytes, p: nat, identity: ReplicaIdentity, columns: seq<RelationColumn>, utf8: Utf8)
    requires RelationColumnsFit(columns, utf8) && Spells(d, p, EncShape(identity, columns, utf8))
    ensures ReadShape(d, p, utf8) == Got((identity, columns), p + |EncShape(identity, columns, utf8)|)
  {
    SpellsBoth(d, p, [EncIdentity(identity)], EncRelationColumns(columns, utf8));
    SpellsIdentity(d, p, identity);
    SpellsRelationColumns(d, p + 1, columns, utf8);
  }

  lemma AssembleRelation(d: Bytes, p: nat, id: int, names: (Bytes, Bytes), q: nat, shape: (ReplicaIdentity, seq<RelationColumn>), e: nat, utf8: Utf8)
    requires I32(d, p) == Got(id, p + 4) && ReadNames(d, p + 4, utf8) == Got(names, q) && ReadShape(d, q, utf8) == Got(shape, e)
    ensures ReadRelation(d, p, utf8) == Got(Relation(id, names.0, names.1, shape.0, shape.1), e)
  {
  }

  lemma SpellsRelation(d: Bytes, p: nat, m: Message, utf8: Utf8)
    requires m.Relation? && Encodable(m, utf8) && Spells(d, p, EncBody(m, utf8))
    ensures ReadRelation(d, p, utf8) == Got(m, p + |EncBody(m, utf8)|)
  {
    var names, shape := EncNames(m.namespace, m.name), EncShape(m.identity, m.columns, utf8);
    Split3(d, p, EncInt(m.relationId, 4), names, shape);
    var q := p + 4 + |names|;
    SpellsI32(d, p, m.relationId);
    SpellsNames(d, p + 4, m.namespace, m.name, utf8);
    SpellsShape(d, q, m.identity, m.columns, utf8);
    AssembleRelation(d, p, m.relationId, (m.namespace, m.name), q, (m.identity, m.columns), q + |shape|, utf8);
    assert |EncBody(m, utf8)| == 4 + |names| + |shape|;
  }

  lemma SpellsInsert(d: Bytes, p: nat, m: Message, utf8: Utf8)
    requires m.Insert? && Encodable(m, utf8) && Spells(d, p, EncBody(m, utf8))
    ensures ReadInsert(d, p, utf8) == Got(m, p + |EncBody(m, utf8)|)
  {
    Split3(d, p, EncInt(m.relationId, 4), ['N' as int], EncTuple(m.new_, utf8));
    SpellsI32(d, p, m.relationId);
    SpellsByte(d, p + 4, 'N' as int);
    SpellsTuple(d, p + 5, m.new_, utf8);
  }

  lemma AssembleRows(d: Bytes, p: nat, old_: Tuple, q: nat, new_: Tuple, e: nat, utf8: Utf8)
    requires ReadTuple(d, p, utf8) == Got(old_, q) && U8(d, q).Got? && ReadTuple(d, q + 1, utf8) == Got(new_, e)
    ensures ReadBothRows(d, p, utf8) == Got((old_, new_), e)
  {
  }

  lemma SplitRows(d: Bytes, p: nat, first: Bytes, second: Bytes)
    requires Spells(d, p, first + (['N' as int] + second))
    ensures Spells(d, p, first) && U8(d, p + |first|).Got? && Spells(d, p + |first| + 1, second)
    ensures |first + (['N' as int] + second)| == |first| + 1 + |second|
  {
    Split3(d, p, first, ['N' as int], second);
    SpellsByte(d, p + |first|, 'N' as int);
  }

  lemma SpellsBothRows(d: Bytes, p: nat, old_: Tuple, new_: Tuple, utf8: Utf8)
    requires TupleFits(old_, utf8) && TupleFits(new_, utf8)
    requires Spells(d, p, EncTuple(old_, utf8) + (['N' as int] + EncTuple(new_, utf8)))
    ensures ReadBothRows(d, p, utf8) == Got((old_, new_), p + |EncTuple(old_, utf8) + (['N' as int] + EncTuple(new_, utf8))|)
  {
    SplitRows(d, p, EncTuple(old_, utf8), EncTuple(new_, utf8));
    var q := p + |EncTuple(old_, utf8)|;
    SpellsTuple(d, p, old_, utf8);
    SpellsTuple(d, q + 1, new_, utf8);
    AssembleRows(d, p, old_, q, new_, q + 1 + |EncTuple(new_, utf8)|, utf8);
  }

  lemma SpellsUpdate(d: Bytes, p: nat, m: Message, utf8: Utf8)
    requires m.Update? && Encodable(m, utf8) && Spells(d, p, EncBody(m, utf8))
    ensures ReadUpdate(d, p, utf8) == Got(m, p + |EncBody(m, utf8)|)
  {
    SpellsBoth(d, p, EncInt(m.relationId, 4), EncRows(m.old_, m.oldIsKeyOnly, m.new_, utf8));
    SpellsI32(d, p, m.relationId);
    if m.old_.None? {
      SpellsBoth(d, p + 4, ['N' as int], EncTuple(m.new_, utf8));
      SpellsByte(d, p + 4, 'N' as int);
      SpellsTuple(d, p + 5, m.new_, utf8);
    } else {
      var rows := EncTuple(m.old_.value, utf8) + (['N' as int] + EncTuple(m.new_, utf8));
      SpellsBoth(d, p + 4, [OldMarker(m.oldIsKeyOnly)], rows);
      SpellsByte(d, p + 4, OldMarker(m.oldIsKeyOnly));
      SpellsBothRows(d, p + 5, m.old_.value, m.new_, utf8);
    }
  }

  lemma SpellsDelete(d: Bytes, p: nat, m: Message, utf8: Utf8)
    requires m.Delete? && Encodable(m, utf8) && Spells(d, p, EncBody(m, utf8))
    ensures ReadDelete(d, p, utf8) == Got(m, p + |EncBody(m, utf8)|)
  {
    Split3(d, p, EncInt(m.relationId, 4), [OldMarker(m.isKeyOnly)], EncTuple(m.key, utf8));
    SpellsI32(d, p, m.relationId);
    SpellsByte(d, p + 4, OldMarker(m.isKeyOnly));
    SpellsTuple(d, p + 5, m.key, utf8);
  }

  lemma FlagBits(a: bool, b: bool)
    ensures var flags := EncFlag(a) + 2 * EncFlag(b); Bit(flags, 1) == a && Bit(flags, 2) == b
  {
  }

  lemma AssembleTruncate(d: Bytes, p: nat, n: nat, flags: byte, ids: seq<int>, e: nat)
    requires I32(d, p) == Got(n, p + 4) && U8(d, p + 4) == Got(flags, p + 5) && Repeat(q => I32(d, q), p + 5, n, |d|) == Got(ids, e)
    ensures ReadTruncate(d, p) == Got(Truncate(ids, Bit(flags, 1), Bit(flags, 2)), e)
  {
  }

  lemma SpellsTruncate(d: Bytes, p: nat, m: Message, utf8: Utf8)
    requires m.Truncate? && Encodable(m, utf8) && Spells(d, p, EncBody(m, utf8))
    ensures ReadTruncate(d, p) == Got(m, p + |EncBody(m, utf8)|)
  {
    var n, flags, ids := |m.relationIds|, EncFlag(m.cascade) + 2 * EncFlag(m.restartIdentity), EncIds(m.relationIds);
    Split3(d, p, EncInt(n, 4), [flags], ids);
    SpellsI32(d, p, n);
    SpellsByte(d, p + 4, flags);
    SpellsIds(d, p + 5, m.relationIds);
    AssembleTruncate(d, p, n, flags, m.relationIds, p + 5 + |ids|);
    FlagBits(m.cascade, m.restartIdentity);
  }

  lemma AssembleLogical(d: Bytes, p: nat, flags: byte, lsn: nat, payload: (Bytes, Bytes), e: nat, utf8: Utf8)
    requires U8(d, p) == Got(flags, p + 1) && U64(d, p + 1) == Got(lsn, p + 9) && ReadPayload(d, p + 9, utf8) == Got(payload, e)
    ensures ReadLogical(d, p, utf8) == Got(LogicalMessage(Bit(flags, 1), lsn, payload.0, payload.1), e)
  {
  }

  lemma SpellsLogical(d: Bytes, p: nat, m: Message, utf8: Utf8)
    requires m.LogicalMessage? && Encodable(m, utf8) && Spells(d, p, EncBody(m, utf8))
    ensures ReadLogical(d, p, utf8) == Got(m, p + |EncBody(m, utf8)|)
  {
    var flag, payload := EncFlag(m.transactional), EncPayload(m.prefix, m.content);
    Split3(d, p, [flag], ToBytes(m.lsn, 8), payload);
    SpellsByte(d, p, flag);
    SpellsU64(d, p + 1, m.lsn);
    SpellsPayload(d, p + 9, m.prefix, m.content, utf8);
    AssembleLogical(d, p, flag, m.lsn, (m.prefix, m.content), p + 9 + |payload|, utf8);
  }

  lemma SpellsOrigin(d: Bytes, p: nat, m: Message, utf8: Utf8)
    requires m.Origin? && Encodable(m, utf8) && Spells(d, p, EncBody(m, utf8))
    ensures ReadOrigin(d, p, utf8) == Got(m, p + |EncBody(m, utf8)|)
  {
    SpellsBoth(d, p, ToBytes(m.originLsn, 8), EncString(m.originName));
    SpellsU64(d, p, m.originLsn);
    SpellsString(d, p + 8, m.originName, utf8);
  }

  lemma SpellsType(d: Bytes, p: nat, m: Message, utf8: Utf8)
    requires m.Type? && Encodable(m, utf8) && Spells(d, p, EncBody(m, utf8))
    ensures ReadType(d, p, utf8) == Got(m, p + |EncBody(m, utf8)|)
  {
    SpellsBoth(d, p, EncInt(m.typeOid, 4), EncNames(m.namespace, m.name));
    SpellsI32(d, p, m.typeOid);
    SpellsNames(d, p + 4, m.namespace, m.name, utf8);
  }

  lemma SpellsBody(d: Bytes, p: nat, m: Message, utf8: Utf8)
    requires Encodable(m, utf8) && Spells(d, p, EncBody(m, utf8))
    ensures ReadBody(Kind(m), d, p, utf8) == Got(m, p + |EncBody(m, utf8)|)
  {
    match m
    case Begin(_, _, _) => SpellsBegin(d, p, m, utf8);
    case Commit(_, _, _) => SpellsCommit(d, p, m, utf8);
    case Relation(_, _, _, _, _) => SpellsRelation(d, p, m, utf8);
    case Insert(_, _) => SpellsInsert(d, p, m, utf8);
    case Update(_, _, _, _) => SpellsUpdate(d, p, m, utf8);
    case Delete(_, _, _) => SpellsDelete(d, p, m, utf8);
    case Truncate(_, _, _) => SpellsTruncate(d, p, m, utf8);
    case LogicalMessage(_, _, _, _) => SpellsLogical(d, p, m, utf8);
    case Origin(_, _) => SpellsOrigin(d, p, m, utf8);
    case Type(_, _, _) => SpellsType(d, p, m, utf8);
  }

  /** An encoded message, followed by anything, decodes to itself and its exact length. */
  lemma RoundTrip(m: Message, utf8: Utf8, tail: Bytes)
    requires Encodable(m, utf8)
    ensures Decode(Encode(m, utf8) + tail, utf8) == Got(m, |Encode(m, utf8)|)
  {
    var d := Encode(m, utf8) + tail;
    assert Spells(d, 0, [Kind(m)] + EncBody(m, utf8));
    SpellsBoth(d, 0, [Kind(m)], EncBody(m, utf8));
    SpellsByte(d, 0, Kind(m));
    SpellsBody(d, 1, m, utf8);
  }

  /** Every strict prefix of an encoded message is too short. */
  lemma PrefixesAreTooShort(m: Message, utf8: Utf8, cut: nat)
    requires Encodable(m, utf8) && cut < |Encode(m, utf8)|
    ensures Decode(Encode(m, utf8)[..cut], utf8) == Bad(TooShort)
  {
    RoundTrip(m, utf8, []);
    assert Encode(m, utf8) + [] == Encode(m, utf8);
    DecodeReadsExactly(Encode(m, utf8), utf8, [], cut);
  }

  /** What `DecodeAll` makes of a first message and the rest. */
  function Prepend(m: Message, size: nat, rest: Parsed<seq<Message>>): Parsed<seq<Message>> {
    if rest.Got? then Got([m] + rest.value, size + rest.end) else rest
  }

  lemma DecodeAllFirst(first: Bytes, rest: Bytes, m: Message, utf8: Utf8)
    requires first != [] && Decode(first + rest, utf8) == Got(m, |first|)
    ensures DecodeAll(first + rest, utf8) == Prepend(m, |first|, DecodeAll(rest, utf8))
  {
    assert (first + rest)[|first|..] == rest;
  }

  function PrependAll(ms: seq<Message>, size: nat, rest: Parsed<seq<Message>>): Parsed<seq<Message>> {
    if rest.Got? then Got(ms + rest.value, size + rest.end) else rest
  }

  lemma PrependOne(ms: seq<Message>, first: nat, size: nat, rest: Parsed<seq<Message>>)
    requires ms != []
    ensures Prepend(ms[0], first, PrependAll(ms[1..], size, rest)) == PrependAll(ms, first + size, rest)
  {
    if rest.Got? {
      assert [ms[0]] + (ms[1..] + rest.value) == ms + rest.value;
    }
  }

  /** What follows a list of messages decodes as if it stood alone. */
  lemma {:induction false} DecodeEncoded(ms: seq<Message>, tail: Bytes, utf8: Utf8)
    requires AllEncodable(ms, utf8)
    ensures DecodeAll(EncodeAll(ms, utf8) + tail, utf8) == PrependAll(ms, |EncodeAll(ms, utf8)|, DecodeAll(tail, utf8))
  {
    var rest := DecodeAll(tail, utf8);
    if ms == [] {
      assert [] + tail == tail;
      assert rest.Got? ==> [] + rest.value == rest.value;
    } else {
      DecodeEncoded(ms[1..], tail, utf8);
      EncodeAllFirst(ms, tail, utf8);
      RoundTrip(ms[0], utf8, EncodeAll(ms[1..], utf8) + tail);
      DecodeAllFirst(Encode(ms[0], utf8), EncodeAll(ms[1..], utf8) + tail, ms[0], utf8);
      PrependOne(ms, |Encode(ms[0], utf8)|, |EncodeAll(ms[1..], utf8)|, rest);
    }
  }

  lemma EncodeAllFirst(ms: seq<Message>, tail: Bytes, utf8: Utf8)
    requires AllEncodable(ms, utf8) && ms != []
    ensures EncodeAll(ms, utf8) + tail == Encode(ms[0], utf8) + (EncodeAll(ms[1..], utf8) + tail)
    ensures |EncodeAll(ms, utf8)| == |Encode(ms[0], utf8)| + |EncodeAll(ms[1..], utf8)|
  {
    EachFirst(ms, (m: Message) requires Encodable(m, utf8) => Encode(m, utf8), tail);
  }

  lemma EachFirst<T>(xs: seq<T>, enc: T --> Bytes, tail: Bytes)
    requires (forall i | 0 <= i < |xs| :: enc.requires(xs[i])) && xs != []
    ensures EncEach(xs, enc) + tail == enc(xs[0]) + (EncEach(xs[1..], enc) + tail)
    ensures |EncEach(xs, enc)| == |enc(xs[0])| + |EncEach(xs[1..], enc)|
  {
    Associate(enc(xs[0]), EncEach(xs[1..], enc), tail);
  }

  predicate AllEncodable(ms: seq<Message>, utf8: Utf8) {
    forall i | 0 <= i < |ms| :: Encodable(ms[i], utf8)
  }

  function EncodeAll(ms: seq<Message>, utf8: Utf8): Bytes
    requires AllEncodable(ms, utf8)
  {
    EncEach(ms, (m: Message) requires Encodable(m, utf8) => Encode(m, utf8))
  }

  /** Messages back to back decode to the list of them. */
  lemma RoundTripAll(ms: seq<Message>, utf8: Utf8)
    requires AllEncodable(ms, utf8)
    ensures DecodeAll(EncodeAll(ms, utf8), utf8) == Got(ms, |EncodeAll(ms, utf8)|)
  {
    DecodeEncoded(ms, [], utf8);
    assert EncodeAll(ms, utf8) + [] == EncodeAll(ms, utf8);
    assert ms + [] == ms;
  }

  lemma DecodeAllShort(tail: Bytes, utf8: Utf8)
    requires tail != [] && Decode(tail, utf8) == Bad(TooShort)
    ensures DecodeAll(tail, utf8) == Bad(TooShort)
  {
  }

  /** Messages back to back with the last one cut short are refused. */
  lemma PartialTailIsRefused(ms: seq<Message>, last: Message, cut: nat, utf8: Utf8)
    requires AllEncodable(ms, utf8) && Encodable(last, utf8) && 0 < cut < |Encode(last, utf8)|
    ensures DecodeAll(EncodeAll(ms, utf8) + Encode(last, utf8)[..cut], utf8) == Bad(TooShort)
  {
    var tail := Encode(last, utf8)[..cut];
    PrefixesAreTooShort(last, utf8, cut);
    DecodeAllShort(tail, utf8);
    DecodeEncoded(ms, tail, utf8);
  }
}
