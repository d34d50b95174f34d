/**
 The `pgoutput` wire format as pure functions of a buffer and a position, and the encoder
 that goes with it. The decoder is `crates/zero-cache-change-source/src/pgoutput.rs`; the
 encoder follows "Logical Replication Message Formats" in the Frontend/Backend Protocol
 chapter of the PostgreSQL documentation.

 Strings stay byte sequences; which of them are UTF-8 is a parameter. A negative count or
 length, where the source would allocate or slice out of range, is the outcome `Panic`.
 */
module WireFormat {
  import opened Base

  type Bytes = seq<byte>

  type Utf8 = Bytes -> bool

  datatype DecodeError =
    | TooShort
    | InvalidUtf8
    | UnknownReplicaIdentity(b: byte)
    | UnknownColumnKind(b: byte)

  /** The result of reading at a position: a value and where it ends. */
  datatype Parsed<+T> = Got(value: T, end: nat) | Bad(error: DecodeError) | Panic {
    predicate IsFailure() {
      !Got?
    }

    function PropagateFailure<U>(): Parsed<U>
      requires IsFailure()
    {
      if Panic? then Panic else Bad(error)
    }

    function Extract(): (T, nat)
      requires !IsFailure()
    {
      (value, end)
    }
  }

  datatype TupleColumn = Null | UnchangedToast | Text(text: Bytes) | Binary(raw: Bytes)

  type Tuple = seq<TupleColumn>

  datatype RelationColumn = RelationColumn(isKey: bool, name: Bytes, typeOid: int, atttypmod: int)

  datatype ReplicaIdentity = Default | Nothing | Full | UsingIndex

  datatype Message =
    | Begin(finalLsn: nat, timestamp: int, xid: int)
    | Commit(commitLsn: nat, endLsn: nat, timestamp: int)
    | Relation(relationId: int, namespace: Bytes, name: Bytes, identity: ReplicaIdentity, columns: seq<RelationColumn>)
    | Insert(relationId: int, new_: Tuple)
    | Update(relationId: int, old_: Option<Tuple>, oldIsKeyOnly: bool, new_: Tuple)
    | Delete(relationId: int, key: Tuple, isKeyOnly: bool)
    | Truncate(relationIds: seq<int>, cascade: bool, restartIdentity: bool)
    | LogicalMessage(transactional: bool, lsn: nat, prefix: Bytes, content: Bytes)
    | Origin(originLsn: nat, originName: Bytes)
    | Type(typeOid: int, namespace: Bytes, name: Bytes)
    | Unsupported(kind: byte)

  // ---- Reading ---------------------------------------------------------------

  function U8(d: Bytes, p: nat): (r: Parsed<byte>)
    ensures r.Got? ==> p < r.end <= |d|
  {
    if p < |d| then Got(d[p], p + 1) else Bad(TooShort)
  }

  function Take(d: Bytes, p: nat, n: nat): (r: Parsed<Bytes>)
    ensures r.Got? ==> p <= r.end <= |d|
  {
    if p + n > |d| then Bad(TooShort) else Got(d[p..p + n], p + n)
  }

  function Pow256(n: nat): nat {
    if n == 0 then 1 else 256 * Pow256(n - 1)
  }

  /** Big-endian, most significant byte first. */
  function FromBytes(b: Bytes): (n: nat)
    ensures n < Pow256(|b|)
  {
    if b == [] then 0 else FromBytes(b[..|b| - 1]) * 256 + b[|b| - 1]
  }

  /** Two's complement in `size` bytes. */
  function Signed(n: nat, size: nat): int {
    if 2 * n >= Pow256(size) then n - Pow256(size) else n
  }

  function Unsigned(d: Bytes, p: nat, size: nat): (r: Parsed<nat>)
    ensures r.Got? ==> p <= r.end <= |d|
  {
    var (b, e) :- Take(d, p, size);
    Got(FromBytes(b), e)
  }

  function SignedInt(d: Bytes, p: nat, size: nat): (r: Parsed<int>)
    ensures r.Got? ==> p <= r.end <= |d|
  {
    var (b, e) :- Take(d, p, size);
    Got(Signed(FromBytes(b), size), e)
  }

  function I16(d: Bytes, p: nat): (r: Parsed<int>)
    ensures r.Got? ==> p <= r.end <= |d|
  {
    SignedInt(d, p, 2)
  }

  function I32(d: Bytes, p: nat): (r: Parsed<int>)
    ensures r.Got? ==> p <= r.end <= |d|
  {
    SignedInt(d, p, 4)
  }

  function I64(d: Bytes, p: nat): (r: Parsed<int>)
    ensures r.Got? ==> p <= r.end <= |d|
  {
    SignedInt(d, p, 8)
  }

  function U64(d: Bytes, p: nat): (r: Parsed<nat>)
    ensures r.Got? ==> p <= r.end <= |d|
  {
    Unsigned(d, p, 8)
  }

  /** Where the next zero byte is. */
  function FindZero(d: Bytes, p: nat): (z: Option<nat>)
    ensures z.Some? ==> p <= z.value < |d| && d[z.value] == 0
    ensures z.Some? ==> forall i | p <= i < z.value :: d[i] != 0
    ensures z.None? ==> forall i | p <= i < |d| :: d[i] != 0
    decreases |d| - p
  {
    if p >= |d| then None else if d[p] == 0 then Some(p) else FindZero(d, p + 1)
  }

  /** A zero-terminated string. */
  function CStr(d: Bytes, p: nat, utf8: Utf8): (r: Parsed<Bytes>)
    ensures r.Got? ==> p < r.end <= |d|
  {
    match FindZero(d, p)
    case None => Bad(TooShort)
    case Some(z) => if utf8(d[p..z]) then Got(d[p..z], z + 1) else Bad(InvalidUtf8)
  }

  /** Bytes preceded by their number. */
  function Counted(d: Bytes, p: nat): (r: Parsed<Bytes>)
    ensures r.Got? ==> p <= r.end <= |d|
  {
    var (n, e) :- I32(d, p);
    if n < 0 then Panic else Take(d, e, n)
  }

  function ReadColumn(d: Bytes, p: nat, utf8: Utf8): (r: Parsed<TupleColumn>)
    ensures r.Got? ==> p < r.end <= |d|
  {
    var (kind, e) :- U8(d, p);
    if kind == 'n' as int then Got(Null, e)
    else if kind == 'u' as int then Got(UnchangedToast, e)
    else if kind == 't' as int then
      var (b, e') :- Counted(d, e);
      if utf8(b) then Got(Text(b), e') else Bad(InvalidUtf8)
    else if kind == 'b' as int then
      var (b, e') :- Counted(d, e);
      Got(Binary(b), e')
    else Bad(UnknownColumnKind(kind))
  }

  ghost predicate Bounded<T>(read: nat -> Parsed<T>, limit: nat) {
    forall p: nat :: read(p).Got? ==> p <= read(p).end <= limit
  }

  /** The same read `n` times. */
  function Repeat<T>(read: nat -> Parsed<T>, p: nat, n: nat, limit: nat): (r: Parsed<seq<T>>)
    requires Bounded(read, limit)
    ensures r.Got? ==> p <= r.end <= limit && |r.value| == n
    decreases n
  {
    if n == 0 then if p <= limit then Got([], p) else Bad(TooShort)
    else
      var (x, e) :- read(p);
      var (rest, e') :- Repeat(read, e, n - 1, limit);
      Got([x] + rest, e')
  }

  function ReadTuple(d: Bytes, p: nat, utf8: Utf8): (r: Parsed<Tuple>)
    ensures r.Got? ==> p <= r.end <= |d|
  {
    var (n, e) :- I16(d, p);
    if n < 0 then Panic else Repeat(q => ReadColumn(d, q, utf8), e, n, |d|)
  }

  function Bit(flags: byte, weight: nat): bool
    requires weight > 0
  {
    flags / weight % 2 == 1
  }

  function ReadRelationColumn(d: Bytes, p: nat, utf8: Utf8): (r: Parsed<RelationColumn>)
    ensures r.Got? ==> p < r.end <= |d|
  {
    var (flags, e) :- U8(d, p);
    var (name, e) :- CStr(d, e, utf8);
    var (typeOid, e) :- I32(d, e);
    var (atttypmod, e) :- I32(d, e);
    Got(RelationColumn(Bit(flags, 1), name, typeOid, atttypmod), e)
  }

  function ReadRelationColumns(d: Bytes, p: nat, utf8: Utf8): (r: Parsed<seq<RelationColumn>>)
    ensures r.Got? ==> p <= r.end <= |d|
  {
    var (n, e) :- I16(d, p);
    if n < 0 then Panic else Repeat(q => ReadRelationColumn(d, q, utf8), e, n, |d|)
  }

  function IdentityOf(b: byte): Option<ReplicaIdentity> {
    if b == 'd' as int then Some(Default)
    else if b == 'n' as int then Some(Nothing)
    else if b == 'f' as int then Some(Full)
    else if b == 'i' as int then Some(UsingIndex)
    else None
  }

  function ReadIdentity(d: Bytes, p: nat): (r: Parsed<ReplicaIdentity>)
    ensures r.Got? ==> p < r.end <= |d|
  {
    var (b, e) :- U8(d, p);
    match IdentityOf(b)
    case None => Bad(UnknownReplicaIdentity(b))
    case Some(identity) => Got(identity, e)
  }

  function ReadBegin(d: Bytes, p: nat): (r: Parsed<Message>)
    ensures r.Got? ==> p <= r.end <= |d|
  {
    var (lsn, e) :- U64(d, p);
    var (timestamp, e) :- I64(d, e);
    var (xid, e) :- I32(d, e);
    Got(Begin(lsn, timestamp, xid), e)
  }

  function ReadCommit(d: Bytes, p: nat): (r: Parsed<Message>)
    ensures r.Got? ==> p <= r.end <= |d|
  {
    var (_, e) :- U8(d, p);
    var (commitLsn, e) :- U64(d, e);
    var (endLsn, e) :- U64(d, e);
    var (timestamp, e) :- I64(d, e);
    Got(Commit(commitLsn, endLsn, timestamp), e)
  }

  function ReadNames(d: Bytes, p: nat, utf8: Utf8): (r: Parsed<(Bytes, Bytes)>)
    ensures r.Got? ==> p <= r.end <= |d|
  {
    var (namespace, e) :- CStr(d, p, utf8);
    var (name, e) :- CStr(d, e, utf8);
    Got((namespace, name), e)
  }

  function ReadShape(d: Bytes, p: nat, utf8: Utf8): (r: Parsed<(ReplicaIdentity, seq<RelationColumn>)>)
    ensures r.Got? ==> p <= r.end <= |d|
  {
    var (identity, e) :- ReadIdentity(d, p);
    var (columns, e) :- ReadRelationColumns(d, e, utf8);
    Got((identity, columns), e)
  }

  function ReadRelation(d: Bytes, p: nat, utf8: Utf8): (r: Parsed<Message>)
    ensures r.Got? ==> p <= r.end <= |d|
  {
    var (id, e) :- I32(d, p);
    var (names, e) :- ReadNames(d, e, utf8);
    var (shape, e) :- ReadShape(d, e, utf8);
    Got(Relation(id, names.0, names.1, shape.0, shape.1), e)
  }

  function ReadInsert(d: Bytes, p: nat, utf8: Utf8): (r: Parsed<Message>)
    ensures r.Got? ==> p <= r.end <= |d|
  {
    var (id, e) :- I32(d, p);
    var (_, e) :- U8(d, e);
    var (new_, e) :- ReadTuple(d, e, utf8);
    Got(Insert(id, new_), e)
  }

  /** Two rows with a marker between them, which is not looked at. */
  function ReadBothRows(d: Bytes, p: nat, utf8: Utf8): (r: Parsed<(Tuple, Tuple)>)
    ensures r.Got? ==> p <= r.end <= |d|
  {
    var (old_, e) :- ReadTuple(d, p, utf8);
    var (_, e) :- U8(d, e);
    var (new_, e) :- ReadTuple(d, e, utf8);
    Got((old_, new_), e)
  }

  function ReadUpdate(d: Bytes, p: nat, utf8: Utf8): (r: Parsed<Message>)
    ensures r.Got? ==> p <= r.end <= |d|
  {
    var (id, e) :- I32(d, p);
    var (marker, e) :- U8(d, e);
    if marker == 'K' as int || marker == 'O' as int then
      var (rows, e) :- ReadBothRows(d, e, utf8);
      Got(Update(id, Some(rows.0), marker == 'K' as int, rows.1), e)
    else
      var (new_, e) :- ReadTuple(d, e, utf8);
      Got(Update(id, None, false, new_), e)
  }

  function ReadDelete(d: Bytes, p: nat, utf8: Utf8): (r: Parsed<Message>)
    ensures r.Got? ==> p <= r.end <= |d|
  {
    var (id, e) :- I32(d, p);
    var (marker, e) :- U8(d, e);
    var (key, e) :- ReadTuple(d, e, utf8);
    Got(Delete(id, key, marker == 'K' as int), e)
  }

  function ReadPayload(d: Bytes, p: nat, utf8: Utf8): (r: Parsed<(Bytes, Bytes)>)
    ensures r.Got? ==> p <= r.end <= |d|
  {
    var (prefix, e) :- CStr(d, p, utf8);
    var (content, e) :- Counted(d, e);
    Got((prefix, content), e)
  }

  function ReadLogical(d: Bytes, p: nat, utf8: Utf8): (r: Parsed<Message>)
    ensures r.Got? ==> p <= r.end <= |d|
  {
    var (flags, e) :- U8(d, p);
    var (lsn, e) :- U64(d, e);
    var (payload, e) :- ReadPayload(d, e, utf8);
    Got(LogicalMessage(Bit(flags, 1), lsn, payload.0, payload.1), e)
  }

  function ReadTruncate(d: Bytes, p: nat): (r: Parsed<Message>)
    ensures r.Got? ==> p <= r.end <= |d|
  {
    var (n, e) :- I32(d, p);
    var (flags, e) :- U8(d, e);
    if n < 0 then Panic
    else
      var (ids, e) :- Repeat(q => I32(d, q), e, n, |d|);
      Got(Truncate(ids, Bit(flags, 1), Bit(flags, 2)), e)
  }

  function ReadOrigin(d: Bytes, p: nat, utf8: Utf8): (r: Parsed<Message>)
    ensures r.Got? ==> p <= r.end <= |d|
  {
    var (lsn, e) :- U64(d, p);
    var (name, e) :- CStr(d, e, utf8);
    Got(Origin(lsn, name), e)
  }

  function ReadType(d: Bytes, p: nat, utf8: Utf8): (r: Parsed<Message>)
    ensures r.Got? ==> p <= r.end <= |d|
  {
    var (oid, e) :- I32(d, p);
    var (names, e) :- ReadNames(d, e, utf8);
    Got(Type(oid, names.0, names.1), e)
  }

  function ReadBody(kind: byte, d: Bytes, p: nat, utf8: Utf8): (r: Parsed<Message>)
    requires p <= |d|
    ensures r.Got? ==> p <= r.end <= |d|
  {
    if kind == 'B' as int then ReadBegin(d, p)
    else if kind == 'C' as int then ReadCommit(d, p)
    else if kind == 'R' as int then ReadRelation(d, p, utf8)
    else if kind == 'I' as int then ReadInsert(d, p, utf8)
    else if kind == 'U' as int then ReadUpdate(d, p, utf8)
    else if kind == 'D' as int then ReadDelete(d, p, utf8)
    else if kind == 'M' as int then ReadLogical(d, p, utf8)
    else if kind == 'T' as int then ReadTruncate(d, p)
    else if kind == 'O' as int then ReadOrigin(d, p, utf8)
    else if kind == 'Y' as int then ReadType(d, p, utf8)
    else Got(Unsupported(kind), p)
  }

  /** One message and the number of bytes it takes. */
  function Decode(d: Bytes, utf8: Utf8): (r: Parsed<Message>)
    ensures r.Got? ==> 0 < r.end <= |d|
  {
    var (kind, e) :- U8(d, 0);
    ReadBody(kind, d, e, utf8)
  }

  /** Messages back to back. */
  function DecodeAll(d: Bytes, utf8: Utf8): Parsed<seq<Message>>
    decreases |d|
  {
    if d == [] then Got([], 0)
    else
      var (m, e) :- Decode(d, utf8);
      var (rest, e') :- DecodeAll(d[e..], utf8);
      Got([m] + rest, e + e')
  }
}
