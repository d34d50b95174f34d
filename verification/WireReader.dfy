/**
 The decoder as it runs: a reader whose position advances with every read, and the loop
 over a buffer of messages, of `crates/zero-cache-change-source/src/pgoutput.rs`.
 */
module WireReader {
  import opened Base
  import opened WireFormat

  /** What was read before, with what follows. */
  function After<T>(before: seq<T>, rest: Parsed<seq<T>>): Parsed<seq<T>> {
    if rest.Got? then Got(before + rest.value, rest.end) else rest
  }

  lemma AfterNothing<T>(rest: Parsed<seq<T>>)
    ensures After([], rest) == rest
  {
    assert rest.Got? ==> [] + rest.value == rest.value;
  }

  /** One more item read moves it from what follows to what was read before. */
  lemma OneMore<T>(read: nat -> Parsed<T>, p: nat, n: nat, limit: nat, before: seq<T>)
    requires Bounded(read, limit) && n > 0
    ensures read(p).Got? ==>
      After(before, Repeat(read, p, n, limit)) == After(before + [read(p).value], Repeat(read, read(p).end, n - 1, limit))
    ensures !read(p).Got? ==> After(before, Repeat(read, p, n, limit)) == read(p).PropagateFailure()
  {
    if read(p).Got? {
      var rest := Repeat(read, read(p).end, n - 1, limit);
      assert rest.Got? ==> (before + [read(p).value]) + rest.value == before + ([read(p).value] + rest.value);
    }
  }

  class Reader {
    const buf: Bytes
    var pos: nat

    constructor (data: Bytes)
      ensures buf == data && pos == 0
    {
      buf, pos := data, 0;
    }

    method ReadU8() returns (r: Parsed<byte>)
      modifies this
      ensures r == U8(buf, old(pos)) && (r.Got? ==> pos == r.end)
    {
      if pos >= |buf| {
        return Bad(TooShort);
      }
      var b := buf[pos];
      pos := pos + 1;
      r := Got(b, pos);
    }

    method ReadTake(n: nat) returns (r: Parsed<Bytes>)
      modifies this
      ensures r == Take(buf, old(pos), n) && (r.Got? ==> pos == r.end)
    {
      if pos + n > |buf| {
        return Bad(TooShort);
      }
      var s := buf[pos..pos + n];
      pos := pos + n;
      r := Got(s, pos);
    }

    method ReadSigned(size: nat) returns (r: Parsed<int>)
      modifies this
      ensures r == SignedInt(buf, old(pos), size) && (r.Got? ==> pos == r.end)
    {
      var b :- ReadTake(size);
      r := Got(Signed(FromBytes(b.0), size), pos);
    }

    method ReadI16() returns (r: Parsed<int>)
      modifies this
      ensures r == I16(buf, old(pos)) && (r.Got? ==> pos == r.end)
    {
      r := ReadSigned(2);
    }

    method ReadI32() returns (r: Parsed<int>)
      modifies this
      ensures r == I32(buf, old(pos)) && (r.Got? ==> pos == r.end)
    {
      r := ReadSigned(4);
    }

    method ReadI64() returns (r: Parsed<int>)
      modifies this
      ensures r == I64(buf, old(pos)) && (r.Got? ==> pos == r.end)
    {
      r := ReadSigned(8);
    }

    method ReadU64() returns (r: Parsed<nat>)
      modifies this
      ensures r == U64(buf, old(pos)) && (r.Got? ==> pos == r.end)
    {
      var b :- ReadTake(8);
      r := Got(FromBytes(b.0), pos);
    }

    method ReadCStr(utf8: Utf8) returns (r: Parsed<Bytes>)
      modifies this
      ensures r == CStr(buf, old(pos), utf8) && (r.Got? ==> pos == r.end)
    {
      var start := pos;
      while pos < |buf| && buf[pos] != 0
        invariant start <= pos && FindZero(buf, pos) == FindZero(buf, start)
        decreases |buf| - pos
      {
        pos := pos + 1;
      }
      if pos >= |buf| {
        return Bad(TooShort);
      }
      var s := buf[start..pos];
      if !utf8(s) {
        return Bad(InvalidUtf8);
      }
      pos := pos + 1;
      r := Got(s, pos);
    }

    method ReadCounted() returns (r: Parsed<Bytes>)
      modifies this
      ensures r == Counted(buf, old(pos)) && (r.Got? ==> pos == r.end)
    {
      var n :- ReadI32();
      if n.0 < 0 {
        return Panic;
      }
      r := ReadTake(n.0);
    }

    method ReadOneColumn(utf8: Utf8) returns (r: Parsed<TupleColumn>)
      modifies this
      ensures r == ReadColumn(buf, old(pos), utf8) && (r.Got? ==> pos == r.end)
    {
      var kind :- ReadU8();
      if kind.0 == 'n' as int {
        r := Got(Null, pos);
      } else if kind.0 == 'u' as int {
        r := Got(UnchangedToast, pos);
      } else if kind.0 == 't' as int {
        var b :- ReadCounted();
        r := if utf8(b.0) then Got(Text(b.0), pos) else Bad(InvalidUtf8);
      } else if kind.0 == 'b' as int {
        var b :- ReadCounted();
        r := Got(Binary(b.0), pos);
      } else {
        r := Bad(UnknownColumnKind(kind.0));
      }
    }

    method NextColumn(utf8: Utf8, ghost read: nat -> Parsed<TupleColumn>) returns (r: Parsed<TupleColumn>)
      requires Bounded(read, |buf|) && forall q: nat {:trigger ReadColumn(buf, q, utf8)} :: read(q) == ReadColumn(buf, q, utf8)
      modifies this
      ensures r == read(old(pos)) && (r.Got? ==> pos == r.end)
    {
      r := ReadOneColumn(utf8);
    }

    method ReadColumnList(n: nat, utf8: Utf8, ghost read: nat -> Parsed<TupleColumn>) returns (r: Parsed<Tuple>)
      requires pos <= |buf| && Bounded(read, |buf|) && forall q: nat {:trigger ReadColumn(buf, q, utf8)} :: read(q) == ReadColumn(buf, q, utf8)
      modifies this
      ensures r == Repeat(read, old(pos), n, |buf|) && (r.Got? ==> pos == r.end)
    {
      ghost var all := Repeat(read, pos, n, |buf|);
      var cols: Tuple := [];
      AfterNothing(all);
      for i := 0 to n
        invariant pos <= |buf|
        invariant all == After(cols, Repeat(read, pos, n - i, |buf|))
      {
        OneMore(read, pos, n - i, |buf|, cols);
        var c :- NextColumn(utf8, read);
        cols := cols + [c.0];
      }
      r := Got(cols, pos);
      assert cols + [] == cols;
    }

    method ReadWholeTuple(utf8: Utf8) returns (r: Parsed<Tuple>)
      modifies this
      ensures r == ReadTuple(buf, old(pos), utf8) && (r.Got? ==> pos == r.end)
    {
      var n :- ReadI16();
      if n.0 < 0 {
        return Panic;
      }
      r := ReadColumnList(n.0, utf8, (q: nat) => ReadColumn(buf, q, utf8));
    }

    method ReadOneRelationColumn(utf8: Utf8) returns (r: Parsed<RelationColumn>)
      modifies this
      ensures r == ReadRelationColumn(buf, old(pos), utf8) && (r.Got? ==> pos == r.end)
    {
      var flags :- ReadU8();
      var name :- ReadCStr(utf8);
      var typeOid :- ReadI32();
      var atttypmod :- ReadI32();
      r := Got(RelationColumn(Bit(flags.0, 1), name.0, typeOid.0, atttypmod.0), pos);
    }

    method NextRelationColumn(utf8: Utf8, ghost read: nat -> Parsed<RelationColumn>) returns (r: Parsed<RelationColumn>)
      requires Bounded(read, |buf|) && forall q: nat {:trigger ReadRelationColumn(buf, q, utf8)} :: read(q) == ReadRelationColumn(buf, q, utf8)
      modifies this
      ensures r == read(old(pos)) && (r.Got? ==> pos == r.end)
    {
      r := ReadOneRelationColumn(utf8);
    }

    method ReadRelationColumnList(n: nat, utf8: Utf8, ghost read: nat -> Parsed<RelationColumn>) returns (r: Parsed<seq<RelationColumn>>)
      requires pos <= |buf| && Bounded(read, |buf|) && forall q: nat {:trigger ReadRelationColumn(buf, q, utf8)} :: read(q) == ReadRelationColumn(buf, q, utf8)
      modifies this
      ensures r == Repeat(read, old(pos), n, |buf|) && (r.Got? ==> pos == r.end)
    {
      ghost var all := Repeat(read, pos, n, |buf|);
      var cols: seq<RelationColumn> := [];
      AfterNothing(all);
      for i := 0 to n
        invariant pos <= |buf|
        invariant all == After(cols, Repeat(read, pos, n - i, |buf|))
      {
        OneMore(read, pos, n - i, |buf|, cols);
        var c :- NextRelationColumn(utf8, read);
        cols := cols + [c.0];
      }
      r := Got(cols, pos);
      assert cols + [] == cols;
    }

    method ReadIdList(n: nat, ghost read: nat -> Parsed<int>) returns (r: Parsed<seq<int>>)
      requires pos <= |buf| && Bounded(read, |buf|) && forall q: nat :: read(q) == I32(buf, q)
      modifies this
      ensures r == Repeat(read, old(pos), n, |buf|) && (r.Got? ==> pos == r.end)
    {
      ghost var all := Repeat(read, pos, n, |buf|);
      var ids: seq<int> := [];
      AfterNothing(all);
      for i := 0 to n
        invariant pos <= |buf|
        invariant all == After(ids, Repeat(read, pos, n - i, |buf|))
      {
        OneMore(read, pos, n - i, |buf|, ids);
        var id :- ReadI32();
        ids := ids + [id.0];
      }
      r := Got(ids, pos);
      assert ids + [] == ids;
    }

    method BeginBody() returns (r: Parsed<Message>)
      modifies this
      ensures r == ReadBegin(buf, old(pos)) && (r.Got? ==> pos == r.end)
    {
      var finalLsn :- ReadU64();
      var timestamp :- ReadI64();
      var xid :- ReadI32();
      r := Got(Begin(finalLsn.0, timestamp.0, xid.0), pos);
    }

    method CommitBody() returns (r: Parsed<Message>)
      modifies this
      ensures r == ReadCommit(buf, old(pos)) && (r.Got? ==> pos == r.end)
    {
      var _ :- ReadU8();
      var commitLsn :- ReadU64();
      var endLsn :- ReadU64();
      var timestamp :- ReadI64();
      r := Got(Commit(commitLsn.0, endLsn.0, timestamp.0), pos);
    }

    method RelationBody(utf8: Utf8) returns (r: Parsed<Message>)
      modifies this
      ensures r == ReadRelation(buf, old(pos), utf8) && (r.Got? ==> pos == r.end)
    {
      var id :- ReadI32();
      var namespace :- ReadCStr(utf8);
      var name :- ReadCStr(utf8);
      assert ReadNames(buf, id.1, utf8) == Got((namespace.0, name.0), pos);
      var b :- ReadU8();
      var identity := IdentityOf(b.0);
      if identity.None? {
        return Bad(UnknownReplicaIdentity(b.0));
      }
      var n :- ReadI16();
      if n.0 < 0 {
        return Panic;
      }
      var columns :- ReadRelationColumnList(n.0, utf8, (q: nat) => ReadRelationColumn(buf, q, utf8));
      r := Got(Relation(id.0, namespace.0, name.0, identity.value, columns.0), pos);
    }

    method InsertBody(utf8: Utf8) returns (r: Parsed<Message>)
      modifies this
      ensures r == ReadInsert(buf, old(pos), utf8) && (r.Got? ==> pos == r.end)
    {
      var id :- ReadI32();
      var _ :- ReadU8();
      var new_ :- ReadWholeTuple(utf8);
      r := Got(Insert(id.0, new_.0), pos);
    }

    method UpdateBody(utf8: Utf8) returns (r: Parsed<Message>)
      modifies this
      ensures r == ReadUpdate(buf, old(pos), utf8) && (r.Got? ==> pos == r.end)
    {
      var id :- ReadI32();
      var marker :- ReadU8();
      var old_, keyOnly := None, false;
      if marker.0 == 'K' as int || marker.0 == 'O' as int {
        keyOnly := marker.0 == 'K' as int;
        var row :- ReadWholeTuple(utf8);
        old_ := Some(row.0);
        var _ :- ReadU8();
      }
      var new_ :- ReadWholeTuple(utf8);
      r := Got(Update(id.0, old_, keyOnly, new_.0), pos);
    }

    method DeleteBody(utf8: Utf8) returns (r: Parsed<Message>)
      modifies this
      ensures r == ReadDelete(buf, old(pos), utf8) && (r.Got? ==> pos == r.end)
    {
      var id :- ReadI32();
      var marker :- ReadU8();
      var key :- ReadWholeTuple(utf8);
      r := Got(Delete(id.0, key.0, marker.0 == 'K' as int), pos);
    }

    method LogicalBody(utf8: Utf8) returns (r: Parsed<Message>)
      modifies this
      ensures r == ReadLogical(buf, old(pos), utf8) && (r.Got? ==> pos == r.end)
    {
      var flags :- ReadU8();
      var lsn :- ReadU64();
      var prefix :- ReadCStr(utf8);
      var content :- ReadCounted();
      r := Got(LogicalMessage(Bit(flags.0, 1), lsn.0, prefix.0, content.0), pos);
    }

    method TruncateBody() returns (r: Parsed<Message>)
      modifies this
      ensures r == ReadTruncate(buf, old(pos)) && (r.Got? ==> pos == r.end)
    {
      var n :- ReadI32();
      var flags :- ReadU8();
      if n.0 < 0 {
        return Panic;
      }
      var ids :- ReadIdList(n.0, (q: nat) => I32(buf, q));
      r := Got(Truncate(ids.0, Bit(flags.0, 1), Bit(flags.0, 2)), pos);
    }

    method OriginBody(utf8: Utf8) returns (r: Parsed<Message>)
      modifies this
      ensures r == ReadOrigin(buf, old(pos), utf8) && (r.Got? ==> pos == r.end)
    {
      var lsn :- ReadU64();
      var name :- ReadCStr(utf8);
      r := Got(Origin(lsn.0, name.0), pos);
    }

    method TypeBody(utf8: Utf8) returns (r: Parsed<Message>)
      modifies this
      ensures r == ReadType(buf, old(pos), utf8) && (r.Got? ==> pos == r.end)
    {
      var oid :- ReadI32();
      var namespace :- ReadCStr(utf8);
      var name :- ReadCStr(utf8);
      r := Got(Type(oid.0, namespace.0, name.0), pos);
    }

    method Body(kind: byte, utf8: Utf8) returns (r: Parsed<Message>)
      requires pos <= |buf|
      modifies this
      ensures r == ReadBody(kind, buf, old(pos), utf8) && (r.Got? ==> pos == r.end)
    {
      if kind == 'B' as int {
        r := BeginBody();
      } else if kind == 'C' as int {
        r := CommitBody();
      } else if kind == 'R' as int {
        r := RelationBody(utf8);
      } else if kind == 'I' as int {
        r := InsertBody(utf8);
      } else if kind == 'U' as int {
        r := UpdateBody(utf8);
      } else if kind == 'D' as int {
        r := DeleteBody(utf8);
      } else if kind == 'M' as int {
        r := LogicalBody(utf8);
      } else if kind == 'T' as int {
        r := TruncateBody();
      } else if kind == 'O' as int {
        r := OriginBody(utf8);
      } else if kind == 'Y' as int {
        r := TypeBody(utf8);
      } else {
        r := Got(Unsupported(kind), pos);
      }
    }
  }

  /** One message and the number of bytes it takes. */
  method DecodeWithLen(data: Bytes, utf8: Utf8) returns (r: Parsed<Message>)
    ensures r == Decode(data, utf8)
  {
    var reader := new Reader(data);
    var kind :- reader.ReadU8();
    r := reader.Body(kind.0, utf8);
  }

  /** All messages of a buffer that holds them back to back. */
  method DecodeMessages(data: Bytes, utf8: Utf8) returns (r: Parsed<seq<Message>>)
    ensures r == DecodeAll(data, utf8)
  {
    var messages: seq<Message>, offset := [], 0;
    ghost var all := DecodeAll(data, utf8);
    ShiftNothing(data, utf8);
    while offset < |data|
      invariant offset <= |data|
      invariant all == Shifted(messages, offset, data, utf8)
    {
      var first := DecodeWithLen(data[offset..], utf8);
      ShiftOne(messages, offset, data, first, utf8);
      if !first.Got? {
        return first.PropagateFailure();
      }
      messages := messages + [first.value];
      offset := offset + first.end;
    }
    ShiftEnd(messages, data, utf8);
    r := Got(messages, offset);
  }

  /** The messages so far, with those of the rest of the buffer. */
  ghost function Shifted(before: seq<Message>, offset: nat, data: Bytes, utf8: Utf8): Parsed<seq<Message>>
    requires offset <= |data|
  {
    var rest := DecodeAll(data[offset..], utf8);
    if rest.Got? then Got(before + rest.value, offset + rest.end) else rest
  }

  lemma ShiftNothing(data: Bytes, utf8: Utf8)
    ensures Shifted([], 0, data, utf8) == DecodeAll(data, utf8)
  {
    assert data[0..] == data;
    var all := DecodeAll(data, utf8);
    assert all.Got? ==> [] + all.value == all.value;
  }

  lemma ShiftEnd(before: seq<Message>, data: Bytes, utf8: Utf8)
    ensures Shifted(before, |data|, data, utf8) == Got(before, |data|)
  {
    assert data[|data|..] == [];
    assert before + [] == before;
  }

  lemma DecodeAllFirst(d: Bytes, first: Parsed<Message>, utf8: Utf8)
    requires d != [] && first == Decode(d, utf8)
    ensures !first.Got? ==> DecodeAll(d, utf8) == first.PropagateFailure()
    ensures first.Got? ==>
      var rest := DecodeAll(d[first.end..], utf8);
      DecodeAll(d, utf8) == if rest.Got? then Got([first.value] + rest.value, first.end + rest.end) else rest
  {
  }

  lemma ShiftOne(before: seq<Message>, offset: nat, data: Bytes, first: Parsed<Message>, utf8: Utf8)
    requires offset < |data| && first == Decode(data[offset..], utf8)
    ensures first.Got? ==>
      offset + first.end <= |data|
      && Shifted(before, offset, data, utf8) == Shifted(before + [first.value], offset + first.end, data, utf8)
    ensures !first.Got? ==> Shifted(before, offset, data, utf8) == first.PropagateFailure()
  {
    DecodeAllFirst(data[offset..], first, utf8);
    if first.Got? {
      assert data[offset..][first.end..] == data[offset + first.end..];
      var rest := DecodeAll(data[offset + first.end..], utf8);
      assert rest.Got? ==> (before + [first.value]) + rest.value == before + ([first.value] + rest.value);
    }
  }
}
