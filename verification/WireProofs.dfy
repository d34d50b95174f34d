/**
 The decoder reads exactly the bytes of a message: encoded messages come back, whatever
 follows them, and no strict prefix of a message is accepted.
 */
module WireProofs {
  import opened Base
  import opened WireFormat

  // ---- What a read depends on ------------------------------------------------

  /** Two buffers start with the same `k` bytes. */
  ghost predicate Agree(d: Bytes, d': Bytes, k: nat) {
    k <= |d| && k <= |d'| && d[..k] == d'[..k]
  }

  /** A read that ends within the common bytes reads the same; if the other buffer ends there, a longer read is too short. */
  ghost predicate Follows<T>(full: Parsed<T>, other: Parsed<T>, k: nat, short: bool) {
    full.Got? ==> (full.end <= k ==> other == full) && (full.end > k && short ==> other == Bad(TooShort))
  }

  lemma Slices(d: Bytes, d': Bytes, k: nat, p: nat, q: nat)
    requires Agree(d, d', k) && p <= q <= k
    ensures d[p..q] == d'[p..q]
  {
    assert d[..k][p..q] == d[p..q] && d'[..k][p..q] == d'[p..q];
  }

  lemma AgreeAt(d: Bytes, d': Bytes, k: nat, p: nat)
    requires Agree(d, d', k) && p < k
    ensures d[p] == d'[p]
  {
    assert d[..k][p] == d'[..k][p];
  }

  lemma U8Follows(d: Bytes, d': Bytes, k: nat, p: nat)
    requires Agree(d, d', k)
    ensures Follows(U8(d, p), U8(d', p), k, |d'| == k)
  {
    if p < k {
      AgreeAt(d, d', k, p);
    }
  }

  lemma TakeFollows(d: Bytes, d': Bytes, k: nat, p: nat, n: nat)
    requires Agree(d, d', k)
    ensures Follows(Take(d, p, n), Take(d', p, n), k, |d'| == k)
  {
    if p + n <= k {
      Slices(d, d', k, p, p + n);
    }
  }

  lemma SignedFollows(d: Bytes, d': Bytes, k: nat, p: nat, size: nat)
    requires Agree(d, d', k)
    ensures Follows(SignedInt(d, p, size), SignedInt(d', p, size), k, |d'| == k)
  {
    TakeFollows(d, d', k, p, size);
  }

  lemma I16Follows(d: Bytes, d': Bytes, k: nat, p: nat)
    requires Agree(d, d', k)
    ensures Follows(I16(d, p), I16(d', p), k, |d'| == k)
  {
    SignedFollows(d, d', k, p, 2);
  }

  lemma I32Follows(d: Bytes, d': Bytes, k: nat, p: nat)
    requires Agree(d, d', k)
    ensures Follows(I32(d, p), I32(d', p), k, |d'| == k)
  {
    SignedFollows(d, d', k, p, 4);
  }

  lemma I64Follows(d: Bytes, d': Bytes, k: nat, p: nat)
    requires Agree(d, d', k)
    ensures Follows(I64(d, p), I64(d', p), k, |d'| == k)
  {
    SignedFollows(d, d', k, p, 8);
  }

  lemma U64Follows(d: Bytes, d': Bytes, k: nat, p: nat)
    requires Agree(d, d', k)
    ensures Follows(U64(d, p), U64(d', p), k, |d'| == k)
  {
    TakeFollows(d, d', k, p, 8);
  }

  lemma ZeroIsFirst(d: Bytes, p: nat, z: nat)
    requires p <= z < |d| && d[z] == 0 && forall i | p <= i < z :: d[i] != 0
    ensures FindZero(d, p) == Some(z)
  {
  }

  lemma NoZero(d: Bytes, p: nat)
    requires forall i | p <= i < |d| :: d[i] != 0
    ensures FindZero(d, p) == None
  {
  }

  lemma CStrFollows(d: Bytes, d': Bytes, k: nat, p: nat, utf8: Utf8)
    requires Agree(d, d', k)
    ensures Follows(CStr(d, p, utf8), CStr(d', p, utf8), k, |d'| == k)
  {
    var zero := FindZero(d, p);
    if zero.Some? {
      var z := zero.value;
      forall i | 0 <= i < k ensures d[i] == d'[i] {
        AgreeAt(d, d', k, i);
      }
      if z < k {
        ZeroIsFirst(d', p, z);
        Slices(d, d', k, p, z);
      } else if |d'| == k {
        NoZero(d', p);
      }
    }
  }

  lemma CountedFollows(d: Bytes, d': Bytes, k: nat, p: nat)
    requires Agree(d, d', k)
    ensures Follows(Counted(d, p), Counted(d', p), k, |d'| == k)
  {
    var n := I32(d, p);
    I32Follows(d, d', k, p);
    if n.Got? && n.value >= 0 {
      TakeFollows(d, d', k, n.end, n.value);
    }
  }

  lemma ColumnFollows(d: Bytes, d': Bytes, k: nat, p: nat, utf8: Utf8)
    requires Agree(d, d', k)
    ensures Follows(ReadColumn(d, p, utf8), ReadColumn(d', p, utf8), k, |d'| == k)
  {
    var kind := U8(d, p);
    U8Follows(d, d', k, p);
    if kind.Got? {
      CountedFollows(d, d', k, kind.end);
    }
  }

  /** Reads that follow each other one by one do so when repeated. */
  lemma {:induction false} RepeatFollows<T>(read: nat -> Parsed<T>, other: nat -> Parsed<T>, p: nat, n: nat, limit: nat, k: nat, size: nat)
    requires Bounded(read, limit) && Bounded(other, size) && k <= limit && k <= size
    requires forall q: nat :: Follows(read(q), other(q), k, size == k)
    ensures Follows(Repeat(read, p, n, limit), Repeat(other, p, n, size), k, size == k)
    decreases n
  {
    if n > 0 && read(p).Got? {
      RepeatFollows(read, other, read(p).end, n - 1, limit, k, size);
    }
  }

  lemma ColumnsFollow(d: Bytes, d': Bytes, k: nat, p: nat, n: nat, utf8: Utf8)
    requires Agree(d, d', k)
    ensures Follows(Repeat(q => ReadColumn(d, q, utf8), p, n, |d|), Repeat(q => ReadColumn(d', q, utf8), p, n, |d'|), k, |d'| == k)
  {
    forall q: nat ensures Follows(ReadColumn(d, q, utf8), ReadColumn(d', q, utf8), k, |d'| == k) {
      ColumnFollows(d, d', k, q, utf8);
    }
    RepeatFollows(q => ReadColumn(d, q, utf8), q => ReadColumn(d', q, utf8), p, n, |d|, k, |d'|);
  }

  lemma TupleFollows(d: Bytes, d': Bytes, k: nat, p: nat, utf8: Utf8)
    requires Agree(d, d', k)
    ensures Follows(ReadTuple(d, p, utf8), ReadTuple(d', p, utf8), k, |d'| == k)
  {
    var n := I16(d, p);
    I16Follows(d, d', k, p);
    if n.Got? && n.value >= 0 {
      ColumnsFollow(d, d', k, n.end, n.value, utf8);
    }
  }

  lemma RelationColumnFollows(d: Bytes, d': Bytes, k: nat, p: nat, utf8: Utf8)
    requires Agree(d, d', k)
    ensures Follows(ReadRelationColumn(d, p, utf8), ReadRelationColumn(d', p, utf8), k, |d'| == k)
  {
    var flags := U8(d, p);
    U8Follows(d, d', k, p);
    if flags.Got? {
      var name := CStr(d, flags.end, utf8);
      CStrFollows(d, d', k, flags.end, utf8);
      if name.Got? {
        var typeOid := I32(d, name.end);
        I32Follows(d, d', k, name.end);
        if typeOid.Got? {
          I32Follows(d, d', k, typeOid.end);
        }
      }
    }
  }

  lemma SomeRelationColumnsFollow(d: Bytes, d': Bytes, k: nat, p: nat, n: nat, utf8: Utf8)
    requires Agree(d, d', k)
    ensures Follows(Repeat(q => ReadRelationColumn(d, q, utf8), p, n, |d|), Repeat(q => ReadRelationColumn(d', q, utf8), p, n, |d'|), k, |d'| == k)
  {
    forall q: nat ensures Follows(ReadRelationColumn(d, q, utf8), ReadRelationColumn(d', q, utf8), k, |d'| == k) {
      RelationColumnFollows(d, d', k, q, utf8);
    }
    RepeatFollows(q => ReadRelationColumn(d, q, utf8), q => ReadRelationColumn(d', q, utf8), p, n, |d|, k, |d'|);
  }

  lemma RelationColumnsFollow(d: Bytes, d': Bytes, k: nat, p: nat, utf8: Utf8)
    requires Agree(d, d', k)
    ensures Follows(ReadRelationColumns(d, p, utf8), ReadRelationColumns(d', p, utf8), k, |d'| == k)
  {
    var n := I16(d, p);
    I16Follows(d, d', k, p);
    if n.Got? && n.value >= 0 {
      SomeRelationColumnsFollow(d, d', k, n.end, n.value, utf8);
    }
  }

  lemma IdsFollow(d: Bytes, d': Bytes, k: nat, p: nat, n: nat)
    requires Agree(d, d', k)
    ensures Follows(Repeat(q => I32(d, q), p, n, |d|), Repeat(q => I32(d', q), p, n, |d'|), k, |d'| == k)
  {
    forall q: nat ensures Follows(I32(d, q), I32(d', q), k, |d'| == k) {
      I32Follows(d, d', k, q);
    }
    RepeatFollows(q => I32(d, q), q => I32(d', q), p, n, |d|, k, |d'|);
  }

  lemma BeginFollows(d: Bytes, d': Bytes, k: nat, p: nat)
    requires Agree(d, d', k)
    ensures Follows(ReadBegin(d, p), ReadBegin(d', p), k, |d'| == k)
  {
    var lsn := U64(d, p);
    U64Follows(d, d', k, p);
    if lsn.Got? {
      var timestamp := I64(d, lsn.end);
      I64Follows(d, d', k, lsn.end);
      if timestamp.Got? {
        I32Follows(d, d', k, timestamp.end);
      }
    }
  }

  lemma CommitFollows(d: Bytes, d': Bytes, k: nat, p: nat)
    requires Agree(d, d', k)
    ensures Follows(ReadCommit(d, p), ReadCommit(d', p), k, |d'| == k)
  {
    var flags := U8(d, p);
    U8Follows(d, d', k, p);
    if flags.Got? {
      var commitLsn := U64(d, flags.end);
      U64Follows(d, d', k, flags.end);
      if commitLsn.Got? {
        var endLsn := U64(d, commitLsn.end);
        U64Follows(d, d', k, commitLsn.end);
        if endLsn.Got? {
          I64Follows(d, d', k, endLsn.end);
        }
      }
    }
  }

  lemma NamesFollow(d: Bytes, d': Bytes, k: nat, p: nat, utf8: Utf8)
    requires Agree(d, d', k)
    ensures Follows(ReadNames(d, p, utf8), ReadNames(d', p, utf8), k, |d'| == k)
  {
    var namespace := CStr(d, p, utf8);
    CStrFollows(d, d', k, p, utf8);
    if namespace.Got? {
      CStrFollows(d, d', k, namespace.end, utf8);
    }
  }

  lemma PayloadFollows(d: Bytes, d': Bytes, k: nat, p: nat, utf8: Utf8)
    requires Agree(d, d', k)
    ensures Follows(ReadPayload(d, p, utf8), ReadPayload(d', p, utf8), k, |d'| == k)
  {
    var prefix := CStr(d, p, utf8);
    CStrFollows(d, d', k, p, utf8);
    if prefix.Got? {
      CountedFollows(d, d', k, prefix.end);
    }
  }

  lemma ShapeFollows(d: Bytes, d': Bytes, k: nat, p: nat, utf8: Utf8)
    requires Agree(d, d', k)
    ensures Follows(ReadShape(d, p, utf8), ReadShape(d', p, utf8), k, |d'| == k)
  {
    var identity := ReadIdentity(d, p);
    U8Follows(d, d', k, p);
    if identity.Got? {
      RelationColumnsFollow(d, d', k, identity.end, utf8);
    }
  }

  lemma RelationFollows(d: Bytes, d': Bytes, k: nat, p: nat, utf8: Utf8)
    requires Agree(d, d', k)
    ensures Follows(ReadRelation(d, p, utf8), ReadRelation(d', p, utf8), k, |d'| == k)
  {
    var id := I32(d, p);
    I32Follows(d, d', k, p);
    if id.Got? {
      var names := ReadNames(d, id.end, utf8);
      NamesFollow(d, d', k, id.end, utf8);
      if names.Got? {
        ShapeFollows(d, d', k, names.end, utf8);
      }
    }
  }

  lemma InsertFollows(d: Bytes, d': Bytes, k: nat, p: nat, utf8: Utf8)
    requires Agree(d, d', k)
    ensures Follows(ReadInsert(d, p, utf8), ReadInsert(d', p, utf8), k, |d'| == k)
  {
    var id := I32(d, p);
    I32Follows(d, d', k, p);
    if id.Got? {
      var marker := U8(d, id.end);
      U8Follows(d, d', k, id.end);
      if marker.Got? {
        TupleFollows(d, d', k, marker.end, utf8);
      }
    }
  }

  lemma BothRowsFollow(d: Bytes, d': Bytes, k: nat, p: nat, utf8: Utf8)
    requires Agree(d, d', k)
    ensures Follows(ReadBothRows(d, p, utf8), ReadBothRows(d', p, utf8), k, |d'| == k)
  {
    var first := ReadTuple(d, p, utf8);
    TupleFollows(d, d', k, p, utf8);
    if first.Got? {
      var marker := U8(d, first.end);
      U8Follows(d, d', k, first.end);
      if marker.Got? {
        TupleFollows(d, d', k, marker.end, utf8);
      }
    }
  }

  lemma UpdateFollows(d: Bytes, d': Bytes, k: nat, p: nat, utf8: Utf8)
    requires Agree(d, d', k)
    ensures Follows(ReadUpdate(d, p, utf8), ReadUpdate(d', p, utf8), k, |d'| == k)
  {
    var id := I32(d, p);
    I32Follows(d, d', k, p);
    if id.Got? {
      var marker := U8(d, id.end);
      U8Follows(d, d', k, id.end);
      if marker.Got? {
        BothRowsFollow(d, d', k, marker.end, utf8);
        TupleFollows(d, d', k, marker.end, utf8);
      }
    }
  }

  lemma DeleteFollows(d: Bytes, d': Bytes, k: nat, p: nat, utf8: Utf8)
    requires Agree(d, d', k)
    ensures Follows(ReadDelete(d, p, utf8), ReadDelete(d', p, utf8), k, |d'| == k)
  {
    var id := I32(d, p);
    I32Follows(d, d', k, p);
    if id.Got? {
      var marker := U8(d, id.end);
      U8Follows(d, d', k, id.end);
      if marker.Got? {
        TupleFollows(d, d', k, marker.end, utf8);
      }
    }
  }

  lemma LogicalFollows(d: Bytes, d': Bytes, k: nat, p: nat, utf8: Utf8)
    requires Agree(d, d', k)
    ensures Follows(ReadLogical(d, p, utf8), ReadLogical(d', p, utf8), k, |d'| == k)
  {
    var flags := U8(d, p);
    U8Follows(d, d', k, p);
    if flags.Got? {
      var lsn := U64(d, flags.end);
      U64Follows(d, d', k, flags.end);
      if lsn.Got? {
        PayloadFollows(d, d', k, lsn.end, utf8);
      }
    }
  }

  lemma TruncateFollows(d: Bytes, d': Bytes, k: nat, p: nat)
    requires Agree(d, d', k)
    ensures Follows(ReadTruncate(d, p), ReadTruncate(d', p), k, |d'| == k)
  {
    var n := I32(d, p);
    I32Follows(d, d', k, p);
    if n.Got? {
      var flags := U8(d, n.end);
      U8Follows(d, d', k, n.end);
      if flags.Got? && n.value >= 0 {
        IdsFollow(d, d', k, flags.end, n.value);
      }
    }
  }

  lemma OriginFollows(d: Bytes, d': Bytes, k: nat, p: nat, utf8: Utf8)
    requires Agree(d, d', k)
    ensures Follows(ReadOrigin(d, p, utf8), ReadOrigin(d', p, utf8), k, |d'| == k)
  {
    var lsn := U64(d, p);
    U64Follows(d, d', k, p);
    if lsn.Got? {
      CStrFollows(d, d', k, lsn.end, utf8);
    }
  }

  lemma TypeFollows(d: Bytes, d': Bytes, k: nat, p: nat, utf8: Utf8)
    requires Agree(d, d', k)
    ensures Follows(ReadType(d, p, utf8), ReadType(d', p, utf8), k, |d'| == k)
  {
    var oid := I32(d, p);
    I32Follows(d, d', k, p);
    if oid.Got? {
      NamesFollow(d, d', k, oid.end, utf8);
    }
  }

  lemma BodyFollows(kind: byte, d: Bytes, d': Bytes, k: nat, p: nat, utf8: Utf8)
    requires Agree(d, d', k) && p <= k
    ensures Follows(ReadBody(kind, d, p, utf8), ReadBody(kind, d', p, utf8), k, |d'| == k)
  {
    if kind == 'B' as int {
      BeginFollows(d, d', k, p);
    } else if kind == 'C' as int {
      CommitFollows(d, d', k, p);
    } else if kind == 'R' as int {
      RelationFollows(d, d', k, p, utf8);
    } else if kind == 'I' as int {
      InsertFollows(d, d', k, p, utf8);
    } else if kind == 'U' as int {
      UpdateFollows(d, d', k, p, utf8);
    } else if kind == 'D' as int {
      DeleteFollows(d, d', k, p, utf8);
    } else if kind == 'M' as int {
      LogicalFollows(d, d', k, p, utf8);
    } else if kind == 'T' as int {
      TruncateFollows(d, d', k, p);
    } else if kind == 'O' as int {
      OriginFollows(d, d', k, p, utf8);
    } else if kind == 'Y' as int {
      TypeFollows(d, d', k, p, utf8);
    }
  }

  lemma DecodeFollows(d: Bytes, d': Bytes, k: nat, utf8: Utf8)
    requires Agree(d, d', k)
    ensures Follows(Decode(d, utf8), Decode(d', utf8), k, |d'| == k)
  {
    U8Follows(d, d', k, 0);
    if k > 0 {
      BodyFollows(d[0], d, d', k, 1, utf8);
    }
  }

  /** Whatever decodes, decodes the same with anything after it, and every strict prefix of it is too short. */
  lemma DecodeReadsExactly(d: Bytes, utf8: Utf8, tail: Bytes, cut: nat)
    requires Decode(d, utf8).Got? && cut < Decode(d, utf8).end
    ensures var r := Decode(d, utf8);
            Decode(d[..r.end] + tail, utf8) == r && Decode(d[..cut], utf8) == Bad(TooShort)
  {
    var end := Decode(d, utf8).end;
    assert (d[..end] + tail)[..end] == d[..end];
    DecodeFollows(d, d[..end] + tail, end, utf8);
    assert d[..cut][..cut] == d[..cut];
    DecodeFollows(d, d[..cut], cut, utf8);
  }
}
