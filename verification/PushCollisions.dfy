/**
 The colon-joined key that batching groups pushes by: exactly which connections have a
 key of their own, and what happens to the others.
 */
module PushCollisions {
  import opened Base
  import opened PushBatch
  import opened PushWorkers

  // ---- When a key is a connection's own --------------------------------------

  predicate Colonless(c: Connection) {
    ':' !in c.clientId && ':' !in c.wsId && ':' !in c.revision
  }

  /** The separators of a key, and what stands between them. */
  lemma KeyAt(c: Connection)
    ensures var key, first, second := ConnectionKey(c), |c.clientId|, |c.clientId| + 1 + |c.wsId|;
            && |key| == second + 1 + |c.revision|
            && key[..first] == c.clientId && key[first] == ':'
            && key[first + 1..second] == c.wsId && key[second] == ':'
            && key[second + 1..] == c.revision
  {
  }

  /** In the key of a connection without colons, the separators are the only colons. */
  lemma OnlySeparators(c: Connection, i: nat)
    requires Colonless(c) && i < |ConnectionKey(c)| && ConnectionKey(c)[i] == ':'
    ensures i == |c.clientId| || i == |c.clientId| + 1 + |c.wsId|
  {
  }

  lemma ColonlessIsAlone(a: Connection, b: Connection)
    requires Colonless(a) && ConnectionKey(a) == ConnectionKey(b)
    ensures a == b
  {
    KeyAt(a);
    KeyAt(b);
    OnlySeparators(a, |b.clientId|);
    OnlySeparators(a, |b.clientId| + 1 + |b.wsId|);
  }

  lemma Colon(s: string) returns (before: string, after: string)
    requires ':' in s
    ensures s == before + ":" + after && before != s && after != s
  {
    var k :| 0 <= k < |s| && s[k] == ':';
    before, after := s[..k], s[k + 1..];
  }

  /** A colon inside a field can just as well be a separator. */
  lemma ColonCollides(a: Connection) returns (b: Connection)
    requires !Colonless(a)
    ensures ConnectionKey(b) == ConnectionKey(a) && b != a
  {
    if ':' in a.clientId {
      var before, after := Colon(a.clientId);
      b := Connection(before, after + ":" + a.wsId, a.revision);
    } else if ':' in a.wsId {
      var before, after := Colon(a.wsId);
      b := Connection(a.clientId, before, after + ":" + a.revision);
    } else {
      var before, after := Colon(a.revision);
      b := Connection(a.clientId, a.wsId + ":" + before, after);
    }
    assert ConnectionKey(b) == ConnectionKey(a);
  }

  /** A connection shares its key with no other exactly when none of its fields holds a colon. */
  lemma OwnKeyExactly(a: Connection)
    ensures (forall b :: ConnectionKey(b) == ConnectionKey(a) ==> b == a) <==> Colonless(a)
  {
    if Colonless(a) {
      forall b | ConnectionKey(b) == ConnectionKey(a) ensures b == a {
        ColonlessIsAlone(a, b);
      }
    } else {
      var b := ColonCollides(a);
    }
  }

  // ---- What a shared key does to a run ---------------------------------------

  lemma WantedFirst<M>(e: Entry<M>, rest: seq<Item<M>>)
    ensures Wanted([Queued(e)] + rest) == [e] + Wanted(rest) && Stops([Queued(e)] + rest) == Stops(rest)
  {
    assert Present([Queued(e)] + rest)[1..] == Present(rest);
  }

  lemma WantedPair<M>(a: Entry<M>, b: Entry<M>)
    ensures Wanted([Queued(a), Queued(b), Stop]) == [a, b] && Wanted([Queued(a)]) == [a] && Wanted([Queued(b), Stop]) == [b]
    ensures Stops([Queued(b), Stop]) && !Stops([Queued(a)])
  {
    WantedFirst(b, [Stop]);
    assert [Queued(b)] + [Stop] == [Queued(b), Stop];
    WantedFirst(a, [Queued(b), Stop]);
    assert [Queued(a)] + [Queued(b), Stop] == [Queued(a), Queued(b), Stop];
    WantedFirst(a, []);
    assert [Queued(a)] + [] == [Queued(a)];
  }

  /** Two entries whose keys collide fail together and succeed apart, so whether a run fails does depend on the cuts. */
  lemma CollisionsFailTogether<M>(a: Entry<M>, b: Entry<M>)
    requires GroupKey(a.ctx) == GroupKey(b.ctx) && ContextOf(a) != ContextOf(b)
    ensures RunWorker([], [[Queued(a), Queued(b), Stop]]).Failed?
    ensures RunWorker([], [[Queued(a)], [Queued(b), Stop]]).Finished?
  {
    WantedPair(a, b);
    var together, apart := [[Queued(a), Queued(b), Stop]], [[Queued(a)], [Queued(b), Stop]];
    RunFailsOnDisagreement([], together);
    assert [] + together[0] == together[0];
    assert [a, b][0] == a && [a, b][1] == b;
    RunFailsOnDisagreement([], apart);
    RunFailsOnDisagreement([], apart[1..]);
    assert [] + apart[0] == apart[0] && [] + apart[1..][0] == apart[1] && apart[1..][1..] == [];
    assert Agreed([a]) && Agreed([b]);
    RunForwardsExactly([], apart);
    ApartStops(a, b);
  }

  lemma ApartStops<M>(a: Entry<M>, b: Entry<M>)
    ensures Stops(Stream([], [[Queued(a)], [Queued(b), Stop]]))
  {
    var apart := [[Queued(a)], [Queued(b), Stop]];
    WantedPair(a, b);
    StreamFirst([], apart);
    StreamFirst([], apart[1..]);
    assert [] + apart[0] == apart[0] && [] + apart[1..][0] == apart[1] && apart[1..][1..] == [];
    WantedConcat(apart[0], Stream([], apart[1..]));
    WantedConcat(apart[1], Stream([], apart[1..][1..]));
  }

  /** An entry of a connection with nothing else to say. */
  function Plain<M>(c: Connection, mutations: seq<M>): Entry<M> {
    Entry(ConnCtx(c.clientId, c.wsId, c.revision, None, "", MutateContext("", None, None)), PushBody(None, 1.0, mutations))
  }

  /** Two connections that share a key make the worker fail if they are drained together, and not if they are drained apart. */
  lemma KeysCollide<M>(first: seq<M>, second: seq<M>)
    ensures var a, b := Plain(Connection("a:b", "c", "r"), first), Plain(Connection("a", "b:c", "r"), second);
            && GroupKey(a.ctx) == GroupKey(b.ctx) == "a:b:c:r"
            && RunWorker([], [[Queued(a), Queued(b), Stop]]).Failed?
            && RunWorker([], [[Queued(a)], [Queued(b), Stop]]).Finished?
  {
    var a, b := Plain(Connection("a:b", "c", "r"), first), Plain(Connection("a", "b:c", "r"), second);
    assert "a:b" + ":" + "c" + ":" + "r" == "a:b:c:r" == "a" + ":" + "b:c" + ":" + "r";
    assert |a.ctx.clientId| != |b.ctx.clientId|;
    CollisionsFailTogether(a, b);
  }

  lemma AgreedPair<M>(a: Entry<M>, b: Entry<M>)
    requires GroupKey(a.ctx) != GroupKey(b.ctx)
    ensures Agreed([a, b])
  {
  }

  lemma DifferentKeysNeverFail<M>(a: Entry<M>, b: Entry<M>)
    requires GroupKey(a.ctx) != GroupKey(b.ctx)
    ensures !RunWorker([], [[Queued(a), Queued(b), Stop]]).Failed?
  {
    var together := [[Queued(a), Queued(b), Stop]];
    WantedPair(a, b);
    AgreedPair(a, b);
    assert [] + together[0] == together[0] && together[1..] == [];
    RunFailsOnDisagreement([], together);
  }

  /** An entry can be drained together with those of every other connection exactly when no field of its connection holds a colon. */
  lemma NeverFailsAnotherExactly<M(!new)>(e: Entry<M>)
    ensures (forall other: Entry<M> | ConnectionOf(other.ctx) != ConnectionOf(e.ctx) ::
               !RunWorker([], [[Queued(e), Queued(other), Stop]]).Failed?)
       <==> Colonless(ConnectionOf(e.ctx))
  {
    var c := ConnectionOf(e.ctx);
    if Colonless(c) {
      forall other: Entry<M> | ConnectionOf(other.ctx) != c ensures !RunWorker([], [[Queued(e), Queued(other), Stop]]).Failed? {
        if GroupKey(other.ctx) == GroupKey(e.ctx) {
          ColonlessIsAlone(c, ConnectionOf(other.ctx));
        }
        DifferentKeysNeverFail(e, other);
      }
    } else {
      var c' := ColonCollides(c);
      var other := Plain(c', e.push.mutations);
      CollisionsFailTogether(e, other);
    }
  }
}
