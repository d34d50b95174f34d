/**
 The worker that drains the push queue: `crates/zero-cache-mutagen/src/pusher_service.rs`.

 What arrives while the worker waits or works is a parameter, so every way of cutting the
 queue into drained batches is covered. Sending a push is a parameter too.
 */
module PushWorkers {
  import opened Base
  import opened PushBatch

  datatype InitConnectionResult = Registered | Reconnected(previousWsId: string)

  datatype AlreadyInitialized = AlreadyInitialized

  /** How a run ends, with the pushes it forwarded; `Waiting` if nothing more arrives. */
  datatype Outcome<M> =
    | Finished(forwarded: seq<Entry<M>>)
    | Failed(forwarded: seq<Entry<M>>, field: Field)
    | Waiting(forwarded: seq<Entry<M>>)

  function Present<M>(items: seq<Item<M>>): seq<Option<Item<M>>> {
    seq(|items|, i requires 0 <= i < |items| => Some(items[i]))
  }

  function After<M>(before: seq<Entry<M>>, outcome: Outcome<M>): Outcome<M> {
    outcome.(forwarded := before + outcome.forwarded)
  }

  /** Each step, what is queued and has arrived is drained, combined and forwarded. */
  function RunWorker<M>(queue: seq<Item<M>>, arrivals: seq<seq<Item<M>>>): Outcome<M>
    decreases |arrivals|
  {
    if arrivals == [] then Waiting([])
    else
      var batch := queue + arrivals[0];
      if batch == [] then RunWorker([], arrivals[1..])
      else
        match Combine(Present(batch))
        case Err(field) => Failed([], field)
        case Ok((pushes, stopped)) => if stopped then Finished(pushes) else After(pushes, RunWorker([], arrivals[1..]))
  }

  lemma AfterNothing<M>(outcome: Outcome<M>)
    ensures After([], outcome) == outcome
  {
    assert [] + outcome.forwarded == outcome.forwarded;
  }

  lemma AfterBoth<M>(a: seq<Entry<M>>, b: seq<Entry<M>>, outcome: Outcome<M>)
    ensures After(a, After(b, outcome)) == After(a + b, outcome)
  {
    assert a + (b + outcome.forwarded) == (a + b) + outcome.forwarded;
  }

  /** Sending one push: what it makes of the sender's state, and its result. */
  type Process<!S, !M, !R> = (S, Entry<M>) -> (S, R)

  /** The state of the sender after some pushes, with one result per push, in order. */
  function Processed<S, M, R>(process: Process<S, M, R>, start: S, pushes: seq<Entry<M>>): (S, seq<R>) {
    if pushes == [] then (start, [])
    else
      var (state, results) := Processed(process, start, pushes[..|pushes| - 1]);
      var (next, result) := process(state, pushes[|pushes| - 1]);
      (next, results + [result])
  }

  class PushWorker<M> {
    var queue: seq<Item<M>>
    var clients: map<string, string>

    constructor ()
      ensures queue == [] && clients == map[]
    {
      queue, clients := [], map[];
    }

    method InitConnection(clientId: string, wsId: string) returns (r: Result<InitConnectionResult, AlreadyInitialized>)
      modifies this
      ensures queue == old(queue)
      ensures r.Err? <==> clientId in old(clients) && old(clients)[clientId] == wsId
      ensures r.Ok? ==> r.value == if clientId in old(clients) then Reconnected(old(clients)[clientId]) else Registered
      ensures clients == old(clients)[clientId := wsId]
    {
      if clientId in clients {
        var existing := clients[clientId];
        if existing == wsId {
          assert clients[clientId := wsId] == clients;
          return Err(AlreadyInitialized);
        }
        clients := clients[clientId := wsId];
        return Ok(Reconnected(existing));
      }
      clients := clients[clientId := wsId];
      r := Ok(Registered);
    }

    method EnqueuePush(ctx: ConnCtx, push: PushBody<M>)
      modifies this
      ensures queue == old(queue) + [Queued(Entry(ctx, push))] && clients == old(clients)
    {
      queue := queue + [Queued(Entry(ctx, push))];
    }

    method StopWorker()
      modifies this
      ensures queue == old(queue) + [Stop] && clients == old(clients)
    {
      queue := queue + [Stop];
    }

    method Run<S, R>(arrivals: seq<seq<Item<M>>>, process: Process<S, M, R>, start: S)
      returns (outcome: Outcome<M>, state: S, results: seq<R>)
      modifies this
      ensures outcome == RunWorker(old(queue), arrivals) && clients == old(clients)
      ensures (state, results) == Processed(process, start, outcome.forwarded)
    {
      state, results := start, [];
      var forwarded: seq<Entry<M>> := [];
      ghost var whole := RunWorker(queue, arrivals);
      AfterNothing(whole);
      assert arrivals[0..] == arrivals;
      for i := 0 to |arrivals|
        invariant clients == old(clients)
        invariant whole == After(forwarded, RunWorker(queue, arrivals[i..]))
        invariant (state, results) == Processed(process, start, forwarded)
      {
        RunOne(forwarded, queue, arrivals, i);
        var batch := queue + arrivals[i];
        queue := [];
        if batch != [] {
          var combined := CombinePushes(Present(batch));
          if combined.Err? {
            return Failed(forwarded, combined.error), state, results;
          }
          var sent;
          ProcessedConcat(process, start, forwarded, combined.value.0);
          state, sent := Send(combined.value.0, process, state);
          forwarded, results := forwarded + combined.value.0, results + sent;
          if combined.value.1 {
            return Finished(forwarded), state, results;
          }
        }
      }
      RunEnd(forwarded, queue, arrivals);
      outcome := Waiting(forwarded);
    }
  }

  lemma {:induction false} ProcessedConcat<S, M, R>(process: Process<S, M, R>, start: S, a: seq<Entry<M>>, b: seq<Entry<M>>)
    ensures var (middle, first) := Processed(process, start, a);
            var (end, second) := Processed(process, middle, b);
            Processed(process, start, a + b) == (end, first + second)
  {
    if b == [] {
      var results := Processed(process, start, a).1;
      assert a + b == a && results + [] == results;
    } else {
      var n := |b| - 1;
      assert (a + b)[..|a + b| - 1] == a + b[..n] && (a + b)[|a + b| - 1] == b[n];
      ProcessedConcat(process, start, a, b[..n]);
      var (middle, first) := Processed(process, start, a);
      var (state, second) := Processed(process, middle, b[..n]);
      var result := process(state, b[n]).1;
      assert (first + second) + [result] == first + (second + [result]);
    }
  }

  /** One turn of the loop. */
  lemma RunOne<M>(forwarded: seq<Entry<M>>, queue: seq<Item<M>>, arrivals: seq<seq<Item<M>>>, i: nat)
    requires i < |arrivals|
    ensures var batch, later := queue + arrivals[i], RunWorker([], arrivals[i + 1..]);
            After(forwarded, RunWorker(queue, arrivals[i..]))
            == if batch == [] then After(forwarded, later)
               else match Combine(Present(batch))
                    case Err(field) => Failed(forwarded, field)
                    case Ok((pushes, stopped)) => if stopped then Finished(forwarded + pushes) else After(forwarded + pushes, later)
  {
    assert arrivals[i..][0] == arrivals[i] && arrivals[i..][1..] == arrivals[i + 1..];
    assert forwarded + [] == forwarded;
    var combined := Combine(Present(queue + arrivals[i]));
    if combined.Ok? {
      AfterBoth(forwarded, combined.value.0, RunWorker([], arrivals[i + 1..]));
    }
  }

  lemma RunEnd<M>(forwarded: seq<Entry<M>>, queue: seq<Item<M>>, arrivals: seq<seq<Item<M>>>)
    ensures After(forwarded, RunWorker(queue, arrivals[|arrivals|..])) == Waiting(forwarded)
  {
    assert arrivals[|arrivals|..] == [];
    assert forwarded + [] == forwarded;
  }

  method Send<S, M, R>(pushes: seq<Entry<M>>, process: Process<S, M, R>, start: S) returns (state: S, results: seq<R>)
    ensures (state, results) == Processed(process, start, pushes)
  {
    state, results := start, [];
    for i := 0 to |pushes|
      invariant (state, results) == Processed(process, start, pushes[..i])
    {
      assert pushes[..i + 1][..i] == pushes[..i];
      var (next, result) := process(state, pushes[i]);
      state, results := next, results + [result];
    }
    assert pushes[..|pushes|] == pushes;
  }

  // ---- Whole runs ------------------------------------------------------------

  /** Everything that was ever queued, in order. */
  function Stream<M>(queue: seq<Item<M>>, arrivals: seq<seq<Item<M>>>): seq<Item<M>>
    decreases |arrivals|
  {
    if arrivals == [] then queue else queue + (arrivals[0] + Stream([], arrivals[1..]))
  }

  lemma {:induction false} BeforeStopConcat<M>(a: seq<Option<Item<M>>>, b: seq<Option<Item<M>>>)
    ensures BeforeStop(a + b) == if BeforeStop(a).1 then BeforeStop(a) else (BeforeStop(a).0 + BeforeStop(b).0, BeforeStop(b).1)
  {
    if a == [] {
      assert a + b == b;
      assert [] + BeforeStop(b).0 == BeforeStop(b).0;
    } else {
      assert (a + b)[0] == a[0] && (a + b)[1..] == a[1..] + b;
      BeforeStopConcat(a[1..], b);
      if a[0].Some? && a[0].value.Queued? && !BeforeStop(a[1..]).1 {
        assert [a[0].value.entry] + (BeforeStop(a[1..]).0 + BeforeStop(b).0) == ([a[0].value.entry] + BeforeStop(a[1..]).0) + BeforeStop(b).0;
      }
    }
  }

  lemma PresentConcat<M>(a: seq<Item<M>>, b: seq<Item<M>>)
    ensures Present(a + b) == Present(a) + Present(b)
  {
  }

  /** The entries queued before the first stop. */
  function Wanted<M>(items: seq<Item<M>>): seq<Entry<M>> {
    BeforeStop(Present(items)).0
  }

  predicate Stops<M>(items: seq<Item<M>>) {
    BeforeStop(Present(items)).1
  }

  lemma WantedConcat<M>(a: seq<Item<M>>, b: seq<Item<M>>)
    ensures Stops(a + b) <==> Stops(a) || Stops(b)
    ensures Wanted(a + b) == if Stops(a) then Wanted(a) else Wanted(a) + Wanted(b)
  {
    PresentConcat(a, b);
    BeforeStopConcat(Present(a), Present(b));
  }

  /** What is forwarded for a connection is exactly what was queued for it, in order, each under its own context. */
  ghost predicate ForwardsExactly<M>(forwarded: seq<Entry<M>>, wanted: seq<Entry<M>>) {
    forall c: Connection :: ForConnection(Tagged(forwarded), c) == ForConnection(Tagged(wanted), c)
  }

  lemma ForwardsBoth<M>(f: seq<Entry<M>>, w: seq<Entry<M>>, f': seq<Entry<M>>, w': seq<Entry<M>>)
    requires ForwardsExactly(f, w) && ForwardsExactly(f', w')
    ensures ForwardsExactly(f + f', w + w')
  {
    TaggedConcat(f, f');
    TaggedConcat(w, w');
    forall c: Connection ensures ForConnection(Tagged(f + f'), c) == ForConnection(Tagged(w + w'), c) {
      ForConnectionConcat(Tagged(f), Tagged(f'), c);
      ForConnectionConcat(Tagged(w), Tagged(w'), c);
    }
  }

  lemma BatchForwardsExactly<M>(batch: seq<Item<M>>)
    requires Combine(Present(batch)).Ok?
    ensures ForwardsExactly(Combine(Present(batch)).value.0, Wanted(batch))
    ensures Combine(Present(batch)).value.1 == Stops(batch)
  {
    forall c: Connection ensures ForConnection(Tagged(Combine(Present(batch)).value.0), c) == ForConnection(Tagged(Wanted(batch)), c) {
      CombiningKeepsConnections(Present(batch), c);
    }
  }

  lemma StreamFirst<M>(queue: seq<Item<M>>, arrivals: seq<seq<Item<M>>>)
    requires arrivals != []
    ensures Stream(queue, arrivals) == (queue + arrivals[0]) + Stream([], arrivals[1..])
  {
  }

  /** However the queue is cut into batches, a run that does not fail forwards exactly what was queued before the first stop. */
  lemma {:induction false} RunForwardsExactly<M>(queue: seq<Item<M>>, arrivals: seq<seq<Item<M>>>)
    requires arrivals != [] || queue == []
    ensures var outcome := RunWorker(queue, arrivals);
            && (!outcome.Failed? ==> ForwardsExactly(outcome.forwarded, Wanted(Stream(queue, arrivals))))
            && (outcome.Finished? ==> Stops(Stream(queue, arrivals)))
            && (outcome.Waiting? ==> !Stops(Stream(queue, arrivals)))
    decreases |arrivals|
  {
    if arrivals != [] {
      var batch, rest := queue + arrivals[0], Stream([], arrivals[1..]);
      StreamFirst(queue, arrivals);
      RunForwardsExactly([], arrivals[1..]);
      WantedConcat(batch, rest);
      if batch == [] {
        assert batch + rest == rest;
      } else if Combine(Present(batch)).Ok? {
        BatchForwardsExactly(batch);
        var later := RunWorker([], arrivals[1..]);
        if !Stops(batch) && !later.Failed? {
          ForwardsBoth(Combine(Present(batch)).value.0, Wanted(batch), later.forwarded, Wanted(rest));
        }
      }
    }
  }

  /** Two runs over the same queue, cut differently, forward the same to every connection. */
  lemma CutsDoNotMatter<M>(queue: seq<Item<M>>, arrivals: seq<seq<Item<M>>>, queue': seq<Item<M>>, arrivals': seq<seq<Item<M>>>)
    requires arrivals != [] && arrivals' != [] && Stream(queue, arrivals) == Stream(queue', arrivals')
    requires !RunWorker(queue, arrivals).Failed? && !RunWorker(queue', arrivals').Failed?
    ensures ForwardsExactly(RunWorker(queue, arrivals).forwarded, RunWorker(queue', arrivals').forwarded)
  {
    RunForwardsExactly(queue, arrivals);
    RunForwardsExactly(queue', arrivals');
  }

  // ---- When a run fails ------------------------------------------------------

  /** Some batch drained before the end holds two entries with one key but different contexts. */
  ghost predicate SomeBatchDisagrees<M>(queue: seq<Item<M>>, arrivals: seq<seq<Item<M>>>)
    decreases |arrivals|
  {
    arrivals != [] &&
      (var batch := queue + arrivals[0];
       !Agreed(Wanted(batch)) || (!Stops(batch) && SomeBatchDisagrees([], arrivals[1..])))
  }

  lemma {:induction false} RunFailsOnDisagreement<M>(queue: seq<Item<M>>, arrivals: seq<seq<Item<M>>>)
    ensures RunWorker(queue, arrivals).Failed? <==> SomeBatchDisagrees(queue, arrivals)
    decreases |arrivals|
  {
    if arrivals != [] {
      var batch := queue + arrivals[0];
      CombiningFailsOnDisagreement(Present(batch));
      RunFailsOnDisagreement([], arrivals[1..]);
    }
  }

  lemma AgreedParts<M>(a: seq<Entry<M>>, b: seq<Entry<M>>)
    requires Agreed(a + b)
    ensures Agreed(a) && Agreed(b)
  {
    assert forall i | 0 <= i < |a| :: (a + b)[i] == a[i];
    assert forall i | 0 <= i < |b| :: (a + b)[|a| + i] == b[i];
  }

  /** Connections that keep one context each never make a run fail, however the queue is cut. */
  lemma {:induction false} AgreedStreamNeverFails<M>(queue: seq<Item<M>>, arrivals: seq<seq<Item<M>>>)
    requires Agreed(Wanted(Stream(queue, arrivals)))
    ensures !RunWorker(queue, arrivals).Failed?
    decreases |arrivals|
  {
    if arrivals != [] {
      var batch, rest := queue + arrivals[0], Stream([], arrivals[1..]);
      StreamFirst(queue, arrivals);
      WantedConcat(batch, rest);
      CombiningFailsOnDisagreement(Present(batch));
      if !Stops(batch) {
        AgreedParts(Wanted(batch), Wanted(rest));
        AgreedStreamNeverFails([], arrivals[1..]);
      }
    }
  }

  /** No way of cutting the rest of the stream makes the run fail, exactly when entries with one key share one context. */
  lemma NoCutFailsExactly<M(!new)>(queue: seq<Item<M>>, items: seq<Item<M>>)
    ensures (forall arrivals | Stream(queue, arrivals) == queue + items :: !RunWorker(queue, arrivals).Failed?)
       <==> Agreed(Wanted(queue + items))
  {
    if Agreed(Wanted(queue + items)) {
      forall arrivals | Stream(queue, arrivals) == queue + items ensures !RunWorker(queue, arrivals).Failed? {
        AgreedStreamNeverFails(queue, arrivals);
      }
    } else {
      assert Stream(queue, [items]) == queue + items by {
        StreamFirst(queue, [items]);
        assert [items][1..] == [] && (queue + items) + [] == queue + items;
      }
      RunFailsOnDisagreement(queue, [items]);
    }
  }

  // ---- What a failed run has done --------------------------------------------

  /** The run failed at batch `k`, with the field that batch disagrees in, after forwarding exactly what the batches before it held. */
  ghost predicate FailedAt<M>(queue: seq<Item<M>>, arrivals: seq<seq<Item<M>>>, outcome: Outcome<M>, k: nat) {
    outcome.Failed? && k < |arrivals| &&
      var batch := (if k == 0 then queue else []) + arrivals[k];
      && batch != [] && Combine(Present(batch)) == Err(outcome.field)
      && var before := if k == 0 then [] else Stream(queue, arrivals[..k]);
         !Stops(before) && ForwardsExactly(outcome.forwarded, Wanted(before))
  }

  lemma NothingWanted<M>()
    ensures Wanted<M>([]) == [] && !Stops<M>([])
  {
  }

  lemma {:induction false} FailedRunForwardsEarlierBatches<M>(queue: seq<Item<M>>, arrivals: seq<seq<Item<M>>>)
    requires RunWorker(queue, arrivals).Failed?
    ensures exists k: nat :: FailedAt(queue, arrivals, RunWorker(queue, arrivals), k)
    decreases |arrivals|
  {
    var outcome := RunWorker(queue, arrivals);
    var batch, rest := queue + arrivals[0], arrivals[1..];
    NothingWanted<M>();
    if batch != [] && Combine(Present(batch)).Err? {
      assert FailedAt(queue, arrivals, outcome, 0);
    } else {
      FailedRunForwardsEarlierBatches([], rest);
      var later := RunWorker([], rest);
      var k: nat :| FailedAt([], rest, later, k);
      var before := if k == 0 then [] else Stream([], rest[..k]);
      assert Stream(queue, arrivals[..k + 1]) == batch + before by {
        StreamFirst(queue, arrivals[..k + 1]);
        assert arrivals[..k + 1][1..] == rest[..k] && arrivals[..k + 1][0] == arrivals[0];
        assert k == 0 ==> Stream([], rest[..k]) == [];
      }
      WantedConcat(batch, before);
      assert [] + rest[k] == arrivals[k + 1];
      if batch == [] {
        assert [] + Wanted(before) == Wanted(before);
      } else {
        BatchForwardsExactly(batch);
        ForwardsBoth(Combine(Present(batch)).value.0, Wanted(batch), later.forwarded, Wanted(before));
      }
      assert FailedAt(queue, arrivals, outcome, k + 1);
    }
  }
}
