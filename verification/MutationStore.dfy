/**
 Applying client mutations to the upstream database:
 `apply_crud_mutation` of `crates/zero-cache-mutagen/src/apply_mutation.rs`, with
 `check_mutation_id` and the upsert of `crates/zero-cache-mutagen/src/last_mutation_id.rs` and
 `plan_mutation_sql` of `crates/zero-cache-mutagen/src/orchestration.rs`.

 Postgres is an atomic store: a transaction takes effect as a whole or not at all, and
 the environment decides its fate. What a statement does to the data is a parameter.
 */
module MutationStore {
  import opened Base

  datatype ClientKey = ClientKey(group: string, client: string)

  /** The upstream database: each client's last mutation id, and everything else. */
  datatype Store<D> = Store(counters: map<ClientKey, int>, data: D)

  datatype Mutation<Op> = Mutation(key: ClientKey, id: int, ops: seq<Op>, authorized: bool)

  /** Runs one statement; a constraint violation or the like is an error. */
  type Exec<!D, !Op> = (Op, D) -> Result<D, string>

  /** What the environment does to a transaction. */
  datatype Fate =
    | Clean                              // no interference
    | SerializationConflict              // rolled back by the server with SQLSTATE 40001
    | Fails(error: string)               // any other error, nothing committed
    | CommitsButFails(error: string)     // the commit lands, the reply is lost

  datatype IdCheck =
    | IdOk
    | AlreadyProcessed(received: int, actual: int)
    | Unexpected(received: int, expected: int)

  datatype TxResult =
    | Checked(check: IdCheck, lastMutationId: int)
    | SerializationFailure
    | PostgresError(error: string)

  /** One transaction of one retry loop. */
  datatype Attempt<Op> = Attempt(mutation: Mutation<Op>, errorMode: bool, fate: Fate)

  function Counter<D>(store: Store<D>, key: ClientKey): int {
    if key in store.counters then store.counters[key] else 0
  }

  function CheckMutationId(received: int, last: int): IdCheck {
    if received < last then AlreadyProcessed(received, last)
    else if received > last then Unexpected(received, last)
    else IdOk
  }

  /** The statements of a mutation: none in error mode or without authorization. */
  function PlanMutation<Op>(ops: seq<Op>, errorMode: bool, authorized: bool): seq<Op> {
    if errorMode || !authorized then [] else ops
  }

  function Plan<Op>(a: Attempt<Op>): seq<Op> {
    PlanMutation(a.mutation.ops, a.errorMode, a.mutation.authorized)
  }

  function RunOps<D, Op>(exec: Exec<D, Op>, ops: seq<Op>, data: D): Result<D, string> {
    if ops == [] then Ok(data)
    else
      match exec(ops[0], data)
      case Ok(next) => RunOps(exec, ops[1..], next)
      case Err(e) => Err(e)
  }

  /** The state a transaction would leave behind: the client's counter upserted and the plan run. */
  function Outcome<D, Op>(exec: Exec<D, Op>, store: Store<D>, a: Attempt<Op>): Result<Store<D>, string> {
    match RunOps(exec, Plan(a), store.data)
    case Ok(data) => Ok(Store(store.counters[a.mutation.key := Counter(store, a.mutation.key) + 1], data))
    case Err(e) => Err(e)
  }

  predicate IsNext<D, Op>(store: Store<D>, m: Mutation<Op>) {
    m.id == Counter(store, m.key) + 1
  }

  /** Whether the transaction leaves anything behind. */
  predicate Lands<D, Op>(exec: Exec<D, Op>, store: Store<D>, a: Attempt<Op>) {
    (a.fate.Clean? || a.fate.CommitsButFails?) && IsNext(store, a.mutation) && Outcome(exec, store, a).Ok?
  }

  function After<D, Op>(exec: Exec<D, Op>, store: Store<D>, a: Attempt<Op>): Store<D> {
    if Lands(exec, store, a) then Outcome(exec, store, a).value else store
  }

  /** What the transaction reports. */
  function Report<D, Op>(exec: Exec<D, Op>, store: Store<D>, a: Attempt<Op>): TxResult {
    var last := Counter(store, a.mutation.key) + 1;
    match a.fate
    case SerializationConflict => SerializationFailure
    case Fails(e) => PostgresError(e)
    case _ =>
      if IsNext(store, a.mutation) && Outcome(exec, store, a).Err? then PostgresError(Outcome(exec, store, a).error)
      else if a.fate.CommitsButFails? then PostgresError(a.fate.error)
      else Checked(CheckMutationId(a.mutation.id, last), last)
  }

  /** A connection to the upstream database. */
  class Upstream<D> {
    var store: Store<D>

    constructor (store: Store<D>)
      ensures this.store == store
    {
      this.store := store;
    }

    /**
     Applies one mutation in one transaction: upsert and check the client's last mutation
     id, run the planned statements on a match, and commit; roll back otherwise.
     */
    method ApplyCrudMutation<Op>(exec: Exec<D, Op>, m: Mutation<Op>, errorMode: bool, fate: Fate) returns (result: TxResult)
      modifies this
      ensures store == After(exec, old(store), Attempt(m, errorMode, fate))
      ensures result == Report(exec, old(store), Attempt(m, errorMode, fate))
    {
      if fate.SerializationConflict? {
        return SerializationFailure;
      }
      if fate.Fails? {
        return PostgresError(fate.error);
      }
      // The transaction works on its own copy until it commits.
      var counters, data := store.counters, store.data;
      var last := if m.key in counters then counters[m.key] + 1 else 1;
      counters := counters[m.key := last];
      var check := CheckMutationId(m.id, last);
      if check != IdOk {
        return if fate.CommitsButFails? then PostgresError(fate.error) else Checked(check, last);
      }
      var plan := PlanMutation(m.ops, errorMode, m.authorized);
      var i := 0;
      while i < |plan|
        invariant 0 <= i <= |plan|
        invariant RunOps(exec, plan[i..], data) == RunOps(exec, plan, store.data)
        invariant store == old(store)
      {
        assert plan[i..][0] == plan[i] && plan[i..][1..] == plan[i + 1..];
        match exec(plan[i], data) {
          case Ok(next) => data := next;
          case Err(e) => return PostgresError(e);
        }
        i := i + 1;
      }
      store := Store(counters, data);
      result := if fate.CommitsButFails? then PostgresError(fate.error) else Checked(check, last);
    }
  }

  // ---- What a transaction does and reports -----------------------------------

  /** Statements run one after the other, each on what the one before it left, up to the first error. */
  lemma {:induction false} StatementsRunInOrder<D, Op>(exec: Exec<D, Op>, a: seq<Op>, op: Op, data: D)
    ensures RunOps(exec, [], data) == Ok(data)
    ensures RunOps(exec, a + [op], data) == var before := RunOps(exec, a, data); if before.Ok? then exec(op, before.value) else before
    decreases |a|
  {
    if a == [] {
      assert a + [op] == [op] && [op][1..] == [];
    } else {
      assert (a + [op])[0] == a[0] && (a + [op])[1..] == a[1..] + [op];
      var first := exec(a[0], data);
      if first.Ok? {
        StatementsRunInOrder(exec, a[1..], op, first.value);
      }
    }
  }

  /** The id after the client's counter is the expected one; smaller ids were processed, larger ones are out of order. */
  ghost predicate RightCheck(check: IdCheck, received: int, counter: int) {
    match check
    case IdOk => received == counter + 1
    case AlreadyProcessed(r, actual) => received <= counter && r == received && actual == counter + 1
    case Unexpected(r, expected) => received > counter + 1 && r == received && expected == counter + 1
  }

  /** The error that the transaction of an expected id meets in its statements. */
  ghost predicate StatementFails<D, Op>(exec: Exec<D, Op>, store: Store<D>, a: Attempt<Op>, error: string) {
    IsNext(store, a.mutation) && RunOps(exec, if a.errorMode || !a.mutation.authorized then [] else a.mutation.ops, store.data) == Err(error)
  }

  /**
   A transaction reports a serialization failure exactly if it met one; an error if it met another one, in a
   statement, or lost the reply to its commit; and otherwise the check of its id against the counter.
   */
  lemma ReportExactly<D, Op>(exec: Exec<D, Op>, store: Store<D>, a: Attempt<Op>)
    ensures var report, counter := Report(exec, store, a), if a.mutation.key in store.counters then store.counters[a.mutation.key] else 0;
            match report
            case SerializationFailure => a.fate.SerializationConflict?
            case PostgresError(e) =>
              || a.fate == Fails(e)
              || ((a.fate.Clean? || a.fate.CommitsButFails?) && StatementFails(exec, store, a, e))
              || (a.fate == CommitsButFails(e) && forall e' :: !StatementFails(exec, store, a, e'))
            case Checked(check, last) =>
              && a.fate.Clean? && last == counter + 1 && RightCheck(check, a.mutation.id, counter)
              && forall e' :: !StatementFails(exec, store, a, e')
  {
  }

  /** What a transaction leaves behind: nothing, or the counter one higher and the data its statements made. */
  lemma AfterExactly<D, Op>(exec: Exec<D, Op>, store: Store<D>, a: Attempt<Op>)
    ensures var after, m := After(exec, store, a), a.mutation;
            var data := RunOps(exec, if a.errorMode || !m.authorized then [] else m.ops, store.data);
            if (a.fate.Clean? || a.fate.CommitsButFails?) && IsNext(store, m) && data.Ok?
            then after == Store(store.counters[m.key := m.id], data.value)
            else after == store
  {
  }

  // ---- Runs ------------------------------------------------------------------

  function RunAll<D, Op>(exec: Exec<D, Op>, store: Store<D>, run: seq<Attempt<Op>>): Store<D>
    decreases |run|
  {
    if run == [] then store else RunAll(exec, After(exec, store, run[0]), run[1..])
  }

  /** A committed mutation, with the statements that took effect. */
  datatype Commit<Op> = Commit(key: ClientKey, id: int, ops: seq<Op>)

  /** What the attempts of a run committed, in order. */
  function History<D, Op>(exec: Exec<D, Op>, store: Store<D>, run: seq<Attempt<Op>>): seq<Commit<Op>>
    decreases |run|
  {
    if run == [] then []
    else Committed(exec, store, run[0]) + History(exec, After(exec, store, run[0]), run[1..])
  }

  function Committed<D, Op>(exec: Exec<D, Op>, store: Store<D>, a: Attempt<Op>): seq<Commit<Op>> {
    if Lands(exec, store, a) then [Commit(a.mutation.key, a.mutation.id, Plan(a))] else []
  }

  /** The ids committed for a client, in order. */
  function IdsOf<Op>(history: seq<Commit<Op>>, key: ClientKey): seq<int> {
    if history == [] then []
    else (if history[0].key == key then [history[0].id] else []) + IdsOf(history[1..], key)
  }

  /** `from + 1, ..., to` */
  function Range(from: int, to: int): seq<int>
    requires from <= to
  {
    seq(to - from, i => from + 1 + i)
  }

  function Replay<D, Op>(exec: Exec<D, Op>, data: D, history: seq<Commit<Op>>): Result<D, string> {
    if history == [] then Ok(data)
    else
      match RunOps(exec, history[0].ops, data)
      case Ok(next) => Replay(exec, next, history[1..])
      case Err(e) => Err(e)
  }

  /** A mutation whose id is not the next one changes nothing, whatever else happens. */
  lemma StaleOrSkippedChangesNothing<D, Op>(exec: Exec<D, Op>, store: Store<D>, a: Attempt<Op>)
    requires a.mutation.id != Counter(store, a.mutation.key) + 1
    ensures After(exec, store, a) == store
    ensures a.fate.Clean? ==>
      Report(exec, store, a).Checked? &&
      (a.mutation.id <= Counter(store, a.mutation.key) <==> Report(exec, store, a).check.AlreadyProcessed?)
  {
  }

  /** A mutation without authorization, or one only confirmed in error mode, moves its client's counter and nothing else. */
  lemma BlockedMutationOnlyCounts<D, Op>(exec: Exec<D, Op>, store: Store<D>, a: Attempt<Op>)
    requires a.errorMode || !a.mutation.authorized
    ensures After(exec, store, a).data == store.data
    ensures Lands(exec, store, a) <==> (a.fate.Clean? || a.fate.CommitsButFails?) && IsNext(store, a.mutation)
    ensures forall key :: Counter(After(exec, store, a), key)
                       == Counter(store, key) + (if Lands(exec, store, a) && key == a.mutation.key then 1 else 0)
  {
  }

  /**
   Over every run, for every client: the committed ids are exactly those after the
   client's starting counter up to its final one, in order and without gaps, and the
   data is what the committed statements make of the starting data.
   */
  lemma {:induction false} RunIsGapFree<D, Op>(exec: Exec<D, Op>, store: Store<D>, run: seq<Attempt<Op>>, key: ClientKey)
    ensures Counter(store, key) <= Counter(RunAll(exec, store, run), key)
    ensures IdsOf(History(exec, store, run), key) == Range(Counter(store, key), Counter(RunAll(exec, store, run), key))
    ensures Replay(exec, store.data, History(exec, store, run)) == Ok(RunAll(exec, store, run).data)
    decreases |run|
  {
    if run != [] {
      var next := After(exec, store, run[0]);
      RunIsGapFree(exec, next, run[1..], key);
      if Lands(exec, store, run[0]) {
        var rest := History(exec, next, run[1..]);
        assert (Committed(exec, store, run[0]) + rest)[1..] == rest;
      } else {
        assert Committed(exec, store, run[0]) + History(exec, next, run[1..]) == History(exec, next, run[1..]);
      }
    }
  }

  /** Every commit comes from an attempt of the run at that mutation, with that attempt's plan. */
  lemma {:induction false} CommitsComeFromAttempts<D, Op>(exec: Exec<D, Op>, store: Store<D>, run: seq<Attempt<Op>>, c: Commit<Op>)
    requires c in History(exec, store, run)
    ensures exists a | a in run :: c == Commit(a.mutation.key, a.mutation.id, Plan(a))
    decreases |run|
  {
    var next := After(exec, store, run[0]);
    if c in Committed(exec, store, run[0]) {
      assert run[0] in run;
    } else {
      CommitsComeFromAttempts(exec, next, run[1..], c);
      var a :| a in run[1..] && c == Commit(a.mutation.key, a.mutation.id, Plan(a));
      assert a in run;
    }
  }

  lemma {:induction false} CommitIdIsCounted<Op>(history: seq<Commit<Op>>, i: nat)
    requires i < |history|
    ensures history[i].id in IdsOf(history, history[i].key)
  {
    if i > 0 {
      CommitIdIsCounted(history[1..], i - 1);
    }
  }

  /** No mutation id of a client is committed twice in a run. */
  lemma {:induction false} CommittedAtMostOnce<D, Op>(exec: Exec<D, Op>, store: Store<D>, run: seq<Attempt<Op>>, i: nat, j: nat)
    requires i < j < |History(exec, store, run)|
    ensures var h := History(exec, store, run); h[i].key == h[j].key ==> h[i].id < h[j].id
    decreases |run|
  {
    var next := After(exec, store, run[0]);
    var first, rest := Committed(exec, store, run[0]), History(exec, next, run[1..]);
    assert History(exec, store, run) == first + rest;
    if first == [] {
      assert first + rest == rest;
      CommittedAtMostOnce(exec, next, run[1..], i, j);
    } else if i > 0 {
      CommittedAtMostOnce(exec, next, run[1..], i - 1, j - 1);
    } else if first[0].key == rest[j - 1].key {
      CommitIdIsCounted(rest, j - 1);
      LaterIdsAreLarger(exec, next, run[1..], first[0].key, rest[j - 1].id);
    }
  }

  lemma LaterIdsAreLarger<D, Op>(exec: Exec<D, Op>, store: Store<D>, run: seq<Attempt<Op>>, key: ClientKey, id: int)
    requires id in IdsOf(History(exec, store, run), key)
    ensures Counter(store, key) < id
  {
    RunIsGapFree(exec, store, run, key);
  }
}
