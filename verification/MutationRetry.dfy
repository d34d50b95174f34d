/**
 The retry policy around a mutation: `apply_crud_mutation_with_retry` of
 `crates/zero-cache-mutagen/src/apply_mutation.rs`, run while other connections work on
 the same database between its transactions.
 */
module MutationRetry {
  import opened Base
  import opened MutationStore

  const MAX_SERIALIZATION_ATTEMPTS: nat := 10

  datatype ApplyResult = ApplyResult(check: IdCheck, lastMutationId: int)

  /** How a retry loop ends: `RetryOutcome` and `RetryError` of the source. */
  datatype Verdict =
    | Applied(result: ApplyResult)
    | AppError(result: ApplyResult, error: string)
    | Protocol(check: IdCheck)
    | Internal(error: string)
    | RetriesExhausted

  /** What the environment does around one transaction of the loop: transactions of others first, then its own fate. */
  datatype Turn<Op> = Turn(others: seq<Attempt<Op>>, fate: Fate)

  /**
   A whole retry loop: its verdict, everything that ran against the store meanwhile, how many transactions were its
   own, how many of those met a conflict and how many took effect, and what they reported.
   */
  datatype Course<Op> = Course(
    verdict: Verdict,
    run: seq<Attempt<Op>>,
    transactions: nat,
    conflicts: nat,
    landed: nat,
    steps: seq<Step>)

  /** One transaction of the loop: whether it ran in error mode, and its report. */
  datatype Step = Step(errorMode: bool, report: TxResult)

  /**
   The loop from its `turn`-th transaction on, with the serialization failures met so far.
   A first other error switches to error mode and is remembered.
   */
  function Retry<D, Op>(exec: Exec<D, Op>, store: Store<D>, m: Mutation<Op>, world: nat -> Turn<Op>,
                        turn: nat, attempts: nat, firstError: Option<string>): Course<Op>
    requires attempts <= MAX_SERIALIZATION_ATTEMPTS
    decreases MAX_SERIALIZATION_ATTEMPTS - attempts, if firstError.None? then 1 else 0
  {
    if attempts == MAX_SERIALIZATION_ATTEMPTS then Course(RetriesExhausted, [], 0, 0, 0, [])
    else
      var before := RunAll(exec, store, world(turn).others);
      var mine := Attempt(m, firstError.Some?, world(turn).fate);
      var run := world(turn).others + [mine];
      var landed := if Lands(exec, before, mine) then 1 else 0;
      var step := [Step(mine.errorMode, Report(exec, before, mine))];
      match Report(exec, before, mine)
      case Checked(check, last) => Course(Decide(ApplyResult(check, last), firstError), run, 1, 0, landed, step)
      case SerializationFailure =>
        var rest := Retry(exec, After(exec, before, mine), m, world, turn + 1, attempts + 1, firstError);
        Course(rest.verdict, run + rest.run, 1 + rest.transactions, 1 + rest.conflicts, landed + rest.landed, step + rest.steps)
      case PostgresError(e) =>
        if firstError.Some? then Course(Internal(e), run, 1, 0, landed, step)
        else
          var rest := Retry(exec, After(exec, before, mine), m, world, turn + 1, attempts, Some(e));
          Course(rest.verdict, run + rest.run, 1 + rest.transactions, rest.conflicts, landed + rest.landed, step + rest.steps)
  }

  /** The verdict on a transaction that reported its id check. */
  function Decide(result: ApplyResult, firstError: Option<string>): Verdict {
    match result.check
    case Unexpected(_, _) => Protocol(result.check)
    case AlreadyProcessed(_, _) => Applied(result)
    case IdOk => if firstError.Some? then AppError(result, firstError.value) else Applied(result)
  }

  function WholeLoop<D, Op>(exec: Exec<D, Op>, store: Store<D>, m: Mutation<Op>, world: nat -> Turn<Op>): Course<Op> {
    Retry(exec, store, m, world, 0, 0, None)
  }

  lemma {:induction false} RunOfConcat<D, Op>(exec: Exec<D, Op>, store: Store<D>, a: seq<Attempt<Op>>, b: seq<Attempt<Op>>)
    ensures RunAll(exec, store, a + b) == RunAll(exec, RunAll(exec, store, a), b)
    ensures History(exec, store, a + b) == History(exec, store, a) + History(exec, RunAll(exec, store, a), b)
    decreases |a|
  {
    if a == [] {
      assert a + b == b;
    } else {
      assert (a + b)[0] == a[0] && (a + b)[1..] == a[1..] + b;
      RunOfConcat(exec, After(exec, store, a[0]), a[1..], b);
    }
  }

  lemma RunOfOne<D, Op>(exec: Exec<D, Op>, store: Store<D>, others: seq<Attempt<Op>>, a: Attempt<Op>)
    ensures var before := RunAll(exec, store, others);
            && RunAll(exec, store, others + [a]) == After(exec, before, a)
            && History(exec, store, others + [a]) == History(exec, store, others) + Committed(exec, before, a)
  {
    RunOfConcat(exec, store, others, [a]);
    assert [a][1..] == [];
  }

  /** Runs the transactions of other connections. */
  method Interleave<D, Op>(up: Upstream<D>, exec: Exec<D, Op>, others: seq<Attempt<Op>>)
    modifies up
    ensures up.store == RunAll(exec, old(up.store), others)
  {
    var i := 0;
    while i < |others|
      invariant 0 <= i <= |others|
      invariant RunAll(exec, up.store, others[i..]) == RunAll(exec, old(up.store), others)
    {
      assert others[i..][0] == others[i] && others[i..][1..] == others[i + 1..];
      var _ := up.ApplyCrudMutation(exec, others[i].mutation, others[i].errorMode, others[i].fate);
      i := i + 1;
    }
  }

  lemma TurnRuns<D, Op>(exec: Exec<D, Op>, start: Store<D>, done: seq<Attempt<Op>>, others: seq<Attempt<Op>>, mine: Attempt<Op>)
    ensures RunAll(exec, start, done + (others + [mine])) == After(exec, RunAll(exec, RunAll(exec, start, done), others), mine)
  {
    RunOfConcat(exec, start, done, others + [mine]);
    RunOfOne(exec, RunAll(exec, start, done), others, mine);
  }

  lemma TurnThenRest<D, Op>(exec: Exec<D, Op>, store: Store<D>, others: seq<Attempt<Op>>, mine: Attempt<Op>, rest: seq<Attempt<Op>>)
    ensures RunAll(exec, store, others + [mine] + rest) == RunAll(exec, After(exec, RunAll(exec, store, others), mine), rest)
  {
    RunOfConcat(exec, store, others + [mine], rest);
    RunOfOne(exec, store, others, mine);
  }

  /** From this state the loop ends with this verdict and this store. */
  ghost predicate LeadsTo<D, Op>(exec: Exec<D, Op>, store: Store<D>, m: Mutation<Op>, world: nat -> Turn<Op>, turn: nat,
                                 attempts: nat, firstError: Option<string>, verdict: Verdict, final: Store<D>) {
    attempts <= MAX_SERIALIZATION_ATTEMPTS
    && var rest := Retry(exec, store, m, world, turn, attempts, firstError);
    rest.verdict == verdict && RunAll(exec, store, rest.run) == final
  }

  /** What one transaction of the loop, with those before it, decides. */
  lemma TurnLeads<D, Op>(exec: Exec<D, Op>, store: Store<D>, m: Mutation<Op>, world: nat -> Turn<Op>, turn: nat,
                         attempts: nat, firstError: Option<string>, verdict: Verdict, final: Store<D>)
    requires attempts < MAX_SERIALIZATION_ATTEMPTS && LeadsTo(exec, store, m, world, turn, attempts, firstError, verdict, final)
    ensures var before, mine := RunAll(exec, store, world(turn).others), Attempt(m, firstError.Some?, world(turn).fate);
            var after := After(exec, before, mine);
            match Report(exec, before, mine)
            case Checked(check, last) => verdict == Decide(ApplyResult(check, last), firstError) && final == after
            case SerializationFailure => LeadsTo(exec, after, m, world, turn + 1, attempts + 1, firstError, verdict, final)
            case PostgresError(e) =>
              if firstError.Some? then verdict == Internal(e) && final == after
              else LeadsTo(exec, after, m, world, turn + 1, attempts, Some(e), verdict, final)
  {
    var others, mine := world(turn).others, Attempt(m, firstError.Some?, world(turn).fate);
    var after := After(exec, RunAll(exec, store, others), mine);
    RunOfOne(exec, store, others, mine);
    TurnThenRest(exec, store, others, mine, Retry(exec, after, m, world, turn + 1, attempts + 1, firstError).run);
    match Report(exec, RunAll(exec, store, others), mine)
    case PostgresError(e) =>
      if firstError.None? {
        TurnThenRest(exec, store, others, mine, Retry(exec, after, m, world, turn + 1, attempts, Some(e)).run);
      }
    case _ =>
  }

  /** Retries a mutation until it is confirmed, refused or given up on. */
  method ApplyCrudMutationWithRetry<D, Op>(up: Upstream<D>, exec: Exec<D, Op>, m: Mutation<Op>, world: nat -> Turn<Op>)
    returns (verdict: Verdict)
    modifies up
    ensures var course := WholeLoop(exec, old(up.store), m, world);
            verdict == course.verdict && up.store == RunAll(exec, old(up.store), course.run)
  {
    var errorMode, firstError: Option<string>, attempts := false, None, 0;
    var turn := 0;
    ghost var course := WholeLoop(exec, up.store, m, world);
    ghost var final := RunAll(exec, up.store, course.run);
    while attempts < MAX_SERIALIZATION_ATTEMPTS
      invariant 0 <= attempts <= MAX_SERIALIZATION_ATTEMPTS
      invariant errorMode == firstError.Some?
      invariant LeadsTo(exec, up.store, m, world, turn, attempts, firstError, course.verdict, final)
      decreases MAX_SERIALIZATION_ATTEMPTS - attempts, if firstError.None? then 1 else 0
    {
      TurnLeads(exec, up.store, m, world, turn, attempts, firstError, course.verdict, final);
      Interleave(up, exec, world(turn).others);
      var result := up.ApplyCrudMutation(exec, m, errorMode, world(turn).fate);
      turn := turn + 1;
      match result {
        case Checked(check, last) =>
          match check {
            case Unexpected(_, _) => return Protocol(check);
            case AlreadyProcessed(_, _) => return Applied(ApplyResult(check, last));
            case IdOk =>
              return if firstError.Some? then AppError(ApplyResult(check, last), firstError.value) else Applied(ApplyResult(check, last));
          }
        case SerializationFailure =>
          attempts := attempts + 1;
        case PostgresError(e) =>
          if errorMode {
            return Internal(e);
          }
          firstError := Some(e);
          errorMode := true;
      }
    }
    verdict := RetriesExhausted;
  }

  // ---- The loop is bounded ---------------------------------------------------

  /**
   The loop makes at most `MAX_SERIALIZATION_ATTEMPTS + 1` transactions, and gives up only
   after exactly `MAX_SERIALIZATION_ATTEMPTS` serialization failures.
   */
  lemma {:induction false} LoopIsBounded<D, Op>(exec: Exec<D, Op>, store: Store<D>, m: Mutation<Op>, world: nat -> Turn<Op>,
                                               turn: nat, attempts: nat, firstError: Option<string>)
    requires attempts <= MAX_SERIALIZATION_ATTEMPTS
    ensures var course := Retry(exec, store, m, world, turn, attempts, firstError);
            && course.transactions <= MAX_SERIALIZATION_ATTEMPTS - attempts + (if firstError.None? then 1 else 0)
            && course.conflicts <= MAX_SERIALIZATION_ATTEMPTS - attempts
            && (course.verdict == RetriesExhausted <==> course.conflicts == MAX_SERIALIZATION_ATTEMPTS - attempts)
    decreases MAX_SERIALIZATION_ATTEMPTS - attempts, if firstError.None? then 1 else 0
  {
    if attempts < MAX_SERIALIZATION_ATTEMPTS {
      var before := RunAll(exec, store, world(turn).others);
      var mine := Attempt(m, firstError.Some?, world(turn).fate);
      match Report(exec, before, mine)
      case Checked(_, _) =>
      case SerializationFailure =>
        LoopIsBounded(exec, After(exec, before, mine), m, world, turn + 1, attempts + 1, firstError);
      case PostgresError(e) =>
        if firstError.None? {
          LoopIsBounded(exec, After(exec, before, mine), m, world, turn + 1, attempts, Some(e));
        }
    }
  }

  // ---- The loop reports truthfully -------------------------------------------

  /** The `k`-th commit is the only one of this mutation id, and it ran exactly these statements. */
  ghost predicate OnlyCommit<Op>(history: seq<Commit<Op>>, m: Mutation<Op>, ops: seq<Op>, k: int) {
    && 0 <= k < |history| && history[k] == Commit(m.key, m.id, ops)
    && forall i | 0 <= i < |history| && history[i].key == m.key && history[i].id == m.id :: i == k
  }

  /** The mutation id was committed exactly once, with exactly these statements. */
  ghost predicate CommittedWith<Op>(history: seq<Commit<Op>>, m: Mutation<Op>, ops: seq<Op>) {
    exists k :: OnlyCommit(history, m, ops, k)
  }

  /** The mutation id was committed exactly once, with some statements. */
  ghost predicate CommittedOnce<Op>(history: seq<Commit<Op>>, m: Mutation<Op>) {
    exists k :: 0 <= k < |history| && OnlyCommit(history, m, history[k].ops, k)
  }

  /** The mutation id was not committed twice. */
  ghost predicate CommittedOnceAtMost<Op>(history: seq<Commit<Op>>, m: Mutation<Op>) {
    forall i, j | 0 <= i < j < |history| && history[i].key == history[j].key == m.key :: !(history[i].id == history[j].id == m.id)
  }

  /** What a verdict promises about the final state of a database that began as `initial`. */
  ghost predicate Truthful<D, Op>(verdict: Verdict, initial: Store<D>, history: seq<Commit<Op>>, store: Store<D>, m: Mutation<Op>) {
    match verdict
    case Applied(result) =>
      if result.check.IdOk?
      then CommittedWith(history, m, PlanMutation(m.ops, false, m.authorized)) && Counter(store, m.key) == m.id
      else
        && result.check.AlreadyProcessed? && m.id <= Counter(store, m.key)
        && (m.id > Counter(initial, m.key) ==> CommittedOnce(history, m))
    case AppError(result, _) => CommittedWith(history, m, []) && Counter(store, m.key) == m.id
    case Protocol(check) => check.Unexpected? && m.id > Counter(store, m.key) + 1
    case _ => CommittedOnceAtMost(history, m)
  }

  lemma RunsCommitOnceAtMost<D, Op>(exec: Exec<D, Op>, initial: Store<D>, run: seq<Attempt<Op>>, m: Mutation<Op>)
    ensures CommittedOnceAtMost(History(exec, initial, run), m)
  {
    var h := History(exec, initial, run);
    forall i, j | 0 <= i < j < |h| && h[i].key == h[j].key == m.key ensures !(h[i].id == h[j].id == m.id) {
      CommittedAtMostOnce(exec, initial, run, i, j);
    }
  }

  lemma LastCommitIsUnique<D, Op>(exec: Exec<D, Op>, initial: Store<D>, run: seq<Attempt<Op>>, a: Attempt<Op>)
    requires Lands(exec, RunAll(exec, initial, run), a)
    ensures CommittedWith(History(exec, initial, run + [a]), a.mutation, Plan(a))
  {
    RunOfOne(exec, initial, run, a);
    var h := History(exec, initial, run + [a]);
    var last := |h| - 1;
    assert h[last] == Commit(a.mutation.key, a.mutation.id, Plan(a));
    RunsCommitOnceAtMost(exec, initial, run + [a], a.mutation);
    assert OnlyCommit(h, a.mutation, Plan(a), last);
  }

  lemma {:induction false} CountedIdIsCommitted<Op>(history: seq<Commit<Op>>, key: ClientKey, id: int) returns (k: nat)
    requires id in IdsOf(history, key)
    ensures k < |history| && history[k].key == key && history[k].id == id
  {
    if history[0].key == key && history[0].id == id {
      k := 0;
    } else {
      k := CountedIdIsCommitted(history[1..], key, id);
      k := k + 1;
    }
  }

  /** An id that a client's counter has come to was committed on the way, exactly once. */
  lemma ReachedMeansCommitted<D, Op>(exec: Exec<D, Op>, initial: Store<D>, run: seq<Attempt<Op>>, m: Mutation<Op>)
    requires Counter(initial, m.key) < m.id <= Counter(RunAll(exec, initial, run), m.key)
    ensures CommittedOnce(History(exec, initial, run), m)
  {
    var h := History(exec, initial, run);
    RunIsGapFree(exec, initial, run, m.key);
    var from := Counter(initial, m.key);
    assert Range(from, Counter(RunAll(exec, initial, run), m.key))[m.id - from - 1] == m.id;
    var k := CountedIdIsCommitted(h, m.key, m.id);
    RunsCommitOnceAtMost(exec, initial, run, m);
    assert OnlyCommit(h, m, h[k].ops, k);
  }

  /** A transaction that reports its id check leads to a truthful verdict. */
  lemma VerdictIsTruthful<D, Op>(exec: Exec<D, Op>, initial: Store<D>, now: seq<Attempt<Op>>, mine: Attempt<Op>, firstError: Option<string>)
    requires Report(exec, RunAll(exec, initial, now), mine).Checked? && mine.errorMode == firstError.Some?
    ensures var report := Report(exec, RunAll(exec, initial, now), mine);
            Truthful(Decide(ApplyResult(report.check, report.lastMutationId), firstError), initial,
                     History(exec, initial, now + [mine]), RunAll(exec, initial, now + [mine]), mine.mutation)
  {
    var before, m := RunAll(exec, initial, now), mine.mutation;
    if IsNext(before, m) {
      ConfirmedIsTruthful(exec, initial, now, mine);
    } else {
      RefusedChangesNothing(exec, initial, now, mine);
      if Counter(initial, m.key) < m.id <= Counter(before, m.key) {
        ReachedMeansCommitted(exec, initial, now + [mine], m);
      }
    }
  }

  lemma ConfirmedIsTruthful<D, Op>(exec: Exec<D, Op>, initial: Store<D>, now: seq<Attempt<Op>>, mine: Attempt<Op>)
    requires var before := RunAll(exec, initial, now); Report(exec, before, mine).Checked? && IsNext(before, mine.mutation)
    ensures CommittedWith(History(exec, initial, now + [mine]), mine.mutation, Plan(mine))
    ensures Counter(RunAll(exec, initial, now + [mine]), mine.mutation.key) == mine.mutation.id
  {
    RunOfOne(exec, initial, now, mine);
    LastCommitIsUnique(exec, initial, now, mine);
  }

  lemma RefusedChangesNothing<D, Op>(exec: Exec<D, Op>, initial: Store<D>, now: seq<Attempt<Op>>, mine: Attempt<Op>)
    requires !IsNext(RunAll(exec, initial, now), mine.mutation)
    ensures RunAll(exec, initial, now + [mine]) == RunAll(exec, initial, now)
  {
    RunOfOne(exec, initial, now, mine);
  }

  /**
   Whatever ran before and whatever other connections do meanwhile, the verdict tells the
   truth about the database at the moment the loop ends.
   */
  lemma {:induction false} LoopIsTruthful<D, Op>(exec: Exec<D, Op>, initial: Store<D>, past: seq<Attempt<Op>>, m: Mutation<Op>,
                                                world: nat -> Turn<Op>, turn: nat, attempts: nat, firstError: Option<string>)
    requires attempts <= MAX_SERIALIZATION_ATTEMPTS
    ensures var course := Retry(exec, RunAll(exec, initial, past), m, world, turn, attempts, firstError);
            var all := past + course.run;
            Truthful(course.verdict, initial, History(exec, initial, all), RunAll(exec, initial, all), m)
    decreases MAX_SERIALIZATION_ATTEMPTS - attempts, if firstError.None? then 1 else 0
  {
    RunsCommitOnceAtMost(exec, initial, past + Retry(exec, RunAll(exec, initial, past), m, world, turn, attempts, firstError).run, m);
    if attempts < MAX_SERIALIZATION_ATTEMPTS {
      var others, mine := world(turn).others, Attempt(m, firstError.Some?, world(turn).fate);
      var before := RunAll(exec, RunAll(exec, initial, past), others);
      var now := past + (others + [mine]);
      TurnRuns(exec, initial, past, others, mine);
      match Report(exec, before, mine)
      case Checked(_, _) =>
        Associate(past, others, [mine]);
        RunOfConcat(exec, initial, past, others);
        VerdictIsTruthful(exec, initial, past + others, mine, firstError);
      case SerializationFailure =>
        LoopIsTruthful(exec, initial, now, m, world, turn + 1, attempts + 1, firstError);
        var rest := Retry(exec, After(exec, before, mine), m, world, turn + 1, attempts + 1, firstError);
        Associate(past, others + [mine], rest.run);
      case PostgresError(e) =>
        if firstError.None? {
          LoopIsTruthful(exec, initial, now, m, world, turn + 1, attempts, Some(e));
          var rest := Retry(exec, After(exec, before, mine), m, world, turn + 1, attempts, Some(e));
          Associate(past, others + [mine], rest.run);
        }
    }
  }

  /** What is committed stays so: no later run adds a second commit of the same mutation id. */
  lemma CommitIsForGood<D, Op>(exec: Exec<D, Op>, initial: Store<D>, run: seq<Attempt<Op>>, later: seq<Attempt<Op>>, m: Mutation<Op>, ops: seq<Op>)
    requires CommittedWith(History(exec, initial, run), m, ops)
    ensures CommittedWith(History(exec, initial, run + later), m, ops)
  {
    RunOfConcat(exec, initial, run, later);
    var h, h' := History(exec, initial, run), History(exec, initial, run + later);
    var k :| OnlyCommit(h, m, ops, k);
    assert h'[k] == h[k];
    RunsCommitOnceAtMost(exec, initial, run + later, m);
    assert OnlyCommit(h', m, ops, k);
  }

  // ---- What the loop's own transactions did ----------------------------------

  /** Some transaction of the loop committed although it reported an error. */
  ghost predicate SomeReplyLost<Op>(world: nat -> Turn<Op>, from: nat, to: nat) {
    exists k: nat :: from <= k < to && world(k).fate.CommitsButFails?
  }

  lemma CountersNeverFall<D, Op>(exec: Exec<D, Op>, store: Store<D>, run: seq<Attempt<Op>>, key: ClientKey)
    ensures Counter(store, key) <= Counter(RunAll(exec, store, run), key)
  {
    RunIsGapFree(exec, store, run, key);
  }

  /** At most one of the loop's own transactions takes effect, and none once the id is committed. */
  lemma {:induction false} OwnCommits<D, Op>(exec: Exec<D, Op>, store: Store<D>, m: Mutation<Op>, world: nat -> Turn<Op>,
                                            turn: nat, attempts: nat, firstError: Option<string>)
    requires attempts <= MAX_SERIALIZATION_ATTEMPTS
    ensures var course := Retry(exec, store, m, world, turn, attempts, firstError);
            && course.landed <= (if m.id <= Counter(store, m.key) then 0 else 1)
            && (m.id <= Counter(store, m.key) ==> !course.verdict.Protocol?)
            && match course.verdict
               case Applied(result) =>
                 if result.check.IdOk? then course.landed == 1
                 else course.landed == 1 ==> SomeReplyLost(world, turn, turn + course.transactions)
               case AppError(_, _) => course.landed == 1
               case Protocol(_) => course.landed == 0
               case _ => course.landed == 1 ==> SomeReplyLost(world, turn, turn + course.transactions)
    decreases MAX_SERIALIZATION_ATTEMPTS - attempts, if firstError.None? then 1 else 0
  {
    if attempts < MAX_SERIALIZATION_ATTEMPTS {
      var before := RunAll(exec, store, world(turn).others);
      var mine := Attempt(m, firstError.Some?, world(turn).fate);
      CountersNeverFall(exec, store, world(turn).others, m.key);
      match Report(exec, before, mine)
      case Checked(_, _) =>
      case SerializationFailure =>
        OwnCommits(exec, After(exec, before, mine), m, world, turn + 1, attempts + 1, firstError);
      case PostgresError(e) =>
        if firstError.None? {
          OwnCommits(exec, After(exec, before, mine), m, world, turn + 1, attempts, Some(e));
        }
    }
  }

  /**
   The whole promise of a retry loop: at most `MAX_SERIALIZATION_ATTEMPTS + 1` transactions, and an
   application error means confirmed once and never applied, a success means applied exactly once, at the end
   of the loop and after everything that follows it. A loop that fails committed nothing itself, unless the reply to
   a commit was lost; in no case is the mutation committed twice.
   */
  lemma RetryLoopKeepsItsPromise<D, Op>(exec: Exec<D, Op>, initial: Store<D>, past: seq<Attempt<Op>>, m: Mutation<Op>,
                                        world: nat -> Turn<Op>, later: seq<Attempt<Op>>)
    ensures var course := WholeLoop(exec, RunAll(exec, initial, past), m, world);
            var history := History(exec, initial, past + course.run + later);
            && course.transactions <= MAX_SERIALIZATION_ATTEMPTS + 1
            && (course.verdict.RetriesExhausted? <==> course.conflicts == MAX_SERIALIZATION_ATTEMPTS)
            && (course.verdict.AppError? ==> CommittedWith(history, m, []))
            && (course.verdict.Applied? && course.verdict.result.check.IdOk? ==>
                  CommittedWith(history, m, if m.authorized then m.ops else []))
            && CommittedOnceAtMost(history, m)
            && (course.verdict.Internal? || course.verdict.RetriesExhausted? ==>
                  course.landed == 0 || SomeReplyLost(world, 0, course.transactions))
  {
    var course := WholeLoop(exec, RunAll(exec, initial, past), m, world);
    LoopIsBounded(exec, RunAll(exec, initial, past), m, world, 0, 0, None);
    LoopIsTruthful(exec, initial, past, m, world, 0, 0, None);
    RunsCommitOnceAtMost(exec, initial, past + course.run + later, m);
    OwnCommits(exec, RunAll(exec, initial, past), m, world, 0, 0, None);
    if course.verdict.AppError? {
      CommitIsForGood(exec, initial, past + course.run, later, m, []);
    }
    if course.verdict.Applied? && course.verdict.result.check.IdOk? {
      CommitIsForGood(exec, initial, past + course.run, later, m, PlanMutation(m.ops, false, m.authorized));
    }
  }

  // ---- What decides a verdict ------------------------------------------------

  /** The first error other than a conflict that was reported. */
  function FirstError(steps: seq<Step>): Option<string> {
    if steps == [] then None
    else if steps[0].report.PostgresError? then Some(steps[0].report.error)
    else FirstError(steps[1..])
  }

  function OrFirst(firstError: Option<string>, steps: seq<Step>): Option<string> {
    if firstError.Some? then firstError else FirstError(steps)
  }

  /** How many steps met a conflict. */
  function Conflicts(steps: seq<Step>): nat {
    if steps == [] then 0 else (if steps[0].report.SerializationFailure? then 1 else 0) + Conflicts(steps[1..])
  }

  /** A step is made in error mode exactly if an error was reported before it; only conflicts and a first error lead to another step. */
  ghost predicate StepsFollow(firstError: Option<string>, steps: seq<Step>) {
    forall i | 0 <= i < |steps| ::
      && steps[i].errorMode == OrFirst(firstError, steps[..i]).Some?
      && (i < |steps| - 1 ==>
            steps[i].report.SerializationFailure? || (steps[i].report.PostgresError? && OrFirst(firstError, steps[..i]).None?))
  }

  /** The verdict on a list of reports. */
  ghost predicate Judged(verdict: Verdict, firstError: Option<string>, steps: seq<Step>, attempts: nat) {
    if Conflicts(steps) == MAX_SERIALIZATION_ATTEMPTS - attempts then verdict == RetriesExhausted
    else
      steps != [] &&
        var last, before := steps[|steps| - 1].report, OrFirst(firstError, steps[..|steps| - 1]);
        match last
        case SerializationFailure => false
        case PostgresError(e) => before.Some? && verdict == Internal(e)
        case Checked(check, id) =>
          match check
          case Unexpected(_, _) => verdict == Protocol(check)
          case AlreadyProcessed(_, _) => verdict == Applied(ApplyResult(check, id))
          case IdOk => verdict == if before.Some? then AppError(ApplyResult(check, id), before.value) else Applied(ApplyResult(check, id))
  }

  lemma StepsGrow(firstError: Option<string>, nextError: Option<string>, step: Step, rest: seq<Step>)
    requires StepsFollow(nextError, rest) && step.errorMode == firstError.Some?
    requires nextError == OrFirst(firstError, [step])
    requires rest != [] ==> step.report.SerializationFailure? || (step.report.PostgresError? && firstError.None?)
    ensures StepsFollow(firstError, [step] + rest)
    ensures forall n | 0 <= n <= |rest| :: OrFirst(firstError, ([step] + rest)[..n + 1]) == OrFirst(nextError, rest[..n])
    ensures Conflicts([step] + rest) == (if step.report.SerializationFailure? then 1 else 0) + Conflicts(rest)
  {
    var steps := [step] + rest;
    assert steps[1..] == rest && [step][1..] == [];
    forall n | 0 <= n <= |rest| ensures OrFirst(firstError, steps[..n + 1]) == OrFirst(nextError, rest[..n]) {
      assert steps[..n + 1][1..] == rest[..n] && steps[..n + 1][0] == step;
    }
    forall i | 0 <= i < |steps|
      ensures steps[i].errorMode == OrFirst(firstError, steps[..i]).Some?
      ensures i < |steps| - 1 ==> steps[i].report.SerializationFailure? || (steps[i].report.PostgresError? && OrFirst(firstError, steps[..i]).None?)
    {
      if i == 0 {
        assert steps[..0] == [];
      } else {
        assert steps[i] == rest[i - 1];
        assert OrFirst(firstError, steps[..i - 1 + 1]) == OrFirst(nextError, rest[..i - 1]);
      }
    }
  }

  /** The steps of a course are those the loop may make, and its verdict and counts are what they say. */
  ghost predicate Justified<Op>(course: Course<Op>, firstError: Option<string>, attempts: nat) {
    && StepsFollow(firstError, course.steps) && Judged(course.verdict, firstError, course.steps, attempts)
    && |course.steps| == course.transactions && Conflicts(course.steps) == course.conflicts
  }

  lemma OneStep<Op>(firstError: Option<string>, step: Step, course: Course<Op>, attempts: nat)
    requires attempts < MAX_SERIALIZATION_ATTEMPTS && step.errorMode == firstError.Some? && !step.report.SerializationFailure?
    requires course.steps == [step] && course.transactions == 1 && course.conflicts == 0
    requires match step.report
             case Checked(check, last) => course.verdict == Decide(ApplyResult(check, last), firstError)
             case PostgresError(e) => firstError.Some? && course.verdict == Internal(e)
             case SerializationFailure => true
    ensures Justified(course, firstError, attempts)
  {
    assert [step][..0] == [] && [step][1..] == [];
    assert OrFirst(firstError, []) == firstError && Conflicts([step]) == 0;
  }

  lemma MoreSteps<Op>(firstError: Option<string>, nextError: Option<string>, step: Step, rest: Course<Op>, attempts: nat)
    requires attempts < MAX_SERIALIZATION_ATTEMPTS && step.errorMode == firstError.Some? && StepsFollow(nextError, rest.steps)
    requires if step.report.SerializationFailure? then nextError == firstError
             else step.report.PostgresError? && firstError.None? && nextError == Some(step.report.error)
    requires Judged(rest.verdict, nextError, rest.steps, if step.report.SerializationFailure? then attempts + 1 else attempts)
    ensures StepsFollow(firstError, [step] + rest.steps) && Judged(rest.verdict, firstError, [step] + rest.steps, attempts)
    ensures Conflicts([step] + rest.steps) == (if step.report.SerializationFailure? then 1 else 0) + Conflicts(rest.steps)
  {
    var steps := [step] + rest.steps;
    assert [step][1..] == [] && FirstError([]) == None;
    assert FirstError([step]) == if step.report.PostgresError? then Some(step.report.error) else None;
    assert nextError == OrFirst(firstError, [step]);
    StepsGrow(firstError, nextError, step, rest.steps);
    if rest.steps != [] {
      var n := |rest.steps| - 1;
      assert steps[|steps| - 1] == rest.steps[n];
      assert OrFirst(firstError, steps[..n + 1]) == OrFirst(nextError, rest.steps[..n]);
    }
  }

  lemma AfterConflict<Op>(firstError: Option<string>, step: Step, rest: Course<Op>, course: Course<Op>, attempts: nat)
    requires attempts < MAX_SERIALIZATION_ATTEMPTS && step == Step(firstError.Some?, SerializationFailure) && Justified(rest, firstError, attempts + 1)
    requires course.verdict == rest.verdict && course.steps == [step] + rest.steps
    requires course.transactions == 1 + rest.transactions && course.conflicts == 1 + rest.conflicts
    ensures Justified(course, firstError, attempts)
  {
    MoreSteps(firstError, firstError, step, rest, attempts);
  }

  lemma AfterFirstError<Op>(e: string, step: Step, rest: Course<Op>, course: Course<Op>, attempts: nat)
    requires attempts < MAX_SERIALIZATION_ATTEMPTS && step == Step(false, PostgresError(e)) && Justified(rest, Some(e), attempts)
    requires course.verdict == rest.verdict && course.steps == [step] + rest.steps
    requires course.transactions == 1 + rest.transactions && course.conflicts == rest.conflicts
    ensures Justified(course, None, attempts)
  {
    MoreSteps(None, Some(e), step, rest, attempts);
  }

  /** The verdict follows from the reports alone: conflicts are retried, a first error is retried once in error mode, anything else ends the loop. */
  lemma {:induction false} VerdictFollowsReports<D, Op>(exec: Exec<D, Op>, store: Store<D>, m: Mutation<Op>, world: nat -> Turn<Op>,
                                                       turn: nat, attempts: nat, firstError: Option<string>)
    requires attempts <= MAX_SERIALIZATION_ATTEMPTS
    ensures Justified(Retry(exec, store, m, world, turn, attempts, firstError), firstError, attempts)
    decreases MAX_SERIALIZATION_ATTEMPTS - attempts, if firstError.None? then 1 else 0
  {
    var course := Retry(exec, store, m, world, turn, attempts, firstError);
    if attempts < MAX_SERIALIZATION_ATTEMPTS {
      var before := RunAll(exec, store, world(turn).others);
      var mine := Attempt(m, firstError.Some?, world(turn).fate);
      var step := Step(mine.errorMode, Report(exec, before, mine));
      var after := After(exec, before, mine);
      match step.report
      case Checked(_, _) =>
        OneStep(firstError, step, course, attempts);
      case SerializationFailure =>
        VerdictFollowsReports(exec, after, m, world, turn + 1, attempts + 1, firstError);
        AfterConflict(firstError, step, Retry(exec, after, m, world, turn + 1, attempts + 1, firstError), course, attempts);
      case PostgresError(e) =>
        if firstError.None? {
          VerdictFollowsReports(exec, after, m, world, turn + 1, attempts, Some(e));
          AfterFirstError(e, step, Retry(exec, after, m, world, turn + 1, attempts, Some(e)), course, attempts);
        } else {
          OneStep(firstError, step, course, attempts);
        }
    }
  }

  // ---- A calm world ----------------------------------------------------------

  /** No other connection and no interference. */
  ghost predicate Calm<Op>(world: nat -> Turn<Op>) {
    forall k :: world(k) == Turn([], Clean)
  }

  /**
   Without interference, the next mutation is applied and confirmed if its statements succeed; if one fails, the id
   is confirmed all the same, nothing of the mutation stays, and its error is reported.
   */
  lemma CalmLoop<D, Op>(exec: Exec<D, Op>, store: Store<D>, m: Mutation<Op>, world: nat -> Turn<Op>)
    requires Calm(world) && IsNext(store, m)
    ensures var course := WholeLoop(exec, store, m, world);
            var final := RunAll(exec, store, course.run);
            match RunOps(exec, if m.authorized then m.ops else [], store.data)
            case Ok(data) =>
              course.verdict == Applied(ApplyResult(IdOk, m.id)) && final == Store(store.counters[m.key := m.id], data)
            case Err(e) =>
              course.verdict == AppError(ApplyResult(IdOk, m.id), e) && final == Store(store.counters[m.key := m.id], store.data)
  {
    var first, second := Attempt(m, false, Clean), Attempt(m, true, Clean);
    assert world(0) == Turn([], Clean) && world(1) == Turn([], Clean);
    assert RunAll(exec, store, []) == store && [] + [first] == [first] && [] + [second] == [second];
    RunOfOne(exec, store, [], first);
    AfterExactly(exec, store, first);
    ReportExactly(exec, store, first);
    if Report(exec, store, first).PostgresError? {
      var e := Report(exec, store, first).error;
      CalmConfirmation(exec, store, m, world, e);
      RunOfConcat(exec, store, [first], [second]);
    }
  }

  /** The second pass, in error mode, confirms the id. */
  lemma CalmConfirmation<D, Op>(exec: Exec<D, Op>, store: Store<D>, m: Mutation<Op>, world: nat -> Turn<Op>, e: string)
    requires Calm(world) && IsNext(store, m)
    ensures var course := Retry(exec, store, m, world, 1, 0, Some(e));
            && course.verdict == AppError(ApplyResult(IdOk, m.id), e) && course.run == [Attempt(m, true, Clean)]
            && RunAll(exec, store, course.run) == Store(store.counters[m.key := m.id], store.data)
  {
    var second := Attempt(m, true, Clean);
    assert world(1) == Turn([], Clean);
    assert RunAll(exec, store, []) == store && [] + [second] == [second];
    RunOfOne(exec, store, [], second);
    AfterExactly(exec, store, second);
    ReportExactly(exec, store, second);
  }

  /** Without interference, an id that was processed is passed over and one that is out of order is refused; nothing changes. */
  lemma CalmRefusal<D, Op>(exec: Exec<D, Op>, store: Store<D>, m: Mutation<Op>, world: nat -> Turn<Op>)
    requires Calm(world) && !IsNext(store, m)
    ensures var course, last := WholeLoop(exec, store, m, world), Counter(store, m.key) + 1;
            && RunAll(exec, store, course.run) == store
            && course.verdict == if m.id < last then Applied(ApplyResult(AlreadyProcessed(m.id, last), last)) else Protocol(Unexpected(m.id, last))
  {
    var first := Attempt(m, false, Clean);
    assert world(0) == Turn([], Clean);
    assert RunAll(exec, store, []) == store && [] + [first] == [first];
    RunOfOne(exec, store, [], first);
    AfterExactly(exec, store, first);
    ReportExactly(exec, store, first);
  }
}
