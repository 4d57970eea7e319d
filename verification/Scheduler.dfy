/** backend/lexmind/scheduler: jobs, their queue, their executor and the scheduler on top. The repository is a
    map from id to a copied record; timestamps are left out except that a job was started. A handler's verdict
    is arbitrary, and handlers do not touch the repository. */
module Scheduler {
  import opened Collections

  type Id = string

  datatype Status = Pending | Running | Completed | Failed | Cancelled

  function Targets(s: Status): set<Status> {
    match s
    case Pending => {Running, Cancelled}
    case Running => {Completed, Failed, Cancelled}
    case Completed => {}
    case Failed => {Pending}
    case Cancelled => {}
  }

  predicate CanTransition(current: Status, target: Status) {
    target in Targets(current)
  }

  /** What the table says about a job's life: where each status can come from, and nothing else. */
  lemma LifeOfAJob(before: Status, after: Status)
    ensures before in {Completed, Cancelled} ==> !CanTransition(before, after)
    ensures after == Pending ==> (CanTransition(before, after) <==> before == Failed)
    ensures after == Running ==> (CanTransition(before, after) <==> before == Pending)
    ensures after in {Completed, Failed} ==> (CanTransition(before, after) <==> before == Running)
    ensures after == Cancelled ==> (CanTransition(before, after) <==> before in {Pending, Running})
  {
  }

  /** One row of the repository. */
  datatype Record = Record(id: Id, workspaceId: string, jobType: string, payload: map<string, string>, maxRetries: int,
                           priority: int, status: Status, result: string, errorMessage: string, attempts: nat, started: bool)
  {
    predicate IsTerminal() {
      status == Completed || status == Cancelled
    }

    predicate CanRetry() {
      status == Failed && attempts < maxRetries
    }

    /** Attempts are counted at the first start only. */
    function Moved(target: Status): Record {
      this.(status := target, started := started || target == Running,
            attempts := if target == Running && !started then attempts + 1 else attempts)
    }

    function Retried(): Record {
      this.(status := Pending, errorMessage := "")
    }
  }

  function NewRecord(id: Id, workspaceId: string, jobType: string, payload: map<string, string>, priority: int,
      maxRetries: int): Record
  {
    Record(id, workspaceId, jobType, payload, maxRetries, priority, Pending, "", "", 0, false)
  }

  class Job {
    const id: Id
    const workspaceId: string
    const jobType: string
    const payload: map<string, string>
    const maxRetries: int
    const priority: int
    var status: Status
    var result: string
    var errorMessage: string
    var attempts: nat
    var started: bool

    function Value(): Record
      reads this
    {
      Record(id, workspaceId, jobType, payload, maxRetries, priority, status, result, errorMessage, attempts, started)
    }

    constructor (r: Record)
      ensures Value() == r
    {
      id, workspaceId, jobType, payload, maxRetries, priority :=
        r.id, r.workspaceId, r.jobType, r.payload, r.maxRetries, r.priority;
      status, result, errorMessage, attempts, started := r.status, r.result, r.errorMessage, r.attempts, r.started;
    }

    method TransitionTo(target: Status) returns (ok: bool)
      modifies this
      ensures ok == CanTransition(old(status), target)
      ensures Value() == if ok then old(Value()).Moved(target) else old(Value())
      ensures status == if ok then target else old(status)
      ensures started == (old(started) || (ok && target == Running))
      ensures attempts == old(attempts) + if ok && target == Running && !old(started) then 1 else 0
      ensures result == old(result) && errorMessage == old(errorMessage)
    {
      if !CanTransition(status, target) {
        return false;
      }
      if target == Running && !started {
        started := true;
        attempts := attempts + 1;
      }
      status := target;
      return true;
    }

    method Retry() returns (ok: bool)
      modifies this
      ensures ok == (old(status) == Failed && old(attempts) < maxRetries)
      ensures Value() == if ok then old(Value()).Retried() else old(Value())
      ensures status == if ok then Pending else old(status)
      ensures errorMessage == if ok then "" else old(errorMessage)
      ensures result == old(result) && attempts == old(attempts) && started == old(started)
    {
      if !Value().CanRetry() {
        return false;
      }
      status := Pending;
      errorMessage := "";
      return true;
    }
  }

  /** Every write to the repository, in order, and what the repository then holds. */

  type Rows = map<Id, Record>

  function Written(log: seq<Record>): Rows {
    if log == [] then map[] else Written(log[..|log| - 1])[log[|log| - 1].id := log[|log| - 1]]
  }

  /** A write keeps the status, or changes it along the transition table; a terminal row stays as it is. */
  predicate Allowed(rows: Rows, r: Record) {
    r.id in rows ==>
      var before := rows[r.id];
      && (r.status == before.status || CanTransition(before.status, r.status))
      && (before.IsTerminal() ==> r == before)
  }

  ghost predicate Lawful(log: seq<Record>) {
    forall i :: 0 <= i < |log| ==> Allowed(Written(log[..i]), log[i])
  }

  predicate RowOk(r: Record) {
    && r.attempts == (if r.started then 1 else 0)
    && (r.status in {Running, Completed, Failed} ==> r.started)
  }

  ghost predicate Ledger(rows: Rows, log: seq<Record>) {
    && Lawful(log) && rows == Written(log)
    && forall id :: id in rows ==> rows[id].id == id && RowOk(rows[id])
  }

  lemma LedgerWrite(rows: Rows, log: seq<Record>, r: Record)
    requires Ledger(rows, log) && Allowed(rows, r) && RowOk(r)
    ensures Ledger(rows[r.id := r], log + [r])
  {
    hide Allowed, RowOk;
    var log' := log + [r];
    assert log'[..|log|] == log;
    forall i | 0 <= i < |log'| ensures Allowed(Written(log'[..i]), log'[i]) {
      if i < |log| {
        assert log'[..i] == log[..i];
      }
    }
  }

  lemma LedgerRow(rows: Rows, log: seq<Record>, id: Id)
    requires Ledger(rows, log) && id in rows
    ensures rows[id].id == id && RowOk(rows[id])
  {
  }

  /** Consecutive steps of the transition table. */
  ghost predicate IsPath(path: seq<Status>) {
    path != [] && forall i :: 0 <= i < |path| - 1 ==> CanTransition(path[i], path[i + 1])
  }

  lemma WrittenNext(log: seq<Record>, j: nat)
    requires Lawful(log) && 0 < j <= |log|
    ensures Written(log[..j]) == Written(log[..j - 1])[log[j - 1].id := log[j - 1]]
    ensures Allowed(Written(log[..j - 1]), log[j - 1])
  {
    assert log[..j][..j - 1] == log[..j - 1];
  }

  /** Between any two moments, the persisted status of a job moved along the transition table. */
  lemma {:induction false} StatusMovesAlongTable(log: seq<Record>, i: nat, j: nat, id: Id) returns (path: seq<Status>)
    requires Lawful(log) && i <= j <= |log| && id in Written(log[..i])
    ensures id in Written(log[..j]) && IsPath(path)
    ensures path[0] == Written(log[..i])[id].status && path[|path| - 1] == Written(log[..j])[id].status
    decreases j - i
  {
    hide Written, Lawful;
    if i == j {
      path := [Written(log[..i])[id].status];
    } else {
      path := StatusMovesAlongTable(log, i, j - 1, id);
      WrittenNext(log, j);
      if log[j - 1].id == id && log[j - 1].status != path[|path| - 1] {
        path := path + [log[j - 1].status];
      }
    }
  }

  /** Completed and cancelled jobs never change again. */
  lemma {:induction false} TerminalForever(log: seq<Record>, i: nat, j: nat, id: Id)
    requires Lawful(log) && i <= j <= |log| && id in Written(log[..i])
    requires Written(log[..i])[id].status in {Completed, Cancelled}
    ensures id in Written(log[..j]) && Written(log[..j])[id] == Written(log[..i])[id]
    decreases j - i
  {
    hide Written, Lawful;
    if i < j {
      TerminalForever(log, i, j - 1, id);
      WrittenNext(log, j);
    }
  }

  /** One run of a job that is ready to start: what is persisted first, and what at the end. */

  datatype Verdict = Returned(result: string) | Raised(message: string)

  function Finished(r: Record, v: Verdict): Record {
    match v
    case Returned(text) => r.(result := text).Moved(Completed)
    case Raised(text) => r.(errorMessage := text).Moved(Failed)
  }

  function Executed(r: Record, v: Verdict): Record {
    Finished(r.Moved(Running), v)
  }

  /** A run in plain terms: the verdict decides status, result and error message; the first start counts an
      attempt; nothing else changes. */
  ghost predicate RanTo(before: Record, v: Verdict, after: Record) {
    && (v.Returned? ==> after.status == Completed && after.result == v.result && after.errorMessage == before.errorMessage)
    && (v.Raised? ==> after.status == Failed && after.errorMessage == v.message && after.result == before.result)
    && after.started && after.attempts == (if before.started then before.attempts else before.attempts + 1)
    && after.id == before.id && after.workspaceId == before.workspaceId && after.jobType == before.jobType
    && after.payload == before.payload && after.maxRetries == before.maxRetries && after.priority == before.priority
  }

  lemma ExecutedRanTo(r: Record, v: Verdict)
    ensures RanTo(r, v, Executed(r, v))
  {
  }

  /** A new job that is run, fails and is retried, `n` times in all. */
  function FailedRuns(r: Record, n: nat, messages: nat -> string): Record
    requires n >= 1
  {
    if n == 1 then Executed(r, Raised(messages(1)))
    else Executed(FailedRuns(r, n - 1, messages).Retried(), Raised(messages(n)))
  }

  /** Whether a job can be retried does not depend on how often it failed: `maxRetries` bounds no retries. */
  lemma {:induction false} RetriesNotCounted(r: Record, n: nat, messages: nat -> string)
    requires n >= 1 && !r.started && r.attempts == 0
    ensures FailedRuns(r, n, messages).CanRetry() <==> r.maxRetries > 1
    ensures FailedRuns(r, n, messages).started && FailedRuns(r, n, messages).attempts == 1
    ensures FailedRuns(r, n, messages).maxRetries == r.maxRetries
  {
    if n > 1 {
      RetriesNotCounted(r, n - 1, messages);
    }
  }

  class JobRepository {
    var rows: Rows
    /** Every record ever written. */
    ghost var log: seq<Record>

    constructor ()
      ensures rows == map[] && log == [] && Ledger(rows, log)
    {
      rows, log := map[], [];
    }

    method GetById(id: Id) returns (job: Option<Job>)
      ensures job.Some? <==> id in rows
      ensures job.Some? ==> fresh(job.value) && job.value.Value() == rows[id]
    {
      if id !in rows {
        return None;
      }
      var copy := new Job(rows[id]);
      return Some(copy);
    }

    /** Creating and updating a row. */
    method Save(r: Record)
      modifies this
      ensures rows == old(rows)[r.id := r] && log == old(log) + [r]
    {
      rows := rows[r.id := r];
      log := log + [r];
    }

    /** The first of the pending rows ordered by falling priority; equal priorities come in any order. */
    method FirstPending() returns (job: Option<Job>)
      requires Ledger(rows, log)
      ensures job.None? <==> PendingIds(rows) == {}
      ensures job.Some? ==> fresh(job.value) && IsFirst(rows, job.value.id) && job.value.Value() == rows[job.value.id]
    {
      if PendingIds(rows) == {} {
        return None;
      }
      HighestExists(rows, PendingIds(rows));
      var id :| id in PendingIds(rows) && forall other :: other in PendingIds(rows) ==> rows[other].priority <= rows[id].priority;
      LedgerRow(rows, log, id);
      var copy := new Job(rows[id]);
      return Some(copy);
    }
  }

  function PendingIds(rows: Rows): (ids: set<Id>)
    ensures ids <= rows.Keys
  {
    set id | id in rows && rows[id].status == Pending
  }

  predicate IsFirst(rows: Rows, id: Id) {
    id in PendingIds(rows) && forall other :: other in PendingIds(rows) ==> rows[other].priority <= rows[id].priority
  }

  lemma {:induction false} HighestExists(rows: Rows, ids: set<Id>)
    requires ids != {} && ids <= rows.Keys
    ensures exists id :: id in ids && forall other :: other in ids ==> rows[other].priority <= rows[id].priority
    decreases ids
  {
    var one :| one in ids;
    if ids == {one} {
    } else {
      HighestExists(rows, ids - {one});
      var best :| best in ids - {one} && forall other :: other in ids - {one} ==> rows[other].priority <= rows[best].priority;
      var winner := if rows[one].priority > rows[best].priority then one else best;
      assert winner in ids && forall other :: other in ids ==> rows[other].priority <= rows[winner].priority;
    }
  }

  /** Queue, executor and scheduler */

  datatype Execution = NoHandler | NotPending | Ran(verdict: Verdict)

  /** The two writes of one execution. */
  lemma ExecutionLedger(rows: Rows, log: seq<Record>, r: Record, v: Verdict)
    requires Ledger(rows, log) && (r.id in rows ==> rows[r.id] == r) && RowOk(r) && r.status == Pending
    ensures
      var (running, done) := (r.Moved(Running), Executed(r, v));
      && Ledger(rows[r.id := running], log + [running])
      && Ledger(rows[r.id := running][r.id := done], log + [running] + [done])
  {
    hide Ledger;
    LedgerWrite(rows, log, r.Moved(Running));
    LedgerWrite(rows[r.id := r.Moved(Running)], log + [r.Moved(Running)], Executed(r, v));
  }

  class JobExecutor {
    const repo: JobRepository
    var handlers: set<string>

    constructor (repo: JobRepository)
      ensures this.repo == repo && handlers == {}
    {
      this.repo := repo;
      handlers := {};
    }

    method Register(jobType: string)
      modifies this
      ensures handlers == old(handlers) + {jobType}
    {
      handlers := handlers + {jobType};
    }

    /** A handler may return or raise anything. */
    method CallHandler(job: Job) returns (v: Verdict)
      requires job.jobType in handlers
    {
      v := *;
    }

    /** Runs a job: it is persisted as running, then as completed or failed with the handler's verdict.
        Without a handler, or when it may not start, nothing changes. */
    method Execute(job: Job) returns (outcome: Execution)
      requires Ledger(repo.rows, repo.log)
      requires job.id in repo.rows ==> repo.rows[job.id] == job.Value()
      requires RowOk(job.Value())
      modifies job, repo
      ensures Ledger(repo.rows, repo.log)
      ensures outcome.NoHandler? <==> job.jobType !in handlers
      ensures outcome.NotPending? <==> job.jobType in handlers && old(job.status) != Pending
      ensures outcome.Ran? ==>
        var (running, done) := (old(job.Value()).Moved(Running), Executed(old(job.Value()), outcome.verdict));
        && job.Value() == done
        && repo.rows == old(repo.rows)[job.id := done]
        && repo.log == old(repo.log) + [running] + [done]
      ensures outcome.Ran? && outcome.verdict.Returned? ==>
        job.status == Completed && job.result == outcome.verdict.result && job.errorMessage == old(job.errorMessage)
      ensures outcome.Ran? && outcome.verdict.Raised? ==>
        job.status == Failed && job.errorMessage == outcome.verdict.message && job.result == old(job.result)
      ensures outcome.Ran? ==> job.started && job.attempts == old(job.attempts) + if old(job.started) then 0 else 1
      ensures outcome.Ran? ==> old(repo.log) < repo.log && repo.log[|old(repo.log)|].status == Running
      ensures !outcome.Ran? ==> job.Value() == old(job.Value()) && repo.rows == old(repo.rows) && repo.log == old(repo.log)
    {
      hide Ledger, Allowed, RowOk;
      if job.jobType !in handlers {
        return NoHandler;
      }
      ghost var before := job.Value();
      var ok := job.TransitionTo(Running);
      if !ok {
        return NotPending;
      }
      repo.Save(job.Value());
      var v := CallHandler(job);
      match v {
        case Returned(text) =>
          job.result := text;
          ok := job.TransitionTo(Completed);
        case Raised(text) =>
          job.errorMessage := text;
          ok := job.TransitionTo(Failed);
      }
      ExecutionLedger(old(repo.rows), old(repo.log), before, v);
      repo.Save(job.Value());
      return Ran(v);
    }
  }

  datatype Next = Empty | Unhandled(id: Id) | Processed(job: Record, verdict: Verdict)

  /** Each execution ran a job that was pending and has a handler, and its row is what came out. */
  ghost predicate RanEach(handlers: set<string>, rows0: Rows, rows: Rows, results: seq<Record>,
      verdicts: seq<Verdict>) {
    && |verdicts| == |results|
    && forall k :: 0 <= k < |results| ==>
         && results[k].id in PendingIds(rows0) && rows0[results[k].id].jobType in handlers
         && results[k] == Executed(rows0[results[k].id], verdicts[k])
         && results[k].id in rows && rows[results[k].id] == results[k]
  }

  /** No job ran twice, and none ran before one of higher priority. */
  ghost predicate FallingPriority(rows0: Rows, results: seq<Record>) {
    && (forall k :: 0 <= k < |results| ==> results[k].id in rows0)
    && forall k, l :: 0 <= k < l < |results| ==>
         results[k].id != results[l].id && rows0[results[k].id].priority >= rows0[results[l].id].priority
  }

  ghost predicate HasRun(results: seq<Record>, id: Id) {
    exists k :: 0 <= k < |results| && results[k].id == id
  }

  /** Every other row is as it was, and what is still pending has no higher priority than what ran. */
  ghost predicate RestUntouched(rows0: Rows, rows: Rows, results: seq<Record>) {
    && rows.Keys == rows0.Keys
    && (forall id :: id in rows && !HasRun(results, id) ==> rows[id] == rows0[id])
    && forall other, k :: other in PendingIds(rows) && 0 <= k < |results| && results[k].id in rows0 ==>
         rows0[other].priority <= rows0[results[k].id].priority
  }

  ghost predicate Progress(handlers: set<string>, rows0: Rows, rows: Rows, results: seq<Record>,
      verdicts: seq<Verdict>) {
    && RanEach(handlers, rows0, rows, results, verdicts)
    && FallingPriority(rows0, results)
    && RestUntouched(rows0, rows, results)
  }

  lemma PendingUntouched(handlers: set<string>, rows0: Rows, rows: Rows, results: seq<Record>,
      verdicts: seq<Verdict>, id: Id)
    requires Progress(handlers, rows0, rows, results, verdicts) && id in PendingIds(rows)
    ensures id in PendingIds(rows0) && rows[id] == rows0[id] && !HasRun(results, id)
  {
    hide Executed;
    forall k | 0 <= k < |results| ensures results[k].id != id {
      ExecutedRow(rows0[results[k].id], verdicts[k]);
    }
  }

  lemma ExecutedRow(r: Record, v: Verdict)
    ensures Executed(r, v).id == r.id && Executed(r, v).status in {Completed, Failed}
  {
  }

  lemma RanOneMore(handlers: set<string>, rows0: Rows, rows: Rows, results: seq<Record>, verdicts: seq<Verdict>,
      done: Record, v: Verdict)
    requires RanEach(handlers, rows0, rows, results, verdicts) && !HasRun(results, done.id)
    requires done.id in PendingIds(rows0) && rows0[done.id].jobType in handlers && done == Executed(rows0[done.id], v)
    ensures RanEach(handlers, rows0, rows[done.id := done], results + [done], verdicts + [v])
  {
    hide Executed, PendingIds;
    var results', verdicts' := results + [done], verdicts + [v];
    forall k | 0 <= k < |results'|
      ensures results'[k].id in PendingIds(rows0) && rows0[results'[k].id].jobType in handlers
      ensures results'[k] == Executed(rows0[results'[k].id], verdicts'[k])
      ensures results'[k].id in rows[done.id := done] && rows[done.id := done][results'[k].id] == results'[k]
    {
      if k < |results| {
        assert results'[k] == results[k] && verdicts'[k] == verdicts[k] && results[k].id != done.id;
      }
    }
  }

  lemma FallsOneMore(rows0: Rows, rows: Rows, results: seq<Record>, done: Record)
    requires FallingPriority(rows0, results) && RestUntouched(rows0, rows, results)
    requires !HasRun(results, done.id) && done.id in PendingIds(rows)
    ensures FallingPriority(rows0, results + [done])
  {
    hide PendingIds;
  }

  lemma RestOneMore(rows0: Rows, rows: Rows, results: seq<Record>, done: Record)
    requires RestUntouched(rows0, rows, results) && IsFirst(rows, done.id) && rows[done.id] == rows0[done.id]
    requires forall other :: other in PendingIds(rows) ==> rows[other] == rows0[other]
    requires PendingIds(rows[done.id := done]) == PendingIds(rows) - {done.id}
    ensures RestUntouched(rows0, rows[done.id := done], results + [done])
  {
    hide PendingIds;
    var results' := results + [done];
    forall id | id in rows && !HasRun(results', id) ensures id != done.id && !HasRun(results, id) {
      assert results'[|results|].id == done.id;
      forall k | 0 <= k < |results| ensures results[k].id != id {
        assert results'[k] == results[k];
      }
    }
  }

  lemma ProgressStep(handlers: set<string>, rows0: Rows, rows: Rows, results: seq<Record>, verdicts: seq<Verdict>,
      id: Id, v: Verdict)
    requires Progress(handlers, rows0, rows, results, verdicts)
    requires IsFirst(rows, id) && rows[id].id == id && rows[id].jobType in handlers
    ensures
      var done := Executed(rows[id], v);
      && PendingIds(rows[id := done]) == PendingIds(rows) - {id}
      && Progress(handlers, rows0, rows[id := done], results + [done], verdicts + [v])
  {
    var done := Executed(rows[id], v);
    ExecutedRow(rows[id], v);
    assert PendingIds(rows[id := done]) == PendingIds(rows) - {id};
    FirstIsPending(rows, id);
    forall other | other in PendingIds(rows)
      ensures other in PendingIds(rows0) && rows[other] == rows0[other] && !HasRun(results, other)
    {
      PendingUntouched(handlers, rows0, rows, results, verdicts, other);
    }
    hide Executed, PendingIds, RanEach, FallingPriority, RestUntouched, HasRun, IsFirst;
    RanOneMore(handlers, rows0, rows, results, verdicts, done, v);
    FallsOneMore(rows0, rows, results, done);
    RestOneMore(rows0, rows, results, done);
  }

  lemma AllHandled(handlers: set<string>, rows0: Rows, rows: Rows, results: seq<Record>, verdicts: seq<Verdict>)
    requires Progress(handlers, rows0, rows, results, verdicts) && PendingIds(rows) == {}
    ensures forall id :: id in PendingIds(rows0) ==> rows0[id].jobType in handlers && HasRun(results, id)
  {
    hide Executed;
    forall id | id in PendingIds(rows0) ensures rows0[id].jobType in handlers && HasRun(results, id) {
      assert id !in PendingIds(rows);
      assert HasRun(results, id);
    }
  }

  /** The account of a run in plain terms. */
  lemma ProgressMeans(handlers: set<string>, rows0: Rows, rows: Rows, results: seq<Record>, verdicts: seq<Verdict>)
    requires Progress(handlers, rows0, rows, results, verdicts)
    ensures rows.Keys == rows0.Keys && |results| == |verdicts|
    ensures forall k :: 0 <= k < |results| ==>
      && results[k].id in rows0 && rows0[results[k].id].status == Pending
      && RanTo(rows0[results[k].id], verdicts[k], results[k]) && rows[results[k].id] == results[k]
    ensures forall k, l :: 0 <= k < l < |results| ==>
      results[k].id != results[l].id && results[k].priority >= results[l].priority
    ensures forall id :: id in rows && (forall k :: 0 <= k < |results| ==> results[k].id != id) ==> rows[id] == rows0[id]
  {
    hide Executed, RanTo;
    forall k | 0 <= k < |results|
      ensures RanTo(rows0[results[k].id], verdicts[k], results[k]) && results[k].priority == rows0[results[k].id].priority
    {
      ExecutedRanTo(rows0[results[k].id], verdicts[k]);
      SamePriority(rows0[results[k].id], verdicts[k], results[k]);
    }
  }

  lemma SamePriority(before: Record, v: Verdict, after: Record)
    requires RanTo(before, v, after)
    ensures after.priority == before.priority
  {
  }

  lemma PendingMeans(rows: Rows)
    ensures forall id :: id in PendingIds(rows) <==> id in rows && rows[id].status == Pending
  {
  }

  lemma FirstMeans(rows: Rows, id: Id)
    requires IsFirst(rows, id)
    ensures id in rows && rows[id].status == Pending
    ensures forall other :: other in rows && rows[other].status == Pending ==> rows[other].priority <= rows[id].priority
  {
  }

  lemma RunMeans(results: seq<Record>)
    ensures forall id :: HasRun(results, id) <==> exists k :: 0 <= k < |results| && results[k].id == id
  {
  }

  class JobScheduler {
    const repo: JobRepository
    const executor: JobExecutor

    ghost predicate Valid()
      reads repo
    {
      executor.repo == repo && Ledger(repo.rows, repo.log)
    }

    constructor (executor: JobExecutor)
      requires Ledger(executor.repo.rows, executor.repo.log)
      ensures this.executor == executor && repo == executor.repo && Valid()
    {
      this.executor := executor;
      repo := executor.repo;
    }

    /** The id is fresh. A job without a workspace is refused. */
    method Submit(id: Id, workspaceId: string, jobType: string, payload: map<string, string>, priority: int,
        maxRetries: int)
      returns (job: Option<Record>)
      requires Valid() && id !in repo.rows
      modifies repo
      ensures Valid()
      ensures job.None? <==> workspaceId == ""
      ensures job.Some? ==>
        var r := job.value;
        && r.id == id && r.workspaceId == workspaceId && r.jobType == jobType && r.payload == payload
        && r.priority == priority && r.maxRetries == maxRetries && r.status == Pending
        && r.result == "" && r.errorMessage == "" && r.attempts == 0 && !r.started
      ensures job.None? ==> repo.rows == old(repo.rows) && repo.log == old(repo.log)
      ensures job.Some? ==> repo.rows == old(repo.rows)[id := job.value] && repo.log == old(repo.log) + [job.value]
    {
      if workspaceId == "" {
        return None;
      }
      var r := NewRecord(id, workspaceId, jobType, payload, priority, maxRetries);
      LedgerWrite(repo.rows, repo.log, r);
      repo.Save(r);
      return Some(r);
    }

    /** Runs the first pending job; a job whose type has no handler stays where it is. */
    method ProcessNext() returns (next: Next)
      requires Valid()
      modifies repo
      ensures Valid() && executor.handlers == old(executor.handlers)
      ensures next.Empty? <==> PendingIds(old(repo.rows)) == {}
      ensures next.Unhandled? ==> IsFirst(old(repo.rows), next.id) && old(repo.rows)[next.id].jobType !in executor.handlers
      ensures !next.Processed? ==> repo.rows == old(repo.rows) && repo.log == old(repo.log)
      ensures next.Processed? ==>
        && IsFirst(old(repo.rows), next.job.id)
        && old(repo.rows)[next.job.id].id == next.job.id
        && old(repo.rows)[next.job.id].jobType in executor.handlers
        && next.job == Executed(old(repo.rows)[next.job.id], next.verdict)
        && RanTo(old(repo.rows)[next.job.id], next.verdict, next.job)
        && repo.rows == old(repo.rows)[next.job.id := next.job]
        && repo.log == old(repo.log) + [old(repo.rows)[next.job.id].Moved(Running)] + [next.job]
    {
      hide Ledger;
      var job := repo.FirstPending();
      if job.None? {
        return Empty;
      }
      LedgerRow(repo.rows, repo.log, job.value.id);
      var outcome := executor.Execute(job.value);
      if outcome.Ran? {
        ExecutedRanTo(old(repo.rows)[job.value.id], outcome.verdict);
        return Processed(job.value.Value(), outcome.verdict);
      }
      return Unhandled(job.value.id);
    }

    /** Runs pending jobs until none is left, or until the next one has no handler. */
    method ProcessAll() returns (results: seq<Record>, stuck: Option<Id>, ghost verdicts: seq<Verdict>)
      requires Valid()
      modifies repo
      ensures Valid()
      ensures Progress(executor.handlers, old(repo.rows), repo.rows, results, verdicts)
      ensures stuck.None? <==> forall id :: id in old(repo.rows) && old(repo.rows)[id].status == Pending ==>
                old(repo.rows)[id].jobType in executor.handlers
      ensures stuck.None? ==> forall id :: id in repo.rows ==> repo.rows[id].status != Pending
      ensures stuck.None? ==> forall id :: id in old(repo.rows) && old(repo.rows)[id].status == Pending ==>
                exists k :: 0 <= k < |results| && results[k].id == id
      ensures stuck.Some? ==>
        && stuck.value in repo.rows && repo.rows[stuck.value].status == Pending
        && repo.rows[stuck.value].jobType !in executor.handlers
        && forall id :: id in repo.rows && repo.rows[id].status == Pending ==>
             repo.rows[id].priority <= repo.rows[stuck.value].priority
      ensures repo.rows.Keys == old(repo.rows).Keys && |results| == |verdicts|
      ensures forall k :: 0 <= k < |results| ==>
        && results[k].id in old(repo.rows) && old(repo.rows)[results[k].id].status == Pending
        && RanTo(old(repo.rows)[results[k].id], verdicts[k], results[k]) && repo.rows[results[k].id] == results[k]
      ensures forall k, l :: 0 <= k < l < |results| ==>
        results[k].id != results[l].id && results[k].priority >= results[l].priority
      ensures forall id :: id in repo.rows && (forall k :: 0 <= k < |results| ==> results[k].id != id) ==>
        repo.rows[id] == old(repo.rows)[id]
    {
      hide Ledger, Progress, Executed, IsFirst, PendingIds, RanTo, HasRun;
      results, verdicts := [], [];
      ProgressStart(executor.handlers, repo.rows);
      while PendingIds(repo.rows) != {}
        invariant Valid() && executor.handlers == old(executor.handlers)
        invariant Progress(executor.handlers, old(repo.rows), repo.rows, results, verdicts)
        decreases PendingIds(repo.rows)
      {
        ghost var before := repo.rows;
        var next := ProcessNext();
        match next {
          case Processed(job, v) =>
            ProgressStep(executor.handlers, old(repo.rows), before, results, verdicts, job.id, v);
            FirstIsPending(before, job.id);
            results, verdicts := results + [job], verdicts + [v];
          case Unhandled(id) =>
            FirstIsPending(before, id);
            PendingUntouched(executor.handlers, old(repo.rows), repo.rows, results, verdicts, id);
            ProgressMeans(executor.handlers, old(repo.rows), repo.rows, results, verdicts);
            PendingMeans(old(repo.rows));
            FirstMeans(repo.rows, id);
            return results, Some(id), verdicts;
        }
      }
      AllHandled(executor.handlers, old(repo.rows), repo.rows, results, verdicts);
      ProgressMeans(executor.handlers, old(repo.rows), repo.rows, results, verdicts);
      PendingMeans(old(repo.rows));
      PendingMeans(repo.rows);
      RunMeans(results);
      return results, None, verdicts;
    }

    /** Only a failed job with attempts left is put back; it is written twice, by the scheduler and by the queue. */
    method RetryJob(id: Id) returns (job: Option<Record>)
      requires Valid()
      modifies repo
      ensures Valid()
      ensures job.Some? <==>
        id in old(repo.rows) && old(repo.rows)[id].status == Failed && old(repo.rows)[id].attempts < old(repo.rows)[id].maxRetries
      ensures job.Some? ==>
        && job.value == old(repo.rows)[id].(status := Pending, errorMessage := "")
        && repo.rows == old(repo.rows)[id := job.value] && repo.log == old(repo.log) + [job.value] + [job.value]
      ensures job.None? ==> repo.rows == old(repo.rows) && repo.log == old(repo.log)
    {
      hide Ledger;
      var found := repo.GetById(id);
      if found.None? {
        return None;
      }
      var ok := found.value.Retry();
      if !ok {
        return None;
      }
      var r := found.value.Value();
      LedgerRow(repo.rows, repo.log, id);
      LedgerWrite(repo.rows, repo.log, r);
      repo.Save(r);
      LedgerWrite(repo.rows, repo.log, r);
      repo.Save(r);
      assert old(repo.rows)[id := r][id := r] == old(repo.rows)[id := r];
      return Some(r);
    }

    /** Exactly the pending and running jobs can be cancelled. */
    method CancelJob(id: Id) returns (job: Option<Record>)
      requires Valid()
      modifies repo
      ensures Valid()
      ensures job.Some? <==> id in old(repo.rows) && old(repo.rows)[id].status in {Pending, Running}
      ensures job.Some? ==>
        && job.value == old(repo.rows)[id].(status := Cancelled)
        && repo.rows == old(repo.rows)[id := job.value] && repo.log == old(repo.log) + [job.value]
      ensures job.None? ==> repo.rows == old(repo.rows) && repo.log == old(repo.log)
    {
      hide Ledger;
      var found := repo.GetById(id);
      if found.None? || found.value.Value().IsTerminal() {
        return None;
      }
      var ok := found.value.TransitionTo(Cancelled);
      if !ok {
        return None;
      }
      var r := found.value.Value();
      LedgerRow(repo.rows, repo.log, id);
      LedgerWrite(repo.rows, repo.log, r);
      repo.Save(r);
      return Some(r);
    }
  }

  lemma ProgressStart(handlers: set<string>, rows: Rows)
    ensures Progress(handlers, rows, rows, [], [])
  {
  }

  lemma FirstIsPending(rows: Rows, id: Id)
    requires IsFirst(rows, id)
    ensures id in PendingIds(rows)
  {
  }
}
