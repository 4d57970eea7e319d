/** backend/lexmind/pipeline/pipeline_executor.py: running a pipeline with retries, checkpoints and
    cancellation. Whether an attempt fails, what makes it fail, and when a run is cancelled are left
    open: the contracts hold for every such behaviour. */
module PipelineExecution {
  import opened Collections
  import opened Digraph
  import opened Dependencies
  import opened StageRegistry
  import opened PipelineRetry
  import opened PipelineModel

  datatype Status = Completed | FailedStage | AlreadyCompleted | Disabled
  datatype StageResult = StageResult(stageId: Id, status: Status, attempts: nat)
  datatype RunOutcome = Rejected(why: Outcome) | Ran(results: seq<StageResult>, completed: bool)

  class CheckpointStore {
    var saved: map<string, Checkpoint>

    ghost predicate Valid()
      reads this
    {
      forall p :: p in saved ==> saved[p].pipelineId == p
    }

    constructor ()
      ensures Valid() && saved == map[]
    {
      saved := map[];
    }

    method Save(c: Checkpoint)
      requires Valid()
      modifies this
      ensures Valid() && saved == old(saved)[c.pipelineId := c]
    {
      saved := saved[c.pipelineId := c];
    }

    function Restore(pipelineId: string): Option<Checkpoint>
      reads this
    {
      if pipelineId in saved then Some(saved[pipelineId]) else None
    }

    method Reset(pipelineId: string)
      requires Valid()
      modifies this
      ensures Valid() && saved == old(saved) - {pipelineId}
    {
      saved := saved - {pipelineId};
    }
  }

  class PipelineContext {
    const pipelineId: string
    const documentId: string
    var shared: Shared
    var metrics: seq<StageMetrics>
    var cancelled: bool

    constructor (pipelineId: string, documentId: string)
      ensures this.pipelineId == pipelineId && this.documentId == documentId
      ensures shared == map[] && metrics == [] && !cancelled
    {
      this.pipelineId, this.documentId := pipelineId, documentId;
      shared, metrics, cancelled := map[], [], false;
    }
  }

  /** How each stage result follows from the stage and from what was completed before. */
  ghost predicate ResultFits(st: Stage, done: set<Id>, r: StageResult) {
    && r.stageId == st.id
    && (r.status == AlreadyCompleted <==> st.id in done)
    && (r.status == Disabled <==> st.id !in done && !st.enabled)
    && (r.status in {Completed, FailedStage} ==> 1 <= r.attempts <= st.policy.Limit())
    && (r.status == FailedStage ==> r.attempts == st.policy.Limit())
  }

  /** The results cover the stages in order, and only the last one can be a failure. */
  ghost predicate ResultsFit(stages: seq<Stage>, done: set<Id>, results: seq<StageResult>) {
    && |results| <= |stages|
    && (forall i :: 0 <= i < |results| ==> ResultFits(stages[i], done, results[i]))
    && (forall i :: 0 <= i < |results| - 1 ==> results[i].status != FailedStage)
  }

  ghost predicate EndsInFailure(results: seq<StageResult>) {
    results != [] && results[|results| - 1].status == FailedStage
  }

  ghost function Handled(results: seq<StageResult>): nat {
    if EndsInFailure(results) then |results| - 1 else |results|
  }

  lemma NoResults(stages: seq<Stage>, done: set<Id>)
    ensures ResultsFit(stages, done, []) && !EndsInFailure([])
  {
  }

  lemma ResultsAppend(stages: seq<Stage>, done: set<Id>, results: seq<StageResult>, r: StageResult)
    requires ResultsFit(stages, done, results) && !EndsInFailure(results) && |results| < |stages|
    requires ResultFits(stages[|results|], done, r)
    ensures ResultsFit(stages, done, results + [r])
    ensures EndsInFailure(results + [r]) <==> r.status == FailedStage
  {
  }

  /** What handling one stage does to the shared dictionary, after these failed attempts. */
  ghost predicate Leg(st: Stage, r: StageResult, causes: seq<nat>, before: Shared, after: Shared) {
    match r.status
    case AlreadyCompleted => after == before
    case Disabled => after == before
    case Completed => |causes| == r.attempts - 1 && after == st.effect(Dirty(st, causes, before))
    case FailedStage => |causes| == r.attempts && after == st.rollback(Dirty(st, causes, before))
  }

  /** `trail` holds the shared dictionary before every stage handled and after the last one. */
  ghost predicate Journey(stages: seq<Stage>, results: seq<StageResult>, causes: seq<seq<nat>>, trail: seq<Shared>) {
    && |causes| == |results| <= |stages| && |trail| == |results| + 1
    && forall j :: 0 <= j < |results| ==> Leg(stages[j], results[j], causes[j], trail[j], trail[j + 1])
  }

  lemma JourneyAppend(stages: seq<Stage>, results: seq<StageResult>, causes: seq<seq<nat>>, trail: seq<Shared>,
      r: StageResult, cause: seq<nat>, after: Shared)
    requires Journey(stages, results, causes, trail) && |results| < |stages|
    requires Leg(stages[|results|], r, cause, trail[|results|], after)
    ensures Journey(stages, results + [r], causes + [cause], trail + [after])
  {
    hide Leg;
    forall j | 0 <= j <= |results|
      ensures Leg(stages[j], (results + [r])[j], (causes + [cause])[j], (trail + [after])[j], (trail + [after])[j + 1])
    {
      if j < |results| {
        assert Leg(stages[j], results[j], causes[j], trail[j], trail[j + 1]);
      }
    }
  }

  ghost predicate CompletedAt(results: seq<StageResult>, j: int, x: Id) {
    0 <= j < |results| && results[j].status == Completed && results[j].stageId == x
  }

  ghost predicate CompletedBefore(results: seq<StageResult>, k: int, x: Id) {
    exists j :: j < k && CompletedAt(results, j, x)
  }

  /** `ids` lists, without repetition and in the order of their first completion, the stages completed here. */
  ghost predicate ListsCompleted(results: seq<StageResult>, ids: seq<Id>) {
    && NoDup(ids)
    && (forall x :: x in ids <==> CompletedBefore(results, |results|, x))
    && forall a, b, j :: 0 <= a < b < |ids| && CompletedAt(results, j, ids[b]) ==> CompletedBefore(results, j, ids[a])
  }

  /** No stage completed after this one. */
  ghost predicate LastCompleted(results: seq<StageResult>, l: int) {
    0 <= l < |results| && results[l].status == Completed && forall j :: l < j < |results| ==> results[j].status != Completed
  }

  ghost predicate NoneCompleted(results: seq<StageResult>) {
    forall j :: 0 <= j < |results| ==> results[j].status != Completed
  }

  /** What a run leaves in the store: nothing new, or one checkpoint that extends `base` by the stages it completed. */
  ghost predicate Keeps(base: Checkpoint, before: Option<Checkpoint>, results: seq<StageResult>, trail: seq<Shared>,
      checkpoint: Checkpoint, stored: Option<Checkpoint>)
  {
    && |trail| == |results| + 1
    && checkpoint.pipelineId == base.pipelineId && checkpoint.documentId == base.documentId
    && base.completed <= checkpoint.completed && ListsCompleted(results, checkpoint.completed[|base.completed|..])
    && (NoneCompleted(results) ==> checkpoint == base && stored == before)
    && forall l :: LastCompleted(results, l) ==>
         stored == Some(checkpoint) && checkpoint.last == Some(results[l].stageId) && checkpoint.shared == trail[l + 1]
  }

  lemma CompletedAppend(results: seq<StageResult>, r: StageResult, k: nat, x: Id)
    requires k <= |results|
    ensures CompletedAt(results + [r], k, x) <==>
      CompletedAt(results, k, x) || (k == |results| && r.status == Completed && r.stageId == x)
    ensures CompletedBefore(results + [r], k, x) <==> CompletedBefore(results, k, x)
    ensures CompletedBefore(results + [r], |results| + 1, x) <==>
      CompletedBefore(results, |results|, x) || (r.status == Completed && r.stageId == x)
  {
    var all := results + [r];
    assert forall j :: 0 <= j < |results| ==> all[j] == results[j];
    assert forall j :: j < |results| ==> (CompletedAt(all, j, x) <==> CompletedAt(results, j, x));
    assert CompletedAt(all, |results|, x) <==> r.status == Completed && r.stageId == x;
  }

  lemma ListsAppend(results: seq<StageResult>, ids: seq<Id>, r: StageResult)
    requires ListsCompleted(results, ids)
    ensures ListsCompleted(results + [r], if r.status != Completed || r.stageId in ids then ids else ids + [r.stageId])
  {
    var all, ids' := results + [r], if r.status != Completed || r.stageId in ids then ids else ids + [r.stageId];
    forall x ensures x in ids' <==> CompletedBefore(all, |all|, x) {
      CompletedAppend(results, r, |results|, x);
    }
    forall a, b, j | 0 <= a < b < |ids'| && CompletedAt(all, j, ids'[b]) ensures CompletedBefore(all, j, ids'[a]) {
      CompletedAppend(results, r, j, ids'[b]);
      CompletedAppend(results, r, j, ids'[a]);
      assert CompletedAt(results, j, ids'[b]) ==> CompletedBefore(results, |results|, ids'[b]);
    }
  }

  lemma KeepsStart(base: Checkpoint, before: Option<Checkpoint>, shared: Shared)
    ensures Keeps(base, before, [], [shared], base, before)
  {
  }

  lemma NotCompletedAppend(results: seq<StageResult>, r: StageResult)
    requires r.status != Completed
    ensures NoneCompleted(results + [r]) ==> NoneCompleted(results)
    ensures forall l :: LastCompleted(results + [r], l) ==>
      LastCompleted(results, l) && 0 <= l < |results| && (results + [r])[l] == results[l]
  {
    var all := results + [r];
    assert forall j :: 0 <= j < |results| ==> all[j] == results[j];
  }

  lemma KeepsSkip(base: Checkpoint, before: Option<Checkpoint>, results: seq<StageResult>, trail: seq<Shared>,
      checkpoint: Checkpoint, stored: Option<Checkpoint>, r: StageResult, after: Shared)
    requires Keeps(base, before, results, trail, checkpoint, stored) && r.status != Completed
    ensures Keeps(base, before, results + [r], trail + [after], checkpoint, stored)
  {
    hide ListsCompleted, NoneCompleted, LastCompleted;
    ListsAppend(results, checkpoint.completed[|base.completed|..], r);
    NotCompletedAppend(results, r);
  }

  lemma KeepsRun(base: Checkpoint, before: Option<Checkpoint>, results: seq<StageResult>, trail: seq<Shared>,
      checkpoint: Checkpoint, stored: Option<Checkpoint>, r: StageResult, after: Shared)
    requires Keeps(base, before, results, trail, checkpoint, stored)
    requires r.status == Completed && r.stageId !in base.completed
    ensures
      var saved := checkpoint.WithStage(r.stageId, after);
      Keeps(base, before, results + [r], trail + [after], saved, Some(saved))
  {
    hide ListsCompleted;
    var n, saved, ids := |base.completed|, checkpoint.WithStage(r.stageId, after), checkpoint.completed[|base.completed|..];
    ListsAppend(results, ids, r);
    assert checkpoint.completed == base.completed + ids;
    assert r.stageId in ids <==> r.stageId in checkpoint.completed;
    assert saved.completed[n..] == if r.stageId in ids then ids else ids + [r.stageId];
    assert (results + [r])[|results|] == r;
  }

  lemma LegAppend(stages: seq<Stage>, results: seq<StageResult>, causes: seq<seq<nat>>, trail: seq<Shared>,
      r: StageResult, cause: seq<nat>, after: Shared)
    requires Journey(stages, results, causes, trail) && |results| < |stages|
    requires
      var st, before := stages[|results|], trail[|results|];
      || (r.status == Completed && |cause| == r.attempts - 1 && after == st.effect(Dirty(st, cause, before)))
      || (r.status == FailedStage && |cause| == r.attempts && after == st.rollback(Dirty(st, cause, before)))
    ensures Journey(stages, results + [r], causes + [cause], trail + [after])
  {
    JourneyAppend(stages, results, causes, trail, r, cause, after);
  }

  lemma SkipAppend(stages: seq<Stage>, base: Checkpoint, before: Option<Checkpoint>, results: seq<StageResult>,
      causes: seq<seq<nat>>, trail: seq<Shared>, checkpoint: Checkpoint, stored: Option<Checkpoint>, r: StageResult)
    requires Journey(stages, results, causes, trail) && |results| < |stages|
    requires Keeps(base, before, results, trail, checkpoint, stored) && r.status in {AlreadyCompleted, Disabled}
    ensures Journey(stages, results + [r], causes + [[]], trail + [trail[|results|]])
    ensures Keeps(base, before, results + [r], trail + [trail[|results|]], checkpoint, stored)
  {
    JourneyAppend(stages, results, causes, trail, r, [], trail[|results|]);
    KeepsSkip(base, before, results, trail, checkpoint, stored, r, trail[|results|]);
  }

  lemma InSet(ids: seq<Id>)
    ensures forall x :: x in ToSet(ids) <==> x in ids
  {
  }

  lemma TrailFits(stages: seq<Stage>, results: seq<StageResult>, causes: seq<seq<nat>>, trail: seq<Shared>)
    requires Journey(stages, results, causes, trail)
    ensures |trail| == |results| + 1 && |causes| == |results| <= |stages|
  {
  }

  /** The plain account of a run that starts with the shared dictionary `given` and, when it resumes, with the checkpoint
      `known`: which stages it skipped, how each stage executed changed the dictionary, and what it left in the store. */
  ghost predicate Account(stages: seq<Stage>, known: Option<Checkpoint>, documentId: string, given: Shared,
      before: Option<Checkpoint>, results: seq<StageResult>, causes: seq<seq<nat>>, trail: seq<Shared>,
      after: Option<Checkpoint>)
  {
    var done := if known.Some? then known.value.completed else [];
    && |trail| == |results| + 1 && |causes| == |results| <= |stages|
    && trail[0] == (if known.Some? then given + known.value.shared else given)
    && (forall j :: 0 <= j < |results| ==>
          && results[j].stageId == stages[j].id
          && (results[j].status == AlreadyCompleted <==> stages[j].id in done)
          && (results[j].status == Disabled <==> stages[j].id !in done && !stages[j].enabled)
          && (results[j].status == FailedStage ==> j == |results| - 1)
          && Leg(stages[j], results[j], causes[j], trail[j], trail[j + 1]))
    && (NoneCompleted(results) ==> after == before)
    && forall l :: LastCompleted(results, l) ==>
         && after.Some? && done <= after.value.completed
         && ListsCompleted(results, after.value.completed[|done|..])
         && after.value.documentId == (if known.Some? then known.value.documentId else documentId)
         && after.value.last == Some(results[l].stageId)
         && after.value.shared == trail[l + 1]
  }

  lemma AccountHolds(stages: seq<Stage>, known: Option<Checkpoint>, blank: Checkpoint, given: Shared,
      before: Option<Checkpoint>, results: seq<StageResult>, causes: seq<seq<nat>>, trail: seq<Shared>,
      base: Checkpoint, last: Checkpoint, after: Option<Checkpoint>)
    requires IsBlank(blank) && base == if known.Some? then known.value else blank
    requires Journey(stages, results, causes, trail) && ResultsFit(stages, ToSet(base.completed), results)
    requires trail[0] == if known.Some? then given + known.value.shared else given
    requires Keeps(base, before, results, trail, last, after)
    ensures Account(stages, known, blank.documentId, given, before, results, causes, trail, after)
  {
    hide Leg, ListsCompleted;
    forall j | 0 <= j < |results|
      ensures ResultFits(stages[j], ToSet(base.completed), results[j])
      ensures Leg(stages[j], results[j], causes[j], trail[j], trail[j + 1])
    {
    }
  }

  /** A run from scratch skips nothing as already completed, and a run that completes no stage leaves the store alone. */
  lemma AccountMeans(stages: seq<Stage>, known: Option<Checkpoint>, documentId: string, given: Shared,
      before: Option<Checkpoint>, results: seq<StageResult>, causes: seq<seq<nat>>, trail: seq<Shared>,
      after: Option<Checkpoint>)
    requires Account(stages, known, documentId, given, before, results, causes, trail, after)
    ensures |trail| == |results| + 1 && trail[0] == if known.Some? then given + known.value.shared else given
    ensures known.None? ==> forall j :: 0 <= j < |results| ==> results[j].status != AlreadyCompleted
    ensures NoneCompleted(results) ==> after == before
  {
  }

  lemma SameMap(a: map<string, Checkpoint>, b: map<string, Checkpoint>, p: string)
    requires a - {p} == b - {p} && (p in a <==> p in b) && (p in a ==> a[p] == b[p])
    ensures a == b
  {
    forall x | x in a || x in b ensures x in a && x in b && a[x] == b[x] {
      if x != p {
        assert x in a <==> x in a - {p};
        assert x in b <==> x in b - {p};
      }
    }
  }

  /** A complete run of harmless stages applies the effects of the stages it executes, one after the other. */
  lemma {:induction false} TrailEffects(stages: seq<Stage>, done: seq<Id>, results: seq<StageResult>, causes: seq<seq<nat>>,
      trail: seq<Shared>)
    requires Journey(stages, results, causes, trail) && ResultsFit(stages, ToSet(done), results)
    requires AllHarmless(stages) && |results| == |stages| && !EndsInFailure(results)
    ensures trail[|stages|] == Effects(stages, done, trail[0])
  {
    hide Dirty, RetryPolicy.Limit, Harmless, Leg;
    for i := |stages| downto 0
      invariant trail[|stages|] == Effects(stages[i..], done, trail[i])
    {
      var st, r := stages[i], results[i];
      assert stages[i..][0] == st && stages[i..][1..] == stages[i + 1..];
      assert Leg(st, r, causes[i], trail[i], trail[i + 1]) && ResultFits(st, ToSet(done), r);
      assert r.status != FailedStage;
      LegEffect(st, r, causes[i], done, trail[i], trail[i + 1]);
    }
    assert stages[0..] == stages;
  }

  lemma LegEffect(st: Stage, r: StageResult, causes: seq<nat>, done: seq<Id>, before: Shared, after: Shared)
    requires Leg(st, r, causes, before, after) && ResultFits(st, ToSet(done), r) && r.status != FailedStage && Harmless(st)
    ensures after == if st.id in done || !st.enabled then before else st.effect(before)
  {
    hide Dirty, Harmless;
    if r.status == Completed {
      RetriesChangeNothing(st, causes, before);
    }
  }

  /** After `i` stages the executor is where `Advance` says, provided all stages are harmless. */
  ghost predicate OnCourse(stages: seq<Stage>, done: set<Id>, start: Progress, saved: Option<Checkpoint>, i: nat,
      checkpoint: Checkpoint, shared: Shared, stored: Option<Checkpoint>)
  {
    i <= |stages| && (AllHarmless(stages) ==>
      var p := Advance(stages, done, start, i);
      checkpoint == p.checkpoint && shared == p.shared && stored == if p.ran then Some(checkpoint) else saved)
  }

  lemma OnCourseSkip(stages: seq<Stage>, done: set<Id>, start: Progress, saved: Option<Checkpoint>, i: nat,
      checkpoint: Checkpoint, shared: Shared, stored: Option<Checkpoint>)
    requires i < |stages| && (stages[i].id in done || !stages[i].enabled)
    requires OnCourse(stages, done, start, saved, i, checkpoint, shared, stored)
    ensures OnCourse(stages, done, start, saved, i + 1, checkpoint, shared, stored)
  {
  }

  lemma OnCourseRun(stages: seq<Stage>, done: set<Id>, start: Progress, saved: Option<Checkpoint>, i: nat,
      checkpoint: Checkpoint, shared: Shared, stored: Option<Checkpoint>, causes: seq<nat>)
    requires i < |stages| && stages[i].id !in done && stages[i].enabled && |causes| < stages[i].policy.Limit()
    requires OnCourse(stages, done, start, saved, i, checkpoint, shared, stored)
    ensures
      var st := stages[i];
      var shared' := st.effect(Dirty(st, causes, shared));
      var checkpoint' := checkpoint.WithStage(st.id, shared');
      OnCourse(stages, done, start, saved, i + 1, checkpoint', shared', Some(checkpoint'))
  {
    if AllHarmless(stages) {
      RetriesChangeNothing(stages[i], causes, shared);
    }
  }

  /** What being on course means for the run as a whole. */
  lemma CourseMeans(stages: seq<Stage>, blank: Checkpoint, shared: Shared, saved: Option<Checkpoint>, resume: bool, i: nat,
      checkpoint: Checkpoint, reached: Shared, stored: Option<Checkpoint>)
    requires
      var start := StartOf(blank, shared, saved, resume);
      OnCourse(stages, ToSet(start.checkpoint.completed), start, saved, i, checkpoint, reached, stored)
    ensures i <= |stages|
    ensures AllHarmless(stages) ==>
      && stored == RunOnce(stages, blank, shared, saved, RunStep(resume, i))
      && reached == RunEnd(stages, blank, shared, saved, RunStep(resume, i)).shared
  {
  }

  lemma CourseStart(stages: seq<Stage>, done: set<Id>, start: Progress, saved: Option<Checkpoint>)
    requires !start.ran
    ensures OnCourse(stages, done, start, saved, 0, start.checkpoint, start.shared, saved)
  {
  }

  function Imbalance(metrics: seq<StageMetrics>): int {
    TotalFailures(metrics) - TotalRetries(metrics)
  }

  lemma CountImbalance(metrics: seq<StageMetrics>, id: Id, failures: nat, retries: nat)
    ensures Imbalance(Count(metrics, id, failures, retries)) == Imbalance(metrics) + failures - retries
  {
    CountTotals(metrics, id, failures, retries);
  }

  /** A stage of a pipeline in dependency order gets a result only after each of its dependencies
      has a completed or skipped one. */
  lemma DependenciesHaveResults(reg: Registry, order: seq<Id>, done: set<Id>, results: seq<StageResult>, i: nat, d: Id)
    requires reg.WellFormed() && reg.Dependencies().Complete()
    requires DependenciesFirst(reg.Dependencies().Graph(), reg.stages.Keys, order)
    requires ResultsFit(reg.Resolve(order), done, results) && i < |results|
    requires results[i].stageId in reg.stages && d in reg.stages[results[i].stageId].dependencies
    ensures exists j :: 0 <= j < i && results[j].stageId == d && results[j].status != FailedStage
  {
    ResolveAll(reg, order);
    var g := reg.Dependencies().Graph();
    assert order[i] == results[i].stageId;
    assert d in Succ(g, order[i]);
    assert d in order;
    var j :| 0 <= j < |order| && order[j] == d;
    assert j < i;
    assert results[j].stageId == order[j];
  }

  lemma {:induction false} ResolveAll(reg: Registry, order: seq<Id>)
    requires reg.WellFormed() && forall x :: x in order ==> x in reg.stages
    ensures |reg.Resolve(order)| == |order|
    ensures forall i :: 0 <= i < |order| ==> order[i] in reg.stages && reg.Resolve(order)[i] == reg.stages[order[i]]
  {
    if order != [] {
      ResolveAll(reg, order[1..]);
      forall i | 0 <= i < |order|
        ensures order[i] in reg.stages && reg.Resolve(order)[i] == reg.stages[order[i]]
      {
        if i > 0 {
          assert order[1..][i - 1] == order[i];
        }
      }
    }
  }

  class PipelineExecutor {
    const checkpoints: CheckpointStore
    var slept: seq<real>

    constructor (store: CheckpointStore)
      ensures checkpoints == store && slept == []
    {
      checkpoints := store;
      slept := [];
    }

    /** One stage with its retries. */
    method RunStage(st: Stage, context: PipelineContext) returns (r: StageResult, ghost causes: seq<nat>)
      modifies this`slept, context`shared, context`metrics
      ensures r.stageId == st.id && r.status in {Completed, FailedStage}
      ensures
        var most := if st.policy.strategy == Never || st.policy.maxAttempts < 1 then 1 else st.policy.maxAttempts;
        1 <= r.attempts <= most && (r.status == FailedStage ==> r.attempts == most)
      ensures r.status == Completed ==> |causes| == r.attempts - 1
                                        && context.shared == st.effect(Dirty(st, causes, old(context.shared)))
      ensures r.status == FailedStage ==> |causes| == r.attempts
                                          && context.shared == Dirty(st, causes, old(context.shared))
      ensures context.metrics == Count(old(context.metrics), st.id, |causes|, r.attempts - 1)
      ensures slept == old(slept) + st.policy.Sleeps(r.attempts)
    {
      hide Count, RetryPolicy.DelayFor;
      context.metrics := Count(context.metrics, st.id, 0, 0);
      var attempt := 0;
      causes := [];
      while true
        invariant 0 <= attempt == |causes|
        invariant attempt < st.policy.Limit()
        invariant context.shared == Dirty(st, causes, old(context.shared))
        invariant context.metrics == Count(old(context.metrics), st.id, attempt, attempt)
        invariant slept == old(slept) + st.policy.Sleeps(attempt + 1)
        decreases st.policy.Limit() - attempt
      {
        attempt := attempt + 1;
        var success: bool := *;
        if success {
          context.shared := st.effect(context.shared);
          return StageResult(st.id, Completed, attempt), causes;
        }
        var cause: nat := *;
        context.shared := st.partial(cause, context.shared);
        assert (causes + [cause])[..attempt - 1] == causes;
        causes := causes + [cause];
        CountTwice(old(context.metrics), st.id, attempt - 1, attempt - 1, 1, 0);
        context.metrics := Count(context.metrics, st.id, 1, 0);
        if !st.policy.ShouldRetry(attempt) {
          return StageResult(st.id, FailedStage, attempt), causes;
        }
        CountTwice(old(context.metrics), st.id, attempt, attempt - 1, 0, 1);
        context.metrics := Count(context.metrics, st.id, 0, 1);
        var delay := st.policy.DelayFor(attempt + 1);
        if delay > 0.0 {
          slept := slept + [delay];
        }
      }
    }

    /** The stage loop. */
    method RunStages(stages: seq<Stage>, context: PipelineContext, checkpoint0: Checkpoint, done: set<Id>,
        ghost start: Progress, ghost saved: Option<Checkpoint>)
      returns (results: seq<StageResult>, completed: bool, ghost last: Checkpoint, ghost causes: seq<seq<nat>>,
        ghost trail: seq<Shared>)
      requires checkpoints.Valid() && checkpoint0.pipelineId == context.pipelineId
      requires OnCourse(stages, done, start, saved, 0, checkpoint0, context.shared, checkpoints.Restore(context.pipelineId))
      requires forall x :: x in checkpoint0.completed ==> x in done
      modifies this`slept, context`shared, context`metrics, context`cancelled, checkpoints
      ensures checkpoints.Valid() && ResultsFit(stages, done, results)
      ensures completed <==> |results| == |stages| && !EndsInFailure(results)
      ensures !completed && !EndsInFailure(results) ==> context.cancelled
      ensures Journey(stages, results, causes, trail) && trail[0] == old(context.shared) && trail[|results|] == context.shared
      ensures Keeps(checkpoint0, old(checkpoints.Restore(context.pipelineId)), results, trail, last,
                    checkpoints.Restore(context.pipelineId))
      ensures OnCourse(stages, done, start, saved, Handled(results), last, trail[Handled(results)],
                       checkpoints.Restore(context.pipelineId))
      ensures checkpoints.saved - {context.pipelineId} == old(checkpoints.saved) - {context.pipelineId}
      ensures old(context.cancelled) ==>
        context.cancelled && forall j :: 0 <= j < |results| ==> results[j].status == AlreadyCompleted
      ensures Imbalance(context.metrics) == old(Imbalance(context.metrics)) + if EndsInFailure(results) then 1 else 0
    {
      hide OnCourse, ResultsFit, EndsInFailure, Imbalance, Count, Keeps, Leg;
      results, causes, trail := [], [], [context.shared];
      KeepsStart(checkpoint0, checkpoints.Restore(context.pipelineId), context.shared);
      NoResults(stages, done);
      var checkpoint := checkpoint0;
      for i := 0 to |stages|
        invariant |results| == i && ResultsFit(stages, done, results) && !EndsInFailure(results)
        invariant checkpoints.Valid() && checkpoint.pipelineId == context.pipelineId
        invariant Journey(stages, results, causes, trail) && trail[0] == old(context.shared) && trail[i] == context.shared
        invariant Keeps(checkpoint0, old(checkpoints.Restore(context.pipelineId)), results, trail, checkpoint,
                        checkpoints.Restore(context.pipelineId))
        invariant OnCourse(stages, done, start, saved, i, checkpoint, context.shared, checkpoints.Restore(context.pipelineId))
        invariant checkpoints.saved - {context.pipelineId} == old(checkpoints.saved) - {context.pipelineId}
        invariant old(context.cancelled) ==>
          context.cancelled && forall j :: 0 <= j < |results| ==> results[j].status == AlreadyCompleted
        invariant Imbalance(context.metrics) == old(Imbalance(context.metrics))
      {
        var st := stages[i];
        ghost var before, stored := old(checkpoints.Restore(context.pipelineId)), checkpoints.Restore(context.pipelineId);
        if st.id in done {
          ResultsAppend(stages, done, results, StageResult(st.id, AlreadyCompleted, 1));
          OnCourseSkip(stages, done, start, saved, i, checkpoint, context.shared, stored);
          SkipAppend(stages, checkpoint0, before, results, causes, trail, checkpoint, stored, StageResult(st.id, AlreadyCompleted, 1));
          results, causes, trail := results + [StageResult(st.id, AlreadyCompleted, 1)], causes + [[]], trail + [context.shared];
          continue;
        }
        if !context.cancelled {
          context.cancelled := *;
        }
        if context.cancelled {
          return results, false, checkpoint, causes, trail;
        }
        if !st.enabled {
          ResultsAppend(stages, done, results, StageResult(st.id, Disabled, 1));
          OnCourseSkip(stages, done, start, saved, i, checkpoint, context.shared, stored);
          SkipAppend(stages, checkpoint0, before, results, causes, trail, checkpoint, stored, StageResult(st.id, Disabled, 1));
          results, causes, trail := results + [StageResult(st.id, Disabled, 1)], causes + [[]], trail + [context.shared];
          continue;
        }
        ghost var metrics, given := context.metrics, context.shared;
        ghost var cause;
        var result;
        result, cause := RunStage(st, context);
        CountImbalance(metrics, st.id, |cause|, result.attempts - 1);
        ResultsAppend(stages, done, results, result);
        if result.status == FailedStage {
          context.shared := st.rollback(context.shared);
          LegAppend(stages, results, causes, trail, result, cause, context.shared);
          KeepsSkip(checkpoint0, before, results, trail, checkpoint, stored, result, context.shared);
          results, causes, trail := results + [result], causes + [cause], trail + [context.shared];
          return results, false, checkpoint, causes, trail;
        }
        LegAppend(stages, results, causes, trail, result, cause, context.shared);
        KeepsRun(checkpoint0, before, results, trail, checkpoint, stored, result, context.shared);
        results, causes, trail := results + [result], causes + [cause], trail + [context.shared];
        OnCourseRun(stages, done, start, saved, i, checkpoint, given, stored, cause);
        checkpoint := checkpoint.WithStage(st.id, context.shared);
        checkpoints.Save(checkpoint);
      }
      completed, last := true, checkpoint;
    }

    /** One run. Without `resume` the store plays no part in it: no stage counts as already completed, and the shared
        dictionary is carried from stage to stage starting with that of the context. A resumed run starts with the
        stored dictionary merged over it and skips exactly the stages stored as completed. */
    method Execute(reg: Registry, order: seq<Id>, context: PipelineContext, resume: bool)
      returns (r: RunOutcome, ghost causes: seq<seq<nat>>, ghost trail: seq<Shared>)
      requires reg.WellFormed() && checkpoints.Valid()
      modifies this`slept, context`shared, context`metrics, context`cancelled, checkpoints
      ensures checkpoints.Valid()
      ensures r.Rejected? <==> !(reg.Dependencies().Complete() && Acyclic(reg.Dependencies().Graph()))
      ensures r.Rejected? ==> context.shared == old(context.shared) && checkpoints.saved == old(checkpoints.saved)
      ensures r.Ran? ==>
        var saved := old(checkpoints.Restore(context.pipelineId));
        && Account(reg.Resolve(order), if resume then saved else None, context.documentId, old(context.shared), saved,
                   r.results, causes, trail, checkpoints.Restore(context.pipelineId))
        && |trail| == |r.results| + 1 && trail[|r.results|] == context.shared
      ensures r.Ran? ==>
        && (r.completed <==> |r.results| == |reg.Resolve(order)| && !EndsInFailure(r.results))
        && (!r.completed && !EndsInFailure(r.results) ==> context.cancelled)
      ensures r.Ran? && !resume ==> forall j :: 0 <= j < |r.results| ==> r.results[j].status != AlreadyCompleted
      ensures r.Ran? && r.completed && AllHarmless(reg.Resolve(order)) ==>
        && (!resume ==> context.shared == Effects(reg.Resolve(order), [], old(context.shared)))
        && (resume && context.pipelineId in old(checkpoints.saved) ==>
              var c := old(checkpoints.saved[context.pipelineId]);
              context.shared == Effects(reg.Resolve(order), c.completed, old(context.shared) + c.shared))
      ensures r.Ran? && NoneCompleted(r.results) ==> checkpoints.saved == old(checkpoints.saved)
      ensures r.Ran? ==>
        var start := StartOf(Blank(context.pipelineId, context.documentId), old(context.shared),
                             old(checkpoints.Restore(context.pipelineId)), resume);
        ResultsFit(reg.Resolve(order), ToSet(start.checkpoint.completed), r.results)
      ensures r.Ran? && AllHarmless(reg.Resolve(order)) ==>
        var stages := reg.Resolve(order);
        var blank := Blank(context.pipelineId, context.documentId);
        var saved := old(checkpoints.Restore(context.pipelineId));
        var step := RunStep(resume, Handled(r.results));
        && step.handled <= |stages|
        && checkpoints.Restore(context.pipelineId) == RunOnce(stages, blank, old(context.shared), saved, step)
        && (r.completed ==> context.shared == RunEnd(stages, blank, old(context.shared), saved, step).shared)
      ensures checkpoints.saved - {context.pipelineId} == old(checkpoints.saved) - {context.pipelineId}
      ensures old(context.cancelled) && r.Ran? ==> forall j :: 0 <= j < |r.results| ==> r.results[j].status == AlreadyCompleted
      ensures Imbalance(context.metrics)
              == old(Imbalance(context.metrics)) + if r.Ran? && EndsInFailure(r.results) then 1 else 0
    {
      hide ResultsFit, EndsInFailure, Imbalance, OnCourse, RunOnce, RunEnd, AllHarmless, ToSet, Journey, Keeps,
           NoneCompleted, Effects, Account;
      var sorted := TopologicalOrder(reg.Dependencies());
      if sorted.Failed? {
        return Rejected(sorted.why), [], [];
      }
      var stages := reg.Resolve(order);
      var saved := checkpoints.Restore(context.pipelineId);
      var checkpoint := Blank(context.pipelineId, context.documentId);
      ghost var start := StartOf(checkpoint, context.shared, saved, resume);
      if resume && saved.Some? {
        context.shared := context.shared + saved.value.shared;
        checkpoint := saved.value;
      }
      CourseStart(stages, ToSet(checkpoint.completed), start, saved);
      InSet(checkpoint.completed);
      ghost var blank := Blank(context.pipelineId, context.documentId);
      ghost var last;
      var results, completed;
      results, completed, last, causes, trail :=
        RunStages(stages, context, checkpoint, ToSet(checkpoint.completed), start, saved);
      ghost var stored, given := checkpoints.Restore(context.pipelineId), old(context.shared);
      ghost var known := if resume then saved else None;
      TrailFits(stages, results, causes, trail);
      CourseMeans(stages, blank, given, saved, resume, Handled(results), last, trail[Handled(results)], stored);
      AccountHolds(stages, known, blank, given, saved, results, causes, trail, checkpoint, last, stored);
      AccountMeans(stages, known, blank.documentId, given, saved, results, causes, trail, stored);
      if NoneCompleted(results) {
        SameMap(old(checkpoints.saved), checkpoints.saved, context.pipelineId);
      }
      if completed && AllHarmless(stages) {
        TrailEffects(stages, checkpoint.completed, results, causes, trail);
      }
      return Ran(results, completed), causes, trail;
    }

    /** A chain of runs of one pipeline, each with a context of its own, from an empty checkpoint store: the
        store follows `RunChain`, and with distinct stages every complete run, whatever was interrupted before
        it, ends with the shared dictionary of one uninterrupted run. */
    method ExecuteAll(reg: Registry, order: seq<Id>, contexts: seq<PipelineContext>, resumes: seq<bool>,
        ghost blank: Checkpoint)
      returns (outcomes: seq<RunOutcome>, ghost steps: seq<RunStep>)
      requires reg.WellFormed() && checkpoints.Valid() && AllHarmless(reg.Resolve(order))
      requires |contexts| == |resumes| && forall i, j :: 0 <= i < j < |contexts| ==> contexts[i] != contexts[j]
      requires blank == Blank(blank.pipelineId, blank.documentId) && blank.pipelineId !in checkpoints.saved
      requires forall c :: c in contexts ==> Starts(c, blank)
      modifies this`slept, contexts, checkpoints
      ensures checkpoints.Valid() && |outcomes| == |contexts| && |steps| <= |contexts|
      ensures StepsFit(reg.Resolve(order), steps)
      ensures checkpoints.Restore(blank.pipelineId) == RunChain(reg.Resolve(order), blank, map[], steps)
      ensures Accepted(reg) ==> |steps| == |contexts| && forall i :: 0 <= i < |contexts| ==>
        outcomes[i].Ran? && steps[i] == RunStep(resumes[i], Handled(outcomes[i].results))
      ensures !Accepted(reg) ==> steps == [] && forall i :: 0 <= i < |contexts| ==> outcomes[i].Rejected?
      ensures DistinctIds(reg.Resolve(order)) ==> forall i :: 0 <= i < |contexts| && Finished(outcomes[i]) ==>
        contexts[i].shared == Effects(reg.Resolve(order), [], map[])
    {
      hide ResultsFit, EndsInFailure, Imbalance, RunChain, RunOnce, RunEnd, Straight, AllHarmless, Accepted, Account,
           NoneCompleted, Effects, EnabledIds, StartOf;
      outcomes, steps := [], [];
      ghost var stages := reg.Resolve(order);
      NoRuns(stages, blank);
      for i := 0 to |contexts|
        invariant checkpoints.Valid() && |outcomes| == i && |steps| <= i && StepsFit(stages, steps)
        invariant checkpoints.Restore(blank.pipelineId) == RunChain(stages, blank, map[], steps)
        invariant forall j :: i <= j < |contexts| ==> Starts(contexts[j], blank)
        invariant Accepted(reg) ==> |steps| == i && forall j :: 0 <= j < i ==>
          outcomes[j].Ran? && steps[j] == RunStep(resumes[j], Handled(outcomes[j].results))
        invariant !Accepted(reg) ==> steps == [] && forall j :: 0 <= j < i ==> outcomes[j].Rejected?
        invariant DistinctIds(stages) ==> forall j :: 0 <= j < i && Finished(outcomes[j]) ==>
          contexts[j].shared == Effects(stages, [], map[])
      {
        assert contexts[i] in contexts && Starts(contexts[i], blank);
        AcceptedMeans(reg);
        ghost var causes, trail;
        var r;
        r, causes, trail := Execute(reg, order, contexts[i], resumes[i]);
        if r.Ran? {
          ghost var step := RunStep(resumes[i], Handled(r.results));
          OneMoreRun(stages, blank, steps, step);
          if r.completed && DistinctIds(stages) {
            EmptyContextKept(stages, blank);
            InterruptedEqualsUninterrupted(stages, blank, map[], steps, step);
          }
          steps := steps + [step];
        }
        outcomes := outcomes + [r];
      }
    }
  }

  /** A context as a run receives it: of the same pipeline and document, with nothing shared yet. */
  ghost predicate Starts(c: PipelineContext, blank: Checkpoint)
    reads c
  {
    c.pipelineId == blank.pipelineId && c.documentId == blank.documentId && c.shared == map[]
  }

  ghost predicate Accepted(reg: Registry) {
    reg.Dependencies().Complete() && Acyclic(reg.Dependencies().Graph())
  }

  predicate Finished(r: RunOutcome) {
    r.Ran? && r.completed
  }

  lemma AcceptedMeans(reg: Registry)
    ensures Accepted(reg) <==> reg.Dependencies().Complete() && Acyclic(reg.Dependencies().Graph())
  {
  }

  lemma NoRuns(stages: seq<Stage>, blank: Checkpoint)
    ensures StepsFit(stages, []) && RunChain(stages, blank, map[], []) == None
  {
  }

  lemma OneMoreRun(stages: seq<Stage>, blank: Checkpoint, steps: seq<RunStep>, step: RunStep)
    requires StepsFit(stages, steps) && step.handled <= |stages|
    ensures StepsFit(stages, steps + [step])
    ensures RunChain(stages, blank, map[], steps + [step])
            == RunOnce(stages, blank, map[], RunChain(stages, blank, map[], steps), step)
  {
    assert (steps + [step])[..|steps|] == steps;
  }

}
