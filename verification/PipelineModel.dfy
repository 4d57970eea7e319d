/** What a pipeline run means, step by step: stages over the shared dictionary, checkpoints
    (backend/lexmind/pipeline/pipeline_checkpoint.py), metrics
    (backend/lexmind/pipeline/pipeline_statistics.py) and chains of interrupted runs. */
module PipelineModel {
  import opened Collections
  import opened Digraph
  import opened Dependencies
  import opened PipelineRetry

  type Shared = map<string, string>

  /** `effect` is what a successful attempt does to the shared dictionary; `partial(n, s)` is what
      a failed attempt leaves behind, where `n` stands for whatever made it fail. */
  datatype Stage = Stage(
    id: Id,
    enabled: bool,
    dependencies: seq<Id>,
    policy: RetryPolicy,
    effect: Shared -> Shared,
    partial: (nat, Shared) -> Shared,
    rollback: Shared -> Shared)

  ghost predicate DistinctIds(stages: seq<Stage>) {
    forall i, j :: 0 <= i < j < |stages| ==> stages[i].id != stages[j].id
  }

  datatype Registry = Registry(ids: seq<Id>, stages: map<Id, Stage>) {
    ghost predicate WellFormed() {
      NoDup(ids) && (forall x :: x in ids <==> x in stages) && (forall x :: x in stages ==> stages[x].id == x)
    }

    function Dependencies(): Table {
      Table(ids, map x | x in stages :: stages[x].dependencies)
    }

    /** `Pipeline.stages()`: the registered stages of the order, unregistered ids skipped. */
    function Resolve(order: seq<Id>): seq<Stage> {
      if order == [] then []
      else (if order[0] in stages then [stages[order[0]]] else []) + Resolve(order[1..])
    }
  }

  /** Resolving keeps the order and leaves out exactly the ids that are not registered. */
  lemma {:induction false} ResolveAppend(reg: Registry, order: seq<Id>, x: Id)
    ensures reg.Resolve([]) == []
    ensures reg.Resolve(order + [x]) == reg.Resolve(order) + if x in reg.stages then [reg.stages[x]] else []
    decreases |order|
  {
    if order == [] {
      assert ([x])[1..] == [];
    } else {
      assert (order + [x])[1..] == order[1..] + [x];
      ResolveAppend(reg, order[1..], x);
    }
  }

  /** Retried stages */

  /** What a stage sees after failed attempts, in the order of their causes. */
  function Dirty(st: Stage, causes: seq<nat>, s: Shared): Shared {
    if causes == [] then s else st.partial(causes[|causes| - 1], Dirty(st, causes[..|causes| - 1], s))
  }

  /** Each failed attempt starts from what the one before it left behind. */
  lemma {:induction false} DirtyIs(st: Stage, causes: seq<nat>, states: seq<Shared>)
    requires |states| == |causes| + 1 && forall i :: 0 <= i < |causes| ==> states[i + 1] == st.partial(causes[i], states[i])
    ensures Dirty(st, causes, states[0]) == states[|causes|]
    decreases |causes|
  {
    if causes != [] {
      DirtyIs(st, causes[..|causes| - 1], states[..|causes|]);
    }
  }

  ghost predicate RetrySafe(st: Stage) {
    forall n: nat, s :: st.effect(st.partial(n, s)) == st.effect(s)
  }

  /** Failed attempts cannot show in what a stage computes: it is attempted only once, or no failed attempt
      changes what the next one computes. */
  ghost predicate Harmless(st: Stage) {
    st.policy.Limit() == 1 || RetrySafe(st)
  }

  ghost predicate AllHarmless(stages: seq<Stage>) {
    forall i :: 0 <= i < |stages| ==> Harmless(stages[i])
  }

  /** The stage computes after these failed attempts what it computes without them. */
  ghost predicate RetriesHidden(st: Stage, causes: seq<nat>, s: Shared) {
    st.effect(Dirty(st, causes, s)) == st.effect(s)
  }

  lemma {:induction false} RetriesChangeNothing(st: Stage, causes: seq<nat>, s: Shared)
    requires Harmless(st) && |causes| < st.policy.Limit()
    ensures RetriesHidden(st, causes, s)
    decreases |causes|
  {
    if causes != [] {
      RetriesChangeNothing(st, causes[..|causes| - 1], s);
    }
  }

  /** A stage gives the result of its successful attempt alone, however its earlier attempts failed, exactly when
      it is harmless: fewer attempts fail before a success than the policy allows in all. */
  lemma HarmlessExact(st: Stage)
    ensures Harmless(st) <==> forall causes: seq<nat>, s :: |causes| < st.policy.Limit() ==> RetriesHidden(st, causes, s)
  {
    if Harmless(st) {
      forall causes: seq<nat>, s | |causes| < st.policy.Limit() ensures RetriesHidden(st, causes, s) {
        RetriesChangeNothing(st, causes, s);
      }
    } else {
      var n: nat, s :| st.effect(st.partial(n, s)) != st.effect(s);
      assert [n][..0] == [];
      assert Dirty(st, [n], s) == st.partial(n, s);
      assert !RetriesHidden(st, [n], s);
    }
  }

  /** Checkpoints */

  datatype Checkpoint = Checkpoint(pipelineId: string, documentId: string, completed: seq<Id>, last: Option<Id>,
      shared: Shared) {
    function WithStage(id: Id, shared: Shared): Checkpoint {
      Checkpoint(pipelineId, documentId, if id in completed then completed else completed + [id], Some(id), shared)
    }
  }

  datatype Progress = Progress(checkpoint: Checkpoint, shared: Shared, ran: bool)

  /** Handling the first `k` stages, where the stages in `done` were completed by an earlier run. */
  function Advance(stages: seq<Stage>, done: set<Id>, start: Progress, k: nat): Progress
    requires k <= |stages|
  {
    if k == 0 then start
    else
      var p := Advance(stages, done, start, k - 1);
      var st := stages[k - 1];
      if st.id in done || !st.enabled then p
      else Progress(p.checkpoint.WithStage(st.id, st.effect(p.shared)), st.effect(p.shared), true)
  }

  function Blank(pipelineId: string, documentId: string): Checkpoint {
    Checkpoint(pipelineId, documentId, [], None, map[])
  }

  function ToSet(s: seq<Id>): set<Id> {
    set x | x in s
  }

  /** The effects of the enabled stages, one after the other, those in `done` left out. */
  function Effects(stages: seq<Stage>, done: seq<Id>, s: Shared): Shared {
    if stages == [] then s
    else Effects(stages[1..], done, if stages[0].id in done || !stages[0].enabled then s else stages[0].effect(s))
  }

  function EnabledIds(stages: seq<Stage>): seq<Id> {
    if stages == [] then [] else (if stages[0].enabled then [stages[0].id] else []) + EnabledIds(stages[1..])
  }

  lemma {:induction false} EffectsSnoc(stages: seq<Stage>, st: Stage, done: seq<Id>, s: Shared)
    ensures
      var before := Effects(stages, done, s);
      Effects(stages + [st], done, s) == if st.id in done || !st.enabled then before else st.effect(before)
    decreases |stages|
  {
    var all := stages + [st];
    if stages == [] {
      assert all[1..] == [];
    } else {
      assert all[1..] == stages[1..] + [st];
      EffectsSnoc(stages[1..], st, done, if stages[0].id in done || !stages[0].enabled then s else stages[0].effect(s));
    }
  }

  lemma {:induction false} EnabledIdsSnoc(stages: seq<Stage>, st: Stage)
    ensures EnabledIds(stages + [st]) == EnabledIds(stages) + if st.enabled then [st.id] else []
    decreases |stages|
  {
    var all := stages + [st];
    if stages == [] {
      assert all[1..] == [];
    } else {
      assert all[1..] == stages[1..] + [st];
      EnabledIdsSnoc(stages[1..], st);
    }
  }

  /** Where a run starts: from scratch, or from the stored checkpoint merged over the context. */
  function StartOf(blank: Checkpoint, shared: Shared, saved: Option<Checkpoint>, resume: bool): Progress {
    if resume && saved.Some?
    then Progress(saved.value, shared + saved.value.shared, false)
    else Progress(blank, shared, false)
  }

  /** One call of `execute` that handles `handled` stages before it completes, fails or is cancelled. */
  datatype RunStep = RunStep(resume: bool, handled: nat)

  function RunEnd(stages: seq<Stage>, blank: Checkpoint, shared: Shared, saved: Option<Checkpoint>,
      step: RunStep): Progress
    requires step.handled <= |stages|
  {
    var start := StartOf(blank, shared, saved, step.resume);
    Advance(stages, ToSet(start.checkpoint.completed), start, step.handled)
  }

  /** The stored checkpoint after that call: the last one saved, if the call completed any stage. */
  function RunOnce(stages: seq<Stage>, blank: Checkpoint, shared: Shared, saved: Option<Checkpoint>,
      step: RunStep): Option<Checkpoint>
    requires step.handled <= |stages|
  {
    var end := RunEnd(stages, blank, shared, saved, step);
    if end.ran then Some(end.checkpoint) else saved
  }

  /** Chains of runs */

  ghost predicate StepsFit(stages: seq<Stage>, steps: seq<RunStep>) {
    forall i :: 0 <= i < |steps| ==> steps[i].handled <= |stages|
  }

  function RunChain(stages: seq<Stage>, blank: Checkpoint, shared: Shared, steps: seq<RunStep>): Option<Checkpoint>
    requires StepsFit(stages, steps)
  {
    if steps == [] then None
    else
      var n := |steps| - 1;
      assert StepsFit(stages, steps[..n]);
      RunOnce(stages, blank, shared, RunChain(stages, blank, shared, steps[..n]), steps[n])
  }

  /** One uninterrupted run, stopped after `k` stages. */
  function Straight(stages: seq<Stage>, blank: Checkpoint, shared: Shared, k: nat): Progress
    requires k <= |stages|
  {
    Advance(stages, {}, Progress(blank, shared, false), k)
  }

  /** No stage takes away a key that the context of every run starts with. The empty context always qualifies. */
  ghost predicate KeepsContext(stages: seq<Stage>, blank: Checkpoint, shared: Shared) {
    forall k :: 0 <= k <= |stages| ==> shared.Keys <= Straight(stages, blank, shared, k).shared.Keys
  }

  ghost predicate IsBlank(c: Checkpoint) {
    c.completed == [] && c.last == None
  }

  /** Which ids an uninterrupted run has completed: those of the enabled stages handled. */
  lemma {:induction false} StraightCompleted(stages: seq<Stage>, blank: Checkpoint, shared: Shared, k: nat)
    requires IsBlank(blank) && k <= |stages|
    ensures forall x :: x in Straight(stages, blank, shared, k).checkpoint.completed <==>
      exists i :: 0 <= i < k && stages[i].enabled && stages[i].id == x
    decreases k
  {
    if k > 0 {
      StraightCompleted(stages, blank, shared, k - 1);
    }
  }

  /** An uninterrupted run applies the effects of the enabled stages in their order and, when no id is repeated,
      lists their ids in that order. */
  lemma {:induction false} StraightIs(stages: seq<Stage>, blank: Checkpoint, shared: Shared, k: nat)
    requires IsBlank(blank) && k <= |stages|
    ensures Straight(stages, blank, shared, k).shared == Effects(stages[..k], [], shared)
    ensures DistinctIds(stages) ==> Straight(stages, blank, shared, k).checkpoint.completed == EnabledIds(stages[..k])
    decreases k
  {
    if k > 0 {
      var before := stages[..k - 1];
      assert stages[..k] == before + [stages[k - 1]];
      StraightIs(stages, blank, shared, k - 1);
      EffectsSnoc(before, stages[k - 1], [], shared);
      EnabledIdsSnoc(before, stages[k - 1]);
      StraightCompleted(stages, blank, shared, k - 1);
      hide Effects, EnabledIds;
    }
  }

  lemma {:induction false} StraightShared(stages: seq<Stage>, blank: Checkpoint, shared: Shared, k: nat)
    requires k <= |stages|
    ensures var p := Straight(stages, blank, shared, k); p.ran ==> p.checkpoint.shared == p.shared
    ensures var p := Straight(stages, blank, shared, k); !p.ran ==> p == Progress(blank, shared, false)
    decreases k
  {
    if k > 0 {
      StraightShared(stages, blank, shared, k - 1);
    }
  }

  /** Resuming from the checkpoint of a straight run replays nothing and then goes straight on. */
  lemma {:induction false} ResumeContinues(stages: seq<Stage>, blank: Checkpoint, shared: Shared, j: nat, k: nat)
    requires DistinctIds(stages) && IsBlank(blank) && KeepsContext(stages, blank, shared)
    requires j <= |stages| && k <= |stages| && Straight(stages, blank, shared, j).ran
    ensures
      var c := Straight(stages, blank, shared, j).checkpoint;
      var end := RunEnd(stages, blank, shared, Some(c), RunStep(true, k));
      var there := Straight(stages, blank, shared, if k < j then j else k);
      end.checkpoint == there.checkpoint && end.shared == there.shared
    decreases k
  {
    var p := Straight(stages, blank, shared, j);
    StraightShared(stages, blank, shared, j);
    StraightCompleted(stages, blank, shared, j);
    if k == 0 {
      assert shared + p.shared == p.shared;
    } else {
      ResumeContinues(stages, blank, shared, j, k - 1);
      assert stages[k - 1].id in p.checkpoint.completed <==> k - 1 < j && stages[k - 1].enabled;
    }
  }

  /** The stored checkpoint is one that the uninterrupted run would have saved. */
  ghost predicate OnTrack(stages: seq<Stage>, blank: Checkpoint, shared: Shared, saved: Option<Checkpoint>) {
    saved.Some? ==> exists j :: 0 <= j <= |stages| && Straight(stages, blank, shared, j).ran
                                && saved.value == Straight(stages, blank, shared, j).checkpoint
  }

  lemma StraightNext(stages: seq<Stage>, blank: Checkpoint, shared: Shared, k: nat)
    requires k < |stages|
    ensures
      var p, st := Straight(stages, blank, shared, k), stages[k];
      Straight(stages, blank, shared, k + 1) ==
        if st.enabled then Progress(p.checkpoint.WithStage(st.id, st.effect(p.shared)), st.effect(p.shared), true) else p
  {
  }

  lemma {:induction false} RanMonotone(stages: seq<Stage>, blank: Checkpoint, shared: Shared, j: nat, k: nat)
    requires j <= k <= |stages| && Straight(stages, blank, shared, j).ran
    ensures Straight(stages, blank, shared, k).ran
    decreases k
  {
    hide Straight;
    if j < k {
      RanMonotone(stages, blank, shared, j, k - 1);
      StraightNext(stages, blank, shared, k - 1);
    }
  }

  /** A run that starts from a stored checkpoint, or from scratch, ends where the uninterrupted run would be. */
  lemma StepOnTrack(stages: seq<Stage>, blank: Checkpoint, shared: Shared, saved: Option<Checkpoint>, step: RunStep)
    returns (k: nat)
    requires DistinctIds(stages) && IsBlank(blank) && KeepsContext(stages, blank, shared)
    requires OnTrack(stages, blank, shared, saved) && step.handled <= |stages|
    ensures OnTrack(stages, blank, shared, RunOnce(stages, blank, shared, saved, step))
    ensures step.handled <= k <= |stages|
    ensures RunEnd(stages, blank, shared, saved, step).shared == Straight(stages, blank, shared, k).shared
    ensures RunEnd(stages, blank, shared, saved, step).checkpoint == Straight(stages, blank, shared, k).checkpoint
  {
    if step.resume && saved.Some? {
      var j :| 0 <= j <= |stages| && Straight(stages, blank, shared, j).ran
               && saved.value == Straight(stages, blank, shared, j).checkpoint;
      ResumeContinues(stages, blank, shared, j, step.handled);
      k := if step.handled < j then j else step.handled;
      RanMonotone(stages, blank, shared, j, k);
    } else {
      assert ToSet(blank.completed) == {};
      k := step.handled;
      assert RunEnd(stages, blank, shared, saved, step) == Straight(stages, blank, shared, k);
    }
  }

  lemma {:induction false} ChainOnTrack(stages: seq<Stage>, blank: Checkpoint, shared: Shared, steps: seq<RunStep>)
    requires DistinctIds(stages) && IsBlank(blank) && KeepsContext(stages, blank, shared) && StepsFit(stages, steps)
    ensures OnTrack(stages, blank, shared, RunChain(stages, blank, shared, steps))
    decreases |steps|
  {
    if steps != [] {
      var n := |steps| - 1;
      ChainOnTrack(stages, blank, shared, steps[..n]);
      var k := StepOnTrack(stages, blank, shared, RunChain(stages, blank, shared, steps[..n]), steps[n]);
    }
  }

  lemma {:induction false} IdleUnchanged(stages: seq<Stage>, done: set<Id>, start: Progress, k: nat)
    requires k <= |stages| && !start.ran && !Advance(stages, done, start, k).ran
    ensures Advance(stages, done, start, k) == start
    decreases k
  {
    if k > 0 {
      IdleUnchanged(stages, done, start, k - 1);
    }
  }

  /** Any chain of failed, cancelled, blank and resumed runs whose last run gets through all stages
      ends with the shared dictionary and the ordered completed stages of one uninterrupted run. */
  lemma InterruptedEqualsUninterrupted(stages: seq<Stage>, blank: Checkpoint, shared: Shared, steps: seq<RunStep>,
      last: RunStep)
    requires DistinctIds(stages) && IsBlank(blank) && KeepsContext(stages, blank, shared)
    requires StepsFit(stages, steps) && last.handled == |stages|
    ensures
      var saved := RunChain(stages, blank, shared, steps);
      var end := RunEnd(stages, blank, shared, saved, last);
      var once := Straight(stages, blank, shared, |stages|);
      end.shared == once.shared && end.checkpoint.completed == once.checkpoint.completed
    ensures
      var end := RunEnd(stages, blank, shared, RunChain(stages, blank, shared, steps), last);
      end.shared == Effects(stages, [], shared) && end.checkpoint.completed == EnabledIds(stages)
    ensures
      var saved := RunOnce(stages, blank, shared, RunChain(stages, blank, shared, steps), last);
      var once := Straight(stages, blank, shared, |stages|);
      saved == if once.ran then Some(once.checkpoint) else None
  {
    hide Effects, EnabledIds, RunChain, KeepsContext;
    ChainOnTrack(stages, blank, shared, steps);
    StraightIs(stages, blank, shared, |stages|);
    assert stages[..|stages|] == stages;
    var saved := RunChain(stages, blank, shared, steps);
    var k := StepOnTrack(stages, blank, shared, saved, last);
    var end := RunEnd(stages, blank, shared, saved, last);
    var start := StartOf(blank, shared, saved, last.resume);
    if saved.Some? {
      var j :| 0 <= j <= |stages| && Straight(stages, blank, shared, j).ran
               && saved.value == Straight(stages, blank, shared, j).checkpoint;
      RanMonotone(stages, blank, shared, j, |stages|);
    }
    if !end.ran {
      IdleUnchanged(stages, ToSet(start.checkpoint.completed), start, |stages|);
    }
    if !(last.resume && saved.Some?) {
      assert ToSet(blank.completed) == {};
      assert end == Straight(stages, blank, shared, |stages|);
    }
  }

  lemma EmptyContextKept(stages: seq<Stage>, blank: Checkpoint)
    ensures KeepsContext(stages, blank, map[])
  {
  }

  /** Metrics */

  datatype StageMetrics = StageMetrics(stageId: Id, failures: nat, retries: nat)

  /** `metrics_for` followed by counting: the entry of the stage, created if needed, grows. */
  function Count(metrics: seq<StageMetrics>, id: Id, failures: nat, retries: nat): seq<StageMetrics> {
    if metrics == [] then [StageMetrics(id, failures, retries)]
    else if metrics[0].stageId == id
    then [StageMetrics(id, metrics[0].failures + failures, metrics[0].retries + retries)] + metrics[1..]
    else [metrics[0]] + Count(metrics[1..], id, failures, retries)
  }

  function TotalFailures(metrics: seq<StageMetrics>): nat {
    if metrics == [] then 0 else metrics[0].failures + TotalFailures(metrics[1..])
  }

  function TotalRetries(metrics: seq<StageMetrics>): nat {
    if metrics == [] then 0 else metrics[0].retries + TotalRetries(metrics[1..])
  }

  /** Counting changes the first record of the stage, by these amounts, or appends one, and no other record. */
  lemma {:induction false} CountsOneStage(metrics: seq<StageMetrics>, id: Id, failures: nat, retries: nat) returns (i: nat)
    ensures i <= |metrics| && forall j :: 0 <= j < i ==> metrics[j].stageId != id
    ensures i < |metrics| ==>
      var m := metrics[i];
      && m.stageId == id
      && Count(metrics, id, failures, retries) == metrics[i := StageMetrics(id, m.failures + failures, m.retries + retries)]
    ensures i == |metrics| ==> Count(metrics, id, failures, retries) == metrics + [StageMetrics(id, failures, retries)]
  {
    if metrics == [] || metrics[0].stageId == id {
      i := 0;
    } else {
      var rest := CountsOneStage(metrics[1..], id, failures, retries);
      i := rest + 1;
      forall j | 0 <= j < i ensures metrics[j].stageId != id {
        if j > 0 {
          assert metrics[1..][j - 1] == metrics[j];
        }
      }
    }
  }

  lemma {:induction false} CountTotals(metrics: seq<StageMetrics>, id: Id, failures: nat, retries: nat)
    ensures TotalFailures(Count(metrics, id, failures, retries)) == TotalFailures(metrics) + failures
    ensures TotalRetries(Count(metrics, id, failures, retries)) == TotalRetries(metrics) + retries
  {
    if metrics != [] && metrics[0].stageId != id {
      CountTotals(metrics[1..], id, failures, retries);
      assert Count(metrics, id, failures, retries)[1..] == Count(metrics[1..], id, failures, retries);
    } else if metrics != [] {
      assert Count(metrics, id, failures, retries)[1..] == metrics[1..];
    }
  }

  lemma {:induction false} CountTwice(metrics: seq<StageMetrics>, id: Id, f: nat, r: nat, f': nat, r': nat)
    ensures Count(Count(metrics, id, f, r), id, f', r') == Count(metrics, id, f + f', r + r')
  {
    if metrics != [] && metrics[0].stageId != id {
      CountTwice(metrics[1..], id, f, r, f', r');
    }
  }
}
