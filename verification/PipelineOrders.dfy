/** Which stage orders survive interruption: backend/lexmind/pipeline/pipeline.py takes any list of stage ids,
    and a resumed run skips a stage by its id. */
module PipelineOrders {
  import opened Collections
  import opened Digraph
  import opened PipelineRetry
  import opened PipelineModel

  /** The stages are what the order lists: one stage for each id. */
  ghost predicate Follows(stages: seq<Stage>, order: seq<Id>) {
    && |stages| == |order| && (forall i :: 0 <= i < |order| ==> stages[i].id == order[i])
    && forall i, j :: 0 <= i < |order| && 0 <= j < |order| && order[i] == order[j] ==> stages[i] == stages[j]
  }

  /** This chain of runs, when its last run gets through all stages, ends as one uninterrupted run does. */
  ghost predicate Recovers(stages: seq<Stage>, blank: Checkpoint, shared: Shared, steps: seq<RunStep>, last: RunStep) {
    IsBlank(blank) && KeepsContext(stages, blank, shared) && StepsFit(stages, steps) && last.handled == |stages| ==>
      var end := RunEnd(stages, blank, shared, RunChain(stages, blank, shared, steps), last);
      var once := Straight(stages, blank, shared, |stages|);
      end.shared == once.shared && end.checkpoint.completed == once.checkpoint.completed
  }

  /** Every chain of runs of these stages recovers. */
  ghost predicate AlwaysRecovers(stages: seq<Stage>) {
    forall blank, shared, steps, last :: Recovers(stages, blank, shared, steps, last)
  }

  /** The stage that leaves one more mark each time it is executed, and stages that do nothing. */

  const ONCE := RetryPolicy(Never, 1, 0.0, 0.0, 1.0)

  function Mark(s: Shared): Shared {
    s["" := (if "" in s then s[""] else "") + "x"]
  }

  function Marks(n: nat): Shared {
    if n == 0 then map[] else Mark(Marks(n - 1))
  }

  function Marking(order: seq<Id>, x: Id): seq<Stage> {
    seq(|order|, i requires 0 <= i < |order| =>
      Stage(order[i], true, [], ONCE, if order[i] == x then Mark else s => s, (n: nat, s: Shared) => s, s => s))
  }

  function Occurrences(order: seq<Id>, x: Id): nat {
    if order == [] then 0
    else Occurrences(order[..|order| - 1], x) + if order[|order| - 1] == x then 1 else 0
  }

  lemma {:induction false} MarksCount(n: nat)
    ensures n == 0 ==> "" !in Marks(n)
    ensures n > 0 ==> "" in Marks(n) && |Marks(n)[""]| == n
  {
    if n > 0 {
      MarksCount(n - 1);
    }
  }

  lemma {:induction false} OccurrencesGrow(order: seq<Id>, x: Id, i: nat, k: nat)
    requires i < k <= |order| && order[k - 1] == x
    ensures Occurrences(order[..i], x) < Occurrences(order[..k], x)
    decreases k
  {
    assert order[..k][..k - 1] == order[..k - 1];
    if i < k - 1 {
      OccurrencesMonotone(order, x, i, k - 1);
    }
  }

  lemma {:induction false} OccurrencesMonotone(order: seq<Id>, x: Id, i: nat, k: nat)
    requires i <= k <= |order|
    ensures Occurrences(order[..i], x) <= Occurrences(order[..k], x)
    decreases k
  {
    if i < k {
      assert order[..k][..k - 1] == order[..k - 1];
      OccurrencesMonotone(order, x, i, k - 1);
    }
  }

  lemma MarksNext(order: seq<Id>, x: Id, k: nat)
    requires k < |order|
    ensures
      var before := Marks(Occurrences(order[..k], x));
      Marks(Occurrences(order[..k + 1], x)) == if order[k] == x then Mark(before) else before
  {
    assert order[..k + 1][..k] == order[..k];
  }

  lemma MarkingAt(order: seq<Id>, x: Id, k: nat, s: Shared)
    requires k < |order|
    ensures Marking(order, x)[k].enabled && Marking(order, x)[k].effect(s) == if order[k] == x then Mark(s) else s
  {
  }

  lemma {:induction false} StraightMarks(order: seq<Id>, x: Id, blank: Checkpoint, k: nat)
    requires k <= |order|
    ensures |Marking(order, x)| == |order|
    ensures Straight(Marking(order, x), blank, map[], k).shared == Marks(Occurrences(order[..k], x))
    ensures Straight(Marking(order, x), blank, map[], k).ran <==> k > 0
    decreases k
  {
    if k == 0 {
      assert order[..0] == [];
    } else {
      StraightMarks(order, x, blank, k - 1);
      hide Straight, Marks, Occurrences, Marking, Mark;
      StraightNext(Marking(order, x), blank, map[], k - 1);
      MarkingAt(order, x, k - 1, Marks(Occurrences(order[..k - 1], x)));
      MarksNext(order, x, k - 1);
    }
  }

  /** Once the marking stage counts as completed, nothing changes any more. */
  lemma {:induction false} MarkingSkipped(order: seq<Id>, x: Id, done: set<Id>, start: Progress, k: nat)
    requires k <= |order| && x in done
    ensures Advance(Marking(order, x), done, start, k).shared == start.shared
    decreases k
  {
    if k > 0 {
      MarkingSkipped(order, x, done, start, k - 1);
    }
  }

  lemma MarkingFollows(order: seq<Id>, x: Id)
    ensures Follows(Marking(order, x), order) && AllHarmless(Marking(order, x))
  {
  }

  /** What is stored when the run is cancelled after the stage at `i`. */
  lemma CutAt(order: seq<Id>, i: nat, blank: Checkpoint) returns (c: Checkpoint)
    requires i < |order| && IsBlank(blank)
    ensures RunChain(Marking(order, order[i]), blank, map[], [RunStep(false, i + 1)]) == Some(c)
    ensures order[i] in c.completed && c.shared == Marks(Occurrences(order[..i + 1], order[i]))
  {
    var stages := Marking(order, order[i]);
    c := Straight(stages, blank, map[], i + 1).checkpoint;
    StraightMarks(order, order[i], blank, i + 1);
    StraightShared(stages, blank, map[], i + 1);
    StraightCompleted(stages, blank, map[], i + 1);
    assert stages[i].enabled && stages[i].id == order[i];
    hide Marking, Advance;
    assert ToSet(blank.completed) == {};
    assert [RunStep(false, i + 1)][..0] == [];
    assert RunChain(stages, blank, map[], []) == None;
  }

  lemma OccurrencesDiffer(order: seq<Id>, i: nat, k: nat)
    requires i < k < |order| && order[i] == order[k]
    ensures Marks(Occurrences(order[..i + 1], order[i])) != Marks(Occurrences(order, order[i]))
  {
    hide Marks, Occurrences;
    var x := order[i];
    OccurrencesGrow(order, x, i + 1, k + 1);
    OccurrencesMonotone(order, x, k + 1, |order|);
    assert order[..|order|] == order;
    MarksCount(Occurrences(order[..i + 1], x));
    MarksCount(Occurrences(order, x));
  }

  /** Cancelled after the stage at `i` and resumed, a run skips every later occurrence of its id. */
  lemma RepeatedIdDiffers(order: seq<Id>, i: nat, k: nat, blank: Checkpoint)
    requires i < k < |order| && order[i] == order[k] && IsBlank(blank)
    ensures
      var stages := Marking(order, order[i]);
      var saved := RunChain(stages, blank, map[], [RunStep(false, i + 1)]);
      RunEnd(stages, blank, map[], saved, RunStep(true, |order|)).shared != Straight(stages, blank, map[], |order|).shared
  {
    hide Marking, Advance, Marks, Occurrences, RunChain, Straight;
    var n := |order|;
    MarkingFollows(order, order[i]);
    var c := CutAt(order, i, blank);
    assert map[] + c.shared == c.shared;
    MarkingSkipped(order, order[i], ToSet(c.completed), Progress(c, c.shared, false), n);
    StraightMarks(order, order[i], blank, n);
    assert order[..n] == order;
    OccurrencesDiffer(order, i, k);
  }

  lemma DistinctRecovers(order: seq<Id>, stages: seq<Stage>)
    requires NoDup(order) && Follows(stages, order)
    ensures AlwaysRecovers(stages)
  {
    forall i, j | 0 <= i < j < |stages| ensures stages[i].id != stages[j].id {
      assert order[i] != order[j];
    }
    forall blank, shared, steps, last ensures Recovers(stages, blank, shared, steps, last) {
      if IsBlank(blank) && KeepsContext(stages, blank, shared) && StepsFit(stages, steps) && last.handled == |stages| {
        InterruptedEqualsUninterrupted(stages, blank, shared, steps, last);
      }
    }
  }

  /** A stage order survives every interruption, whatever its stages compute, exactly when no id is repeated. */
  lemma OrderRecoversIff(order: seq<Id>)
    ensures (forall stages :: Follows(stages, order) && AllHarmless(stages) ==> AlwaysRecovers(stages)) <==> NoDup(order)
  {
    if NoDup(order) {
      forall stages | Follows(stages, order) && AllHarmless(stages) ensures AlwaysRecovers(stages) {
        DistinctRecovers(order, stages);
      }
    } else {
      var i, k :| 0 <= i < k < |order| && order[i] == order[k];
      var stages, blank, steps := Marking(order, order[i]), Blank("", ""), [RunStep(false, i + 1)];
      MarkingFollows(order, order[i]);
      RepeatedIdDiffers(order, i, k, blank);
      EmptyContextKept(stages, blank);
      assert !Recovers(stages, blank, map[], steps, RunStep(true, |order|));
    }
  }

  /** For one stage listed twice: interrupting it shows exactly when executing it again changes anything. */
  lemma RepeatedStageDiffersIff(st: Stage, blank: Checkpoint)
    requires IsBlank(blank)
    ensures
      var saved := RunChain([st, st], blank, map[], [RunStep(false, 1)]);
      RunEnd([st, st], blank, map[], saved, RunStep(true, 2)).shared != Straight([st, st], blank, map[], 2).shared
      <==> st.enabled && st.effect(st.effect(map[])) != st.effect(map[])
  {
    var stages, one := [st, st], st.effect(map[]);
    var start := Progress(blank, map[], false);
    assert ToSet(blank.completed) == {};
    assert [RunStep(false, 1)][..0] == [];
    assert RunChain(stages, blank, map[], []) == None;
    if st.enabled {
      var c := blank.WithStage(st.id, one);
      assert Advance(stages, {}, start, 1) == Progress(c, one, true);
      assert RunChain(stages, blank, map[], [RunStep(false, 1)]) == Some(c);
      assert c.completed == [st.id] && st.id in ToSet(c.completed);
      var again := Progress(c, map[] + one, false);
      assert Advance(stages, ToSet(c.completed), again, 1) == again;
      assert Advance(stages, ToSet(c.completed), again, 2) == again;
      assert map[] + one == one;
      assert Straight(stages, blank, map[], 2).shared == st.effect(one);
    } else {
      assert Advance(stages, {}, start, 1) == start;
      assert Advance(stages, {}, start, 2) == start;
      assert RunChain(stages, blank, map[], [RunStep(false, 1)]) == None;
    }
  }
}
