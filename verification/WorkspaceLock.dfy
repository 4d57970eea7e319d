/** backend/lexmind/workspace/workspace_lock.py: the two-level workspace lock as a transition system.
    Any number of threads and workspace ids; a step is one action of one thread, so every
    interleaving is a sequence of steps. */
module WorkspaceLock {
  import opened Collections

  type Thread = nat
  type Workspace = string
  type Lock = nat

  /** Where a thread is; line numbers are those of the source. */
  datatype Position =
    | Idle
    | AcquireEnter(w: Workspace, timed: bool)            // 46: waiting for the guard
    | AcquireLookup(w: Workspace, timed: bool)           // 47: inside the guard
    | AcquireLeave(w: Workspace, l: Lock, timed: bool)   // 50: lock found, guard still owned
    | AcquireWait(w: Workspace, l: Lock, timed: bool)    // 52: waiting for the workspace lock
    | AcquireMark(w: Workspace, l: Lock)                 // 54: lock taken, waiting for the guard
    | AcquireRecord(w: Workspace, l: Lock)               // 55: inside the guard
    | AcquireDone(w: Workspace)                          // 55: recorded, guard still owned
    | ReleaseEnter(w: Workspace)                         // 60: waiting for the guard
    | ReleaseLookup(w: Workspace)                        // 61: inside the guard
    | ReleaseLeave(w: Workspace, l: Lock)                // 64: forgotten, guard still owned
    | ReleaseNothing                                     // 63: no such lock, guard still owned
    | ReleaseUnlock(w: Workspace, l: Lock)               // 65: about to release the workspace lock
    | QueryEnter(w: Workspace)                           // 69: waiting for the guard
    | QueryRead(w: Workspace)                            // 70, 75: inside the guard
    | QueryLeave(w: Workspace, answer: Option<Thread>)   // 70, 75: answered, guard still owned

  datatype Action =
    | BeginAcquire(w: Workspace, timeout: real)
    | BeginRelease(w: Workspace)
    | BeginQuery(w: Workspace)
    | TakeGuard
    | Body
    | LeaveGuard
    | TakeLock
    | TimeOut
    | Unlock

  datatype Guard = Free | By(t: Thread)

  /** `owns` records who has taken a workspace lock and not released it again; the locks
      themselves only know whether they are taken. */
  datatype State = State(
    creator: Thread,
    guard: Guard,
    locks: map<Workspace, Lock>,
    next: Lock,
    taken: set<Lock>,
    held: map<Workspace, Thread>,
    at: map<Thread, Position>,
    owns: set<(Thread, Workspace)>)
  {
    function At(t: Thread): Position {
      if t in at then at[t] else Idle
    }
  }

  function Init(creator: Thread): State {
    State(creator, Free, map[], 0, {}, map[], map[], {})
  }

  predicate WantsGuard(p: Position) {
    p.AcquireEnter? || p.AcquireMark? || p.ReleaseEnter? || p.QueryEnter?
  }

  predicate InBody(p: Position) {
    p.AcquireLookup? || p.AcquireRecord? || p.ReleaseLookup? || p.QueryRead?
  }

  predicate AfterBody(p: Position) {
    p.AcquireLeave? || p.AcquireDone? || p.ReleaseLeave? || p.ReleaseNothing? || p.QueryLeave?
  }

  predicate OwnsGuard(p: Position) {
    InBody(p) || AfterBody(p)
  }

  /** What a thread can do next. Only a wait with a positive timeout can time out. */
  predicate CanStep(s: State, t: Thread, a: Action) {
    match a
    case BeginAcquire(_, _) => s.At(t).Idle?
    case BeginRelease(_) => s.At(t).Idle?
    case BeginQuery(_) => s.At(t).Idle?
    case TakeGuard => WantsGuard(s.At(t)) && s.guard == Free
    case Body => InBody(s.At(t))
    case LeaveGuard => AfterBody(s.At(t))
    case TakeLock => s.At(t).AcquireWait? && s.At(t).l !in s.taken
    case TimeOut => s.At(t).AcquireWait? && s.At(t).timed
    case Unlock => s.At(t).ReleaseUnlock?
  }

  function Entered(p: Position): Position
    requires WantsGuard(p)
  {
    match p
    case AcquireEnter(w, timed) => AcquireLookup(w, timed)
    case AcquireMark(w, l) => AcquireRecord(w, l)
    case ReleaseEnter(w) => ReleaseLookup(w)
    case QueryEnter(w) => QueryRead(w)
  }

  function Left(p: Position): Position
    requires AfterBody(p)
  {
    match p
    case AcquireLeave(w, l, timed) => AcquireWait(w, l, timed)
    case ReleaseLeave(w, l) => ReleaseUnlock(w, l)
    case AcquireDone(_) => Idle
    case ReleaseNothing => Idle
    case QueryLeave(_, _) => Idle
  }

  function Move(s: State, t: Thread, p: Position): State {
    s.(at := s.at[t := p])
  }

  /** The statements inside a `with self._guard` block. */
  function RunBody(s: State, t: Thread): State
    requires InBody(s.At(t))
  {
    match s.At(t)
    case AcquireLookup(w, timed) =>
      if w in s.locks then Move(s, t, AcquireLeave(w, s.locks[w], timed))
      else Move(s.(locks := s.locks[w := s.next], next := s.next + 1), t, AcquireLeave(w, s.next, timed))
    case AcquireRecord(w, _) => Move(s.(held := s.held[w := s.creator]), t, AcquireDone(w))
    case ReleaseLookup(w) =>
      if w in s.locks then Move(s.(held := s.held - {w}), t, ReleaseLeave(w, s.locks[w]))
      else Move(s, t, ReleaseNothing)
    case QueryRead(w) => Move(s, t, QueryLeave(w, if w in s.held then Some(s.held[w]) else None))
  }

  function Step(s: State, t: Thread, a: Action): State
    requires CanStep(s, t, a)
  {
    match a
    case BeginAcquire(w, timeout) => Move(s, t, AcquireEnter(w, timeout > 0.0))
    case BeginRelease(w) => Move(s, t, ReleaseEnter(w))
    case BeginQuery(w) => Move(s, t, QueryEnter(w))
    case TakeGuard => Move(s.(guard := By(t)), t, Entered(s.At(t)))
    case Body => RunBody(s, t)
    case LeaveGuard => Move(s.(guard := Free), t, Left(s.At(t)))
    case TakeLock =>
      var p := s.At(t);
      Move(s.(taken := s.taken + {p.l}, owns := s.owns + {(t, p.w)}), t, AcquireMark(p.w, p.l))
    case TimeOut => Move(s, t, Idle)
    case Unlock =>
      // releasing a lock that nobody has taken raises, which ends the call
      var p := s.At(t);
      if p.l in s.taken then Move(s.(taken := s.taken - {p.l}, owns := s.owns - {(t, p.w)}), t, Idle)
      else Move(s, t, Idle)
  }

  /** Only the holder of a workspace calls `release` for it. */
  predicate Disciplined(s: State, t: Thread, a: Action) {
    a.BeginRelease? ==> (t, a.w) in s.owns
  }

  type Trace = seq<(Thread, Action)>

  /** The trace is a run from the initial state that ends in `s`. */
  ghost predicate RunsTo(creator: Thread, trace: Trace, s: State)
    decreases |trace|
  {
    if trace == [] then s == Init(creator)
    else
      var n := |trace| - 1;
      exists before ::
        && RunsTo(creator, trace[..n], before)
        && CanStep(before, trace[n].0, trace[n].1)
        && Disciplined(before, trace[n].0, trace[n].1)
        && s == Step(before, trace[n].0, trace[n].1)
  }

  ghost predicate Reachable(s: State) {
    exists creator, trace :: RunsTo(creator, trace, s)
  }

  /** Between taking the lock and recording it (52-55), and between forgetting it and releasing it (64-65). */
  predicate InWindow(p: Position, w: Workspace) {
    (p.AcquireMark? || p.AcquireRecord? || p.ReleaseLeave? || p.ReleaseUnlock?) && p.w == w
  }

  /** The part of a call in which the thread must own the workspace it names. */
  predicate NeedsOwnership(p: Position) {
    p.AcquireMark? || p.AcquireRecord? || p.AcquireDone? || p.ReleaseEnter? || p.ReleaseLookup? || p.ReleaseLeave? || p.ReleaseUnlock?
  }

  predicate KnowsLock(p: Position) {
    p.AcquireLeave? || p.AcquireWait? || p.AcquireMark? || p.AcquireRecord? || p.ReleaseLeave? || p.ReleaseUnlock?
  }

  ghost predicate GuardInv(s: State) {
    forall t: Thread :: OwnsGuard(s.At(t)) <==> s.guard == By(t)
  }

  ghost predicate LocksInv(s: State) {
    && (forall w :: w in s.locks ==> s.locks[w] < s.next)
    && (forall v, w :: v in s.locks && w in s.locks && s.locks[v] == s.locks[w] ==> v == w)
    && (forall t: Thread :: KnowsLock(s.At(t)) ==> s.At(t).w in s.locks && s.locks[s.At(t).w] == s.At(t).l)
    && (forall l :: l in s.taken ==> l < s.next)
  }

  ghost predicate OwnersInv(s: State) {
    && (forall t, w :: (t, w) in s.owns ==> w in s.locks && s.locks[w] in s.taken)
    && (forall t, u, w :: (t, w) in s.owns && (u, w) in s.owns ==> t == u)
    && (forall w :: w in s.locks && s.locks[w] in s.taken ==> exists t :: (t, w) in s.owns)
    && (forall t: Thread :: NeedsOwnership(s.At(t)) ==> (t, s.At(t).w) in s.owns)
  }

  ghost predicate HeldInv(s: State) {
    && (forall w :: w in s.held <==> exists t :: (t, w) in s.owns && !InWindow(s.At(t), w))
    && (forall w :: w in s.held ==> s.held[w] == s.creator)
  }

  /** The answer of a query is still right when the guard is given back. */
  ghost predicate AnswerInv(s: State) {
    forall t: Thread :: s.At(t).QueryLeave? ==>
      s.At(t).answer == if s.At(t).w in s.held then Some(s.held[s.At(t).w]) else None
  }

  ghost predicate Inv(s: State) {
    GuardInv(s) && LocksInv(s) && OwnersInv(s) && HeldInv(s) && AnswerInv(s)
  }

  /** `held` changes only inside the guard, so nobody can change it under a thread that owns the guard. */
  lemma AnswerStep(s: State, t: Thread, a: Action)
    requires GuardInv(s) && AnswerInv(s) && CanStep(s, t, a)
    ensures AnswerInv(Step(s, t, a))
  {
    var s' := Step(s, t, a);
    forall u: Thread | u != t && s.At(u).QueryLeave? ensures s'.held == s.held && s'.At(u) == s.At(u) {
      assert OwnsGuard(s.At(u));
      assert a.Body? ==> OwnsGuard(s.At(t));
    }
    forall u: Thread | u != t ensures s'.At(u) == s.At(u) {}
  }

  lemma GuardBody(s: State, t: Thread)
    requires GuardInv(s) && InBody(s.At(t))
    ensures GuardInv(RunBody(s, t))
  {
    forall u | u != t ensures RunBody(s, t).At(u) == s.At(u) {}
  }

  lemma GuardStep(s: State, t: Thread, a: Action)
    requires GuardInv(s) && CanStep(s, t, a)
    ensures GuardInv(Step(s, t, a))
  {
    hide RunBody;
    if a.Body? {
      GuardBody(s, t);
    } else {
      forall u | u != t ensures Step(s, t, a).At(u) == s.At(u) {}
    }
  }

  lemma LocksLookup(s: State, t: Thread)
    requires LocksInv(s) && s.At(t).AcquireLookup?
    ensures LocksInv(RunBody(s, t))
  {
    forall u | u != t ensures RunBody(s, t).At(u) == s.At(u) {}
  }

  lemma LocksOtherBody(s: State, t: Thread)
    requires LocksInv(s) && InBody(s.At(t)) && !s.At(t).AcquireLookup?
    ensures LocksInv(RunBody(s, t))
  {
    forall u | u != t ensures RunBody(s, t).At(u) == s.At(u) {}
  }

  lemma LocksStep(s: State, t: Thread, a: Action)
    requires LocksInv(s) && CanStep(s, t, a)
    ensures LocksInv(Step(s, t, a))
  {
    if a.Body? {
      hide RunBody, LocksInv;
      if s.At(t).AcquireLookup? {
        LocksLookup(s, t);
      } else {
        LocksOtherBody(s, t);
      }
    } else {
      hide LocksInv;
      LocksOtherStep(s, t, a);
    }
  }

  /** A step that creates no lock object and learns of none keeps the invariant. */
  lemma LocksKept(s: State, t: Thread, s': State)
    requires LocksInv(s) && s'.locks == s.locks && s'.next == s.next
    requires forall u: Thread :: u != t ==> s'.At(u) == s.At(u)
    requires KnowsLock(s'.At(t)) ==> KnowsLock(s.At(t)) && s'.At(t).w == s.At(t).w && s'.At(t).l == s.At(t).l
    requires forall l :: l in s'.taken ==> l in s.taken || (KnowsLock(s.At(t)) && l == s.At(t).l)
    ensures LocksInv(s')
  {
  }

  lemma LocksOtherStep(s: State, t: Thread, a: Action)
    requires LocksInv(s) && CanStep(s, t, a) && !a.Body?
    ensures LocksInv(Step(s, t, a))
  {
    hide RunBody, LocksInv;
    forall u | u != t ensures Step(s, t, a).At(u) == s.At(u) {}
    LocksKept(s, t, Step(s, t, a));
  }

  lemma OwnersBody(s: State, t: Thread)
    requires LocksInv(s) && OwnersInv(s) && InBody(s.At(t))
    ensures OwnersInv(RunBody(s, t))
  {
    forall u | u != t ensures RunBody(s, t).At(u) == s.At(u) {}
  }

  lemma OwnersTakeLock(s: State, t: Thread, a: Action)
    requires LocksInv(s) && OwnersInv(s) && CanStep(s, t, a) && Disciplined(s, t, a)
    requires a.TakeLock?
    ensures OwnersInv(Step(s, t, a))
  {
    hide RunBody;
    forall u | u != t ensures Step(s, t, a).At(u) == s.At(u) {}
  }

  lemma OwnersUnlock(s: State, t: Thread, a: Action)
    requires LocksInv(s) && OwnersInv(s) && CanStep(s, t, a) && Disciplined(s, t, a)
    requires a.Unlock?
    ensures OwnersInv(Step(s, t, a))
  {
    hide RunBody;
    forall u | u != t ensures Step(s, t, a).At(u) == s.At(u) {}
  }

  lemma OwnersOther(s: State, t: Thread, a: Action)
    requires LocksInv(s) && OwnersInv(s) && CanStep(s, t, a) && Disciplined(s, t, a)
    requires !a.Body? && !a.TakeLock? && !a.Unlock?
    ensures OwnersInv(Step(s, t, a))
  {
    var s' := Step(s, t, a);
    OtherKeepsOwners(s, t, a, t);
    hide Step, CanStep, LocksInv, NeedsOwnership;
    forall u: Thread | NeedsOwnership(s'.At(u)) ensures (u, s'.At(u).w) in s'.owns {
      OtherKeepsOwners(s, t, a, u);
    }
  }

  lemma OtherKeepsOwners(s: State, t: Thread, a: Action, u: Thread)
    requires OwnersInv(s) && CanStep(s, t, a) && Disciplined(s, t, a)
    requires !a.Body? && !a.TakeLock? && !a.Unlock?
    ensures Step(s, t, a).locks == s.locks && Step(s, t, a).taken == s.taken && Step(s, t, a).owns == s.owns
    ensures NeedsOwnership(Step(s, t, a).At(u)) ==> (u, Step(s, t, a).At(u).w) in s.owns
  {
    hide RunBody;
    assert u != t ==> Step(s, t, a).At(u) == s.At(u);
    assert NeedsOwnership(s.At(u)) ==> (u, s.At(u).w) in s.owns;
  }

  lemma OwnersStep(s: State, t: Thread, a: Action)
    requires LocksInv(s) && OwnersInv(s) && CanStep(s, t, a) && Disciplined(s, t, a)
    ensures OwnersInv(Step(s, t, a))
  {
    hide RunBody, LocksInv, OwnersInv, HeldInv;
    match a
    case Body => OwnersBody(s, t);
    case TakeLock => OwnersTakeLock(s, t, a);
    case Unlock => OwnersUnlock(s, t, a);
    case _ => OwnersOther(s, t, a);
  }

  lemma HeldRecord(s: State, t: Thread)
    requires OwnersInv(s) && HeldInv(s) && s.At(t).AcquireRecord?
    ensures HeldInv(RunBody(s, t))
  {
    var s' := RunBody(s, t);
    forall w ensures w in s'.held <==> exists u :: (u, w) in s'.owns && !InWindow(s'.At(u), w) {
      if u :| (u, w) in s.owns && !InWindow(s.At(u), w) {
        assert (u, w) in s'.owns && !InWindow(s'.At(u), w);
      }
      if s.At(t).w == w {
        assert (t, w) in s'.owns && !InWindow(s'.At(t), w);
      }
    }
  }

  lemma HeldForget(s: State, t: Thread)
    requires OwnersInv(s) && HeldInv(s) && s.At(t).ReleaseLookup?
    ensures HeldInv(RunBody(s, t))
  {
    var s' := RunBody(s, t);
    forall w ensures w in s'.held <==> exists u :: (u, w) in s'.owns && !InWindow(s'.At(u), w) {
      if u :| (u, w) in s.owns && !InWindow(s.At(u), w) {
        assert w != s.At(t).w ==> (u, w) in s'.owns && !InWindow(s'.At(u), w);
      }
    }
  }

  lemma HeldAsBefore(s: State, t: Thread)
    requires HeldInv(s) && (s.At(t).AcquireLookup? || s.At(t).QueryRead?)
    ensures HeldInv(RunBody(s, t))
  {
    var s' := RunBody(s, t);
    forall w ensures w in s'.held <==> exists u :: (u, w) in s'.owns && !InWindow(s'.At(u), w) {
      if u :| (u, w) in s.owns && !InWindow(s.At(u), w) {
        assert (u, w) in s'.owns && !InWindow(s'.At(u), w);
      }
    }
  }

  lemma HeldBody(s: State, t: Thread)
    requires LocksInv(s) && OwnersInv(s) && HeldInv(s) && InBody(s.At(t))
    ensures HeldInv(RunBody(s, t))
  {
    hide LocksInv, OwnersInv, HeldInv, RunBody;
    match s.At(t)
    case AcquireRecord(_, _) => HeldRecord(s, t);
    case ReleaseLookup(_) => HeldForget(s, t);
    case _ => HeldAsBefore(s, t);
  }

  lemma HeldTakeLock(s: State, t: Thread, a: Action)
    requires LocksInv(s) && OwnersInv(s) && HeldInv(s) && CanStep(s, t, a) && Disciplined(s, t, a)
    requires a.TakeLock?
    ensures HeldInv(Step(s, t, a))
  {
    hide RunBody;
    forall u | u != t ensures Step(s, t, a).At(u) == s.At(u) {}
  }

  lemma HeldUnlock(s: State, t: Thread, a: Action)
    requires LocksInv(s) && OwnersInv(s) && HeldInv(s) && CanStep(s, t, a) && Disciplined(s, t, a)
    requires a.Unlock?
    ensures HeldInv(Step(s, t, a))
  {
    hide RunBody;
    forall u | u != t ensures Step(s, t, a).At(u) == s.At(u) {}
  }

  lemma OtherKeepsWindows(s: State, t: Thread, a: Action, u: Thread, w: Workspace)
    requires CanStep(s, t, a) && !a.Body? && !a.TakeLock? && !a.Unlock?
    ensures InWindow(Step(s, t, a).At(u), w) <==> InWindow(s.At(u), w)
    ensures Step(s, t, a).owns == s.owns && Step(s, t, a).held == s.held && Step(s, t, a).creator == s.creator
  {
  }

  lemma HeldOther(s: State, t: Thread, a: Action)
    requires HeldInv(s) && CanStep(s, t, a)
    requires !a.Body? && !a.TakeLock? && !a.Unlock?
    ensures HeldInv(Step(s, t, a))
  {
    hide Step, CanStep, InWindow;
    var s' := Step(s, t, a);
    OtherKeepsWindows(s, t, a, t, "");
    forall u, w ensures InWindow(s'.At(u), w) <==> InWindow(s.At(u), w) {
      OtherKeepsWindows(s, t, a, u, w);
    }
    forall w ensures w in s'.held <==> exists u :: (u, w) in s'.owns && !InWindow(s'.At(u), w) {
      assert (exists u :: (u, w) in s.owns && !InWindow(s.At(u), w)) <==>
             (exists u :: (u, w) in s'.owns && !InWindow(s'.At(u), w));
    }
  }

  lemma HeldStep(s: State, t: Thread, a: Action)
    requires LocksInv(s) && OwnersInv(s) && HeldInv(s) && CanStep(s, t, a) && Disciplined(s, t, a)
    ensures HeldInv(Step(s, t, a))
  {
    hide RunBody, LocksInv, OwnersInv, HeldInv;
    match a
    case Body => HeldBody(s, t);
    case TakeLock => HeldTakeLock(s, t, a);
    case Unlock => HeldUnlock(s, t, a);
    case _ => HeldOther(s, t, a);
  }

  /** Every disciplined step keeps all invariants. */
  lemma StepKeepsInv(s: State, t: Thread, a: Action)
    requires Inv(s) && CanStep(s, t, a) && Disciplined(s, t, a)
    ensures Inv(Step(s, t, a))
  {
    hide GuardInv, LocksInv, OwnersInv, HeldInv, AnswerInv, Step, CanStep, Disciplined;
    GuardStep(s, t, a);
    AnswerStep(s, t, a);
    LocksStep(s, t, a);
    OwnersStep(s, t, a);
    HeldStep(s, t, a);
  }

  lemma InitInv(creator: Thread)
    ensures Inv(Init(creator))
  {
  }

  lemma StepKeepsCreator(s: State, t: Thread, a: Action)
    requires CanStep(s, t, a)
    ensures Step(s, t, a).creator == s.creator
  {
  }

  lemma {:induction false} RunKeepsInv(creator: Thread, trace: Trace, s: State)
    requires RunsTo(creator, trace, s)
    ensures Inv(s) && s.creator == creator
    decreases |trace|
  {
    hide Inv, Step, CanStep, Disciplined;
    InitInv(creator);
    if trace != [] {
      var n := |trace| - 1;
      var before :|
        && RunsTo(creator, trace[..n], before)
        && CanStep(before, trace[n].0, trace[n].1)
        && Disciplined(before, trace[n].0, trace[n].1)
        && s == Step(before, trace[n].0, trace[n].1);
      RunKeepsInv(creator, trace[..n], before);
      StepKeepsCreator(before, trace[n].0, trace[n].1);
      StepKeepsInv(before, trace[n].0, trace[n].1);
    }
  }

  /** Results over every run of any number of threads, workspaces and steps */

  lemma MutualExclusion(s: State, t: Thread, u: Thread, w: Workspace)
    requires Reachable(s) && (t, w) in s.owns && (u, w) in s.owns
    ensures t == u
  {
    var creator, trace :| RunsTo(creator, trace, s);
    RunKeepsInv(creator, trace, s);
  }

  /** `_held` lists a workspace exactly when somebody owns it outside the two windows. */
  lemma HeldExactly(s: State, w: Workspace)
    requires Reachable(s)
    ensures w in s.held <==> exists t :: (t, w) in s.owns && !InWindow(s.At(t), w)
    ensures w in s.held ==> w in s.locks && s.locks[w] in s.taken
    ensures w in s.locks && s.locks[w] in s.taken && w !in s.held ==> exists t :: (t, w) in s.owns && InWindow(s.At(t), w)
  {
    var creator, trace :| RunsTo(creator, trace, s);
    RunKeepsInv(creator, trace, s);
  }

  /** The answers of `is_locked` and `owner`, over every run: yes exactly when somebody owns the workspace at that
      moment outside the two windows, and then the reported owner is the creator of the lock object. */
  lemma QueryAnswersTruly(s: State, t: Thread)
    requires Reachable(s) && s.At(t).QueryLeave?
    ensures s.At(t).answer.Some? <==> exists u :: (u, s.At(t).w) in s.owns && !InWindow(s.At(u), s.At(t).w)
    ensures s.At(t).answer.Some? ==> s.At(t).answer.value == s.creator
  {
    var creator, trace :| RunsTo(creator, trace, s);
    RunKeepsInv(creator, trace, s);
    hide RunsTo, GuardInv, LocksInv, OwnersInv;
  }

  /** What can become of a thread waiting for a workspace lock: it gets a free one and owns the workspace, or it
      gives up empty-handed, which takes a positive timeout. */
  lemma WaitEnds(s: State, t: Thread, a: Action)
    requires s.At(t).AcquireWait? && CanStep(s, t, a)
    ensures
      var p, s' := s.At(t), Step(s, t, a);
      || (p.l !in s.taken && p.l in s'.taken && s'.owns == s.owns + {(t, p.w)} && s'.At(t) == AcquireMark(p.w, p.l))
      || (p.timed && s'.taken == s.taken && s'.owns == s.owns && s'.At(t) == Idle)
  {
  }

  /** During a call, a thread stays with the workspace of the call and with the timeout it was given. */
  lemma CallKeepsArguments(s: State, t: Thread, a: Action)
    requires CanStep(s, t, a)
    ensures
      var p, q := s.At(t), Step(s, t, a).At(t);
      && (p.Idle? && !q.Idle? ==> q.w == a.w && (q.AcquireEnter? ==> a.BeginAcquire? && q.timed == (a.timeout > 0.0)))
      && (!p.Idle? && !p.ReleaseNothing? && !q.Idle? && !q.ReleaseNothing? ==> q.w == p.w)
      && (KeepsTimed(p) && KeepsTimed(q) ==> q.timed == p.timed)
  {
  }

  predicate KeepsTimed(p: Position) {
    p.AcquireEnter? || p.AcquireLookup? || p.AcquireLeave? || p.AcquireWait?
  }

  /** What `is_locked` and `owner` can be relied on for: a positive answer means the lock is taken,
      but the owner they report is the creator of the lock object, whoever took it. */
  lemma ReportedOwnerIsCreator(creator: Thread, trace: Trace, s: State, w: Workspace)
    requires RunsTo(creator, trace, s) && w in s.held
    ensures s.held[w] == creator
    ensures exists t :: (t, w) in s.owns
  {
    RunKeepsInv(creator, trace, s);
  }

  /** A thread that waits for a workspace lock never owns the guard, and a thread that owns the
      guard can always take its next step, so the guard is given back. */
  lemma GuardNeverBlocks(s: State, t: Thread)
    requires Reachable(s)
    ensures s.At(t).AcquireWait? ==> s.guard != By(t)
    ensures s.guard == By(t) ==> CanStep(s, t, Body) || CanStep(s, t, LeaveGuard)
    ensures s.guard == By(t) && CanStep(s, t, Body) ==> CanStep(Step(s, t, Body), t, LeaveGuard)
    ensures s.guard == By(t) && CanStep(s, t, LeaveGuard) ==> Step(s, t, LeaveGuard).guard == Free
  {
    var creator, trace :| RunsTo(creator, trace, s);
    RunKeepsInv(creator, trace, s);
  }

  lemma UnlockDisowns(s: State, t: Thread)
    requires Inv(s) && s.At(t).ReleaseUnlock?
    ensures s.At(t).l in s.taken && (t, s.At(t).w) in s.owns
    ensures Step(s, t, Unlock).owns == s.owns - {(t, s.At(t).w)}
    ensures forall u :: (u, s.At(t).w) in s.owns ==> u == t
  {
    hide GuardInv, HeldInv, RunBody;
  }

  /** A release that the discipline allows always finds the lock taken, by the releasing thread. */
  lemma ReleaseIsSound(s: State, t: Thread)
    requires Reachable(s) && s.At(t).ReleaseUnlock?
    ensures s.At(t).l in s.taken && (t, s.At(t).w) in s.owns
    ensures forall u :: (u, s.At(t).w) !in Step(s, t, Unlock).owns
  {
    hide Step, CanStep, Inv, RunsTo;
    var creator, trace :| RunsTo(creator, trace, s);
    RunKeepsInv(creator, trace, s);
    UnlockDisowns(s, t);
  }

  lemma StepKeepsLockObjects(s: State, t: Thread, a: Action, w: Workspace)
    requires CanStep(s, t, a) && w in s.locks
    ensures w in Step(s, t, a).locks && Step(s, t, a).locks[w] == s.locks[w]
  {
  }

  /** Once created, the lock object of a workspace never changes. */
  lemma {:induction false} LockObjectFixed(creator: Thread, trace: Trace, k: nat, early: State, late: State,
      w: Workspace)
    requires k <= |trace| && RunsTo(creator, trace[..k], early) && RunsTo(creator, trace, late) && w in early.locks
    ensures w in late.locks && late.locks[w] == early.locks[w]
    decreases |trace|
  {
    hide Step, CanStep, Disciplined;
    if k == |trace| {
      assert trace[..k] == trace;
      RunsToOne(creator, trace, early, late);
    } else {
      var n := |trace| - 1;
      var before :|
        && RunsTo(creator, trace[..n], before)
        && CanStep(before, trace[n].0, trace[n].1)
        && Disciplined(before, trace[n].0, trace[n].1)
        && late == Step(before, trace[n].0, trace[n].1);
      assert trace[..n][..k] == trace[..k];
      LockObjectFixed(creator, trace[..n], k, early, before, w);
      StepKeepsLockObjects(before, trace[n].0, trace[n].1, w);
    }
  }

  lemma {:induction false} RunsToOne(creator: Thread, trace: Trace, s: State, s': State)
    requires RunsTo(creator, trace, s) && RunsTo(creator, trace, s')
    ensures s == s'
    decreases |trace|
  {
    hide Step, CanStep, Disciplined;
    if trace != [] {
      var n := |trace| - 1;
      var b :| RunsTo(creator, trace[..n], b) && CanStep(b, trace[n].0, trace[n].1)
               && s == Step(b, trace[n].0, trace[n].1);
      var b' :| RunsTo(creator, trace[..n], b') && CanStep(b', trace[n].0, trace[n].1)
               && s' == Step(b', trace[n].0, trace[n].1);
      RunsToOne(creator, trace[..n], b, b');
    }
  }

  /** Thread `t` alone takes the listed actions, one after the other, and gets from `s` to `s'`. */
  ghost predicate Solo(s: State, t: Thread, actions: seq<Action>, s': State)
    decreases |actions|
  {
    if actions == [] then s == s'
    else CanStep(s, t, actions[0]) && Solo(Step(s, t, actions[0]), t, actions[1..], s')
  }

  lemma SoloCons(s: State, t: Thread, a: Action, rest: seq<Action>, s': State)
    requires CanStep(s, t, a) && Solo(Step(s, t, a), t, rest, s')
    ensures Solo(s, t, [a] + rest, s')
  {
    assert ([a] + rest)[1..] == rest;
  }

  lemma RunsToNext(creator: Thread, trace: Trace, s: State, t: Thread, a: Action)
    requires RunsTo(creator, trace, s) && CanStep(s, t, a) && Disciplined(s, t, a)
    ensures RunsTo(creator, trace + [(t, a)], Step(s, t, a))
  {
    hide Step, CanStep, Disciplined;
    var longer := trace + [(t, a)];
    assert longer[..|longer| - 1] == trace && longer[|trace|] == (t, a);
  }

  /** The states of a thread alone that acquires a workspace for the first time. */
  lemma FirstAcquire(creator: Thread, t: Thread, w: Workspace)
    returns (s1: State, s2: State, s3: State, s4: State, s5: State, s6: State, s7: State, s8: State)
    ensures
      var s0 := Init(creator);
      && CanStep(s0, t, BeginAcquire(w, -1.0)) && s1 == Step(s0, t, BeginAcquire(w, -1.0))
      && CanStep(s1, t, TakeGuard) && s2 == Step(s1, t, TakeGuard)
      && CanStep(s2, t, Body) && s3 == Step(s2, t, Body)
      && CanStep(s3, t, LeaveGuard) && s4 == Step(s3, t, LeaveGuard)
      && CanStep(s4, t, TakeLock) && s5 == Step(s4, t, TakeLock)
      && CanStep(s5, t, TakeGuard) && s6 == Step(s5, t, TakeGuard)
      && CanStep(s6, t, Body) && s7 == Step(s6, t, Body)
      && CanStep(s7, t, LeaveGuard) && s8 == Step(s7, t, LeaveGuard)
    ensures s8.creator == creator && s8.owns == {(t, w)} && s8.held == map[w := creator] && s8.guard == Free
    ensures forall u :: s8.At(u).Idle?
  {
    s1 := Step(Init(creator), t, BeginAcquire(w, -1.0));
    s2 := Step(s1, t, TakeGuard);
    s3 := Step(s2, t, Body);
    s4 := Step(s3, t, LeaveGuard);
    s5 := Step(s4, t, TakeLock);
    s6 := Step(s5, t, TakeGuard);
    s7 := Step(s6, t, Body);
    s8 := Step(s7, t, LeaveGuard);
  }

  lemma ReachableStep(s: State, t: Thread, a: Action)
    requires Reachable(s) && CanStep(s, t, a) && Disciplined(s, t, a)
    ensures Reachable(Step(s, t, a))
  {
    hide Step, CanStep, Disciplined, RunsTo;
    var creator, trace :| RunsTo(creator, trace, s);
    RunsToNext(creator, trace, s, t, a);
  }

  lemma ReachableInit(creator: Thread)
    ensures Reachable(Init(creator))
  {
    assert RunsTo(creator, [], Init(creator));
  }

  /** Whoever creates the lock object, any thread can be the only owner of a workspace, and the reported owner
      is still the creator. */
  lemma AnyThreadCanOwn(creator: Thread, t: Thread, w: Workspace) returns (s: State)
    ensures Reachable(s) && s.creator == creator && s.owns == {(t, w)} && s.held == map[w := creator]
    ensures s.guard == Free && forall u :: s.At(u).Idle?
  {
    hide Step, CanStep, Init, RunsTo, Reachable;
    var s1, s2, s3, s4, s5, s6, s7, s8 := FirstAcquire(creator, t, w);
    ReachableInit(creator);
    ReachableStep(Init(creator), t, BeginAcquire(w, -1.0));
    ReachableStep(s1, t, TakeGuard);
    ReachableStep(s2, t, Body);
    ReachableStep(s3, t, LeaveGuard);
    ReachableStep(s4, t, TakeLock);
    ReachableStep(s5, t, TakeGuard);
    ReachableStep(s6, t, Body);
    ReachableStep(s7, t, LeaveGuard);
    s := s8;
  }

  lemma SoloNothing(s: State, t: Thread)
    ensures Solo(s, t, [], s)
  {
  }

  lemma SoloOne(s: State, t: Thread, a: Action)
    requires CanStep(s, t, a)
    ensures Solo(s, t, [a], Step(s, t, a))
  {
    SoloNothing(Step(s, t, a), t);
    SoloCons(s, t, a, [], Step(s, t, a));
    assert [a] + [] == [a];
  }

  lemma GuardGivenBack(s: State, u: Thread, t: Thread) returns (actions: seq<Action>, s': State)
    requires Reachable(s) && Inv(s) && s.guard == By(u) && s.At(t).Idle?
    ensures |actions| <= 2 && Solo(s, u, actions, s') && Reachable(s')
    ensures s'.guard == Free && s'.owns == s.owns && s'.At(t).Idle?
  {
    hide Step, Solo, Reachable, Disciplined;
    if CanStep(s, u, Body) {
      var s1 := BodyOfOwner(s, u, t);
      hide CanStep, Inv;
      s' := LeaveOfOwner(s1, u, t);
      ReachableStep(s, u, Body);
      ReachableStep(s1, u, LeaveGuard);
      SoloOne(s1, u, LeaveGuard);
      SoloCons(s, u, Body, [LeaveGuard], s');
      actions := [Body] + [LeaveGuard];
    } else {
      s' := LeaveOfOwner(s, u, t);
      hide CanStep, Inv;
      ReachableStep(s, u, LeaveGuard);
      SoloOne(s, u, LeaveGuard);
      actions := [LeaveGuard];
    }
  }

  lemma ReachableInv(s: State)
    requires Reachable(s)
    ensures Inv(s)
  {
    hide Inv, RunsTo;
    var creator, trace :| RunsTo(creator, trace, s);
    RunKeepsInv(creator, trace, s);
  }

  lemma OnlyOwner(s: State, owner: Thread, t: Thread, w: Workspace)
    requires Inv(s) && (owner, w) in s.owns && t != owner
    ensures (t, w) !in s.owns
  {
    hide GuardInv, LocksInv, HeldInv;
  }

  /** The guard is free after at most two steps of its owner, which change no ownership and move nobody else. */
  lemma GuardComesFree(s: State, t: Thread) returns (u: Thread, actions: seq<Action>, s': State)
    requires Reachable(s) && s.At(t).Idle?
    ensures |actions| <= 2 && Solo(s, u, actions, s') && Reachable(s')
    ensures s'.guard == Free && s'.owns == s.owns && s'.At(t).Idle?
  {
    hide Solo, Reachable, Inv;
    ReachableInv(s);
    match s.guard
    case Free =>
      u, actions, s' := t, [], s;
      SoloNothing(s, t);
    case By(o) =>
      u := o;
      actions, s' := GuardGivenBack(s, o, t);
  }

  lemma BodyOfOwner(s: State, u: Thread, t: Thread) returns (s': State)
    requires Inv(s) && s.guard == By(u) && CanStep(s, u, Body) && s.At(t).Idle?
    ensures s' == Step(s, u, Body) && Disciplined(s, u, Body)
    ensures GuardInv(s') && s'.guard == By(u) && !CanStep(s', u, Body) && s'.owns == s.owns && s'.At(t).Idle?
  {
    s' := Step(s, u, Body);
    GuardStep(s, u, Body);
  }

  lemma LeaveOfOwner(s: State, u: Thread, t: Thread) returns (s': State)
    requires GuardInv(s) && s.guard == By(u) && !CanStep(s, u, Body) && s.At(t).Idle?
    ensures CanStep(s, u, LeaveGuard) && s' == Step(s, u, LeaveGuard) && Disciplined(s, u, LeaveGuard)
    ensures s'.guard == Free && s'.owns == s.owns && s'.At(t).Idle?
  {
    s' := Step(s, u, LeaveGuard);
  }

  /** The discipline is needed: from any reachable state in which another thread owns `w`, one call of `release`
      by an idle thread that does not own it, followed by its own `acquire`, makes two threads own `w`; only the
      owner of the guard, if there is one, has to give it back first. */
  lemma ForeignReleaseBreaksExclusion(s: State, owner: Thread, t: Thread, w: Workspace)
    returns (u: Thread, before: seq<Action>, free: State, actions: seq<Action>, s': State)
    requires Reachable(s) && owner != t && (owner, w) in s.owns && s.At(t).Idle?
    ensures |before| <= 2 && Solo(s, u, before, free) && Reachable(free)
    ensures actions != [] && actions[0] == BeginRelease(w) && !Disciplined(free, t, actions[0])
    ensures Solo(free, t, actions, s')
    ensures (owner, w) in s'.owns && (t, w) in s'.owns
  {
    hide Solo, Step, CanStep, Reachable, Inv;
    u, before, free := GuardComesFree(s, t);
    ReachableInv(free);
    OnlyOwner(free, owner, t, w);
    OwnedIsTaken(free, owner, w);
    var s1, s2, s3, s4, s5 := ReleaseCall(free, t, w);
    s' := LoneAcquire(s5, t, w);
    actions := [BeginRelease(w)] + ([TakeGuard] + ([Body] + ([LeaveGuard] + ([Unlock] + AcquireActions(w)))));
    SoloCons(s4, t, Unlock, AcquireActions(w), s');
    SoloCons(s3, t, LeaveGuard, [Unlock] + AcquireActions(w), s');
    SoloCons(s2, t, Body, [LeaveGuard] + ([Unlock] + AcquireActions(w)), s');
    SoloCons(s1, t, TakeGuard, [Body] + ([LeaveGuard] + ([Unlock] + AcquireActions(w))), s');
    SoloCons(free, t, BeginRelease(w), [TakeGuard] + ([Body] + ([LeaveGuard] + ([Unlock] + AcquireActions(w)))), s');
  }

  /** The states of a thread alone that releases a workspace whose lock is taken. */
  lemma ReleaseCall(s: State, t: Thread, w: Workspace)
    returns (s1: State, s2: State, s3: State, s4: State, s5: State)
    requires s.guard == Free && s.At(t).Idle? && w in s.locks && s.locks[w] in s.taken
    ensures CanStep(s, t, BeginRelease(w)) && s1 == Step(s, t, BeginRelease(w))
    ensures CanStep(s1, t, TakeGuard) && s2 == Step(s1, t, TakeGuard)
    ensures CanStep(s2, t, Body) && s3 == Step(s2, t, Body)
    ensures CanStep(s3, t, LeaveGuard) && s4 == Step(s3, t, LeaveGuard)
    ensures CanStep(s4, t, Unlock) && s5 == Step(s4, t, Unlock)
    ensures s5.At(t).Idle? && s5.guard == Free && s5.locks == s.locks
    ensures s5.owns == s.owns - {(t, w)} && s5.taken == s.taken - {s.locks[w]} && s5.held == s.held - {w}
  {
    s1 := Step(s, t, BeginRelease(w));
    s2 := Step(s1, t, TakeGuard);
    s3 := Step(s2, t, Body);
    s4 := Step(s3, t, LeaveGuard);
    s5 := Step(s4, t, Unlock);
  }

  lemma OwnedIsTaken(s: State, owner: Thread, w: Workspace)
    requires Inv(s) && (owner, w) in s.owns
    ensures w in s.locks && s.locks[w] in s.taken
  {
    hide GuardInv, LocksInv, HeldInv, AnswerInv;
  }

  function ReleaseActions(w: Workspace): seq<Action> {
    [BeginRelease(w)] + ([TakeGuard] + ([Body] + ([LeaveGuard] + [Unlock])))
  }

  /** An undisturbed release by the holder gives up the workspace, and it is free afterwards. */
  lemma HolderReleases(s: State, t: Thread, w: Workspace) returns (s': State)
    requires Reachable(s) && s.guard == Free && s.At(t).Idle? && (t, w) in s.owns
    ensures Solo(s, t, ReleaseActions(w), s') && s'.At(t).Idle?
    ensures s'.owns == s.owns - {(t, w)} && s'.held == s.held - {w} && s'.locks == s.locks
    ensures w in s'.locks && s'.locks[w] !in s'.taken && forall u :: (u, w) !in s'.owns
  {
    hide Step, CanStep, Reachable, Inv, Solo;
    ReachableInv(s);
    OwnedIsTaken(s, t, w);
    var s1, s2, s3, s4, s5 := ReleaseCall(s, t, w);
    s' := s5;
    SoloOne(s4, t, Unlock);
    SoloCons(s3, t, LeaveGuard, [Unlock], s');
    SoloCons(s2, t, Body, [LeaveGuard] + [Unlock], s');
    SoloCons(s1, t, TakeGuard, [Body] + ([LeaveGuard] + [Unlock]), s');
    SoloCons(s, t, BeginRelease(w), [TakeGuard] + ([Body] + ([LeaveGuard] + [Unlock])), s');
    forall u | u != t ensures (u, w) !in s.owns {
      OnlyOwner(s, t, u, w);
    }
  }

  function AcquireActions(w: Workspace): seq<Action> {
    [BeginAcquire(w, -1.0)] + ([TakeGuard] + ([Body] + ([LeaveGuard] + [TakeLock])))
  }

  lemma LoneAcquire(s: State, t: Thread, w: Workspace) returns (s': State)
    requires s.At(t).Idle? && s.guard == Free && w in s.locks && s.locks[w] !in s.taken
    ensures Solo(s, t, AcquireActions(w), s')
    ensures s.owns <= s'.owns && (t, w) in s'.owns
  {
    var s1 := Step(s, t, BeginAcquire(w, -1.0));
    var s2 := Step(s1, t, TakeGuard);
    var s3 := Step(s2, t, Body);
    var s4 := Step(s3, t, LeaveGuard);
    s' := Step(s4, t, TakeLock);
    SoloCons(s4, t, TakeLock, [], s');
    assert [TakeLock] + [] == [TakeLock];
    SoloCons(s3, t, LeaveGuard, [TakeLock], s');
    SoloCons(s2, t, Body, [LeaveGuard] + [TakeLock], s');
    SoloCons(s1, t, TakeGuard, [Body] + ([LeaveGuard] + [TakeLock]), s');
    SoloCons(s, t, BeginAcquire(w, -1.0), [TakeGuard] + ([Body] + ([LeaveGuard] + [TakeLock])), s');
  }
}
