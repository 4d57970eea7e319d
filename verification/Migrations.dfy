/** backend/lexmind/metadata/migrations.py: applying and rolling back schema migrations in order.
    The version table starts empty. A callable that raises leaves the schema as it was; `raises` says
    for one call of the runner whose callables do. */
module Migrations {
  import opened Collections

  datatype Migration<!S> = Migration(version: string, up: S -> S, down: Option<S -> S>)

  /** The version table and the schema. */
  datatype Database<S> = Database(applied: set<string>, schema: S)

  datatype Outcome =
    | Done(versions: seq<string>)
    | Failed(version: string)
    | NoRollback(version: string)
    | NotApplied(version: string)
  {
    /** The outcome of a longer run that first handled the given versions. */
    function After(versions: seq<string>): Outcome {
      if Done? then Done(versions + this.versions) else this
    }
  }

  lemma AfterNothing(o: Outcome)
    ensures o.After([]) == o
  {
    assert o.Done? ==> [] + o.versions == o.versions;
  }

  lemma AfterBoth(o: Outcome, a: seq<string>, b: seq<string>)
    ensures o.After(b).After(a) == o.After(a + b)
  {
    assert o.Done? ==> a + (b + o.versions) == (a + b) + o.versions;
  }

  function Pending<S>(migrations: seq<Migration<S>>, applied: set<string>): seq<Migration<S>> {
    if migrations == [] then []
    else (if migrations[0].version in applied then [] else [migrations[0]]) + Pending(migrations[1..], applied)
  }

  /** Applying migrations in order. Recording a version twice violates the key of the version table,
      after the schema has already changed. */
  function RunUp<S>(todo: seq<Migration<S>>, db: Database<S>, raises: set<string>): (Database<S>, Outcome) {
    if todo == [] then (db, Done([]))
    else
      var m := todo[0];
      if m.version in raises then (db, Failed(m.version))
      else if m.version in db.applied then (db.(schema := m.up(db.schema)), Failed(m.version))
      else
        var (last, outcome) := RunUp(todo[1..], Database(db.applied + {m.version}, m.up(db.schema)), raises);
        (last, outcome.After([m.version]))
  }

  /** Rolling back the listed ones among the first `n` migrations, newest first, until `target` is done. */
  function RunDown<S>(migrations: seq<Migration<S>>, n: nat, listed: set<string>, target: string, db: Database<S>,
      raises: set<string>): (Database<S>, Outcome)
    requires n <= |migrations|
  {
    if n == 0 then (db, Done([]))
    else
      var m := migrations[n - 1];
      if m.version !in listed then RunDown(migrations, n - 1, listed, target, db, raises)
      else if m.down.None? then (db, NoRollback(m.version))
      else if m.version in raises then (db, Failed(m.version))
      else
        var next := Database(db.applied - {m.version}, m.down.value(db.schema));
        if m.version == target then (next, Done([m.version]))
        else
          var (last, outcome) := RunDown(migrations, n - 1, listed, target, next, raises);
          (last, outcome.After([m.version]))
  }

  /** What the results assume: distinct versions, and every rollback undoes its migration. */

  predicate DistinctVersions<S>(migrations: seq<Migration<S>>) {
    forall i, j :: 0 <= i < j < |migrations| ==> migrations[i].version != migrations[j].version
  }

  ghost predicate Undoes<S(!new)>(m: Migration<S>) {
    m.down.Some? ==> forall s :: m.down.value(m.up(s)) == s
  }

  ghost predicate Sound<S(!new)>(migrations: seq<Migration<S>>) {
    DistinctVersions(migrations) && forall i :: 0 <= i < |migrations| ==> Undoes(migrations[i])
  }

  function VersionSet<S>(migrations: seq<Migration<S>>): set<string> {
    set i | 0 <= i < |migrations| :: migrations[i].version
  }

  function Versions<S>(migrations: seq<Migration<S>>): seq<string> {
    seq(|migrations|, i requires 0 <= i < |migrations| => migrations[i].version)
  }

  /** The fold of `up` over the first `level` migrations. */
  function SchemaAt<S>(migrations: seq<Migration<S>>, level: nat, initial: S): S
    requires level <= |migrations|
  {
    if level == 0 then initial else migrations[level - 1].up(SchemaAt(migrations, level - 1, initial))
  }

  /** The database with exactly the first `level` migrations applied. */
  function At<S>(migrations: seq<Migration<S>>, level: nat, initial: S): Database<S>
    requires level <= |migrations|
  {
    Database(VersionSet(migrations[..level]), SchemaAt(migrations, level, initial))
  }

  lemma OneLevelUp<S>(migrations: seq<Migration<S>>, level: nat, initial: S)
    requires DistinctVersions(migrations) && level < |migrations|
    ensures migrations[level].version !in At(migrations, level, initial).applied
    ensures At(migrations, level + 1, initial) ==
      Database(At(migrations, level, initial).applied + {migrations[level].version},
               migrations[level].up(At(migrations, level, initial).schema))
  {
    assert migrations[..level + 1] == migrations[..level] + [migrations[level]];
    var below, upto := VersionSet(migrations[..level]), VersionSet(migrations[..level + 1]);
    forall v ensures v in upto <==> v in below || v == migrations[level].version {
      if v in below {
        var i :| 0 <= i < level && migrations[..level][i].version == v;
        assert migrations[..level + 1][i].version == v;
      }
      if v == migrations[level].version {
        assert migrations[..level + 1][level].version == v;
      }
    }
  }

  lemma OneLevelDown<S(!new)>(migrations: seq<Migration<S>>, level: nat, initial: S)
    requires Sound(migrations) && 0 < level <= |migrations| && migrations[level - 1].down.Some?
    ensures migrations[level - 1].version in At(migrations, level, initial).applied
    ensures At(migrations, level - 1, initial) ==
      Database(At(migrations, level, initial).applied - {migrations[level - 1].version},
               migrations[level - 1].down.value(At(migrations, level, initial).schema))
  {
    OneLevelUp(migrations, level - 1, initial);
    assert Undoes(migrations[level - 1]);
  }

  lemma {:induction false} PendingConcat<S>(a: seq<Migration<S>>, b: seq<Migration<S>>, applied: set<string>)
    requires forall i :: 0 <= i < |a| ==> a[i].version in applied
    requires forall i :: 0 <= i < |b| ==> b[i].version !in applied
    ensures Pending(a + b, applied) == b
    decreases |a|, |b|
  {
    if a != [] {
      assert (a + b)[1..] == a[1..] + b;
      PendingConcat(a[1..], b, applied);
    } else if b != [] {
      assert a + b == b;
      assert [] + b[1..] == b[1..];
      var none: seq<Migration<S>> := [];
      PendingConcat(none, b[1..], applied);
    }
  }

  /** On a prefix, what is pending is the rest of the registration list. */
  lemma PendingIsRest<S>(migrations: seq<Migration<S>>, level: nat)
    requires DistinctVersions(migrations) && level <= |migrations|
    ensures Pending(migrations, VersionSet(migrations[..level])) == migrations[level..]
  {
    assert migrations == migrations[..level] + migrations[level..];
    PendingConcat(migrations[..level], migrations[level..], VersionSet(migrations[..level]));
  }

  /** How far up a run gets: to the first migration whose `up` raises. */
  function Ceiling<S>(migrations: seq<Migration<S>>, level: nat, raises: set<string>): (top: nat)
    requires level <= |migrations|
    ensures level <= top <= |migrations|
    ensures forall i :: level <= i < top ==> migrations[i].version !in raises
    ensures top < |migrations| ==> migrations[top].version in raises
    decreases |migrations| - level
  {
    if level == |migrations| || migrations[level].version in raises then level
    else Ceiling(migrations, level + 1, raises)
  }

  /** From a prefix, `migrate_up` reaches a prefix: all of the list, or up to the migration that raises. */
  lemma {:induction false} UpStaysOnPrefix<S>(migrations: seq<Migration<S>>, level: nat, initial: S,
      raises: set<string>)
    requires DistinctVersions(migrations) && level <= |migrations|
    ensures
      var top := Ceiling(migrations, level, raises);
      RunUp(migrations[level..], At(migrations, level, initial), raises) ==
        (At(migrations, top, initial),
         if top == |migrations| then Done(Versions(migrations[level..])) else Failed(migrations[top].version))
    decreases |migrations| - level
  {
    if level == |migrations| {
      assert Versions(migrations[level..]) == [];
    } else if migrations[level].version !in raises {
      OneLevelUp(migrations, level, initial);
      assert migrations[level..][1..] == migrations[level + 1..];
      UpStaysOnPrefix(migrations, level + 1, initial, raises);
      assert Versions(migrations[level..]) == [migrations[level].version] + Versions(migrations[level + 1..]);
    }
  }

  predicate Stuck<S>(m: Migration<S>, raises: set<string>) {
    m.down.None? || m.version in raises
  }

  /** How far down a run towards `target` gets: to the first migration that cannot be rolled back. */
  function Floor<S>(migrations: seq<Migration<S>>, level: nat, target: nat, raises: set<string>): (bottom: nat)
    requires target <= level <= |migrations|
    ensures target <= bottom <= level
    ensures forall i :: bottom <= i < level ==> !Stuck(migrations[i], raises)
    ensures bottom > target ==> Stuck(migrations[bottom - 1], raises)
  {
    if level == target || Stuck(migrations[level - 1], raises) then level
    else Floor(migrations, level - 1, target, raises)
  }

  /** The versions from `level` down to and including `target`. */
  function Downwards<S>(migrations: seq<Migration<S>>, level: nat, target: nat): (r: seq<string>)
    requires target <= level <= |migrations|
    ensures |r| == level - target
    ensures forall i :: 0 <= i < |r| ==> r[i] == migrations[level - 1 - i].version
  {
    if level == target then [] else [migrations[level - 1].version] + Downwards(migrations, level - 1, target)
  }

  function DownOutcome<S>(migrations: seq<Migration<S>>, level: nat, target: nat, raises: set<string>): Outcome
    requires target < level <= |migrations|
  {
    var bottom := Floor(migrations, level, target, raises);
    if bottom == target then Done(Downwards(migrations, level, target))
    else if migrations[bottom - 1].down.None? then NoRollback(migrations[bottom - 1].version)
    else Failed(migrations[bottom - 1].version)
  }

  /** Migrations that are not listed are passed over. */
  lemma {:induction false} DownSkips<S>(migrations: seq<Migration<S>>, n: nat, level: nat, listed: set<string>,
      target: string,
      db: Database<S>, raises: set<string>)
    requires level <= n <= |migrations| && forall i :: level <= i < n ==> migrations[i].version !in listed
    ensures RunDown(migrations, n, listed, target, db, raises) == RunDown(migrations, level, listed, target, db, raises)
    decreases n
  {
    if n > level {
      DownSkips(migrations, n - 1, level, listed, target, db, raises);
    }
  }

  lemma {:induction false} DownFromLevel<S(!new)>(migrations: seq<Migration<S>>, level: nat, target: nat, initial: S,
      listed: set<string>, raises: set<string>)
    requires Sound(migrations) && target < level <= |migrations|
    requires forall i :: 0 <= i < level ==> migrations[i].version in listed
    ensures
      RunDown(migrations, level, listed, migrations[target].version, At(migrations, level, initial), raises) ==
        (At(migrations, Floor(migrations, level, target, raises), initial), DownOutcome(migrations, level, target, raises))
    decreases level
  {
    hide At, Sound, Undoes;
    if !Stuck(migrations[level - 1], raises) {
      OneLevelDown(migrations, level, initial);
      if level - 1 > target {
        assert migrations[level - 1].version != migrations[target].version by { Distinct(migrations, target, level - 1); }
        DownFromLevel(migrations, level - 1, target, initial, listed, raises);
      } else {
        assert Downwards(migrations, level, target) == [migrations[target].version];
      }
    }
  }

  lemma Distinct<S(!new)>(migrations: seq<Migration<S>>, i: nat, j: nat)
    requires Sound(migrations) && i < j < |migrations|
    ensures migrations[i].version != migrations[j].version
  {
  }

  /** From a prefix, `migrate_down` reaches a prefix: without the target, or down to the migration that is stuck. */
  lemma DownStaysOnPrefix<S(!new)>(migrations: seq<Migration<S>>, level: nat, target: nat, initial: S,
      raises: set<string>)
    requires Sound(migrations) && target < level <= |migrations|
    ensures
      RunDown(migrations, |migrations|, At(migrations, level, initial).applied, migrations[target].version,
              At(migrations, level, initial), raises) ==
        (At(migrations, Floor(migrations, level, target, raises), initial), DownOutcome(migrations, level, target, raises))
  {
    var db := At(migrations, level, initial);
    forall i | 0 <= i < |migrations| ensures migrations[i].version in db.applied <==> i < level {
    }
    DownSkips(migrations, |migrations|, level, db.applied, migrations[target].version, db, raises);
    DownFromLevel(migrations, level, target, initial, db.applied, raises);
  }

  /** The runner and its operations, as values. */
  datatype Runner<!S> = Runner(migrations: seq<Migration<S>>, db: Database<S>)

  datatype Op<!S> = Add(migration: Migration<S>) | Up(raises: set<string>) | Down(version: string, raises: set<string>)

  function Apply<S>(r: Runner<S>, op: Op<S>): (Runner<S>, Outcome) {
    match op
    case Add(m) => (r.(migrations := r.migrations + [m]), Done([]))
    case Up(raises) =>
      var (db, outcome) := RunUp(Pending(r.migrations, r.db.applied), r.db, raises);
      (r.(db := db), outcome)
    case Down(version, raises) =>
      if version !in r.db.applied then (r, NotApplied(version))
      else
        var (db, outcome) := RunDown(r.migrations, |r.migrations|, r.db.applied, version, r.db, raises);
        (r.(db := db), outcome)
  }

  function Run<S>(initial: S, ops: seq<Op<S>>): Runner<S> {
    if ops == [] then Runner([], Database({}, initial))
    else Apply(Run(initial, ops[..|ops| - 1]), ops[|ops| - 1]).0
  }

  /** After every run, failing steps included, the applied versions are a prefix of the registration list
      and the schema is the fold of `up` over it. */
  lemma {:induction false} RunOnPrefix<S(!new)>(initial: S, ops: seq<Op<S>>) returns (level: nat)
    requires Sound(Run(initial, ops).migrations)
    ensures level <= |Run(initial, ops).migrations|
    ensures Run(initial, ops).db == At(Run(initial, ops).migrations, level, initial)
    decreases |ops|
  {
    if ops == [] {
      level := 0;
      assert VersionSet(Run(initial, ops).migrations[..0]) == {};
    } else {
      var before, op := Run(initial, ops[..|ops| - 1]), ops[|ops| - 1];
      var migrations := before.migrations;
      SoundBefore(before, op);
      level := RunOnPrefix(initial, ops[..|ops| - 1]);
      level := ApplyOnPrefix(before, op, level, initial);
    }
  }

  lemma SoundBefore<S(!new)>(r: Runner<S>, op: Op<S>)
    requires Sound(Apply(r, op).0.migrations)
    ensures Sound(r.migrations)
  {
    hide RunUp, RunDown, Undoes;
    if op.Add? {
      var after := Apply(r, op).0.migrations;
      forall i | 0 <= i < |r.migrations| ensures after[i] == r.migrations[i] {
      }
    }
  }

  lemma ApplyOnPrefix<S(!new)>(r: Runner<S>, op: Op<S>, level: nat, initial: S) returns (level': nat)
    requires level <= |r.migrations| && r.db == At(r.migrations, level, initial)
    requires Sound(Apply(r, op).0.migrations)
    ensures level' <= |Apply(r, op).0.migrations|
    ensures Apply(r, op).0.db == At(Apply(r, op).0.migrations, level', initial)
  {
    hide RunUp, RunDown;
    SoundBefore(r, op);
    level' := level;
    match op {
      case Add(m) =>
        SchemaOfLonger(r.migrations, m, level, initial);
      case Up(raises) =>
        PendingIsRest(r.migrations, level);
        UpStaysOnPrefix(r.migrations, level, initial, raises);
        level' := Ceiling(r.migrations, level, raises);
      case Down(version, raises) =>
        if version in r.db.applied {
          var target: nat :| target < level && r.migrations[..level][target].version == version;
          DownStaysOnPrefix(r.migrations, level, target, initial, raises);
          level' := Floor(r.migrations, level, target, raises);
        }
    }
  }

  lemma {:induction false} SchemaOfLonger<S>(migrations: seq<Migration<S>>, m: Migration<S>, level: nat, initial: S)
    requires level <= |migrations|
    ensures At(migrations + [m], level, initial) == At(migrations, level, initial)
    decreases level
  {
    assert (migrations + [m])[..level] == migrations[..level];
    if level > 0 {
      SchemaOfLonger(migrations, m, level - 1, initial);
    }
  }

  /** With everything applied, going down to any version and up again restores table and schema. */
  lemma DownThenUp<S(!new)>(r: Runner<S>, version: string, initial: S)
    requires Sound(r.migrations) && r.db == At(r.migrations, |r.migrations|, initial)
    requires version in r.db.applied
    requires Apply(r, Down(version, {})).1.Done?
    ensures Apply(Apply(r, Down(version, {})).0, Up({})).0 == r
  {
    hide RunUp, RunDown;
    var n := |r.migrations|;
    var target: nat :| target < n && r.migrations[..n][target].version == version;
    DownStaysOnPrefix(r.migrations, n, target, initial, {});
    var bottom := Floor(r.migrations, n, target, {});
    PendingIsRest(r.migrations, bottom);
    UpStaysOnPrefix(r.migrations, bottom, initial, {});
  }

  lemma OneMoreOp<S>(initial: S, ops: seq<Op<S>>, op: Op<S>)
    ensures Run(initial, ops + [op]) == Apply(Run(initial, ops), op).0
  {
    assert (ops + [op])[..|ops|] == ops;
  }

  /** Distinct versions decide */

  ghost predicate OnPrefix<S(!new)>(r: Runner<S>, initial: S) {
    exists level: nat :: level <= |r.migrations| && r.db == At(r.migrations, level, initial)
  }

  ghost predicate AllUndo<S(!new)>(migrations: seq<Migration<S>>) {
    forall i :: 0 <= i < |migrations| ==> Undoes(migrations[i])
  }

  /** A run that registers migrations with these versions, each undone by its rollback, stays on a prefix. */
  ghost predicate StaysOnPrefix(versions: seq<string>, initial: int, ops: seq<Op<int>>) {
    var r := Run(initial, ops);
    Versions(r.migrations) == versions && AllUndo(r.migrations) ==> OnPrefix(r, initial)
  }

  function Counting(version: string): Migration<int> {
    Migration(version, x => x + 1, Some(x => x - 1))
  }

  function CountingAll(versions: seq<string>): (r: seq<Migration<int>>)
    ensures |r| == |versions| && forall i :: 0 <= i < |r| ==> r[i] == Counting(versions[i])
  {
    seq(|versions|, i requires 0 <= i < |versions| => Counting(versions[i]))
  }

  function Registering(versions: seq<string>): seq<Op<int>> {
    seq(|versions|, i requires 0 <= i < |versions| => Add(Counting(versions[i])))
  }

  lemma RegisterOne(ops: seq<Op<int>>, m: Migration<int>)
    ensures Run(0, ops + [Add(m)]) == Run(0, ops).(migrations := Run(0, ops).migrations + [m])
  {
    OneMoreOp(0, ops, Add(m));
  }

  lemma RegisteringSnoc(ops: seq<Op<int>>, versions: seq<string>)
    requires versions != []
    ensures
      var n := |versions| - 1;
      && ops + Registering(versions) == (ops + Registering(versions[..n])) + [Add(Counting(versions[n]))]
      && CountingAll(versions) == CountingAll(versions[..n]) + [Counting(versions[n])]
  {
    hide Counting;
  }

  /** Registering more migrations does not touch the database. */
  lemma {:induction false} RunRegisters(ops: seq<Op<int>>, versions: seq<string>)
    ensures
      var r := Run(0, ops);
      Run(0, ops + Registering(versions)) == r.(migrations := r.migrations + CountingAll(versions))
    decreases |versions|
  {
    hide Run, Counting;
    if versions == [] {
      assert ops + Registering(versions) == ops && Run(0, ops).migrations + CountingAll(versions) == Run(0, ops).migrations;
    } else {
      hide Registering, CountingAll;
      var n := |versions| - 1;
      RunRegisters(ops, versions[..n]);
      RegisteringSnoc(ops, versions);
      RegisterOne(ops + Registering(versions[..n]), Counting(versions[n]));
    }
  }

  lemma {:induction false} CountingSchema(versions: seq<string>, level: nat)
    requires level <= |versions|
    ensures SchemaAt(CountingAll(versions), level, 0) == level
    decreases level
  {
    if level > 0 {
      CountingSchema(versions, level - 1);
    }
  }

  function AsSet(versions: seq<string>): set<string> {
    set v | v in versions
  }

  /** Only the last version repeats an earlier one. */
  ghost predicate LastRepeats(versions: seq<string>) {
    && versions != [] && NoDup(versions[..|versions| - 1])
    && versions[|versions| - 1] in versions[..|versions| - 1]
  }

  lemma NoDupSnoc(s: seq<string>, x: string)
    requires NoDup(s)
    ensures NoDup(s + [x]) <==> x !in s
  {
    if x in s {
      var i :| 0 <= i < |s| && s[i] == x;
      assert (s + [x])[i] == (s + [x])[|s|];
    }
  }

  lemma {:induction false} FirstRepeat(versions: seq<string>) returns (k: nat)
    requires !NoDup(versions)
    ensures k <= |versions| && LastRepeats(versions[..k])
    decreases |versions|
  {
    var n := |versions| - 1;
    if NoDup(versions[..n]) {
      NoDupSnoc(versions[..n], versions[n]);
      assert versions == versions[..n] + [versions[n]];
      k := |versions|;
      assert versions[..k] == versions;
    } else {
      k := FirstRepeat(versions[..n]);
      assert versions[..n][..k] == versions[..k];
    }
  }

  /** Going up stops at the repeated version, whose `up` has already changed the schema. */
  lemma {:induction false} UpStopsAtRepeat(versions: seq<string>, level: nat)
    requires LastRepeats(versions) && level < |versions|
    ensures
      var ms, n := CountingAll(versions), |versions| - 1;
      RunUp(ms[level..], Database(AsSet(versions[..level]), level), {}).0
        == Database(AsSet(versions[..n]), n + 1)
    decreases |versions| - level
  {
    var ms, n := CountingAll(versions), |versions| - 1;
    var db := Database(AsSet(versions[..level]), level);
    assert ms[level..][1..] == ms[level + 1..];
    if level < n {
      assert versions[level] !in versions[..level] by {
        forall i | 0 <= i < level ensures versions[..level][i] != versions[level] {
          assert versions[..n][i] != versions[..n][level];
        }
      }
      assert versions[..level + 1] == versions[..level] + [versions[level]];
      assert db.applied + {versions[level]} == AsSet(versions[..level + 1]);
      UpStopsAtRepeat(versions, level + 1);
    }
  }

  lemma AfterUp(versions: seq<string>)
    requires LastRepeats(versions)
    ensures
      var n := |versions| - 1;
      Run(0, Registering(versions) + [Up({})]) == Runner(CountingAll(versions), Database(AsSet(versions[..n]), n + 1))
  {
    hide Run, RunUp, CountingAll;
    var ms := CountingAll(versions);
    RegistersFromStart(versions);
    OneMoreOp(0, Registering(versions), Up({}));
    NothingApplied(ms);
    UpStopsAtRepeat(versions, 0);
    assert AsSet(versions[..0]) == {} && ms[0..] == ms;
  }

  /** Up, then down to the repeated version: its rollback undoes the schema change of the failed step, and its
      row in the version table goes with it. */
  lemma RepeatLosesRow(versions: seq<string>)
    requires LastRepeats(versions)
    ensures
      var n := |versions| - 1;
      Run(0, Registering(versions) + [Up({})] + [Down(versions[n], {})])
        == Runner(CountingAll(versions), Database(AsSet(versions[..n]) - {versions[n]}, n))
  {
    hide Run, Registering;
    AfterUp(versions);
    OneMoreOp(0, Registering(versions) + [Up({})], Down(versions[|versions| - 1], {}));
  }

  lemma RegistersFromStart(versions: seq<string>)
    ensures Run(0, Registering(versions)) == Runner(CountingAll(versions), Database({}, 0))
  {
    RunRegisters([], versions);
    assert [] + Registering(versions) == Registering(versions);
    assert Run(0, []).migrations + CountingAll(versions) == CountingAll(versions);
  }

  lemma NothingApplied(migrations: seq<Migration<int>>)
    ensures Pending(migrations, {}) == migrations
  {
    PendingConcat([], migrations, {});
    assert [] + migrations == migrations;
  }

  /** The run that leaves every prefix, for any list with a repeated version: register the list up to its first
      repetition, go up, go down to the repeated version, and register the rest. */
  function Breaking(versions: seq<string>, k: nat): seq<Op<int>>
    requires 0 < k <= |versions|
  {
    Registering(versions[..k]) + [Up({})] + [Down(versions[k - 1], {})] + Registering(versions[k..])
  }

  lemma RepeatBreaksPrefix(versions: seq<string>, k: nat)
    requires k <= |versions| && LastRepeats(versions[..k])
    ensures Run(0, Breaking(versions, k)).migrations == CountingAll(versions)
    ensures !OnPrefix(Run(0, Breaking(versions, k)), 0)
  {
    hide Run;
    var first, rest := versions[..k], versions[k..];
    RepeatLosesRow(first);
    RunRegisters(Registering(first) + [Up({})] + [Down(first[k - 1], {})], rest);
    assert CountingAll(first) + CountingAll(rest) == CountingAll(versions);
    var r := Run(0, Breaking(versions, k));
    assert first[..k - 1] == versions[..k - 1];
    forall level: nat | level <= |versions| ensures r.db != At(r.migrations, level, 0) {
      CountingSchema(versions, level);
      if level == k - 1 {
        assert versions[k - 1] in At(r.migrations, level, 0).applied;
      }
    }
  }

  lemma DistinctMeansSound<S(!new)>(migrations: seq<Migration<S>>)
    requires AllUndo(migrations) && NoDup(Versions(migrations))
    ensures Sound(migrations)
  {
    hide Undoes;
    forall i, j | 0 <= i < j < |migrations| ensures migrations[i].version != migrations[j].version {
      assert Versions(migrations)[i] != Versions(migrations)[j];
    }
  }

  /** Every run over a list of versions stays on a prefix, whatever fails, exactly when the versions are distinct. */
  lemma PrefixIffDistinct(versions: seq<string>)
    ensures (forall initial, ops :: StaysOnPrefix(versions, initial, ops)) <==> NoDup(versions)
  {
    if NoDup(versions) {
      forall initial, ops ensures StaysOnPrefix(versions, initial, ops) {
        var r := Run(initial, ops);
        if Versions(r.migrations) == versions && AllUndo(r.migrations) {
          DistinctMeansSound(r.migrations);
          var level := RunOnPrefix(initial, ops);
        }
      }
    } else {
      var k := FirstRepeat(versions);
      RepeatBreaksPrefix(versions, k);
      assert !StaysOnPrefix(versions, 0, Breaking(versions, k));
    }
  }

  /** What a run does on every input, with or without distinct versions */

  lemma {:induction false} PendingAppend<S>(migrations: seq<Migration<S>>, m: Migration<S>, applied: set<string>)
    ensures Pending(migrations + [m], applied)
            == Pending(migrations, applied) + if m.version in applied then [] else [m]
  {
    if migrations == [] {
      assert [m][1..] == [];
    } else {
      assert (migrations + [m])[1..] == migrations[1..] + [m];
      PendingAppend(migrations[1..], m, applied);
    }
  }

  /** The pending migrations are those not applied, in the order of the list: `at` gives their places. */
  lemma {:induction false} PendingInOrder<S>(migrations: seq<Migration<S>>, applied: set<string>) returns (at: seq<nat>)
    ensures forall k, l :: 0 <= k < l < |at| ==> at[k] < at[l]
    ensures forall k :: 0 <= k < |at| ==> at[k] < |migrations|
    ensures Pending(migrations, applied) == seq(|at|, k requires 0 <= k < |at| => migrations[at[k]])
    ensures forall i :: 0 <= i < |migrations| ==> (i in at <==> migrations[i].version !in applied)
    decreases |migrations|
  {
    if migrations == [] {
      at := [];
    } else {
      var n := |migrations| - 1;
      assert migrations == migrations[..n] + [migrations[n]];
      PendingAppend(migrations[..n], migrations[n], applied);
      at := PendingInOrder(migrations[..n], applied);
      if migrations[n].version !in applied {
        at := at + [n];
      }
    }
  }

  lemma {:induction false} SchemaAtFront<S>(todo: seq<Migration<S>>, k: nat, s: S)
    requires k < |todo|
    ensures SchemaAt(todo, k + 1, s) == SchemaAt(todo[1..], k, todo[0].up(s))
  {
    if k > 0 {
      SchemaAtFront(todo, k - 1, s);
    }
  }

  lemma VersionSetFront<S>(todo: seq<Migration<S>>, k: nat)
    requires k < |todo|
    ensures VersionSet(todo[..k + 1]) == {todo[0].version} + VersionSet(todo[1..][..k])
  {
    var all, rest := todo[..k + 1], todo[1..][..k];
    forall v ensures v in VersionSet(all) <==> v == todo[0].version || v in VersionSet(rest) {
      if i :| 0 <= i < |all| && all[i].version == v {
        assert i > 0 ==> rest[i - 1] == all[i];
      }
      if i :| 0 <= i < |rest| && rest[i].version == v {
        assert all[i + 1] == rest[i];
      }
      assert all[0] == todo[0];
    }
  }

  /** A run up records the first `k` migrations and stops there: at the end, at one that raises and leaves the schema
      alone, or at one whose version is recorded already, after it has changed the schema. */
  ghost predicate WentUp<S>(todo: seq<Migration<S>>, k: nat, before: Database<S>, after: Database<S>, outcome: Outcome,
      raises: set<string>)
  {
    && k <= |todo|
    && (forall i :: 0 <= i < k ==> todo[i].version !in raises && todo[i].version !in before.applied)
    && after.applied == before.applied + VersionSet(todo[..k])
    && (k == |todo| ==> outcome == Done(Versions(todo)) && after.schema == SchemaAt(todo, k, before.schema))
    && (k < |todo| ==>
          var v := todo[k].version;
          && outcome == Failed(v) && (v in raises || v in after.applied)
          && after.schema == SchemaAt(todo, if v in raises then k else k + 1, before.schema))
  }

  lemma {:induction false} UpMeans<S>(todo: seq<Migration<S>>, db: Database<S>, raises: set<string>) returns (k: nat)
    ensures var (last, outcome) := RunUp(todo, db, raises); WentUp(todo, k, db, last, outcome, raises)
    decreases |todo|
  {
    if todo == [] || todo[0].version in raises || todo[0].version in db.applied {
      k := 0;
    } else {
      var m := todo[0];
      var next := Database(db.applied + {m.version}, m.up(db.schema));
      var rest := UpMeans(todo[1..], next, raises);
      k := rest + 1;
      UpStep(todo, rest, db, raises);
    }
  }

  lemma UpStep<S>(todo: seq<Migration<S>>, k: nat, db: Database<S>, raises: set<string>)
    requires todo != [] && todo[0].version !in raises && todo[0].version !in db.applied
    requires
      var next := Database(db.applied + {todo[0].version}, todo[0].up(db.schema));
      var (last, outcome) := RunUp(todo[1..], next, raises);
      WentUp(todo[1..], k, next, last, outcome, raises)
    ensures var (last, outcome) := RunUp(todo, db, raises); WentUp(todo, k + 1, db, last, outcome, raises)
  {
    hide SchemaAt, VersionSet;
    var next := Database(db.applied + {todo[0].version}, todo[0].up(db.schema));
    var (last, outcome) := RunUp(todo[1..], next, raises);
    SchemaAtFront(todo, k, db.schema);
    VersionSetFront(todo, k);
    if k < |todo| - 1 {
      SchemaAtFront(todo, k + 1, db.schema);
    }
    forall i | 0 <= i < k + 1 ensures todo[i].version !in raises && todo[i].version !in db.applied {
      assert i > 0 ==> todo[i] == todo[1..][i - 1];
    }
    assert Versions(todo) == [todo[0].version] + Versions(todo[1..]);
  }

  /** The listed migrations from place `n` down to place `stop`, in the order in which they are rolled back. */
  function Listed<S>(migrations: seq<Migration<S>>, n: nat, stop: nat, listed: set<string>): seq<Migration<S>>
    requires stop <= n <= |migrations|
  {
    if n == stop then []
    else (if migrations[n - 1].version in listed then [migrations[n - 1]] else [])
         + Listed(migrations, n - 1, stop, listed)
  }

  function Undone<S>(back: seq<Migration<S>>, s: S): S {
    if back == [] then s
    else Undone(back[1..], if back[0].down.Some? then back[0].down.value(s) else s)
  }

  /** A run down rolls back the listed migrations down to place `stop`: that of the target, the start of the list, or
      just above one that has no rollback or whose rollback raises. */
  ghost predicate WentDown<S>(migrations: seq<Migration<S>>, n: nat, stop: nat, listed: set<string>, target: string,
      before: Database<S>, after: Database<S>, outcome: Outcome, raises: set<string>)
  {
    && stop <= n <= |migrations|
    && (forall i :: stop <= i < n && migrations[i].version in listed ==>
          migrations[i].down.Some? && migrations[i].version !in raises && (i > stop ==> migrations[i].version != target))
    && var back := Listed(migrations, n, stop, listed);
    && after.applied == before.applied - VersionSet(back) && after.schema == Undone(back, before.schema)
    && if stop == 0 || (stop < n && migrations[stop].version in listed && migrations[stop].version == target)
       then outcome == Done(Versions(back))
       else
         var m := migrations[stop - 1];
         && m.version in listed && (m.down.None? || m.version in raises)
         && outcome == if m.down.None? then NoRollback(m.version) else Failed(m.version)
  }

  lemma {:induction false} DownMeans<S>(migrations: seq<Migration<S>>, n: nat, listed: set<string>, target: string,
      db: Database<S>, raises: set<string>)
    returns (stop: nat)
    requires n <= |migrations|
    ensures
      var (last, outcome) := RunDown(migrations, n, listed, target, db, raises);
      WentDown(migrations, n, stop, listed, target, db, last, outcome, raises)
    decreases n
  {
    hide VersionSet, Undone;
    if n == 0 {
      stop := 0;
      NoneRolledBack(migrations, db);
    } else {
      var m := migrations[n - 1];
      if m.version !in listed {
        stop := DownMeans(migrations, n - 1, listed, target, db, raises);
        assert [] + Listed(migrations, n - 1, stop, listed) == Listed(migrations, n - 1, stop, listed);
      } else if m.down.None? || m.version in raises {
        stop := n;
        DownStuck(migrations, n, listed, target, db, raises);
      } else if m.version == target {
        stop := n - 1;
        DownTarget(migrations, n, listed, db, raises);
      } else {
        var next := Database(db.applied - {m.version}, m.down.value(db.schema));
        stop := DownMeans(migrations, n - 1, listed, target, next, raises);
        DownStep(migrations, n, stop, listed, target, db, raises);
      }
    }
  }

  lemma NoneRolledBack<S>(migrations: seq<Migration<S>>, db: Database<S>)
    ensures forall n, listed :: 0 <= n <= |migrations| ==> Listed(migrations, n, n, listed) == []
    ensures db.applied - VersionSet<S>([]) == db.applied && Undone([], db.schema) == db.schema && Versions<S>([]) == []
  {
  }

  lemma DownStuck<S>(migrations: seq<Migration<S>>, n: nat, listed: set<string>, target: string, db: Database<S>,
      raises: set<string>)
    requires 0 < n <= |migrations| && migrations[n - 1].version in listed
    requires migrations[n - 1].down.None? || migrations[n - 1].version in raises
    ensures
      var (last, outcome) := RunDown(migrations, n, listed, target, db, raises);
      WentDown(migrations, n, n, listed, target, db, last, outcome, raises)
  {
    hide VersionSet, Undone;
    NoneRolledBack(migrations, db);
  }

  lemma DownTarget<S>(migrations: seq<Migration<S>>, n: nat, listed: set<string>, db: Database<S>, raises: set<string>)
    requires 0 < n <= |migrations| && migrations[n - 1].version in listed
    requires migrations[n - 1].down.Some? && migrations[n - 1].version !in raises
    ensures
      var (last, outcome) := RunDown(migrations, n, listed, migrations[n - 1].version, db, raises);
      WentDown(migrations, n, n - 1, listed, migrations[n - 1].version, db, last, outcome, raises)
  {
    var m := migrations[n - 1];
    assert Listed(migrations, n, n - 1, listed) == [m];
    forall v ensures v in VersionSet([m]) <==> v == m.version {
      assert [m][0].version == m.version;
    }
    assert VersionSet([m]) == {m.version};
    hide VersionSet;
    assert [m][1..] == [];
    assert Undone([m], db.schema) == m.down.value(db.schema);
    assert Versions([m]) == [m.version];
  }

  lemma DownStep<S>(migrations: seq<Migration<S>>, n: nat, stop: nat, listed: set<string>, target: string,
      db: Database<S>, raises: set<string>)
    requires 0 < n <= |migrations| && migrations[n - 1].version in listed && migrations[n - 1].version != target
    requires migrations[n - 1].down.Some? && migrations[n - 1].version !in raises
    requires
      var m := migrations[n - 1];
      var next := Database(db.applied - {m.version}, m.down.value(db.schema));
      var (last, outcome) := RunDown(migrations, n - 1, listed, target, next, raises);
      WentDown(migrations, n - 1, stop, listed, target, next, last, outcome, raises)
    ensures
      var (last, outcome) := RunDown(migrations, n, listed, target, db, raises);
      WentDown(migrations, n, stop, listed, target, db, last, outcome, raises)
  {
    hide VersionSet;
    var m := migrations[n - 1];
    var rest, back := Listed(migrations, n - 1, stop, listed), Listed(migrations, n, stop, listed);
    assert back == [m] + rest && back[1..] == rest;
    VersionSetFront(back, |back| - 1);
    assert back[..|back|] == back && back[1..][..|back| - 1] == rest;
    assert Versions(back) == [m.version] + Versions(rest);
  }

  class MigrationRunner<!S> {
    var migrations: seq<Migration<S>>
    var applied: set<string>
    var schema: S

    ghost function Value(): Runner<S>
      reads this
    {
      Runner(migrations, Database(applied, schema))
    }

    constructor (initial: S)
      ensures Value() == Run(initial, [])
    {
      migrations, applied, schema := [], {}, initial;
    }

    method AddMigration(m: Migration<S>)
      modifies this
      ensures Value() == Apply(old(Value()), Add(m)).0
    {
      migrations := migrations + [m];
    }

    method MigrateUp(raises: set<string>) returns (outcome: Outcome, ghost k: nat)
      modifies this
      ensures (Value(), outcome) == Apply(old(Value()), Up(raises)) && migrations == old(migrations)
      ensures WentUp(Pending(migrations, old(applied)), k, Database(old(applied), old(schema)), Database(applied, schema),
                     outcome, raises)
    {
      k := UpMeans(Pending(migrations, applied), Database(applied, schema), raises);
      var todo := Pending(migrations, applied);
      var versions := [];
      var i := 0;
      ghost var start := Database(applied, schema);
      assert todo[i..] == todo;
      AfterNothing(RunUp(todo, start, raises).1);
      while i < |todo|
        invariant i <= |todo| && migrations == old(migrations)
        invariant
          var (db, rest) := RunUp(todo[i..], Database(applied, schema), raises);
          RunUp(todo, start, raises) == (db, rest.After(versions))
      {
        var m := todo[i];
        assert todo[i..][1..] == todo[i + 1..];
        ghost var next := Database(applied + {m.version}, m.up(schema));
        AfterBoth(RunUp(todo[i + 1..], next, raises).1, versions, [m.version]);
        if m.version in raises {
          return Failed(m.version), k;
        }
        schema := m.up(schema);
        if m.version in applied {
          return Failed(m.version), k;
        }
        applied := applied + {m.version};
        versions := versions + [m.version];
        i := i + 1;
      }
      assert versions + [] == versions;
      return Done(versions), k;
    }

    method MigrateDown(version: string, raises: set<string>) returns (outcome: Outcome, ghost stop: nat)
      modifies this
      ensures (Value(), outcome) == Apply(old(Value()), Down(version, raises)) && migrations == old(migrations)
      ensures outcome.NotApplied? <==> version !in old(applied)
      ensures outcome.NotApplied? ==> applied == old(applied) && schema == old(schema) && outcome.version == version
      ensures version in old(applied) ==>
        WentDown(migrations, |migrations|, stop, old(applied), version, Database(old(applied), old(schema)),
                 Database(applied, schema), outcome, raises)
    {
      stop := DownMeans(migrations, |migrations|, applied, version, Database(applied, schema), raises);
      var listed := applied;
      if version !in listed {
        return NotApplied(version), stop;
      }
      var versions := [];
      var n := |migrations|;
      ghost var start := Database(applied, schema);
      AfterNothing(RunDown(migrations, n, listed, version, start, raises).1);
      while n > 0
        invariant 0 <= n <= |migrations| && migrations == old(migrations)
        invariant
          var (db, rest) := RunDown(migrations, n, listed, version, Database(applied, schema), raises);
          RunDown(migrations, |migrations|, listed, version, start, raises) == (db, rest.After(versions))
      {
        var m := migrations[n - 1];
        if m.version in listed {
          if m.down.None? {
            return NoRollback(m.version), stop;
          }
          if m.version in raises {
            return Failed(m.version), stop;
          }
          ghost var next := Database(applied - {m.version}, m.down.value(schema));
          AfterBoth(RunDown(migrations, n - 1, listed, version, next, raises).1, versions, [m.version]);
          schema := m.down.value(schema);
          applied := applied - {m.version};
          versions := versions + [m.version];
          if m.version == version {
            return Done(versions), stop;
          }
        }
        n := n - 1;
      }
      assert versions + [] == versions;
      return Done(versions), stop;
    }
  }
}
