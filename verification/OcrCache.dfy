/** backend/lexmind/ocr/cache/cache_backend.py and cache_types.py: the in-memory OCR cache.
    A digest is an opaque string, and the clock reading of a call is its `now`. */
module OcrCache {
  import opened Collections

  type Digest = string
  type Time = real

  datatype Entry = Entry(text: string, createdAt: Time)

  datatype Options = Options(ttl: Option<int>, maxEntries: Option<int>) {
    predicate Valid() {
      (ttl.Some? ==> ttl.value > 0) && (maxEntries.Some? ==> maxEntries.value > 0)
    }

    predicate IsExpired(e: Entry, now: Time) {
      ttl.Some? && now - e.createdAt > ttl.value as real
    }
  }

  /** `order` and `data` are an ordered dictionary: the keys in insertion order and their values. */
  datatype Cache = Cache(order: seq<Digest>, data: map<Digest, Entry>, hits: nat, misses: nat)

  const EMPTY := Cache([], map[], 0, 0)

  ghost predicate WellFormed(o: Options, c: Cache) {
    && NoDup(c.order)
    && (forall d :: d in c.order <==> d in c.data)
    && (o.maxEntries.Some? ==> |c.order| <= o.maxEntries.value)
  }

  datatype Op = Get(d: Digest) | Put(d: Digest, e: Entry) | Has(d: Digest) | Invalidate(d: Digest) | Clear

  datatype Call = Call(now: Time, op: Op)

  /** Ordered-dictionary deletion. */
  function Remove(c: Cache, d: Digest): Cache {
    if d in c.order
    then c.(order := c.order[..IndexOf(c.order, d)] + c.order[IndexOf(c.order, d) + 1..], data := c.data - {d})
    else c
  }

  /** Ordered-dictionary assignment: a known key keeps its place. */
  function Assign(c: Cache, d: Digest, e: Entry): Cache {
    c.(order := if d in c.order then c.order else c.order + [d], data := c.data[d := e])
  }

  /** Room is made before the assignment, by dropping the oldest keys while the cache is full. */
  function MakeRoom(c: Cache, max: int): Cache
    decreases |c.order|
  {
    if |c.order| >= max && c.order != [] then MakeRoom(Remove(c, c.order[0]), max) else c
  }

  predicate Live(o: Options, c: Cache, d: Digest, now: Time) {
    d in c.data && !o.IsExpired(c.data[d], now)
  }

  function Found(o: Options, c: Cache, d: Digest, now: Time): Option<Entry> {
    if Live(o, c, d, now) then Some(c.data[d]) else None
  }

  function Apply(o: Options, c: Cache, call: Call): Cache {
    match call.op
    case Get(d) =>
      if Live(o, c, d, call.now) then c.(hits := c.hits + 1)
      else Remove(c, d).(misses := c.misses + 1)
    case Put(d, e) => Assign(if o.maxEntries.Some? then MakeRoom(c, o.maxEntries.value) else c, d, e)
    case Has(d) => if Live(o, c, d, call.now) then c else Remove(c, d)
    case Invalidate(d) => Remove(c, d)
    case Clear => EMPTY
  }

  function RunFrom(o: Options, c: Cache, calls: seq<Call>): Cache {
    if calls == [] then c else Apply(o, RunFrom(o, c, calls[..|calls| - 1]), calls[|calls| - 1])
  }

  /** Invariants of every run */

  lemma RemoveFacts(c: Cache, d: Digest)
    requires NoDup(c.order) && forall x :: x in c.order <==> x in c.data
    ensures var r := Remove(c, d);
      && NoDup(r.order) && (forall x :: x in r.order <==> x in r.data)
      && r.data == c.data - {d}
      && |r.order| == |c.order| - (if d in c.data then 1 else 0)
      && (forall x :: x in r.order <==> x in c.order && x != d)
  {
    if d in c.order {
      var i := IndexOf(c.order, d);
      var r := Remove(c, d);
      forall x ensures x in r.order <==> x in c.order && x != d {
        if x in c.order && x != d {
          var j :| 0 <= j < |c.order| && c.order[j] == x;
          assert r.order[if j < i then j else j - 1] == x;
        }
      }
    }
  }

  lemma {:induction false} MakeRoomFacts(c: Cache, max: int)
    requires NoDup(c.order) && (forall x :: x in c.order <==> x in c.data) && 0 < max
    ensures var r := MakeRoom(c, max);
      && NoDup(r.order) && (forall x :: x in r.order <==> x in r.data)
      && |r.order| < max
      && r.hits == c.hits && r.misses == c.misses
      && (forall x :: x in r.data ==> x in c.data && r.data[x] == c.data[x])
    decreases |c.order|
  {
    if |c.order| >= max {
      RemoveFacts(c, c.order[0]);
      MakeRoomFacts(Remove(c, c.order[0]), max);
    }
  }

  lemma EmptyWellFormed(o: Options)
    requires o.Valid()
    ensures WellFormed(o, EMPTY)
  {
  }

  lemma PutWellFormed(o: Options, c: Cache, d: Digest, e: Entry)
    requires o.Valid() && WellFormed(o, c)
    ensures WellFormed(o, Assign(if o.maxEntries.Some? then MakeRoom(c, o.maxEntries.value) else c, d, e))
  {
    hide MakeRoom;
    if o.maxEntries.Some? {
      MakeRoomFacts(c, o.maxEntries.value);
    }
  }

  lemma ApplyWellFormed(o: Options, c: Cache, call: Call)
    requires o.Valid() && WellFormed(o, c)
    ensures WellFormed(o, Apply(o, c, call))
  {
    hide Remove, MakeRoom, Assign, NoDup;
    match call.op
    case Put(d, e) => PutWellFormed(o, c, d, e);
    case Clear => EmptyWellFormed(o);
    case Get(d) => RemoveFacts(c, d);
    case Has(d) => RemoveFacts(c, d);
    case Invalidate(d) => RemoveFacts(c, d);
  }

  /** Every run keeps the digests unique and the number of entries within the limit. */
  lemma {:induction false} RunWellFormed(o: Options, calls: seq<Call>)
    requires o.Valid()
    ensures WellFormed(o, RunFrom(o, EMPTY, calls))
    decreases |calls|
  {
    if calls != [] {
      RunWellFormed(o, calls[..|calls| - 1]);
      ApplyWellFormed(o, RunFrom(o, EMPTY, calls[..|calls| - 1]), calls[|calls| - 1]);
    }
  }

  /** The simple map the cache stands for: the last result put since the last invalidate or clear. */
  function LastPut(calls: seq<Call>, d: Digest): Option<Entry> {
    if calls == [] then None
    else match calls[|calls| - 1].op
      case Put(x, e) => if x == d then Some(e) else LastPut(calls[..|calls| - 1], d)
      case Invalidate(x) => if x == d then None else LastPut(calls[..|calls| - 1], d)
      case Clear => None
      case _ => LastPut(calls[..|calls| - 1], d)
  }

  ghost predicate ClockNondecreasing(calls: seq<Call>) {
    forall i, j :: 0 <= i <= j < |calls| ==> calls[i].now <= calls[j].now
  }

  /** What is stored was the last put; without a limit, what was put last is missing only if expired. */
  ghost predicate Mirrors(o: Options, c: Cache, calls: seq<Call>) {
    && (forall d :: d in c.data ==> LastPut(calls, d) == Some(c.data[d]))
    && (o.maxEntries.None? ==> forall d :: LastPut(calls, d).Some? && d !in c.data ==>
          calls != [] && o.IsExpired(LastPut(calls, d).value, calls[|calls| - 1].now))
  }

  lemma ApplyMirrors(o: Options, c: Cache, calls: seq<Call>, call: Call)
    requires o.Valid() && WellFormed(o, c) && Mirrors(o, c, calls)
    requires ClockNondecreasing(calls + [call])
    ensures Mirrors(o, Apply(o, c, call), calls + [call])
  {
    hide Remove, MakeRoom, NoDup;
    var calls' := calls + [call];
    assert calls'[..|calls'| - 1] == calls;
    assert calls != [] ==> calls'[|calls| - 1].now <= calls'[|calls|].now;
    forall d { LastPutOne(calls, call, d); }
    match call.op
    case Put(d, e) =>
      if o.maxEntries.Some? {
        MakeRoomFacts(c, o.maxEntries.value);
      }
    case Clear =>
    case Get(d) => RemoveFacts(c, d);
    case Has(d) => RemoveFacts(c, d);
    case Invalidate(d) => RemoveFacts(c, d);
  }

  lemma LastPutOne(calls: seq<Call>, call: Call, d: Digest)
    ensures LastPut(calls + [call], d) == match call.op
      case Put(x, e) => if x == d then Some(e) else LastPut(calls, d)
      case Invalidate(x) => if x == d then None else LastPut(calls, d)
      case Clear => None
      case _ => LastPut(calls, d)
  {
    assert (calls + [call])[..|calls|] == calls;
  }

  lemma {:induction false} RunMirrors(o: Options, calls: seq<Call>)
    requires o.Valid() && ClockNondecreasing(calls)
    ensures Mirrors(o, RunFrom(o, EMPTY, calls), calls)
    decreases |calls|
  {
    if calls != [] {
      var n := |calls| - 1;
      assert calls[..n] + [calls[n]] == calls;
      RunMirrors(o, calls[..n]);
      RunWellFormed(o, calls[..n]);
      ApplyMirrors(o, RunFrom(o, EMPTY, calls[..n]), calls[..n], calls[n]);
    }
  }

  /** A lookup after any run: a result is the last one put and not expired; without a limit the
      lookup is exactly that of the simple map. */
  lemma LookupIsLastPut(o: Options, calls: seq<Call>, now: Time, d: Digest)
    requires o.Valid() && ClockNondecreasing(calls + [Call(now, Get(d))])
    ensures
      var found := Found(o, RunFrom(o, EMPTY, calls), d, now);
      found.Some? ==> LastPut(calls, d) == found && (o.ttl.None? || now - found.value.createdAt <= o.ttl.value as real)
    ensures
      var found, put := Found(o, RunFrom(o, EMPTY, calls), d, now), LastPut(calls, d);
      o.maxEntries.None? ==>
        found == if put.Some? && (o.ttl.None? || now - put.value.createdAt <= o.ttl.value as real) then put else None
  {
    var all := calls + [Call(now, Get(d))];
    assert forall i :: 0 <= i < |calls| ==> all[i] == calls[i];
    assert calls != [] ==> all[|calls| - 1].now <= all[|calls|].now;
    RunMirrors(o, calls);
  }

  function GetsSinceClear(calls: seq<Call>): nat {
    if calls == [] || calls[|calls| - 1].op.Clear? then 0
    else GetsSinceClear(calls[..|calls| - 1]) + if calls[|calls| - 1].op.Get? then 1 else 0
  }

  /** The lookups since the last clear that found a live entry. */
  function HitsSinceClear(o: Options, calls: seq<Call>): nat {
    if calls == [] || calls[|calls| - 1].op.Clear? then 0
    else
      var n := |calls| - 1;
      HitsSinceClear(o, calls[..n])
      + if calls[n].op.Get? && Found(o, RunFrom(o, EMPTY, calls[..n]), calls[n].op.d, calls[n].now).Some? then 1 else 0
  }

  lemma {:induction false} CountersCountGets(o: Options, calls: seq<Call>)
    requires o.Valid()
    ensures RunFrom(o, EMPTY, calls).hits == HitsSinceClear(o, calls)
    ensures RunFrom(o, EMPTY, calls).hits + RunFrom(o, EMPTY, calls).misses == GetsSinceClear(calls)
    decreases |calls|
  {
    if calls != [] {
      var n := |calls| - 1;
      CountersCountGets(o, calls[..n]);
      if calls[n].op.Put? && o.maxEntries.Some? {
        RunWellFormed(o, calls[..n]);
        MakeRoomFacts(RunFrom(o, EMPTY, calls[..n]), o.maxEntries.value);
      }
    }
  }

  /** First in, first out */

  /** The number of entries younger than `d`. */
  function Younger(c: Cache, d: Digest): int {
    |c.order| - 1 - IndexOf(c.order, d)
  }

  function Puts(calls: seq<Call>): nat {
    if calls == [] then 0 else Puts(calls[..|calls| - 1]) + if calls[|calls| - 1].op.Put? then 1 else 0
  }

  /** The call does not itself take `d` out of the cache: no clear, no invalidation of `d`, and no
      lookup that finds it expired. */
  ghost predicate Spares(o: Options, c: Cache, call: Call, d: Digest) {
    && !call.op.Clear?
    && call.op != Invalidate(d)
    && (call.op == Get(d) || call.op == Has(d) ==> Live(o, c, d, call.now))
  }

  ghost predicate AllSpare(o: Options, c: Cache, calls: seq<Call>, d: Digest) {
    forall i :: 0 <= i < |calls| ==> Spares(o, RunFrom(o, c, calls[..i]), calls[i], d)
  }

  lemma RemoveOther(c: Cache, d: Digest, x: Digest)
    requires NoDup(c.order) && d in c.order && x != d
    ensures d in Remove(c, x).order && Younger(Remove(c, x), d) <= Younger(c, d)
  {
    if x in c.order {
      var i, j := IndexOf(c.order, x), IndexOf(c.order, d);
      var r := Remove(c, x).order;
      var k := if j < i then j else j - 1;
      assert r[k] == d;
      assert NoDup(r);
      IndexOfAt(r, k);
    }
  }

  lemma MakeRoomOnce(o: Options, c: Cache)
    requires o.Valid() && WellFormed(o, c) && o.maxEntries.Some?
    ensures MakeRoom(c, o.maxEntries.value) ==
      if |c.order| == o.maxEntries.value then Remove(c, c.order[0]) else c
  {
    if |c.order| == o.maxEntries.value {
      RemoveFacts(c, c.order[0]);
    }
  }

  lemma StepSpares(o: Options, c: Cache, call: Call, d: Digest)
    requires o.Valid() && WellFormed(o, c) && o.maxEntries.Some?
    requires d in c.order && Spares(o, c, call, d)
    requires call.op.Put? ==> Younger(c, d) < o.maxEntries.value - 1
    ensures d in Apply(o, c, call).order
    ensures Younger(Apply(o, c, call), d) <= Younger(c, d) + if call.op.Put? then 1 else 0
  {
    hide Remove, MakeRoom;
    match call.op
    case Put(x, e) =>
      MakeRoomOnce(o, c);
      var m := MakeRoom(c, o.maxEntries.value);
      if |c.order| == o.maxEntries.value {
        IndexOfAt(c.order, 0);
        RemoveOther(c, d, c.order[0]);
      }
      IndexOfAppend(m.order, d, x);
    case Get(x) => if x != d { RemoveOther(c, d, x); }
    case Has(x) => if x != d { RemoveOther(c, d, x); }
    case Invalidate(x) => RemoveOther(c, d, x);
    case Clear =>
  }

  lemma {:induction false} IndexOfAppend(s: seq<Digest>, d: Digest, x: Digest)
    requires d in s
    ensures IndexOf(s + [x], d) == IndexOf(s, d)
  {
    if s[0] != d {
      assert (s + [x])[1..] == s[1..] + [x];
      IndexOfAppend(s[1..], d, x);
    }
  }

  /** An entry put under an absent digest outlives the next `max - 1` puts, whatever else is called
      in between that does not itself remove it. */
  lemma {:induction false} SurvivesPuts(o: Options, c: Cache, first: Call, tail: seq<Call>)
    requires o.Valid() && WellFormed(o, c) && o.maxEntries.Some?
    requires first.op.Put? && first.op.d !in c.data
    requires AllSpare(o, Apply(o, c, first), tail, first.op.d)
    requires Puts(tail) <= o.maxEntries.value - 1
    ensures WellFormed(o, RunFrom(o, Apply(o, c, first), tail))
    ensures first.op.d in RunFrom(o, Apply(o, c, first), tail).data
    ensures Younger(RunFrom(o, Apply(o, c, first), tail), first.op.d) <= Puts(tail)
    decreases |tail|
  {
    var d, c1 := first.op.d, Apply(o, c, first);
    ApplyWellFormed(o, c, first);
    if tail == [] {
      FirstPutIsYoungest(o, c, first);
    } else {
      var n := |tail| - 1;
      forall i | 0 <= i < n ensures Spares(o, RunFrom(o, c1, tail[..n][..i]), tail[..n][i], d) {
        assert tail[..n][..i] == tail[..i];
      }
      SurvivesPuts(o, c, first, tail[..n]);
      var before := RunFrom(o, c1, tail[..n]);
      ApplyWellFormed(o, before, tail[n]);
      StepSpares(o, before, tail[n], d);
    }
  }

  lemma FirstPutIsYoungest(o: Options, c: Cache, first: Call)
    requires o.Valid() && WellFormed(o, c) && o.maxEntries.Some?
    requires first.op.Put? && first.op.d !in c.data
    ensures first.op.d in Apply(o, c, first).data && Younger(Apply(o, c, first), first.op.d) == 0
  {
    hide MakeRoom;
    MakeRoomFacts(c, o.maxEntries.value);
    var m := MakeRoom(c, o.maxEntries.value);
    ApplyWellFormed(o, c, first);
    IndexOfAt(m.order + [first.op.d], |m.order|);
  }

  /** Replacing an entry loses another one exactly when the cache is full and the entry is not the oldest;
      then the oldest one is gone and the cache is left one below its limit. */
  lemma ReplacingEvictsIff(o: Options, c: Cache, call: Call)
    requires o.Valid() && WellFormed(o, c) && call.op.Put? && call.op.d in c.data
    ensures
      var evicts := o.maxEntries.Some? && |c.order| == o.maxEntries.value && call.op.d != c.order[0];
      && ((exists x :: x in c.data && x != call.op.d && x !in Apply(o, c, call).data) <==> evicts)
      && (evicts ==> c.order[0] !in Apply(o, c, call).data)
      && |Apply(o, c, call).order| == if evicts then o.maxEntries.value - 1 else |c.order|
  {
    hide Remove, MakeRoom;
    if o.maxEntries.Some? {
      MakeRoomOnce(o, c);
      RemoveFacts(c, c.order[0]);
      assert c.order[0] in c.data;
    }
  }

  /** Each call puts a digest that the cache does not hold at that moment. */
  ghost predicate AllFreshPuts(o: Options, c: Cache, calls: seq<Call>) {
    forall i :: 0 <= i < |calls| ==> calls[i].op.Put? && calls[i].op.d !in RunFrom(o, c, calls[..i]).data
  }

  lemma RemoveOldest(c: Cache, d: Digest)
    requires NoDup(c.order) && d in c.order && c.order[0] != d
    ensures d in Remove(c, c.order[0]).order && Younger(Remove(c, c.order[0]), d) == Younger(c, d)
  {
    assert c.order == [c.order[0]] + c.order[1..];
    assert Remove(c, c.order[0]).order == c.order[1..];
  }

  lemma FreshPutAges(o: Options, c: Cache, d: Digest, call: Call)
    requires o.Valid() && WellFormed(o, c) && o.maxEntries.Some?
    requires d in c.data && Younger(c, d) < o.maxEntries.value - 1
    requires call.op.Put? && call.op.d !in c.data
    ensures d in Apply(o, c, call).data && Younger(Apply(o, c, call), d) == Younger(c, d) + 1
  {
    hide Remove, MakeRoom;
    MakeRoomOnce(o, c);
    var m := MakeRoom(c, o.maxEntries.value);
    if |c.order| == o.maxEntries.value {
      IndexOfAt(c.order, 0);
      RemoveOldest(c, d);
    }
    MakeRoomFacts(c, o.maxEntries.value);
    IndexOfAppend(m.order, d, call.op.d);
  }

  lemma {:induction false} FreshPutsAge(o: Options, c: Cache, d: Digest, tail: seq<Call>)
    requires o.Valid() && WellFormed(o, c) && o.maxEntries.Some?
    requires d in c.data && Younger(c, d) == 0
    requires AllFreshPuts(o, c, tail) && |tail| <= o.maxEntries.value - 1
    ensures WellFormed(o, RunFrom(o, c, tail))
    ensures d in RunFrom(o, c, tail).data && Younger(RunFrom(o, c, tail), d) == |tail|
    decreases |tail|
  {
    hide Apply, Younger, WellFormed;
    if tail != [] {
      var n := |tail| - 1;
      forall i | 0 <= i < n ensures tail[..n][..i] == tail[..i] {}
      FreshPutsAge(o, c, d, tail[..n]);
      ApplyWellFormed(o, RunFrom(o, c, tail[..n]), tail[n]);
      FreshPutAges(o, RunFrom(o, c, tail[..n]), d, tail[n]);
    }
  }

  /** The bound on survival is exact: after as many puts of fresh digests as the limit, the entry is gone. */
  lemma FreshPutsEvict(o: Options, c: Cache, d: Digest, tail: seq<Call>)
    requires o.Valid() && WellFormed(o, c) && o.maxEntries.Some?
    requires d in c.data && Younger(c, d) == 0
    requires AllFreshPuts(o, c, tail) && |tail| == o.maxEntries.value
    ensures d !in RunFrom(o, c, tail).data
  {
    hide Remove, MakeRoom;
    var n := |tail| - 1;
    forall i | 0 <= i < n ensures tail[..n][..i] == tail[..i] {}
    FreshPutsAge(o, c, d, tail[..n]);
    var b := RunFrom(o, c, tail[..n]);
    assert IndexOf(b.order, d) == 0;
    MakeRoomOnce(o, b);
    RemoveFacts(b, d);
  }

  /** `shorter` is the list without `d`; the others keep their order. */
  ghost predicate Leaves(order: seq<Digest>, d: Digest, shorter: seq<Digest>) {
    && (d !in order ==> shorter == order)
    && forall i :: 0 <= i < |order| && order[i] == d ==> shorter == order[..i] + order[i + 1..]
  }

  lemma RemoveIs(c: Cache, d: Digest)
    requires NoDup(c.order) && forall x :: x in c.order <==> x in c.data
    ensures Leaves(c.order, d, Remove(c, d).order) && Remove(c, d).data == c.data - {d}
    ensures Remove(c, d).hits == c.hits && Remove(c, d).misses == c.misses
  {
    forall i | 0 <= i < |c.order| && c.order[i] == d ensures i == IndexOf(c.order, d) {
      IndexOfAt(c.order, i);
    }
  }

  lemma OldestRemoved(c: Cache)
    requires NoDup(c.order) && (forall x :: x in c.order <==> x in c.data) && c.order != []
    ensures Remove(c, c.order[0]) == c.(order := c.order[1..], data := c.data - {c.order[0]})
    ensures forall x :: x in c.order[1..] <==> x in c.data && x != c.order[0]
  {
    assert c.order == [c.order[0]] + c.order[1..];
    IndexOfAt(c.order, 0);
    assert c.order[..0] + c.order[1..] == c.order[1..];
  }

  /** Putting appends a digest that is not stored and leaves a stored one in its place; a full cache first loses its
      oldest entry, even when that is the one put. */
  lemma PutIs(o: Options, c: Cache, call: Call)
    requires o.Valid() && WellFormed(o, c) && call.op.Put?
    ensures
      var d, after, full := call.op.d, Apply(o, c, call), o.maxEntries.Some? && |c.order| == o.maxEntries.value;
      && (!full ==> after.data == c.data[d := call.op.e] && after.order == if d in c.data then c.order else c.order + [d])
      && (full ==>
            && after.data == (c.data - {c.order[0]})[d := call.op.e]
            && after.order == if d in c.data && d != c.order[0] then c.order[1..] else c.order[1..] + [d])
      && after.hits == c.hits && after.misses == c.misses
  {
    hide Remove, MakeRoom;
    if o.maxEntries.Some? {
      MakeRoomOnce(o, c);
      if |c.order| == o.maxEntries.value {
        OldestRemoved(c);
      }
    }
  }

  /** The listed digests that a lookup would still find. */
  function LiveAmong(o: Options, c: Cache, listed: seq<Digest>, now: Time): set<Digest> {
    set d | d in listed && Live(o, c, d, now)
  }

  lemma LiveNone(o: Options, c: Cache, now: Time)
    ensures LiveAmong(o, c, c.order[..0], now) == {}
  {
  }

  lemma LiveOneMore(o: Options, c: Cache, i: nat, now: Time)
    requires WellFormed(o, c) && i < |c.order|
    ensures |LiveAmong(o, c, c.order[..i + 1], now)| ==
            |LiveAmong(o, c, c.order[..i], now)| + if o.IsExpired(c.data[c.order[i]], now) then 0 else 1
  {
    var d := c.order[i];
    var before := LiveAmong(o, c, c.order[..i], now);
    assert c.order[..i + 1] == c.order[..i] + [d];
    assert d !in c.order[..i] && d in c.data;
    assert LiveAmong(o, c, c.order[..i + 1], now) ==
           if o.IsExpired(c.data[d], now) then before else before + {d};
  }

  lemma LiveMeans(o: Options, c: Cache, now: Time)
    requires WellFormed(o, c)
    ensures LiveAmong(o, c, c.order, now)
            == set d | d in c.data && (o.ttl.None? || now - c.data[d].createdAt <= o.ttl.value as real)
  {
  }

  /** The cache object; every method does to it what `Apply` says. */
  class InMemoryOcrCacheBackend {
    const options: Options
    var order: seq<Digest>
    var data: map<Digest, Entry>
    var hits: nat
    var misses: nat

    function View(): Cache
      reads this
    {
      Cache(order, data, hits, misses)
    }

    ghost predicate Valid()
      reads this
    {
      options.Valid() && WellFormed(options, View())
    }

    constructor (options: Options)
      requires options.Valid()
      ensures Valid() && this.options == options && View() == EMPTY
    {
      this.options := options;
      order, data, hits, misses := [], map[], 0, 0;
    }

    /** `del self._store[digest]` */
    method Delete(d: Digest)
      requires Valid() && d in data
      modifies this`order, this`data
      ensures Valid() && View() == Remove(old(View()), d)
      ensures Leaves(old(order), d, order) && data == old(data) - {d}
    {
      hide Leaves, NoDup;
      RemoveFacts(View(), d);
      RemoveIs(View(), d);
      var i := IndexOf(order, d);
      order := order[..i] + order[i + 1..];
      data := data - {d};
    }

    method Get(d: Digest, now: Time) returns (r: Option<Entry>)
      requires Valid()
      modifies this
      ensures Valid() && View() == Apply(options, old(View()), Call(now, Op.Get(d)))
      ensures r == Found(options, old(View()), d, now)
      ensures r.Some? <==> d in old(data) && (options.ttl.None? || now - old(data)[d].createdAt <= options.ttl.value as real)
      ensures r.Some? ==> r.value == old(data)[d] && order == old(order) && data == old(data)
      ensures r.None? ==> Leaves(old(order), d, order) && data == old(data) - {d}
      ensures hits == old(hits) + (if r.Some? then 1 else 0) && misses == old(misses) + if r.Some? then 0 else 1
    {
      hide NoDup;
      if d !in data {
        misses := misses + 1;
        return None;
      }
      var result := data[d];
      if options.IsExpired(result, now) {
        Delete(d);
        misses := misses + 1;
        return None;
      }
      hits := hits + 1;
      r := Some(result);
    }

    method Put(d: Digest, e: Entry, now: Time)
      requires Valid()
      modifies this
      ensures Valid() && View() == Apply(options, old(View()), Call(now, Op.Put(d, e)))
      ensures
        var full := options.maxEntries.Some? && |old(order)| == options.maxEntries.value;
        && (!full ==> data == old(data)[d := e] && order == if d in old(data) then old(order) else old(order) + [d])
        && (full ==>
              var oldest, younger := old(order)[0], old(order)[1..];
              && data == (old(data) - {oldest})[d := e]
              && order == if d in old(data) && d != oldest then younger else younger + [d])
      ensures hits == old(hits) && misses == old(misses)
    {
      PutIs(options, View(), Call(now, Op.Put(d, e)));
      ApplyWellFormed(options, View(), Call(now, Op.Put(d, e)));
      if options.maxEntries.Some? {
        while |order| >= options.maxEntries.value
          invariant Valid() && MakeRoom(View(), options.maxEntries.value) == MakeRoom(old(View()), options.maxEntries.value)
          invariant hits == old(hits) && misses == old(misses)
          decreases |order|
        {
          RemoveFacts(View(), order[0]);
          Delete(order[0]);
        }
      }
      order := if d in order then order else order + [d];
      data := data[d := e];
    }

    method Has(d: Digest, now: Time) returns (r: bool)
      requires Valid()
      modifies this`order, this`data
      ensures Valid() && View() == Apply(options, old(View()), Call(now, Op.Has(d)))
      ensures r <==> d in old(data) && (options.ttl.None? || now - old(data)[d].createdAt <= options.ttl.value as real)
      ensures r ==> order == old(order) && data == old(data)
      ensures !r ==> Leaves(old(order), d, order) && data == old(data) - {d}
    {
      if d !in data {
        return false;
      }
      if options.IsExpired(data[d], now) {
        Delete(d);
        return false;
      }
      r := true;
    }

    method Invalidate(d: Digest, now: Time) returns (r: bool)
      requires Valid()
      modifies this`order, this`data
      ensures Valid() && View() == Apply(options, old(View()), Call(now, Op.Invalidate(d)))
      ensures r <==> d in old(data)
      ensures Leaves(old(order), d, order) && data == old(data) - {d}
    {
      if d in data {
        Delete(d);
        return true;
      }
      r := false;
    }

    method Clear(now: Time)
      requires Valid()
      modifies this
      ensures Valid() && View() == Apply(options, old(View()), Call(now, Op.Clear))
      ensures order == [] && data == map[] && hits == 0 && misses == 0
    {
      order, data, hits, misses := [], map[], 0, 0;
    }

    /** Counts the entries that a lookup would still find, without removing the others. */
    method Stats(now: Time) returns (h: nat, m: nat, size: nat)
      requires Valid()
      ensures h == hits && m == misses
      ensures size == |set d | d in data && (options.ttl.None? || now - data[d].createdAt <= options.ttl.value as real)|
    {
      hide Live;
      size := 0;
      LiveNone(options, View(), now);
      for i := 0 to |order|
        invariant size == |LiveAmong(options, View(), order[..i], now)|
      {
        LiveOneMore(options, View(), i, now);
        if options.ttl.None? || now - data[order[i]].createdAt <= options.ttl.value as real {
          size := size + 1;
        }
      }
      assert order[..|order|] == order;
      LiveMeans(options, View(), now);
      h, m := hits, misses;
    }
  }
}
