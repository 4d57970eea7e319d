/** backend/lexmind/watcher/file_watcher.py: the debounce buffer between a watch backend and the event
    dispatcher. The clock is a nondecreasing input; the dispatcher is the list of events it received. */
module FileWatcher {
  import opened Collections
  import opened PollingBackend

  datatype RawEvent = RawEvent(watchId: WatchId, uri: string, suffix: string, name: string, kind: Kind, size: nat)

  datatype FileEvent = FileEvent(workspaceId: string, watchId: WatchId, uri: string, name: string, kind: Kind,
      size: nat)

  /** An accepted event that has not been dispatched, and when it was accepted. */
  datatype Pending = Pending(timestamp: real, event: RawEvent)

  function Built(config: WatchConfig, raw: RawEvent): FileEvent {
    FileEvent(config.workspaceId, raw.watchId, raw.uri, raw.name, raw.kind, raw.size)
  }

  /** The buffer keeps at most one event per file, in the order the files were first buffered. */

  predicate OnePerUri(pending: seq<Pending>) {
    forall i, j :: 0 <= i < j < |pending| ==> pending[i].event.uri != pending[j].event.uri
  }

  function Uris(pending: seq<Pending>): set<string> {
    set p | p in pending :: p.event.uri
  }

  /** Assigning to a key of the buffer: an existing key keeps its place. */
  function Put(pending: seq<Pending>, p: Pending): seq<Pending> {
    if pending == [] then [p]
    else if pending[0].event.uri == p.event.uri then [p] + pending[1..]
    else [pending[0]] + Put(pending[1..], p)
  }

  lemma {:induction false} PutReplaces(pending: seq<Pending>, p: Pending)
    requires OnePerUri(pending)
    ensures OnePerUri(Put(pending, p))
    ensures forall q :: q in Put(pending, p) <==> q == p || (q in pending && q.event.uri != p.event.uri)
  {
    if pending != [] {
      assert pending == [pending[0]] + pending[1..];
      if pending[0].event.uri != p.event.uri {
        PutReplaces(pending[1..], p);
        assert forall q :: q in pending[1..] ==> q.event.uri != pending[0].event.uri;
      } else {
        assert forall q :: q in pending[1..] ==> q.event.uri != p.event.uri;
      }
    }
  }

  /** A buffered file keeps its place; a new one comes last. */
  lemma {:induction false} PutKeepsPlace(pending: seq<Pending>, p: Pending)
    requires OnePerUri(pending)
    ensures forall i :: 0 <= i < |pending| && pending[i].event.uri == p.event.uri ==> Put(pending, p) == pending[i := p]
    ensures (forall q :: q in pending ==> q.event.uri != p.event.uri) ==> Put(pending, p) == pending + [p]
  {
    if pending != [] {
      assert pending == [pending[0]] + pending[1..];
      PutKeepsPlace(pending[1..], p);
      forall i | 0 <= i < |pending| && pending[i].event.uri == p.event.uri ensures Put(pending, p) == pending[i := p] {
        if i > 0 {
          assert pending[1..][i - 1] == pending[i];
        }
      }
    }
  }

  /** Popping keys from the buffer. */
  function Without(pending: seq<Pending>, uris: set<string>): seq<Pending> {
    if pending == [] then []
    else if pending[0].event.uri in uris then Without(pending[1..], uris)
    else [pending[0]] + Without(pending[1..], uris)
  }

  lemma {:induction false} WithoutRemoves(pending: seq<Pending>, uris: set<string>)
    ensures OnePerUri(pending) ==> OnePerUri(Without(pending, uris))
    ensures forall q :: q in Without(pending, uris) <==> q in pending && q.event.uri !in uris
  {
    if pending != [] {
      assert pending == [pending[0]] + pending[1..];
      WithoutRemoves(pending[1..], uris);
    }
  }

  lemma {:induction false} WithoutTwice(pending: seq<Pending>, a: set<string>, b: set<string>)
    ensures Without(Without(pending, a), b) == Without(pending, a + b)
  {
    if pending != [] {
      WithoutTwice(pending[1..], a, b);
    }
  }

  lemma {:induction false} WithoutNothing(pending: seq<Pending>)
    ensures Without(pending, {}) == pending
  {
    if pending != [] {
      WithoutNothing(pending[1..]);
    }
  }

  /** History: every accepted event with its time, and for every dispatched event which accepted one it was. */

  datatype Accepted = Accepted(event: RawEvent, time: real)

  /** `seen` is the number of events accepted before the dispatch. */
  datatype Sent = Sent(index: nat, seen: nat, at: real, forced: bool, config: WatchConfig)

  datatype History = History(accepted: seq<Accepted>, sent: seq<Sent>, overwritten: set<nat>)

  function Last(accepted: seq<Accepted>, uri: string): (r: int)
    ensures -1 <= r < |accepted|
    ensures r >= 0 ==> accepted[r].event.uri == uri
    ensures forall j :: r < j < |accepted| ==> accepted[j].event.uri != uri
  {
    if accepted == [] then -1
    else
      var n := |accepted| - 1;
      if accepted[n].event.uri == uri then n else Last(accepted[..n], uri)
  }

  function AcceptInto(h: History, buffered: set<string>, e: RawEvent, now: real): History {
    var earlier := Last(h.accepted, e.uri);
    h.(accepted := h.accepted + [Accepted(e, now)],
       overwritten := if e.uri in buffered && earlier >= 0 then h.overwritten + {earlier} else h.overwritten)
  }

  function SendFrom(h: History, uri: string, now: real, forced: bool, config: WatchConfig): History {
    var last := Last(h.accepted, uri);
    if last < 0 then h else h.(sent := h.sent + [Sent(last, |h.accepted|, now, forced, config)])
  }

  lemma AcceptsOne(h: History, buffered: set<string>, e: RawEvent, now: real)
    ensures AcceptInto(h, buffered, e, now).accepted == h.accepted + [Accepted(e, now)]
  {
  }

  predicate WasSent(h: History, i: nat) {
    exists k :: 0 <= k < |h.sent| && h.sent[k].index == i
  }

  /** A dispatched event was the newest accepted one of its file, and unless forced it was old enough;
      whatever was accepted after the dispatch is not older than it. */
  ghost predicate SentWell(accepted: seq<Accepted>, s: Sent) {
    && s.index < s.seen <= |accepted|
    && (forall j :: s.index < j < s.seen ==> accepted[j].event.uri != accepted[s.index].event.uri)
    && (!s.forced ==> s.at - accepted[s.index].time >= s.config.debounceSeconds)
    && (forall j :: s.seen <= j < |accepted| ==> accepted[j].time >= s.at)
  }

  /** For every file, events are dispatched in the order in which they were accepted, none twice. */
  ghost predicate InOrder(h: History) {
    && (forall s :: s in h.sent ==> s.index < |h.accepted|)
    && forall k, l :: 0 <= k < l < |h.sent| && h.accepted[h.sent[k].index].event.uri == h.accepted[h.sent[l].index].event.uri
          ==> h.sent[k].index < h.sent[l].index
  }

  predicate Waits(h: History, buffered: set<string>, i: nat)
    requires i < |h.accepted|
  {
    h.accepted[i].event.uri in buffered && i == Last(h.accepted, h.accepted[i].event.uri)
  }

  /** Every accepted event is dispatched, overwritten by a newer one of its file, or waiting; never two of these. */
  ghost predicate Partitioned(h: History, buffered: set<string>) {
    && (forall i :: i in h.overwritten ==> i < |h.accepted| && i < Last(h.accepted, h.accepted[i].event.uri))
    && (forall i :: 0 <= i < |h.accepted| ==> WasSent(h, i) || i in h.overwritten || Waits(h, buffered, i))
    && (forall i :: 0 <= i < |h.accepted| && WasSent(h, i) ==> i !in h.overwritten && !Waits(h, buffered, i))
  }

  ghost predicate AllSentWell(h: History) {
    forall s :: s in h.sent ==> SentWell(h.accepted, s)
  }

  ghost predicate WellKept(h: History, buffered: set<string>) {
    && AllSentWell(h)
    && InOrder(h)
    && Partitioned(h, buffered)
    && forall uri :: uri in buffered ==> Last(h.accepted, uri) >= 0
  }

  lemma LastAfter(accepted: seq<Accepted>, a: Accepted, uri: string)
    ensures Last(accepted + [a], uri) == if a.event.uri == uri then |accepted| else Last(accepted, uri)
  {
    assert (accepted + [a])[..|accepted|] == accepted;
  }

  lemma AcceptSentWell(h: History, buffered: set<string>, e: RawEvent, now: real)
    requires AllSentWell(h) && forall s :: s in h.sent ==> s.at <= now
    ensures AllSentWell(AcceptInto(h, buffered, e, now))
  {
    hide Last;
  }

  lemma AcceptInOrder(h: History, buffered: set<string>, e: RawEvent, now: real)
    requires InOrder(h)
    ensures InOrder(AcceptInto(h, buffered, e, now))
  {
    hide Last;
    var h' := AcceptInto(h, buffered, e, now);
    assert forall i :: 0 <= i < |h.accepted| ==> h'.accepted[i] == h.accepted[i];
  }

  lemma SameSent(h: History, h': History, i: nat)
    requires InOrder(h) && h'.sent == h.sent
    ensures WasSent(h', i) == WasSent(h, i) && (WasSent(h, i) ==> i < |h.accepted|)
  {
  }

  /** A new event waits, and takes the place of an older one of its file. */
  lemma WaitsNext(h: History, buffered: set<string>, e: RawEvent, now: real, i: nat)
    requires i <= |h.accepted|
    ensures Waits(AcceptInto(h, buffered, e, now), buffered + {e.uri}, i) <==>
            i == |h.accepted| || (Waits(h, buffered, i) && h.accepted[i].event.uri != e.uri)
  {
    LastAfter(h.accepted, Accepted(e, now), AcceptInto(h, buffered, e, now).accepted[i].event.uri);
    hide Last;
  }

  lemma WaitingFileIsBuffered(h: History, buffered: set<string>, uri: string, i: nat)
    requires i < |h.accepted| && h.accepted[i].event.uri == uri
    ensures Waits(h, buffered, i) <==> uri in buffered && i == Last(h.accepted, uri)
  {
  }

  lemma AcceptPartitioned(h: History, buffered: set<string>, e: RawEvent, now: real)
    requires WellKept(h, buffered)
    ensures Partitioned(AcceptInto(h, buffered, e, now), buffered + {e.uri})
  {
    hide Last, AllSentWell, InOrder, WasSent, Waits;
    var h' := AcceptInto(h, buffered, e, now);
    var n, last := |h.accepted|, Last(h.accepted, e.uri);
    if last >= 0 {
      WaitingFileIsBuffered(h, buffered, e.uri, last);
    }
    forall i: nat | i <= n
      ensures WasSent(h', i) == WasSent(h, i) && (WasSent(h, i) ==> i < n)
      ensures Waits(h', buffered + {e.uri}, i) <==> i == n || (Waits(h, buffered, i) && h.accepted[i].event.uri != e.uri)
    {
      SameSent(h, h', i);
      WaitsNext(h, buffered, e, now, i);
    }
    forall i | i in h'.overwritten ensures i < n + 1 && i < Last(h'.accepted, h'.accepted[i].event.uri) {
      LastAfter(h.accepted, Accepted(e, now), h.accepted[i].event.uri);
    }
    forall i | 0 <= i < n
      ensures WasSent(h', i) || i in h'.overwritten || Waits(h', buffered + {e.uri}, i)
      ensures WasSent(h', i) ==> i !in h'.overwritten && !Waits(h', buffered + {e.uri}, i)
    {
      assert WasSent(h, i) || i in h.overwritten || Waits(h, buffered, i);
      WaitingFileIsBuffered(h, buffered, h.accepted[i].event.uri, i);
    }
  }

  lemma AcceptKeeps(h: History, buffered: set<string>, e: RawEvent, now: real)
    requires WellKept(h, buffered) && forall s :: s in h.sent ==> s.at <= now
    ensures WellKept(AcceptInto(h, buffered, e, now), buffered + {e.uri})
  {
    hide AllSentWell, InOrder, Partitioned;
    AcceptSentWell(h, buffered, e, now);
    AcceptInOrder(h, buffered, e, now);
    AcceptPartitioned(h, buffered, e, now);
    forall uri | uri in buffered + {e.uri} ensures Last(AcceptInto(h, buffered, e, now).accepted, uri) >= 0 {
      LastAfter(h.accepted, Accepted(e, now), uri);
    }
  }

  lemma SendKeeps(h: History, buffered: set<string>, uri: string, now: real, forced: bool, config: WatchConfig)
    requires WellKept(h, buffered) && uri in buffered
    requires !forced ==> now - h.accepted[Last(h.accepted, uri)].time >= config.debounceSeconds
    ensures WellKept(SendFrom(h, uri, now, forced, config), buffered - {uri})
  {
    hide Last;
    var h' := SendFrom(h, uri, now, forced, config);
    var last := Last(h.accepted, uri);
    var s := Sent(last, |h.accepted|, now, forced, config);
    assert h'.sent == h.sent + [s];
    assert SentWell(h.accepted, s);
    assert Waits(h, buffered, last);
    assert !WasSent(h, last);
    SendPartitioned(h, buffered, uri, s);
  }

  lemma SendPartitioned(h: History, buffered: set<string>, uri: string, s: Sent)
    requires Partitioned(h, buffered) && s.index == Last(h.accepted, uri) && uri in buffered
    ensures Partitioned(h.(sent := h.sent + [s]), buffered - {uri})
  {
    hide Last;
    var h' := h.(sent := h.sent + [s]);
    forall i: nat ensures WasSent(h', i) <==> WasSent(h, i) || i == s.index {
      assert h'.sent[|h.sent|] == s;
      if WasSent(h, i) {
        var k :| 0 <= k < |h.sent| && h.sent[k].index == i;
        assert h'.sent[k].index == i;
      }
    }
    forall i | 0 <= i < |h.accepted|
      ensures WasSent(h', i) || i in h'.overwritten || Waits(h', buffered - {uri}, i)
      ensures WasSent(h', i) ==> i !in h'.overwritten && !Waits(h', buffered - {uri}, i)
    {
      assert WasSent(h, i) || i in h.overwritten || Waits(h, buffered, i);
    }
  }

  /** The results */

  /** An event dispatched without a flush had no newer accepted event for its file during its debounce window. */
  lemma QuietWindow(h: History, buffered: set<string>, k: nat, j: nat)
    requires WellKept(h, buffered) && k < |h.sent| && !h.sent[k].forced
    requires h.sent[k].index < j < |h.accepted|
    requires h.accepted[j].event.uri == h.accepted[h.sent[k].index].event.uri
    ensures h.accepted[j].time >= h.accepted[h.sent[k].index].time + h.sent[k].config.debounceSeconds
  {
    assert SentWell(h.accepted, h.sent[k]);
  }

  /** Once nothing is pending, the last dispatched event of every file is its last accepted one. */
  lemma NothingPending(h: History, uri: string) returns (k: nat)
    requires WellKept(h, {}) && Last(h.accepted, uri) >= 0
    ensures k < |h.sent| && h.sent[k].index == Last(h.accepted, uri)
    ensures forall l :: k < l < |h.sent| ==> h.accepted[h.sent[l].index].event.uri != uri
  {
    var last := Last(h.accepted, uri);
    assert WasSent(h, last) || last in h.overwritten || Waits(h, {}, last);
    k :| 0 <= k < |h.sent| && h.sent[k].index == last;
    forall l | k < l < |h.sent| ensures h.accepted[h.sent[l].index].event.uri != uri {
      assert h.sent[l] in h.sent;
    }
  }

  function Indices(n: nat): (r: set<nat>)
    ensures |r| == n && forall i: nat :: i in r <==> i < n
  {
    if n == 0 then {} else Indices(n - 1) + {n - 1}
  }

  function SentIndices(h: History): set<nat> {
    set i | i in Indices(|h.accepted|) && WasSent(h, i)
  }

  function WaitingIndices(h: History, buffered: set<string>): set<nat> {
    set i | i in Indices(|h.accepted|) && Waits(h, buffered, i)
  }

  /** Nothing is lost and nothing is made up: accepted = dispatched + overwritten + pending. */
  lemma Conserved(h: History, buffered: set<string>)
    requires WellKept(h, buffered)
    ensures |h.accepted| == |h.sent| + |h.overwritten| + |buffered|
  {
    hide AllSentWell, InOrder, WasSent, Waits;
    var all, sent, waiting := Indices(|h.accepted|), SentIndices(h), WaitingIndices(h, buffered);
    SentCard(h);
    WaitingCard(h, buffered);
    assert forall i: nat :: i in all <==> i in sent || i in h.overwritten || i in waiting;
    assert all == sent + h.overwritten + waiting;
    assert sent !! h.overwritten && sent !! waiting;
    assert waiting !! h.overwritten by { WaitingNotOverwritten(h, buffered); }
  }

  lemma WaitingNotOverwritten(h: History, buffered: set<string>)
    requires Partitioned(h, buffered)
    ensures WaitingIndices(h, buffered) !! h.overwritten
  {
    hide Last, WasSent;
  }

  lemma SentCard(h: History)
    requires InOrder(h)
    ensures |SentIndices(h)| == |h.sent|
  {
    var indices := seq(|h.sent|, k requires 0 <= k < |h.sent| => h.sent[k].index);
    forall k, l | 0 <= k < l < |indices| ensures indices[k] != indices[l] {
      assert h.sent[k] in h.sent && h.sent[l] in h.sent;
    }
    forall i: nat ensures i in indices <==> i in SentIndices(h) {
      if i in indices {
        var k :| 0 <= k < |indices| && indices[k] == i;
        assert h.sent[k] in h.sent && h.sent[k].index == i;
      }
      if WasSent(h, i) {
        var k :| 0 <= k < |h.sent| && h.sent[k].index == i;
        assert indices[k] == i;
      }
    }
    NoDupLength(indices, SentIndices(h));
    NoDupCard(indices, SentIndices(h));
  }

  /** Each buffered file waits with exactly one event. */
  lemma {:induction false} WaitingCard(h: History, buffered: set<string>)
    requires forall uri :: uri in buffered ==> Last(h.accepted, uri) >= 0
    ensures |WaitingIndices(h, buffered)| == |buffered|
    decreases buffered
  {
    hide Last;
    if buffered == {} {
      assert WaitingIndices(h, buffered) == {};
    } else {
      var uri :| uri in buffered;
      var rest := buffered - {uri};
      WaitingCard(h, rest);
      assert WaitingIndices(h, buffered) == WaitingIndices(h, rest) + {Last(h.accepted, uri)};
      assert Last(h.accepted, uri) !in WaitingIndices(h, rest);
    }
  }

  /** Draining the buffer */

  function DebounceOf(configs: map<WatchId, WatchConfig>, p: Pending): real {
    if p.event.watchId in configs then configs[p.event.watchId].debounceSeconds else 0.0
  }

  predicate IsDue(configs: map<WatchId, WatchConfig>, now: real, force: bool, p: Pending) {
    force || now - p.timestamp >= DebounceOf(configs, p)
  }

  function Due(configs: map<WatchId, WatchConfig>, pending: seq<Pending>, now: real, force: bool): seq<Pending> {
    if pending == [] then []
    else (if IsDue(configs, now, force, pending[0]) then [pending[0]] else []) + Due(configs, pending[1..], now, force)
  }

  lemma {:induction false} DueSelects(configs: map<WatchId, WatchConfig>, pending: seq<Pending>, now: real, force: bool)
    ensures forall p :: p in Due(configs, pending, now, force) <==> p in pending && IsDue(configs, now, force, p)
    ensures OnePerUri(pending) ==> OnePerUri(Due(configs, pending, now, force))
    ensures force ==> Due(configs, pending, now, force) == pending
  {
    hide IsDue, DebounceOf;
    if pending != [] {
      assert pending == [pending[0]] + pending[1..];
      assert OnePerUri(pending) ==> forall q :: q in pending[1..] ==> q.event.uri != pending[0].event.uri;
      DueSelects(configs, pending[1..], now, force);
      assert force ==> IsDue(configs, now, force, pending[0]) by { ForcedIsDue(configs, now, pending[0]); }
    }
  }

  /** The due events come out in the order of the buffer: `at` lists their places in it. */
  lemma {:induction false} DueInOrder(configs: map<WatchId, WatchConfig>, pending: seq<Pending>, now: real)
    returns (at: seq<nat>)
    ensures forall k, l :: 0 <= k < l < |at| ==> at[k] < at[l]
    ensures forall k :: 0 <= k < |at| ==> at[k] < |pending|
    ensures Due(configs, pending, now, false) == seq(|at|, k requires 0 <= k < |at| => pending[at[k]])
    ensures forall i :: 0 <= i < |pending| && pending[i].event.watchId in configs ==>
      (i in at <==> now - pending[i].timestamp >= configs[pending[i].event.watchId].debounceSeconds)
    decreases |pending|
  {
    if pending == [] {
      at := [];
    } else {
      var n := |pending| - 1;
      assert pending == pending[..n] + [pending[n]];
      DueAppend(configs, pending[..n], pending[n], now);
      at := DueInOrder(configs, pending[..n], now);
      if IsDue(configs, now, false, pending[n]) {
        at := at + [n];
      }
    }
  }

  lemma {:induction false} DueAppend(configs: map<WatchId, WatchConfig>, pending: seq<Pending>, p: Pending, now: real)
    ensures Due(configs, pending + [p], now, false)
            == Due(configs, pending, now, false) + if IsDue(configs, now, false, p) then [p] else []
  {
    hide IsDue;
    if pending == [] {
      assert [p][1..] == [];
    } else {
      assert (pending + [p])[1..] == pending[1..] + [p];
      DueAppend(configs, pending[1..], p, now);
    }
  }

  lemma ForcedIsDue(configs: map<WatchId, WatchConfig>, now: real, p: Pending)
    ensures IsDue(configs, now, true, p)
  {
  }

  /** Dispatching drops an event whose watch has no configuration; for accepted events there always is one. */
  function SendAll(h: History, due: seq<Pending>, configs: map<WatchId, WatchConfig>, now: real, force: bool): History {
    if due == [] then h
    else
      var before, p := SendAll(h, due[..|due| - 1], configs, now, force), due[|due| - 1];
      if p.event.watchId in configs then SendFrom(before, p.event.uri, now, force, configs[p.event.watchId]) else before
  }

  function BuiltAll(due: seq<Pending>, configs: map<WatchId, WatchConfig>): seq<FileEvent> {
    if due == [] then []
    else
      var p := due[|due| - 1];
      BuiltAll(due[..|due| - 1], configs) + if p.event.watchId in configs then [Built(configs[p.event.watchId], p.event)] else []
  }

  /** One event is delivered for each, in this order, with its fields and the workspace of its watch. */
  lemma {:induction false} BuiltAllAre(due: seq<Pending>, configs: map<WatchId, WatchConfig>)
    requires forall p :: p in due ==> p.event.watchId in configs
    ensures |BuiltAll(due, configs)| == |due|
    ensures forall k :: 0 <= k < |due| ==>
      var e := due[k].event;
      BuiltAll(due, configs)[k] == FileEvent(configs[e.watchId].workspaceId, e.watchId, e.uri, e.name, e.kind, e.size)
    decreases |due|
  {
    if due != [] {
      var n := |due| - 1;
      assert due[n] in due;
      BuiltAllAre(due[..n], configs);
    }
  }

  /** How the buffer, the dispatched events and the clock fit the history. */
  ghost predicate Coherent(configs: map<WatchId, WatchConfig>, pending: seq<Pending>, dispatched: seq<FileEvent>,
      h: History, latest: real)
  {
    && OnePerUri(pending) && WellKept(h, Uris(pending))
    && (forall p :: p in pending ==>
          && p.event.watchId in configs && Last(h.accepted, p.event.uri) >= 0
          && h.accepted[Last(h.accepted, p.event.uri)] == Accepted(p.event, p.timestamp))
    && (forall s :: s in h.sent ==> s.at <= latest)
    && Delivered(h, dispatched)
  }

  /** What the dispatcher received is, in order, built from the events the history calls dispatched. */
  ghost predicate Delivered(h: History, dispatched: seq<FileEvent>) {
    && |dispatched| == |h.sent|
    && forall k :: 0 <= k < |h.sent| ==>
         h.sent[k].index < |h.accepted| && dispatched[k] == Built(h.sent[k].config, h.accepted[h.sent[k].index].event)
  }

  lemma CoherentStart(configs: map<WatchId, WatchConfig>, latest: real)
    ensures Coherent(configs, [], [], History([], [], {}), latest)
  {
  }

  lemma CoherentRegister(configs: map<WatchId, WatchConfig>, pending: seq<Pending>, dispatched: seq<FileEvent>,
      h: History, latest: real, config: WatchConfig)
    requires Coherent(configs, pending, dispatched, h, latest)
    ensures Coherent(configs[config.watchId := config], pending, dispatched, h, latest)
  {
    hide OnePerUri, WellKept, Last, Delivered;
  }

  lemma CoherentAccept(configs: map<WatchId, WatchConfig>, pending: seq<Pending>, dispatched: seq<FileEvent>,
      h: History, latest: real, raw: RawEvent, now: real)
    requires Coherent(configs, pending, dispatched, h, latest) && now >= latest && raw.watchId in configs
    ensures Coherent(configs, Put(pending, Pending(now, raw)), dispatched, AcceptInto(h, Uris(pending), raw, now), now)
  {
    hide OnePerUri, WellKept, Last, Put;
    var h' := AcceptInto(h, Uris(pending), raw, now);
    var pending' := Put(pending, Pending(now, raw));
    AcceptKeeps(h, Uris(pending), raw, now);
    PutReplaces(pending, Pending(now, raw));
    assert Uris(pending') == Uris(pending) + {raw.uri} by {
      assert Pending(now, raw) in pending';
      forall uri | uri in Uris(pending) ensures uri in Uris(pending') {
        var p :| p in pending && p.event.uri == uri;
        assert p.event.uri != raw.uri ==> p in pending';
      }
    }
    forall uri ensures Last(h'.accepted, uri) == if raw.uri == uri then |h.accepted| else Last(h.accepted, uri) {
      LastAfter(h.accepted, Accepted(raw, now), uri);
    }
  }

  lemma CoherentSend(configs: map<WatchId, WatchConfig>, pending: seq<Pending>, dispatched: seq<FileEvent>,
      h: History, now: real, p: Pending, force: bool)
    requires Coherent(configs, pending, dispatched, h, now) && p in pending && IsDue(configs, now, force, p)
    ensures p.event.watchId in configs
    ensures
      var config := configs[p.event.watchId];
      Coherent(configs, Without(pending, {p.event.uri}), dispatched + [Built(config, p.event)],
               SendFrom(h, p.event.uri, now, force, config), now)
  {
    hide OnePerUri, WellKept, Last, Without;
    SendKeeps(h, Uris(pending), p.event.uri, now, force, configs[p.event.watchId]);
    WithoutRemoves(pending, {p.event.uri});
    assert Uris(Without(pending, {p.event.uri})) == Uris(pending) - {p.event.uri};
  }

  lemma CoherentNow(configs: map<WatchId, WatchConfig>, pending: seq<Pending>, dispatched: seq<FileEvent>,
      h: History, latest: real, now: real)
    requires Coherent(configs, pending, dispatched, h, latest) && latest <= now
    ensures Coherent(configs, pending, dispatched, h, now)
  {
    hide OnePerUri, WellKept, Last, Delivered;
  }

  lemma BufferUnique(configs: map<WatchId, WatchConfig>, pending: seq<Pending>, dispatched: seq<FileEvent>,
      h: History, latest: real)
    requires Coherent(configs, pending, dispatched, h, latest)
    ensures OnePerUri(pending)
  {
  }

  lemma NotYetPopped(pending: seq<Pending>, due: seq<Pending>, i: nat)
    requires OnePerUri(due) && i < |due| && due[i] in pending
    ensures due[i] in Without(pending, Uris(due[..i]))
    ensures Uris(due[..i + 1]) == Uris(due[..i]) + {due[i].event.uri}
    ensures Without(Without(pending, Uris(due[..i])), {due[i].event.uri}) == Without(pending, Uris(due[..i + 1]))
  {
    WithoutRemoves(pending, Uris(due[..i]));
    assert due[..i + 1] == due[..i] + [due[i]];
    WithoutTwice(pending, Uris(due[..i]), {due[i].event.uri});
  }

  lemma OneMoreSent(h: History, due: seq<Pending>, i: nat, configs: map<WatchId, WatchConfig>, now: real, force: bool)
    requires i < |due| && due[i].event.watchId in configs
    ensures SendAll(h, due[..i + 1], configs, now, force) ==
            SendFrom(SendAll(h, due[..i], configs, now, force), due[i].event.uri, now, force, configs[due[i].event.watchId])
    ensures BuiltAll(due[..i + 1], configs) == BuiltAll(due[..i], configs) + [Built(configs[due[i].event.watchId], due[i].event)]
  {
    assert due[..i + 1][..i] == due[..i];
  }

  /** The service takes events of registered, enabled watches whose file type is wanted. */
  predicate Admits(configs: map<WatchId, WatchConfig>, raw: RawEvent) {
    raw.watchId in configs && configs[raw.watchId].enabled && configs[raw.watchId].AcceptsExtension(raw.suffix)
  }

  lemma WatchesKnown(configs: map<WatchId, WatchConfig>, pending: seq<Pending>, dispatched: seq<FileEvent>,
      h: History, latest: real)
    requires Coherent(configs, pending, dispatched, h, latest)
    ensures OnePerUri(pending) && forall p :: p in pending ==> p.event.watchId in configs
  {
  }

  /** Dispatching accepts nothing. */
  lemma {:induction false} SendingAccepts(h: History, due: seq<Pending>, configs: map<WatchId, WatchConfig>, now: real,
      force: bool)
    ensures SendAll(h, due, configs, now, force).accepted == h.accepted
    decreases |due|
  {
    hide Last;
    if due != [] {
      SendingAccepts(h, due[..|due| - 1], configs, now, force);
    }
  }

  /** What is buffered once this event has been accepted: the event, and what was pending for other files. */
  predicate InBuffer(pending: seq<Pending>, raw: RawEvent, now: real, q: Pending) {
    q == Pending(now, raw) || (q in pending && q.event.uri != raw.uri)
  }

  /** The event is what a buffered one whose debounce window has elapsed is delivered as. */
  ghost predicate DeliversDue(configs: map<WatchId, WatchConfig>, pending: seq<Pending>, raw: RawEvent, now: real,
      e: FileEvent)
  {
    exists q: Pending ::
      && InBuffer(pending, raw, now, q)
      && q.event.watchId in configs && now - q.timestamp >= configs[q.event.watchId].debounceSeconds
      && e == FileEvent(configs[q.event.watchId].workspaceId, q.event.watchId, q.event.uri, q.event.name, q.event.kind,
                        q.event.size)
  }

  /** Which events stay buffered when one is accepted, and what is delivered of the others. */
  lemma DrainMeans(configs: map<WatchId, WatchConfig>, pending: seq<Pending>, raw: RawEvent, now: real)
    requires OnePerUri(pending) && raw.watchId in configs && forall p :: p in pending ==> p.event.watchId in configs
    ensures
      var buffer := Put(pending, Pending(now, raw));
      var due := Due(configs, buffer, now, false);
      && (forall q :: q in Without(buffer, Uris(due)) <==>
            && InBuffer(pending, raw, now, q)
            && q.event.watchId in configs && now - q.timestamp < configs[q.event.watchId].debounceSeconds)
      && |BuiltAll(due, configs)| == |due|
      && forall k :: 0 <= k < |BuiltAll(due, configs)| ==> DeliversDue(configs, pending, raw, now, BuiltAll(due, configs)[k])
  {
    hide Put, Due, Without, BuiltAll;
    var buffer := Put(pending, Pending(now, raw));
    var due := Due(configs, buffer, now, false);
    PutReplaces(pending, Pending(now, raw));
    DueSelects(configs, buffer, now, false);
    WithoutRemoves(buffer, Uris(due));
    BuiltAllAre(due, configs);
    forall q | q in buffer ensures q.event.uri in Uris(due) <==> q in due {
      if q.event.uri in Uris(due) {
        var d :| d in due && d.event.uri == q.event.uri;
        SameUri(buffer, q, d);
      }
    }
    forall k | 0 <= k < |due| ensures DeliversDue(configs, pending, raw, now, BuiltAll(due, configs)[k]) {
      assert due[k] in due;
      assert InBuffer(pending, raw, now, due[k]);
    }
  }

  lemma SameUri(pending: seq<Pending>, p: Pending, q: Pending)
    requires OnePerUri(pending) && p in pending && q in pending && p.event.uri == q.event.uri
    ensures p == q
  {
  }

  /** Configurations are registered under their own watch id. */
  ghost predicate KeyedById(configs: map<WatchId, WatchConfig>) {
    forall id :: id in configs ==> configs[id].watchId == id
  }

  class FileWatcherService {
    const backend: StoragePollingBackend
    var configs: map<WatchId, WatchConfig>
    var pending: seq<Pending>
    var watching: set<WatchId>
    /** The events the dispatcher has received. */
    var dispatched: seq<FileEvent>
    ghost var history: History
    /** The clock at the last operation. */
    ghost var latest: real

    ghost predicate Valid()
      reads this, backend
    {
      backend.Valid() && KeyedById(configs) && Coherent(configs, pending, dispatched, history, latest)
    }

    constructor (backend: StoragePollingBackend, ghost now: real)
      requires backend.Valid()
      ensures Valid() && this.backend == backend
      ensures configs == map[] && watching == {} && history == History([], [], {}) && latest == now
    {
      this.backend := backend;
      configs, pending, watching, dispatched := map[], [], {}, [];
      history, latest := History([], [], {}), now;
      CoherentStart(map[], now);
    }

    method Register(config: WatchConfig)
      requires Valid()
      modifies this`configs
      ensures Valid() && configs == old(configs)[config.watchId := config]
    {
      hide Coherent;
      CoherentRegister(configs, pending, dispatched, history, latest, config);
      configs := configs[config.watchId := config];
    }

    /** An unknown id is refused; otherwise the backend starts watching from a clean snapshot. */
    method Start(id: WatchId, storage: Storage) returns (ok: bool)
      requires Valid()
      modifies this`watching, backend
      ensures Valid() && ok == (id in configs)
      ensures watching == if ok then old(watching) + {id} else old(watching)
      ensures ok ==>
        && backend.configs == old(backend.configs)[id := configs[id]]
        && id in backend.snapshots
        && IsSnapshot(RootOf(storage, configs[id].rootUri), configs[id].recursive, backend.snapshots[id])
        && backend.snapshots == old(backend.snapshots)[id := backend.snapshots[id]]
        && backend.received == old(backend.received)[id := []]
        && backend.initial == old(backend.initial)[id := backend.snapshots[id]]
      ensures !ok ==>
        && backend.configs == old(backend.configs) && backend.snapshots == old(backend.snapshots)
        && backend.received == old(backend.received)
    {
      hide Coherent, IsSnapshot, RootOf, InStep;
      ok := id in configs;
      if ok {
        backend.Watch(configs[id], storage);
        watching := watching + {id};
      }
    }

    method OnBackendEvent(raw: RawEvent, now: real)
      requires Valid() && now >= latest
      modifies this`pending, this`dispatched, this`history, this`latest
      ensures Valid() && latest == now
      ensures
        if Admits(configs, raw) then
          var buffer := Put(old(pending), Pending(now, raw));
          var due := Due(configs, buffer, now, false);
          && pending == Without(buffer, Uris(due))
          && dispatched == old(dispatched) + BuiltAll(due, configs)
          && history == SendAll(AcceptInto(old(history), Uris(old(pending)), raw, now), due, configs, now, false)
        else
          pending == old(pending) && dispatched == old(dispatched) && history == old(history)
      ensures Admits(configs, raw) <==>
        && raw.watchId in configs && configs[raw.watchId].enabled
        && (configs[raw.watchId].patterns == {} || raw.suffix in configs[raw.watchId].patterns)
      ensures Admits(configs, raw) ==>
        && history.accepted == old(history.accepted) + [Accepted(raw, now)]
        && forall q :: q in pending <==>
             && InBuffer(old(pending), raw, now, q)
             && q.event.watchId in configs && now - q.timestamp < configs[q.event.watchId].debounceSeconds
      ensures old(dispatched) <= dispatched
      ensures Admits(configs, raw) ==> forall k :: |old(dispatched)| <= k < |dispatched| ==>
        DeliversDue(configs, old(pending), raw, now, dispatched[k])
    {
      hide Coherent, Put, Due, Without, SendAll, BuiltAll, Uris, AcceptInto, InBuffer, DeliversDue;
      WatchesKnown(configs, pending, dispatched, history, latest);
      CoherentNow(configs, pending, dispatched, history, latest, now);
      if raw.watchId !in configs || !configs[raw.watchId].enabled || !configs[raw.watchId].AcceptsExtension(raw.suffix) {
        latest := now;
        return;
      }
      CoherentAccept(configs, pending, dispatched, history, latest, raw, now);
      AcceptsOne(history, Uris(pending), raw, now);
      history := AcceptInto(history, Uris(pending), raw, now);
      latest := now;
      pending := Put(pending, Pending(now, raw));
      ghost var due := Due(configs, pending, now, false);
      DrainMeans(configs, old(pending), raw, now);
      SendingAccepts(history, due, configs, now, false);
      Drain(now, false);
      assert forall k :: |old(dispatched)| <= k < |dispatched| ==> dispatched[k] == BuiltAll(due, configs)[k - |old(dispatched)|];
    }

    method Drain(now: real, force: bool)
      requires Valid() && latest == now
      modifies this`pending, this`dispatched, this`history
      ensures Valid()
      ensures
        var due := Due(configs, old(pending), now, force);
        && pending == Without(old(pending), Uris(due))
        && dispatched == old(dispatched) + BuiltAll(due, configs)
        && history == SendAll(old(history), due, configs, now, force)
    {
      hide Coherent, OnePerUri, Due, IsDue, Uris, SendFrom, Built, Without, SendAll, BuiltAll;
      var due := Due(configs, pending, now, force);
      DueSelects(configs, pending, now, force);
      BufferUnique(configs, pending, dispatched, history, latest);
      DrainStart(history, pending, due, configs, now, force);
      var i := 0;
      while i < |due|
        invariant i <= |due|
        invariant Coherent(configs, pending, dispatched, history, latest)
        invariant pending == Without(old(pending), Uris(due[..i]))
        invariant dispatched == old(dispatched) + BuiltAll(due[..i], configs)
        invariant history == SendAll(old(history), due[..i], configs, now, force)
      {
        var p := due[i];
        NotYetPopped(old(pending), due, i);
        CoherentSend(configs, pending, dispatched, history, now, p, force);
        OneMoreSent(old(history), due, i, configs, now, force);
        pending := Without(pending, {p.event.uri});
        history := SendFrom(history, p.event.uri, now, force, configs[p.event.watchId]);
        Dispatch(p.event);
        i := i + 1;
      }
      assert due[..i] == due;
    }

    method Dispatch(raw: RawEvent)
      modifies this`dispatched
      ensures dispatched == old(dispatched) + if raw.watchId in configs then [Built(configs[raw.watchId], raw)] else []
    {
      if raw.watchId !in configs {
        return;
      }
      dispatched := dispatched + [Built(configs[raw.watchId], raw)];
    }

    /** Dispatches every buffered event; afterwards the last event of every file has been dispatched. */
    method Flush(now: real)
      requires Valid() && now >= latest
      modifies this`pending, this`dispatched, this`history, this`latest
      ensures Valid() && latest == now && pending == []
      ensures dispatched == old(dispatched) + BuiltAll(old(pending), configs)
      ensures |dispatched| == |old(dispatched)| + |old(pending)| && old(dispatched) <= dispatched
      ensures forall k :: 0 <= k < |old(pending)| ==>
        var e := old(pending)[k].event;
        && e.watchId in configs
        && dispatched[|old(dispatched)| + k]
           == FileEvent(configs[e.watchId].workspaceId, e.watchId, e.uri, e.name, e.kind, e.size)
      ensures history == SendAll(old(history), old(pending), configs, now, true)
    {
      hide Coherent, Due, Without, SendAll, BuiltAll, Uris;
      WatchesKnown(configs, pending, dispatched, history, latest);
      BuiltAllAre(pending, configs);
      CoherentNow(configs, pending, dispatched, history, latest, now);
      DueSelects(configs, pending, now, true);
      BufferCovered(pending);
      latest := now;
      Drain(now, true);
    }

    /** The backend forgets the watch, and everything still pending is dispatched. */
    method Stop(id: WatchId, now: real)
      requires Valid() && now >= latest
      modifies this`watching, this`pending, this`dispatched, this`history, this`latest, backend
      ensures Valid() && latest == now && pending == [] && watching == old(watching) - {id}
      ensures backend.configs == old(backend.configs) - {id} && backend.snapshots == old(backend.snapshots) - {id}
      ensures dispatched == old(dispatched) + BuiltAll(old(pending), configs)
      ensures |dispatched| == |old(dispatched)| + |old(pending)| && old(dispatched) <= dispatched
      ensures forall k :: 0 <= k < |old(pending)| ==>
        var e := old(pending)[k].event;
        && e.watchId in configs
        && dispatched[|old(dispatched)| + k]
           == FileEvent(configs[e.watchId].workspaceId, e.watchId, e.uri, e.name, e.kind, e.size)
      ensures history == SendAll(old(history), old(pending), configs, now, true)
    {
      hide Coherent, InStep;
      backend.Unwatch(id);
      watching := watching - {id};
      Flush(now);
    }
  }

  lemma DrainStart(h: History, pending: seq<Pending>, due: seq<Pending>, configs: map<WatchId, WatchConfig>,
      now: real, force: bool)
    ensures Without(pending, Uris(due[..0])) == pending
    ensures SendAll(h, due[..0], configs, now, force) == h && BuiltAll(due[..0], configs) == []
  {
    WithoutNothing(pending);
    assert Uris(due[..0]) == {};
  }

  lemma BufferCovered(pending: seq<Pending>)
    ensures Without(pending, Uris(pending)) == []
  {
    WithoutAll(pending, Uris(pending));
  }

  lemma {:induction false} WithoutAll(pending: seq<Pending>, uris: set<string>)
    requires forall p :: p in pending ==> p.event.uri in uris
    ensures Without(pending, uris) == []
  {
    if pending != [] {
      assert pending == [pending[0]] + pending[1..];
      WithoutAll(pending[1..], uris);
    }
  }

  /** What the dispatcher saw, in every reachable state */

  /** Nothing is lost and nothing is made up: accepted = dispatched + overwritten + pending. */
  lemma Accounted(configs: map<WatchId, WatchConfig>, pending: seq<Pending>, dispatched: seq<FileEvent>,
      h: History, latest: real)
    requires Coherent(configs, pending, dispatched, h, latest)
    ensures |h.accepted| == |dispatched| + |h.overwritten| + |pending|
  {
    hide WellKept, Last;
    Conserved(h, Uris(pending));
    var uris := seq(|pending|, i requires 0 <= i < |pending| => pending[i].event.uri);
    assert NoDup(uris);
    forall uri ensures uri in uris <==> uri in Uris(pending) {
      if uri in Uris(pending) {
        var i :| 0 <= i < |pending| && pending[i].event.uri == uri;
        assert uris[i] == uri;
      }
    }
    NoDupLength(uris, Uris(pending));
    NoDupCard(uris, Uris(pending));
  }

  /** The same account for every file by itself. */

  function AcceptedOf(h: History, uri: string): set<nat> {
    set i | i in Indices(|h.accepted|) && h.accepted[i].event.uri == uri
  }

  function OverwrittenOf(h: History, uri: string): set<nat> {
    set i | i in AcceptedOf(h, uri) && i in h.overwritten
  }

  function SentOf(h: History, uri: string): set<nat> {
    set i | i in AcceptedOf(h, uri) && WasSent(h, i)
  }

  function WaitingOf(h: History, buffered: set<string>, uri: string): set<nat> {
    if uri in buffered && Last(h.accepted, uri) >= 0 then {Last(h.accepted, uri)} else {}
  }

  /** The positions of a file's events among the dispatched ones. */
  function DispatchedOf(dispatched: seq<FileEvent>, uri: string): set<nat> {
    set k | k in Indices(|dispatched|) && dispatched[k].uri == uri
  }

  function IndexImage(sent: seq<Sent>, ks: set<nat>): set<nat>
    requires forall k :: k in ks ==> k < |sent|
  {
    set k | k in ks :: sent[k].index
  }

  lemma {:induction false} IndexImageCard(sent: seq<Sent>, ks: set<nat>)
    requires forall k :: k in ks ==> k < |sent|
    requires forall k, l :: k in ks && l in ks && k < l ==> sent[k].index < sent[l].index
    ensures |IndexImage(sent, ks)| == |ks|
    decreases ks
  {
    if ks != {} {
      var k :| k in ks;
      IndexImageCard(sent, ks - {k});
      IndexImageAdd(sent, ks - {k}, k);
      assert ks - {k} + {k} == ks;
      forall l | l in ks - {k} ensures sent[l].index != sent[k].index {
        assert l < k || k < l;
      }
    }
  }

  lemma IndexImageAdd(sent: seq<Sent>, ks: set<nat>, k: nat)
    requires k < |sent| && forall l :: l in ks ==> l < |sent| && sent[l].index != sent[k].index
    ensures IndexImage(sent, ks + {k}) == IndexImage(sent, ks) + {sent[k].index}
    ensures sent[k].index !in IndexImage(sent, ks)
  {
  }

  lemma DispatchedUri(h: History, dispatched: seq<FileEvent>, k: nat)
    requires Delivered(h, dispatched) && k < |dispatched|
    ensures k < |h.sent| && h.sent[k].index < |h.accepted|
    ensures dispatched[k].uri == h.accepted[h.sent[k].index].event.uri
  {
  }

  lemma SentOfIs(h: History, dispatched: seq<FileEvent>, uri: string, i: nat)
    requires Delivered(h, dispatched)
    ensures i in SentOf(h, uri) <==> exists k :: k in DispatchedOf(dispatched, uri) && k < |h.sent| && h.sent[k].index == i
  {
    if i in SentOf(h, uri) {
      var k :| 0 <= k < |h.sent| && h.sent[k].index == i;
      DispatchedUri(h, dispatched, k);
      hide Delivered;
      assert k in DispatchedOf(dispatched, uri);
    }
    if k :| k in DispatchedOf(dispatched, uri) && k < |h.sent| && h.sent[k].index == i {
      DispatchedUri(h, dispatched, k);
      hide Delivered;
      assert WasSent(h, i);
    }
  }

  lemma SentOfCard(h: History, dispatched: seq<FileEvent>, uri: string)
    requires InOrder(h) && Delivered(h, dispatched)
    ensures |SentOf(h, uri)| == |DispatchedOf(dispatched, uri)|
  {
    var ks := DispatchedOf(dispatched, uri);
    forall k | k in ks ensures k < |h.sent| {
      DispatchedUri(h, dispatched, k);
    }
    hide InOrder, Delivered, SentOf, DispatchedOf;
    forall k, l | k in ks && l in ks && k < l ensures h.sent[k].index < h.sent[l].index {
    }
    IndexImageCard(h.sent, ks);
    forall i: nat ensures i in SentOf(h, uri) <==> i in IndexImage(h.sent, ks) {
      SentOfIs(h, dispatched, uri, i);
    }
    assert SentOf(h, uri) == IndexImage(h.sent, ks);
  }

  lemma WaitsOf(h: History, buffered: set<string>, uri: string, i: nat)
    requires i in AcceptedOf(h, uri)
    ensures Waits(h, buffered, i) <==> i in WaitingOf(h, buffered, uri)
  {
    hide Last;
  }

  lemma ConservedOf(h: History, buffered: set<string>, uri: string)
    requires Partitioned(h, buffered) && (uri in buffered ==> Last(h.accepted, uri) >= 0)
    ensures |AcceptedOf(h, uri)| == |SentOf(h, uri)| + |OverwrittenOf(h, uri)| + if uri in buffered then 1 else 0
  {
    hide Last, WasSent, Waits;
    var all, sent, lost, waiting := AcceptedOf(h, uri), SentOf(h, uri), OverwrittenOf(h, uri), WaitingOf(h, buffered, uri);
    forall i | i in all
      ensures i in sent || i in lost || i in waiting
      ensures (i in sent ==> i !in lost && i !in waiting) && (i in waiting ==> i !in lost)
    {
      WaitsOf(h, buffered, uri, i);
    }
    assert waiting <= all;
    assert all == sent + lost + waiting;
    assert sent !! lost && sent !! waiting && lost !! waiting;
  }

  lemma AccountedPerFile(configs: map<WatchId, WatchConfig>, pending: seq<Pending>, dispatched: seq<FileEvent>,
      h: History, latest: real, uri: string)
    requires Coherent(configs, pending, dispatched, h, latest)
    ensures |AcceptedOf(h, uri)| == |DispatchedOf(dispatched, uri)| + |OverwrittenOf(h, uri)|
                                    + if uri in Uris(pending) then 1 else 0
  {
    hide Last, Partitioned, AllSentWell, InOrder, Delivered, OnePerUri, AcceptedOf, DispatchedOf, OverwrittenOf, SentOf;
    ConservedOf(h, Uris(pending), uri);
    SentOfCard(h, dispatched, uri);
  }

  /** The dispatched events of one file are accepted events of that file, in the order of acceptance. */
  lemma DispatchedInOrder(configs: map<WatchId, WatchConfig>, pending: seq<Pending>, dispatched: seq<FileEvent>,
      h: History, latest: real, k: nat, l: nat)
    requires Coherent(configs, pending, dispatched, h, latest)
    requires k < l < |dispatched| && dispatched[k].uri == dispatched[l].uri
    ensures h.sent[k].index < h.sent[l].index < |h.accepted|
    ensures forall m :: m in {k, l} ==>
      var e, d := h.accepted[h.sent[m].index].event, dispatched[m];
      && d.workspaceId == h.sent[m].config.workspaceId && d.watchId == e.watchId && d.uri == e.uri && d.name == e.name
      && d.kind == e.kind && d.size == e.size
  {
    hide Last, Partitioned, AllSentWell, OnePerUri;
  }

  /** Once nothing is pending, the last dispatched event of every file is its last accepted one. */
  lemma FlushedIsCurrent(configs: map<WatchId, WatchConfig>, dispatched: seq<FileEvent>, h: History, latest: real,
      uri: string)
    returns (k: nat)
    requires Coherent(configs, [], dispatched, h, latest) && Last(h.accepted, uri) >= 0
    ensures k < |dispatched| && h.sent[k].index == Last(h.accepted, uri)
    ensures dispatched[k] == Built(h.sent[k].config, h.accepted[Last(h.accepted, uri)].event)
    ensures forall l :: k < l < |dispatched| ==> dispatched[l].uri != uri
  {
    hide Last, Partitioned, AllSentWell, InOrder;
    assert Uris([]) == {};
    k := NothingPending(h, uri);
  }
}
