/** Polling and debouncing together (backend/lexmind/watcher/storage_watch_backend.py feeding
    backend/lexmind/watcher/file_watcher.py): what the dispatcher receives, replayed over the first snapshot,
    gives the stored one. File and directory names are non-empty and hold no slash. */
module WatchedFiles {
  import opened Collections
  import opened PollingBackend
  import opened FileWatcher

  /** URIs */

  function RStripSlash(s: string): string {
    if s != "" && s[|s| - 1] == '/' then RStripSlash(s[..|s| - 1]) else s
  }

  /** The URI that the tree walk builds for a path below the root. */
  function UriOf(root: string, p: Path): string
    decreases |p|
  {
    if p == [] then root else RStripSlash(UriOf(root, Parent(p))) + "/" + p[|p| - 1]
  }

  predicate GoodName(name: string) {
    name != "" && '/' !in name
  }

  lemma {:induction false} RStripSlashIs(base: string, slashes: string)
    requires (base != "" ==> base[|base| - 1] != '/') && forall c :: c in slashes ==> c == '/'
    ensures RStripSlash(base + slashes) == base
    decreases |slashes|
  {
    if slashes == "" {
      assert base + slashes == base;
    } else {
      var n := |slashes| - 1;
      assert (base + slashes)[|base + slashes| - 1] == slashes[n] && slashes[n] in slashes;
      assert (base + slashes)[..|base + slashes| - 1] == base + slashes[..n];
      assert forall c :: c in slashes[..n] ==> c in slashes;
      RStripSlashIs(base, slashes[..n]);
    }
  }

  /** A child's URI is its parent's, a slash and its name; slashes at the end of the root do not count. */
  lemma UriOfChild(base: string, slashes: string, p: Path, name: string)
    requires (base != "" ==> base[|base| - 1] != '/') && (forall c :: c in slashes ==> c == '/')
    requires GoodPath(p) && GoodName(name)
    ensures UriOf(base + slashes, p + [name]) == (if p == [] then base else UriOf(base + slashes, p)) + "/" + name
  {
    var root, child := base + slashes, p + [name];
    assert Parent(child) == p;
    RStripSlashIs(base, slashes);
    if p != [] {
      UriIsSlashed(root, p);
    }
  }

  predicate GoodPath(p: Path) {
    forall i :: 0 <= i < |p| ==> GoodName(p[i])
  }

  function Slashed(p: Path): string
    decreases |p|
  {
    if p == [] then "" else Slashed(Parent(p)) + "/" + p[|p| - 1]
  }

  lemma {:induction false} UriIsSlashed(root: string, p: Path)
    requires GoodPath(p)
    ensures RStripSlash(UriOf(root, p)) == RStripSlash(root) + Slashed(p)
    ensures p != [] ==> UriOf(root, p) == RStripSlash(root) + Slashed(p)
    decreases |p|
  {
    if p == [] {
      assert RStripSlash(root) + "" == RStripSlash(root);
    } else {
      UriIsSlashed(root, Parent(p));
      var name, uri := p[|p| - 1], UriOf(root, p);
      assert GoodName(name) && uri[|uri| - 1] == name[|name| - 1];
      assert name[|name| - 1] in name;
      assert uri == RStripSlash(root) + (Slashed(Parent(p)) + "/" + name);
    }
  }

  lemma LastSlash(x: string, a: string, y: string, b: string)
    requires '/' !in a && '/' !in b && x + "/" + a == y + "/" + b
    ensures x == y && a == b
  {
    var s := x + "/" + a;
    assert s[|x|] == '/' && s[|y|] == '/';
    assert forall i :: |x| < i < |s| ==> s[i] == a[i - |x| - 1];
    assert forall i :: |y| < i < |s| ==> s[i] == b[i - |y| - 1];
    assert |x| == |y|;
    assert x == s[..|x|] && y == s[..|y|] && a == s[|x| + 1..] && b == s[|y| + 1..];
  }

  lemma {:induction false} SlashedInjective(p: Path, q: Path)
    requires GoodPath(p) && GoodPath(q) && Slashed(p) == Slashed(q)
    ensures p == q
    decreases |p|
  {
    if p != [] && q != [] {
      LastSlash(Slashed(Parent(p)), p[|p| - 1], Slashed(Parent(q)), q[|q| - 1]);
      SlashedInjective(Parent(p), Parent(q));
      assert p == Parent(p) + [p[|p| - 1]] && q == Parent(q) + [q[|q| - 1]];
    }
  }

  /** Different files below a root have different URIs. */
  lemma UriInjective(root: string, p: Path, q: Path)
    requires GoodPath(p) && GoodPath(q) && p != [] && q != [] && UriOf(root, p) == UriOf(root, q)
    ensures p == q
  {
    UriIsSlashed(root, p);
    UriIsSlashed(root, q);
    var base := RStripSlash(root);
    assert (base + Slashed(p))[|base|..] == Slashed(p) && (base + Slashed(q))[|base|..] == Slashed(q);
    SlashedInjective(p, q);
  }

  predicate GoodTree(e: Entry) {
    e.Directory? ==> forall k :: k in e.children ==> GoodName(k) && GoodTree(e.children[k])
  }

  lemma {:induction false} FilePathGood(e: Entry, p: Path)
    requires GoodTree(e) && FileAt(e, p).Some?
    ensures GoodPath(p)
    decreases |p|
  {
    if p != [] {
      FilePathGood(e.children[p[0]], p[1..]);
      assert p == [p[0]] + p[1..];
    }
  }

  /** Files by URI, and changes to them */

  type Files = map<string, nat>

  datatype Change = Change(uri: string, kind: Kind, size: nat)

  function Outcome(c: Change): Option<nat> {
    if c.kind == Deleted then None else Some(c.size)
  }

  function Lookup(files: Files, uri: string): Option<nat> {
    if uri in files then Some(files[uri]) else None
  }

  function Applied(files: Files, c: Change): Files {
    if c.kind == Deleted then files - {c.uri} else files[c.uri := c.size]
  }

  function ReplayChanges(files: Files, changes: seq<Change>): Files {
    if changes == [] then files else Applied(ReplayChanges(files, changes[..|changes| - 1]), changes[|changes| - 1])
  }

  /** The last change of a file decides it. */
  lemma {:induction false} LastChangeDecides(files: Files, changes: seq<Change>, uri: string, l: int)
    requires -1 <= l < |changes| && (l >= 0 ==> changes[l].uri == uri)
    requires forall j :: l < j < |changes| ==> changes[j].uri != uri
    ensures Lookup(ReplayChanges(files, changes), uri) == if l < 0 then Lookup(files, uri) else Outcome(changes[l])
    decreases |changes|
  {
    if changes != [] && l < |changes| - 1 {
      assert changes[|changes| - 1].uri != uri;
      LastChangeDecides(files, changes[..|changes| - 1], uri, l);
    }
  }

  lemma SameFiles(a: Files, b: Files)
    requires forall uri :: Lookup(a, uri) == Lookup(b, uri)
    ensures a == b
  {
    forall uri ensures uri in a <==> uri in b {
      assert Lookup(a, uri) == Lookup(b, uri);
    }
    forall uri | uri in a ensures a[uri] == b[uri] {
      assert Lookup(a, uri) == Lookup(b, uri);
    }
  }

  function Dispatched(events: seq<FileEvent>): seq<Change> {
    seq(|events|, k requires 0 <= k < |events| => Change(events[k].uri, events[k].kind, events[k].size))
  }

  function AcceptedChanges(accepted: seq<Accepted>): seq<Change> {
    seq(|accepted|, k requires 0 <= k < |accepted| =>
      Change(accepted[k].event.uri, accepted[k].event.kind, accepted[k].event.size))
  }

  lemma NothingElseDispatched(configs: map<WatchId, WatchConfig>, dispatched: seq<FileEvent>, h: History, latest: real,
      uri: string)
    requires Coherent(configs, [], dispatched, h, latest) && Last(h.accepted, uri) < 0
    ensures forall k :: 0 <= k < |dispatched| ==> dispatched[k].uri != uri
  {
    hide Last, WellKept, OnePerUri;
  }

  /** Debouncing loses no state: once nothing is pending, the dispatched events leave every file as all accepted
      events would, whatever was overwritten in between. */
  lemma FlushedReplaysAll(configs: map<WatchId, WatchConfig>, dispatched: seq<FileEvent>, h: History, latest: real,
      files: Files)
    requires Coherent(configs, [], dispatched, h, latest)
    ensures ReplayChanges(files, Dispatched(dispatched)) == ReplayChanges(files, AcceptedChanges(h.accepted))
  {
    hide Coherent, Last, ReplayChanges;
    var sent, all := Dispatched(dispatched), AcceptedChanges(h.accepted);
    forall uri ensures Lookup(ReplayChanges(files, sent), uri) == Lookup(ReplayChanges(files, all), uri) {
      var last := Last(h.accepted, uri);
      LastChangeDecides(files, all, uri, last);
      if last < 0 {
        NothingElseDispatched(configs, dispatched, h, latest, uri);
        LastChangeDecides(files, sent, uri, -1);
      } else {
        var k := FlushedIsCurrent(configs, dispatched, h, latest, uri);
        LastChangeDecides(files, sent, uri, k);
      }
    }
    SameFiles(ReplayChanges(files, sent), ReplayChanges(files, all));
  }

  /** Snapshots by URI */

  ghost predicate GoodSnapshot(s: Snapshot) {
    forall p :: p in s ==> p != [] && GoodPath(p)
  }

  ghost predicate GoodEvents(events: seq<Event>) {
    forall e :: e in events ==> e.uri != [] && GoodPath(e.uri)
  }

  /** The snapshot keyed by URI, as the program keeps it. */
  ghost predicate NamedBy(root: string, s: Snapshot, files: Files) {
    && (forall p :: p in s ==> Lookup(files, UriOf(root, p)) == Some(s[p]))
    && (forall uri :: uri in files ==> exists p :: p in s && UriOf(root, p) == uri)
  }

  lemma NamedUnique(root: string, s: Snapshot, a: Files, b: Files)
    requires NamedBy(root, s, a) && NamedBy(root, s, b)
    ensures a == b
  {
    forall uri ensures Lookup(a, uri) == Lookup(b, uri) {
      if uri in a {
        var p :| p in s && UriOf(root, p) == uri;
      }
      if uri in b {
        var p :| p in s && UriOf(root, p) == uri;
      }
    }
    SameFiles(a, b);
  }

  function ChangeOf(root: string, e: Event): Change {
    Change(UriOf(root, e.uri), e.kind, e.size)
  }

  lemma NamedApply(root: string, s: Snapshot, e: Event, files: Files)
    requires GoodSnapshot(s) && e.uri != [] && GoodPath(e.uri) && NamedBy(root, s, files)
    ensures GoodSnapshot(ApplyEvent(s, e)) && NamedBy(root, ApplyEvent(s, e), Applied(files, ChangeOf(root, e)))
  {
    hide UriOf, GoodPath;
    var s', uri := ApplyEvent(s, e), UriOf(root, e.uri);
    var files' := Applied(files, ChangeOf(root, e));
    forall p | p in s && p != e.uri ensures UriOf(root, p) != uri {
      if UriOf(root, p) == uri {
        UriInjective(root, p, e.uri);
      }
    }
    forall p | p in s' ensures Lookup(files', UriOf(root, p)) == Some(s'[p]) {
      assert p != e.uri ==> Lookup(files, UriOf(root, p)) == Some(s[p]);
    }
    forall u | u in files' ensures exists p :: p in s' && UriOf(root, p) == u {
      if u != uri {
        var p :| p in s && UriOf(root, p) == u;
        assert p in s';
      } else {
        assert e.uri in s';
      }
    }
  }

  lemma GoodRest(s: Snapshot, p: Path)
    requires GoodSnapshot(s) && p in s
    ensures GoodSnapshot(s - {p}) && p != [] && GoodPath(p)
    ensures ApplyEvent(s - {p}, Event(p, Created, s[p])) == s
  {
    hide GoodPath;
  }

  /** Every snapshot can be keyed by URI. */
  lemma {:induction false} NamedExists(root: string, s: Snapshot) returns (files: Files)
    requires GoodSnapshot(s)
    ensures NamedBy(root, s, files)
    decreases s.Keys
  {
    if s == map[] {
      files := map[];
    } else {
      hide NamedBy, GoodSnapshot, GoodPath, UriOf, ApplyEvent;
      var p :| p in s;
      GoodRest(s, p);
      files := NamedExists(root, s - {p});
      NamedApply(root, s - {p}, Event(p, Created, s[p]), files);
      files := Applied(files, ChangeOf(root, Event(p, Created, s[p])));
    }
  }

  function Changes(root: string, events: seq<Event>): seq<Change> {
    seq(|events|, k requires 0 <= k < |events| => ChangeOf(root, events[k]))
  }

  lemma {:induction false} NamedReplay(root: string, s: Snapshot, events: seq<Event>, files: Files)
    requires GoodSnapshot(s) && GoodEvents(events) && NamedBy(root, s, files)
    ensures GoodSnapshot(Replay(s, events))
    ensures NamedBy(root, Replay(s, events), ReplayChanges(files, Changes(root, events)))
    decreases |events|
  {
    hide NamedBy, UriOf, GoodPath;
    if events != [] {
      var n := |events| - 1;
      NamedReplay(root, s, events[..n], files);
      assert events[n] in events;
      NamedApply(root, Replay(s, events[..n]), events[n], ReplayChanges(files, Changes(root, events[..n])));
      assert Changes(root, events)[..n] == Changes(root, events[..n]);
    }
  }

  /** The file-type filter of a watch */

  predicate Passes(config: WatchConfig, suffix: string -> string, uri: string) {
    config.AcceptsExtension(suffix(uri))
  }

  function Passing(config: WatchConfig, suffix: string -> string, changes: seq<Change>): seq<Change> {
    if changes == [] then []
    else
      var n := |changes| - 1;
      Passing(config, suffix, changes[..n]) + if Passes(config, suffix, changes[n].uri) then [changes[n]] else []
  }

  lemma ReplayOneMore(files: Files, changes: seq<Change>, c: Change, uri: string)
    ensures Lookup(ReplayChanges(files, changes + [c]), uri) ==
      if c.uri == uri then Outcome(c) else Lookup(ReplayChanges(files, changes), uri)
  {
    assert (changes + [c])[..|changes|] == changes;
  }

  /** Filtering by file leaves the files that pass as they would be, and the others as they were. */
  lemma {:induction false} FilteredReplay(config: WatchConfig, suffix: string -> string, files: Files,
      changes: seq<Change>, uri: string)
    ensures Lookup(ReplayChanges(files, Passing(config, suffix, changes)), uri) ==
      if Passes(config, suffix, uri) then Lookup(ReplayChanges(files, changes), uri) else Lookup(files, uri)
    decreases |changes|
  {
    if changes != [] {
      hide Passes, Lookup, ReplayChanges, Outcome;
      var rest, c := changes[..|changes| - 1], changes[|changes| - 1];
      FilteredReplay(config, suffix, files, rest, uri);
      assert changes == rest + [c];
      ReplayOneMore(files, rest, c, uri);
      ReplayOneMore(files, Passing(config, suffix, rest), c, uri);
      assert Passing(config, suffix, rest) + [] == Passing(config, suffix, rest);
    }
  }

  /** A watch that alone feeds the service */

  /** What the callback of a backend event hands to the service; `suffix` is the lower-cased file extension. */
  function RawOf(config: WatchConfig, suffix: string -> string, e: Event): RawEvent
    requires e.uri != []
  {
    var uri := UriOf(config.rootUri, e.uri);
    RawEvent(config.watchId, uri, suffix(uri), e.uri[|e.uri| - 1], e.kind, e.size)
  }

  ghost predicate GoodHistory(initial: Snapshot, received: seq<Event>) {
    GoodSnapshot(initial) && GoodEvents(received)
  }

  /** The raw event names the watch, the URI and type of the changed file, and the last part of its path. */
  ghost predicate Reports(config: WatchConfig, suffix: string -> string, e: Event, raw: RawEvent) {
    && e.uri != [] && raw.watchId == config.watchId
    && raw.uri == UriOf(config.rootUri, e.uri) && raw.suffix == suffix(raw.uri) && raw.name == e.uri[|e.uri| - 1]
    && raw.kind == e.kind && raw.size == e.size
  }

  /** The service accepted exactly those events of the watch that its filter lets through. */
  ghost predicate Synced(config: WatchConfig, suffix: string -> string, received: seq<Event>, accepted: seq<Accepted>) {
    && AcceptedChanges(accepted) == Passing(config, suffix, Changes(config.rootUri, received))
    && forall a :: a in accepted ==> exists e :: e in received && Reports(config, suffix, e, a.event)
  }

  /** After a flush, replaying what the dispatcher received over the first snapshot gives the stored one on every
      file that the filter lets through, and leaves the others as they were in the first one. */
  lemma DispatchedGivesStored(configs: map<WatchId, WatchConfig>, dispatched: seq<FileEvent>, h: History, latest: real,
      config: WatchConfig, suffix: string -> string, initial: Snapshot, received: seq<Event>, stored: Snapshot,
      before: Files, now: Files, uri: string)
    requires Coherent(configs, [], dispatched, h, latest)
    requires Synced(config, suffix, received, h.accepted) && GoodHistory(initial, received)
    requires Replay(initial, received) == stored
    requires NamedBy(config.rootUri, initial, before) && NamedBy(config.rootUri, stored, now)
    ensures Lookup(ReplayChanges(before, Dispatched(dispatched)), uri) ==
      if Passes(config, suffix, uri) then Lookup(now, uri) else Lookup(before, uri)
  {
    hide Coherent, NamedBy, ReplayChanges, Passing, Changes, Dispatched, AcceptedChanges, Passes, GoodSnapshot, GoodEvents;
    var root, all := config.rootUri, Changes(config.rootUri, received);
    FlushedReplaysAll(configs, dispatched, h, latest, before);
    FilteredReplay(config, suffix, before, all, uri);
    NamedReplay(root, initial, received, before);
    NamedUnique(root, stored, now, ReplayChanges(before, all));
  }

  /** Without a filter: exactly the stored snapshot. */
  lemma UnfilteredGivesStored(configs: map<WatchId, WatchConfig>, dispatched: seq<FileEvent>, h: History, latest: real,
      config: WatchConfig, suffix: string -> string, initial: Snapshot, received: seq<Event>, stored: Snapshot,
      before: Files)
    requires Coherent(configs, [], dispatched, h, latest) && config.patterns == {}
    requires Synced(config, suffix, received, h.accepted) && GoodHistory(initial, received)
    requires Replay(initial, received) == stored && NamedBy(config.rootUri, initial, before)
    ensures NamedBy(config.rootUri, stored, ReplayChanges(before, Dispatched(dispatched)))
  {
    hide Coherent, NamedBy, ReplayChanges, Passing, Changes, Dispatched, AcceptedChanges, GoodSnapshot, GoodEvents, Synced;
    NamedReplay(config.rootUri, initial, received, before);
    var now := ReplayChanges(before, Changes(config.rootUri, received));
    forall uri ensures Lookup(ReplayChanges(before, Dispatched(dispatched)), uri) == Lookup(now, uri) {
      DispatchedGivesStored(configs, dispatched, h, latest, config, suffix, initial, received, stored, before, now, uri);
    }
    SameFiles(ReplayChanges(before, Dispatched(dispatched)), now);
  }

  ghost predicate Follows(service: FileWatcherService, config: WatchConfig, suffix: string -> string)
    reads service, service.backend
  {
    var id := config.watchId;
    && service.Valid() && config.enabled
    && id in service.configs && service.configs[id] == config
    && id in service.backend.configs && service.backend.configs[id] == config
    && id in service.backend.snapshots && id in service.backend.received && id in service.backend.initial
    && GoodHistory(service.backend.initial[id], service.backend.received[id])
    && GoodSnapshot(service.backend.snapshots[id])
    && Synced(config, suffix, service.backend.received[id], service.history.accepted)
  }

  lemma SnapshotGood(root: Entry, recursive: bool, s: Snapshot)
    requires GoodTree(root) && IsSnapshot(root, recursive, s)
    ensures GoodSnapshot(s)
  {
    hide GoodTree, GoodPath, FileAt;
    forall p | p in s ensures p != [] && GoodPath(p) {
      FilePathGood(root, p);
    }
  }

  lemma DescribedGood(previous: Snapshot, current: Snapshot, events: seq<Event>)
    requires GoodSnapshot(previous) && GoodSnapshot(current) && Describes(previous, current, events)
    ensures GoodEvents(events)
  {
    hide GoodPath, Replay;
  }

  /** Starts the watch on a service that has accepted nothing yet. */
  method Begin(service: FileWatcherService, config: WatchConfig, storage: Storage, ghost suffix: string -> string)
    requires service.Valid() && service.history.accepted == [] && config.enabled
    requires GoodTree(RootOf(storage, config.rootUri))
    modifies service, service.backend
    ensures Follows(service, config, suffix)
    ensures service.history == old(service.history)
    ensures service.backend.initial[config.watchId] == service.backend.snapshots[config.watchId]
  {
    hide Coherent, IsSnapshot, GoodTree, GoodPath, RootOf, InStep;
    service.Register(config);
    var ok := service.Start(config.watchId, storage);
    SnapshotGood(RootOf(storage, config.rootUri), config.recursive, service.backend.snapshots[config.watchId]);
    NothingSynced(config, suffix);
  }

  lemma NothingSynced(config: WatchConfig, suffix: string -> string)
    ensures Synced(config, suffix, [], [])
  {
  }

  lemma OneMoreAccepted(config: WatchConfig, suffix: string -> string, received: seq<Event>, accepted: seq<Accepted>,
      e: Event, now: real)
    requires Synced(config, suffix, received, accepted) && e.uri != []
    ensures
      var raw := RawOf(config, suffix, e);
      Synced(config, suffix, received + [e],
             if config.AcceptsExtension(raw.suffix) then accepted + [Accepted(raw, now)] else accepted)
  {
    var root := config.rootUri;
    var raw := RawOf(config, suffix, e);
    forall a | a in (if config.AcceptsExtension(raw.suffix) then accepted + [Accepted(raw, now)] else accepted)
      ensures exists x :: x in received + [e] && Reports(config, suffix, x, a.event)
    {
      if a in accepted {
        var x :| x in received && Reports(config, suffix, x, a.event);
        assert x in received + [e];
      } else {
        assert e in received + [e] && Reports(config, suffix, e, raw);
      }
    }
    hide Reports;
    assert Changes(root, received + [e])[..|received|] == Changes(root, received);
    assert Changes(root, received + [e])[|received|] == ChangeOf(root, e);
    assert AcceptedChanges(accepted + [Accepted(RawOf(config, suffix, e), now)])
        == AcceptedChanges(accepted) + [ChangeOf(root, e)];
    assert Passing(config, suffix, Changes(root, received)) + [] == Passing(config, suffix, Changes(root, received));
  }

  /** One callback of the backend. */
  method Call(service: FileWatcherService, config: WatchConfig, suffix: string -> string, ghost received: seq<Event>,
      e: Event, now: real)
    requires service.Valid() && config.watchId in service.configs && service.configs[config.watchId] == config
    requires config.enabled && now >= service.latest && e.uri != []
    requires Synced(config, suffix, received, service.history.accepted)
    modifies service`pending, service`dispatched, service`history, service`latest
    ensures service.Valid() && service.latest == now
    ensures Synced(config, suffix, received + [e], service.history.accepted)
  {
    hide Coherent, Synced, SendAll, BuiltAll, Put, Due, Without, Uris, UriOf, InStep, KeyedById, WatchConfig.AcceptsExtension;
    var raw := RawOf(config, suffix, e);
    OneMoreAccepted(config, suffix, received, service.history.accepted, e, now);
    ghost var accepting := AcceptInto(service.history, Uris(service.pending), raw, now);
    ghost var due := Due(service.configs, Put(service.pending, Pending(now, raw)), now, false);
    SendingAccepts(accepting, due, service.configs, now, false);
    service.OnBackendEvent(raw, now);
  }

  /** All callbacks of one poll; `clock(i)` is what the clock says at the i-th. */
  method CallAll(service: FileWatcherService, config: WatchConfig, suffix: string -> string, ghost received: seq<Event>,
      events: seq<Event>, clock: nat -> real)
    requires service.Valid() && config.watchId in service.configs && service.configs[config.watchId] == config
    requires config.enabled && service.latest <= clock(0) && forall i: nat :: clock(i) <= clock(i + 1)
    requires GoodEvents(events) && Synced(config, suffix, received, service.history.accepted)
    modifies service`pending, service`dispatched, service`history, service`latest
    ensures service.Valid() && Synced(config, suffix, received + events, service.history.accepted)
  {
    hide Coherent, Synced, GoodEvents, InStep, KeyedById;
    assert received + events[..0] == received;
    for i := 0 to |events|
      invariant service.Valid() && service.latest <= clock(i)
      invariant Synced(config, suffix, received + events[..i], service.history.accepted)
    {
      GoodEvent(events, i);
      Call(service, config, suffix, received + events[..i], events[i], clock(i));
      assert received + events[..i] + [events[i]] == received + events[..i + 1];
      assert clock(i) <= clock(i + 1);
    }
    assert events[..|events|] == events;
  }

  /** One poll of the backend, each of whose events calls the service. */
  method PollInto(service: FileWatcherService, config: WatchConfig, storage: Storage, suffix: string -> string,
      clock: nat -> real)
    returns (events: seq<Event>)
    requires Follows(service, config, suffix) && GoodTree(RootOf(storage, config.rootUri))
    requires service.latest <= clock(0) && forall i: nat :: clock(i) <= clock(i + 1)
    modifies service`pending, service`dispatched, service`history, service`latest, service.backend
    ensures Follows(service, config, suffix)
    ensures IsSnapshot(RootOf(storage, config.rootUri), config.recursive, service.backend.snapshots[config.watchId])
    ensures service.backend.initial == old(service.backend.initial)
  {
    hide Coherent, IsSnapshot, GoodTree, RootOf, InStep, Describes, GoodSnapshot, GoodEvents, Synced, KeyedById;
    var id, backend := config.watchId, service.backend;
    ghost var received := backend.received[id];
    events := backend.Poll(id, storage);
    SnapshotGood(RootOf(storage, config.rootUri), config.recursive, backend.snapshots[id]);
    DescribedGood(old(service.backend.snapshots[id]), backend.snapshots[id], events);
    GoodConcat(received, events);
    CallAll(service, config, suffix, received, events, clock);
  }

  lemma GoodEvent(events: seq<Event>, i: nat)
    requires GoodEvents(events) && i < |events|
    ensures events[i].uri != []
  {
  }

  lemma GoodConcat(a: seq<Event>, b: seq<Event>)
    requires GoodEvents(a) && GoodEvents(b)
    ensures GoodEvents(a + b)
  {
    hide GoodPath;
  }

  /** A flush: afterwards the dispatched events give the stored snapshot, file by file. */
  method Settle(service: FileWatcherService, config: WatchConfig, ghost suffix: string -> string, now: real)
    requires Follows(service, config, suffix) && now >= service.latest
    modifies service`pending, service`dispatched, service`history, service`latest
    ensures Follows(service, config, suffix) && service.pending == []
    ensures forall before, files, uri ::
      && NamedBy(config.rootUri, service.backend.initial[config.watchId], before)
      && NamedBy(config.rootUri, service.backend.snapshots[config.watchId], files) ==>
        Lookup(ReplayChanges(before, Dispatched(service.dispatched)), uri) ==
          if Passes(config, suffix, uri) then Lookup(files, uri) else Lookup(before, uri)
    ensures config.patterns == {} ==> forall before ::
      NamedBy(config.rootUri, service.backend.initial[config.watchId], before) ==>
        NamedBy(config.rootUri, service.backend.snapshots[config.watchId],
                ReplayChanges(before, Dispatched(service.dispatched)))
  {
    hide Coherent, NamedBy, ReplayChanges, GoodHistory, GoodSnapshot, Synced, InStep, SendAll, BuiltAll, Passes, Dispatched;
    var id, backend := config.watchId, service.backend;
    SendingAccepts(service.history, service.pending, service.configs, now, true);
    service.Flush(now);
    StoredIsReplayed(backend.initial, backend.received, backend.snapshots, id);
    forall before, files, uri |
      && NamedBy(config.rootUri, backend.initial[id], before) && NamedBy(config.rootUri, backend.snapshots[id], files)
      ensures Lookup(ReplayChanges(before, Dispatched(service.dispatched)), uri) ==
        if Passes(config, suffix, uri) then Lookup(files, uri) else Lookup(before, uri)
    {
      DispatchedGivesStored(service.configs, service.dispatched, service.history, service.latest, config, suffix,
                            backend.initial[id], backend.received[id], backend.snapshots[id], before, files, uri);
    }
    if config.patterns == {} {
      forall before | NamedBy(config.rootUri, backend.initial[id], before)
        ensures NamedBy(config.rootUri, backend.snapshots[id], ReplayChanges(before, Dispatched(service.dispatched)))
      {
        UnfilteredGivesStored(service.configs, service.dispatched, service.history, service.latest, config, suffix,
                              backend.initial[id], backend.received[id], backend.snapshots[id], before);
      }
    }
  }

  lemma StoredIsReplayed(initial: map<WatchId, Snapshot>, received: map<WatchId, seq<Event>>,
      snapshots: map<WatchId, Snapshot>, id: WatchId)
    requires InStep(initial, received, snapshots) && id in snapshots && id in received && id in initial
    ensures Replay(initial[id], received[id]) == snapshots[id]
  {
  }
}
