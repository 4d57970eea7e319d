/** backend/lexmind/watcher/storage_watch_backend.py: change detection by polling a storage tree.
    A storage URI is a root and a list of names below it; joining the names with slashes is not
    modelled. A root that does not exist is a directory that cannot be listed. */
module PollingBackend {
  import opened Collections

  type Path = seq<string>
  type WatchId = string
  type Snapshot = map<Path, nat>

  datatype Entry = File(size: nat) | Directory(listable: bool, children: map<string, Entry>)

  /** What listing the directory at `p` gives, when every directory on the way can be listed. */
  function Listing(e: Entry, p: Path): Option<map<string, Entry>>
    decreases |p|
  {
    if !e.Directory? || !e.listable then None
    else if p == [] then Some(e.children)
    else if p[0] in e.children then Listing(e.children[p[0]], p[1..])
    else None
  }

  /** The size of the file at `p`, when every directory on the way can be listed. */
  function FileAt(e: Entry, p: Path): Option<nat>
    decreases |p|
  {
    if p == [] then if e.File? then Some(e.size) else None
    else if e.Directory? && e.listable && p[0] in e.children then FileAt(e.children[p[0]], p[1..])
    else None
  }

  function Parent(p: Path): Path
    requires p != []
  {
    p[..|p| - 1]
  }

  lemma {:induction false} FileInListing(e: Entry, d: Path, name: string)
    ensures
      var l := Listing(e, d);
      FileAt(e, d + [name]) ==
        if l.Some? && name in l.value && l.value[name].File? then Some(l.value[name].size) else None
    decreases |d|
  {
    var p := d + [name];
    if d == [] {
      assert p[1..] == [];
    } else if e.Directory? && e.listable && d[0] in e.children {
      assert p[1..] == d[1..] + [name];
      FileInListing(e.children[d[0]], d[1..], name);
    }
  }

  lemma {:induction false} ListingOfChild(e: Entry, d: Path, name: string)
    ensures
      var l := Listing(e, d);
      Listing(e, d + [name]) ==
        if l.Some? && name in l.value then Listing(l.value[name], []) else None
    decreases |d|
  {
    var p := d + [name];
    if d == [] {
      assert p[1..] == [];
    } else if e.Directory? && e.listable && d[0] in e.children {
      assert p[1..] == d[1..] + [name];
      ListingOfChild(e.children[d[0]], d[1..], name);
    }
  }

  /** The paths of all directories of the tree, finitely many. */
  function DirectoryPaths(e: Entry): set<Path> {
    if e.File? then {}
    else {[]} + set k, p | k in e.children && p in DirectoryPaths(e.children[k]) :: [k] + p
  }

  lemma {:induction false} ChildDirectoryPath(e: Entry, d: Path, name: string)
    requires Listing(e, d).Some? && name in Listing(e, d).value && Listing(e, d).value[name].Directory?
    ensures d + [name] in DirectoryPaths(e)
    decreases |d|
  {
    if d == [] {
      assert [name] + [] == d + [name];
      assert [] in DirectoryPaths(e.children[name]);
    } else {
      ChildDirectoryPath(e.children[d[0]], d[1..], name);
      assert [d[0]] + (d[1..] + [name]) == d + [name];
    }
  }

  /** What the tree walk must find: every reachable file below the root, or only the direct children. */
  ghost predicate IsSnapshot(root: Entry, recursive: bool, s: Snapshot) {
    forall p ::
      && (p in s <==> p != [] && FileAt(root, p).Some? && (recursive || |p| == 1))
      && (p in s ==> FileAt(root, p) == Some(s[p]))
  }

  /** The files found so far are those directly in a visited directory. */
  ghost predicate Collected(root: Entry, visited: set<Path>, s: Snapshot) {
    forall p ::
      && (p in s <==> p != [] && Parent(p) in visited && FileAt(root, p).Some?)
      && (p in s ==> FileAt(root, p) == Some(s[p]))
  }

  /** Directories wait on the stack once, after their parent was visited and before they are. */
  ghost predicate Frontier(root: Entry, recursive: bool, visited: set<Path>, stack: seq<Path>) {
    && NoDup(stack)
    && (forall d :: d in stack ==> d !in visited && (d == [] || d in DirectoryPaths(root)))
    && (forall d :: d in visited || d in stack ==> d == [] || (recursive && Parent(d) in visited))
    && ([] in visited || [] in stack)
    && visited <= DirectoryPaths(root) + {[]}
  }

  /** Every subdirectory of a visited directory has been pushed. */
  ghost predicate Pushed(root: Entry, visited: set<Path>, stack: seq<Path>) {
    forall d, name :: d in visited && SubdirectoryAt(root, d, name) ==> d + [name] in visited || d + [name] in stack
  }

  predicate SubdirectoryAt(root: Entry, d: Path, name: string) {
    var l := Listing(root, d);
    l.Some? && name in l.value && l.value[name].Directory?
  }

  lemma {:induction false} AllVisited(root: Entry, visited: set<Path>, d: Path)
    requires Pushed(root, visited, []) && [] in visited && Listing(root, d).Some?
    ensures d in visited
    decreases |d|
  {
    if d != [] {
      var up, name := Parent(d), d[|d| - 1];
      assert up + [name] == d;
      ListingOfChild(root, up, name);
      AllVisited(root, visited, up);
      assert SubdirectoryAt(root, up, name);
    }
  }

  lemma WalkDone(root: Entry, recursive: bool, visited: set<Path>, s: Snapshot)
    requires Collected(root, visited, s) && Frontier(root, recursive, visited, [])
    requires recursive ==> Pushed(root, visited, [])
    ensures IsSnapshot(root, recursive, s)
  {
    forall p | p != [] && FileAt(root, p).Some? && (recursive || |p| == 1) ensures p in s {
      var up, name := Parent(p), p[|p| - 1];
      assert up + [name] == p;
      FileInListing(root, up, name);
      if recursive {
        AllVisited(root, visited, up);
      } else {
        assert up == [];
      }
    }
    forall p | p in s && !recursive ensures |p| == 1 {
      assert Parent(p) == [];
    }
  }

  /** `p` is the child of `current` under one of the names. */
  predicate ChildOf(current: Path, names: set<string>, p: Path) {
    p != [] && Parent(p) == current && p[|p| - 1] in names
  }

  lemma OneMoreName(current: Path, names: set<string>, name: string, p: Path)
    ensures ChildOf(current, names + {name}, p) <==> ChildOf(current, names, p) || p == current + [name]
  {
    if ChildOf(current, {name}, p) {
      assert p == Parent(p) + [name];
    }
  }

  predicate FileChild(children: map<string, Entry>, current: Path, names: set<string>, p: Path)
    requires names <= children.Keys
  {
    ChildOf(current, names, p) && children[p[|p| - 1]].File?
  }

  predicate DirectoryChild(children: map<string, Entry>, current: Path, names: set<string>, p: Path)
    requires names <= children.Keys
  {
    ChildOf(current, names, p) && children[p[|p| - 1]].Directory?
  }

  /** The result and the stack after the named children have been handled. */
  ghost predicate Scanned(children: map<string, Entry>, current: Path, recursive: bool, names: set<string>,
      result0: Snapshot, stack0: seq<Path>, result: Snapshot, stack: seq<Path>)
    requires names <= children.Keys
  {
    && NoDup(stack)
    && (forall d :: d in stack <==> (d in stack0 || (recursive && DirectoryChild(children, current, names, d))))
    && (forall p :: p in result <==> (p in result0 || FileChild(children, current, names, p)))
    && (forall p :: p in result ==>
          result[p] == if FileChild(children, current, names, p) then children[p[|p| - 1]].size else result0[p])
  }

  lemma ScanNothing(children: map<string, Entry>, current: Path, recursive: bool, result: Snapshot, stack: seq<Path>)
    requires NoDup(stack)
    ensures Scanned(children, current, recursive, {}, result, stack, result, stack)
  {
  }

  lemma ScanDirectory(children: map<string, Entry>, current: Path, recursive: bool, names: set<string>, name: string,
      result0: Snapshot, stack0: seq<Path>, result: Snapshot, stack: seq<Path>)
    requires names <= children.Keys && name in children && name !in names && children[name].Directory?
    requires current + [name] !in stack0
    requires Scanned(children, current, recursive, names, result0, stack0, result, stack)
    ensures Scanned(children, current, recursive, names + {name}, result0, stack0, result,
                    if recursive then stack + [current + [name]] else stack)
  {
    hide ChildOf;
    var child := current + [name];
    var names' := names + {name};
    assert child[|child| - 1] == name;
    forall p ensures ChildOf(current, names', p) <==> ChildOf(current, names, p) || p == child {
      OneMoreName(current, names, name, p);
    }
    assert !ChildOf(current, names, child) by { NameOfChild(current, names, name); }
  }

  lemma NameOfChild(current: Path, names: set<string>, name: string)
    ensures ChildOf(current, names, current + [name]) <==> name in names
  {
    assert Parent(current + [name]) == current;
  }

  lemma ScanFile(children: map<string, Entry>, current: Path, recursive: bool, names: set<string>, name: string,
      result0: Snapshot, stack0: seq<Path>, result: Snapshot, stack: seq<Path>)
    requires names <= children.Keys && name in children && name !in names && children[name].File?
    requires Scanned(children, current, recursive, names, result0, stack0, result, stack)
    ensures Scanned(children, current, recursive, names + {name}, result0, stack0,
                    result[current + [name] := children[name].size], stack)
  {
    hide ChildOf;
    var child := current + [name];
    var names' := names + {name};
    assert child[|child| - 1] == name;
    forall p ensures ChildOf(current, names', p) <==> ChildOf(current, names, p) || p == child {
      OneMoreName(current, names, name, p);
    }
    assert !ChildOf(current, names, child) by { NameOfChild(current, names, name); }
  }

  /** The files of one listing, and the subdirectories to push. */
  method ScanListing(children: map<string, Entry>, current: Path, recursive: bool, result0: Snapshot, stack0: seq<Path>)
    returns (result: Snapshot, stack: seq<Path>)
    requires NoDup(stack0) && forall name :: current + [name] !in stack0
    ensures Scanned(children, current, recursive, children.Keys, result0, stack0, result, stack)
  {
    hide Scanned;
    result, stack := result0, stack0;
    ScanNothing(children, current, recursive, result, stack);
    var todo := children.Keys;
    assert children.Keys - todo == {};
    while todo != {}
      invariant todo <= children.Keys
      invariant Scanned(children, current, recursive, children.Keys - todo, result0, stack0, result, stack)
      decreases todo
    {
      var name :| name in todo;
      var child := current + [name];
      ghost var names := children.Keys - todo;
      match children[name] {
        case Directory(_, _) =>
          ScanDirectory(children, current, recursive, names, name, result0, stack0, result, stack);
          if recursive {
            stack := stack + [child];
          }
        case File(size) =>
          ScanFile(children, current, recursive, names, name, result0, stack0, result, stack);
          result := result[child := size];
      }
      todo := todo - {name};
      assert children.Keys - todo == names + {name};
    }
    assert children.Keys - todo == children.Keys;
  }

  /** The state of the walk between two directories. */
  ghost predicate Walking(root: Entry, recursive: bool, visited: set<Path>, stack: seq<Path>, s: Snapshot) {
    && Collected(root, visited, s) && Frontier(root, recursive, visited, stack)
    && (recursive ==> Pushed(root, visited, stack))
  }

  lemma PopFacts(root: Entry, recursive: bool, visited: set<Path>, stack: seq<Path>, s: Snapshot)
    requires stack != [] && Walking(root, recursive, visited, stack, s)
    ensures
      var current, rest := stack[|stack| - 1], stack[..|stack| - 1];
      && NoDup(rest) && current !in visited && current !in rest && current in DirectoryPaths(root) + {[]}
      && (forall d :: d in stack <==> d in rest || d == current)
      && forall name :: current + [name] !in rest
  {
    var current, rest := stack[|stack| - 1], stack[..|stack| - 1];
    assert stack == rest + [current];
    forall name ensures current + [name] !in rest {
      assert Parent(current + [name]) == current;
    }
  }

  lemma SkipCollects(root: Entry, visited: set<Path>, current: Path, s: Snapshot)
    requires Collected(root, visited, s) && Listing(root, current).None?
    ensures Collected(root, visited + {current}, s)
  {
    hide FileAt, Listing;
    forall p | p != [] && Parent(p) == current ensures FileAt(root, p).None? {
      assert p == current + [p[|p| - 1]];
      FileInListing(root, current, p[|p| - 1]);
    }
  }

  lemma SkipPushes(root: Entry, visited: set<Path>, rest: seq<Path>, current: Path)
    requires Pushed(root, visited, rest + [current]) && Listing(root, current).None?
    ensures Pushed(root, visited + {current}, rest)
  {
    hide Listing;
  }

  lemma SkipFrontier(root: Entry, recursive: bool, visited: set<Path>, rest: seq<Path>, current: Path)
    requires Frontier(root, recursive, visited, rest + [current]) && current !in rest && NoDup(rest)
    requires current in DirectoryPaths(root) + {[]}
    ensures Frontier(root, recursive, visited + {current}, rest)
  {
    hide DirectoryPaths, NoDup;
    assert forall d :: d in rest + [current] <==> d in rest || d == current;
  }

  /** A directory that cannot be listed adds nothing. */
  lemma SkipDirectory(root: Entry, recursive: bool, visited: set<Path>, stack: seq<Path>, s: Snapshot)
    requires stack != [] && Walking(root, recursive, visited, stack, s)
    requires Listing(root, stack[|stack| - 1]).None?
    ensures Walking(root, recursive, visited + {stack[|stack| - 1]}, stack[..|stack| - 1], s)
  {
    hide Collected, Frontier, Pushed, Listing;
    var current, rest := stack[|stack| - 1], stack[..|stack| - 1];
    assert stack == rest + [current];
    PopFacts(root, recursive, visited, stack, s);
    SkipCollects(root, visited, current, s);
    SkipFrontier(root, recursive, visited, rest, current);
    if recursive {
      SkipPushes(root, visited, rest, current);
    }
  }

  lemma ScanCollects(root: Entry, recursive: bool, visited: set<Path>, current: Path, children: map<string, Entry>,
      rest: seq<Path>, s: Snapshot, stack: seq<Path>, s': Snapshot)
    requires Collected(root, visited, s) && Listing(root, current) == Some(children)
    requires Scanned(children, current, recursive, children.Keys, s, rest, s', stack)
    ensures Collected(root, visited + {current}, s')
  {
    hide FileAt, Listing, NoDup, DirectoryChild;
    forall p | p != [] && Parent(p) == current
      ensures FileAt(root, p) == if FileChild(children, current, children.Keys, p) then Some(children[p[|p| - 1]].size) else None
    {
      assert p == current + [p[|p| - 1]];
      FileInListing(root, current, p[|p| - 1]);
    }
  }

  lemma ScanStack(children: map<string, Entry>, current: Path, recursive: bool,
      rest: seq<Path>, s: Snapshot, stack: seq<Path>, s': Snapshot, d: Path)
    requires Scanned(children, current, recursive, children.Keys, s, rest, s', stack)
    ensures NoDup(stack)
    ensures d in stack <==> d in rest || (recursive && DirectoryChild(children, current, children.Keys, d))
  {
  }

  lemma NewOnStack(root: Entry, current: Path, children: map<string, Entry>, d: Path)
    requires Listing(root, current) == Some(children) && DirectoryChild(children, current, children.Keys, d)
    ensures d in DirectoryPaths(root) && d != [] && Parent(d) == current && |d| == |current| + 1
  {
    assert d == current + [d[|d| - 1]];
    ChildDirectoryPath(root, current, d[|d| - 1]);
  }

  lemma ScanFrontier(root: Entry, recursive: bool, visited: set<Path>, current: Path, children: map<string, Entry>,
      rest: seq<Path>, s: Snapshot, stack: seq<Path>, s': Snapshot)
    requires Frontier(root, recursive, visited, rest + [current]) && Listing(root, current) == Some(children)
    requires current !in rest && current !in visited
    requires Scanned(children, current, recursive, children.Keys, s, rest, s', stack)
    ensures Frontier(root, recursive, visited + {current}, stack)
  {
    hide Listing, DirectoryPaths, DirectoryChild, Scanned, NoDup;
    assert forall d :: d in rest + [current] <==> d in rest || d == current;
    ScanStack(children, current, recursive, rest, s, stack, s', []);
    forall d | d in stack
      ensures d !in visited + {current} && (d == [] || d in DirectoryPaths(root))
      ensures d == [] || (recursive && Parent(d) in visited + {current})
    {
      ScanStack(children, current, recursive, rest, s, stack, s', d);
      if d !in rest {
        NewOnStack(root, current, children, d);
      }
    }
  }

  lemma ScanPushes(root: Entry, visited: set<Path>, current: Path, children: map<string, Entry>,
      rest: seq<Path>, s: Snapshot, stack: seq<Path>, s': Snapshot)
    requires Pushed(root, visited, rest + [current]) && Listing(root, current) == Some(children)
    requires Scanned(children, current, true, children.Keys, s, rest, s', stack)
    ensures Pushed(root, visited + {current}, stack)
  {
    hide Scanned, Listing;
    forall d, name | d in visited + {current} && SubdirectoryAt(root, d, name)
      ensures d + [name] in visited + {current} || d + [name] in stack
    {
      ScanStack(children, current, true, rest, s, stack, s', d + [name]);
      if d == current {
        NameOfChild(current, children.Keys, name);
        assert DirectoryChild(children, current, children.Keys, current + [name]);
      } else {
        hide DirectoryChild;
        assert d + [name] in visited || d + [name] in rest + [current];
      }
    }
  }

  /** The tree walk: terminates on every finite tree and finds exactly the files it must. */
  method TakeSnapshot(root: Entry, recursive: bool) returns (result: Snapshot)
    ensures IsSnapshot(root, recursive, result)
  {
    hide Scanned, Collected, Frontier, Pushed, IsSnapshot;
    result := map[];
    var stack: seq<Path> := [[]];
    ghost var visited: set<Path> := {};
    WalkStart(root, recursive);
    while stack != []
      invariant Walking(root, recursive, visited, stack, result)
      decreases DirectoryPaths(root) + {[]} - visited
    {
      PopFacts(root, recursive, visited, stack, result);
      var current := stack[|stack| - 1];
      ghost var stack0, result0 := stack, result;
      stack := stack[..|stack| - 1];
      assert stack0 == stack + [current];
      ghost var rest := stack;
      var listing := Listing(root, current);
      if listing.Some? {
        result, stack := ScanListing(listing.value, current, recursive, result, stack);
        ScanCollects(root, recursive, visited, current, listing.value, rest, result0, stack, result);
        ScanFrontier(root, recursive, visited, current, listing.value, rest, result0, stack, result);
        if recursive {
          ScanPushes(root, visited, current, listing.value, rest, result0, stack, result);
        }
      } else {
        SkipDirectory(root, recursive, visited, stack0, result0);
      }
      visited := visited + {current};
    }
    WalkDone(root, recursive, visited, result);
  }

  lemma WalkStart(root: Entry, recursive: bool)
    ensures Walking(root, recursive, {}, [[]], map[])
  {
  }

  /** Events */

  datatype Kind = Created | Modified | Deleted
  datatype Event = Event(uri: Path, kind: Kind, size: nat)

  function ApplyEvent(s: Snapshot, e: Event): Snapshot {
    if e.kind == Deleted then s - {e.uri} else s[e.uri := e.size]
  }

  function Replay(s: Snapshot, events: seq<Event>): Snapshot {
    if events == [] then s else ApplyEvent(Replay(s, events[..|events| - 1]), events[|events| - 1])
  }

  lemma {:induction false} ReplayConcat(s: Snapshot, a: seq<Event>, b: seq<Event>)
    ensures Replay(s, a + b) == Replay(Replay(s, a), b)
    decreases |b|
  {
    if b == [] {
      assert a + b == a;
    } else {
      assert (a + b)[..|a + b| - 1] == a + b[..|b| - 1];
      ReplayConcat(s, a, b[..|b| - 1]);
    }
  }

  /** Each event says what happened to its file. */
  predicate Truthful(previous: Snapshot, current: Snapshot, e: Event) {
    match e.kind
    case Created => e.uri !in previous && e.uri in current && e.size == current[e.uri]
    case Modified => e.uri in previous && e.uri in current && previous[e.uri] != current[e.uri] && e.size == current[e.uri]
    case Deleted => e.uri in previous && e.uri !in current && e.size == 0
  }

  /** At most one event per file, all of them true, and together they turn one snapshot into the other. */
  ghost predicate Describes(previous: Snapshot, current: Snapshot, events: seq<Event>) {
    && (forall i, j :: 0 <= i < j < |events| ==> events[i].uri != events[j].uri)
    && (forall e :: e in events ==> Truthful(previous, current, e))
    && Replay(previous, events) == current
  }

  ghost predicate OneEventEach(events: seq<Event>, uris: set<Path>) {
    && (forall i, j :: 0 <= i < j < |events| ==> events[i].uri != events[j].uri)
    && (forall i :: 0 <= i < |events| ==> events[i].uri in uris)
  }

  lemma ReplayOne(s: Snapshot, events: seq<Event>, e: Event)
    ensures Replay(s, events + [e]) == ApplyEvent(Replay(s, events), e)
  {
    assert (events + [e])[..|events|] == events;
  }

  /** The comparison so far: events only about handled files, all true, and replaying them brings the
      handled files up to date. */
  ghost predicate Compared(previous: Snapshot, current: Snapshot, handled: set<Path>, events: seq<Event>) {
    && OneEventEach(events, handled)
    && (forall e :: e in events ==> Truthful(previous, current, e))
    && var now := Replay(previous, events);
       && (forall u :: u in now <==> if u in handled then u in current else u in previous)
       && (forall u :: u in now ==> now[u] == if u in handled then current[u] else previous[u])
  }

  lemma CompareStep(previous: Snapshot, current: Snapshot, handled: set<Path>, events: seq<Event>, e: Event)
    requires Compared(previous, current, handled, events)
    requires e.uri !in handled && Truthful(previous, current, e)
    ensures Compared(previous, current, handled + {e.uri}, events + [e])
  {
    hide Replay;
    ReplayOne(previous, events, e);
  }

  /** A file that is in neither snapshot, or has the same size in both, needs no event. */
  lemma CompareSkip(previous: Snapshot, current: Snapshot, handled: set<Path>, events: seq<Event>, u: Path)
    requires Compared(previous, current, handled, events)
    requires u in previous <==> u in current
    requires u in previous ==> previous[u] == current[u]
    ensures Compared(previous, current, handled + {u}, events)
  {
    hide Replay, Truthful;
  }

  lemma CompareStart(previous: Snapshot, current: Snapshot)
    ensures Compared(previous, current, {}, [])
  {
  }

  lemma CompareDone(previous: Snapshot, current: Snapshot, handled: set<Path>, events: seq<Event>)
    requires Compared(previous, current, handled, events) && previous.Keys + current.Keys <= handled
    ensures Describes(previous, current, events)
  {
    hide Replay, Truthful;
  }

  /** Files that are there are reported before those that are gone. */
  ghost predicate DeletionsLast(events: seq<Event>) {
    forall i, j :: 0 <= i < j < |events| && events[i].kind == Deleted ==> events[j].kind == Deleted
  }

  method Compare(previous: Snapshot, current: Snapshot) returns (events: seq<Event>)
    ensures Describes(previous, current, events) && DeletionsLast(events)
  {
    hide Compared, Describes;
    events := [];
    CompareStart(previous, current);
    ghost var handled: set<Path> := {};
    var todo := current.Keys;
    while todo != {}
      invariant todo <= current.Keys && handled == current.Keys - todo
      invariant Compared(previous, current, handled, events)
      invariant forall e :: e in events ==> e.kind != Deleted
      decreases todo
    {
      var uri :| uri in todo;
      var e := Event(uri, if uri !in previous then Created else Modified, current[uri]);
      if uri !in previous || previous[uri] != current[uri] {
        CompareStep(previous, current, handled, events, e);
        events := events + [e];
      } else {
        CompareSkip(previous, current, handled, events, uri);
      }
      todo, handled := todo - {uri}, handled + {uri};
    }
    var gone := previous.Keys;
    while gone != {}
      invariant gone <= previous.Keys && current.Keys + (previous.Keys - gone) == handled
      invariant Compared(previous, current, handled, events) && DeletionsLast(events)
      decreases gone
    {
      var uri :| uri in gone;
      if uri !in current {
        CompareStep(previous, current, handled, events, Event(uri, Deleted, 0));
        events := events + [Event(uri, Deleted, 0)];
      } else {
        assert handled + {uri} == handled;
      }
      gone, handled := gone - {uri}, handled + {uri};
    }
    CompareDone(previous, current, handled, events);
  }

  function Flatten(batches: seq<seq<Event>>): seq<Event> {
    if batches == [] then [] else Flatten(batches[..|batches| - 1]) + batches[|batches| - 1]
  }

  /** The events of any number of polls, replayed over the first snapshot, give the last one. */
  lemma {:induction false} ReplayPolls(snapshots: seq<Snapshot>, batches: seq<seq<Event>>)
    requires |snapshots| == |batches| + 1
    requires forall i :: 0 <= i < |batches| ==> Describes(snapshots[i], snapshots[i + 1], batches[i])
    ensures Replay(snapshots[0], Flatten(batches)) == snapshots[|batches|]
    decreases |batches|
  {
    if batches != [] {
      var n := |batches| - 1;
      ReplayPolls(snapshots[..n + 1], batches[..n]);
      ReplayConcat(snapshots[0], Flatten(batches[..n]), batches[n]);
    }
  }

  datatype WatchConfig = WatchConfig(watchId: WatchId, workspaceId: string, rootUri: string, patterns: set<string>,
                                     recursive: bool, debounceSeconds: real, enabled: bool)
  {
    /** `suffix` is the lower-case file extension of the changed file; no patterns means every file. */
    predicate AcceptsExtension(suffix: string) {
      patterns == {} || suffix in patterns
    }
  }

  /** The storage manager as seen at one moment: the tree below each root. */
  type Storage = map<string, Entry>

  function RootOf(storage: Storage, uri: string): Entry {
    if uri in storage then storage[uri] else Directory(false, map[])
  }

  /** What every callback has received so far, replayed over its first snapshot, gives the stored one. */
  ghost predicate InStep(initial: map<WatchId, Snapshot>, received: map<WatchId, seq<Event>>,
      snapshots: map<WatchId, Snapshot>) {
    && snapshots.Keys == received.Keys == initial.Keys
    && forall id :: id in snapshots ==> Replay(initial[id], received[id]) == snapshots[id]
  }

  lemma SameWatches(initial: map<WatchId, Snapshot>, received: map<WatchId, seq<Event>>, snapshots: map<WatchId,
      Snapshot>)
    requires InStep(initial, received, snapshots)
    ensures received.Keys == initial.Keys == snapshots.Keys
  {
  }

  lemma InStepAfterWatch(initial: map<WatchId, Snapshot>, received: map<WatchId, seq<Event>>,
      snapshots: map<WatchId, Snapshot>,
      id: WatchId, s: Snapshot)
    requires InStep(initial, received, snapshots)
    ensures InStep(initial[id := s], received[id := []], snapshots[id := s])
  {
  }

  lemma InStepAfterUnwatch(initial: map<WatchId, Snapshot>, received: map<WatchId, seq<Event>>,
      snapshots: map<WatchId, Snapshot>,
      id: WatchId)
    requires InStep(initial, received, snapshots)
    ensures InStep(initial - {id}, received - {id}, snapshots - {id})
  {
    hide Replay;
  }

  lemma InStepAfterPoll(initial: map<WatchId, Snapshot>, received: map<WatchId, seq<Event>>,
      snapshots: map<WatchId, Snapshot>,
      id: WatchId, events: seq<Event>, s: Snapshot)
    requires InStep(initial, received, snapshots)
    requires id in snapshots && Describes(snapshots[id], s, events)
    ensures InStep(initial, received[id := received[id] + events], snapshots[id := s])
  {
    hide Replay;
    ReplayConcat(initial[id], received[id], events);
  }

  class StoragePollingBackend {
    var configs: map<WatchId, WatchConfig>
    var snapshots: map<WatchId, Snapshot>
    /** What each registered callback has received since `watch`. */
    var received: map<WatchId, seq<Event>>
    /** The snapshot taken at `watch`. */
    ghost var initial: map<WatchId, Snapshot>

    ghost predicate Valid()
      reads this
    {
      configs.Keys == snapshots.Keys && InStep(initial, received, snapshots)
    }

    constructor ()
      ensures Valid() && configs == map[]
    {
      configs, snapshots, received, initial := map[], map[], map[], map[];
    }

    method Watch(config: WatchConfig, storage: Storage)
      requires Valid()
      modifies this
      ensures Valid()
      ensures configs == old(configs)[config.watchId := config]
      ensures config.watchId in snapshots && IsSnapshot(RootOf(storage, config.rootUri), config.recursive, snapshots[config.watchId])
      ensures snapshots == old(snapshots)[config.watchId := snapshots[config.watchId]]
      ensures received == old(received)[config.watchId := []]
      ensures initial == old(initial)[config.watchId := snapshots[config.watchId]]
    {
      hide IsSnapshot, RootOf, InStep;
      var s := TakeSnapshot(RootOf(storage, config.rootUri), config.recursive);
      configs := configs[config.watchId := config];
      snapshots := snapshots[config.watchId := s];
      received := received[config.watchId := []];
      InStepAfterWatch(initial, old(received), old(snapshots), config.watchId, s);
      initial := initial[config.watchId := s];
    }

    method Unwatch(id: WatchId)
      requires Valid()
      modifies this
      ensures Valid()
      ensures configs == old(configs) - {id} && snapshots == old(snapshots) - {id}
      ensures received == old(received) - {id} && initial == old(initial) - {id}
    {
      hide InStep;
      InStepAfterUnwatch(initial, received, snapshots, id);
      configs := configs - {id};
      snapshots := snapshots - {id};
      received := received - {id};
      initial := initial - {id};
    }

    /** A poll of an unknown id does nothing; otherwise the callback receives exactly the difference
        between the stored and the current snapshot, which becomes the stored one. */
    method Poll(id: WatchId, storage: Storage) returns (events: seq<Event>)
      requires Valid()
      modifies this
      ensures Valid() && configs == old(configs) && initial == old(initial)
      ensures id !in old(configs) ==> events == [] && snapshots == old(snapshots) && received == old(received)
      ensures id in old(configs) ==>
        && IsSnapshot(RootOf(storage, configs[id].rootUri), configs[id].recursive, snapshots[id])
        && Describes(old(snapshots)[id], snapshots[id], events) && DeletionsLast(events)
        && snapshots == old(snapshots)[id := snapshots[id]]
        && received == old(received)[id := old(received)[id] + events]
    {
      hide IsSnapshot, RootOf, InStep, Describes, DeletionsLast;
      if id !in configs {
        return [];
      }
      var config := configs[id];
      SameWatches(initial, received, snapshots);
      var previous := snapshots[id];
      var current := TakeSnapshot(RootOf(storage, config.rootUri), config.recursive);
      events := Compare(previous, current);
      InStepAfterPoll(initial, received, snapshots, id, events, current);
      received := received[id := received[id] + events];
      snapshots := snapshots[id := current];
    }
  }
}
