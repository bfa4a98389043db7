/** Discovery against etcd: a loop that mixes "watch from index" with periodic full
    synchronisation and folds what it learns into the table of discovered nodes.  etcd is
    modelled as an indexed log of events and the store that the log induces. */
module EtcdWatcher {
  import opened NodeDiscovery

  datatype Key = Key(zone: string, node: string, wire: string)

  datatype Kind = Set | Create | Update | CompareAndSwap | Delete | Expire | CompareAndDelete

  /** A directory of keys: the watched root, a zone or a node. */
  datatype Path = Root | Zone(zone: string) | Node(zone: string, node: string)

  /** An event about a key or a directory under the watched root, or one elsewhere in etcd that
      the watch skips.  Removing a directory is recursive; a node does that when it shuts down. */
  datatype Event = Event(kind: Kind, key: Key) | Directory(kind: Kind, path: Path) | Elsewhere

  /** The event with index i is log[i - 1]. */
  type Log = seq<Event>

  predicate Removes(k: Kind) { k.Delete? || k.Expire? || k.CompareAndDelete? }

  predicate Concerns(e: Event, k: Key) { e.Event? && e.key == k }

  predicate Under(k: Key, p: Path) {
    match p case Root => true case Zone(z) => k.zone == z case Node(z, n) => k.zone == z && k.node == n
  }

  /** The event leaves the key absent. */
  predicate Ends(e: Event, k: Key) {
    (Concerns(e, k) || (e.Directory? && Under(k, e.path))) && Removes(e.kind)
  }

  /** The event leaves the key present. */
  predicate Adds(e: Event, k: Key) { Concerns(e, k) && !Removes(e.kind) }

  // ---- The store -----------------------------------------------------------------------

  /** The index of the event with which the current life of a key began; 0 if it is absent. */
  function Since(log: Log, k: Key): (s: nat)
    ensures s <= |log|
  {
    if log == [] then 0 else
    var before, e := Since(log[..|log| - 1], k), log[|log| - 1];
    if Ends(e, k) then 0
    else if Adds(e, k) && before == 0 then |log|
    else before
  }

  /** The modified index of a key: that of the last event about it; 0 if there is none. */
  function Modified(log: Log, k: Key): (m: nat)
    ensures m <= |log|
  {
    if log == [] then 0
    else if Concerns(log[|log| - 1], k) then |log|
    else Modified(log[..|log| - 1], k)
  }

  /** The index of the event with which the last life of a key ended; 0 if none has. */
  function Ended(log: Log, k: Key): (j: nat)
    ensures j <= |log|
  {
    if log == [] then 0
    else if Ends(log[|log| - 1], k) && Stored(log[..|log| - 1], k) then |log|
    else Ended(log[..|log| - 1], k)
  }

  predicate Stored(log: Log, k: Key) { Since(log, k) > 0 }

  /** Action by action: what an event makes of the store. */
  lemma StoreActions(log: Log, kind: Kind, k: Key, other: Key, zone: string, node: string)
    requires k != other
    ensures kind in {Set, Create, Update, CompareAndSwap} ==>
              var s := Since(log + [Event(kind, k)], k); s == if Stored(log, k) then Since(log, k) else |log| + 1
    ensures kind in {Delete, Expire, CompareAndDelete} ==>
              !Stored(log + [Event(kind, k)], k) && !Stored(log + [Directory(kind, Root)], k)
              && !Stored(log + [Directory(kind, Zone(k.zone))], k)
              && !Stored(log + [Directory(kind, Node(k.zone, k.node))], k)
    ensures Since(log + [Event(kind, other)], k) == Since(log + [Elsewhere], k) == Since(log, k)
    ensures zone != k.zone ==> Since(log + [Directory(kind, Zone(zone))], k) == Since(log, k)
    ensures zone != k.zone || node != k.node ==> Since(log + [Directory(kind, Node(zone, node))], k) == Since(log, k)
    ensures kind in {Set, Create, Update, CompareAndSwap} ==> Since(log + [Directory(kind, Root)], k) == Since(log, k)
  {
    forall e: Event
      ensures (log + [e])[..|log + [e]| - 1] == log && (log + [e])[|log + [e]| - 1] == e
    {
    }
  }

  /** The modified index is that of the last event about the key itself. */
  lemma {:induction false} ModifiedIs(log: Log, k: Key, m: nat)
    ensures Modified(log, k) == m
       <==> (m == 0 || (m <= |log| && log[m - 1].Event? && log[m - 1].key == k))
            && forall i | m <= i < |log| :: !(log[i].Event? && log[i].key == k)
  {
    if log != [] {
      var before := log[..|log| - 1];
      ModifiedIs(before, k, m);
      assert forall i | 0 <= i < |before| :: before[i] == log[i];
    }
  }

  predicate Seen(log: Log, k: Key) {
    exists i | 0 <= i < |log| :: Concerns(log[i], k)
  }

  /** etcd updates, swaps and removes only keys that exist. */
  predicate LogOk(log: Log) {
    forall i | 0 <= i < |log| && log[i].Event? && !log[i].kind.Set? && !log[i].kind.Create? ::
      Stored(log[..i], log[i].key)
  }

  /** No two zones use the same node and wire names. */
  predicate ZonesApart(log: Log) {
    forall i, j | 0 <= i < |log| && 0 <= j < |log| && log[i].Event? && log[j].Event? ::
      log[i].key.node == log[j].key.node && log[i].key.wire == log[j].key.wire ==> log[i].key == log[j].key
  }

  lemma LogOkBefore(log: Log)
    requires LogOk(log) && log != []
    ensures LogOk(log[..|log| - 1])
  {
    var before := log[..|log| - 1];
    forall i | 0 <= i < |before| && before[i].Event? && !before[i].kind.Set? && !before[i].kind.Create?
      ensures Stored(before[..i], before[i].key)
    {
      assert before[..i] == log[..i] && before[i] == log[i];
    }
  }

  /** A life begins with an event that sets or creates the key. */
  lemma {:induction false} SinceEvent(log: Log, k: Key)
    requires LogOk(log) && Stored(log, k)
    ensures var e := log[Since(log, k) - 1];
            Concerns(e, k) && (e.kind.Set? || e.kind.Create?)
    ensures Since(log, k) <= Modified(log, k)
  {
    var before := log[..|log| - 1];
    if Since(before, k) > 0 {
      LogOkBefore(log);
      SinceEvent(before, k);
    }
  }

  /** After a removal at index i, a life of that key can only have begun later. */
  lemma {:induction false} RemovedBefore(log: Log, k: Key, i: nat)
    requires 1 <= i <= |log| && Ends(log[i - 1], k)
    ensures Since(log, k) == 0 || Since(log, k) > i
  {
    if i < |log| {
      var before := log[..|log| - 1];
      assert before[i - 1] == log[i - 1];
      RemovedBefore(before, k, i);
    }
  }

  /** The last life ended with an event that removes the key. */
  lemma {:induction false} EndedEvent(log: Log, k: Key)
    requires Ended(log, k) > 0
    ensures Ends(log[Ended(log, k) - 1], k)
  {
    if !(Ends(log[|log| - 1], k) && Stored(log[..|log| - 1], k)) {
      EndedEvent(log[..|log| - 1], k);
    }
  }

  /** Nothing is said about an absent key after its last life has ended. */
  lemma {:induction false} LastWord(log: Log, k: Key, i: nat)
    requires LogOk(log) && !Stored(log, k) && 1 <= i <= |log| && Concerns(log[i - 1], k)
    ensures i <= Ended(log, k)
  {
    var before := log[..|log| - 1];
    if i < |log| && !Stored(before, k) {
      LogOkBefore(log);
      assert before[i - 1] == log[i - 1];
      LastWord(before, k, i);
    }
  }

  // ---- The watcher -----------------------------------------------------------------------

  datatype State = State(log: Log, highest: int, table: Table)

  datatype Step =
    | Publish(event: Event)       // somebody changes etcd
    | Watch(index: nat)           // the watch returns the event with this index
    | Resync(order: seq<Key>)     // full synchronisation, keys listed in this order

  /** No event of the watched root lies strictly between two indices. */
  predicate Quiet(log: Log, lo: int, hi: nat) {
    forall i | 0 <= i < |log| && lo < i + 1 < hi :: log[i].Elsewhere?
  }

  /** The watch asks for the first event from highest + 1 on.  Asking for index 0 means
      "whatever comes next", so then any event may be returned. */
  predicate WatchReturns(s: State, index: nat) {
    && 1 <= index <= |s.log| && !s.log[index - 1].Elsewhere?
    && (s.highest != -1 ==> s.highest < index && Quiet(s.log, s.highest, index))
  }

  /** A watch that knows where to continue returns one particular event. */
  lemma WatchDeterminate(s: State, i: nat, j: nat)
    requires s.highest != -1 && WatchReturns(s, i) && WatchReturns(s, j)
    ensures i == j
  {
    assert !s.log[i - 1].Elsewhere? && !s.log[j - 1].Elsewhere?;
  }

  /** It returns as soon as there is an event of the watched root beyond `highest`. */
  lemma {:induction false} WatchHappens(s: State, i: nat)
    requires -1 <= s.highest && s.highest < i && 1 <= i <= |s.log| && !s.log[i - 1].Elsewhere?
    ensures exists j :: 0 <= j <= i && WatchReturns(s, j)
  {
    if !WatchReturns(s, i) {
      var k :| 0 <= k < |s.log| && s.highest < k + 1 < i && !s.log[k].Elsewhere?;
      WatchHappens(s, k + 1);
    }
  }

  predicate Lists(order: seq<Key>, log: Log) {
    && (forall k <- order :: Stored(log, k))
    && (forall i | 0 <= i < |log| && log[i].Event? && Stored(log, log[i].key) :: log[i].key in order)
  }

  predicate Enabled(s: State, a: Step) {
    match a
    case Publish(e) => LogOk(s.log + [e])
    case Watch(i) => WatchReturns(s, i)
    case Resync(order) => Lists(order, s.log)
  }

  /** The event makes the watcher add its key. */
  predicate Announces(e: Event) {
    e.Event? && (e.kind.Set? || e.kind.Create? || e.kind.Update?)
  }

  /** The event makes the watcher remove its key.  Other removals it lets pass: it does not know
      the action compareAndDelete, and finds no wire in the name of a directory. */
  predicate Heeded(e: Event) {
    e.Event? && (e.kind.Delete? || e.kind.Expire?)
  }

  function Handle(t: Table, e: Event): Table {
    if Announces(e) then Added(t, e.key.node, [e.key.wire])
    else if Heeded(e) then Removed(t, e.key.node, [e.key.wire])
    else t
  }

  function AddAll(t: Table, order: seq<Key>): Table {
    if order == [] then t
    else Added(AddAll(t, order[..|order| - 1]), order[|order| - 1].node, [order[|order| - 1].wire])
  }

  function HighestOf(log: Log, order: seq<Key>): int {
    if order == [] then -1
    else
      var h, m := HighestOf(log, order[..|order| - 1]), Modified(log, order[|order| - 1]);
      if m > h then m else h
  }

  function Do(s: State, a: Step): State
    requires Enabled(s, a)
  {
    match a
    case Publish(e) => s.(log := s.log + [e])
    case Watch(i) => s.(table := Handle(s.table, s.log[i - 1]), highest := i)
    case Resync(order) => s.(table := AddAll(s.table, order), highest := HighestOf(s.log, order))
  }

  // ---- Completeness -----------------------------------------------------------------------

  /** Every stored wire whose current life began no later than `highest` is known. */
  predicate Complete(s: State, k: Key) {
    0 < Since(s.log, k) <= s.highest ==> Knows(s.table, k.node, k.wire)
  }

  predicate Sound(s: State) {
    LogOk(s.log) && -1 <= s.highest <= |s.log|
  }

  /** The event bears the names of the key, perhaps in another zone; the table knows only names. */
  predicate Named(e: Event, k: Key) {
    e.Event? && e.key.node == k.node && e.key.wire == k.wire
  }

  lemma PublishComplete(s: State, e: Event, k: Key)
    requires Sound(s) && Enabled(s, Publish(e))
    ensures Complete(Do(s, Publish(e)), k) <==> Complete(s, k) || Ends(e, k)
  {
    assert (s.log + [e])[..|s.log|] == s.log;
  }

  /** The watched event leaves the wire known if it was stored by then: it announces it, or it was
      known and is not removed with a namesake. */
  predicate WatchCovers(s: State, i: nat, k: Key)
    requires 1 <= i <= |s.log|
  {
    var e := s.log[i - 1];
    !(&& 0 < Since(s.log, k) <= i && !(Named(e, k) && Announces(e))
      && ((Named(e, k) && Heeded(e)) || !Knows(s.table, k.node, k.wire)))
  }

  lemma WatchComplete(s: State, i: nat, k: Key)
    requires Sound(s) && Enabled(s, Watch(i))
    ensures Complete(Do(s, Watch(i)), k) <==> WatchCovers(s, i, k)
  {
    HandleKnows(s.table, s.log[i - 1], k.node, k.wire);
  }

  lemma HandleKnows(t: Table, e: Event, n: string, w: string)
    ensures Knows(Handle(t, e), n, w)
       <==> var named := e.Event? && e.key.node == n && e.key.wire == w;
            (named && Announces(e)) || (Knows(t, n, w) && !(named && Heeded(e)))
  {
    if e.Event? {
      AddedKnows(t, e.key.node, [e.key.wire], n, w);
      RemovedKnows(t, e.key.node, [e.key.wire], n, w);
    }
  }

  /** Action by action: what a watched event makes of the table. */
  lemma WatchedActions(t: Table, kind: Kind, k: Key, path: Path)
    ensures kind in {Set, Create, Update} ==> Knows(Handle(t, Event(kind, k)), k.node, k.wire)
    ensures kind in {Delete, Expire} ==> !Knows(Handle(t, Event(kind, k)), k.node, k.wire)
    ensures kind in {CompareAndSwap, CompareAndDelete} ==> Handle(t, Event(kind, k)) == t
    ensures forall n, w | n != k.node || w != k.wire :: Knows(Handle(t, Event(kind, k)), n, w) <==> Knows(t, n, w)
    ensures Handle(t, Directory(kind, path)) == t
  {
    HandleKnows(t, Event(kind, k), k.node, k.wire);
    forall n, w | n != k.node || w != k.wire
      ensures Knows(Handle(t, Event(kind, k)), n, w) <==> Knows(t, n, w)
    {
      HandleKnows(t, Event(kind, k), n, w);
    }
  }

  lemma {:induction false} AddAllKnows(t: Table, order: seq<Key>, n: string, w: string)
    ensures Knows(AddAll(t, order), n, w) <==> Knows(t, n, w) || exists k <- order :: k.node == n && k.wire == w
  {
    if order != [] {
      var before, last := order[..|order| - 1], order[|order| - 1];
      AddAllKnows(t, before, n, w);
      AddedKnows(AddAll(t, before), last.node, [last.wire], n, w);
      assert order == before + [last];
    }
  }

  /** The highest modified index of the listed keys, and -1 if none is listed. */
  lemma {:induction false} HighestBound(log: Log, order: seq<Key>)
    ensures -1 <= HighestOf(log, order) <= |log|
    ensures forall k <- order :: Modified(log, k) <= HighestOf(log, order)
    ensures if order == [] then HighestOf(log, order) == -1
            else exists k <- order :: Modified(log, k) == HighestOf(log, order)
  {
    if order != [] {
      HighestBound(log, order[..|order| - 1]);
      assert order == order[..|order| - 1] + [order[|order| - 1]];
    }
  }

  /** A full synchronisation knows every stored wire, wherever it moves `highest`. */
  lemma ResyncKnowsAll(s: State, order: seq<Key>, k: Key)
    requires Sound(s) && Enabled(s, Resync(order)) && Stored(s.log, k)
    ensures Knows(Do(s, Resync(order)).table, k.node, k.wire)
  {
    SinceEvent(s.log, k);
    AddAllKnows(s.table, order, k.node, k.wire);
  }

  predicate CanRun(s: State, run: seq<Step>)
    decreases |run|
  {
    run == [] || (Enabled(s, run[0]) && CanRun(Do(s, run[0]), run[1..]))
  }

  function Run(s: State, run: seq<Step>): State
    requires CanRun(s, run)
    decreases |run|
  {
    if run == [] then s else Run(Do(s, run[0]), run[1..])
  }

  /** A run goes on with any step that is enabled. */
  lemma {:induction false} RunExtends(s: State, run: seq<Step>, a: Step)
    requires CanRun(s, run)
    ensures CanRun(s, run + [a]) <==> Enabled(Run(s, run), a)
    ensures Enabled(Run(s, run), a) ==> Run(s, run + [a]) == Do(Run(s, run), a)
    decreases |run|
  {
    if run == [] {
      assert [] + [a] == [a] && [a][1..] == [];
    } else {
      RunExtends(Do(s, run[0]), run[1..], a);
      assert (run + [a])[1..] == run[1..] + [a];
    }
  }

  lemma StepSound(s: State, a: Step)
    requires Sound(s) && Enabled(s, a)
    ensures Sound(Do(s, a)) && s.log <= Do(s, a).log
  {
    if a.Resync? {
      HighestBound(s.log, a.order);
    }
  }

  /** Whether one step leaves the wire complete, exactly. */
  predicate Covers(s: State, a: Step, k: Key, complete: bool)
    requires Enabled(s, a)
  {
    match a
    case Publish(e) => complete || Ends(e, k)
    case Watch(i) => WatchCovers(s, i, k)
    case Resync(_) => true
  }

  lemma StepComplete(s: State, a: Step, k: Key)
    requires Sound(s) && Enabled(s, a)
    ensures Complete(Do(s, a), k) <==> Covers(s, a, k, Complete(s, k))
  {
    match a
    case Publish(e) => PublishComplete(s, e, k);
    case Watch(i) => WatchComplete(s, i, k);
    case Resync(order) =>
      if Stored(s.log, k) {
        ResyncKnowsAll(s, order, k);
      }
  }

  /** The steps of a run taken together, read off the guards of the single steps. */
  predicate CoversRun(s: State, run: seq<Step>, k: Key, complete: bool)
    requires CanRun(s, run)
    decreases |run|
  {
    if run == [] then complete else CoversRun(Do(s, run[0]), run[1..], k, Covers(s, run[0], k, complete))
  }

  /** Over every run, whatever its synchronisations find and however zones share names: the wire is
      complete in the end if and only if the guards of the steps say so. */
  lemma {:induction false} RunComplete(s: State, run: seq<Step>, k: Key)
    requires Sound(s) && CanRun(s, run)
    ensures Sound(Run(s, run)) && s.log <= Run(s, run).log
    ensures Complete(Run(s, run), k) <==> CoversRun(s, run, k, Complete(s, k))
    decreases |run|
  {
    if run != [] {
      StepSound(s, run[0]);
      StepComplete(s, run[0], k);
      RunComplete(Do(s, run[0]), run[1..], k);
    }
  }

  /** With zones apart, a watched event misses a wire if and only if it steps over its beginning
      and the wire was not known. */
  lemma WatchCoversApart(s: State, i: nat, k: Key)
    requires Sound(s) && ZonesApart(s.log) && Enabled(s, Watch(i))
    ensures WatchCovers(s, i, k)
       <==> var e := s.log[i - 1];
            !(0 < Since(s.log, k) < i && !Knows(s.table, k.node, k.wire) && !(Concerns(e, k) && Announces(e)))
  {
    var e, since := s.log[i - 1], Since(s.log, k);
    if 0 < since <= i {
      SinceEvent(s.log, k);
      if Named(e, k) {
        assert e.key == s.log[since - 1].key;
        if Heeded(e) {
          RemovedBefore(s.log, k, i);
        }
      }
    }
  }

  /** Once the watch knows where to continue, it steps over nothing. */
  lemma PositionedCovers(s: State, i: nat, k: Key)
    requires Sound(s) && ZonesApart(s.log) && Enabled(s, Watch(i)) && s.highest != -1 && Complete(s, k)
    ensures WatchCovers(s, i, k)
  {
    WatchCoversApart(s, i, k);
    if 0 < Since(s.log, k) < i {
      SinceEvent(s.log, k);
      assert !s.log[Since(s.log, k) - 1].Elsewhere?;
    }
  }

  lemma ApartBefore(log: Log, later: Log)
    requires log <= later && ZonesApart(later)
    ensures ZonesApart(log)
  {
    forall i, j | 0 <= i < |log| && 0 <= j < |log| && log[i].Event? && log[j].Event?
                  && log[i].key.node == log[j].key.node && log[i].key.wire == log[j].key.wire
      ensures log[i].key == log[j].key
    {
      assert later[i] == log[i] && later[j] == log[j];
    }
  }

  /** Every synchronisation of the run finds at least one key. */
  predicate FindsKeys(run: seq<Step>) {
    forall i | 0 <= i < |run| :: run[i].Resync? ==> run[i].order != []
  }

  lemma {:induction false} FindingCovers(s: State, run: seq<Step>, k: Key)
    requires Sound(s) && CanRun(s, run) && FindsKeys(run) && ZonesApart(Run(s, run).log)
    requires Complete(s, k) && s.highest != -1
    ensures CoversRun(s, run, k, true)
    decreases |run|
  {
    if run != [] {
      var a := run[0];
      StepSound(s, a);
      RunComplete(Do(s, a), run[1..], k);
      ApartBefore(s.log, Run(s, run).log);
      if a.Watch? {
        PositionedCovers(s, a.index, k);
      } else if a.Resync? {
        HighestBound(s.log, a.order);
        assert a.order[0] in a.order;
      }
      StepComplete(s, a, k);
      FindingCovers(Do(s, a), run[1..], k);
    }
  }

  /** So if zones do not share names and every synchronisation finds a key, every reachable state
      has every stored wire with a modified index (indeed, with a first index) up to `highest` in
      the table, even though a synchronisation may move `highest` backwards and old events are
      then replayed. */
  lemma Completeness(s: State, run: seq<Step>, k: Key)
    requires Sound(s) && Complete(s, k) && s.highest != -1
    requires CanRun(s, run) && FindsKeys(run) && ZonesApart(Run(s, run).log)
    ensures Complete(Run(s, run), k)
    ensures Stored(Run(s, run).log, k) && Modified(Run(s, run).log, k) <= Run(s, run).highest
            ==> Knows(Run(s, run).table, k.node, k.wire)
  {
    FindingCovers(s, run, k);
    RunComplete(s, run, k);
    if Stored(Run(s, run).log, k) {
      SinceEvent(Run(s, run).log, k);
    }
  }

  /** The loop starts with an empty table and highest = 0, where completeness is trivial. */
  lemma StartsComplete(log: Log, k: Key)
    requires LogOk(log)
    ensures Sound(State(log, 0, map[])) && Complete(State(log, 0, map[]), k)
  {
  }

  // ---- Accuracy -----------------------------------------------------------------------------

  /** The table knows a wire that is gone. */
  predicate Stale(s: State, k: Key) {
    Knows(s.table, k.node, k.wire) && Seen(s.log, k) && !Stored(s.log, k)
  }

  /** The last life of the key ended with an event that the watcher acts on. */
  predicate Farewelled(log: Log, k: Key) {
    Ended(log, k) > 0 && Heeded(log[Ended(log, k) - 1])
  }

  /** If the wire is gone but known, the event that will make the watcher forget it is still ahead. */
  predicate Due(s: State, k: Key) {
    Stale(s, k) ==> s.highest < Ended(s.log, k) && Farewelled(s.log, k)
  }

  lemma SeenLater(log: Log, e: Event, k: Key)
    ensures Seen(log + [e], k) <==> Seen(log, k) || Concerns(e, k)
  {
    var all := log + [e];
    if Seen(log, k) {
      var i :| 0 <= i < |log| && Concerns(log[i], k);
      assert all[i] == log[i];
    }
    assert all[|log|] == e;
  }

  lemma {:induction false} StoredSeen(log: Log, k: Key)
    requires Stored(log, k)
    ensures Seen(log, k)
  {
    var before, e := log[..|log| - 1], log[|log| - 1];
    assert log == before + [e];
    SeenLater(before, e, k);
    if Stored(before, k) {
      StoredSeen(before, k);
    }
  }

  /** Whether a publication leaves the key due, exactly: it does unless it removes a known wire by
      an event that the watcher lets pass; and it makes up for a lost one by storing it again. */
  predicate PublishOnTime(s: State, e: Event, k: Key, due: bool) {
    if due then !(Ends(e, k) && Stored(s.log, k) && Knows(s.table, k.node, k.wire) && !Heeded(e)) else Adds(e, k)
  }

  /** How one more event changes what is known of a key. */
  lemma LogNext(log: Log, e: Event, k: Key)
    ensures var log' := log + [e];
            && (Stored(log', k) <==> !Ends(e, k) && (Adds(e, k) || Stored(log, k)))
            && Ended(log', k) == (if Ends(e, k) && Stored(log, k) then |log'| else Ended(log, k))
            && (Farewelled(log', k) <==> if Ends(e, k) && Stored(log, k) then Heeded(e) else Farewelled(log, k))
            && (Seen(log', k) <==> Seen(log, k) || Concerns(e, k))
  {
    var log' := log + [e];
    assert log'[..|log|] == log && log'[|log|] == e;
    SeenLater(log, e, k);
    if Ended(log, k) > 0 {
      assert log'[Ended(log, k) - 1] == log[Ended(log, k) - 1];
    }
  }

  lemma PublishDue(s: State, e: Event, k: Key)
    requires Sound(s) && Enabled(s, Publish(e))
    ensures Due(Do(s, Publish(e)), k) <==> PublishOnTime(s, e, k, Due(s, k))
  {
    LogNext(s.log, e, k);
    if Stored(s.log, k) {
      StoredSeen(s.log, k);
    }
    if Concerns(e, k) && Removes(e.kind) {
      assert (s.log + [e])[|s.log|] == e && (s.log + [e])[..|s.log|] == s.log;
    }
  }

  /** Whether a watched event leaves the key due, exactly: unless the wire is gone and known
      afterwards, announced or left known, while its end is no longer ahead or will be let pass. */
  predicate WatchOnTime(s: State, i: nat, k: Key)
    requires 1 <= i <= |s.log|
  {
    var e := s.log[i - 1];
    !(&& Seen(s.log, k) && !Stored(s.log, k) && (Ended(s.log, k) <= i || !Farewelled(s.log, k))
      && ((Named(e, k) && Announces(e)) || (Knows(s.table, k.node, k.wire) && !(Named(e, k) && Heeded(e)))))
  }

  lemma WatchDue(s: State, i: nat, k: Key)
    requires Sound(s) && Enabled(s, Watch(i))
    ensures Due(Do(s, Watch(i)), k) <==> WatchOnTime(s, i, k)
  {
    HandleKnows(s.table, s.log[i - 1], k.node, k.wire);
  }

  /** The end of a known wire is still ahead when it is deleted or expires, and is let pass when it goes by a
      comparison or with its directory. */
  lemma EndsDue(s: State, e: Event, k: Key)
    requires Sound(s) && Stored(s.log, k) && Knows(s.table, k.node, k.wire) && Enabled(s, Publish(e))
    ensures e in {Event(Delete, k), Event(Expire, k)} ==> Due(Do(s, Publish(e)), k)
    ensures e == Event(CompareAndDelete, k) ==> !Due(Do(s, Publish(e)), k)
    ensures e.Directory? && e.kind in {Delete, Expire, CompareAndDelete} && Under(k, e.path) ==>
              !Due(Do(s, Publish(e)), k)
  {
    PublishDue(s, e, k);
  }

  lemma SameNames(log: Log, a: Key, b: Key)
    requires ZonesApart(log) && Seen(log, a) && Seen(log, b) && a.node == b.node && a.wire == b.wire
    ensures a == b
  {
    var i :| 0 <= i < |log| && Concerns(log[i], a);
    var j :| 0 <= j < |log| && Concerns(log[j], b);
    assert log[i].key.node == log[j].key.node;
  }

  /** What a watched event can have to do with a wire that is gone. */
  lemma GoneWatched(s: State, i: nat, k: Key)
    requires Sound(s) && ZonesApart(s.log) && 1 <= i <= |s.log| && Seen(s.log, k) && !Stored(s.log, k)
    ensures 0 < Ended(s.log, k) && Ends(s.log[Ended(s.log, k) - 1], k)
    ensures Concerns(s.log[i - 1], k) ==> i <= Ended(s.log, k)
    ensures Named(s.log[i - 1], k) ==> Concerns(s.log[i - 1], k)
  {
    var e := s.log[i - 1];
    var j :| 0 <= j < |s.log| && Concerns(s.log[j], k);
    LastWord(s.log, k, j + 1);
    EndedEvent(s.log, k);
    if Concerns(e, k) {
      LastWord(s.log, k, i);
    }
    if Named(e, k) {
      assert Concerns(e, e.key);
      SameNames(s.log, e.key, k);
    }
  }

  /** The case analysis behind a watched event, with the last end of the key at index j. */
  lemma WatchCases(
      known: bool, after: bool, announced: bool, heeded: bool, farewelled: bool, i: nat, j: nat, highest: int)
    requires after <==> announced || (known && !heeded)
    requires (announced ==> i < j && !heeded) && (heeded ==> i <= j) && (i == j && farewelled ==> heeded)
    requires 0 < j && -1 <= highest && (highest != -1 ==> highest < i)
    ensures (after ==> i < j && farewelled)
       <==> if known ==> highest < j && farewelled then !(known && j < i) && !(announced && !farewelled) else heeded
  {
  }

  /** With zones apart: a wire stays due unless the event steps over the end of a known wire or
      announces one whose end will be let pass; a lost wire is made up for only by its removal. */
  lemma WatchOnTimeApart(s: State, i: nat, k: Key)
    requires Sound(s) && ZonesApart(s.log) && Enabled(s, Watch(i))
    ensures WatchOnTime(s, i, k)
       <==> var e := s.log[i - 1];
            if Due(s, k) then
              && !(Stale(s, k) && Ended(s.log, k) < i)
              && !(Announces(e) && e.key == k && !Stored(s.log, k) && !Farewelled(s.log, k))
            else Heeded(e) && e.key == k
  {
    var e := s.log[i - 1];
    if Seen(s.log, k) && !Stored(s.log, k) {
      GoneWatched(s, i, k);
      var own, known := Concerns(e, k), Knows(s.table, k.node, k.wire);
      WatchCases(
        known, (own && Announces(e)) || (known && !(own && Heeded(e))), own && Announces(e), own && Heeded(e),
        Farewelled(s.log, k), i, Ended(s.log, k), s.highest);
    } else {
      assert Concerns(e, k) ==> Seen(s.log, k);
    }
  }

  /** The watch never steps over an event once it knows where to continue. */
  lemma WatchStepsOverNothing(s: State, i: nat, k: Key)
    requires Sound(s) && Enabled(s, Watch(i)) && s.highest != -1 && Due(s, k) && Stale(s, k)
    ensures i <= Ended(s.log, k)
  {
    EndedEvent(s.log, k);
    assert !s.log[Ended(s.log, k) - 1].Elsewhere?;
  }

  /** A stored key of the list bears the names of the key. */
  predicate Namesake(order: seq<Key>, k: Key) {
    exists x <- order :: x.node == k.node && x.wire == k.wire
  }

  /** Whether a synchronisation leaves the key due, exactly: unless the wire is gone and known, or
      becomes known through a namesake, while `highest` moves to or past its end or its end will be
      let pass. */
  predicate ResyncOnTime(s: State, order: seq<Key>, k: Key) {
    !(&& Seen(s.log, k) && !Stored(s.log, k) && (Knows(s.table, k.node, k.wire) || Namesake(order, k))
      && (Ended(s.log, k) <= HighestOf(s.log, order) || !Farewelled(s.log, k)))
  }

  lemma ResyncDue(s: State, order: seq<Key>, k: Key)
    requires Sound(s) && Enabled(s, Resync(order))
    ensures Due(Do(s, Resync(order)), k) <==> ResyncOnTime(s, order, k)
  {
    AddAllKnows(s.table, order, k.node, k.wire);
  }

  /** With zones apart, a wire that is gone has no namesake in the store. */
  lemma NoNamesake(s: State, order: seq<Key>, k: Key)
    requires Sound(s) && ZonesApart(s.log) && Enabled(s, Resync(order)) && Seen(s.log, k) && !Stored(s.log, k)
    ensures !Namesake(order, k)
  {
    forall x <- order
      ensures !(x.node == k.node && x.wire == k.wire)
    {
      StoredSeen(s.log, x);
      if x.node == k.node && x.wire == k.wire {
        SameNames(s.log, x, k);
      }
    }
  }

  predicate OnTime(s: State, a: Step, k: Key, due: bool)
    requires Enabled(s, a)
  {
    match a
    case Publish(e) => PublishOnTime(s, e, k, due)
    case Watch(i) => WatchOnTime(s, i, k)
    case Resync(order) => ResyncOnTime(s, order, k)
  }

  lemma StepDue(s: State, a: Step, k: Key)
    requires Sound(s) && Enabled(s, a)
    ensures Due(Do(s, a), k) <==> OnTime(s, a, k, Due(s, k))
  {
    match a
    case Publish(e) => PublishDue(s, e, k);
    case Watch(i) => WatchDue(s, i, k);
    case Resync(order) => ResyncDue(s, order, k);
  }

  /** The steps of a run taken together, read off the guards of the single steps. */
  predicate OnTimeRun(s: State, run: seq<Step>, k: Key, due: bool)
    requires CanRun(s, run)
    decreases |run|
  {
    if run == [] then due else OnTimeRun(Do(s, run[0]), run[1..], k, OnTime(s, run[0], k, due))
  }

  lemma {:induction false} RunDue(s: State, run: seq<Step>, k: Key)
    requires Sound(s) && CanRun(s, run)
    ensures Sound(Run(s, run)) && (Due(Run(s, run), k) <==> OnTimeRun(s, run, k, Due(s, k)))
    decreases |run|
  {
    if run != [] {
      StepSound(s, run[0]);
      StepDue(s, run[0], k);
      RunDue(Do(s, run[0]), run[1..], k);
    }
  }

  /** The table knows only wires that the log speaks of. */
  predicate Witnessed(s: State, n: string, w: string) {
    Knows(s.table, n, w) ==>
      exists i | 0 <= i < |s.log| :: s.log[i].Event? && s.log[i].key.node == n && s.log[i].key.wire == w
  }

  lemma StepWitnessed(s: State, a: Step, n: string, w: string)
    requires Sound(s) && Enabled(s, a) && Witnessed(s, n, w)
    ensures Witnessed(Do(s, a), n, w)
  {
    match a
    case Publish(e) =>
      if i :| 0 <= i < |s.log| && s.log[i].Event? && s.log[i].key.node == n && s.log[i].key.wire == w {
        assert (s.log + [e])[i] == s.log[i];
      }
    case Watch(i) => HandleKnows(s.table, s.log[i - 1], n, w);
    case Resync(order) =>
      AddAllKnows(s.table, order, n, w);
      if x :| x in order && x.node == n && x.wire == w {
        StoredSeen(s.log, x);
      }
  }

  lemma {:induction false} RunWitnessed(s: State, run: seq<Step>, n: string, w: string)
    requires Sound(s) && CanRun(s, run) && Witnessed(s, n, w)
    ensures Witnessed(Run(s, run), n, w)
    decreases |run|
  {
    if run != [] {
      StepSound(s, run[0]);
      StepWitnessed(s, run[0], n, w);
      RunWitnessed(Do(s, run[0]), run[1..], n, w);
    }
  }

  /** No event of the watched root is still to come. */
  predicate CaughtUp(s: State) {
    forall i | 0 <= i < |s.log| && s.highest <= i :: s.log[i].Elsewhere?
  }

  /** With nothing to come, being complete and due is being accurate. */
  lemma CaughtUpExact(s: State, k: Key)
    requires Sound(s) && CaughtUp(s) && Seen(s.log, k)
    ensures Complete(s, k) && Due(s, k) <==> (Knows(s.table, k.node, k.wire) <==> Stored(s.log, k))
  {
    if Stored(s.log, k) {
      SinceEvent(s.log, k);
    } else if Ended(s.log, k) > 0 {
      EndedEvent(s.log, k);
    }
  }

  /** Over every run from the start: every known wire is one the log speaks of, and once nothing is
      left to watch, a wire is known exactly as long as it is stored, if and only if the steps of the
      run covered it and were on time for it. */
  lemma Accuracy(log: Log, run: seq<Step>, k: Key)
    requires LogOk(log) && CanRun(State(log, 0, map[]), run)
    ensures var start := State(log, 0, map[]);
            var s := Run(start, run);
            && Witnessed(s, k.node, k.wire)
            && (CaughtUp(s) && Seen(s.log, k) ==>
                  ((Knows(s.table, k.node, k.wire) <==> Stored(s.log, k))
                   <==> CoversRun(start, run, k, true) && OnTimeRun(start, run, k, true)))
  {
    var start := State(log, 0, map[]);
    RunWitnessed(start, run, k.node, k.wire);
    RunDue(start, run, k);
    RunComplete(start, run, k);
    if CaughtUp(Run(start, run)) && Seen(Run(start, run).log, k) {
      CaughtUpExact(Run(start, run), k);
    }
  }

  /** A node that shuts down removes its directory, which the watcher lets pass: every wire of it
      that the table knows is from then on stale and no longer due. */
  lemma ShutdownLeavesStale(s: State, k: Key)
    requires Sound(s) && Stored(s.log, k) && Knows(s.table, k.node, k.wire)
    requires Enabled(s, Publish(Directory(Delete, Node(k.zone, k.node))))
    ensures var s' := Do(s, Publish(Directory(Delete, Node(k.zone, k.node))));
            Stale(s', k) && !Due(s', k)
  {
    var e := Directory(Delete, Node(k.zone, k.node));
    PublishDue(s, e, k);
    StoredSeen(s.log, k);
    SeenLater(s.log, e, k);
    assert (s.log + [e])[..|s.log|] == s.log;
  }

  // ---- Where the conditions are needed ------------------------------------------------------

  /** A key whose names nothing in the log or the table uses. */
  predicate Fresh(s: State, k: Key) {
    && !Knows(s.table, k.node, k.wire)
    && forall i | 0 <= i < |s.log| && s.log[i].Event? ::
         !(s.log[i].key.node == k.node && s.log[i].key.wire == k.wire)
  }

  lemma {:induction false} FreshNotStored(log: Log, k: Key)
    requires forall i | 0 <= i < |log| && log[i].Event? :: log[i].key != k
    ensures Since(log, k) == 0
  {
    if log != [] {
      FreshNotStored(log[..|log| - 1], k);
    }
  }

  lemma PublishFresh(s: State, k: Key)
    requires Sound(s) && Fresh(s, k)
    ensures Enabled(s, Publish(Event(Set, k))) && Since(s.log + [Event(Set, k)], k) == |s.log| + 1
  {
    var log := s.log + [Event(Set, k)];
    FreshNotStored(s.log, k);
    assert log[..|s.log|] == s.log;
    forall i | 0 <= i < |log| && log[i].Event? && !log[i].kind.Set? && !log[i].kind.Create?
      ensures Stored(log[..i], log[i].key)
    {
      assert log[..i] == s.log[..i];
    }
  }

  /** Two fresh keys published one after the other. */
  lemma PublishTwo(s: State, a: Key, b: Key)
    requires Sound(s) && Fresh(s, a) && Fresh(s, b) && (a.node != b.node || a.wire != b.wire)
    ensures Enabled(s, Publish(Event(Set, a)))
    ensures var s1 := Do(s, Publish(Event(Set, a)));
            && Sound(s1) && Enabled(s1, Publish(Event(Set, b)))
            && Since(Do(s1, Publish(Event(Set, b))).log, a) == |s.log| + 1
  {
    PublishFresh(s, a);
    var s1 := Do(s, Publish(Event(Set, a)));
    PublishFresh(s1, b);
    assert (s1.log + [Event(Set, b)])[..|s1.log|] == s1.log;
  }

  /** A watch that does not say where to continue may skip a publication. */
  lemma WatchSkips(s: State, a: Key, b: Key)
    requires s.highest == -1 && |s.log| > 0 && s.log[|s.log| - 1] == Event(Set, b)
    requires 0 < Since(s.log, a) <= |s.log| && !Knows(s.table, a.node, a.wire)
    requires a.node != b.node || a.wire != b.wire
    ensures Enabled(s, Watch(|s.log|)) && !Complete(Do(s, Watch(|s.log|)), a)
  {
    HandleKnows(s.table, Event(Set, b), a.node, a.wire);
  }

  lemma RunFirst(s: State, a: Step, rest: seq<Step>)
    requires Enabled(s, a) && CanRun(Do(s, a), rest)
    ensures CanRun(s, [a] + rest) && Run(s, [a] + rest) == Run(Do(s, a), rest)
  {
    assert ([a] + rest)[1..] == rest;
  }

  lemma ThreeSteps(s: State, x: Step, y: Step, z: Step)
    requires Enabled(s, x) && Enabled(Do(s, x), y) && Enabled(Do(Do(s, x), y), z)
    ensures CanRun(s, [x, y, z]) && Run(s, [x, y, z]) == Do(Do(Do(s, x), y), z)
  {
    var s1 := Do(s, x);
    var s2 := Do(s1, y);
    RunFirst(s2, z, []);
    assert [z] + [] == [z];
    RunFirst(s1, y, [z]);
    assert [y] + [z] == [y, z];
    RunFirst(s, x, [y, z]);
    assert [x] + [y, z] == [x, y, z];
  }

  /** From every state left by a synchronisation that found no key, two publications and one
      watch can lead to a state in which a stored wire below `highest` is missing: with nothing
      found, the watch no longer says where to continue. */
  lemma EmptySyncBreaks(s: State, a: Key, b: Key)
    requires Sound(s) && s.highest == -1 && Fresh(s, a) && Fresh(s, b)
    requires a.node != b.node || a.wire != b.wire
    ensures var run := [Publish(Event(Set, a)), Publish(Event(Set, b)), Watch(|s.log| + 2)];
            CanRun(s, run) && !Complete(Run(s, run), a)
  {
    PublishTwo(s, a, b);
    var s2 := Do(Do(s, Publish(Event(Set, a))), Publish(Event(Set, b)));
    WatchSkips(s2, a, b);
    ThreeSteps(s, Publish(Event(Set, a)), Publish(Event(Set, b)), Watch(|s.log| + 2));
  }

  /** The table may also know too much: a synchronisation that meets a newer key moves
      `highest` past a removal that was never watched, and that wire stays for good. */
  lemma StaleWire(a: Key, b: Key)
    requires a.node != b.node || a.wire != b.wire
    ensures var s := State([Event(Set, b), Event(Delete, b), Event(Set, a)], 1, map[b.node := [b.wire]]);
            && Sound(s) && Complete(s, a) && Complete(s, b) && Enabled(s, Resync([a]))
            && var t := Do(s, Resync([a]));
               t.highest == 3 && Stale(t, b) && Due(s, b) && !Due(t, b)
  {
    var log := [Event(Set, b), Event(Delete, b), Event(Set, a)];
    var s := State(log, 1, map[b.node := [b.wire]]);
    assert log[..2] == [Event(Set, b), Event(Delete, b)] && log[..2][..1] == [Event(Set, b)];
    assert log[..2][..1][..0] == [];
    assert Since([Event(Set, b)], b) == 1 && Since([Event(Set, b)], a) == 0;
    assert Since(log[..2], b) == 0 && Since(log[..2], a) == 0;
    assert Since(log, b) == 0 && Since(log, a) == 3;
    assert Modified(log, a) == 3 && HighestOf(log, [a]) == 3;
    assert Sound(s);
    assert Enabled(s, Resync([a]));
    assert Concerns(log[0], b);
    assert Ended(log[..2], b) == 2 && Ended(log, b) == 2 && log[1] == Event(Delete, b);
    ResyncDue(s, [a], b);
    AddAllKnows(s.table, [a], b.node, b.wire);
  }

  /** Zones that share node and wire names break completeness: removing one of two equally
      named wires makes the table forget the other. */
  lemma SharedNamesBreak(a: Key, b: Key)
    requires a != b && a.node == b.node && a.wire == b.wire
    ensures var s := State([Event(Set, a), Event(Set, b), Event(Delete, b)], 2, map[a.node := [a.wire]]);
            && LogOk(s.log) && !ZonesApart(s.log) && Complete(s, a) && Enabled(s, Watch(3))
            && !Complete(Do(s, Watch(3)), a)
  {
    var log := [Event(Set, a), Event(Set, b), Event(Delete, b)];
    var s := State(log, 2, map[a.node := [a.wire]]);
    assert log[..2] == [Event(Set, a), Event(Set, b)] && log[..2][..1] == [Event(Set, a)];
    assert log[..2][..1][..0] == [];
    assert Since(log[..2][..1], a) == 1;
    assert Since(log[..2], a) == 1;
    assert Since(log, a) == 1;
    assert log[0].key.node == log[1].key.node && log[0].key.wire == log[1].key.wire;
    RemovedKnows(s.table, b.node, [b.wire], a.node, a.wire);
  }

  // ---- The loop's two table updates -----------------------------------------------------------

  class Watcher {
    const discovery: Discovery
    var highest: int

    constructor (d: Discovery)
      ensures discovery == d && highest == 0
    {
      discovery, highest := d, 0;
    }

    /** Adds every listed key and recomputes the highest modified index from scratch.
        `modified` is what etcd answers for each key. */
    method AddExisting(order: seq<Key>, modified: seq<nat>, ghost log: Log)
      requires |modified| == |order| && forall i | 0 <= i < |order| :: modified[i] == Modified(log, order[i])
      modifies this, discovery
      ensures discovery.nodes == AddAll(old(discovery.nodes), order)
      ensures highest == HighestOf(log, order)
    {
      highest := -1;
      for i := 0 to |order|
        invariant discovery.nodes == AddAll(old(discovery.nodes), order[..i])
        invariant highest == HighestOf(log, order[..i])
      {
        assert order[..i + 1][..i] == order[..i];
        discovery.AddNode(order[i].node, [order[i].wire]);
        if modified[i] > highest {
          highest := modified[i];
        }
      }
      assert order[..|order|] == order;
    }

    /** Folds one watched event into the table; a directory's name yields no wire. */
    method OnEvent(e: Event, index: nat)
      requires !e.Elsewhere?
      modifies this, discovery
      ensures discovery.nodes == Handle(old(discovery.nodes), e) && highest == index
    {
      if e.kind.Set? || e.kind.Create? {
        if e.Event? {
          discovery.AddNode(e.key.node, [e.key.wire]);
        }
      } else if e.kind.Delete? {
        if e.Event? {
          discovery.RemoveNode(e.key.node, [e.key.wire]);
        }
      } else if e.kind.Expire? {
        if e.Event? {
          discovery.RemoveNode(e.key.node, [e.key.wire]);
        }
      } else if e.kind.Update? {
        if e.Event? {
          discovery.AddNode(e.key.node, [e.key.wire]);
        }
      }
      highest := index;
    }
  }
}
