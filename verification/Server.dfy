/** The threads of the embedded web server: start-up, the accepting master thread, the
    worker threads and the shutdown handshake.  A step is what one thread does between two
    synchronisation points; a run is any interleaving of steps. */
module Server {
  import opened SocketQueue
  import opened Wrappers

  type Socket = nat

  /** Where a worker thread is. */
  datatype Worker =
    | NotStarted
    | Idle                                // about to enter consume_socket
    | Returning(taken: Option<Socket>)    // left the critical section, stop flag not yet read
    | Busy(sock: Socket)                  // serving a connection
    | Exiting                             // out of its loop, not yet signed off
    | SignedOff
    | Joined

  /** Where the master thread is. */
  datatype Master =
    | Accepting
    | Producing(sock: Socket)
    | AwaitingWorkers
    | Joining(next: nat)
    | Gone

  /** Where the thread that runs mg_start and later mg_stop is. */
  datatype Owner =
    | Starting(next: nat, counted: bool)  // counted: the counter is already incremented
    | Serving
    | AwaitingMaster
    | Freed

  datatype State = State(
    ring: Ring<Socket>,
    stopFlag: nat,
    running: int,
    workers: seq<Worker>,
    master: Master,
    owner: Owner,
    // history
    accepted: seq<Socket>,                // every socket the master accepted and handed over
    queued: seq<Socket>,                  // those that entered the queue
    taken: seq<Socket>,                   // those that left it
    served: seq<Socket>,
    lost: seq<Socket>)

  datatype Action =
    | CountWorker
    | CreateWorker
    | Accept(sock: Socket)
    | Produce
    | LeaveAcceptLoop
    | SeeNoWorkers
    | Join
    | SignalDone
    | Consume(w: nat)
    | ReadStopFlag(w: nat)
    | Serve(w: nat)
    | SignOff(w: nat)
    | Stop
    | Free

  predicate Enabled(s: State, a: Action) {
    match a
    case CountWorker => s.owner.Starting? && !s.owner.counted && s.owner.next < |s.workers|
    case CreateWorker => s.owner.Starting? && s.owner.counted && s.owner.next < |s.workers|
    case Accept(_) => s.master.Accepting? && s.stopFlag == 0
    case Produce => s.master.Producing? && (s.stopFlag != 0 || !Full(s.ring))
    case LeaveAcceptLoop => s.master.Accepting? && s.stopFlag != 0
    case SeeNoWorkers => s.master.AwaitingWorkers? && s.running <= 0
    case Join =>
      s.master.Joining? && s.master.next < |s.workers|
      && s.workers[s.master.next] in {NotStarted, SignedOff}
    case SignalDone => s.master.Joining? && s.master.next == |s.workers|
    case Consume(w) => w < |s.workers| && s.workers[w].Idle? && (s.stopFlag != 0 || s.ring.head != s.ring.tail)
    case ReadStopFlag(w) => w < |s.workers| && s.workers[w].Returning?
    case Serve(w) => w < |s.workers| && s.workers[w].Busy?
    case SignOff(w) => w < |s.workers| && s.workers[w].Exiting?
    case Stop => s.owner.Serving?
    case Free => s.owner.AwaitingMaster? && s.stopFlag == 2
  }

  function SetWorker(s: State, w: nat, to: Worker): State
    requires w < |s.workers|
  {
    s.(workers := s.workers[w := to])
  }

  function Do(s: State, a: Action): State
    requires Enabled(s, a) && Valid(s.ring)
  {
    match a
    case CountWorker => s.(running := s.running + 1, owner := Starting(s.owner.next, true))
    case CreateWorker =>
      var i := s.owner.next;
      SetWorker(s, i, Idle).(owner := if i + 1 == |s.workers| then Serving else Starting(i + 1, false))
    case Accept(x) => s.(master := Producing(x))
    case Produce =>
      var x := s.master.sock;
      if Full(s.ring) then
        s.(master := Accepting, accepted := s.accepted + [x], lost := s.lost + [x])
      else
        s.(master := Accepting, accepted := s.accepted + [x], ring := Put(s.ring, x), queued := s.queued + [x])
    case LeaveAcceptLoop => s.(master := AwaitingWorkers)
    case SeeNoWorkers => s.(master := Joining(0))
    case Join =>
      var i := s.master.next;
      (if s.workers[i].SignedOff? then SetWorker(s, i, Joined) else s).(master := Joining(i + 1))
    case SignalDone => s.(master := Gone, stopFlag := 2)
    case Consume(w) =>
      if s.ring.head > s.ring.tail then
        var (x, ring) := Take(s.ring);
        SetWorker(s, w, Returning(Some(x))).(ring := ring, taken := s.taken + [x])
      else
        SetWorker(s, w, Returning(None))
    case ReadStopFlag(w) =>
      var t := s.workers[w].taken;
      if s.stopFlag == 0 then SetWorker(s, w, if t.Some? then Busy(t.value) else Idle)
      else SetWorker(s, w, Exiting).(lost := if t.Some? then s.lost + [t.value] else s.lost)
    case Serve(w) => SetWorker(s, w, Idle).(served := s.served + [s.workers[w].sock])
    case SignOff(w) => SetWorker(s, w, SignedOff).(running := s.running - 1)
    case Stop => s.(owner := AwaitingMaster, stopFlag := 1)
    case Free => s.(owner := Freed)
  }

  // ---- Counting over the workers --------------------------------------------------------

  predicate Active(w: Worker) {
    w.Idle? || w.Returning? || w.Busy? || w.Exiting?
  }

  function CountActive(ws: seq<Worker>): nat {
    if ws == [] then 0 else (if Active(ws[0]) then 1 else 0) + CountActive(ws[1..])
  }

  /** How often socket x occurs in a list. */
  function Occurrences(xs: seq<Socket>, x: Socket): nat {
    if xs == [] then 0 else (if xs[0] == x then 1 else 0) + Occurrences(xs[1..], x)
  }

  lemma {:induction false} OccurrencesAppend(xs: seq<Socket>, ys: seq<Socket>, x: Socket)
    ensures Occurrences(xs + ys, x) == Occurrences(xs, x) + Occurrences(ys, x)
  {
    if xs == [] {
      assert xs + ys == ys;
    } else {
      OccurrencesAppend(xs[1..], ys, x);
      assert (xs + ys)[1..] == xs[1..] + ys;
    }
  }

  predicate Holds(w: Worker, x: Socket) {
    w == Returning(Some(x)) || w == Busy(x)
  }

  /** How many workers hold socket x. */
  function CountHolders(ws: seq<Worker>, x: Socket): nat {
    if ws == [] then 0 else (if Holds(ws[0], x) then 1 else 0) + CountHolders(ws[1..], x)
  }

  function One(b: bool): nat { if b then 1 else 0 }

  /** Moving one worker changes both counts by that worker alone. */
  lemma {:induction false} MoveWorker(ws: seq<Worker>, i: nat, w: Worker, x: Socket)
    requires i < |ws|
    ensures CountActive(ws[i := w]) + One(Active(ws[i])) == CountActive(ws) + One(Active(w))
    ensures CountHolders(ws[i := w], x) + One(Holds(ws[i], x)) == CountHolders(ws, x) + One(Holds(w, x))
  {
    if i == 0 {
      assert ws[i := w][1..] == ws[1..];
    } else {
      MoveWorker(ws[1..], i - 1, w, x);
      assert ws[i := w][1..] == ws[1..][i - 1 := w];
    }
  }

  lemma {:induction false} NoneActive(ws: seq<Worker>)
    requires CountActive(ws) == 0
    ensures forall i | 0 <= i < |ws| :: !Active(ws[i])
  {
    if ws != [] {
      NoneActive(ws[1..]);
      forall i | 0 <= i < |ws|
        ensures !Active(ws[i])
      {
        assert i > 0 ==> ws[i] == ws[1..][i - 1];
      }
    }
  }

  // ---- The invariant --------------------------------------------------------------------

  /** Queue and history: first in, first out, nothing invented, nothing duplicated. */
  predicate QueueInv(s: State) {
    && Valid(s.ring)
    && s.queued == s.taken + Contents(s.ring)
    && (s.stopFlag == 0 ==> s.queued == s.accepted && s.lost == [])
  }

  /** Every socket handed over is in the queue, with exactly one worker, served or lost. */
  predicate Conserved(s: State, x: Socket)
    requires Valid(s.ring)
  {
    Occurrences(s.accepted, x) == Occurrences(Contents(s.ring), x) + CountHolders(s.workers, x)
                                  + Occurrences(s.served, x) + Occurrences(s.lost, x)
  }

  /** The thread counter counts exactly the workers that have not signed off. */
  predicate CounterInv(s: State) {
    s.running == CountActive(s.workers) + if s.owner.Starting? && s.owner.counted then 1 else 0
  }

  /** Where the master and the owner may be. */
  predicate FlagInv(s: State) {
    && s.stopFlag <= 2
    && (s.stopFlag == 0 <==> s.owner.Starting? || s.owner.Serving?)
    && (s.stopFlag == 2 <==> s.master.Gone?)
    && (s.owner.Freed? ==> s.stopFlag == 2)
    && (s.master.AwaitingWorkers? || s.master.Joining? || s.master.Gone? ==> s.stopFlag != 0)
    && (s.owner.Starting? ==> s.owner.next < |s.workers|)
    && (s.master.Joining? ==> s.master.next <= |s.workers|)
  }

  /** Where worker i may be. */
  predicate WorkerFits(s: State, i: nat, w: Worker) {
    && (w.NotStarted? <==> s.owner.Starting? && s.owner.next <= i)
    && (w == Returning(None) ==> s.stopFlag != 0)
    && (s.master.Joining? ==> w.SignedOff? || w.Joined?)
    && (s.master.Joining? && i < s.master.next ==> w.Joined?)
    && (s.master.Gone? ==> w.Joined?)
  }

  predicate StageInv(s: State) {
    FlagInv(s) && forall i | 0 <= i < |s.workers| :: WorkerFits(s, i, s.workers[i])
  }

  predicate Books(s: State, x: Socket) {
    QueueInv(s) && Conserved(s, x) && CounterInv(s)
  }

  predicate Inv(s: State, x: Socket) {
    Books(s, x) && StageInv(s)
  }

  /** The state in which mg_start has just created the master thread. */
  predicate Init(s: State) {
    && Valid(s.ring) && Contents(s.ring) == []
    && s.stopFlag == 0 && s.running == 0 && |s.workers| > 0
    && (forall i | 0 <= i < |s.workers| :: s.workers[i] == NotStarted)
    && s.master == Accepting && s.owner == Starting(0, false)
    && s.accepted == s.queued == s.taken == s.served == s.lost == []
  }

  lemma {:induction false} NotStartedCounts(ws: seq<Worker>, x: Socket)
    requires forall i | 0 <= i < |ws| :: ws[i] == NotStarted
    ensures CountActive(ws) == 0 && CountHolders(ws, x) == 0
  {
    if ws != [] {
      NotStartedCounts(ws[1..], x);
    }
  }

  lemma InitInv(s: State, x: Socket)
    requires Init(s)
    ensures Inv(s, x)
  {
    NotStartedCounts(s.workers, x);
  }

  // One lemma per kind of step.

  lemma OwnerStep(s: State, a: Action, x: Socket)
    requires Inv(s, x) && Enabled(s, a) && (a.CountWorker? || a.Stop? || a.Free?)
    ensures Inv(Do(s, a), x)
  {
    var s' := Do(s, a);
    forall i | 0 <= i < |s'.workers|
      ensures WorkerFits(s', i, s'.workers[i])
    {
      assert WorkerFits(s, i, s.workers[i]);
    }
  }

  lemma CreateBooks(s: State, x: Socket)
    requires Books(s, x) && Enabled(s, CreateWorker) && s.workers[s.owner.next].NotStarted?
    ensures Books(Do(s, CreateWorker), x)
  {
    MoveWorker(s.workers, s.owner.next, Idle, x);
  }

  lemma CreateStep(s: State, x: Socket)
    requires Inv(s, x) && Enabled(s, CreateWorker)
    ensures Inv(Do(s, CreateWorker), x)
  {
    var s', n := Do(s, CreateWorker), s.owner.next;
    assert WorkerFits(s, n, s.workers[n]);
    CreateBooks(s, x);
    forall i | 0 <= i < |s'.workers|
      ensures WorkerFits(s', i, s'.workers[i])
    {
      assert WorkerFits(s, i, s.workers[i]);
    }
  }

  lemma MasterStep(s: State, a: Action, x: Socket)
    requires Inv(s, x) && Enabled(s, a) && (a.Accept? || a.LeaveAcceptLoop? || a.SignalDone?)
    ensures Inv(Do(s, a), x)
  {
    var s' := Do(s, a);
    forall i | 0 <= i < |s'.workers|
      ensures WorkerFits(s', i, s'.workers[i])
    {
      assert WorkerFits(s, i, s.workers[i]);
    }
  }

  lemma SeeNoWorkersStep(s: State, x: Socket)
    requires Inv(s, x) && Enabled(s, SeeNoWorkers)
    ensures Inv(Do(s, SeeNoWorkers), x)
  {
    var s' := Do(s, SeeNoWorkers);
    NoneActive(s.workers);
    forall i | 0 <= i < |s'.workers|
      ensures WorkerFits(s', i, s'.workers[i])
    {
      assert WorkerFits(s, i, s.workers[i]) && !Active(s.workers[i]);
    }
  }

  lemma ProduceBooks(s: State, x: Socket)
    requires Books(s, x) && Enabled(s, Produce)
    ensures Books(Do(s, Produce), x)
  {
    var y := s.master.sock;
    OccurrencesAppend(s.accepted, [y], x);
    OccurrencesAppend(s.lost, [y], x);
    if !Full(s.ring) {
      PutAppends(s.ring, y);
      OccurrencesAppend(Contents(s.ring), [y], x);
    }
  }

  lemma ProduceStep(s: State, x: Socket)
    requires Inv(s, x) && Enabled(s, Produce)
    ensures Inv(Do(s, Produce), x)
  {
    var s' := Do(s, Produce);
    ProduceBooks(s, x);
    forall i | 0 <= i < |s'.workers|
      ensures WorkerFits(s', i, s'.workers[i])
    {
      assert WorkerFits(s, i, s.workers[i]);
    }
  }

  lemma JoinBooks(s: State, x: Socket)
    requires Books(s, x) && Enabled(s, Join)
    ensures Books(Do(s, Join), x)
  {
    MoveWorker(s.workers, s.master.next, Joined, x);
  }

  lemma JoinStep(s: State, x: Socket)
    requires Inv(s, x) && Enabled(s, Join)
    ensures Inv(Do(s, Join), x)
  {
    var s', n := Do(s, Join), s.master.next;
    JoinBooks(s, x);
    assert WorkerFits(s, n, s.workers[n]);
    forall i | 0 <= i < |s'.workers|
      ensures WorkerFits(s', i, s'.workers[i])
    {
      assert WorkerFits(s, i, s.workers[i]);
    }
  }

  /** A worker's own step leaves every other worker where it was. */
  lemma WorkerStage(s: State, a: Action, w: nat)
    requires StageInv(s) && Valid(s.ring) && Enabled(s, a) && w < |s.workers|
    requires a == Consume(w) || a == ReadStopFlag(w) || a == Serve(w) || a == SignOff(w)
    ensures StageInv(Do(s, a))
  {
    var s' := Do(s, a);
    forall i | 0 <= i < |s'.workers|
      ensures WorkerFits(s', i, s'.workers[i])
    {
      assert WorkerFits(s, i, s.workers[i]);
    }
  }

  lemma ConsumeQueue(s: State, w: nat, x: Socket)
    requires Books(s, x) && Enabled(s, Consume(w))
    ensures QueueInv(Do(s, Consume(w))) && Conserved(Do(s, Consume(w)), x)
  {
    MoveWorker(s.workers, w, Do(s, Consume(w)).workers[w], x);
    if s.ring.head > s.ring.tail {
      TakeRemoves(s.ring);
      TakenNext(s.taken, Take(s.ring).0, Contents(Take(s.ring).1), x);
    }
  }

  lemma TakenNext(taken: seq<Socket>, y: Socket, rest: seq<Socket>, x: Socket)
    ensures taken + ([y] + rest) == taken + [y] + rest
    ensures Occurrences([y] + rest, x) == One(y == x) + Occurrences(rest, x)
  {
    assert ([y] + rest)[1..] == rest;
  }

  lemma ConsumeStep(s: State, w: nat, x: Socket)
    requires Inv(s, x) && Enabled(s, Consume(w))
    ensures Inv(Do(s, Consume(w)), x)
  {
    ConsumeQueue(s, w, x);
    MoveWorker(s.workers, w, Do(s, Consume(w)).workers[w], x);
    WorkerStage(s, Consume(w), w);
  }

  lemma ReadStopFlagBooks(s: State, w: nat, x: Socket)
    requires Books(s, x) && Enabled(s, ReadStopFlag(w))
    ensures Books(Do(s, ReadStopFlag(w)), x)
  {
    MoveWorker(s.workers, w, Do(s, ReadStopFlag(w)).workers[w], x);
    if s.workers[w].taken.Some? {
      OccurrencesAppend(s.lost, [s.workers[w].taken.value], x);
    }
  }

  lemma ReadStopFlagStep(s: State, w: nat, x: Socket)
    requires Inv(s, x) && Enabled(s, ReadStopFlag(w))
    ensures Inv(Do(s, ReadStopFlag(w)), x)
  {
    ReadStopFlagBooks(s, w, x);
    WorkerStage(s, ReadStopFlag(w), w);
  }

  lemma ServeBooks(s: State, w: nat, x: Socket)
    requires Books(s, x) && Enabled(s, Serve(w))
    ensures Books(Do(s, Serve(w)), x)
  {
    MoveWorker(s.workers, w, Idle, x);
    OccurrencesAppend(s.served, [s.workers[w].sock], x);
  }

  lemma ServeStep(s: State, w: nat, x: Socket)
    requires Inv(s, x) && Enabled(s, Serve(w))
    ensures Inv(Do(s, Serve(w)), x)
  {
    ServeBooks(s, w, x);
    WorkerStage(s, Serve(w), w);
  }

  lemma SignOffBooks(s: State, w: nat, x: Socket)
    requires Books(s, x) && Enabled(s, SignOff(w))
    ensures Books(Do(s, SignOff(w)), x)
  {
    MoveWorker(s.workers, w, SignedOff, x);
  }

  lemma SignOffStep(s: State, w: nat, x: Socket)
    requires Inv(s, x) && Enabled(s, SignOff(w))
    ensures Inv(Do(s, SignOff(w)), x)
  {
    SignOffBooks(s, w, x);
    WorkerStage(s, SignOff(w), w);
  }

  /** Every step of every thread keeps the invariant. */
  lemma StepInv(s: State, a: Action, x: Socket)
    requires Inv(s, x) && Enabled(s, a)
    ensures Inv(Do(s, a), x)
  {
    match a
    case CreateWorker => CreateStep(s, x);
    case Produce => ProduceStep(s, x);
    case SeeNoWorkers => SeeNoWorkersStep(s, x);
    case Join => JoinStep(s, x);
    case Consume(w) => ConsumeStep(s, w, x);
    case ReadStopFlag(w) => ReadStopFlagStep(s, w, x);
    case Serve(w) => ServeStep(s, w, x);
    case SignOff(w) => SignOffStep(s, w, x);
    case Accept(_) => MasterStep(s, a, x);
    case LeaveAcceptLoop => MasterStep(s, a, x);
    case SignalDone => MasterStep(s, a, x);
    case _ => OwnerStep(s, a, x);
  }

  // ---- Runs -----------------------------------------------------------------------------

  /** The actions can be performed one after the other from s on. */
  predicate CanRun(s: State, run: seq<Action>)
    decreases |run|
  {
    run == [] || (Valid(s.ring) && Enabled(s, run[0]) && CanRun(Do(s, run[0]), run[1..]))
  }

  function Run(s: State, run: seq<Action>): State
    requires CanRun(s, run)
    decreases |run|
  {
    if run == [] then s else Run(Do(s, run[0]), run[1..])
  }

  /** A run goes on with any action that is enabled. */
  lemma {:induction false} RunExtends(s: State, run: seq<Action>, a: Action)
    requires CanRun(s, run)
    ensures CanRun(s, run + [a]) <==> Valid(Run(s, run).ring) && Enabled(Run(s, run), a)
    decreases |run|
  {
    if run == [] {
      assert [] + [a] == [a] && [a][1..] == [];
    } else {
      RunExtends(Do(s, run[0]), run[1..], a);
      assert (run + [a])[1..] == run[1..] + [a];
    }
  }

  lemma {:induction false} RunInv(s: State, run: seq<Action>, x: Socket)
    requires Inv(s, x) && CanRun(s, run)
    ensures Inv(Run(s, run), x)
    decreases |run|
  {
    if run != [] {
      StepInv(s, run[0], x);
      RunInv(Do(s, run[0]), run[1..], x);
    }
  }

  /** On every interleaving: the counters stay in range across their joint wrap; sockets
      leave the queue once each, in the order they entered it, and before the stop request
      that is the order in which they were accepted; every socket handed over is in the
      queue, with one worker, served or lost, and none is lost before the stop request. */
  lemma QueueSafety(s0: State, run: seq<Action>, x: Socket)
    requires Init(s0) && CanRun(s0, run)
    ensures var s := Run(s0, run);
            && 0 <= s.ring.tail <= QUEUE_SIZE && s.ring.tail <= s.ring.head <= s.ring.tail + QUEUE_SIZE
            && Valid(s.ring) && s.queued == s.taken + Contents(s.ring)
            && (s.stopFlag == 0 ==> s.accepted == s.taken + Contents(s.ring) && s.lost == [])
            && Conserved(s, x)
  {
    InitInv(s0, x);
    RunInv(s0, run, x);
  }

  /** On every interleaving: the thread counter is exact, and the context is freed only after
      every worker has signed off and been joined; from then on no thread can take a step. */
  lemma ShutdownSafety(s0: State, run: seq<Action>, a: Action)
    requires Init(s0) && CanRun(s0, run)
    ensures var s := Run(s0, run);
            && s.running == CountActive(s.workers) + One(s.owner.Starting? && s.owner.counted)
            && s.stopFlag in {0, 1, 2}
            && (s.owner.Freed? ==> s.stopFlag == 2 && s.running == 0 && !Enabled(s, a))
            && (s.owner.Freed? ==> forall i | 0 <= i < |s.workers| :: s.workers[i].Joined?)
  {
    InitInv(s0, 0);
    RunInv(s0, run, 0);
    var s := Run(s0, run);
    if s.owner.Freed? {
      JoinedInactive(s.workers);
    }
  }

  lemma {:induction false} JoinedInactive(ws: seq<Worker>)
    requires forall i | 0 <= i < |ws| :: ws[i].Joined?
    ensures CountActive(ws) == 0
  {
    if ws != [] {
      JoinedInactive(ws[1..]);
    }
  }

  /** The stop flag only ever moves from 0 to 1 and from 1 to 2. */
  lemma StopFlagStep(s: State, a: Action, x: Socket)
    requires Inv(s, x) && Enabled(s, a)
    ensures Do(s, a).stopFlag in {s.stopFlag, s.stopFlag + 1} && Do(s, a).stopFlag <= 2
  {
  }

  lemma {:induction false} StopFlagMonotone(s: State, run: seq<Action>, x: Socket)
    requires Inv(s, x) && CanRun(s, run)
    ensures s.stopFlag <= Run(s, run).stopFlag <= 2
    decreases |run|
  {
    if run != [] {
      StepInv(s, run[0], x);
      StopFlagStep(s, run[0], x);
      StopFlagMonotone(Do(s, run[0]), run[1..], x);
    }
  }
}
