/** Whether a stop request comes to its end.  The steps of the threads are those of the server, but a
    thread that finds nothing to do goes to sleep in two steps, a look and a wait, and sleeps until it is
    signalled.  The stop flag is set without the mutex, so it may change between the two. */
module Shutdown {
  import opened SocketQueue
  import opened Wrappers
  import Server

  /** Who holds the mutex between the look and the wait. */
  datatype Holder = Nobody | WorkerHolds(w: nat) | MasterHolds

  datatype System = System(s: Server.State, asleep: set<nat>, masterAsleep: bool, holder: Holder)

  datatype Move =
    | Plain(a: Server.Action)         // wakes nobody
    | WorkerLooks(w: nat)             // an empty queue and no stop request
    | WorkerSleeps(w: nat)
    | Takes(w: nat)                   // leaves the critical section and signals the master
    | MasterLooks                     // a full queue and no stop request
    | MasterSleeps
    | Hands(wakes: Option<nat>)       // leaves the critical section and signals one sleeping worker
    | Leaves                          // leaves the accept loop and wakes all sleeping workers

  predicate NeedsMutex(a: Server.Action) {
    a.CountWorker? || a.SeeNoWorkers? || a.SignOff?
  }

  predicate Possible(t: System, m: Move) {
    match m
    case Plain(a) =>
      && !a.Consume? && !a.Produce? && !a.LeaveAcceptLoop? && Server.Enabled(t.s, a)
      && (NeedsMutex(a) ==> t.holder.Nobody?)
    case WorkerLooks(w) =>
      && w < |t.s.workers| && t.s.workers[w].Idle? && w !in t.asleep && t.holder.Nobody?
      && t.s.ring.head == t.s.ring.tail && t.s.stopFlag == 0
    case WorkerSleeps(w) => t.holder == WorkerHolds(w)
    case Takes(w) => Server.Enabled(t.s, Server.Consume(w)) && w !in t.asleep && t.holder.Nobody?
    case MasterLooks =>
      t.s.master.Producing? && !t.masterAsleep && t.holder.Nobody? && t.s.stopFlag == 0 && Full(t.s.ring)
    case MasterSleeps => t.holder.MasterHolds?
    case Hands(wakes) =>
      && Server.Enabled(t.s, Server.Produce) && !t.masterAsleep && t.holder.Nobody?
      && (if wakes.Some? then wakes.value in t.asleep else t.asleep == {})
    case Leaves => Server.Enabled(t.s, Server.LeaveAcceptLoop)
  }

  /** The step of the server that a move is; a look and a wait are none. */
  function Steps(m: Move): seq<Server.Action> {
    match m
    case Plain(a) => [a]
    case Takes(w) => [Server.Consume(w)]
    case Hands(_) => [Server.Produce]
    case Leaves => [Server.LeaveAcceptLoop]
    case _ => []
  }

  function Make(t: System, m: Move): System
    requires Possible(t, m) && Valid(t.s.ring)
  {
    match m
    case Plain(a) => t.(s := Server.Do(t.s, a))
    case WorkerLooks(w) => t.(holder := WorkerHolds(w))
    case WorkerSleeps(w) => t.(holder := Nobody, asleep := t.asleep + {w})
    case Takes(w) => t.(s := Server.Do(t.s, Server.Consume(w)), masterAsleep := false)
    case MasterLooks => t.(holder := MasterHolds)
    case MasterSleeps => t.(holder := Nobody, masterAsleep := true)
    case Hands(wakes) =>
      t.(s := Server.Do(t.s, Server.Produce), asleep := if wakes.Some? then t.asleep - {wakes.value} else {})
    case Leaves => t.(s := Server.Do(t.s, Server.LeaveAcceptLoop), asleep := {})
  }

  // ---- The invariant ------------------------------------------------------------------------------

  /** The workers that will enter their critical section without being woken. */
  function Ready(t: System): set<nat> {
    set w | 0 <= w < |t.s.workers| && t.s.workers[w].Idle? && w !in t.asleep && t.holder != WorkerHolds(w)
  }

  predicate SleepersFit(t: System) {
    && (forall w <- t.asleep :: w < |t.s.workers| && t.s.workers[w].Idle?)
    && (t.masterAsleep ==> t.s.master.Producing? && Full(t.s.ring))
  }

  predicate HolderFits(t: System) {
    match t.holder
    case Nobody => true
    case WorkerHolds(w) =>
      w < |t.s.workers| && t.s.workers[w].Idle? && w !in t.asleep && t.s.ring.head == t.s.ring.tail
    case MasterHolds => t.s.master.Producing? && !t.masterAsleep && Full(t.s.ring)
  }

  /** While workers sleep, every queued socket has an awake worker that will come for one. */
  predicate Served(t: System) {
    t.asleep != {} ==> t.s.ring.head - t.s.ring.tail <= |Ready(t)|
  }

  /** No worker leaves before the stop request, and they are joined one after the other. */
  predicate InTurn(s: Server.State) {
    && (s.stopFlag == 0 ==> forall i | 0 <= i < |s.workers| :: !s.workers[i].Exiting? && !s.workers[i].SignedOff?)
    && (forall i | 0 <= i < |s.workers| && s.workers[i].Joined? ::
          s.master.Gone? || (s.master.Joining? && i < s.master.next))
  }

  predicate Inv(t: System) {
    Server.Inv(t.s, 0) && SleepersFit(t) && HolderFits(t) && Served(t) && InTurn(t.s)
  }

  /** The state in which mg_start has just created the master thread. */
  predicate Init(t: System) {
    Server.Init(t.s) && t.asleep == {} && !t.masterAsleep && t.holder.Nobody?
  }

  lemma InitInv(t: System)
    requires Init(t)
    ensures Inv(t)
  {
    Server.InitInv(t.s, 0);
  }

  lemma StepInTurn(s: Server.State, a: Server.Action)
    requires Server.Inv(s, 0) && InTurn(s) && Server.Enabled(s, a)
    ensures InTurn(Server.Do(s, a))
  {
    var s' := Server.Do(s, a);
    forall i | 0 <= i < |s'.workers| && s'.workers[i].Joined?
      ensures s'.master.Gone? || (s'.master.Joining? && i < s'.master.next)
    {
      assert a.Join? || s.workers[i].Joined?;
    }
  }

  lemma MoveServer(t: System, m: Move)
    requires Inv(t) && Possible(t, m)
    ensures Server.Inv(Make(t, m).s, 0) && InTurn(Make(t, m).s)
  {
    if Steps(m) != [] {
      Server.StepInv(t.s, Steps(m)[0], 0);
      StepInTurn(t.s, Steps(m)[0]);
    }
  }

  lemma StillIdle(s: Server.State, a: Server.Action, w: nat)
    requires Server.StageInv(s) && Valid(s.ring) && Server.Enabled(s, a) && a != Server.Consume(w)
    requires w < |s.workers| && s.workers[w].Idle?
    ensures var s' := Server.Do(s, a); |s'.workers| == |s.workers| && s'.workers[w].Idle?
  {
    assert Server.WorkerFits(s, w, s.workers[w]);
  }

  lemma RingKept(s: Server.State, a: Server.Action)
    requires Valid(s.ring) && Server.Enabled(s, a) && !a.Consume? && !a.Produce? && !a.LeaveAcceptLoop?
    ensures var s' := Server.Do(s, a);
            && s'.ring == s.ring && (s.master.Producing? ==> s'.master == s.master) && |s'.workers| == |s.workers|
  {
  }

  /** A step that wakes nobody leaves those who sleep, look or queue where they were. */
  lemma PlainFits(t: System, a: Server.Action)
    requires Inv(t) && Possible(t, Plain(a))
    ensures var u := Make(t, Plain(a));
            && u.s.ring == t.s.ring && (t.s.master.Producing? ==> u.s.master == t.s.master)
            && |u.s.workers| == |t.s.workers|
            && forall w | 0 <= w < |t.s.workers| && t.s.workers[w].Idle? :: u.s.workers[w].Idle?
  {
    RingKept(t.s, a);
    forall w | 0 <= w < |t.s.workers| && t.s.workers[w].Idle?
      ensures Server.Do(t.s, a).workers[w].Idle?
    {
      StillIdle(t.s, a, w);
    }
  }

  lemma TakesFits(t: System, w: nat)
    requires Inv(t) && Possible(t, Takes(w))
    ensures SleepersFit(Make(t, Takes(w))) && HolderFits(Make(t, Takes(w)))
  {
  }

  lemma HandsFits(t: System, wakes: Option<nat>)
    requires Inv(t) && Possible(t, Hands(wakes))
    ensures SleepersFit(Make(t, Hands(wakes))) && HolderFits(Make(t, Hands(wakes)))
  {
  }

  lemma MoveFits(t: System, m: Move)
    requires Inv(t) && Possible(t, m)
    ensures SleepersFit(Make(t, m)) && HolderFits(Make(t, m))
  {
    match m
    case Plain(a) => PlainFits(t, a);
    case Takes(w) => TakesFits(t, w);
    case Hands(wakes) => HandsFits(t, wakes);
    case _ =>
  }

  lemma Smaller(a: set<nat>, b: set<nat>)
    requires a <= b
    ensures |a| <= |b|
  {
    assert b == a + (b - a);
  }

  lemma PlainServed(t: System, a: Server.Action)
    requires Inv(t) && Possible(t, Plain(a))
    ensures Served(Make(t, Plain(a))) && Ready(t) <= Ready(Make(t, Plain(a)))
  {
    PlainFits(t, a);
    Smaller(Ready(t), Ready(Make(t, Plain(a))));
  }

  lemma TakesOne(r: Ring<Server.Socket>)
    requires Valid(r) && r.head > r.tail
    ensures Valid(Take(r).1) && Take(r).1.head - Take(r).1.tail == r.head - r.tail - 1
  {
    TakeRemoves(r);
    assert |Contents(r)| == 1 + |Contents(Take(r).1)|;
  }

  lemma TakesReady(t: System, w: nat)
    requires Inv(t) && Possible(t, Takes(w))
    ensures w in Ready(t) && Ready(Make(t, Takes(w))) == Ready(t) - {w}
  {
    assert w in Ready(t);
  }

  lemma TakesServed(t: System, w: nat)
    requires Inv(t) && Possible(t, Takes(w))
    ensures Served(Make(t, Takes(w)))
  {
    TakesReady(t, w);
    if t.s.ring.head > t.s.ring.tail {
      TakesOne(t.s.ring);
    }
  }

  lemma HandsOne(s: Server.State)
    requires Valid(s.ring) && Server.Enabled(s, Server.Produce)
    ensures var r := Server.Do(s, Server.Produce).ring; r.head - r.tail <= s.ring.head - s.ring.tail + 1
    ensures Server.Do(s, Server.Produce).workers == s.workers
  {
  }

  lemma HandsReady(t: System, wakes: Option<nat>)
    requires Inv(t) && Possible(t, Hands(wakes))
    ensures Ready(Make(t, Hands(wakes))) == if wakes.Some? then Ready(t) + {wakes.value} else Ready(t)
    ensures wakes.Some? ==> wakes.value !in Ready(t)
  {
    HandsOne(t.s);
  }

  lemma HandsServed(t: System, wakes: Option<nat>)
    requires Inv(t) && Possible(t, Hands(wakes))
    ensures Served(Make(t, Hands(wakes)))
  {
    HandsReady(t, wakes);
    HandsOne(t.s);
  }

  lemma MoveServed(t: System, m: Move)
    requires Inv(t) && Possible(t, m)
    ensures Served(Make(t, m))
  {
    match m
    case Plain(a) => PlainServed(t, a);
    case Takes(w) => TakesServed(t, w);
    case Hands(wakes) => HandsServed(t, wakes);
    case MasterLooks => assert Ready(Make(t, m)) == Ready(t);
    case MasterSleeps => assert Ready(Make(t, m)) == Ready(t);
    case _ =>
  }

  lemma MoveInv(t: System, m: Move)
    requires Inv(t) && Possible(t, m)
    ensures Inv(Make(t, m))
  {
    MoveServer(t, m);
    MoveFits(t, m);
    MoveServed(t, m);
  }

  // ---- Runs ---------------------------------------------------------------------------------------

  predicate CanMove(t: System, run: seq<Move>)
    decreases |run|
  {
    run == [] || (Valid(t.s.ring) && Possible(t, run[0]) && CanMove(Make(t, run[0]), run[1..]))
  }

  function After(t: System, run: seq<Move>): System
    requires CanMove(t, run)
    decreases |run|
  {
    if run == [] then t else After(Make(t, run[0]), run[1..])
  }

  lemma AfterFirst(t: System, m: Move, rest: seq<Move>)
    requires Valid(t.s.ring) && Possible(t, m) && CanMove(Make(t, m), rest)
    ensures CanMove(t, [m] + rest) && After(t, [m] + rest) == After(Make(t, m), rest)
  {
    assert ([m] + rest)[1..] == rest;
  }

  function StepsOf(run: seq<Move>): seq<Server.Action> {
    if run == [] then [] else Steps(run[0]) + StepsOf(run[1..])
  }

  /** Every run is one of the server as far as its state goes, so all that holds there holds here. */
  lemma {:induction false} Refines(t: System, run: seq<Move>)
    requires Inv(t) && CanMove(t, run)
    ensures Inv(After(t, run))
    ensures Server.CanRun(t.s, StepsOf(run)) && Server.Run(t.s, StepsOf(run)) == After(t, run).s
    decreases |run|
  {
    if run != [] {
      var m, rest := run[0], run[1..];
      MoveInv(t, m);
      Refines(Make(t, m), rest);
      if Steps(m) == [] {
        assert StepsOf(run) == StepsOf(rest);
      } else {
        assert StepsOf(run)[1..] == StepsOf(rest) && StepsOf(run)[0] == Steps(m)[0];
      }
    }
  }

  // ---- After the stop request -----------------------------------------------------------------------

  /** When the stop flag is set, a wake-up may be missed: by a worker between its look and its wait, with
      the master free to leave its loop meanwhile; or by the master, asleep or about to be, with no worker
      left that will enter its critical section again. */
  predicate CanMiss(t: System) {
    || (t.holder.WorkerHolds? && t.s.master.Accepting?)
    || ((t.masterAsleep || t.holder.MasterHolds?)
        && forall i | 0 <= i < |t.s.workers| :: t.s.workers[i].Returning?)
  }

  predicate WillCome(t: System, w: nat) {
    w in Ready(t) || (w < |t.s.workers| && t.s.workers[w].Busy?)
  }

  /** Nobody sleeps for good. */
  ghost predicate Safe(t: System) {
    && t.s.stopFlag != 0
    && (t.holder.WorkerHolds? ==> t.s.master.Producing?)
    && (t.asleep != {} ==> t.s.master.Producing? || t.s.master.Accepting?)
    && (t.masterAsleep || t.holder.MasterHolds? ==> exists w :: WillCome(t, w))
  }

  predicate NobodyComes(s: Server.State) {
    forall i | 0 <= i < |s.workers| :: s.workers[i].Returning? || s.workers[i].Exiting? || s.workers[i].SignedOff?
  }

  /** A worker sleeps, or is about to, although all have been woken. */
  predicate SleptThrough(t: System) {
    t.s.stopFlag != 0 && t.s.master.AwaitingWorkers? && (t.asleep != {} || t.holder.WorkerHolds?)
  }

  /** The master sleeps, or is about to, and no worker comes. */
  predicate Deserted(t: System) {
    t.s.stopFlag != 0 && (t.masterAsleep || t.holder.MasterHolds?) && NobodyComes(t.s)
  }

  /** Somebody sleeps for good. */
  predicate Doomed(t: System) {
    SleptThrough(t) || Deserted(t)
  }

  lemma StopSafe(t: System)
    requires Inv(t) && t.s.owner.Serving? && !CanMiss(t)
    ensures Safe(Make(t, Plain(Server.Stop)))
  {
    var u := Make(t, Plain(Server.Stop));
    assert Ready(u) == Ready(t);
    if t.masterAsleep || t.holder.MasterHolds? {
      var w :| 0 <= w < |t.s.workers| && !t.s.workers[w].Returning?;
      assert Server.WorkerFits(t.s, w, t.s.workers[w]);
      if w in t.asleep {
        assert Ready(t) != {};
        var r :| r in Ready(t);
        assert WillCome(u, r);
      } else {
        assert WillCome(u, w);
      }
    }
  }

  lemma PlainComes(t: System, a: Server.Action, w: nat)
    requires Inv(t) && t.s.stopFlag != 0 && Possible(t, Plain(a)) && WillCome(t, w)
    ensures WillCome(Make(t, Plain(a)), w)
  {
    PlainServed(t, a);
    if w !in Ready(t) {
      assert w !in t.asleep && t.holder != WorkerHolds(w);
      assert a == Server.Serve(w) ==> w in Ready(Make(t, Plain(a)));
    }
  }

  lemma TakesComes(t: System, v: nat, w: nat)
    requires Inv(t) && Possible(t, Takes(v)) && WillCome(t, w) && v != w
    ensures WillCome(Make(t, Takes(v)), w)
  {
    TakesReady(t, v);
  }

  lemma HandsComes(t: System, wakes: Option<nat>, w: nat)
    requires Inv(t) && Possible(t, Hands(wakes)) && WillCome(t, w)
    ensures WillCome(Make(t, Hands(wakes)), w)
  {
    HandsReady(t, wakes);
    HandsOne(t.s);
  }

  /** Who will come does, unless it is he that moves. */
  lemma StillComes(t: System, m: Move, w: nat)
    requires Inv(t) && t.s.stopFlag != 0 && Possible(t, m) && WillCome(t, w) && m != Takes(w)
    ensures WillCome(Make(t, m), w)
  {
    match m
    case Plain(a) => PlainComes(t, a, w);
    case Takes(v) => TakesComes(t, v, w);
    case Hands(wakes) => HandsComes(t, wakes, w);
    case Leaves => assert Ready(t) <= Ready(Make(t, m));
    case WorkerSleeps(_) => assert Ready(t) <= Ready(Make(t, m));
    case MasterSleeps => assert Ready(t) <= Ready(Make(t, m));
    case _ =>
  }

  lemma MoveSafe(t: System, m: Move)
    requires Inv(t) && Safe(t) && Possible(t, m)
    ensures Safe(Make(t, m))
  {
    var u := Make(t, m);
    SafeStages(t, m);
    if u.masterAsleep || u.holder.MasterHolds? {
      var w :| WillCome(t, w);
      StillComes(t, m, w);
    }
  }

  lemma SafeStages(t: System, m: Move)
    requires Inv(t) && Safe(t) && Possible(t, m)
    ensures var u := Make(t, m);
            && u.s.stopFlag != 0
            && (u.holder.WorkerHolds? ==> u.s.master.Producing?)
            && (u.asleep != {} ==> u.s.master.Producing? || u.s.master.Accepting?)
            && (u.masterAsleep || u.holder.MasterHolds? ==> (t.masterAsleep || t.holder.MasterHolds?) && !m.Takes?)
  {
    if m.Plain? {
      PlainFits(t, m.a);
    }
  }

  /** A safe system that cannot move any more has freed its context. */
  lemma SafeMoves(t: System)
    requires Inv(t) && Safe(t) && !t.s.owner.Freed?
    ensures exists m :: Possible(t, m)
  {
    if t.holder.WorkerHolds? {
      assert Possible(t, WorkerSleeps(t.holder.w));
    } else if t.holder.MasterHolds? {
      assert Possible(t, MasterSleeps);
    } else if w :| WillCome(t, w) {
      assert Possible(t, if w in Ready(t) then Takes(w) else Plain(Server.Serve(w)));
    } else {
      NobodyToCome(t);
    }
  }

  lemma NobodyToCome(t: System)
    requires Inv(t) && Safe(t) && !t.s.owner.Freed? && t.holder.Nobody? && forall w :: !WillCome(t, w)
    ensures exists m :: Possible(t, m)
  {
    match t.s.master
    case Accepting => assert Possible(t, Leaves);
    case Producing(_) =>
      if t.asleep == {} {
        assert Possible(t, Hands(None));
      } else {
        var w :| w in t.asleep;
        assert Possible(t, Hands(Some(w)));
      }
    case AwaitingWorkers =>
      if t.s.running <= 0 {
        assert Possible(t, Plain(Server.SeeNoWorkers));
      } else {
        var w := SomeActive(t.s.workers);
        assert !WillCome(t, w) && Server.WorkerFits(t.s, w, t.s.workers[w]);
        assert Possible(t, Plain(if t.s.workers[w].Exiting? then Server.SignOff(w) else Server.ReadStopFlag(w)));
      }
    case Joining(next) =>
      if next < |t.s.workers| {
        assert Server.WorkerFits(t.s, next, t.s.workers[next]);
        assert Possible(t, Plain(Server.Join));
      } else {
        assert Possible(t, Plain(Server.SignalDone));
      }
    case Gone => assert Possible(t, Plain(Server.Free));
  }

  lemma {:induction false} SomeActive(ws: seq<Server.Worker>) returns (w: nat)
    requires Server.CountActive(ws) > 0
    ensures w < |ws| && Server.Active(ws[w])
  {
    if Server.Active(ws[0]) {
      w := 0;
    } else {
      var v := SomeActive(ws[1..]);
      w := v + 1;
    }
  }

  // ---- Nobody comes ---------------------------------------------------------------------------------

  lemma {:induction false} ActiveCounts(ws: seq<Server.Worker>, w: nat)
    requires w < |ws| && Server.Active(ws[w])
    ensures Server.CountActive(ws) > 0
  {
    if w > 0 {
      ActiveCounts(ws[1..], w - 1);
    }
  }

  /** A worker that sleeps when all have been woken keeps the master waiting. */
  lemma SleeperCounts(t: System)
    requires Inv(t) && (t.asleep != {} || t.holder.WorkerHolds?)
    ensures Server.CountActive(t.s.workers) > 0
  {
    var w := if t.holder.WorkerHolds? then t.holder.w else var v :| v in t.asleep; v;
    ActiveCounts(t.s.workers, w);
  }

  lemma SleepsOn(t: System, m: Move)
    requires Inv(t) && SleptThrough(t) && Possible(t, m)
    ensures SleptThrough(Make(t, m))
  {
    SleeperCounts(t);
  }

  lemma StaysDeserted(t: System, m: Move)
    requires Inv(t) && Deserted(t) && Possible(t, m)
    ensures Deserted(Make(t, m))
  {
    assert t.asleep == {};
    if m.Plain? {
      PlainFits(t, m.a);
      assert NobodyComes(Make(t, m).s);
    }
  }

  lemma MoveDoomed(t: System, m: Move)
    requires Inv(t) && Doomed(t) && Possible(t, m)
    ensures Doomed(Make(t, m))
  {
    if SleptThrough(t) {
      SleepsOn(t, m);
    } else {
      StaysDeserted(t, m);
    }
  }

  /** The context is never freed again. */
  lemma {:induction false} DoomedRun(t: System, run: seq<Move>)
    requires Inv(t) && Doomed(t) && CanMove(t, run)
    ensures !After(t, run).s.owner.Freed?
    decreases |run|
  {
    if run != [] {
      MoveInv(t, run[0]);
      MoveDoomed(t, run[0]);
      DoomedRun(Make(t, run[0]), run[1..]);
    }
  }

  // ---- Every run ends -------------------------------------------------------------------------------

  function Rank(w: Server.Worker): nat {
    match w
    case Busy(_) => 4
    case Idle => 3
    case Returning(_) => 2
    case Exiting => 1
    case _ => 0
  }

  function RankAll(ws: seq<Server.Worker>): nat {
    if ws == [] then 0 else Rank(ws[0]) + RankAll(ws[1..])
  }

  lemma {:induction false} RankMoves(ws: seq<Server.Worker>, i: nat, w: Server.Worker)
    requires i < |ws|
    ensures RankAll(ws[i := w]) + Rank(ws[i]) == RankAll(ws) + Rank(w)
  {
    if i == 0 {
      assert ws[i := w][1..] == ws[1..];
    } else {
      RankMoves(ws[1..], i - 1, w);
      assert ws[i := w][1..] == ws[1..][i - 1 := w];
    }
  }

  function MasterRank(m: Server.Master, n: nat): nat {
    match m
    case Producing(_) => n + 5
    case Accepting => n + 4
    case AwaitingWorkers => n + 3
    case Joining(next) => if next <= n then n + 2 - next else 1
    case Gone => 0
  }

  /** How many moves are left after a stop request, at most. */
  function Measure(t: System): nat {
    RankAll(t.s.workers) + MasterRank(t.s.master, |t.s.workers|)
    + (if t.holder.Nobody? then 0 else 1) + (if t.s.owner.Freed? then 0 else 1)
  }

  lemma StepMeasure(s: Server.State, a: Server.Action)
    requires Server.Inv(s, 0) && s.stopFlag != 0 && Server.Enabled(s, a)
    ensures var s' := Server.Do(s, a);
            var n := |s.workers|;
            && |s'.workers| == n
            && RankAll(s'.workers) + MasterRank(s'.master, n) + (if s'.owner.Freed? then 0 else 1)
               < RankAll(s.workers) + MasterRank(s.master, n) + (if s.owner.Freed? then 0 else 1)
  {
    var s' := Server.Do(s, a);
    match a
    case Join => RankMoves(s.workers, s.master.next, Server.Joined);
    case Consume(w) => RankMoves(s.workers, w, s'.workers[w]);
    case ReadStopFlag(w) => RankMoves(s.workers, w, s'.workers[w]);
    case Serve(w) => RankMoves(s.workers, w, s'.workers[w]);
    case SignOff(w) => RankMoves(s.workers, w, s'.workers[w]);
    case _ =>
  }

  lemma MoveMeasure(t: System, m: Move)
    requires Inv(t) && t.s.stopFlag != 0 && Possible(t, m)
    ensures Measure(Make(t, m)) < Measure(t) && Make(t, m).s.stopFlag != 0
  {
    if Steps(m) != [] {
      StepMeasure(t.s, Steps(m)[0]);
      Server.StopFlagStep(t.s, Steps(m)[0], 0);
    }
  }

  /** After a stop request no run goes on for ever, whether or not the context is freed. */
  lemma {:induction false} Bounded(t: System, run: seq<Move>)
    requires Inv(t) && t.s.stopFlag != 0 && CanMove(t, run)
    ensures |run| <= Measure(t)
    decreases |run|
  {
    if run != [] {
      MoveInv(t, run[0]);
      MoveMeasure(t, run[0]);
      Bounded(Make(t, run[0]), run[1..]);
    }
  }

  /** A safe system can always go on until its context is freed. */
  lemma {:induction false} Finishes(t: System) returns (run: seq<Move>)
    requires Inv(t) && Safe(t)
    ensures CanMove(t, run) && After(t, run).s.owner.Freed?
    decreases Measure(t)
  {
    run := [];
    if !t.s.owner.Freed? {
      SafeMoves(t);
      var m :| Possible(t, m);
      MoveInv(t, m);
      MoveSafe(t, m);
      MoveMeasure(t, m);
      var rest := Finishes(Make(t, m));
      run := [m] + rest;
      assert run[1..] == rest;
    }
  }

  lemma {:induction false} SafeRun(t: System, run: seq<Move>)
    requires Inv(t) && Safe(t) && CanMove(t, run)
    ensures Inv(After(t, run)) && Safe(After(t, run))
    decreases |run|
  {
    if run != [] {
      MoveInv(t, run[0]);
      MoveSafe(t, run[0]);
      SafeRun(Make(t, run[0]), run[1..]);
    }
  }

  // ---- Exactly when -----------------------------------------------------------------------------------

  /** No continuation frees the context. */
  ghost predicate Stuck(t: System) {
    forall run | CanMove(t, run) :: !After(t, run).s.owner.Freed?
  }

  /** Some continuation leads to where none frees the context. */
  ghost predicate CanHang(t: System) {
    exists run :: CanMove(t, run) && Stuck(After(t, run))
  }

  lemma DoomedStuck(t: System)
    requires Inv(t) && Doomed(t)
    ensures Stuck(t)
  {
    forall run | CanMove(t, run)
      ensures !After(t, run).s.owner.Freed?
    {
      DoomedRun(t, run);
    }
  }

  lemma StopHangs(t: System)
    requires Inv(t) && t.s.owner.Serving? && CanMiss(t)
    ensures CanHang(Make(t, Plain(Server.Stop)))
  {
    var u := Make(t, Plain(Server.Stop));
    MoveInv(t, Plain(Server.Stop));
    if t.holder.WorkerHolds? && t.s.master.Accepting? {
      LeavingHangs(u);
    } else {
      assert Deserted(u);
      DoomedStuck(u);
      assert After(u, []) == u;
    }
  }

  lemma LeavingHangs(t: System)
    requires Inv(t) && t.s.stopFlag != 0 && t.holder.WorkerHolds? && t.s.master.Accepting?
    ensures CanHang(t)
  {
    MoveInv(t, Leaves);
    DoomedStuck(Make(t, Leaves));
    AfterFirst(t, Leaves, []);
    assert [Leaves] + [] == [Leaves] && Stuck(After(t, [Leaves]));
  }

  lemma StopFinishes(t: System)
    requires Inv(t) && t.s.owner.Serving? && !CanMiss(t)
    ensures !CanHang(Make(t, Plain(Server.Stop)))
  {
    var u := Make(t, Plain(Server.Stop));
    MoveInv(t, Plain(Server.Stop));
    StopSafe(t);
    forall first | CanMove(u, first)
      ensures !Stuck(After(u, first))
    {
      SafeRun(u, first);
      var run := Finishes(After(u, first));
    }
  }

  /** A stop request of a serving server can hang if and only if, at that moment, a wake-up can be missed:
      otherwise the context can be freed from wherever the threads get to.  Either way no run goes on for
      ever. */
  lemma StopExactly(t: System, run: seq<Move>)
    requires Inv(t) && t.s.owner.Serving? && CanMove(Make(t, Plain(Server.Stop)), run)
    ensures CanHang(Make(t, Plain(Server.Stop))) <==> CanMiss(t)
    ensures |run| <= Measure(Make(t, Plain(Server.Stop)))
  {
    MoveInv(t, Plain(Server.Stop));
    Bounded(Make(t, Plain(Server.Stop)), run);
    if CanMiss(t) {
      StopHangs(t);
    } else {
      StopFinishes(t);
    }
  }

  /** So it is after every run from the start: a stopped server that cannot move any more has freed its
      context, unless a wake-up could be missed when it was stopped. */
  lemma StopEnds(t0: System, run: seq<Move>, after: seq<Move>)
    requires Init(t0) && CanMove(t0, run) && After(t0, run).s.owner.Serving?
    requires var t := After(t0, run);
             !CanMiss(t) && Possible(t, Plain(Server.Stop)) && Valid(t.s.ring)
             && CanMove(Make(t, Plain(Server.Stop)), after)
    ensures var u := After(Make(After(t0, run), Plain(Server.Stop)), after);
            u.s.owner.Freed? || exists m :: Possible(u, m)
  {
    InitInv(t0);
    Refines(t0, run);
    var t := After(t0, run);
    MoveInv(t, Plain(Server.Stop));
    StopSafe(t);
    SafeRun(Make(t, Plain(Server.Stop)), after);
    if !After(Make(t, Plain(Server.Stop)), after).s.owner.Freed? {
      SafeMoves(After(Make(t, Plain(Server.Stop)), after));
    }
  }

  // ---- Both ways to miss one ----------------------------------------------------------------------------

  lemma AfterTwo(t: System, x: Move, y: Move, rest: seq<Move>)
    requires Valid(t.s.ring) && Possible(t, x) && Valid(Make(t, x).s.ring) && Possible(Make(t, x), y)
    requires CanMove(Make(Make(t, x), y), rest)
    ensures CanMove(t, [x] + ([y] + rest)) && After(t, [x] + ([y] + rest)) == After(Make(Make(t, x), y), rest)
  {
    AfterFirst(Make(t, x), y, rest);
    AfterFirst(t, x, [y] + rest);
  }

  /** The only worker waits for a socket, or has taken one while k others wait in the queue. */
  predicate Quiet(t: System, k: nat) {
    && t.s.owner.Serving? && |t.s.workers| == 1 && t.s.master.Accepting? && t.s.stopFlag == 0
    && Valid(t.s.ring) && t.s.ring.head - t.s.ring.tail == k
    && t.asleep == {} && !t.masterAsleep && t.holder.Nobody?
  }

  /** A server with one worker, once it has been started. */
  lemma Started(t: System)
    requires Init(t) && |t.s.workers| == 1
    ensures Possible(t, Plain(Server.CountWorker))
    ensures var u := Make(t, Plain(Server.CountWorker));
            && Valid(u.s.ring) && Possible(u, Plain(Server.CreateWorker))
            && Quiet(Make(u, Plain(Server.CreateWorker)), 0)
            && Make(u, Plain(Server.CreateWorker)).s.workers[0].Idle?
  {
    assert |Contents(t.s.ring)| == 0;
  }

  /** Its worker looks, the request comes, the master leaves its loop, the worker goes to sleep. */
  lemma WorkerMisses(t: System) returns (run: seq<Move>)
    requires Init(t) && |t.s.workers| == 1
    ensures CanMove(t, run) && After(t, run).s.owner.Serving?
    ensures After(t, run).holder.WorkerHolds? && CanMiss(After(t, run))
  {
    Started(t);
    var x, y := Plain(Server.CountWorker), Plain(Server.CreateWorker);
    var u := Make(Make(t, x), y);
    AfterFirst(u, WorkerLooks(0), []);
    AfterTwo(t, x, y, [WorkerLooks(0)] + []);
    run := [x] + ([y] + ([WorkerLooks(0)] + []));
  }

  /** The queue fills up while the only worker is about to read the stop flag; the master looks, the
      request comes, the worker leaves, and the master goes to sleep. */
  lemma MasterMisses(t: System, x: Server.Socket) returns (run: seq<Move>)
    requires Init(t) && |t.s.workers| == 1
    ensures CanMove(t, run) && After(t, run).s.owner.Serving?
    ensures After(t, run).holder.MasterHolds? && CanMiss(After(t, run))
  {
    Started(t);
    var first, second := Plain(Server.CountWorker), Plain(Server.CreateWorker);
    var rest := Taken(Make(Make(t, first), second), x);
    AfterTwo(t, first, second, rest);
    run := [first] + ([second] + rest);
  }

  lemma Handed(t: System, k: nat, x: Server.Socket)
    requires Quiet(t, k) && k < QUEUE_SIZE
    ensures Possible(t, Plain(Server.Accept(x)))
    ensures var u := Make(t, Plain(Server.Accept(x)));
            && Valid(u.s.ring) && Possible(u, Hands(None)) && Quiet(Make(u, Hands(None)), k + 1)
            && Make(u, Hands(None)).s.workers == t.s.workers
  {
  }

  lemma Taken(t: System, x: Server.Socket) returns (run: seq<Move>)
    requires Quiet(t, 0) && t.s.workers[0].Idle?
    ensures CanMove(t, run) && After(t, run).s.owner.Serving?
    ensures After(t, run).holder.MasterHolds? && CanMiss(After(t, run))
  {
    Handed(t, 0, x);
    var u := Make(Make(t, Plain(Server.Accept(x))), Hands(None));
    TakesOne(u.s.ring);
    var rest := Filled(Make(u, Takes(0)), 0, x);
    AfterFirst(u, Takes(0), rest);
    AfterTwo(t, Plain(Server.Accept(x)), Hands(None), [Takes(0)] + rest);
    run := [Plain(Server.Accept(x))] + ([Hands(None)] + ([Takes(0)] + rest));
  }

  lemma {:induction false} Filled(t: System, k: nat, x: Server.Socket) returns (run: seq<Move>)
    requires Quiet(t, k) && k <= QUEUE_SIZE && t.s.workers[0].Returning?
    ensures CanMove(t, run) && After(t, run).s.owner.Serving?
    ensures After(t, run).holder.MasterHolds? && CanMiss(After(t, run))
    decreases QUEUE_SIZE - k
  {
    var a := Plain(Server.Accept(x));
    if k < QUEUE_SIZE {
      Handed(t, k, x);
      var rest := Filled(Make(Make(t, a), Hands(None)), k + 1, x);
      AfterTwo(t, a, Hands(None), rest);
      run := [a] + ([Hands(None)] + rest);
    } else {
      AfterTwo(t, a, MasterLooks, []);
      run := [a] + ([MasterLooks] + []);
    }
  }
}
