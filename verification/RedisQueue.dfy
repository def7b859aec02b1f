/**
 Many client threads and one worker around a FIFO queue, one atomic action at a time, in any
 interleaving. Waits are unbounded, the server and the network may fail any operation, and
 `stop()` may come at any moment.
 */
module RedisQueue {
  import opened Wrappers
  import opened Sequences
  import opened Ordered
  import opened LruSpec
  import opened RedisTrim
  import opened RedisStore

  /** How an operation goes: as it should, or with an exception that leaves `after` behind. */
  datatype Effect = Fine(scan: Scan) | Fault(after: Records)

  /** What a failing operation may leave: itself done or not, a trim done in part. */
  ghost predicate MayLeave(db: Records, op: Op, after: Records) {
    match op
    case Read(_) => after == db
    case Write(k, r) => after == db || after == db[k := r]
    case Trim(p, _) =>
      && (forall k :: k in after ==> k in db && after[k] == db[k])
      && (forall k :: k in db && k !in after ==> InFamily(k, p))
  }

  ghost predicate Allowed(db: Records, op: Op, e: Effect) {
    e.Fault? ==> MayLeave(db, op, e.after)
  }

  /** Whatever the worker's own failing operations leave is among it. */
  lemma WorkerFaultsAreAllowed(db: Records, j: Job)
    requires j.fault.Some?
    requires j.op.Trim? ==> forall k :: k in j.scan.keys ==> InFamily(k, j.op.prefix)
    ensures MayLeave(db, j.op, Served(db, j)) && Reply(db, j) == Raised
  {
    if j.op.Trim? {
      FirstSeenMembers(j.scan.keys);
      ByIdleKeeps(FirstSeen(j.scan.keys), j.scan);
      forall k | k in Gone(j.scan, j.op.limit, j.fault) ensures InFamily(k, j.op.prefix) {
        var order := ByIdle(FirstSeen(j.scan.keys), j.scan);
        assert k in multiset(order) && multiset(order) == multiset(FirstSeen(j.scan.keys));
      }
    }
  }

  function Effected(db: Records, op: Op, e: Effect): Records {
    match e
    case Fine(scan) => Served(db, Job(op, scan, None))
    case Fault(after) => after
  }

  function OutcomeOf(db: Records, op: Op, e: Effect): Outcome {
    match e
    case Fine(scan) => Reply(db, Job(op, scan, None))
    case Fault(_) => Raised
  }

  /** An item with what has happened to it, and when; time 0 stands for not yet. */
  datatype Work = Work(client: nat, op: Op, putAt: nat, ranAt: nat, effect: Effect, outcome: Outcome,
                       signals: nat, returnedAt: nat)

  /** Where the worker is in its loop. */
  datatype Pc = CheckRunning | CheckEmpty | GetItem | RunItem(n: nat) | SignalItem(n: nat) | Exited

  datatype State = State(
    items: seq<Work>,        // every item ever put, in the order it was put
    queue: seq<nat>,         // the queue's content, as indices into `items`
    pc: Pc,
    running: bool,
    trail: seq<Records>,     // what the server held before any operation and after each one
    now: nat,
    exitedAt: nat)

  ghost predicate Init(q: State) {
    && q.items == [] && q.queue == [] && q.pc == CheckRunning && q.running
    && |q.trail| == 1 && q.now > 0 && q.exitedAt == 0
  }

  datatype Action =
    | Put(client: nat, op: Op)      // a client enqueues an item and waits
    | Return(n: nat)                // a client whose item is signalled goes on
    | Stop                          // `stop()` clears the flag
    | SeeFlag                       // the worker reads the flag
    | SeeQueue                      // the worker asks whether the queue is empty
    | Take                          // `get` returns the head
    | TimeOut                       // `get` gives up on an empty queue
    | Execute(effect: Effect)
    | Signal

  /** A client has one operation at a time, and waits for it. */
  predicate Waiting(q: State, client: nat) {
    exists i :: 0 <= i < |q.items| && q.items[i].client == client && q.items[i].returnedAt == 0
  }

  ghost predicate Enabled(q: State, a: Action) {
    match a
    case Put(client, _) => !Waiting(q, client)
    case Return(n) => n < |q.items| && q.items[n].signals > 0 && q.items[n].returnedAt == 0
    case Stop => true
    case SeeFlag => q.pc.CheckRunning?
    case SeeQueue => q.pc.CheckEmpty?
    case Take => q.pc.GetItem? && q.queue != []
    case TimeOut => q.pc.GetItem? && q.queue == []
    case Execute(e) => q.pc.RunItem? && q.pc.n < |q.items| && q.trail != []
                       && Allowed(q.trail[|q.trail| - 1], q.items[q.pc.n].op, e)
    case Signal => q.pc.SignalItem? && q.pc.n < |q.items|
  }

  function Acted(q: State, a: Action): State
    requires Enabled(q, a)
  {
    match a
    case Put(client, op) =>
      q.(items := q.items + [Work(client, op, q.now, 0, Fault(map[]), Raised, 0, 0)],
         queue := q.queue + [|q.items|])
    case Return(n) => q.(items := q.items[n := q.items[n].(returnedAt := q.now)])
    case Stop => q.(running := false)
    case SeeFlag => q.(pc := if q.running then GetItem else CheckEmpty)
    case SeeQueue =>
      if q.queue == [] then q.(pc := Exited, exitedAt := q.now) else q.(pc := GetItem)
    case Take => q.(pc := RunItem(q.queue[0]), queue := q.queue[1..])
    case TimeOut => q.(pc := CheckRunning)
    case Execute(e) =>
      var n, db := q.pc.n, q.trail[|q.trail| - 1];
      var w := q.items[n].(ranAt := q.now, effect := e, outcome := OutcomeOf(db, q.items[n].op, e));
      q.(items := q.items[n := w], pc := SignalItem(n), trail := q.trail + [Effected(db, w.op, e)])
    case Signal =>
      var n := q.pc.n;
      q.(items := q.items[n := q.items[n].(signals := q.items[n].signals + 1)], pc := CheckRunning)
  }

  function Next(q: State, a: Action): State
    requires Enabled(q, a)
  {
    Acted(q, a).(now := q.now + 1)
  }

  ghost predicate Steps(q: State, r: State) {
    exists a: Action :: Enabled(q, a) && r == Next(q, a)
  }

  /** A run of the whole system, state by state. */
  ghost predicate Trace(qs: seq<State>) {
    qs != [] && Init(qs[0]) && forall i :: 0 <= i < |qs| - 1 ==> Steps(qs[i], qs[i + 1])
  }

  // --- what every interleaving keeps --------------------------------------

  function Taken(q: State): int {
    |q.items| - |q.queue|
  }

  /** How many operations have run, and how many items have been signalled. */
  function Ran(q: State): int {
    |q.trail| - 1
  }

  function Signalled(q: State): int {
    if q.pc.RunItem? || q.pc.SignalItem? then Taken(q) - 1 else Taken(q)
  }

  /** The queue is FIFO and the worker holds at most the item it took last. */
  ghost predicate InOrder(q: State) {
    && 0 <= Taken(q) && 0 <= Ran(q) && 0 <= Signalled(q)
    && (forall i :: 0 <= i < |q.queue| ==> q.queue[i] == Taken(q) + i)
    && Ran(q) == (if q.pc.RunItem? then Taken(q) - 1 else Taken(q))
    && (q.pc.RunItem? || q.pc.SignalItem? ==> q.pc.n == Taken(q) - 1)
  }

  /** Item `i` has run on what its predecessors left, and has left what its successor runs on. */
  ghost predicate RanInTurn(items: seq<Work>, trail: seq<Records>, i: nat)
    requires i < |items| && i + 1 < |trail|
  {
    var w := items[i];
    && Allowed(trail[i], w.op, w.effect)
    && w.outcome == OutcomeOf(trail[i], w.op, w.effect)
    && trail[i + 1] == Effected(trail[i], w.op, w.effect)
  }

  ghost predicate Sequential(q: State)
    requires InOrder(q)
  {
    forall i :: 0 <= i < Ran(q) ==> RanInTurn(q.items, q.trail, i)
  }

  /** An item is put, then runs, and then is signalled once before its caller returns. */
  ghost predicate Timely(q: State)
    requires InOrder(q)
  {
    && q.now > 0
    && (forall i :: 0 <= i < |q.items| ==> 0 < q.items[i].putAt < q.now)
    && (forall i :: 0 <= i < Ran(q) ==> q.items[i].putAt < q.items[i].ranAt < q.now)
    && (forall i :: Ran(q) <= i < |q.items| ==> q.items[i].ranAt == 0)
  }

  ghost predicate SignalledOnce(q: State)
    requires InOrder(q)
  {
    forall i :: 0 <= i < |q.items| ==> q.items[i].signals == if i < Signalled(q) then 1 else 0
  }

  /** Nobody goes on before being signalled. */
  ghost predicate Patient(q: State)
    requires InOrder(q)
  {
    && (forall i :: 0 <= i < Signalled(q) && q.items[i].returnedAt != 0 ==>
                      q.items[i].ranAt < q.items[i].returnedAt < q.now)
    && (forall i :: Signalled(q) <= i < |q.items| ==> q.items[i].returnedAt == 0)
  }

  /** Items are put in the order of the queue, */
  ghost predicate PutInTurn(q: State) {
    forall i, j :: 0 <= i < j < |q.items| ==> q.items[i].putAt < q.items[j].putAt
  }

  /** and run in it. */
  ghost predicate Paced(q: State)
    requires InOrder(q)
  {
    forall i, j :: 0 <= i < j < Ran(q) ==> q.items[i].ranAt < q.items[j].ranAt
  }

  /** The worker is gone only with the flag clear, and what it left behind was put after it looked. */
  ghost predicate ExitsClean(q: State)
    requires InOrder(q)
  {
    && (q.pc.CheckEmpty? ==> !q.running)
    && (q.pc.Exited? ==>
          && !q.running && 0 < q.exitedAt < q.now
          && (forall i :: Taken(q) <= i < |q.items| ==> q.items[i].putAt > q.exitedAt)
          && (forall i :: 0 <= i < Taken(q) ==> q.items[i].putAt < q.exitedAt))
  }

  ghost predicate Good(q: State) {
    InOrder(q) && Sequential(q) && Timely(q) && SignalledOnce(q) && Patient(q) && PutInTurn(q) && Paced(q) && ExitsClean(q)
  }

  lemma KeepsInOrder(q: State, a: Action)
    requires Good(q) && Enabled(q, a)
    ensures InOrder(Next(q, a))
  {
  }

  lemma KeepsSequential(q: State, a: Action)
    requires Good(q) && Enabled(q, a) && InOrder(Next(q, a))
    ensures Sequential(Next(q, a))
  {
    var r := Next(q, a);
    assert a.Execute? ==> q.pc.n == Ran(q);
    forall i | 0 <= i < Ran(r) ensures RanInTurn(r.items, r.trail, i) {
      if i < Ran(q) {
        assert RanInTurn(q.items, q.trail, i);
      }
    }
  }

  lemma KeepsTimely(q: State, a: Action)
    requires Good(q) && Enabled(q, a) && InOrder(Next(q, a))
    ensures Timely(Next(q, a))
  {
  }

  lemma KeepsSignals(q: State, a: Action)
    requires Good(q) && Enabled(q, a) && InOrder(Next(q, a))
    ensures SignalledOnce(Next(q, a))
  {
  }

  lemma KeepsPatient(q: State, a: Action)
    requires Good(q) && Enabled(q, a) && InOrder(Next(q, a))
    ensures Patient(Next(q, a))
  {
  }

  lemma KeepsPutInTurn(q: State, a: Action)
    requires Good(q) && Enabled(q, a)
    ensures PutInTurn(Next(q, a))
  {
  }

  lemma KeepsPaced(q: State, a: Action)
    requires Good(q) && Enabled(q, a) && InOrder(Next(q, a))
    ensures Paced(Next(q, a))
  {
  }

  lemma KeepsExitsClean(q: State, a: Action)
    requires Good(q) && Enabled(q, a) && InOrder(Next(q, a))
    ensures ExitsClean(Next(q, a))
  {
  }

  lemma StepGood(q: State, a: Action)
    requires Good(q) && Enabled(q, a)
    ensures Good(Next(q, a))
  {
    KeepsInOrder(q, a);
    KeepsSequential(q, a);
    KeepsTimely(q, a);
    KeepsSignals(q, a);
    KeepsPatient(q, a);
    KeepsPutInTurn(q, a);
    KeepsPaced(q, a);
    KeepsExitsClean(q, a);
  }

  lemma {:induction false} TraceGood(qs: seq<State>, k: nat)
    requires Trace(qs) && k < |qs|
    ensures Good(qs[k])
  {
    if k > 0 {
      TraceGood(qs, k - 1);
      assert Steps(qs[k - 1], qs[k - 1 + 1]);
      var a: Action :| Enabled(qs[k - 1], a) && qs[k] == Next(qs[k - 1], a);
      StepGood(qs[k - 1], a);
    }
  }

  // --- linearizability ----------------------------------------------------

  /**
   Linearizability. In every reachable state the operations that have run form one sequential
   execution, in the order they were enqueued; each runs between its enqueueing and its
   return; every caller that has returned was signalled exactly once and holds what that
   sequential execution answers; and an operation that returned before another was enqueued
   comes before it.
   */
  lemma QueueIsLinearizable(qs: seq<State>, q: State)
    requires Trace(qs) && q in qs
    ensures 0 <= Ran(q) <= |q.items|
    ensures forall i :: 0 <= i < Ran(q) ==>
              Answers(q.items[i], q.trail[i], q.trail[i + 1]) && q.items[i].putAt < q.items[i].ranAt
    ensures forall i, j :: 0 <= i < j < Ran(q) ==> q.items[i].ranAt < q.items[j].ranAt
    ensures forall i :: 0 <= i < |q.items| && q.items[i].returnedAt != 0 ==>
              i < Ran(q) && q.items[i].signals == 1 && q.items[i].ranAt < q.items[i].returnedAt
    ensures forall i, j :: 0 <= i < |q.items| && 0 <= j < |q.items| && ReturnedBefore(q.items[i], q.items[j]) ==> i < j
  {
    var k :| 0 <= k < |qs| && qs[k] == q;
    TraceGood(qs, k);
    forall i | 0 <= i < Ran(q) ensures Answers(q.items[i], q.trail[i], q.trail[i + 1]) {
      assert RanInTurn(q.items, q.trail, i);
      RanAnswers(q.items[i], q.trail[i], q.trail[i + 1]);
    }
  }

  /**
   What `w` was told by a server that held `before`, and what it left: an exception and
   whatever it may leave, or the record, the write done, the excess of the scan gone.
   */
  ghost predicate Answers(w: Work, before: Records, after: Records) {
    && (w.outcome == Raised <==> w.effect.Fault?)
    && match w.effect
       case Fault(left) => after == left && MayLeave(before, w.op, left)
       case Fine(scan) =>
         match w.op
         case Read(k) =>
           after == before && w.outcome == Answer(if k in before then Some(before[k]) else None)
         case Write(k, r) =>
           after == before[k := r] && w.outcome == Answer(None)
         case Trim(_, limit) =>
           && w.outcome == Answer(None)
           && forall k :: (k in after <==> k in before && k !in Evicted(scan, limit))
                          && (k in after ==> after[k] == before[k])
  }

  lemma RanAnswers(w: Work, before: Records, after: Records)
    requires Allowed(before, w.op, w.effect) && w.outcome == OutcomeOf(before, w.op, w.effect)
    requires after == Effected(before, w.op, w.effect)
    ensures Answers(w, before, after)
  {
  }

  /** The caller of `a` had its answer before `b` was enqueued. */
  predicate ReturnedBefore(a: Work, b: Work) {
    0 < a.returnedAt < b.putAt
  }

  /** No item is ever signalled twice, and one is signalled the moment its operation is over, raised or not. */
  lemma EveryItemIsSignalledOnce(qs: seq<State>, q: State, i: nat)
    requires Trace(qs) && q in qs && i < |q.items|
    ensures q.items[i].signals <= 1
    ensures q.items[i].signals == 1 <==> q.items[i].ranAt != 0 && q.pc != SignalItem(i)
  {
    var k :| 0 <= k < |qs| && qs[k] == q;
    TraceGood(qs, k);
  }

  /**
   The worker exits only with the flag clear and the queue seen empty: every item put before
   that moment has been served and signalled, and none put later ever is.
   */
  lemma WorkerExitsOnlyWhenDone(qs: seq<State>, q: State, i: nat)
    requires Trace(qs) && q in qs && q.pc.Exited? && i < |q.items|
    ensures !q.running && q.exitedAt > 0
    ensures q.items[i].signals == 1 <==> q.items[i].putAt < q.exitedAt
    ensures q.items[i].signals == 0 <==> q.items[i].putAt > q.exitedAt
  {
    var k :| 0 <= k < |qs| && qs[k] == q;
    TraceGood(qs, k);
  }

  // --- the worker gets done -----------------------------------------------

  /** What the worker does next; it is never at a loss. */
  function WorkerNext(q: State): Action
    requires !q.pc.Exited?
  {
    match q.pc
    case CheckRunning => SeeFlag
    case CheckEmpty => SeeQueue
    case GetItem => if q.queue == [] then TimeOut else Take
    case RunItem(_) => Execute(Fine(Scan([], map[])))
    case SignalItem(_) => Signal
  }

  /** `r` is what the worker, left alone, makes of `q` next, whatever the scan lists. */
  ghost predicate WorkerStep(q: State, r: State) {
    exists a: Action :: Enabled(q, a) && r == Next(q, a) && !(a.Put? || a.Return? || a.Stop?)
  }

  function Remaining(q: State): nat {
    6 * |q.queue| +
    match q.pc
    case Exited => 0
    case GetItem => if q.queue == [] then 3 else 0
    case CheckEmpty => 1
    case CheckRunning => 2
    case SignalItem(_) => 3
    case RunItem(_) => 4
  }

  lemma WorkerMoves(q: State)
    requires Good(q) && !q.running && !q.pc.Exited?
    ensures var a := WorkerNext(q);
            && Enabled(q, a) && WorkerStep(q, Next(q, a))
            && Good(Next(q, a)) && !Next(q, a).running && Remaining(Next(q, a)) < Remaining(q)
            && |Next(q, a).items| == |q.items|
  {
    StepGood(q, WorkerNext(q));
  }

  /**
   Once the flag is clear the worker, left alone, comes to its end, with the queue empty and
   every item there is signalled.
   */
  lemma {:induction false} TheWorkerFinishes(q: State) returns (rs: seq<State>)
    requires Good(q) && !q.running && !q.pc.Exited?
    ensures rs != [] && rs[0] == q && forall i :: 0 <= i < |rs| - 1 ==> WorkerStep(rs[i], rs[i + 1])
    ensures var end := rs[|rs| - 1];
            && end.pc.Exited? && end.queue == [] && |end.items| == |q.items|
            && forall i :: 0 <= i < |end.items| ==> end.items[i].signals == 1
    decreases Remaining(q)
  {
    WorkerMoves(q);
    var r := Next(q, WorkerNext(q));
    if r.pc.Exited? {
      rs := [q, r];
    } else {
      var rest := TheWorkerFinishes(r);
      rs := [q] + rest;
      assert forall i :: 0 < i < |rs| - 1 ==> rs[i] == rest[i - 1] && rs[i + 1] == rest[i];
    }
  }

  /** So whatever has happened, `stop()` is enough: left alone, the worker serves all there is and exits. */
  lemma StoppedStoreFinishes(qs: seq<State>, q: State) returns (rs: seq<State>)
    requires Trace(qs) && q in qs && !q.running && !q.pc.Exited?
    ensures rs != [] && rs[0] == q && forall i :: 0 <= i < |rs| - 1 ==> WorkerStep(rs[i], rs[i + 1])
    ensures var end := rs[|rs| - 1];
            && end.pc.Exited? && end.queue == [] && |end.items| == |q.items|
            && forall i :: 0 <= i < |end.items| ==> end.items[i].signals == 1
  {
    var k :| 0 <= k < |qs| && qs[k] == q;
    TraceGood(qs, k);
    rs := TheWorkerFinishes(q);
  }

  // --- with nothing failing, the callers use an LRU store -----------------

  /** The commands run so far, in queue order. */
  function Commands(q: State, n: nat): (cs: seq<Command>)
    requires n <= |q.items|
    ensures |cs| == n
  {
    seq(n, i requires 0 <= i < n =>
      Command(q.items[i].op, if q.items[i].effect.Fine? then q.items[i].effect.scan else Scan([], map[])))
  }

  lemma {:induction false} TrailIsTheRun(q: State, n: nat)
    requires InOrder(q) && Sequential(q) && n <= Ran(q) <= |q.items| && q.trail[0] == map[]
    requires forall i :: 0 <= i < Ran(q) ==> q.items[i].effect.Fine?
    ensures q.trail[n] == RedisRun(Commands(q, n)).records
    ensures |RedisResults(Commands(q, n))| == n
    ensures forall i :: 0 <= i < n ==> q.items[i].outcome == Answer(RedisResults(Commands(q, n))[i])
  {
    if n > 0 {
      TrailIsTheRun(q, n - 1);
      assert RanInTurn(q.items, q.trail, n - 1);
      assert Commands(q, n)[..n - 1] == Commands(q, n - 1);
    }
  }

  /**
   Both stores behind the seam are one: when nothing fails and the scans are faithful, every
   caller of the Redis store has been told what the in-memory store would answer had the
   operations been applied to it one by one in queue order.
   */
  lemma ConcurrentCallersSeeTheInMemoryStore(qs: seq<State>, q: State)
    requires Trace(qs) && q in qs && qs[0].trail[0] == map[]
    requires 0 <= Ran(q) <= |q.items| && forall i :: 0 <= i < Ran(q) ==> q.items[i].effect.Fine?
    requires FaithfulScans(Commands(q, Ran(q)))
    ensures var ops := OpsOf(Commands(q, Ran(q)));
            && |LruSpec.Results([], ops)| == Ran(q)
            && (forall i :: 0 <= i < Ran(q) ==> q.items[i].outcome == Answer(LruSpec.Results([], ops)[i]))
            && forall k :: Find(LruSpec.Run([], ops), k) == Get(q.trail[Ran(q)], k)
  {
    var k :| 0 <= k < |qs| && qs[k] == q;
    TraceGood(qs, k);
    TrailStarts(qs, k);
    var cs := Commands(q, Ran(q));
    TrailIsTheRun(q, Ran(q));
    TheTwoStoresAgree(cs);
    LruHistory.ResultsCount(OpsOf(cs));
  }

  lemma {:induction false} TrailStarts(qs: seq<State>, k: nat)
    requires Trace(qs) && k < |qs|
    ensures qs[k].trail != [] && qs[k].trail[0] == qs[0].trail[0]
  {
    if k > 0 {
      TrailStarts(qs, k - 1);
      assert Steps(qs[k - 1], qs[k - 1 + 1]);
    }
  }
}
