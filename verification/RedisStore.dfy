/** `RedisStateStore`: the worker's side, serving work items from the queue one at a time. */
module RedisStore {
  import opened Sequences
  import opened Wrappers
  import opened LruSpec
  import opened RedisTrim

  /** What a caller is told: an answer, or the exception its operation ended in. */
  datatype Outcome = Answer(record: Option<Record>) | Raised

  /**
   An operation, and what the server and the network do while it runs: what a scan lists, and
   for an operation that ends in an exception how many of its writes had taken effect by then.
   */
  datatype Job = Job(op: Op, scan: Scan, fault: Option<nat>)

  /** The keys a trim deletes before it is through or ends in an exception. */
  function Gone(scan: Scan, limit: nat, fault: Option<nat>): seq<string> {
    if fault.Some? then Take(Evicted(scan, limit), fault.value) else Evicted(scan, limit)
  }

  function Served(records: Records, j: Job): Records {
    match j.op
    case Read(_) => records
    case Write(k, r) => if j.fault == Some(0) then records else records[k := r]
    case Trim(_, limit) => Deleted(records, Gone(j.scan, limit, j.fault))
  }

  function Reply(records: Records, j: Job): Outcome {
    if j.fault.Some? then Raised else Answer(if j.op.Read? then Get(records, j.op.key) else None)
  }

  /**
   What one job answers and leaves, spelled out: an exception is what its caller gets; a failed
   write is done or not; a failed trim has deleted the first keys of the excess.
   */
  lemma JobDoes(records: Records, j: Job)
    ensures Reply(records, j) == Raised <==> j.fault.Some?
    ensures j.fault.None? && j.op.Read? ==>
              Reply(records, j) == Answer(if j.op.key in records then Some(records[j.op.key]) else None)
    ensures j.fault.None? && !j.op.Read? ==> Reply(records, j) == Answer(None)
    ensures j.op.Read? ==> Served(records, j) == records
    ensures j.op.Write? ==>
              Served(records, j) == if j.fault == Some(0) then records else records[j.op.key := j.op.record]
    ensures j.op.Trim? ==>
              exists n ::
                && 0 <= n <= |Evicted(j.scan, j.op.limit)|
                && (j.fault.None? ==> n == |Evicted(j.scan, j.op.limit)|)
                && (j.fault.Some? ==> n == j.fault.value || (n < j.fault.value && n == |Evicted(j.scan, j.op.limit)|))
                && Lacks(records, Served(records, j), Evicted(j.scan, j.op.limit)[..n])
  {
    if j.op.Trim? {
      var out := Evicted(j.scan, j.op.limit);
      var n := |Gone(j.scan, j.op.limit, j.fault)|;
      assert out[..|out|] == out;
      assert Lacks(records, Served(records, j), out[..n]);
    }
  }

  /** `after` is `before` without the keys of `out`. */
  ghost predicate Lacks(before: Records, after: Records, out: seq<string>) {
    && (forall k :: k in after <==> k in before && k !in out)
    && forall k :: k in after ==> after[k] == before[k]
  }

  function ServedAll(records: Records, js: seq<Job>): Records {
    if js == [] then records else Served(ServedAll(records, js[..|js| - 1]), js[|js| - 1])
  }

  /** What each caller is told, one job after the other. */
  function Replies(records: Records, js: seq<Job>): (os: seq<Outcome>)
    ensures |os| == |js|
  {
    if js == [] then []
    else Replies(records, js[..|js| - 1]) + [Reply(ServedAll(records, js[..|js| - 1]), js[|js| - 1])]
  }

  lemma {:induction false} ReplyAt(records: Records, js: seq<Job>, i: nat)
    requires i < |js|
    ensures Replies(records, js)[i] == Reply(ServedAll(records, js[..i]), js[i])
    ensures ServedAll(records, js[..i + 1]) == Served(ServedAll(records, js[..i]), js[i])
  {
    assert js[..i + 1][..i] == js[..i];
    if i < |js| - 1 {
      ReplyAt(records, js[..|js| - 1], i);
      assert js[..|js| - 1][..i] == js[..i];
    }
  }

  /** One unit of work; `scan` and `fault` stand for the environment. */
  class WorkItem {
    const op: Op
    const scan: Scan
    const fault: Option<nat>
    var result: Option<Record>
    var error: bool
    var signalled: bool
    ghost var signals: nat

    ghost function AsJob(): Job {
      Job(op, scan, fault)
    }

    constructor (op: Op, scan: Scan, fault: Option<nat>)
      ensures this.op == op && this.scan == scan && this.fault == fault
      ensures !signalled && signals == 0 && !error && result == None
    {
      this.op, this.scan, this.fault := op, scan, fault;
      result, error, signalled, signals := None, false, false, 0;
    }

    /** The waiting caller may go on. */
    method Done()
      modifies this`signalled, this`signals
      ensures signalled && signals == old(signals) + 1
    {
      signalled, signals := true, signals + 1;
    }

    ghost predicate Fresh()
      reads this
    {
      signals == 0 && !signalled && !error && result == None
    }

    /** The caller has been told `o`, once. */
    ghost predicate Told(o: Outcome)
      reads this
    {
      signalled && signals == 1 && (if o.Raised? then error else !error && result == o.record)
    }
  }

  class RedisStateStore {
    var queue: seq<WorkItem>
    var running: bool
    var client: Records

    constructor (client: Records)
      ensures queue == [] && !running && this.client == client
    {
      this.queue, this.running, this.client := [], false, client;
    }

    method Enqueue(op: Op, scan: Scan, fault: Option<nat>) returns (item: WorkItem)
      modifies this`queue
      ensures fresh(item) && item.Fresh() && item.AsJob() == Job(op, scan, fault)
      ensures queue == old(queue) + [item]
    {
      item := new WorkItem(op, scan, fault);
      queue := queue + [item];
    }

    /** The keys of `idle_times`, in the order the dictionary keeps them. */
    method ListIdle(scan: Scan) returns (order: seq<string>)
      ensures order == FirstSeen(scan.keys)
    {
      var keys := scan.keys;
      order := [];
      var idleTimes: map<string, nat> := map[];
      for i := 0 to |keys|
        invariant order == FirstSeen(keys[..i])
        invariant forall k :: k in idleTimes <==> k in keys[..i]
      {
        assert keys[..i + 1][..i] == keys[..i];
        if keys[i] !in idleTimes {
          order := order + [keys[i]];
        }
        idleTimes := idleTimes[keys[i] := scan.IdleOf(keys[i])];
      }
      assert keys[..|keys|] == keys;
    }

    method DeleteAll(keys: seq<string>)
      modifies this`client
      ensures client == Deleted(old(client), keys)
    {
      for i := 0 to |keys|
        invariant client == Deleted(old(client), keys[..i])
      {
        client := client - {keys[i]};
      }
      assert keys[..|keys|] == keys;
    }

    /** The excess of the family, most idle first. */
    method Excess(scan: Scan, limit: nat) returns (keys: seq<string>)
      ensures keys == Evicted(scan, limit)
    {
      keys := [];
      if |scan.keys| > limit {
        var order := ListIdle(scan);
        var evictCount := |scan.keys| - limit;
        keys := Take(ByIdle(order, scan), evictCount);
      }
    }

    /** Delete the excess, or what an exception leaves time for. */
    method TrimFamily(scan: Scan, limit: nat, fault: Option<nat>)
      modifies this`client
      ensures client == Deleted(old(client), Gone(scan, limit, fault))
    {
      var keys := Excess(scan, limit);
      DeleteAll(if fault.Some? then Take(keys, fault.value) else keys);
    }

    /** `get()` on a queue that is not empty. */
    method TakeHead() returns (item: WorkItem)
      requires queue != []
      modifies this`queue
      ensures item == old(queue)[0] && queue == old(queue)[1..]
    {
      item := queue[0];
      queue := queue[1..];
    }

    /** Run one item against the server; whatever happens, signal it. */
    method Process(item: WorkItem)
      requires item.Fresh()
      modifies this`client, item
      ensures client == Served(old(client), item.AsJob())
      ensures item.Told(Reply(old(client), item.AsJob()))
    {
      match item.op {
        case Read(key) =>
          if item.fault.None? {
            item.result := Get(client, key);
          }
        case Write(key, record) =>
          if item.fault != Some(0) {
            client := client[key := record];
          }
        case Trim(_, limit) => TrimFamily(item.scan, limit, item.fault);
      }
      if item.fault.Some? {
        item.error := true;
      }
      item.Done();
    }

    /** The first `n` of `items` are served, the next ones up to `put` are queued, the rest not put yet. */
    ghost predicate Serving(items: seq<WorkItem>, before: Records, n: nat, put: nat)
      reads this`queue, this`client, items
    {
      && n <= put <= |items| && queue == items[n..put]
      && client == ServedAll(before, Jobs(items)[..n])
      && (forall i :: 0 <= i < n ==> items[i].Told(Replies(before, Jobs(items))[i]))
      && (forall i :: n <= i < |items| ==> items[i].Fresh())
    }

    lemma Starts(later: seq<WorkItem>)
      requires forall item :: item in queue + later ==> item.Fresh()
      ensures Serving(queue + later, client, 0, |queue|)
    {
      var items := queue + later;
      assert Jobs(items)[..0] == [];
      assert forall i :: 0 <= i < |items| ==> items[i] in items;
    }

    lemma AllServed(items: seq<WorkItem>, before: Records, n: nat, put: nat)
      requires Serving(items, before, n, put) && queue == []
      ensures n == put
    {
    }

    /** One round of the worker: dequeue, run, signal; or give up waiting on an empty queue. */
    method ServeHead(ghost items: seq<WorkItem>, ghost before: Records, ghost n: nat, ghost put: nat)
      requires Serving(items, before, n, put) && Different(items)
      modifies this`queue, this`client, items
      ensures Serving(items, before, if n < put then n + 1 else n, put)
    {
      if queue == [] {
        return;
      }
      ReplyAt(before, Jobs(items), n);
      var item := TakeHead();
      Process(item);
    }

    /** Callers enqueue items. */
    method Join(arrivals: seq<WorkItem>, ghost items: seq<WorkItem>, ghost before: Records, ghost n: nat, ghost put: nat)
      requires Serving(items, before, n, put)
      requires put + |arrivals| <= |items| && items[put..put + |arrivals|] == arrivals
      modifies this`queue
      ensures Serving(items, before, n, put + |arrivals|)
    {
      queue := queue + arrivals;
      assert items[n..put + |arrivals|] == items[n..put] + items[put..put + |arrivals|];
    }

    /** Between two looks of the worker at the queue: some more items are put, and perhaps the store is stopped. */
    method Meanwhile(later: seq<WorkItem>, put: nat, round: Round,
                     ghost items: seq<WorkItem>, ghost before: Records, ghost n: nat, ghost first: nat)
      returns (upTo: nat)
      requires put <= |later| && first <= |items| && items[first..] == later
      requires Serving(items, before, n, first + put)
      modifies this`queue, this`running
      ensures upTo == Least(put + round.count, |later|)
      ensures Serving(items, before, n, first + upTo)
      ensures running == (old(running) && !round.stop)
    {
      upTo := Least(put + round.count, |later|);
      SliceBehind(items, first, put, upTo);
      Join(later[put..upTo], items, before, n, first + put);
      if round.stop {
        running := false;
      }
    }

    /** One time round the loop, and what happens around it. */
    method Serve(later: seq<WorkItem>, put: nat, round: Round,
                 ghost items: seq<WorkItem>, ghost before: Records, ghost n: nat, ghost first: nat)
      returns (ghost served: nat, upTo: nat)
      requires put <= |later| && first <= |items| && items[first..] == later && Different(items)
      requires Serving(items, before, n, first + put)
      modifies this`queue, this`client, this`running, items
      ensures upTo == Least(put + round.count, |later|)
      ensures served == if n < first + put then n + 1 else n
      ensures Serving(items, before, served, first + upTo)
      ensures running == (old(running) && !round.stop)
    {
      ServeHead(items, before, n, first + put);
      served := if n < first + put then n + 1 else n;
      upTo := Meanwhile(later, put, round, items, before, served, first);
    }

    /**
     The worker, round by round, while callers enqueue `later` items and until the store is
     stopped, at the end of the schedule at the latest. It leaves only with the flag clear and
     the queue empty, having served in order every item put until then, each signalled exactly
     once; an item put later is never touched.
     */
    method Run(later: seq<WorkItem>, schedule: seq<Round>) returns (ghost rounds: nat)
      requires Different(queue + later)
      requires forall item :: item in queue + later ==> item.Fresh()
      modifies this, queue, later
      ensures !running && queue == [] && rounds <= |schedule|
      ensures var put := |old(queue)| + PutBy(schedule, rounds, |later|);
              Serving(old(queue) + later, old(client), put, put)
    {
      ghost var items := queue + later;
      Starts(later);
      SliceBehind(items, |queue|, 0, |later|);
      rounds := Loop(later, schedule, items, client, |queue|);
    }

    method Loop(later: seq<WorkItem>, schedule: seq<Round>,
                ghost items: seq<WorkItem>, ghost before: Records, ghost first: nat)
      returns (ghost rounds: nat)
      requires Different(items) && first <= |items| && items[first..] == later
      requires Serving(items, before, 0, first)
      modifies this`queue, this`client, this`running, items
      ensures !running && queue == [] && rounds <= |schedule|
      ensures var put := first + PutBy(schedule, rounds, |later|); Serving(items, before, put, put)
    {
      ghost var n: nat := 0;
      var next: nat, put: nat := 0, 0;
      while running || queue != []
        invariant next <= |schedule| && put == PutBy(schedule, next, |later|)
        invariant Serving(items, before, n, first + put)
        decreases |schedule| - next, if running then 1 else 0, first + put - n
      {
        var round := if next < |schedule| then schedule[next] else Round(0, true);
        next := if next < |schedule| then next + 1 else next;
        n, put := Serve(later, put, round, items, before, n, first);
      }
      rounds := next;
      AllServed(items, before, n, first + put);
    }
  }

  lemma SliceBehind(items: seq<WorkItem>, first: nat, i: nat, j: nat)
    requires first <= |items| && i <= j <= |items| - first
    ensures items[first + i..first + j] == items[first..][i..j]
  {
  }

  ghost predicate Different(items: seq<WorkItem>) {
    forall i, j :: 0 <= i < j < |items| ==> items[i] != items[j]
  }

  /** What happens around the worker between two looks at the queue: items put, and perhaps the stop. */
  datatype Round = Round(count: nat, stop: bool)

  function Least(a: nat, b: nat): nat {
    if a <= b then a else b
  }

  /** How many of `all` later items have been put after `n` rounds. */
  function PutBy(schedule: seq<Round>, n: nat, all: nat): (put: nat)
    requires n <= |schedule|
    ensures put <= all
  {
    if n == 0 then 0 else Least(PutBy(schedule, n - 1, all) + schedule[n - 1].count, all)
  }

  ghost function Jobs(items: seq<WorkItem>): (js: seq<Job>)
    ensures |js| == |items| && forall i :: 0 <= i < |js| ==> js[i] == items[i].AsJob()
  {
    seq(|items|, i requires 0 <= i < |items| => items[i].AsJob())
  }
}
