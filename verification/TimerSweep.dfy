/**
 `cancel_transaction_timers`: two tables of transactions, each with up to seven timer slots,
 on a heap where slots and tables may share timers and transactions.
 */
module TimerSweep {
  import opened Timers

  const TIMER_NAMES: seq<string> := ["teA", "teB", "teC", "teD", "teE", "teF", "teG"]

  /** The timers a transaction may own, by the roles of its retransmissions and waits. */
  ghost predicate IsTimerName(name: string) {
    || name == "teA" || name == "teB" || name == "teC" || name == "teD"
    || name == "teE" || name == "teF" || name == "teG"
  }

  /** The sweep visits all of them. */
  lemma NamesAreListed(name: string)
    ensures IsTimerName(name) <==> name in TIMER_NAMES
  {
    assert TIMER_NAMES[0] == "teA" && TIMER_NAMES[1] == "teB" && TIMER_NAMES[2] == "teC" && TIMER_NAMES[3] == "teD";
    assert TIMER_NAMES[4] == "teE" && TIMER_NAMES[5] == "teF" && TIMER_NAMES[6] == "teG";
  }

  class Transaction {
    /** The attributes that refer to a timer; one that is missing or `None` is absent. */
    var slots: map<string, Timer>

    ghost function Timers(): set<Timer>
      reads this
    {
      set name | name in slots && IsTimerName(name) :: slots[name]
    }

    constructor (slots: map<string, Timer>)
      ensures this.slots == slots
    {
      this.slots := slots;
    }
  }

  /** The timers the two tables own. */
  ghost function Owned(transactions: seq<Transaction>): (timers: set<Timer>)
    reads transactions
    ensures forall i :: 0 <= i < |transactions| ==> transactions[i].Timers() <= timers
    ensures forall t :: t in timers ==> exists i :: 0 <= i < |transactions| && t in transactions[i].Timers()
  {
    set i, t | 0 <= i < |transactions| && t in transactions[i].Timers() :: t
  }

  ghost function Armed(timers: set<Timer>): set<Timer>
    reads timers
  {
    set t | t in timers && t.armed
  }

  /** The heap as the sweep finds it. */
  datatype Before = Before(counts: map<Timer, nat>, armed: set<Timer>, slots: map<Transaction, map<string, Timer>>)

  /** Exactly the timers of `killed` have been cancelled since, each once; the others are as they were. */
  ghost predicate Cancelled(g: Before, killed: set<Timer>)
    reads g.counts.Keys
  {
    && killed <= g.armed <= g.counts.Keys
    && forall t :: t in g.counts ==>
         && t.armed == (t in g.armed && t !in killed)
         && t.cancels == g.counts[t] + if t in killed then 1 else 0
  }

  type Slots = map<Transaction, map<string, Timer>>

  datatype Slot = Slot(tr: Transaction, name: string)

  /** The slots as they are now. */
  ghost function Now(g: Before): Slots
    reads g.slots.Keys
  {
    map tr | tr in g.slots :: tr.slots
  }

  /** The slot held a timer and is empty now. */
  ghost predicate Emptied(g: Before, now: Slots, tr: Transaction, name: string) {
    tr in g.slots && tr in now && name in g.slots[tr] && name !in now[tr]
  }

  /** A slot that is not empty holds what it held. */
  ghost predicate Kept(g: Before, now: Slots) {
    && now.Keys == g.slots.Keys
    && forall tr, name :: tr in now && name in now[tr] ==> name in g.slots[tr] && now[tr][name] == g.slots[tr][name]
  }

  /** The emptied slots are those `freed` names, each for the timer it gave up. */
  ghost predicate GivenUp(g: Before, now: Slots, freed: map<Timer, Slot>) {
    && (forall tr, name :: tr in g.slots && Emptied(g, now, tr, name) ==>
          name in TIMER_NAMES && g.slots[tr][name] in freed && freed[g.slots[tr][name]] == Slot(tr, name))
    && forall t :: t in freed ==>
         Emptied(g, now, freed[t].tr, freed[t].name) && g.slots[freed[t].tr][freed[t].name] == t
  }

  /**
   A slot still holds its timer, or gave up one that was cancelled; each cancelled timer was
   given up by exactly one slot, the one `freed` names, and nothing else changed.
   */
  ghost predicate SlotsCleared(g: Before, freed: map<Timer, Slot>)
    reads g.slots.Keys
  {
    Kept(g, Now(g)) && GivenUp(g, Now(g), freed)
  }

  lemma OneMoreGivenUp(g: Before, now: Slots, freed: map<Timer, Slot>, slot: Slot)
    requires Kept(g, now) && GivenUp(g, now, freed)
    requires slot.tr in now && slot.name in now[slot.tr] && slot.name in TIMER_NAMES
    requires now[slot.tr][slot.name] !in freed
    ensures var later := now[slot.tr := now[slot.tr] - {slot.name}];
            Kept(g, later) && GivenUp(g, later, freed[now[slot.tr][slot.name] := slot])
  {
    var later := now[slot.tr := now[slot.tr] - {slot.name}];
    forall tr, name | tr in g.slots && Emptied(g, later, tr, name)
      ensures Slot(tr, name) == slot || Emptied(g, now, tr, name)
    {
    }
    forall t | t in freed ensures Emptied(g, later, freed[t].tr, freed[t].name) {
      assert Emptied(g, now, freed[t].tr, freed[t].name);
    }
  }

  /** Every timer a transaction owned is dead once `killed` are. */
  ghost predicate Swept(g: Before, tr: Transaction, killed: set<Timer>) {
    tr in g.slots
    && forall name :: name in TIMER_NAMES && name in g.slots[tr] && g.slots[tr][name] in g.armed ==>
         g.slots[tr][name] in killed
  }

  /** The sweep only meets transactions and timers it knows. */
  ghost predicate Known(g: Before) {
    forall tr, name :: tr in g.slots && name in TIMER_NAMES && name in g.slots[tr] ==> g.slots[tr][name] in g.counts
  }

  /** And every armed timer it knows is in a slot. */
  ghost predicate Covered(g: Before) {
    forall t :: t in g.armed ==> exists tr, name :: tr in g.slots && name in TIMER_NAMES && Holds(g, tr, name, t)
  }

  ghost predicate Holds(g: Before, tr: Transaction, name: string, t: Timer) {
    tr in g.slots && name in g.slots[tr] && g.slots[tr][name] == t
  }

  /** The timer of one slot is dead once `killed` are. */
  ghost predicate SlotSwept(g: Before, tr: Transaction, name: string, killed: set<Timer>) {
    tr in g.slots && (name in g.slots[tr] && g.slots[tr][name] in g.armed ==> g.slots[tr][name] in killed)
  }

  /** So are the first `n` of its slots. */
  ghost predicate SlotsSwept(g: Before, tr: Transaction, n: nat, killed: set<Timer>)
    requires n <= |TIMER_NAMES|
  {
    forall i :: 0 <= i < n ==> SlotSwept(g, tr, TIMER_NAMES[i], killed)
  }

  lemma OneMoreSlot(g: Before, tr: Transaction, n: nat, killed: set<Timer>, more: set<Timer>)
    requires n < |TIMER_NAMES| && SlotsSwept(g, tr, n, killed) && killed <= more
    requires SlotSwept(g, tr, TIMER_NAMES[n], more)
    ensures SlotsSwept(g, tr, n + 1, more)
  {
    forall i | 0 <= i < n + 1 ensures SlotSwept(g, tr, TIMER_NAMES[i], more) {
      assert i < n ==> SlotSwept(g, tr, TIMER_NAMES[i], killed);
    }
  }

  lemma AllSlotsSwept(g: Before, tr: Transaction, killed: set<Timer>)
    requires tr in g.slots && SlotsSwept(g, tr, |TIMER_NAMES|, killed)
    ensures Swept(g, tr, killed)
  {
    forall name | name in TIMER_NAMES && name in g.slots[tr] && g.slots[tr][name] in g.armed
      ensures g.slots[tr][name] in killed
    {
      assert SlotSwept(g, tr, name, killed);
    }
  }

  /** The first `n` transactions of a table are swept. */
  ghost predicate TableSwept(g: Before, table: seq<Transaction>, n: nat, killed: set<Timer>)
    requires n <= |table|
  {
    forall i :: 0 <= i < n ==> Swept(g, table[i], killed)
  }

  lemma OneMoreTransaction(g: Before, table: seq<Transaction>, n: nat, killed: set<Timer>, more: set<Timer>)
    requires n < |table| && TableSwept(g, table, n, killed) && killed <= more && Swept(g, table[n], more)
    ensures TableSwept(g, table, n + 1, more)
  {
    forall i | 0 <= i < n + 1 ensures Swept(g, table[i], more) {
      assert i < n ==> Swept(g, table[i], killed);
    }
  }

  method SweepSlot(tr: Transaction, name: string, ghost g: Before, ghost already: map<Timer, Slot>)
    returns (hit: bool, ghost freed: map<Timer, Slot>)
    requires name in TIMER_NAMES
    requires Known(g) && tr in g.slots && Cancelled(g, already.Keys) && SlotsCleared(g, already)
    modifies tr, g.counts.Keys
    ensures Cancelled(g, freed.Keys) && SlotsCleared(g, freed) && SlotSwept(g, tr, name, freed.Keys)
    ensures already.Keys <= freed.Keys && |freed| == |already| + if hit then 1 else 0
    ensures hit ==> name !in tr.slots
  {
    if name !in tr.slots || !tr.slots[name].armed {
      DeadSlot(tr, name, g, already);
      return false, already;
    }
    HeldIsKnown(tr, name, g, already);
    freed := CancelSlot(tr, name, g, already);
    hit := true;
  }

  /** Cancel the slot's timer and empty the slot. */
  method CancelSlot(tr: Transaction, name: string, ghost g: Before, ghost already: map<Timer, Slot>)
    returns (ghost freed: map<Timer, Slot>)
    requires name in TIMER_NAMES && name in tr.slots && tr.slots[name].armed
    requires Known(g) && tr in g.slots && Cancelled(g, already.Keys) && SlotsCleared(g, already)
    modifies tr, tr.slots[name]
    ensures tr.slots == old(tr.slots) - {name}
    ensures old(tr.slots[name]) !in already && freed == already[old(tr.slots[name]) := Slot(tr, name)]
    ensures g.slots[tr].Keys >= {name} && g.slots[tr][name] == old(tr.slots[name])
    ensures Cancelled(g, freed.Keys) && SlotsCleared(g, freed)
  {
    var timer := tr.slots[name];
    HeldIsKnown(tr, name, g, already);
    Kill(timer, g, already.Keys);
    GiveUp(tr, name, g, already);
    freed := already[timer := Slot(tr, name)];
    assert freed.Keys == already.Keys + {timer};
  }

  lemma HeldIsKnown(tr: Transaction, name: string, g: Before, already: map<Timer, Slot>)
    requires Known(g) && tr in g.slots && SlotsCleared(g, already) && name in TIMER_NAMES && name in tr.slots
    ensures name in g.slots[tr] && g.slots[tr][name] == tr.slots[name] && tr.slots[name] in g.counts
  {
    assert name in Now(g)[tr];
  }

  lemma DeadSlot(tr: Transaction, name: string, g: Before, already: map<Timer, Slot>)
    requires Known(g) && tr in g.slots && Cancelled(g, already.Keys) && SlotsCleared(g, already)
    requires name in TIMER_NAMES && (name !in tr.slots || !tr.slots[name].armed)
    ensures SlotSwept(g, tr, name, already.Keys)
  {
    if name in g.slots[tr] && name !in tr.slots {
      assert Emptied(g, Now(g), tr, name);
    }
  }

  method Kill(timer: Timer, ghost g: Before, ghost already: set<Timer>)
    requires timer in g.counts && timer.armed && Cancelled(g, already)
    modifies timer
    ensures timer !in already && Cancelled(g, already + {timer})
  {
    timer.Cancel();
  }

  /** The slot lets go of its timer; every other slot keeps what it has. */
  method GiveUp(tr: Transaction, name: string, ghost g: Before, ghost already: map<Timer, Slot>)
    requires name in TIMER_NAMES && tr in g.slots && SlotsCleared(g, already)
    requires name in tr.slots && tr.slots[name] !in already
    modifies tr
    ensures tr.slots == old(tr.slots) - {name}
    ensures SlotsCleared(g, already[old(tr.slots[name]) := Slot(tr, name)])
  {
    OneMoreGivenUp(g, Now(g), already, Slot(tr, name));
    tr.slots := tr.slots - {name};
    assert Now(g) == old(Now(g))[tr := old(tr.slots) - {name}];
  }

  /** One transaction, slot by slot. */
  method SweepTransaction(tr: Transaction, ghost g: Before, ghost already: map<Timer, Slot>)
    returns (cancelled: nat, ghost freed: map<Timer, Slot>)
    requires Known(g) && tr in g.slots && Cancelled(g, already.Keys) && SlotsCleared(g, already)
    modifies tr, g.counts.Keys
    ensures Cancelled(g, freed.Keys) && SlotsCleared(g, freed) && Swept(g, tr, freed.Keys)
    ensures already.Keys <= freed.Keys && cancelled == |freed| - |already|
  {
    cancelled, freed := 0, already;
    for i := 0 to |TIMER_NAMES|
      invariant Cancelled(g, freed.Keys) && SlotsCleared(g, freed)
      invariant already.Keys <= freed.Keys && cancelled == |freed| - |already|
      invariant SlotsSwept(g, tr, i, freed.Keys)
    {
      var hit;
      ghost var before := freed;
      hit, freed := SweepSlot(tr, TIMER_NAMES[i], g, freed);
      OneMoreSlot(g, tr, i, before.Keys, freed.Keys);
      if hit {
        cancelled := cancelled + 1;
      }
    }
    AllSlotsSwept(g, tr, freed.Keys);
  }

  /** One table, transaction by transaction. */
  method SweepTable(table: seq<Transaction>, ghost g: Before, ghost already: map<Timer, Slot>)
    returns (cancelled: nat, ghost freed: map<Timer, Slot>)
    requires Known(g) && (forall tr :: tr in table ==> tr in g.slots)
    requires Cancelled(g, already.Keys) && SlotsCleared(g, already)
    modifies table, g.counts.Keys
    ensures Cancelled(g, freed.Keys) && SlotsCleared(g, freed)
    ensures forall tr :: tr in table ==> Swept(g, tr, freed.Keys)
    ensures already.Keys <= freed.Keys && cancelled == |freed| - |already|
  {
    cancelled, freed := 0, already;
    for n := 0 to |table|
      invariant Cancelled(g, freed.Keys) && SlotsCleared(g, freed)
      invariant TableSwept(g, table, n, freed.Keys)
      invariant already.Keys <= freed.Keys && cancelled == |freed| - |already|
    {
      var more;
      ghost var before := freed;
      more, freed := SweepTransaction(table[n], g, freed);
      cancelled := cancelled + more;
      OneMoreTransaction(g, table, n, before.Keys, freed.Keys);
    }
  }

  /** Once every transaction is swept nothing armed is left, in their slots or anywhere they pointed. */
  lemma AllDead(transactions: seq<Transaction>, g: Before, freed: map<Timer, Slot>)
    requires Known(g) && Covered(g) && Cancelled(g, freed.Keys) && SlotsCleared(g, freed)
    requires forall tr :: tr in g.slots ==> Swept(g, tr, freed.Keys)
    requires forall tr :: tr in transactions ==> tr in g.slots
    ensures freed.Keys == g.armed && Armed(Owned(transactions)) == {}
  {
    forall t | t in g.armed ensures t in freed {
      var tr, name :| tr in g.slots && name in TIMER_NAMES && Holds(g, tr, name, t);
      assert Swept(g, tr, freed.Keys);
    }
    forall t | t in Owned(transactions) ensures !t.armed {
      var i :| 0 <= i < |transactions| && t in transactions[i].Timers();
      var tr := transactions[i];
      assert tr in g.slots;
      var name :| name in tr.slots && IsTimerName(name) && tr.slots[name] == t;
      NamesAreListed(name);
      assert t == g.slots[tr][name] && t in g.counts;
    }
  }

  /** A sweep hands no timer to anyone. */
  lemma OwnedShrinks(transactions: seq<Transaction>, g: Before, freed: map<Timer, Slot>)
    requires Known(g) && SlotsCleared(g, freed) && forall tr :: tr in transactions ==> tr in g.slots
    ensures Owned(transactions) <= g.counts.Keys
  {
    forall t | t in Owned(transactions) ensures t in g.counts {
      var i :| 0 <= i < |transactions| && t in transactions[i].Timers();
      var tr := transactions[i];
      assert tr in g.slots;
      var name :| name in tr.slots && IsTimerName(name) && tr.slots[name] == t;
      NamesAreListed(name);
      assert t == g.slots[tr][name];
    }
  }

  ghost function Snapshot(transactions: seq<Transaction>): Before
    reads transactions, Owned(transactions)
  {
    Before(map t | t in Owned(transactions) :: t.cancels,
           Armed(Owned(transactions)),
           map tr | tr in transactions :: tr.slots)
  }

  lemma SnapshotIsNow(transactions: seq<Transaction>)
    ensures var g := Snapshot(transactions); Known(g) && Cancelled(g, {}) && SlotsCleared(g, map[])
  {
    var g := Snapshot(transactions);
    forall tr, name | tr in g.slots && name in TIMER_NAMES && name in g.slots[tr]
      ensures g.slots[tr][name] in g.counts
    {
      var i :| 0 <= i < |transactions| && transactions[i] == tr;
      NamesAreListed(name);
      assert g.slots[tr][name] in transactions[i].Timers();
    }
  }

  lemma SnapshotCovers(transactions: seq<Transaction>)
    ensures Covered(Snapshot(transactions))
  {
    var g := Snapshot(transactions);
    forall t | t in g.armed
      ensures exists tr, name :: tr in g.slots && name in TIMER_NAMES && Holds(g, tr, name, t)
    {
      var i :| 0 <= i < |transactions| && t in transactions[i].Timers();
      var name :| name in transactions[i].slots && IsTimerName(name) && transactions[i].slots[name] == t;
      NamesAreListed(name);
      assert transactions[i] in g.slots && Holds(g, transactions[i], name, t);
    }
  }

  /**
   Cancel every timer the transactions still own. Afterwards every slot is empty or holds a
   dead timer, each timer that was armed was cancelled exactly once however many slots and
   tables shared it, no other timer was touched, and the answer is how many there were.
   */
  method CancelTransactionTimers(tclient: seq<Transaction>, tserver: seq<Transaction>)
    returns (cancelled: nat, ghost freed: map<Timer, Slot>)
    modifies tclient, tserver, Owned(tclient + tserver)
    ensures Armed(Owned(tclient + tserver)) == {}
    ensures cancelled == |old(Armed(Owned(tclient + tserver)))|
    ensures Cancelled(old(Snapshot(tclient + tserver)), old(Armed(Owned(tclient + tserver))))
    ensures freed.Keys == old(Armed(Owned(tclient + tserver)))
    ensures SlotsCleared(old(Snapshot(tclient + tserver)), freed)
    ensures Owned(tclient + tserver) <= old(Owned(tclient + tserver))
  {
    ghost var all := tclient + tserver;
    ghost var g := Snapshot(all);
    SnapshotIsNow(all);
    SnapshotCovers(all);
    cancelled, freed := SweepTable(tclient, g, map[]);
    var more;
    more, freed := SweepTable(tserver, g, freed);
    cancelled := cancelled + more;
    AllDead(all, g, freed);
    OwnedShrinks(all, g, freed);
  }

  /** A second sweep finds nothing to cancel. */
  method SweepTwice(tclient: seq<Transaction>, tserver: seq<Transaction>) returns (first: nat, second: nat)
    modifies tclient, tserver, Owned(tclient + tserver)
    ensures first == |old(Armed(Owned(tclient + tserver)))| && second == 0
  {
    ghost var freed;
    first, freed := CancelTransactionTimers(tclient, tserver);
    second, freed := CancelTransactionTimers(tclient, tserver);
  }
}
