/**
 The counters of `observability/metrics.py` the call controller writes. `Counters` is the
 value of a registry; `MetricsRegistry` is the object, updated in place.
 */
module Metrics {

  datatype Disposition = Completed | Failed | Rejected | NoMatch | Abandoned

  datatype PeerStatus = Unknown | Reachable | Unreachable | Degraded

  datatype StatusWrite = StatusWrite(peer: string, status: PeerStatus)

  datatype Counters = Counters(
    callsTotal: nat,
    byDisposition: map<Disposition, nat>,
    errors: map<string, nat>,
    peerStatus: map<string, PeerStatus>)

  const ZERO := Counters(0, map[], map[], map[])

  /** `Counter.__getitem__`: an absent key counts zero. */
  function Count<K>(counter: map<K, nat>, k: K): nat {
    if k in counter then counter[k] else 0
  }

  function Bump<K>(counter: map<K, nat>, k: K): map<K, nat> {
    counter[k := Count(counter, k) + 1]
  }

  /** The counter after every disposition of `ds`, in order. */
  function CountAll(counter: map<Disposition, nat>, ds: seq<Disposition>): map<Disposition, nat> {
    if ds == [] then counter else Bump(CountAll(counter, ds[..|ds| - 1]), ds[|ds| - 1])
  }

  /** The peer table after every write of `ws`, in order: the last write of a key wins. */
  function WriteAll(table: map<string, PeerStatus>, ws: seq<StatusWrite>): map<string, PeerStatus> {
    if ws == [] then table
    else WriteAll(table, ws[..|ws| - 1])[ws[|ws| - 1].peer := ws[|ws| - 1].status]
  }

  /** Every call outcome the registry has counted. */
  function Outcomes(counter: map<Disposition, nat>): nat {
    Count(counter, Completed) + Count(counter, Failed) + Count(counter, Rejected)
    + Count(counter, NoMatch) + Count(counter, Abandoned)
  }

  lemma {:induction false} CountAllAppend(counter: map<Disposition, nat>, a: seq<Disposition>, b: seq<Disposition>)
    ensures CountAll(counter, a + b) == CountAll(CountAll(counter, a), b)
  {
    if b == [] {
      assert a + b == a;
    } else {
      CountAllAppend(counter, a, b[..|b| - 1]);
      assert (a + b)[..|a + b| - 1] == a + b[..|b| - 1];
    }
  }

  lemma {:induction false} WriteAllAppend(table: map<string, PeerStatus>, a: seq<StatusWrite>, b: seq<StatusWrite>)
    ensures WriteAll(table, a + b) == WriteAll(WriteAll(table, a), b)
  {
    if b == [] {
      assert a + b == a;
    } else {
      WriteAllAppend(table, a, b[..|b| - 1]);
      assert (a + b)[..|a + b| - 1] == a + b[..|b| - 1];
    }
  }

  /** A peer shows the status written for it last, and what it showed before if none was. */
  lemma {:induction false} LastWriteWins(table: map<string, PeerStatus>, ws: seq<StatusWrite>, k: string)
    ensures k in WriteAll(table, ws) <==> k in table || exists i :: 0 <= i < |ws| && ws[i].peer == k
    ensures forall i :: 0 <= i < |ws| && ws[i].peer == k && (forall j :: i < j < |ws| ==> ws[j].peer != k) ==>
              k in WriteAll(table, ws) && WriteAll(table, ws)[k] == ws[i].status
    ensures k in table && (forall i :: 0 <= i < |ws| ==> ws[i].peer != k) ==>
              k in WriteAll(table, ws) && WriteAll(table, ws)[k] == table[k]
  {
    if ws != [] {
      var last := |ws| - 1;
      LastWriteWins(table, ws[..last], k);
      assert forall i :: 0 <= i < last ==> ws[..last][i] == ws[i];
    }
  }

  /** Every count grows by the number of times its outcome was recorded. */
  lemma {:induction false} CountAllTally(counter: map<Disposition, nat>, ds: seq<Disposition>, d: Disposition)
    ensures Count(CountAll(counter, ds), d) == Count(counter, d) + multiset(ds)[d]
  {
    if ds != [] {
      CountAllTally(counter, ds[..|ds| - 1], d);
      assert ds == ds[..|ds| - 1] + [ds[|ds| - 1]];
    }
  }

  /** No outcome is lost or counted twice: the counts add up to the number recorded. */
  lemma {:induction false} OutcomesAreCounted(counter: map<Disposition, nat>, ds: seq<Disposition>)
    ensures Outcomes(CountAll(counter, ds)) == Outcomes(counter) + |ds|
  {
    if ds != [] {
      OutcomesAreCounted(counter, ds[..|ds| - 1]);
      match ds[|ds| - 1] {
        case Completed =>
        case Failed =>
        case Rejected =>
        case NoMatch =>
        case Abandoned =>
      }
    }
  }

  class MetricsRegistry {
    var callsTotal: nat
    var byDisposition: map<Disposition, nat>
    var errors: map<string, nat>
    var peerStatus: map<string, PeerStatus>

    ghost function Value(): Counters
      reads this
    {
      Counters(callsTotal, byDisposition, errors, peerStatus)
    }

    constructor ()
      ensures Value() == ZERO
    {
      callsTotal, byDisposition, errors, peerStatus := 0, map[], map[], map[];
    }

    method RecordCallStarted()
      modifies this
      ensures Value() == old(Value()).(callsTotal := old(callsTotal) + 1)
    {
      callsTotal := callsTotal + 1;
    }

    method RecordCallDisposition(d: Disposition)
      modifies this
      ensures Value() == old(Value()).(byDisposition := CountAll(old(byDisposition), [d]))
    {
      byDisposition := Bump(byDisposition, d);
      assert [d][..0] == [];
    }

    method RecordError(code: string)
      modifies this
      ensures Value() == old(Value()).(errors := Bump(old(errors), code))
    {
      errors := Bump(errors, code);
    }

    method SetPeerStatus(peer: string, status: PeerStatus)
      modifies this
      ensures Value() == old(Value()).(peerStatus := WriteAll(old(peerStatus), [StatusWrite(peer, status)]))
    {
      peerStatus := peerStatus[peer := status];
      assert [StatusWrite(peer, status)][..0] == [];
    }
  }
}
