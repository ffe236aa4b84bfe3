/** The registry of add-on work in flight. Ending a lease is idempotent, so over any interleaving the
    count of an add-on is the number of its leases begun and not yet ended. */
module RunningWork {
  /** A lease as far as the count is concerned. */
  datatype LeaseState = LeaseState(addonId: string, ended: bool)

  /** The counts, and every lease begun so far, oldest first. */
  datatype Ledger = Ledger(counts: map<string, nat>, leases: seq<LeaseState>)

  datatype Call = Begin(addonId: string) | End(lease: nat)

  function CountIn(counts: map<string, nat>, addonId: string): nat {
    if addonId in counts then counts[addonId] else 0
  }

  function OpenLeases(leases: seq<LeaseState>, addonId: string): nat {
    if leases == [] then 0
    else
      var n := |leases| - 1;
      OpenLeases(leases[..n], addonId) + if leases[n] == LeaseState(addonId, false) then 1 else 0
  }

  /** The count of every add-on is the number of its open leases, and no zero is stored. */
  ghost predicate Conserves(r: Ledger) {
    && (forall id :: CountIn(r.counts, id) == OpenLeases(r.leases, id))
    && (forall id <- r.counts :: r.counts[id] > 0)
  }

  function Begun(r: Ledger, addonId: string): Ledger {
    Ledger(r.counts[addonId := CountIn(r.counts, addonId) + 1], r.leases + [LeaseState(addonId, false)])
  }

  function Lowered(counts: map<string, nat>, addonId: string): map<string, nat> {
    var next := if CountIn(counts, addonId) > 1 then CountIn(counts, addonId) - 1 else 0;
    if next == 0 then counts - {addonId} else counts[addonId := next]
  }

  /** Ending a lease; one that has ended, or was never handed out, changes nothing. */
  function Ended(r: Ledger, k: nat): Ledger {
    if k < |r.leases| && !r.leases[k].ended
    then Ledger(Lowered(r.counts, r.leases[k].addonId), r.leases[k := r.leases[k].(ended := true)])
    else r
  }

  function Apply(r: Ledger, call: Call): Ledger {
    match call
    case Begin(addonId) => Begun(r, addonId)
    case End(k) => Ended(r, k)
  }

  function Run(r: Ledger, calls: seq<Call>): Ledger {
    if calls == [] then r else Apply(Run(r, calls[..|calls| - 1]), calls[|calls| - 1])
  }

  const EMPTY := Ledger(map[], [])

  lemma {:induction false} OpenAfterEnd(leases: seq<LeaseState>, k: nat, addonId: string)
    requires k < |leases| && !leases[k].ended
    ensures OpenLeases(leases, addonId) ==
            OpenLeases(leases[k := leases[k].(ended := true)], addonId) + if leases[k].addonId == addonId then 1 else 0
    decreases |leases|
  {
    var n := |leases| - 1;
    var after := leases[k := leases[k].(ended := true)];
    if k < n {
      OpenAfterEnd(leases[..n], k, addonId);
      assert after[..n] == leases[..n][k := leases[k].(ended := true)];
    } else {
      assert after[..n] == leases[..n];
    }
  }

  lemma ApplyConserves(r: Ledger, call: Call)
    requires Conserves(r)
    ensures Conserves(Apply(r, call))
  {
    match call
    case Begin(addonId) =>
      assert (r.leases + [LeaseState(addonId, false)])[..|r.leases|] == r.leases;
      var next := Begun(r, addonId);
      forall id
        ensures CountIn(next.counts, id) == OpenLeases(next.leases, id)
      {
      }
    case End(k) =>
      if k < |r.leases| && !r.leases[k].ended {
        var next := Ended(r, k);
        forall id
          ensures CountIn(next.counts, id) == OpenLeases(next.leases, id)
        {
          OpenAfterEnd(r.leases, k, id);
          hide OpenLeases;
        }
      }
  }

  /** Lease conservation over every run. */
  lemma {:induction false} RunConserves(calls: seq<Call>)
    ensures Conserves(Run(EMPTY, calls))
    decreases |calls|
  {
    if calls != [] {
      RunConserves(calls[..|calls| - 1]);
      ApplyConserves(Run(EMPTY, calls[..|calls| - 1]), calls[|calls| - 1]);
      hide Conserves, Apply;
    }
  }

  /** A second end of the same lease changes nothing, whatever happened in between. */
  lemma {:induction false} EndIsIdempotent(r: Ledger, k: nat, between: seq<Call>)
    requires k < |r.leases|
    ensures var later := Run(Ended(r, k), between); Ended(later, k) == later
    ensures k < |Run(Ended(r, k), between).leases| && Run(Ended(r, k), between).leases[k].ended
    decreases |between|
  {
    if between != [] {
      EndIsIdempotent(r, k, between[..|between| - 1]);
    }
  }

  /** The calls about one add-on do not touch the count of another. */
  lemma OthersUnaffected(r: Ledger, call: Call, other: string)
    requires Conserves(r)
    requires match call case Begin(addonId) => addonId != other
                        case End(k) => k < |r.leases| ==> r.leases[k].addonId != other
    ensures CountIn(Apply(r, call).counts, other) == CountIn(r.counts, other)
  {
  }

  lemma {:induction false} OpenLeaseCounts(leases: seq<LeaseState>, k: nat)
    requires k < |leases| && !leases[k].ended
    ensures OpenLeases(leases, leases[k].addonId) > 0
    decreases |leases|
  {
    if k < |leases| - 1 {
      OpenLeaseCounts(leases[..|leases| - 1], k);
    }
  }

  lemma {:induction false} LeaseStaysOpen(r: Ledger, calls: seq<Call>, k: nat)
    requires k < |r.leases| && !r.leases[k].ended
    requires End(k) !in calls
    ensures k < |Run(r, calls).leases| && Run(r, calls).leases[k] == r.leases[k]
    decreases |calls|
  {
    if calls != [] {
      LeaseStaysOpen(r, calls[..|calls| - 1], k);
    }
  }

  /** As long as the work begun under a lease has not ended it, its add-on has work in flight - so a request
      to stop is refused - however the calls of other work interleave. */
  lemma RunningWorkIsSeen(before: seq<Call>, addonId: string, between: seq<Call>)
    requires var k := |Run(EMPTY, before).leases|; End(k) !in between
    ensures CountIn(Run(Begun(Run(EMPTY, before), addonId), between).counts, addonId) > 0
  {
    var r := Run(EMPTY, before);
    var begun := Begun(r, addonId);
    var k := |r.leases|;
    LeaseStaysOpen(begun, between, k);
    OpenLeaseCounts(Run(begun, between).leases, k);
    var calls := before + [Begin(addonId)] + between;
    RunSplits(EMPTY, before + [Begin(addonId)], between);
    assert (before + [Begin(addonId)])[..|before|] == before;
    RunConserves(calls);
    hide Run, OpenLeases, Begun;
  }

  lemma {:induction false} RunSplits(r: Ledger, first: seq<Call>, second: seq<Call>)
    ensures Run(r, first + second) == Run(Run(r, first), second)
    decreases |second|
  {
    if second == [] {
      assert first + second == first;
    } else {
      var n := |second| - 1;
      RunSplits(r, first, second[..n]);
      assert (first + second)[..|first + second| - 1] == first + second[..n];
    }
  }

  // ----- the registry itself -----

  /** What `begin` returns: the closure's own add-on id and its `ended` flag. */
  class Lease {
    const addonId: string
    var ended: bool

    constructor (addonId: string)
      ensures this.addonId == addonId && !ended
    {
      this.addonId := addonId;
      ended := false;
    }
  }

  class AddonWorkRegistry {
    var counts: map<string, nat>
    ghost var leases: seq<Lease>

    ghost function Log(): seq<LeaseState>
      reads this, leases
    {
      seq(|leases|, i requires 0 <= i < |leases| reads this, leases => LeaseState(leases[i].addonId, leases[i].ended))
    }

    ghost function State(): Ledger
      reads this, leases
    {
      Ledger(counts, Log())
    }

    ghost predicate Valid()
      reads this, leases
    {
      && Conserves(State())
      && forall i: nat, j: nat :: i < j < |leases| ==> leases[i] != leases[j]
    }

    constructor ()
      ensures Valid() && State() == EMPTY && leases == []
    {
      counts := map[];
      leases := [];
    }

    /** `begin`. */
    method BeginWork(addonId: string) returns (lease: Lease)
      requires Valid()
      modifies this
      ensures Valid() && fresh(lease) && lease.addonId == addonId && !lease.ended
      ensures leases == old(leases) + [lease]
      ensures State() == Begun(old(State()), addonId)
    {
      counts := counts[addonId := (if addonId in counts then counts[addonId] else 0) + 1];
      lease := new Lease(addonId);
      leases := leases + [lease];
      assert State() == Begun(old(State()), addonId);
      ApplyConserves(old(State()), Begin(addonId));
      hide Conserves;
    }

    /** The closure returned by `begin`; `k` is the lease's place in the order of begins. */
    method EndWork(lease: Lease) returns (ghost k: nat)
      requires Valid() && lease in leases
      modifies this, lease
      ensures Valid() && leases == old(leases) && lease.ended
      ensures k < |leases| && leases[k] == lease
      ensures State() == Ended(old(State()), k)
    {
      k :| k < |leases| && leases[k] == lease;
      if lease.ended {
        return;
      }
      lease.ended := true;
      var id := lease.addonId;
      var current: int := if id in counts then counts[id] else 0;
      var next := if current - 1 > 0 then current - 1 else 0;
      if next == 0 {
        counts := counts - {id};
      } else {
        counts := counts[id := next];
      }
      assert State().leases == old(State()).leases[k := LeaseState(id, true)];
      ApplyConserves(old(State()), End(k));
      hide Conserves;
    }

    method InFlight(addonId: string) returns (n: nat)
      requires Valid()
      ensures n == OpenLeases(Log(), addonId)
    {
      n := if addonId in counts then counts[addonId] else 0;
      assert n == CountIn(State().counts, addonId);
    }

    /** `stopRunningWork`: refused, with an explanation, exactly while a lease is open. */
    method StopRunningWork(addonId: string) returns (stopped: bool, explained: bool)
      requires Valid()
      ensures stopped <==> forall k: nat :: k < |leases| && leases[k].addonId == addonId ==> leases[k].ended
      ensures explained == !stopped
    {
      var n := InFlight(addonId);
      stopped := !(n > 0);
      explained := n > 0;
      NoneOpen(Log(), addonId);
      assert forall k: nat :: k < |leases| ==> Log()[k] == LeaseState(leases[k].addonId, leases[k].ended);
      hide OpenLeases, Conserves;
    }
  }

  lemma {:induction false} NoneOpen(leases: seq<LeaseState>, addonId: string)
    ensures OpenLeases(leases, addonId) == 0 <==>
            forall k: nat :: k < |leases| && leases[k].addonId == addonId ==> leases[k].ended
    decreases |leases|
  {
    if leases != [] {
      var n := |leases| - 1;
      NoneOpen(leases[..n], addonId);
      assert forall k: nat :: k < n ==> leases[..n][k] == leases[k];
    }
  }
}
