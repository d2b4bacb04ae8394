/**
 The embedded engine's stand-in for Dgraph Zero: it hands out UIDs, timestamps and namespace IDs from
 leased ranges, and persists the upper ends so that nothing is handed out twice across restarts.
 Numbers are 64-bit unsigned and additions wrap around.
 */
module Zero {
  import opened Basics

  const TWO64: nat := 0x1_0000_0000_0000_0000
  const INITIAL_UID: nat := 2
  const INITIAL_TS: nat := 3
  const LEASE: nat := 10000

  function Add(a: nat, b: nat): (r: nat)
    ensures r < TWO64
    ensures a + b < TWO64 ==> r == a + b
  {
    (a + b) % TWO64
  }

  /** The persisted record: upper ends of both leases and the last namespace. */
  datatype Record = Record(maxUid: nat, maxTs: nat, maxNs: nat)

  datatype State = State(minUid: nat, maxUid: nat, minTs: nat, maxTs: nat, lastNs: nat)

  function Persisted(z: State): Record {
    Record(z.maxUid, z.maxTs, z.lastNs)
  }

  // ---------------------------------------------------------------- operations on values

  /** leaseUIDs and leaseTs do nothing while a full quota is left. */
  predicate Short(min: nat, max: nat) {
    Add(min, LEASE) > max
  }

  /** The upper end after leaseUIDs or leaseTs. */
  function Extended(min: nat, max: nat): nat {
    if Short(min, max) then Add(max, Add(min, LEASE)) else max
  }

  datatype Range = Range(start: nat, end: nat)

  datatype Response = Opened | Timestamp(ts: nat) | Uids(range: Range) | Namespace(ns: nat)

  /** What an operation does: the new state, the records it writes in order, and its answer. */
  datatype Effect = Effect(z: State, writes: seq<Record>, response: Response)

  datatype Op = NextTs | NextUids(val: nat, bump: bool) | NextNamespace

  /** The leases newZero starts from. */
  function Loaded(disk: Option<Record>): State {
    match disk
    case None => State(INITIAL_UID, INITIAL_UID, INITIAL_TS, INITIAL_TS, 0)
    case Some(r) => State(r.maxUid, r.maxUid, r.maxTs, r.maxTs, r.maxNs)
  }

  /** leaseUIDs: the new state and the records it writes. */
  function LeasedUids(z: State): (State, seq<Record>) {
    var z1 := z.(maxUid := Extended(z.minUid, z.maxUid));
    (z1, if Short(z.minUid, z.maxUid) then [Persisted(z1)] else [])
  }

  /** leaseTs */
  function LeasedTs(z: State): (State, seq<Record>) {
    var z1 := z.(maxTs := Extended(z.minTs, z.maxTs));
    (z1, if Short(z.minTs, z.maxTs) then [Persisted(z1)] else [])
  }

  /** The loop of nextUIDs is left when some UID is free; it is, if one is or the quota does not wrap around. */
  predicate LoopEnds(z: State) {
    z.minUid < z.maxUid || z.minUid + LEASE < TWO64
  }

  /** That loop, leasing until some UID is free: the new state and all records written. Where it never ends, nothing. */
  function Leasing(z: State): (r: (State, seq<Record>))
    ensures r.0 == z.(maxUid := r.0.maxUid) && (LoopEnds(z) ==> r.0.minUid < r.0.maxUid)
    decreases if z.minUid < z.maxUid then 0 else z.maxUid + 1
  {
    if z.minUid < z.maxUid || !LoopEnds(z) then (z, []) else
      LeaseOfUsedUp(z.minUid, z.maxUid);
      var (z1, w1) := LeasedUids(z);
      var (z2, w2) := Leasing(z1);
      (z2, w1 + w2)
  }

  /** A lease of a used-up range leaves some UID free, or its sum wraps around and the end falls. */
  lemma LeaseOfUsedUp(min: nat, max: nat)
    requires max <= min && min + LEASE < TWO64
    ensures Short(min, max)
    ensures Extended(min, max) == if max + min + LEASE < TWO64 then max + min + LEASE else max + min + LEASE - TWO64
  {
    if max + min + LEASE >= TWO64 {
      assert Add(max, min + LEASE) == max + min + LEASE - TWO64;
    }
  }

  /** newZero */
  function Open(disk: Option<Record>): Effect {
    var (z1, w1) := LeasedUids(Loaded(disk));
    var (z2, w2) := LeasedTs(z1);
    Effect(z2, w1 + w2, Opened)
  }

  /** The range handed out and the next free UID. */
  function Reserve(min: nat, val: nat, bump: bool): (Range, nat) {
    if bump then
      if min >= val then (Range(min, min), Add(min, 1)) else (Range(min, val), Add(val, 1))
    else (Range(min, Add(Add(min, val), TWO64 - 1)), Add(min, val))
  }

  /** nextTs, nextUIDs and nextNamespace. */
  function Exec(z: State, op: Op): Effect {
    match op
    case NextTs =>
      var (z1, w) := if z.minTs >= z.maxTs then LeasedTs(z) else (z, []);
      Effect(z1.(minTs := Add(z1.minTs, 1)), w, Timestamp(z1.minTs))
    case NextUids(val, bump) =>
      var (range, min) := Reserve(z.minUid, val, bump);
      var (z1, w) := Leasing(z.(minUid := min));
      Effect(z1, w, Uids(range))
    case NextNamespace =>
      var z1 := z.(lastNs := Add(z.lastNs, 1));
      Effect(z1, [Persisted(z1)], Namespace(z1.lastNs))
  }

  /** Nothing the call adds up reaches 64 bits. */
  predicate UidsFit(z: State, val: nat, bump: bool) {
    var min := if bump then (if z.minUid >= val then z.minUid + 1 else val + 1) else z.minUid + val;
    min + z.maxUid + LEASE < TWO64
  }

  // ---------------------------------------------------------------- lease arithmetic

  /** A lease leaves a full quota ahead of min exactly when its sum does not wrap around. */
  lemma LeaseCoversIff(min: nat, max: nat)
    requires max < TWO64 && min + LEASE < TWO64
    ensures min + LEASE <= Extended(min, max) <==> (min + LEASE > max ==> max + min + LEASE < TWO64)
  {
    if min + LEASE > max && max + min + LEASE >= TWO64 {
      assert Add(max, min + LEASE) == max + min + LEASE - TWO64;
    }
  }

  /** Taken when the range is used up, as everywhere in this file, a lease at most doubles. */
  lemma LeaseAtMostDoubles(min: nat, max: nat)
    requires max <= min && max + min + LEASE < TWO64
    ensures min + LEASE <= Extended(min, max) <= 2 * min + LEASE
  {
  }

  // ---------------------------------------------------------------- the loop of nextUIDs

  /** After k rounds. */
  function AfterLeases(z: State, k: nat): State {
    if k == 0 then z else LeasedUids(AfterLeases(z, k - 1)).0
  }

  /** Some number of rounds leaves a UID free. */
  ghost predicate Returns(z: State) {
    exists k: nat :: AfterLeases(z, k).minUid < AfterLeases(z, k).maxUid
  }

  /** Over all 64-bit states the loop returns if and only if some UID is free or the quota does not wrap around. */
  lemma LoopReturnsIff(z: State)
    requires z.minUid < TWO64 && z.maxUid < TWO64
    ensures Returns(z) <==> z.minUid < z.maxUid || z.minUid + LEASE < TWO64
  {
    if LoopEnds(z) {
      RoundsOfLeasing(z);
      assert AfterLeases(z, |Leasing(z).1|) == Leasing(z).0;
    } else {
      forall k: nat ensures AfterLeases(z, k).maxUid <= AfterLeases(z, k).minUid { NeverFree(z, k); }
    }
  }

  /** A quota that wraps around is below LEASE, so that the end stays far below the start. */
  lemma {:induction false} NeverFree(z: State, k: nat)
    requires z.minUid < TWO64 && !LoopEnds(z)
    ensures AfterLeases(z, k).minUid == z.minUid && AfterLeases(z, k).maxUid <= z.minUid
  {
    if k > 0 {
      NeverFree(z, k - 1);
      var max := AfterLeases(z, k - 1).maxUid;
      assert Add(z.minUid, LEASE) == z.minUid + LEASE - TWO64;
      assert Short(z.minUid, max) ==> Add(max, Add(z.minUid, LEASE)) == max + z.minUid + LEASE - TWO64;
    }
  }

  lemma {:induction false} RoundsOfLeasing(z: State)
    requires LoopEnds(z)
    ensures AfterLeases(z, |Leasing(z).1|) == Leasing(z).0
    decreases if z.minUid < z.maxUid then 0 else z.maxUid + 1
  {
    if z.minUid >= z.maxUid {
      LeaseOfUsedUp(z.minUid, z.maxUid);
      var z1 := LeasedUids(z).0;
      RoundsOfLeasing(z1);
      OneMoreRound(z, |Leasing(z1).1|);
    }
  }

  lemma {:induction false} OneMoreRound(z: State, k: nat)
    ensures AfterLeases(z, k + 1) == AfterLeases(LeasedUids(z).0, k)
  {
    if k > 0 { OneMoreRound(z, k - 1); }
  }

  /**
   How many leases a used-up range takes: each sum that wraps around lowers the end by what the quota
   falls short of 64 bits, until one does not.
   */
  lemma {:induction false} RoundsAre(z: State)
    requires z.maxUid <= z.minUid && z.minUid + LEASE < TWO64
    ensures var n, d := |Leasing(z).1|, TWO64 - LEASE - z.minUid; (n - 1) * d <= z.maxUid < n * d
    decreases z.maxUid
  {
    var d, z1 := TWO64 - LEASE - z.minUid, LeasedUids(z).0;
    LeaseOfUsedUp(z.minUid, z.maxUid);
    if z.maxUid < d {
      assert Leasing(z1) == (z1, []);
    } else {
      RoundsAre(z1);
      Distributes(|Leasing(z1).1|, d);
    }
  }

  lemma Distributes(n: nat, d: nat)
    ensures (n + 1) * d == n * d + d && (n - 1) * d == n * d - d
  {
  }

  /** One lease is enough exactly when its sum does not wrap around; the loop then is one leaseUIDs. */
  lemma OneLeaseIff(z: State)
    requires z.maxUid <= z.minUid && z.minUid + LEASE < TWO64
    ensures LeasedUids(z).0.minUid < LeasedUids(z).0.maxUid <==> z.maxUid + z.minUid + LEASE < TWO64
    ensures z.maxUid + z.minUid + LEASE < TWO64 ==> Leasing(z) == LeasedUids(z)
  {
    LeaseOfUsedUp(z.minUid, z.maxUid);
    if z.maxUid + z.minUid + LEASE < TWO64 {
      var (z1, w1) := LeasedUids(z);
      assert Leasing(z1) == (z1, []) && w1 + [] == w1;
    }
  }

  /** On a fresh allocator a plain request for 2^64 - 3 UIDs never returns. */
  lemma HugeRequestHangs()
    ensures var z := Open(None).z;
            z.minUid == 2 && z.maxUid == 10004 && !Returns(z.(minUid := Reserve(z.minUid, TWO64 - 3, false).1))
  {
    var z := Open(None).z;
    assert Reserve(2, TWO64 - 3, false).1 == TWO64 - 1;
    LoopReturnsIff(z.(minUid := TWO64 - 1));
  }

  // ---------------------------------------------------------------- opens without a lease in between

  function Pow2(k: nat): nat {
    if k == 0 then 1 else 2 * Pow2(k - 1)
  }

  function DiskAfterOpens(k: nat): (disk: Option<Record>)
    ensures disk.Some? <==> k > 0
  {
    if k == 0 then None else Some(Persisted(Open(DiskAfterOpens(k - 1)).z))
  }

  /** The UID end after k opens with no lease between them, in exact arithmetic. */
  function Doubling(k: nat): int {
    10002 * Pow2(k) - 10000
  }

  lemma {:induction false} Pow2Grows(j: nat, k: nat)
    requires j <= k
    ensures 1 <= Pow2(j) <= Pow2(k)
  {
    if j < k { Pow2Grows(j, k - 1); } else if j > 0 { Pow2Grows(j - 1, k - 1); }
  }

  lemma Pow2Of50()
    ensures Pow2(50) == 0x4_0000_0000_0000 && Pow2(51) == 0x8_0000_0000_0000
  {
    assert Pow2(10) == 1024;
    assert Pow2(20) == 1024 * 1024;
    assert Pow2(30) == 1024 * 1024 * 1024;
    assert Pow2(40) == 1024 * 1024 * 1024 * 1024;
  }

  /** The doubling fits in 64 bits for fifty opens and no more. */
  lemma DoublingFits(k: nat)
    ensures Doubling(k) < TWO64 <==> k <= 50
  {
    Pow2Of50();
    if k <= 50 { Pow2Grows(k, 50); } else { Pow2Grows(51, k); }
  }

  lemma {:induction false} OpensDouble(k: nat)
    requires 1 <= k <= 50
    ensures DiskAfterOpens(k).Some? && DiskAfterOpens(k).value.maxUid == Doubling(k)
  {
    DoublingFits(k);
    Pow2Grows(0, k);
    if k > 1 {
      OpensDouble(k - 1);
      LeaseAtMostDoubles(Doubling(k - 1), Doubling(k - 1));
    } else {
      assert Pow2(1) == 2 && DiskAfterOpens(0) == None;
    }
  }

  /**
   Past the fiftieth open the sum wraps: the persisted end falls back, and two opens later UIDs are
   handed out below some that were handed out before.
   */
  lemma WrappedLeaseFallsBack()
    ensures var earlier, d51 := Open(DiskAfterOpens(49)).z.minUid, DiskAfterOpens(51);
            && d51.Some? && d51.value.maxUid < DiskAfterOpens(50).value.maxUid
            && Exec(Open(DiskAfterOpens(49)).z, NextUids(1, false)).response == Uids(Range(earlier, earlier))
            && Exec(Open(d51).z, NextUids(1, false)).response == Uids(Range(d51.value.maxUid, d51.value.maxUid))
            && d51.value.maxUid < earlier
  {
    hide Exec, Open, DiskAfterOpens, Pow2;
    FiftyFirstOpen();
    OpensDouble(49);
    OpenStarts(DiskAfterOpens(49));
    OpenStarts(DiskAfterOpens(51));
    PlainRange(Open(DiskAfterOpens(49)).z, 1);
    PlainRange(Open(DiskAfterOpens(51)).z, 1);
  }

  lemma OpenStarts(disk: Option<Record>)
    ensures Open(disk).z.minUid == Loaded(disk).minUid
  {
  }

  lemma FiftyFirstOpen()
    ensures DiskAfterOpens(50).Some? && DiskAfterOpens(51).Some?
    ensures DiskAfterOpens(50).value.maxUid == Doubling(50)
    ensures DiskAfterOpens(51).value.maxUid == 2 * Doubling(50) + LEASE - TWO64
    ensures LEASE < 2 * Doubling(50) + LEASE - TWO64 < Doubling(49) < Doubling(50) < TWO64 - LEASE
  {
    hide DiskAfterOpens, Pow2;
    OpensDouble(50);
    NextOpen(50);
    Pow2Of50();
    Pow2Of49();
    var m := Doubling(50);
    assert Add(m, m + LEASE) == m + m + LEASE - TWO64;
  }

  /** Over k opens with no lease between them each open raises the persisted UID end if and only if k is at most fifty. */
  lemma EndsRiseIff(k: nat)
    ensures (forall j: nat :: 1 <= j < k ==> DiskAfterOpens(j).value.maxUid < DiskAfterOpens(j + 1).value.maxUid) <==> k <= 50
  {
    hide DiskAfterOpens, Pow2;
    if k <= 50 {
      forall j: nat | 1 <= j < k ensures DiskAfterOpens(j).value.maxUid < DiskAfterOpens(j + 1).value.maxUid {
        OpensDouble(j);
        OpensDouble(j + 1);
        NextPow2(j);
      }
    } else {
      FiftyFirstOpen();
      assert DiskAfterOpens(50).value.maxUid >= DiskAfterOpens(50 + 1).value.maxUid;
    }
  }

  lemma NextPow2(j: nat)
    ensures Pow2(j) < Pow2(j + 1)
  {
    Pow2Grows(0, j);
  }

  lemma NextOpen(k: nat)
    ensures DiskAfterOpens(k + 1) == Some(Persisted(Open(DiskAfterOpens(k)).z))
  {
  }

  lemma Pow2Of49()
    ensures Pow2(49) == 0x2_0000_0000_0000
  {
    Pow2Of50();
    assert Pow2(50) == 2 * Pow2(49);
  }

  /** Opening for the first time: UIDs from 2 and timestamps from 3, a quota of 10000 of each leased, one record per lease. */
  lemma FirstOpen()
    ensures Open(None) ==
            Effect(State(2, 10004, 3, 10006, 0), [Record(10004, 3, 0), Record(10004, 10006, 0)], Opened)
  {
  }

  /** Opening again resumes at the persisted ends and leases behind them. */
  lemma OpenResumes(r: Record)
    requires 2 * r.maxUid + 10000 < TWO64 && 2 * r.maxTs + 10000 < TWO64
    ensures Open(Some(r)).z == State(r.maxUid, 2 * r.maxUid + 10000, r.maxTs, 2 * r.maxTs + 10000, r.maxNs)
  {
  }

  /** Timestamps and namespaces are handed out one by one. */
  lemma NumbersAreConsecutive(z: State)
    requires z.minTs + 1 < TWO64 && z.lastNs + 1 < TWO64
    ensures Exec(z, NextTs).response == Timestamp(z.minTs) && Exec(z, NextTs).z.minTs == z.minTs + 1
    ensures Exec(z, NextNamespace).response == Response.Namespace(z.lastNs + 1)
    ensures Exec(z, NextNamespace).z == z.(lastNs := z.lastNs + 1)
  {
  }

  /** A plain request for n UIDs gets the next n. */
  lemma PlainRange(z: State, n: nat)
    requires 1 <= z.minUid && z.minUid + n < TWO64
    ensures var e := Exec(z, NextUids(n, false));
            e.response == Uids(Range(z.minUid, z.minUid + n - 1)) && e.z.minUid == z.minUid + n
  {
    assert Add(z.minUid + n, TWO64 - 1) == z.minUid + n - 1;
  }

  // ---------------------------------------------------------------- the objects

  /** A bump hands out everything up to val, or the next UID when val is behind, and moves past it. */
  lemma BumpCovers(z: State, val: nat)
    requires 1 <= z.minUid && z.minUid + 1 < TWO64 && val + 1 < TWO64
    ensures var e := Exec(z, NextUids(val, true));
            && e.response.Uids? && e.response.range.start == z.minUid && val <= e.response.range.end
            && e.response.range.end == (if val > z.minUid then val else z.minUid)
            && e.z.minUid == e.response.range.end + 1
  {
  }

  /** The last record written, or what was there before. */
  function After(before: Option<Record>, writes: seq<Record>): Option<Record> {
    if writes == [] then before else Some(writes[|writes| - 1])
  }

  class Disk {
    var record: Option<Record>

    constructor ()
      ensures record == None
    {
      record := None;
    }
  }

  class ZeroServer {
    var minLeasedUid: nat
    var maxLeasedUid: nat
    var minLeasedTs: nat
    var maxLeasedTs: nat
    var lastNamespace: nat
    const disk: Disk

    ghost function Value(): State
      reads this
    {
      State(minLeasedUid, maxLeasedUid, minLeasedTs, maxLeasedTs, lastNamespace)
    }

    constructor (disk: Disk)
      modifies disk
      ensures this.disk == disk
      ensures var e := Open(old(disk.record)); Value() == e.z && disk.record == After(old(disk.record), e.writes)
    {
      this.disk := disk;
      match disk.record {
        case None =>
          minLeasedUid, maxLeasedUid := INITIAL_UID, INITIAL_UID;
          minLeasedTs, maxLeasedTs := INITIAL_TS, INITIAL_TS;
          lastNamespace := 0;
        case Some(zs) =>
          minLeasedUid, maxLeasedUid := zs.maxUid, zs.maxUid;
          minLeasedTs, maxLeasedTs := zs.maxTs, zs.maxTs;
          lastNamespace := zs.maxNs;
      }
      new;
      LeaseUids();
      LeaseTs();
    }

    method WriteZeroState()
      modifies disk
      ensures disk.record == Some(Persisted(Value()))
    {
      disk.record := Some(Record(maxLeasedUid, maxLeasedTs, lastNamespace));
    }

    method LeaseTs()
      modifies `maxLeasedTs, disk
      ensures Value() == LeasedTs(old(Value())).0
      ensures disk.record == After(old(disk.record), LeasedTs(old(Value())).1)
    {
      if Add(minLeasedTs, LEASE) <= maxLeasedTs { return; }
      maxLeasedTs := Add(maxLeasedTs, Add(minLeasedTs, LEASE));
      WriteZeroState();
    }

    method LeaseUids()
      modifies `maxLeasedUid, disk
      ensures Value() == LeasedUids(old(Value())).0
      ensures disk.record == After(old(disk.record), LeasedUids(old(Value())).1)
    {
      if Add(minLeasedUid, LEASE) <= maxLeasedUid { return; }
      maxLeasedUid := Add(maxLeasedUid, Add(minLeasedUid, LEASE));
      WriteZeroState();
    }

    method NextTs() returns (ts: nat)
      modifies `minLeasedTs, `maxLeasedTs, disk
      ensures var e := Exec(old(Value()), Op.NextTs);
              Value() == e.z && disk.record == After(old(disk.record), e.writes) && e.response == Timestamp(ts)
    {
      if minLeasedTs >= maxLeasedTs {
        LeaseTs();
      }
      ts := minLeasedTs;
      minLeasedTs := Add(minLeasedTs, 1);
    }

    /** The last timestamp handed out; every commit so far is at or below it. */
    method ReadTs() returns (ts: int)
      ensures ts == minLeasedTs - 1
    {
      ts := minLeasedTs - 1;
    }

    /** Asks that its loop ends, which is exactly LoopReturnsIff's condition on the state it reserves from. */
    method NextUids(val: nat, bump: bool) returns (range: Range)
      requires LoopEnds(Value().(minUid := Reserve(minLeasedUid, val, bump).1))
      modifies `minLeasedUid, `maxLeasedUid, disk
      ensures var e := Exec(old(Value()), Op.NextUids(val, bump));
              Value() == e.z && disk.record == After(old(disk.record), e.writes) && e.response == Uids(range)
    {
      if bump {
        if minLeasedUid >= val {
          range := Range(minLeasedUid, minLeasedUid);
          minLeasedUid := Add(minLeasedUid, 1);
        } else {
          range := Range(minLeasedUid, val);
          minLeasedUid := Add(val, 1);
        }
      } else {
        range := Range(minLeasedUid, Add(Add(minLeasedUid, val), TWO64 - 1));
        minLeasedUid := Add(minLeasedUid, val);
      }
      ghost var end := Leasing(Value());
      while minLeasedUid >= maxLeasedUid
        invariant LoopEnds(Value()) && Leasing(Value()).0 == end.0
        invariant After(disk.record, Leasing(Value()).1) == After(old(disk.record), end.1)
        decreases if minLeasedUid < maxLeasedUid then 0 else maxLeasedUid + 1
      {
        LeaseOfUsedUp(minLeasedUid, maxLeasedUid);
        LeaseUids();
      }
    }

    method NextNamespace() returns (ns: nat)
      modifies `lastNamespace, disk
      ensures var e := Exec(old(Value()), Op.NextNamespace);
              Value() == e.z && disk.record == After(old(disk.record), e.writes) && e.response == Namespace(ns)
    {
      lastNamespace := Add(lastNamespace, 1);
      WriteZeroState();
      ns := lastNamespace;
    }
  }
}
