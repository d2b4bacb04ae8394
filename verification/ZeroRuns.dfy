/**
 Crash-safe allocation: runs of the allocator with crashes at any point, also between an operation's
 writes and before its answer is delivered, and restarts from the persisted record. A failed write ends
 the run: the code raises its in-memory end before it writes, so carrying on is outside the guarantee.
 */
module ZeroRuns {
  import opened Basics
  import opened Zero

  /** The process, when up; the disk; and everything handed out so far, in order. */
  datatype System = System(
    up: Option<State>, disk: Option<Record>, uids: seq<Range>, timestamps: seq<nat>, namespaces: seq<nat>)

  datatype Act =
    | Boot
    | BootCrash(written: nat)
    | Do(op: Op)
    | DoCrash(op: Op, written: nat)
    | Crash

  function Deliver(s: System, r: Response): System {
    match r
    case Opened => s
    case Timestamp(ts) => s.(timestamps := s.timestamps + [ts])
    case Uids(range) => s.(uids := s.uids + [range])
    case Namespace(ns) => s.(namespaces := s.namespaces + [ns])
  }

  predicate Next(s: System, s': System, a: Act) {
    match a
    case Boot => s.up.None? && var e := Open(s.disk); s' == s.(up := Some(e.z), disk := After(s.disk, e.writes))
    case BootCrash(n) =>
      s.up.None? && n <= |Open(s.disk).writes| && s' == s.(disk := After(s.disk, Open(s.disk).writes[..n]))
    case Do(op) =>
      s.up.Some? && var e := Exec(s.up.value, op);
      s' == Deliver(s, e.response).(up := Some(e.z), disk := After(s.disk, e.writes))
    case DoCrash(op, n) =>
      s.up.Some? && n <= |Exec(s.up.value, op).writes|
      && s' == s.(up := None, disk := After(s.disk, Exec(s.up.value, op).writes[..n]))
    case Crash => s' == s.(up := None)
  }

  /** No addition of the step reaches 64 bits; a caller can check this against the persisted record. */
  predicate Fits(s: System, a: Act) {
    match a
    case Boot => BootFits(s.disk)
    case BootCrash(_) => BootFits(s.disk)
    case Do(op) => s.up.Some? ==> OpFits(s.up.value, op)
    case DoCrash(op, _) => s.up.Some? ==> OpFits(s.up.value, op)
    case Crash => true
  }

  predicate BootFits(disk: Option<Record>) {
    var z := Loaded(disk);
    2 * z.minUid + LEASE < TWO64 && 2 * z.minTs + LEASE < TWO64
  }

  predicate OpFits(z: State, op: Op) {
    match op
    case NextTs => z.minTs + z.maxTs + LEASE < TWO64
    case NextUids(val, bump) => UidsFit(z, val, bump)
    case NextNamespace => z.lastNs + 1 < TWO64
  }

  predicate Run(run: seq<System>, acts: seq<Act>) {
    && |run| == |acts| + 1
    && run[0] == System(None, None, [], [], [])
    && forall i :: 0 <= i < |acts| ==> Fits(run[i], acts[i]) && Next(run[i], run[i + 1], acts[i])
  }

  // ---------------------------------------------------------------- invariant

  /** Ranges are disjoint and increasing; a range may be empty. */
  predicate IncreasingRanges(rs: seq<Range>) {
    && (forall i :: 0 <= i < |rs| ==> rs[i].start <= rs[i].end + 1)
    && forall i, j :: 0 <= i < j < |rs| ==> rs[i].end < rs[j].start
  }

  predicate Increasing(ns: seq<nat>) {
    forall i, j :: 0 <= i < j < |ns| ==> ns[i] < ns[j]
  }

  /** Everything handed out lies below the given limits. */
  predicate Below(s: System, uid: nat, ts: nat, ns: nat) {
    && (forall i :: 0 <= i < |s.uids| ==> INITIAL_UID <= s.uids[i].start && s.uids[i].end < uid)
    && (forall i :: 0 <= i < |s.timestamps| ==> INITIAL_TS <= s.timestamps[i] < ts)
    && (forall i :: 0 <= i < |s.namespaces| ==> 0 < s.namespaces[i] <= ns)
  }

  /** The leases of a running process: some UIDs are left, and each end is within twice its start. */
  predicate LeasesOk(z: State) {
    && INITIAL_UID <= z.minUid < z.maxUid <= 2 * z.minUid + LEASE
    && INITIAL_TS <= z.minTs <= z.maxTs <= 2 * z.minTs + LEASE
  }

  predicate Inv(s: System) {
    && IncreasingRanges(s.uids) && Increasing(s.timestamps) && Increasing(s.namespaces)
    && (s.disk.Some? ==> INITIAL_UID <= s.disk.value.maxUid && INITIAL_TS <= s.disk.value.maxTs)
    && match s.up
       case Some(z) => LeasesOk(z) && s.disk == Some(Persisted(z)) && Below(s, z.minUid, z.minTs, z.lastNs)
       case None => var z := Loaded(s.disk); Below(s, z.minUid, z.minTs, z.lastNs)
  }

  lemma BelowHigher(s: System, uid: nat, ts: nat, ns: nat, uid': nat, ts': nat, ns': nat)
    requires Below(s, uid, ts, ns) && uid <= uid' && ts <= ts' && ns <= ns'
    ensures Below(s, uid', ts', ns')
  {
  }

  /** Opening leaves full quotas and only raises the persisted ends, write by write. */
  lemma OpenOk(disk: Option<Record>, n: nat)
    requires BootFits(disk) && n <= |Open(disk).writes|
    requires disk.Some? ==> INITIAL_UID <= disk.value.maxUid && INITIAL_TS <= disk.value.maxTs
    ensures var e, z0 := Open(disk), Loaded(disk);
            && LeasesOk(e.z) && e.z.minUid == z0.minUid && e.z.minTs == z0.minTs && e.z.lastNs == z0.lastNs
            && e.z.minUid + LEASE <= e.z.maxUid && e.z.minTs + LEASE <= e.z.maxTs
            && After(disk, e.writes) == Some(Persisted(e.z))
            && (var d := After(disk, e.writes[..n]); Raised(z0, d) && (n > 0 ==> d.Some?))
  {
  }

  /** A restart from the disk starts no lower than z. */
  predicate Raised(z: State, disk: Option<Record>) {
    var z1 := Loaded(disk);
    z.minUid <= z1.minUid && z.minTs <= z1.minTs && z.lastNs <= z1.lastNs
  }

  /** An operation keeps the leases in order, keeps the disk in step, and its answer lies in between. */
  lemma ExecOk(z: State, op: Op, n: nat)
    requires LeasesOk(z) && OpFits(z, op) && n <= |Exec(z, op).writes|
    ensures var e := Exec(z, op);
            && LeasesOk(e.z) && After(Some(Persisted(z)), e.writes) == Some(Persisted(e.z))
            && z.minUid <= e.z.minUid && z.minTs <= e.z.minTs && z.lastNs <= e.z.lastNs
            && Raised(z, After(Some(Persisted(z)), e.writes[..n]))
            && Answer(z, e)
  {
    hide Leasing;
    if op.NextUids? { FitLeasing(z.(minUid := Reserve(z.minUid, op.val, op.bump).1)); }
  }

  /** Where nothing reaches 64 bits the loop of nextUIDs takes one lease at most. */
  lemma FitLeasing(z: State)
    requires z.minUid + z.maxUid + LEASE < TWO64
    ensures Leasing(z) == if z.minUid < z.maxUid then (z, []) else LeasedUids(z)
  {
    if z.minUid >= z.maxUid { OneLeaseIff(z); }
  }

  predicate Answer(z: State, e: Effect) {
    match e.response
    case Opened => true
    case Timestamp(ts) => z.minTs <= ts < e.z.minTs && ts < e.z.maxTs
    case Uids(r) => z.minUid <= r.start <= r.end + 1 && r.end < e.z.minUid < e.z.maxUid
    case Namespace(ns) => z.lastNs < ns <= e.z.lastNs
  }

  lemma DeliverOk(s: System, z: State, e: Effect)
    requires IncreasingRanges(s.uids) && Increasing(s.timestamps) && Increasing(s.namespaces)
    requires LeasesOk(z) && Below(s, z.minUid, z.minTs, z.lastNs) && Answer(z, e)
    requires z.minUid <= e.z.minUid && z.minTs <= e.z.minTs && z.lastNs <= e.z.lastNs
    ensures var s' := Deliver(s, e.response);
            IncreasingRanges(s'.uids) && Increasing(s'.timestamps) && Increasing(s'.namespaces)
            && Below(s', e.z.minUid, e.z.minTs, e.z.lastNs)
  {
  }

  lemma NextKeepsInv(s: System, s': System, a: Act)
    requires Inv(s) && Fits(s, a) && Next(s, s', a)
    ensures Inv(s')
  {
    hide Exec, Open, OpFits, IncreasingRanges, Increasing, Answer, Deliver;
    var z := if s.up.Some? then s.up.value else Loaded(s.disk);
    match a
    case Boot => OpenOk(s.disk, 0);
    case BootCrash(n) =>
      OpenOk(s.disk, n);
      var z1 := Loaded(s'.disk);
      BelowHigher(s, z.minUid, z.minTs, z.lastNs, z1.minUid, z1.minTs, z1.lastNs);
    case Do(op) =>
      ExecOk(z, op, 0);
      DeliverOk(s, z, Exec(z, op));
      BelowSame(Deliver(s, Exec(z, op).response), s', Exec(z, op).z);
    case DoCrash(op, n) =>
      ExecOk(z, op, n);
      var z1 := Loaded(s'.disk);
      BelowHigher(s, z.minUid, z.minTs, z.lastNs, z1.minUid, z1.minTs, z1.lastNs);
    case Crash =>
      BelowHigher(s, z.minUid, z.minTs, z.lastNs, z.maxUid, z.maxTs, z.lastNs);
  }

  lemma BelowSame(s: System, s': System, z: State)
    requires Below(s, z.minUid, z.minTs, z.lastNs)
    requires s'.uids == s.uids && s'.timestamps == s.timestamps && s'.namespaces == s.namespaces
    ensures Below(s', z.minUid, z.minTs, z.lastNs)
  {
  }

  lemma {:induction false} RunKeepsInv(run: seq<System>, acts: seq<Act>, i: nat)
    requires Run(run, acts) && i < |run|
    ensures Inv(run[i])
  {
    if i > 0 {
      RunKeepsInv(run, acts, i - 1);
      NextKeepsInv(run[i - 1], run[i], acts[i - 1]);
    }
  }

  /**
   Nothing is handed out twice, over every run with crashes and restarts: UID ranges are disjoint and
   increasing, timestamps and namespace IDs strictly increase. A running process always has UIDs left in
   its lease and its lease on disk, and neither end exceeds twice its start plus one quota.
   */
  lemma AllocationIsCrashSafe(run: seq<System>, acts: seq<Act>, i: nat)
    requires Run(run, acts) && i < |run|
    ensures IncreasingRanges(run[i].uids) && Increasing(run[i].timestamps) && Increasing(run[i].namespaces)
    ensures run[i].up.Some? ==> LeasesOk(run[i].up.value) && run[i].disk == Some(Persisted(run[i].up.value))
  {
    RunKeepsInv(run, acts, i);
  }

  /** Whatever is handed out is below the persisted end by the time the caller has it. */
  lemma HandedOutIsLeased(run: seq<System>, acts: seq<Act>, i: nat)
    requires Run(run, acts) && i < |acts| && acts[i].Do?
    ensures run[i].up.Some? && run[i + 1].disk.Some?
    ensures var (e, d) := (Exec(run[i].up.value, acts[i].op), run[i + 1].disk.value);
            match e.response
            case Timestamp(ts) => run[i + 1].timestamps == run[i].timestamps + [ts] && ts < d.maxTs
            case Uids(r) => run[i + 1].uids == run[i].uids + [r] && r.end < d.maxUid
            case Namespace(ns) => run[i + 1].namespaces == run[i].namespaces + [ns] && ns <= d.maxNs
            case Opened => false
  {
    RunKeepsInv(run, acts, i);
    assert Next(run[i], run[i + 1], acts[i]);
    ExecOk(run[i].up.value, acts[i].op, 0);
  }
}
