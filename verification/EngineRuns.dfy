/**
 The embedded engine as a versioned store under one lock. Mutations check the unique constraint at the
 current read timestamp, take a start and a commit timestamp, and apply; queries read at the read
 timestamp. Every run, restarts included, behaves like a serial one and keeps the constraint.
 */
module EngineRuns {
  import opened Basics
  import opened Zero
  import opened ZeroRuns
  import opened UniqueCheck

  /** A committed batch: its edges in the order they were applied. */
  datatype Commit = Commit(startTs: nat, commitTs: nat, edges: seq<Edge>)

  datatype Engine = Engine(z: Zero.State, log: seq<Commit>)

  /** What a read at ts sees: the commits at or below it. */
  function Visible(log: seq<Commit>, ts: int): Values {
    if log == [] then map[] else
      var last := log[|log| - 1];
      var st := Visible(log[..|log| - 1], ts);
      if last.commitTs <= ts then Apply(st, last.edges) else st
  }

  function ReadTs(s: Engine): int {
    s.z.minTs - 1
  }

  datatype Act =
    | Mutate(edges: seq<Edge>, order: seq<Edge>)   // an accepted batch
    | Reject(edges: seq<Edge>)                     // refused by the unique check
    | Allocate(n: nat)                             // UIDs for a batch's blank nodes, leased before its check
    | Burn                                         // a timestamp taken for anything else, or by a batch that failed later
    | Query(seen: Values)
    | Restart                                      // the process opens again from the persisted record

  ghost predicate Next(s: Engine, s': Engine, a: Act, unique: set<string>) {
    var st := Visible(s.log, ReadTs(s));
    match a
    case Mutate(edges, order) =>
      && multiset(order) == multiset(edges)
      && Accepted(st, edges, unique)
      && OpFits(s.z, NextTs)
      && var e1 := Exec(s.z, NextTs);
         OpFits(e1.z, NextTs)
         && var e2 := Exec(e1.z, NextTs);
            s' == Engine(e2.z, s.log + [Commit(e1.response.ts, e2.response.ts, order)])
    case Reject(edges) => !Accepted(st, edges, unique) && s' == s
    case Allocate(n) =>
      OpFits(s.z, NextUids(n, false)) && s' == s.(z := Exec(s.z, NextUids(n, false)).z)
    case Burn => OpFits(s.z, NextTs) && s' == s.(z := Exec(s.z, NextTs).z)
    case Query(seen) => seen == st && s' == s
    case Restart => BootFits(Some(Persisted(s.z))) && s' == s.(z := Open(Some(Persisted(s.z))).z)
  }

  ghost predicate Run(run: seq<Engine>, acts: seq<Act>, unique: set<string>) {
    && |run| == |acts| + 1
    && LeasesOk(run[0].z) && run[0].log == []
    && forall i :: 0 <= i < |acts| ==> Next(run[i], run[i + 1], acts[i], unique)
  }

  /** Timestamps of the log increase, and all lie below the next one. */
  predicate Ordered(log: seq<Commit>, next: nat) {
    && (forall i :: 0 <= i < |log| ==> log[i].startTs < log[i].commitTs < next)
    && forall i, j :: 0 <= i < j < |log| ==> log[i].commitTs < log[j].startTs
  }

  /** The store after the log, applied in lock order. */
  function Serial(log: seq<Commit>): Values {
    if log == [] then map[] else Apply(Serial(log[..|log| - 1]), log[|log| - 1].edges)
  }

  /** A read at or above the n-th commit and below the next sees exactly the first n commits. */
  lemma {:induction false} SnapshotIsPrefix(log: seq<Commit>, next: nat, ts: int, n: nat)
    requires Ordered(log, next) && n <= |log|
    requires forall i :: 0 <= i < n ==> log[i].commitTs <= ts
    requires forall i :: n <= i < |log| ==> log[i].commitTs > ts
    ensures Visible(log, ts) == Serial(log[..n])
  {
    hide Apply;
    if log != [] {
      var init := log[..|log| - 1];
      if n == |log| {
        SnapshotIsPrefix(init, next, ts, n - 1);
        assert log[..n] == log && init[..n - 1] == init;
      } else {
        SnapshotIsPrefix(init, next, ts, n);
        assert init[..n] == log[..n];
      }
    }
  }

  predicate Inv(s: Engine, unique: set<string>) {
    LeasesOk(s.z) && Ordered(s.log, s.z.minTs) && Unique(Serial(s.log), unique)
  }

  lemma CurrentIsSerial(s: Engine)
    requires Ordered(s.log, s.z.minTs)
    ensures Visible(s.log, ReadTs(s)) == Serial(s.log)
  {
    SnapshotIsPrefix(s.log, s.z.minTs, ReadTs(s), |s.log|);
    assert s.log[..|s.log|] == s.log;
  }

  lemma NextKeepsInv(s: Engine, s': Engine, a: Act, unique: set<string>)
    requires Inv(s, unique) && Next(s, s', a, unique)
    ensures Inv(s', unique)
    ensures s.log <= s'.log && ReadTs(s) <= ReadTs(s')
  {
    hide Exec, Open, Accepted, Unique, Serial, Visible;
    match a
    case Mutate(edges, order) =>
      TimestampAdvances(s.z);
      TimestampAdvances(Exec(s.z, NextTs).z);
      CurrentIsSerial(s);
      AcceptedBatchKeepsUnique(Serial(s.log), edges, order, unique);
      SerialAppend(s.log, s'.log[|s.log|]);
    case Allocate(n) => ExecOk(s.z, NextUids(n, false), 0);
    case Burn => TimestampAdvances(s.z);
    case Restart => OpenOk(Some(Persisted(s.z)), 0);
    case _ =>
  }

  lemma SerialAppend(log: seq<Commit>, c: Commit)
    ensures Serial(log + [c]) == Apply(Serial(log), c.edges)
  {
    assert (log + [c])[..|log|] == log;
  }

  lemma TimestampAdvances(z: Zero.State)
    requires LeasesOk(z) && OpFits(z, NextTs)
    ensures var e := Exec(z, NextTs);
            LeasesOk(e.z) && e.response == Timestamp(z.minTs) && e.z.minTs == z.minTs + 1
  {
    ExecOk(z, NextTs, 0);
  }

  lemma {:induction false} RunKeepsInv(run: seq<Engine>, acts: seq<Act>, unique: set<string>, i: nat)
    requires Run(run, acts, unique) && i < |run|
    ensures Inv(run[i], unique)
  {
    if i > 0 {
      RunKeepsInv(run, acts, unique, i - 1);
      NextKeepsInv(run[i - 1], run[i], acts[i - 1], unique);
    } else {
      assert Serial(run[0].log) == map[];
    }
  }

  /** Over every run the stored values satisfy the unique constraint. */
  lemma UniqueAlways(run: seq<Engine>, acts: seq<Act>, unique: set<string>, i: nat)
    requires Run(run, acts, unique) && i < |run|
    ensures Unique(Serial(run[i].log), unique)
    ensures Visible(run[i].log, ReadTs(run[i])) == Serial(run[i].log)
  {
    RunKeepsInv(run, acts, unique, i);
    CurrentIsSerial(run[i]);
  }

  /** Start and commit timestamps: each pair in order, each above everything earlier, all seen by the next read. */
  lemma CommitsAreOrdered(run: seq<Engine>, acts: seq<Act>, unique: set<string>, i: nat)
    requires Run(run, acts, unique) && i < |run|
    ensures Ordered(run[i].log, run[i].z.minTs)
    ensures forall k :: 0 <= k < |run[i].log| ==> run[i].log[k].commitTs <= ReadTs(run[i])
  {
    RunKeepsInv(run, acts, unique, i);
  }

  // ---------------------------------------------------------------- serial equivalence

  /** One store, no timestamps: a batch is applied, a query returns what is there. */
  ghost predicate SerialStep(st: Values, st': Values, a: Act, unique: set<string>) {
    match a
    case Mutate(edges, order) =>
      multiset(order) == multiset(edges) && Accepted(st, edges, unique) && st' == Apply(st, order)
    case Reject(edges) => !Accepted(st, edges, unique) && st' == st
    case Query(seen) => seen == st && st' == st
    case _ => st' == st
  }

  /** Every run is a serial run of the same actions: each query sees exactly the mutations before it. */
  lemma RunIsSerial(run: seq<Engine>, acts: seq<Act>, unique: set<string>, i: nat)
    requires Run(run, acts, unique) && i < |acts|
    ensures SerialStep(Serial(run[i].log), Serial(run[i + 1].log), acts[i], unique)
  {
    hide Apply, Accepted;
    RunKeepsInv(run, acts, unique, i);
    CurrentIsSerial(run[i]);
    assert Next(run[i], run[i + 1], acts[i], unique);
    if acts[i].Mutate? { SerialAppend(run[i].log, run[i + 1].log[|run[i].log|]); }
  }

  /** One step adds at most one commit, above the read timestamp so far. */
  lemma StepGrows(run: seq<Engine>, acts: seq<Act>, unique: set<string>, i: nat)
    requires Run(run, acts, unique) && i < |acts|
    ensures run[i].log <= run[i + 1].log && |run[i + 1].log| <= |run[i].log| + 1
    ensures |run[i + 1].log| > |run[i].log| ==> ReadTs(run[i]) < run[i + 1].log[|run[i].log|].startTs
    ensures ReadTs(run[i]) <= ReadTs(run[i + 1])
  {
    hide Exec, Open, Accepted, Unique, Serial, Visible;
    RunKeepsInv(run, acts, unique, i);
    assert Next(run[i], run[i + 1], acts[i], unique);
    NextKeepsInv(run[i], run[i + 1], acts[i], unique);
    if acts[i].Mutate? { TimestampAdvances(run[i].z); }
  }

  lemma {:induction false} LogGrows(run: seq<Engine>, acts: seq<Act>, unique: set<string>, i: nat, j: nat)
    requires Run(run, acts, unique) && i <= j < |run|
    ensures run[i].log <= run[j].log && ReadTs(run[i]) <= ReadTs(run[j])
    ensures forall k :: |run[i].log| <= k < |run[j].log| ==> ReadTs(run[i]) < run[j].log[k].startTs
    decreases j
  {
    hide Next, ReadTs;
    if i < j {
      LogGrows(run, acts, unique, i, j - 1);
      StepGrows(run, acts, unique, j - 1);
      forall k | |run[i].log| <= k < |run[j].log| ensures ReadTs(run[i]) < run[j].log[k].startTs {
        if k < |run[j - 1].log| { assert run[j].log[k] == run[j - 1].log[k]; }
      }
    }
  }

  /** A snapshot does not move: the read timestamp of step i still names the same state at any later step. */
  lemma SnapshotIsStable(run: seq<Engine>, acts: seq<Act>, unique: set<string>, i: nat, j: nat)
    requires Run(run, acts, unique) && i <= j < |run|
    ensures Visible(run[j].log, ReadTs(run[i])) == Serial(run[i].log)
  {
    RunKeepsInv(run, acts, unique, i);
    RunKeepsInv(run, acts, unique, j);
    LogGrows(run, acts, unique, i, j);
    var n := |run[i].log|;
    assert run[j].log[..n] == run[i].log;
    assert forall k :: 0 <= k < n ==> run[j].log[k] == run[i].log[k];
    SnapshotIsPrefix(run[j].log, run[j].z.minTs, ReadTs(run[i]), n);
  }
}
