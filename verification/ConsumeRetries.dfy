/**
 How often GetAndDelete retries. While GetAndDelete callers are the only writers on a key, each abort of
 a call is paid for by a node that is gone by then, so ten retries are enough for ten nodes, even when
 replies are lost. The bound is tight: with any greater number a call can surface an abort.
 */
module ConsumeRetries {
  import opened Basics
  import opened ConsumeSpec
  import opened ConsumeRemote

  /** No other writer touches a node with the key, before or after the write. */
  predicate Quiet(s: Cluster, a: Act, key: string) {
    a.Other? ==>
      match a.w
      case Insert(_, rec) => rec.key != key
      case Update(u, rec) => rec.key != key && (u in s.live ==> s.live[u].key != key)
      case Remove(u) => u in s.live ==> s.live[u].key != key
  }

  predicate QuietRun(run: seq<Cluster>, acts: seq<Act>, key: string)
    requires |run| == |acts| + 1
  {
    forall i :: 0 <= i < |acts| ==> Quiet(run[i], acts[i], key)
  }

  /** The call's aborts are charged to distinct nodes of nodes that are gone. */
  predicate Charged(s: Cluster, nodes: set<Uid>, call: Call) {
    && call.lost <= nodes && call.lost !! s.live.Keys
    && |call.lost| == call.attempt + (if call.pc == Done(Aborted) then 1 else 0)
    && call.attempt <= MAX_ATTEMPTS
    && (call.pc == Done(Aborted) ==> call.attempt == MAX_ATTEMPTS)
    && match call.pc
       case Idle => true
       case Done(r) => r.Hit? ==> r.uid in nodes && r.uid !in call.lost
       case _ =>
         && call.pc.uid in nodes && call.pc.uid in s.written && call.pc.uid !in call.lost
         && (call.pc.uid in s.live ==> s.written[call.pc.uid] <= call.pc.start)
  }

  /** nodes are the nodes that had the key at the start; those that are left still have it. */
  predicate Tracked(s: Cluster, nodes: set<Uid>, key: string) {
    && Matching(s.live, key) == nodes * s.live.Keys
    && nodes <= s.written.Keys && nodes !! s.removed
  }

  predicate Charging(s: Cluster, nodes: set<Uid>, c: Caller) {
    c in s.calls && Tracked(s, nodes, s.calls[c].key) && Charged(s, nodes, s.calls[c])
  }

  lemma StepTracks(s: Cluster, s': Cluster, a: Act, nodes: set<Uid>, key: string)
    requires Inv(s) && Next(s, s', a) && Tracked(s, nodes, key) && Quiet(s, a, key)
    ensures Tracked(s', nodes, key)
    ensures forall u :: u in nodes && u in s'.live ==> u in s.live && s'.written[u] == s.written[u]
  {
    var w := Footprint(s, s', a);
    if a.Other? && a.w.Remove? { assert w !in Matching(s.live, key) && w !in nodes * s.live.Keys; }
    forall u
      ensures u in Matching(s'.live, key) <==> u in nodes * s'.live.Keys
      ensures u in nodes && u in s'.live ==> u in s.live && s'.written[u] == s.written[u]
    {
      assert u in Matching(s.live, key) <==> u in nodes * s.live.Keys;
      if !Silent(s, s') && u != w {
        assert u in s.live <==> u in s.live - {w};
        assert u in s'.live <==> u in s'.live - {w};
        assert u in s.live ==> (s.live - {w})[u] == s.live[u];
        assert u in s'.live ==> (s'.live - {w})[u] == s'.live[u];
      }
    }
  }

  /** A call that does not move stays charged: what it read can only be consumed. */
  lemma OthersStayCharged(s: Cluster, s': Cluster, a: Act, nodes: set<Uid>, call: Call)
    requires Inv(s) && Next(s, s', a) && Tracked(s, nodes, call.key) && Quiet(s, a, call.key)
    requires Charged(s, nodes, call)
    ensures Charged(s', nodes, call)
  {
    hide Next, Quiet;
    var w := Footprint(s, s', a);
    StepTracks(s, s', a, nodes, call.key);
  }

  lemma OwnStepCharges(s: Cluster, s': Cluster, a: Act, nodes: set<Uid>)
    requires Inv(s) && Next(s, s', a) && !a.Other? && a.c in s.calls && a.c in s'.calls
    requires Tracked(s, nodes, s.calls[a.c].key) && Charged(s, nodes, s.calls[a.c])
    ensures Charged(s', nodes, s'.calls[a.c])
  {
    var call := s.calls[a.c];
    assert CallOk(s, call);
    if a.Get? { assert a.uid in Matching(s.live, call.key); }
  }

  lemma StepCharges(s: Cluster, s': Cluster, a: Act, nodes: set<Uid>, c: Caller)
    requires Inv(s) && Next(s, s', a) && Charging(s, nodes, c) && Quiet(s, a, s.calls[c].key)
    ensures Charging(s', nodes, c) && s'.calls[c].key == s.calls[c].key
  {
    hide Next, Charged, Quiet, Tracked, Inv;
    var w := Footprint(s, s', a);
    StepTracks(s, s', a, nodes, s.calls[c].key);
    if a.Other? || c != a.c {
      OthersStayCharged(s, s', a, nodes, s.calls[c]);
    } else {
      OwnStepCharges(s, s', a, nodes);
      OwnCallOk(s, s', a);
    }
  }

  lemma {:induction false} RunCharges(run: seq<Cluster>, acts: seq<Act>, c: Caller, i: nat)
    requires ClusterRun(run, acts) && i < |run| && c in run[0].calls
    requires QuietRun(run, acts, run[0].calls[c].key)
    ensures Charging(run[i], Matching(run[0].live, run[0].calls[c].key), c)
    ensures run[i].calls[c].key == run[0].calls[c].key
  {
    var nodes := Matching(run[0].live, run[0].calls[c].key);
    if i > 0 {
      RunCharges(run, acts, c, i - 1);
      RunKeepsInv(run, acts, i - 1);
      StepCharges(run[i - 1], run[i], acts[i - 1], nodes, c);
    }
  }

  lemma SubsetSize(a: set<Uid>, b: set<Uid>)
    requires a <= b
    ensures |a| <= |b|
  {
    if a != {} {
      var x :| x in a;
      SubsetSize(a - {x}, b - {x});
    }
  }

  /** With k matching nodes at the start a call makes at most k + 1 attempts, and at most k to win. */
  lemma AttemptsBounded(run: seq<Cluster>, acts: seq<Act>, c: Caller, i: nat)
    requires ClusterRun(run, acts) && i < |run| && c in run[0].calls
    requires QuietRun(run, acts, run[0].calls[c].key)
    ensures c in run[i].calls
    ensures var (k, call) := (|Matching(run[0].live, run[0].calls[c].key)|, run[i].calls[c]);
            && call.attempt + 1 <= k + 1
            && (call.pc.Done? && call.pc.result.Hit? ==> call.attempt + 1 <= k)
            && (k <= 10 ==> call.pc != Done(Aborted))
  {
    var nodes := Matching(run[0].live, run[0].calls[c].key);
    RunCharges(run, acts, c, i);
    var call := run[i].calls[c];
    SubsetSize(call.lost, nodes);
    if call.pc.Done? && call.pc.result.Hit? {
      SubsetSize(call.lost + {call.pc.result.uid}, nodes);
    }
  }

  /**
   Whom the aborts are charged to: every node a call lost was returned by a different call, unless the
   reply to its delete was lost.
   */
  lemma LostToOthers(run: seq<Cluster>, acts: seq<Act>, c: Caller, i: nat, u: Uid) returns (d: Caller)
    requires ClusterRun(run, acts) && i < |run| && c in run[0].calls && c in run[i].calls
    requires QuietRun(run, acts, run[0].calls[c].key)
    requires u in run[i].calls[c].lost && u !in run[i].gone
    ensures d != c && d in run[i].calls
    ensures run[i].calls[d].pc.Done? && run[i].calls[d].pc.result.Hit? && run[i].calls[d].pc.result.uid == u
  {
    RunCharges(run, acts, c, i);
    EveryRunAccounts(run, acts, i);
    assert u in Winners(Results(run[i].calls));
    d :| d in Results(run[i].calls) && Results(run[i].calls)[d].Hit? && Results(run[i].calls)[d].uid == u;
  }

  // ---------------------------------------------------------------- the bound is tight

  /** Contention alone, on k matching nodes, can make a call return an abort error. */
  ghost predicate CanAbort(k: nat) {
    exists run, acts, c :: AbortsUnderContention(run, acts, c, k)
  }

  ghost predicate AbortsUnderContention(run: seq<Cluster>, acts: seq<Act>, c: Caller, k: nat) {
    && ClusterRun(run, acts) && c in run[0].calls && QuietRun(run, acts, run[0].calls[c].key)
    && |Matching(run[0].live, run[0].calls[c].key)| == k
    && c in run[|acts|].calls && run[|acts|].calls[c].pc == Done(Aborted)
  }

  const ROUNDS := MAX_ATTEMPTS + 1

  const TOKEN := Rec("k", "p")

  function Uids(n: nat): (r: set<Uid>)
    ensures |r| == n && forall u: Uid :: u in r <==> u < n
  {
    if n == 0 then {} else Uids(n - 1) + {n - 1}
  }

  function TokenOf(u: Uid): Rec { TOKEN }

  function WrittenAt(u: Uid, j: nat): nat {
    if u < j then u + 1 else 0
  }

  function CallAt(c: Caller, j: nat): Call {
    if c == 0 then Victim(j) else if c <= j then Rival(Done(Hit(c - 1, TOKEN))) else Rival(Idle)
  }

  /** Of n nodes call 0 has lost the first j, node i to call i + 1. */
  function AfterRounds(n: nat, j: nat): Cluster
    requires j <= ROUNDS <= n
  {
    Cluster(
      map u: Uid | j <= u < n :: TokenOf(u),
      map u: Uid | u < n :: WrittenAt(u, j),
      j, {}, {},
      map c: Caller | c <= ROUNDS :: CallAt(c, j))
  }

  function Victim(j: nat): Call {
    Call("k", if j == ROUNDS then Done(Aborted) else Idle, if j == ROUNDS then MAX_ATTEMPTS else j,
         if j == 0 then None else Some(TOKEN), Uids(j))
  }

  function Rival(pc: Pc): Call {
    Call("k", pc, 0, if pc.Idle? then None else Some(TOKEN), {})
  }

  predicate RunTo(n: nat, run: seq<Cluster>, acts: seq<Act>, s: Cluster)
    requires ROUNDS <= n
  {
    ClusterRun(run, acts) && run[0] == AfterRounds(n, 0) && QuietRun(run, acts, "k") && run[|acts|] == s
  }

  lemma Extend(n: nat, run: seq<Cluster>, acts: seq<Act>, s: Cluster, s': Cluster, a: Act)
    requires ROUNDS <= n && RunTo(n, run, acts, s) && Next(s, s', a) && Quiet(s, a, "k")
    ensures RunTo(n, run + [s'], acts + [a], s')
  {
    var run', acts' := run + [s'], acts + [a];
    forall i | 0 <= i < |acts'| ensures Next(run'[i], run'[i + 1], acts'[i]) && Quiet(run'[i], acts'[i], "k") {
      if i < |acts| { assert run'[i] == run[i] && run'[i + 1] == run[i + 1] && acts'[i] == acts[i]; }
    }
  }

  /** Round j: the victim reads node j, the rival reads and commits first, the victim's commit aborts. */
  lemma Round(n: nat, run: seq<Cluster>, acts: seq<Act>, j: nat) returns (run': seq<Cluster>, acts': seq<Act>)
    requires j < ROUNDS <= n && RunTo(n, run, acts, AfterRounds(n, j))
    ensures RunTo(n, run', acts', AfterRounds(n, j + 1))
  {
    hide RunTo, Uids;
    var r := j + 1;
    var s0 := AfterRounds(n, j);
    assert j in Matching(s0.live, "k");
    var s1 := SetCall(s0, 0, s0.calls[0].(pc := Matched(j, j, TOKEN), obj := Some(TOKEN)));
    Extend(n, run, acts, s0, s1, Get(0, j));
    assert s1.calls[r] == s0.calls[r] == Rival(Idle) && s1.live == s0.live && s1.ts == j;
    var s2 := SetCall(s1, r, Rival(Matched(j, j, TOKEN)));
    Extend(n, run + [s1], acts + [Get(0, j)], s1, s2, Get(r, j));
    var s3 := SetCall(s2, r, Rival(Staged(j, j, TOKEN)));
    var run3, acts3 := run + [s1] + [s2], acts + [Get(0, j)] + [Get(r, j)];
    Extend(n, run3, acts3, s2, s3, Stage(r));
    var s4 := SetCall(s3, r, Rival(Done(Hit(j, TOKEN))))
              .(live := s3.live - {j}, written := s3.written[j := j + 1], ts := j + 1);
    Extend(n, run3 + [s3], acts3 + [Stage(r)], s3, s4, Commit(r));
    var run5, acts5 := run3 + [s3] + [s4], acts3 + [Stage(r)] + [Commit(r)];
    var s5 := SetCall(s4, 0, s4.calls[0].(pc := Staged(j, j, TOKEN)));
    Extend(n, run5, acts5, s4, s5, Stage(0));
    var s6 := AfterRounds(n, j + 1);
    RoundEnds(n, j, s5);
    Extend(n, run5 + [s5], acts5 + [Stage(0)], s5, s6, Commit(0));
    run', acts' := run5 + [s5] + [s6], acts5 + [Stage(0)] + [Commit(0)];
  }

  lemma RoundEnds(n: nat, j: nat, s: Cluster)
    requires j < ROUNDS <= n
    requires var v := Victim(j).(pc := Staged(j, j, TOKEN), obj := Some(TOKEN));
             s == Cluster(AfterRounds(n, j).live - {j}, AfterRounds(n, j).written[j := j + 1], j + 1, {}, {},
                          AfterRounds(n, j).calls[0 := v][j + 1 := Rival(Done(Hit(j, TOKEN)))])
    ensures Next(s, AfterRounds(n, j + 1), Commit(0))
  {
    hide Uids, WrittenAt, CallAt;
    var t := AfterRounds(n, j + 1);
    StoresMatch(n, j);
    CallsMatch(n, j, Victim(j).(pc := Staged(j, j, TOKEN), obj := Some(TOKEN)));
    assert s.calls[0] == Victim(j).(pc := Staged(j, j, TOKEN), obj := Some(TOKEN)) && s.written[j] == j + 1;
    UidsStep(j);
    assert Victim(j).lost + {j} == Victim(j + 1).lost;
  }

  lemma UidsStep(j: nat)
    ensures Uids(j) + {j} == Uids(j + 1)
  {
  }

  lemma StoresMatch(n: nat, j: nat)
    requires j < ROUNDS <= n
    ensures AfterRounds(n, j).live - {j} == AfterRounds(n, j + 1).live
    ensures AfterRounds(n, j).written[j := j + 1] == AfterRounds(n, j + 1).written
  {
  }

  lemma CallsMatch(n: nat, j: nat, v: Call)
    requires j < ROUNDS <= n
    ensures AfterRounds(n, j).calls[0 := v][j + 1 := Rival(Done(Hit(j, TOKEN)))][0 := Victim(j + 1)]
            == AfterRounds(n, j + 1).calls
  {
  }

  lemma FirstState(n: nat)
    requires ROUNDS <= n
    ensures ClusterInit(AfterRounds(n, 0))
  {
    var s := AfterRounds(n, 0);
    assert Victim(0).lost == {};
    forall c | c in s.calls ensures s.calls[c] == if c == 0 then Victim(0) else Rival(Idle) {
    }
  }

  lemma {:induction false} RunOfRounds(n: nat, j: nat) returns (run: seq<Cluster>, acts: seq<Act>)
    requires j <= ROUNDS <= n
    ensures RunTo(n, run, acts, AfterRounds(n, j))
  {
    hide Uids;
    if j == 0 {
      run, acts := [AfterRounds(n, 0)], [];
      FirstState(n);
    } else {
      run, acts := RunOfRounds(n, j - 1);
      run, acts := Round(n, run, acts, j - 1);
    }
  }

  lemma TokensMatch(n: nat)
    requires ROUNDS <= n
    ensures |Matching(AfterRounds(n, 0).live, "k")| == n
  {
    hide Uids;
    assert Matching(AfterRounds(n, 0).live, "k") == Uids(n);
  }

  /** A run in which call 0 loses eleven of n nodes to eleven rivals and surfaces the last abort. */
  lemma ManyNodesCanAbort(n: nat) returns (run: seq<Cluster>, acts: seq<Act>)
    requires n > MAX_ATTEMPTS
    ensures AbortsUnderContention(run, acts, 0, n)
  {
    hide Uids, Next, Quiet;
    run, acts := RunOfRounds(n, ROUNDS);
    TokensMatch(n);
  }

  /** Ten is the bound: contention alone can surface an abort if and only if more than ten nodes match. */
  lemma CanAbortIff(k: nat)
    ensures CanAbort(k) <==> k > 10
  {
    hide AbortsUnderContention;
    if k > MAX_ATTEMPTS {
      var run, acts := ManyNodesCanAbort(k);
    } else {
      forall run, acts, c ensures !AbortsUnderContention(run, acts, c, k) { FewNodesNeverAbort(run, acts, c, k); }
    }
  }

  lemma FewNodesNeverAbort(run: seq<Cluster>, acts: seq<Act>, c: Caller, k: nat)
    requires k <= MAX_ATTEMPTS
    ensures !AbortsUnderContention(run, acts, c, k)
  {
    if ClusterRun(run, acts) && c in run[0].calls && QuietRun(run, acts, run[0].calls[c].key) {
      AttemptsBounded(run, acts, c, |acts|);
    }
  }
}
