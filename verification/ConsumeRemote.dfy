/**
 GetAndDelete against a cluster: each attempt reads at a snapshot, stages the delete, and commits only
 if nobody has written the node since the snapshot; an abort is retried a bounded number of times. Any
 number of callers and other writers interleave. A run refines the atomic take exactly when no reply to a
 commit that landed is lost; there is one winner per node in every run.
 */
module ConsumeRemote {
  import opened Basics
  import opened ConsumeSpec

  /**
   Where a call stands. Matched and Staged hold the transaction's start timestamp and the node its read
   returned.
   */
  datatype Pc =
    | Idle
    | Matched(start: nat, uid: Uid, rec: Rec)
    | Staged(start: nat, uid: Uid, rec: Rec)
    | Done(result: Result)

  /** obj is the caller's struct: None when zero. lost: the nodes whose commit read as an abort, for the proofs. */
  datatype Call = Call(key: string, pc: Pc, attempt: nat, obj: Option<Rec>, lost: set<Uid>)

  datatype Cluster = Cluster(
    live: map<Uid, Rec>,
    written: map<Uid, nat>,   // timestamp of the last commit on each node ever used
    ts: nat,                  // last commit timestamp
    removed: set<Uid>,
    gone: set<Uid>,           // nodes whose delete landed without its caller being told
    calls: map<Caller, Call>)

  predicate ClusterInit(s: Cluster) {
    && s.live.Keys == s.written.Keys && s.removed == {} && s.gone == {}
    && (forall u :: u in s.written ==> s.written[u] <= s.ts)
    && forall c :: c in s.calls ==> s.calls[c].pc == Idle && s.calls[c].attempt == 0 && s.calls[c].lost == {}
  }

  datatype Act =
    | Get(c: Caller, uid: Uid)               // the read returns one matching node
    | GetNothing(c: Caller)
    | Stage(c: Caller)
    | Commit(c: Caller)
    | CommitLost(c: Caller, aborted: bool)   // it lands, but the caller gets an error, which may read as an abort
    | Break(c: Caller)                       // any other failure; the transaction is discarded
    | Other(w: Write)

  function SetCall(s: Cluster, c: Caller, call: Call): Cluster {
    s.(calls := s.calls[c := call])
  }

  predicate Next(s: Cluster, s': Cluster, a: Act) {
    match a
    case Get(c, u) =>
      && c in s.calls && s.calls[c].pc.Idle?
      && u in Matching(s.live, s.calls[c].key)
      && s' == SetCall(s, c, s.calls[c].(pc := Matched(s.ts, u, s.live[u]), obj := Some(s.live[u])))
    case GetNothing(c) =>
      && c in s.calls && s.calls[c].pc.Idle?
      && Matching(s.live, s.calls[c].key) == {}
      && s' == SetCall(s, c, s.calls[c].(pc := Done(Miss), obj := None))
    case Stage(c) =>
      && c in s.calls && s.calls[c].pc.Matched?
      && var p := s.calls[c].pc;
         s' == SetCall(s, c, s.calls[c].(pc := Staged(p.start, p.uid, p.rec)))
    case Commit(c) =>
      && c in s.calls && s.calls[c].pc.Staged?
      && s.calls[c].pc.uid in s.written
      && CommitStep(s, s', c)
    case CommitLost(c, aborted) =>
      && c in s.calls && s.calls[c].pc.Staged?
      && s.calls[c].pc.uid in s.written
      && LostStep(s, s', c, aborted)
    case Break(c) =>
      && c in s.calls && !s.calls[c].pc.Done?
      && s' == SetCall(s, c, s.calls[c].(pc := Done(Failed)))
    case Other(w) => OtherStep(s, s', w)
  }

  /** The call goes round again, attempts permitting. */
  function AfterAbort(call: Call): Call
    requires call.pc.Staged?
  {
    var more := call.(lost := call.lost + {call.pc.uid});
    if call.attempt < MAX_ATTEMPTS then more.(pc := Idle, attempt := call.attempt + 1) else more.(pc := Done(Aborted))
  }

  /** First committer wins: the commit lands unless the node was written after the snapshot. */
  predicate CommitStep(s: Cluster, s': Cluster, c: Caller)
    requires c in s.calls && s.calls[c].pc.Staged? && s.calls[c].pc.uid in s.written
  {
    var call := s.calls[c];
    var u := call.pc.uid;
    if s.written[u] > call.pc.start then s' == SetCall(s, c, AfterAbort(call))
    else
      s' == SetCall(s, c, call.(pc := Done(Hit(u, call.pc.rec))))
            .(live := s.live - {u}, written := s.written[u := s.ts + 1], ts := s.ts + 1)
  }

  /** The delete takes effect and the call does not learn of it. */
  predicate LostStep(s: Cluster, s': Cluster, c: Caller, aborted: bool)
    requires c in s.calls && s.calls[c].pc.Staged? && s.calls[c].pc.uid in s.written
  {
    var call := s.calls[c];
    var u := call.pc.uid;
    && s.written[u] <= call.pc.start
    && s' == SetCall(s, c, if aborted then AfterAbort(call) else call.(pc := Done(Failed)))
             .(live := s.live - {u}, written := s.written[u := s.ts + 1], ts := s.ts + 1, gone := s.gone + {u})
  }

  predicate OtherStep(s: Cluster, s': Cluster, w: Write) {
    match w
    case Insert(u, rec) =>
      u !in s.written && s' == s.(live := s.live[u := rec], written := s.written[u := s.ts + 1], ts := s.ts + 1)
    case Update(u, rec) =>
      u in s.live && s' == s.(live := s.live[u := rec], written := s.written[u := s.ts + 1], ts := s.ts + 1)
    case Remove(u) =>
      u in s.live && s' == s.(live := s.live - {u}, removed := s.removed + {u},
                              written := s.written[u := s.ts + 1], ts := s.ts + 1)
  }

  predicate ClusterRun(run: seq<Cluster>, acts: seq<Act>) {
    && |run| == |acts| + 1
    && ClusterInit(run[0])
    && forall i :: 0 <= i < |acts| ==> Next(run[i], run[i + 1], acts[i])
  }

  // ---------------------------------------------------------------- invariant

  /** A node read by a pending attempt is unchanged as long as nobody has written it since. */
  predicate CallOk(s: Cluster, call: Call) {
    match call.pc
    case Idle => true
    case Done(r) => (r.Hit? ==> call.obj == Some(r.rec) && r.rec.key == call.key) && (r.Miss? ==> call.obj == None)
    case _ =>
      var (start, u, rec) := (call.pc.start, call.pc.uid, call.pc.rec);
      && start <= s.ts && u in s.written && rec.key == call.key && call.obj == Some(rec)
      && (s.written[u] <= start ==> u in s.live && s.live[u] == rec)
  }

  predicate Inv(s: Cluster) {
    && s.live.Keys <= s.written.Keys
    && (forall u :: u in s.written ==> s.written[u] <= s.ts)
    && forall c :: c in s.calls ==> CallOk(s, s.calls[c])
  }

  /** The step left the store alone. */
  predicate Silent(s: Cluster, s': Cluster) {
    s'.live == s.live && s'.written == s.written && s'.ts == s.ts && s'.removed == s.removed
  }

  /** The step committed a write on node u and nothing else. */
  predicate Wrote(s: Cluster, s': Cluster, u: Uid) {
    s'.ts == s.ts + 1 && s'.written == s.written[u := s.ts + 1] && s'.live - {u} == s.live - {u}
  }

  /** A step changes one call at most, and the store by one commit at most. */
  lemma Footprint(s: Cluster, s': Cluster, a: Act) returns (u: Uid)
    requires Next(s, s', a)
    ensures s'.calls.Keys == s.calls.Keys
    ensures forall c :: c in s.calls && (a.Other? || c != a.c) ==> s'.calls[c] == s.calls[c]
    ensures Silent(s, s') || Wrote(s, s', u)
    ensures a.Other? ==> u == a.w.u && Wrote(s, s', u)
    ensures !a.Other? ==> a.c in s.calls && s'.removed == s.removed
    ensures !a.Other? && !Silent(s, s') ==>
      (a.Commit? || a.CommitLost?) && s.calls[a.c].pc.Staged? && u == s.calls[a.c].pc.uid && s'.live == s.live - {u}
  {
    u := if a.Other? then a.w.u else if a.Commit? || a.CommitLost? then s.calls[a.c].pc.uid else 0;
    if a.Other? {
      assert s'.live - {u} == s.live - {u};
    } else if a.Commit? || a.CommitLost? {
      assert (s.live - {u}) - {u} == s.live - {u};
    }
  }

  /** A commit on node u leaves every other pending call as it should be. */
  lemma WriteKeepsCall(s: Cluster, s': Cluster, u: Uid, call: Call)
    requires CallOk(s, call) && (forall v :: v in s.written ==> s.written[v] <= s.ts)
    requires Wrote(s, s', u)
    ensures CallOk(s', call)
  {
    if call.pc.Matched? || call.pc.Staged? {
      var v := call.pc.uid;
      if v != u && s.written[v] <= call.pc.start {
        assert v in s.live - {u} && (s.live - {u})[v] == s.live[v];
        assert v in s'.live - {u} && (s'.live - {u})[v] == s'.live[v];
      }
    }
  }

  lemma OwnCallOk(s: Cluster, s': Cluster, a: Act)
    requires Inv(s) && Next(s, s', a) && !a.Other? && a.c in s.calls && a.c in s'.calls
    ensures CallOk(s', s'.calls[a.c]) && s'.calls[a.c].key == s.calls[a.c].key
  {
    assert CallOk(s, s.calls[a.c]);
  }

  lemma StoreOk(s: Cluster, s': Cluster, u: Uid)
    requires Inv(s) && (Silent(s, s') || Wrote(s, s', u))
    ensures s'.live.Keys <= s'.written.Keys
    ensures forall v :: v in s'.written ==> s'.written[v] <= s'.ts
  {
    if !Silent(s, s') {
      forall v | v in s'.live ensures v in s'.written {
        assert v == u || v in s'.live - {u};
      }
    }
  }

  lemma NextKeepsInv(s: Cluster, s': Cluster, a: Act)
    requires Inv(s) && Next(s, s', a)
    ensures Inv(s')
    ensures Keys(s') == Keys(s)
  {
    hide Next, CallOk, Wrote;
    var u := Footprint(s, s', a);
    StoreOk(s, s', u);
    if !a.Other? { OwnCallOk(s, s', a); }
    forall c | c in s'.calls ensures CallOk(s', s'.calls[c]) {
      if a.Other? || c != a.c {
        if Silent(s, s') { SilentKeepsCall(s, s', s.calls[c]); } else { WriteKeepsCall(s, s', u, s.calls[c]); }
      }
    }
  }

  lemma SilentKeepsCall(s: Cluster, s': Cluster, call: Call)
    requires CallOk(s, call) && Silent(s, s')
    ensures CallOk(s', call)
  {
  }

  // ---------------------------------------------------------------- refinement

  function Results(calls: map<Caller, Call>): map<Caller, Result> {
    map c | c in calls && calls[c].pc.Done? :: calls[c].pc.result
  }

  function Abs(s: Cluster): State {
    State(s.live, s.written.Keys, s.removed, Results(s.calls))
  }

  function Keys(s: Cluster): map<Caller, string> {
    map c | c in s.calls :: s.calls[c].key
  }

  /** What a step looks like from outside. */
  function Shows(s: Cluster, s': Cluster, a: Act): Event {
    match a
    case Other(w) => Written(w)
    case _ => if a.c in s.calls && a.c in s'.calls && !s.calls[a.c].pc.Done? && s'.calls[a.c].pc.Done?
              then Taken(a.c, s'.calls[a.c].pc.result) else Internal
  }

  lemma SetResult(s: Cluster, c: Caller, call: Call)
    requires c in s.calls && !s.calls[c].pc.Done?
    ensures Results(SetCall(s, c, call).calls) ==
            if call.pc.Done? then Results(s.calls)[c := call.pc.result] else Results(s.calls)
  {
  }

  /** Each step of the protocol but a lost reply is one step of the atomic specification, or none. */
  lemma StepRefines(s: Cluster, s': Cluster, a: Act)
    requires Inv(s) && Next(s, s', a) && !a.CommitLost?
    ensures Step(Abs(s), Abs(s'), Keys(s), Shows(s, s', a))
  {
    if a.Commit? {
      assert CallOk(s, s.calls[a.c]);
      assert s'.written.Keys == s.written.Keys;
    }
    if !a.Other? { SetResult(s, a.c, s'.calls[a.c]); }
  }

  lemma {:induction false} RunKeepsInv(run: seq<Cluster>, acts: seq<Act>, i: nat)
    requires ClusterRun(run, acts) && i < |run|
    ensures Inv(run[i]) && Keys(run[i]) == Keys(run[0])
  {
    if i > 0 {
      RunKeepsInv(run, acts, i - 1);
      NextKeepsInv(run[i - 1], run[i], acts[i - 1]);
    }
  }

  function AbsRun(run: seq<Cluster>): (r: seq<State>)
    ensures |r| == |run|
  {
    seq(|run|, i requires 0 <= i < |run| => Abs(run[i]))
  }

  function EventsOf(run: seq<Cluster>, acts: seq<Act>): (r: seq<Event>)
    requires |run| == |acts| + 1
    ensures |r| == |acts|
  {
    seq(|acts|, i requires 0 <= i < |acts| => Shows(run[i], run[i + 1], acts[i]))
  }

  /** However the calls interleave, a run without a lost reply is a run of the atomic specification. */
  lemma RunRefines(run: seq<Cluster>, acts: seq<Act>)
    requires ClusterRun(run, acts) && forall i :: 0 <= i < |acts| ==> !acts[i].CommitLost?
    ensures Run(AbsRun(run), EventsOf(run, acts), Keys(run[0]))
  {
    forall i | 0 <= i < |acts|
      ensures Step(AbsRun(run)[i], AbsRun(run)[i + 1], Keys(run[0]), EventsOf(run, acts)[i])
    {
      RunKeepsInv(run, acts, i);
      StepRefines(run[i], run[i + 1], acts[i]);
    }
    assert Results(run[0].calls) == map[];
  }

  // ---------------------------------------------------------------- what every run keeps

  /** The state as the specification sees it when a delete with a lost reply counts as a removal by a writer. */
  function Counted(s: Cluster): State {
    Abs(s).(removed := s.removed + s.gone)
  }

  /** Each node that ever existed is stored, removed by a writer, deleted without a reply, or returned by exactly one call. */
  predicate Accounted(s: Cluster) {
    Conserved(Counted(s)) && s.removed !! s.gone
  }

  lemma CountedStep(s: Cluster, s': Cluster, keys: map<Caller, string>, e: Event)
    requires Step(Abs(s), Abs(s'), keys, e) && s'.gone == s.gone
    ensures Step(Counted(s), Counted(s'), keys, e)
  {
    assert e.Written? && e.w.Remove? ==> s.removed + {e.w.u} + s.gone == s.removed + s.gone + {e.w.u};
  }

  lemma GoneGrows(s: Cluster, s': Cluster, a: Act)
    requires Next(s, s', a)
    ensures s'.gone == if a.CommitLost? then s.gone + {s.calls[a.c].pc.uid} else s.gone
  {
  }

  /** A lost reply is a removal, and then a failed call or none. */
  lemma LostStepIsTwo(s: Cluster, s': Cluster, a: Act) returns (u: Uid, mid: State, e: Event)
    requires Inv(s) && Next(s, s', a) && a.CommitLost?
    ensures Step(Counted(s), mid, Keys(s), Written(Remove(u)))
    ensures Step(mid, Counted(s'), Keys(s), e)
  {
    u := s.calls[a.c].pc.uid;
    assert CallOk(s, s.calls[a.c]);
    mid := Counted(s).(live := s.live - {u}, removed := s.removed + s.gone + {u});
    SetResult(s, a.c, s'.calls[a.c]);
    assert s'.written.Keys == s.written.Keys && s'.removed + s'.gone == s.removed + s.gone + {u};
    e := Shows(s, s', a);
  }

  lemma NextAccounts(s: Cluster, s': Cluster, a: Act)
    requires Inv(s) && Next(s, s', a) && Accounted(s)
    ensures Accounted(s')
  {
    hide Next, Conserved, Step;
    GoneGrows(s, s', a);
    if a.CommitLost? {
      var u, mid, e := LostStepIsTwo(s, s', a);
      StepConserves(Counted(s), mid, Keys(s), Written(Remove(u)));
      StepConserves(mid, Counted(s'), Keys(s), e);
    } else {
      StepRefines(s, s', a);
      CountedStep(s, s', Keys(s), Shows(s, s', a));
      StepConserves(Counted(s), Counted(s'), Keys(s), Shows(s, s', a));
    }
    RemovedIsNotGone(s, s', a);
  }

  lemma RemovedIsNotGone(s: Cluster, s': Cluster, a: Act)
    requires Inv(s) && Next(s, s', a) && Accounted(s)
    ensures s'.removed !! s'.gone
  {
    if a.CommitLost? { assert CallOk(s, s.calls[a.c]) && s.calls[a.c].pc.uid in s.live; }
    assert s.live.Keys !! s.removed + s.gone;
  }

  /** Over every run, lost replies included, no node is lost track of and none is returned twice. */
  lemma {:induction false} EveryRunAccounts(run: seq<Cluster>, acts: seq<Act>, i: nat)
    requires ClusterRun(run, acts) && i < |run|
    ensures Accounted(run[i])
  {
    if i == 0 {
      assert Results(run[0].calls) == map[] && Winners(map[]) == {};
    } else {
      EveryRunAccounts(run, acts, i - 1);
      RunKeepsInv(run, acts, i - 1);
      NextAccounts(run[i - 1], run[i], acts[i - 1]);
    }
  }

  /** A lost reply takes a node from the store, and nobody is given it. */
  lemma LostStepRefinesNothing(s: Cluster, s': Cluster, a: Act, keys: map<Caller, string>, e: Event)
    requires Inv(s) && Accounted(s) && Next(s, s', a) && a.CommitLost?
    ensures !Step(Abs(s), Abs(s'), keys, e)
  {
    var u := s.calls[a.c].pc.uid;
    assert CallOk(s, s.calls[a.c]);
    assert u in s.live && u !in s.removed && u !in s'.live && s'.removed == s.removed;
    SetResult(s, a.c, s'.calls[a.c]);
    assert forall d :: d in Results(s'.calls) && Results(s'.calls)[d].Hit? ==> d in Results(s.calls);
  }

  /** Over all runs: some events make the run one of the atomic take if and only if no reply is lost. */
  lemma RefinesIffNoReplyLost(run: seq<Cluster>, acts: seq<Act>)
    requires ClusterRun(run, acts)
    ensures (exists events :: Run(AbsRun(run), events, Keys(run[0]))) <==>
            forall i :: 0 <= i < |acts| ==> !acts[i].CommitLost?
  {
    hide Abs, Step, Next, Accounted;
    if i :| 0 <= i < |acts| && acts[i].CommitLost? {
      RunKeepsInv(run, acts, i);
      EveryRunAccounts(run, acts, i);
      forall events: seq<Event> | |events| == |acts|
        ensures !Step(AbsRun(run)[i], AbsRun(run)[i + 1], Keys(run[0]), events[i])
      {
        LostStepRefinesNothing(run[i], run[i + 1], acts[i], Keys(run[0]), events[i]);
      }
    } else {
      RunRefines(run, acts);
    }
  }

  /**
   When a call took effect. Behind a hit there is one step of the call at which the node was stored with
   exactly that record and is removed; behind a miss, one at which no stored node had the key.
   */
  lemma {:induction false} TookEffectAt(run: seq<Cluster>, acts: seq<Act>, c: Caller, i: nat) returns (j: nat)
    requires ClusterRun(run, acts) && i < |run| && c in run[i].calls && run[i].calls[c].pc.Done?
    ensures j < i && c in run[j].calls && run[j].calls[c].key == run[i].calls[c].key
    ensures match run[i].calls[c].pc.result
            case Hit(u, rec) => acts[j] == Commit(c) && u in run[j].live && run[j].live[u] == rec && run[j + 1].live == run[j].live - {u}
            case Miss => acts[j] == GetNothing(c) && forall u :: u in run[j].live ==> run[j].live[u].key != run[j].calls[c].key
            case Aborted => acts[j] == Commit(c) || acts[j] == CommitLost(c, true)
            case Failed => acts[j] == Break(c) || acts[j] == CommitLost(c, false)
  {
    assert i > 0 && Next(run[i - 1], run[i], acts[i - 1]);
    var a := acts[i - 1];
    RunKeepsInv(run, acts, i - 1);
    if !a.Other? && a.c == c {
      j := i - 1;
      var s := run[j];
      assert CallOk(s, s.calls[c]);
      assert a.GetNothing? ==> forall u :: u in s.live && s.live[u].key == s.calls[c].key ==> u in Matching(s.live, s.calls[c].key);
    } else {
      var u := Footprint(run[i - 1], run[i], a);
      j := TookEffectAt(run, acts, c, i - 1);
    }
  }

  /** What a caller sees of any run: one winner per node, the struct filled on a hit and zero on a miss. */
  lemma CallersAgree(run: seq<Cluster>, acts: seq<Act>, c: Caller, d: Caller)
    requires ClusterRun(run, acts)
    requires var s := run[|acts|]; c in s.calls && d in s.calls && s.calls[c].pc.Done? && s.calls[d].pc.Done?
    ensures var s := run[|acts|]; var (r, q) := (s.calls[c].pc.result, s.calls[d].pc.result);
            && (r.Hit? ==> r.uid !in s.live && s.calls[c].obj == Some(r.rec) && r.rec.key == s.calls[c].key)
            && (r.Miss? ==> s.calls[c].obj == None)
            && (c != d && r.Hit? && q.Hit? ==> r.uid != q.uid)
  {
    var s := run[|acts|];
    EveryRunAccounts(run, acts, |acts|);
    RunKeepsInv(run, acts, |acts|);
    assert c in Results(s.calls) && d in Results(s.calls);
    assert CallOk(s, s.calls[c]);
  }
}
