/**
 GetAndDelete in embedded mode: callers take turns under a mutex, the engine applies the delete at once,
 and the commit that follows is another mutation, which can fail when the delete is already done. Other
 writers do not take the mutex. A run refines the atomic take exactly when every delete took the record
 that was read or nothing, and its commit succeeded exactly when it took something.
 */
module ConsumeEmbedded {
  import opened Basics
  import opened ConsumeSpec

  /** Deleted: the mutation is applied, the commit is not; took is what the delete removed from the store. */
  datatype Pc =
    | Idle
    | Locked
    | Found(uid: Uid, rec: Rec)
    | Deleted(uid: Uid, rec: Rec, took: Option<Rec>)
    | Done(result: Result)

  datatype Call = Call(key: string, pc: Pc, attempt: nat, obj: Option<Rec>)

  datatype Engine = Engine(
    live: map<Uid, Rec>, used: set<Uid>, removed: set<Uid>, mutex: Option<Caller>, calls: map<Caller, Call>)

  predicate EngineInit(s: Engine) {
    && s.live.Keys == s.used && s.removed == {} && s.mutex == None
    && forall c :: c in s.calls ==> s.calls[c].pc == Idle && s.calls[c].attempt == 0
  }

  datatype Act =
    | Lock(c: Caller)
    | Get(c: Caller, uid: Uid)
    | GetNothing(c: Caller)                    // zeroes the struct and returns, releasing the mutex
    | Delete(c: Caller)
    | Return(c: Caller)                        // the commit succeeds
    | CommitFails(c: Caller, aborted: bool)    // its error may read as an abort, and then the call retries
    | Break(c: Caller)                         // a failure before the delete
    | Other(w: Write)

  function SetCall(s: Engine, c: Caller, call: Call): Engine {
    s.(calls := s.calls[c := call])
  }

  function Lookup(live: map<Uid, Rec>, u: Uid): Option<Rec> {
    if u in live then Some(live[u]) else None
  }

  predicate Next(s: Engine, s': Engine, a: Act) {
    match a
    case Other(w) => OtherStep(s, s', w)
    case _ => a.c in s.calls && CallStep(s, s', a, s.calls[a.c])
  }

  predicate CallStep(s: Engine, s': Engine, a: Act, call: Call) {
    match a
    case Lock(c) =>
      call.pc.Idle? && s.mutex == None && s' == SetCall(s, c, call.(pc := Locked)).(mutex := Some(c))
    case Get(c, u) =>
      call.pc.Locked? && u in Matching(s.live, call.key)
      && s' == SetCall(s, c, call.(pc := Found(u, s.live[u]), obj := Some(s.live[u])))
    case GetNothing(c) =>
      call.pc.Locked? && Matching(s.live, call.key) == {}
      && s' == SetCall(s, c, call.(pc := Done(Miss), obj := None)).(mutex := None)
    case Delete(c) =>
      call.pc.Found?
      && s' == SetCall(s, c, call.(pc := Deleted(call.pc.uid, call.pc.rec, Lookup(s.live, call.pc.uid))))
               .(live := s.live - {call.pc.uid})
    case Return(c) =>
      call.pc.Deleted? && s' == SetCall(s, c, call.(pc := Done(Hit(call.pc.uid, call.pc.rec)))).(mutex := None)
    case CommitFails(c, aborted) =>
      call.pc.Deleted?
      && s' == if aborted && call.attempt < MAX_ATTEMPTS
               then SetCall(s, c, call.(pc := Locked, attempt := call.attempt + 1))
               else SetCall(s, c, call.(pc := Done(if aborted then Aborted else Failed))).(mutex := None)
    case Break(c) =>
      (call.pc.Locked? || call.pc.Found?) && s' == SetCall(s, c, call.(pc := Done(Failed))).(mutex := None)
    case Other(_) => false
  }

  predicate OtherStep(s: Engine, s': Engine, w: Write) {
    match w
    case Insert(u, rec) => u !in s.used && s' == s.(live := s.live[u := rec], used := s.used + {u})
    case Update(u, rec) => u in s.live && s' == s.(live := s.live[u := rec])
    case Remove(u) => u in s.live && s' == s.(live := s.live - {u}, removed := s.removed + {u})
  }

  /** Any number of callers and any other writers, in any order. */
  predicate EngineRun(run: seq<Engine>, acts: seq<Act>) {
    && |run| == |acts| + 1
    && EngineInit(run[0])
    && forall i :: 0 <= i < |acts| ==> Next(run[i], run[i + 1], acts[i])
  }

  // ---------------------------------------------------------------- invariant

  predicate InSection(pc: Pc) {
    pc.Locked? || pc.Found? || pc.Deleted?
  }

  /** The mutex holder is the one caller in the critical section; what it read is stored or was removed. */
  predicate Inv(s: Engine) {
    && s.live.Keys <= s.used && s.removed <= s.used && s.live.Keys !! s.removed
    && (forall c :: c in s.calls && InSection(s.calls[c].pc) ==> s.mutex == Some(c))
    && forall c :: c in s.calls ==> CallOk(s, s.calls[c])
  }

  predicate CallOk(s: Engine, call: Call) {
    match call.pc
    case Found(u, rec) => (u in s.live || u in s.removed) && rec.key == call.key && call.obj == Some(rec)
    case Deleted(u, rec, took) =>
      && u in s.used && u !in s.live && (took.None? <==> u in s.removed)
      && call.obj == Some(rec) && rec.key == call.key
    case Done(r) => (r.Hit? ==> call.obj == Some(r.rec) && r.rec.key == call.key) && (r.Miss? ==> call.obj == None)
    case _ => true
  }

  lemma NextKeepsInv(s: Engine, s': Engine, a: Act)
    requires Inv(s) && Next(s, s', a)
    ensures Inv(s')
    ensures Keys(s') == Keys(s)
  {
    forall c | c in s'.calls ensures CallOk(s', s'.calls[c]) && (InSection(s'.calls[c].pc) ==> s'.mutex == Some(c)) {
      assert c in s.calls && CallOk(s, s.calls[c]);
      if !a.Other? && c != a.c { assert s'.calls[c] == s.calls[c]; }
    }
  }

  lemma {:induction false} RunKeepsInv(run: seq<Engine>, acts: seq<Act>, i: nat)
    requires EngineRun(run, acts) && i < |run|
    ensures Inv(run[i]) && Keys(run[i]) == Keys(run[0])
  {
    if i > 0 {
      RunKeepsInv(run, acts, i - 1);
      NextKeepsInv(run[i - 1], run[i], acts[i - 1]);
    }
  }

  function Keys(s: Engine): map<Caller, string> {
    map c | c in s.calls :: s.calls[c].key
  }

  // ---------------------------------------------------------------- what it is to refine the atomic take

  /**
   The same store, and the results of the calls that have one: what a finished call returned, and for a
   call whose delete is applied at most the hit it is about to report.
   */
  ghost predicate Matches(a: State, s: Engine) {
    && a.live == s.live && a.used == s.used && a.removed == s.removed
    && (forall c :: c in s.calls && s.calls[c].pc.Done? ==> c in a.results)
    && forall c :: c in a.results ==> c in s.calls && Reports(s.calls[c].pc, a.results[c])
  }

  predicate Reports(pc: Pc, r: Result) {
    pc == Done(r) || (pc.Deleted? && r == Hit(pc.uid, pc.rec))
  }

  ghost predicate Explains(spec: seq<State>, events: seq<Event>, run: seq<Engine>) {
    && |spec| == |run| && |run| > 0
    && Run(spec, events, Keys(run[0]))
    && forall i :: 0 <= i < |run| ==> Matches(spec[i], run[i])
  }

  /** Some run of the atomic specification explains the run step by step. */
  ghost predicate Refines(run: seq<Engine>) {
    exists spec, events :: Explains(spec, events, run)
  }

  // ---------------------------------------------------------------- step by step

  /** The step does nothing the atomic take cannot explain. */
  predicate StepSound(s: Engine, a: Act) {
    !a.Other? && a.c in s.calls ==>
      var pc := s.calls[a.c].pc;
      && (a.Delete? && pc.Found? ==> Lookup(s.live, pc.uid).None? || Lookup(s.live, pc.uid) == Some(pc.rec))
      && (a.Return? && pc.Deleted? ==> pc.took == Some(pc.rec))
      && (a.CommitFails? && pc.Deleted? ==> pc.took == None)
  }

  function Results(calls: map<Caller, Call>): map<Caller, Result> {
    map c | c in calls && (calls[c].pc.Done? || (calls[c].pc.Deleted? && calls[c].pc.took == Some(calls[c].pc.rec))) ::
      if calls[c].pc.Done? then calls[c].pc.result else Hit(calls[c].pc.uid, calls[c].pc.rec)
  }

  function Abs(s: Engine): State {
    State(s.live, s.used, s.removed, Results(s.calls))
  }

  /** The take happens at the delete, if the node was there; the call only returns later. */
  function Shows(s: Engine, a: Act): Event {
    match a
    case Other(w) => Written(w)
    case Delete(c) =>
      if c in s.calls && s.calls[c].pc.Found? && s.calls[c].pc.uid in s.live
      then Taken(c, Hit(s.calls[c].pc.uid, s.calls[c].pc.rec)) else Internal
    case GetNothing(c) => Taken(c, Miss)
    case Break(c) => Taken(c, Failed)
    case CommitFails(c, aborted) =>
      if aborted && c in s.calls && s.calls[c].attempt < MAX_ATTEMPTS then Internal
      else Taken(c, if aborted then Aborted else Failed)
    case _ => Internal
  }

  lemma SoundStepRefines(s: Engine, s': Engine, a: Act)
    requires Inv(s) && Next(s, s', a) && StepSound(s, a)
    ensures Step(Abs(s), Abs(s'), Keys(s), Shows(s, a))
  {
    if !a.Other? {
      assert CallOk(s, s.calls[a.c]);
      var call := s'.calls[a.c];
      assert s'.calls == s.calls[a.c := call];
      ResultsOf(s.calls, a.c, call);
    }
  }

  function ResultOf(pc: Pc): Option<Result> {
    if pc.Done? then Some(pc.result)
    else if pc.Deleted? && pc.took == Some(pc.rec) then Some(Hit(pc.uid, pc.rec)) else None
  }

  lemma ResultsOf(calls: map<Caller, Call>, c: Caller, call: Call)
    requires c in calls
    ensures ResultOf(call.pc).Some? ==> Results(calls[c := call]) == Results(calls)[c := ResultOf(call.pc).value]
    ensures ResultOf(call.pc).None? && ResultOf(calls[c].pc).None? ==> Results(calls[c := call]) == Results(calls)
    ensures ResultOf(calls[c].pc).Some? ==> c in Results(calls) && Results(calls)[c] == ResultOf(calls[c].pc).value
  {
  }

  lemma AbsMatches(s: Engine)
    ensures Matches(Abs(s), s)
  {
  }

  lemma SoundStepsRefine(run: seq<Engine>, acts: seq<Act>)
    requires EngineRun(run, acts)
    requires forall k :: 0 <= k < |acts| ==> StepSound(run[k], acts[k])
    ensures Refines(run)
  {
    hide Next, StepSound, Matches, Results;
    var spec := seq(|run|, i requires 0 <= i < |run| => Abs(run[i]));
    var events := seq(|acts|, i requires 0 <= i < |acts| => Shows(run[i], acts[i]));
    forall i | 0 <= i < |acts| ensures Step(spec[i], spec[i + 1], Keys(run[0]), events[i]) {
      RunKeepsInv(run, acts, i);
      SoundStepRefines(run[i], run[i + 1], acts[i]);
    }
    forall i | 0 <= i < |run| ensures Matches(spec[i], run[i]) { AbsMatches(run[i]); }
    NoResults(run[0]);
    assert Explains(spec, events, run);
  }

  lemma NoResults(s: Engine)
    requires EngineInit(s)
    ensures Init(Abs(s))
  {
    assert Results(s.calls) == map[];
  }

  // ---------------------------------------------------------------- nothing else can explain a run

  /** A delete that took something took what was read, and has been explained. */
  ghost predicate Told(a: State, s: Engine) {
    forall c :: c in s.calls && s.calls[c].pc.Deleted? && s.calls[c].pc.took.Some? ==>
      s.calls[c].pc.took == Some(s.calls[c].pc.rec) && c in a.results
  }

  lemma ResultsGrow(a: State, a': State, keys: map<Caller, string>, e: Event)
    requires Step(a, a', keys, e)
    ensures forall c :: c in a.results ==> c in a'.results && a'.results[c] == a.results[c]
  {
  }

  lemma ExplainedStepIsSound(a: State, a': State, s: Engine, s': Engine, act: Act, keys: map<Caller, string>, e: Event)
    requires Inv(s) && Next(s, s', act) && Inv(s')
    requires Matches(a, s) && Matches(a', s') && Told(a, s) && Conserved(a) && Conserved(a')
    requires Step(a, a', keys, e)
    ensures StepSound(s, act) && Told(a', s')
  {
    hide Conserved, Step, Inv, CallOk;
    ResultsGrow(a, a', keys, e);
    match act
    case Delete(c) =>
      if s.calls[c].pc.uid in s.live { OnlyTheDeleterTakes(a, a', s, s', c, keys, e); }
      ToldAgain(a, a', s, s', act);
    case Return(c) =>
      ReturnTookSomething(a', s, s', c);
      ToldAgain(a, a', s, s', act);
    case CommitFails(c, _) =>
      FailureTookNothing(a, a', s, s', c, act);
      ToldAgain(a, a', s, s', act);
    case _ => ToldAgain(a, a', s, s', act);
  }

  /** A step other than an explained delete leaves every delete told. */
  lemma ToldAgain(a: State, a': State, s: Engine, s': Engine, act: Act)
    requires Next(s, s', act) && Told(a, s)
    requires forall c :: c in a.results ==> c in a'.results
    requires act.Delete? ==>
               Lookup(s.live, s.calls[act.c].pc.uid).Some? ==>
                 Lookup(s.live, s.calls[act.c].pc.uid) == Some(s.calls[act.c].pc.rec) && act.c in a'.results
    ensures Told(a', s')
  {
    assert !act.Other? ==> forall d :: d in s.calls && d != act.c ==> s'.calls[d] == s.calls[d];
    assert act.Other? ==> s'.calls == s.calls;
  }

  /** A call whose delete is told keeps its hit, so no later step can give it another result or none. */
  lemma FailureTookNothing(a: State, a': State, s: Engine, s': Engine, c: Caller, act: Act)
    requires act.CommitFails? && act.c == c && Next(s, s', act) && Matches(a, s) && Matches(a', s') && Told(a, s)
    requires forall d :: d in a.results ==> d in a'.results && a'.results[d] == a.results[d]
    ensures s.calls[c].pc.took.None?
  {
    var pc, pc' := s.calls[c].pc, s'.calls[c].pc;
    assert pc'.Locked? || pc' == Done(Aborted) || pc' == Done(Failed);
    assert forall r :: Reports(pc, r) ==> !Reports(pc', r);
  }

  lemma ReturnTookSomething(a': State, s: Engine, s': Engine, c: Caller)
    requires Inv(s) && Next(s, s', Return(c)) && Matches(a', s') && Conserved(a')
    ensures s.calls[c].pc.took.Some?
  {
    var pc := s.calls[c].pc;
    assert c in s'.calls && a'.results[c] == Hit(pc.uid, pc.rec);
    assert pc.uid in Winners(a'.results);
    assert CallOk(s, s.calls[c]);
  }

  /** At a delete no other call gets a result. */
  lemma NewResultIsTheDeleters(a: State, a': State, s: Engine, s': Engine, c: Caller)
    requires Inv(s) && Next(s, s', Delete(c)) && Matches(a, s) && Matches(a', s') && Told(a, s)
    ensures forall d :: d in a'.results && d !in a.results ==> d == c
  {
    assert forall d :: d in s.calls && d != c ==> s'.calls[d] == s.calls[d] && !InSection(s.calls[d].pc);
  }

  /** A node leaves the store at a delete only by a take of that call. */
  lemma OnlyTheDeleterTakes(a: State, a': State, s: Engine, s': Engine, c: Caller, keys: map<Caller, string>, e: Event)
    requires Inv(s) && Next(s, s', Delete(c)) && s.calls[c].pc.uid in s.live
    requires Matches(a, s) && Matches(a', s') && Told(a, s) && Conserved(a)
    requires Step(a, a', keys, e)
    ensures c in a'.results && a.live[s.calls[c].pc.uid] == s.calls[c].pc.rec
  {
    NewResultIsTheDeleters(a, a', s, s', c);
    LeavesByTake(a, a', keys, e, s.calls[c].pc.uid);
    hide Step, Conserved;
    assert e.c == c && Reports(s'.calls[c].pc, e.r);
  }

  /** With the removals unchanged, only a take makes a node go. */
  lemma LeavesByTake(a: State, a': State, keys: map<Caller, string>, e: Event, u: Uid)
    requires Conserved(a) && Step(a, a', keys, e)
    requires u in a.live && u !in a'.live && a'.removed == a.removed
    ensures e.Taken? && e.r.Hit? && e.r.uid == u && e.r.rec == a.live[u] && e.c !in a.results
    ensures e.c in a'.results && a'.results[e.c] == e.r
  {
  }

  /** Every step of a run that the atomic take explains is sound. */
  lemma {:induction false} ExplainedRunIsSound(
    spec: seq<State>, events: seq<Event>, run: seq<Engine>, acts: seq<Act>, k: nat)
    requires EngineRun(run, acts) && Explains(spec, events, run) && k <= |acts|
    ensures Told(spec[k], run[k])
    ensures forall i :: 0 <= i < k ==> StepSound(run[i], acts[i])
  {
    hide Next, Step, StepSound, Matches, Conserved, Inv;
    if k > 0 {
      ExplainedRunIsSound(spec, events, run, acts, k - 1);
      RunKeepsInv(run, acts, k - 1);
      RunKeepsInv(run, acts, k);
      RunConserves(spec, events, Keys(run[0]), k - 1);
      RunConserves(spec, events, Keys(run[0]), k);
      ExplainedStepIsSound(spec[k - 1], spec[k], run[k - 1], run[k], acts[k - 1], Keys(run[0]), events[k - 1]);
    }
  }

  lemma RefinesIffStepsSound(run: seq<Engine>, acts: seq<Act>)
    requires EngineRun(run, acts)
    ensures Refines(run) <==> forall k :: 0 <= k < |acts| ==> StepSound(run[k], acts[k])
  {
    RunLength(run, acts);
    hide Explains, EngineRun, StepSound;
    if Refines(run) {
      var spec: seq<State>, events: seq<Event> :| Explains(spec, events, run);
      ExplainedRunIsSound(spec, events, run, acts, |acts|);
    } else if forall k :: 0 <= k < |acts| ==> StepSound(run[k], acts[k]) {
      SoundStepsRefine(run, acts);
    }
  }

  lemma RunLength(run: seq<Engine>, acts: seq<Act>)
    requires EngineRun(run, acts)
    ensures |run| == |acts| + 1
  {
  }

  // ---------------------------------------------------------------- the condition, in terms of the schedule

  /** What writers without the mutex leave of a node. */
  function Left(acts: seq<Act>, u: Uid, start: Option<Rec>): Option<Rec> {
    if acts == [] then start else
      var before, last := Left(acts[..|acts| - 1], u, start), acts[|acts| - 1];
      if last == Other(Remove(u)) then None
      else if last.Other? && last.w.Update? && last.w.u == u then Some(last.w.rec)
      else before
  }

  predicate By(a: Act, c: Caller) {
    !a.Other? && a.c == c
  }

  /** c does nothing strictly between i and j. */
  predicate Rests(acts: seq<Act>, c: Caller, i: nat, j: nat)
    requires j <= |acts|
  {
    forall m :: i < m < j ==> !By(acts[m], c)
  }

  /** c reads node u at i and deletes at j. */
  predicate Attempt(acts: seq<Act>, c: Caller, u: Uid, i: nat, j: nat) {
    i < j < |acts| && acts[i] == Get(c, u) && acts[j] == Delete(c) && Rests(acts, c, i, j)
  }

  predicate CommitOf(acts: seq<Act>, c: Caller, j: nat, k: nat) {
    j < k < |acts| && By(acts[k], c) && Rests(acts, c, j, k)
  }

  /** The record the read at i returned, and what was left of it at j. */
  function LeftAt(run: seq<Engine>, acts: seq<Act>, u: Uid, i: nat, j: nat): Option<Rec>
    requires i < j <= |acts| < |run|
  {
    Left(acts[i + 1..j], u, Lookup(run[i].live, u))
  }

  /**
   Between a read and its delete the others leave the node as it was read or remove it, and the commit
   after the delete succeeds exactly when they did not remove it.
   */
  ghost predicate Undisturbed(run: seq<Engine>, acts: seq<Act>)
    requires |run| == |acts| + 1
  {
    forall c, u, i: nat, j: nat :: Attempt(acts, c, u, i, j) ==>
      && (LeftAt(run, acts, u, i, j).None? || LeftAt(run, acts, u, i, j) == Lookup(run[i].live, u))
      && forall k: nat :: CommitOf(acts, c, j, k) ==> (acts[k].Return? <==> LeftAt(run, acts, u, i, j).Some?)
  }

  lemma LeftStep(acts: seq<Act>, u: Uid, start: Option<Rec>, i: nat, m: nat)
    requires i < m < |acts|
    ensures Left(acts[i + 1..m + 1], u, start) ==
            if acts[m] == Other(Remove(u)) then None
            else if acts[m].Other? && acts[m].w.Update? && acts[m].w.u == u then Some(acts[m].w.rec)
            else Left(acts[i + 1..m], u, start)
  {
    assert acts[i + 1..m + 1][..m - i - 1] == acts[i + 1..m];
  }

  /** While a reader holds the mutex, only writers change the node. */
  lemma OneStepLeft(s: Engine, s': Engine, a: Act, c: Caller, u: Uid)
    requires Inv(s) && Next(s, s', a) && c in s.calls && s.calls[c].pc.Found? && s.calls[c].pc.uid == u && !By(a, c)
    ensures c in s'.calls && s'.calls[c] == s.calls[c]
    ensures Lookup(s'.live, u) ==
            if a == Other(Remove(u)) then None
            else if a.Other? && a.w.Update? && a.w.u == u then Some(a.w.rec)
            else Lookup(s.live, u)
  {
    assert s.mutex == Some(c) && CallOk(s, s.calls[c]);
    assert forall d :: d in s.calls && d != c ==> !InSection(s.calls[d].pc);
  }

  lemma {:induction false} FoundSince(run: seq<Engine>, acts: seq<Act>, c: Caller, u: Uid, i: nat, m: nat)
    requires EngineRun(run, acts) && i < m <= |acts| && acts[i] == Get(c, u) && Rests(acts, c, i, m)
    ensures u in run[i].live && c in run[m].calls && run[m].calls[c].pc == Found(u, run[i].live[u])
    ensures Lookup(run[m].live, u) == LeftAt(run, acts, u, i, m)
  {
    hide Left;
    RunKeepsInv(run, acts, m - 1);
    assert Next(run[m - 1], run[m], acts[m - 1]);
    if m == i + 1 {
      NothingLeftToDo(acts, u, Lookup(run[i].live, u), m);
    } else {
      FoundSince(run, acts, c, u, i, m - 1);
      OneStepLeft(run[m - 1], run[m], acts[m - 1], c, u);
      LeftStep(acts, u, Lookup(run[i].live, u), i, m - 1);
    }
  }

  lemma NothingLeftToDo(acts: seq<Act>, u: Uid, start: Option<Rec>, m: nat)
    requires m <= |acts|
    ensures Left(acts[m..m], u, start) == start
  {
  }

  lemma {:induction false} DeletedSince(run: seq<Engine>, acts: seq<Act>, c: Caller, u: Uid, i: nat, j: nat, m: nat)
    requires EngineRun(run, acts) && Attempt(acts, c, u, i, j) && j < m <= |acts| && Rests(acts, c, j, m)
    ensures u in run[i].live && c in run[m].calls
    ensures run[m].calls[c].pc == Deleted(u, run[i].live[u], LeftAt(run, acts, u, i, j))
  {
    hide Left;
    FoundSince(run, acts, c, u, i, j);
    assert Next(run[m - 1], run[m], acts[m - 1]);
    if m > j + 1 {
      DeletedSince(run, acts, c, u, i, j, m - 1);
      OtherCallsStay(run[m - 1], run[m], acts[m - 1], c);
    }
  }

  lemma OtherCallsStay(s: Engine, s': Engine, a: Act, c: Caller)
    requires Next(s, s', a) && c in s.calls && !By(a, c)
    ensures c in s'.calls && s'.calls[c] == s.calls[c]
  {
  }

  /** A call that has found a node read it at some step. */
  lemma {:induction false} ReadOf(run: seq<Engine>, acts: seq<Act>, c: Caller, m: nat) returns (i: nat)
    requires EngineRun(run, acts) && m < |run| && c in run[m].calls && run[m].calls[c].pc.Found?
    ensures i < m && acts[i] == Get(c, run[m].calls[c].pc.uid) && Rests(acts, c, i, m)
  {
    assert m > 0;
    assert Next(run[m - 1], run[m], acts[m - 1]);
    if By(acts[m - 1], c) {
      i := m - 1;
    } else {
      OtherCallsStayBack(run[m - 1], run[m], acts[m - 1], c);
      i := ReadOf(run, acts, c, m - 1);
    }
  }

  lemma OtherCallsStayBack(s: Engine, s': Engine, a: Act, c: Caller)
    requires Next(s, s', a) && c in s'.calls && !By(a, c)
    ensures c in s.calls && s'.calls[c] == s.calls[c]
  {
  }

  /** A call whose delete is applied deleted at some step, after a read. */
  lemma {:induction false} DeleteOf(run: seq<Engine>, acts: seq<Act>, c: Caller, m: nat) returns (i: nat, j: nat)
    requires EngineRun(run, acts) && m < |run| && c in run[m].calls && run[m].calls[c].pc.Deleted?
    ensures j < m && Attempt(acts, c, run[m].calls[c].pc.uid, i, j) && Rests(acts, c, j, m)
  {
    assert m > 0;
    assert Next(run[m - 1], run[m], acts[m - 1]);
    if By(acts[m - 1], c) {
      j := m - 1;
      i := ReadOf(run, acts, c, m - 1);
    } else {
      OtherCallsStayBack(run[m - 1], run[m], acts[m - 1], c);
      i, j := DeleteOf(run, acts, c, m - 1);
    }
  }

  lemma UndisturbedStepIsSound(run: seq<Engine>, acts: seq<Act>, k: nat)
    requires EngineRun(run, acts) && Undisturbed(run, acts) && k < |acts|
    ensures StepSound(run[k], acts[k])
  {
    hide Left;
    var s, a := run[k], acts[k];
    assert Next(s, run[k + 1], a);
    if a.Delete? {
      var i := ReadOf(run, acts, a.c, k);
      FoundSince(run, acts, a.c, s.calls[a.c].pc.uid, i, k);
      assert Attempt(acts, a.c, s.calls[a.c].pc.uid, i, k);
    } else if a.Return? || a.CommitFails? {
      var i, j := DeleteOf(run, acts, a.c, k);
      DeletedSince(run, acts, a.c, s.calls[a.c].pc.uid, i, j, k);
      assert CommitOf(acts, a.c, j, k);
    }
  }

  lemma SoundStepsAreUndisturbed(run: seq<Engine>, acts: seq<Act>)
    requires EngineRun(run, acts) && forall k :: 0 <= k < |acts| ==> StepSound(run[k], acts[k])
    ensures Undisturbed(run, acts)
  {
    hide Left;
    forall c, u, i: nat, j: nat | Attempt(acts, c, u, i, j)
      ensures LeftAt(run, acts, u, i, j).None? || LeftAt(run, acts, u, i, j) == Lookup(run[i].live, u)
      ensures forall k: nat :: CommitOf(acts, c, j, k) ==> (acts[k].Return? <==> LeftAt(run, acts, u, i, j).Some?)
    {
      FoundSince(run, acts, c, u, i, j);
      assert StepSound(run[j], acts[j]);
      forall k: nat | CommitOf(acts, c, j, k) ensures acts[k].Return? <==> LeftAt(run, acts, u, i, j).Some? {
        DeletedSince(run, acts, c, u, i, j, k);
        assert Next(run[k], run[k + 1], acts[k]) && StepSound(run[k], acts[k]);
      }
    }
  }

  /**
   Over every run of any callers and any other writers: the run refines the atomic take if and only if
   it is undisturbed.
   */
  lemma RefinesIffUndisturbed(run: seq<Engine>, acts: seq<Act>)
    requires EngineRun(run, acts)
    ensures Refines(run) <==> Undisturbed(run, acts)
  {
    RefinesIffStepsSound(run, acts);
    hide StepSound, EngineRun, Undisturbed, Refines;
    if Undisturbed(run, acts) {
      forall k | 0 <= k < |acts| ensures StepSound(run[k], acts[k]) { UndisturbedStepIsSound(run, acts, k); }
    }
    if forall k :: 0 <= k < |acts| ==> StepSound(run[k], acts[k]) {
      SoundStepsAreUndisturbed(run, acts);
    }
  }

  // ---------------------------------------------------------------- consequences

  /** When the other writers only insert, a run refines the atomic take if and only if no commit fails. */
  lemma AmongInsertersIffNoCommitFails(run: seq<Engine>, acts: seq<Act>)
    requires EngineRun(run, acts) && forall k :: 0 <= k < |acts| && acts[k].Other? ==> acts[k].w.Insert?
    ensures Refines(run) <==> forall k :: 0 <= k < |acts| ==> !acts[k].CommitFails?
  {
    RefinesIffUndisturbed(run, acts);
    forall c, u, i: nat, j: nat | Attempt(acts, c, u, i, j)
      ensures LeftAt(run, acts, u, i, j) == Lookup(run[i].live, u) && u in run[i].live
    {
      InsertsLeaveAll(acts[i + 1..j], u, Lookup(run[i].live, u));
      FoundSince(run, acts, c, u, i, j);
    }
    if k :| 0 <= k < |acts| && acts[k].CommitFails? {
      assert Next(run[k], run[k + 1], acts[k]);
      var i, j := DeleteOf(run, acts, acts[k].c, k);
      assert Attempt(acts, acts[k].c, run[k].calls[acts[k].c].pc.uid, i, j) && CommitOf(acts, acts[k].c, j, k);
    } else {
      forall c, u, i: nat, j: nat, k: nat | Attempt(acts, c, u, i, j) && CommitOf(acts, c, j, k) ensures acts[k].Return? {
        DeletedSince(run, acts, c, u, i, j, k);
        assert Next(run[k], run[k + 1], acts[k]);
      }
    }
  }

  lemma {:induction false} InsertsLeaveAll(acts: seq<Act>, u: Uid, start: Option<Rec>)
    requires forall k :: 0 <= k < |acts| && acts[k].Other? ==> acts[k].w.Insert?
    ensures Left(acts, u, start) == start
  {
    if acts != [] { InsertsLeaveAll(acts[..|acts| - 1], u, start); }
  }

  // ---------------------------------------------------------------- what every run keeps, explained or not

  predicate Returned(pc: Pc, u: Uid) {
    pc.Done? && pc.result.Hit? && pc.result.uid == u
  }

  predicate Holds(pc: Pc, u: Uid) {
    ((pc.Found? || pc.Deleted?) && pc.uid == u) || Returned(pc, u)
  }

  /** A node that was returned is gone, and no other call has it in hand. */
  ghost predicate HitsOk(s: Engine) {
    forall c, u :: c in s.calls && Returned(s.calls[c].pc, u) ==> OnlyIn(s, c, u)
  }

  predicate OnlyIn(s: Engine, c: Caller, u: Uid) {
    && u in s.used && u !in s.live
    && forall d :: d in s.calls && d != c ==> !Holds(s.calls[d].pc, u)
  }

  lemma NextKeepsHits(s: Engine, s': Engine, a: Act)
    requires Inv(s) && HitsOk(s) && Next(s, s', a)
    ensures HitsOk(s')
  {
    forall c, u | c in s'.calls && Returned(s'.calls[c].pc, u)
      ensures OnlyIn(s', c, u)
    {
      assert CallOk(s, s.calls[c]) && (Returned(s.calls[c].pc, u) || a == Return(c));
      forall d | d in s'.calls && d != c ensures !Holds(s'.calls[d].pc, u) {
        assert a != Return(c) ==> OnlyIn(s, c, u);
        if By(a, d) {
          assert s.calls[d].pc.Locked? || !Holds(s'.calls[d].pc, u);
        } else {
          OtherCallsStayBack(s, s', a, d);
          if a == Return(c) {
            assert s.calls[c].pc.Deleted? && Holds(s.calls[c].pc, u) && !InSection(s.calls[d].pc);
            assert Returned(s.calls[d].pc, u) ==> OnlyIn(s, d, u);
          }
        }
      }
    }
  }

  lemma {:induction false} RunKeepsHits(run: seq<Engine>, acts: seq<Act>, i: nat)
    requires EngineRun(run, acts) && i < |run|
    ensures Inv(run[i]) && HitsOk(run[i])
  {
    RunKeepsInv(run, acts, i);
    if i > 0 {
      RunKeepsHits(run, acts, i - 1);
      NextKeepsHits(run[i - 1], run[i], acts[i - 1]);
    }
  }

  /**
   What callers see of any run, disturbed or not, commits failing or not: one winner per node, the struct
   filled on a hit and zero on a miss.
   */
  lemma CallersAgree(run: seq<Engine>, acts: seq<Act>, c: Caller, d: Caller)
    requires EngineRun(run, acts)
    requires var s := run[|acts|]; c in s.calls && d in s.calls && s.calls[c].pc.Done? && s.calls[d].pc.Done?
    ensures var s := run[|acts|]; var (r, q) := (s.calls[c].pc.result, s.calls[d].pc.result);
            && (r.Hit? ==> r.uid !in s.live && s.calls[c].obj == Some(r.rec) && r.rec.key == s.calls[c].key)
            && (r.Miss? ==> s.calls[c].obj == None)
            && (c != d && r.Hit? && q.Hit? ==> r.uid != q.uid)
  {
    var s := run[|acts|];
    RunKeepsHits(run, acts, |acts|);
    assert CallOk(s, s.calls[c]);
    assert s.calls[c].pc.result.Hit? ==> Returned(s.calls[c].pc, s.calls[c].pc.result.uid);
  }

  /** The delete of step j, by call c, takes node u out of the store. */
  predicate TakesOut(run: seq<Engine>, acts: seq<Act>, c: Caller, u: Uid, j: nat) {
    j < |acts| && |run| == |acts| + 1 && acts[j] == Delete(c) && u in run[j].live && u !in run[j + 1].live
  }

  predicate Gone(s: Engine, u: Uid) {
    u in s.used && u !in s.live && u !in s.removed
  }

  lemma {:induction false} StaysGone(run: seq<Engine>, acts: seq<Act>, u: Uid, i: nat, m: nat)
    requires EngineRun(run, acts) && i <= m < |run| && u in run[i].used && u !in run[i].live
    ensures u in run[m].used && u !in run[m].live && (u in run[m].removed <==> u in run[i].removed)
  {
    if i < m {
      StaysGone(run, acts, u, i, m - 1);
      assert Next(run[m - 1], run[m], acts[m - 1]);
    }
  }

  lemma TakenIsGone(run: seq<Engine>, acts: seq<Act>, c: Caller, u: Uid, j: nat, m: nat)
    requires EngineRun(run, acts) && TakesOut(run, acts, c, u, j) && j < m < |run|
    ensures Gone(run[m], u)
  {
    RunKeepsInv(run, acts, j);
    assert Next(run[j], run[j + 1], acts[j]);
    StaysGone(run, acts, u, j + 1, m);
  }

  lemma {:induction false} GoneWasTaken(run: seq<Engine>, acts: seq<Act>, u: Uid, m: nat) returns (c: Caller, j: nat)
    requires EngineRun(run, acts) && m < |run| && Gone(run[m], u)
    ensures j < m && TakesOut(run, acts, c, u, j)
  {
    assert m > 0;
    assert Next(run[m - 1], run[m], acts[m - 1]);
    if u in run[m - 1].live {
      c, j := acts[m - 1].c, m - 1;
    } else {
      c, j := GoneWasTaken(run, acts, u, m - 1);
    }
  }

  lemma TakenOnce(run: seq<Engine>, acts: seq<Act>, c: Caller, d: Caller, u: Uid, j: nat, k: nat)
    requires EngineRun(run, acts) && TakesOut(run, acts, c, u, j) && TakesOut(run, acts, d, u, k)
    ensures c == d && j == k
  {
    if j < k { TakenIsGone(run, acts, c, u, j, k); }
    if k < j { TakenIsGone(run, acts, d, u, k, j); }
  }

  /** Until the call acts again its delete stands and its commit is open. */
  lemma {:induction false} CommitOpen(run: seq<Engine>, acts: seq<Act>, c: Caller, u: Uid, j: nat, m: nat)
    requires EngineRun(run, acts) && TakesOut(run, acts, c, u, j) && j < m < |run| && Rests(acts, c, j, m)
    ensures c in run[m].calls && run[m].calls[c].pc.Deleted? && run[m].calls[c].pc.uid == u
  {
    assert Next(run[m - 1], run[m], acts[m - 1]);
    if m > j + 1 {
      CommitOpen(run, acts, c, u, j, m - 1);
      OtherCallsStay(run[m - 1], run[m], acts[m - 1], c);
    }
  }

  lemma {:induction false} FirstAct(acts: seq<Act>, c: Caller, j: nat, m: nat) returns (k: nat)
    requires m <= |acts| && !Rests(acts, c, j, m)
    ensures k < m && CommitOf(acts, c, j, k)
  {
    if Rests(acts, c, j, m - 1) { k := m - 1; } else { k := FirstAct(acts, c, j, m - 1); }
  }

  lemma {:induction false} DoneStays(run: seq<Engine>, acts: seq<Act>, c: Caller, i: nat, m: nat)
    requires EngineRun(run, acts) && i <= m < |run| && c in run[i].calls && run[i].calls[c].pc.Done?
    ensures c in run[m].calls && run[m].calls[c].pc == run[i].calls[c].pc
  {
    if i < m {
      DoneStays(run, acts, c, i, m - 1);
      assert Next(run[m - 1], run[m], acts[m - 1]);
    }
  }

  lemma {:induction false} ReturnOf(run: seq<Engine>, acts: seq<Act>, c: Caller, u: Uid, m: nat) returns (k: nat)
    requires EngineRun(run, acts) && m < |run| && c in run[m].calls && Returned(run[m].calls[c].pc, u)
    ensures k < m && acts[k] == Return(c) && c in run[k].calls && run[k].calls[c].pc.Deleted?
    ensures run[k].calls[c].pc.uid == u
  {
    assert m > 0;
    assert Next(run[m - 1], run[m], acts[m - 1]);
    if By(acts[m - 1], c) {
      k := m - 1;
    } else {
      OtherCallsStayBack(run[m - 1], run[m], acts[m - 1], c);
      k := ReturnOf(run, acts, c, u, m - 1);
    }
  }

  /** Who returns a node that no other writer removed took it out. */
  lemma ReturnedIsTaken(run: seq<Engine>, acts: seq<Act>, c: Caller, u: Uid, m: nat) returns (j: nat, k: nat)
    requires EngineRun(run, acts) && m < |run| && c in run[m].calls && Returned(run[m].calls[c].pc, u)
    requires u !in run[m].removed
    ensures j < k < m && TakesOut(run, acts, c, u, j) && CommitOf(acts, c, j, k) && acts[k].Return?
  {
    hide Left;
    k := ReturnOf(run, acts, c, u, m);
    RunKeepsInv(run, acts, k);
    assert CallOk(run[k], run[k].calls[c]);
    StaysGone(run, acts, u, k, m);
    var i: nat;
    i, j := DeleteOf(run, acts, c, k);
    DeletedSince(run, acts, c, u, i, j, k);
    FoundSince(run, acts, c, u, i, j);
    assert Next(run[j], run[j + 1], acts[j]);
  }

  /** The commit of the delete of step j has succeeded, or has failed. */
  predicate CommitEnds(acts: seq<Act>, c: Caller, j: nat, m: nat, ok: bool)
    requires m <= |acts|
  {
    exists k: nat :: k < m && CommitOf(acts, c, j, k) && if ok then acts[k].Return? else acts[k].CommitFails?
  }

  /**
   Where the nodes are at any point of any run. A node that ever existed is stored, or removed by another
   writer, or was taken out by exactly one delete; and then the commit of that delete is pending, has
   failed or has succeeded, the node being returned, by its deleter alone, exactly when it has succeeded.
   */
  lemma WhereNodesAre(run: seq<Engine>, acts: seq<Act>, u: Uid, m: nat)
    requires EngineRun(run, acts) && m < |run| && u in run[m].used
    ensures u in run[m].live ==> u !in run[m].removed
    ensures Gone(run[m], u) <==> exists c, j: nat :: j < m && TakesOut(run, acts, c, u, j)
    ensures forall c, d, j: nat, k: nat :: TakesOut(run, acts, c, u, j) && TakesOut(run, acts, d, u, k) ==> c == d && j == k
    ensures forall c, j: nat :: j < m && TakesOut(run, acts, c, u, j) ==> FateOf(run, acts, c, u, j, m)
  {
    hide Gone, TakesOut, FateOf;
    RunKeepsInv(run, acts, m);
    if Gone(run[m], u) { var c, j := GoneWasTaken(run, acts, u, m); }
    forall c, j: nat | j < m && TakesOut(run, acts, c, u, j) ensures Gone(run[m], u) && FateOf(run, acts, c, u, j, m) {
      TakenIsGone(run, acts, c, u, j, m);
      FateOfTaken(run, acts, c, u, j, m);
    }
    forall c, d, j: nat, k: nat | TakesOut(run, acts, c, u, j) && TakesOut(run, acts, d, u, k) ensures c == d && j == k {
      TakenOnce(run, acts, c, d, u, j, k);
    }
  }

  /** The commit is pending, has succeeded or has failed, just one of them; and who has returned the node. */
  ghost predicate FateOf(run: seq<Engine>, acts: seq<Act>, c: Caller, u: Uid, j: nat, m: nat)
    requires m <= |acts| && m < |run|
  {
    && (Rests(acts, c, j, m) <==> !CommitEnds(acts, c, j, m, true) && !CommitEnds(acts, c, j, m, false))
    && !(CommitEnds(acts, c, j, m, true) && CommitEnds(acts, c, j, m, false))
    && forall d :: d in run[m].calls && Returned(run[m].calls[d].pc, u) <==> d == c && CommitEnds(acts, c, j, m, true)
  }

  lemma FateOfTaken(run: seq<Engine>, acts: seq<Act>, c: Caller, u: Uid, j: nat, m: nat)
    requires EngineRun(run, acts) && TakesOut(run, acts, c, u, j) && j < m < |run|
    ensures FateOf(run, acts, c, u, j, m)
  {
    hide Next, TakesOut;
    TakenIsGone(run, acts, c, u, j, m);
    forall d | d in run[m].calls && Returned(run[m].calls[d].pc, u) ensures d == c && CommitEnds(acts, c, j, m, true) {
      var i, k := ReturnedIsTaken(run, acts, d, u, m);
      TakenOnce(run, acts, c, d, u, j, i);
    }
    if !Rests(acts, c, j, m) {
      var k := FirstAct(acts, c, j, m);
      CommitDecides(run, acts, c, u, j, k, m);
      assert forall n: nat :: n < m && CommitOf(acts, c, j, n) ==> n == k;
    }
  }

  lemma CommitDecides(run: seq<Engine>, acts: seq<Act>, c: Caller, u: Uid, j: nat, k: nat, m: nat)
    requires EngineRun(run, acts) && TakesOut(run, acts, c, u, j) && CommitOf(acts, c, j, k) && k < m < |run|
    ensures acts[k].Return? || acts[k].CommitFails?
    ensures acts[k].Return? ==> c in run[m].calls && Returned(run[m].calls[c].pc, u)
  {
    hide TakesOut;
    CommitOpen(run, acts, c, u, j, k);
    assert Next(run[k], run[k + 1], acts[k]);
    if acts[k].Return? { DoneStays(run, acts, c, k + 1, m); }
  }

  /** Behind a miss there is a step at which no stored node had the key. */
  lemma {:induction false} MissSawNothing(run: seq<Engine>, acts: seq<Act>, c: Caller, m: nat) returns (j: nat)
    requires EngineRun(run, acts) && m < |run| && c in run[m].calls && run[m].calls[c].pc == Done(Miss)
    ensures j < m && acts[j] == GetNothing(c) && c in run[j].calls && run[j].calls[c].key == run[m].calls[c].key
    ensures forall u :: u in run[j].live ==> run[j].live[u].key != run[j].calls[c].key
  {
    assert m > 0 && Next(run[m - 1], run[m], acts[m - 1]);
    if By(acts[m - 1], c) {
      j := m - 1;
      var s := run[j];
      assert forall u :: u in s.live && s.live[u].key == s.calls[c].key ==> u in Matching(s.live, s.calls[c].key);
    } else {
      OtherCallsStayBack(run[m - 1], run[m], acts[m - 1], c);
      j := MissSawNothing(run, acts, c, m - 1);
    }
  }

  /** How often a commit of c has failed with what reads as an abort. */
  function AbortsOf(acts: seq<Act>, c: Caller): nat {
    if acts == [] then 0
    else AbortsOf(acts[..|acts| - 1], c) + if acts[|acts| - 1] == CommitFails(c, true) then 1 else 0
  }

  /** At any point of any run: an abort surfaces with the eleventh of a call, and every earlier one is retried. */
  lemma {:induction false} AbortSurfacesIff(run: seq<Engine>, acts: seq<Act>, c: Caller, m: nat)
    requires EngineRun(run, acts) && m < |run| && c in run[m].calls
    ensures run[m].calls[c].attempt <= 10
    ensures AbortsOf(acts[..m], c) == run[m].calls[c].attempt + if run[m].calls[c].pc == Done(Aborted) then 1 else 0
    ensures run[m].calls[c].pc == Done(Aborted) <==> AbortsOf(acts[..m], c) == 11
  {
    if m > 0 {
      var a := acts[m - 1];
      assert Next(run[m - 1], run[m], a);
      assert acts[..m][..m - 1] == acts[..m - 1];
      if !By(a, c) { OtherCallsStayBack(run[m - 1], run[m], a, c); }
      AbortSurfacesIff(run, acts, c, m - 1);
      assert run[m].calls[c].pc != run[m - 1].calls[c].pc || run[m].calls[c] == run[m - 1].calls[c];
    }
  }

  // ---------------------------------------------------------------- concrete runs

  /**
   The engine is closed between a call's delete and its commit: the call returns an error, and the node is
   neither stored, nor removed by anyone else, nor returned by any call.
   */
  lemma CommitFailureLosesNode() returns (run: seq<Engine>, acts: seq<Act>)
    ensures EngineRun(run, acts) && acts == [Lock(0), Get(0, 7), Delete(0), CommitFails(0, false)] && !Refines(run)
    ensures 7 in run[4].used && 7 !in run[4].live && 7 !in run[4].removed
    ensures run[4].calls.Keys == {0} && run[4].calls[0].pc == Done(Failed)
  {
    var rec, idle := Rec("k", "p"), Call("k", Idle, 0, None);
    var s0 := Engine(map[7 := rec], {7}, {}, None, map[0 := idle]);
    var s1 := SetCall(s0, 0, idle.(pc := Locked)).(mutex := Some(0));
    assert 7 in Matching(s1.live, "k");
    var s2 := SetCall(s1, 0, Call("k", Found(7, rec), 0, Some(rec)));
    var s3 := SetCall(s2, 0, Call("k", Deleted(7, rec, Some(rec)), 0, Some(rec))).(live := s2.live - {7});
    var s4 := SetCall(s3, 0, Call("k", Done(Failed), 0, Some(rec))).(mutex := None);
    run, acts := [s0, s1, s2, s3, s4], [Lock(0), Get(0, 7), Delete(0), CommitFails(0, false)];
    assert s1.calls[0] == idle.(pc := Locked) && s2.calls[0].pc == Found(7, rec) && s3.calls[0].pc.Deleted?;
    assert Next(s0, s1, acts[0]) && Next(s1, s2, acts[1]) && Next(s2, s3, acts[2]) && Next(s3, s4, acts[3]);
    assert acts[3].CommitFails?;
    AmongInsertersIffNoCommitFails(run, acts);
  }

  /** An update lands between read and delete: the call returns a record that is not the one it removed. */
  lemma UpdateSlipsBetween() returns (run: seq<Engine>, acts: seq<Act>)
    ensures EngineRun(run, acts) && !Refines(run)
    ensures acts == [Lock(0), Get(0, 7), Other(Update(7, Rec("k", "new"))), Delete(0), Return(0)]
    ensures 0 in run[5].calls && run[5].calls[0].pc == Done(Hit(7, Rec("k", "old")))
  {
    var was, now, idle := Rec("k", "old"), Rec("k", "new"), Call("k", Idle, 0, None);
    var s0 := Engine(map[7 := was], {7}, {}, None, map[0 := idle]);
    var s1 := SetCall(s0, 0, idle.(pc := Locked)).(mutex := Some(0));
    assert 7 in Matching(s1.live, "k");
    var s2 := SetCall(s1, 0, Call("k", Found(7, was), 0, Some(was)));
    var s3 := s2.(live := s2.live[7 := now]);
    var s4 := SetCall(s3, 0, Call("k", Deleted(7, was, Some(now)), 0, Some(was))).(live := s3.live - {7});
    var s5 := SetCall(s4, 0, Call("k", Done(Hit(7, was)), 0, Some(was))).(mutex := None);
    run, acts := [s0, s1, s2, s3, s4, s5], [Lock(0), Get(0, 7), Other(Update(7, now)), Delete(0), Return(0)];
    assert s2.calls[0].pc == Found(7, was) && s4.calls[0].pc == Deleted(7, was, Some(now));
    assert Next(s0, s1, acts[0]) && Next(s1, s2, acts[1]) && Next(s2, s3, acts[2]);
    assert Next(s3, s4, acts[3]) && Next(s4, s5, acts[4]);
    assert "new"[0] != "old"[0];
    assert !StepSound(run[3], acts[3]);
    RefinesIffStepsSound(run, acts);
  }
}
