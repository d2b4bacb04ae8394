/**
 The retry loop and the protocol are one: what a call goes through in a run of the cluster is what the loop
 does on the answers that the call got there.
 */
module ConsumeCalls {
  import opened Basics
  import opened ConsumeSpec
  import opened ConsumeRemote
  import L = ConsumeLoop

  /** The step ends an attempt of c. */
  predicate Ends(a: Act, c: Caller) {
    (a.GetNothing? || a.Commit? || a.CommitLost? || a.Break?) && a.c == c
  }

  /** The answer the attempt got, read off the step that ended it. */
  function AnswerAt(s: Cluster, s': Cluster, a: Act, c: Caller): L.Attempt<Rec>
    requires c in s.calls && c in s'.calls
  {
    var pc := s.calls[c].pc;
    if a.Commit? && pc.Staged? then
      var aborted := !(s'.calls[c].pc.Done? && s'.calls[c].pc.result.Hit?);
      L.Read(pc.rec, true, None, if aborted then Some(L.Err(true, "aborted")) else None)
    else if a.CommitLost? && pc.Staged? then
      L.Read(pc.rec, true, None, Some(L.Err(a.aborted, "lost")))
    else if a.Break? then
      if pc.Matched? || pc.Staged? then L.Read(pc.rec, true, Some(L.Err(false, "failed")), None)
      else L.ReadError(L.Err(false, "failed"))
    else L.NotFound
  }

  predicate Reported(r: Result, out: L.Outcome<Rec>) {
    match r
    case Hit(_, rec) => out == L.Loaded(rec)
    case Miss => out.NotLoaded?
    case Aborted => out.Error? && L.IsAborted(out.err)
    case Failed => out.Error?
  }

  /** What GetAndDelete's loop ensures. */
  ghost predicate LoopEnds(answers: nat -> L.Attempt<Rec>, out: L.Outcome<Rec>, attempts: nat) {
    && 1 <= attempts <= 11
    && (forall i :: 0 <= i < attempts - 1 ==> L.Retries(answers(i)))
    && (L.Retries(answers(attempts - 1)) ==> attempts == 11)
    && out == L.Settle(answers(attempts - 1))
  }

  /** Answers of the attempts of c so far, each with the step that gave it, in order. */
  ghost predicate Answered(run: seq<Cluster>, acts: seq<Act>, c: Caller, m: nat,
                           answers: seq<L.Attempt<Rec>>, ends: seq<nat>)
    requires m < |run| && |run| == |acts| + 1
  {
    && |answers| == |ends|
    && (forall i :: 0 <= i < |ends| ==>
          ends[i] < m && Ends(acts[ends[i]], c) && c in run[ends[i]].calls && c in run[ends[i] + 1].calls
          && answers[i] == AnswerAt(run[ends[i]], run[ends[i] + 1], acts[ends[i]], c))
    && forall i, j :: 0 <= i < j < |ends| ==> ends[i] < ends[j]
  }

  /** The call has retried as often as its answers say, and ended as the last of them says. */
  ghost predicate Told(call: Call, answers: seq<L.Attempt<Rec>>) {
    && call.attempt <= MAX_ATTEMPTS
    && |answers| == call.attempt + (if call.pc.Done? then 1 else 0)
    && (forall i :: 0 <= i < call.attempt ==> L.Retries(answers[i]))
    && (call.pc.Done? ==>
          && Reported(call.pc.result, L.Settle(answers[call.attempt]))
          && (L.Retries(answers[call.attempt]) ==> call.attempt == MAX_ATTEMPTS))
  }

  lemma EndOfAttempt(s: Cluster, s': Cluster, a: Act, c: Caller, answers: seq<L.Attempt<Rec>>)
    requires Next(s, s', a) && c in s.calls && c in s'.calls && Told(s.calls[c], answers)
    ensures if Ends(a, c) then Told(s'.calls[c], answers + [AnswerAt(s, s', a, c)]) else Told(s'.calls[c], answers)
  {
  }

  lemma AnsweredMore(run: seq<Cluster>, acts: seq<Act>, c: Caller, m: nat, answers: seq<L.Attempt<Rec>>, ends: seq<nat>)
    requires m < |acts| && |run| == |acts| + 1 && Answered(run, acts, c, m, answers, ends)
    ensures Answered(run, acts, c, m + 1, answers, ends)
    ensures Ends(acts[m], c) && c in run[m].calls && c in run[m + 1].calls ==>
              Answered(run, acts, c, m + 1, answers + [AnswerAt(run[m], run[m + 1], acts[m], c)], ends + [m])
  {
    hide Ends, AnswerAt;
  }

  lemma {:induction false} AnswersOf(run: seq<Cluster>, acts: seq<Act>, c: Caller, m: nat)
      returns (answers: seq<L.Attempt<Rec>>, ends: seq<nat>)
    requires ClusterRun(run, acts) && m < |run| && c in run[m].calls
    ensures Answered(run, acts, c, m, answers, ends) && Told(run[m].calls[c], answers)
  {
    RunShape(run, acts);
    hide ClusterRun, Next, Told, Answered, Ends, AnswerAt;
    if m == 0 {
      answers, ends := [], [];
      NothingAnswered(run, acts, c);
    } else {
      WasThere(run, acts, c, m - 1);
      answers, ends := AnswersOf(run, acts, c, m - 1);
      EndOfAttempt(run[m - 1], run[m], acts[m - 1], c, answers);
      AnsweredMore(run, acts, c, m - 1, answers, ends);
      if Ends(acts[m - 1], c) {
        answers := answers + [AnswerAt(run[m - 1], run[m], acts[m - 1], c)];
        ends := ends + [m - 1];
      }
    }
  }

  lemma RunShape(run: seq<Cluster>, acts: seq<Act>)
    requires ClusterRun(run, acts)
    ensures |run| == |acts| + 1
  {
  }

  lemma NothingAnswered(run: seq<Cluster>, acts: seq<Act>, c: Caller)
    requires ClusterRun(run, acts) && c in run[0].calls
    ensures Answered(run, acts, c, 0, [], []) && Told(run[0].calls[c], [])
  {
  }

  lemma WasThere(run: seq<Cluster>, acts: seq<Act>, c: Caller, m: nat)
    requires ClusterRun(run, acts) && m < |acts| && c in run[m + 1].calls
    ensures c in run[m].calls && Next(run[m], run[m + 1], acts[m])
  {
    var u := Footprint(run[m], run[m + 1], acts[m]);
  }

  /**
   A finished call: there are answers, each given to the call by a step of the run, in order, on which the
   loop can only make as many attempts as the call made and report what the call returned.
   */
  lemma CallRunsTheLoop(run: seq<Cluster>, acts: seq<Act>, c: Caller)
      returns (answers: seq<L.Attempt<Rec>>, ends: seq<nat>)
    requires ClusterRun(run, acts) && c in run[|acts|].calls && run[|acts|].calls[c].pc.Done?
    ensures var call := run[|acts|].calls[c];
            && Answered(run, acts, c, |acts|, answers, ends) && |answers| == call.attempt + 1
            && var f := (i: nat) => if i < |answers| then answers[i] else L.NotFound;
               (exists out, attempts: nat :: LoopEnds(f, out, attempts))
               && forall out, attempts: nat :: LoopEnds(f, out, attempts) ==>
                    attempts == call.attempt + 1 && Reported(call.pc.result, out)
  {
    answers, ends := AnswersOf(run, acts, c, |acts|);
    var call := run[|acts|].calls[c];
    var f := (i: nat) => if i < |answers| then answers[i] else L.NotFound;
    LoopIsDetermined(f, call, answers);
  }

  lemma LoopIsDetermined(f: nat -> L.Attempt<Rec>, call: Call, answers: seq<L.Attempt<Rec>>)
    requires call.pc.Done? && Told(call, answers) && forall i: nat :: i < |answers| ==> f(i) == answers[i]
    ensures exists out, attempts: nat :: LoopEnds(f, out, attempts)
    ensures forall out, attempts: nat :: LoopEnds(f, out, attempts) ==>
              attempts == call.attempt + 1 && Reported(call.pc.result, out)
  {
    var n := call.attempt + 1;
    assert LoopEnds(f, L.Settle(f(n - 1)), n);
    forall out, attempts: nat | LoopEnds(f, out, attempts) ensures attempts == n && Reported(call.pc.result, out) {
      assert forall i: nat :: i < call.attempt ==> L.Retries(f(i));
      assert L.Retries(f(n - 1)) ==> n == 11;
    }
  }
}
