/**
 The atomic "take" that GetAndDelete promises: one step removes a matching node and returns the record
 it held, or finds that none matches. Other writers may insert, update and delete nodes.
 */
module ConsumeSpec {

  /** Aborted commits a call retries after. */
  const MAX_ATTEMPTS := 10

  type Uid = nat
  type Caller = nat

  datatype Rec = Rec(key: string, payload: string)

  /**
   What a call returns: (true, nil) with the node, (false, nil), an abort error, or another error.
   */
  datatype Result = Hit(uid: Uid, rec: Rec) | Miss | Aborted | Failed

  /**
   live: the stored nodes. used: every uid that ever named a node; uids are not used twice.
   removed: nodes deleted by writers other than GetAndDelete. results: finished calls.
   */
  datatype State = State(live: map<Uid, Rec>, used: set<Uid>, removed: set<Uid>, results: map<Caller, Result>)

  predicate Init(s: State) {
    s.live.Keys == s.used && s.removed == {} && s.results == map[]
  }

  function Matching(live: map<Uid, Rec>, key: string): set<Uid> {
    set u | u in live && live[u].key == key
  }

  /** Writers other than GetAndDelete. */
  datatype Write = Insert(u: Uid, rec: Rec) | Update(u: Uid, rec: Rec) | Remove(u: Uid)

  predicate WriteStep(s: State, s': State, w: Write) {
    match w
    case Insert(u, rec) => u !in s.used && s' == s.(live := s.live[u := rec], used := s.used + {u})
    case Update(u, rec) => u in s.live && s' == s.(live := s.live[u := rec])
    case Remove(u) => u in s.live && s' == s.(live := s.live - {u}, removed := s.removed + {u})
  }

  /** The atomic take, by a caller looking for key. */
  predicate TakeStep(s: State, s': State, c: Caller, key: string, r: Result) {
    && c !in s.results
    && match r
       case Hit(u, rec) =>
         && u in s.live && s.live[u] == rec && rec.key == key
         && s' == s.(live := s.live - {u}, results := s.results[c := r])
       case Miss => Matching(s.live, key) == {} && s' == s.(results := s.results[c := r])
       case _ => s' == s.(results := s.results[c := r])
  }

  datatype Event = Written(w: Write) | Taken(c: Caller, r: Result) | Internal

  predicate Step(s: State, s': State, keys: map<Caller, string>, e: Event) {
    match e
    case Written(w) => WriteStep(s, s', w)
    case Taken(c, r) => c in keys && TakeStep(s, s', c, keys[c], r)
    case Internal => s' == s
  }

  /** A run: consecutive states related by the recorded events. */
  predicate Run(run: seq<State>, events: seq<Event>, keys: map<Caller, string>) {
    && |run| == |events| + 1
    && Init(run[0])
    && forall i :: 0 <= i < |events| ==> Step(run[i], run[i + 1], keys, events[i])
  }

  function Winners(results: map<Caller, Result>): set<Uid> {
    set c | c in results && results[c].Hit? :: results[c].uid
  }

  /** Each node that ever existed is stored, removed by a writer, or returned by exactly one call. */
  predicate Conserved(s: State) {
    && s.used == s.live.Keys + s.removed + Winners(s.results)
    && s.live.Keys !! s.removed
    && s.live.Keys !! Winners(s.results)
    && s.removed !! Winners(s.results)
    && forall c, d :: c in s.results && d in s.results && c != d && s.results[c].Hit? && s.results[d].Hit?
                      ==> s.results[c].uid != s.results[d].uid
  }

  lemma StepConserves(s: State, s': State, keys: map<Caller, string>, e: Event)
    requires Conserved(s) && Step(s, s', keys, e)
    ensures Conserved(s')
  {
    match e
    case Written(w) =>
    case Taken(c, r) =>
      assert forall d :: d in s.results ==> d in s'.results && s'.results[d] == s.results[d];
      var w := Winners(s.results) + (if r.Hit? then {r.uid} else {});
      assert Winners(s'.results) == w by {
        assert forall u :: u in Winners(s'.results) ==> u in w;
        assert forall u :: u in Winners(s.results) ==> u in Winners(s'.results);
        if r.Hit? { assert c in s'.results && s'.results[c].uid == r.uid; }
      }
    case Internal =>
  }

  /** The safety of every run of the specification: no node is lost and none is returned twice. */
  lemma {:induction false} RunConserves(run: seq<State>, events: seq<Event>, keys: map<Caller, string>, i: nat)
    requires Run(run, events, keys) && i < |run|
    ensures Conserved(run[i])
  {
    if i == 0 {
      assert Winners(run[0].results) == {};
    } else {
      RunConserves(run, events, keys, i - 1);
      StepConserves(run[i - 1], run[i], keys, events[i - 1]);
    }
  }
}
