/**
 The live loader's map from blank nodes to UIDs, shared by one goroutine per file: a lookup under the read
 lock, and on a miss a second lookup, a lease and a store under the write lock. Other users of the engine
 lease UIDs in between.
 */
module BlankNodes {
  import opened Basics
  import opened Zero

  type Key = (nat, string)   // namespace and name

  type CallId = nat

  /** Where a call of uid stands. Looked holds the read lock; Holding to Returning hold the write lock. */
  datatype Pc =
    | Start
    | Reading
    | Looked(found: Option<nat>)
    | Missed
    | Holding
    | Absent
    | Leased(uid: nat)
    | Returning(result: Option<nat>)
    | Done(result: Option<nat>)

  datatype Call = Call(key: Key, pc: Pc)

  datatype Loader = Loader(
    calls: map<CallId, Call>, readers: set<CallId>, writer: Option<CallId>,
    blankNodes: map<Key, nat>, z: State,
    leases: seq<Key>)   // the keys UIDs were leased for, in order

  datatype Act =
    | Begin(c: CallId, key: Key)
    | RLock(c: CallId)
    | Look(c: CallId)
    | RUnlock(c: CallId)
    | Lock(c: CallId)
    | LookAgain(c: CallId)
    | Lease(c: CallId)
    | LeaseFails(c: CallId)
    | Store(c: CallId)
    | Unlock(c: CallId)
    | Others(val: nat, bump: bool)

  function At(s: Loader, c: CallId, pc: Pc): Loader
    requires c in s.calls
  {
    s.(calls := s.calls[c := s.calls[c].(pc := pc)])
  }

  function Lookup(m: map<Key, nat>, key: Key): Option<nat> {
    if key in m then Some(m[key]) else None
  }

  predicate Next(s: Loader, s': Loader, a: Act) {
    match a
    case Begin(c, key) => c !in s.calls && s' == s.(calls := s.calls[c := Call(key, Start)])
    case Others(val, bump) => UidsFit(s.z, val, bump) && s' == s.(z := Exec(s.z, NextUids(val, bump)).z)
    case _ => a.c in s.calls && Step(s, s', a, a.c, s.calls[a.c].key, s.calls[a.c].pc)
  }

  /** A step of one call. */
  predicate Step(s: Loader, s': Loader, a: Act, c: CallId, key: Key, pc: Pc)
    requires c in s.calls
  {
    match a
    case RLock(_) => pc.Start? && s.writer.None? && s' == At(s, c, Reading).(readers := s.readers + {c})
    case Look(_) => pc.Reading? && s' == At(s, c, Looked(Lookup(s.blankNodes, key)))
    case RUnlock(_) =>
      pc.Looked? && s' == At(s, c, if pc.found.Some? then Done(pc.found) else Missed).(readers := s.readers - {c})
    case Lock(_) =>
      pc.Missed? && s.writer.None? && s.readers == {} && s' == At(s, c, Holding).(writer := Some(c))
    case LookAgain(_) =>
      pc.Holding? && var found := Lookup(s.blankNodes, key);
      s' == At(s, c, if found.Some? then Returning(found) else Absent)
    case Lease(_) =>
      pc.Absent? && UidsFit(s.z, 1, false)
      && var e := Exec(s.z, NextUids(1, false));
         e.response.Uids? && s' == At(s, c, Leased(e.response.range.start)).(z := e.z, leases := s.leases + [key])
    case LeaseFails(_) => pc.Absent? && s' == At(s, c, Returning(None))
    case Store(_) => pc.Leased? && s' == At(s, c, Returning(Some(pc.uid))).(blankNodes := s.blankNodes[key := pc.uid])
    case Unlock(_) => pc.Returning? && s' == At(s, c, Done(pc.result)).(writer := None)
    case _ => false
  }

  predicate Init(s: Loader) {
    s.calls == map[] && s.readers == {} && s.writer.None? && s.blankNodes == map[] && s.leases == [] && 1 <= s.z.minUid
  }

  ghost predicate Run(run: seq<Loader>, acts: seq<Act>) {
    && |run| == |acts| + 1 && Init(run[0])
    && forall i :: 0 <= i < |acts| ==> Next(run[i], run[i + 1], acts[i])
  }

  // ---------------------------------------------------------------- invariant

  predicate Reads(pc: Pc) {
    pc.Reading? || pc.Looked?
  }

  predicate Writes(pc: Pc) {
    pc.Holding? || pc.Absent? || pc.Leased? || pc.Returning?
  }

  /** The locks are held by exactly the calls that think so, and never both kinds. */
  ghost predicate LocksOk(s: Loader) {
    && (forall c :: c in s.calls ==>
          (Reads(s.calls[c].pc) <==> c in s.readers) && (Writes(s.calls[c].pc) <==> s.writer == Some(c)))
    && (forall c :: c in s.readers ==> c in s.calls)
    && (s.writer.Some? ==> s.readers == {} && s.writer.value in s.calls)
  }

  /** A UID a call has seen is the one in the map. */
  predicate SeenOk(m: map<Key, nat>, key: Key, seen: Option<nat>) {
    seen.Some? ==> key in m && m[key] == seen.value
  }

  predicate CallOk(s: Loader, call: Call) {
    match call.pc
    case Looked(found) => SeenOk(s.blankNodes, call.key, found)
    case Absent => call.key !in s.blankNodes && call.key !in s.leases
    case Leased(uid) =>
      call.key !in s.blankNodes && uid < s.z.minUid && forall k :: k in s.blankNodes ==> s.blankNodes[k] != uid
    case Returning(result) => SeenOk(s.blankNodes, call.key, result)
    case Done(result) => SeenOk(s.blankNodes, call.key, result)
    case _ => true
  }

  /** The key's lease went into the map, or is about to. */
  ghost predicate Accounted(s: Loader, key: Key) {
    key in s.blankNodes
    || (s.writer.Some? && s.writer.value in s.calls
        && s.calls[s.writer.value].pc.Leased? && s.calls[s.writer.value].key == key)
  }

  ghost predicate MapOk(s: Loader) {
    && (forall k :: k in s.blankNodes ==> s.blankNodes[k] < s.z.minUid)
    && forall j, k :: j in s.blankNodes && k in s.blankNodes && s.blankNodes[j] == s.blankNodes[k] ==> j == k
  }

  ghost predicate LeasesOnce(s: Loader) {
    && (forall i, j :: 0 <= i < j < |s.leases| ==> s.leases[i] != s.leases[j])
    && (forall i :: 0 <= i < |s.leases| ==> Accounted(s, s.leases[i]))
  }

  ghost predicate Inv(s: Loader) {
    1 <= s.z.minUid && LocksOk(s) && MapOk(s) && LeasesOnce(s) && forall c :: c in s.calls ==> CallOk(s, s.calls[c])
  }

  /** Leasing never lowers the next UID, and a lease of one hands out exactly that. */
  lemma LeaseFacts(z: State, val: nat, bump: bool)
    requires 1 <= z.minUid && UidsFit(z, val, bump)
    ensures z.minUid <= Exec(z, NextUids(val, bump)).z.minUid
    ensures val == 1 && !bump ==>
              var e := Exec(z, NextUids(1, false));
              e.response == Uids(Range(z.minUid, z.minUid)) && e.z.minUid == z.minUid + 1
  {
    if val == 1 && !bump { PlainRange(z, 1); }
  }

  lemma LocksKept(s: Loader, s': Loader, a: Act)
    requires LocksOk(s) && Next(s, s', a)
    ensures LocksOk(s')
  {
    hide Exec, UidsFit, Lookup;
  }

  lemma MapKept(s: Loader, s': Loader, a: Act)
    requires Inv(s) && Next(s, s', a)
    ensures MapOk(s') && s.z.minUid <= s'.z.minUid
    ensures forall k :: k in s.blankNodes ==> k in s'.blankNodes && s'.blankNodes[k] == s.blankNodes[k]
  {
    hide Exec, UidsFit, Lookup, LeasesOnce;
    match a
    case Others(val, bump) => LeaseFacts(s.z, val, bump);
    case Lease(c) => LeaseFacts(s.z, 1, false);
    case _ =>
  }

  lemma LeasesKept(s: Loader, s': Loader, a: Act)
    requires Inv(s) && Next(s, s', a)
    ensures LeasesOnce(s')
  {
    hide Exec, UidsFit, Lookup, MapOk;
    if a.Lease? { assert CallOk(s, s.calls[a.c]); }
    forall i | 0 <= i < |s'.leases| ensures Accounted(s', s'.leases[i]) {
      if i < |s.leases| { assert Accounted(s, s.leases[i]); }
    }
  }

  lemma CallsKept(s: Loader, s': Loader, a: Act)
    requires Inv(s) && Next(s, s', a)
    ensures forall c :: c in s'.calls ==> CallOk(s', s'.calls[c])
  {
    hide Exec, UidsFit;
    MapKept(s, s', a);
    match a
    case Lease(c) => LeaseFacts(s.z, 1, false);
    case _ =>
  }

  lemma NextKeepsInv(s: Loader, s': Loader, a: Act)
    requires Inv(s) && Next(s, s', a)
    ensures Inv(s')
    ensures forall k :: k in s.blankNodes ==> k in s'.blankNodes && s'.blankNodes[k] == s.blankNodes[k]
  {
    hide LocksOk, MapOk, LeasesOnce, CallOk, Next;
    LocksKept(s, s', a);
    LeasesKept(s, s', a);
    MapKept(s, s', a);
    CallsKept(s, s', a);
  }

  lemma {:induction false} RunKeepsInv(run: seq<Loader>, acts: seq<Act>, i: nat)
    requires Run(run, acts) && i < |run|
    ensures Inv(run[i])
  {
    hide Inv, Next;
    if i > 0 {
      RunKeepsInv(run, acts, i - 1);
      NextKeepsInv(run[i - 1], run[i], acts[i - 1]);
    } else {
      InitInv(run[0]);
    }
  }

  lemma InitInv(s: Loader)
    requires Init(s)
    ensures Inv(s)
  {
  }

  /** Over every interleaving at most one UID is leased for a key. */
  lemma OneLeasePerKey(run: seq<Loader>, acts: seq<Act>, i: nat)
    requires Run(run, acts) && i < |run|
    ensures forall j, k :: 0 <= j < k < |run[i].leases| ==> run[i].leases[j] != run[i].leases[k]
  {
    RunKeepsInv(run, acts, i);
  }

  /** Calls that return a UID return the same one exactly when they were asked for the same key. */
  lemma CallsAgree(run: seq<Loader>, acts: seq<Act>, i: nat, c: CallId, d: CallId)
    requires Run(run, acts) && i < |run| && c in run[i].calls && d in run[i].calls
    requires run[i].calls[c].pc.Done? && run[i].calls[c].pc.result.Some?
    requires run[i].calls[d].pc.Done? && run[i].calls[d].pc.result.Some?
    ensures run[i].calls[c].pc.result == run[i].calls[d].pc.result <==> run[i].calls[c].key == run[i].calls[d].key
  {
    RunKeepsInv(run, acts, i);
    assert CallOk(run[i], run[i].calls[c]) && CallOk(run[i], run[i].calls[d]);
  }

  /** A call that ends without a UID is one whose lease failed. */
  lemma {:induction false} EmptyHandedIffLeaseFailed(run: seq<Loader>, acts: seq<Act>, i: nat, c: CallId)
    requires Run(run, acts) && i < |run| && c in run[i].calls
    ensures run[i].calls[c].pc == Returning(None) || run[i].calls[c].pc == Done(None) <==>
            exists j :: 0 <= j < i && acts[j] == LeaseFails(c)
  {
    hide Exec, UidsFit;
    if i > 0 {
      var a := acts[i - 1];
      assert Next(run[i - 1], run[i], a);
      if a.Begin? && a.c == c {
        NotYetBegun(run, acts, i - 1, c);
      } else {
        EmptyHandedIffLeaseFailed(run, acts, i - 1, c);
      }
      assert (exists j :: 0 <= j < i && acts[j] == LeaseFails(c)) <==>
             a == LeaseFails(c) || exists j :: 0 <= j < i - 1 && acts[j] == LeaseFails(c);
    }
  }

  lemma {:induction false} NotYetBegun(run: seq<Loader>, acts: seq<Act>, i: nat, c: CallId)
    requires Run(run, acts) && i < |run| && c !in run[i].calls
    ensures forall j :: 0 <= j < i ==> acts[j] != LeaseFails(c)
  {
    if i > 0 {
      assert Next(run[i - 1], run[i], acts[i - 1]);
      NotYetBegun(run, acts, i - 1, c);
    }
  }

  /** A call that leased a UID returns it. */
  lemma {:induction false} LeasedIsReturned(run: seq<Loader>, acts: seq<Act>, j: nat, i: nat, c: CallId)
    requires Run(run, acts) && j < i < |run| && acts[j] == Lease(c)
    ensures c in run[i].calls
    ensures var uid := run[j].z.minUid; run[i].calls[c].pc in {Leased(uid), Returning(Some(uid)), Done(Some(uid))}
  {
    hide Exec, UidsFit;
    assert Next(run[i - 1], run[i], acts[i - 1]);
    if i == j + 1 {
      RunKeepsInv(run, acts, j);
      LeaseFacts(run[j].z, 1, false);
    } else {
      LeasedIsReturned(run, acts, j, i - 1, c);
    }
  }

  /** The map is written only while no other call holds either lock. */
  lemma StoreIsExclusive(run: seq<Loader>, acts: seq<Act>, i: nat)
    requires Run(run, acts) && i < |acts| && acts[i].Store?
    ensures run[i].readers == {} && run[i].writer == Some(acts[i].c)
    ensures forall d :: d in run[i].calls && d != acts[i].c ==> !Reads(run[i].calls[d].pc) && !Writes(run[i].calls[d].pc)
  {
    RunKeepsInv(run, acts, i);
    assert Next(run[i], run[i + 1], acts[i]);
  }
}
