/**
 The @unique check the embedded engine runs before it applies a batch: one pass over the edges with a
 map of the values seen so far and a lookup of each value in the store.
 */
module UniqueCheck {
  import opened Basics

  type Uid = nat

  /** Set writes a value; Delete removes it (None: whatever the value is). */
  datatype Edge =
    | Set(subject: Uid, attr: string, value: string)
    | Delete(subject: Uid, attr: string, was: Option<string>)

  /** The scalar values stored per subject and predicate. */
  type Values = map<(Uid, string), string>

  datatype UniqueError = UniqueError(field: string, value: string, uid: Uid)

  /** The check looks at the edge: it sets a non-empty value of a unique predicate. */
  predicate Checked(e: Edge, unique: set<string>) {
    e.Set? && e.attr in unique && e.value != ""
  }

  function Key(e: Edge): string
    requires e.Set?
  {
    e.attr + ":" + e.value
  }

  /** Subjects that hold the value. */
  function Holders(st: Values, attr: string, value: string): set<Uid> {
    set k | k in st && k.1 == attr && st[k] == value :: k.0
  }

  /** The rows of the query eq(attr, value), in the store's order. */
  ghost predicate Answers(rows: (string, string) -> seq<Uid>, st: Values) {
    forall attr, value :: (set u | u in rows(attr, value)) == Holders(st, attr, value)
  }

  // ---------------------------------------------------------------- when a batch should be rejected

  /** Edge i collides with an earlier edge under the map key, or with the subject the store finds first. */
  predicate Clashes(edges: seq<Edge>, i: nat, unique: set<string>, rows: (string, string) -> seq<Uid>)
    requires i < |edges|
  {
    Checked(edges[i], unique) && (BatchClash(edges, i, unique) || StoreClash(edges[i], rows))
  }

  predicate BatchClash(edges: seq<Edge>, i: nat, unique: set<string>)
    requires i < |edges| && Checked(edges[i], unique)
  {
    exists j :: 0 <= j < i && Checked(edges[j], unique) && Key(edges[j]) == Key(edges[i])
                && edges[j].subject != edges[i].subject
  }

  predicate StoreClash(e: Edge, rows: (string, string) -> seq<Uid>)
    requires e.Set?
  {
    var found := rows(e.attr, e.value);
    found != [] && found[0] != e.subject
  }

  /** Values seen so far, by key: the subject that set each last. */
  ghost predicate SeenIs(seen: map<string, Uid>, edges: seq<Edge>, n: nat, unique: set<string>)
    requires n <= |edges|
  {
    && (forall i :: 0 <= i < n && Checked(edges[i], unique) ==>
          Key(edges[i]) in seen && seen[Key(edges[i])] == edges[i].subject)
    && forall k :: k in seen ==>
         exists i :: 0 <= i < n && Checked(edges[i], unique) && Key(edges[i]) == k && seen[k] == edges[i].subject
  }

  /** The error is about edge i and names a subject that is in its way. */
  predicate Names(err: UniqueError, edges: seq<Edge>, i: nat, rows: (string, string) -> seq<Uid>)
    requires i < |edges| && edges[i].Set?
  {
    var e := edges[i];
    && err.field == e.attr && err.value == e.value && err.uid != e.subject
    && ((exists j :: 0 <= j < i && edges[j].Set? && Key(edges[j]) == Key(e) && edges[j].subject == err.uid)
        || (rows(e.attr, e.value) != [] && rows(e.attr, e.value)[0] == err.uid))
  }

  /** How the check ends: QueryFailed when the store cannot be asked about a value. */
  datatype Verdict = Fine | Violation(err: UniqueError) | QueryFailed(field: string)

  /** The store is asked about edge i and does not answer. */
  predicate Unanswered(edges: seq<Edge>, i: nat, unique: set<string>, fails: (string, string) -> bool)
    requires i < |edges|
  {
    Checked(edges[i], unique) && !BatchClash(edges, i, unique) && fails(edges[i].attr, edges[i].value)
  }

  predicate Stops(edges: seq<Edge>, i: nat, unique: set<string>,
                  rows: (string, string) -> seq<Uid>, fails: (string, string) -> bool)
    requires i < |edges|
  {
    Unanswered(edges, i, unique, fails) || Clashes(edges, i, unique, rows)
  }

  /**
   verifyUniqueConstraints. It stops at the first edge that clashes, naming the other subject, or that the
   store does not answer about.
   */
  method VerifyUniqueConstraints(edges: seq<Edge>, unique: set<string>,
                                 rows: (string, string) -> seq<Uid>, fails: (string, string) -> bool)
    returns (r: Verdict)
    ensures r.Fine? <==> forall i :: 0 <= i < |edges| ==> !Stops(edges, i, unique, rows, fails)
    ensures !r.Fine? ==>
      exists i :: 0 <= i < |edges| && Stops(edges, i, unique, rows, fails)
        && (forall j :: 0 <= j < i ==> !Stops(edges, j, unique, rows, fails))
        && (Checked(edges[i], unique) && BatchClash(edges, i, unique) ==> r.Violation?)
        && if Unanswered(edges, i, unique, fails) then r == QueryFailed(edges[i].attr)
           else r.Violation? && Clashes(edges, i, unique, rows) && Names(r.err, edges, i, rows)
  {
    hide SeenIs, Clashes, BatchClash, Names;
    var seen: map<string, Uid> := map[];
    var n := 0;
    NothingSeen(edges, unique);
    while n < |edges|
      invariant 0 <= n <= |edges|
      invariant forall i :: 0 <= i < n ==> !Stops(edges, i, unique, rows, fails)
      invariant SeenIs(seen, edges, n, unique)
    {
      var edge := edges[n];
      UncheckedEdge(seen, edges, n, unique, rows);
      if edge.Delete? || edge.attr !in unique || |edge.value| == 0 {
        n := n + 1;
        continue;
      }
      var key := edge.attr + ":" + edge.value;
      EdgeVerdict(seen, edges, n, unique, rows);
      if key in seen {
        if seen[key] != edge.subject {
          assert Stops(edges, n, unique, rows, fails);
          return Violation(UniqueError(edge.attr, edge.value, seen[key]));
        }
      }
      if fails(edge.attr, edge.value) {
        assert Unanswered(edges, n, unique, fails) && Stops(edges, n, unique, rows, fails);
        return QueryFailed(edge.attr);
      }
      var found := rows(edge.attr, edge.value);
      if found != [] && found[0] != edge.subject {
        assert Stops(edges, n, unique, rows, fails);
        return Violation(UniqueError(edge.attr, edge.value, found[0]));
      }
      SeenStep(seen, edges, n, unique);
      seen := seen[key := edge.subject];
      n := n + 1;
    }
    return Fine;
  }

  lemma NothingSeen(edges: seq<Edge>, unique: set<string>)
    ensures SeenIs(map[], edges, 0, unique)
  {
  }

  lemma UncheckedEdge(seen: map<string, Uid>, edges: seq<Edge>, n: nat, unique: set<string>,
                      rows: (string, string) -> seq<Uid>)
    requires n < |edges| && SeenIs(seen, edges, n, unique)
    ensures !Checked(edges[n], unique) ==>
              !Clashes(edges, n, unique, rows) && SeenIs(seen, edges, n + 1, unique)
  {
  }

  /** The map and one lookup decide whether an edge clashes, and each names a subject in its way. */
  lemma EdgeVerdict(seen: map<string, Uid>, edges: seq<Edge>, n: nat, unique: set<string>,
                    rows: (string, string) -> seq<Uid>)
    requires n < |edges| && SeenIs(seen, edges, n, unique) && Checked(edges[n], unique)
    ensures var e, key := edges[n], Key(edges[n]);
            && (BatchClash(edges, n, unique) <==> key in seen && seen[key] != e.subject)
            && (Clashes(edges, n, unique, rows) <==> BatchClash(edges, n, unique) || StoreClash(e, rows))
            && (key in seen && seen[key] != e.subject ==>
                  Names(UniqueError(e.attr, e.value, seen[key]), edges, n, rows))
            && (StoreClash(e, rows) ==>
                  Names(UniqueError(e.attr, e.value, rows(e.attr, e.value)[0]), edges, n, rows))
  {
    var key := Key(edges[n]);
    if key in seen && seen[key] != edges[n].subject {
      var j :| 0 <= j < n && Checked(edges[j], unique) && Key(edges[j]) == key && seen[key] == edges[j].subject;
    }
  }

  lemma SeenStep(seen: map<string, Uid>, edges: seq<Edge>, n: nat, unique: set<string>)
    requires n < |edges| && SeenIs(seen, edges, n, unique) && Checked(edges[n], unique)
    requires Key(edges[n]) in seen ==> seen[Key(edges[n])] == edges[n].subject
    ensures SeenIs(seen[Key(edges[n]) := edges[n].subject], edges, n + 1, unique)
  {
    var seen' := seen[Key(edges[n]) := edges[n].subject];
    forall k | k in seen'
      ensures exists i :: 0 <= i < n + 1 && Checked(edges[i], unique) && Key(edges[i]) == k && seen'[k] == edges[i].subject
    {
      if k != Key(edges[n]) {
        var i :| 0 <= i < n && Checked(edges[i], unique) && Key(edges[i]) == k && seen[k] == edges[i].subject;
      }
    }
  }

  // ---------------------------------------------------------------- the key against the pair

  /** Two edges set the same value of the same predicate on different subjects. */
  predicate SamePair(d: Edge, e: Edge) {
    d.Set? && e.Set? && d.attr == e.attr && d.value == e.value && d.subject != e.subject
  }

  /**
   What the check is for: no edge sets a pair that an earlier edge sets on another subject, or that another
   subject holds in the store before the batch; a delete in the same batch does not lift that.
   */
  predicate Violates(edges: seq<Edge>, i: nat, unique: set<string>, rows: (string, string) -> seq<Uid>)
    requires i < |edges|
  {
    var e := edges[i];
    && e.Set? && e.attr in unique && e.value != ""
    && ((exists j :: 0 <= j < i && SamePair(edges[j], e)) || (rows(e.attr, e.value) != [] && rows(e.attr, e.value)[0] != e.subject))
  }

  /** In a store that satisfies the constraint the row the check looks at decides whether another subject holds the value. */
  lemma StoreClashIff(e: Edge, st: Values, unique: set<string>, rows: (string, string) -> seq<Uid>)
    requires e.Set? && e.attr in unique && e.value != "" && Unique(st, unique) && Answers(rows, st)
    ensures StoreClash(e, rows) <==> exists s :: s != e.subject && (s, e.attr) in st && st[(s, e.attr)] == e.value
  {
    var found := rows(e.attr, e.value);
    assert (set u | u in found) == Holders(st, e.attr, e.value);
    if s :| s != e.subject && (s, e.attr) in st && st[(s, e.attr)] == e.value {
      OnlyHolder(st, rows, unique, e, s);
    }
    if found != [] {
      assert found[0] in Holders(st, e.attr, e.value);
      assert (found[0], e.attr) in st;
    }
  }

  /** One unique predicate's name continues another's behind a ':'. */
  ghost predicate Nested(unique: set<string>) {
    exists p, q :: p in unique && q in unique && p + ":" <= q
  }

  lemma ShorterNests(d: Edge, e: Edge)
    requires d.Set? && e.Set? && Key(d) == Key(e) && |d.attr| < |e.attr|
    ensures d.attr + ":" <= e.attr
  {
    assert Key(d)[..|d.attr| + 1] == d.attr + ":";
    assert Key(e)[..|d.attr| + 1] == e.attr[..|d.attr| + 1];
  }

  lemma KeySplits(d: Edge, e: Edge)
    requires d.Set? && e.Set? && !(d.attr + ":" <= e.attr) && !(e.attr + ":" <= d.attr)
    ensures Key(d) == Key(e) <==> d.attr == e.attr && d.value == e.value
  {
    if Key(d) == Key(e) {
      if |d.attr| < |e.attr| { ShorterNests(d, e); }
      if |e.attr| < |d.attr| { ShorterNests(e, d); }
      assert Key(d)[..|d.attr|] == d.attr && Key(e)[..|e.attr|] == e.attr;
      assert Key(d)[|d.attr| + 1..] == d.value && Key(e)[|e.attr| + 1..] == e.value;
    }
  }

  /** Without such names, as when no name has a ':', the check rejects exactly what the constraint forbids. */
  lemma CheckIsExact(edges: seq<Edge>, i: nat, unique: set<string>, rows: (string, string) -> seq<Uid>)
    requires i < |edges| && !Nested(unique)
    ensures Clashes(edges, i, unique, rows) <==> Violates(edges, i, unique, rows)
  {
    if Checked(edges[i], unique) {
      forall j | 0 <= j < i && Checked(edges[j], unique)
        ensures Key(edges[j]) == Key(edges[i]) <==> edges[j].attr == edges[i].attr && edges[j].value == edges[i].value
      {
        KeySplits(edges[j], edges[i]);
      }
    }
  }

  lemma PlainNamesAreNotNested(unique: set<string>)
    requires forall p :: p in unique ==> ':' !in p
    ensures !Nested(unique)
  {
    forall p, q | p in unique && q in unique ensures !(p + ":" <= q) {
      assert ':' !in q && (p + ":")[|p|] == ':';
    }
  }

  /** With such names a legal batch is turned away: two different pairs share a key. */
  lemma NestedNamesRejectLegalBatch(unique: set<string>, p: string, q: string) returns (edges: seq<Edge>)
    requires p in unique && q in unique && p + ":" <= q
    ensures |edges| == 2
    ensures var rows := (a: string, v: string) => [];
            && Clashes(edges, 1, unique, rows)
            && forall i :: 0 <= i < |edges| ==> !Violates(edges, i, unique, rows)
  {
    var w := q[|p| + 1..];
    edges := [Set(1, p, w + ":x"), Set(2, q, "x")];
    assert q == p + ":" + w;
    assert Key(edges[0]) == p + ":" + w + ":x" == Key(edges[1]);
    assert edges[0].attr != edges[1].attr by { assert |p| < |q|; }
    assert Checked(edges[0], unique) && Checked(edges[1], unique);
  }

  ghost predicate ExactFor(unique: set<string>) {
    forall edges, i: nat, rows :: i < |edges| ==> (Clashes(edges, i, unique, rows) <==> Violates(edges, i, unique, rows))
  }

  /** The streaming check is exact on every batch and store exactly when no unique name nests in another. */
  lemma ExactIffNotNested(unique: set<string>)
    ensures ExactFor(unique) <==> !Nested(unique)
  {
    if p, q :| p in unique && q in unique && p + ":" <= q {
      var edges := NestedNamesRejectLegalBatch(unique, p, q);
      var rows := (a: string, v: string) => [];
      assert Clashes(edges, 1, unique, rows) && !Violates(edges, 1, unique, rows);
    } else {
      forall edges, i: nat, rows | i < |edges|
        ensures Clashes(edges, i, unique, rows) <==> Violates(edges, i, unique, rows)
      {
        CheckIsExact(edges, i, unique, rows);
      }
    }
  }

  // ---------------------------------------------------------------- applying a batch

  function ApplyEdge(st: Values, e: Edge): Values {
    match e
    case Set(s, p, v) => st[(s, p) := v]
    case Delete(s, p, was) =>
      if (s, p) in st && (was.None? || was.value == st[(s, p)]) then st - {(s, p)} else st
  }

  function Apply(st: Values, edges: seq<Edge>): Values
    decreases edges
  {
    if edges == [] then st else Apply(ApplyEdge(st, edges[0]), edges[1..])
  }

  /** No two subjects share a non-empty value of a unique predicate. */
  predicate Unique(st: Values, unique: set<string>) {
    forall k, l :: k in st && l in st && k.1 == l.1 && k.1 in unique && st[k] == st[l] != "" ==> k == l
  }

  /** Every value after a batch was there before or is set by one of its edges. */
  lemma {:induction false} ValueOrigin(st: Values, edges: seq<Edge>, k: (Uid, string))
    requires k in Apply(st, edges)
    ensures (k in st && st[k] == Apply(st, edges)[k]) || Set(k.0, k.1, Apply(st, edges)[k]) in edges
    decreases edges
  {
    if edges != [] {
      ValueOrigin(ApplyEdge(st, edges[0]), edges[1..], k);
    }
  }

  ghost predicate Accepted(st: Values, edges: seq<Edge>, unique: set<string>) {
    exists rows :: Answers(rows, st) && forall i :: 0 <= i < |edges| ==> !Clashes(edges, i, unique, rows)
  }

  /** Two values of an accepted batch, or one of it and one of the store, cannot collide. */
  lemma NoCollision(st: Values, edges: seq<Edge>, unique: set<string>, e: Edge, s: Uid)
    requires Unique(st, unique) && Accepted(st, edges, unique)
    requires e in edges && Checked(e, unique)
    requires ((s, e.attr) in st && st[(s, e.attr)] == e.value) || Set(s, e.attr, e.value) in edges
    ensures s == e.subject
  {
    var rows :| Answers(rows, st) && forall i :: 0 <= i < |edges| ==> !Clashes(edges, i, unique, rows);
    var i :| 0 <= i < |edges| && edges[i] == e;
    assert !Clashes(edges, i, unique, rows);
    if (s, e.attr) in st && st[(s, e.attr)] == e.value {
      OnlyHolder(st, rows, unique, e, s);
    } else {
      var j :| 0 <= j < |edges| && edges[j] == Set(s, e.attr, e.value);
      assert !Clashes(edges, j, unique, rows);
      assert Key(edges[j]) == Key(e);
    }
  }

  lemma OnlyHolder(st: Values, rows: (string, string) -> seq<Uid>, unique: set<string>, e: Edge, s: Uid)
    requires Unique(st, unique) && Answers(rows, st) && Checked(e, unique)
    requires (s, e.attr) in st && st[(s, e.attr)] == e.value
    ensures rows(e.attr, e.value) != [] && rows(e.attr, e.value)[0] == s
  {
    var found := rows(e.attr, e.value);
    assert (set u | u in found) == Holders(st, e.attr, e.value);
    assert s in Holders(st, e.attr, e.value);
    assert s in found;
    assert found[0] in Holders(st, e.attr, e.value);
    assert (found[0], e.attr) in st;
  }

  /**
   The constraint is an invariant: from a store that satisfies it, a batch the check accepts leads to one
   that does, in whatever order its sets and deletes are applied.
   */
  lemma AcceptedBatchKeepsUnique(st: Values, edges: seq<Edge>, order: seq<Edge>, unique: set<string>)
    requires Unique(st, unique) && Accepted(st, edges, unique)
    requires multiset(order) == multiset(edges)
    ensures Unique(Apply(st, order), unique)
  {
    var st' := Apply(st, order);
    forall k, l | k in st' && l in st' && k.1 == l.1 && k.1 in unique && st'[k] == st'[l] != ""
      ensures k == l
    {
      ValueOrigin(st, order, k);
      ValueOrigin(st, order, l);
      var e, f := Set(k.0, k.1, st'[k]), Set(l.0, l.1, st'[l]);
      assert e in order ==> e in multiset(edges);
      assert f in order ==> f in multiset(edges);
      if e in edges {
        NoCollision(st, edges, unique, e, l.0);
      } else if f in edges {
        NoCollision(st, edges, unique, f, k.0);
      }
    }
  }
}
