/**
 Running the WhereEdge request on a graph. The plan's answer is the direct semi-join: the roots in
 the caller's order that satisfy the caller's filter and have, for every constraint, an edge to a
 target satisfying it.
 */
module EdgeSemantics {
  import opened Basics
  import opened Strconv
  import opened Placeholders
  import opened FilterGrammar
  import opened FilterJoin
  import opened FilterScopes
  import opened EdgePlan

  // ---------------------------------------------------------------- the request

  /** edgeBlocks: what the data block is filtered by. */
  function DataFilter<T>(user: Frag<T>): Frag<T> {
    var matched := "uid(" + VAR_NAME + ")";
    if user.expr == "" then Frag(matched, user.params) else Frag("(" + user.expr + ") AND " + matched, user.params)
  }

  /**
   The three blocks. An empty root stands for the default type(T) root; the count block roots at
   uid(mgMatched) and re-applies the user filter.
   */
  datatype Request<T> = Request(
    varRoot: string, varBody: Frag<T>,
    dataRoot: string, dataFilter: Frag<T>,
    countRoot: string, countFilter: Frag<T>)

  function Plan<T>(root: string, filters: seq<Frag<T>>, edges: seq<Edge<T>>): Request<T> {
    var user := CombineAnd(filters);
    Request(root, MatchBody(edges), root, DataFilter(user), "uid(" + VAR_NAME + ")", user)
  }

  function MatchedCall<T>(): Tree<T> {
    Call(Text("uid"), [Word(Text(VAR_NAME))])
  }

  function MatchedTokens<T>(): seq<Token<T>> {
    [Word(Text("uid")), LParen] + [Word(Text(VAR_NAME))] + [RParen]
  }

  lemma LexMatched<T>()
    ensures Lex<T>(Text("uid(" + VAR_NAME + ")")) == Some(MatchedTokens())
  {
    hide Lex;
    var close: seq<Piece<T>> := [Ch(')')];
    var name := Text(VAR_NAME) + close;
    var open := [Ch('(')] + name;
    assert Lex<T>([]) == Some([]) by { LexEmpty<T>(); }
    LexOne<T>(')', RParen, []);
    assert close + [] == close;
    LexWord<T>(VAR_NAME, close);
    LexOne<T>('(', LParen, name);
    LexWord<T>("uid", open);
    assert Text<T>("uid(" + VAR_NAME + ")") == Text("uid") + open;
    assert [Word(Text<T>("uid"))] + ([LParen] + ([Word(Text(VAR_NAME))] + ([RParen] + [])))
        == [Word(Text("uid")), LParen] + [Word(Text(VAR_NAME))] + [RParen];
  }

  lemma LexEmpty<T>()
    ensures Lex<T>([]) == Some([])
  {
  }

  lemma MatchedIsOperand<T(!new)>()
    ensures Operand<T>(Text("uid(" + VAR_NAME + ")"), MatchedCall())
  {
    LexMatched<T>();
    assert Text<T>("uid")[0] == Ch('u');
    CallIsOperand<T>(Text("uid"), [Word(Text(VAR_NAME))]);
  }

  /** The data block's filter is the user's filter, kept whole, and membership in the variable. */
  lemma DataFilterReads<T(!new)>(user: Frag<T>)
    requires user.expr == "" || WellFormed(user)
    requires |user.params| <= MAX_INT
    ensures FragReads(DataFilter(user),
                      if user.expr == "" then MatchedCall() else And([TreeOf(user), MatchedCall()]))
  {
    hide Lex, ParseOr, Resolve, InRange, ParseNot;
    var m, p := "uid(" + VAR_NAME + ")", user.params;
    assert '$' !in m && '$' !in " AND ";
    ResolveText(m, p);
    InRangeText(m, |p|);
    MatchedIsOperand<T>();
    if user.expr == "" {
      OneOperandReads(Lex<T>(Text(m)).value, MatchedCall());
    } else {
      var g := "(" + user.expr + ")";
      PartBinds(user, [], []);
      assert [] + p + [] == p;
      OperandFromFrag(user, TreeOf(user));
      ResolveAppend(g + " AND ", m, p);
      ResolveAppend(g, " AND ", p);
      ResolveText(" AND ", p);
      InRangeAppend(g + " AND ", m, |p|);
      InRangeAppend(g, " AND ", |p|);
      InRangeText(" AND ", |p|);
      assert "(" + user.expr + ") AND " + m == g + " AND " + m;
      var rs := [Parens(Resolved(user)), Text(m)];
      JoinReads(rs, [TreeOf(user), MatchedCall()], Conj);
      assert rs[1..] == [Text(m)];
      assert JoinPieces(rs, Conj) == rs[0] + Text(" AND ") + Text(m);
    }
  }

  // ---------------------------------------------------------------- running it

  /** A graph as queries see it: root listings without repeats, edge targets, and truth of filter calls. */
  datatype Graph<!N(==), !T> = Graph(
    root: string -> seq<N>,
    targets: (N, seq<Piece<T>>) -> set<N>,
    holds: (N, seq<Piece<T>>, seq<Token<T>>) -> bool)

  ghost function At<N, T>(g: Graph<N, T>, n: N): (seq<Piece<T>>, seq<Token<T>>) -> bool {
    (fn, args) => g.holds(n, fn, args)
  }

  /** Truth of calls at n once the variable is bound. */
  ghost function AtWith<N, T(!new)>(g: Graph<N, T>, matched: set<N>, n: N): (seq<Piece<T>>, seq<Token<T>>) -> bool {
    (fn, args) => if Call(fn, args) == MatchedCall<T>() then n in matched else g.holds(n, fn, args)
  }

  /** A field is empty at n when no target satisfies its filter. */
  ghost predicate FieldFilled<N(!new), T>(g: Graph<N, T>, n: N, f: Field<T>) {
    exists t :: t in g.targets(n, f.pred) && Eval(f.filter, At(g, t))
  }

  /** The var block under a bare @cascade: a root with an empty field is dropped. */
  ghost function RunVar<N(!new), T>(g: Graph<N, T>, r: Request<T>): Option<set<N>> {
    match Lex(Resolved(r.varBody))
    case None => None
    case Some(ts) =>
      match ParseBody(ts)
      case None => None
      case Some(fields) =>
        Some(Filled(g, r.varRoot, fields))
  }

  ghost function Filled<N(!new), T>(g: Graph<N, T>, root: string, fields: seq<Field<T>>): set<N> {
    set n | n in g.root(root) && forall i :: 0 <= i < |fields| ==> FieldFilled(g, n, fields[i])
  }

  ghost function Keep<N>(ns: seq<N>, p: N -> bool): (r: seq<N>) {
    if ns == [] then [] else (if p(ns[0]) then [ns[0]] else []) + Keep(ns[1..], p)
  }

  ghost function RunData<N(!new), T(!new)>(g: Graph<N, T>, r: Request<T>, matched: set<N>): Option<seq<N>> {
    if !WellFormed(r.dataFilter) then None
    else Some(Keep(g.root(r.dataRoot), n => Eval(TreeOf(r.dataFilter), AtWith(g, matched, n))))
  }

  /** The nodes a block starts from: what the variable is bound to if its root reads as the variable, else a listing. */
  ghost function Roots<N, T>(g: Graph<N, T>, matched: set<N>, root: string): set<N> {
    if Lex<T>(Text(root)) == Some(MatchedTokens()) then matched else set n | n in g.root(root)
  }

  ghost function RunCount<N(!new), T(!new)>(g: Graph<N, T>, r: Request<T>, matched: set<N>): Option<nat> {
    var roots := Roots(g, matched, r.countRoot);
    if r.countFilter.expr == "" then Some(|roots|)
    else if !WellFormed(r.countFilter) then None
    else Some(|Counted(g, matched, roots, r.countFilter)|)
  }

  ghost function Counted<N, T(!new)>(g: Graph<N, T>, matched: set<N>, roots: set<N>, filter: Frag<T>): set<N>
    requires WellFormed(filter)
  {
    set n | n in roots && Eval(TreeOf(filter), AtWith(g, matched, n))
  }

  // ---------------------------------------------------------------- what it should return

  ghost predicate HasEdge<N(!new), T>(g: Graph<N, T>, n: N, e: Edge<T>)
    requires LegalEdge(e)
  {
    exists t :: t in g.targets(n, Text(e.attr)) && Eval(TargetTree(e.filter), At(g, t))
  }

  ghost predicate HasEdges<N(!new), T>(g: Graph<N, T>, n: N, edges: seq<Edge<T>>)
    requires LegalEdges(edges)
  {
    forall i :: 0 <= i < |edges| ==> HasEdge(g, n, edges[i])
  }

  ghost predicate UserOk<N, T(!new)>(g: Graph<N, T>, matched: set<N>, user: Frag<T>, n: N)
    requires user.expr == "" || WellFormed(user)
  {
    user.expr == "" || Eval(TreeOf(user), AtWith(g, matched, n))
  }

  /** The var block binds exactly the roots with every required edge. */
  lemma VarBlockIsSemiJoin<N(!new), T>(g: Graph<N, T>, root: string, filters: seq<Frag<T>>, edges: seq<Edge<T>>)
    requires LegalEdges(edges) && |EdgeParams(edges)| <= MAX_INT
    ensures RunVar(g, Plan(root, filters, edges)) == Some(set n | n in g.root(root) && HasEdges(g, n, edges))
  {
    hide Lex, ParseBody, MatchBody, LegalEdge, Resolved, TreeOf;
    BodyReadsBack(edges);
    var fields := Fields(edges, 0);
    forall n
      ensures (forall i :: 0 <= i < |fields| ==> FieldFilled(g, n, fields[i])) <==> HasEdges(g, n, edges)
    {
      forall i | 0 <= i < |edges|
        ensures FieldFilled(g, n, fields[i]) <==> HasEdge(g, n, edges[i])
      {
      }
    }
    assert Filled(g, root, fields) == set n | n in g.root(root) && HasEdges(g, n, edges);
  }

  lemma {:induction false} KeepSame<N>(ns: seq<N>, p: N -> bool, q: N -> bool)
    requires forall n :: n in ns ==> p(n) == q(n)
    ensures Keep(ns, p) == Keep(ns, q)
  {
    if ns != [] { KeepSame(ns[1..], p, q); }
  }

  predicate NoRepeats<N(==)>(ns: seq<N>) {
    forall i, j :: 0 <= i < j < |ns| ==> ns[i] != ns[j]
  }

  lemma {:induction false} KeepCount<N>(ns: seq<N>, p: N -> bool)
    requires NoRepeats(ns)
    ensures |Keep(ns, p)| == |set n | n in ns && p(n)|
  {
    var all := set n | n in ns && p(n);
    if ns == [] {
      assert all == {};
    } else {
      var rest := set n | n in ns[1..] && p(n);
      KeepCount(ns[1..], p);
      assert ns == [ns[0]] + ns[1..];
      assert ns[0] !in ns[1..];
      assert all == if p(ns[0]) then {ns[0]} + rest else rest;
    }
  }

  /** The rows a WhereEdge query is meant to have. */
  ghost function SemiJoin<N(!new), T(!new)>(
    g: Graph<N, T>, root: string, user: Frag<T>, edges: seq<Edge<T>>, matched: set<N>): seq<N>
    requires LegalEdges(edges) && (user.expr == "" || WellFormed(user))
  {
    Keep(g.root(root), n => UserOk(g, matched, user, n) && HasEdges(g, n, edges))
  }

  /**
   The plan equals its meaning: the data block returns the semi-join in root order, and the count
   block the number of its rows before paging.
   */
  lemma PlanIsSemiJoin<N(!new), T(!new)>(
    g: Graph<N, T>, root: string, filters: seq<Frag<T>>, edges: seq<Edge<T>>, matched: set<N>)
    requires LegalEdges(edges) && |EdgeParams(edges)| <= MAX_INT
    requires var user := CombineAnd(filters); (user.expr == "" || WellFormed(user)) && |user.params| <= MAX_INT
    requires NoRepeats(g.root(root))
    requires RunVar(g, Plan(root, filters, edges)) == Some(matched)
    ensures var r, user := Plan(root, filters, edges), CombineAnd(filters);
            RunData(g, r, matched) == Some(SemiJoin(g, root, user, edges, matched))
            && RunCount(g, r, matched) == Some(|SemiJoin(g, root, user, edges, matched)|)
  {
    hide Lex, ParseOr, ParseBody, MatchBody, LegalEdge, Resolved, TreeOf, CombineAnd, HasEdges, RunVar;
    var r, user := Plan(root, filters, edges), CombineAnd(filters);
    VarBlockIsSemiJoin(g, root, filters, edges);
    LexMatched<T>();
    DataFilterReads(user);
    DataTree(user);
    var data := (n: N) => Eval(TreeOf(r.dataFilter), AtWith(g, matched, n));
    var want := (n: N) => UserOk(g, matched, user, n) && HasEdges(g, n, edges);
    forall n | n in g.root(root) ensures data(n) == want(n) {
      DataTruth(g, matched, user, n);
    }
    KeepSame(g.root(root), data, want);
    KeepCount(g.root(root), want);
    var kept := set n | n in g.root(root) && want(n);
    if user.expr == "" {
      assert kept == matched;
    } else {
      assert kept == Counted(g, matched, matched, user);
    }
  }

  lemma DataTree<T(!new)>(user: Frag<T>)
    requires user.expr == "" || WellFormed(user)
    requires |user.params| <= MAX_INT
    ensures WellFormed(DataFilter(user))
    ensures TreeOf(DataFilter(user)) == if user.expr == "" then MatchedCall() else And([TreeOf(user), MatchedCall()])
  {
    DataFilterReads(user);
  }

  lemma DataTruth<N, T(!new)>(g: Graph<N, T>, matched: set<N>, user: Frag<T>, n: N)
    requires user.expr == "" || WellFormed(user)
    requires |user.params| <= MAX_INT
    ensures WellFormed(DataFilter(user))
    ensures Eval(TreeOf(DataFilter(user)), AtWith(g, matched, n)) <==> UserOk(g, matched, user, n) && n in matched
  {
    hide Lex, ParseOr, Resolved, WellFormed, TreeOf;
    DataTree(user);
    var h := AtWith(g, matched, n);
    assert Eval(MatchedCall<T>(), h) <==> n in matched;
    if user.expr != "" {
      var ts := [TreeOf(user), MatchedCall<T>()];
      assert ts[0] == TreeOf(user) && ts[1] == MatchedCall<T>();
      assert Eval(And(ts), h) <==> Eval(ts[0], h) && Eval(ts[1], h);
    }
  }
}
