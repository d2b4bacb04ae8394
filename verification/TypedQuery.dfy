/**
 The fluent query builder: its fields, the methods that update them in place, and the loops that
 assemble filter text. Each method is tied to the functions whose meaning the other modules prove.
 */
module TypedQuery {
  import opened Basics
  import opened Strconv
  import opened Placeholders
  import opened FilterGrammar
  import opened FilterJoin
  import opened FilterScopes
  import opened EdgePlan
  import opened EdgeSemantics

  lemma {:induction false} FiltersAppend<T>(items: seq<Item<T>>, it: Item<T>)
    ensures Filters(items + [it]) == Filters(items) + Filters([it])
  {
    if items == [] {
      assert items + [it] == [it];
    } else {
      assert (items + [it])[1..] == items[1..] + [it];
      FiltersAppend(items[1..], it);
    }
  }

  /** parts and params hold what the first i fragments contribute. */
  ghost predicate Gathered<T>(frags: seq<Frag<T>>, i: nat, parts: seq<string>, params: seq<T>)
    requires i <= |frags|
  {
    && parts + Parts(frags[i..], |params|) == Parts(frags, 0)
    && params + AllParams(frags[i..]) == AllParams(frags)
  }

  lemma GatherStart<T>(frags: seq<Frag<T>>)
    ensures Gathered(frags, 0, [], [])
  {
    assert frags[0..] == frags;
    assert [] + Parts(frags, 0) == Parts(frags, 0) && [] + AllParams(frags) == AllParams(frags);
  }

  lemma GatherStep<T>(frags: seq<Frag<T>>, i: nat, parts: seq<string>, params: seq<T>)
    requires i < |frags| && Gathered(frags, i, parts, params)
    ensures if frags[i].expr == "" then Gathered(frags, i + 1, parts, params) else
              Gathered(frags, i + 1, parts + ["(" + Shifted(frags[i].expr, |params|) + ")"], params + frags[i].params)
  {
    hide Shifted;
    var f, rest := frags[i], frags[i + 1..];
    assert frags[i..][1..] == rest;
    if f.expr != "" {
      Reassociate(parts, ["(" + Shifted(f.expr, |params|) + ")"], Parts(rest, |params| + |f.params|));
      Reassociate(params, f.params, AllParams(rest));
    }
  }

  lemma GatherEnd<T>(frags: seq<Frag<T>>, parts: seq<string>, params: seq<T>)
    requires Gathered(frags, |frags|, parts, params)
    ensures parts == Parts(frags, 0) && params == AllParams(frags)
    ensures parts == [] ==> params == []
  {
    assert frags[|frags|..] == [];
    SkipEmpty(frags, 0);
  }

  /** combineAnd */
  method CombineFragments<T>(frags: seq<Frag<T>>) returns (expr: string, params: seq<T>)
    ensures Frag(expr, params) == CombineAnd(frags)
  {
    hide Gathered;
    var parts: seq<string> := [];
    params := [];
    GatherStart(frags);
    var i := 0;
    while i < |frags|
      invariant 0 <= i <= |frags|
      invariant Gathered(frags, i, parts, params)
    {
      var f := frags[i];
      GatherStep(frags, i, parts, params);
      if f.expr != "" {
        var e := ShiftPlaceholders(f.expr, |params|);
        parts := parts + ["(" + e + ")"];
        params := params + f.params;
      }
      i := i + 1;
    }
    GatherEnd(frags, parts, params);
    if |parts| == 0 { return "", []; }
    expr := JoinStrings(parts, " AND ");
  }

  class Query<T> {
    // whether there is a connection, and so an underlying query to push filters to
    const attached: bool
    // the filter last pushed to the underlying query, which keeps only the last one
    var pushed: Frag<T>
    var filters: seq<Frag<T>>
    var edges: seq<Edge<T>>
    var customRootExpr: string
    // the Filter and OrGroup calls that built filters
    ghost var history: seq<Item<T>>

    ghost predicate Valid()
      reads this
    {
      filters == Filters(history)
    }

    /** The last push was that of the filters, not of the data block of a WhereEdge request. */
    ghost predicate Current()
      reads this
    {
      attached && filters != [] ==> pushed == CombineAnd(filters)
    }

    /** The scopes that detached queries stand for. */
    static ghost function Histories(subs: seq<Query<T>>): (r: seq<Scope<T>>)
      reads subs
      ensures |r| == |subs| && forall i :: 0 <= i < |subs| ==> r[i] == Scope(subs[i].history)
    {
      if subs == [] then [] else [Scope(subs[0].history)] + Histories(subs[1..])
    }

    constructor (attached: bool)
      ensures Valid() && Current() && this.attached == attached
      ensures filters == [] && edges == [] && customRootExpr == "" && history == []
    {
      this.attached := attached;
      pushed := Frag("", []);
      filters, edges, customRootExpr, history := [], [], "", [];
    }

    /** Filter; WhereAnyOfText, WhereAllOfText and the generated By<Field> methods come here too. */
    method AddFilter(expr: string, params: seq<T>)
      requires Valid()
      modifies `filters, `pushed, `history
      ensures Valid() && history == old(history) + [Leaf(Frag(expr, params))]
      ensures filters == if expr == "" then old(filters) else old(filters) + [Frag(expr, params)]
      ensures if expr == "" then pushed == old(pushed) else Current()
    {
      Append(expr, params, Leaf(Frag(expr, params)));
    }

    /** addFilter, on behalf of the call recorded as it. */
    method Append(expr: string, params: seq<T>, ghost it: Item<T>)
      requires Valid()
      requires Filters([it]) == if expr == "" then [] else [Frag(expr, params)]
      modifies `filters, `pushed, `history
      ensures Valid() && history == old(history) + [it]
      ensures filters == if expr == "" then old(filters) else old(filters) + [Frag(expr, params)]
      ensures if expr == "" then pushed == old(pushed) else Current()
    {
      FiltersAppend(history, it);
      history := history + [it];
      if expr == "" { return; }
      filters := filters + [Frag(expr, params)];
      if attached {
        var combined, cp := CombineFragments(filters);
        pushed := Frag(combined, cp);
      }
    }

    method CombinedFilter() returns (expr: string, params: seq<T>)
      ensures Frag(expr, params) == CombineAnd(filters)
    {
      expr, params := CombineFragments(filters);
    }

    /** The subs may be any queries, this one included: they are read before anything changes. */
    method OrGroup(subs: seq<Query<T>>)
      requires Valid() && forall i :: 0 <= i < |subs| ==> subs[i].Valid()
      modifies `filters, `pushed, `history
      ensures Valid() && history == old(history) + [AnyOf(old(Histories(subs)))]
      ensures if filters == old(filters) then pushed == old(pushed) else Current()
    {
      hide Gathered, Filters, CombinedSubs, OrFrag;
      ghost var scopes := Histories(subs);
      ghost var all := CombinedSubs(scopes);
      CombinedSubsAt(scopes);
      GatherStart(all);
      var parts: seq<string> := [];
      var params: seq<T> := [];
      var i := 0;
      while i < |subs|
        invariant 0 <= i <= |subs|
        invariant Gathered(all, i, parts, params)
        modifies {}
      {
        var e, p := subs[i].CombinedFilter();
        assert all[i] == Frag(e, p);
        GatherStep(all, i, parts, params);
        if e != "" {
          var shifted := ShiftPlaceholders(e, |params|);
          parts := parts + ["(" + shifted + ")"];
          params := params + p;
        }
        i := i + 1;
      }
      GatherEnd(all, parts, params);
      ghost var it := AnyOf(scopes);
      OrGroupFilters(scopes);
      if |parts| == 0 {
        FiltersAppend(history, it);
        history := history + [it];
        return;
      }
      Append("(" + JoinStrings(parts, " OR ") + ")", params, it);
    }

    method WhereEdge(attr: string, filter: string, params: seq<T>)
      requires Valid()
      modifies `edges
      ensures Valid() && edges == old(edges) + [Edge(attr, Frag(filter, params))]
    {
      edges := edges + [Edge(attr, Frag(filter, params))];
    }

    /** UID: sets the same root as RootFunc; the last call of either wins. */
    method Uid(uid: string)
      requires Valid()
      modifies `customRootExpr
      ensures Valid() && customRootExpr == "uid(" + uid + ")"
    {
      customRootExpr := "uid(" + uid + ")";
    }

    method RootFunc(expr: string)
      requires Valid()
      modifies `customRootExpr
      ensures Valid() && customRootExpr == expr
    {
      customRootExpr := expr;
    }

    method EdgeMatchBody() returns (body: string, params: seq<T>)
      ensures Frag(body, params) == MatchBody(edges)
    {
      hide BodySoFar, Itoa;
      var b := "{\n\tuid\n";
      params := [];
      BodyStart(edges);
      var i := 0;
      while i < |edges|
        invariant 0 <= i <= |edges|
        invariant BodySoFar(edges, i, b, params)
      {
        var e := edges[i];
        var shifted := ShiftPlaceholders(e.filter.expr, |params|);
        var field := "\tmg_e" + Itoa(i) + " : " + e.attr + " @filter(" + shifted + ") { uid }\n";
        BodyStep(edges, i, b, params, field);
        b := b + field;
        params := params + e.filter.params;
        i := i + 1;
      }
      BodyEnd(edges, b, params);
      body := b + "}";
    }

    /**
     edgeBlocks. The data block's filter is pushed onto the underlying query, last write wins; the
     accumulated filters stay, so running this once per page builds the same request every time.
     */
    method EdgeBlocks() returns (r: Request<T>)
      requires Valid()
      modifies `pushed
      ensures Valid() && r == Plan(customRootExpr, filters, edges)
      ensures pushed == r.dataFilter
    {
      var userExpr, userParams := CombineFragments(filters);
      var dataExpr := "uid(" + VAR_NAME + ")";
      if userExpr != "" {
        dataExpr := "(" + userExpr + ") AND uid(" + VAR_NAME + ")";
        assert dataExpr == "(" + userExpr + ") AND " + ("uid(" + VAR_NAME + ")");
      }
      pushed := Frag(dataExpr, userParams);
      var body, params := EdgeMatchBody();
      r := Request(customRootExpr, Frag(body, params), customRootExpr, pushed,
                   "uid(" + VAR_NAME + ")", Frag(userExpr, userParams));
    }
  }

  /** b and params hold the opening and the fields of the first i constraints. */
  ghost predicate BodySoFar<T>(edges: seq<Edge<T>>, i: nat, b: string, params: seq<T>)
    requires i <= |edges|
  {
    && b + FieldTexts(edges[i..], i, |params|) == "{\n\tuid\n" + FieldTexts(edges, 0, 0)
    && params + EdgeParams(edges[i..]) == EdgeParams(edges)
  }

  lemma BodyStart<T>(edges: seq<Edge<T>>)
    ensures BodySoFar(edges, 0, "{\n\tuid\n", [])
  {
    assert edges[0..] == edges;
    assert [] + EdgeParams(edges) == EdgeParams(edges);
  }

  lemma BodyStep<T>(edges: seq<Edge<T>>, i: nat, b: string, params: seq<T>, field: string)
    requires i < |edges| && BodySoFar(edges, i, b, params)
    requires field == "\tmg_e" + Itoa(i) + " : " + edges[i].attr
                      + " @filter(" + Shifted(edges[i].filter.expr, |params|) + ") { uid }\n"
    ensures BodySoFar(edges, i + 1, b + field, params + edges[i].filter.params)
  {
    hide Itoa, Shifted;
    var e, rest := edges[i], edges[i + 1..];
    assert edges[i..][1..] == rest;
    assert field == FieldText(i, e, |params|);
    Reassociate(b, field, FieldTexts(rest, i + 1, |params| + |e.filter.params|));
    Reassociate(params, e.filter.params, EdgeParams(rest));
  }

  lemma BodyEnd<T>(edges: seq<Edge<T>>, b: string, params: seq<T>)
    requires BodySoFar(edges, |edges|, b, params)
    ensures Frag(b + "}", params) == MatchBody(edges)
  {
    assert edges[|edges|..] == [];
    assert b + "" == b && params + [] == params;
  }

  lemma OrGroupFilters<T>(scopes: seq<Scope<T>>)
    ensures var f := OrFrag(CombinedSubs(scopes));
            Filters([AnyOf(scopes)]) == if f.expr == "" then [] else [f]
    ensures var f := OrFrag(CombinedSubs(scopes));
            f == if Parts(CombinedSubs(scopes), 0) == [] then Frag("", []) else
                   Frag("(" + JoinStrings(Parts(CombinedSubs(scopes), 0), " OR ") + ")", AllParams(CombinedSubs(scopes)))
  {
    assert [AnyOf(scopes)][1..] == [];
  }

  lemma {:induction false} CombinedSubsAt<T>(scopes: seq<Scope<T>>)
    ensures |CombinedSubs(scopes)| == |scopes|
    ensures forall i :: 0 <= i < |scopes| ==> CombinedSubs(scopes)[i] == CombineAnd(Filters(scopes[i].items))
  {
    if scopes != [] { CombinedSubsAt(scopes[1..]); }
  }

  /**
   What the underlying query is filtered by, after any Filter or OrGroup call that adds something and until
   a WhereEdge terminal, is what the builder calls mean: at every node the pushed filter, read back, selects
   exactly what the history of Filter and OrGroup calls selects.
   */
  lemma PushedFilterMeaning<T(!new)>(q: Query<T>, holds: (seq<Piece<T>>, seq<Token<T>>) -> bool)
    requires q.Valid() && q.Current() && q.attached
    requires Legal(q.history) && !IsEmpty(q.history) && |AllParams(q.filters)| <= MAX_INT
    ensures WellFormed(q.pushed)
    ensures Eval(TreeOf(q.pushed), holds) <==> Selects(q.history, holds)
  {
    ScopeSelects(q.history, holds);
    ScopeReads(q.history);
    EvalMeaning(q.history, holds);
  }
}
