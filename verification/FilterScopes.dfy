/**
 Combining filter fragments: combineAnd and the group that OrGroup adds, and what the combined text
 means. A Scope is a query's history of Filter and OrGroup calls; its meaning is read off that history
 and compared with what the parser makes of the generated text, for any nesting of scopes.
 */
module FilterScopes {
  import opened Basics
  import opened Strconv
  import opened Placeholders
  import opened FilterGrammar
  import opened FilterJoin

  /** One accumulated fragment: text and the parameters its placeholders count from 1. */
  datatype Frag<T> = Frag(expr: string, params: seq<T>)

  // ---------------------------------------------------------------- what the code computes

  /** The parenthesized, renumbered texts; base parameters precede the first. Empty fragments are skipped. */
  function Parts<T>(frags: seq<Frag<T>>, base: nat): seq<string>
  {
    if frags == [] then []
    else if frags[0].expr == "" then Parts(frags[1..], base)
    else ["(" + Shifted(frags[0].expr, base) + ")"] + Parts(frags[1..], base + |frags[0].params|)
  }

  function AllParams<T>(frags: seq<Frag<T>>): seq<T> {
    if frags == [] then []
    else if frags[0].expr == "" then AllParams(frags[1..])
    else frags[0].params + AllParams(frags[1..])
  }

  /** combineAnd */
  function CombineAnd<T>(frags: seq<Frag<T>>): Frag<T>
  {
    Frag(JoinStrings(Parts(frags, 0), " AND "), AllParams(frags))
  }

  /** The fragment OrGroup adds for the combined filters of its subs; empty when it adds none. */
  function OrFrag<T>(combined: seq<Frag<T>>): Frag<T>
  {
    if Parts(combined, 0) == [] then Frag("", [])
    else Frag("(" + JoinStrings(Parts(combined, 0), " OR ") + ")", AllParams(combined))
  }

  // ---------------------------------------------------------------- well-formed fragments

  function Resolved<T>(f: Frag<T>): seq<Piece<T>> {
    Resolve(f.expr, f.params)
  }

  /** The caller's side: every placeholder has a parameter and the text is one filter, namely t. */
  ghost predicate FragReads<T>(f: Frag<T>, t: Tree<T>) {
    f.expr != "" && InRange(f.expr, |f.params|) && Reads(Resolved(f), t)
  }

  // ---------------------------------------------------------------- joining preserves binding

  function NonEmpty<T>(frags: seq<Frag<T>>): seq<Frag<T>> {
    if frags == [] then []
    else if frags[0].expr == "" then NonEmpty(frags[1..])
    else [frags[0]] + NonEmpty(frags[1..])
  }

  function Groups<T>(frags: seq<Frag<T>>): (r: seq<seq<Piece<T>>>)
    ensures |r| == |frags|
  {
    seq(|frags|, i requires 0 <= i < |frags| => Parens(Resolved(frags[i])))
  }

  lemma {:induction false} SkipEmpty<T>(frags: seq<Frag<T>>, base: nat)
    ensures AllParams(NonEmpty(frags)) == AllParams(frags)
    ensures Parts(NonEmpty(frags), base) == Parts(frags, base)
    ensures |Parts(frags, base)| == |NonEmpty(frags)|
    ensures forall i :: 0 <= i < |NonEmpty(frags)| ==> NonEmpty(frags)[i] in frags && NonEmpty(frags)[i].expr != ""
  {
    if frags != [] {
      SkipEmpty(frags[1..], if frags[0].expr == "" then base else base + |frags[0].params|);
      if frags[0].expr != "" {
        assert ([frags[0]] + NonEmpty(frags[1..]))[1..] == NonEmpty(frags[1..]);
      }
    }
  }

  ghost predicate AllInRange<T>(frags: seq<Frag<T>>) {
    forall i :: 0 <= i < |frags| ==> frags[i].expr != "" && InRange(frags[i].expr, |frags[i].params|)
  }

  /** One parenthesized fragment resolves to its own meaning in parentheses. */
  lemma PartBinds<T>(f: Frag<T>, front: seq<T>, back: seq<T>)
    requires InRange(f.expr, |f.params|) && |front| + |f.params| <= MAX_INT
    ensures var part := "(" + Shifted(f.expr, |front|) + ")";
            Resolve(part, front + f.params + back) == Parens(Resolved(f))
            && InRange(part, |front| + |f.params|)
  {
    hide Resolve, Shifted, InRange;
    var s, all, m := Shifted(f.expr, |front|), front + f.params + back, |front| + |f.params|;
    ResolveAppend("(" + s, ")", all);
    ResolveAppend("(", s, all);
    ResolveText("(", all);
    ResolveText(")", all);
    ShiftKeepsBinding(f.expr, front, f.params, back);
    InRangeAppend("(" + s, ")", m);
    InRangeAppend("(", s, m);
    InRangeText("(", m);
    InRangeText(")", m);
    ShiftInRange(f.expr, |front|, |f.params|);
  }

  /**
   Binding is preserved by a join: resolving the joined text against the concatenated parameters
   equals joining the fragments resolved each against its own.
   */
  lemma {:induction false} JoinBinds<T>(frags: seq<Frag<T>>, op: Connective, front: seq<T>, back: seq<T>)
    requires AllInRange(frags) && |front| + |AllParams(frags)| <= MAX_INT
    ensures var s := JoinStrings(Parts(frags, |front|), Sep(op));
            Resolve(s, front + AllParams(frags) + back) == JoinPieces(Groups(frags), op)
            && InRange(s, |front| + |AllParams(frags)|)
  {
    hide Resolve, Shifted, InRange, Parens, Resolved;
    var parts, all := Parts(frags, |front|), front + AllParams(frags) + back;
    if frags == [] {
      ResolveText("", all);
      InRangeText("", |front|);
    } else {
      var f, rest := frags[0], frags[1..];
      var m := |front| + |AllParams(frags)|;
      var part := "(" + Shifted(f.expr, |front|) + ")";
      PartBinds(f, front, AllParams(rest) + back);
      assert front + f.params + (AllParams(rest) + back) == all;
      InRangeWider(part, |front| + |f.params|, m);
      assert Groups(frags)[0] == Parens(Resolved(f));
      if rest != [] {
        var tail := JoinStrings(Parts(rest, |front + f.params|), Sep(op));
        assert AllInRange(rest);
        JoinBinds(rest, op, front + f.params, back);
        assert front + f.params + AllParams(rest) + back == all;
        assert parts[1..] == Parts(rest, |front + f.params|);
        PartsLength(rest, |front + f.params|);
        assert Groups(frags)[1..] == Groups(rest);
        ResolveAppend(part + Sep(op), tail, all) by { OpensGroup(rest, op, |front + f.params|); }
        ResolveAppend(part, Sep(op), all);
        ResolveText(Sep(op), all);
        InRangeAppend(part + Sep(op), tail, m) by { OpensGroup(rest, op, |front + f.params|); }
        InRangeAppend(part, Sep(op), m);
        InRangeText(Sep(op), m);
      }
    }
  }

  lemma {:induction false} PartsLength<T>(frags: seq<Frag<T>>, base: nat)
    requires AllInRange(frags)
    ensures |Parts(frags, base)| == |frags|
  {
    if frags != [] {
      assert AllInRange(frags[1..]);
      PartsLength(frags[1..], base + |frags[0].params|);
    }
  }

  lemma OpensGroup<T>(frags: seq<Frag<T>>, op: Connective, base: nat)
    requires AllInRange(frags) && frags != []
    ensures JoinStrings(Parts(frags, base), Sep(op)) != "" && JoinStrings(Parts(frags, base), Sep(op))[0] == '('
  {
    PartsLength(frags, base);
    assert Parts(frags, base)[0][0] == '(';
  }

  // ---------------------------------------------------------------- joining preserves precedence

  ghost predicate AllRead<T>(frags: seq<Frag<T>>, ts: seq<Tree<T>>) {
    |frags| == |ts| && forall i :: 0 <= i < |frags| ==> FragReads(frags[i], ts[i])
  }

  lemma GroupsAreOperands<T(!new)>(frags: seq<Frag<T>>, ts: seq<Tree<T>>)
    requires AllRead(frags, ts)
    ensures AllInRange(frags) && AllOperands(Groups(frags), ts)
  {
    hide Operand, Parens, Resolved, InRange;
    forall i | 0 <= i < |frags|
      ensures InRange(frags[i].expr, |frags[i].params|)
      ensures Lex(Groups(frags)[i]).Some? && Operand(Groups(frags)[i], ts[i])
    {
      OperandFromFrag(frags[i], ts[i]);
    }
  }

  lemma OperandFromFrag<T(!new)>(f: Frag<T>, t: Tree<T>)
    requires FragReads(f, t)
    ensures InRange(f.expr, |f.params|)
    ensures Lex(Parens(Resolved(f))).Some? && Operand(Parens(Resolved(f)), t)
  {
    ParensMakeOperand(Resolved(f), t);
  }

  /**
   The combined text reads as the conjunction (or disjunction) of the fragments, whatever operators
   the fragments use themselves.
   */
  lemma JoinedFragReads<T(!new)>(frags: seq<Frag<T>>, ts: seq<Tree<T>>, op: Connective)
    requires AllRead(frags, ts) && frags != [] && |AllParams(frags)| <= MAX_INT
    ensures FragReads(Frag(JoinStrings(Parts(frags, 0), Sep(op)), AllParams(frags)), MkTree(op, ts))
  {
    hide Reads, Resolve, InRange, AllOperands;
    GroupsAreOperands(frags, ts);
    JoinReads(Groups(frags), ts, op);
    JoinBinds(frags, op, [], []);
    assert [] + AllParams(frags) + [] == AllParams(frags);
    OpensGroup(frags, op, 0);
  }

  lemma CombinedFragReads<T(!new)>(frags: seq<Frag<T>>, ts: seq<Tree<T>>, op: Connective)
    requires AllRead(NonEmpty(frags), ts) && |AllParams(frags)| <= MAX_INT
    ensures ts == [] ==> Parts(frags, 0) == [] && AllParams(frags) == []
    ensures ts != [] ==> JoinStrings(Parts(frags, 0), Sep(op)) != ""
    ensures ts != [] ==> FragReads(Frag(JoinStrings(Parts(frags, 0), Sep(op)), AllParams(frags)), MkTree(op, ts))
  {
    SkipEmpty(frags, 0);
    if ts != [] {
      JoinedFragReads(NonEmpty(frags), ts, op);
    }
  }

  // ---------------------------------------------------------------- scopes

  /** The Filter calls (By<Field> and full-text clauses included) and OrGroup calls made on one query, in order. */
  datatype Scope<T> = Scope(items: seq<Item<T>>)

  datatype Item<T> = Leaf(frag: Frag<T>) | AnyOf(subs: seq<Scope<T>>)

  /** qb.filters after the calls. */
  function Filters<T>(items: seq<Item<T>>): seq<Frag<T>> {
    if items == [] then [] else
      var f := match items[0] case Leaf(f) => f case AnyOf(subs) => OrFrag(CombinedSubs(subs));
      (if f.expr == "" then [] else [f]) + Filters(items[1..])
  }

  /** CombinedFilter of each sub. */
  function CombinedSubs<T>(subs: seq<Scope<T>>): seq<Frag<T>> {
    if subs == [] then [] else [CombineAnd(Filters(subs[0].items))] + CombinedSubs(subs[1..])
  }

  ghost predicate WellFormed<T>(f: Frag<T>) {
    && InRange(f.expr, |f.params|)
    && Lex(Resolved(f)).Some?
    && ParseOr(Lex(Resolved(f)).value).Some?
    && ParseOr(Lex(Resolved(f)).value).value.1 == []
  }

  ghost function TreeOf<T>(f: Frag<T>): (t: Tree<T>)
    requires WellFormed(f)
    ensures f.expr != "" ==> FragReads(f, t)
  {
    ParseOr(Lex(Resolved(f)).value).value.0
  }

  /** Every fragment the caller wrote is a filter on its own. */
  ghost predicate Legal<T>(items: seq<Item<T>>) {
    items != [] ==>
      && (match items[0]
          case Leaf(f) => f.expr == "" || WellFormed(f)
          case AnyOf(subs) => LegalSubs(subs))
      && Legal(items[1..])
  }

  ghost predicate LegalSubs<T>(subs: seq<Scope<T>>) {
    subs != [] ==> Legal(subs[0].items) && LegalSubs(subs[1..])
  }

  /** The operands a scope is meant to conjoin; empty fragments and groups with nothing in them drop out. */
  ghost function Meaning<T>(items: seq<Item<T>>): seq<Tree<T>>
    requires Legal(items)
  {
    if items == [] then [] else
      (match items[0]
       case Leaf(f) => if f.expr == "" then [] else [TreeOf(f)]
       case AnyOf(subs) => if MeaningSubs(subs) == [] then [] else [MkOr(MeaningSubs(subs))])
      + Meaning(items[1..])
  }

  ghost function MeaningSubs<T>(subs: seq<Scope<T>>): seq<Tree<T>>
    requires LegalSubs(subs)
  {
    if subs == [] then [] else
      (if Meaning(subs[0].items) == [] then [] else [MkAnd(Meaning(subs[0].items))]) + MeaningSubs(subs[1..])
  }

  lemma {:induction false} FiltersNonEmpty<T>(items: seq<Item<T>>)
    ensures forall i :: 0 <= i < |Filters(items)| ==> Filters(items)[i].expr != ""
    ensures NonEmpty(Filters(items)) == Filters(items)
  {
    if items != [] {
      FiltersNonEmpty(items[1..]);
      var rest := Filters(items[1..]);
      if Filters(items) != rest { assert Filters(items)[1..] == rest; }
    }
  }

  lemma EmptyCombination<T>(frags: seq<Frag<T>>)
    requires CombineAnd(frags).expr == ""
    ensures NonEmpty(frags) == []
  {
    SkipEmpty(frags, 0);
    PartsStart(frags, 0);
  }

  lemma {:induction false} PartsStart<T>(frags: seq<Frag<T>>, base: nat)
    ensures forall i :: 0 <= i < |Parts(frags, base)| ==> Parts(frags, base)[i] != "" && Parts(frags, base)[i][0] == '('
  {
    if frags != [] {
      PartsStart(frags[1..], if frags[0].expr == "" then base else base + |frags[0].params|);
    }
  }

  /** Filters of a legal history stand one for one for the operands it is meant to conjoin. */
  lemma {:induction false} FiltersRead<T(!new)>(items: seq<Item<T>>)
    requires Legal(items) && |AllParams(Filters(items))| <= MAX_INT
    ensures AllRead(Filters(items), Meaning(items))
    decreases items, 0
  {
    hide FragReads, WellFormed, OrFrag;
    if items != [] {
      var rest := items[1..];
      FiltersNonEmpty(rest);
      if items[0].AnyOf? {
        var subs := items[0].subs;
        OrGroupReads(subs) by {
          CountOrGroup(subs, Filters(rest));
        }
      }
      ParamsOfRest(items);
      FiltersRead(rest);
      var f := match items[0] case Leaf(f) => f case AnyOf(subs) => OrFrag(CombinedSubs(subs));
      if f.expr != "" {
        assert Filters(items) == [f] + Filters(rest) && Meaning(items) == [Meaning(items)[0]] + Meaning(rest);
      } else {
        assert Filters(items) == Filters(rest) && Meaning(items) == Meaning(rest);
      }
    }
  }

  lemma ParamsOfRest<T>(items: seq<Item<T>>)
    requires items != []
    ensures |AllParams(Filters(items[1..]))| <= |AllParams(Filters(items))|
  {
    var f, rest := (match items[0] case Leaf(f) => f case AnyOf(subs) => OrFrag(CombinedSubs(subs))), Filters(items[1..]);
    if f.expr != "" { assert ([f] + rest)[1..] == rest; } else { assert [] + rest == rest; }
  }

  lemma CountOrGroup<T>(subs: seq<Scope<T>>, rest: seq<Frag<T>>)
    ensures var f := OrFrag(CombinedSubs(subs));
            |AllParams(CombinedSubs(subs))| <= |AllParams((if f.expr == "" then [] else [f]) + rest)|
  {
    var f, frags := OrFrag(CombinedSubs(subs)), CombinedSubs(subs);
    SkipEmpty(frags, 0);
    if f.expr != "" {
      assert ([f] + rest)[1..] == rest;
    }
  }

  lemma {:induction false} OrGroupReads<T(!new)>(subs: seq<Scope<T>>)
    requires LegalSubs(subs) && |AllParams(CombinedSubs(subs))| <= MAX_INT
    ensures var f := OrFrag(CombinedSubs(subs));
            if MeaningSubs(subs) == [] then f.expr == "" else f.expr != "" && FragReads(f, MkOr(MeaningSubs(subs)))
    decreases subs, 1
  {
    hide FragReads;
    var frags := CombinedSubs(subs);
    SubsRead(subs);
    CombinedFragReads(frags, MeaningSubs(subs), Disj);
    if MeaningSubs(subs) != [] {
      SkipEmpty(frags, 0);
      OuterParens(Frag(JoinStrings(Parts(frags, 0), " OR "), AllParams(frags)), MkOr(MeaningSubs(subs)));
    }
  }

  /** OrGroup's own parentheses change nothing in the reading. */
  lemma OuterParens<T(!new)>(f: Frag<T>, t: Tree<T>)
    requires FragReads(f, t) && |f.params| <= MAX_INT
    ensures FragReads(Frag("(" + f.expr + ")", f.params), t)
  {
    PartBinds(f, [], []);
    assert [] + f.params + [] == f.params;
    ParensMakeOperand(Resolved(f), t);
  }

  lemma {:induction false} SubsRead<T(!new)>(subs: seq<Scope<T>>)
    requires LegalSubs(subs) && |AllParams(CombinedSubs(subs))| <= MAX_INT
    ensures AllRead(NonEmpty(CombinedSubs(subs)), MeaningSubs(subs))
    decreases subs, 0
  {
    hide FragReads;
    if subs != [] {
      var items := subs[0].items;
      assert CombinedSubs(subs)[1..] == CombinedSubs(subs[1..]);
      if CombineAnd(Filters(items)).expr == "" {
        EmptyCombination(Filters(items));
        FiltersNonEmpty(items);
      }
      ScopeReads(items);
      SubsRead(subs[1..]);
      var f, fs, ts := CombineAnd(Filters(items)), NonEmpty(CombinedSubs(subs[1..])), MeaningSubs(subs[1..]);
      if f.expr != "" {
        assert Meaning(items) != [];
        assert NonEmpty(CombinedSubs(subs)) == [f] + fs && MeaningSubs(subs) == [MkAnd(Meaning(items))] + ts;
      } else {
        assert NonEmpty(CombinedSubs(subs)) == fs && MeaningSubs(subs) == ts;
      }
    }
  }

  /**
   The whole translation: for any nesting of scopes built from fragments that are filters on their
   own, the combined text with the combined parameters reads as exactly the AND of the fragments and
   of the OR groups of the sub-scopes; a scope with nothing in it yields no filter at all.
   */
  lemma {:induction false} ScopeReads<T(!new)>(items: seq<Item<T>>)
    requires Legal(items) && |AllParams(Filters(items))| <= MAX_INT
    ensures var f := CombineAnd(Filters(items));
            if Meaning(items) == [] then f == Frag("", []) else f.expr != "" && FragReads(f, MkAnd(Meaning(items)))
    decreases items, 1
  {
    hide FragReads;
    FiltersRead(items);
    FiltersNonEmpty(items);
    CombinedFragReads(Filters(items), Meaning(items), Conj);
  }

  // ---------------------------------------------------------------- truth at a node

  predicate IsEmpty<T>(items: seq<Item<T>>) {
    items != [] ==>
      (match items[0] case Leaf(f) => f.expr == "" case AnyOf(subs) => AllEmpty(subs)) && IsEmpty(items[1..])
  }

  predicate AllEmpty<T>(subs: seq<Scope<T>>) {
    subs != [] ==> IsEmpty(subs[0].items) && AllEmpty(subs[1..])
  }

  /** What the builder's documentation says a scope selects. */
  ghost predicate Selects<T>(items: seq<Item<T>>, holds: (seq<Piece<T>>, seq<Token<T>>) -> bool)
    requires Legal(items)
  {
    items != [] ==>
      && (match items[0]
          case Leaf(f) => f.expr != "" ==> Eval(TreeOf(f), holds)
          case AnyOf(subs) => AllEmpty(subs) || SomeSelects(subs, holds))
      && Selects(items[1..], holds)
  }

  /** Some sub-scope that is not empty selects the node. */
  ghost predicate SomeSelects<T>(subs: seq<Scope<T>>, holds: (seq<Piece<T>>, seq<Token<T>>) -> bool)
    requires LegalSubs(subs)
  {
    subs != [] &&
      ((!IsEmpty(subs[0].items) && Selects(subs[0].items, holds)) || SomeSelects(subs[1..], holds))
  }

  lemma {:induction false} EvalMeaning<T>(items: seq<Item<T>>, holds: (seq<Piece<T>>, seq<Token<T>>) -> bool)
    requires Legal(items)
    ensures IsEmpty(items) <==> Meaning(items) == []
    ensures Eval(And(Meaning(items)), holds) <==> Selects(items, holds)
  {
    if items != [] {
      var rest := Meaning(items[1..]);
      EvalMeaning(items[1..], holds);
      if items[0].AnyOf? {
        EvalSubs(items[0].subs, holds);
        EvalMk(MeaningSubs(items[0].subs), holds);
      }
      if Meaning(items) != rest {
        EvalCons(Meaning(items)[0], rest, holds);
        assert Meaning(items) == [Meaning(items)[0]] + rest;
      }
    }
  }

  lemma {:induction false} EvalSubs<T>(subs: seq<Scope<T>>, holds: (seq<Piece<T>>, seq<Token<T>>) -> bool)
    requires LegalSubs(subs)
    ensures AllEmpty(subs) <==> MeaningSubs(subs) == []
    ensures Eval(Or(MeaningSubs(subs)), holds) <==> SomeSelects(subs, holds)
  {
    if subs != [] {
      var rest := MeaningSubs(subs[1..]);
      EvalSubs(subs[1..], holds);
      EvalMeaning(subs[0].items, holds);
      EvalMk(Meaning(subs[0].items), holds);
      if MeaningSubs(subs) != rest {
        EvalCons(MeaningSubs(subs)[0], rest, holds);
        assert MeaningSubs(subs) == [MeaningSubs(subs)[0]] + rest;
      }
    }
  }

  lemma EvalCons<T>(t: Tree<T>, ts: seq<Tree<T>>, holds: (seq<Piece<T>>, seq<Token<T>>) -> bool)
    ensures Eval(And([t] + ts), holds) <==> Eval(t, holds) && Eval(And(ts), holds)
    ensures Eval(Or([t] + ts), holds) <==> Eval(t, holds) || Eval(Or(ts), holds)
  {
    var l := [t] + ts;
    assert l[0] == t;
    assert forall i :: 0 <= i < |ts| ==> l[i + 1] == ts[i];
    assert forall i :: 0 < i < |l| ==> l[i] == ts[i - 1];
  }

  lemma EvalMk<T>(ts: seq<Tree<T>>, holds: (seq<Piece<T>>, seq<Token<T>>) -> bool)
    ensures ts != [] ==> (Eval(MkAnd(ts), holds) <==> Eval(And(ts), holds))
    ensures ts != [] ==> (Eval(MkOr(ts), holds) <==> Eval(Or(ts), holds))
  {
  }

  /** At every node the filter the parser reads selects exactly what the scope means. */
  lemma ScopeSelects<T(!new)>(items: seq<Item<T>>, holds: (seq<Piece<T>>, seq<Token<T>>) -> bool)
    requires Legal(items) && |AllParams(Filters(items))| <= MAX_INT
    requires !IsEmpty(items)
    ensures var f := CombineAnd(Filters(items));
            WellFormed(f) && (Eval(TreeOf(f), holds) <==> Selects(items, holds))
  {
    ScopeReads(items);
    EvalMeaning(items, holds);
    EvalMk(Meaning(items), holds);
  }
}
