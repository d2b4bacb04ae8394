/**
 filter.Builder: groups of parameterized terms. Terms of a group join with OR, groups with AND, and
 placeholders are numbered as parameters are taken. Only an eq group is parenthesized; a single term
 is not, and the text still reads as the AND of the groups.
 */
module FilterBuilder {
  import opened Basics
  import opened Strconv
  import opened Placeholders
  import opened FilterGrammar
  import opened FilterJoin
  import opened FilterScopes

  datatype Term = Term(value: string, negated: bool)

  /** EqGroupUUID and EqGroupString make the first kind; RequiredEq, AnyOfText and AllOfText the second. */
  datatype Clause = EqGroup(attr: string, terms: seq<Term>) | Single(fn: string, attr: string, value: string)

  // ---------------------------------------------------------------- rendering

  function Ref(n: nat): string {
    "$" + Itoa(n)
  }

  function CallText(fn: string, attr: string, n: nat): string {
    fn + "(" + attr + ", " + Ref(n) + ")"
  }

  function TermText(attr: string, t: Term, n: nat): string {
    if t.negated then "NOT " + CallText("eq", attr, n) else CallText("eq", attr, n)
  }

  /** Terms numbered from n + 1. */
  function TermTexts(attr: string, terms: seq<Term>, n: nat): (r: seq<string>)
    ensures |r| == |terms|
  {
    if terms == [] then [] else [TermText(attr, terms[0], n + 1)] + TermTexts(attr, terms[1..], n + 1)
  }

  function ClauseText(c: Clause, n: nat): string {
    match c
    case EqGroup(attr, terms) => "(" + JoinStrings(TermTexts(attr, terms, n), " OR ") + ")"
    case Single(fn, attr, _) => CallText(fn, attr, n + 1)
  }

  function TermValues(terms: seq<Term>): (r: seq<string>)
    ensures |r| == |terms|
  {
    if terms == [] then [] else [terms[0].value] + TermValues(terms[1..])
  }

  function ClauseValues(c: Clause): seq<string> {
    match c
    case EqGroup(_, terms) => TermValues(terms)
    case Single(_, _, value) => [value]
  }

  function ClauseTexts(cs: seq<Clause>, n: nat): (r: seq<string>)
    ensures |r| == |cs|
  {
    if cs == [] then [] else [ClauseText(cs[0], n)] + ClauseTexts(cs[1..], n + |ClauseValues(cs[0])|)
  }

  function Values(cs: seq<Clause>): seq<string> {
    if cs == [] then [] else ClauseValues(cs[0]) + Values(cs[1..])
  }

  lemma {:induction false} AppendClause(cs: seq<Clause>, c: Clause, n: nat)
    ensures Values(cs + [c]) == Values(cs) + ClauseValues(c)
    ensures ClauseTexts(cs + [c], n) == ClauseTexts(cs, n) + [ClauseText(c, n + |Values(cs)|)]
  {
    hide ClauseText, ClauseValues;
    if cs == [] {
      assert cs + [c] == [c] && [c][1..] == [];
    } else {
      assert (cs + [c])[1..] == cs[1..] + [c];
      AppendClause(cs[1..], c, n + |ClauseValues(cs[0])|);
    }
  }

  lemma {:induction false} AppendTerm(attr: string, ts: seq<Term>, t: Term, n: nat)
    ensures TermValues(ts + [t]) == TermValues(ts) + [t.value]
    ensures TermTexts(attr, ts + [t], n) == TermTexts(attr, ts, n) + [TermText(attr, t, n + |ts| + 1)]
  {
    hide TermText;
    if ts == [] {
      assert ts + [t] == [t] && [t][1..] == [];
    } else {
      assert (ts + [t])[1..] == ts[1..] + [t];
      AppendTerm(attr, ts[1..], t, n + 1);
    }
  }

  lemma NoTerms(attr: string, n: nat)
    ensures TermTexts(attr, [], n) == [] && TermValues([]) == []
  {
  }

  class Builder {
    var groups: seq<string>
    var params: seq<string>
    // the clauses added so far
    ghost var clauses: seq<Clause>

    ghost predicate Valid()
      reads this
    {
      groups == ClauseTexts(clauses, 0) && params == Values(clauses)
    }

    constructor ()
      ensures Valid() && clauses == []
    {
      groups, params, clauses := [], [], [];
    }

    method Param(v: string) returns (ref: string)
      modifies `params
      ensures params == old(params) + [v] && ref == Ref(|params|)
    {
      params := params + [v];
      ref := "$" + Itoa(|params|);
    }

    /** EqGroupUUID and EqGroupString: a no-op without terms. */
    method EqGroup(attr: string, terms: seq<Term>)
      requires Valid()
      modifies this
      ensures Valid()
      ensures clauses == if terms == [] then old(clauses) else old(clauses) + [Clause.EqGroup(attr, terms)]
    {
      if |terms| == 0 { return; }
      AddEqGroup(attr, terms);
    }

    method AddEqGroup(attr: string, terms: seq<Term>)
      requires Valid()
      modifies this
      ensures Valid() && clauses == old(clauses) + [Clause.EqGroup(attr, terms)]
    {
      hide Itoa, TermTexts, TermValues, Values, ClauseTexts;
      var parts: seq<string> := [];
      var i := 0;
      ghost var n := |params|;
      assert terms[..0] == [];
      NoTerms(attr, n);
      while i < |terms|
        invariant 0 <= i <= |terms|
        invariant parts == TermTexts(attr, terms[..i], n)
        invariant params == old(params) + TermValues(terms[..i])
        invariant groups == old(groups) && clauses == old(clauses)
      {
        var t := terms[i];
        assert terms[..i + 1] == terms[..i] + [t];
        AppendTerm(attr, terms[..i], t, n);
        Reassociate(old(params), TermValues(terms[..i]), [t.value]);
        var ref := Param(t.value);
        var eq := "eq(" + attr + ", " + ref + ")";
        if t.negated { eq := "NOT " + eq; }
        assert eq == TermText(attr, t, n + i + 1);
        parts := parts + [eq];
        i := i + 1;
      }
      assert terms[..i] == terms;
      AppendClause(clauses, Clause.EqGroup(attr, terms), 0);
      groups := groups + ["(" + JoinStrings(parts, " OR ") + ")"];
      clauses := clauses + [Clause.EqGroup(attr, terms)];
    }

    method AddSingle(fn: string, attr: string, value: string)
      requires Valid()
      modifies this
      ensures Valid() && clauses == old(clauses) + [Single(fn, attr, value)]
    {
      hide ClauseTexts, Values;
      AppendClause(clauses, Single(fn, attr, value), 0);
      var ref := Param(value);
      groups := groups + [fn + "(" + attr + ", " + ref + ")"];
      clauses := clauses + [Single(fn, attr, value)];
    }

    method RequiredEq(attr: string, value: string)
      requires Valid()
      modifies this
      ensures Valid() && clauses == old(clauses) + [Single("eq", attr, value)]
    {
      AddSingle("eq", attr, value);
    }

    /** An empty search term adds nothing. */
    method AnyOfText(attr: string, term: string)
      requires Valid()
      modifies this
      ensures Valid()
      ensures clauses == if term == "" then old(clauses) else old(clauses) + [Single("anyoftext", attr, term)]
    {
      if term == "" { return; }
      AddSingle("anyoftext", attr, term);
    }

    method AllOfText(attr: string, term: string)
      requires Valid()
      modifies this
      ensures Valid()
      ensures clauses == if term == "" then old(clauses) else old(clauses) + [Single("alloftext", attr, term)]
    {
      if term == "" { return; }
      AddSingle("alloftext", attr, term);
    }

    method Build() returns (expr: string, ps: seq<string>)
      requires Valid()
      ensures Frag(expr, ps) == Built(clauses)
    {
      if |groups| == 0 { return "", []; }
      expr, ps := JoinStrings(groups, " AND "), params;
    }
  }

  function Built(cs: seq<Clause>): Frag<string> {
    Frag(JoinStrings(ClauseTexts(cs, 0), " AND "), Values(cs))
  }

  // ---------------------------------------------------------------- meaning

  predicate LegalName(s: string) {
    s != "" && '$' !in s && NoBreaks<string>(Text(s))
  }

  /** Predicate names are plain, and an eq group has a term, as its public callers ensure. */
  predicate LegalClause(c: Clause) {
    && LegalName(c.attr)
    && (c.EqGroup? ==> c.terms != [])
    && (c.Single? ==> c.fn in {"eq", "anyoftext", "alloftext"})
  }

  function CallTree(fn: string, attr: string, v: string): Tree<string> {
    Call(Text(fn), [Word(Text(attr)), Comma, Word([Val(v)])])
  }

  function TermTree(attr: string, t: Term): Tree<string> {
    if t.negated then Not(CallTree("eq", attr, t.value)) else CallTree("eq", attr, t.value)
  }

  function TermTrees(attr: string, terms: seq<Term>): (r: seq<Tree<string>>)
    ensures |r| == |terms|
  {
    seq(|terms|, i requires 0 <= i < |terms| => TermTree(attr, terms[i]))
  }

  function ClauseTree(c: Clause): Tree<string> {
    match c
    case EqGroup(attr, terms) => MkOr(TermTrees(attr, terms))
    case Single(fn, attr, v) => CallTree(fn, attr, v)
  }

  function ClauseTrees(cs: seq<Clause>): (r: seq<Tree<string>>)
    ensures |r| == |cs|
  {
    seq(|cs|, i requires 0 <= i < |cs| => ClauseTree(cs[i]))
  }

  function CallPieces(fn: string, attr: string, v: string): seq<Piece<string>> {
    Text(fn + "(" + attr + ", ") + [Val(v)] + Text(")")
  }

  function TermPieces(attr: string, t: Term): seq<Piece<string>> {
    if t.negated then Text("NOT ") + CallPieces("eq", attr, t.value) else CallPieces("eq", attr, t.value)
  }

  function AllTermPieces(attr: string, terms: seq<Term>): (r: seq<seq<Piece<string>>>)
    ensures |r| == |terms|
  {
    seq(|terms|, i requires 0 <= i < |terms| => TermPieces(attr, terms[i]))
  }

  function ClausePieces(c: Clause): seq<Piece<string>> {
    match c
    case EqGroup(attr, terms) => Parens(JoinPieces(AllTermPieces(attr, terms), Disj))
    case Single(fn, attr, v) => CallPieces(fn, attr, v)
  }

  function AllClausePieces(cs: seq<Clause>): (r: seq<seq<Piece<string>>>)
    ensures |r| == |cs|
  {
    seq(|cs|, i requires 0 <= i < |cs| => ClausePieces(cs[i]))
  }

  // ---------------------------------------------------------------- numbering is binding

  lemma RefIsUnit(n: nat)
    requires n <= MAX_INT
    ensures IsRef(Ref(n)) && Ordinal(Ref(n)) == n
  {
    var u := Ref(n);
    AtoiOfItoa(n);
    assert u[1..] == Itoa(n);
    assert forall i :: 1 <= i < |u| ==> u[i] == Itoa(n)[i - 1];
  }

  lemma RefResolves<T>(n: nat, rest: string, params: seq<T>, m: nat)
    requires 1 <= n <= |params| && n <= MAX_INT
    requires rest == "" || !IsDigit(rest[0])
    ensures Resolve(Ref(n) + rest, params) == [Val(params[n - 1])] + Resolve(rest, params)
    ensures InRange(Ref(n) + rest, m) <==> n <= m && InRange(rest, m)
  {
    hide Ref, Ordinal, IsUnit, Head, Tail;
    RefIsUnit(n);
    HeadIs(Ref(n), rest) by { assert IsUnit(Ref(n)) by { UnitOfRef(n); } }
  }

  lemma UnitOfRef(n: nat)
    requires n <= MAX_INT
    ensures IsUnit(Ref(n))
  {
    RefIsUnit(n);
  }

  lemma CallResolves(fn: string, attr: string, n: nat, params: seq<string>, m: nat)
    requires LegalName(attr) && '$' !in fn
    requires 1 <= n <= |params| && n <= m && n <= MAX_INT
    ensures Resolve(CallText(fn, attr, n), params) == CallPieces(fn, attr, params[n - 1])
    ensures InRange(CallText(fn, attr, n), m)
  {
    hide Resolve, InRange, Ref, NoBreaks;
    var head := fn + "(" + attr + ", ";
    assert '$' !in head;
    assert CallText(fn, attr, n) == head + (Ref(n) + ")");
    ResolveAppend(head, Ref(n) + ")", params);
    ResolveText(head, params);
    ResolveText(")", params);
    RefResolves(n, ")", params, m);
    InRangeAppend(head, Ref(n) + ")", m);
    InRangeText(head, m);
    InRangeText(")", m);
    assert Text<string>(head) + ([Val(params[n - 1])] + Text(")")) == CallPieces(fn, attr, params[n - 1]);
  }

  lemma TermResolves(attr: string, t: Term, n: nat, params: seq<string>, m: nat)
    requires LegalName(attr) && 1 <= n <= |params| && n <= m && n <= MAX_INT && params[n - 1] == t.value
    ensures Resolve(TermText(attr, t, n), params) == TermPieces(attr, t)
    ensures InRange(TermText(attr, t, n), m)
  {
    hide Resolve, InRange, CallText, CallPieces, LegalName;
    assert '$' !in "eq" && '$' !in "NOT ";
    CallResolves("eq", attr, n, params, m);
    if t.negated {
      ResolveAppend("NOT ", CallText("eq", attr, n), params);
      ResolveText("NOT ", params);
      InRangeAppend("NOT ", CallText("eq", attr, n), m);
      InRangeText("NOT ", m);
    }
  }

  /** Joined texts resolve to joined pieces when each does and each ends in a parenthesis. */
  lemma {:induction false} JoinResolves(ss: seq<string>, rs: seq<seq<Piece<string>>>, op: Connective,
                                        params: seq<string>, m: nat)
    requires |ss| == |rs|
    requires forall i :: 0 <= i < |ss| ==> Resolve(ss[i], params) == rs[i] && InRange(ss[i], m)
    ensures Resolve(JoinStrings(ss, Sep(op)), params) == JoinPieces(rs, op)
    ensures InRange(JoinStrings(ss, Sep(op)), m)
  {
    hide Resolve, InRange;
    if ss == [] {
      ResolveText("", params);
      InRangeText("", m);
      assert Text<string>("") == [];
    } else if |ss| > 1 {
      var tail := JoinStrings(ss[1..], Sep(op));
      JoinResolves(ss[1..], rs[1..], op, params, m);
      Reassociate(ss[0], Sep(op), tail);
      ResolveAppend(ss[0], Sep(op) + tail, params);
      ResolveAppend(Sep(op), tail, params);
      ResolveText(Sep(op), params);
      InRangeAppend(ss[0], Sep(op) + tail, m);
      InRangeAppend(Sep(op), tail, m);
      InRangeText(Sep(op), m);
      Reassociate(rs[0], Text(Sep(op)), JoinPieces(rs[1..], op));
    }
  }

  lemma {:induction false} TermsAt(attr: string, terms: seq<Term>, n: nat, i: nat)
    requires i < |terms|
    ensures TermTexts(attr, terms, n)[i] == TermText(attr, terms[i], n + i + 1)
    ensures TermValues(terms)[i] == terms[i].value
  {
    hide TermText;
    if i > 0 { TermsAt(attr, terms[1..], n + 1, i - 1); }
  }

  /** One clause, its parameters standing behind front, resolves to its own terms. */
  lemma ClauseResolves(c: Clause, front: seq<string>, back: seq<string>, m: nat)
    requires LegalClause(c) && |front| + |ClauseValues(c)| <= m <= MAX_INT
    ensures Resolve(ClauseText(c, |front|), front + ClauseValues(c) + back) == ClausePieces(c)
    ensures InRange(ClauseText(c, |front|), m)
  {
    hide Resolve, InRange, TermText, TermPieces, CallText, CallPieces, LegalName;
    var all := front + ClauseValues(c) + back;
    match c
    case Single(fn, attr, v) =>
      assert all[|front|] == v;
      CallResolves(fn, attr, |front| + 1, all, m);
    case EqGroup(attr, terms) =>
      var ss, rs := TermTexts(attr, terms, |front|), AllTermPieces(attr, terms);
      forall i | 0 <= i < |ss| ensures Resolve(ss[i], all) == rs[i] && InRange(ss[i], m) {
        TermsAt(attr, terms, |front|, i);
        assert all[|front| + i] == TermValues(terms)[i];
        TermResolves(attr, terms[i], |front| + i + 1, all, m);
      }
      JoinResolves(ss, rs, Disj, all, m);
      var s := JoinStrings(ss, " OR ");
      ResolveAppend("(" + s, ")", all);
      ResolveAppend("(", s, all);
      ResolveText("(", all);
      ResolveText(")", all);
      InRangeAppend("(" + s, ")", m);
      InRangeAppend("(", s, m);
      InRangeText("(", m);
      InRangeText(")", m);
  }

  predicate LegalClauses(cs: seq<Clause>) {
    forall i :: 0 <= i < |cs| ==> LegalClause(cs[i])
  }

  lemma {:induction false} ClausesResolve(cs: seq<Clause>, front: seq<string>, m: nat)
    requires LegalClauses(cs) && |front| + |Values(cs)| <= m <= MAX_INT
    ensures var ss := ClauseTexts(cs, |front|);
            forall i :: 0 <= i < |cs| ==>
              Resolve(ss[i], front + Values(cs)) == AllClausePieces(cs)[i] && InRange(ss[i], m)
  {
    hide Resolve, InRange, ClauseText, ClausePieces, LegalClause;
    if cs != [] {
      var v := ClauseValues(cs[0]);
      ClauseResolves(cs[0], front, Values(cs[1..]), m);
      assert front + v + Values(cs[1..]) == front + Values(cs);
      ClausesResolve(cs[1..], front + v, m);
      var ss, tail := ClauseTexts(cs, |front|), ClauseTexts(cs[1..], |front + v|);
      assert front + v + Values(cs[1..]) == front + Values(cs);
      forall i | 0 <= i < |cs|
        ensures Resolve(ss[i], front + Values(cs)) == AllClausePieces(cs)[i] && InRange(ss[i], m)
      {
        if i > 0 {
          assert ss[i] == tail[i - 1];
          assert AllClausePieces(cs)[i] == AllClausePieces(cs[1..])[i - 1];
        }
      }
    }
  }

  // ---------------------------------------------------------------- precedence

  lemma LexCall(fn: string, attr: string, v: string)
    requires LegalName(attr) && LegalName(fn)
    ensures Lex(CallPieces(fn, attr, v)) ==
            Some([Word(Text(fn)), LParen] + [Word(Text(attr)), Comma, Word([Val(v)])] + [RParen])
  {
    hide Lex, NoBreaks;
    var close := [Ch(')')];
    var empty: seq<Piece<string>> := [];
    LexOne<string>(')', RParen, empty);
    assert Lex(empty) == Some([]) by { LexNothing(); }
    assert close + [] == close;
    var value := [Val(v)] + close;
    assert NoBreaks<string>([Val(v)]) by { OneValue(v); }
    WholeWord([Val(v)]);
    LexAppend([Val(v)], close);
    var spaced := [Ch(' ')] + value;
    LexBlank(value);
    var comma := [Ch(',')] + spaced;
    LexOne(',', Comma, spaced);
    var name := Text(attr) + comma;
    WholeWord<string>(Text(attr));
    LexAppend(Text(attr), comma);
    var open := [Ch('(')] + name;
    LexOne('(', LParen, name);
    WholeWord<string>(Text(fn));
    LexAppend(Text(fn), open);
    assert CallPieces(fn, attr, v) == Text(fn) + open;
    var f, a, w := Word(Text<string>(fn)), Word(Text<string>(attr)), Word([Val(v)]);
    assert [f] + ([LParen] + ([a] + ([Comma] + ([w] + ([RParen] + []))))) == [f, LParen] + [a, Comma, w] + [RParen];
  }

  lemma LexNothing()
    ensures Lex<string>([]) == Some([])
  {
  }

  lemma OneValue(v: string)
    ensures NoBreaks([Val(v)])
  {
  }

  lemma FunctionNames(fn: string)
    requires fn in {"eq", "anyoftext", "alloftext"}
    ensures LegalName(fn)
    ensures !IsAnd<string>(Word(Text(fn))) && !IsOr<string>(Word(Text(fn))) && !IsNot<string>(Word(Text(fn)))
  {
    assert forall i :: 0 <= i < |fn| ==> Text<string>(fn)[i] == Ch(fn[i]);
    assert |fn| == 2 ==> Text<string>(fn)[0] == Ch('e');
  }

  lemma CallOperand(fn: string, attr: string, v: string)
    requires LegalName(attr) && fn in {"eq", "anyoftext", "alloftext"}
    ensures Operand(CallPieces(fn, attr, v), CallTree(fn, attr, v))
  {
    hide Lex, ParseNot, LegalName, IsKeyword, CallPieces;
    FunctionNames(fn);
    LexCall(fn, attr, v);
    CallIsOperand<string>(Text(fn), [Word(Text(attr)), Comma, Word([Val(v)])]);
  }

  /** NOT in front of an operand is an operand. */
  lemma NotOperand(r: seq<Piece<string>>, t: Tree<string>)
    requires Operand(r, t)
    ensures Operand(Text("NOT ") + r, Not(t))
  {
    hide Lex;
    var w: seq<Piece<string>> := Text("NOT");
    var not: Token<string> := Word(w);
    var tail := [Ch(' ')] + r;
    assert Text("NOT ") + r == w + tail;
    LexBlank(r);
    WholeWord(w);
    LexAppend(w, tail) by { assert Breaks(tail[0]); }
    var ts := Lex(r).value;
    forall x ensures ParseNot([not] + ts + x) == Some((Not(t), x)) {
      assert ([not] + ts + x)[1..] == ts + x;
      assert IsNot(not) by { NotKeyword(); }
    }
  }

  lemma NotKeyword()
    ensures IsNot<string>(Word(Text("NOT")))
  {
    var w: seq<Piece<string>> := Text("NOT");
    assert w[0] == Ch('N') && w[1] == Ch('O') && w[2] == Ch('T');
  }

  lemma TermOperand(attr: string, t: Term)
    requires LegalName(attr)
    ensures Operand(TermPieces(attr, t), TermTree(attr, t))
  {
    hide Operand, CallPieces, CallTree, LegalName;
    CallOperand("eq", attr, t.value);
    if t.negated { NotOperand(CallPieces("eq", attr, t.value), CallTree("eq", attr, t.value)); }
  }

  lemma ClauseOperand(c: Clause)
    requires LegalClause(c)
    ensures Operand(ClausePieces(c), ClauseTree(c))
  {
    hide Reads, TermPieces, TermTree, CallPieces, CallTree, LegalName, Lex, ParseNot;
    match c
    case Single(fn, attr, v) => CallOperand(fn, attr, v);
    case EqGroup(attr, terms) =>
      var rs, ts := AllTermPieces(attr, terms), TermTrees(attr, terms);
      forall i | 0 <= i < |terms| ensures Operand(rs[i], ts[i]) {
        TermOperand(attr, terms[i]);
      }
      JoinReads(rs, ts, Disj);
      ParensMakeOperand(JoinPieces(rs, Disj), MkOr(ts));
  }

  /**
   Build's output, for any clauses added in any order: every placeholder is bound to the value of its
   own term, and the text reads as exactly the AND of the clauses, each eq group the OR of its terms,
   a negation covering one term only.
   */
  lemma BuiltReads(cs: seq<Clause>)
    requires LegalClauses(cs) && cs != [] && |Values(cs)| <= MAX_INT
    ensures FragReads(Built(cs), MkAnd(ClauseTrees(cs)))
  {
    hide Resolve, InRange, Reads, ClauseText, ClausePieces, ClauseTree, LegalClause, Lex, ParseNot;
    var rs, ts := AllClausePieces(cs), ClauseTrees(cs);
    var ss, vs := ClauseTexts(cs, 0), Values(cs);
    var none: seq<string> := [];
    ClausesResolve(cs, none, |vs|);
    assert none + vs == vs && ClauseTexts(cs, |none|) == ss;
    assert forall i :: 0 <= i < |ss| ==> Resolve(ss[i], vs) == rs[i] && InRange(ss[i], |vs|);
    JoinResolves(ss, rs, Conj, vs, |vs|);
    forall i | 0 <= i < |cs| ensures Operand(rs[i], ts[i]) {
      ClauseOperand(cs[i]);
    }
    JoinReads(rs, ts, Conj);
    ClauseStart(cs[0], 0);
  }

  lemma ClauseStart(c: Clause, n: nat)
    requires LegalClause(c)
    ensures ClauseText(c, n) != ""
  {
  }
}
