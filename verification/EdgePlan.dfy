/**
 The request a WhereEdge query compiles to: a var block that binds the roots surviving every edge
 constraint, a data block filtered by that variable, and a count block over it. The blocks are text;
 here they are read back with the filter grammar, run on an arbitrary graph, and compared with a
 direct semi-join.
 */
module EdgePlan {
  import opened Basics
  import opened Strconv
  import opened Placeholders
  import opened FilterGrammar
  import opened FilterJoin
  import opened FilterScopes

  /** One WhereEdge constraint. */
  datatype Edge<T> = Edge(attr: string, filter: Frag<T>)

  /** A selected field of the var block, as read back: alias, edge predicate and target filter. */
  datatype Field<T> = Field(alias: seq<Piece<T>>, pred: seq<Piece<T>>, filter: Tree<T>)

  const VAR_NAME := "mgMatched"

  // ---------------------------------------------------------------- the match body

  function FieldHead(i: nat, attr: string): string {
    "\tmg_e" + Itoa(i) + " : " + attr + " @filter"
  }

  function FieldText<T>(i: nat, e: Edge<T>, base: nat): string {
    FieldHead(i, e.attr) + ("(" + Shifted(e.filter.expr, base) + ")") + " { uid }\n"
  }

  /** Fields of the constraints from number i on; base parameters precede them. */
  function FieldTexts<T>(edges: seq<Edge<T>>, i: nat, base: nat): string {
    if edges == [] then "" else
      FieldText(i, edges[0], base) + FieldTexts(edges[1..], i + 1, base + |edges[0].filter.params|)
  }

  function EdgeParams<T>(edges: seq<Edge<T>>): seq<T> {
    if edges == [] then [] else edges[0].filter.params + EdgeParams(edges[1..])
  }

  /** edgeMatchBody */
  function MatchBody<T>(edges: seq<Edge<T>>): Frag<T> {
    Frag("{\n\tuid\n" + FieldTexts(edges, 0, 0) + "}", EdgeParams(edges))
  }

  // ---------------------------------------------------------------- reading the body back

  function Brace<T>(c: char): Token<T> {
    Word([Ch(c)])
  }

  /** What stands between the parentheses of `@filter`; nothing at all is no filter, true of every target. */
  ghost function ParseTarget<T>(ts: seq<Token<T>>): (r: Option<(Tree<T>, seq<Token<T>>)>)
    ensures r.Some? ==> |r.value.1| <= |ts|
  {
    if ts != [] && ts[0] == RParen then Some((And([]), ts)) else ParseOr(ts)
  }

  /** `alias : pred @filter( ... ) { uid }`, repeated up to the closing brace. */
  ghost function ParseFields<T>(ts: seq<Token<T>>): Option<seq<Field<T>>>
    decreases |ts|
  {
    if ts == [Brace('}')] then Some([])
    else if |ts| < 5 || !(ts[0].Word? && ts[2].Word?) || ts[1] != Brace(':') || ts[3] != Word(Text("@filter"))
      || ts[4] != LParen then None
    else match ParseTarget(ts[5..])
      case None => None
      case Some((t, rest)) =>
        if |rest| < 4 || rest[..4] != [RParen, Brace('{'), Word(Text("uid")), Brace('}')] then None
        else match ParseFields(rest[4..])
          case None => None
          case Some(more) => Some([Field(ts[0].w, ts[2].w, t)] + more)
  }

  ghost function ParseBody<T>(ts: seq<Token<T>>): Option<seq<Field<T>>> {
    if |ts| < 2 || ts[..2] != [Brace('{'), Word(Text("uid"))] then None else ParseFields(ts[2..])
  }

  /** The caller's side: a plain predicate name, and a target filter that is none or one on its own. */
  ghost predicate LegalEdge<T>(e: Edge<T>) {
    && e.attr != "" && '$' !in e.attr
    && NoBreaks<T>(Text(e.attr))
    && (e.filter.expr == "" || WellFormed(e.filter))
  }

  ghost function TargetTree<T>(f: Frag<T>): Tree<T>
    requires f.expr == "" || WellFormed(f)
  {
    if f.expr == "" then And([]) else TreeOf(f)
  }

  ghost predicate LegalEdges<T>(edges: seq<Edge<T>>) {
    forall i :: 0 <= i < |edges| ==> LegalEdge(edges[i])
  }

  ghost function FieldOf<T>(i: nat, e: Edge<T>): Field<T>
    requires LegalEdge(e)
  {
    Field(Text("mg_e" + Itoa(i)), Text(e.attr), TargetTree(e.filter))
  }

  /** The fields the constraints are meant to select. */
  ghost function Fields<T>(edges: seq<Edge<T>>, i: nat): seq<Field<T>>
    requires LegalEdges(edges)
  {
    seq(|edges|, k requires 0 <= k < |edges| => FieldOf(i + k, edges[k]))
  }

  lemma FieldsSplit<T>(edges: seq<Edge<T>>, i: nat)
    requires LegalEdges(edges) && edges != []
    ensures Fields(edges, i) == [FieldOf(i, edges[0])] + Fields(edges[1..], i + 1)
  {
    hide LegalEdge, FieldOf;
  }

  function FieldPieces<T>(i: nat, e: Edge<T>): seq<Piece<T>> {
    Text(FieldHead(i, e.attr)) + Parens(Resolved(e.filter)) + Text(" { uid }\n")
  }

  function BodyPieces<T>(edges: seq<Edge<T>>, i: nat): seq<Piece<T>> {
    if edges == [] then Text("}") else FieldPieces(i, edges[0]) + BodyPieces(edges[1..], i + 1)
  }

  lemma LegalFilterLexes<T>(e: Edge<T>)
    requires LegalEdge(e)
    ensures InRange(e.filter.expr, |e.filter.params|) && Lex(Resolved(e.filter)).Some?
  {
  }

  lemma HeadHasNoDollar<T>(i: nat, e: Edge<T>)
    requires LegalEdge(e)
    ensures '$' !in FieldHead(i, e.attr)
  {
    assert Itoa(i) == FormatNat(i);
    assert forall k :: 0 <= k < |Itoa(i)| ==> Itoa(i)[k] != '$';
  }

  lemma FieldBinds<T>(i: nat, e: Edge<T>, front: seq<T>, back: seq<T>)
    requires LegalEdge(e) && |front| + |e.filter.params| <= MAX_INT
    ensures Resolve(FieldText(i, e, |front|), front + e.filter.params + back) == FieldPieces(i, e)
  {
    hide Resolve, Shifted, InRange, Parens, Resolved, FieldHead;
    var all := front + e.filter.params + back;
    var head, group, close := FieldHead(i, e.attr), "(" + Shifted(e.filter.expr, |front|) + ")", " { uid }\n";
    HeadHasNoDollar(i, e);
    LegalFilterLexes(e);
    PartBinds(e.filter, front, back);
    ResolveAppend(head + group, close, all);
    ResolveAppend(head, group, all);
    ResolveText(head, all);
    ResolveText(close, all);
  }

  lemma {:induction false} FieldsBind<T>(edges: seq<Edge<T>>, i: nat, front: seq<T>)
    requires LegalEdges(edges) && |front| + |EdgeParams(edges)| <= MAX_INT
    ensures Resolve(FieldTexts(edges, i, |front|) + "}", front + EdgeParams(edges)) == BodyPieces(edges, i)
  {
    hide Resolve, FieldText, FieldPieces, LegalEdge;
    var all := front + EdgeParams(edges);
    if edges == [] {
      assert "" + "}" == "}";
      ResolveText("}", all);
    } else {
      var e, rest := edges[0], edges[1..];
      var text := FieldText(i, e, |front|);
      var tail := FieldTexts(rest, i + 1, |front + e.filter.params|) + "}";
      FieldBinds(i, e, front, EdgeParams(rest));
      assert front + e.filter.params + EdgeParams(rest) == all;
      FieldsBind(rest, i + 1, front + e.filter.params);
      FieldStart(rest, i + 1, |front + e.filter.params|);
      ResolveAppend(text, tail, all);
      Reassociate(text, FieldTexts(rest, i + 1, |front + e.filter.params|), "}");
    }
  }

  lemma FieldStart<T>(edges: seq<Edge<T>>, i: nat, base: nat)
    ensures !IsDigit((FieldTexts(edges, i, base) + "}")[0])
  {
    if edges != [] {
      assert FieldText(i, edges[0], base)[0] == '\t';
    }
  }

  /** Binding in the match body: each target filter resolves as it does alone. */
  lemma BodyBinds<T>(edges: seq<Edge<T>>)
    requires LegalEdges(edges) && |EdgeParams(edges)| <= MAX_INT
    ensures Resolved(MatchBody(edges)) == Text("{\n\tuid\n") + BodyPieces(edges, 0)
  {
    hide Resolve, FieldTexts, BodyPieces, LegalEdge;
    var params := EdgeParams(edges);
    var open, fields := "{\n\tuid\n", FieldTexts(edges, 0, 0);
    assert '$' !in open;
    FieldsBind(edges, 0, []);
    assert [] + params == params;
    ResolveAppend(open, fields + "}", params);
    ResolveText(open, params);
    Reassociate(open, fields, "}");
  }

  // ---------------------------------------------------------------- lexing the body

  lemma LexSpace<T>(rest: seq<Piece<T>>, c: char)
    requires c in " \t\n\r"
    ensures Lex([Ch(c)] + rest) == Lex(rest)
  {
    assert ([Ch(c)] + rest)[1..] == rest;
  }

  /** A word and what follows it. */
  lemma LexWord<T>(w: string, rest: seq<Piece<T>>)
    requires w != "" && NoBreaks<T>(Text(w))
    requires rest != [] && Breaks(rest[0]) && Lex(rest).Some?
    ensures Lex(Text(w) + rest) == Some([Word(Text(w))] + Lex(rest).value)
  {
    WholeWord<T>(Text(w));
    LexAppend(Text(w), rest);
  }

  /** A space, a word and what follows it. */
  function SpaceWord<T>(c: char, w: string, rest: seq<Piece<T>>): seq<Piece<T>> {
    [Ch(c)] + (Text(w) + rest)
  }

  lemma SpaceWordText<T>(c: char, w: string, s: string, rest: seq<Piece<T>>)
    ensures Text([c] + w + s) + rest == SpaceWord(c, w, Text(s) + rest)
  {
  }

  lemma LexSpaceWord<T>(c: char, w: string, rest: seq<Piece<T>>)
    requires c in " \t\n\r" && w != "" && NoBreaks<T>(Text(w))
    requires rest != [] && Breaks(rest[0]) && Lex(rest).Some?
    ensures Lex(SpaceWord(c, w, rest)) == Some([Word(Text(w))] + Lex(rest).value)
    ensures SpaceWord(c, w, rest) != [] && Breaks(SpaceWord(c, w, rest)[0])
  {
    hide NoBreaks, Lex;
    LexWord(w, rest);
    LexSpace(Text(w) + rest, c);
  }

  lemma AliasWord<T>(i: nat)
    ensures NoBreaks<T>(Text("mg_e" + Itoa(i)))
  {
    var a := "mg_e" + Itoa(i);
    assert Itoa(i) == FormatNat(i);
    assert forall k :: 0 <= k < |a| ==> Text<T>(a)[k] == Ch(a[k]) && (k >= 4 ==> IsDigit(a[k]));
  }

  /** `{ uid }` and a line end. */
  lemma LexClose<T>(rest: seq<Piece<T>>)
    requires Lex(rest).Some?
    ensures Lex(Text(" { uid }\n") + rest) ==
            Some([Brace('{'), Word(Text("uid")), Brace('}')] + Lex(rest).value)
  {
    hide Lex;
    var r3 := [Ch('\n')] + rest;
    LexSpace(rest, '\n');
    LexSpaceWord(' ', "}", r3);
    var r2 := SpaceWord(' ', "}", r3);
    LexSpaceWord(' ', "uid", r2);
    var r1 := SpaceWord(' ', "uid", r2);
    LexSpaceWord(' ', "{", r1);
    assert Text(" { uid }\n") + rest == SpaceWord(' ', "{", r1);
    assert Text<T>("{") == [Ch('{')] && Text<T>("}") == [Ch('}')];
    var x := Lex(rest).value;
    assert [Brace('{')] + ([Word(Text("uid"))] + ([Brace('}')] + x)) == [Brace('{'), Word(Text("uid")), Brace('}')] + x;
  }

  /** The head of a field, in front of its parenthesized filter. */
  lemma LexHead<T>(i: nat, attr: string, rest: seq<Piece<T>>)
    requires attr != "" && NoBreaks<T>(Text(attr))
    requires rest != [] && Breaks(rest[0]) && Lex(rest).Some?
    ensures Lex(Text(FieldHead(i, attr)) + rest) ==
            Some([Word(Text("mg_e" + Itoa(i))), Brace(':'), Word(Text(attr)), Word(Text("@filter"))] + Lex(rest).value)
  {
    hide Lex, Itoa, NoBreaks;
    var alias := "mg_e" + Itoa(i);
    var r3 := SpaceWord(' ', "@filter", rest);
    var r2 := SpaceWord(' ', attr, r3);
    var r1 := SpaceWord(' ', ":", r2);
    HeadText(i, attr, rest);
    assert NoBreaks<T>(Text("@filter")) && NoBreaks<T>(Text(":")) by { PunctuationWords<T>(); }
    LexSpaceWord(' ', "@filter", rest);
    LexSpaceWord(' ', attr, r3);
    LexSpaceWord(' ', ":", r2);
    AliasWord<T>(i);
    LexSpaceWord('\t', alias, r1);
    assert Text<T>(":") == [Ch(':')];
    var x, a, b, c, d := Lex(rest).value, Word(Text(alias)), Brace(':'), Word(Text(attr)), Word(Text("@filter"));
    assert [a] + ([b] + ([c] + ([d] + x))) == [a, b, c, d] + x;
  }

  lemma PunctuationWords<T>()
    ensures NoBreaks<T>(Text("@filter")) && NoBreaks<T>(Text(":"))
  {
  }

  lemma HeadText<T>(i: nat, attr: string, rest: seq<Piece<T>>)
    ensures Text(FieldHead(i, attr)) + rest ==
            SpaceWord('\t', "mg_e" + Itoa(i), SpaceWord(' ', ":", SpaceWord(' ', attr, SpaceWord(' ', "@filter", rest))))
  {
    hide Itoa, SpaceWord;
    var alias := "mg_e" + Itoa(i);
    var s3 := [' '] + "@filter" + "";
    var s2 := [' '] + attr + s3;
    var s1 := [' '] + ":" + s2;
    assert FieldHead(i, attr) == ['\t'] + alias + s1;
    assert Text("") + rest == rest;
    SpaceWordText(' ', "@filter", "", rest);
    SpaceWordText(' ', attr, s3, rest);
    SpaceWordText(' ', ":", s2, rest);
    SpaceWordText('\t', alias, s1, rest);
  }

  function FieldTokens<T>(i: nat, e: Edge<T>): seq<Token<T>>
    requires Lex(Resolved(e.filter)).Some?
  {
    [Word(Text("mg_e" + Itoa(i))), Brace(':'), Word(Text(e.attr)), Word(Text("@filter"))]
    + Group(Lex(Resolved(e.filter)).value)
    + [Brace('{'), Word(Text("uid")), Brace('}')]
  }

  lemma LexField<T>(i: nat, e: Edge<T>, rest: seq<Piece<T>>)
    requires LegalEdge(e) && Lex(rest).Some?
    ensures Lex(FieldPieces(i, e) + rest) == Some(FieldTokens(i, e) + Lex(rest).value)
  {
    hide Lex, NoBreaks, FieldHead, Group;
    var close := Text(" { uid }\n") + rest;
    LexClose(rest);
    LegalFilterLexes(e);
    LexParens(Resolved(e.filter), close);
    var group := Parens(Resolved(e.filter)) + close;
    assert group[0] == Ch('(');
    LexHead(i, e.attr, group);
    assert FieldPieces(i, e) + rest == Text(FieldHead(i, e.attr)) + group;
    var head := [Word(Text("mg_e" + Itoa(i))), Brace(':'), Word(Text(e.attr)), Word(Text("@filter"))];
    var tail := [Brace('{'), Word(Text("uid")), Brace('}')];
    var x := Lex(rest).value;
    assert head + (Group(Lex(Resolved(e.filter)).value) + (tail + x)) == FieldTokens(i, e) + x;
  }

  lemma FilterDoesNotStartWithClose<T>(ts: seq<Token<T>>)
    requires ParseOr(ts).Some?
    ensures ts != [] && ts[0] != RParen
  {
    assert ParseOrs(ts).Some? && ParseAnds(ts).Some? && ParseNot(ts).Some?;
    assert ts != [] && (IsNot(ts[0]) || ParsePrimary(ts).Some?);
  }

  lemma EmptyFilterLexes<T>(f: Frag<T>)
    requires f.expr == ""
    ensures Lex(Resolved(f)) == Some([])
  {
  }

  lemma TargetInContext<T>(e: Edge<T>, close: seq<Token<T>>)
    requires LegalEdge(e) && close != [] && close[0] == RParen
    ensures Lex(Resolved(e.filter)).Some?
    ensures ParseTarget(Lex(Resolved(e.filter)).value + close) == Some((TargetTree(e.filter), close))
  {
    hide Lex, NoBreaks, ParseOr, Resolved, InRange;
    if e.filter.expr == "" {
      EmptyFilterLexes(e.filter);
      assert [] + close == close;
    } else {
      var inner := Lex(Resolved(e.filter)).value;
      OrInContext(inner, close);
      FilterDoesNotStartWithClose(inner);
      assert (inner + close)[0] == inner[0] && [] + close == close;
    }
  }

  /** The parser takes one field off the front. */
  lemma ParseOneField<T>(i: nat, e: Edge<T>, more: seq<Token<T>>)
    requires LegalEdge(e) && ParseFields(more).Some?
    ensures ParseFields(FieldTokens(i, e) + more) ==
            Some([Field(Text("mg_e" + Itoa(i)), Text(e.attr), TargetTree(e.filter))] + ParseFields(more).value)
  {
    hide Lex, NoBreaks, ParseOr, ParseTarget, TargetTree, LegalEdge, Resolved, InRange, Itoa, Text;
    LegalFilterLexes(e);
    var ts := FieldTokens(i, e) + more;
    var inner := Lex(Resolved(e.filter)).value;
    var close := [RParen, Brace('{'), Word(Text("uid")), Brace('}')] + more;
    assert ts[5..] == inner + close;
    TargetInContext(e, close);
    assert [] + close == close && close[..4] == [RParen, Brace('{'), Word(Text("uid")), Brace('}')] && close[4..] == more;
    assert ts[0] == Word(Text("mg_e" + Itoa(i))) && ts[1] == Brace(':') && ts[2] == Word(Text(e.attr))
           && ts[3] == Word(Text("@filter")) && ts[4] == LParen;
  }

  lemma {:induction false} FieldsReadBack<T>(edges: seq<Edge<T>>, i: nat)
    requires LegalEdges(edges)
    ensures Lex(BodyPieces(edges, i)).Some?
    ensures ParseFields(Lex(BodyPieces(edges, i)).value) == Some(Fields(edges, i))
  {
    hide Lex, LegalEdge, FieldTokens, FieldPieces, TreeOf, Itoa;
    if edges == [] {
      assert Text<T>("}") == [Ch('}')];
      WholeWord<T>([Ch('}')]);
      assert Fields(edges, i) == [];
    } else {
      FieldsReadBack(edges[1..], i + 1);
      LexField(i, edges[0], BodyPieces(edges[1..], i + 1));
      ParseOneField(i, edges[0], Lex(BodyPieces(edges[1..], i + 1)).value);
      FieldsSplit(edges, i);
    }
  }

  /**
   The match body compiles the constraints faithfully: it reads back as one field per constraint, in
   order, with that constraint's predicate and exactly its target filter.
   */
  lemma BodyReadsBack<T>(edges: seq<Edge<T>>)
    requires LegalEdges(edges) && |EdgeParams(edges)| <= MAX_INT
    ensures Lex(Resolved(MatchBody(edges))).Some?
    ensures ParseBody(Lex(Resolved(MatchBody(edges))).value) == Some(Fields(edges, 0))
  {
    hide Lex, LegalEdge, BodyPieces, TreeOf, ParseFields, MatchBody, Fields;
    BodyBinds(edges);
    FieldsReadBack(edges, 0);
    LexOpen(BodyPieces(edges, 0));
    var ts := Lex(Resolved(MatchBody(edges))).value;
    assert ts[2..] == Lex(BodyPieces(edges, 0)).value;
  }

  lemma LexOpen<T>(body: seq<Piece<T>>)
    requires Lex(body).Some?
    ensures Lex(Text("{\n\tuid\n") + body) == Some([Brace('{'), Word(Text("uid"))] + Lex(body).value)
  {
    hide Lex;
    var r1 := [Ch('\n')] + body;
    LexSpace(body, '\n');
    var r2 := SpaceWord('\t', "uid", r1);
    LexSpaceWord('\t', "uid", r1);
    var r3 := [Ch('\n')] + r2;
    LexSpace(r2, '\n');
    LexWord("{", r3);
    assert Text("{\n\tuid\n") + body == Text("{") + r3;
    assert Text<T>("{") == [Ch('{')];
    assert [Brace('{')] + ([Word(Text("uid"))] + Lex(body).value) == [Brace('{'), Word(Text("uid"))] + Lex(body).value;
  }

  /** No two fields share an alias, so constraints on the same predicate do not collide. */
  lemma AliasesDistinct<T>(edges: seq<Edge<T>>, j: nat, k: nat)
    requires LegalEdges(edges) && j < k < |edges|
    ensures Fields(edges, 0)[j].alias != Fields(edges, 0)[k].alias
  {
    var a, b := "mg_e" + Itoa(j), "mg_e" + Itoa(k);
    if Text<T>(a) == Text<T>(b) {
      TextInjective<T>(a, b);
      assert a[4..] == Itoa(j) && b[4..] == Itoa(k);
      FormatNatInjective(j, k);
    }
  }

  lemma TextInjective<T>(a: string, b: string)
    requires Text<T>(a) == Text<T>(b)
    ensures a == b
  {
    assert forall i :: 0 <= i < |a| ==> Text<T>(a)[i] == Ch(a[i]) && Text<T>(b)[i] == Ch(b[i]);
  }
}
