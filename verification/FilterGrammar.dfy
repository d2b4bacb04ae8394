/**
 The filter language that the generated text is read back in: a lexer over resolved text and a
 recursive-descent parser in which NOT binds tighter than AND and AND tighter than OR. A parameter
 value is one indivisible piece, so nothing inside it can act as syntax.
 */
module FilterGrammar {
  import opened Basics
  import opened Placeholders

  // ---------------------------------------------------------------- lexer

  datatype Token<T> = LParen | RParen | Comma | Word(w: seq<Piece<T>>) | Quoted(q: seq<Piece<T>>)

  predicate IsSpace<T>(p: Piece<T>) {
    p.Ch? && p.c in " \t\n\r"
  }

  /** Opens a literal: a string, a regular expression or an IRI. */
  predicate Opens<T>(p: Piece<T>) {
    p.Ch? && p.c in "\"/<"
  }

  function Closer(c: char): char {
    if c == '<' then '>' else c
  }

  /** A piece at which every word ends. */
  predicate Breaks<T>(p: Piece<T>) {
    IsSpace(p) || Opens(p) || (p.Ch? && p.c in "(),")
  }

  function WordRun<T>(s: seq<Piece<T>>): (k: nat)
    ensures k <= |s|
    ensures s != [] && !Breaks(s[0]) ==> k > 0
  {
    if s == [] || Breaks(s[0]) then 0 else 1 + WordRun(s[1..])
  }

  /** Position of the first unescaped close in s. */
  function CloseAt<T>(s: seq<Piece<T>>, close: char): (k: Option<nat>)
    ensures k.Some? ==> k.value < |s|
  {
    if s == [] then None
    else if s[0] == Ch(close) then Some(0)
    else
      var step := if s[0] == Ch('\\') then 2 else 1;
      if |s| < step then None
      else match CloseAt(s[step..], close)
        case None => None
        case Some(k) => Some(step + k)
  }

  function Cons<T>(t: Token<T>, rest: Option<seq<Token<T>>>): Option<seq<Token<T>>> {
    match rest
    case None => None
    case Some(ts) => Some([t] + ts)
  }

  /** The tokens of s, or None when a literal is not closed. */
  function Lex<T>(s: seq<Piece<T>>): Option<seq<Token<T>>>
    decreases |s|
  {
    if s == [] then Some([])
    else if IsSpace(s[0]) then Lex(s[1..])
    else if s[0] == Ch('(') then Cons(LParen, Lex(s[1..]))
    else if s[0] == Ch(')') then Cons(RParen, Lex(s[1..]))
    else if s[0] == Ch(',') then Cons(Comma, Lex(s[1..]))
    else if Opens(s[0]) then
      match CloseAt(s[1..], Closer(s[0].c)) {
        case None => None
        case Some(k) => Cons(Quoted(s[..k + 2]), Lex(s[k + 2..]))
      }
    else Cons(Word(s[..WordRun(s)]), Lex(s[WordRun(s)..]))
  }

  function JoinLex<T>(a: Option<seq<Token<T>>>, b: Option<seq<Token<T>>>): Option<seq<Token<T>>> {
    if a.Some? && b.Some? then Some(a.value + b.value) else None
  }

  lemma {:induction false} WordRunAppend<T>(a: seq<Piece<T>>, b: seq<Piece<T>>)
    requires b == [] || Breaks(b[0])
    ensures WordRun(a + b) == WordRun(a)
  {
    if a == [] {
      assert a + b == b;
    } else if !Breaks(a[0]) {
      assert (a + b)[1..] == a[1..] + b;
      WordRunAppend(a[1..], b);
    }
  }

  lemma {:induction false} CloseAtAppend<T>(a: seq<Piece<T>>, b: seq<Piece<T>>, close: char)
    requires CloseAt(a, close).Some?
    ensures CloseAt(a + b, close) == CloseAt(a, close)
    decreases |a|
  {
    if a[0] != Ch(close) {
      var step := if a[0] == Ch('\\') then 2 else 1;
      assert (a + b)[step..] == a[step..] + b;
      CloseAtAppend(a[step..], b, close);
    }
  }

  /** What follows a token does not lengthen it. */
  lemma FirstTokenStays<T>(a: seq<Piece<T>>, b: seq<Piece<T>>, k: nat)
    requires a != [] && TokenEnds(a, k) && 0 < k <= |a|
    requires b == [] || Breaks(b[0])
    ensures TokenEnds(a + b, k) && (a + b)[..k] == a[..k] && (a + b)[k..] == a[k..] + b
  {
    assert (a + b)[1..] == a[1..] + b;
    if Opens(a[0]) {
      CloseAtAppend(a[1..], b, Closer(a[0].c));
    } else {
      WordRunAppend(a, b);
    }
  }

  /** Text that lexes alone lexes the same in front of anything that ends a word. */
  lemma {:induction false} LexAppend<T>(a: seq<Piece<T>>, b: seq<Piece<T>>)
    requires Lex(a).Some?
    requires b == [] || Breaks(b[0])
    ensures Lex(a + b) == JoinLex(Lex(a), Lex(b))
    decreases |a|
  {
    if a == [] {
      assert a + b == b;
      if Lex(b).Some? { assert [] + Lex(b).value == Lex(b).value; }
    } else {
      var k :=
        if IsSpace(a[0]) || a[0] == Ch('(') || a[0] == Ch(')') || a[0] == Ch(',') then 1
        else if Opens(a[0]) then CloseAt(a[1..], Closer(a[0].c)).value + 2
        else WordRun(a);
      assert TokenEnds(a, k) && 0 < k <= |a|;
      hide Lex, TokenEnds;
      FirstTokenStays(a, b, k);
      LexAppend(a[k..], b);
      LexStep(a, k);
      LexStep(a + b, k);
      ConsJoin(if IsSpace(a[0]) then None else Some(FirstToken(a, k)), Lex(a[k..]), Lex(b));
    }
  }

  /** The first k pieces of s are its first token, or one space. */
  predicate TokenEnds<T>(s: seq<Piece<T>>, k: nat)
    requires s != []
  {
    k == if IsSpace(s[0]) || s[0] == Ch('(') || s[0] == Ch(')') || s[0] == Ch(',') then 1
         else if Opens(s[0]) then
           (match CloseAt(s[1..], Closer(s[0].c)) case None => 0 case Some(c) => c + 2)
         else WordRun(s)
  }

  function FirstToken<T>(s: seq<Piece<T>>, k: nat): Token<T>
    requires 0 < k <= |s|
  {
    if s[0] == Ch('(') then LParen else if s[0] == Ch(')') then RParen else if s[0] == Ch(',') then Comma
    else if Opens(s[0]) then Quoted(s[..k]) else Word(s[..k])
  }

  lemma LexStep<T>(s: seq<Piece<T>>, k: nat)
    requires s != [] && TokenEnds(s, k) && 0 < k <= |s|
    ensures Lex(s) == if IsSpace(s[0]) then Lex(s[k..]) else Cons(FirstToken(s, k), Lex(s[k..]))
  {
  }

  lemma ConsJoin<T>(t: Option<Token<T>>, a: Option<seq<Token<T>>>, b: Option<seq<Token<T>>>)
    ensures t.Some? ==> Cons(t.value, JoinLex(a, b)) == JoinLex(Cons(t.value, a), b)
  {
    if t.Some? && a.Some? && b.Some? {
      assert [t.value] + (a.value + b.value) == [t.value] + a.value + b.value;
    }
  }

  // ---------------------------------------------------------------- parser

  datatype Tree<T> =
    | Call(fn: seq<Piece<T>>, args: seq<Token<T>>)
    | Not(t: Tree<T>)
    | And(ts: seq<Tree<T>>)
    | Or(ts: seq<Tree<T>>)

  /** Keywords are recognised in any case. */
  predicate IsKeyword<T>(t: Token<T>, k: string) {
    t.Word? && |t.w| == |k| && forall i :: 0 <= i < |k| ==> t.w[i].Ch? && Lower(t.w[i].c) == k[i]
  }

  predicate IsAnd<T>(t: Token<T>) { IsKeyword(t, "and") }
  predicate IsOr<T>(t: Token<T>) { IsKeyword(t, "or") }
  predicate IsNot<T>(t: Token<T>) { IsKeyword(t, "not") }

  function MkAnd<T>(ts: seq<Tree<T>>): Tree<T> { if |ts| == 1 then ts[0] else And(ts) }
  function MkOr<T>(ts: seq<Tree<T>>): Tree<T> { if |ts| == 1 then ts[0] else Or(ts) }

  /** The arguments of a call up to the parenthesis that closes it, nested pairs included. */
  function Args<T>(ts: seq<Token<T>>, depth: nat): (r: Option<(seq<Token<T>>, seq<Token<T>>)>)
    ensures r.Some? ==> |r.value.1| < |ts|
  {
    if ts == [] then None
    else if ts[0].RParen? && depth == 0 then Some(([], ts[1..]))
    else
      var d := if ts[0].RParen? then depth - 1 else if ts[0].LParen? then depth + 1 else depth;
      match Args(ts[1..], d)
      case None => None
      case Some((args, rest)) => Some(([ts[0]] + args, rest))
  }

  function ParsePrimary<T>(ts: seq<Token<T>>): (r: Option<(Tree<T>, seq<Token<T>>)>)
    ensures r.Some? ==> |r.value.1| < |ts|
    decreases |ts|, 0
  {
    if ts == [] then None
    else if ts[0].LParen? then
      match ParseOr(ts[1..]) {
        case None => None
        case Some((t, rest)) => if rest != [] && rest[0].RParen? then Some((t, rest[1..])) else None
      }
    else if ts[0].Word? && !IsAnd(ts[0]) && !IsOr(ts[0]) && |ts| > 1 && ts[1].LParen? then
      match Args(ts[2..], 0) {
        case None => None
        case Some((args, rest)) => Some((Call(ts[0].w, args), rest))
      }
    else None
  }

  function ParseNot<T>(ts: seq<Token<T>>): (r: Option<(Tree<T>, seq<Token<T>>)>)
    ensures r.Some? ==> |r.value.1| < |ts|
    decreases |ts|, 1
  {
    if ts != [] && IsNot(ts[0]) then
      match ParseNot(ts[1..])
      case None => None
      case Some((t, rest)) => Some((Not(t), rest))
    else ParsePrimary(ts)
  }

  function ParseAnds<T>(ts: seq<Token<T>>): (r: Option<(seq<Tree<T>>, seq<Token<T>>)>)
    ensures r.Some? ==> |r.value.1| < |ts|
    decreases |ts|, 2
  {
    match ParseNot(ts)
    case None => None
    case Some((t, rest)) =>
      if rest == [] || !IsAnd(rest[0]) then Some(([t], rest)) else
        match ParseAnds(rest[1..])
        case None => None
        case Some((more, rest')) => Some(([t] + more, rest'))
  }

  function ParseOrs<T>(ts: seq<Token<T>>): (r: Option<(seq<Tree<T>>, seq<Token<T>>)>)
    ensures r.Some? ==> |r.value.1| < |ts|
    decreases |ts|, 3
  {
    match ParseAnds(ts)
    case None => None
    case Some((conj, rest)) =>
      if rest == [] || !IsOr(rest[0]) then Some(([MkAnd(conj)], rest)) else
        match ParseOrs(rest[1..])
        case None => None
        case Some((more, rest')) => Some(([MkAnd(conj)] + more, rest'))
  }

  function ParseOr<T>(ts: seq<Token<T>>): (r: Option<(Tree<T>, seq<Token<T>>)>)
    ensures r.Some? ==> |r.value.1| < |ts|
    decreases |ts|, 4
  {
    match ParseOrs(ts)
    case None => None
    case Some((disj, rest)) => Some((MkOr(disj), rest))
  }

  /** The tokens are exactly one filter. */
  ghost predicate Parses<T>(ts: seq<Token<T>>, t: Tree<T>) {
    ParseOr(ts) == Some((t, []))
  }

  // ---------------------------------------------------------------- parsing in context

  /** Nothing that could continue a filter. */
  predicate Stops<T>(x: seq<Token<T>>) {
    x == [] || x[0].RParen?
  }

  function More<A, T>(r: Option<(A, seq<Token<T>>)>, x: seq<Token<T>>): Option<(A, seq<Token<T>>)> {
    match r
    case None => None
    case Some((a, rest)) => Some((a, rest + x))
  }

  lemma {:induction false} ArgsInContext<T>(ts: seq<Token<T>>, depth: nat, x: seq<Token<T>>)
    requires Args(ts, depth).Some?
    ensures Args(ts + x, depth) == More(Args(ts, depth), x)
  {
    assert (ts + x)[1..] == ts[1..] + x;
    if !(ts[0].RParen? && depth == 0) {
      var d := if ts[0].RParen? then depth - 1 else if ts[0].LParen? then depth + 1 else depth;
      ArgsInContext(ts[1..], d, x);
    }
  }

  lemma {:induction false} PrimaryInContext<T>(ts: seq<Token<T>>, x: seq<Token<T>>)
    requires ParsePrimary(ts).Some? && Stops(x)
    ensures ParsePrimary(ts + x) == More(ParsePrimary(ts), x)
    decreases |ts|, 0
  {
    assert (ts + x)[1..] == ts[1..] + x;
    if ts[0].LParen? {
      OrInContext(ts[1..], x);
      var rest := ParseOr(ts[1..]).value.1;
      assert (rest + x)[1..] == rest[1..] + x;
    } else {
      assert (ts + x)[2..] == ts[2..] + x;
      ArgsInContext(ts[2..], 0, x);
    }
  }

  lemma {:induction false} NotInContext<T>(ts: seq<Token<T>>, x: seq<Token<T>>)
    requires ParseNot(ts).Some? && Stops(x)
    ensures ParseNot(ts + x) == More(ParseNot(ts), x)
    decreases |ts|, 1
  {
    if IsNot(ts[0]) {
      assert (ts + x)[1..] == ts[1..] + x;
      NotInContext(ts[1..], x);
    } else {
      PrimaryInContext(ts, x);
    }
  }

  lemma {:induction false} AndsInContext<T>(ts: seq<Token<T>>, x: seq<Token<T>>)
    requires ParseAnds(ts).Some? && Stops(x)
    ensures ParseAnds(ts + x) == More(ParseAnds(ts), x)
    decreases |ts|, 2
  {
    NotInContext(ts, x);
    var rest := ParseNot(ts).value.1;
    if rest != [] && IsAnd(rest[0]) {
      assert (rest + x)[1..] == rest[1..] + x;
      AndsInContext(rest[1..], x);
    }
  }

  lemma {:induction false} OrsInContext<T>(ts: seq<Token<T>>, x: seq<Token<T>>)
    requires ParseOrs(ts).Some? && Stops(x)
    ensures ParseOrs(ts + x) == More(ParseOrs(ts), x)
    decreases |ts|, 3
  {
    AndsInContext(ts, x);
    var rest := ParseAnds(ts).value.1;
    if rest != [] && IsOr(rest[0]) {
      assert (rest + x)[1..] == rest[1..] + x;
      OrsInContext(rest[1..], x);
    }
  }

  lemma OrInContext<T>(ts: seq<Token<T>>, x: seq<Token<T>>)
    requires ParseOr(ts).Some? && Stops(x)
    ensures ParseOr(ts + x) == More(ParseOr(ts), x)
    decreases |ts|, 4
  {
    OrsInContext(ts, x);
  }

  function Group<T>(ts: seq<Token<T>>): seq<Token<T>> {
    [LParen] + ts + [RParen]
  }

  /** A filter in parentheses is one operand, whatever stands after it. */
  lemma GroupIsOperand<T>(ts: seq<Token<T>>, t: Tree<T>, rest: seq<Token<T>>)
    requires Parses(ts, t)
    ensures ParseNot(Group(ts) + rest) == Some((t, rest))
  {
    OrInContext(ts, [RParen] + rest);
    assert (Group(ts) + rest)[1..] == ts + ([RParen] + rest);
    assert ([] + ([RParen] + rest))[1..] == rest;
    assert ([] + ([RParen] + rest))[0] == RParen;
  }

  // ---------------------------------------------------------------- evaluation

  /** Truth of a filter at a node, given the truth of its calls there. */
  ghost predicate Eval<T>(t: Tree<T>, holds: (seq<Piece<T>>, seq<Token<T>>) -> bool) {
    match t
    case Call(fn, args) => holds(fn, args)
    case Not(u) => !Eval(u, holds)
    case And(ts) => forall i :: 0 <= i < |ts| ==> Eval(ts[i], holds)
    case Or(ts) => exists i :: 0 <= i < |ts| && Eval(ts[i], holds)
  }
}
