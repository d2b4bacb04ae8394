/**
 What joining operands with " AND " or " OR " means to the parser: exactly the conjunction or the
 disjunction of the operands, because each operand is self-delimiting.
 */
module FilterJoin {
  import opened Basics
  import opened Placeholders
  import opened FilterGrammar

  datatype Connective = Conj | Disj

  function Sep(op: Connective): (s: string)
    ensures '$' !in s
  {
    if op.Conj? then " AND " else " OR "
  }

  /** strings.Join */
  function JoinStrings(parts: seq<string>, sep: string): string {
    if parts == [] then "" else if |parts| == 1 then parts[0] else parts[0] + sep + JoinStrings(parts[1..], sep)
  }

  function JoinPieces<T>(rs: seq<seq<Piece<T>>>, op: Connective): seq<Piece<T>> {
    if rs == [] then [] else if |rs| == 1 then rs[0] else rs[0] + Text(Sep(op)) + JoinPieces(rs[1..], op)
  }

  function Keyword<T>(op: Connective): Token<T> {
    Word(Text(if op.Conj? then "AND" else "OR"))
  }

  function MkTree<T>(op: Connective, ts: seq<Tree<T>>): Tree<T> {
    if op.Conj? then MkAnd(ts) else MkOr(ts)
  }

  /** The text is one complete filter, namely t. */
  ghost predicate Reads<T>(r: seq<Piece<T>>, t: Tree<T>) {
    Lex(r).Some? && Parses(Lex(r).value, t)
  }

  predicate AllLex<T>(rs: seq<seq<Piece<T>>>) {
    forall i :: 0 <= i < |rs| ==> Lex(rs[i]).Some?
  }

  ghost predicate AllOperands<T(!new)>(rs: seq<seq<Piece<T>>>, ts: seq<Tree<T>>) {
    |rs| == |ts| && AllLex(rs) && forall i :: 0 <= i < |rs| ==> Operand(rs[i], ts[i])
  }

  ghost predicate IsOperand<T(!new)>(ts: seq<Token<T>>, t: Tree<T>) {
    forall x :: ParseNot(ts + x) == Some((t, x))
  }

  /** The text is one operand, namely t, whatever text follows it. */
  ghost predicate Operand<T(!new)>(r: seq<Piece<T>>, t: Tree<T>) {
    Lex(r).Some? && IsOperand(Lex(r).value, t)
  }

  function Parens<T>(r: seq<Piece<T>>): seq<Piece<T>> {
    Text("(") + r + Text(")")
  }

  lemma LexParens<T>(r: seq<Piece<T>>, rest: seq<Piece<T>>)
    requires Lex(r).Some? && Lex(rest).Some?
    ensures Lex(Parens(r) + rest) == Some(Group(Lex(r).value) + Lex(rest).value)
  {
    hide Lex;
    var close := [Ch(')')] + rest;
    assert Parens(r) + rest == [Ch('(')] + (r + close);
    LexOne('(', LParen, r + close);
    LexOne(')', RParen, rest);
    LexAppend(r, close) by { assert Breaks(close[0]); }
    GroupTokens(Lex(r).value, Lex(rest).value);
  }

  lemma GroupTokens<T>(ts: seq<Token<T>>, rest: seq<Token<T>>)
    ensures [LParen] + (ts + ([RParen] + rest)) == Group(ts) + rest
  {
  }

  /** Punctuation is a token by itself. */
  lemma LexOne<T>(c: char, t: Token<T>, rest: seq<Piece<T>>)
    requires (c == '(' && t == LParen) || (c == ')' && t == RParen) || (c == ',' && t == Comma)
    ensures Lex([Ch(c)] + rest) == Cons(t, Lex(rest))
    ensures Breaks(([Ch(c)] + rest)[0])
  {
    assert ([Ch(c)] + rest)[1..] == rest;
  }

  /** A complete filter in parentheses is an operand, and still a complete filter. */
  lemma ParensMakeOperand<T(!new)>(r: seq<Piece<T>>, t: Tree<T>)
    requires Reads(r, t)
    ensures Operand(Parens(r), t)
    ensures Reads(Parens(r), t)
  {
    LexParens(r, []);
    var ts := Lex(r).value;
    assert Parens(r) + [] == Parens(r) && Group(ts) + [] == Group(ts);
    forall x ensures ParseNot(Group(ts) + x) == Some((t, x)) {
      GroupIsOperand(ts, t, x);
    }
    OneOperandReads(Group(ts), t);
  }

  lemma OneOperandReads<T(!new)>(ts: seq<Token<T>>, t: Tree<T>)
    requires IsOperand(ts, t)
    ensures Parses(ts, t)
  {
    assert ts + [] == ts;
    assert ParseNot(ts) == Some((t, []));
    assert ParseAnds(ts) == Some(([t], []));
    assert ParseOrs(ts) == Some(([t], []));
  }

  /** " AND" lexes to one keyword. */
  lemma LexSep<T>(op: Connective, r: seq<Piece<T>>)
    requires Lex(r).Some?
    ensures Lex(Text(Sep(op)) + r) == Some([Keyword(op)] + Lex(r).value)
  {
    hide Lex;
    var w: seq<Piece<T>> := Text(if op.Conj? then "AND" else "OR");
    var tail := [Ch(' ')] + r;
    assert Text(Sep(op)) + r == [Ch(' ')] + (w + tail);
    LexBlank(w + tail);
    LexBlank(r);
    WholeWord(w);
    LexAppend(w, tail) by { assert Breaks(tail[0]); }
  }

  lemma LexBlank<T>(rest: seq<Piece<T>>)
    ensures Lex([Ch(' ')] + rest) == Lex(rest)
  {
    assert ([Ch(' ')] + rest)[1..] == rest;
  }

  predicate NoBreaks<T>(w: seq<Piece<T>>) {
    forall i :: 0 <= i < |w| ==> !Breaks(w[i])
  }

  lemma {:induction false} WordRunAll<T>(w: seq<Piece<T>>)
    requires NoBreaks(w)
    ensures WordRun(w) == |w|
  {
    if w != [] { WordRunAll(w[1..]); }
  }

  lemma WholeWord<T>(w: seq<Piece<T>>)
    requires w != [] && NoBreaks(w)
    ensures Lex(w) == Some([Word(w)])
  {
    WordRunAll(w);
    assert !Breaks(w[0]);
    assert w[..|w|] == w && w[|w|..] == [];
    LexStep(w, |w|);
    assert Lex(w[|w|..]) == Some([]);
    assert [Word(w)] + [] == [Word(w)];
  }

  function JoinTokens<T>(rs: seq<seq<Piece<T>>>, op: Connective): seq<Token<T>>
    requires AllLex(rs)
  {
    if rs == [] then [] else if |rs| == 1 then Lex(rs[0]).value
    else Lex(rs[0]).value + ([Keyword(op)] + JoinTokens(rs[1..], op))
  }

  lemma LexJoinStep<T>(a: seq<Piece<T>>, op: Connective, tail: seq<Piece<T>>, ts: seq<Token<T>>)
    requires Lex(a).Some? && Lex(tail) == Some(ts)
    ensures Lex(a + Text(Sep(op)) + tail) == Some(Lex(a).value + ([Keyword(op)] + ts))
  {
    hide Lex;
    var rest := Text(Sep(op)) + tail;
    LexSep(op, tail);
    LexAppend(a, rest) by { assert Breaks(rest[0]); }
    assert a + Text(Sep(op)) + tail == a + rest;
  }

  lemma {:induction false} LexJoin<T>(rs: seq<seq<Piece<T>>>, op: Connective)
    requires AllLex(rs)
    ensures Lex(JoinPieces(rs, op)) == Some(JoinTokens(rs, op))
  {
    if |rs| > 1 {
      hide Lex, Sep;
      LexJoin(rs[1..], op);
      LexJoinStep(rs[0], op, JoinPieces(rs[1..], op), JoinTokens(rs[1..], op));
    }
  }

  lemma {:induction false} ParseConj<T(!new)>(rs: seq<seq<Piece<T>>>, ts: seq<Tree<T>>)
    requires AllOperands(rs, ts) && rs != []
    ensures ParseAnds(JoinTokens(rs, Conj)) == Some((ts, []))
  {
    hide ParseNot, Lex;
    var a := Lex(rs[0]).value;
    if |rs| == 1 {
      assert a + [] == a && ts == [ts[0]];
      assert ParseNot(a + []) == Some((ts[0], []));
    } else {
      var x := [Keyword(Conj)] + JoinTokens(rs[1..], Conj);
      assert ParseNot(a + x) == Some((ts[0], x));
      assert x[1..] == JoinTokens(rs[1..], Conj);
      ParseConj(rs[1..], ts[1..]);
      assert ts == [ts[0]] + ts[1..];
    }
  }

  lemma {:induction false} ParseDisj<T(!new)>(rs: seq<seq<Piece<T>>>, ts: seq<Tree<T>>)
    requires AllOperands(rs, ts) && rs != []
    ensures ParseOrs(JoinTokens(rs, Disj)) == Some((ts, []))
  {
    hide ParseNot, Lex;
    var a := Lex(rs[0]).value;
    if |rs| == 1 {
      assert a + [] == a && ts == [ts[0]];
      assert ParseNot(a + []) == Some((ts[0], []));
    } else {
      var x := [Keyword(Disj)] + JoinTokens(rs[1..], Disj);
      assert ParseNot(a + x) == Some((ts[0], x));
      assert ParseAnds(a + x) == Some(([ts[0]], x));
      assert x[1..] == JoinTokens(rs[1..], Disj);
      ParseDisj(rs[1..], ts[1..]);
      assert ts == [ts[0]] + ts[1..];
    }
  }

  /** Joined operands read back as exactly their conjunction or disjunction. */
  lemma JoinReads<T(!new)>(rs: seq<seq<Piece<T>>>, ts: seq<Tree<T>>, op: Connective)
    requires AllOperands(rs, ts) && rs != []
    ensures Reads(JoinPieces(rs, op), MkTree(op, ts))
  {
    LexJoin(rs, op);
    if op.Conj? {
      ParseConj(rs, ts);
      assert ParseOrs(JoinTokens(rs, Conj)) == Some(([MkAnd(ts)], []));
    } else {
      ParseDisj(rs, ts);
    }
  }

  lemma TakesOperand<T(!new)>(a: seq<Token<T>>, ta: Tree<T>, op: Connective, more: seq<Token<T>>)
    requires IsOperand(a, ta)
    ensures ParseNot(a + ([Keyword(op)] + more)) == Some((ta, [Keyword(op)] + more))
    ensures ([Keyword<T>(op)] + more)[1..] == more && IsAnd(Keyword<T>(Conj)) && IsOr(Keyword<T>(Disj))
    ensures !IsOr(Keyword<T>(Conj)) && !IsAnd(Keyword<T>(Disj))
  {
  }

  /**
   Without parentheses AND takes its operands before OR does, on either side: this is why every fragment
   that is joined stands in parentheses.
   */
  lemma AndBindsTighter<T(!new)>(a: seq<Token<T>>, b: seq<Token<T>>, c: seq<Token<T>>, ta: Tree<T>, tb: Tree<T>, tc: Tree<T>)
    requires IsOperand(a, ta) && IsOperand(b, tb) && IsOperand(c, tc)
    ensures Parses(a + ([Keyword(Disj)] + (b + ([Keyword(Conj)] + c))), Or([ta, And([tb, tc])]))
    ensures Parses(a + ([Keyword(Conj)] + (b + ([Keyword(Disj)] + c))), Or([And([ta, tb]), tc]))
  {
    hide ParseNot;
    assert c + [] == c && ParseNot(c + []) == Some((tc, []));
    assert ParseAnds(c) == Some(([tc], [])) && ParseOrs(c) == Some(([tc], []));
    var bc := b + ([Keyword(Conj)] + c);
    TakesOperand(b, tb, Conj, c);
    assert ParseAnds(bc) == Some(([tb] + [tc], []));
    assert [tb] + [tc] == [tb, tc];
    assert ParseOrs(bc) == Some(([And([tb, tc])], []));
    TakesOperand(a, ta, Disj, bc);
    assert ParseAnds(a + ([Keyword(Disj)] + bc)) == Some(([ta], [Keyword(Disj)] + bc));
    assert ParseOrs(a + ([Keyword(Disj)] + bc)) == Some(([ta] + [And([tb, tc])], []));
    assert [ta] + [And([tb, tc])] == [ta, And([tb, tc])];
    var b_c := b + ([Keyword(Disj)] + c);
    TakesOperand(b, tb, Disj, c);
    assert ParseAnds(b_c) == Some(([tb], [Keyword(Disj)] + c));
    TakesOperand(a, ta, Conj, b_c);
    assert [ta] + [tb] == [ta, tb];
    assert ParseAnds(a + ([Keyword(Conj)] + b_c)) == Some(([ta, tb], [Keyword(Disj)] + c));
    assert ParseOrs(a + ([Keyword(Conj)] + b_c)) == Some(([And([ta, tb])] + [tc], []));
    assert [And([ta, tb])] + [tc] == [And([ta, tb]), tc];
  }

  predicate NoParens<T>(args: seq<Token<T>>) {
    forall i :: 0 <= i < |args| ==> !args[i].LParen? && !args[i].RParen?
  }

  lemma {:induction false} FlatArgs<T>(args: seq<Token<T>>, rest: seq<Token<T>>)
    requires NoParens(args)
    ensures Args(args + ([RParen] + rest), 0) == Some((args, rest))
  {
    var ts := args + ([RParen] + rest);
    if args == [] {
      assert ts == [RParen] + rest && ts[1..] == rest;
    } else {
      assert ts[0] == args[0] && ts[1..] == args[1..] + ([RParen] + rest);
      FlatArgs(args[1..], rest);
      assert [args[0]] + args[1..] == args;
    }
  }

  /** A call of a named function on arguments without parentheses is an operand. */
  lemma CallIsOperand<T(!new)>(fn: seq<Piece<T>>, args: seq<Token<T>>)
    requires NoParens(args)
    requires !IsAnd<T>(Word(fn)) && !IsOr<T>(Word(fn)) && !IsNot<T>(Word(fn))
    ensures IsOperand([Word(fn), LParen] + args + [RParen], Call(fn, args))
  {
    var ts := [Word(fn), LParen] + args + [RParen];
    forall x ensures ParseNot(ts + x) == Some((Call(fn, args), x)) {
      assert (ts + x)[2..] == args + ([RParen] + x);
      FlatArgs(args, x);
    }
  }
}
