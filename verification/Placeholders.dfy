/**
 Ordinal placeholders in filter text: `$1`, `$2`, ... bound to a positional parameter list.
 `ShiftPlaceholders` renumbers them so that a fragment written on its own stays bound to its own
 parameters after its text and its parameters are appended to others.
 */
module Placeholders {
  import opened Basics
  import opened Strconv

  /** One unit of resolved text: a literal character, or a parameter value put in place of a placeholder. */
  datatype Piece<T> = Ch(c: char) | Val(v: T)

  function Text<T>(s: string): (r: seq<Piece<T>>)
    ensures |r| == |s|
  {
    seq(|s|, i requires 0 <= i < |s| => Ch(s[i]))
  }

  /** Every character of s from lo up to hi is a digit. */
  predicate DigitsIn(s: string, lo: nat, hi: nat)
    requires hi <= |s|
  {
    forall i :: lo <= i < hi ==> IsDigit(s[i])
  }

  /** Where the run of digits that starts at i ends. */
  function DigitsEnd(s: string, i: nat): (j: nat)
    requires i <= |s|
    ensures i <= j <= |s|
    decreases |s| - i
  {
    if i == |s| || !IsDigit(s[i]) then i else DigitsEnd(s, i + 1)
  }

  lemma {:induction false} DigitsEndIs(s: string, i: nat, j: nat)
    requires i <= j <= |s| && DigitsIn(s, i, j)
    requires j < |s| ==> !IsDigit(s[j])
    ensures DigitsEnd(s, i) == j
    decreases j - i
  {
    if i < j { DigitsEndIs(s, i + 1, j); }
  }

  lemma {:induction false} DigitsEndStops(s: string, i: nat)
    requires i <= |s|
    ensures DigitsIn(s, i, DigitsEnd(s, i))
    ensures DigitsEnd(s, i) < |s| ==> !IsDigit(s[DigitsEnd(s, i)])
    decreases |s| - i
  {
    if i < |s| && IsDigit(s[i]) { DigitsEndStops(s, i + 1); }
  }

  /** Text of one lexical unit: a `$` with the digits after it, or one other character. */
  predicate IsUnit(u: string) {
    u != "" && DigitsIn(u, 1, |u|) && (|u| > 1 ==> u[0] == '$')
  }

  /** The first unit of e. */
  function Head(e: string): (u: string)
    requires e != ""
    ensures IsUnit(u) && u[0] == e[0] && |u| <= |e|
  {
    if e[0] != '$' then e[..1] else
      DigitsEndStops(e, 1);
      e[..DigitsEnd(e, 1)]
  }

  function Tail(e: string): (t: string)
    requires e != ""
    ensures |t| < |e|
  {
    e[|Head(e)|..]
  }

  /** The unit is a placeholder. A `$` without digits is not. */
  predicate IsRef(u: string) {
    IsUnit(u) && |u| > 1
  }

  function Ordinal(u: string): (n: nat)
    requires IsUnit(u)
    ensures n <= MAX_INT
  {
    Atoi(u[1..])
  }

  /** A unit, renumbered. */
  function ShiftUnit(u: string, delta: nat): (r: string)
    requires IsUnit(u)
    ensures r != "" && r[0] == u[0]
  {
    if IsRef(u) then "$" + Itoa(AddInt(Ordinal(u), delta)) else u
  }

  /** The text with every ordinal raised by delta. */
  function Shift(e: string, delta: nat): (r: string)
    ensures if e == "" then r == "" else r != "" && r[0] == e[0]
    decreases |e|
  {
    if e == "" then "" else ShiftUnit(Head(e), delta) + Shift(Tail(e), delta)
  }

  /** What shiftPlaceholders returns: a zero delta leaves even leading zeros alone. */
  function Shifted(e: string, delta: nat): string
  {
    if delta == 0 then e else Shift(e, delta)
  }

  function ResolveUnit<T>(u: string, params: seq<T>): (r: seq<Piece<T>>)
    requires IsUnit(u)
    ensures r != []
  {
    if IsRef(u) && 1 <= Ordinal(u) <= |params| then [Val(params[Ordinal(u) - 1])] else Text(u)
  }

  /** Substitution of parameters for placeholders; an ordinal with no parameter stays as it is. */
  function Resolve<T>(e: string, params: seq<T>): seq<Piece<T>>
    decreases |e|
  {
    if e == "" then [] else ResolveUnit(Head(e), params) + Resolve(Tail(e), params)
  }

  /** Every placeholder of e has a parameter among the first m. */
  predicate InRange(e: string, m: nat)
    decreases |e|
  {
    e == "" || ((IsRef(Head(e)) ==> 1 <= Ordinal(Head(e)) <= m) && InRange(Tail(e), m))
  }

  // ---------------------------------------------------------------- the scanning loop

  lemma {:induction false} ShiftWithoutDollar(e: string, delta: nat)
    requires '$' !in e
    ensures Shift(e, delta) == e
    decreases |e|
  {
    if e != "" {
      assert e[0] != '$';
      ShiftWithoutDollar(Tail(e), delta);
    }
  }

  /** A unit followed by text that cannot lengthen it is the head of that text. */
  lemma HeadIs(u: string, rest: string)
    requires IsUnit(u)
    requires u[0] == '$' && rest != "" ==> !IsDigit(rest[0])
    ensures Head(u + rest) == u && Tail(u + rest) == rest
  {
    var e := u + rest;
    if u[0] == '$' { DigitsEndIs(e, 1, |u|); }
    assert e[..|u|] == u;
  }

  lemma HeadStops(e: string)
    requires e != ""
    ensures e[0] == '$' && Tail(e) != "" ==> !IsDigit(Tail(e)[0])
    ensures Head(e) + Tail(e) == e
  {
    DigitsEndStops(e, 1);
  }

  /** b holds the rewriting of the first i bytes of e, which end at a unit boundary. */
  ghost predicate Scanned(e: string, i: nat, delta: nat, b: string)
    requires i <= |e|
  {
    b + Shift(e[i..], delta) == Shift(e, delta)
  }

  /** The scan's i and j enclose the first unit of what is left. */
  lemma UnitAt(e: string, i: nat, j: nat)
    requires i < j <= |e|
    requires if e[i] == '$' then DigitsIn(e, i + 1, j) && (j < |e| ==> !IsDigit(e[j])) else j == i + 1
    ensures IsUnit(e[i..j]) && Head(e[i..]) == e[i..j] && Tail(e[i..]) == e[j..]
  {
    var u := e[i..j];
    assert u + e[j..] == e[i..];
    HeadIs(u, e[j..]);
  }

  lemma ShiftStep(e: string, delta: nat)
    requires e != ""
    ensures Shift(e, delta) == ShiftUnit(Head(e), delta) + Shift(Tail(e), delta)
  {
  }

  lemma UnitWritten(u: string, delta: nat)
    requires IsUnit(u)
    ensures ShiftUnit(u, delta) == if |u| > 1 then "$" + Itoa(AddInt(Atoi(u[1..]), delta)) else u
  {
  }

  /** One round of the scan: the unit at i ends at j, and w is written for it. */
  lemma ScanStep(e: string, i: nat, j: nat, delta: nat, b: string, w: string)
    requires i < j <= |e| && Scanned(e, i, delta, b)
    requires if e[i] == '$' then DigitsIn(e, i + 1, j) && (j < |e| ==> !IsDigit(e[j])) else j == i + 1
    requires w == if j > i + 1 then "$" + Itoa(AddInt(Atoi(e[i + 1..j]), delta)) else [e[i]]
    ensures Scanned(e, j, delta, b + w)
  {
    hide Shift, ShiftUnit, Head, Tail, Itoa, AddInt, Atoi;
    UnitAt(e, i, j);
    ShiftStep(e[i..], delta);
    UnitWritten(e[i..j], delta);
    assert e[i..j][1..] == e[i + 1..j];
    Reassociate(b, w, Shift(e[j..], delta));
  }

  /** The inner loop of the scan. */
  method SkipDigits(expr: string, start: nat) returns (j: nat)
    requires start <= |expr|
    ensures start <= j <= |expr| && DigitsIn(expr, start, j)
    ensures j < |expr| ==> !IsDigit(expr[j])
  {
    j := start;
    while j < |expr| && IsDigit(expr[j])
      invariant start <= j <= |expr|
      invariant DigitsIn(expr, start, j)
    {
      j := j + 1;
    }
  }

  lemma ScanEnds(e: string, delta: nat, b: string)
    ensures Scanned(e, 0, delta, "")
    ensures Scanned(e, |e|, delta, b) ==> b == Shift(e, delta)
  {
    assert e[0..] == e && e[|e|..] == "";
  }

  method ShiftPlaceholders(expr: string, delta: nat) returns (r: string)
    ensures r == Shifted(expr, delta)
  {
    if delta == 0 || '$' !in expr {
      if '$' !in expr { ShiftWithoutDollar(expr, delta); }
      return expr;
    }
    var b := "";
    var i := 0;
    ScanEnds(expr, delta, b);
    while i < |expr|
      invariant 0 <= i <= |expr|
      invariant Scanned(expr, i, delta, b)
    {
      if expr[i] != '$' {
        ScanStep(expr, i, i + 1, delta, b, [expr[i]]);
        b := b + [expr[i]];
        i := i + 1;
        continue;
      }
      var j := SkipDigits(expr, i + 1);
      if j == i + 1 {
        ScanStep(expr, i, j, delta, b, "$");
        b := b + "$";
        i := i + 1;
        continue;
      }
      var n := Atoi(expr[i + 1..j]);
      var w := "$" + Itoa(AddInt(n, delta));
      ScanStep(expr, i, j, delta, b, w);
      b := b + w;
      i := j;
    }
    ScanEnds(expr, delta, b);
    r := b;
  }

  // ---------------------------------------------------------------- resolving concatenated text

  /** Appending b cannot lengthen the last placeholder of a. */
  predicate Separate(a: string, b: string) {
    b == "" || !IsDigit(b[0]) || '$' !in a
  }

  lemma HeadAppend(a: string, b: string)
    requires a != "" && Separate(a, b)
    ensures Head(a + b) == Head(a) && Tail(a + b) == Tail(a) + b
    ensures Separate(Tail(a), b)
  {
    var u, t := Head(a), Tail(a);
    HeadStops(a);
    assert u + (t + b) == a + b;
    HeadIs(u, t + b);
  }

  lemma {:induction false} ResolveAppend<T>(a: string, b: string, params: seq<T>)
    requires Separate(a, b)
    ensures Resolve(a + b, params) == Resolve(a, params) + Resolve(b, params)
    decreases |a|
  {
    hide Head, Tail, ResolveUnit, Separate;
    if a == "" {
      assert a + b == b;
    } else {
      HeadAppend(a, b);
      ResolveAppend(Tail(a), b, params);
      var u, x, y := ResolveUnit(Head(a), params), Resolve(Tail(a), params), Resolve(b, params);
      assert Resolve(a, params) == u + x;
      assert Resolve(a + b, params) == u + (x + y);
      Reassociate(u, x, y);
    }
  }

  lemma {:induction false} ResolveText<T>(s: string, params: seq<T>)
    requires '$' !in s
    ensures Resolve(s, params) == Text(s)
    decreases |s|
  {
    if s != "" {
      assert s[0] != '$';
      ResolveText(Tail(s), params);
    }
  }

  lemma {:induction false} InRangeAppend(a: string, b: string, m: nat)
    requires Separate(a, b)
    ensures InRange(a + b, m) <==> InRange(a, m) && InRange(b, m)
    decreases |a|
  {
    if a == "" {
      assert a + b == b;
    } else {
      HeadAppend(a, b);
      InRangeAppend(Tail(a), b, m);
    }
  }

  lemma {:induction false} InRangeText(s: string, m: nat)
    requires '$' !in s
    ensures InRange(s, m)
    decreases |s|
  {
    if s != "" {
      assert s[0] != '$';
      InRangeText(Tail(s), m);
    }
  }

  lemma {:induction false} InRangeWider(e: string, m: nat, n: nat)
    requires InRange(e, m) && m <= n
    ensures InRange(e, n)
    decreases |e|
  {
    if e != "" {
      InRangeWider(Tail(e), m, n);
    }
  }

  // ---------------------------------------------------------------- shifting

  lemma WrittenUnit(u: string, delta: nat)
    requires IsUnit(u)
    requires IsRef(u) ==> Ordinal(u) + delta <= MAX_INT
    ensures var v := ShiftUnit(u, delta);
            IsUnit(v) && IsRef(v) == IsRef(u) && (IsRef(v) ==> Ordinal(v) == Ordinal(u) + delta)
  {
    if IsRef(u) {
      var digits := Itoa(Ordinal(u) + delta);
      AtoiOfItoa(Ordinal(u) + delta);
      assert ("$" + digits)[1..] == digits;
      assert forall i :: 1 <= i <= |digits| ==> ("$" + digits)[i] == digits[i - 1];
    }
  }

  /** What the shift wrote is read back unit by unit, each ordinal raised by delta. */
  lemma HeadOfShift(e: string, delta: nat)
    requires e != ""
    requires IsRef(Head(e)) ==> Ordinal(Head(e)) + delta <= MAX_INT
    ensures var u := ShiftUnit(Head(e), delta);
            IsUnit(u) && Head(Shift(e, delta)) == u && Tail(Shift(e, delta)) == Shift(Tail(e), delta)
            && IsRef(u) == IsRef(Head(e))
            && (IsRef(u) ==> Ordinal(u) == Ordinal(Head(e)) + delta)
  {
    WrittenUnit(Head(e), delta);
    HeadStops(e);
    HeadIs(ShiftUnit(Head(e), delta), Shift(Tail(e), delta));
  }

  lemma {:induction false} ResolveIgnoresExtra<T>(e: string, own: seq<T>, back: seq<T>)
    requires InRange(e, |own|)
    ensures Resolve(e, own + back) == Resolve(e, own)
    decreases |e|
  {
    if e != "" {
      ResolveIgnoresExtra(Tail(e), own, back);
    }
  }

  /** One unit: what it resolves to after the shift is what it resolved to before. */
  lemma UnitBinds<T>(u: string, v: string, front: seq<T>, own: seq<T>, back: seq<T>)
    requires IsUnit(u) && IsUnit(v)
    requires IsRef(v) == IsRef(u)
    requires if IsRef(u) then 1 <= Ordinal(u) <= |own| && Ordinal(v) == Ordinal(u) + |front| else v == u
    ensures ResolveUnit(v, front + own + back) == ResolveUnit(u, own)
  {
    if IsRef(u) {
      assert (front + own + back)[Ordinal(v) - 1] == own[Ordinal(u) - 1];
    }
  }

  lemma {:induction false} ShiftBinds<T>(e: string, front: seq<T>, own: seq<T>, back: seq<T>)
    requires InRange(e, |own|)
    requires |front| + |own| <= MAX_INT
    ensures Resolve(Shift(e, |front|), front + own + back) == Resolve(e, own)
    decreases |e|
  {
    if e != "" {
      HeadOfShift(e, |front|);
      UnitBinds(Head(e), ShiftUnit(Head(e), |front|), front, own, back);
      ShiftBinds(Tail(e), front, own, back);
    }
  }

  /**
   The binding lemma: a fragment whose placeholders all have a parameter means the same after it
   is shifted past the parameters in front of it, whatever follows its own parameters.
   */
  lemma ShiftKeepsBinding<T>(e: string, front: seq<T>, own: seq<T>, back: seq<T>)
    requires InRange(e, |own|)
    requires |front| + |own| <= MAX_INT
    ensures Resolve(Shifted(e, |front|), front + own + back) == Resolve(e, own)
  {
    if front == [] {
      assert front + own + back == own + back;
      ResolveIgnoresExtra(e, own, back);
    } else {
      ShiftBinds(e, front, own, back);
    }
  }

  lemma {:induction false} ShiftInRange(e: string, delta: nat, m: nat)
    requires InRange(e, m) && delta + m <= MAX_INT
    ensures InRange(Shifted(e, delta), delta + m)
    decreases |e|
  {
    if delta != 0 && e != "" {
      HeadOfShift(e, delta);
      ShiftInRange(Tail(e), delta, m);
    }
  }

  /** Renumbering twice is renumbering once by the sum, so nesting scopes is harmless. */
  lemma {:induction false} ShiftTwice(e: string, a: nat, b: nat, m: nat)
    requires InRange(e, m) && m + a + b <= MAX_INT
    ensures Shifted(Shifted(e, a), b) == Shifted(e, a + b)
    decreases |e|
  {
    hide Head, Tail, Itoa, Atoi, IsUnit, AddInt;
    if a != 0 && b != 0 && e != "" {
      HeadOfShift(e, a);
      ShiftTwice(Tail(e), a, b, m);
      var u := ShiftUnit(Head(e), a);
      assert ShiftUnit(u, b) == ShiftUnit(Head(e), a + b);
      assert Shift(Shift(e, a), b) == ShiftUnit(u, b) + Shift(Shift(Tail(e), a), b);
    }
  }

  // ---------------------------------------------------------------- exactly when binding is preserved

  /** Sequences that differ behind a common prefix differ. */
  lemma DifferentTails<A>(u: seq<A>, x: seq<A>, y: seq<A>)
    requires x != y
    ensures u + x != u + y
  {
    assert (u + x)[|u|..] == x && (u + y)[|u|..] == y;
  }

  /**
   The converse of ShiftKeepsBinding: a fragment with a placeholder that has no parameter of its own
   is captured by a neighbour's parameter in some context.
   */
  lemma {:induction false} StrayIsCaptured<T>(e: string, own: seq<T>, v: T) returns (front: seq<T>, back: seq<T>)
    requires !InRange(e, |own|) && |own| < MAX_INT
    ensures |front| + |own| <= MAX_INT && |front| <= 1
    ensures Resolve(Shifted(e, |front|), front + own + back) != Resolve(e, own)
    decreases |e|
  {
    var u := Head(e);
    if IsRef(u) ==> 1 <= Ordinal(u) <= |own| {
      front, back := StrayIsCaptured(Tail(e), own, v);
      CapturedTail(e, front, own, back);
    } else if Ordinal(u) == 0 {
      front, back := [v], [];
      HeadOfShift(e, 1);
      CapturedHead(e, Shift(e, 1), own, front + own + back);
    } else {
      front, back := [], seq(Ordinal(u), _ => v);
      CapturedHead(e, e, own, front + own + back);
    }
  }

  lemma CapturedTail<T>(e: string, front: seq<T>, own: seq<T>, back: seq<T>)
    requires e != "" && (IsRef(Head(e)) ==> 1 <= Ordinal(Head(e)) <= |own|)
    requires |front| + |own| <= MAX_INT
    requires Resolve(Shifted(Tail(e), |front|), front + own + back) != Resolve(Tail(e), own)
    ensures Resolve(Shifted(e, |front|), front + own + back) != Resolve(e, own)
  {
    var s := Shifted(e, |front|);
    HeadOfShift(e, |front|);
    UnitBinds(Head(e), Head(s), front, own, back);
    DifferentTails(ResolveUnit(Head(e), own), Resolve(Tail(s), front + own + back), Resolve(Tail(e), own));
  }

  lemma CapturedHead<T>(e: string, s: string, own: seq<T>, all: seq<T>)
    requires e != "" && s != "" && IsRef(Head(e)) && !(1 <= Ordinal(Head(e)) <= |own|)
    requires IsRef(Head(s)) && 1 <= Ordinal(Head(s)) <= |all|
    ensures Resolve(s, all) != Resolve(e, own)
  {
    assert Resolve(s, all)[0] == Val(all[Ordinal(Head(s)) - 1]);
    assert Resolve(e, own)[0] == ResolveUnit(Head(e), own)[0] == Ch(Head(e)[0]);
  }
}
