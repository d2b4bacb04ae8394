/**
 The query of an embedded upsert. Its "u_x as uid" definitions are reduced to "uid", and each variable is
 remembered by the block that answers for it.
 */
module UpsertQuery {
  import opened TextScan

  predicate IsWord(c: char) {
    '0' <= c <= '9' || 'A' <= c <= 'Z' || 'a' <= c <= 'z' || c == '_'
  }

  predicate IsBlank(c: char) {
    c == ' ' || c == '\t' || c == '\n' || c == '\r' || c == 12 as char
  }

  /** Length of the longest run of characters of a kind. */
  function Run(s: string, kind: char -> bool): (n: nat)
    ensures n <= |s| && (n < |s| ==> !kind(s[n])) && forall k :: 0 <= k < n ==> kind(s[k])
  {
    if s == "" || !kind(s[0]) then 0 else 1 + Run(s[1..], kind)
  }

  /** (\w+)\s+as\s+uid; the runs cannot give back characters, since what follows is of another kind. */
  function DefLen(s: string): (n: nat)
    ensures n <= |s|
  {
    var a := Run(s, IsWord);
    var b := Run(s[a..], IsBlank);
    var t := s[a + b..];
    if a == 0 || b == 0 || !("as" <= t) then 0 else
      var d := Run(t[2..], IsBlank);
      if d == 0 || !("uid" <= t[2 + d..]) then 0 else a + b + 2 + d + 3
  }

  /** The variable a definition defines. */
  function Defined(text: string): string {
    text[..Run(text, IsWord)]
  }

  predicate DefinesVar(defs: seq<string>, v: string) {
    exists i :: 0 <= i < |defs| && Defined(defs[i]) == v
  }

  /** Block q_x stands for variable u_x, for exactly the variables so named. */
  ghost predicate Mappings(m: map<string, string>, defs: seq<string>) {
    && (forall b :: b in m ==> "q_" <= b && m[b] == "u_" + b[2..] && DefinesVar(defs, m[b]))
    && forall x :: DefinesVar(defs, "u_" + x) ==> "q_" + x in m
  }

  /** Every definition becomes "uid"; what is left out is kept in the mapping. */
  method TransformUpsertQuery(query: string) returns (transformed: string, varMappings: map<string, string>)
    ensures transformed == ReplaceAll(DefLen, query, _ => "uid")
    ensures Mappings(varMappings, FindAll(Scan(DefLen, query)))
  {
    hide Mappings, Defined, Scan, FindAll;
    varMappings := map[];
    var matches := FindAll(Scan(DefLen, query));
    NoMappings();
    assert matches[..0] == [];
    var i := 0;
    while i < |matches|
      invariant 0 <= i <= |matches| && Mappings(varMappings, matches[..i])
    {
      var varName := Defined(matches[i]);
      MappingsStep(varMappings, matches, i);
      if "u_" <= varName {
        var blockName := "q_" + varName[2..];
        varMappings := varMappings[blockName := varName];
      }
      i := i + 1;
    }
    assert matches[..|matches|] == matches;
    transformed := ReplaceAll(DefLen, query, _ => "uid");
  }

  lemma NoMappings()
    ensures Mappings(map[], [])
  {
  }

  lemma MappingsStep(m: map<string, string>, defs: seq<string>, i: nat)
    requires i < |defs| && Mappings(m, defs[..i])
    ensures var v := Defined(defs[i]);
            Mappings(if "u_" <= v then m["q_" + v[2..] := v] else m, defs[..i + 1])
  {
    var v := Defined(defs[i]);
    var m' := if "u_" <= v then m["q_" + v[2..] := v] else m;
    forall u | DefinesVar(defs[..i], u) ensures DefinesVar(defs[..i + 1], u) {
      var k :| 0 <= k < i && Defined(defs[..i][k]) == u;
      assert defs[..i + 1][k] == defs[k];
    }
    assert DefinesVar(defs[..i + 1], v) by { assert defs[..i + 1][i] == defs[i]; }
    if "u_" <= v { assert v == "u_" + v[2..]; }
    forall x | DefinesVar(defs[..i + 1], "u_" + x) ensures "q_" + x in m' {
      var k :| 0 <= k <= i && Defined(defs[..i + 1][k]) == "u_" + x;
      if k < i {
        assert defs[..i][k] == defs[k];
      } else {
        assert v[2..] == x;
      }
    }
  }

  lemma RunIs(s: string, kind: char -> bool, n: nat)
    requires n < |s| && !kind(s[n]) && forall k :: 0 <= k < n ==> kind(s[k])
    ensures Run(s, kind) == n
  {
    assert Run(s, kind) <= n;
    assert n <= Run(s, kind);
  }

  // ---------------------------------------------------------------- queries as their authors mean them

  /** Text, or the definition of a variable with any blanks around "as". */
  datatype Part = Text(c: char) | Def(v: string, before: string, after: string)

  predicate All(s: string, kind: char -> bool) {
    s != "" && forall i :: 0 <= i < |s| ==> kind(s[i])
  }

  predicate LegalDef(p: Part) {
    p.Def? && All(p.v, IsWord) && All(p.before, IsBlank) && All(p.after, IsBlank)
  }

  function DefText(p: Part): string
    requires p.Def?
  {
    p.v + p.before + "as" + p.after + "uid"
  }

  function PartSegs(ps: seq<Part>): seq<Seg> {
    if ps == [] then [] else [if ps[0].Def? then Match(DefText(ps[0])) else Lit(ps[0].c)] + PartSegs(ps[1..])
  }

  function QueryText(ps: seq<Part>): string {
    if ps == [] then "" else (if ps[0].Def? then DefText(ps[0]) else [ps[0].c]) + QueryText(ps[1..])
  }

  /** The query with every definition of a variable reduced to "uid". */
  function WithoutVars(ps: seq<Part>): string {
    if ps == [] then "" else (if ps[0].Def? then "uid" else [ps[0].c]) + WithoutVars(ps[1..])
  }

  predicate Defines(ps: seq<Part>, v: string) {
    exists i :: 0 <= i < |ps| && ps[i].Def? && ps[i].v == v
  }

  /** Definitions are well formed, and none starts where text is meant. */
  predicate UnambiguousQuery(ps: seq<Part>) {
    ps == []
    || ((if ps[0].Def? then LegalDef(ps[0]) else DefLen(QueryText(ps)) == 0) && UnambiguousQuery(ps[1..]))
  }

  /** A written definition is matched whole, whatever follows, and defines its variable. */
  lemma DefMatches(p: Part, rest: string)
    requires LegalDef(p)
    ensures DefLen(DefText(p) + rest) == |DefText(p)| && Defined(DefText(p)) == p.v
  {
    hide Run, DefLen, DefText;
    var s, n, b := DefText(p) + rest, |p.v|, |p.before|;
    DefSlices(p, rest);
    DefSlices(p, "");
    WordThenBlanks(p.v, p.before, s[n + b..]);
    RunIs(s[n + b + 2..], IsBlank, |p.after|);
    DefLenIs(s, n, b, |p.after|);
    assert DefText(p) + "" == DefText(p);
    WordThenBlanks(p.v, p.before, DefText(p)[n + b..]);
  }

  /** Letters, digits and the underscore, by code. */
  predicate IsNameCode(n: int) {
    48 <= n <= 57 || 65 <= n <= 90 || 97 <= n <= 122 || n == 95
  }

  /** A definition of u_x, x of letters, digits and underscores, is matched whole with any blanks and whatever follows. */
  lemma VariableDefinition(x: string, before: string, after: string, rest: string)
    requires forall i :: 0 <= i < |x| ==> IsNameCode(x[i] as int)
    requires before != "" && forall i :: 0 <= i < |before| ==> before[i] as int in {9, 10, 12, 13, 32}
    requires after != "" && forall i :: 0 <= i < |after| ==> after[i] as int in {9, 10, 12, 13, 32}
    ensures var def := "u_" + x + before + "as" + after + "uid";
            DefLen(def + rest) == |def| && Defined(def) == "u_" + x
  {
    hide DefLen, Defined;
    var p := Def("u_" + x, before, after);
    assert All(p.v, IsWord) by {
      forall i | 0 <= i < |p.v| ensures IsWord(p.v[i]) {
        if i >= 2 { assert IsNameCode(x[i - 2] as int); }
      }
    }
    DefMatches(p, rest);
  }

  lemma DefSlices(p: Part, rest: string)
    requires p.Def?
    ensures var (s, n) := (DefText(p) + rest, |p.v| + |p.before|);
            && |s| == n + 2 + |p.after| + 3 + |rest| && |DefText(p)| == n + 2 + |p.after| + 3
            && s == p.v + p.before + s[n..] && "as" <= s[n..]
            && s[n + 2..] == p.after + s[n + 2 + |p.after|..] && "uid" <= s[n + 2 + |p.after|..]
  {
    var s, n := DefText(p) + rest, |p.v| + |p.before|;
    assert s[n..] == "as" + p.after + "uid" + rest;
    assert s[n + 2 + |p.after|..] == "uid" + rest;
  }

  lemma DefLenIs(s: string, a: nat, b: nat, d: nat)
    requires 0 < a && 0 < b && 0 < d && a + b + 2 + d <= |s|
    requires Run(s, IsWord) == a && Run(s[a..], IsBlank) == b && "as" <= s[a + b..]
    requires Run(s[a + b + 2..], IsBlank) == d && "uid" <= s[a + b + 2 + d..]
    ensures DefLen(s) == a + b + 2 + d + 3
  {
    hide Run;
    assert s[a + b..][2..] == s[a + b + 2..] && s[a + b..][2 + d..] == s[a + b + 2 + d..];
  }

  lemma WordThenBlanks(v: string, before: string, rest: string)
    requires All(v, IsWord) && All(before, IsBlank) && rest != "" && rest[0] == 'a'
    ensures var s := v + before + rest;
            Run(s, IsWord) == |v| && Run(s[|v|..], IsBlank) == |before| && s[|v| + |before|..] == rest
  {
    var s := v + before + rest;
    assert s[|v|] == before[0];
    RunIs(s, IsWord, |v|);
    assert s[|v|..] == before + rest;
    RunIs(before + rest, IsBlank, |before|);
  }

  lemma {:induction false} PartsPrint(ps: seq<Part>)
    ensures Print(PartSegs(ps)) == QueryText(ps)
    ensures Replaced(PartSegs(ps), _ => "uid") == WithoutVars(ps)
  {
    if ps != [] {
      PartsPrint(ps[1..]);
      assert PartSegs(ps)[1..] == PartSegs(ps[1..]);
    }
  }

  lemma {:induction false} UnambiguousPartsAreCanonical(ps: seq<Part>)
    requires UnambiguousQuery(ps)
    ensures Canonical(DefLen, PartSegs(ps))
  {
    if ps != [] {
      hide DefLen;
      UnambiguousPartsAreCanonical(ps[1..]);
      PartsPrint(ps);
      PartsPrint(ps[1..]);
      assert PartSegs(ps)[1..] == PartSegs(ps[1..]);
      if ps[0].Def? { DefMatches(ps[0], QueryText(ps[1..])); }
    }
  }

  lemma {:induction false} DefinitionsFound(ps: seq<Part>, v: string)
    requires UnambiguousQuery(ps)
    ensures DefinesVar(FindAll(PartSegs(ps)), v) <==> Defines(ps, v)
  {
    if ps != [] {
      var rest, found := FindAll(PartSegs(ps[1..])), FindAll(PartSegs(ps));
      DefinitionsFound(ps[1..], v);
      assert PartSegs(ps)[1..] == PartSegs(ps[1..]);
      hide DefText, LegalDef, Defined, DefLen;
      if ps[0].Def? {
        DefMatches(ps[0], "");
        assert found == [DefText(ps[0])] + rest;
      } else {
        assert found == [] + rest == rest;
      }
      FoundInTail(found, rest, v);
      DefinesInTail(ps, v);
    }
  }

  lemma FoundInTail(found: seq<string>, rest: seq<string>, v: string)
    requires found == rest || (found != [] && found[1..] == rest)
    ensures DefinesVar(found, v) <==> DefinesVar(rest, v) || (found != rest && Defined(found[0]) == v)
  {
    if i :| 0 <= i < |rest| && Defined(rest[i]) == v {
      if found != rest { assert found[i + 1] == rest[i]; }
    }
    if i :| 0 <= i < |found| && Defined(found[i]) == v {
      if found != rest && i > 0 { assert rest[i - 1] == found[i]; }
    }
  }

  lemma DefinesInTail(ps: seq<Part>, v: string)
    requires ps != []
    ensures Defines(ps, v) <==> Defines(ps[1..], v) || (ps[0].Def? && ps[0].v == v)
  {
    if i :| 0 <= i < |ps[1..]| && ps[1..][i].Def? && ps[1..][i].v == v { assert ps[i + 1] == ps[1..][i]; }
    if i :| 0 <= i < |ps| && ps[i].Def? && ps[i].v == v {
      if i > 0 { assert ps[1..][i - 1] == ps[i]; }
    }
  }

  /**
   What TransformUpsertQuery makes of a query: text is kept, each written definition becomes "uid", and the
   mapping stands for exactly the u_ variables that were written.
   */
  lemma TransformMeans(ps: seq<Part>, m: map<string, string>)
    requires UnambiguousQuery(ps)
    requires Mappings(m, FindAll(Scan(DefLen, QueryText(ps))))
    ensures ReplaceAll(DefLen, QueryText(ps), _ => "uid") == WithoutVars(ps)
    ensures forall v :: DefinesVar(FindAll(Scan(DefLen, QueryText(ps))), v) <==> Defines(ps, v)
    ensures forall x :: Defines(ps, "u_" + x) <==> "q_" + x in m && m["q_" + x] == "u_" + x
    ensures forall b :: b in m ==> "q_" <= b && Defines(ps, m[b])
  {
    UnambiguousPartsAreCanonical(ps);
    PartsPrint(ps);
    ScanPrintIff(DefLen, PartSegs(ps));
    hide Scan, DefLen, PartSegs, FindAll, Defined, QueryText, DefinesVar, Defines;
    forall v ensures DefinesVar(FindAll(PartSegs(ps)), v) <==> Defines(ps, v) { DefinitionsFound(ps, v); }
    forall x ensures Defines(ps, "u_" + x) <==> "q_" + x in m && m["q_" + x] == "u_" + x {
      assert ("q_" + x)[2..] == x;
    }
  }

  /** Every query reads as one such list, so the law above speaks of all queries. */
  lemma {:induction false} EveryQueryIsParts(s: string) returns (ps: seq<Part>)
    ensures UnambiguousQuery(ps) && QueryText(ps) == s
    decreases |s|
  {
    hide DefLen, LegalDef, DefText;
    if s == "" {
      ps := [];
    } else {
      hide UnambiguousQuery, QueryText;
      var p, n := FirstPart(s);
      var rest := EveryQueryIsParts(s[n..]);
      ps := [p] + rest;
      PartsCons(p, rest);
      assert s == s[..n] + s[n..];
    }
  }

  lemma PartsCons(p: Part, rest: seq<Part>)
    ensures var ps := [p] + rest;
            && QueryText(ps) == (if p.Def? then DefText(p) else [p.c]) + QueryText(rest)
            && (UnambiguousQuery(ps) <==>
                (if p.Def? then LegalDef(p) else DefLen(QueryText(ps)) == 0) && UnambiguousQuery(rest))
  {
    hide DefLen, LegalDef, DefText;
    assert ([p] + rest)[1..] == rest;
  }

  /** The first n characters are a definition, if one starts there, or one character of text. */
  lemma FirstPart(s: string) returns (p: Part, n: nat)
    requires s != ""
    ensures 0 < n <= |s| && s[..n] == if p.Def? then DefText(p) else [p.c]
    ensures if p.Def? then LegalDef(p) else DefLen(s) == 0
  {
    if DefLen(s) == 0 {
      p, n := Text(s[0]), 1;
    } else {
      p := WrittenDef(s);
      n := DefLen(s);
    }
  }

  lemma WrittenDef(s: string) returns (p: Part)
    requires DefLen(s) > 0
    ensures LegalDef(p) && DefText(p) == s[..DefLen(s)]
  {
    hide Run, All;
    var a := Run(s, IsWord);
    var w := s[a..];
    var b := Run(w, IsBlank);
    var t := s[a + b..];
    var x := t[2..];
    var d := Run(x, IsBlank);
    assert DefLen(s) == a + b + 2 + d + 3 && "as" <= t && "uid" <= t[2 + d..];
    hide DefLen, DefText;
    p := Def(s[..a], w[..b], x[..d]);
    RunIsAll(s, IsWord);
    RunIsAll(w, IsBlank);
    RunIsAll(x, IsBlank);
    DefPrefix(s, p, t);
    DefSlices(p, "");
    assert DefText(p) + "" == DefText(p);
  }

  lemma RunIsAll(s: string, kind: char -> bool)
    requires Run(s, kind) > 0
    ensures All(s[..Run(s, kind)], kind)
  {
  }

  lemma DefPrefix(s: string, p: Part, t: string)
    requires p.Def? && p.v <= s && p.before <= s[|p.v|..] && t == s[|p.v| + |p.before|..]
    requires "as" <= t && p.after <= t[2..] && "uid" <= t[2 + |p.after|..]
    ensures DefText(p) <= s
  {
    var w, x, y := s[|p.v|..], t[2..], t[2 + |p.after|..];
    SplitAt(s, p.v);
    SplitAt(w, p.before);
    SplitAt(t, "as");
    SplitAt(x, p.after);
    SplitAt(y, "uid");
    assert w[|p.before|..] == t && x[|p.after|..] == y;
    Flatten(p.v, p.before, "as", p.after, "uid", y[3..]);
  }

  lemma SplitAt(s: string, p: string)
    requires p <= s
    ensures s == p + s[|p|..]
  {
  }

  lemma Flatten(a: string, b: string, c: string, d: string, e: string, z: string)
    ensures a + (b + (c + (d + (e + z)))) == a + b + c + d + e + z
  {
  }
}
