/**
 Upserts on the embedded engine. The query's "u_x as uid" definitions are taken out, the query runs, and
 each uid(u_x) of the mutation becomes the first UID of block q_x, or a blank node if the block is empty.
 Blank nodes then get fresh UIDs.
 */
module Upsert {
  import opened Basics
  import opened TextScan
  import opened UpsertQuery
  import opened Zero

  // ---------------------------------------------------------------- uid(v) in mutations

  /** Where c first occurs, or the length. */
  function IndexOf(s: string, c: char): (i: nat)
    ensures i <= |s| && (i < |s| ==> s[i] == c) && forall k :: 0 <= k < i ==> s[k] != c
  {
    if s == "" || s[0] == c then 0 else 1 + IndexOf(s[1..], c)
  }

  /** uid\(([^)]+)\) */
  function RefLen(s: string): (n: nat)
    ensures n <= |s| && (n > 0 ==> n > 5)
  {
    if "uid(" <= s then
      var c := IndexOf(s[4..], ')');
      if 0 < c < |s| - 4 then c + 5 else 0
    else 0
  }

  predicate VarName(v: string) {
    v != "" && ')' !in v
  }

  function Ref(v: string): string {
    "uid(" + v + ")"
  }

  function BlankName(v: string): string {
    "_:uid(" + v + ")"
  }

  /** The name inside a match. */
  function Inner(text: string): string {
    if |text| >= 5 then text[4..|text| - 1] else ""
  }

  /** What a variable is replaced by. */
  function Resolved(v: string, varUids: map<string, string>): string {
    if v in varUids then varUids[v] else BlankName(v)
  }

  function SubstituteInString(s: string, varUids: map<string, string>): string {
    ReplaceAll(RefLen, s, text => Resolved(Inner(text), varUids))
  }

  /** A reference is matched whole, whatever follows. */
  lemma RefMatches(v: string, rest: string)
    requires VarName(v)
    ensures RefLen(Ref(v) + rest) == |Ref(v)| && Inner(Ref(v)) == v
  {
    var s := Ref(v) + rest;
    assert s[..4] == "uid(";
    var t := s[4..];
    assert t == v + ([')'] + rest);
    assert t[|v|] == ')' && forall k :: 0 <= k < |v| ==> t[k] == v[k];
    assert IndexOf(t, ')') == |v|;
  }

  /** A mutation as its author means it: text with references to variables. */
  datatype Piece = Plain(c: char) | Var(name: string)

  function Segs(ps: seq<Piece>): seq<Seg> {
    if ps == [] then [] else
      [match ps[0] case Plain(c) => Lit(c) case Var(v) => Match(Ref(v))] + Segs(ps[1..])
  }

  function Meant(ps: seq<Piece>, varUids: map<string, string>): string {
    if ps == [] then "" else
      (match ps[0] case Plain(c) => [c] case Var(v) => Resolved(v, varUids)) + Meant(ps[1..], varUids)
  }

  /** Variables have names, and no reference starts where plain text is meant. */
  predicate Unambiguous(ps: seq<Piece>) {
    ps == [] ||
    ((match ps[0] case Plain(_) => RefLen(Print(Segs(ps))) == 0 case Var(v) => VarName(v)) && Unambiguous(ps[1..]))
  }

  lemma {:induction false} UnambiguousIsCanonical(ps: seq<Piece>)
    requires Unambiguous(ps)
    ensures Canonical(RefLen, Segs(ps))
  {
    if ps != [] {
      UnambiguousIsCanonical(ps[1..]);
      assert Segs(ps)[1..] == Segs(ps[1..]);
      if ps[0].Var? { RefMatches(ps[0].name, Print(Segs(ps[1..]))); }
    }
  }

  lemma {:induction false} ReplacedIsMeant(ps: seq<Piece>, varUids: map<string, string>)
    requires Unambiguous(ps)
    ensures Replaced(Segs(ps), text => Resolved(Inner(text), varUids)) == Meant(ps, varUids)
  {
    if ps != [] {
      ReplacedIsMeant(ps[1..], varUids);
      assert Segs(ps)[1..] == Segs(ps[1..]);
      if ps[0].Var? { RefMatches(ps[0].name, ""); }
    }
  }

  /** Every reference is resolved and all other text is kept. */
  lemma SubstitutionKeepsTheRest(ps: seq<Piece>, varUids: map<string, string>)
    requires Unambiguous(ps)
    ensures SubstituteInString(Print(Segs(ps)), varUids) == Meant(ps, varUids)
  {
    UnambiguousIsCanonical(ps);
    ScanPrintIff(RefLen, Segs(ps));
    ReplacedIsMeant(ps, varUids);
  }

  /** One reference, spelled out: the UID found, or else a blank node of its own. */
  lemma OneReference(v: string, varUids: map<string, string>)
    requires v != "" && ')' !in v
    ensures SubstituteInString("uid(" + v + ")", varUids) == if v in varUids then varUids[v] else "_:uid(" + v + ")"
  {
    var ps := [Var(v)];
    assert ps[1..] == [] && Segs(ps) == [Match(Ref(v))] && Print(Segs(ps)) == Ref(v) + "" == Ref(v);
    RefMatches(v, "");
    SubstitutionKeepsTheRest(ps, varUids);
    assert Meant(ps, varUids) == Resolved(v, varUids) + "" == Resolved(v, varUids);
  }

  /** Every text reads as one such list, so the law above speaks of all mutations. */
  lemma {:induction false} EveryTextIsPieces(s: string) returns (ps: seq<Piece>)
    ensures Unambiguous(ps) && Print(Segs(ps)) == s
    decreases |s|
  {
    if s == "" {
      ps := [];
    } else {
      var n := if RefLen(s) > 0 then RefLen(s) else 1;
      var rest := EveryTextIsPieces(s[n..]);
      var p := if RefLen(s) > 0 then Var(s[4..n - 1]) else Plain(s[0]);
      FirstPiece(s, n, p);
      hide RefLen, VarName, Ref;
      ps := [p] + rest;
      assert ps[1..] == rest && Segs(ps)[1..] == Segs(rest);
      assert s[..n] + s[n..] == s;
    }
  }

  lemma FirstPiece(s: string, n: nat, p: Piece)
    requires s != "" && n == (if RefLen(s) > 0 then RefLen(s) else 1)
    requires p == if RefLen(s) > 0 then Var(s[4..n - 1]) else Plain(s[0])
    ensures match p case Plain(c) => [c] == s[..n] case Var(v) => VarName(v) && Ref(v) == s[..n]
  {
    if RefLen(s) > 0 { assert s[..4] == "uid(" && s[4..][n - 5] == ')'; }
  }

  // ---------------------------------------------------------------- what the query found

  /** A node of the response; None when it has no uid string. */
  datatype Node = Node(uid: Option<string>)

  /** The response body: missing, not of the expected shape, or rows by block name. */
  datatype Body = Empty | Malformed | Blocks(blocks: map<string, seq<Node>>)

  /** The first UID of a block, if it matched. */
  function FirstUid(blocks: map<string, seq<Node>>, b: string): Option<string> {
    if b in blocks && blocks[b] != [] then blocks[b][0].uid else None
  }

  function NameFor(b: string, m: map<string, string>): string {
    if b in m then m[b] else b
  }

  /** One of the maps the loop can end with: Go visits the blocks in any order. */
  ghost predicate Found(varUids: map<string, string>, blocks: map<string, seq<Node>>, m: map<string, string>) {
    FoundIn(varUids, blocks, m, blocks.Keys)
  }

  ghost predicate FoundIn(varUids: map<string, string>, blocks: map<string, seq<Node>>,
                          m: map<string, string>, bs: set<string>) {
    && (forall b :: b in bs && FirstUid(blocks, b).Some? ==> NameFor(b, m) in varUids)
    && forall v :: v in varUids ==> Names(v, varUids[v], blocks, m, bs)
  }

  ghost predicate Names(v: string, uid: string, blocks: map<string, seq<Node>>, m: map<string, string>, bs: set<string>) {
    exists b :: b in bs && NameFor(b, m) == v && FirstUid(blocks, b) == Some(uid)
  }

  method ExtractVarUids(body: Body, m: map<string, string>) returns (r: Option<map<string, string>>)
    ensures body.Empty? ==> r == Some(map[])
    ensures body.Malformed? ==> r.None?
    ensures body.Blocks? ==> r.Some? && Found(r.value, body.blocks, m)
  {
    if body.Empty? { return Some(map[]); }
    if body.Malformed? { return None; }
    var blocks := body.blocks;
    var varUids: map<string, string> := map[];
    var rest := blocks.Keys;
    while rest != {}
      invariant rest <= blocks.Keys
      invariant FoundIn(varUids, blocks, m, blocks.Keys - rest)
      decreases rest
    {
      var b :| b in rest;
      var nodes := blocks[b];
      FoundStep(varUids, blocks, m, blocks.Keys - rest, b);
      rest := rest - {b};
      if |nodes| > 0 {
        if nodes[0].uid.Some? {
          if b in m {
            varUids := varUids[m[b] := nodes[0].uid.value];
          } else {
            varUids := varUids[b := nodes[0].uid.value];
          }
        }
      }
      assert blocks.Keys - rest == blocks.Keys - (rest + {b}) + {b};
    }
    assert blocks.Keys - {} == blocks.Keys;
    r := Some(varUids);
  }

  lemma FoundStep(varUids: map<string, string>, blocks: map<string, seq<Node>>,
                  m: map<string, string>, bs: set<string>, b: string)
    requires FoundIn(varUids, blocks, m, bs)
    ensures var u := FirstUid(blocks, b);
            FoundIn(if u.Some? then varUids[NameFor(b, m) := u.value] else varUids, blocks, m, bs + {b})
  {
    var u := FirstUid(blocks, b);
    var varUids' := if u.Some? then varUids[NameFor(b, m) := u.value] else varUids;
    forall v | v in varUids' ensures Names(v, varUids'[v], blocks, m, bs + {b}) {
      if !(u.Some? && v == NameFor(b, m)) {
        var c :| c in bs && NameFor(c, m) == v && FirstUid(blocks, c) == Some(varUids[v]);
        assert c in bs + {b};
      } else {
        assert b in bs + {b};
      }
    }
  }

  lemma {:induction false} SomeFound(blocks: map<string, seq<Node>>, m: map<string, string>, bs: set<string>)
      returns (varUids: map<string, string>)
    ensures FoundIn(varUids, blocks, m, bs)
    decreases |bs|
  {
    if bs == {} {
      varUids := map[];
    } else {
      var b :| b in bs;
      varUids := SomeFound(blocks, m, bs - {b});
      FoundStep(varUids, blocks, m, bs - {b}, b);
      var u := FirstUid(blocks, b);
      if u.Some? { varUids := varUids[NameFor(b, m) := u.value]; }
      assert bs - {b} + {b} == bs;
    }
  }

  function Lookup(varUids: map<string, string>, v: string): Option<string> {
    if v in varUids then Some(varUids[v]) else None
  }

  /** Two blocks can speak for u_x: block q_x, and a stray one that is itself called u_x. */
  lemma BlocksFor(m: map<string, string>, defs: seq<string>, x: string, b: string)
    requires Mappings(m, defs) && DefinesVar(defs, "u_" + x)
    ensures NameFor(b, m) == "u_" + x <==> b == "q_" + x || b == "u_" + x
  {
    if b in m && m[b] == "u_" + x {
      assert b == "q_" + b[2..] && m[b][2..] == x;
    }
    if b == "q_" + x { assert b[2..] == x; }
    if b == "u_" + x { assert b[0] == 'u'; }
  }

  /**
   A defined variable gets the first UID of its own block, whatever the order of the loop, exactly when no
   matched block bears the variable's own name with another UID.
   */
  lemma VarGetsItsBlockIff(blocks: map<string, seq<Node>>, m: map<string, string>, defs: seq<string>, x: string)
    requires Mappings(m, defs) && DefinesVar(defs, "u_" + x)
    ensures var (own, stray) := (FirstUid(blocks, "q_" + x), FirstUid(blocks, "u_" + x));
            (forall varUids :: Found(varUids, blocks, m) ==> Lookup(varUids, "u_" + x) == own)
            <==> (stray.None? || stray == own)
  {
    var v, q := "u_" + x, "q_" + x;
    var own, stray := FirstUid(blocks, q), FirstUid(blocks, v);
    BlocksFor(m, defs, x, q);
    BlocksFor(m, defs, x, v);
    if stray.None? || stray == own {
      forall varUids | Found(varUids, blocks, m) ensures Lookup(varUids, v) == own {
        if v in varUids {
          var b :| b in blocks && NameFor(b, m) == v && FirstUid(blocks, b) == Some(varUids[v]);
          BlocksFor(m, defs, x, b);
        }
      }
    } else {
      var varUids := SomeFound(blocks, m, blocks.Keys - {v});
      FoundStep(varUids, blocks, m, blocks.Keys - {v}, v);
      var last := varUids[v := stray.value];
      assert blocks.Keys - {v} + {v} == blocks.Keys;
      assert Found(last, blocks, m) && Lookup(last, v) == stray;
    }
  }

  /**
   The UID a reference should get: a variable the query defines, the first of its own block; any other name,
   the first of the block so called, unless that block answers for a variable.
   */
  function Source(v: string, blocks: map<string, seq<Node>>, m: map<string, string>, defs: seq<string>): Option<string> {
    if "u_" <= v && DefinesVar(defs, v) then FirstUid(blocks, "q_" + v[2..])
    else if v in m then None
    else FirstUid(blocks, v)
  }

  /** No matched block bears a defined variable's own name with another UID. */
  predicate NoRival(v: string, blocks: map<string, seq<Node>>, defs: seq<string>) {
    "u_" <= v && DefinesVar(defs, v) ==>
      FirstUid(blocks, v).None? || FirstUid(blocks, v) == FirstUid(blocks, "q_" + v[2..])
  }

  /** The mutation with each reference replaced straight from the response, or by a blank node. */
  function FromResponse(ps: seq<Piece>, blocks: map<string, seq<Node>>, m: map<string, string>, defs: seq<string>): string {
    if ps == [] then "" else
      (match ps[0]
       case Plain(c) => [c]
       case Var(v) =>
         var uid := Source(v, blocks, m, defs);
         if uid.Some? then uid.value else BlankName(v)) + FromResponse(ps[1..], blocks, m, defs)
  }

  /** From query and response to mutation: every reference comes from its own block, all other text is kept. */
  lemma UpsertResolves(ps: seq<Piece>, varUids: map<string, string>, blocks: map<string, seq<Node>>,
                       m: map<string, string>, defs: seq<string>)
    requires Unambiguous(ps) && Mappings(m, defs) && Found(varUids, blocks, m)
    requires forall i :: 0 <= i < |ps| && ps[i].Var? ==> NoRival(ps[i].name, blocks, defs)
    ensures SubstituteInString(Print(Segs(ps)), varUids) == FromResponse(ps, blocks, m, defs)
  {
    SubstitutionKeepsTheRest(ps, varUids);
    MeantIsFromResponse(ps, varUids, blocks, m, defs);
  }

  lemma {:induction false} MeantIsFromResponse(ps: seq<Piece>, varUids: map<string, string>,
                                               blocks: map<string, seq<Node>>, m: map<string, string>, defs: seq<string>)
    requires Mappings(m, defs) && Found(varUids, blocks, m)
    requires forall i :: 0 <= i < |ps| && ps[i].Var? ==> NoRival(ps[i].name, blocks, defs)
    ensures Meant(ps, varUids) == FromResponse(ps, blocks, m, defs)
  {
    if ps != [] {
      hide Found, Mappings, Source, DefinesVar;
      MeantIsFromResponse(ps[1..], varUids, blocks, m, defs);
      if ps[0].Var? { SourceIsLookedUp(ps[0].name, varUids, blocks, m, defs); }
    }
  }

  lemma SourceIsLookedUp(v: string, varUids: map<string, string>, blocks: map<string, seq<Node>>,
                         m: map<string, string>, defs: seq<string>)
    requires Mappings(m, defs) && Found(varUids, blocks, m) && NoRival(v, blocks, defs)
    ensures Lookup(varUids, v) == Source(v, blocks, m, defs)
  {
    if "u_" <= v && DefinesVar(defs, v) {
      assert v == "u_" + v[2..];
      VarGetsItsBlockIff(blocks, m, defs, v[2..]);
    } else {
      OtherNamesAreBlocks(v, varUids, blocks, m, defs);
    }
  }

  /** A name that is no variable of the query stands for the block so called, if for any. */
  lemma OtherNamesAreBlocks(v: string, varUids: map<string, string>, blocks: map<string, seq<Node>>,
                            m: map<string, string>, defs: seq<string>)
    requires Mappings(m, defs) && Found(varUids, blocks, m) && !("u_" <= v && DefinesVar(defs, v))
    ensures Lookup(varUids, v) == if v in m then None else FirstUid(blocks, v)
  {
    forall b ensures NameFor(b, m) == v <==> b == v && b !in m {
      if b in m { assert m[b][..2] == "u_"; }
    }
    if v in varUids {
      var b :| b in blocks && NameFor(b, m) == v && FirstUid(blocks, b) == Some(varUids[v]);
    }
  }

  /**
   A variable of the query, from response to mutation: uid(u_x) becomes the UID of the first node of block
   q_x, or a blank node if the block is missing or empty; in both cases whatever the other blocks hold.
   */
  lemma VariableFromResponse(x: string, blocks: map<string, seq<Node>>, m: map<string, string>, defs: seq<string>,
                             varUids: map<string, string>)
    requires ')' !in x && Mappings(m, defs) && DefinesVar(defs, "u_" + x) && Found(varUids, blocks, m)
    requires "u_" + x !in blocks
    ensures "q_" + x in blocks && |blocks["q_" + x]| > 0 && blocks["q_" + x][0].uid.Some? ==>
              SubstituteInString("uid(u_" + x + ")", varUids) == blocks["q_" + x][0].uid.value
    ensures "q_" + x !in blocks || blocks["q_" + x] == [] ==>
              SubstituteInString("uid(u_" + x + ")", varUids) == "_:uid(u_" + x + ")"
  {
    hide Found, Mappings, DefinesVar, SubstituteInString;
    var v := "u_" + x;
    VarGetsItsBlockIff(blocks, m, defs, x);
    OneReference(v, varUids);
    assert "uid(" + v + ")" == "uid(u_" + x + ")" && "_:uid(" + v + ")" == "_:uid(u_" + x + ")";
    assert Lookup(varUids, v) == FirstUid(blocks, "q_" + x);
  }

  // ---------------------------------------------------------------- fresh UIDs for blank nodes

  /** UIDs in [start, end), no two alike. */
  ghost predicate OwnUids(newUids: map<string, nat>, start: nat, end: nat) {
    && (forall k :: k in newUids ==> start <= newUids[k] < end)
    && forall j, k :: j in newUids && k in newUids && newUids[j] == newUids[k] ==> j == k
  }

  /** Each name has a UID of its own. */
  ghost predicate Assigned(newUids: map<string, nat>, names: set<string>, start: nat, end: nat) {
    newUids.Keys == names && OwnUids(newUids, start, end)
  }

  lemma AssignStep(newUids: map<string, nat>, start: nat, end: nat, k: string)
    requires OwnUids(newUids, start, end) && start <= end && k !in newUids
    ensures OwnUids(newUids[k := end], start, end + 1)
  {
  }

  /** The loop of Engine.mutate over the blank nodes; its "not enough uids" assertion never fires. */
  method NumberNames(names: set<string>, range: Range) returns (newUids: map<string, nat>)
    requires range.start != 0 && range.start + |names| == range.end + 1
    ensures Assigned(newUids, names, range.start, range.start + |names|)
  {
    newUids := map[];
    var curId := range.start;
    var rest := names;
    while rest != {}
      invariant forall k :: k in names <==> k in newUids || k in rest
      invariant forall k :: k in rest ==> k !in newUids
      invariant curId + |rest| == range.end + 1 && range.start <= curId
      invariant OwnUids(newUids, range.start, curId)
      decreases |rest|
    {
      var k :| k in rest;
      AssignStep(newUids, range.start, curId, k);
      rest := rest - {k};
      assert curId != 0 && curId <= range.end;
      newUids := newUids[k := curId];
      curId := curId + 1;
    }
  }

  /** Every blank node of a mutation gets a UID not handed out before. */
  method AssignUids(z: ZeroServer, names: set<string>) returns (newUids: map<string, nat>)
    requires names != {} ==> 1 <= z.minLeasedUid && z.minLeasedUid + |names| < TWO64
    requires names != {} ==> LoopEnds(z.Value().(minUid := z.minLeasedUid + |names|))
    modifies z`minLeasedUid, z`maxLeasedUid, z.disk
    ensures z.minLeasedUid == old(z.minLeasedUid) + |names|
    ensures Assigned(newUids, names, old(z.minLeasedUid), z.minLeasedUid)
    ensures names == {} ==> z.disk.record == old(z.disk.record)
  {
    hide Exec;
    if names == {} {
      newUids := map[];
    } else {
      PlainRange(z.Value(), |names|);
      var res := z.NextUids(|names|, false);
      newUids := NumberNames(names, res);
    }
  }

  // ---------------------------------------------------------------- which node a reference denotes

  function HexDigit(d: nat): char
    requires d < 16
  {
    if d < 10 then (d + '0' as int) as char else (d - 10 + 'a' as int) as char
  }

  function Hex(n: nat): (s: string)
    ensures s != ""
  {
    if n < 16 then [HexDigit(n)] else Hex(n / 16) + [HexDigit(n % 16)]
  }

  /** How the engine writes a UID. */
  function UidText(n: nat): string {
    "0x" + Hex(n)
  }

  lemma {:induction false} HexInjective(a: nat, b: nat)
    requires Hex(a) == Hex(b)
    ensures a == b
  {
    var s, t := Hex(a), Hex(b);
    assert s[|s| - 1] == HexDigit(a % 16) && t[|t| - 1] == HexDigit(b % 16);
    assert a % 16 == b % 16;
    if a >= 16 && b >= 16 {
      assert s[..|s| - 1] == Hex(a / 16) && t[..|t| - 1] == Hex(b / 16);
      HexInjective(a / 16, b / 16);
    }
  }

  /** After the mutation, text stands for node u: a UID for itself, a blank node for what it was assigned. */
  ghost predicate Denotes(text: string, newUids: map<string, nat>, u: nat) {
    if "_:" <= text then text in newUids && newUids[text] == u else text == UidText(u)
  }

  /** The UIDs found are of nodes handed out before min. */
  ghost predicate Stored(varUids: map<string, string>, min: nat) {
    forall v :: v in varUids ==> exists n: nat :: n < min && varUids[v] == UidText(n)
  }

  /**
   Two references in the mutation denote one node exactly when they name one variable, or both matched and
   found the same UID. A matched reference denotes the node found; an unmatched one a fresh node.
   */
  lemma ReferencesDenote(varUids: map<string, string>, newUids: map<string, nat>, names: set<string>, start: nat, end: nat,
                         v: string, w: string, a: nat, b: nat)
    requires Stored(varUids, start) && Assigned(newUids, names, start, end)
    requires Denotes(Resolved(v, varUids), newUids, a) && Denotes(Resolved(w, varUids), newUids, b)
    ensures a == b <==> v == w || (v in varUids && w in varUids && varUids[v] == varUids[w])
    ensures if v in varUids then a < start && varUids[v] == UidText(a) else start <= a < end
  {
    DenotesOne(varUids, newUids, names, start, end, v, a);
    DenotesOne(varUids, newUids, names, start, end, w, b);
    if v !in varUids && w !in varUids && a == b {
      assert BlankName(v) == BlankName(w);
      assert BlankName(v)[6..|BlankName(v)| - 1] == v && BlankName(w)[6..|BlankName(w)| - 1] == w;
    }
    if v in varUids && w in varUids && varUids[v] == varUids[w] {
      assert UidText(a)[2..] == Hex(a) && UidText(b)[2..] == Hex(b);
      HexInjective(a, b);
    }
  }

  lemma DenotesOne(varUids: map<string, string>, newUids: map<string, nat>, names: set<string>, start: nat, end: nat,
                   v: string, a: nat)
    requires Stored(varUids, start) && Assigned(newUids, names, start, end)
    requires Denotes(Resolved(v, varUids), newUids, a)
    ensures if v in varUids then a < start && varUids[v] == UidText(a) else
              BlankName(v) in names && newUids[BlankName(v)] == a && start <= a < end
  {
    if v in varUids {
      var n: nat :| n < start && varUids[v] == UidText(n);
      assert UidText(n)[0] == '0' && UidText(a)[2..] == Hex(a) && UidText(n)[2..] == Hex(n);
      HexInjective(a, n);
    } else {
      assert "_:" <= BlankName(v) by { assert BlankName(v)[..2] == "_:"; }
    }
  }

  // ---------------------------------------------------------------- rewriting a mutation in place

  class NQuad {
    var subject: string
    var objectId: string

    constructor (subject: string, objectId: string)
      ensures this.subject == subject && this.objectId == objectId
    {
      this.subject, this.objectId := subject, objectId;
    }
  }

  /** An N-Quad's reference is looked up without its last character, and kept when nothing was found. */
  function SubstitutedId(id: string, varUids: map<string, string>): string {
    if "uid(" < id && Inner(id) in varUids then varUids[Inner(id)] else id
  }

  /** The code slices off "uid(" and the last character, so "uid(" alone makes it panic. */
  predicate Sliceable(id: string) {
    id != "uid("
  }

  /** ok: no panic. One on the object comes after the subject was rewritten. */
  method SubstituteInNQuad(nq: NQuad, varUids: map<string, string>) returns (ok: bool)
    modifies nq
    ensures ok <==> Sliceable(old(nq.subject)) && Sliceable(old(nq.objectId))
    ensures nq.subject == SubstitutedId(old(nq.subject), varUids)
    ensures nq.objectId == if ok then SubstitutedId(old(nq.objectId), varUids) else old(nq.objectId)
  {
    if "uid(" <= nq.subject {
      if |nq.subject| - 1 < 4 { return false; }
      var varName := nq.subject[4..|nq.subject| - 1];
      if varName in varUids { nq.subject := varUids[varName]; }
    }
    if "uid(" <= nq.objectId {
      if |nq.objectId| - 1 < 4 { return false; }
      var varName := nq.objectId[4..|nq.objectId| - 1];
      if varName in varUids { nq.objectId := varUids[varName]; }
    }
    return true;
  }

  /**
   JSON and N-Quads treat a variable that was found alike, and only such a one: an unmatched reference
   becomes a blank node in JSON and stays as it is in an N-Quad.
   */
  lemma NQuadAgreesWithJsonIff(v: string, varUids: map<string, string>)
    requires VarName(v)
    ensures SubstitutedId(Ref(v), varUids) == SubstituteInString(Ref(v), varUids) <==> v in varUids
  {
    var ps := [Var(v)];
    assert ps[1..] == [] && Segs(ps) == [Match(Ref(v))];
    assert Print(Segs(ps)) == Ref(v) + "" == Ref(v);
    RefMatches(v, "");
    SubstitutionKeepsTheRest(ps, varUids);
    assert Meant(ps, varUids) == Resolved(v, varUids) + "" == Resolved(v, varUids);
    assert Ref(v)[0] == 'u' && BlankName(v)[0] == '_';
  }

  /** Only a reference whose variable was found is touched, and it becomes the UID. */
  lemma IdIsReplacedIff(id: string, varUids: map<string, string>)
    requires Sliceable(id)
    ensures !("uid(" <= id) ==> SubstitutedId(id, varUids) == id
    ensures "uid(" <= id ==>
              var v := id[4..|id| - 1]; SubstitutedId(id, varUids) == if v in varUids then varUids[v] else id
  {
  }

  /** No UID is itself a reference. */
  ghost predicate PlainUids(varUids: map<string, string>) {
    forall v :: v in varUids ==> !("uid(" <= varUids[v])
  }

  lemma StoredArePlain(varUids: map<string, string>, min: nat)
    requires Stored(varUids, min)
    ensures PlainUids(varUids)
  {
    forall v | v in varUids ensures !("uid(" <= varUids[v]) {
      var n: nat :| n < min && varUids[v] == UidText(n);
      assert UidText(n)[0] == '0';
    }
  }

  /** With UIDs of stored nodes, an id is still a reference afterwards exactly if its variable was not found. */
  lemma StillAReferenceIff(id: string, varUids: map<string, string>, min: nat)
    requires Stored(varUids, min) && Sliceable(id)
    ensures "uid(" <= SubstitutedId(id, varUids) <==> "uid(" <= id && Inner(id) !in varUids
  {
    StoredArePlain(varUids, min);
  }

  predicate Idempotent(id: string, varUids: map<string, string>) {
    var r := SubstitutedId(id, varUids);
    SubstitutedId(r, varUids) == r && (Sliceable(id) <==> Sliceable(r))
  }

  lemma SubstitutionIsIdempotent(id: string, varUids: map<string, string>)
    requires PlainUids(varUids)
    ensures Idempotent(id, varUids)
  {
  }

  twostate predicate Substituted(nq: NQuad, varUids: map<string, string>)
    reads nq
  {
    nq.subject == SubstitutedId(old(nq.subject), varUids) && nq.objectId == SubstitutedId(old(nq.objectId), varUids)
  }

  predicate Distinct(nqs: seq<NQuad>) {
    forall i, j :: 0 <= i < j < |nqs| ==> nqs[i] != nqs[j]
  }

  twostate predicate Kept(nq: NQuad)
    reads nq
  {
    nq.subject == old(nq.subject) && nq.objectId == old(nq.objectId)
  }

  /** Each id as it was or rewritten. */
  twostate predicate Touched(nq: NQuad, varUids: map<string, string>)
    reads nq
  {
    && (nq.subject == old(nq.subject) || nq.subject == SubstitutedId(old(nq.subject), varUids))
    && (nq.objectId == old(nq.objectId) || nq.objectId == SubstitutedId(old(nq.objectId), varUids))
  }

  /** One pass, which a panic cuts short; an N-Quad listed twice is no different from one listed once. */
  method SubstituteInNQuads(nqs: seq<NQuad>, varUids: map<string, string>) returns (ok: bool)
    requires Distinct(nqs) || PlainUids(varUids)
    modifies nqs
    ensures ok <==> forall nq :: nq in nqs ==> Sliceable(old(nq.subject)) && Sliceable(old(nq.objectId))
    ensures ok ==> forall nq :: nq in nqs ==> Substituted(nq, varUids)
    ensures forall nq :: nq in nqs ==> Touched(nq, varUids)
  {
    var i := 0;
    while i < |nqs|
      invariant 0 <= i <= |nqs|
      invariant forall k :: i <= k < |nqs| && nqs[k] !in nqs[..i] ==> Kept(nqs[k])
      invariant forall k :: 0 <= k < i ==>
        Substituted(nqs[k], varUids) && Sliceable(old(nqs[k].subject)) && Sliceable(old(nqs[k].objectId))
    {
      var nq := nqs[i];
      if nq in nqs[..i] {
        SubstitutionIsIdempotent(old(nq.subject), varUids);
        SubstitutionIsIdempotent(old(nq.objectId), varUids);
      }
      var fine := SubstituteInNQuad(nq, varUids);
      if !fine { return false; }
      i := i + 1;
    }
    return true;
  }

  lemma NothingToSubstitute(varUids: map<string, string>)
    ensures SubstituteInString("", varUids) == ""
  {
  }

  class Mutation {
    var setJson: string
    var deleteJson: string
    var sets: seq<NQuad>
    var dels: seq<NQuad>

    constructor (setJson: string, deleteJson: string, sets: seq<NQuad>, dels: seq<NQuad>)
      ensures this.setJson == setJson && this.deleteJson == deleteJson && this.sets == sets && this.dels == dels
    {
      this.setJson, this.deleteJson, this.sets, this.dels := setJson, deleteJson, sets, dels;
    }

    /** Rewrites both JSON texts and every N-Quad, unless an id makes it panic on the way. */
    method SubstituteUidVars(varUids: map<string, string>) returns (ok: bool)
      requires Distinct(sets + dels) || PlainUids(varUids)
      modifies `setJson, `deleteJson, sets, dels
      ensures setJson == SubstituteInString(old(setJson), varUids)
      ensures deleteJson == SubstituteInString(old(deleteJson), varUids)
      ensures ok <==> forall nq :: nq in sets + dels ==> Sliceable(old(nq.subject)) && Sliceable(old(nq.objectId))
      ensures ok ==> forall nq :: nq in sets + dels ==> Substituted(nq, varUids)
    {
      hide SubstituteInString, SubstitutedId;
      NothingToSubstitute(varUids);
      if |setJson| > 0 { setJson := SubstituteInString(setJson, varUids); }
      if |deleteJson| > 0 { deleteJson := SubstituteInString(deleteJson, varUids); }
      ok := SubstituteInNQuads(sets + dels, varUids);
    }
  }
}
