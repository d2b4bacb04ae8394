/**
 Leftmost, non-overlapping matching as Go's regexp does it. A matcher gives the length of its match at the
 start of a text, 0 for none. A text is cut into matches and single characters between them.
 */
module TextScan {

  datatype Seg = Lit(c: char) | Match(text: string)

  type Matcher = string -> nat

  /** A match is never longer than the text. */
  ghost predicate Bounded(m: Matcher) {
    forall s :: m(s) <= |s|
  }

  function Scan(m: Matcher, s: string): seq<Seg> {
    if s == "" then []
    else if 0 < m(s) <= |s| then [Match(s[..m(s)])] + Scan(m, s[m(s)..])
    else [Lit(s[0])] + Scan(m, s[1..])
  }

  function Write(g: Seg): string {
    match g
    case Lit(c) => [c]
    case Match(text) => text
  }

  function Print(segs: seq<Seg>): string {
    if segs == [] then "" else Write(segs[0]) + Print(segs[1..])
  }

  /** ReplaceAllStringFunc: characters stay, each match becomes f of it. */
  function ReplaceAll(m: Matcher, s: string, f: string -> string): string {
    Replaced(Scan(m, s), f)
  }

  function Replaced(segs: seq<Seg>, f: string -> string): string {
    if segs == [] then "" else
      (match segs[0] case Lit(c) => [c] case Match(text) => f(text)) + Replaced(segs[1..], f)
  }

  /** FindAllString */
  function FindAll(segs: seq<Seg>): seq<string> {
    if segs == [] then [] else
      (match segs[0] case Lit(_) => [] case Match(text) => [text]) + FindAll(segs[1..])
  }

  /** The matcher finds in the printed text exactly the matches of the list, where they stand. */
  predicate Canonical(m: Matcher, segs: seq<Seg>) {
    segs == [] ||
    (m(Print(segs)) == (match segs[0] case Lit(_) => 0 case Match(text) => |text|)
     && (segs[0].Match? ==> segs[0].text != "")
     && Canonical(m, segs[1..]))
  }

  lemma PrintCons(g: Seg, rest: seq<Seg>)
    ensures Print([g] + rest) == Write(g) + Print(rest)
  {
    assert ([g] + rest)[1..] == rest;
  }

  /** Cutting and printing give the text back. */
  lemma {:induction false} PrintScan(m: Matcher, s: string)
    ensures Print(Scan(m, s)) == s
    decreases |s|
  {
    if s != "" {
      var k := if 0 < m(s) <= |s| then m(s) else 1;
      var g := if 0 < m(s) <= |s| then Match(s[..k]) else Lit(s[0]);
      assert Scan(m, s) == [g] + Scan(m, s[k..]) && Write(g) == s[..k];
      hide Scan, Write;
      PrintScan(m, s[k..]);
      PrintCons(g, Scan(m, s[k..]));
      assert s[..k] + s[k..] == s;
    }
  }

  /** A list of pieces is the cut of its own text exactly when it is canonical. */
  lemma {:induction false} ScanPrintIff(m: Matcher, segs: seq<Seg>)
    requires Bounded(m)
    ensures Scan(m, Print(segs)) == segs <==> Canonical(m, segs)
  {
    if segs != [] {
      var s, g, rest := Print(segs), segs[0], segs[1..];
      ScanPrintIff(m, rest);
      if g.Match? && g.text == "" {
        // an empty match is never cut
        if s != "" { assert Scan(m, s)[0] != g; }
      } else {
        var n := |Write(g)|;
        assert s[n..] == Print(rest) && s[..n] == Write(g);
        if m(s) == (if g.Lit? then 0 else n) {
          assert Scan(m, s) == [g] + Scan(m, Print(rest));
          assert segs == [g] + rest;
        } else {
          assert Scan(m, s)[0] != g;
        }
      }
    }
  }
}
