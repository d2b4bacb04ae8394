/**
 The key renaming on text. Blocks arrive as JSON text, and the walk tells arrays from objects by the first
 character that is not white space. The grammar of RFC 8259 says that this is right.
 */
module RemapText {
  import opened Basics
  import opened KeyRemap

  /** White space of section 2 of RFC 8259. */
  predicate IsSpace(c: char) {
    c == ' ' || c == '\t' || c == '\n' || c == '\r'
  }

  predicate Blank(s: string) {
    forall i :: 0 <= i < |s| ==> s[i] as int in {0x20, 0x09, 0x0A, 0x0D}
  }

  /** c is the first character of b that counts. */
  predicate Starts(b: string, c: char) {
    exists i :: 0 <= i < |b| && Blank(b[..i]) && !IsSpace(b[i]) && c == b[i]
  }

  method FirstNonSpace(b: string) returns (c: char)
    ensures Blank(b) ==> c == 0 as char
    ensures !Blank(b) ==> Starts(b, c)
  {
    var i := 0;
    while i < |b|
      invariant 0 <= i <= |b| && Blank(b[..i])
    {
      if !IsSpace(b[i]) { return b[i]; }
      i := i + 1;
    }
    assert b[..|b|] == b;
    return 0 as char;
  }

  // ---------------------------------------------------------------- JSON text: RFC 8259, sections 2 to 7

  /** A string, a number, true, false or null starts with one of these. */
  predicate OpensScalar(c: char) {
    c == '"' || c == '-' || '0' <= c <= '9' || c == 't' || c == 'f' || c == 'n'
  }

  /** s is a text of j: its value between white space. */
  ghost predicate JsonText(s: string, j: Json)
    decreases j, 2, 0
  {
    exists lead, body, trail ::
      s == lead + body + trail && Blank(lead) && Blank(trail) && ValueText(body, j)
  }

  ghost predicate ValueText(body: string, j: Json)
    decreases j, 1, 0
  {
    match j
    case Scalar(text) => body == text && text != "" && OpensScalar(text[0])
    case Arr(_) => exists inner :: body == "[" + inner + "]" && ElementsText(inner, j, 0)
    case Obj(members) =>
      exists inner, keys ::
        body == "{" + inner + "}" && Lists(keys, members.Keys) && MembersText(inner, j, keys, 0)
  }

  /** The elements from number i on, between commas. */
  ghost predicate ElementsText(inner: string, j: Json, i: nat)
    requires j.Arr? && i <= |j.items|
    decreases j, 0, |j.items| - i
  {
    if i == |j.items| then Blank(inner)
    else if i + 1 == |j.items| then JsonText(inner, j.items[i])
    else exists a, b :: inner == a + "," + b && JsonText(a, j.items[i]) && ElementsText(b, j, i + 1)
  }

  /** keys lists the set, each key once, in the order of the text. */
  ghost predicate Lists(keys: seq<string>, s: set<string>) {
    (set k | k in keys) == s && |keys| == |s|
  }

  ghost predicate MembersText(inner: string, j: Json, keys: seq<string>, i: nat)
    requires j.Obj? && Lists(keys, j.members.Keys) && i <= |keys|
    decreases j, 0, |keys| - i
  {
    if i == |keys| then Blank(inner)
    else if i + 1 == |keys| then MemberText(inner, j, keys[i])
    else exists a, b :: inner == a + "," + b && MemberText(a, j, keys[i]) && MembersText(b, j, keys, i + 1)
  }

  ghost predicate MemberText(s: string, j: Json, key: string)
    requires j.Obj? && key in j.members
    decreases j, 0, 0
  {
    exists name, value :: s == name + ":" + value && NameText(name, key) && JsonText(value, j.members[key])
  }

  /** A quoted name; what escapes stand for is not spelled out. */
  ghost predicate NameText(s: string, key: string) {
    exists lead, quoted, trail ::
      s == lead + "\"" + quoted + "\"" + trail && Blank(lead) && Blank(trail) && Spells(quoted, key)
  }

  predicate Spells(quoted: string, key: string) {
    '\\' in quoted || (quoted == key && '"' !in quoted)
  }

  /** The first character of a value tells arrays and objects from everything else. */
  lemma ValueStarts(body: string, j: Json)
    requires ValueText(body, j)
    ensures body != "" && !IsSpace(body[0]) && (body[0] == '[' <==> j.Arr?) && (body[0] == '{' <==> j.Obj?)
  {
    hide ElementsText, MembersText, Lists;
    match j
    case Scalar(_) =>
    case Arr(_) =>
      var inner :| body == "[" + inner + "]" && ElementsText(inner, j, 0);
    case Obj(_) => ObjStarts(body, j);
  }

  lemma ObjStarts(body: string, j: Json)
    requires ValueText(body, j) && j.Obj?
    ensures body != "" && body[0] == '{'
  {
  }

  /** On every text of a JSON value, dispatching on its first visible character is dispatching on the value. */
  lemma DispatchAgrees(b: string, j: Json, c: char)
    requires JsonText(b, j) && Starts(b, c)
    ensures (c == '[' <==> j.Arr?) && (c == '{' <==> j.Obj?)
  {
    hide ValueText;
    var lead, body, trail :| b == lead + body + trail && Blank(lead) && Blank(trail) && ValueText(body, j);
    ValueStarts(body, j);
    var i :| 0 <= i < |b| && Blank(b[..i]) && !IsSpace(b[i]) && c == b[i];
    var k := |lead|;
    assert b[..k] == lead && b[k] == body[0];
    assert forall m :: 0 <= m < i ==> b[..i][m] == b[m];
    assert forall m :: 0 <= m < k ==> lead[m] == b[m];
    assert i == k;
  }

  /** The decoder: what it accepts it reads as the grammar does. */
  ghost predicate Decodes(parse: string -> Option<Json>) {
    forall s :: parse(s).Some? ==> JsonText(s, parse(s).value)
  }

  /**
   remapPredicateKeys on the text of a block. A block that looks like an array or an object and is none is
   reported (None); anything else that is not one of them passes through untouched.
   */
  method RemapBlock(data: string, t: GoType, types: Types, parse: string -> Option<Json>, marshal: Json -> string)
      returns (r: Option<string>)
    requires Decodes(parse)
    ensures !Elem(t).Struct? || !(Starts(data, '[') || Starts(data, '{')) ==> r == Some(data)
    ensures Elem(t).Struct? && (Starts(data, '[') || Starts(data, '{')) ==> (r.None? <==> parse(data).None?)
    ensures Elem(t).Struct? && parse(data).Some? && !parse(data).value.Scalar? ==>
              exists j :: Remapped(parse(data).value, j, t, types) && r == Some(marshal(j))
  {
    hide JsonText, Remapped;
    var dst := GetElemType(t);
    var c := FirstNonSpace(data);
    if Blank(data) { NothingStarts(data); } else { StartsOnce(data, c); }
    if parse(data).Some? { TextStarts(data, parse(data).value, c); }
    if !dst.Struct? { return Some(data); }
    if c == '[' || c == '{' {
      match parse(data) {
        case None => return None;
        case Some(j) =>
          var out;
          if c == '[' { out := RemapArray(j, t, types); } else { out := RemapObject(j, t, types); }
          return Some(marshal(out));
      }
    }
    return Some(data);
  }

  lemma NothingStarts(b: string)
    requires Blank(b)
    ensures forall c :: !Starts(b, c)
  {
  }

  lemma StartsOnce(b: string, c: char)
    requires Starts(b, c)
    ensures forall d :: Starts(b, d) ==> d == c
  {
    var i :| 0 <= i < |b| && Blank(b[..i]) && !IsSpace(b[i]) && c == b[i];
    forall d | Starts(b, d) ensures d == c {
      var k :| 0 <= k < |b| && Blank(b[..k]) && !IsSpace(b[k]) && d == b[k];
      assert forall m :: 0 <= m < i ==> b[..i][m] == b[m];
      assert forall m :: 0 <= m < k ==> b[..k][m] == b[m];
      assert i == k;
    }
  }

  lemma TextStarts(b: string, j: Json, c: char)
    requires JsonText(b, j) && (!Blank(b) ==> Starts(b, c))
    ensures !Blank(b) && (c == '[' <==> j.Arr?) && (c == '{' <==> j.Obj?)
  {
    hide ValueText;
    var lead, body, trail :| b == lead + body + trail && Blank(lead) && Blank(trail) && ValueText(body, j);
    ValueStarts(body, j);
    assert b[|lead|] == body[0];
    DispatchAgrees(b, j, c);
  }
}
