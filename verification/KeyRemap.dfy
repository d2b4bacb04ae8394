/**
 MultiQuery decodes rows itself, so it renames the predicate keys of a JSON response to the JSON tags of
 the Go types, following the types into nested edges. Types may be recursive; the walk ends because the
 JSON does. JSON objects are Go maps here, so members are visited in any order.
 */
module KeyRemap {

  /** Scalar holds the text of a string, number, literal or null. */
  datatype Json = Scalar(text: string) | Arr(items: seq<Json>) | Obj(members: map<string, Json>)

  /** Plain: everything that is neither pointer, slice, array nor struct. Structs are named. */
  datatype GoType = Pointer(elem: GoType) | Slice(elem: GoType) | Array(elem: GoType) | Struct(name: string) | Plain

  /** A struct field: its json tag, and its dgraph tag cut at whitespace. */
  datatype Field = Field(goName: string, jsonTag: string, dgraphTag: seq<string>, typ: GoType)

  type Types = map<string, seq<Field>>

  const PREDICATE := "predicate="

  // ---------------------------------------------------------------- tags

  /** The part of the json tag before the first comma. */
  function UpToComma(s: string): string {
    if s == "" || s[0] == ',' then "" else [s[0]] + UpToComma(s[1..])
  }

  /** The field has a JSON name of its own. */
  predicate Named(f: Field) {
    f.jsonTag != "" && f.jsonTag != "-" && UpToComma(f.jsonTag) != ""
  }

  function TagOf(f: Field): string {
    UpToComma(f.jsonTag)
  }

  /** What follows the first "predicate=" part of the dgraph tag. */
  function TaggedPredicate(parts: seq<string>): string {
    if parts == [] then ""
    else if PREDICATE <= parts[0] then parts[0][|PREDICATE|..]
    else TaggedPredicate(parts[1..])
  }

  /** The predicate a named field is stored under. */
  function PredOf(f: Field): string {
    if TaggedPredicate(f.dgraphTag) == "" then TagOf(f) else TaggedPredicate(f.dgraphTag)
  }

  /** The renaming leaves these two alone, whatever the field is called. */
  predicate Reserved(pred: string) {
    pred == "uid" || pred == "dgraph.type"
  }

  predicate Renamed(f: Field) {
    Named(f) && TaggedPredicate(f.dgraphTag) != "" && PredOf(f) != TagOf(f) && !Reserved(PredOf(f))
  }

  function PredMap(fs: seq<Field>): map<string, string> {
    if fs == [] then map[] else
      var (init, f) := (fs[..|fs| - 1], fs[|fs| - 1]);
      if Renamed(f) then PredMap(init)[PredOf(f) := TagOf(f)] else PredMap(init)
  }

  function FieldTypes(fs: seq<Field>): map<string, GoType> {
    if fs == [] then map[] else
      var (init, f) := (fs[..|fs| - 1], fs[|fs| - 1]);
      if Named(f) then FieldTypes(init)[TagOf(f) := f.typ] else FieldTypes(init)
  }

  function FieldsOf(types: Types, name: string): seq<Field> {
    if name in types then types[name] else []
  }

  function Elem(t: GoType): GoType {
    if t.Pointer? || t.Slice? || t.Array? then Elem(t.elem) else t
  }

  method TaggedPart(parts: seq<string>) returns (pred: string)
    ensures pred == TaggedPredicate(parts)
  {
    pred := "";
    var i := 0;
    while i < |parts|
      invariant 0 <= i <= |parts| && pred == "" && TaggedPredicate(parts) == TaggedPredicate(parts[i..])
    {
      if PREDICATE <= parts[i] {
        return parts[i][|PREDICATE|..];
      }
      assert parts[i..][1..] == parts[i + 1..];
      i := i + 1;
    }
  }

  method BuildPredicateToJsonMap(fs: seq<Field>) returns (result: map<string, string>)
    ensures result == PredMap(fs)
  {
    result := map[];
    var i := 0;
    while i < |fs|
      invariant 0 <= i <= |fs| && result == PredMap(fs[..i])
    {
      var f := fs[i];
      assert fs[..i + 1][..i] == fs[..i];
      i := i + 1;
      if f.jsonTag == "" || f.jsonTag == "-" { continue; }
      var jsonName := UpToComma(f.jsonTag);
      if jsonName == "" { continue; }
      if f.dgraphTag == [] { continue; }
      var predName := TaggedPart(f.dgraphTag);
      if predName == "" || predName == jsonName { continue; }
      if predName == "uid" || predName == "dgraph.type" { continue; }
      result := result[predName := jsonName];
    }
    assert fs[..|fs|] == fs;
  }

  method BuildFieldTypeMap(fs: seq<Field>) returns (result: map<string, GoType>)
    ensures result == FieldTypes(fs)
  {
    result := map[];
    var i := 0;
    while i < |fs|
      invariant 0 <= i <= |fs| && result == FieldTypes(fs[..i])
    {
      var f := fs[i];
      assert fs[..i + 1][..i] == fs[..i];
      i := i + 1;
      if f.jsonTag == "" || f.jsonTag == "-" { continue; }
      var jsonName := UpToComma(f.jsonTag);
      if jsonName == "" { continue; }
      result := result[jsonName := f.typ];
    }
    assert fs[..|fs|] == fs;
  }

  method GetElemType(t: GoType) returns (r: GoType)
    ensures r == Elem(t) && !r.Pointer? && !r.Slice? && !r.Array?
  {
    r := t;
    while r.Pointer? || r.Slice? || r.Array?
      invariant Elem(r) == Elem(t)
      decreases r
    {
      r := r.elem;
    }
  }

  // ---------------------------------------------------------------- the walk

  function NewKey(fs: seq<Field>, key: string): string {
    if key in PredMap(fs) then PredMap(fs)[key] else key
  }

  /** r is a result of remapping j at type t. Where two keys get the same name, either value may stay. */
  ghost predicate Remapped(j: Json, r: Json, t: GoType, types: Types)
    decreases j, 1
  {
    if !Elem(t).Struct? then r == j else
      match j
      case Scalar(_) => r == j
      case Arr(items) =>
        r.Arr? && |r.items| == |items| && forall i :: 0 <= i < |items| ==> Remapped(items[i], r.items[i], t, types)
      case Obj(members) => r.Obj? && MembersRemapped(j, r.members, FieldsOf(types, Elem(t).name), types)
  }

  ghost predicate MembersRemapped(j: Json, out: map<string, Json>, fs: seq<Field>, types: Types)
    requires j.Obj?
    decreases j, 0
  {
    && (forall k :: k in j.members ==> NewKey(fs, k) in out)
    && forall nk :: nk in out ==>
         exists k :: k in j.members && NewKey(fs, k) == nk && ValueRemapped(j, k, out[nk], fs, types)
  }

  ghost predicate ValueRemapped(j: Json, k: string, v: Json, fs: seq<Field>, types: Types)
    requires j.Obj? && k in j.members
    decreases j, -1
  {
    var nk := NewKey(fs, k);
    if nk in FieldTypes(fs) && Elem(FieldTypes(fs)[nk]).Struct?
    then Remapped(j.members[k], v, FieldTypes(fs)[nk], types)
    else v == j.members[k]
  }

  method RemapPredicateKeys(j: Json, t: GoType, types: Types) returns (r: Json)
    ensures Remapped(j, r, t, types)
    decreases j, 1
  {
    var dst := GetElemType(t);
    if !dst.Struct? { return j; }
    match j
    case Scalar(_) => r := j;
    case Arr(_) => r := RemapArray(j, t, types);
    case Obj(_) => r := RemapObject(j, t, types);
  }

  method RemapArray(j: Json, t: GoType, types: Types) returns (r: Json)
    requires j.Arr? && Elem(t).Struct?
    ensures Remapped(j, r, t, types)
    decreases j, 0
  {
    var n := |j.items|;
    var arr := new Json[n](i requires 0 <= i < n => j.items[i]);
    var i := 0;
    while i < n
      invariant 0 <= i <= n
      invariant forall k :: 0 <= k < i ==> Remapped(j.items[k], arr[k], t, types)
      invariant forall k :: i <= k < n ==> arr[k] == j.items[k]
    {
      arr[i] := RemapPredicateKeys(arr[i], t, types);
      i := i + 1;
    }
    r := Arr(arr[..]);
  }

  method RemapObject(j: Json, t: GoType, types: Types) returns (r: Json)
    requires j.Obj? && Elem(t).Struct?
    ensures Remapped(j, r, t, types)
    decreases j, 0
  {
    var fs := FieldsOf(types, Elem(t).name);
    var predMap := BuildPredicateToJsonMap(fs);
    var fieldTypes := BuildFieldTypeMap(fs);
    var remapped: map<string, Json> := map[];
    var rest := j.members.Keys;
    while rest != {}
      invariant rest <= j.members.Keys
      invariant forall k :: k in j.members && k !in rest ==> NewKey(fs, k) in remapped
      invariant forall nk :: nk in remapped ==> Source(j, remapped, nk, rest, fs, types)
      decreases rest
    {
      var key :| key in rest;
      rest := rest - {key};
      var val := j.members[key];
      var newKey := if key in predMap then predMap[key] else key;
      if newKey in fieldTypes {
        var elem := GetElemType(fieldTypes[newKey]);
        if elem.Struct? {
          val := RemapPredicateKeys(val, fieldTypes[newKey], types);
        }
      }
      assert ValueRemapped(j, key, val, fs, types);
      remapped := remapped[newKey := val];
    }
    r := Obj(remapped);
  }

  ghost predicate Source(j: Json, out: map<string, Json>, nk: string, rest: set<string>, fs: seq<Field>, types: Types)
    requires j.Obj? && nk in out
  {
    exists k :: k in j.members && k !in rest && NewKey(fs, k) == nk && ValueRemapped(j, k, out[nk], fs, types)
  }

  // ---------------------------------------------------------------- values and their two encodings

  /** A value of a Go type: a record holds its fields by Go name, absent ones omitted. */
  datatype Val = Leaf(json: Json) | List(vals: seq<Val>) | Record(fields: map<string, Val>)

  /** No two named fields share a Go name, a JSON tag or a predicate. */
  ghost predicate Distinct(fs: seq<Field>) {
    forall i, j :: 0 <= i < j < |fs| && Named(fs[i]) && Named(fs[j]) ==>
      fs[i].goName != fs[j].goName && TagOf(fs[i]) != TagOf(fs[j]) && PredOf(fs[i]) != PredOf(fs[j])
  }

  ghost predicate DistinctTypes(types: Types) {
    forall name :: name in types ==> Distinct(types[name])
  }

  /** The field of that Go name. */
  predicate Is(f: Field, fs: seq<Field>, goName: string) {
    f in fs && Named(f) && f.goName == goName
  }

  /** v is a value of type t. Records have named fields only; below other types nothing is keyed. */
  ghost predicate Typed(v: Val, t: GoType, types: Types)
    decreases v
  {
    if !Elem(t).Struct? then v.Leaf? else
      match v
      case Leaf(j) => j.Scalar?
      case List(vals) => forall i :: 0 <= i < |vals| ==> Typed(vals[i], t, types)
      case Record(fields) =>
        forall g :: g in fields ==>
          exists f :: Is(f, FieldsOf(types, Elem(t).name), g) && Typed(fields[g], f.typ, types)
  }

  /** The field is written: it has a name and the value has it. */
  predicate Present(f: Field, fields: map<string, Val>) {
    Named(f) && f.goName in fields
  }

  function Keys(fs: seq<Field>, fields: map<string, Val>, key: Field -> string): set<string> {
    set f | f in fs && Present(f, fields) :: key(f)
  }

  function FieldFor(fs: seq<Field>, fields: map<string, Val>, key: Field -> string, k: string): (f: Field)
    requires k in Keys(fs, fields, key)
    ensures f in fs && Present(f, fields) && key(f) == k
  {
    if Present(fs[0], fields) && key(fs[0]) == k then fs[0] else
      assert k in Keys(fs[1..], fields, key);
      FieldFor(fs[1..], fields, key, k)
  }

  /** The JSON of v, its fields keyed as key says. */
  function Encode(v: Val, t: GoType, types: Types, key: Field -> string): Json
    decreases v
  {
    match v
    case Leaf(j) => j
    case List(vals) => Arr(seq(|vals|, i requires 0 <= i < |vals| => Encode(vals[i], t, types, key)))
    case Record(fields) =>
      var fs := if Elem(t).Struct? then FieldsOf(types, Elem(t).name) else [];
      Obj(map k | k in Keys(fs, fields, key) ::
            var f := FieldFor(fs, fields, key, k); Encode(fields[f.goName], f.typ, types, key))
  }

  /** The renaming reaches the field, or the field needs none. */
  predicate Renamable(f: Field) {
    PredOf(f) == TagOf(f) || !Reserved(PredOf(f))
  }

  ghost predicate AllRenamable(types: Types) {
    forall name, f :: name in types && f in types[name] && Named(f) ==> Renamable(f)
  }

  // ---------------------------------------------------------------- what the renaming does to a field

  lemma {:induction false} PredMapAt(fs: seq<Field>, f: Field)
    requires Distinct(fs) && f in fs && Named(f)
    ensures PredOf(f) in PredMap(fs) <==> Renamed(f)
    ensures Renamed(f) ==> PredMap(fs)[PredOf(f)] == TagOf(f)
  {
    var n := |fs| - 1;
    var init := fs[..n];
    var i :| 0 <= i <= n && fs[i] == f;
    if i < n {
      assert init[i] == f;
      PredMapAt(init, f);
    } else {
      forall k | k in PredMap(init) ensures k != PredOf(f) { PredMapSource(init, k); }
    }
  }

  lemma {:induction false} PredMapSource(fs: seq<Field>, k: string)
    requires k in PredMap(fs)
    ensures exists i :: 0 <= i < |fs| && Renamed(fs[i]) && PredOf(fs[i]) == k
  {
    var n := |fs| - 1;
    if !(Renamed(fs[n]) && PredOf(fs[n]) == k) {
      PredMapSource(fs[..n], k);
      var i :| 0 <= i < n && Renamed(fs[..n][i]) && PredOf(fs[..n][i]) == k;
      assert Renamed(fs[i]);
    }
  }

  lemma {:induction false} FieldTypesAt(fs: seq<Field>, f: Field)
    requires Distinct(fs) && f in fs && Named(f)
    ensures TagOf(f) in FieldTypes(fs) && FieldTypes(fs)[TagOf(f)] == f.typ
  {
    var n := |fs| - 1;
    var i :| 0 <= i <= n && fs[i] == f;
    if i < n {
      assert fs[..n][i] == f;
      FieldTypesAt(fs[..n], f);
    }
  }

  /** With distinct predicates a field's key becomes its tag exactly when the field is renamable. */
  lemma KeyBecomesTagIff(fs: seq<Field>, f: Field)
    requires Distinct(fs) && f in fs && Named(f)
    ensures NewKey(fs, PredOf(f)) == TagOf(f) <==> Renamable(f)
  {
    PredMapAt(fs, f);
  }

  /** Distinct named fields have distinct tags and predicates. */
  lemma SameField(fs: seq<Field>, f: Field, g: Field)
    requires Distinct(fs) && f in fs && g in fs && Named(f) && Named(g)
    requires f.goName == g.goName || TagOf(f) == TagOf(g) || PredOf(f) == PredOf(g)
    ensures f == g
  {
    var i :| 0 <= i < |fs| && fs[i] == f;
    var j :| 0 <= j < |fs| && fs[j] == g;
  }

  lemma RecordKeys(v: Val, t: GoType, types: Types, key: Field -> string)
    requires v.Record? && Elem(t).Struct?
    ensures var j := Encode(v, t, types, key);
            j.Obj? && j.members.Keys == Keys(FieldsOf(types, Elem(t).name), v.fields, key)
  {
  }

  lemma RecordMember(v: Val, t: GoType, types: Types, key: Field -> string, f: Field)
    requires v.Record? && Elem(t).Struct?
    requires var fs := FieldsOf(types, Elem(t).name);
             f in fs && Present(f, v.fields)
             && forall g :: g in fs && Present(g, v.fields) && key(g) == key(f) ==> g == f
    ensures var j := Encode(v, t, types, key);
            j.Obj? && key(f) in j.members && j.members[key(f)] == Encode(v.fields[f.goName], f.typ, types, key)
  {
    assert key(f) in Keys(FieldsOf(types, Elem(t).name), v.fields, key);
  }

  // ---------------------------------------------------------------- tags as they are written

  lemma {:induction false} CutAtComma(name: string, options: string)
    requires ',' !in name
    ensures UpToComma(name) == name && UpToComma(name + "," + options) == name
  {
    if name == "" {
      assert (name + "," + options)[0] == ',';
    } else {
      CutAtComma(name[1..], options);
      assert (name + "," + options)[1..] == name[1..] + "," + options;
    }
  }

  lemma {:induction false} FirstPart(before: seq<string>, pred: string, after: seq<string>)
    requires forall i :: 0 <= i < |before| ==> !("predicate=" <= before[i])
    ensures TaggedPredicate(before) == "" && TaggedPredicate(before + ["predicate=" + pred] + after) == pred
  {
    var parts := before + ["predicate=" + pred] + after;
    if before == [] {
      assert parts[0] == "predicate=" + pred;
    } else {
      FirstPart(before[1..], pred, after);
      assert parts[1..] == before[1..] + ["predicate=" + pred] + after;
    }
  }

  /** f carries the tags json:"name" or json:"name,options", and dgraph:"... predicate=pred ...", the first such part. */
  predicate TaggedAs(f: Field, name: string, options: string, before: seq<string>, pred: string, after: seq<string>) {
    && name != "" && ',' !in name
    && (f.jsonTag == name || f.jsonTag == name + "," + options) && f.jsonTag != "-"
    && f.dgraphTag == before + ["predicate=" + pred] + after
    && forall i :: 0 <= i < |before| ==> !("predicate=" <= before[i])
  }

  /**
   What the two maps hold for a field as its tags are written: the predicate leads to the name, options cut
   off, unless it is empty, the name itself, uid or dgraph.type; and the name to the field's type.
   */
  lemma MapsOfTaggedField(fs: seq<Field>, f: Field, name: string, options: string,
                          before: seq<string>, pred: string, after: seq<string>)
    requires Distinct(fs) && f in fs && TaggedAs(f, name, options, before, pred, after)
    ensures name in FieldTypes(fs) && FieldTypes(fs)[name] == f.typ
    ensures pred != "" && pred != name && pred != "uid" && pred != "dgraph.type" ==>
              pred in PredMap(fs) && PredMap(fs)[pred] == name
    ensures pred == "uid" || pred == "dgraph.type" ==> pred !in PredMap(fs)
    ensures pred == "" || pred == name ==> name !in PredMap(fs)
  {
    CutAtComma(name, options);
    FirstPart(before, pred, after);
    PredMapAt(fs, f);
    FieldTypesAt(fs, f);
  }

  /** A named field without a predicate of its own is stored under its name. */
  lemma UntaggedField(f: Field, name: string, options: string)
    requires name != "" && ',' !in name && f.jsonTag != "-" && (f.jsonTag == name || f.jsonTag == name + "," + options)
    requires forall i :: 0 <= i < |f.dgraphTag| ==> !("predicate=" <= f.dgraphTag[i])
    ensures Named(f) && TagOf(f) == name && PredOf(f) == name
  {
    CutAtComma(name, options);
    FirstPart(f.dgraphTag, "", []);
  }

  /** A field without a json tag, with json:"-", or without a name before its options is in neither map. */
  lemma UnnamedFieldAddsNothing(fs: seq<Field>, f: Field, options: string)
    requires f.jsonTag == "" || f.jsonTag == "-" || f.jsonTag == "," + options
    ensures PredMap(fs + [f]) == PredMap(fs) && FieldTypes(fs + [f]) == FieldTypes(fs)
  {
    assert (fs + [f])[..|fs|] == fs;
    CutAtComma("", options);
    assert "" + "," + options == "," + options;
  }

  // ---------------------------------------------------------------- the theorem

  /**
   For any set of possibly recursive struct types with distinct tags and predicates, the walk turns the
   predicate-keyed JSON of every value into its tag-keyed JSON, at every depth.
   */
  lemma {:induction false} RemapMakesTagEncoding(v: Val, t: GoType, types: Types, r: Json)
    requires DistinctTypes(types) && AllRenamable(types) && Typed(v, t, types)
    requires Remapped(Encode(v, t, types, PredOf), r, t, types)
    ensures r == Encode(v, t, types, TagOf)
    decreases v
  {
    if Elem(t).Struct? {
      match v
      case Leaf(_) =>
      case List(vals) =>
        forall i | 0 <= i < |vals| ensures r.items[i] == Encode(vals[i], t, types, TagOf) {
          RemapMakesTagEncoding(vals[i], t, types, r.items[i]);
        }
      case Record(fields) => RecordBecomesTagged(v, t, types, r);
    }
  }

  lemma {:induction false} RecordBecomesTagged(v: Val, t: GoType, types: Types, r: Json)
    requires DistinctTypes(types) && AllRenamable(types) && Typed(v, t, types) && v.Record? && Elem(t).Struct?
    requires Remapped(Encode(v, t, types, PredOf), r, t, types)
    ensures r == Encode(v, t, types, TagOf)
    decreases v, 0
  {
    hide Encode, Typed, Remapped, ValueRemapped, MembersRemapped, DistinctTypes, AllRenamable, FieldsOf, NewKey, Keys;
    var fs := FieldsOf(types, Elem(t).name);
    RecordKeys(v, t, types, PredOf);
    RecordKeys(v, t, types, TagOf);
    var j, w := Encode(v, t, types, PredOf), Encode(v, t, types, TagOf);
    ObjectRemapped(j, r, t, types);
    TagsCovered(v, t, types, r.members);
    forall k | k in r.members ensures k in w.members && r.members[k] == w.members[k] {
      var p := KeySource(j, r.members, fs, types, k);
      FieldBecomesTagged(v, t, types, p, r.members[k]);
    }
    assert r.members == w.members;
  }

  lemma KeySource(j: Json, out: map<string, Json>, fs: seq<Field>, types: Types, nk: string) returns (k: string)
    requires j.Obj? && MembersRemapped(j, out, fs, types) && nk in out
    ensures k in j.members && NewKey(fs, k) == nk && ValueRemapped(j, k, out[nk], fs, types)
  {
    k :| k in j.members && NewKey(fs, k) == nk && ValueRemapped(j, k, out[nk], fs, types);
  }

  /** Every tag of the record is among the new keys. */
  lemma TagsCovered(v: Val, t: GoType, types: Types, out: map<string, Json>)
    requires DistinctTypes(types) && AllRenamable(types) && v.Record? && Elem(t).Struct?
    requires var j := Encode(v, t, types, PredOf); j.Obj? && MembersRemapped(j, out, FieldsOf(types, Elem(t).name), types)
    ensures Encode(v, t, types, TagOf).Obj?
    ensures forall k :: k in Encode(v, t, types, TagOf).members ==> k in out
  {
    hide Encode, DistinctTypes, AllRenamable, FieldsOf, NewKey, ValueRemapped, PredOf, TagOf;
    var fs := FieldsOf(types, Elem(t).name);
    RecordKeys(v, t, types, PredOf);
    RecordKeys(v, t, types, TagOf);
    forall k | k in Encode(v, t, types, TagOf).members ensures k in out {
      var f := FieldFor(fs, v.fields, TagOf, k);
      RenamableHere(types, t, f);
      assert PredOf(f) in Keys(fs, v.fields, PredOf);
    }
  }

  lemma ObjectRemapped(j: Json, r: Json, t: GoType, types: Types)
    requires j.Obj? && Elem(t).Struct? && Remapped(j, r, t, types)
    ensures r.Obj? && MembersRemapped(j, r.members, FieldsOf(types, Elem(t).name), types)
  {
  }

  lemma RenamableHere(types: Types, t: GoType, f: Field)
    requires DistinctTypes(types) && AllRenamable(types) && Elem(t).Struct?
    requires f in FieldsOf(types, Elem(t).name) && Named(f)
    ensures NewKey(FieldsOf(types, Elem(t).name), PredOf(f)) == TagOf(f)
  {
    KeyBecomesTagIff(FieldsOf(types, Elem(t).name), f);
  }

  lemma {:induction false} FieldBecomesTagged(v: Val, t: GoType, types: Types, p: string, x: Json)
    requires DistinctTypes(types) && AllRenamable(types) && Typed(v, t, types) && v.Record? && Elem(t).Struct?
    requires p in Encode(v, t, types, PredOf).members
    requires ValueRemapped(Encode(v, t, types, PredOf), p, x, FieldsOf(types, Elem(t).name), types)
    ensures var (k, w) := (NewKey(FieldsOf(types, Elem(t).name), p), Encode(v, t, types, TagOf));
            k in w.members && x == w.members[k]
    decreases v, -1
  {
    var fs := FieldsOf(types, Elem(t).name);
    var f := FieldFor(fs, v.fields, PredOf, p);
    KeyBecomesTagIff(fs, f);
    FieldTypesAt(fs, f);
    assert TagOf(f) in Keys(fs, v.fields, TagOf);
    SameField(fs, f, FieldFor(fs, v.fields, TagOf, TagOf(f)));
    var g :| Is(g, fs, f.goName) && Typed(v.fields[f.goName], g.typ, types);
    SameField(fs, f, g);
    if Elem(f.typ).Struct? {
      RemapMakesTagEncoding(v.fields[f.goName], f.typ, types, x);
    }
  }

  /** Every result on every value is the tag-keyed encoding. */
  ghost predicate Correct(types: Types) {
    forall v, t, r :: Typed(v, t, types) && Remapped(Encode(v, t, types, PredOf), r, t, types) ==>
      r == Encode(v, t, types, TagOf)
  }

  /** The renaming is correct exactly when no field is stored under uid or dgraph.type with another tag. */
  lemma CorrectIffRenamable(types: Types)
    requires DistinctTypes(types)
    ensures Correct(types) <==> AllRenamable(types)
  {
    if AllRenamable(types) {
      forall v, t, r | Typed(v, t, types) && Remapped(Encode(v, t, types, PredOf), r, t, types)
        ensures r == Encode(v, t, types, TagOf)
      {
        RemapMakesTagEncoding(v, t, types, r);
      }
    } else {
      var name, f :| name in types && f in types[name] && Named(f) && !Renamable(f);
      var v, r := UnrenamableFails(types, name, f);
    }
  }

  lemma UnrenamableFails(types: Types, name: string, f: Field) returns (v: Val, r: Json)
    requires DistinctTypes(types) && name in types && f in types[name] && Named(f) && !Renamable(f)
    ensures Typed(v, Struct(name), types) && Remapped(Encode(v, Struct(name), types, PredOf), r, Struct(name), types)
    ensures r != Encode(v, Struct(name), types, TagOf)
  {
    hide Encode, Distinct, PredOf, TagOf, Renamable, PredMap, FieldTypes, Keys;
    var fs, x, p := types[name], Scalar("0"), PredOf(f);
    v := Record(map[f.goName := Leaf(x)]);
    assert Is(f, fs, f.goName) && Typed(v.fields[f.goName], f.typ, types);
    forall g | g in fs && Present(g, v.fields) ensures g == f { SameField(fs, f, g); }
    RecordMember(v, Struct(name), types, PredOf, f);
    RecordMember(v, Struct(name), types, TagOf, f);
    RecordKeys(v, Struct(name), types, PredOf);
    OneKey(fs, f, v.fields, PredOf);
    LeafEncodes(x, f.typ, types, PredOf);
    KeyBecomesTagIff(fs, f);
    NotRenamed(fs, f);
    var j := Encode(v, Struct(name), types, PredOf);
    r := Obj(map[p := x]);
    assert ValueRemapped(j, p, x, fs, types);
    assert MembersRemapped(j, r.members, fs, types);
  }

  lemma LeafEncodes(x: Json, t: GoType, types: Types, key: Field -> string)
    ensures Encode(Leaf(x), t, types, key) == x
  {
  }

  lemma NotRenamed(fs: seq<Field>, f: Field)
    requires Distinct(fs) && f in fs && Named(f) && !Renamable(f)
    ensures NewKey(fs, PredOf(f)) == PredOf(f)
  {
    PredMapAt(fs, f);
  }

  lemma OneKey(fs: seq<Field>, f: Field, fields: map<string, Val>, key: Field -> string)
    requires Distinct(fs) && f in fs && Named(f) && fields.Keys == {f.goName}
    ensures Keys(fs, fields, key) == {key(f)}
  {
    assert key(f) in Keys(fs, fields, key);
    forall g | g in fs && Present(g, fields) ensures g == f { SameField(fs, f, g); }
  }

  // ---------------------------------------------------------------- keys of arbitrary objects

  ghost predicate InjectiveOn(f: string -> string, s: set<string>) {
    forall a, b :: a in s && b in s && f(a) == f(b) ==> a == b
  }

  function Image(f: string -> string, s: set<string>): set<string> {
    set k | k in s :: f(k)
  }

  lemma {:induction false} ImageSize(f: string -> string, s: set<string>)
    ensures |Image(f, s)| <= |s| && (|Image(f, s)| == |s| <==> InjectiveOn(f, s))
    decreases |s|
  {
    if s != {} {
      var a :| a in s;
      var t := s - {a};
      ImageSize(f, t);
      assert Image(f, s) == Image(f, t) + {f(a)};
      if f(a) in Image(f, t) {
        var b :| b in t && f(b) == f(a);
        assert !InjectiveOn(f, s);
      } else if InjectiveOn(f, t) {
        assert forall x :: x in t ==> f(x) in Image(f, t);
        assert forall x :: x in s && f(x) == f(a) ==> x == a;
        assert InjectiveOn(f, s);
      }
    }
  }

  function Renamer(fs: seq<Field>): string -> string {
    k => NewKey(fs, k)
  }

  /** An object of any keys, declared or not, keeps their number exactly when no two get the same name. */
  lemma KeysKeptIff(j: Json, r: Json, t: GoType, types: Types)
    requires j.Obj? && Elem(t).Struct? && Remapped(j, r, t, types)
    ensures var rename := Renamer(FieldsOf(types, Elem(t).name));
            && r.Obj? && r.members.Keys == Image(rename, j.members.Keys)
            && (|r.members| == |j.members| <==> InjectiveOn(rename, j.members.Keys))
  {
    hide Remapped, Renamer, Image, InjectiveOn, FieldsOf, MembersRemapped;
    var fs := FieldsOf(types, Elem(t).name);
    ObjectRemapped(j, r, t, types);
    NewKeys(j, r.members, fs, types);
    ImageSize(Renamer(fs), j.members.Keys);
    SizeOf(r.members);
    SizeOf(j.members);
  }

  /**
   What passes through: a value that is no edge, declared or not, stays as it is under its new name, and an
   undeclared key keeps its name, as long as no other key gets that name.
   */
  lemma OtherValuesPass(j: Json, r: Json, t: GoType, types: Types, k: string)
    requires j.Obj? && Elem(t).Struct? && Remapped(j, r, t, types) && k in j.members
    requires var fs := FieldsOf(types, Elem(t).name);
             && (forall k' :: k' in j.members && NewKey(fs, k') == NewKey(fs, k) ==> k' == k)
             && (NewKey(fs, k) in FieldTypes(fs) ==> !Elem(FieldTypes(fs)[NewKey(fs, k)]).Struct?)
    ensures var (fs, nk) := (FieldsOf(types, Elem(t).name), NewKey(FieldsOf(types, Elem(t).name), k));
            && r.Obj? && nk in r.members && r.members[nk] == j.members[k]
            && nk == if k in PredMap(fs) then PredMap(fs)[k] else k
  {
    hide Remapped, MembersRemapped, PredMap, FieldTypes;
    var fs := FieldsOf(types, Elem(t).name);
    ObjectRemapped(j, r, t, types);
    NewKeyThere(j, r.members, fs, types, k);
    var k' := KeySource(j, r.members, fs, types, NewKey(fs, k));
  }

  lemma NewKeyThere(j: Json, out: map<string, Json>, fs: seq<Field>, types: Types, k: string)
    requires j.Obj? && MembersRemapped(j, out, fs, types) && k in j.members
    ensures NewKey(fs, k) in out
  {
  }

  lemma NewKeys(j: Json, out: map<string, Json>, fs: seq<Field>, types: Types)
    requires j.Obj? && MembersRemapped(j, out, fs, types)
    ensures out.Keys == Image(Renamer(fs), j.members.Keys)
  {
    hide NewKey, ValueRemapped;
  }

  lemma SizeOf(m: map<string, Json>)
    ensures |m| == |m.Keys|
  {
  }

  function NameField(): Field {
    Field("Name", "name", [PREDICATE + "resourceName"], Plain)
  }

  lemma NameFieldIs()
    ensures Named(NameField()) && TagOf(NameField()) == "name" && PredOf(NameField()) == "resourceName"
  {
    var n := "name";
    assert n[1..] == "ame" && n[1..][1..] == "me" && n[1..][1..][1..] == "e" && n[1..][1..][1..][1..] == "";
    assert UpToComma("e") == "e" && UpToComma("me") == "me" && UpToComma("ame") == "ame";
  }

  /** A predicate key beside an undeclared key of the tag's name: one value is lost, and either can be. */
  lemma CollisionLosesAValue(types: Types, a: Json, b: Json)
    requires types == map["Row" := [NameField()]]
    ensures var j := Obj(map["resourceName" := a, "name" := b]);
            && Remapped(j, Obj(map["name" := a]), Struct("Row"), types)
            && Remapped(j, Obj(map["name" := b]), Struct("Row"), types)
  {
    hide NameField, Named, TagOf, PredOf;
    NameFieldIs();
    var j, fs := Obj(map["resourceName" := a, "name" := b]), [NameField()];
    OneField(NameField());
    assert NewKey(fs, "resourceName") == "name" && NewKey(fs, "name") == "name";
    assert ValueRemapped(j, "resourceName", a, fs, types) && ValueRemapped(j, "name", b, fs, types);
  }

  lemma OneField(f: Field)
    requires Named(f) && PredOf(f) == "resourceName" && TagOf(f) == "name" && f == NameField()
    ensures PredMap([f]) == map["resourceName" := "name"] && FieldTypes([f]) == map["name" := Plain]
  {
    hide TagOf, Named;
    assert [f][..0] == [];
  }
}
