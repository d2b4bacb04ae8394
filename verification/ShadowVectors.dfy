/**
 Text fields tagged for embedding have a shadow vector stored beside them. A single-shot write stages the
 texts of its structs and of the structs nested in them, embeds the texts of the top-level structs, stages
 the vectors, and commits all of it or none. Which batches keep text and vectors in agreement is decided
 exactly; over any run of such writes they stay in agreement.
 */
module ShadowVectors {
  import opened Basics

  /** A field tagged "embedding": its predicate, and the json and dgraph options that matter. */
  datatype Field = Field(attr: string, omitempty: bool, threshold: nat)

  /**
   A struct: what its UID field says after the mutation ("" when it has none), the node it is written to,
   its tagged fields and their texts, and the structs nested in it.
   */
  datatype Obj = Obj(uid: string, node: string, fields: seq<Field>, texts: seq<string>, children: seq<Obj>)

  type Key = (string, string)   // node and text predicate

  type Vector = seq<real>

  datatype Store = Store(text: map<Key, string>, vec: map<Key, Vector>)

  /** One text of one node; managed when the injection looks at it. */
  datatype Item = Item(node: string, field: Field, text: string, managed: bool)

  datatype SetVec = SetVec(key: Key, vec: Vector)

  // ---------------------------------------------------------------- one text

  datatype Verdict = Untouched | Remove | Embed

  /** Empty with omitempty is not sent at all; empty or short text has no vector. */
  function Judge(f: Field, text: string): Verdict {
    if text == "" && f.omitempty then Untouched
    else if text == "" || (f.threshold > 0 && |text| < f.threshold) then Remove
    else Embed
  }

  function VerdictOf(it: Item): Verdict {
    Judge(it.field, it.text)
  }

  function KeyOf(it: Item): Key {
    (it.node, it.field.attr)
  }

  // ---------------------------------------------------------------- a batch

  /** A text per field, and a UID field that names the node, at every depth. */
  predicate Shaped(objs: seq<Obj>) {
    forall i :: 0 <= i < |objs| ==> ShapedObj(objs[i])
  }

  predicate ShapedObj(o: Obj) {
    && |o.texts| == |o.fields| && (o.uid != "" ==> o.uid == o.node)
    && forall i :: 0 <= i < |o.children| ==> ShapedObj(o.children[i])
  }

  function Own(o: Obj, managed: bool): (items: seq<Item>)
    requires |o.texts| == |o.fields|
    ensures |items| == |o.fields|
  {
    seq(|o.fields|, j requires 0 <= j < |o.fields| => Item(o.node, o.fields[j], o.texts[j], managed))
  }

  /** The texts below the top level: written by the mutation, seen by nobody else. */
  function Nested(objs: seq<Obj>): seq<Item>
    requires Shaped(objs)
  {
    if objs == [] then [] else
      var o := objs[|objs| - 1];
      Nested(objs[..|objs| - 1]) + Own(o, false) + Nested(o.children)
  }

  /** All texts of the batch; a top-level struct is managed if it has a UID. */
  function Items(objs: seq<Obj>): seq<Item>
    requires Shaped(objs)
  {
    if objs == [] then [] else
      var o := objs[|objs| - 1];
      Items(objs[..|objs| - 1]) + Own(o, o.uid != "") + Nested(o.children)
  }

  /** Of an empty text with omitempty the JSON says nothing. */
  predicate Sent(it: Item) {
    !(it.text == "" && it.field.omitempty)
  }

  /** What the JSON mutation writes. */
  function Texts(items: seq<Item>): map<Key, string> {
    if items == [] then map[] else
      var it := items[|items| - 1];
      var before := Texts(items[..|items| - 1]);
      if Sent(it) then before[KeyOf(it) := it.text] else before
  }

  function Sets(items: seq<Item>, embed: string -> Vector): seq<SetVec> {
    if items == [] then [] else
      var it := items[|items| - 1];
      Sets(items[..|items| - 1], embed)
        + if it.managed && VerdictOf(it).Embed? then [SetVec(KeyOf(it), embed(it.text))] else []
  }

  function Dels(items: seq<Item>): seq<Key> {
    if items == [] then [] else
      var it := items[|items| - 1];
      Dels(items[..|items| - 1]) + if it.managed && VerdictOf(it).Remove? then [KeyOf(it)] else []
  }

  /** The provider turns down a text of the batch that it is asked for. */
  predicate Refuses(items: seq<Item>, fails: string -> bool) {
    exists i :: 0 <= i < |items| && items[i].managed && VerdictOf(items[i]).Embed? && fails(items[i].text)
  }

  /** The texts it is asked for are those that are to have a vector. */
  lemma RefusesIff(items: seq<Item>, fails: string -> bool)
    ensures Refuses(items, fails) <==>
            exists i :: 0 <= i < |items| && items[i].managed && HasVector(items[i].field, items[i].text) && fails(items[i].text)
  {
    forall i | 0 <= i < |items| ensures VerdictOf(items[i]).Embed? <==> HasVector(items[i].field, items[i].text) {
    }
  }

  lemma ItemsAppend(objs: seq<Obj>, i: nat)
    requires Shaped(objs) && i < |objs|
    ensures Items(objs[..i + 1]) == Items(objs[..i]) + Own(objs[i], objs[i].uid != "") + Nested(objs[i].children)
  {
    assert objs[..i + 1][..i] == objs[..i];
  }

  /** The lists built after the first texts, none of them refused. */
  ghost predicate SoFar(seen: seq<Item>, sets: seq<SetVec>, dels: seq<Key>,
                        embed: string -> Vector, fails: string -> bool) {
    sets == Sets(seen, embed) && dels == Dels(seen) && !Refuses(seen, fails)
  }

  lemma SoFarStep(seen: seq<Item>, sets: seq<SetVec>, dels: seq<Key>,
                  embed: string -> Vector, fails: string -> bool, it: Item)
    requires SoFar(seen, sets, dels, embed, fails)
    ensures if !it.managed then SoFar(seen + [it], sets, dels, embed, fails) else
            match VerdictOf(it)
            case Untouched => SoFar(seen + [it], sets, dels, embed, fails)
            case Remove => SoFar(seen + [it], sets, dels + [KeyOf(it)], embed, fails)
            case Embed => if fails(it.text) then Refuses(seen + [it], fails)
                          else SoFar(seen + [it], sets + [SetVec(KeyOf(it), embed(it.text))], dels, embed, fails)
  {
    assert (seen + [it])[..|seen|] == seen;
    assert (seen + [it])[|seen|] == it;
  }

  /** Texts the injection does not look at change nothing about its lists. */
  lemma {:induction false} UnmanagedAddNothing(seen: seq<Item>, more: seq<Item>, sets: seq<SetVec>, dels: seq<Key>,
                                               embed: string -> Vector, fails: string -> bool)
    requires SoFar(seen, sets, dels, embed, fails) && forall i :: 0 <= i < |more| ==> !more[i].managed
    ensures SoFar(seen + more, sets, dels, embed, fails)
  {
    hide SoFar;
    if more == [] {
      assert seen + more == seen;
    } else {
      var init, it := more[..|more| - 1], more[|more| - 1];
      UnmanagedAddNothing(seen, init, sets, dels, embed, fails);
      SoFarStep(seen + init, sets, dels, embed, fails, it);
      assert seen + init + [it] == seen + more;
    }
  }

  lemma {:induction false} NestedAreUnmanaged(objs: seq<Obj>)
    requires Shaped(objs)
    ensures forall i :: 0 <= i < |Nested(objs)| ==> !Nested(objs)[i].managed
    decreases objs
  {
    if objs != [] {
      NestedAreUnmanaged(objs[..|objs| - 1]);
      NestedAreUnmanaged(objs[|objs| - 1].children);
    }
  }

  /** A whole struct the injection skips, or what is nested in one it has looked at. */
  lemma RestOfObj(objs: seq<Obj>, i: nat, sets: seq<SetVec>, dels: seq<Key>, embed: string -> Vector, fails: string -> bool)
    requires Shaped(objs) && i < |objs|
    requires SoFar(Items(objs[..i]) + (if objs[i].uid == "" then [] else Own(objs[i], true)), sets, dels, embed, fails)
    ensures SoFar(Items(objs[..i + 1]), sets, dels, embed, fails)
  {
    hide SoFar, Items, Nested;
    var done, o := Items(objs[..i]), objs[i];
    ItemsAppend(objs, i);
    NestedAreUnmanaged(o.children);
    if o.uid == "" {
      assert done + [] == done;
      UnmanagedAddNothing(done, Own(o, false), sets, dels, embed, fails);
      UnmanagedAddNothing(done + Own(o, false), Nested(o.children), sets, dels, embed, fails);
    } else {
      UnmanagedAddNothing(done + Own(o, true), Nested(o.children), sets, dels, embed, fails);
    }
  }

  /**
   injectShadowVectors up to its mutation: the vectors to set and to delete, or an embedding error. It goes
   through the top-level structs only.
   */
  method InjectShadowVectors(objs: seq<Obj>, embed: string -> Vector, fails: string -> bool)
      returns (nquads: Option<(seq<SetVec>, seq<Key>)>)
    requires Shaped(objs)
    ensures nquads.None? <==> Refuses(Items(objs), fails)
    ensures nquads.Some? ==> nquads.value == (Sets(Items(objs), embed), Dels(Items(objs)))
  {
    hide SoFar, Items, Refuses, Sets, Dels;
    var setNquads: seq<SetVec> := [];
    var delNquads: seq<Key> := [];
    var i := 0;
    SoFarEnds(objs, setNquads, delNquads, embed, fails);
    while i < |objs|
      invariant 0 <= i <= |objs|
      invariant SoFar(Items(objs[..i]), setNquads, delNquads, embed, fails)
    {
      var o := objs[i];
      ghost var done := Items(objs[..i]);
      assert done + [] == done;
      if o.uid == "" {
        RestOfObj(objs, i, setNquads, delNquads, embed, fails);
        i := i + 1;
        continue;
      }
      ghost var mine := Own(o, true);
      var j := 0;
      assert done + mine[..0] == done;
      while j < |o.fields|
        invariant 0 <= j <= |o.fields|
        invariant SoFar(done + mine[..j], setNquads, delNquads, embed, fails)
      {
        var field, textVal := o.fields[j], o.texts[j];
        SoFarStep(done + mine[..j], setNquads, delNquads, embed, fails, mine[j]);
        assert done + mine[..j] + [mine[j]] == done + mine[..j + 1];
        j := j + 1;
        if textVal == "" && field.omitempty { continue; }
        if textVal == "" || (field.threshold > 0 && |textVal| < field.threshold) {
          delNquads := delNquads + [(o.uid, field.attr)];
          continue;
        }
        if fails(textVal) {
          ItemsAppend(objs, i);
          assert done + mine[..j] <= done + mine + Nested(o.children);
          ItemsPrefix(objs, i + 1);
          RefusalStays(done + mine[..j], Items(objs), fails);
          return None;
        }
        setNquads := setNquads + [SetVec((o.uid, field.attr), embed(textVal))];
      }
      assert done + mine[..|o.fields|] == done + mine;
      RestOfObj(objs, i, setNquads, delNquads, embed, fails);
      i := i + 1;
    }
    SoFarEnds(objs, setNquads, delNquads, embed, fails);
    assert objs[..|objs|] == objs;
    nquads := Some((setNquads, delNquads));
  }

  lemma SoFarEnds(objs: seq<Obj>, sets: seq<SetVec>, dels: seq<Key>, embed: string -> Vector, fails: string -> bool)
    requires Shaped(objs)
    ensures SoFar(Items(objs[..0]), [], [], embed, fails)
    ensures SoFar(Items(objs), sets, dels, embed, fails) ==>
              sets == Sets(Items(objs), embed) && dels == Dels(Items(objs)) && !Refuses(Items(objs), fails)
  {
  }

  lemma RefusalStays(a: seq<Item>, b: seq<Item>, fails: string -> bool)
    requires a <= b && Refuses(a, fails)
    ensures Refuses(b, fails)
  {
    var i :| 0 <= i < |a| && a[i].managed && VerdictOf(a[i]).Embed? && fails(a[i].text);
    assert b[i] == a[i];
  }

  lemma {:induction false} ItemsPrefix(objs: seq<Obj>, i: nat)
    requires Shaped(objs) && i <= |objs|
    ensures Items(objs[..i]) <= Items(objs)
  {
    if i == |objs| {
      assert objs[..i] == objs;
    } else {
      var init := objs[..|objs| - 1];
      ItemsPrefix(init, i);
      assert init[..i] == objs[..i];
    }
  }

  // ---------------------------------------------------------------- what a commit leaves

  function VectorsOf(sets: seq<SetVec>): map<Key, Vector> {
    if sets == [] then map[] else
      var last := sets[|sets| - 1];
      VectorsOf(sets[..|sets| - 1])[last.key := last.vec]
  }

  /** The shadow mutation; in which order the server takes its two lists is left open. */
  function Shadowed(vec: map<Key, Vector>, sets: seq<SetVec>, dels: seq<Key>, delsFirst: bool): map<Key, Vector> {
    var gone := set k | k in dels;
    if delsFirst then (vec - gone) + VectorsOf(sets) else (vec + VectorsOf(sets)) - gone
  }

  function Committed(st: Store, items: seq<Item>, embed: string -> Vector, delsFirst: bool): Store {
    Store(st.text + Texts(items), Shadowed(st.vec, Sets(items, embed), Dels(items), delsFirst))
  }

  /** The part of the client a write goes through: what the server has committed. */
  class Client {
    var store: Store

    constructor ()
      ensures store == Store(map[], map[])
    {
      store := Store(map[], map[]);
    }

    /**
     process, on a transactional store. Each of the mutation, the embedding and the commit can fail, and
     then the transaction is discarded.
     */
    method Process(objs: seq<Obj>, embed: string -> Vector, fails: string -> bool,
                   mutates: bool, commits: bool, delsFirst: bool) returns (ok: bool)
      requires Shaped(objs)
      modifies this
      ensures ok <==> mutates && commits && !Refuses(Items(objs), fails)
      ensures store == if ok then Committed(old(store), Items(objs), embed, delsFirst) else old(store)
    {
      if !mutates { return false; }
      var staged := Store(store.text + Texts(Items(objs)), store.vec);
      var nquads := InjectShadowVectors(objs, embed, fails);
      if nquads.None? { return false; }
      var (setNquads, delNquads) := nquads.value;
      if |setNquads| != 0 || |delNquads| != 0 {
        staged := staged.(vec := Shadowed(staged.vec, setNquads, delNquads, delsFirst));
      } else {
        NothingShadowed(staged.vec, delsFirst);
      }
      if !commits { return false; }
      store := staged;
      return true;
    }
  }

  lemma NothingShadowed(vec: map<Key, Vector>, delsFirst: bool)
    ensures Shadowed(vec, [], [], delsFirst) == vec
  {
    assert (set k: Key | k in []) == {};
  }

  // ---------------------------------------------------------------- what a batch does at one key

  datatype Kind = Any | Managed | Embedded | Removed

  predicate Is(it: Item, kind: Kind) {
    match kind
    case Any => Sent(it)
    case Managed => it.managed && !VerdictOf(it).Untouched?
    case Embedded => it.managed && VerdictOf(it).Embed?
    case Removed => it.managed && VerdictOf(it).Remove?
  }

  /** The last text of the kind for the key. */
  function Last(items: seq<Item>, k: Key, kind: Kind): (r: Option<Item>)
    ensures r.Some? ==> r.value in items && KeyOf(r.value) == k && Is(r.value, kind)
  {
    if items == [] then None else
      var it := items[|items| - 1];
      if KeyOf(it) == k && Is(it, kind) then Some(it) else Last(items[..|items| - 1], k, kind)
  }

  lemma {:induction false} NoLast(items: seq<Item>, k: Key, kind: Kind)
    ensures Last(items, k, kind).None? <==> forall i :: 0 <= i < |items| && KeyOf(items[i]) == k ==> !Is(items[i], kind)
  {
    if items != [] { NoLast(items[..|items| - 1], k, kind); }
  }

  /** Without removals the last managed text is the last embedded one, and the other way round. */
  lemma {:induction false} LastManaged(items: seq<Item>, k: Key)
    ensures var (m, e, r) := (Last(items, k, Managed), Last(items, k, Embedded), Last(items, k, Removed));
            && (m.None? <==> e.None? && r.None?) && (r.None? ==> m == e) && (e.None? ==> m == r)
            && (m.Some? ==> Last(items, k, Any).Some?)
  {
    if items != [] { LastManaged(items[..|items| - 1], k); }
  }

  lemma {:induction false} TextsAt(items: seq<Item>, k: Key)
    ensures var t := Last(items, k, Any);
            (k in Texts(items) <==> t.Some?) && (t.Some? ==> Texts(items)[k] == t.value.text)
  {
    if items != [] {
      hide Sent;
      TextsAt(items[..|items| - 1], k);
    }
  }

  lemma {:induction false} EffectAt(items: seq<Item>, embed: string -> Vector, k: Key)
    ensures var (t, e) := (Last(items, k, Any), Last(items, k, Embedded));
            && (k in Texts(items) <==> t.Some?) && (t.Some? ==> Texts(items)[k] == t.value.text)
            && (k in VectorsOf(Sets(items, embed)) <==> e.Some?)
            && (e.Some? ==> VectorsOf(Sets(items, embed))[k] == embed(e.value.text))
            && (k in Dels(items) <==> Last(items, k, Removed).Some?)
  {
    TextsAt(items, k);
    if items != [] {
      VectorsStep(items, embed);
      hide VectorsOf, Sets, Judge, Texts;
      EffectAt(items[..|items| - 1], embed, k);
    }
  }

  lemma VectorsAppend(sets: seq<SetVec>, last: SetVec)
    ensures VectorsOf(sets + [last]) == VectorsOf(sets)[last.key := last.vec]
  {
    assert (sets + [last])[..|sets|] == sets;
  }

  lemma VectorsStep(items: seq<Item>, embed: string -> Vector)
    requires items != []
    ensures var (it, before) := (items[|items| - 1], Sets(items[..|items| - 1], embed));
            VectorsOf(Sets(items, embed)) ==
            if Is(it, Embedded) then VectorsOf(before)[KeyOf(it) := embed(it.text)] else VectorsOf(before)
  {
    var it, before := items[|items| - 1], Sets(items[..|items| - 1], embed);
    VectorsAppend(before, SetVec(KeyOf(it), embed(it.text)));
    hide VectorsOf, Judge;
    assert before + [] == before;
  }

  // ---------------------------------------------------------------- agreement

  predicate HasVector(f: Field, text: string) {
    text != "" && f.threshold <= |text|
  }

  /** A node has a vector exactly when its text is long enough, and it is the vector of that text. */
  ghost predicate AgreesAt(st: Store, k: Key, f: Field, embed: string -> Vector) {
    && (k in st.vec <==> k in st.text && HasVector(f, st.text[k]))
    && (k in st.vec ==> st.vec[k] == embed(st.text[k]))
  }

  ghost predicate Agrees(st: Store, fields: seq<Field>, embed: string -> Vector) {
    forall u, f :: f in fields ==> AgreesAt(st, (u, f.attr), f, embed)
  }

  predicate DistinctAttrs(fields: seq<Field>) {
    forall i, j :: 0 <= i < j < |fields| ==> fields[i].attr != fields[j].attr
  }

  predicate Known(items: seq<Item>, fields: seq<Field>) {
    forall i :: 0 <= i < |items| ==> items[i].field in fields
  }

  /** The batch leads from every agreeing store to an agreeing store, in either order of its two lists. */
  ghost predicate Keeps(items: seq<Item>, fields: seq<Field>, embed: string -> Vector) {
    forall st, delsFirst :: Agrees(st, fields, embed) ==> Agrees(Committed(st, items, embed, delsFirst), fields, embed)
  }

  /**
   At a key the batch writes: the injection looks at one of its texts, does not both embed and remove, and
   the text that stays is one it would have treated as the last it looked at.
   */
  predicate Settled(items: seq<Item>, k: Key, embed: string -> Vector) {
    var t, m := Last(items, k, Any), Last(items, k, Managed);
    t.Some? ==>
      && m.Some?
      && (Last(items, k, Embedded).None? || Last(items, k, Removed).None?)
      && VerdictOf(t.value) == VerdictOf(m.value)
      && (VerdictOf(m.value).Embed? ==> embed(t.value.text) == embed(m.value.text))
  }

  lemma SettledKeepsAt(st: Store, items: seq<Item>, fields: seq<Field>, embed: string -> Vector, delsFirst: bool,
                       k: Key, f: Field)
    requires DistinctAttrs(fields) && Known(items, fields) && f in fields && k.1 == f.attr
    requires AgreesAt(st, k, f, embed) && Settled(items, k, embed)
    ensures AgreesAt(Committed(st, items, embed, delsFirst), k, f, embed)
  {
    EffectAt(items, embed, k);
    LastManaged(items, k);
    hide Texts, Sets, Dels, VectorsOf, Last;
    var t := Last(items, k, Any);
    assert t.Some? ==> t.value.field == f;
  }

  /** A text of the field that has a vector. */
  function Long(f: Field): string {
    seq(if f.threshold == 0 then 1 else f.threshold, i => 'x')
  }

  lemma LongStoreAgrees(k: Key, f: Field, fields: seq<Field>, embed: string -> Vector)
    requires DistinctAttrs(fields) && f in fields && k.1 == f.attr
    ensures Agrees(Store(map[k := Long(f)], map[k := embed(Long(f))]), fields, embed)
  {
    assert HasVector(f, Long(f));
  }

  /** An unsettled key has an agreeing store, empty or with that key alone, that the batch makes disagree. */
  lemma UnsettledBreaks(items: seq<Item>, fields: seq<Field>, embed: string -> Vector, k: Key)
      returns (st: Store, delsFirst: bool)
    requires DistinctAttrs(fields) && Known(items, fields) && !Settled(items, k, embed)
    ensures Agrees(st, fields, embed) && !Agrees(Committed(st, items, embed, delsFirst), fields, embed)
  {
    EffectAt(items, embed, k);
    LastManaged(items, k);
    var t, m := Last(items, k, Any).value, Last(items, k, Managed);
    var f := t.field;
    hide Texts, Sets, Dels, VectorsOf, Last;
    st, delsFirst := Store(map[], map[]), true;
    if m.None? && VerdictOf(t).Remove? {
      st := Store(map[k := Long(f)], map[k := embed(Long(f))]);
      LongStoreAgrees(k, f, fields, embed);
    } else if m.Some? && Last(items, k, Embedded).Some? && Last(items, k, Removed).Some? {
      delsFirst := !HasVector(f, t.text);
    }
    assert !AgreesAt(Committed(st, items, embed, delsFirst), k, f, embed);
    assert k == (k.0, f.attr);
  }

  /** Which batches keep agreement: exactly those settled at every key. */
  lemma KeepsIffSettled(items: seq<Item>, fields: seq<Field>, embed: string -> Vector)
    requires DistinctAttrs(fields) && Known(items, fields)
    ensures Keeps(items, fields, embed) <==> forall k :: Settled(items, k, embed)
  {
    hide Settled, Committed, Agrees;
    if forall k :: Settled(items, k, embed) {
      forall st, delsFirst | Agrees(st, fields, embed) ensures Agrees(Committed(st, items, embed, delsFirst), fields, embed) {
        SettledKeeps(st, items, fields, embed, delsFirst);
      }
    } else {
      var k :| !Settled(items, k, embed);
      var st, delsFirst := UnsettledBreaks(items, fields, embed, k);
    }
  }

  lemma SettledKeeps(st: Store, items: seq<Item>, fields: seq<Field>, embed: string -> Vector, delsFirst: bool)
    requires DistinctAttrs(fields) && Known(items, fields)
    requires Agrees(st, fields, embed) && forall k :: Settled(items, k, embed)
    ensures Agrees(Committed(st, items, embed, delsFirst), fields, embed)
  {
    hide Settled, Committed, AgreesAt;
    forall u, f | f in fields ensures AgreesAt(Committed(st, items, embed, delsFirst), (u, f.attr), f, embed) {
      SettledKeepsAt(st, items, fields, embed, delsFirst, (u, f.attr), f);
    }
  }

  // ---------------------------------------------------------------- conditions a caller can check

  predicate OnePerKey(items: seq<Item>) {
    forall i, j :: 0 <= i < j < |items| ==> KeyOf(items[i]) != KeyOf(items[j])
  }

  /**
   With each node once in the batch, at whatever depth: agreement is kept if and only if the structs that
   are nested or have no UID field set none of their tagged texts.
   */
  lemma OncePerNodeIffOthersUntouched(items: seq<Item>, fields: seq<Field>, embed: string -> Vector)
    requires DistinctAttrs(fields) && Known(items, fields) && OnePerKey(items)
    ensures Keeps(items, fields, embed) <==>
            forall i :: 0 <= i < |items| && !items[i].managed ==> VerdictOf(items[i]).Untouched?
  {
    KeepsIffSettled(items, fields, embed);
    hide Keeps;
    if i :| 0 <= i < |items| && !items[i].managed && !VerdictOf(items[i]).Untouched? {
      var k := KeyOf(items[i]);
      NoLast(items, k, Any);
      NoLast(items, k, Managed);
      assert Last(items, k, Any).Some? && Last(items, k, Managed).None?;
      assert !Settled(items, k, embed);
    } else {
      forall k ensures Settled(items, k, embed) {
        var t := Last(items, k, Any);
        if t.Some? { OnlyItemSettles(items, embed, k, t.value); }
      }
    }
  }

  lemma OnlyItemSettles(items: seq<Item>, embed: string -> Vector, k: Key, it: Item)
    requires OnePerKey(items) && Last(items, k, Any) == Some(it) && it.managed
    ensures Settled(items, k, embed)
  {
    LastManaged(items, k);
    NoLast(items, k, Managed);
    hide Last;
    var i :| 0 <= i < |items| && items[i] == it;
    assert Is(items[i], Managed);
    var e, r, m := Last(items, k, Embedded), Last(items, k, Removed), Last(items, k, Managed);
    assert m.Some? ==> m.value == it;
    assert e.Some? ==> e.value == it;
    assert r.Some? ==> r.value == it;
  }

  /**
   Without nested structs and with UIDs everywhere, nodes repeated as they may be: agreement is kept if and
   only if no two texts of one node and predicate are judged differently, one to embed and one to remove.
   */
  lemma RepeatsIffNoClash(items: seq<Item>, fields: seq<Field>, embed: string -> Vector)
    requires DistinctAttrs(fields) && Known(items, fields) && forall i :: 0 <= i < |items| ==> items[i].managed
    ensures Keeps(items, fields, embed) <==>
            forall i, j :: 0 <= i < |items| && 0 <= j < |items| && KeyOf(items[i]) == KeyOf(items[j]) ==>
              !(VerdictOf(items[i]).Embed? && VerdictOf(items[j]).Remove?)
  {
    KeepsIffSettled(items, fields, embed);
    hide Keeps;
    forall k ensures Last(items, k, Any) == Last(items, k, Managed) { AllManaged(items, k); }
    if i, j :| 0 <= i < |items| && 0 <= j < |items| && KeyOf(items[i]) == KeyOf(items[j])
               && VerdictOf(items[i]).Embed? && VerdictOf(items[j]).Remove? {
      var k := KeyOf(items[i]);
      NoLast(items, k, Embedded);
      NoLast(items, k, Removed);
      LastManaged(items, k);
      assert !Settled(items, k, embed);
    } else {
      forall k ensures Settled(items, k, embed) {
        LastManaged(items, k);
        var e, r := Last(items, k, Embedded), Last(items, k, Removed);
        assert e.Some? ==> exists i :: 0 <= i < |items| && items[i] == e.value;
        assert r.Some? ==> exists j :: 0 <= j < |items| && items[j] == r.value;
      }
    }
  }

  lemma {:induction false} AllManaged(items: seq<Item>, k: Key)
    requires forall i :: 0 <= i < |items| ==> items[i].managed
    ensures Last(items, k, Any) == Last(items, k, Managed)
  {
    if items != [] { AllManaged(items[..|items| - 1], k); }
  }

  /**
   The only text of its key, sent and looked at, decides what is stored there, whatever was: the text, and its
   vector if it is not empty and at least threshold characters long, else none. So an empty text without
   omitempty clears both.
   */
  lemma WrittenTextDecides(st: Store, items: seq<Item>, i: nat, embed: string -> Vector, delsFirst: bool)
    requires i < |items| && items[i].managed && (items[i].text != "" || !items[i].field.omitempty)
    requires forall j :: 0 <= j < |items| && KeyOf(items[j]) == KeyOf(items[i]) ==> j == i
    ensures var (st', k, text) := (Committed(st, items, embed, delsFirst), KeyOf(items[i]), items[i].text);
            && k in st'.text && st'.text[k] == text
            && (k in st'.vec <==> text != "" && items[i].field.threshold <= |text|)
            && (k in st'.vec ==> st'.vec[k] == embed(text))
  {
    var k := KeyOf(items[i]);
    EffectAt(items, embed, k);
    LastManaged(items, k);
    NoLast(items, k, Any);
    NoLast(items, k, Managed);
    hide Texts, Sets, Dels, VectorsOf, Last;
  }

  /** A field left empty with omitempty: neither the stored text nor its vector moves. */
  lemma PartialUpdateTouchesNothing(st: Store, items: seq<Item>, embed: string -> Vector, delsFirst: bool, k: Key)
    requires forall i :: 0 <= i < |items| && KeyOf(items[i]) == k ==> items[i].text == "" && items[i].field.omitempty
    ensures var st' := Committed(st, items, embed, delsFirst);
            && (k in st'.text <==> k in st.text) && (k in st.text ==> st'.text[k] == st.text[k])
            && (k in st'.vec <==> k in st.vec) && (k in st.vec ==> st'.vec[k] == st.vec[k])
  {
    NoLast(items, k, Any);
    LastManaged(items, k);
    EffectAt(items, embed, k);
  }

  // ---------------------------------------------------------------- runs

  datatype Write = Write(objs: seq<Obj>, fails: string -> bool, mutates: bool, commits: bool, delsFirst: bool)

  /** What Process does to the store. */
  ghost predicate Next(st: Store, st': Store, w: Write, embed: string -> Vector) {
    && Shaped(w.objs)
    && st' == if w.mutates && w.commits && !Refuses(Items(w.objs), w.fails)
              then Committed(st, Items(w.objs), embed, w.delsFirst) else st
  }

  /** Over any run of settled batches, failures included, text and vectors agree at every node. */
  lemma {:induction false} AlwaysAgrees(run: seq<Store>, writes: seq<Write>, fields: seq<Field>,
                                        embed: string -> Vector, i: nat)
    requires |run| == |writes| + 1 && run[0] == Store(map[], map[]) && DistinctAttrs(fields)
    requires forall k :: 0 <= k < |writes| ==> Next(run[k], run[k + 1], writes[k], embed)
    requires forall k :: 0 <= k < |writes| ==> SettledBatch(writes[k].objs, fields, embed)
    requires i < |run|
    ensures Agrees(run[i], fields, embed)
  {
    if i > 0 {
      AlwaysAgrees(run, writes, fields, embed, i - 1);
      var w := writes[i - 1];
      assert Next(run[i - 1], run[i], w, embed) && SettledBatch(w.objs, fields, embed);
      KeepsIffSettled(Items(w.objs), fields, embed);
    }
  }

  ghost predicate SettledBatch(objs: seq<Obj>, fields: seq<Field>, embed: string -> Vector) {
    Shaped(objs) && Known(Items(objs), fields) && forall k :: Settled(Items(objs), k, embed)
  }

  /** Nothing nested, a UID field everywhere, each UID once, each predicate once in a struct. */
  predicate Plain(objs: seq<Obj>) {
    && Shaped(objs)
    && (forall i :: 0 <= i < |objs| ==> objs[i].children == [] && objs[i].uid != "" && DistinctAttrs(objs[i].fields))
    && forall i, j :: 0 <= i < j < |objs| ==> objs[i].uid != objs[j].uid
  }

  predicate FieldsKnown(objs: seq<Obj>, fields: seq<Field>) {
    forall i, f :: 0 <= i < |objs| && f in objs[i].fields ==> f in fields
  }

  lemma {:induction false} PlainItems(objs: seq<Obj>, fields: seq<Field>)
    requires Plain(objs) && FieldsKnown(objs, fields)
    ensures OnePerKey(Items(objs)) && Known(Items(objs), fields)
    ensures forall i :: 0 <= i < |Items(objs)| ==>
              Items(objs)[i].managed && exists j :: 0 <= j < |objs| && objs[j].uid == Items(objs)[i].node
  {
    if objs != [] {
      var n := |objs| - 1;
      var init, o := objs[..n], objs[n];
      PlainItems(init, fields);
      var items, front, own := Items(objs), Items(init), Own(o, true);
      assert items == front + own;
      forall i | 0 <= i < |items|
        ensures items[i].managed && exists j :: 0 <= j < |objs| && objs[j].uid == items[i].node
      {
        if i < |front| {
          var j :| 0 <= j < n && init[j].uid == front[i].node;
          assert objs[j].uid == items[i].node;
        } else {
          assert objs[n].uid == items[i].node;
        }
      }
      forall i, j | 0 <= i < j < |items| ensures KeyOf(items[i]) != KeyOf(items[j]) {
        if i < |front| && j >= |front| {
          var m :| 0 <= m < n && init[m].uid == front[i].node;
          assert objs[m].uid != o.uid;
        }
      }
    }
  }

  /** The batches the code was written for are settled. */
  lemma PlainBatchIsSettled(objs: seq<Obj>, fields: seq<Field>, embed: string -> Vector)
    requires Plain(objs) && FieldsKnown(objs, fields)
    ensures SettledBatch(objs, fields, embed)
  {
    PlainItems(objs, fields);
    forall k ensures Settled(Items(objs), k, embed) {
      var t := Last(Items(objs), k, Any);
      if t.Some? { OnlyItemSettles(Items(objs), embed, k, t.value); }
    }
  }

  // ---------------------------------------------------------------- inputs on which agreement is lost

  /** One write of a person with a friend in it: the friend's text is stored and never embedded. */
  lemma NestedTextHasNoVector(embed: string -> Vector, delsFirst: bool) returns (objs: seq<Obj>)
    ensures var f := Field("t", false, 0);
            && objs == [Obj("0x1", "0x1", [f], ["a"], [Obj("0x2", "0x2", [f], ["b"], [])])] && Shaped(objs)
            && var st := Committed(Store(map[], map[]), Items(objs), embed, delsFirst);
               ("0x2", "t") in st.text && ("0x2", "t") !in st.vec && !Agrees(st, [f], embed)
  {
    var f := Field("t", false, 0);
    var friend := Obj("0x2", "0x2", [f], ["b"], []);
    objs := [Obj("0x1", "0x1", [f], ["a"], [friend])];
    assert ShapedObj(friend) && ShapedObj(objs[0]);
    var a, b := Item("0x1", f, "a", true), Item("0x2", f, "b", false);
    assert Nested([friend]) == [b] by { assert [friend][..0] == [] && Nested([]) == []; }
    assert Items(objs) == [a, b] by { assert objs[..0] == [] && Own(objs[0], true) == [a]; }
    NotManagedHasNoVector([a, b], 1, embed, delsFirst);
    assert !AgreesAt(Committed(Store(map[], map[]), [a, b], embed, delsFirst), ("0x2", f.attr), f, embed);
  }

  /** A struct without a UID field: its text is stored and never embedded. */
  lemma UidlessTextHasNoVector(embed: string -> Vector, delsFirst: bool) returns (objs: seq<Obj>)
    ensures var f := Field("t", false, 0);
            && objs == [Obj("", "0x1", [f], ["a"], [])] && Shaped(objs)
            && var st := Committed(Store(map[], map[]), Items(objs), embed, delsFirst);
               ("0x1", "t") in st.text && ("0x1", "t") !in st.vec && !Agrees(st, [f], embed)
  {
    var f := Field("t", false, 0);
    objs := [Obj("", "0x1", [f], ["a"], [])];
    assert ShapedObj(objs[0]);
    var a := Item("0x1", f, "a", false);
    assert Items(objs) == [a] by { assert objs[..0] == [] && Own(objs[0], false) == [a] && Nested([]) == []; }
    NotManagedHasNoVector([a], 0, embed, delsFirst);
    assert !AgreesAt(Committed(Store(map[], map[]), [a], embed, delsFirst), ("0x1", f.attr), f, embed);
  }

  lemma NotManagedHasNoVector(items: seq<Item>, i: nat, embed: string -> Vector, delsFirst: bool)
    requires i < |items| && VerdictOf(items[i]).Embed?
    requires forall j :: 0 <= j < |items| && KeyOf(items[j]) == KeyOf(items[i]) ==> j == i && !items[j].managed
    ensures var (st, k) := (Committed(Store(map[], map[]), items, embed, delsFirst), KeyOf(items[i]));
            k in st.text && st.text[k] == items[i].text && k !in st.vec
  {
    var k := KeyOf(items[i]);
    EffectAt(items, embed, k);
    LastManaged(items, k);
    NoLast(items, k, Any);
    NoLast(items, k, Managed);
  }

  /** With one node twice in a batch agreement can be lost, in whichever order the server works. */
  lemma DuplicateUidsCanDisagree(embed: string -> Vector) returns (objs: seq<Obj>)
    ensures var f := Field("t", false, 2);
            && objs == [Obj("0x1", "0x1", [f], ["aa"], []), Obj("0x1", "0x1", [f], ["a"], [])]
            && Shaped(objs) && !Keeps(Items(objs), [f], embed)
  {
    var f := Field("t", false, 2);
    var x, y := Obj("0x1", "0x1", [f], ["aa"], []), Obj("0x1", "0x1", [f], ["a"], []);
    objs := [x, y];
    assert ShapedObj(x) && ShapedObj(y);
    var a, b := Item("0x1", f, "aa", true), Item("0x1", f, "a", true);
    TwoObjs(x, y, a, b);
    var items := [a, b];
    assert VerdictOf(items[0]).Embed? && VerdictOf(items[1]).Remove? && KeyOf(items[0]) == KeyOf(items[1]);
    RepeatsIffNoClash(items, [f], embed);
  }

  lemma {:induction false} TwoObjs(x: Obj, y: Obj, a: Item, b: Item)
    requires ShapedObj(x) && ShapedObj(y) && x.uid != "" && y.uid != "" && x.children == [] && y.children == []
    requires Own(x, true) == [a] && Own(y, true) == [b]
    ensures Items([x, y]) == [a, b]
  {
    var xy, one := [x, y], [x];
    assert xy[..1] == one && one[..0] == [] && Nested([]) == [];
    assert Items(one) == [a];
  }
}
