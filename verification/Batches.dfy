/**
 The live loader's buffer. Groups of N-Quads are appended to a Go slice; when it is full its content is
 sent in batches that are slices of the same backing array. Nothing is lost, repeated, reordered or
 overwritten after it was sent.
 */
module Batches {
  import opened Basics

  const BATCH_SIZE := 1000
  const NUM_BATCHES_IN_BUF := 100

  /** A Go slice: len elements of a backing array, with room to grow up to the array's end. */
  datatype Slice<!T> = Slice(arr: array<T>, off: nat, len: nat) {
    predicate Fits() {
      off + len <= arr.Length
    }

    function Contents(): seq<T>
      requires Fits()
      reads arr
    {
      arr[off..off + len]
    }
  }

  /**
   Go's append. With room left it writes behind the slice, in place; otherwise it copies to a larger array,
   how much larger being the runtime's choice.
   */
  method Append<T(0)>(s: Slice<T>, xs: seq<T>) returns (r: Slice<T>)
    requires s.Fits()
    modifies s.arr
    ensures r.Fits() && r.Contents() == old(s.Contents()) + xs
    ensures forall i :: 0 <= i < s.off + s.len ==> s.arr[i] == old(s.arr[i])
    ensures (r.arr == s.arr && r.off == s.off) || fresh(r.arr)
  {
    var n := s.len + |xs|;
    r := Slice(s.arr, s.off, n);
    if s.off + n > s.arr.Length {
      var capacity :| n <= capacity;
      var arr := new T[capacity];
      Copy(arr, 0, s.Contents());
      r := Slice(arr, 0, n);
    }
    Copy(r.arr, r.off + s.len, xs);
    assert r.arr[r.off..r.off + n] == old(s.Contents()) + xs;
  }

  method Copy<T>(a: array<T>, at: nat, xs: seq<T>)
    requires at + |xs| <= a.Length
    modifies a
    ensures a[at..at + |xs|] == xs
    ensures forall i :: 0 <= i < a.Length && !(at <= i < at + |xs|) ==> a[i] == old(a[i])
  {
    for i := 0 to |xs|
      invariant forall k :: 0 <= k < i ==> a[at + k] == xs[k]
      invariant forall k :: 0 <= k < a.Length && !(at <= k < at + i) ==> a[k] == old(a[k])
    {
      a[at + i] := xs[i];
    }
  }

  function Flatten<T>(xss: seq<seq<T>>): seq<T> {
    if xss == [] then [] else Flatten(xss[..|xss| - 1]) + xss[|xss| - 1]
  }

  /** Full batches, and a last one with what is left. */
  function Chunks<T>(xs: seq<T>): seq<seq<T>> {
    if xs == [] then [] else if |xs| < BATCH_SIZE then [xs] else [xs[..BATCH_SIZE]] + Chunks(xs[BATCH_SIZE..])
  }

  lemma NextChunk<T>(xs: seq<T>, sz: nat)
    requires sz == if |xs| < BATCH_SIZE then |xs| else BATCH_SIZE
    ensures Chunks(xs) == if xs == [] then [] else [xs[..sz]] + Chunks(xs[sz..])
  {
    if |xs| < BATCH_SIZE { assert xs[..sz] == xs && xs[sz..] == []; }
  }

  /** Every batch of 1000 but the last, which has what is left. */
  lemma {:induction false} ChunksAre<T>(xs: seq<T>, i: nat)
    ensures i < |Chunks(xs)| <==> 1000 * i < |xs|
    ensures i < |Chunks(xs)| ==>
              Chunks(xs)[i] == if 1000 * (i + 1) <= |xs| then xs[1000 * i..1000 * (i + 1)] else xs[1000 * i..]
  {
    if |xs| >= 1000 && i > 0 {
      ChunksAre(xs[1000..], i - 1);
    }
  }

  lemma FlattenAppend<T>(xss: seq<seq<T>>, xs: seq<T>)
    ensures Flatten(xss + [xs]) == Flatten(xss) + xs
  {
    assert (xss + [xs])[..|xss|] == xss;
  }

  lemma SplitSlice<T>(s: Slice<T>, k: nat)
    requires s.Fits() && k <= s.len
    ensures var (a, b) := (Slice(s.arr, s.off, k), Slice(s.arr, s.off + k, s.len - k));
            a.Fits() && b.Fits() && a.Contents() == s.Contents()[..k] && a.Contents() + b.Contents() == s.Contents()
  {
  }

  /** The loader's goroutine: its buffer, and the batches it has put on the channel. */
  class Loader<T(0)> {
    var buffer: Slice<T>
    var sent: seq<Slice<T>>

    /** Batches on the buffer's own array lie before it. */
    ghost predicate Valid()
      reads this
    {
      && buffer.Fits()
      && forall b :: b in sent ==>
           b.Fits() && 1 <= b.len <= BATCH_SIZE && (b.arr == buffer.arr ==> b.off + b.len <= buffer.off)
    }

    ghost function Arrays(): set<array<T>>
      reads this
    {
      (set b | b in sent :: b.arr) + {buffer.arr}
    }

    /** What a reader of the channel sees now. */
    function Sent(): seq<seq<T>>
      requires Valid()
      reads this, Arrays()
    {
      seq(|sent|, i requires 0 <= i < |sent| && Valid() reads this, Arrays() => sent[i].Contents())
    }

    /** Everything taken in: the batches sent, then the buffer. */
    ghost function Taken(): seq<T>
      requires Valid()
      reads this, Arrays()
    {
      Flatten(Sent()) + buffer.Contents()
    }

    constructor ()
      ensures Valid() && fresh(Arrays()) && sent == [] && buffer.len == 0
    {
      var arr := new T[NUM_BATCHES_IN_BUF * BATCH_SIZE];
      buffer, sent := Slice(arr, 0, 0), [];
    }

    /** A batch of the first sz elements goes onto the channel. */
    method Send(sz: nat)
      requires Valid() && 1 <= sz <= BATCH_SIZE && sz <= buffer.len
      modifies this
      ensures Valid() && buffer == Slice(old(buffer.arr), old(buffer.off) + sz, old(buffer.len) - sz)
      ensures Taken() == old(Taken()) && Sent() == old(Sent()) + [old(buffer.Contents())[..sz]]
      ensures buffer.Contents() == old(buffer.Contents())[sz..] && Arrays() == old(Arrays())
    {
      hide Flatten;
      ghost var before, rest := Sent(), buffer.Contents();
      SplitSlice(buffer, sz);
      sent := sent + [Slice(buffer.arr, buffer.off, sz)];
      buffer := Slice(buffer.arr, buffer.off + sz, buffer.len - sz);
      assert Sent() == before + [rest[..sz]] by {
        assert sent[|sent| - 1].Contents() == rest[..sz];
        assert forall i :: 0 <= i < |before| ==> Sent()[i] == before[i];
      }
      FlattenAppend(before, rest[..sz]);
      Reassociate(Flatten(before), rest[..sz], buffer.Contents());
    }

    /** drain: sends the buffer's content in batches of BATCH_SIZE, the last one perhaps shorter. */
    method Drain()
      requires Valid()
      modifies this
      ensures Valid() && buffer.len == 0 && buffer.arr == old(buffer.arr)
      ensures Taken() == old(Taken()) && Sent() == old(Sent()) + Chunks(old(buffer.Contents()))
      ensures Arrays() == old(Arrays())
    {
      hide Flatten, Chunks;
      while buffer.len > 0
        invariant Valid() && buffer.arr == old(buffer.arr) && Arrays() == old(Arrays())
        invariant Taken() == old(Taken())
        invariant Sent() + Chunks(buffer.Contents()) == old(Sent()) + Chunks(old(buffer.Contents()))
        decreases buffer.len
      {
        var sz := BATCH_SIZE;
        if buffer.len < BATCH_SIZE { sz := buffer.len; }
        ghost var before, rest := Sent(), buffer.Contents();
        Send(sz);
        NextChunk(rest, sz);
        Reassociate(before, [rest[..sz]], Chunks(rest[sz..]));
      }
      NextChunk(buffer.Contents(), 0);
    }

    /** One group off the parser: appended; a full buffer is sent. */
    method Take(nqs: seq<T>)
      requires Valid()
      modifies this, buffer.arr
      ensures Valid() && fresh(Arrays() - old(Arrays()))
      ensures Taken() == old(Taken()) + nqs && old(Sent()) <= Sent()
      ensures var n := old(buffer.len) + |nqs|;
              buffer.len == if nqs == [] || n < NUM_BATCHES_IN_BUF * BATCH_SIZE then n else 0
    {
      hide Flatten;
      if |nqs| == 0 { return; }
      ghost var before := Sent();
      buffer := Append(buffer, nqs);
      assert forall i :: 0 <= i < |before| ==> Sent()[i] == before[i];
      assert Sent() == before;
      Reassociate(Flatten(before), old(buffer.Contents()), nqs);
      if buffer.len < NUM_BATCHES_IN_BUF * BATCH_SIZE { return; }
      Drain();
    }
  }

  /** Once nothing is buffered the batches are all that was taken; before, they are a prefix. */
  lemma SentIsPrefix<T(0)>(l: Loader<T>)
    requires l.Valid()
    ensures Flatten(l.Sent()) <= l.Taken() && |Flatten(l.Sent())| + l.buffer.len == |l.Taken()|
    ensures l.buffer.len == 0 ==> Flatten(l.Sent()) == l.Taken()
    ensures forall i :: 0 <= i < |l.Sent()| ==> 1 <= |l.Sent()[i]| <= 1000
  {
    hide Flatten;
  }

  lemma NothingTaken<T(0)>(l: Loader<T>)
    requires l.Valid() && l.sent == [] && l.buffer.len == 0
    ensures l.Taken() == [] && Flatten<T>([]) == []
  {
  }

  // ---------------------------------------------------------------- a file

  /** Every N-Quad of the group got UIDs for its subject and object. */
  predicate AllNamed<S, T>(nqs: seq<S>, uid: S -> Option<T>) {
    forall i :: 0 <= i < |nqs| ==> uid(nqs[i]).Some?
  }

  function Named<S, T>(nqs: seq<S>, uid: S -> Option<T>): (r: seq<T>)
    requires AllNamed(nqs, uid)
    ensures |r| == |nqs| && forall i :: 0 <= i < |nqs| ==> r[i] == uid(nqs[i]).value
  {
    seq(|nqs|, i requires 0 <= i < |nqs| && AllNamed(nqs, uid) => uid(nqs[i]).value)
  }

  /** The loop that replaces blank nodes; the first failing lookup ends it. */
  method NameGroup<S, T>(nqs: seq<S>, uid: S -> Option<T>) returns (r: Option<seq<T>>)
    ensures r.Some? <==> AllNamed(nqs, uid)
    ensures r.Some? ==> r.value == Named(nqs, uid)
  {
    var named: seq<T> := [];
    for i := 0 to |nqs|
      invariant |named| == i && forall k :: 0 <= k < i ==> uid(nqs[k]) == Some(named[k])
    {
      match uid(nqs[i]) {
        case None => return None;
        case Some(nq) => named := named + [nq];
      }
    }
    return Some(named);
  }

  ghost predicate GroupsNamed<S, T>(groups: seq<seq<S>>, uid: S -> Option<T>) {
    forall i :: 0 <= i < |groups| ==> AllNamed(groups[i], uid)
  }

  ghost function NamedGroups<S, T>(groups: seq<seq<S>>, uid: S -> Option<T>): seq<seq<T>>
    requires GroupsNamed(groups, uid)
  {
    seq(|groups|, i requires 0 <= i < |groups| && GroupsNamed(groups, uid) => Named(groups[i], uid))
  }

  lemma NextGroup<S, T>(groups: seq<seq<S>>, uid: S -> Option<T>, i: nat)
    requires i < |groups| && GroupsNamed(groups[..i], uid) && AllNamed(groups[i], uid)
    ensures GroupsNamed(groups[..i + 1], uid)
    ensures Flatten(NamedGroups(groups[..i + 1], uid)) == Flatten(NamedGroups(groups[..i], uid)) + Named(groups[i], uid)
  {
    hide Flatten;
    assert groups[..i + 1] == groups[..i] + [groups[i]];
    assert NamedGroups(groups[..i + 1], uid) == NamedGroups(groups[..i], uid) + [Named(groups[i], uid)];
    FlattenAppend(NamedGroups(groups[..i], uid), Named(groups[i], uid));
  }

  /** How much is left in the buffer after the groups: it is sent whenever it holds 100000 or more. */
  function Unsent<S>(groups: seq<seq<S>>): nat {
    if groups == [] then 0 else
      var n := Unsent(groups[..|groups| - 1]) + |groups[|groups| - 1]|;
      if groups[|groups| - 1] == [] || n < 100000 then n else 0
  }

  lemma NoGroups<S, T>(groups: seq<seq<S>>, uid: S -> Option<T>)
    ensures Unsent(groups[..0]) == 0 && GroupsNamed(groups[..0], uid) && NamedGroups(groups[..0], uid) == []
  {
    assert groups[..0] == [];
  }

  lemma NextUnsent<S>(groups: seq<seq<S>>, i: nat)
    requires i < |groups|
    ensures Unsent(groups[..i + 1]) ==
            var n := Unsent(groups[..i]) + |groups[i]|; if groups[i] == [] || n < 100000 then n else 0
  {
    assert groups[..i + 1][..i] == groups[..i];
  }

  datatype End = Complete | Cancelled | LookupFailed

  /**
   A file's groups, in the order the parser delivers them; the context is cancelled before group stop. The
   batches are what the channel holds in the end: all of the groups with their UIDs, in order, or a prefix
   of the groups taken before the cancellation or the first failing lookup, all but what was still buffered.
   */
  method ProcessFile<S, T(0)>(groups: seq<seq<S>>, uid: S -> Option<T>, stop: nat)
      returns (batches: seq<seq<T>>, taken: nat, end: End)
    ensures taken <= |groups| && taken <= stop && GroupsNamed(groups[..taken], uid)
    ensures match end
            case Complete => taken == |groups|
            case Cancelled => taken == stop && taken < |groups|
            case LookupFailed => taken < |groups| && !AllNamed(groups[taken], uid)
    ensures Flatten(batches) <= Flatten(NamedGroups(groups[..taken], uid))
    ensures end.Complete? ==> Flatten(batches) == Flatten(NamedGroups(groups, uid))
    ensures !end.Complete? ==> |Flatten(batches)| + Unsent(groups[..taken]) == |Flatten(NamedGroups(groups[..taken], uid))|
    ensures forall i :: 0 <= i < |batches| ==> 1 <= |batches[i]| <= 1000
  {
    hide Flatten, AllNamed, Unsent, NamedGroups, Named, Loader.Valid, Loader.Sent, Loader.Taken;
    var l := new Loader<T>();
    NothingTaken(l);
    NoGroups(groups, uid);
    for i := 0 to |groups|
      invariant i <= stop && l.Valid() && fresh(l) && fresh(l.Arrays())
      invariant GroupsNamed(groups[..i], uid) && l.Taken() == Flatten(NamedGroups(groups[..i], uid))
      invariant l.buffer.len == Unsent(groups[..i])
    {
      SentIsPrefix(l);
      NextUnsent(groups, i);
      if i == stop {
        return l.Sent(), i, Cancelled;
      }
      var named := NameGroup(groups[i], uid);
      if named.None? {
        return l.Sent(), i, LookupFailed;
      }
      l.Take(named.value);
      NextGroup(groups, uid, i);
    }
    assert groups[..|groups|] == groups;
    l.Drain();
    SentIsPrefix(l);
    batches, taken, end := l.Sent(), |groups|, Complete;
  }
}
