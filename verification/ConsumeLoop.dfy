/**
 The retry loop of GetAndDelete as one caller runs it. What the database answers, attempt by attempt, is
 a parameter; the interleaving that produces the answers is the subject of the protocol modules.
 */
module ConsumeLoop {
  import opened Basics
  import ConsumeSpec

  /** An error: whether it wraps dgo's ErrAborted, and its message. */
  datatype Err = Err(sentinel: bool, message: string)

  /** s contains t, ignoring the case of s. */
  predicate ContainsFold(s: string, t: string) {
    exists i :: 0 <= i <= |s| - |t| && MatchesAt(s, t, i)
  }

  predicate MatchesAt(s: string, t: string, i: nat) {
    i + |t| <= |s| && forall k :: 0 <= k < |t| ==> Lower(s[i + k]) == t[k]
  }

  /** isAbortedErr */
  predicate IsAborted(e: Err) {
    e.sentinel || ContainsFold(e.message, "aborted")
  }

  /** One pass through the loop body. rec is what the read hydrated; hasUid is whether uidOf can read it. */
  datatype Attempt<R> =
    | NotFound
    | ReadError(err: Err)
    | Read(rec: R, hasUid: bool, deleted: Option<Err>, committed: Option<Err>)

  datatype Outcome<R> = Loaded(rec: R) | NotLoaded | NoUid(rec: R) | Error(err: Err)

  /** The attempt makes the loop go round again, attempts permitting. */
  predicate Retries<R>(a: Attempt<R>) {
    a.Read? && a.hasUid && a.deleted.None? && a.committed.Some? && IsAborted(a.committed.value)
  }

  function Settle<R>(a: Attempt<R>): Outcome<R> {
    match a
    case NotFound => NotLoaded
    case ReadError(e) => Error(e)
    case Read(rec, hasUid, deleted, committed) =>
      if !hasUid then NoUid(rec)
      else if deleted.Some? then Error(deleted.value)
      else if committed.Some? then Error(committed.value)
      else Loaded(rec)
  }

  predicate SaysAborted(w: string) {
    |w| == 7 && forall k :: 0 <= k < 7 ==> w[k] == "aborted"[k] || w[k] == "ABORTED"[k]
  }

  lemma LowerIs(c: char, l: char, u: char)
    requires 'a' <= l <= 'z' && u as int == l as int - 32
    ensures Lower(c) == l <==> c == l || c == u
  {
  }

  lemma MatchSays(s: string, i: nat)
    requires i + 7 <= |s|
    ensures MatchesAt(s, "aborted", i) <==> SaysAborted(s[i..i + 7])
  {
    hide Lower;
    var w := s[i..i + 7];
    forall k | 0 <= k < 7 ensures Lower(s[i + k]) == "aborted"[k] <==> w[k] == "aborted"[k] || w[k] == "ABORTED"[k] {
      LowerIs(w[k], "aborted"[k], "ABORTED"[k]);
    }
  }

  /** An error reads as an abort if it wraps the sentinel or says "aborted", in any case, anywhere. */
  lemma IsAbortedIff(e: Err)
    ensures IsAborted(e) <==> e.sentinel || exists a, w, b :: e.message == a + w + b && SaysAborted(w)
  {
    hide MatchesAt;
    var s := e.message;
    if i :| 0 <= i <= |s| - 7 && MatchesAt(s, "aborted", i) {
      var a, w, b := s[..i], s[i..i + 7], s[i + 7..];
      MatchSays(s, i);
      assert s == a + w + b && SaysAborted(w);
    }
    if a, w, b :| s == a + w + b && SaysAborted(w) {
      assert s[|a|..|a| + 7] == w;
      MatchSays(s, |a|);
      hide SaysAborted;
      assert MatchesAt(s, "aborted", |a|);
    }
  }

  /**
   The call settles on the first attempt that is not an abort, and on the eleventh whatever it is. It
   reports loaded exactly when that attempt's delete and commit went through, else the first error, and a
   miss always leaves the struct zero, even when an earlier attempt or the caller had filled it.
   */
  method GetAndDelete<R>(answers: nat -> Attempt<R>, obj0: Option<R>)
    returns (out: Outcome<R>, obj: Option<R>, attempts: nat)
    ensures 1 <= attempts <= 11
    ensures forall i :: 0 <= i < attempts - 1 ==> Retries(answers(i))
    ensures Retries(answers(attempts - 1)) ==> attempts == 11
    ensures out == Settle(answers(attempts - 1))
    ensures out.NotLoaded? ==> obj == None
    ensures match answers(attempts - 1)
            case NotFound => out.NotLoaded?
            case ReadError(e) => out == Error(e)
            case Read(rec, hasUid, deleted, committed) =>
              && (out == Loaded(rec) || out == NoUid(rec) || out.Error?)
              && (out.Loaded? <==> hasUid && deleted == None && committed == None)
              && (out.NoUid? <==> !hasUid)
              && (out.Error? ==> Some(out.err) == deleted || (deleted == None && Some(out.err) == committed))
    ensures answers(attempts - 1).Read? ==> obj == Some(answers(attempts - 1).rec)
  {
    obj := obj0;
    var attempt := 0;
    while true
      invariant 0 <= attempt <= ConsumeSpec.MAX_ATTEMPTS
      invariant forall i :: 0 <= i < attempt ==> Retries(answers(i))
      decreases ConsumeSpec.MAX_ATTEMPTS - attempt
    {
      match answers(attempt) {
        case NotFound =>
          return NotLoaded, None, attempt + 1;
        case ReadError(e) =>
          return Error(e), obj, attempt + 1;
        case Read(rec, hasUid, deleted, committed) =>
          obj := Some(rec);
          if !hasUid { return NoUid(rec), obj, attempt + 1; }
          if deleted.Some? { return Error(deleted.value), obj, attempt + 1; }
          if committed.Some? {
            if IsAborted(committed.value) && attempt < ConsumeSpec.MAX_ATTEMPTS {
              attempt := attempt + 1;
              continue;
            }
            return Error(committed.value), obj, attempt + 1;
          }
          return Loaded(rec), obj, attempt + 1;
      }
    }
  }
}
