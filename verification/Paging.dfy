/**
 IterNodes: streaming a result page by page. Over a fixed ordered result the stream is exactly the
 window the caller's Offset and Limit describe, cut short only by the consumer or by a failing page
 query, and the number of page queries is known in advance.
 */
module Paging {

  const PAGE_SIZE := 50

  function Min(a: nat, b: nat): nat {
    if a < b then a else b
  }

  /** What one page query returns. */
  function Page<T>(rows: seq<T>, off: nat, size: nat): seq<T> {
    rows[Min(off, |rows|)..Min(off + size, |rows|)]
  }

  /** The rows the caller asked for: from offset, at most limit of them, or all when limit is not positive. */
  function Window<T>(rows: seq<T>, offset: nat, limit: int): seq<T> {
    if limit > 0 then Page(rows, offset, limit) else rows[Min(offset, |rows|)..]
  }

  /** Page queries a full iteration takes. */
  function Queries(available: nat, limit: int): nat {
    if 0 < limit <= available then (limit + PAGE_SIZE - 1) / PAGE_SIZE else available / PAGE_SIZE + 1
  }

  /** How an iteration ended. */
  datatype End = Complete | Stopped | Failed

  /**
   The loop. The consumer accepts rows until it has seen keep of them and breaks on the next (None:
   never breaks); page query number failAt fails (None: none does).
   */
  method IterNodes<T>(rows: seq<T>, offset: nat, limit: int, keep: int, failAt: int)
    returns (yielded: seq<T>, queries: nat, end: End)
    ensures var w := Window(rows, offset, limit);
            var q := Queries(if offset < |rows| then |rows| - offset else 0, limit);
            var reach := if 0 <= failAt < q then Min(|w|, failAt * 50) else |w|;
            if 0 <= keep < reach then
              end == Stopped && yielded == w[..keep + 1] && queries == keep / 50 + 1
            else if 0 <= failAt < q then
              end == Failed && yielded == w[..reach] && queries == failAt + 1
            else
              end == Complete && yielded == w && queries == q
  {
    hide Page, Window, Queries;
    yielded, queries := [], 0;
    var remaining := limit;
    var off := offset;
    ghost var w := Window(rows, offset, limit);
    ghost var q := Queries(if offset < |rows| then |rows| - offset else 0, limit);
    while true
      invariant off == offset + queries * PAGE_SIZE
      invariant queries * PAGE_SIZE <= |w|
      invariant yielded == w[..queries * PAGE_SIZE]
      invariant remaining == if limit > 0 then limit - queries * PAGE_SIZE else limit
      invariant limit > 0 ==> remaining > 0
      invariant 0 <= keep ==> queries * PAGE_SIZE <= keep
      invariant 0 <= failAt ==> queries <= failAt
      decreases |w| - queries * PAGE_SIZE
    {

      var size := PAGE_SIZE;
      if remaining > 0 && remaining < size {
        size := remaining;
      }
      var page := Page(rows, off, size);
      ghost var done := queries * PAGE_SIZE;
      PageOfWindow(rows, offset, limit, queries, size);
      if queries == failAt {
        return yielded, queries + 1, Failed;
      }
      var i := 0;
      while i < |page|
        invariant 0 <= i <= |page|
        invariant yielded == w[..done + i]
        invariant 0 <= keep ==> done + i <= keep
      {
        yielded := yielded + [page[i]];
        assert yielded == w[..done + i + 1];
        if |yielded| == keep + 1 {
          assert keep / PAGE_SIZE == queries;
          return yielded, queries + 1, Stopped;
        }
        i := i + 1;
      }
      queries := queries + 1;
      if remaining > 0 {
        remaining := remaining - |page|;
        if remaining <= 0 {
          return yielded, queries, Complete;
        }
      }
      if |page| < size {
        return yielded, queries, Complete;
      }
      off := off + PAGE_SIZE;
    }
  }

  /**
   The page after k full pages is the next slice of the window, and it is the last one exactly when
   it meets the limit or comes back short.
   */
  lemma PageOfWindow<T>(rows: seq<T>, offset: nat, limit: int, k: nat, size: nat)
    requires k * PAGE_SIZE <= |Window(rows, offset, limit)|
    requires limit > 0 ==> k * PAGE_SIZE < limit
    requires size == if limit > 0 && limit - k * PAGE_SIZE < PAGE_SIZE then limit - k * PAGE_SIZE else PAGE_SIZE
    ensures var w, done := Window(rows, offset, limit), k * PAGE_SIZE;
            var page := Page(rows, offset + done, size);
            var q := Queries(if offset < |rows| then |rows| - offset else 0, limit);
            && page == w[done..Min(done + size, |w|)]
            && |page| <= size <= PAGE_SIZE
            && k < q
            && if (limit > 0 && limit - done - |page| <= 0) || |page| < size
               then done + |page| == |w| && q == k + 1
               else |page| == PAGE_SIZE && k + 1 < q
  {
    hide Queries;
    var available := if offset < |rows| then |rows| - offset else 0;
    assert |Window(rows, offset, limit)| == if limit > 0 then Min(limit, available) else available;
    QueriesAre(available, limit);
  }

  /** The window row by row: what is at offset and behind it, as far as the limit goes if there is one. */
  lemma WindowAt<T>(rows: seq<T>, offset: nat, limit: int, i: nat)
    ensures i < |Window(rows, offset, limit)| <==> offset + i < |rows| && (limit <= 0 || i < limit)
    ensures i < |Window(rows, offset, limit)| ==> Window(rows, offset, limit)[i] == rows[offset + i]
  {
  }

  /** The count as an inequality rather than a quotient. */
  lemma QueriesAre(available: nat, limit: int)
    ensures var q := Queries(available, limit);
            if 0 < limit <= available then (q - 1) * 50 < limit <= q * 50
            else (q - 1) * 50 <= available < q * 50
  {
  }
}
