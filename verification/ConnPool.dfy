/**
 The client's connection pool and the transactions that hold a connection for their lifetime. Over any run
 every connection is pooled, checked out or closed, and a transaction returns its connection once.
 */
module ConnPool {
  import opened Basics

  type Conn = nat

  /** Out and closed are where connections are when they are not in the channel. */
  datatype Pool = Pool(size: nat, pooled: seq<Conn>, out: set<Conn>, closed: set<Conn>)

  /** get: an idle connection, else what the factory made of the request; None is its error. */
  function Got(p: Pool, made: Option<Conn>): (Pool, Option<Conn>) {
    if p.pooled != [] then (p.(pooled := p.pooled[1..], out := p.out + {p.pooled[0]}), Some(p.pooled[0]))
    else match made
      case None => (p, None)
      case Some(c) => (p.(out := p.out + {c}), made)
  }

  /** put: back into the channel, or closed when the channel is full. */
  function PutBack(p: Pool, c: Conn): Pool {
    if |p.pooled| < p.size then p.(pooled := p.pooled + [c], out := p.out - {c})
    else p.(out := p.out - {c}, closed := p.closed + {c})
  }

  function Drained(p: Pool): Pool {
    p.(pooled := [], closed := p.closed + Elements(p.pooled))
  }

  function Elements(s: seq<Conn>): set<Conn> {
    set c | c in s
  }

  datatype Txn = Txn(conn: Option<Conn>, initErr: bool, closed: bool)

  function Opened(p: Pool, made: Option<Conn>): (Pool, Txn) {
    var (p', conn) := Got(p, made);
    (p', Txn(conn, conn.None?, false))
  }

  /** release: the connection goes back on the first call only. */
  function Released(p: Pool, t: Txn): (Pool, Txn) {
    if t.closed then (p, t)
    else (if t.conn.Some? then PutBack(p, t.conn.value) else p, t.(closed := true))
  }

  // ---------------------------------------------------------------- the objects

  class ClientPool {
    const size: nat
    var clients: seq<Conn>       // the channel
    ghost var out: set<Conn>
    ghost var closed: set<Conn>

    ghost function Value(): Pool
      reads this
    {
      Pool(size, clients, out, closed)
    }

    constructor (size: nat)
      ensures Value() == Pool(size, [], {}, {})
    {
      this.size, clients, out, closed := size, [], {}, {};
    }

    /** made is what the factory would return now. */
    method Get(made: Option<Conn>) returns (client: Option<Conn>)
      modifies this
      ensures (Value(), client) == Got(old(Value()), made)
      ensures old(clients) != [] ==>
                client == Some(old(clients)[0]) && clients == old(clients)[1..] && out == old(out) + {old(clients)[0]}
      ensures old(clients) == [] ==>
                client == made && clients == [] && out == old(out) + if made.Some? then {made.value} else {}
    {
      if |clients| > 0 {
        client := Some(clients[0]);
        clients, out := clients[1..], out + {client.value};
        return;
      }
      client := made;
      out := if made.Some? then out + {made.value} else out;
    }

    method Put(client: Conn)
      modifies this
      ensures Value() == PutBack(old(Value()), client)
    {
      out := out - {client};
      if |clients| < size {
        clients := clients + [client];
      } else {
        closed := closed + {client};
      }
    }

    /** Closes what is idle; the channel itself stays open. */
    method Close() returns (count: nat)
      modifies this
      ensures Value() == Drained(old(Value())) && count == |old(clients)|
    {
      count := 0;
      assert old(clients)[0..] == clients;
      while clients != []
        invariant count <= |old(clients)| && clients == old(clients)[count..] && out == old(out)
        invariant closed == old(closed) + Elements(old(clients)[..count])
        decreases |clients|
      {
        var client := clients[0];
        clients := clients[1..];
        closed := closed + {client};
        assert old(clients)[..count + 1] == old(clients)[..count] + [client];
        count := count + 1;
      }
      assert old(clients)[..count] == old(clients);
    }
  }

  class Transaction {
    const pool: ClientPool
    const conn: Option<Conn>
    const initErr: bool
    var closed: bool

    ghost function Value(): Txn
      reads this
    {
      Txn(conn, initErr, closed)
    }

    constructor (pool: ClientPool, made: Option<Conn>)
      modifies pool
      ensures this.pool == pool && (pool.Value(), Value()) == Opened(old(pool.Value()), made)
      ensures !closed && conn == (if old(pool.clients) != [] then Some(old(pool.clients)[0]) else made)
      ensures initErr <==> old(pool.clients) == [] && made.None?
    {
      var client := pool.Get(made);
      this.pool := pool;
      conn, initErr, closed := client, client.None?, false;
    }

    method Release()
      modifies `closed, pool
      ensures (pool.Value(), Value()) == Released(old(pool.Value()), old(Value()))
    {
      if closed { return; }
      closed := true;
      if conn.Some? {
        pool.Put(conn.value);
      }
    }

    /** accepted: whether the server takes the commit. The connection goes back either way. */
    method Commit(accepted: bool) returns (ok: bool)
      modifies `closed, pool
      ensures ok <==> !initErr && accepted
      ensures (pool.Value(), Value()) ==
              if initErr then (old(pool.Value()), old(Value())) else Released(old(pool.Value()), old(Value()))
    {
      if initErr { return false; }
      ok := accepted;
      Release();
    }

    method Discard()
      modifies `closed, pool
      ensures (pool.Value(), Value()) == Released(old(pool.Value()), old(Value()))
    {
      Release();
    }
  }

  // ---------------------------------------------------------------- runs

  type TxnId = nat

  /** Besides transactions, single-shot calls borrow connections; puts counts a transaction's returns. */
  datatype System = System(pool: Pool, txns: map<TxnId, Txn>, borrowed: set<Conn>, puts: map<TxnId, nat>)

  datatype Act =
    | Begin(t: TxnId, made: Option<Conn>)
    | Commit(t: TxnId)
    | Discard(t: TxnId)
    | Borrow(made: Option<Conn>)
    | GiveBack(c: Conn)
    | ClosePool

  /** A factory makes new connections. */
  predicate New(p: Pool, made: Option<Conn>) {
    made.Some? ==> made.value !in p.pooled && made.value !in p.out && made.value !in p.closed
  }

  /** The put that release does, counted. */
  function AfterRelease(s: System, t: TxnId): System
    requires t in s.txns && t in s.puts
  {
    var (pool, txn) := Released(s.pool, s.txns[t]);
    var n := if !s.txns[t].closed && s.txns[t].conn.Some? then 1 else 0;
    s.(pool := pool, txns := s.txns[t := txn], puts := s.puts[t := s.puts[t] + n])
  }

  predicate Next(s: System, s': System, a: Act) {
    match a
    case Begin(t, made) =>
      t !in s.txns && New(s.pool, made)
      && var (pool, txn) := Opened(s.pool, made);
         s' == s.(pool := pool, txns := s.txns[t := txn], puts := s.puts[t := 0])
    case Commit(t) =>
      t in s.txns && t in s.puts && s' == if s.txns[t].initErr then s else AfterRelease(s, t)
    case Discard(t) => t in s.txns && t in s.puts && s' == AfterRelease(s, t)
    case Borrow(made) =>
      New(s.pool, made)
      && var (pool, conn) := Got(s.pool, made);
         s' == s.(pool := pool, borrowed := if conn.Some? then s.borrowed + {conn.value} else s.borrowed)
    case GiveBack(c) => c in s.borrowed && s' == s.(pool := PutBack(s.pool, c), borrowed := s.borrowed - {c})
    case ClosePool => s' == s.(pool := Drained(s.pool))
  }

  ghost predicate Run(run: seq<System>, acts: seq<Act>) {
    && |run| == |acts| + 1
    && run[0].pool.pooled == [] && run[0].pool.out == {} && run[0].pool.closed == {}
    && run[0].txns == map[] && run[0].borrowed == {} && run[0].puts == map[]
    && forall i :: 0 <= i < |acts| ==> Next(run[i], run[i + 1], acts[i])
  }

  /** In exactly one place, at most once, and no more pooled than the pool holds. */
  ghost predicate Partitioned(p: Pool) {
    && |p.pooled| <= p.size
    && (forall i, j :: 0 <= i < j < |p.pooled| ==> p.pooled[i] != p.pooled[j])
    && (forall c :: c in p.pooled ==> c !in p.out && c !in p.closed)
    && p.out !! p.closed
  }

  predicate Holds(t: Txn, c: Conn) {
    !t.closed && t.conn == Some(c)
  }

  /** Every connection out has one holder: a call that borrowed it or an unfinished transaction. */
  ghost predicate Held(s: System) {
    && (forall c :: c in s.borrowed ==> c in s.pool.out)
    && (forall c :: c in s.pool.out && c !in s.borrowed ==> exists t :: t in s.txns && Holds(s.txns[t], c))
    && (forall t, c :: t in s.txns && Holds(s.txns[t], c) ==> c in s.pool.out && c !in s.borrowed)
    && (forall t, u, c :: t in s.txns && u in s.txns && Holds(s.txns[t], c) && Holds(s.txns[u], c) ==> t == u)
  }

  ghost predicate Counted(s: System) {
    && s.puts.Keys == s.txns.Keys
    && forall t :: t in s.txns ==>
         && (s.txns[t].initErr <==> s.txns[t].conn.None?)
         && s.puts[t] == if s.txns[t].closed && s.txns[t].conn.Some? then 1 else 0
  }

  ghost predicate Inv(s: System) {
    Partitioned(s.pool) && Held(s) && Counted(s)
  }

  /** All connections there are. */
  function Known(p: Pool): set<Conn> {
    Elements(p.pooled) + p.out + p.closed
  }

  lemma GetKeeps(p: Pool, made: Option<Conn>)
    requires Partitioned(p) && New(p, made)
    ensures var (p', conn) := Got(p, made);
            && Partitioned(p') && (conn.None? ==> p' == p)
            && (conn.Some? ==> conn.value !in p.out && p'.out == p.out + {conn.value})
            && Known(p) <= Known(p') && p'.closed == p.closed
  {
  }

  lemma PutKeeps(p: Pool, c: Conn)
    requires Partitioned(p) && c in p.out
    ensures var p' := PutBack(p, c);
            Partitioned(p') && p'.out == p.out - {c} && Known(p') == Known(p) && p.closed <= p'.closed
  {
    var p' := PutBack(p, c);
    if |p.pooled| < p.size {
      assert Elements(p'.pooled) == Elements(p.pooled) + {c};
    }
  }

  lemma ReleaseKeeps(s: System, t: TxnId)
    requires Inv(s) && t in s.txns
    ensures Inv(AfterRelease(s, t)) && Known(AfterRelease(s, t).pool) == Known(s.pool)
    ensures s.pool.closed <= AfterRelease(s, t).pool.closed
  {
    hide Partitioned, PutBack, Known;
    var s', txn := AfterRelease(s, t), s.txns[t];
    if !txn.closed && txn.conn.Some? {
      assert Holds(txn, txn.conn.value);
      PutKeeps(s.pool, txn.conn.value);
      forall c | c in s'.pool.out && c !in s'.borrowed ensures exists u :: u in s'.txns && Holds(s'.txns[u], c) {
        var u :| u in s.txns && Holds(s.txns[u], c);
        assert Holds(s'.txns[u], c);
      }
    } else {
      forall c | c in s'.pool.out && c !in s'.borrowed ensures exists u :: u in s'.txns && Holds(s'.txns[u], c) {
        var u :| u in s.txns && Holds(s.txns[u], c);
        assert Holds(s'.txns[u], c);
      }
    }
  }

  lemma BorrowKeeps(s: System, s': System, made: Option<Conn>)
    requires Inv(s) && Next(s, s', Borrow(made))
    ensures Inv(s') && Known(s.pool) <= Known(s'.pool) && s.pool.closed <= s'.pool.closed
  {
    hide Partitioned, Got, Known;
    GetKeeps(s.pool, made);
    var (pool, conn) := Got(s.pool, made);
    if conn.Some? {
      var c0 := conn.value;
      assert s'.borrowed == s.borrowed + {c0} && s'.pool.out == s.pool.out + {c0} && s'.txns == s.txns;
      assert c0 !in s.pool.out;
      assert Held(s');
    } else {
      assert s' == s;
    }
  }

  /**
   Nothing is wasted: a connection is made only when none is idle, and outside Close one is closed only
   when the pool is full. Close leaves nothing idle.
   */
  lemma NothingIsWasted(s: System, s': System, a: Act)
    requires Inv(s) && Next(s, s', a)
    ensures Known(s'.pool) != Known(s.pool) ==> s.pool.pooled == []
    ensures !a.ClosePool? && s'.pool.closed != s.pool.closed ==> |s.pool.pooled| == s.pool.size
    ensures a.ClosePool? ==> s'.pool.pooled == [] && s'.pool.closed == s.pool.closed + Elements(s.pool.pooled)
  {
    hide Got, Known;
    match a
    case Begin(t, made) => GetFrom(s.pool, made);
    case Borrow(made) => GetFrom(s.pool, made);
    case GiveBack(c) => PutKeeps(s.pool, c);
    case Commit(t) => ReleaseKeeps(s, t);
    case Discard(t) => ReleaseKeeps(s, t);
    case ClosePool => DrainKeeps(s.pool);
  }

  /**
   An idle connection is always handed out, whatever the factory would do: a transaction or a call that starts
   while one is idle gets it, and only with none idle does it depend on the factory.
   */
  lemma IdleIsHandedOut(run: seq<System>, acts: seq<Act>, i: nat, a: Act)
    requires Run(run, acts) && i < |acts| && acts[i] == a && (a.Begin? || a.Borrow?)
    ensures var (s, s') := (run[i], run[i + 1]);
            var got := if s.pool.pooled == [] then a.made else Some(s.pool.pooled[0]);
            && (a.Begin? ==> a.t in s'.txns && s'.txns[a.t].conn == got && (s'.txns[a.t].initErr <==> got.None?))
            && (a.Borrow? ==> s'.borrowed == s.borrowed + if got.Some? then {got.value} else {})
            && (got.Some? ==> got.value in s'.pool.out && got.value !in s'.pool.pooled && got.value !in s.pool.out)
  {
    RunKeepsInv(run, acts, i);
    assert Next(run[i], run[i + 1], acts[i]);
  }

  lemma GetFrom(p: Pool, made: Option<Conn>)
    ensures p.pooled != [] ==> Known(Got(p, made).0) == Known(p)
    ensures Got(p, made).0.closed == p.closed
  {
  }

  lemma NextKeepsInv(s: System, s': System, a: Act)
    requires Inv(s) && Next(s, s', a)
    ensures Inv(s') && Known(s.pool) <= Known(s'.pool) && s.pool.closed <= s'.pool.closed
  {
    hide Partitioned, Got, PutBack, Known;
    match a
    case Begin(t, made) =>
      GetKeeps(s.pool, made);
      forall c | c in s'.pool.out && c !in s'.borrowed ensures exists u :: u in s'.txns && Holds(s'.txns[u], c) {
        if c in s.pool.out {
          var u :| u in s.txns && Holds(s.txns[u], c);
          assert Holds(s'.txns[u], c);
        } else {
          assert Holds(s'.txns[t], c);
        }
      }
    case Borrow(made) => BorrowKeeps(s, s', made);
    case GiveBack(c) => PutKeeps(s.pool, c);
    case Commit(t) => ReleaseKeeps(s, t);
    case Discard(t) => ReleaseKeeps(s, t);
    case ClosePool => DrainKeeps(s.pool);
  }

  lemma DrainKeeps(p: Pool)
    requires Partitioned(p)
    ensures Partitioned(Drained(p)) && Known(Drained(p)) == Known(p)
  {
  }

  lemma {:induction false} RunKeepsInv(run: seq<System>, acts: seq<Act>, i: nat)
    requires Run(run, acts) && i < |run|
    ensures Inv(run[i])
  {
    hide Inv, Next;
    if i > 0 {
      RunKeepsInv(run, acts, i - 1);
      NextKeepsInv(run[i - 1], run[i], acts[i - 1]);
    } else {
      InitInv(run[0]);
    }
  }

  lemma InitInv(s: System)
    requires s.pool.pooled == [] && s.pool.out == {} && s.pool.closed == {}
    requires s.txns == map[] && s.borrowed == {} && s.puts == map[]
    ensures Inv(s)
  {
  }

  /**
   Over any run each connection ever made is in exactly one of pooled, checked out and closed, the pool
   never exceeds its size nor holds a connection twice, and nothing closed comes back.
   */
  lemma {:induction false} ConnectionsAreConserved(run: seq<System>, acts: seq<Act>, i: nat, j: nat)
    requires Run(run, acts) && i <= j < |run|
    ensures Partitioned(run[j].pool) && Known(run[i].pool) <= Known(run[j].pool)
    ensures run[i].pool.closed <= run[j].pool.closed
    decreases j
  {
    hide Partitioned, Known, Next;
    RunKeepsInv(run, acts, j);
    if i < j {
      ConnectionsAreConserved(run, acts, i, j - 1);
      RunKeepsInv(run, acts, j - 1);
      NextKeepsInv(run[j - 1], run[j], acts[j - 1]);
    }
  }

  /** Whatever the sequence of Commit and Discard calls, a transaction that got a connection returns it once. */
  lemma ReturnedOnce(run: seq<System>, acts: seq<Act>, i: nat, t: TxnId)
    requires Run(run, acts) && i < |acts| && (acts[i] == Commit(t) || acts[i] == Discard(t))
    ensures t in run[i + 1].txns && t in run[i + 1].puts
    ensures run[i + 1].puts[t] == if run[i + 1].txns[t].conn.Some? then 1 else 0
    ensures run[i + 1].txns[t].conn.Some? ==> run[i + 1].txns[t].closed
  {
    RunKeepsInv(run, acts, i);
    RunKeepsInv(run, acts, i + 1);
    assert Next(run[i], run[i + 1], acts[i]);
  }

  /** A connection out has exactly one holder. */
  lemma OneHolder(run: seq<System>, acts: seq<Act>, i: nat, c: Conn)
    requires Run(run, acts) && i < |run| && c in run[i].pool.out
    ensures c in run[i].borrowed <==> !exists t :: t in run[i].txns && Holds(run[i].txns[t], c)
    ensures forall t, u :: t in run[i].txns && u in run[i].txns ==>
              Holds(run[i].txns[t], c) && Holds(run[i].txns[u], c) ==> t == u
  {
    RunKeepsInv(run, acts, i);
  }

  // ---------------------------------------------------------------- after a close

  predicate IsReturn(a: Act) {
    a.GiveBack? || a.Commit? || a.Discard?
  }

  /** A put leaves the pool empty only if it holds nothing at all. */
  lemma PutLeaves(p: Pool, c: Conn)
    requires Partitioned(p) && c in p.out
    ensures var p' := PutBack(p, c);
            p'.size == p.size && p'.out == p.out - {c} && p'.out != p.out && (p'.pooled == [] <==> p.size == 0)
  {
    assert c !in PutBack(p, c).out;
  }

  lemma ReturnStep(s: System, s': System, a: Act)
    requires Inv(s) && Next(s, s', a) && IsReturn(a)
    ensures s'.pool.size == s.pool.size && s'.pool.out <= s.pool.out
    ensures if s'.pool.out == s.pool.out then s'.pool == s.pool else s'.pool.pooled == [] <==> s.pool.size == 0
  {
    hide PutBack, Partitioned, Counted;
    if a.GiveBack? {
      PutLeaves(s.pool, a.c);
    } else {
      var t := s.txns[a.t];
      if !t.closed && t.conn.Some? {
        assert Holds(t, t.conn.value);
        PutLeaves(s.pool, t.conn.value);
      }
    }
  }

  lemma {:induction false} AfterClose(run: seq<System>, acts: seq<Act>, i: nat, m: nat)
    requires Run(run, acts) && i < m <= |acts| && acts[i].ClosePool?
    requires forall j :: i < j < m ==> IsReturn(acts[j])
    ensures run[m].pool.size == run[i].pool.size && run[m].pool.out <= run[i].pool.out
    ensures run[m].pool.pooled == [] <==> run[m].pool.out == run[i].pool.out || run[i].pool.size == 0
  {
    assert Next(run[m - 1], run[m], acts[m - 1]);
    if m > i + 1 {
      hide Next, Inv;
      AfterClose(run, acts, i, m - 1);
      RunKeepsInv(run, acts, m - 1);
      ReturnStep(run[m - 1], run[m], acts[m - 1]);
    }
  }

  /**
   Closing does not stop later puts. When after a Close everything still out is returned, the pool ends
   empty if and only if nothing was out at the Close or the pool has no room at all; else open connections
   stay in it.
   */
  lemma LateReturnsStayOpenIff(run: seq<System>, acts: seq<Act>, i: nat, n: nat)
    requires Run(run, acts) && i < n <= |acts| && acts[i].ClosePool?
    requires (forall j :: i < j < n ==> IsReturn(acts[j])) && run[n].pool.out == {}
    ensures run[n].pool.pooled == [] <==> run[i].pool.out == {} || run[i].pool.size == 0
    ensures forall c :: c in run[n].pool.pooled ==> c in run[i].pool.out && c !in run[n].pool.closed
  {
    hide Next, Inv;
    AfterClose(run, acts, i, n);
    ConnectionsAreConserved(run, acts, n, n);
    PooledWereOut(run, acts, i, n);
  }

  lemma {:induction false} PooledWereOut(run: seq<System>, acts: seq<Act>, i: nat, m: nat)
    requires Run(run, acts) && i < m <= |acts| && acts[i].ClosePool?
    requires forall j :: i < j < m ==> IsReturn(acts[j])
    ensures forall c :: c in run[m].pool.pooled ==> c in run[i].pool.out
  {
    assert Next(run[m - 1], run[m], acts[m - 1]);
    if m > i + 1 {
      hide Next, Inv;
      PooledWereOut(run, acts, i, m - 1);
      AfterClose(run, acts, i, m - 1);
      RunKeepsInv(run, acts, m - 1);
      ReturnPools(run[m - 1], run[m], acts[m - 1]);
    }
  }

  /** What a return adds to the pool was out. */
  lemma ReturnPools(s: System, s': System, a: Act)
    requires Inv(s) && Next(s, s', a) && IsReturn(a)
    ensures forall c :: c in s'.pool.pooled ==> c in s.pool.pooled || c in s.pool.out
  {
    hide Partitioned, Counted;
    if !a.GiveBack? {
      var t := s.txns[a.t];
      assert t.conn.Some? && !t.closed ==> Holds(t, t.conn.value);
    }
  }
}
