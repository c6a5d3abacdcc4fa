/** The client's connection pool (src/lib/client.zig, `CompatibilityClientPool`
    and `ClientLease`). Each operation runs under the pool's mutex, so
    concurrent callers interleave whole operations. */
module LeasePool {
  import opened Basics

  const POOL_LIMIT: nat := 4

  datatype Mode = SharedConnection | PooledConnections

  datatype Lease = Lease(client: nat, released: bool)

  /** Clients are named by their place in `all`; `leases` are all leases ever handed out. */
  datatype Pool = Pool(mode: Mode, all: seq<nat>, available: seq<nat>, sharedInUse: bool, leases: seq<Lease>)

  function Limit(mode: Mode): nat {
    if mode == SharedConnection then 1 else POOL_LIMIT
  }

  function Init(mode: Mode): Pool { Pool(mode, [], [], false, []) }

  /** Whether a checkout goes on at once instead of waiting. */
  predicate Free(p: Pool) {
    if p.mode == SharedConnection then !p.sharedInUse else p.available != [] || |p.all| < Limit(p.mode)
  }

  /** One pass of `checkout`; `connects` says whether a new client could be made. */
  function Lend(p: Pool, connects: bool): Pool
    requires Free(p)
  {
    if p.mode == SharedConnection then p.(sharedInUse := true, leases := p.leases + [Lease(0, false)])
    else if p.available != [] then
      var last := |p.available| - 1;
      p.(available := p.available[..last], leases := p.leases + [Lease(p.available[last], false)])
    else if connects then p.(all := p.all + [|p.all|], leases := p.leases + [Lease(|p.all|, false)])
    else p
  }

  function Release(p: Pool, i: nat): Pool
    requires i < |p.leases|
  {
    var lease := p.leases[i];
    if lease.released then p
    else
      var done := p.(leases := p.leases[i := lease.(released := true)]);
      if p.mode == SharedConnection then done.(sharedInUse := false)
      else done.(available := p.available + [lease.client])
  }

  datatype Op = Take(connects: bool) | GiveBack(lease: nat)

  predicate Legal(p: Pool, op: Op) {
    match op
    case Take(_) => Free(p)
    case GiveBack(i) => i < |p.leases|
  }

  function Step(p: Pool, op: Op): Pool
    requires Legal(p, op)
  {
    match op
    case Take(connects) => Lend(p, connects)
    case GiveBack(i) => Release(p, i)
  }

  ghost predicate CanRun(p: Pool, ops: seq<Op>)
    decreases |ops|
  {
    ops == [] || (Legal(p, ops[0]) && CanRun(Step(p, ops[0]), ops[1..]))
  }

  ghost function After(p: Pool, ops: seq<Op>): Pool
    requires CanRun(p, ops)
    decreases |ops|
  {
    if ops == [] then p else After(Step(p, ops[0]), ops[1..])
  }

  // What every operation keeps.

  /** The clients of the leases still out. */
  function Held(leases: seq<Lease>): seq<nat> {
    if leases == [] then [] else (if leases[0].released then [] else [leases[0].client]) + Held(leases[1..])
  }

  lemma {:induction false} HeldAppend(leases: seq<Lease>, client: nat)
    ensures Held(leases + [Lease(client, false)]) == Held(leases) + [client]
  {
    if leases != [] {
      assert (leases + [Lease(client, false)])[1..] == leases[1..] + [Lease(client, false)];
      HeldAppend(leases[1..], client);
    }
  }

  lemma {:induction false} HeldRelease(leases: seq<Lease>, i: nat)
    requires i < |leases| && !leases[i].released
    ensures var after := Held(leases[i := leases[i].(released := true)]);
            |after| == |Held(leases)| - 1 && multiset(Held(leases)) == multiset(after) + multiset{leases[i].client}
  {
    var after := leases[i := leases[i].(released := true)];
    if i == 0 {
      assert after[1..] == leases[1..];
    } else {
      assert after[1..] == leases[1..][i - 1 := leases[i].(released := true)];
      HeldRelease(leases[1..], i - 1);
    }
  }

  /** Available and leased clients partition all pooled clients; the shared
      client is in use exactly while one lease is out. */
  ghost predicate Accounted(p: Pool) {
    if p.mode == SharedConnection then
      p.all == [] && p.available == [] && |Held(p.leases)| == if p.sharedInUse then 1 else 0
    else
      && !p.sharedInUse && |p.all| <= Limit(p.mode) && (forall i :: 0 <= i < |p.all| ==> p.all[i] == i)
      && multiset(p.available) + multiset(Held(p.leases)) == multiset(p.all)
  }

  lemma MovesOut(available: seq<nat>, held: seq<nat>, all: seq<nat>)
    requires available != [] && multiset(available) + multiset(held) == multiset(all)
    ensures var last := |available| - 1;
            multiset(available[..last]) + multiset(held + [available[last]]) == multiset(all)
  {
    var last := |available| - 1;
    assert available == available[..last] + [available[last]];
  }

  lemma LendKeeps(p: Pool, connects: bool)
    requires Accounted(p) && Free(p)
    ensures Accounted(Lend(p, connects))
  {
    if p.mode == SharedConnection {
      HeldAppend(p.leases, 0);
    } else if p.available != [] {
      HeldAppend(p.leases, p.available[|p.available| - 1]);
      MovesOut(p.available, Held(p.leases), p.all);
    } else if connects {
      HeldAppend(p.leases, |p.all|);
      var newest: nat := |p.all|;
      assert multiset(Held(p.leases) + [newest]) == multiset(Held(p.leases)) + multiset([newest]);
    }
  }

  lemma ReleaseKeeps(p: Pool, i: nat)
    requires Accounted(p) && i < |p.leases|
    ensures Accounted(Release(p, i))
  {
    if !p.leases[i].released { HeldRelease(p.leases, i); }
  }

  lemma {:induction false} RunKeeps(p: Pool, ops: seq<Op>)
    requires Accounted(p) && CanRun(p, ops)
    ensures Accounted(After(p, ops)) && After(p, ops).mode == p.mode
    decreases |ops|
  {
    if ops != [] {
      match ops[0] {
        case Take(connects) => LendKeeps(p, connects);
        case GiveBack(i) => ReleaseKeeps(p, i);
      }
      RunKeeps(Step(p, ops[0]), ops[1..]);
    }
  }

  lemma {:induction false} CountingNoDup(s: seq<nat>)
    requires forall i :: 0 <= i < |s| ==> s[i] == i
    ensures NoDup(s)
  {
    NoDupIff(s);
  }

  /** Over every run: no client is out twice or both out and available, nothing
      else was ever pooled, at most the limit exists, and both lists stay within
      the capacity reserved for them. */
  lemma PoolSafe(mode: Mode, ops: seq<Op>)
    requires CanRun(Init(mode), ops)
    ensures var p := After(Init(mode), ops);
            var held := Held(p.leases);
            && |held| <= Limit(mode) && |p.all| <= Limit(mode) && |p.available| <= Limit(mode)
            && (mode == PooledConnections ==>
                  NoDup(p.available + held) && multiset(p.available + held) == multiset(p.all))
  {
    RunKeeps(Init(mode), ops);
    var p := After(Init(mode), ops);
    var held := Held(p.leases);
    if mode == PooledConnections {
      assert multiset(p.available + held) == multiset(p.all);
      assert |multiset(p.available + held)| == |p.available| + |held|;
      assert |multiset(p.all)| == |p.all|;
      CountingNoDup(p.all);
      NoDupFromMultiset(p.all, p.available + held);
    }
  }

  /** Giving a lease back again changes nothing. */
  lemma ReleaseTwice(p: Pool, i: nat)
    requires i < |p.leases|
    ensures Release(Release(p, i), i) == Release(p, i)
  {
  }

  /** Once every lease is back, everything is available again. */
  lemma AllReturned(mode: Mode, ops: seq<Op>)
    requires CanRun(Init(mode), ops)
    requires forall i :: 0 <= i < |After(Init(mode), ops).leases| ==> After(Init(mode), ops).leases[i].released
    ensures var p := After(Init(mode), ops);
            !p.sharedInUse && (mode == PooledConnections ==> multiset(p.available) == multiset(p.all)) && Free(p)
  {
    RunKeeps(Init(mode), ops);
    var p := After(Init(mode), ops);
    NoneHeld(p.leases);
    assert |multiset(p.available)| == |p.available| && |multiset(p.all)| == |p.all|;
  }

  lemma {:induction false} NoneHeld(leases: seq<Lease>)
    requires forall i :: 0 <= i < |leases| ==> leases[i].released
    ensures Held(leases) == []
  {
    if leases != [] { NoneHeld(leases[1..]); }
  }

  // When it connects, and when it waits.

  /** A checkout goes on at once exactly while fewer clients are out than may exist. */
  lemma FreeIff(mode: Mode, ops: seq<Op>)
    requires CanRun(Init(mode), ops)
    ensures var p := After(Init(mode), ops); Free(p) <==> |Held(p.leases)| < Limit(mode)
  {
    RunKeeps(Init(mode), ops);
    var p := After(Init(mode), ops);
    assert |multiset(p.available) + multiset(Held(p.leases))| == |p.available| + |Held(p.leases)|;
    assert |multiset(p.all)| == |p.all|;
  }

  /** The most clients that were out at once. */
  ghost function Peak(p: Pool, ops: seq<Op>): (n: nat)
    requires CanRun(p, ops)
    ensures n >= |Held(p.leases)|
    decreases |ops|
  {
    if ops == [] then |Held(p.leases)|
    else
      var later := Peak(Step(p, ops[0]), ops[1..]);
      if later > |Held(p.leases)| then later else |Held(p.leases)|
  }

  lemma LendCounts(p: Pool, connects: bool)
    requires Accounted(p) && Free(p) && p.mode == PooledConnections
    ensures var q := Lend(p, connects);
            && |q.all| == (if p.available == [] && connects then |p.all| + 1 else |p.all|)
            && |Held(q.leases)| == (if p.available == [] && !connects then |Held(p.leases)| else |Held(p.leases)| + 1)
            && (p.available == [] <==> |Held(p.leases)| == |p.all|)
            && |Held(p.leases)| <= |p.all|
  {
    HeldCount(p);
    if p.available != [] {
      HeldAppend(p.leases, p.available[|p.available| - 1]);
    } else if connects {
      HeldAppend(p.leases, |p.all|);
    }
  }

  lemma HeldCount(p: Pool)
    requires Accounted(p) && p.mode == PooledConnections
    ensures |p.available| + |Held(p.leases)| == |p.all|
  {
    assert |multiset(p.available) + multiset(Held(p.leases))| == |p.available| + |Held(p.leases)|;
    assert |multiset(p.all)| == |p.all|;
  }

  lemma {:induction false} ConnectsAtPeaks(p: Pool, ops: seq<Op>)
    requires Accounted(p) && p.mode == PooledConnections && CanRun(p, ops)
    ensures |After(p, ops).all| == if Peak(p, ops) > |p.all| then Peak(p, ops) else |p.all|
    decreases |ops|
  {
    HeldCount(p);
    if ops != [] {
      match ops[0] {
        case Take(connects) =>
          LendCounts(p, connects);
          LendKeeps(p, connects);
        case GiveBack(i) => ReleaseKeeps(p, i);
      }
      HeldCount(Step(p, ops[0]));
      ConnectsAtPeaks(Step(p, ops[0]), ops[1..]);
    }
  }

  /** The pool connects only when every client it has is out: it ends with exactly
      as many as were ever out at once. */
  lemma PoolIsItsPeak(ops: seq<Op>)
    requires CanRun(Init(PooledConnections), ops)
    ensures |After(Init(PooledConnections), ops).all| == Peak(Init(PooledConnections), ops)
  {
    ConnectsAtPeaks(Init(PooledConnections), ops);
  }

  /** The client given back last is lent out next. */
  lemma LastBackFirstOut(p: Pool, i: nat, connects: bool)
    requires p.mode == PooledConnections && i < |p.leases| && !p.leases[i].released
    ensures Free(Release(p, i))
    ensures var leases := Lend(Release(p, i), connects).leases;
            |leases| == |p.leases| + 1 && leases[|p.leases|] == Lease(p.leases[i].client, false)
  {
  }

  // The classes.

  class ClientLease {
    const pool: CompatibilityClientPool
    const client: nat
    const mode: Mode
    ghost const index: nat   // its place among the pool's leases
    var released: bool

    constructor (pool: CompatibilityClientPool, client: nat, mode: Mode, ghost index: nat)
      ensures this.pool == pool && this.client == client && this.mode == mode && this.index == index && !released
    {
      this.pool, this.client, this.mode, this.index, released := pool, client, mode, index, false;
    }

    method Deinit()
      requires pool.Valid() && index < |pool.leases| && pool.leases[index] == this
      modifies this, pool
      ensures pool.Valid() && pool.leases == old(pool.leases) && pool.State() == Release(old(pool.State()), index)
    {
      if released {
        return;
      }
      released := true;
      pool.ReleaseLease(this);
    }
  }

  class CompatibilityClientPool {
    const mode: Mode
    const maxConnections: nat
    var sharedInUse: bool
    var pooledAvailable: seq<nat>
    var pooledAll: seq<nat>
    ghost var leases: seq<ClientLease>

    constructor (mode: Mode)
      ensures Valid() && fresh(leases) && State() == Init(mode)
    {
      this.mode, maxConnections := mode, Limit(mode);
      sharedInUse, pooledAvailable, pooledAll, leases := false, [], [], [];
    }

    ghost predicate Valid()
      reads this
    {
      && maxConnections == Limit(mode)
      && (forall i :: 0 <= i < |leases| ==> leases[i].pool == this && leases[i].index == i && leases[i].mode == mode)
    }

    ghost function State(): Pool
      reads this, leases
    {
      Pool(mode, pooledAll, pooledAvailable, sharedInUse,
           seq(|leases|, i requires 0 <= i < |leases| reads this, leases =>
             Lease(leases[i].client, leases[i].released)))
    }

    /** One pass of the loop: a lease, or an error from connecting. */
    method Checkout(connects: bool) returns (lease: Option<ClientLease>)
      requires Valid() && Free(State())
      modifies this
      ensures Valid() && State() == Lend(old(State()), connects)
      ensures lease.None? <==> leases == old(leases)
      ensures lease.Some? ==> fresh(lease.value) && leases == old(leases) + [lease.value]
    {
      var client := 0;
      if mode == SharedConnection {
        sharedInUse := true;
      } else if |pooledAvailable| > 0 {
        client := pooledAvailable[|pooledAvailable| - 1];
        pooledAvailable := pooledAvailable[..|pooledAvailable| - 1];
      } else if connects {
        client := |pooledAll|;
        pooledAll := pooledAll + [client];
      } else {
        return None;
      }
      var made := new ClientLease(this, client, mode, |leases|);
      leases := leases + [made];
      lease := Some(made);
    }

    method ReleaseLease(lease: ClientLease)
      requires Valid() && lease.index < |leases| && leases[lease.index] == lease && lease.released
      modifies this
      ensures Valid() && leases == old(leases)
      ensures mode == SharedConnection ==> State() == old(State()).(sharedInUse := false)
      ensures mode == PooledConnections ==> State() == old(State()).(available := old(pooledAvailable) + [lease.client])
    {
      if lease.mode == SharedConnection {
        sharedInUse := false;
      } else {
        pooledAvailable := pooledAvailable + [lease.client];
      }
    }
  }
}
