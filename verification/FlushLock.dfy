/** The lease that lets one pod at a time flush a document. A flush starts its deadline before it
    asks for the lease; the key expires on its own; a release checks the owner. */
module FlushLock {
  import opened Options

  type Pod = nat

  datatype Lease = Lease(owner: Pod, expires: nat)

  function Live(key: Option<Lease>, now: nat): Option<Lease> {
    if key.Some? && now < key.value.expires then key else None
  }

  /** SET NX with a time to live. */
  function Acquired(key: Option<Lease>, now: nat, owner: Pod, ttl: nat): (Option<Lease>, bool) {
    if Live(key, now).Some? then (key, false) else (Some(Lease(owner, now + ttl)), true)
  }

  /** The release script: delete only what the caller owns. */
  function Released(key: Option<Lease>, now: nat, owner: Pod): Option<Lease> {
    var live := Live(key, now);
    if live.Some? && live.value.owner == owner then None else key
  }

  class RedisKey {
    var key: Option<Lease>

    constructor ()
      ensures key == None
    {
      key := None;
    }

    method Acquire(now: nat, owner: Pod, ttl: nat) returns (ok: bool)
      modifies this
      ensures (key, ok) == Acquired(old(key), now, owner, ttl)
    {
      ok := Live(key, now).None?;
      if ok {
        key := Some(Lease(owner, now + ttl));
      }
    }

    method Release(now: nat, owner: Pod)
      modifies this
      ensures key == Released(old(key), now, owner)
    {
      if Live(key, now).Some? && key.value.owner == owner {
        key := None;
      }
    }
  }

  // ---- runs

  /** `started` and `flushing` map a pod to the deadline of its flush, before and after it won the lease. */
  datatype State = State(now: nat, key: Option<Lease>, started: map<Pod, nat>, flushing: map<Pod, nat>)

  datatype Event = Begin(pod: Pod) | Acquire(pod: Pod) | Finish(pod: Pod, released: bool) | Tick(elapsed: nat)

  datatype Config = Config(timeout: nat, ttl: nat)

  const Boot: State := State(0, None, map[], map[])

  /** A pod runs its flushes one after the other; a release may fail to reach Redis. */
  function Next(cfg: Config, s: State, e: Event): State {
    match e
    case Begin(p) =>
      if p in s.started || p in s.flushing then s else s.(started := s.started[p := s.now + cfg.timeout])
    case Acquire(p) =>
      if p !in s.started then s
      else
        var (key, ok) := Acquired(s.key, s.now, p, cfg.ttl);
        s.(key := key, started := s.started - {p},
           flushing := if ok then s.flushing[p := s.started[p]] else s.flushing)
    case Finish(p, released) =>
      if p !in s.flushing then s
      else s.(key := if released then Released(s.key, s.now, p) else s.key, flushing := s.flushing - {p})
    case Tick(d) => s.(now := s.now + d)
  }

  function Run(cfg: Config, s: State, es: seq<Event>): State
    decreases |es|
  {
    if es == [] then s else Next(cfg, Run(cfg, s, es[..|es| - 1]), es[|es| - 1])
  }

  /** The pod holds a won lease and its flush context has not ended. */
  ghost predicate Storing(s: State, p: Pod) {
    p in s.flushing && s.now < s.flushing[p]
  }

  ghost predicate Exclusive(s: State) {
    forall p, q :: Storing(s, p) && Storing(s, q) ==> p == q
  }

  /** A lease goes away only by expiring or by its owner's own release. */
  lemma LeaseIsSafeFromOthers(cfg: Config, s: State, e: Event)
    requires Live(s.key, s.now).Some?
    requires e.Finish? ==> e.pod != s.key.value.owner
    ensures Next(cfg, s, e).key == s.key
  {
  }

  /** A lease lasts for its time to live: until then nobody else gets one, from then on anybody does. */
  lemma LeaseLastsItsTime(key: Option<Lease>, now: nat, owner: Pod, ttl: nat, later: nat, other: Pod)
    requires Acquired(key, now, owner, ttl).1 && now <= later
    ensures var key' := Acquired(key, now, owner, ttl).0;
      && (Acquired(key', later, other, ttl).1 <==> later >= now + ttl)
      && (later < now + ttl ==> Live(key', later) == Some(Lease(owner, now + ttl)))
  {
  }

  /** After the owner's release the next acquire succeeds; without it, only once the lease has expired. */
  lemma ReleaseHandsOver(key: Option<Lease>, now: nat, owner: Pod, later: nat, other: Pod, ttl: nat)
    requires Live(key, now).Some? && key.value.owner == owner && now <= later
    ensures Acquired(Released(key, now, owner), later, other, ttl) == (Some(Lease(other, later + ttl)), true)
    ensures Acquired(key, later, other, ttl).1 <==> later >= key.value.expires
  {
  }

  ghost predicate Inv(cfg: Config, s: State) {
    && (forall p :: p in s.started ==> s.started[p] <= s.now + cfg.timeout)
    && (forall p :: Storing(s, p) ==>
          Live(s.key, s.now).Some? && s.key.value.owner == p && s.flushing[p] <= s.key.value.expires)
  }

  lemma InvNext(cfg: Config, s: State, e: Event)
    requires cfg.timeout <= cfg.ttl && Inv(cfg, s)
    ensures Inv(cfg, Next(cfg, s, e))
  {
    var t := Next(cfg, s, e);
    forall p | Storing(t, p)
      ensures Live(t.key, t.now).Some? && t.key.value.owner == p && t.flushing[p] <= t.key.value.expires
    {
      if p in s.flushing && t.flushing[p] == s.flushing[p] {
        assert Storing(s, p);
      }
    }
  }

  lemma {:induction false} RunInv(cfg: Config, es: seq<Event>)
    requires cfg.timeout <= cfg.ttl
    ensures Inv(cfg, Run(cfg, Boot, es))
    decreases |es|
  {
    if es != [] {
      RunInv(cfg, es[..|es| - 1]);
      InvNext(cfg, Run(cfg, Boot, es[..|es| - 1]), es[|es| - 1]);
    }
  }

  /** In every run a pod has at most one flush under way, one that is under way keeps its deadline, and only a
      pod that stores can finish. */
  lemma {:induction false} OneFlushPerPod(cfg: Config, es: seq<Event>, p: Pod)
    ensures var s := Run(cfg, Boot, es);
      && !(p in s.started && p in s.flushing)
      && (p in s.started || p in s.flushing ==> Next(cfg, s, Begin(p)) == s)
      && (p !in s.flushing ==> Next(cfg, s, Finish(p, true)) == s)
    decreases |es|
  {
    if es != [] {
      OneFlushPerPod(cfg, es[..|es| - 1], p);
    }
  }

  lemma {:induction false} RunStep(cfg: Config, es: seq<Event>, e: Event)
    ensures Run(cfg, Boot, es + [e]) == Next(cfg, Run(cfg, Boot, es), e)
  {
    assert (es + [e])[..|es + [e]| - 1] == es;
  }

  /** The first pod outlives its lease and the second one gets it. */
  lemma OverlongFlushOverlaps(cfg: Config) returns (es: seq<Event>)
    requires cfg.timeout > cfg.ttl
    ensures !Exclusive(Run(cfg, Boot, es))
  {
    var s1 := State(0, None, map[0 := cfg.timeout], map[]);
    RunStep(cfg, [], Begin(0));
    var s2 := State(0, Some(Lease(0, cfg.ttl)), map[], map[0 := cfg.timeout]);
    RunStep(cfg, [Begin(0)], Acquire(0));
    assert [] + [Begin(0)] == [Begin(0)] && [Begin(0)] + [Acquire(0)] == [Begin(0), Acquire(0)];
    assert Run(cfg, Boot, [Begin(0)]) == s1;
    assert Run(cfg, Boot, [Begin(0), Acquire(0)]) == s2;
    var three := [Begin(0), Acquire(0)] + [Tick(cfg.ttl)];
    RunStep(cfg, [Begin(0), Acquire(0)], Tick(cfg.ttl));
    assert Run(cfg, Boot, three) == s2.(now := cfg.ttl);
    var four := three + [Begin(1)];
    RunStep(cfg, three, Begin(1));
    RunStep(cfg, four, Acquire(1));
    es := four + [Acquire(1)];
    var s := Run(cfg, Boot, es);
    assert Storing(s, 0) && Storing(s, 1);
  }

  /** In every run, a pod that stores and then releases hands the document over at once: whoever asks
      next is storing. Had the release not reached Redis, that pod would be refused. */
  lemma {:induction false} FinishedFlushHandsOver(cfg: Config, es: seq<Event>, p: Pod, q: Pod, released: bool)
    requires 0 < cfg.timeout <= cfg.ttl
    requires var s := Run(cfg, Boot, es); Storing(s, p) && q !in s.started && q !in s.flushing
    ensures Storing(Run(cfg, Boot, es + [Finish(p, released)] + [Begin(q)] + [Acquire(q)]), q) <==> released
  {
    RunInv(cfg, es);
    var a := es + [Finish(p, released)];
    var b := a + [Begin(q)];
    RunStep(cfg, es, Finish(p, released));
    RunStep(cfg, a, Begin(q));
    RunStep(cfg, b, Acquire(q));
  }

  /** No two pods ever store the same document at once, over every run, if and only if the flush
      deadline is no longer than the lease. */
  lemma {:induction false} ExclusiveIffDeadlineWithinLease(cfg: Config)
    ensures cfg.timeout <= cfg.ttl <==> forall es :: Exclusive(Run(cfg, Boot, es))
  {
    if cfg.timeout <= cfg.ttl {
      forall es
        ensures Exclusive(Run(cfg, Boot, es))
      {
        RunInv(cfg, es);
      }
    } else {
      var es := OverlongFlushOverlaps(cfg);
    }
  }
}
