/** Runs of the comment engine: nothing unsaved is forgotten, decisions survive polling, and the
    dirty set drains. */
module CommentRuns {
  import opened Options
  import opened Prefixes
  import opened CommentSync

  /** `abandoned` holds the keys given up since they last succeeded or became dirty, `log` every
      attempt with its success. */
  datatype World = World(engine: Engine, abandoned: set<Key>, log: seq<(Key, bool)>)

  datatype Event =
    | Wrote(id: Id, thread: Thread)
    | DecidedOn(id: Id, decision: Decision, user: string)
    | DeletedHere(id: Id)
    | DeletedByPeer(id: Id)
    | Polled(id: Id, wire: Thread)
    | PolledDeletion(id: Id)
    | PersistRound(net: Network)

  const Boot: World := World(Fresh, {}, [])

  function StepKey(w: World, key: Key, net: Network): World {
    var v := VerdictOf(w.engine, key, net);
    World(AfterKey(w.engine, key, net),
          if v.GaveUp? then w.abandoned + {key} else w.abandoned - {key},
          w.log + [(key, v.Persisted?)])
  }

  function StepKeys(w: World, keys: seq<Key>, net: Network): World {
    if keys == [] then w else StepKey(StepKeys(w, keys[..|keys| - 1], net), keys[|keys| - 1], net)
  }

  /** A change of the map; a key that becomes dirty is no longer abandoned. */
  function Changed(w: World, e: Engine): World {
    w.(engine := e, abandoned := set k | k in w.abandoned && k !in e.dirty)
  }

  function Next(w: World, ev: Event): World {
    match ev
    case Wrote(id, t) => Changed(w, Put(w.engine, id, t))
    case DecidedOn(id, decision, user) => Changed(w, DecideSuggestion(w.engine, id, decision, user))
    case DeletedHere(id) => Changed(w, DeleteThread(w.engine, id))
    case DeletedByPeer(id) => Changed(w, RemoveByPeer(w.engine, id))
    case Polled(id, wire) => Changed(w, InsertFromWire(w.engine, id, wire))
    case PolledDeletion(id) => Changed(w, RemoveByPoll(w.engine, id))
    case PersistRound(net) => StepKeys(w.(engine := w.engine.(dirty := [])), w.engine.dirty, net)
  }

  function Run(w: World, es: seq<Event>): World {
    if |es| == 0 then w else Next(Run(w, es[..|es| - 1]), es[|es| - 1])
  }

  /** The history does not influence the engine. */
  lemma {:induction false} StepKeysIsPass(w: World, keys: seq<Key>, net: Network)
    ensures StepKeys(w, keys, net).engine == Pass(w.engine, keys, net)
  {
    if keys != [] {
      StepKeysIsPass(w, keys[..|keys| - 1], net);
    }
  }

  // ---- what a change does

  /** A decision on a thread that carries a suggestion stores itself and its decider, resolves the
      thread, leaves the rest of it and every other thread alone, and is due for persisting. On any
      other thread it does nothing. */
  lemma DecisionMeans(e: Engine, id: Id, decision: Decision, user: string)
    ensures var r := DecideSuggestion(e, id, decision, user);
      if id in e.threads && e.threads[id].suggestion.Some?
      then
        && r.threads.Keys == e.threads.Keys
        && (forall other :: other in e.threads && other != id ==> r.threads[other] == e.threads[other])
        && r.threads[id].status.Resolved?
        && r.threads[id].suggestion == Some(Suggestion(decision, e.threads[id].suggestion.value.view, user))
        && r.threads[id].(status := e.threads[id].status, suggestion := e.threads[id].suggestion) == e.threads[id]
        && (forall k :: k in r.dirty <==> k in e.dirty || k == Live(id))
        && r.lastPersisted == e.lastPersisted && r.retry == e.retry
      else r == e
  {
    assert e.threads.Keys + {id} == e.threads.Keys || id !in e.threads;
  }

  /** The poll keeps what was decided here and not yet on the server. */
  ghost predicate KeptByPoll(e: Engine, id: Id, wire: Thread) {
    id in e.threads && Decided(e.threads[id]) && WirePending(wire)
  }

  /** What a poll leaves of a thread: the server's, and nothing to persist, unless a decision made here is
      kept; the snapshot is the server's in any case, and no other thread is touched. */
  lemma PollMeans(e: Engine, id: Id, wire: Thread)
    ensures var r := InsertFromWire(e, id, wire);
      && r.threads.Keys == e.threads.Keys + {id}
      && (forall other :: other in e.threads && other != id ==> r.threads[other] == e.threads[other])
      && (forall other :: other != id ==> Snapshot(r, other) == Snapshot(e, other))
      && Snapshot(r, id) == Some(wire.(positions := None))
      && (r.threads[id] == wire.(positions := None) || KeptByPoll(e, id, wire))
      && (KeptByPoll(e, id, wire) ==>
            r.threads[id] == wire.(positions := None, suggestion := e.threads[id].suggestion))
      && (forall k :: k in r.dirty <==> if k == Live(id) then KeptByPoll(e, id, wire) else k in e.dirty)
      && r.retry == e.retry
  {
    forall k
      ensures k in Without(e.dirty, Live(id)) <==> k in e.dirty && k != Live(id)
    {
      WithoutMembers(e.dirty, Live(id), k);
    }
  }

  /** The thread is gone and all others are left. */
  ghost predicate GoneFrom(e: Engine, r: Engine, id: Id) {
    && r.threads.Keys == e.threads.Keys - {id}
    && (forall other :: other in r.threads ==> r.threads[other] == e.threads[other])
    && r.lastPersisted == e.lastPersisted && r.retry == e.retry
  }

  /** Only a deletion made here is queued for the server; one by a peer or found by polling is not. */
  lemma DeletionsMean(e: Engine, id: Id)
    ensures GoneFrom(e, DeleteThread(e, id), id) && Deleted(id) in DeleteThread(e, id).dirty
    ensures GoneFrom(e, RemoveByPeer(e, id), id) && GoneFrom(e, RemoveByPoll(e, id), id)
    ensures forall k :: k in RemoveByPeer(e, id).dirty <==> k in e.dirty || (k == Live(id) && id in e.threads)
    ensures forall k :: k != Deleted(id) ==> (k in DeleteThread(e, id).dirty <==> k in RemoveByPeer(e, id).dirty)
    ensures RemoveByPoll(e, id).dirty == e.dirty
  {
    assert (e.threads - {id}).Keys == e.threads.Keys - {id};
  }

  // ---- nothing unsaved is forgotten

  /** The stored thread is what was last persisted, or it is dirty, or it was abandoned. */
  ghost predicate Tracked(w: World, id: Id) {
    id in w.engine.threads ==>
      || Snapshot(w.engine, id) == Some(w.engine.threads[id])
      || Live(id) in w.engine.dirty
      || Live(id) in w.abandoned
  }

  ghost predicate Bookkept(w: World) {
    (forall id :: Tracked(w, id)) && forall k :: k in w.abandoned ==> k !in w.engine.dirty
  }

  lemma {:induction false} WithoutMembers(d: seq<Key>, k: Key, x: Key)
    ensures x in Without(d, k) <==> x in d && x != k
  {
    if d != [] {
      WithoutMembers(d[..|d| - 1], k, x);
      assert d == d[..|d| - 1] + [d[|d| - 1]];
    }
  }

  /** Every change of the map, by this user, by a peer or by polling, keeps the books. */
  lemma ChangesKeepBooks(w: World, ev: Event)
    requires Bookkept(w) && !ev.PersistRound?
    ensures Bookkept(Next(w, ev))
  {
    var v := Next(w, ev);
    forall id
      ensures Tracked(v, id)
    {
      assert Tracked(w, id);
      if ev.Polled? {
        WithoutMembers(w.engine.dirty, Live(ev.id), Live(id));
      }
    }
  }

  /** The last entry about `id` in the dirty set. */
  datatype Touch = Untouched | Written | Removed

  function LastTouch(keys: seq<Key>, id: Id): Touch {
    if keys == [] then Untouched
    else if keys[|keys| - 1] == Live(id) then Written
    else if keys[|keys| - 1] == Deleted(id) then Removed
    else LastTouch(keys[..|keys| - 1], id)
  }

  /** What a round leaves for a thread follows from the last key about it. */
  lemma {:induction false} StepKeysTouch(w: World, keys: seq<Key>, net: Network, id: Id)
    requires id in w.engine.threads && w.engine.dirty == []
    ensures var v := StepKeys(w, keys, net);
      && v.engine.threads == w.engine.threads
      && (LastTouch(keys, id).Untouched? ==>
            Snapshot(v.engine, id) == Snapshot(w.engine, id) && (Live(id) in v.abandoned <==> Live(id) in w.abandoned))
      && (LastTouch(keys, id).Written? ==> Tracked(v, id))
  {
    if keys != [] {
      StepKeysTouch(w, keys[..|keys| - 1], net, id);
    }
  }

  ghost predicate Distinct(keys: seq<Key>) {
    forall i, j :: 0 <= i < j < |keys| ==> keys[i] != keys[j]
  }

  lemma {:induction false} StepKeysDirty(w: World, keys: seq<Key>, net: Network)
    requires w.engine.dirty == [] && Distinct(keys)
    ensures var v := StepKeys(w, keys, net);
      && (forall k :: k in v.engine.dirty ==> k in keys)
      && (forall k :: k in keys && k in v.abandoned ==> k !in v.engine.dirty)
      && (forall k :: k !in keys ==> (k in v.abandoned <==> k in w.abandoned))
  {
    if keys != [] {
      var pre, key := keys[..|keys| - 1], keys[|keys| - 1];
      StepKeysDirty(w, pre, net);
      assert keys == pre + [key] && key !in pre;
    }
  }

  /** No thread that is in the map has its deletion as the last word in the dirty set (unless it
      had been abandoned already). Can be looked up before the round. */
  ghost predicate RoundSafe(w: World) {
    forall id :: id in w.engine.threads && LastTouch(w.engine.dirty, id).Removed? ==> Live(id) in w.abandoned
  }

  lemma {:induction false} PassKeepsThreads(e: Engine, keys: seq<Key>, net: Network)
    ensures Pass(e, keys, net).threads == e.threads
  {
    if keys != [] {
      PassKeepsThreads(e, keys[..|keys| - 1], net);
    }
  }

  lemma {:induction false} TouchIsMember(keys: seq<Key>, id: Id)
    ensures LastTouch(keys, id).Untouched? <==> Live(id) !in keys && Deleted(id) !in keys
    ensures LastTouch(keys, id).Removed? ==> Deleted(id) in keys
  {
    if keys != [] {
      TouchIsMember(keys[..|keys| - 1], id);
      assert keys == keys[..|keys| - 1] + [keys[|keys| - 1]];
    }
  }

  /** With a healthy server a round ends clean, and what it deleted has no snapshot. */
  lemma {:induction false} HealthyRound(w: World, keys: seq<Key>, id: Id)
    requires w.engine.dirty == []
    ensures var v := StepKeys(w, keys, (_, _) => 200);
      && v.engine.dirty == [] && v.abandoned <= w.abandoned
      && (LastTouch(keys, id).Removed? ==> Snapshot(v.engine, id) == None)
  {
    if keys != [] {
      HealthyRound(w, keys[..|keys| - 1], id);
    }
  }

  // ---- exactly which rounds keep the books

  /** Something is still to be done about the thread, or has been given up. */
  ghost predicate Remembered(w: World, id: Id) {
    Live(id) in w.engine.dirty || Live(id) in w.abandoned
  }

  lemma LiveStep(w: World, net: Network, id: Id)
    requires id in w.engine.threads && Live(id) !in w.engine.dirty
    ensures var v, ok := StepKey(w, Live(id), net), Succeeds(w.engine, Live(id), net);
      && v.engine.threads == w.engine.threads
      && Snapshot(v.engine, id) == (if ok then Some(w.engine.threads[id]) else Snapshot(w.engine, id))
      && (Remembered(v, id) <==> !ok)
  {
  }

  lemma DeletedStep(w: World, net: Network, id: Id)
    ensures var v := StepKey(w, Deleted(id), net);
      && v.engine.threads == w.engine.threads
      && Snapshot(v.engine, id) == (if Ok(Remove, net(Deleted(id), Remove)) then None else Snapshot(w.engine, id))
      && (Remembered(v, id) <==> Remembered(w, id))
  {
  }

  lemma OtherStep(w: World, key: Key, net: Network, id: Id)
    requires key != Live(id) && key != Deleted(id)
    ensures var v := StepKey(w, key, net);
      && v.engine.threads == w.engine.threads && Snapshot(v.engine, id) == Snapshot(w.engine, id)
      && (Remembered(v, id) <==> Remembered(w, id))
  {
  }

  lemma DistinctPrefix(keys: seq<Key>)
    requires Distinct(keys) && keys != []
    ensures var pre, key := keys[..|keys| - 1], keys[|keys| - 1];
      Distinct(pre) && keys == pre + [key] && key !in pre
  {
  }

  /** How the keys before a deletion leave the thread: persisted if it is dirty and its requests succeed. */
  ghost predicate LeftBy(w: World, v: World, keys: seq<Key>, net: Network, id: Id, snapshot: Option<Thread>) {
    && v.engine.threads == w.engine.threads && Snapshot(v.engine, id) == snapshot
    && (Remembered(v, id) <==>
          if Live(id) in keys then !Succeeds(w.engine, Live(id), net) else Live(id) in w.abandoned)
  }

  /** The thread's snapshot after its own key, if that is among the keys. */
  function PersistedBy(w: World, keys: seq<Key>, net: Network, id: Id): Option<Thread>
    requires id in w.engine.threads
  {
    if Live(id) in keys && Succeeds(w.engine, Live(id), net) then Some(w.engine.threads[id]) else Snapshot(w.engine, id)
  }

  lemma {:induction false} KeysBeforeRemoval(w: World, keys: seq<Key>, net: Network, id: Id)
    requires id in w.engine.threads && w.engine.dirty == [] && Distinct(keys) && Deleted(id) !in keys
    ensures LeftBy(w, StepKeys(w, keys, net), keys, net, id, PersistedBy(w, keys, net, id))
  {
    if keys != [] {
      var pre, key := keys[..|keys| - 1], keys[|keys| - 1];
      DistinctPrefix(keys);
      KeysBeforeRemoval(w, pre, net, id);
      var v := StepKeys(w, pre, net);
      if key == Live(id) {
        StepKeysDirty(w, pre, net);
        assert Succeeds(v.engine, Live(id), net) <==> Succeeds(w.engine, Live(id), net);
        LiveStep(v, net, id);
      } else {
        OtherStep(v, key, net, id);
      }
    }
  }

  /** A deletion that succeeds takes the snapshot away, and changes nothing else about the thread. */
  lemma {:induction false} KeysWithRemoval(w: World, keys: seq<Key>, net: Network, id: Id)
    requires id in w.engine.threads && w.engine.dirty == [] && Distinct(keys) && LastTouch(keys, id).Removed?
    ensures LeftBy(w, StepKeys(w, keys, net), keys, net, id,
                   if Ok(Remove, net(Deleted(id), Remove)) then None else PersistedBy(w, keys, net, id))
  {
    var pre, key := keys[..|keys| - 1], keys[|keys| - 1];
    DistinctPrefix(keys);
    if key == Deleted(id) {
      KeysBeforeRemoval(w, pre, net, id);
      DeletedStep(StepKeys(w, pre, net), net, id);
    } else {
      KeysWithRemoval(w, pre, net, id);
      OtherStep(StepKeys(w, pre, net), key, net, id);
    }
  }

  /** The round deletes a stored thread on the server and has no failed write left to remind it: the
      thread was not dirty, or its requests succeed. */
  ghost predicate Forgets(w: World, net: Network, id: Id) {
    && id in w.engine.threads && LastTouch(w.engine.dirty, id).Removed? && Live(id) !in w.abandoned
    && Ok(Remove, net(Deleted(id), Remove))
    && (Live(id) in w.engine.dirty ==> Succeeds(w.engine, Live(id), net))
  }

  ghost predicate ForgetsSome(w: World, net: Network) {
    exists id :: Forgets(w, net, id)
  }

  lemma RoundTracksIff(w: World, net: Network, id: Id)
    requires Bookkept(w) && Distinct(w.engine.dirty)
    ensures Tracked(Next(w, PersistRound(net)), id) <==> !Forgets(w, net, id)
  {
    var start, keys := w.(engine := w.engine.(dirty := [])), w.engine.dirty;
    StepKeysIsPass(start, keys, net);
    PassKeepsThreads(start.engine, keys, net);
    assert Tracked(w, id);
    if id in w.engine.threads {
      TouchIsMember(keys, id);
      if LastTouch(keys, id).Removed? {
        KeysWithRemoval(start, keys, net, id);
        assert Succeeds(start.engine, Live(id), net) <==> Succeeds(w.engine, Live(id), net);
      } else {
        StepKeysTouch(start, keys, net, id);
      }
    }
  }

  lemma RoundDisjoint(w: World, net: Network)
    requires Distinct(w.engine.dirty)
    ensures var v := Next(w, PersistRound(net)); forall k :: k in v.abandoned ==> k !in v.engine.dirty
  {
    var start, v := w.(engine := w.engine.(dirty := [])), Next(w, PersistRound(net));
    StepKeysDirty(start, w.engine.dirty, net);
    assert v == StepKeys(start, w.engine.dirty, net);
    forall k | k in v.abandoned
      ensures k !in v.engine.dirty
    {
      assert k in v.engine.dirty ==> k in w.engine.dirty;
    }
  }

  /** A round with the answers `net` keeps the books if and only if it forgets no thread. */
  lemma RoundKeepsBooksWithIff(w: World, net: Network)
    requires Bookkept(w) && Distinct(w.engine.dirty)
    ensures Bookkept(Next(w, PersistRound(net))) <==> !ForgetsSome(w, net)
  {
    RoundDisjoint(w, net);
    var v := Next(w, PersistRound(net));
    forall id
      ensures Tracked(v, id) <==> !Forgets(w, net, id)
    {
      RoundTracksIff(w, net, id);
    }
  }

  lemma {:induction false} UnsafeRoundForgets(w: World, id: Id)
    requires id in w.engine.threads && LastTouch(w.engine.dirty, id).Removed? && Live(id) !in w.abandoned
    ensures ForgetsSome(w, (_, _) => 200)
  {
    var net: Network := (_, _) => 200;
    assert Forgets(w, net, id);
  }

  /** It keeps them whatever the network does, if and only if it is safe. */
  lemma RoundKeepsBooksIff(w: World)
    requires Bookkept(w) && Distinct(w.engine.dirty)
    ensures RoundSafe(w) <==> forall net :: Bookkept(Next(w, PersistRound(net)))
  {
    if RoundSafe(w) {
      forall net
        ensures Bookkept(Next(w, PersistRound(net)))
      {
        RoundKeepsBooksWithIff(w, net);
      }
    } else {
      var id :| id in w.engine.threads && LastTouch(w.engine.dirty, id).Removed? && Live(id) !in w.abandoned;
      var net: Network := (_, _) => 200;
      UnsafeRoundForgets(w, id);
      RoundKeepsBooksWithIff(w, net);
      assert !Bookkept(Next(w, PersistRound(net)));
    }
  }

  // ---- whole runs

  lemma {:induction false} WithoutDistinct(d: seq<Key>, k: Key)
    requires Distinct(d)
    ensures Distinct(Without(d, k))
  {
    if d != [] {
      var pre, last := d[..|d| - 1], d[|d| - 1];
      WithoutDistinct(pre, k);
      WithoutMembers(pre, k, last);
      assert last !in pre;
    }
  }

  lemma {:induction false} PassDistinct(e: Engine, keys: seq<Key>, net: Network)
    requires Distinct(e.dirty)
    ensures Distinct(Pass(e, keys, net).dirty)
  {
    if keys != [] {
      PassDistinct(e, keys[..|keys| - 1], net);
    }
  }

  lemma NextDistinct(w: World, ev: Event)
    requires Distinct(w.engine.dirty)
    ensures Distinct(Next(w, ev).engine.dirty)
  {
    match ev {
      case Polled(id, _) => WithoutDistinct(w.engine.dirty, Live(id));
      case PersistRound(net) =>
        var start := w.(engine := w.engine.(dirty := []));
        StepKeysIsPass(start, w.engine.dirty, net);
        PassDistinct(start.engine, w.engine.dirty, net);
      case _ =>
    }
  }

  lemma {:induction false} RunDistinct(es: seq<Event>)
    ensures Distinct(Run(Boot, es).engine.dirty)
  {
    if |es| > 0 {
      RunDistinct(es[..|es| - 1]);
      NextDistinct(Run(Boot, es[..|es| - 1]), es[|es| - 1]);
    }
  }

  ghost predicate BookkeptAfter(es: seq<Event>) {
    Bookkept(Run(Boot, es))
  }

  /** The last event of the run, if it was a persist round, forgot no thread. */
  ghost predicate RemembersAfter(es: seq<Event>) {
    |es| > 0 && es[|es| - 1].PersistRound? ==> !ForgetsSome(Run(Boot, es[..|es| - 1]), es[|es| - 1].net)
  }

  lemma BooksStep(es: seq<Event>)
    requires |es| > 0 && BookkeptAfter(es[..|es| - 1])
    ensures BookkeptAfter(es) <==> RemembersAfter(es)
  {
    var pre, ev := es[..|es| - 1], es[|es| - 1];
    if ev.PersistRound? {
      RunDistinct(pre);
      RoundKeepsBooksWithIff(Run(Boot, pre), ev.net);
    } else {
      ChangesKeepBooks(Run(Boot, pre), ev);
    }
  }

  /** Over every run: a thread that differs from its last persisted snapshot is always dirty or
      abandoned, if and only if no persist round forgets a thread. */
  lemma RunsKeepBooksIff(es: seq<Event>)
    ensures Always(es, BookkeptAfter) <==> Always(es, RemembersAfter)
  {
    forall fs: seq<Event> | fs != [] && BookkeptAfter(fs[..|fs| - 1])
      ensures BookkeptAfter(fs) <==> RemembersAfter(fs)
    {
      BooksStep(fs);
    }
    AlwaysIff(es, BookkeptAfter, RemembersAfter);
  }

  /** The last event of the run, if it was a persist round, was a safe one. */
  ghost predicate SafeAfter(es: seq<Event>) {
    |es| > 0 && es[|es| - 1].PersistRound? ==> RoundSafe(Run(Boot, es[..|es| - 1]))
  }

  /** In particular they are kept when all rounds are safe, which can be looked up before each. */
  lemma RunsKeepBooks(es: seq<Event>)
    requires Always(es, SafeAfter)
    ensures Always(es, BookkeptAfter)
  {
    forall k | 0 <= k <= |es|
      ensures RemembersAfter(es[..k])
    {
      assert SafeAfter(es[..k]);
    }
    RunsKeepBooksIff(es);
  }

  lemma {:induction false} RunStep(es: seq<Event>, ev: Event)
    ensures Run(Boot, es + [ev]) == Next(Run(Boot, es), ev)
  {
    assert (es + [ev])[..|es + [ev]| - 1] == es;
  }

  lemma Resurrection(id: Id, t: Thread) returns (es: seq<Event>)
    ensures Run(Boot, es) == World(Engine(map[id := t], [Live(id), Deleted(id)], map[], map[]), {}, [])
  {
    var a := [] + [Wrote(id, t)];
    var b := a + [DeletedHere(id)];
    RunStep([], Wrote(id, t));
    assert Run(Boot, a).engine == Engine(map[id := t], [Live(id)], map[], map[]);
    RunStep(a, DeletedHere(id));
    assert Run(Boot, b).engine == Engine(map[], [Live(id), Deleted(id)], map[], map[]);
    RunStep(b, Wrote(id, t));
    es := b + [Wrote(id, t)];
  }

  /** A thread deleted here and written again by a peer before the next round: the round persists
      the thread, then deletes it on the server, and afterwards knows of nothing left to do. */
  lemma ResurrectedThreadIsForgotten(id: Id, t: Thread) returns (es: seq<Event>)
    ensures !Tracked(Run(Boot, es), id) && Run(Boot, es).engine.dirty == []
  {
    var net: Network := (_, _) => 200;
    var before := Resurrection(id, t);
    RunStep(before, PersistRound(net));
    es := before + [PersistRound(net)];
    var w := Run(Boot, before);
    var start := w.(engine := w.engine.(dirty := []));
    HealthyRound(start, w.engine.dirty, id);
    StepKeysIsPass(start, w.engine.dirty, net);
    PassKeepsThreads(start.engine, w.engine.dirty, net);
  }

  // ---- giving up

  /** Failures of `key` at the end of the log, since its last success. */
  function Streak(log: seq<(Key, bool)>, key: Key): nat {
    if log == [] then 0
    else
      var (k, ok) := log[|log| - 1];
      if k != key then Streak(log[..|log| - 1], key)
      else if ok then 0
      else Streak(log[..|log| - 1], key) + 1
  }

  /** Attempts are counted right, and only a key that failed five times in a row is abandoned. */
  ghost predicate CountsOk(w: World) {
    forall k :: Attempts(w.engine, k) == Streak(w.log, k) % MAX_PERSIST_RETRIES && (k in w.abandoned ==> Streak(w.log, k) >= MAX_PERSIST_RETRIES)
  }

  lemma StepKeyCounts(w: World, key: Key, net: Network)
    requires CountsOk(w)
    ensures CountsOk(StepKey(w, key, net))
  {
    var v := StepKey(w, key, net);
    assert v.log[..|v.log| - 1] == w.log;
    forall k
      ensures Attempts(v.engine, k) == Streak(v.log, k) % MAX_PERSIST_RETRIES && (k in v.abandoned ==> Streak(v.log, k) >= MAX_PERSIST_RETRIES)
    {
      assert Attempts(w.engine, k) == Streak(w.log, k) % MAX_PERSIST_RETRIES;
    }
  }

  lemma {:induction false} StepKeysCounts(w: World, keys: seq<Key>, net: Network)
    requires CountsOk(w)
    ensures CountsOk(StepKeys(w, keys, net))
  {
    if keys != [] {
      StepKeysCounts(w, keys[..|keys| - 1], net);
      StepKeyCounts(StepKeys(w, keys[..|keys| - 1], net), keys[|keys| - 1], net);
    }
  }

  lemma ChangeKeepsCounts(w: World, e: Engine)
    requires CountsOk(w) && e.retry == w.engine.retry
    ensures CountsOk(Changed(w, e))
  {
  }

  lemma EventKeepsCounts(w: World, ev: Event)
    requires CountsOk(w) && !ev.PersistRound?
    ensures CountsOk(Next(w, ev))
  {
    ChangeKeepsCounts(w, Next(w, ev).engine);
  }

  lemma {:induction false} AbandonedAfterFiveFailures(es: seq<Event>)
    ensures CountsOk(Run(Boot, es))
  {
    if |es| > 0 {
      var w, ev := Run(Boot, es[..|es| - 1]), es[|es| - 1];
      AbandonedAfterFiveFailures(es[..|es| - 1]);
      if ev.PersistRound? {
        StepKeysCounts(w.(engine := w.engine.(dirty := [])), w.engine.dirty, ev.net);
      } else {
        EventKeepsCounts(w, ev);
      }
    }
  }

  // ---- draining

  function Rounds(e: Engine, nets: seq<Network>): Engine {
    if |nets| == 0 then e else Round(Rounds(e, nets[..|nets| - 1]), nets[|nets| - 1])
  }

  lemma KeyCounts(e: Engine, key: Key, net: Network)
    ensures var r := AfterKey(e, key, net);
      && (r.dirty == e.dirty || (r.dirty == Add(e.dirty, key) && Attempts(r, key) == Attempts(e, key) + 1 < MAX_PERSIST_RETRIES))
      && forall k :: k != key ==> Attempts(r, k) == Attempts(e, k)
  {
  }

  lemma {:induction false} PassCounts(e: Engine, keys: seq<Key>, net: Network)
    requires Distinct(keys) && e.dirty == []
    ensures var r := Pass(e, keys, net);
      && (forall k :: k in r.dirty ==> k in keys && Attempts(r, k) == Attempts(e, k) + 1 < MAX_PERSIST_RETRIES)
      && (forall k :: k !in keys ==> Attempts(r, k) == Attempts(e, k))
  {
    if keys != [] {
      var pre, key := keys[..|keys| - 1], keys[|keys| - 1];
      PassCounts(e, pre, net);
      assert keys == pre + [key] && key !in pre;
      KeyCounts(Pass(e, pre, net), key, net);
    }
  }

  lemma RoundCounts(e: Engine, net: Network)
    requires Distinct(e.dirty)
    ensures var r := Round(e, net);
      && Distinct(r.dirty)
      && forall k :: k in r.dirty ==> k in e.dirty && Attempts(r, k) == Attempts(e, k) + 1 < MAX_PERSIST_RETRIES
  {
    var start := e.(dirty := []);
    PassCounts(start, e.dirty, net);
    PassDistinct(start, e.dirty, net);
    assert forall k :: Attempts(start, k) == Attempts(e, k);
  }

  lemma {:induction false} RoundsCount(e: Engine, nets: seq<Network>)
    requires Distinct(e.dirty)
    ensures var r := Rounds(e, nets);
      Distinct(r.dirty) && forall k :: k in r.dirty ==> |nets| <= Attempts(r, k) && (|nets| > 0 ==> Attempts(r, k) < MAX_PERSIST_RETRIES)
  {
    if |nets| > 0 {
      var pre, net := nets[..|nets| - 1], nets[|nets| - 1];
      RoundsCount(e, pre);
      RoundCounts(Rounds(e, pre), net);
    }
  }

  lemma SomeMember(d: seq<Key>)
    ensures d != [] ==> exists k :: k in d
  {
    if d != [] {
      assert d[0] in d;
    }
  }

  /** With no further changes the dirty set is empty after five rounds, whatever the network does. */
  lemma {:induction false} DirtySetDrains(es: seq<Event>, nets: seq<Network>)
    requires |nets| == MAX_PERSIST_RETRIES
    ensures Rounds(Run(Boot, es).engine, nets).dirty == []
  {
    RunDistinct(es);
    var e := Run(Boot, es).engine;
    RoundsCount(e, nets);
    SomeMember(Rounds(e, nets).dirty);
  }

  // ---- what a round records

  /** The answers that count: any 2xx, and 409 for a thread that is to be created and exists already. */
  ghost predicate Accepts(r: Request, status: int) {
    200 <= status <= 299 || (status == 409 && r.Create?)
  }

  ghost predicate AllAccepted(e: Engine, id: Id, net: Network)
    requires id in e.threads
  {
    forall r :: r in Requests(Snapshot(e, id), e.threads[id]) ==> Accepts(r, net(Live(id), r))
  }

  lemma SucceedsIff(e: Engine, id: Id, net: Network)
    requires id in e.threads && Snapshot(e, id) != Some(e.threads[id])
    ensures Succeeds(e, Live(id), net) <==> AllAccepted(e, id, net)
  {
    var rs := Requests(Snapshot(e, id), e.threads[id]);
    if AllAccepted(e, id, net) {
      forall k | 0 <= k < |rs|
        ensures Ok(rs[k], net(Live(id), rs[k]))
      {
        assert rs[k] in rs;
      }
    }
  }

  /** After any run: a round records a changed thread as persisted exactly if it was due and the server
      accepted every request about it, which 409 does for a creation alone. */
  lemma {:induction false} RoundRecordsIff(es: seq<Event>, net: Network, id: Id)
    requires id in Run(Boot, es).engine.threads && Deleted(id) !in Run(Boot, es).engine.dirty
    requires Snapshot(Run(Boot, es).engine, id) != Some(Run(Boot, es).engine.threads[id])
    ensures var e := Run(Boot, es).engine;
      Snapshot(Round(e, net), id) == (if Live(id) in e.dirty && AllAccepted(e, id, net) then Some(e.threads[id]) else Snapshot(e, id))
  {
    RunDistinct(es);
    var e := Run(Boot, es).engine;
    var start := World(e.(dirty := []), {}, []);
    KeysBeforeRemoval(start, e.dirty, net, id);
    StepKeysIsPass(start, e.dirty, net);
    SucceedsIff(start.engine, id, net);
  }

  /** A deletion made here takes the snapshot away exactly if the server answered it with a 2xx. */
  lemma DeletedKeyRecordsIff(e: Engine, id: Id, net: Network)
    requires Snapshot(e, id).Some?
    ensures Snapshot(AfterKey(e, Deleted(id), net), id) ==
      if 200 <= net(Deleted(id), Remove) <= 299 then None else Snapshot(e, id)
  {
  }

  // ---- decisions survive polling

  ghost predicate HasDecision(e: Engine, id: Id) {
    id in e.threads && Decided(e.threads[id])
  }

  /** The event does not delete the thread, overwrite it with an undecided one, or reopen the decision. */
  ghost predicate Respects(ev: Event, id: Id) {
    match ev
    case Wrote(other, t) => other == id ==> Decided(t)
    case DecidedOn(other, decision, _) => other == id ==> !decision.Pending?
    case DeletedHere(other) => other != id
    case DeletedByPeer(other) => other != id
    case PolledDeletion(other) => other != id
    case Polled(_, _) => true
    case PersistRound(_) => true
  }

  /** No poll and no persist round takes a decision back; exactly the disrespectful events do. */
  lemma DecisionStepIff(w: World, ev: Event, id: Id)
    requires HasDecision(w.engine, id)
    ensures HasDecision(Next(w, ev).engine, id) <==> Respects(ev, id)
  {
    if ev.PersistRound? {
      var start := w.(engine := w.engine.(dirty := []));
      StepKeysIsPass(start, w.engine.dirty, ev.net);
      PassKeepsThreads(start.engine, w.engine.dirty, ev.net);
    }
  }

  ghost predicate DecidedAfter(w: World, id: Id, es: seq<Event>) {
    HasDecision(Run(w, es).engine, id)
  }

  /** Whatever else goes on about any threads: a decision stands throughout a run if and only if every
      event respects it. */
  lemma DecisionsSurviveIff(w: World, es: seq<Event>, id: Id)
    requires HasDecision(w.engine, id)
    ensures Always(es, fs => DecidedAfter(w, id, fs)) <==> forall k :: 0 <= k < |es| ==> Respects(es[k], id)
  {
    var good, fair := (fs: seq<Event>) => DecidedAfter(w, id, fs), (fs: seq<Event>) => fs != [] ==> Respects(fs[|fs| - 1], id);
    forall fs: seq<Event> | fs != [] && good(fs[..|fs| - 1])
      ensures good(fs) <==> fair(fs)
    {
      DecisionStepIff(Run(w, fs[..|fs| - 1]), fs[|fs| - 1], id);
    }
    AlwaysIff(es, good, fair);
    AlwaysLast(es, (e: Event) => Respects(e, id));
    assert Always(es, fair) <==> forall k :: 0 <= k < |es| ==> Respects(es[k], id);
  }

  /** A decision the server does not know yet is sent again: the poll leaves it dirty, and the next
      round's requests for it include the decision. */
  lemma PollKeepsDecisionDirty(e: Engine, id: Id, wire: Thread)
    requires HasDecision(e, id) && WirePending(wire)
    ensures var r := InsertFromWire(e, id, wire);
      && r.threads[id].suggestion == e.threads[id].suggestion
      && Live(id) in r.dirty
      && Snapshot(r, id) != Some(r.threads[id])
      && Decide(e.threads[id].suggestion.value.status, e.threads[id].suggestion.value.decidedBy) in Requests(Snapshot(r, id), r.threads[id])
  {
    var r := InsertFromWire(e, id, wire);
    var d := Decide(e.threads[id].suggestion.value.status, e.threads[id].suggestion.value.decidedBy);
    var rs := Requests(Snapshot(r, id), r.threads[id]);
    assert rs[|rs| - 1] == d;
  }
}
