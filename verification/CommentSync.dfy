/** The comment engine's bookkeeping: which threads are dirty, what was last persisted, capped
    retries, and reconciliation with polled server state. A persist round is one step. */
module CommentSync {
  import opened Options

  type Id = string

  datatype Status = Open | Resolved
  datatype Decision = Pending | Accepted | Rejected | NotApplicable
  datatype Suggestion = Suggestion(status: Decision, view: string, decidedBy: string)
  datatype Comment = Comment(id: string, content: string, deleted: bool)

  /** A stored thread; `positions` are the relative positions that only locally made threads carry. */
  datatype Thread = Thread(anchor: string, positions: Option<string>, status: Status, comments: seq<Comment>,
                           suggestion: Option<Suggestion>, createdAt: string)

  /** Entries of the dirty set: a thread to write, or a thread to delete on the server. */
  datatype Key = Live(id: Id) | Deleted(id: Id)

  datatype Engine = Engine(threads: map<Id, Thread>, dirty: seq<Key>, lastPersisted: map<Id, Thread>, retry: map<Key, nat>)

  const MAX_PERSIST_RETRIES: nat := 5

  const Fresh: Engine := Engine(map[], [], map[], map[])

  /** A JavaScript Set keeps insertion order; adding a member again changes nothing. */
  function Add(dirty: seq<Key>, k: Key): seq<Key> {
    if k in dirty then dirty else dirty + [k]
  }

  function Without(dirty: seq<Key>, k: Key): seq<Key> {
    if dirty == [] then []
    else Without(dirty[..|dirty| - 1], k) + if dirty[|dirty| - 1] == k then [] else [dirty[|dirty| - 1]]
  }

  // ---- changes to the shared map

  /** A write by this user or a peer; the observer marks it dirty. */
  function Put(e: Engine, id: Id, t: Thread): Engine {
    e.(threads := e.threads[id := t], dirty := Add(e.dirty, Live(id)))
  }

  /** Accept or reject: only for an existing thread that carries a suggestion. */
  function DecideSuggestion(e: Engine, id: Id, decision: Decision, user: string): Engine {
    if id !in e.threads || e.threads[id].suggestion.None? then e
    else
      var t := e.threads[id];
      Put(e, id, t.(status := Resolved, suggestion := Some(t.suggestion.value.(status := decision, decidedBy := user))))
  }

  /** A peer's deletion: the observer marks the key. */
  function RemoveByPeer(e: Engine, id: Id): Engine {
    if id in e.threads then e.(threads := e.threads - {id}, dirty := Add(e.dirty, Live(id))) else e
  }

  /** This user's deletion also queues the request. */
  function DeleteThread(e: Engine, id: Id): Engine {
    var r := RemoveByPeer(e, id);
    r.(dirty := Add(r.dirty, Deleted(id)))
  }

  // ---- polling

  predicate Decided(t: Thread) {
    t.suggestion.Some? && !t.suggestion.value.status.Pending?
  }

  predicate WirePending(t: Thread) {
    t.suggestion.None? || t.suggestion.value.status.Pending?
  }

  /** A polled thread replaces the stored one, except that a local decision the server has not seen
      yet survives and stays dirty. */
  function InsertFromWire(e: Engine, id: Id, wire: Thread): Engine {
    var keep := id in e.threads && Decided(e.threads[id]) && WirePending(wire);
    var plain := wire.(positions := None);
    var stored := plain.(suggestion := if keep then e.threads[id].suggestion else wire.suggestion);
    var dirty := Without(e.dirty, Live(id));
    e.(threads := e.threads[id := stored], lastPersisted := e.lastPersisted[id := plain],
       dirty := if keep then Add(dirty, Live(id)) else dirty)
  }

  function RemoveByPoll(e: Engine, id: Id): Engine {
    e.(threads := e.threads - {id})
  }

  // ---- persisting

  datatype Request =
    | Create(anchor: string, first: Option<Comment>, suggestion: Option<Suggestion>)
    | Reply(comment: Comment)
    | SetStatus(status: Status)
    | Decide(decision: Decision, user: string)
    | Remove

  /** The HTTP status of each request a key needs; 0 stands for a failed fetch. */
  type Network = (Key, Request) -> int

  predicate Ok(r: Request, status: int) {
    200 <= status < 300 || (r.Create? && status == 409)
  }

  predicate IsNew(known: seq<Comment>, c: Comment) {
    (forall k :: 0 <= k < |known| ==> known[k].id != c.id) && !c.deleted
  }

  function NewComments(known: seq<Comment>, now: seq<Comment>): seq<Comment> {
    if now == [] then []
    else
      var c := now[|now| - 1];
      NewComments(known, now[..|now| - 1]) + if IsNew(known, c) then [c] else []
  }

  function Replies(cs: seq<Comment>): seq<Request> {
    seq(|cs|, k requires 0 <= k < |cs| => Reply(cs[k]))
  }

  /** The decision endpoint is called for a decision that the snapshot does not have. */
  predicate NewDecision(b: Thread, t: Thread) {
    Decided(t) && (b.suggestion.None? || b.suggestion.value.status != t.suggestion.value.status)
  }

  /** The calls about the thread itself, behind the replies. */
  function ThreadRequests(b: Thread, t: Thread): seq<Request> {
    (if b.status != t.status then [SetStatus(t.status)] else [])
      + (if NewDecision(b, t) then [Decide(t.suggestion.value.status, t.suggestion.value.decidedBy)] else [])
  }

  /** The calls that bring the server from the last persisted snapshot to the stored thread. */
  function Requests(before: Option<Thread>, t: Thread): seq<Request> {
    if before.None? then [Create(t.anchor, if t.comments == [] then None else Some(t.comments[0]), t.suggestion)]
    else Replies(NewComments(before.value.comments, t.comments)) + ThreadRequests(before.value, t)
  }

  function Snapshot(e: Engine, id: Id): Option<Thread> {
    if id in e.lastPersisted then Some(e.lastPersisted[id]) else None
  }

  /** No request of the key fails; a thread that is gone or unchanged needs none. */
  predicate Succeeds(e: Engine, key: Key, net: Network) {
    match key
    case Deleted(_) => Ok(Remove, net(key, Remove))
    case Live(id) =>
      if id !in e.threads || Snapshot(e, id) == Some(e.threads[id]) then true
      else
        var rs := Requests(Snapshot(e, id), e.threads[id]);
        forall k :: 0 <= k < |rs| ==> Ok(rs[k], net(key, rs[k]))
  }

  function Attempts(e: Engine, key: Key): nat {
    if key in e.retry then e.retry[key] else 0
  }

  datatype Verdict = Persisted | Requeued | GaveUp

  function VerdictOf(e: Engine, key: Key, net: Network): Verdict {
    if Succeeds(e, key, net) then Persisted
    else if Attempts(e, key) + 1 >= MAX_PERSIST_RETRIES then GaveUp
    else Requeued
  }

  /** One key of a round; the dirty set holds the keys that failed so far. */
  function AfterKey(e: Engine, key: Key, net: Network): Engine {
    match VerdictOf(e, key, net)
    case Persisted =>
      e.(retry := e.retry - {key},
         lastPersisted := match key
           case Deleted(id) => e.lastPersisted - {id}
           case Live(id) => if id in e.threads then e.lastPersisted[id := e.threads[id]] else e.lastPersisted)
    case Requeued => e.(retry := e.retry[key := Attempts(e, key) + 1], dirty := Add(e.dirty, key))
    case GaveUp => e.(retry := e.retry - {key})
  }

  function Pass(e: Engine, keys: seq<Key>, net: Network): Engine {
    if keys == [] then e else AfterKey(Pass(e, keys[..|keys| - 1], net), keys[|keys| - 1], net)
  }

  /** The keys that failed so far play no part in how a key fares. */
  lemma AfterKeyAdds(e: Engine, key: Key, net: Network, failed: seq<Key>)
    ensures AfterKey(e.(dirty := failed), key, net) ==
      AfterKey(e, key, net).(dirty := if VerdictOf(e, key, net).Requeued? then Add(failed, key) else failed)
  {
    assert Succeeds(e.(dirty := failed), key, net) == Succeeds(e, key, net);
  }

  lemma {:induction false} PassStep(e: Engine, keys: seq<Key>, k: nat, net: Network)
    requires k < |keys|
    ensures Pass(e, keys[..k + 1], net) == AfterKey(Pass(e, keys[..k], net), keys[k], net)
  {
    assert keys[..k + 1][..k] == keys[..k];
  }

  /** Drain the dirty set, try each key, put the failed ones back. */
  function Round(e: Engine, net: Network): Engine {
    Pass(e.(dirty := []), e.dirty, net)
  }

  class CommentEngine {
    var threads: map<Id, Thread>
    var dirty: seq<Key>
    var lastPersisted: map<Id, Thread>
    var retry: map<Key, nat>

    function View(): Engine
      reads this
    {
      Engine(threads, dirty, lastPersisted, retry)
    }

    constructor ()
      ensures View() == Fresh
    {
      threads, dirty, lastPersisted, retry := map[], [], map[], map[];
    }

    /** A write to the map and the observer it triggers. */
    method SetThread(id: Id, t: Thread)
      modifies this
      ensures View() == Put(old(View()), id, t)
    {
      threads := threads[id := t];
      dirty := Add(dirty, Live(id));
    }

    method Decide(id: Id, decision: Decision, user: string)
      modifies this
      ensures View() == DecideSuggestion(old(View()), id, decision, user)
    {
      if id !in threads {
        return;
      }
      var t := threads[id];
      if t.suggestion.None? {
        return;
      }
      SetThread(id, t.(status := Resolved, suggestion := Some(t.suggestion.value.(status := decision, decidedBy := user))));
    }

    method Delete(id: Id)
      modifies this
      ensures View() == DeleteThread(old(View()), id)
    {
      if id in threads {
        threads := threads - {id};
        dirty := Add(dirty, Live(id));
      }
      dirty := Add(dirty, Deleted(id));
    }

    method InsertThreadFromWire(id: Id, wire: Thread)
      modifies this
      ensures View() == InsertFromWire(old(View()), id, wire)
    {
      var localDecided := id in threads && Decided(threads[id]);
      var wirePending := WirePending(wire);
      var suggestionToStore := wire.suggestion;
      if localDecided && wirePending {
        suggestionToStore := threads[id].suggestion;
      }
      var stored := wire.(positions := None, suggestion := suggestionToStore);
      threads := threads[id := stored];
      lastPersisted := lastPersisted[id := stored.(suggestion := wire.suggestion)];
      dirty := Without(dirty, Live(id));
      if localDecided && wirePending {
        dirty := Add(dirty, Live(id));
      }
    }

    /** Send the requests one after the other; the first that fails ends it. */
    method Send(key: Key, rs: seq<Request>, net: Network) returns (ok: bool)
      ensures ok <==> forall k :: 0 <= k < |rs| ==> Ok(rs[k], net(key, rs[k]))
    {
      for k := 0 to |rs|
        invariant forall j :: 0 <= j < k ==> Ok(rs[j], net(key, rs[j]))
      {
        if !Ok(rs[k], net(key, rs[k])) {
          return false;
        }
      }
      ok := true;
    }

    /** Try one key; true when it has to be put back. */
    method PersistKey(key: Key, net: Network) returns (failed: bool)
      modifies this
      ensures failed <==> VerdictOf(old(View()), key, net).Requeued?
      ensures View() == AfterKey(old(View()), key, net).(dirty := old(dirty))
    {
      var succeeded: bool;
      match key {
        case Deleted(id) =>
          succeeded := Send(key, [Remove], net);
          assert succeeded <==> Ok([Remove][0], net(key, [Remove][0]));
          if succeeded {
            lastPersisted := lastPersisted - {id};
          }
        case Live(id) =>
          if id !in threads {
            succeeded := true;
          } else if Snapshot(View(), id) == Some(threads[id]) {
            succeeded := true;
          } else {
            succeeded := Send(key, Requests(Snapshot(View(), id), threads[id]), net);
            if succeeded {
              lastPersisted := lastPersisted[id := threads[id]];
            }
          }
      }
      if succeeded {
        retry := retry - {key};
        return false;
      }
      var attempts := Attempts(View(), key) + 1;
      if attempts >= MAX_PERSIST_RETRIES {
        retry := retry - {key};
        return false;
      }
      retry := retry[key := attempts];
      failed := true;
    }

    method Persist(net: Network)
      modifies this
      ensures View() == Round(old(View()), net)
    {
      var ids := dirty;
      dirty := [];
      var failed: seq<Key> := [];
      for k := 0 to |ids|
        invariant View().(dirty := failed) == Pass(old(View()).(dirty := []), ids[..k], net) && dirty == []
      {
        PassStep(old(View()).(dirty := []), ids, k, net);
        AfterKeyAdds(View(), ids[k], net, failed);
        var again := PersistKey(ids[k], net);
        if again {
          failed := Add(failed, ids[k]);
        }
      }
      assert ids[..|ids|] == ids;
      dirty := failed;
    }
  }
}
