/** What the requests of a persist round do to the thread on the server, and when the server then
    holds the thread that the engine believes it has persisted. */
module CommentServer {
  import opened Bits
  import opened Options
  import opened CommentSync

  /** A new thread is open and has at most one comment. */
  function Created(anchor: string, first: Option<Comment>, suggestion: Option<Suggestion>): Thread {
    Thread(anchor, None, Open, if first.Some? then [first.value.(deleted := false)] else [], suggestion, "")
  }

  /** One request about an existing thread; None is a refusal, which changes nothing. A reply is
      appended whatever its id is, and a decision always resolves the thread. */
  function Change(t: Thread, r: Request): Option<Thread> {
    match r
    case Reply(c) => Some(t.(comments := t.comments + [c.(deleted := false)]))
    case SetStatus(status) => Some(t.(status := status))
    case Decide(d, user) =>
      if t.suggestion.None? || d.Pending? then None
      else Some(t.(status := Resolved, suggestion := Some(t.suggestion.value.(status := d, decidedBy := user))))
    case _ => None
  }

  /** Requests one after another, up to the first refusal. */
  function Served(t: Thread, rs: seq<Request>): (Thread, bool)
    decreases |rs|
  {
    if rs == [] then (t, true)
    else
      match Change(t, rs[0])
      case None => (t, false)
      case Some(u) => Served(u, rs[1..])
  }

  /** The server has what a reader of the thread sees. */
  ghost predicate Agrees(server: Thread, t: Thread) {
    && server.anchor == t.anchor && server.comments == t.comments
    && server.status == t.status && server.suggestion == t.suggestion
  }

  lemma {:induction false} ServedAppends(t: Thread, rs: seq<Request>, more: seq<Request>)
    ensures Served(t, rs).1 ==> Served(t, rs + more) == Served(Served(t, rs).0, more)
    decreases |rs|
  {
    if rs == [] {
      assert rs + more == more;
    } else if Change(t, rs[0]).Some? {
      assert (rs + more)[1..] == rs[1..] + more;
      ServedAppends(Change(t, rs[0]).value, rs[1..], more);
    }
  }

  // ---- comments

  lemma {:induction false} NewCommentsAppend(known: seq<Comment>, a: seq<Comment>, b: seq<Comment>)
    ensures NewComments(known, a + b) == NewComments(known, a) + NewComments(known, b)
  {
    if b == [] {
      assert a + b == a;
    } else {
      assert (a + b)[..|a + b| - 1] == a + b[..|b| - 1];
      NewCommentsAppend(known, a, b[..|b| - 1]);
    }
  }

  lemma {:induction false} NewCommentsAreNew(known: seq<Comment>, now: seq<Comment>)
    ensures |NewComments(known, now)| <= |now|
    ensures forall c :: c in NewComments(known, now) ==> IsNew(known, c)
    ensures NewComments(known, now) == now <==> forall c :: c in now ==> IsNew(known, c)
    ensures |NewComments(known, now)| == |now| ==> NewComments(known, now) == now
  {
    if now != [] {
      var pre, c := now[..|now| - 1], now[|now| - 1];
      assert now == pre + [c];
      NewCommentsAreNew(known, pre);
    }
  }

  lemma {:induction false} NothingNewAmongKnown(known: seq<Comment>, some: seq<Comment>)
    requires forall c :: c in some ==> c in known
    ensures NewComments(known, some) == []
  {
    if some != [] {
      assert some[|some| - 1] in some;
      NothingNewAmongKnown(known, some[..|some| - 1]);
    }
  }

  /** The thread has the known comments unchanged and in front, and behind them only new ones. */
  ghost predicate OnlyGrew(known: seq<Comment>, now: seq<Comment>) {
    known <= now && forall c :: c in now[|known|..] ==> IsNew(known, c)
  }

  lemma IsConcatIff<T>(a: seq<T>, b: seq<T>, whole: seq<T>)
    ensures a + b == whole <==> a <= whole && b == whole[|a|..]
  {
    assert (a + b)[|a|..] == b;
  }

  lemma {:induction false} PostedAgainIff(known: seq<Comment>, rest: seq<Comment>, again: nat)
    requires again <= |NewComments(known, rest)|
    ensures var new' := NewComments(known, rest);
      new'[..again] + new' == rest <==> again == 0 && forall c :: c in rest ==> IsNew(known, c)
  {
    var new' := NewComments(known, rest);
    NewCommentsAreNew(known, rest);
    if again == 0 {
      assert new'[..0] + new' == new';
    }
  }

  /** Posting new comments behind the known ones, after `again` of them were posted before, gives
      the thread's comments exactly if it only grew and nothing is posted twice. */
  lemma {:induction false} PostedCommentsAgreeIff(known: seq<Comment>, now: seq<Comment>, again: nat)
    requires again <= |NewComments(known, now)|
    ensures var new' := NewComments(known, now);
      known + (new'[..again] + new') == now <==> again == 0 && OnlyGrew(known, now)
  {
    var posted := NewComments(known, now)[..again] + NewComments(known, now);
    IsConcatIff(known, posted, now);
    if known <= now {
      var rest := now[|known|..];
      assert now == known + rest;
      NothingNewAmongKnown(known, known);
      NewCommentsAppend(known, known, rest);
      assert NewComments(known, now) == NewComments(known, rest);
      PostedAgainIff(known, rest, again);
    }
  }

  ghost predicate AllLive(cs: seq<Comment>) {
    forall k :: 0 <= k < |cs| ==> !cs[k].deleted
  }

  lemma {:induction false} NewCommentsAreLive(known: seq<Comment>, now: seq<Comment>)
    ensures AllLive(NewComments(known, now))
  {
    NewCommentsAreNew(known, now);
    var new' := NewComments(known, now);
    forall k | 0 <= k < |new'|
      ensures !new'[k].deleted
    {
      assert new'[k] in new';
    }
  }

  lemma {:induction false} ServedReplies(t: Thread, cs: seq<Comment>)
    requires AllLive(cs)
    ensures Served(t, Replies(cs)) == (t.(comments := t.comments + cs), true)
    decreases |cs|
  {
    if cs == [] {
      assert t.comments + cs == t.comments;
    } else {
      var u := t.(comments := t.comments + [cs[0]]);
      assert cs[0].(deleted := false) == cs[0];
      assert Replies(cs)[1..] == Replies(cs[1..]);
      ServedReplies(u, cs[1..]);
      assert u.comments + cs[1..] == t.comments + cs;
    }
  }

  // ---- the thread itself

  /** Status and suggestion after the requests that bring `b` to `t`, starting from `x`. */
  function Settled(x: Thread, b: Thread, t: Thread): Thread
    requires NewDecision(b, t) ==> x.suggestion.Some?
  {
    if NewDecision(b, t) then
      x.(status := Resolved, suggestion := Some(x.suggestion.value.(status := t.suggestion.value.status,
                                                                      decidedBy := t.suggestion.value.decidedBy)))
    else if b.status != t.status then x.(status := t.status)
    else x
  }

  lemma {:induction false} ServedOne(x: Thread, r: Request)
    ensures Served(x, [r]) == if Change(x, r).Some? then (Change(x, r).value, true) else (x, false)
  {
    assert [r][1..] == [];
  }

  lemma {:induction false} ServedThreadRequests(x: Thread, b: Thread, t: Thread)
    ensures Served(x, ThreadRequests(b, t)).1 <==> (NewDecision(b, t) ==> x.suggestion.Some?)
    ensures (NewDecision(b, t) ==> x.suggestion.Some?) ==> Served(x, ThreadRequests(b, t)).0 == Settled(x, b, t)
  {
    var y := if b.status != t.status then x.(status := t.status) else x;
    var s := if b.status != t.status then [SetStatus(t.status)] else [];
    var d := if NewDecision(b, t) then [Decide(t.suggestion.value.status, t.suggestion.value.decidedBy)] else [];
    if s != [] {
      ServedOne(x, s[0]);
    }
    assert Served(x, s) == (y, true);
    ServedAppends(x, s, d);
    if d != [] {
      ServedOne(y, d[0]);
    }
  }

  /** All requests of a key, starting from any server state. */
  lemma {:induction false} ServedRequests(x: Thread, b: Thread, t: Thread)
    ensures var y := x.(comments := x.comments + NewComments(b.comments, t.comments));
      Served(x, Requests(Some(b), t)) == Served(y, ThreadRequests(b, t))
  {
    var new' := NewComments(b.comments, t.comments);
    NewCommentsAreLive(b.comments, t.comments);
    ServedReplies(x, new');
    ServedAppends(x, Replies(new'), ThreadRequests(b, t));
  }

  /** The state that an attempt leaves when only its first requests got through. */
  ghost predicate Halfway(x: Thread, b: Thread, t: Thread, posted: nat) {
    && x.anchor == b.anchor && posted <= |NewComments(b.comments, t.comments)|
    && x.comments == b.comments + NewComments(b.comments, t.comments)[..posted]
    && (x.status == b.status || x.status == t.status != b.status || NewDecision(b, t))
    && (x.suggestion == b.suggestion
        || (NewDecision(b, t) && b.suggestion.Some? && x.suggestion == Settled(b, b, t).suggestion))
  }

  lemma {:induction false} ServedThreadPrefix(y: Thread, b: Thread, t: Thread, k: nat)
    requires k <= |ThreadRequests(b, t)| && Served(y, ThreadRequests(b, t)[..k]).1
    requires y.status == b.status && y.suggestion == b.suggestion
    ensures var x := Served(y, ThreadRequests(b, t)[..k]).0;
      && x.anchor == y.anchor && x.comments == y.comments
      && (x.status == b.status || x.status == t.status != b.status || NewDecision(b, t))
      && (x.suggestion == b.suggestion
          || (NewDecision(b, t) && b.suggestion.Some? && x.suggestion == Settled(b, b, t).suggestion))
  {
    var rs := ThreadRequests(b, t);
    if k == |rs| {
      assert rs[..k] == rs;
      ServedThreadRequests(y, b, t);
    } else if k == 1 {
      assert rs[..1] == [rs[0]];
      ServedOne(y, rs[0]);
    }
  }

  lemma RequestsPrefix(b: Thread, t: Thread, k: nat)
    requires k <= |Requests(Some(b), t)|
    ensures var new', rs := NewComments(b.comments, t.comments), Requests(Some(b), t);
      rs[..k] == if k <= |new'| then Replies(new'[..k]) else Replies(new') + ThreadRequests(b, t)[..k - |new'|]
  {
  }

  lemma {:induction false} ServedPrefix(b: Thread, t: Thread, k: nat)
    requires k <= |Requests(Some(b), t)| && Served(b, Requests(Some(b), t)[..k]).1
    ensures Halfway(Served(b, Requests(Some(b), t)[..k]).0, b, t, Min(k, |NewComments(b.comments, t.comments)|))
  {
    var new' := NewComments(b.comments, t.comments);
    RequestsPrefix(b, t, k);
    NewCommentsAreLive(b.comments, t.comments);
    if k <= |new'| {
      ServedReplies(b, new'[..k]);
    } else {
      assert new'[..|new'|] == new';
      ServedReplies(b, new');
      ServedAppends(b, Replies(new'), ThreadRequests(b, t)[..k - |new'|]);
      ServedThreadPrefix(b.(comments := b.comments + new'), b, t, k - |new'|);
    }
  }

  // ---- agreement

  /** The changes that the requests can carry: the anchor is the same, comments were only added, and the suggestion is as
      it was or was decided, which also resolved the thread. */
  ghost predicate Carried(b: Thread, t: Thread) {
    b.anchor == t.anchor && OnlyGrew(b.comments, t.comments) && CarriedDecision(b, t)
  }

  ghost predicate CarriedDecision(b: Thread, t: Thread) {
    if NewDecision(b, t)
    then b.suggestion.Some? && b.suggestion.value.view == t.suggestion.value.view && t.status.Resolved?
    else t.suggestion == b.suggestion
  }

  /** Status and suggestion come out right exactly if the requests can carry the change of them. */
  lemma SettledAgreesIff(y: Thread, b: Thread, t: Thread)
    requires y.status == b.status || y.status == t.status != b.status || NewDecision(b, t)
    requires y.suggestion == b.suggestion
      || (NewDecision(b, t) && b.suggestion.Some? && y.suggestion == Settled(b, b, t).suggestion)
    ensures (NewDecision(b, t) ==> y.suggestion.Some?)
        && Settled(y, b, t).status == t.status && Settled(y, b, t).suggestion == t.suggestion
      <==> CarriedDecision(b, t)
  {
  }

  lemma {:induction false} FinishAgreesIff(x: Thread, b: Thread, t: Thread, posted: nat)
    requires Halfway(x, b, t, posted)
    ensures var (server, ok) := Served(x, Requests(Some(b), t));
      ok && Agrees(server, t) <==> Carried(b, t) && posted == 0
  {
    var new' := NewComments(b.comments, t.comments);
    var y := x.(comments := x.comments + new');
    ServedRequests(x, b, t);
    ServedThreadRequests(y, b, t);
    SettledAgreesIff(y, b, t);
    PostedCommentsAgreeIff(b.comments, t.comments, posted);
    assert b.comments + new'[..posted] + new' == b.comments + (new'[..posted] + new');
  }

  /** A server that holds the last persisted snapshot holds the stored thread after a successful
      attempt exactly if the requests can carry the change. When an earlier attempt failed behind
      its first `k` requests, then in addition none of those may have been a reply: replies are
      posted again and appear twice. */
  lemma {:induction false} RetryAgreesIff(b: Thread, t: Thread, k: nat)
    requires k <= |Requests(Some(b), t)| && Served(b, Requests(Some(b), t)[..k]).1
    ensures var (server, ok) := Served(Served(b, Requests(Some(b), t)[..k]).0, Requests(Some(b), t));
      ok && Agrees(server, t) <==> Carried(b, t) && (k == 0 || NewComments(b.comments, t.comments) == [])
  {
    ServedPrefix(b, t, k);
    FinishAgreesIff(Served(b, Requests(Some(b), t)[..k]).0, b, t, Min(k, |NewComments(b.comments, t.comments)|));
  }

  lemma {:induction false} OneNewComment(known: seq<Comment>, c: Comment)
    requires IsNew(known, c)
    ensures NewComments(known, known + [c]) == [c]
  {
    NothingNewAmongKnown(known, known);
    NewCommentsAppend(known, known, [c]);
    assert [c][..0] == [];
  }

  /** A reply that got through before the status change failed is there twice after the retry. */
  lemma {:induction false} PartialFailureDuplicatesReply(b: Thread, c: Comment)
    requires b.status.Open? && IsNew(b.comments, c)
    ensures var t := b.(comments := b.comments + [c], status := Resolved);
      var rs := Requests(Some(b), t);
      && |rs| == 2 && Served(b, rs[..1]).1
      && Served(Served(b, rs[..1]).0, rs) == (t.(comments := b.comments + [c, c]), true)
  {
    var t := b.(comments := b.comments + [c], status := Resolved);
    var rs := Requests(Some(b), t);
    var x, y := b.(comments := b.comments + [c]), b.(comments := b.comments + [c, c]);
    OneNewComment(b.comments, c);
    assert ThreadRequests(b, t) == [SetStatus(Resolved)];
    assert |Replies([c])| == 1 && rs[..1] == Replies([c]);
    ServedReplies(b, [c]);
    ServedRequests(x, b, t);
    assert x.comments + [c] == y.comments;
    ServedOne(y, SetStatus(Resolved));
  }

  /** A decision made on a thread whose other changes can be carried is on the server after the next
      successful attempt, with its decider and in a resolved thread, exactly if it differs from what the
      snapshot has, or comes from the same user again. */
  lemma {:induction false} DecisionReachesServerIff(e: Engine, id: Id, decision: Decision, user: string, b: Thread)
    requires id in e.threads && Snapshot(e, id) == Some(b) && Carried(b, e.threads[id])
    requires b.suggestion.Some? && !decision.Pending?
    ensures var r := DecideSuggestion(e, id, decision, user);
      var (server, ok) := Served(b, Requests(Snapshot(r, id), r.threads[id]));
      && (ok && Agrees(server, r.threads[id]) <==>
          decision != b.suggestion.value.status || user == b.suggestion.value.decidedBy)
      && (ok && Agrees(server, r.threads[id]) ==>
          && server.status.Resolved? && server.comments == e.threads[id].comments
          && server.suggestion == Some(Suggestion(decision, b.suggestion.value.view, user)))
  {
    var t := DecideSuggestion(e, id, decision, user).threads[id];
    assert Requests(Some(b), t)[..0] == [];
    RetryAgreesIff(b, t, 0);
  }

  /** Creating a thread carries its anchor, suggestion and first comment, and leaves it open. */
  lemma CreateAgreesIff(t: Thread)
    ensures var r := Requests(None, t)[0];
      && |Requests(None, t)| == 1 && r.Create?
      && (Agrees(Created(r.anchor, r.first, r.suggestion), t) <==>
          t.status.Open? && |t.comments| <= 1 && forall c :: c in t.comments ==> !c.deleted)
  {
    if t.comments != [] {
      assert t.comments[0] in t.comments;
      assert |t.comments| == 1 ==> t.comments == [t.comments[0]];
    }
  }
}
