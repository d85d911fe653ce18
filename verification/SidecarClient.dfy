/** Request/response correlation over the sidecar socket: concurrent calls, a pending map keyed by
    a 32-bit sequence number, a read loop, cancellation and connection loss, in any interleaving. */
module SidecarClient {
  import opened Bits
  import opened Options

  /** Calls are numbered from 1 in the order in which they take a sequence number. */
  type CallId = nat

  /** What arrives on a call's channel: the sidecar's answer to some request, or the failure
      that the read loop hands out when the connection is gone. */
  datatype Content = AnswerTo(call: CallId) | ConnectionLost

  datatype Outcome = Got(content: Content) | Cancelled | WriteFailed

  /** A call that has its number, one that is registered and waits, one that has returned. */
  datatype Call = Numbered | Waiting(written: bool, channel: Option<Content>) | Done(outcome: Outcome)

  /** `admitted` counts the calls that found the client open and have not taken a number yet. */
  datatype Client = Client(seqNo: nat, issued: nat, pending: map<nat, CallId>, calls: map<CallId, Call>, closed: bool,
                           admitted: nat)

  const Initial: Client := Client(0, 0, map[], map[], false, 0)

  // ---- the critical sections of the client

  /** A closed client refuses without a trace. */
  function Admitted(c: Client): Client {
    if c.closed then c else c.(admitted := c.admitted + 1)
  }

  function Number(c: Client): Client {
    if c.admitted == 0 then c
    else
      c.(admitted := c.admitted - 1, seqNo := (c.seqNo + 1) % TWO32, issued := c.issued + 1,
         calls := c.calls[c.issued + 1 := Numbered])
  }

  /** The sequence number call `id` took. */
  function SeqOf(id: CallId): nat {
    id % TWO32
  }

  function Register(c: Client, id: CallId): Client {
    if id in c.calls && c.calls[id].Numbered?
    then c.(pending := c.pending[SeqOf(id) := id], calls := c.calls[id := Waiting(false, None)])
    else c
  }

  /** Return from `call`: the deferred delete removes whatever is registered under its number. */
  function Finish(c: Client, id: CallId, outcome: Outcome): Client {
    if id in c.calls && c.calls[id].Waiting?
    then c.(pending := c.pending - {SeqOf(id)}, calls := c.calls[id := Done(outcome)])
    else c
  }

  function MarkWritten(c: Client, id: CallId): Client {
    if id in c.calls && c.calls[id].Waiting?
    then c.(calls := c.calls[id := c.calls[id].(written := true)])
    else c
  }

  /** Non-blocking send on a channel with one slot. */
  function Send(call: Call, content: Content): Call {
    if call.Waiting? && call.channel.None? then call.(channel := Some(content)) else call
  }

  function Deliver(c: Client, seqNo: nat, content: Content): Client {
    if seqNo in c.pending then
      var id := c.pending[seqNo];
      c.(pending := c.pending - {seqNo},
         calls := if id in c.calls then c.calls[id := Send(c.calls[id], content)] else c.calls)
    else c
  }

  function FailAll(c: Client): Client {
    c.(pending := map[],
       calls := map id | id in c.calls ::
         if id in c.pending.Values then Send(c.calls[id], ConnectionLost) else c.calls[id])
  }

  function Close(c: Client): Client {
    if c.closed then c else FailAll(c).(closed := true)
  }

  class Engine {
    var seqNo: nat
    var issued: nat
    var pending: map<nat, CallId>
    var calls: map<CallId, Call>
    var closed: bool
    var admitted: nat

    function View(): Client
      reads this
    {
      Client(seqNo, issued, pending, calls, closed, admitted)
    }

    constructor ()
      ensures View() == Initial
    {
      seqNo, issued, pending, calls, closed, admitted := 0, 0, map[], map[], false, 0;
    }

    method Admit() returns (ok: bool)
      modifies this
      ensures View() == Admitted(old(View())) && ok == !old(closed)
    {
      if closed {
        return false;
      }
      admitted := admitted + 1;
      ok := true;
    }

    method TakeNumber() returns (id: CallId)
      requires admitted > 0
      modifies this
      ensures View() == Number(old(View())) && id == issued == old(issued) + 1
    {
      admitted := admitted - 1;
      seqNo := (seqNo + 1) % TWO32;
      issued := issued + 1;
      calls := calls[issued := Numbered];
      id := issued;
    }

    method Enroll(id: CallId)
      modifies this
      ensures View() == Register(old(View()), id)
    {
      if id in calls && calls[id].Numbered? {
        calls := calls[id := Waiting(false, None)];
        pending := pending[SeqOf(id) := id];
      }
    }

    method WriteRequest(id: CallId, ok: bool)
      modifies this
      ensures View() == if ok then MarkWritten(old(View()), id) else Finish(old(View()), id, WriteFailed)
    {
      if ok {
        if id in calls && calls[id].Waiting? {
          calls := calls[id := calls[id].(written := true)];
        }
      } else {
        EndCall(id, WriteFailed);
      }
    }

    method EndCall(id: CallId, outcome: Outcome)
      modifies this
      ensures View() == Finish(old(View()), id, outcome)
    {
      if id in calls && calls[id].Waiting? {
        calls := calls[id := Done(outcome)];
        pending := pending - {SeqOf(id)};
      }
    }

    method DeliverResponse(q: nat, content: Content)
      modifies this
      ensures View() == Deliver(old(View()), q, content)
    {
      if q in pending {
        var id := pending[q];
        pending := pending - {q};
        if id in calls {
          calls := calls[id := Send(calls[id], content)];
        }
      }
    }

    /** Swap the map out, then notify every channel it held. */
    method FailAllPending()
      modifies this
      ensures View() == FailAll(old(View()))
    {
      var rest := pending;
      pending := map[];
      NotifyNone(calls, rest);
      while rest != map[]
        invariant pending == map[] && seqNo == old(seqNo) && issued == old(issued) && closed == old(closed)
        invariant admitted == old(admitted)
        invariant rest.Keys <= old(pending).Keys && forall q :: q in rest ==> rest[q] == old(pending)[q]
        invariant calls == Notify(old(calls), old(pending), rest)
        decreases |rest|
      {
        assert rest.Keys != {};
        var q :| q in rest;
        NotifyOne(old(calls), old(pending), rest, q);
        var id := rest[q];
        if id in calls {
          calls := calls[id := Send(calls[id], ConnectionLost)];
        }
        ghost var before := rest;
        rest := rest - {q};
        assert rest.Keys == before.Keys - {q};
      }
      NotifyAll(old(View()));
    }

    method Shutdown()
      modifies this
      ensures View() == Close(old(View()))
    {
      if closed {
        return;
      }
      FailAllPending();
      closed := true;
    }
  }

  /** The call is in the map that was swapped out and no longer waits to be notified. */
  ghost predicate Notified(all: map<nat, CallId>, rest: map<nat, CallId>, id: CallId) {
    exists q :: q in all && q !in rest && all[q] == id
  }

  ghost function Notify(calls: map<CallId, Call>, all: map<nat, CallId>, rest: map<nat, CallId>): map<CallId, Call> {
    map id | id in calls :: if Notified(all, rest, id) then Send(calls[id], ConnectionLost) else calls[id]
  }

  lemma NotifyNone(calls: map<CallId, Call>, all: map<nat, CallId>)
    ensures Notify(calls, all, all) == calls
  {
  }

  lemma NotifyOne(calls: map<CallId, Call>, all: map<nat, CallId>, rest: map<nat, CallId>, q: nat)
    requires rest.Keys <= all.Keys && q in rest
    ensures var now, id := Notify(calls, all, rest), all[q];
      Notify(calls, all, rest - {q}) == if id in now then now[id := Send(now[id], ConnectionLost)] else now
  {
    forall id | id in calls
      ensures Notified(all, rest - {q}, id) <==> Notified(all, rest, id) || id == all[q]
    {
      if Notified(all, rest, id) {
        var p :| p in all && p !in rest && all[p] == id;
        assert p !in rest - {q};
      }
      if id == all[q] {
        assert q !in rest - {q};
      }
    }
  }

  lemma NotifyAll(c: Client)
    ensures Notify(c.calls, c.pending, map[]) == FailAll(c).calls
  {
    forall id | id in c.calls
      ensures Notified(c.pending, map[], id) <==> id in c.pending.Values
    {
    }
  }

  // ---- the client, the socket and the sidecar

  /** Requests the sidecar has not answered and answers the client has not read. The sidecar
      echoes a request's number (its frame handling copies seq and op). `reading`: the read loop is
      still running. It is started once; a lost connection is not replaced in the same client. */
  datatype System = System(client: Client, requests: set<(nat, CallId)>, replies: set<(nat, CallId)>, reading: bool)

  datatype Event =
    | Begin
    | Start
    | Enlist(id: CallId)
    | Write(id: CallId, ok: bool)
    | Answer(request: (nat, CallId))
    | ReadReply(reply: (nat, CallId))
    | Receive(id: CallId)
    | Cancel(id: CallId)
    | LoseConnection
    | ShutDown

  ghost predicate IsWaiting(c: Client, id: CallId) {
    id in c.calls && c.calls[id].Waiting?
  }

  /** One atomic step; an event that cannot happen leaves the system as it is. Answers may come in
      any order, late, or never. */
  function Next(s: System, e: Event): System {
    var c := s.client;
    match e
    case Begin => s.(client := Admitted(c))
    case Start => s.(client := Number(c))
    case Enlist(id) => s.(client := Register(c, id))
    case Write(id, ok) =>
      if id in c.calls && c.calls[id].Waiting? && !c.calls[id].written then
        if ok && !c.closed then s.(client := MarkWritten(c, id), requests := s.requests + {(SeqOf(id), id)})
        else s.(client := Finish(c, id, WriteFailed))
      else s
    case Answer(r) =>
      if r in s.requests then s.(requests := s.requests - {r}, replies := s.replies + {r}) else s
    case ReadReply(r) =>
      if r in s.replies && s.reading then s.(client := Deliver(c, r.0, AnswerTo(r.1)), replies := s.replies - {r}) else s
    case Receive(id) =>
      if id in c.calls && c.calls[id].Waiting? && c.calls[id].written && c.calls[id].channel.Some?
      then s.(client := Finish(c, id, Got(c.calls[id].channel.value)))
      else s
    case Cancel(id) => s.(client := Finish(c, id, Cancelled))
    case LoseConnection => if s.reading then System(FailAll(c), {}, {}, false) else s
    case ShutDown => System(Close(c), {}, {}, false)
  }

  function Run(s: System, es: seq<Event>): System
    decreases |es|
  {
    if es == [] then s else Run(Next(s, es[0]), es[1..])
  }

  const Boot: System := System(Initial, {}, {}, true)

  // ---- the invariant

  ghost predicate Inv(s: System) {
    var c := s.client;
    && c.seqNo == c.issued % TWO32
    && (forall id :: id in c.calls <==> 1 <= id <= c.issued)
    // a registered call waits, is registered under its own number, and has nothing on its channel yet
    && (forall q :: q in c.pending ==> var id := c.pending[q];
          q == SeqOf(id) && id in c.calls && c.calls[id].Waiting? && c.calls[id].channel.None?)
    // a call with nothing on its channel is registered: no wake-up is lost
    && (forall id :: id in c.calls && c.calls[id].Waiting? && c.calls[id].channel.None? ==>
          SeqOf(id) in c.pending && c.pending[SeqOf(id)] == id)
    && (forall id :: id in c.calls ==> OwnContent(c.calls[id], id))
    && (forall r :: r in s.requests + s.replies ==> r.0 == SeqOf(r.1) && 1 <= r.1 <= c.issued)
  }

  /** Nothing but the answer to the call's own request, or the loss of the connection. */
  ghost predicate OwnContent(call: Call, id: CallId) {
    match call
    case Waiting(_, Some(AnswerTo(other))) => other == id
    case Done(Got(AnswerTo(other))) => other == id
    case _ => true
  }

  /** With at most 2^32 numbers issued no two calls share one. */
  lemma SeqOfInjective(a: CallId, b: CallId)
    requires 1 <= a <= TWO32 && 1 <= b <= TWO32 && SeqOf(a) == SeqOf(b)
    ensures a == b
  {
  }

  lemma NextSeqNo(n: nat)
    ensures (n % TWO32 + 1) % TWO32 == (n + 1) % TWO32
  {
  }

  lemma InvNumber(s: System)
    requires Inv(s)
    ensures Inv(s.(client := Number(s.client)))
  {
    var c, d := s.client, Number(s.client);
    NextSeqNo(c.issued);
    if c.admitted > 0 {
      assert c.issued + 1 !in c.calls;
      forall q | q in d.pending
        ensures d.pending[q] in d.calls && d.calls[d.pending[q]] == c.calls[c.pending[q]]
      {
      }
    }
  }

  lemma InvRegister(s: System, id: CallId)
    requires Inv(s) && s.client.issued <= TWO32
    ensures Inv(s.(client := Register(s.client, id)))
  {
    var c, d := s.client, Register(s.client, id);
    if id in c.calls && c.calls[id].Numbered? {
      forall other | other in d.calls && d.calls[other].Waiting? && d.calls[other].channel.None?
        ensures SeqOf(other) in d.pending && d.pending[SeqOf(other)] == other
      {
        if SeqOf(other) == SeqOf(id) {
          SeqOfInjective(other, id);
        }
      }
    }
  }

  lemma InvFinish(s: System, id: CallId, outcome: Outcome)
    requires Inv(s) && s.client.issued <= TWO32
    requires outcome.Got? ==> IsWaiting(s.client, id) && s.client.calls[id].channel == Some(outcome.content)
    ensures Inv(s.(client := Finish(s.client, id, outcome)))
  {
    var c, d := s.client, Finish(s.client, id, outcome);
    forall other | other in d.calls && d.calls[other].Waiting? && d.calls[other].channel.None?
      ensures SeqOf(other) in d.pending && d.pending[SeqOf(other)] == other
    {
      if IsWaiting(c, id) && SeqOf(other) == SeqOf(id) {
        SeqOfInjective(other, id);
      }
    }
  }

  lemma InvDeliver(s: System, r: (nat, CallId))
    requires Inv(s) && s.client.issued <= TWO32 && r in s.replies
    ensures Inv(s.(client := Deliver(s.client, r.0, AnswerTo(r.1)), replies := s.replies - {r}))
  {
    var c := s.client;
    if r.0 in c.pending {
      SeqOfInjective(r.1, c.pending[r.0]);
    }
  }

  lemma InvFailAll(s: System)
    requires Inv(s)
    ensures Inv(System(FailAll(s.client), {}, {}, false))
  {
    var c := s.client;
    assert forall id :: id in c.calls && c.calls[id].Waiting? && c.calls[id].channel.None? ==> id in c.pending.Values;
  }

  lemma InvNext(s: System, e: Event)
    requires Inv(s) && Next(s, e).client.issued <= TWO32
    ensures Inv(Next(s, e)) && Next(s, e).client.issued >= s.client.issued
  {
    match e {
      case Begin =>
      case Start => InvNumber(s);
      case Enlist(id) => InvRegister(s, id);
      case Write(id, ok) => if !(ok && !s.client.closed) { InvFinish(s, id, WriteFailed); }
      case ReadReply(r) => if r in s.replies { InvDeliver(s, r); }
      case Receive(id) =>
        if IsWaiting(s.client, id) && s.client.calls[id].channel.Some? {
          InvFinish(s, id, Got(s.client.calls[id].channel.value));
        }
      case Cancel(id) => InvFinish(s, id, Cancelled);
      case LoseConnection => InvFailAll(s);
      case ShutDown => InvFailAll(s);
      case Answer(_) =>
    }
  }

  lemma {:induction false} RunInv(s: System, es: seq<Event>)
    requires Inv(s) && Run(s, es).client.issued <= TWO32
    ensures Inv(Run(s, es))
    decreases |es|
  {
    if es != [] {
      RunIssues(Next(s, es[0]), es[1..]);
      InvNext(s, es[0]);
      RunInv(Next(s, es[0]), es[1..]);
    }
  }

  lemma {:induction false} RunIssues(s: System, es: seq<Event>)
    ensures Run(s, es).client.issued >= s.client.issued
    decreases |es|
  {
    if es != [] {
      RunIssues(Next(s, es[0]), es[1..]);
    }
  }

  lemma {:induction false} RunAppends(s: System, es: seq<Event>, fs: seq<Event>)
    ensures Run(s, es + fs) == Run(Run(s, es), fs)
    decreases |es|
  {
    if es == [] {
      assert es + fs == fs;
    } else {
      assert (es + fs)[1..] == es[1..] + fs;
      RunAppends(Next(s, es[0]), es[1..], fs);
    }
  }

  // ---- the theorems

  /** A call that returned a response got the response to its own request or the loss of the
      connection, a finished call is not in the pending map, and a call still waiting is registered
      or already has its content. */
  ghost predicate Correlated(c: Client) {
    && (forall id :: id in c.calls && c.calls[id].Done? && c.calls[id].outcome.Got? ==>
          c.calls[id].outcome.content == AnswerTo(id) || c.calls[id].outcome.content == ConnectionLost)
    && (forall q :: q in c.pending ==> IsWaiting(c, c.pending[q]))
    && (forall id :: IsWaiting(c, id) && c.calls[id].channel.None? ==>
          SeqOf(id) in c.pending && c.pending[SeqOf(id)] == id)
  }

  /** Correlation holds over every interleaving in which at most 2^32 calls took a number. */
  lemma {:induction false} CallsAreCorrelated(es: seq<Event>)
    requires Run(Boot, es).client.issued <= TWO32
    ensures Correlated(Run(Boot, es).client)
  {
    RunInv(Boot, es);
    var c := Run(Boot, es).client;
    forall id | id in c.calls && c.calls[id].Done? && c.calls[id].outcome.Got?
      ensures c.calls[id].outcome.content == AnswerTo(id) || c.calls[id].outcome.content == ConnectionLost
    {
      assert OwnContent(c.calls[id], id);
    }
  }

  /** A call has at most one outcome, whatever happens afterwards. */
  lemma {:induction false} OutcomeIsFinal(s: System, es: seq<Event>, id: CallId)
    requires forall other :: other in s.client.calls ==> other <= s.client.issued
    requires id in s.client.calls && s.client.calls[id].Done?
    ensures id in Run(s, es).client.calls && Run(s, es).client.calls[id] == s.client.calls[id]
    decreases |es|
  {
    if es != [] {
      OutcomeIsFinal(Next(s, es[0]), es[1..], id);
    }
  }

  /** How the event makes a waiting call return, if it does. */
  function Ending(s: System, call: Call, e: Event, id: CallId): Option<Outcome>
    requires call.Waiting?
  {
    match e
    case Cancel(other) => if other == id then Some(Cancelled) else None
    case Write(other, ok) => if other == id && !call.written && (!ok || s.client.closed) then Some(WriteFailed) else None
    case Receive(other) =>
      if other == id && call.written && call.channel.Some? then Some(Got(call.channel.value)) else None
    case _ => None
  }

  /** A waiting call returns exactly by its own cancellation, by its own failed write, or with what is on
      its channel once it has written; then it is no longer registered. */
  lemma ReturnsIff(s: System, e: Event, id: CallId)
    requires IsWaiting(s.client, id) && id <= s.client.issued
    ensures var c, end := Next(s, e).client, Ending(s, s.client.calls[id], e, id);
      && id in c.calls
      && (end.Some? ==> c.calls[id] == Done(end.value) && SeqOf(id) !in c.pending)
      && (end.None? ==> c.calls[id].Waiting?)
  {
  }

  /** A lost connection wakes exactly the calls that are registered: a call that has taken its number
      and not registered yet is passed over. */
  lemma {:induction false} ConnectionLossWakesIff(es: seq<Event>, id: CallId)
    requires Run(Boot, es).client.issued <= TWO32 && Run(Boot, es).reading
    requires id in Run(Boot, es).client.calls && !Run(Boot, es).client.calls[id].Done?
    ensures var c := Next(Run(Boot, es), LoseConnection).client;
      && c.pending == map[] && id in c.calls && !c.calls[id].Done?
      && (c.calls[id].Waiting? && c.calls[id].channel.Some? <==> IsWaiting(Run(Boot, es).client, id))
  {
    RunInv(Boot, es);
    InvNext(Run(Boot, es), LoseConnection);
  }

  /** So does a shutdown, once. */
  lemma {:induction false} ShutdownWakesIff(es: seq<Event>, id: CallId)
    requires Run(Boot, es).client.issued <= TWO32 && !Run(Boot, es).client.closed
    requires id in Run(Boot, es).client.calls && !Run(Boot, es).client.calls[id].Done?
    ensures var c := Next(Run(Boot, es), ShutDown).client;
      && c.closed && c.pending == map[] && id in c.calls && !c.calls[id].Done?
      && (c.calls[id].Waiting? && c.calls[id].channel.Some? <==> IsWaiting(Run(Boot, es).client, id))
  {
    RunInv(Boot, es);
    InvNext(Run(Boot, es), ShutDown);
  }

  ghost predicate Over(s: System) {
    s.client.closed && !s.reading && s.requests == s.replies == {}
  }

  lemma {:induction false} OverStaysOver(s: System, es: seq<Event>)
    requires Over(s)
    ensures Over(Run(s, es))
    ensures Run(s, es).client.issued + Run(s, es).client.admitted == s.client.issued + s.client.admitted
    decreases |es|
  {
    if es != [] {
      OverStaysOver(Next(s, es[0]), es[1..]);
    }
  }

  /** Shutting down is final: the client stays closed, nothing is sent or answered any more, and the only
      numbers still taken are those of calls that had been let in. */
  lemma {:induction false} ShutdownIsFinal(s: System, es: seq<Event>)
    ensures var t := Run(Next(s, ShutDown), es);
      && Over(t) && Next(t, ShutDown) == t
      && t.client.issued + t.client.admitted == s.client.issued + s.client.admitted
  {
    OverStaysOver(Next(s, ShutDown), es);
  }

  /** Nothing has arrived for the call, and nothing did before it returned. */
  ghost predicate Unheard(call: Call) {
    match call
    case Numbered => true
    case Waiting(_, channel) => channel.None?
    case Done(outcome) => !outcome.Got?
  }

  /** Such a call, and every later one, hears nothing more while the client is not shut down: it
      returns only by a failed write or by its own cancellation. */
  lemma {:induction false} UnheardAfterLoss(s: System, es: seq<Event>, id: CallId)
    requires !s.reading && (id in s.client.calls ==> Unheard(s.client.calls[id]))
    requires forall k :: 0 <= k < |es| ==> !es[k].ShutDown?
    ensures var t := Run(s, es); !t.reading && (id in t.client.calls ==> Unheard(t.client.calls[id]))
    decreases |es|
  {
    if es != [] {
      UnheardAfterLoss(Next(s, es[0]), es[1..], id);
    }
  }

  lemma {:induction false} RunThree(s: System, a: Event, b: Event, c: Event)
    ensures Run(s, [a, b, c]) == Next(Next(Next(s, a), b), c)
  {
    assert [a, b, c][1..] == [b, c];
    RunTwo(Next(s, a), b, c);
  }

  lemma {:induction false} RunTwo(s: System, a: Event, b: Event)
    ensures Run(s, [a, b]) == Next(Next(s, a), b)
  {
    assert [a, b][1..] == [b];
    RunOne(Next(s, a), b);
  }

  lemma {:induction false} RunOne(s: System, e: Event)
    ensures Run(s, [e]) == Next(s, e)
  {
    assert [e][1..] == [];
  }

  /** The connection is lost between taking the number and registering: the call is registered,
      writes, and waits with no read loop to wake it. */
  lemma LossBeforeRegistration()
    ensures var s := Run(Boot, [Begin, Start, LoseConnection] + [Enlist(1), Write(1, true)]);
      !s.reading && s.client.pending == map[SeqOf(1) := 1] && s.client.calls == map[1 := Waiting(true, None)]
  {
    var c := Initial.(seqNo := 1, issued := 1, calls := map[1 := Numbered]);
    var s := System(c, {}, {}, false);
    RunAppends(Boot, [Begin, Start, LoseConnection], [Enlist(1), Write(1, true)]);
    RunThree(Boot, Begin, Start, LoseConnection);
    assert Number(Admitted(Initial)) == c;
    assert FailAll(c) == c;
    RunTwo(s, Enlist(1), Write(1, true));
    assert Register(c, 1).calls == map[1 := Waiting(false, None)] && Register(c, 1).pending == map[SeqOf(1) := 1];
  }

  // ---- the bound is exact

  /** Open, nothing registered, and the very first request still unanswered. */
  ghost predicate Idle(s: System) {
    && !s.client.closed && s.client.pending == map[] && s.reading
    && s.client.issued > 0 && s.client.seqNo == SeqOf(s.client.issued)
    && (SeqOf(1), 1) in s.requests
  }

  /** A call that gets as far as being registered. */
  function Opening(id: CallId): seq<Event> {
    [Begin, Start, Enlist(id)]
  }

  function Opened(c: Client): Client {
    var id := c.issued + 1;
    c.(seqNo := (c.seqNo + 1) % TWO32, issued := id,
       pending := c.pending[SeqOf(id) := id], calls := c.calls[id := Waiting(false, None)])
  }

  lemma OpeningMeans(c: Client)
    requires !c.closed
    ensures Register(Number(Admitted(c)), c.issued + 1) == Opened(c)
  {
    var id := c.issued + 1;
    assert c.calls[id := Numbered][id := Waiting(false, None)] == c.calls[id := Waiting(false, None)];
  }

  /** It takes the next number and registers under it. */
  lemma {:induction false} RunOpening(s: System)
    requires !s.client.closed
    ensures Run(s, Opening(s.client.issued + 1)) == s.(client := Opened(s.client))
  {
    var id := s.client.issued + 1;
    RunThree(s, Begin, Start, Enlist(id));
    var a := s.(client := Admitted(s.client));
    var b := a.(client := Number(a.client));
    assert Next(s, Begin) == a && Next(a, Start) == b && Next(b, Enlist(id)) == b.(client := Register(b.client, id));
    OpeningMeans(s.client);
  }

  /** A call that is written and answered at once. */
  function Answered(id: CallId): seq<Event> {
    var r := (SeqOf(id), id);
    Opening(id) + [Write(id, true), Answer(r), ReadReply(r)] + [Receive(id)]
  }

  /** Calls that are answered use numbers up. */
  function Burn(from: nat, n: nat): seq<Event>
    decreases n
  {
    if n == 0 then [] else Answered(from + 1) + Burn(from + 1, n - 1)
  }

  /** The answer is on the channel of the call, and nothing is registered. */
  lemma AnswerArrives(s: System)
    requires Idle(s)
    ensures var id := s.client.issued + 1;
      var r := (SeqOf(id), id);
      var t := Run(s, Opening(id) + [Write(id, true), Answer(r), ReadReply(r)]);
      Idle(t) && t.client.issued == id && id in t.client.calls && t.client.calls[id] == Waiting(true, Some(AnswerTo(id)))
  {
    var id := s.client.issued + 1;
    var r := (SeqOf(id), id);
    RunOpening(s);
    var o := Run(s, Opening(id));
    RunAppends(s, Opening(id), [Write(id, true), Answer(r), ReadReply(r)]);
    RunThree(o, Write(id, true), Answer(r), ReadReply(r));
    assert map[SeqOf(id) := id] - {SeqOf(id)} == map[];
  }

  lemma BurnOne(s: System)
    requires Idle(s)
    ensures Idle(Run(s, Answered(s.client.issued + 1)))
    ensures Run(s, Answered(s.client.issued + 1)).client.issued == s.client.issued + 1
  {
    var id := s.client.issued + 1;
    var r := (SeqOf(id), id);
    var a := Opening(id) + [Write(id, true), Answer(r), ReadReply(r)];
    AnswerArrives(s);
    RunAppends(s, a, [Receive(id)]);
    RunOne(Run(s, a), Receive(id));
  }

  lemma {:induction false} BurnKeepsIdle(s: System, n: nat)
    requires Idle(s)
    ensures Idle(Run(s, Burn(s.client.issued, n)))
    ensures Run(s, Burn(s.client.issued, n)).client.issued == s.client.issued + n
    decreases n
  {
    if n > 0 {
      var id := s.client.issued + 1;
      BurnOne(s);
      RunAppends(s, Answered(id), Burn(id, n - 1));
      BurnKeepsIdle(Run(s, Answered(id)), n - 1);
    }
  }

  /** One call too many, and it returned the answer to the first. */
  ghost predicate Mixed(s: System) {
    && s.client.issued == TWO32 + 1
    && TWO32 + 1 in s.client.calls
    && s.client.calls[TWO32 + 1] == Done(Got(AnswerTo(1)))
  }

  /** Call 2^32 + 1 waits under the number of call 1. */
  ghost predicate Reused(s: System) {
    && s.client.issued == TWO32 + 1 && !s.client.closed && s.reading
    && s.client.pending == map[SeqOf(1) := TWO32 + 1]
    && TWO32 + 1 in s.client.calls && s.client.calls[TWO32 + 1] == Waiting(true, None)
    && (SeqOf(1), 1) in s.requests
  }

  lemma {:induction false} NumberIsReused(s: System)
    requires Idle(s) && s.client.issued == TWO32
    ensures Reused(Run(s, Opening(TWO32 + 1) + [Write(TWO32 + 1, true)]))
  {
    var id := TWO32 + 1;
    RunOpening(s);
    RunAppends(s, Opening(id), [Write(id, true)]);
    RunOne(Run(s, Opening(id)), Write(id, true));
    assert SeqOf(id) == SeqOf(1);
  }

  lemma {:induction false} LateAnswerIsDelivered(s: System)
    requires Reused(s)
    ensures Mixed(Run(s, [Answer((SeqOf(1), 1)), ReadReply((SeqOf(1), 1))] + [Receive(TWO32 + 1)]))
  {
    var id, a, b := TWO32 + 1, Answer((SeqOf(1), 1)), ReadReply((SeqOf(1), 1));
    RunTwo(s, a, b);
    var t := Run(s, [a, b]);
    assert t.client.calls[id] == Waiting(true, Some(AnswerTo(1)));
    RunAppends(s, [a, b], [Receive(id)]);
    RunOne(t, Receive(id));
  }

  /** When number 1 comes round again, a late answer to the first call wakes another one. */
  lemma {:induction false} LateAnswerToWrongCall(s: System)
    requires Idle(s) && s.client.issued == TWO32
    ensures exists es :: Mixed(Run(s, es))
  {
    var id := TWO32 + 1;
    var a := Opening(id) + [Write(id, true)];
    var b := [Answer((SeqOf(1), 1)), ReadReply((SeqOf(1), 1))] + [Receive(id)];
    NumberIsReused(s);
    LateAnswerIsDelivered(Run(s, a));
    RunAppends(s, a, b);
    assert Mixed(Run(s, a + b));
  }

  /** The first call is written and cancelled. */
  lemma FirstCallGivesUp()
    ensures var s := Run(Boot, Opening(1) + [Write(1, true), Cancel(1)]);
      Idle(s) && s.client.issued == 1
  {
    RunOpening(Boot);
    var s := Run(Boot, Opening(1));
    RunAppends(Boot, Opening(1), [Write(1, true), Cancel(1)]);
    RunTwo(s, Write(1, true), Cancel(1));
    assert map[SeqOf(1) := 1] - {SeqOf(1)} == map[];
  }

  lemma WrapBreaksCorrelation() returns (es: seq<Event>)
    ensures Mixed(Run(Boot, es))
  {
    var first := Opening(1) + [Write(1, true), Cancel(1)];
    FirstCallGivesUp();
    var s := Run(Boot, first);
    BurnKeepsIdle(s, TWO32 - 1);
    var burn := Burn(1, TWO32 - 1);
    LateAnswerToWrongCall(Run(s, burn));
    var last :| Mixed(Run(Run(s, burn), last));
    RunAppends(s, burn, last);
    RunAppends(Boot, first, burn + last);
    es := first + (burn + last);
  }

  /** The number of calls for which every interleaving is correlated is exactly 2^32. */
  lemma CorrelationBoundIsExact(n: nat)
    ensures n <= TWO32 <==>
      forall es :: Run(Boot, es).client.issued <= n ==> Correlated(Run(Boot, es).client)
  {
    if n <= TWO32 {
      forall es | Run(Boot, es).client.issued <= n
        ensures Correlated(Run(Boot, es).client)
      {
        CallsAreCorrelated(es);
      }
    } else {
      var es := WrapBreaksCorrelation();
      assert !Correlated(Run(Boot, es).client);
    }
  }
}
