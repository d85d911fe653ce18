/** Whole runs of one room: updates keep arriving while a drained batch is on its way to the
    provider. Which updates are stored, in flight or buffered? */
module FlushRuns {
  import opened Bits
  import opened Options
  import opened Prefixes
  import opened FlushBuffer

  /** `history` is every update appended, `acked` the sequences the provider has stored. */
  datatype Relay = Relay(buffer: Buffer, inFlight: seq<BufferedUpdate>, acked: set<nat>, history: seq<BufferedUpdate>)

  datatype Event =
    | Append(data: seq<Byte>, clientID: nat)
    | FlushStart(lockWon: bool)
    | FlushEnd(allow: bool, store: (nat, seq<BufferedUpdate>) -> Attempt, cancelled: nat -> bool, maxRetries: nat)

  const Boot: Relay := Relay(Buffer([], 0, 0), [], {}, [])

  function Outcome(r: Relay, e: Event): Stored
    requires e.FlushEnd?
  {
    Retry(e.store, e.cancelled, e.maxRetries, 0, r.inFlight)
  }

  /** One flush at a time, as the room's flush loop runs them; appends may come between its two halves. */
  function Next(r: Relay, e: Event): Relay {
    match e
    case Append(data, clientID) =>
      r.(buffer := Appended(r.buffer, data, clientID),
         history := r.history + [BufferedUpdate(|r.history| + 1, data, clientID)])
    case FlushStart(lockWon) =>
      if lockWon && r.inFlight == [] then r.(buffer := Drained(r.buffer), inFlight := r.buffer.updates) else r
    case FlushEnd(allow, _, _, _) =>
      if r.inFlight == [] then r
      else
        var st := Outcome(r, e);
        r.(buffer := Prepended(r.buffer, Requeued(r.inFlight, allow, st)), inFlight := [],
           acked := if allow then r.acked + st.acked else r.acked)
  }

  function Run(r: Relay, es: seq<Event>): Relay
    decreases |es|
  {
    if |es| == 0 then r else Next(Run(r, es[..|es| - 1]), es[|es| - 1])
  }

  ghost predicate Increasing(us: seq<BufferedUpdate>) {
    forall j, k :: 0 <= j < k < |us| ==> us[j].sequence < us[k].sequence
  }

  /** Every one of `us` is the update of that number. */
  ghost predicate FromHistory(us: seq<BufferedUpdate>, history: seq<BufferedUpdate>) {
    forall k :: 0 <= k < |us| ==> 1 <= us[k].sequence <= |history| && history[us[k].sequence - 1] == us[k]
  }

  /** Order, contents and byte count; kept by every step. */
  ghost predicate Orderly(r: Relay) {
    && r.buffer.lastSeq == |r.history|
    && Increasing(r.inFlight + r.buffer.updates)
    && FromHistory(r.inFlight + r.buffer.updates, r.history)
    && r.buffer.size == Bytes(r.buffer.updates)
    && forall k :: 0 <= k < |r.history| ==> r.history[k].sequence == k + 1
  }

  function Numbers(n: nat): (r: set<nat>)
    ensures forall k :: k in r <==> 1 <= k <= n
  {
    if n == 0 then {} else Numbers(n - 1) + {n}
  }

  /** The three sets hold each of 1 .. n exactly once. */
  ghost predicate Partition(stored: set<nat>, flying: set<nat>, waiting: set<nat>, n: nat) {
    && stored + flying + waiting == Numbers(n)
    && stored !! flying && stored !! waiting && flying !! waiting
  }

  /** Every update appended is exactly once stored, in flight or buffered. */
  ghost predicate Conserved(r: Relay) {
    Partition(r.acked, SeqsOf(r.inFlight), SeqsOf(r.buffer.updates), |r.history|)
  }

  ghost predicate AccountableStep(r: Relay, e: Event) {
    e.FlushEnd? && r.inFlight != [] ==> Accountable(r.inFlight, e.allow, Outcome(r, e))
  }

  // ---- order

  lemma {:induction false} FilterElements(us: seq<BufferedUpdate>, keep: set<nat>)
    ensures forall u :: u in Filter(us, keep) ==> u in us
    ensures Increasing(us) ==> Increasing(Filter(us, keep))
  {
    if us != [] {
      var pre, u := us[..|us| - 1], us[|us| - 1];
      FilterElements(pre, keep);
      if Increasing(us) {
        forall v | v in Filter(pre, keep)
          ensures v.sequence < u.sequence
        {
          assert v in pre;
        }
      }
    }
  }

  /** What is put back comes, in order, from what was in flight. */
  lemma RequeuedElements(us: seq<BufferedUpdate>, allow: bool, st: Stored)
    ensures forall u :: u in Requeued(us, allow, st) ==> u in us
    ensures Increasing(us) ==> Increasing(Requeued(us, allow, st))
  {
    if st.response.Some? && st.response.value.Response? {
      FilterElements(us, AsSet(st.response.value.failed));
    }
  }

  lemma OrderlyReplace(inFlight: seq<BufferedUpdate>, back: seq<BufferedUpdate>, rest: seq<BufferedUpdate>,
                       history: seq<BufferedUpdate>)
    requires Increasing(inFlight + rest) && FromHistory(inFlight + rest, history)
    requires Increasing(back) && forall u :: u in back ==> u in inFlight
    ensures Increasing(back + rest) && FromHistory(back + rest, history)
  {
    var all := inFlight + rest;
    assert forall k :: 0 <= k < |rest| ==> rest[k] == all[|inFlight| + k];
    forall u | u in back
      ensures u in all
    {
      var k :| 0 <= k < |inFlight| && inFlight[k] == u;
      assert all[k] == u;
    }
    forall u, k | u in back && 0 <= k < |rest|
      ensures u.sequence < rest[k].sequence
    {
      var j :| 0 <= j < |inFlight| && inFlight[j] == u;
      assert all[j] == u;
    }
    forall k | 0 <= k < |back + rest|
      ensures (back + rest)[k] in all
    {
      if k < |back| {
        assert back[k] in back;
      }
    }
    assert forall j :: 0 <= j < |back| ==> back[j] in back;
  }

  lemma OrderlySnoc(us: seq<BufferedUpdate>, u: BufferedUpdate, history: seq<BufferedUpdate>)
    requires Increasing(us) && FromHistory(us, history) && u.sequence == |history| + 1
    ensures Increasing(us + [u]) && FromHistory(us + [u], history + [u])
  {
  }

  lemma AppendOrderly(r: Relay, data: seq<Byte>, clientID: nat)
    requires Orderly(r)
    ensures Orderly(Next(r, Append(data, clientID)))
  {
    var u := BufferedUpdate(r.buffer.lastSeq + 1, data, clientID);
    var all := r.inFlight + r.buffer.updates;
    assert r.inFlight + (r.buffer.updates + [u]) == all + [u];
    OrderlySnoc(all, u, r.history);
    BytesAppends(r.buffer.updates, [u]);
    assert [u][..0] == [];
  }

  lemma PrefixIncreasing(us: seq<BufferedUpdate>, vs: seq<BufferedUpdate>)
    requires Increasing(us + vs)
    ensures Increasing(us)
  {
    assert forall k :: 0 <= k < |us| ==> (us + vs)[k] == us[k];
  }

  /** Putting back some of what was in flight, in order, in front of what came since. */
  lemma PutBackOrderly(r: Relay, back: seq<BufferedUpdate>, acked: set<nat>)
    requires Orderly(r) && Increasing(back) && forall u :: u in back ==> u in r.inFlight
    ensures Orderly(Relay(Prepended(r.buffer, back), [], acked, r.history))
  {
    OrderlyReplace(r.inFlight, back, r.buffer.updates, r.history);
    BytesAppends(back, r.buffer.updates);
    assert [] + (back + r.buffer.updates) == back + r.buffer.updates;
  }

  lemma FlushEndOrderly(r: Relay, e: Event)
    requires Orderly(r) && e.FlushEnd? && r.inFlight != []
    ensures Orderly(Next(r, e))
  {
    PrefixIncreasing(r.inFlight, r.buffer.updates);
    RequeuedElements(r.inFlight, e.allow, Outcome(r, e));
    PutBackOrderly(r, Requeued(r.inFlight, e.allow, Outcome(r, e)), Next(r, e).acked);
  }

  lemma NextOrderly(r: Relay, e: Event)
    requires Orderly(r)
    ensures Orderly(Next(r, e))
  {
    match e {
      case Append(data, clientID) => AppendOrderly(r, data, clientID);
      case FlushStart(lockWon) =>
        if lockWon && r.inFlight == [] {
          assert r.inFlight + r.buffer.updates == r.buffer.updates + [];
        }
      case FlushEnd(_, _, _, _) =>
        if r.inFlight != [] {
          FlushEndOrderly(r, e);
        }
    }
  }

  // ---- conservation

  lemma SeqsAppend(us: seq<BufferedUpdate>, vs: seq<BufferedUpdate>)
    ensures SeqsOf(us + vs) == SeqsOf(us) + SeqsOf(vs)
  {
    assert forall k :: 0 <= k < |us| ==> (us + vs)[k] == us[k];
    assert forall k :: 0 <= k < |vs| ==> (us + vs)[|us| + k] == vs[k];
  }

  /** The in-flight updates stay accounted for exactly when what is put back is what is not stored. */
  lemma PartitionAfterFlush(stored: set<nat>, flying: set<nat>, waiting: set<nat>, n: nat, left: set<nat>, back: set<nat>)
    requires Partition(stored, flying, waiting, n) && left <= flying && back <= flying
    ensures Partition(stored + (flying - left), {}, back + waiting, n) <==> back == left
  {
    var stored', waiting' := stored + (flying - left), back + waiting;
    if back == left {
      assert stored' + {} + waiting' == stored + flying + waiting;
    } else if exists x :: x in back && x !in left {
      var x :| x in back && x !in left;
      assert x in stored' && x in waiting';
    } else {
      var x :| x in left && x !in back;
      assert x in flying && x in Numbers(n) && x !in stored' + {} + waiting';
    }
  }

  lemma RequeuedSeqs(us: seq<BufferedUpdate>, allow: bool, st: Stored)
    ensures SeqsOf(Requeued(us, allow, st)) <= SeqsOf(us)
  {
    if st.response.Some? && st.response.value.Response? {
      FilterSeqs(us, AsSet(st.response.value.failed));
    }
  }

  /** A flush keeps every update exactly once if and only if it is accountable. */
  lemma FlushConservesIff(r: Relay, e: Event)
    requires Conserved(r) && e.FlushEnd? && r.inFlight != []
    ensures Conserved(Next(r, e)) <==> Accountable(r.inFlight, e.allow, Outcome(r, e))
  {
    var st := Outcome(r, e);
    var back := Requeued(r.inFlight, e.allow, st);
    var flying := SeqsOf(r.inFlight);
    RetryAccounts(e.store, e.cancelled, e.maxRetries, 0, r.inFlight);
    RequeueIsUnstoredIff(r.inFlight, e.store, e.cancelled, e.maxRetries);
    RequeuedSeqs(r.inFlight, e.allow, st);
    SeqsAppend(back, r.buffer.updates);
    assert SeqsOf([]) == {};
    var left := if e.allow then SeqsOf(Unstored(st)) else flying;
    assert !e.allow ==> r.acked + (flying - left) == r.acked;
    PartitionAfterFlush(r.acked, flying, SeqsOf(r.buffer.updates), |r.history|, left, SeqsOf(back));
  }

  lemma NextConserved(r: Relay, e: Event)
    requires Conserved(r) && r.buffer.lastSeq == |r.history| && AccountableStep(r, e)
    ensures Conserved(Next(r, e))
  {
    match e {
      case Append(data, clientID) =>
        SeqsSnoc(r.buffer.updates, BufferedUpdate(r.buffer.lastSeq + 1, data, clientID));
        assert Numbers(|r.history| + 1) == Numbers(|r.history|) + {|r.history| + 1};
      case FlushStart(_) =>
        assert SeqsOf([]) == {};
        var waiting := SeqsOf(r.buffer.updates);
        assert r.inFlight == [] ==> r.acked + waiting + {} == r.acked + {} + waiting;
      case FlushEnd(_, _, _, _) =>
        if r.inFlight != [] {
          FlushConservesIff(r, e);
        }
    }
  }

  ghost predicate ConservedAfter(es: seq<Event>) {
    Conserved(Run(Boot, es))
  }

  /** The last event of the run, if it ends a flush, ended an accountable one. */
  ghost predicate AccountableAfter(es: seq<Event>) {
    es != [] ==> AccountableStep(Run(Boot, es[..|es| - 1]), es[|es| - 1])
  }

  /** What arrived from the peers, told from the events alone. */
  function Arrivals(es: seq<Event>): seq<(seq<Byte>, nat)>
    decreases |es|
  {
    if |es| == 0 then []
    else
      Arrivals(es[..|es| - 1]) + match es[|es| - 1]
        case Append(data, clientID) => [(data, clientID)]
        case _ => []
  }

  lemma {:induction false} HistoryIsArrivals(es: seq<Event>)
    ensures var h, a := Run(Boot, es).history, Arrivals(es);
      |h| == |a| && forall k :: 0 <= k < |h| ==> h[k] == BufferedUpdate(k + 1, a[k].0, a[k].1)
    decreases |es|
  {
    if |es| > 0 {
      HistoryIsArrivals(es[..|es| - 1]);
    }
  }

  /** Over every run: whatever is in flight or waits in the buffer is an arrival, with its own bytes, its
      client and its number in the order of arrival. */
  lemma {:induction false} BufferHoldsArrivals(es: seq<Event>, u: BufferedUpdate)
    requires u in Run(Boot, es).inFlight || u in Run(Boot, es).buffer.updates
    ensures 1 <= u.sequence <= |Arrivals(es)|
    ensures u.data == Arrivals(es)[u.sequence - 1].0 && u.clientID == Arrivals(es)[u.sequence - 1].1
  {
    var r := Run(Boot, es);
    RunsAreOrderly(es);
    HistoryIsArrivals(es);
    var all := r.inFlight + r.buffer.updates;
    assert u in all;
    var k :| 0 <= k < |all| && all[k] == u;
  }

  /** With nothing flushed yet the buffer is exactly what has arrived. */
  lemma {:induction false} UnflushedBufferIsArrivals(es: seq<Event>)
    requires forall k :: 0 <= k < |es| ==> es[k].Append?
    ensures Run(Boot, es).buffer.updates == Run(Boot, es).history && Run(Boot, es).inFlight == []
    decreases |es|
  {
    if |es| > 0 {
      UnflushedBufferIsArrivals(es[..|es| - 1]);
      RunsAreOrderly(es[..|es| - 1]);
    }
  }

  /** The buffer is in order, holds the very updates appended, and its size is their bytes, over every run. */
  lemma {:induction false} RunsAreOrderly(es: seq<Event>)
    ensures Orderly(Run(Boot, es))
    decreases |es|
  {
    if |es| > 0 {
      RunsAreOrderly(es[..|es| - 1]);
      NextOrderly(Run(Boot, es[..|es| - 1]), es[|es| - 1]);
    }
  }

  lemma StepConservesIff(r: Relay, e: Event)
    requires Conserved(r) && r.buffer.lastSeq == |r.history|
    ensures Conserved(Next(r, e)) <==> AccountableStep(r, e)
  {
    if AccountableStep(r, e) {
      NextConserved(r, e);
    } else {
      FlushConservesIff(r, e);
    }
  }

  /** Throughout a run each appended update is exactly once stored by the provider, in flight or
      buffered, if and only if every flush is accountable. */
  lemma RunsConserveIff(es: seq<Event>)
    ensures Always(es, ConservedAfter) <==> Always(es, AccountableAfter)
  {
    assert SeqsOf([]) == {};
    forall fs: seq<Event> | fs != [] && ConservedAfter(fs[..|fs| - 1])
      ensures ConservedAfter(fs) <==> AccountableAfter(fs)
    {
      RunsAreOrderly(fs[..|fs| - 1]);
      StepConservesIff(Run(Boot, fs[..|fs| - 1]), fs[|fs| - 1]);
    }
    AlwaysIff(es, ConservedAfter, AccountableAfter);
  }

  /** What a flush makes of a batch, told from the provider's answers: the attempt that ends it decides what
      goes back in front of the buffer; stored is what its answer, and those before it, did not name. */
  lemma {:induction false} FlushEndMeans(r: Relay, e: Event, k: nat)
    requires e.FlushEnd? && e.allow && r.inFlight != []
    requires k < e.maxRetries && Ends(e.store, e.cancelled, e.maxRetries, r.inFlight, k)
    requires forall i :: 0 <= i < k ==> !Ends(e.store, e.cancelled, e.maxRetries, r.inFlight, i)
    ensures var last, t := BatchAt(e.store, r.inFlight, k), Next(r, e);
      var answer := e.store(k, last);
      && t.inFlight == [] && t.history == r.history
      && t.buffer.updates == (if answer.Error? then [] else Selected(r.inFlight, answer.failed)) + r.buffer.updates
      && t.acked == r.acked + (SeqsOf(r.inFlight) - SeqsOf(if answer.Error? then last else Selected(last, answer.failed)))
  {
    RetryEndsAtFirst(e.store, e.cancelled, e.maxRetries, r.inFlight, k);
    RetryAccounts(e.store, e.cancelled, e.maxRetries, 0, r.inFlight);
    FilterNone(r.inFlight);
    assert AsSet([]) == {};
  }

  lemma {:induction false} RunStep(es: seq<Event>, e: Event)
    ensures Run(Boot, es + [e]) == Next(Run(Boot, es), e)
  {
    assert (es + [e])[..|es + [e]| - 1] == es;
  }

  /** An outage loses the batch: an update is appended and drained, no attempt is answered, and
      nothing is put back. */
  lemma OutageLosesBatch(data: seq<Byte>, maxRetries: nat) returns (es: seq<Event>)
    ensures var r := Run(Boot, es);
      |r.history| == 1 && r.buffer.updates == [] && r.inFlight == [] && r.acked == {} && !Conserved(r)
  {
    var u := BufferedUpdate(1, data, 0);
    var e1, e2, e3 := Append(data, 0), FlushStart(true), FlushEnd(true, (_, _) => Error, _ => false, maxRetries);
    var r1, r2 := Relay(Buffer([u], |data|, 1), [], {}, [u]), Relay(Buffer([], 0, 1), [u], {}, [u]);
    assert [] + [u] == [u];
    es := [] + [e1] + [e2] + [e3];
    RunStep([], e1);
    assert Run(Boot, [] + [e1]) == r1;
    RunStep([] + [e1], e2);
    assert Run(Boot, [] + [e1] + [e2]) == r2;
    RunStep([] + [e1] + [e2], e3);
    NeverAnswered(e3.store, e3.cancelled, maxRetries, 0, [u]);
    assert SeqsOf([]) == {} && 1 in Numbers(1);
  }

  lemma {:induction false} NeverAnswered(store: (nat, seq<BufferedUpdate>) -> Attempt, cancelled: nat -> bool,
                                         maxRetries: nat, attempt: nat, batch: seq<BufferedUpdate>)
    requires forall k, b :: store(k, b) == Error
    ensures Retry(store, cancelled, maxRetries, attempt, batch) == Stored(None, batch, {})
    decreases maxRetries - attempt
  {
    if attempt < maxRetries {
      NeverAnswered(store, cancelled, maxRetries, attempt + 1, batch);
    }
  }
}
