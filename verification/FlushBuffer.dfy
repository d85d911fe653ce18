/** The relay's update buffer and the flush that drains it, retries partial failures against the
    storage provider, and puts back what was not stored. */
module FlushBuffer {
  import opened Bits
  import opened Options

  datatype BufferedUpdate = BufferedUpdate(sequence: nat, data: seq<Byte>, clientID: nat)

  datatype Buffer = Buffer(updates: seq<BufferedUpdate>, size: nat, lastSeq: nat)

  function Bytes(us: seq<BufferedUpdate>): nat {
    if us == [] then 0 else Bytes(us[..|us| - 1]) + |us[|us| - 1].data|
  }

  lemma {:induction false} BytesAppends(us: seq<BufferedUpdate>, vs: seq<BufferedUpdate>)
    ensures Bytes(us + vs) == Bytes(us) + Bytes(vs)
  {
    if vs == [] {
      assert us + vs == us;
    } else {
      assert (us + vs)[..|us + vs| - 1] == us + vs[..|vs| - 1];
      BytesAppends(us, vs[..|vs| - 1]);
    }
  }

  // ---- the buffer

  function Appended(b: Buffer, data: seq<Byte>, clientID: nat): Buffer {
    Buffer(b.updates + [BufferedUpdate(b.lastSeq + 1, data, clientID)], b.size + |data|, b.lastSeq + 1)
  }

  function Drained(b: Buffer): Buffer {
    if b.updates == [] then b else b.(updates := [], size := 0)
  }

  function Prepended(b: Buffer, us: seq<BufferedUpdate>): Buffer {
    b.(updates := us + b.updates, size := b.size + Bytes(us))
  }

  class UpdateBuffer {
    var updates: seq<BufferedUpdate>
    var size: nat
    var lastSeq: nat

    function View(): Buffer
      reads this
    {
      Buffer(updates, size, lastSeq)
    }

    constructor ()
      ensures View() == Buffer([], 0, 0)
    {
      updates, size, lastSeq := [], 0, 0;
    }

    method Append(data: seq<Byte>, clientID: nat) returns (total: nat)
      modifies this
      ensures View() == Appended(old(View()), data, clientID) && total == size
    {
      lastSeq := lastSeq + 1;
      updates := updates + [BufferedUpdate(lastSeq, data, clientID)];
      size := size + |data|;
      total := size;
    }

    method Drain() returns (us: seq<BufferedUpdate>)
      modifies this
      ensures View() == Drained(old(View())) && us == old(updates)
    {
      if |updates| == 0 {
        return [];
      }
      us := updates;
      updates := [];
      size := 0;
    }

    method Prepend(us: seq<BufferedUpdate>)
      modifies this
      ensures View() == Prepended(old(View()), us)
    {
      updates := us + updates;
      for k := 0 to |us|
        invariant updates == us + old(updates) && lastSeq == old(lastSeq)
        invariant size == old(size) + Bytes(us[..k])
      {
        assert us[..k + 1][..k] == us[..k];
        size := size + |us[k].data|;
      }
      assert us[..|us|] == us;
    }
  }

  // ---- storing with retries

  /** One attempt at the provider: an error, or a response naming the sequences it could not store. */
  datatype Attempt = Error | Response(failed: seq<nat>)

  function SeqsOf(us: seq<BufferedUpdate>): set<nat> {
    set k | 0 <= k < |us| :: us[k].sequence
  }

  /** The updates whose sequence is in `keep`, in order. */
  function Filter(us: seq<BufferedUpdate>, keep: set<nat>): seq<BufferedUpdate> {
    if us == [] then []
    else
      var before := Filter(us[..|us| - 1], keep);
      if us[|us| - 1].sequence in keep then before + [us[|us| - 1]] else before
  }

  function AsSet(failed: seq<nat>): set<nat> {
    set k | 0 <= k < |failed| :: failed[k]
  }

  function Selected(us: seq<BufferedUpdate>, failed: seq<nat>): seq<BufferedUpdate> {
    Filter(us, AsSet(failed))
  }

  /** How the retry loop ended: the response it returns, the batch of the last attempt, and the
      sequences the provider has stored on the way. */
  datatype Stored = Stored(response: Option<Attempt>, batch: seq<BufferedUpdate>, acked: set<nat>)

  /** `store(k, batch)` is the provider's reaction to attempt `k`, `cancelled(k)` says whether the
      context ends during the backoff behind it. An error keeps the batch, a partial failure narrows
      it to the failed updates, the last attempt returns whatever it has. */
  function Retry(store: (nat, seq<BufferedUpdate>) -> Attempt, cancelled: nat -> bool, maxRetries: nat,
                 attempt: nat, batch: seq<BufferedUpdate>): Stored
    decreases maxRetries - attempt
  {
    if attempt >= maxRetries then Stored(None, batch, {})
    else
      var r := store(attempt, batch);
      match r
      case Error =>
        if attempt < maxRetries - 1 && cancelled(attempt) then Stored(None, batch, {})
        else Retry(store, cancelled, maxRetries, attempt + 1, batch)
      case Response(failed) =>
        var left := Selected(batch, failed);
        var acked := SeqsOf(batch) - SeqsOf(left);
        if failed == [] || attempt >= maxRetries - 1 || cancelled(attempt)
        then Stored(Some(r), batch, acked)
        else
          var rest := Retry(store, cancelled, maxRetries, attempt + 1, left);
          rest.(acked := acked + rest.acked)
  }

  // ---- when the loop ends, told attempt by attempt

  /** What is submitted at attempt `k`, if the loop gets there: the whole batch while there are only
      errors, then what the last response said had failed. */
  function BatchAt(store: (nat, seq<BufferedUpdate>) -> Attempt, batch: seq<BufferedUpdate>, k: nat): seq<BufferedUpdate> {
    if k == 0 then batch
    else
      var before := BatchAt(store, batch, k - 1);
      match store(k - 1, before)
      case Error => before
      case Response(failed) => Selected(before, failed)
  }

  /** Attempt `k` is the last: it stored everything, there is no other, or the context has ended. */
  ghost predicate Ends(store: (nat, seq<BufferedUpdate>) -> Attempt, cancelled: nat -> bool, maxRetries: nat,
                       batch: seq<BufferedUpdate>, k: nat) {
    store(k, BatchAt(store, batch, k)) == Response([]) || k == maxRetries - 1 || cancelled(k)
  }

  lemma RetryGoesOn(store: (nat, seq<BufferedUpdate>) -> Attempt, cancelled: nat -> bool, maxRetries: nat, j: nat,
                    batch: seq<BufferedUpdate>)
    requires j + 1 < maxRetries && !cancelled(j) && store(j, batch) != Response([])
    ensures var left := match store(j, batch) case Error => batch case Response(failed) => Selected(batch, failed);
      var st, rest := Retry(store, cancelled, maxRetries, j, batch), Retry(store, cancelled, maxRetries, j + 1, left);
      st.batch == rest.batch && st.response == rest.response
  {
    var r := store(j, batch);
    assert r.Response? ==> r.failed != [];
  }

  lemma {:induction false} RetryFromEnds(store: (nat, seq<BufferedUpdate>) -> Attempt, cancelled: nat -> bool,
                                         maxRetries: nat, batch: seq<BufferedUpdate>, j: nat, k: nat)
    requires j <= k < maxRetries && Ends(store, cancelled, maxRetries, batch, k)
    requires forall i :: j <= i < k ==> !Ends(store, cancelled, maxRetries, batch, i)
    ensures var r, st := store(k, BatchAt(store, batch, k)), Retry(store, cancelled, maxRetries, j, BatchAt(store, batch, j));
      st.batch == BatchAt(store, batch, k) && st.response == if r.Error? then None else Some(r)
    decreases k - j
  {
    if j < k {
      assert !Ends(store, cancelled, maxRetries, batch, j);
      RetryFromEnds(store, cancelled, maxRetries, batch, j + 1, k);
      RetryGoesOn(store, cancelled, maxRetries, j, BatchAt(store, batch, j));
      assert BatchAt(store, batch, j + 1) == match store(j, BatchAt(store, batch, j))
        case Error => BatchAt(store, batch, j)
        case Response(failed) => Selected(BatchAt(store, batch, j), failed);
    } else {
      var r := store(k, BatchAt(store, batch, k));
      assert r.Response? && r.failed == [] ==> r == Response([]);
    }
  }

  /** The loop tries until the first attempt that ends it, neither fewer nor more often, and returns what
      that attempt was answered. */
  lemma {:induction false} RetryEndsAtFirst(store: (nat, seq<BufferedUpdate>) -> Attempt, cancelled: nat -> bool,
                                            maxRetries: nat, batch: seq<BufferedUpdate>, k: nat)
    requires k < maxRetries && Ends(store, cancelled, maxRetries, batch, k)
    requires forall i :: 0 <= i < k ==> !Ends(store, cancelled, maxRetries, batch, i)
    ensures var r, st := store(k, BatchAt(store, batch, k)), Retry(store, cancelled, maxRetries, 0, batch);
      st.batch == BatchAt(store, batch, k) && st.response == if r.Error? then None else Some(r)
  {
    RetryFromEnds(store, cancelled, maxRetries, batch, 0, k);
  }

  lemma {:induction false} ErrorsKeepBatch(store: (nat, seq<BufferedUpdate>) -> Attempt, batch: seq<BufferedUpdate>,
                                           k: nat)
    requires forall i :: 0 <= i < k ==> store(i, batch).Error?
    ensures BatchAt(store, batch, k) == batch
  {
    if k > 0 {
      ErrorsKeepBatch(store, batch, k - 1);
    }
  }

  /** In particular errors do not end it early: a success within the allowed attempts is what counts. */
  lemma {:induction false} LateSuccessCounts(store: (nat, seq<BufferedUpdate>) -> Attempt, cancelled: nat -> bool,
                                             maxRetries: nat, batch: seq<BufferedUpdate>, k: nat)
    requires k < maxRetries && store(k, batch) == Response([])
    requires forall i :: 0 <= i < k ==> store(i, batch).Error? && !cancelled(i)
    ensures Retry(store, cancelled, maxRetries, 0, batch).response == Some(Response([]))
    ensures Requeued(batch, true, Retry(store, cancelled, maxRetries, 0, batch)) == []
  {
    forall i | 0 <= i <= k
      ensures BatchAt(store, batch, i) == batch
    {
      ErrorsKeepBatch(store, batch, i);
    }
    RetryEndsAtFirst(store, cancelled, maxRetries, batch, k);
  }

  method Select(us: seq<BufferedUpdate>, failed: seq<nat>) returns (r: seq<BufferedUpdate>)
    ensures r == Selected(us, failed)
  {
    var failedSeqs: set<nat> := {};
    for k := 0 to |failed|
      invariant failedSeqs == AsSet(failed[..k])
    {
      assert AsSet(failed[..k + 1]) == AsSet(failed[..k]) + {failed[k]} by {
        assert failed[..k + 1][k] == failed[k];
        assert forall m :: 0 <= m < k ==> failed[..k + 1][m] == failed[..k][m];
      }
      failedSeqs := failedSeqs + {failed[k]};
    }
    assert failed[..|failed|] == failed;
    r := [];
    for k := 0 to |us|
      invariant r == Filter(us[..k], failedSeqs)
    {
      assert us[..k + 1][..k] == us[..k];
      if us[k].sequence in failedSeqs {
        r := r + [us[k]];
      }
    }
    assert us[..|us|] == us;
  }

  method StoreWithRetry(store: (nat, seq<BufferedUpdate>) -> Attempt, cancelled: nat -> bool, maxRetries: nat,
                        payloads: seq<BufferedUpdate>) returns (resp: Option<Attempt>)
    ensures resp == Retry(store, cancelled, maxRetries, 0, payloads).response
    ensures resp.Some? ==> resp.value.Response?
  {
    var batch := payloads;
    var attempt := 0;
    while attempt < maxRetries
      invariant attempt <= maxRetries
      invariant Retry(store, cancelled, maxRetries, 0, payloads).response
             == Retry(store, cancelled, maxRetries, attempt, batch).response
    {
      var r := store(attempt, batch);
      if r.Error? {
        if attempt < maxRetries - 1 {
          if cancelled(attempt) {
            return None;
          }
        }
        attempt := attempt + 1;
        continue;
      }
      if |r.failed| == 0 {
        return Some(r);
      }
      var left := Select(batch, r.failed);
      if attempt < maxRetries - 1 {
        if cancelled(attempt) {
          return Some(r);
        }
      } else {
        return Some(r);
      }
      batch := left;
      attempt := attempt + 1;
    }
    resp := None;
  }

  // ---- one flush

  /** What the provider has not stored when the loop ends. */
  function Unstored(st: Stored): seq<BufferedUpdate> {
    if st.response.Some? && st.response.value.Response? then Selected(st.batch, st.response.value.failed) else st.batch
  }

  /** What a flush of `updates` puts back: everything while the breaker is open, nothing when no
      attempt was answered, otherwise the updates the last response names. */
  function Requeued(updates: seq<BufferedUpdate>, allow: bool, st: Stored): seq<BufferedUpdate> {
    if !allow then updates
    else if st.response.None? || st.response.value.Error? || st.response.value.failed == [] then []
    else Selected(updates, st.response.value.failed)
  }

  method Flush(buffer: UpdateBuffer, lockWon: bool, allow: bool, store: (nat, seq<BufferedUpdate>) -> Attempt,
               cancelled: nat -> bool, maxRetries: nat) returns (requeue: seq<BufferedUpdate>)
    modifies buffer
    ensures buffer.View() == if lockWon then Drained(old(buffer.View())) else old(buffer.View())
    ensures requeue == if lockWon && old(buffer.updates) != []
      then Requeued(old(buffer.updates), allow, Retry(store, cancelled, maxRetries, 0, old(buffer.updates)))
      else []
  {
    if !lockWon {
      return [];
    }
    var updates := buffer.Drain();
    if |updates| == 0 {
      return [];
    }
    if !allow {
      return updates;
    }
    var resp := StoreWithRetry(store, cancelled, maxRetries, updates);
    if resp.None? {
      return [];
    }
    if |resp.value.failed| == 0 {
      return [];
    }
    requeue := Select(updates, resp.value.failed);
  }

  method FlushRoom(buffer: UpdateBuffer, lockWon: bool, allow: bool, store: (nat, seq<BufferedUpdate>) -> Attempt,
                   cancelled: nat -> bool, maxRetries: nat)
    modifies buffer
    ensures lockWon && old(buffer.updates) != [] ==>
      var back := Requeued(old(buffer.updates), allow, Retry(store, cancelled, maxRetries, 0, old(buffer.updates)));
      buffer.View() == if back == [] then Drained(old(buffer.View())) else Prepended(Drained(old(buffer.View())), back)
    ensures !lockWon || old(buffer.updates) == [] ==> buffer.View() == old(buffer.View())
  {
    if |buffer.updates| == 0 {
      return;
    }
    var requeue := Flush(buffer, lockWon, allow, store, cancelled, maxRetries);
    if |requeue| > 0 {
      buffer.Prepend(requeue);
    }
  }

  // ---- filtering

  lemma {:induction false} FilterSeqs(us: seq<BufferedUpdate>, keep: set<nat>)
    ensures SeqsOf(Filter(us, keep)) == SeqsOf(us) * keep
  {
    if us != [] {
      var pre, u := us[..|us| - 1], us[|us| - 1];
      FilterSeqs(pre, keep);
      SeqsSnoc(pre, u);
      SeqsSnoc(Filter(pre, keep), u);
      assert us == pre + [u];
    }
  }

  lemma SeqsSnoc(us: seq<BufferedUpdate>, u: BufferedUpdate)
    ensures SeqsOf(us + [u]) == SeqsOf(us) + {u.sequence}
  {
    assert (us + [u])[|us|] == u;
    assert forall k :: 0 <= k < |us| ==> (us + [u])[k] == us[k];
  }

  lemma {:induction false} FilterMeans(us: seq<BufferedUpdate>, keep: set<nat>, u: BufferedUpdate)
    ensures u in Filter(us, keep) <==> u in us && u.sequence in keep
  {
    if us != [] {
      FilterMeans(us[..|us| - 1], keep, u);
      assert us == us[..|us| - 1] + [us[|us| - 1]];
    }
  }

  /** What a report selects: exactly the updates it names, in the order they had. */
  lemma SelectedMeans(us: seq<BufferedUpdate>, failed: seq<nat>, u: BufferedUpdate)
    ensures u in Selected(us, failed) <==> u in us && u.sequence in failed
    ensures Selected(us + [u], failed) == Selected(us, failed) + if u.sequence in failed then [u] else []
  {
    assert forall q :: q in AsSet(failed) <==> q in failed;
    FilterMeans(us, AsSet(failed), u);
    assert (us + [u])[..|us + [u]| - 1] == us;
  }

  lemma {:induction false} FilterFilter(us: seq<BufferedUpdate>, s: set<nat>, t: set<nat>)
    ensures Filter(Filter(us, s), t) == Filter(us, s * t)
  {
    if us != [] {
      var pre, u := us[..|us| - 1], us[|us| - 1];
      FilterFilter(pre, s, t);
      if u.sequence in s {
        assert (Filter(pre, s) + [u])[..|Filter(pre, s)|] == Filter(pre, s);
      }
    }
  }

  lemma {:induction false} FilterSame(us: seq<BufferedUpdate>, s: set<nat>, t: set<nat>)
    requires SeqsOf(us) * s == SeqsOf(us) * t
    ensures Filter(us, s) == Filter(us, t)
  {
    if us != [] {
      var pre, u := us[..|us| - 1], us[|us| - 1];
      assert us == pre + [u];
      SeqsSnoc(pre, u);
      assert u.sequence in s <==> u.sequence in SeqsOf(us) * s;
      assert u.sequence in t <==> u.sequence in SeqsOf(us) * t;
      forall x
        ensures x in SeqsOf(pre) * s <==> x in SeqsOf(pre) * t
      {
        assert x in SeqsOf(us) * s <==> x in SeqsOf(us) * t;
      }
      FilterSame(pre, s, t);
    }
  }

  lemma {:induction false} FilterAll(us: seq<BufferedUpdate>, keep: set<nat>)
    requires SeqsOf(us) <= keep
    ensures Filter(us, keep) == us
  {
    if us != [] {
      var pre, u := us[..|us| - 1], us[|us| - 1];
      assert us == pre + [u];
      SeqsSnoc(pre, u);
      FilterAll(pre, keep);
    }
  }

  /** The loop only ever narrows its batch, and stored plus unstored is what it was given. */
  lemma {:induction false} RetryAccounts(store: (nat, seq<BufferedUpdate>) -> Attempt, cancelled: nat -> bool,
                                         maxRetries: nat, attempt: nat, batch: seq<BufferedUpdate>)
    ensures var st := Retry(store, cancelled, maxRetries, attempt, batch);
      && st.batch == Filter(batch, SeqsOf(st.batch))
      && SeqsOf(Unstored(st)) <= SeqsOf(batch)
      && st.acked == SeqsOf(batch) - SeqsOf(Unstored(st))
      && (st.response.Some? ==> st.response.value.Response?)
    decreases maxRetries - attempt
  {
    FilterAll(batch, SeqsOf(batch));
    if attempt < maxRetries {
      var r := store(attempt, batch);
      match r {
        case Error =>
          RetryAccounts(store, cancelled, maxRetries, attempt + 1, batch);
        case Response(failed) =>
          FilterSeqs(batch, AsSet(failed));
          if !(failed == [] || attempt >= maxRetries - 1 || cancelled(attempt)) {
            var left := Selected(batch, failed);
            RetryAccounts(store, cancelled, maxRetries, attempt + 1, left);
            var st := Retry(store, cancelled, maxRetries, attempt + 1, left);
            FilterFilter(batch, AsSet(failed), SeqsOf(st.batch));
            FilterSeqs(left, SeqsOf(st.batch));
            FilterSame(batch, AsSet(failed) * SeqsOf(st.batch), SeqsOf(st.batch));
          }
      }
    }
  }

  /** The flush can be accounted for: the breaker put everything back; or the last attempt was
      answered and named, of the drained updates, only ones it had been sent; or no attempt was
      answered last, but there was nothing left to send. */
  ghost predicate Accountable(updates: seq<BufferedUpdate>, allow: bool, st: Stored) {
    if !allow then true
    else match st.response
      case Some(Response(failed)) => AsSet(failed) * SeqsOf(updates) <= SeqsOf(st.batch)
      case _ => st.batch == []
  }

  /** What is put back is exactly what the provider has not stored, if and only if the flush is
      accountable. */
  lemma {:induction false} RequeueIsUnstoredIff(updates: seq<BufferedUpdate>,
                                                store: (nat, seq<BufferedUpdate>) -> Attempt, cancelled: nat -> bool,
                                                maxRetries: nat)
    ensures var st := Retry(store, cancelled, maxRetries, 0, updates);
      && (Requeued(updates, true, st) == Unstored(st) <==> Accountable(updates, true, st))
      && (SeqsOf(Requeued(updates, true, st)) == SeqsOf(Unstored(st)) <==> Accountable(updates, true, st))
  {
    var st := Retry(store, cancelled, maxRetries, 0, updates);
    RetryAccounts(store, cancelled, maxRetries, 0, updates);
    match st.response {
      case None =>
        if st.batch != [] {
          assert st.batch[0].sequence in SeqsOf(st.batch);
        }
      case Some(Response(failed)) =>
        var all, sent, named := SeqsOf(updates), SeqsOf(st.batch), AsSet(failed);
        FilterNone(updates);
        assert failed == [] ==> named == {};
        assert Requeued(updates, true, st) == Filter(updates, named);
        FilterFilter(updates, sent, named);
        assert Unstored(st) == Filter(updates, sent * named);
        FilterSeqs(updates, named);
        FilterSeqs(updates, sent * named);
        FilterSeqs(updates, sent);
        if named * all <= sent {
          assert all * named == all * (sent * named);
          FilterSame(updates, sent * named, named);
        } else {
          var x :| x in named * all && x !in sent;
          assert x in all * named && x !in all * (sent * named);
        }
    }
  }

  lemma {:induction false} FilterNone(us: seq<BufferedUpdate>)
    ensures Filter(us, {}) == []
  {
    if us != [] {
      FilterNone(us[..|us| - 1]);
    }
  }
}
