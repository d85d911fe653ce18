/** The durable log of a room: append, snapshot with trim, cold start. A Y.Doc is modelled as the
    set of updates integrated into it; applying one is union, which is idempotent and commutative. */
module StateStore {
  import opened Bits
  import opened Options

  type Update = seq<Byte>
  type Doc = set<Update>

  datatype Store = Store(log: seq<Update>, counter: nat, snapshot: Option<Doc>, snapOff: Option<nat>)

  const Empty: Store := Store([], 0, None, None)

  function Entries(log: seq<Update>): Doc {
    set k | 0 <= k < |log| :: log[k]
  }

  // ---- the four operations

  /** RPUSH and INCR in one transaction; empty updates are dropped. */
  function Append(s: Store, u: Update): Store {
    if |u| == 0 then s else s.(log := s.log + [u], counter := s.counter + 1)
  }

  /** Snapshot, offset and trim in one transaction. The offset was read before it. */
  function Commit(s: Store, state: Doc, captured: nat): Store {
    Store([], s.counter, Some(state), Some(captured))
  }

  /** A snapshot without an offset is used with the whole log as its tail. */
  function ReadSnap(s: Store): (Option<Doc>, nat) {
    if s.snapshot.None? then (None, 0)
    else (s.snapshot, if s.snapOff.None? then 0 else s.snapOff.value)
  }

  /** The offset arithmetic, on the three values that are read one after the other. */
  function Tail(counter: nat, listLen: nat, log: seq<Update>, fromOffset: nat): seq<Update> {
    if counter <= fromOffset then []
    else
      var trimmed: int := counter - listLen;
      var relativeStart: int := fromOffset - trimmed;
      var start := if relativeStart < 0 then 0 else relativeStart;
      if start >= |log| then [] else log[start..]
  }

  function LogTail(s: Store, fromOffset: nat): seq<Update> {
    Tail(s.counter, |s.log|, s.log, fromOffset)
  }

  class RedisStore {
    var log: seq<Update>
    var counter: nat
    var snapshot: Option<Doc>
    var snapOff: Option<nat>

    function View(): Store
      reads this
    {
      Store(log, counter, snapshot, snapOff)
    }

    constructor ()
      ensures View() == Empty
    {
      log, counter, snapshot, snapOff := [], 0, None, None;
    }

    method AppendUpdate(u: Update)
      modifies this
      ensures View() == Append(old(View()), u)
    {
      if |u| == 0 {
        return;
      }
      log := log + [u];
      counter := counter + 1;
    }

    method ReadSnapshot() returns (snap: Option<Doc>, offset: nat)
      ensures (snap, offset) == ReadSnap(View())
    {
      if snapshot.None? {
        return None, 0;
      }
      snap := snapshot;
      offset := if snapOff.None? then 0 else snapOff.value;
    }

    method ReadLogTail(fromOffset: nat) returns (out: seq<Update>, next: nat)
      ensures out == LogTail(View(), fromOffset) && next == counter
    {
      next := counter;
      if counter <= fromOffset {
        return [], next;
      }
      var trimmed := counter - |log|;
      var relativeStart := fromOffset - trimmed;
      if relativeStart < 0 {
        relativeStart := 0;
      }
      var entries := if relativeStart >= |log| then [] else log[relativeStart..];
      out := [];
      for k := 0 to |entries|
        invariant out == entries[..k]
      {
        out := out + [entries[k]];
      }
    }

    /** An encoding failure yields no state, and then nothing is written. */
    method WriteSnapshot(state: Option<Doc>)
      modifies this
      ensures View() == if state.None? then old(View()) else Commit(old(View()), state.value, old(counter))
    {
      if state.None? {
        return;
      }
      var captured := counter;
      snapshot, snapOff, log := state, Some(captured), [];
    }
  }

  // ---- runs of a cluster

  type Pod = nat

  /** `writers` holds, for each pod between its two Redis round trips, the state it has encoded and
      the counter it has read; `appended` is every update ever appended. */
  datatype Cluster = Cluster(store: Store, writers: map<Pod, (Doc, nat)>, appended: Doc)

  datatype Event =
    | AppendUpdate(u: Update)
    | CaptureCounter(pod: Pod, state: Doc)
    | CommitSnapshot(pod: Pod)

  const Boot: Cluster := Cluster(Empty, map[], {})

  function Next(c: Cluster, e: Event): Cluster {
    match e
    case AppendUpdate(u) =>
      c.(store := Append(c.store, u), appended := if |u| == 0 then c.appended else c.appended + {u})
    case CaptureCounter(pod, state) => c.(writers := c.writers[pod := (state, c.store.counter)])
    case CommitSnapshot(pod) =>
      if pod in c.writers
      then c.(store := Commit(c.store, c.writers[pod].0, c.writers[pod].1), writers := c.writers - {pod})
      else c
  }

  function Run(c: Cluster, es: seq<Event>): Cluster
    decreases |es|
  {
    if es == [] then c else Next(Run(c, es[..|es| - 1]), es[|es| - 1])
  }

  // ---- the offset arithmetic is right

  /** The snapshot's offset never passes the number of trimmed entries, although it is read
      before the transaction that trims. */
  ghost predicate OffsetsOk(c: Cluster) {
    && |c.store.log| <= c.store.counter
    && (c.store.snapshot.None? <==> c.store.snapOff.None?)
    && (c.store.snapOff.Some? ==> c.store.snapOff.value <= c.store.counter - |c.store.log|)
    && (c.store.snapOff.None? ==> |c.store.log| == c.store.counter)
    && forall pod :: pod in c.writers ==> c.writers[pod].1 <= c.store.counter
  }

  lemma {:induction false} OffsetNeverPassesTrim(es: seq<Event>)
    ensures OffsetsOk(Run(Boot, es))
    decreases |es|
  {
    if es != [] {
      OffsetNeverPassesTrim(es[..|es| - 1]);
    }
  }

  /** So a bootstrap always replays the whole remaining log, whatever was appended in between. */
  lemma {:induction false} TailIsWholeLog(es: seq<Event>)
    ensures var s := Run(Boot, es).store; LogTail(s, ReadSnap(s).1) == s.log
  {
    OffsetNeverPassesTrim(es);
  }

  /** A snapshot whose offset is missing is used with the whole log. */
  lemma UnrecordedOffsetReadsAll(s: Store)
    requires |s.log| <= s.counter && s.snapOff.None?
    ensures LogTail(s, ReadSnap(s).1) == s.log
  {
  }

  /** When `more` entries arrive between reading the counter and reading the length, and `later`
      ones before reading the range, the whole log is returned exactly if the slack between trim
      point and offset absorbs them; with nothing behind the offset, only if none arrive. */
  lemma LogTailRace(s: Store, fromOffset: nat, more: seq<Update>, later: seq<Update>)
    requires |s.log| <= s.counter && fromOffset <= s.counter - |s.log|
    ensures Tail(s.counter, |s.log + more|, s.log + more + later, fromOffset) == s.log + more + later
       <==> if s.counter > fromOffset then |more| <= s.counter - |s.log| - fromOffset else more == [] && later == []
  {
    var log := s.log + more + later;
    var start := fromOffset - (s.counter - |s.log + more|);
    if s.counter > fromOffset && 0 < start < |log| {
      assert |log[start..]| < |log|;
    }
  }

  // ---- what a cold start can recover

  function SnapshotDoc(s: Store): Doc {
    if s.snapshot.None? then {} else s.snapshot.value
  }

  function Recoverable(s: Store): Doc {
    SnapshotDoc(s) + Entries(s.log)
  }

  lemma EntriesGrow(log: seq<Update>, u: Update)
    ensures Entries(log + [u]) == Entries(log) + {u}
  {
    assert (log + [u])[|log|] == u;
    forall x | x in Entries(log) + {u}
      ensures x in Entries(log + [u])
    {
      if x in Entries(log) {
        var k :| 0 <= k < |log| && log[k] == x;
        assert (log + [u])[k] == x;
      }
    }
  }

  // ---- the same told from the events alone

  /** Everything appended by the events. */
  ghost function AppendedBy(es: seq<Event>): Doc {
    set k | 0 <= k < |es| && es[k].AppendUpdate? && |es[k].u| > 0 :: es[k].u
  }

  /** The updates appended by the events, in order. */
  function AppendsOf(es: seq<Event>): seq<Update>
    decreases |es|
  {
    if es == [] then []
    else
      var e := es[|es| - 1];
      AppendsOf(es[..|es| - 1]) + if e.AppendUpdate? && |e.u| > 0 then [e.u] else []
  }

  /** What the pod has encoded and not written yet, and how much had been appended when it read the
      counter. */
  function Encoded(es: seq<Event>, pod: Pod): Option<(Doc, nat)>
    decreases |es|
  {
    if es == [] then None
    else
      match es[|es| - 1]
      case CaptureCounter(p, state) =>
        if p == pod then Some((state, |AppendsOf(es[..|es| - 1])|)) else Encoded(es[..|es| - 1], pod)
      case CommitSnapshot(p) => if p == pod then None else Encoded(es[..|es| - 1], pod)
      case AppendUpdate(_) => Encoded(es[..|es| - 1], pod)
  }

  /** The last event is a snapshot write of a state that its pod had encoded. */
  predicate Writes(es: seq<Event>) {
    es != [] && es[|es| - 1].CommitSnapshot? && Encoded(es[..|es| - 1], es[|es| - 1].pod).Some?
  }

  /** The state last written, and how many events there were up to that write. */
  function LastWrite(es: seq<Event>): (r: Option<(Doc, nat)>)
    ensures r.Some? ==> r.value.1 <= |es|
    decreases |es|
  {
    if es == [] then None
    else if Writes(es) then Some((Encoded(es[..|es| - 1], es[|es| - 1].pod).value.0, |es|))
    else LastWrite(es[..|es| - 1])
  }

  /** How much had been appended when the writer of the last snapshot read the counter. */
  function LastOffset(es: seq<Event>): Option<nat>
    decreases |es|
  {
    if es == [] then None
    else if Writes(es) then Some(Encoded(es[..|es| - 1], es[|es| - 1].pod).value.1)
    else LastOffset(es[..|es| - 1])
  }

  lemma AppendedBySnoc(es: seq<Event>)
    requires es != []
    ensures var e := es[|es| - 1];
      AppendedBy(es) == AppendedBy(es[..|es| - 1]) + if e.AppendUpdate? && |e.u| > 0 then {e.u} else {}
  {
    var pre := es[..|es| - 1];
    forall x | x in AppendedBy(pre)
      ensures x in AppendedBy(es)
    {
      var k :| 0 <= k < |pre| && pre[k].AppendUpdate? && |pre[k].u| > 0 && pre[k].u == x;
      assert es[k].u == x;
    }
  }

  lemma {:induction false} RunAppends(es: seq<Event>)
    ensures Run(Boot, es).appended == AppendedBy(es)
    decreases |es|
  {
    if es != [] {
      RunAppends(es[..|es| - 1]);
      AppendedBySnoc(es);
    }
  }

  lemma {:induction false} RunEncodes(es: seq<Event>, pod: Pod)
    ensures var w := Run(Boot, es).writers;
      (if pod in w then Some(w[pod]) else None) == Encoded(es, pod)
    decreases |es|
  {
    if es != [] {
      RunEncodes(es[..|es| - 1], pod);
      RunCounts(es[..|es| - 1]);
    }
  }

  lemma {:induction false} RunCounts(es: seq<Event>)
    ensures Run(Boot, es).store.counter == |AppendsOf(es)|
    decreases |es|
  {
    if es != [] {
      RunCounts(es[..|es| - 1]);
    }
  }

  /** The offset recorded with a snapshot is the number of updates appended when its writer read the
      counter. */
  lemma {:induction false} RunOffsets(es: seq<Event>)
    ensures Run(Boot, es).store.snapOff == LastOffset(es)
    decreases |es|
  {
    if es != [] {
      var pre, e := es[..|es| - 1], es[|es| - 1];
      RunOffsets(pre);
      if e.CommitSnapshot? {
        RunEncodes(pre, e.pod);
      }
    }
  }

  /** A bootstrap reads the last state written and how much had been appended when its writer counted. */
  lemma {:induction false} ReadSnapMeans(es: seq<Event>)
    ensures var (snap, offset) := ReadSnap(Run(Boot, es).store);
      && snap == (if LastWrite(es).Some? then Some(LastWrite(es).value.0) else None)
      && offset == (if LastOffset(es).Some? then LastOffset(es).value else 0)
  {
    RunStores(es);
    RunOffsets(es);
    WrittenTogether(es);
  }

  lemma {:induction false} WrittenTogether(es: seq<Event>)
    ensures LastWrite(es).Some? <==> LastOffset(es).Some?
    decreases |es|
  {
    if es != [] && !Writes(es) {
      WrittenTogether(es[..|es| - 1]);
    }
  }

  /** Behind the last write there are only entries appended since. */
  lemma {:induction false} RunStores(es: seq<Event>)
    ensures var s, last := Run(Boot, es).store, LastWrite(es);
      && s.snapshot == (if last.Some? then Some(last.value.0) else None)
      && Entries(s.log) == AppendedBy(if last.Some? then es[last.value.1..] else es)
    decreases |es|
  {
    if es != [] {
      var pre, e := es[..|es| - 1], es[|es| - 1];
      RunStores(pre);
      if e.CommitSnapshot? {
        RunEncodes(pre, e.pod);
      }
      if Writes(es) {
        assert es[|es|..] == [];
      } else {
        var from := if LastWrite(es).Some? then LastWrite(es).value.1 else 0;
        assert es[0..] == es && pre[0..] == pre;
        assert es[from..][..|es[from..]| - 1] == pre[from..];
        AppendedBySnoc(es[from..]);
        if e.AppendUpdate? && |e.u| > 0 {
          EntriesGrow(Run(Boot, pre).store.log, e.u);
        }
      }
    }
  }

  /** Whatever was appended before the last snapshot write was in the state written, or has been
      appended again since. */
  ghost predicate LastWriteHasAll(es: seq<Event>) {
    match LastWrite(es)
    case None => true
    case Some((state, k)) => AppendedBy(es[..k]) <= state + AppendedBy(es[k..])
  }

  lemma AppendedBySplit(es: seq<Event>, k: nat)
    requires k <= |es|
    ensures AppendedBy(es) == AppendedBy(es[..k]) + AppendedBy(es[k..])
  {
    forall x | x in AppendedBy(es[k..])
      ensures x in AppendedBy(es)
    {
      var i :| 0 <= i < |es[k..]| && es[k..][i].AppendUpdate? && |es[k..][i].u| > 0 && es[k..][i].u == x;
      assert es[k + i].u == x;
    }
    forall x | x in AppendedBy(es)
      ensures x in AppendedBy(es[..k]) + AppendedBy(es[k..])
    {
      var i :| 0 <= i < |es| && es[i].AppendUpdate? && |es[i].u| > 0 && es[i].u == x;
      assert if i < k then es[..k][i].u == x else es[k..][i - k].u == x;
    }
  }

  /** Over every run: everything ever appended can be recovered at the end, if and only if the last
      snapshot write had all that was appended before it. Earlier writes do not matter. */
  lemma {:induction false} NothingLostIff(es: seq<Event>)
    ensures Run(Boot, es).appended <= Recoverable(Run(Boot, es).store) <==> LastWriteHasAll(es)
  {
    RunAppends(es);
    RunStores(es);
    if LastWrite(es).Some? {
      AppendedBySplit(es, LastWrite(es).value.1);
    }
  }

  /** The state written, by each write, has everything appended until then. */
  ghost predicate EveryWriteHasAll(es: seq<Event>) {
    forall k :: 0 <= k <= |es| && Writes(es[..k]) ==> AppendedBy(es[..k]) <= LastWrite(es[..k]).value.0
  }

  lemma {:induction false} EveryWriteHasLast(es: seq<Event>)
    requires EveryWriteHasAll(es)
    ensures LastWrite(es).Some? ==> AppendedBy(es[..LastWrite(es).value.1]) <= LastWrite(es).value.0
    decreases |es|
  {
    if es != [] {
      assert es[..|es|] == es;
      if !Writes(es) {
        var pre := es[..|es| - 1];
        assert forall k :: 0 <= k <= |pre| ==> pre[..k] == es[..k];
        EveryWriteHasLast(pre);
      }
    }
  }

  /** And at no moment of the run is anything lost, if and only if every write had it all. */
  lemma NeverLostIff(es: seq<Event>)
    ensures (forall k :: 0 <= k <= |es| ==> Run(Boot, es[..k]).appended <= Recoverable(Run(Boot, es[..k]).store))
       <==> EveryWriteHasAll(es)
  {
    forall k | 0 <= k <= |es|
      ensures Run(Boot, es[..k]).appended <= Recoverable(Run(Boot, es[..k]).store) <==> LastWriteHasAll(es[..k])
    {
      NothingLostIff(es[..k]);
    }
    if EveryWriteHasAll(es) {
      forall k | 0 <= k <= |es|
        ensures LastWriteHasAll(es[..k])
      {
        assert forall j :: 0 <= j <= k ==> es[..k][..j] == es[..j];
        EveryWriteHasLast(es[..k]);
      }
    } else {
      var k :| 0 <= k <= |es| && Writes(es[..k]) && !(AppendedBy(es[..k]) <= LastWrite(es[..k]).value.0);
      WriteIsLast(es[..k]);
    }
  }

  lemma {:induction false} WriteIsLast(es: seq<Event>)
    requires Writes(es)
    ensures LastWriteHasAll(es) <==> AppendedBy(es) <= LastWrite(es).value.0
  {
    assert es[..|es|] == es && es[|es|..] == [];
  }

  /** The snapshots hold only updates that were appended. */
  ghost predicate OnlyAppended(es: seq<Event>) {
    forall k :: 0 <= k < |es| && es[k].CaptureCounter? ==> es[k].state <= Run(Boot, es[..k]).appended
  }

  lemma {:induction false} NothingInvented(es: seq<Event>)
    requires OnlyAppended(es)
    ensures Recoverable(Run(Boot, es).store) <= Run(Boot, es).appended
    ensures forall pod :: pod in Run(Boot, es).writers ==> Run(Boot, es).writers[pod].0 <= Run(Boot, es).appended
    decreases |es|
  {
    if es != [] {
      var pre, e := es[..|es| - 1], es[|es| - 1];
      forall k | 0 <= k < |pre| && pre[k].CaptureCounter?
        ensures pre[k].state <= Run(Boot, pre[..k]).appended
      {
        assert pre[..k] == es[..k];
      }
      NothingInvented(pre);
      if e.AppendUpdate? && |e.u| > 0 {
        EntriesGrow(Run(Boot, pre).store.log, e.u);
      }
    }
  }
}
