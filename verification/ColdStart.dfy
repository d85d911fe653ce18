/** A fresh pod rebuilds a room from the snapshot and the log tail. */
module ColdStart {
  import opened Options
  import opened StateStore

  /** Replaying a tail; empty entries are skipped. */
  function Replayed(doc: Doc, tail: seq<Update>): Doc {
    if tail == [] then doc
    else
      var before := Replayed(doc, tail[..|tail| - 1]);
      if |tail[|tail| - 1]| == 0 then before else before + {tail[|tail| - 1]}
  }

  /** The document a room ends up with. A room that already shows text keeps out the snapshot but
      not the tail; without a snapshot the log is not looked at and the provider's text is the seed. */
  function Bootstrapped(doc: Doc, hasText: bool, s: Store, seed: Option<Update>): Doc {
    var (snap, off) := ReadSnap(s);
    if snap.Some? then Replayed(if hasText then doc else doc + snap.value, LogTail(s, off))
    else if seed.Some? then doc + {seed.value}
    else doc
  }

  /** Whether anything was merged into the room. */
  predicate Touched(hasText: bool, s: Store, seed: Option<Update>) {
    var (snap, off) := ReadSnap(s);
    var tail := LogTail(s, off);
    if snap.Some? then !hasText || exists k :: 0 <= k < |tail| && |tail[k]| > 0 else seed.Some?
  }

  class Room {
    var doc: Doc
    var dirty: bool

    constructor ()
      ensures doc == {} && !dirty
    {
      doc, dirty := {}, false;
    }

    method BootstrapFromSnapshot(state: Option<Doc>, hasText: bool)
      modifies this
      ensures doc == if state.None? || hasText then old(doc) else old(doc) + state.value
      ensures dirty == (old(dirty) || (state.Some? && !hasText))
    {
      if state.None? || hasText {
        return;
      }
      doc := doc + state.value;
      dirty := true;
    }

    method ApplyLogEntry(u: Update)
      modifies this
      ensures doc == if |u| == 0 then old(doc) else old(doc) + {u}
      ensures dirty == (old(dirty) || |u| > 0)
    {
      if |u| == 0 {
        return;
      }
      doc := doc + {u};
      dirty := true;
    }

    method BootstrapContent(seed: Option<Update>)
      modifies this
      ensures doc == if seed.None? then old(doc) else old(doc) + {seed.value}
      ensures dirty == (old(dirty) || seed.Some?)
    {
      if seed.None? {
        return;
      }
      doc := doc + {seed.value};
      dirty := true;
    }

    /** The tail, entry by entry. */
    method ReplayTail(tail: seq<Update>)
      modifies this
      ensures doc == Replayed(old(doc), tail)
      ensures dirty == (old(dirty) || exists k :: 0 <= k < |tail| && |tail[k]| > 0)
    {
      for k := 0 to |tail|
        invariant doc == Replayed(old(doc), tail[..k])
        invariant dirty == (old(dirty) || exists j :: 0 <= j < k && |tail[j]| > 0)
      {
        assert tail[..k + 1][..k] == tail[..k];
        ApplyLogEntry(tail[k]);
      }
      assert tail[..|tail|] == tail;
    }

    method Bootstrap(store: RedisStore, hasText: bool, seed: Option<Update>)
      modifies this
      ensures doc == Bootstrapped(old(doc), hasText, store.View(), seed)
      ensures dirty == (old(dirty) || Touched(hasText, store.View(), seed))
    {
      var snapshot, snapOff := store.ReadSnapshot();
      if snapshot.Some? {
        BootstrapFromSnapshot(snapshot, hasText);
        var tail, _ := store.ReadLogTail(snapOff);
        ReplayTail(tail);
        return;
      }
      BootstrapContent(seed);
    }
  }

  // ---- a cold start loses nothing

  /** Replaying adds every entry that is not empty, and nothing else. */
  lemma {:induction false} ReplayedMeans(doc: Doc, tail: seq<Update>)
    ensures Replayed(doc, tail) == doc + (Entries(tail) - {[]})
  {
    if tail != [] {
      ReplayedMeans(doc, tail[..|tail| - 1]);
      EntriesGrow(tail[..|tail| - 1], tail[|tail| - 1]);
      assert tail == tail[..|tail| - 1] + [tail[|tail| - 1]];
    }
  }

  lemma {:induction false} ReplayedIsUnion(doc: Doc, tail: seq<Update>)
    requires forall k :: 0 <= k < |tail| ==> |tail[k]| > 0
    ensures Replayed(doc, tail) == doc + Entries(tail)
  {
    ReplayedMeans(doc, tail);
    assert [] !in Entries(tail);
  }

  lemma {:induction false} LogHasNoEmptyEntries(es: seq<Event>)
    ensures forall k :: 0 <= k < |Run(Boot, es).store.log| ==> |Run(Boot, es).store.log[k]| > 0
    decreases |es|
  {
    if es != [] {
      LogHasNoEmptyEntries(es[..|es| - 1]);
    }
  }

  /** What any room ends up with, fresh or not: a room that shows text gets the log on top of what it
      has, others the snapshot too, and without a snapshot there is only the seed. */
  lemma {:induction false} BootstrapMeans(es: seq<Event>, doc: Doc, hasText: bool, seed: Option<Update>)
    ensures var s := Run(Boot, es).store;
      Bootstrapped(doc, hasText, s, seed) ==
        if s.snapshot.Some? then doc + (if hasText then {} else s.snapshot.value) + Entries(s.log)
        else doc + (if seed.Some? then {seed.value} else {})
  {
    var s := Run(Boot, es).store;
    TailIsWholeLog(es);
    LogHasNoEmptyEntries(es);
    if s.snapshot.Some? {
      ReplayedIsUnion(if hasText then doc else doc + s.snapshot.value, s.log);
    }
  }

  /** A room is dirty after its bootstrap exactly if the snapshot, an entry of the log or the seed was put in. */
  lemma {:induction false} TouchedIff(es: seq<Event>, hasText: bool, seed: Option<Update>)
    ensures var s := Run(Boot, es).store;
      Touched(hasText, s, seed) <==> if s.snapshot.Some? then !hasText || s.log != [] else seed.Some?
  {
    var s := Run(Boot, es).store;
    TailIsWholeLog(es);
    LogHasNoEmptyEntries(es);
    if s.snapshot.Some? && s.log != [] {
      assert s.log[0] in s.log && |s.log[0]| > 0;
    }
  }

  /** A room that shows text is complete exactly if it had what was appended before the last write. */
  lemma {:induction false} LiveRoomIsCompleteIff(es: seq<Event>, doc: Doc, seed: Option<Update>)
    requires LastWrite(es).Some?
    ensures var k := LastWrite(es).value.1;
      Run(Boot, es).appended <= Bootstrapped(doc, true, Run(Boot, es).store, seed) <==>
        AppendedBy(es[..k]) <= doc + AppendedBy(es[k..])
  {
    BootstrapMeans(es, doc, true, seed);
    RunStores(es);
    RunAppends(es);
    AppendedBySplit(es, LastWrite(es).value.1);
  }

  /** A fresh room holds what can be recovered. */
  lemma {:induction false} FreshRoomMeans(es: seq<Event>, seed: Option<Update>)
    requires Run(Boot, es).store.snapshot.Some?
    ensures Bootstrapped({}, false, Run(Boot, es).store, seed) == Recoverable(Run(Boot, es).store)
  {
    BootstrapMeans(es, {}, false, seed);
  }

  /** Once a snapshot exists, a fresh room holds every update ever appended if and only if the last
      snapshot write had all that was appended before it; and then only those, if the snapshots held
      nothing else. */
  lemma {:induction false} ColdStartRebuildsIff(es: seq<Event>, seed: Option<Update>)
    requires Run(Boot, es).store.snapshot.Some?
    ensures Run(Boot, es).appended <= Bootstrapped({}, false, Run(Boot, es).store, seed) <==> LastWriteHasAll(es)
    ensures OnlyAppended(es) ==>
      (Run(Boot, es).appended == Bootstrapped({}, false, Run(Boot, es).store, seed) <==> LastWriteHasAll(es))
  {
    FreshRoomMeans(es, seed);
    NothingLostIff(es);
    if OnlyAppended(es) {
      NothingInvented(es);
    }
  }

  /** Without a snapshot the log is ignored: the room is complete exactly if the seed is. */
  lemma {:induction false} ColdStartWithoutSnapshot(es: seq<Event>, seed: Option<Update>)
    requires Run(Boot, es).store.snapshot.None?
    ensures Run(Boot, es).appended <= Bootstrapped({}, false, Run(Boot, es).store, seed)
       <==> Run(Boot, es).appended <= if seed.Some? then {seed.value} else {}
  {
  }

  // ---- the two reads of a bootstrap are not one

  function Trimmed(s: Store): int {
    s.counter - |s.log|
  }

  lemma {:induction false} TrimGrows(es: seq<Event>, fs: seq<Event>)
    ensures Trimmed(Run(Boot, es).store) <= Trimmed(Run(Boot, es + fs).store)
    decreases |fs|
  {
    if fs == [] {
      assert es + fs == es;
    } else {
      TrimGrows(es, fs[..|fs| - 1]);
      assert (es + fs)[..|es + fs| - 1] == es + fs[..|fs| - 1];
      OffsetNeverPassesTrim(es + fs[..|fs| - 1]);
    }
  }

  lemma {:induction false} WritesRemain(es: seq<Event>, fs: seq<Event>)
    requires LastWrite(es).Some?
    ensures LastWrite(es + fs).Some?
    decreases |fs|
  {
    if fs == [] {
      assert es + fs == es;
    } else {
      WritesRemain(es, fs[..|fs| - 1]);
      assert (es + fs)[..|es + fs| - 1] == es + fs[..|fs| - 1];
    }
  }

  /** The document of a bootstrap that reads the snapshot after `es` and the tail after `es + fs`. */
  function Interleaved(es: seq<Event>, fs: seq<Event>): Doc
    requires Run(Boot, es).store.snapshot.Some?
  {
    var first := ReadSnap(Run(Boot, es).store);
    Replayed(first.0.value, LogTail(Run(Boot, es + fs).store, first.1))
  }

  /** It is the old snapshot with whatever entries are left. */
  lemma {:induction false} InterleavedMeans(es: seq<Event>, fs: seq<Event>)
    requires Run(Boot, es).store.snapshot.Some?
    ensures Interleaved(es, fs) == Run(Boot, es).store.snapshot.value + Entries(Run(Boot, es + fs).store.log)
  {
    var later := Run(Boot, es + fs).store;
    OffsetNeverPassesTrim(es);
    OffsetNeverPassesTrim(es + fs);
    TrimGrows(es, fs);
    assert LogTail(later, ReadSnap(Run(Boot, es).store).1) == later.log;
    LogHasNoEmptyEntries(es + fs);
    ReplayedIsUnion(Run(Boot, es).store.snapshot.value, later.log);
  }

  /** The snapshot that was read has what was appended before the last write, or it is there since. */
  ghost predicate OldSnapshotHasAll(es: seq<Event>, fs: seq<Event>)
    requires LastWrite(es).Some?
  {
    match LastWrite(es + fs)
    case None => true
    case Some((_, k)) => AppendedBy((es + fs)[..k]) <= LastWrite(es).value.0 + AppendedBy((es + fs)[k..])
  }

  /** Whatever happens between the two reads, appends and snapshot writes alike: nothing is missed if
      and only if the snapshot read first has everything appended before the last write. */
  lemma {:induction false} InterleavedIff(es: seq<Event>, fs: seq<Event>)
    requires Run(Boot, es).store.snapshot.Some?
    ensures LastWrite(es).Some?
    ensures Run(Boot, es + fs).appended <= Interleaved(es, fs) <==> OldSnapshotHasAll(es, fs)
  {
    RunStores(es);
    RunStores(es + fs);
    RunAppends(es + fs);
    InterleavedMeans(es, fs);
    WritesRemain(es, fs);
    AppendedBySplit(es + fs, LastWrite(es + fs).value.1);
  }

  /** With no write in between, appends in between change nothing about that. */
  lemma {:induction false} ColdStartSpansAppends(es: seq<Event>, fs: seq<Event>)
    requires Run(Boot, es).store.snapshot.Some? && LastWrite(es + fs) == LastWrite(es)
    ensures Run(Boot, es + fs).appended <= Interleaved(es, fs) <==> LastWriteHasAll(es + fs)
  {
    InterleavedIff(es, fs);
  }

  // ---- where it does lose something

  lemma {:induction false} RunStep(es: seq<Event>, e: Event)
    ensures Run(Boot, es + [e]) == Next(Run(Boot, es), e)
  {
    assert (es + [e])[..|es + [e]| - 1] == es;
  }

  /** One pod appends `u` and writes its snapshot. */
  function FirstWrite(u: Update): seq<Event> {
    [AppendUpdate(u)] + [CaptureCounter(0, {u})] + [CommitSnapshot(0)]
  }

  lemma AfterFirstWrite(u: Update)
    requires |u| > 0
    ensures Run(Boot, FirstWrite(u)) == Cluster(Store([], 1, Some({u}), Some(1)), map[], {u})
  {
    RunStep([], AppendUpdate(u));
    assert [] + [AppendUpdate(u)] == [AppendUpdate(u)];
    RunStep([AppendUpdate(u)], CaptureCounter(0, {u}));
    RunStep([AppendUpdate(u)] + [CaptureCounter(0, {u})], CommitSnapshot(0));
  }

  /** Covering the log alone is not enough: a pod that never saw the previous snapshot's content
      replaces it, although it trims nothing it does not have. */
  lemma CoveringTheLogIsNotEnough(u: Update)
    requires |u| > 0
    ensures var es := FirstWrite(u) + [CaptureCounter(1, {})];
      && LastWriteHasAll(es)
      && Entries(Run(Boot, es).store.log) <= Run(Boot, es).writers[1].0
      && Run(Boot, es + [CommitSnapshot(1)]).appended == {u}
      && Bootstrapped({}, false, Run(Boot, es + [CommitSnapshot(1)]).store, None) == {}
  {
    var es := FirstWrite(u) + [CaptureCounter(1, {})];
    AfterFirstWrite(u);
    RunStep(FirstWrite(u), CaptureCounter(1, {}));
    RunStep(es, CommitSnapshot(1));
    NothingLostIff(es);
  }

  /** A snapshot written between the two reads: the old snapshot is read, the log is trimmed, and
      the update in between is in neither, although the store has it. */
  lemma WriteBetweenReadsLoses(u: Update, v: Update)
    requires |u| > 0 && |v| > 0 && u != v
    ensures var es, fs := FirstWrite(u), [AppendUpdate(v)] + [CaptureCounter(0, {u, v})] + [CommitSnapshot(0)];
      && Run(Boot, es).store.snapshot.Some?
      && LastWriteHasAll(es + fs) && Recoverable(Run(Boot, es + fs).store) == {u, v}
      && Run(Boot, es + fs).appended == {u, v} && Interleaved(es, fs) == {u}
  {
    var es, f1, f2, f3 := FirstWrite(u), AppendUpdate(v), CaptureCounter(0, {u, v}), CommitSnapshot(0);
    AfterFirstWrite(u);
    RunStep(es, f1);
    RunStep(es + [f1], f2);
    RunStep(es + [f1] + [f2], f3);
    assert es + ([f1] + [f2] + [f3]) == es + [f1] + [f2] + [f3];
    InterleavedMeans(es, [f1] + [f2] + [f3]);
    NothingLostIff(es + ([f1] + [f2] + [f3]));
  }
}
