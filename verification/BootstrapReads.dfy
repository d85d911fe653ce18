/** A bootstrap reads five values one after the other: snapshot, offset, counter, length of the log and
    its tail. Here each read has its own moment of one run, and anything may happen in between. */
module BootstrapReads {
  import opened StateStore
  import opened ColdStart

  /** How many events of the run had happened at each read. */
  datatype Moments = Moments(snapshot: nat, offset: nat, counter: nat, length: nat, tail: nat)

  ghost predicate InOrder(m: Moments, es: seq<Event>) {
    m.snapshot <= m.offset <= m.counter <= m.length <= m.tail <= |es|
  }

  function At(es: seq<Event>, p: nat): Store
    requires p <= |es|
  {
    Run(Boot, es[..p]).store
  }

  /** The room that a bootstrap with these reads builds. */
  function FiveReads(es: seq<Event>, m: Moments): Doc
    requires InOrder(m, es) && At(es, m.snapshot).snapshot.Some?
  {
    Replayed(At(es, m.snapshot).snapshot.value,
             Tail(At(es, m.counter).counter, |At(es, m.length).log|, At(es, m.tail).log, ReadSnap(At(es, m.offset)).1))
  }

  // ---- the log is the end of everything appended

  lemma {:induction false} LogIsEnd(es: seq<Event>)
    ensures var s := Run(Boot, es).store;
      && s.counter == |AppendsOf(es)| && |s.log| <= s.counter
      && s.log == AppendsOf(es)[s.counter - |s.log|..]
    decreases |es|
  {
    if es != [] {
      LogIsEnd(es[..|es| - 1]);
    }
  }

  lemma {:induction false} AppendsAreAppended(es: seq<Event>)
    ensures Entries(AppendsOf(es)) == AppendedBy(es)
    decreases |es|
  {
    if es != [] {
      var pre, e := es[..|es| - 1], es[|es| - 1];
      AppendsAreAppended(pre);
      AppendedBySnoc(es);
      if e.AppendUpdate? && |e.u| > 0 {
        EntriesGrow(AppendsOf(pre), e.u);
      } else {
        assert AppendsOf(es) == AppendsOf(pre);
      }
    }
  }

  lemma EntriesSplit(log: seq<Update>, k: nat)
    requires k <= |log|
    ensures Entries(log) == Entries(log[..k]) + Entries(log[k..])
  {
    forall x | x in Entries(log)
      ensures x in Entries(log[..k]) + Entries(log[k..])
    {
      var i :| 0 <= i < |log| && log[i] == x;
      assert if i < k then log[..k][i] == x else log[k..][i - k] == x;
    }
    forall x | x in Entries(log[k..])
      ensures x in Entries(log)
    {
      var i :| 0 <= i < |log[k..]| && log[k..][i] == x;
      assert log[k + i] == x;
    }
  }

  // ---- what is skipped

  /** Entries at the front of the log that the tail leaves out: the length read is compared with how far
      the counter read is ahead of the offset read. With the counter not ahead nothing is read at all. */
  function Skipped(es: seq<Event>, m: Moments): nat
    requires InOrder(m, es)
  {
    var ahead := At(es, m.counter).counter - ReadSnap(At(es, m.offset)).1;
    var length, log := |At(es, m.length).log|, At(es, m.tail).log;
    if ahead <= 0 || length - ahead > |log| then |log| else if length > ahead then length - ahead else 0
  }

  /** Of everything appended until the last read, what comes before the entries that are replayed. */
  function Before(es: seq<Event>, m: Moments): int
    requires InOrder(m, es)
  {
    Trimmed(At(es, m.tail)) + Skipped(es, m)
  }

  lemma BeforeIsIndex(es: seq<Event>, m: Moments)
    requires InOrder(m, es)
    ensures 0 <= Before(es, m) <= |AppendsOf(es[..m.tail])|
  {
    LogIsEnd(es[..m.tail]);
  }

  lemma TailSkips(es: seq<Event>, m: Moments)
    requires InOrder(m, es)
    ensures Tail(At(es, m.counter).counter, |At(es, m.length).log|, At(es, m.tail).log, ReadSnap(At(es, m.offset)).1)
         == At(es, m.tail).log[Skipped(es, m)..]
  {
  }

  /** The room holds the snapshot that was read and the appends behind the cut. */
  lemma FiveReadsMean(es: seq<Event>, m: Moments)
    requires InOrder(m, es) && At(es, m.snapshot).snapshot.Some?
    ensures 0 <= Before(es, m) <= |AppendsOf(es[..m.tail])|
    ensures FiveReads(es, m) ==
      At(es, m.snapshot).snapshot.value + Entries(AppendsOf(es[..m.tail])[Before(es, m)..])
  {
    var log, skipped := At(es, m.tail).log, Skipped(es, m);
    BeforeIsIndex(es, m);
    TailSkips(es, m);
    LogIsEnd(es[..m.tail]);
    LogHasNoEmptyEntries(es[..m.tail]);
    ReplayedIsUnion(At(es, m.snapshot).snapshot.value, log[skipped..]);
    assert log[skipped..] == AppendsOf(es[..m.tail])[Before(es, m)..];
  }

  /** Whatever happens between the five reads, appends and snapshot writes alike: nothing appended until
      the last read is missed, if and only if all that comes before the cut is in the snapshot that was
      read, or has been appended again behind the cut. */
  lemma FiveReadsIff(es: seq<Event>, m: Moments)
    requires InOrder(m, es) && At(es, m.snapshot).snapshot.Some?
    ensures 0 <= Before(es, m) <= |AppendsOf(es[..m.tail])|
    ensures var all, cut := AppendsOf(es[..m.tail]), Before(es, m);
      Run(Boot, es[..m.tail]).appended <= FiveReads(es, m) <==>
        Entries(all[..cut]) <= At(es, m.snapshot).snapshot.value + Entries(all[cut..])
  {
    FiveReadsMean(es, m);
    RunAppends(es[..m.tail]);
    AppendsAreAppended(es[..m.tail]);
    EntriesSplit(AppendsOf(es[..m.tail]), Before(es, m));
  }

  /** Entries are skipped exactly if there are any, and the counter was not ahead of the offset or the
      length had outgrown the distance. */
  lemma SkipsIff(es: seq<Event>, m: Moments)
    requires InOrder(m, es)
    ensures var ahead := At(es, m.counter).counter - ReadSnap(At(es, m.offset)).1;
      Skipped(es, m) > 0 <==> At(es, m.tail).log != [] && (ahead <= 0 || |At(es, m.length).log| > ahead)
  {
  }

  /** With the first two and the last three reads at one moment each, this is the bootstrap of two reads. */
  lemma {:induction false} FiveReadsAreTwo(es: seq<Event>, fs: seq<Event>)
    requires Run(Boot, es).store.snapshot.Some?
    ensures var n, l := |es|, |es + fs|; var m := Moments(n, n, l, l, l);
      && InOrder(m, es + fs) && At(es + fs, n).snapshot.Some?
      && FiveReads(es + fs, m) == Interleaved(es, fs)
  {
    assert (es + fs)[..|es|] == es && (es + fs)[..|es + fs|] == es + fs;
  }
}
