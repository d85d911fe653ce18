/** The supervisor's restart limit. It keeps only recent restart times, filtered in place. */
module RestartLimiter {
  const MINUTE: int := 60_000_000_000

  /** Those of the first `n` times that lie behind the cutoff. */
  function AfterTo(ts: seq<int>, n: nat, cutoff: int): seq<int>
    requires n <= |ts|
  {
    if n == 0 then []
    else AfterTo(ts, n - 1, cutoff) + if ts[n - 1] > cutoff then [ts[n - 1]] else []
  }

  function After(ts: seq<int>, cutoff: int): seq<int> {
    AfterTo(ts, |ts|, cutoff)
  }

  /** The kept times after a call at `first`, with `second` the time recorded, and the verdict. */
  function Record(ts: seq<int>, max: int, first: int, second: int): (seq<int>, bool) {
    if max <= 0 then (ts, true)
    else
      var kept := After(ts, first - MINUTE);
      if |kept| >= max then (kept, false) else (kept + [second], true)
  }

  /** Reads and writes the same array; the write position never overtakes the read position. */
  method FilterInPlace(a: array<int>, n: nat, cutoff: int) returns (k: nat)
    requires n <= a.Length
    modifies a
    ensures k <= n && a[..k] == After(old(a[..n]), cutoff)
  {
    k := 0;
    ghost var was := a[..n];
    for i := 0 to n
      invariant k <= i
      invariant a[..k] == AfterTo(was, i, cutoff)
      invariant forall j :: i <= j < n ==> a[j] == was[j]
    {
      if a[i] > cutoff {
        a[k] := a[i];
        k := k + 1;
      }
    }
  }

  class Supervisor {
    var restartTimes: array<int>
    var count: nat
    const max: int

    ghost predicate Valid()
      reads this
    {
      count <= restartTimes.Length
    }

    function Times(): seq<int>
      requires Valid()
      reads this, restartTimes
    {
      restartTimes[..count]
    }

    constructor (max: int)
      ensures Valid() && Times() == [] && this.max == max
    {
      this.max := max;
      restartTimes := new int[0];
      count := 0;
    }

    /** The clock is read once for the cutoff and again for the entry. */
    method RecordRestart(first: int, second: int) returns (ok: bool)
      requires Valid()
      modifies this, restartTimes
      ensures Valid()
      ensures (Times(), ok) == Record(old(Times()), max, first, second)
    {
      if max <= 0 {
        return true;
      }
      count := FilterInPlace(restartTimes, count, first - MINUTE);
      if count >= max {
        return false;
      }
      ghost var kept := Times();
      if count == restartTimes.Length {
        var grown := new int[2 * count + 1];
        forall i | 0 <= i < count {
          grown[i] := restartTimes[i];
        }
        assert grown[..count] == kept;
        restartTimes := grown;
      }
      restartTimes[count] := second;
      count := count + 1;
      assert Times() == kept + [second];
      ok := true;
    }
  }

  // ---- runs

  /** `accepted` is every accepted restart, in order; `ts` is what the supervisor still knows. */
  datatype State = State(ts: seq<int>, accepted: seq<int>)

  /** The two clock readings of each call. */
  type Calls = seq<(int, int)>

  ghost predicate ClockOk(calls: Calls) {
    && (forall k :: 0 <= k < |calls| ==> calls[k].0 <= calls[k].1)
    && (forall j, k :: 0 <= j < k < |calls| ==> calls[j].1 <= calls[k].0)
  }

  function Stepped(s: State, max: int, first: int, second: int): State {
    var (ts, ok) := Record(s.ts, max, first, second);
    State(ts, if ok then s.accepted + [second] else s.accepted)
  }

  /** After the first `n` calls. */
  function Run(max: int, calls: Calls, n: nat): State
    requires n <= |calls|
  {
    if n == 0 then State([], []) else Stepped(Run(max, calls, n - 1), max, calls[n - 1].0, calls[n - 1].1)
  }

  /** Those of the first `n` restarts in the half-open window (from, from + one minute]. */
  function InWindowTo(ts: seq<int>, n: nat, from: int): nat
    requires n <= |ts|
  {
    if n == 0 then 0 else InWindowTo(ts, n - 1, from) + if from < ts[n - 1] <= from + MINUTE then 1 else 0
  }

  function InWindow(ts: seq<int>, from: int): nat {
    InWindowTo(ts, |ts|, from)
  }

  lemma {:induction false} AfterPrefix(ts: seq<int>, t: int, n: nat, c: int)
    requires n <= |ts|
    ensures AfterTo(ts + [t], n, c) == AfterTo(ts, n, c)
  {
    if n > 0 {
      AfterPrefix(ts, t, n - 1, c);
    }
  }

  lemma AfterSnoc(ts: seq<int>, t: int, c: int)
    ensures After(ts + [t], c) == After(ts, c) + if t > c then [t] else []
  {
    AfterPrefix(ts, t, |ts|, c);
  }

  lemma {:induction false} AfterAfterTo(ts: seq<int>, n: nat, c: int, d: int)
    requires c <= d && n <= |ts|
    ensures After(AfterTo(ts, n, c), d) == AfterTo(ts, n, d)
  {
    if n > 0 {
      AfterAfterTo(ts, n - 1, c, d);
      AfterSnoc(AfterTo(ts, n - 1, c), ts[n - 1], d);
      assert AfterTo(ts, n - 1, c) + [] == AfterTo(ts, n - 1, c);
    }
  }

  lemma {:induction false} WindowPrefix(ts: seq<int>, t: int, n: nat, from: int)
    requires n <= |ts|
    ensures InWindowTo(ts + [t], n, from) == InWindowTo(ts, n, from)
  {
    if n > 0 {
      WindowPrefix(ts, t, n - 1, from);
    }
  }

  lemma WindowSnoc(ts: seq<int>, t: int, from: int)
    ensures InWindow(ts + [t], from) == InWindow(ts, from) + if from < t <= from + MINUTE then 1 else 0
  {
    WindowPrefix(ts, t, |ts|, from);
  }

  lemma {:induction false} WindowWithinAfter(ts: seq<int>, n: nat, from: int, cutoff: int)
    requires cutoff <= from && n <= |ts|
    ensures InWindowTo(ts, n, from) <= |AfterTo(ts, n, cutoff)|
  {
    if n > 0 {
      WindowWithinAfter(ts, n - 1, from, cutoff);
    }
  }

  /** The kept times agree with all accepted ones on everything behind the cutoff. */
  ghost predicate AgreeAfter(s: State, cutoff: int) {
    After(s.ts, cutoff) == After(s.accepted, cutoff)
  }

  lemma StepKeepsAgreement(s: State, max: int, now: int, recorded: int, later: int)
    requires max > 0 && now <= later && AgreeAfter(s, now - MINUTE)
    ensures AgreeAfter(Stepped(s, max, now, recorded), later - MINUTE)
  {
    var kept := After(s.ts, now - MINUTE);
    AfterAfterTo(s.ts, |s.ts|, now - MINUTE, later - MINUTE);
    AfterAfterTo(s.accepted, |s.accepted|, now - MINUTE, later - MINUTE);
    AfterSnoc(kept, recorded, later - MINUTE);
    AfterSnoc(s.accepted, recorded, later - MINUTE);
  }

  /** Forgetting old times does not matter: the verdict is about every restart ever accepted. */
  lemma {:induction false} KeptTimesSuffice(max: int, calls: Calls, n: nat, first: int)
    requires max > 0 && ClockOk(calls) && n <= |calls|
    requires n > 0 ==> calls[n - 1].1 <= first
    ensures AgreeAfter(Run(max, calls, n), first - MINUTE)
  {
    if n > 0 {
      KeptTimesSuffice(max, calls, n - 1, calls[n - 1].0);
      StepKeepsAgreement(Run(max, calls, n - 1), max, calls[n - 1].0, calls[n - 1].1, first);
    }
  }

  /** Every accepted restart lies before a later call. */
  lemma {:induction false} AcceptedBefore(max: int, calls: Calls, n: nat, later: int)
    requires ClockOk(calls) && n <= |calls| && (n > 0 ==> calls[n - 1].1 <= later)
    ensures forall k :: 0 <= k < |Run(max, calls, n).accepted| ==> Run(max, calls, n).accepted[k] <= later
  {
    if n > 0 {
      AcceptedBefore(max, calls, n - 1, calls[n - 1].0);
    }
  }

  /** Of times that all lie before the end of the window, those behind its start are those in it. */
  lemma {:induction false} AfterIsWindow(ts: seq<int>, n: nat, from: int)
    requires n <= |ts| && forall k :: 0 <= k < n ==> ts[k] <= from + MINUTE
    ensures |AfterTo(ts, n, from)| == InWindowTo(ts, n, from)
  {
    if n > 0 {
      AfterIsWindow(ts, n - 1, from);
    }
  }

  /** A restart is accepted exactly when fewer than `max` were accepted within the last minute. */
  lemma {:induction false} VerdictIsExact(max: int, calls: Calls, n: nat)
    requires max > 0 && ClockOk(calls) && n < |calls|
    ensures var s := Run(max, calls, n);
      Record(s.ts, max, calls[n].0, calls[n].1).1 <==> InWindow(s.accepted, calls[n].0 - MINUTE) < max
    ensures |After(Run(max, calls, n).accepted, calls[n].0 - MINUTE)| == InWindow(Run(max, calls, n).accepted, calls[n].0 - MINUTE)
  {
    var s := Run(max, calls, n);
    KeptTimesSuffice(max, calls, n, calls[n].0);
    AcceptedBefore(max, calls, n, calls[n].0);
    AfterIsWindow(s.accepted, |s.accepted|, calls[n].0 - MINUTE);
  }

  /** Without a limit every restart is accepted and no time is kept. */
  lemma {:induction false} UnlimitedAcceptsAll(max: int, calls: Calls, n: nat)
    requires max <= 0 && n <= |calls|
    ensures var s := Run(max, calls, n);
      s.ts == [] && |s.accepted| == n && forall k :: 0 <= k < n ==> s.accepted[k] == calls[k].1
  {
    if n > 0 {
      UnlimitedAcceptsAll(max, calls, n - 1);
    }
  }

  /** One more restart keeps a window within the limit, if it is accepted only below the limit. */
  lemma WindowStep(s: State, max: int, first: int, second: int, from: int)
    requires first <= second && InWindow(s.accepted, from) <= max
    requires Record(s.ts, max, first, second).1 ==> |After(s.accepted, first - MINUTE)| < max
    ensures InWindow(Stepped(s, max, first, second).accepted, from) <= max
  {
    WindowSnoc(s.accepted, second, from);
    if from < second <= from + MINUTE {
      WindowWithinAfter(s.accepted, |s.accepted|, from, first - MINUTE);
    }
  }

  /** No one-minute window ever holds more than `max` accepted restarts. */
  lemma {:induction false} WindowsAreBounded(max: int, calls: Calls, n: nat, from: int)
    requires max > 0 && ClockOk(calls) && n <= |calls|
    ensures InWindow(Run(max, calls, n).accepted, from) <= max
  {
    if n > 0 {
      WindowsAreBounded(max, calls, n - 1, from);
      VerdictIsExact(max, calls, n - 1);
      WindowStep(Run(max, calls, n - 1), max, calls[n - 1].0, calls[n - 1].1, from);
    }
  }
}
