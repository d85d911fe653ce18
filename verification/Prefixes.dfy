/** Properties that hold throughout a run, that is after each of its prefixes. */
module Prefixes {
  ghost predicate Always<E>(es: seq<E>, p: seq<E> -> bool) {
    forall k :: 0 <= k <= |es| ==> p(es[..k])
  }

  lemma AlwaysSnoc<E>(es: seq<E>, p: seq<E> -> bool)
    requires es != []
    ensures Always(es, p) <==> Always(es[..|es| - 1], p) && p(es)
  {
    var pre := es[..|es| - 1];
    assert es[..|es|] == es;
    assert forall k :: 0 <= k <= |pre| ==> pre[..k] == es[..k];
  }

  lemma AlwaysNow<E>(es: seq<E>, p: seq<E> -> bool)
    requires Always(es, p)
    ensures p(es)
  {
    assert es[..|es|] == es;
  }

  /** As long as it has held, `good` goes on holding after exactly those events that `fair` allows. */
  ghost predicate KeptExactlyBy<E(!new)>(good: seq<E> -> bool, fair: seq<E> -> bool) {
    && good([]) && fair([])
    && forall es :: es != [] && good(es[..|es| - 1]) ==> (good(es) <==> fair(es))
  }

  /** Then it holds throughout a run if and only if all events are fair. */
  lemma {:induction false} AlwaysIff<E(!new)>(es: seq<E>, good: seq<E> -> bool, fair: seq<E> -> bool)
    requires KeptExactlyBy(good, fair)
    ensures Always(es, good) <==> Always(es, fair)
    decreases |es|
  {
    if es != [] {
      var pre := es[..|es| - 1];
      AlwaysIff(pre, good, fair);
      AlwaysSnoc(es, good);
      AlwaysSnoc(es, fair);
      if Always(pre, good) {
        AlwaysNow(pre, good);
      }
    }
  }

  /** About the last event only, that is about every event. */
  lemma AlwaysLast<E>(es: seq<E>, q: E -> bool)
    ensures Always(es, fs => fs != [] ==> q(fs[|fs| - 1])) <==> forall k :: 0 <= k < |es| ==> q(es[k])
  {
    var p := (fs: seq<E>) => fs != [] ==> q(fs[|fs| - 1]);
    if Always(es, p) {
      forall k | 0 <= k < |es|
        ensures q(es[k])
      {
        assert p(es[..k + 1]) && es[..k + 1][k] == es[k];
      }
    }
  }
}
