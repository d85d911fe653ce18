/** The editor's exclusive surfaces: which mode and which comment panels each event leaves. */
module Panels {
  import opened Options
  import opened Prefixes
  import opened EditorSession

  /** A comment panel is open only in Comments mode. */
  ghost predicate Exclusive(s: Session) {
    s.threadOpen || s.listOpen ==> s.mode.Comments?
  }

  datatype Surface = Surface(mode: Mode, threadOpen: bool, listOpen: bool)

  function SurfaceOf(s: Session): Surface {
    Surface(s.mode, s.threadOpen, s.listOpen)
  }

  /** Closing the last panel leaves Comments mode. */
  function Closed(s: Surface): Surface {
    if s.mode.Comments? && !s.threadOpen && !s.listOpen then s.(mode := NoMode) else s
  }

  /** Another mode takes the panels away, and a toggle off gives its mode up. */
  function Switched(s: Surface, m: Mode, active: bool): Surface {
    if active then Surface(m, false, false) else if s.mode == m then s.(mode := NoMode) else s
  }

  /** The surface behind an event: nothing that happens to the documents plays a part in it. */
  function SurfaceAfter(s: Surface, e: Event): Surface {
    match e
    case SuggestToggled(active, _, _) => Switched(s, Suggest, active)
    case BlameToggled(active, _) => Switched(s, Blame, active)
    case ThreadOpened(_, _, _, _, _, _) => Surface(Comments, true, s.listOpen)
    case ListToggled(open, _) => if open then Surface(Comments, s.threadOpen, true) else Closed(s.(listOpen := false))
    case ThreadClosed(_) => Closed(s.(threadOpen := false))
    case Accepted(_, _, _) => Closed(s.(threadOpen := false))
    case ThreadVanished => s.(threadOpen := false)
    case ThreadDeleted(_) => s.(threadOpen := false)
    case _ => s
  }

  lemma SurfaceKept(s: Session, baseline: string)
    ensures SurfaceOf(Discard(s)) == SurfaceOf(EndPreview(s, baseline)) == SurfaceOf(ResetEditorDoc(s)) == SurfaceOf(s)
  {
    ResetMeans(s);
  }

  lemma SurfaceActivated(s: Session, m: Mode, baseline: string)
    requires Exclusive(s)
    ensures SurfaceOf(ActivateMode(s, m, baseline)) == if s.mode == m then SurfaceOf(s) else Surface(m, false, false)
  {
    SurfaceKept(s.(mode := m), baseline);
    SurfaceKept(s.(mode := m, threadOpen := false, listOpen := false), baseline);
  }

  lemma SurfaceByThread(s: Session, e: Event)
    requires Exclusive(s) && e.ThreadOpened?
    ensures SurfaceOf(Step(s, e)) == SurfaceAfter(SurfaceOf(s), e)
  {
    SurfaceActivated(s, Comments, e.baseline);
    var a := ActivateMode(s, Comments, e.baseline);
    SurfaceKept(a, e.baseline);
    var b := (if a.previewing.Some? && a.previewing != Some(e.thread) then EndPreview(a, e.baseline) else a).(threadOpen := true);
    PreviewMeans(b, e.thread, e.ops);
  }

  lemma SurfaceByClosing(s: Session, baseline: string)
    ensures SurfaceOf(CloseThread(s, baseline)) == Closed(SurfaceOf(s).(threadOpen := false))
  {
    SurfaceKept(s, baseline);
  }

  lemma SurfaceBySuggesting(s: Session, e: Event)
    requires Exclusive(s) && e.SuggestToggled? && (!e.active ==> s.mode.Suggest?)
    ensures SurfaceOf(Step(s, e)) == SurfaceAfter(SurfaceOf(s), e)
  {
    SurfaceActivated(s, Suggest, e.current);
    SurfaceKept(s, e.current);
  }

  lemma SurfaceByAccepting(s: Session, e: Event)
    requires e.Accepted?
    ensures SurfaceOf(Step(s, e)) == SurfaceAfter(SurfaceOf(s), e)
  {
    SurfaceByClosing(s, e.baseline);
    SyncChangeMeans(CloseThread(s, e.baseline), e.ops);
  }

  lemma SurfaceByToggling(s: Session, e: Event)
    requires Exclusive(s) && (e.ListToggled? || e.BlameToggled?)
    ensures SurfaceOf(Step(s, e)) == SurfaceAfter(SurfaceOf(s), e)
  {
    SurfaceActivated(s, if e.ListToggled? then Comments else Blame, e.baseline);
  }

  /** Edits and drafts do not touch the surface. */
  lemma SurfaceByWriting(s: Session, e: Event)
    requires e.Edit? || e.SyncChanged? || e.Submitted? || e.Discarded?
    requires e.Edit? ==> e.ops !! s.editor
    ensures SurfaceOf(Step(s, e)) == SurfaceOf(s)
  {
    match e {
      case Edit(ops, waits) => EditMeans(s, ops, waits);
      case SyncChanged(ops) => SyncChangeMeans(s, ops);
      case Submitted(_, current, _) => SurfaceKept(s, current);
      case Discarded(current) => SurfaceKept(s, current);
    }
  }

  lemma SurfaceStep(w: World, e: Event)
    requires Exclusive(w.session) && Possible(w, e)
    ensures SurfaceOf(Next(w, e).session) == SurfaceAfter(SurfaceOf(w.session), e)
  {
    var s := w.session;
    match e {
      case SuggestToggled(_, _, _) => SurfaceBySuggesting(s, e);
      case ThreadOpened(_, _, _, _, _, _) => SurfaceByThread(s, e);
      case ThreadClosed(baseline) => SurfaceByClosing(s, baseline);
      case Accepted(_, _, _) => SurfaceByAccepting(s, e);
      case ListToggled(_, _) => SurfaceByToggling(s, e);
      case BlameToggled(_, _) => SurfaceByToggling(s, e);
      case ThreadVanished =>
      case ThreadDeleted(_) =>
      case _ => SurfaceByWriting(s, e);
    }
  }

  /** No event leaves a panel open in another mode. */
  lemma StaysExclusive(s: Session, t: Session, e: Event)
    requires Exclusive(s) && SurfaceOf(t) == SurfaceAfter(SurfaceOf(s), e)
    ensures Exclusive(t)
  {
    assert t.mode == SurfaceOf(t).mode && t.threadOpen == SurfaceOf(t).threadOpen && t.listOpen == SurfaceOf(t).listOpen;
  }

  ghost function SurfaceRun(es: seq<Event>): Surface
    decreases |es|
  {
    if es == [] then Surface(NoMode, false, false)
    else
      var before, e := es[..|es| - 1], es[|es| - 1];
      if Possible(Run(Boot, before), e) then SurfaceAfter(SurfaceRun(before), e) else SurfaceRun(before)
  }

  /** Over every run: mode and panels are what the surface alone says, and panels are open in Comments mode only. */
  lemma {:induction false} SurfaceFollowsEvents(es: seq<Event>)
    ensures SurfaceOf(Run(Boot, es).session) == SurfaceRun(es) && Exclusive(Run(Boot, es).session)
    decreases |es|
  {
    if es != [] {
      var before, e := es[..|es| - 1], es[|es| - 1];
      SurfaceFollowsEvents(before);
      if Possible(Run(Boot, before), e) {
        SurfaceStep(Run(Boot, before), e);
        StaysExclusive(Run(Boot, before).session, Run(Boot, es).session, e);
      }
    }
  }

  // ---- Comments mode without a panel

  /** Comments mode is on only while there is a panel to show. */
  ghost predicate Shown(s: Session) {
    s.mode.Comments? ==> s.threadOpen || s.listOpen
  }

  ghost predicate ShownAfter(es: seq<Event>) {
    Shown(Run(Boot, es).session)
  }

  /** The last event took the only panel away by deleting its thread. */
  ghost predicate StripsPanel(s: Session, e: Event) {
    (e.ThreadVanished? || e.ThreadDeleted?) && s.mode.Comments? && !s.listOpen
  }

  ghost predicate UnstrippedAfter(es: seq<Event>) {
    es != [] ==> !StripsPanel(Run(Boot, es[..|es| - 1]).session, es[|es| - 1])
  }

  lemma ShownStep(es: seq<Event>)
    requires es != [] && ShownAfter(es[..|es| - 1])
    ensures ShownAfter(es) <==> UnstrippedAfter(es)
  {
    var w, e := Run(Boot, es[..|es| - 1]), es[|es| - 1];
    SurfaceFollowsEvents(es[..|es| - 1]);
    if Possible(w, e) {
      SurfaceStep(w, e);
    }
  }

  /** Throughout a run Comments mode means an open panel, if and only if the thread on the only open panel is
      never deleted: the observer takes it off and leaves the mode. */
  lemma CommentsModeIsShownIff(es: seq<Event>)
    ensures Always(es, ShownAfter) <==> Always(es, UnstrippedAfter)
  {
    forall fs: seq<Event> | fs != [] && ShownAfter(fs[..|fs| - 1])
      ensures ShownAfter(fs) <==> UnstrippedAfter(fs)
    {
      ShownStep(fs);
    }
    AlwaysIff(es, ShownAfter, UnstrippedAfter);
  }
}
