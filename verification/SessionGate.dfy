/** When the outbound gate is open: what its flags say, and whether the editor then really shows what
    is on the wire. */
module SessionGate {
  import opened Options
  import opened Prefixes
  import opened EditorSession

  // ---- the gate's flags

  /** The outbound gate is closed exactly while a draft or a preview is open, a draft belongs to
      Suggest Mode and a preview to an open thread. */
  ghost predicate GateExact(s: Session) {
    && (s.outboundOpen <==> !s.enabled && s.previewing.None?)
    && (s.enabled ==> s.mode.Suggest?)
    && (s.previewing.Some? ==> s.mode.Comments? && s.threadOpen)
  }

  lemma GateEndPreview(s: Session, baseline: string)
    requires s.outboundOpen <==> !s.enabled && s.previewing.None?
    requires !s.enabled
    ensures var t := EndPreview(s, baseline);
      && t.previewing.None? && t.mode == s.mode && t.threadOpen == s.threadOpen && t.listOpen == s.listOpen
      && (t.outboundOpen <==> !t.enabled) && (t.enabled ==> s.mode.Suggest?)
  {
    ResetMeans(s);
  }

  lemma GateActivate(s: Session, m: Mode, baseline: string)
    requires GateExact(s)
    ensures GateExact(ActivateMode(s, m, baseline)) && ActivateMode(s, m, baseline).mode == m
    ensures s.mode != m ==> ActivateMode(s, m, baseline).previewing.None?
  {
    if s.mode != m {
      match s.mode {
        case Suggest => ResetMeans(s.(mode := m));
        case Comments => GateEndPreview(s.(mode := m, threadOpen := false, listOpen := false), baseline);
        case _ =>
      }
    }
  }

  lemma GateClose(s: Session, baseline: string)
    requires GateExact(s)
    ensures GateExact(CloseThread(s, baseline))
  {
    if !s.enabled {
      GateEndPreview(s, baseline);
    }
  }

  lemma GateOpenThread(s: Session, e: Event)
    requires GateExact(s) && e.ThreadOpened?
    ensures GateExact(Step(s, e))
  {
    GateActivate(s, Comments, e.baseline);
    var a := ActivateMode(s, Comments, e.baseline);
    GateEndPreview(a, e.baseline);
    var b := (if a.previewing.Some? && a.previewing != Some(e.thread) then EndPreview(a, e.baseline) else a).(threadOpen := true);
    PreviewMeans(b, e.thread, e.ops);
  }

  /** Somebody deletes the thread that is being previewed, a peer or this user. */
  ghost predicate CutsPreview(s: Session, e: Event) {
    (e.ThreadVanished? || e.ThreadDeleted?) && s.previewing.Some?
  }

  lemma GateNextIff(w: World, e: Event)
    requires GateExact(w.session)
    ensures GateExact(Next(w, e).session) <==> !CutsPreview(w.session, e)
  {
    var s := w.session;
    match e {
      case Edit(ops, waits) => if Possible(w, e) { EditMeans(s, ops, waits); }
      case SyncChanged(ops) => SyncChangeMeans(s, ops);
      case SuggestToggled(_, current, _) => GateActivate(s, Suggest, current); ResetMeans(s);
      case Submitted(_, _, _) => ResetMeans(s);
      case Discarded(_) => ResetMeans(s);
      case ThreadOpened(_, _, _, _, _, _) => GateOpenThread(s, e);
      case ThreadClosed(baseline) => GateClose(s, baseline);
      case ThreadVanished =>
      case ThreadDeleted(_) =>
      case Accepted(baseline, ops, _) =>
        GateClose(s, baseline);
        SyncChangeMeans(CloseThread(s, baseline), ops);
      case ListToggled(_, baseline) => GateActivate(s, Comments, baseline);
      case BlameToggled(_, baseline) => GateActivate(s, Blame, baseline);
    }
  }

  ghost predicate ExactAfter(es: seq<Event>) {
    GateExact(Run(Boot, es).session)
  }

  /** The last event of the run did not delete the thread under review. */
  ghost predicate UncutAfter(es: seq<Event>) {
    es != [] ==> !CutsPreview(Run(Boot, es[..|es| - 1]).session, es[|es| - 1])
  }

  lemma ExactStep(es: seq<Event>)
    requires es != [] && ExactAfter(es[..|es| - 1])
    ensures ExactAfter(es) <==> UncutAfter(es)
  {
    GateNextIff(Run(Boot, es[..|es| - 1]), es[|es| - 1]);
  }

  /** Over every run: gate, mode and preview flags stay in step, if and only if the thread under review
      is never deleted, by anyone. */
  lemma GateIsExactIff(es: seq<Event>)
    ensures Always(es, ExactAfter) <==> Always(es, UncutAfter)
  {
    forall fs: seq<Event> | fs != [] && ExactAfter(fs[..|fs| - 1])
      ensures ExactAfter(fs) <==> UncutAfter(fs)
    {
      ExactStep(fs);
    }
    AlwaysIff(es, ExactAfter, UncutAfter);
  }

  lemma {:induction false} RunStep(es: seq<Event>, e: Event)
    ensures Run(Boot, es + [e]) == Next(Run(Boot, es), e)
  {
    assert (es + [e])[..|es + [e]| - 1] == es;
  }

  const Reviewing: World := World(Session({}, {1}, true, false, false, "", Comments, true, false, Some(0), []), {1})

  const Stranded: World := Reviewing.(session := Reviewing.session.(mode := NoMode, threadOpen := false))

  lemma PreviewOpens()
    ensures Next(Boot, ThreadOpened(0, true, "", "", true, {1})) == Reviewing
  {
    PreviewMeans(Fresh.(mode := Comments, threadOpen := true), 0, {1});
  }

  /** By a peer or by this user, it makes no difference. */
  lemma PreviewIsStranded(gone: Event)
    requires gone.ThreadVanished? || gone.ThreadDeleted?
    ensures Next(Next(Next(Reviewing, gone), ListToggled(true, "")), ListToggled(false, "")) == Stranded
  {
  }

  lemma SuggestOpensTheGate()
    ensures var w := Next(Next(Stranded, SuggestToggled(true, "", false)), SuggestToggled(false, "", false));
      w == Stranded.(session := Stranded.session.(outboundOpen := true))
  {
    var w := Stranded.(session := Stranded.session.(mode := Suggest, enabled := true));
    assert Next(Stranded, SuggestToggled(true, "", false)) == w;
  }

  /** When the thread under review is deleted, by a peer or by this user, its preview is not ended: the
      editor can leave Comments mode, enter and leave Suggest Mode, and then stand with the gate open
      while it still shows the preview. */
  lemma VanishedThreadLeavesPreview(gone: Event) returns (es: seq<Event>)
    requires gone.ThreadVanished? || gone.ThreadDeleted?
    ensures |es| > 1 && es[1] == gone
    ensures var s := Run(Boot, es).session;
      !GateExact(s) && s.outboundOpen && s.previewing.Some? && s.editor == {1} && s.sync == {}
  {
    var e1, e2, e3, e4 := ThreadOpened(0, true, "", "", true, {1}), gone, ListToggled(true, ""), ListToggled(false, "");
    var e5, e6 := SuggestToggled(true, "", false), SuggestToggled(false, "", false);
    PreviewOpens();
    PreviewIsStranded(gone);
    SuggestOpensTheGate();
    es := [] + [e1] + [e2] + [e3] + [e4] + [e5] + [e6];
    RunStep([], e1);
    RunStep([] + [e1], e2);
    RunStep([] + [e1] + [e2], e3);
    RunStep([] + [e1] + [e2] + [e3], e4);
    RunStep([] + [e1] + [e2] + [e3] + [e4], e5);
    RunStep([] + [e1] + [e2] + [e3] + [e4] + [e5], e6);
  }

  // ---- the open gate and the two documents

  /** With the gate open there is nothing in the editor that is not on the wire. */
  ghost predicate Synced(s: Session) {
    s.outboundOpen ==> s.editor == s.sync
  }

  /** Suggest Mode is left with the text as it was, but not without operations: a draft typed and
      undone. The gate is opened and the document kept. */
  ghost predicate KeepsUndoneDraft(s: Session, e: Event) {
    && e.SuggestToggled? && !e.active && s.mode.Suggest?
    && s.enabled && !HasPendingChanges(s, e.current) && s.editor != s.sync
  }

  /** Synchronizes, or changes neither document and does not open the gate. */
  ghost predicate Careful(s: Session, t: Session) {
    t.editor == t.sync || (t.editor == s.editor && t.sync == s.sync && (t.outboundOpen ==> s.outboundOpen))
  }

  lemma CarefulEndPreview(s: Session, baseline: string)
    ensures Careful(s, EndPreview(s, baseline))
  {
    ResetMeans(s);
  }

  lemma CarefulActivate(s: Session, m: Mode, baseline: string)
    ensures Careful(s, ActivateMode(s, m, baseline))
  {
    ResetMeans(s.(mode := m));
    CarefulEndPreview(s.(mode := m, threadOpen := false, listOpen := false), baseline);
  }

  lemma CarefulSuggest(s: Session, active: bool, current: string, submit: bool)
    requires !KeepsUndoneDraft(s, SuggestToggled(active, current, submit)) && (!active ==> s.mode.Suggest?)
    ensures Careful(s, ToggleSuggest(s, active, current, submit))
  {
    CarefulActivate(s, Suggest, current);
    ResetMeans(s);
  }

  lemma CarefulOpenThread(s: Session, e: Event)
    requires e.ThreadOpened? && Synced(s)
    ensures Synced(Step(s, e))
  {
    var a := ActivateMode(s, Comments, e.baseline);
    CarefulActivate(s, Comments, e.baseline);
    CarefulEndPreview(a, e.baseline);
    var b := (if a.previewing.Some? && a.previewing != Some(e.thread) then EndPreview(a, e.baseline) else a).(threadOpen := true);
    PreviewMeans(b, e.thread, e.ops);
  }

  lemma SyncedNextIff(w: World, e: Event)
    requires Confined(w) && Synced(w.session)
    ensures Synced(Next(w, e).session) <==> !KeepsUndoneDraft(w.session, e)
  {
    var s := w.session;
    if Possible(w, e) {
      match e {
        case Edit(ops, waits) => EditMeans(s, ops, waits);
        case SyncChanged(ops) => SyncChangeMeans(s, ops);
        case SuggestToggled(active, current, submit) =>
          if !KeepsUndoneDraft(s, e) { CarefulSuggest(s, active, current, submit); }
        case Submitted(_, _, _) => ResetMeans(s);
        case Discarded(_) => ResetMeans(s);
        case ThreadOpened(_, _, _, _, _, _) => CarefulOpenThread(s, e);
        case ThreadClosed(baseline) => CarefulEndPreview(s, baseline);
        case ThreadVanished =>
        case ThreadDeleted(_) =>
        case Accepted(baseline, ops, _) =>
          QuietClose(s, baseline);
          CarefulEndPreview(s, baseline);
          SyncChangeMeans(CloseThread(s, baseline), ops);
        case ListToggled(_, baseline) => CarefulActivate(s, Comments, baseline);
        case BlameToggled(_, baseline) => CarefulActivate(s, Blame, baseline);
      }
    }
  }

  ghost predicate SyncedAfter(es: seq<Event>) {
    Synced(Run(Boot, es).session)
  }

  /** The last event of the run did not keep an undone draft. */
  ghost predicate CleanAfter(es: seq<Event>) {
    es != [] ==> !KeepsUndoneDraft(Run(Boot, es[..|es| - 1]).session, es[|es| - 1])
  }

  lemma SyncedStep(es: seq<Event>)
    requires es != [] && SyncedAfter(es[..|es| - 1])
    ensures SyncedAfter(es) <==> CleanAfter(es)
  {
    DraftsAreConfined(es[..|es| - 1]);
    SyncedNextIff(Run(Boot, es[..|es| - 1]), es[|es| - 1]);
  }

  /** Over every run: with the gate open the editor always shows exactly what is on the wire, if and
      only if Suggest Mode is never left with an undone draft. */
  lemma OpenGateIsSyncedIff(es: seq<Event>)
    ensures Always(es, SyncedAfter) <==> Always(es, CleanAfter)
  {
    forall fs: seq<Event> | fs != [] && SyncedAfter(fs[..|fs| - 1])
      ensures SyncedAfter(fs) <==> CleanAfter(fs)
    {
      SyncedStep(fs);
    }
    AlwaysIff(es, SyncedAfter, CleanAfter);
  }

  /** An edit made with the gate open, all of which would wait for earlier operations, reaches the
      wire exactly if the editor holds nothing back. */
  lemma OpenEditArrivesIff(w: World, ops: set<Op>)
    requires Confined(w) && w.session.outboundOpen && ops != {} && Possible(w, Edit(ops, ops))
    ensures ops <= Next(w, Edit(ops, ops)).session.sync <==> Synced(w.session)
  {
    EditMeans(w.session, ops, ops);
    assert ops - ops == {};
    var o :| o in ops;
    assert o !in w.session.sync;
  }

  /** So in every run that is clean all edits made with the gate open reach the wire. */
  lemma {:induction false} OpenEditsArrive(es: seq<Event>, ops: set<Op>, waits: set<Op>)
    requires Always(es, CleanAfter)
    requires Run(Boot, es).session.outboundOpen && Possible(Run(Boot, es), Edit(ops, waits))
    ensures ops <= Run(Boot, es + [Edit(ops, waits)]).session.sync
  {
    OpenGateIsSyncedIff(es);
    AlwaysNow(es, SyncedAfter);
    RunStep(es, Edit(ops, waits));
    EditMeans(Run(Boot, es).session, ops, waits);
  }

  /** A draft is typed and undone, Suggest Mode is left, and the next edit is made with the gate
      open and all flags in step. It waits for the draft and never reaches the wire. */
  lemma UndoneDraftHoldsBackEdits() returns (es: seq<Event>)
    ensures var s := Run(Boot, es).session;
      GateExact(s) && s.outboundOpen && s.editor == {1, 2} && s.sync == {}
  {
    var e1, e2 := SuggestToggled(true, "", false), Edit({1}, {});
    var e3, e4 := SuggestToggled(false, "", false), Edit({2}, {2});
    var s1 := Fresh.(mode := Suggest, enabled := true, outboundOpen := false);
    var s3 := Fresh.(editor := {1});
    EditMeans(s1, {1}, {});
    EditMeans(s3, {2}, {2});
    es := [] + [e1] + [e2] + [e3] + [e4];
    RunStep([], e1);
    assert Run(Boot, [] + [e1]) == World(s1, {});
    RunStep([] + [e1], e2);
    assert Run(Boot, [] + [e1] + [e2]) == World(s1.(editor := {1}), {1});
    RunStep([] + [e1] + [e2], e3);
    assert Run(Boot, [] + [e1] + [e2] + [e3]) == World(s3, {1});
    RunStep([] + [e1] + [e2] + [e3], e4);
  }

  // ---- pending changes and what the user drafted

  function All(changes: seq<set<Op>>): set<Op> {
    if changes == [] then {} else All(changes[..|changes| - 1]) + changes[|changes| - 1]
  }

  /** Peers change the sync document, one update after another. */
  function PeerUpdates(s: Session, changes: seq<set<Op>>): Session {
    if changes == [] then s
    else Step(PeerUpdates(s, changes[..|changes| - 1]), SyncChanged(changes[|changes| - 1]))
  }

  lemma {:induction false} PeerUpdatesMean(s: Session, changes: seq<set<Op>>)
    requires s.inboundOpen
    ensures PeerUpdates(s, changes) == s.(sync := s.sync + All(changes), editor := s.editor + All(changes))
  {
    if changes != [] {
      var pre, last := changes[..|changes| - 1], changes[|changes| - 1];
      PeerUpdatesMean(s, pre);
      SyncChangeMeans(PeerUpdates(s, pre), last);
      assert s.sync + All(pre) + last == s.sync + All(changes);
      assert s.editor + All(pre) + last == s.editor + All(changes);
    } else {
      assert s.sync + {} == s.sync && s.editor + {} == s.editor;
    }
  }

  /** Pending changes are found by comparing texts, and a peer's edit changes the text too. Of a user
      who entered Suggest Mode and drafted nothing, the editor says that there is something to
      submit exactly if peers have changed what the document reads; submitting then makes a
      suggestion of it. `render` is the text of a document. */
  lemma {:induction false} PhantomDraftIff(s: Session, render: set<Op> -> string, changes: seq<set<Op>>,
                                           note: Option<string>)
    requires s.mode.NoMode? && !s.enabled && s.inboundOpen && s.editor == s.sync
    ensures var t := PeerUpdates(ToggleSuggest(s, true, render(s.editor), false), changes);
      && t.editor == t.sync == s.sync + All(changes)
      && (HasPendingChanges(t, render(t.editor)) <==> render(s.sync + All(changes)) != render(s.sync))
      && (Commit(t, note, render(t.editor)).1.Built? <==> render(s.sync + All(changes)) != render(s.sync))
  {
    PeerUpdatesMean(ToggleSuggest(s, true, render(s.editor), false), changes);
  }

  /** A suggestion accepted in Suggest Mode is not mistaken for a draft: the baseline moves along. */
  lemma AcceptedIsNoDraft(s: Session, render: set<Op> -> string, baseline: string, ops: set<Op>)
    requires s.mode.Suggest? && s.inboundOpen && s.previewing.None? && s.editor == s.sync
    ensures var t := Accept(s, baseline, ops, render(s.editor + ops));
      t.editor == t.sync == s.sync + ops && !HasPendingChanges(t, render(t.editor))
  {
    SyncChangeMeans(CloseThread(s, baseline), ops);
  }
}
