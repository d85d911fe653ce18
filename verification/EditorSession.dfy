/** The split between the sync document (on the wire) and the editor document (under the cursor):
    the gated replicator between them, Suggest Mode, document reset and suggestion preview.
    A Y.Doc is the set of operations integrated into it. Yjs integrates an operation only behind the
    earlier ones of its author: an editor update that reaches a sync document which lacks some of the
    editor's own operations may have to wait, and what it waits for is never sent again. */
module EditorSession {
  import opened Options
  import opened Splice

  type Op = nat
  type ThreadId = nat

  /** Who caused an update event. The replicator tags its own writes. */
  datatype Origin = Replicator | Other

  datatype Mode = NoMode | Blame | Suggest | Comments

  datatype Session = Session(
    sync: set<Op>, editor: set<Op>,
    inboundOpen: bool, outboundOpen: bool,
    enabled: bool, textAtEnable: string,
    mode: Mode, threadOpen: bool, listOpen: bool, previewing: Option<ThreadId>,
    // what was handed to the comment engine
    sent: seq<Suggestion>)

  const Fresh: Session := Session({}, {}, true, true, false, "", NoMode, false, false, None, [])

  // ---- the replicator

  function Rank(origin: Origin): nat {
    if origin.Replicator? then 0 else 1
  }

  /** Integrate operations into the editor document, which fires its update handler. `waits` are
      those that would wait for earlier operations of the same author. */
  function ApplyToEditor(s: Session, ops: set<Op>, waits: set<Op>, origin: Origin): Session
    decreases 2 * Rank(origin) + 1
  {
    OnEditorUpdate(s.(editor := s.editor + ops), ops, waits, origin)
  }

  /** What the sync document can integrate of an editor update. */
  function Arriving(s: Session, ops: set<Op>, waits: set<Op>): set<Op> {
    if s.editor - ops <= s.sync then ops else ops - waits
  }

  function OnEditorUpdate(s: Session, ops: set<Op>, waits: set<Op>, origin: Origin): Session
    decreases 2 * Rank(origin)
  {
    if origin.Replicator? || !s.outboundOpen then s else ApplyToSync(s, Arriving(s, ops, waits), Replicator)
  }

  function ApplyToSync(s: Session, ops: set<Op>, origin: Origin): Session
    decreases 2 * Rank(origin) + 1
  {
    OnSyncUpdate(s.(sync := s.sync + ops), ops, origin)
  }

  function OnSyncUpdate(s: Session, ops: set<Op>, origin: Origin): Session
    decreases 2 * Rank(origin)
  {
    if origin.Replicator? || !s.inboundOpen then s else ApplyToEditor(s, ops, {}, Replicator)
  }

  /** A new editor document and a new replicator with open gates, seeded from the sync document. */
  function ResetEditorDoc(s: Session): Session {
    ApplyToEditor(s.(editor := {}, inboundOpen := true, outboundOpen := true), s.sync, {}, Replicator)
  }

  // ---- Suggest Mode

  function Enable(s: Session, current: string): Session {
    if s.enabled then s else s.(textAtEnable := current, outboundOpen := false, enabled := true)
  }

  function Disable(s: Session): Session {
    if !s.enabled then s else s.(outboundOpen := true, enabled := false, textAtEnable := "")
  }

  predicate HasPendingChanges(s: Session, current: string) {
    s.enabled && current != s.textAtEnable
  }

  function Rebase(s: Session, baseline: string): Session {
    if !s.enabled then s else s.(textAtEnable := baseline)
  }

  /** Throws, and changes nothing, when Suggest Mode is off or nothing has changed. */
  function Commit(s: Session, note: Option<string>, current: string): (Session, BuildResult) {
    var payload := BuildSuggestion(s.enabled, s.textAtEnable, note, current);
    if payload.Built? then (Disable(ResetEditorDoc(s)), payload) else (s, payload)
  }

  /** A pending draft is committed and its payload handed on as a suggestion thread. */
  function CommitPending(s: Session, note: Option<string>, current: string): Session {
    if !HasPendingChanges(s, current) then s
    else
      var (t, result) := Commit(s, note, current);
      if result.Built? then t.(sent := t.sent + [result.payload]) else t
  }

  /** The payload describes how `base` becomes `edited`: its range, both readings of that range and
      the operation shown to reviewers. */
  predicate Describes(p: Suggestion, base: string, edited: string, note: Option<string>) {
    && p.anchor.start <= p.anchor.end <= |base|
    && p.beforeText == p.anchor.quoted == base[p.anchor.start..p.anchor.end]
    && Spliced(base, p.anchor.start, p.anchor.end, p.afterText) == edited
    && Replay(base, p.operations) == Some(edited)
    && p.note == (if note == Some("") then None else note)
  }

  function Discard(s: Session): Session {
    if !s.enabled then s else Disable(ResetEditorDoc(s))
  }

  // ---- preview of a suggestion under review

  /** `ops` are what applying the suggestion's text to the editor text produces. */
  function StartPreview(s: Session, thread: ThreadId, anchorFound: bool, ops: set<Op>): Session {
    if !anchorFound then s
    else ApplyToEditor(s.(outboundOpen := false), ops, {}, Other).(previewing := Some(thread))
  }

  /** `baseline` is the editor's text after the reset. */
  function EndPreview(s: Session, baseline: string): Session {
    if s.previewing.None? then s
    else
      var r := ResetEditorDoc(s);
      var t := if s.mode.Suggest? then Enable(Disable(r.(outboundOpen := false)), baseline) else r;
      t.(previewing := None)
  }

  class CollabSession {
    var sync: set<Op>
    var editor: set<Op>
    var inboundOpen: bool
    var outboundOpen: bool
    var enabled: bool
    var textAtEnable: string
    var mode: Mode
    var threadOpen: bool
    var listOpen: bool
    var previewing: Option<ThreadId>
    var sent: seq<Suggestion>

    function View(): Session
      reads this
    {
      Session(sync, editor, inboundOpen, outboundOpen, enabled, textAtEnable, mode, threadOpen, listOpen, previewing,
              sent)
    }

    constructor ()
      ensures View() == Fresh
    {
      sync, editor, inboundOpen, outboundOpen := {}, {}, true, true;
      enabled, textAtEnable, mode, threadOpen, listOpen, previewing := false, "", NoMode, false, false, None;
      sent := [];
    }

    method EditorUpdate(ops: set<Op>, waits: set<Op>, origin: Origin)
      modifies this
      ensures View() == ApplyToEditor(old(View()), ops, waits, origin)
      decreases Rank(origin)
    {
      editor := editor + ops;
      if origin.Replicator? {
        return;
      }
      if !outboundOpen {
        return;
      }
      SyncUpdate(Arriving(View(), ops, waits), Replicator);
    }

    method SyncUpdate(ops: set<Op>, origin: Origin)
      modifies this
      ensures View() == ApplyToSync(old(View()), ops, origin)
      decreases Rank(origin)
    {
      sync := sync + ops;
      if origin.Replicator? {
        return;
      }
      if !inboundOpen {
        return;
      }
      EditorUpdate(ops, {}, Replicator);
    }

    method Reset()
      modifies this
      ensures View() == ResetEditorDoc(old(View()))
    {
      editor := {};
      inboundOpen, outboundOpen := true, true;
      EditorUpdate(sync, {}, Replicator);
    }

    method EnableSuggest(current: string)
      modifies this
      ensures View() == Enable(old(View()), current)
    {
      if enabled {
        return;
      }
      textAtEnable := current;
      outboundOpen := false;
      enabled := true;
    }

    method DisableSuggest()
      modifies this
      ensures View() == Disable(old(View()))
    {
      if !enabled {
        return;
      }
      outboundOpen := true;
      enabled := false;
      textAtEnable := "";
    }

    method CommitSuggestion(note: Option<string>, current: string) returns (payload: BuildResult)
      modifies this
      ensures (View(), payload) == Commit(old(View()), note, current)
      ensures payload.Built? <==> old(enabled) && current != old(textAtEnable)
      ensures payload.Built? ==> Describes(payload.payload, old(textAtEnable), current, note)
    {
      if enabled && current != textAtEnable {
        BuildThenAccept(textAtEnable, current, note);
      }
      payload := BuildSuggestion(enabled, textAtEnable, note, current);
      if !payload.Built? {
        return;
      }
      Reset();
      DisableSuggest();
    }

    method CommitPendingSuggestion(note: Option<string>, current: string)
      modifies this
      ensures View() == CommitPending(old(View()), note, current)
    {
      if !HasPendingChanges(View(), current) {
        return;
      }
      var payload := CommitSuggestion(note, current);
      if payload.Built? {
        sent := sent + [payload.payload];
      }
    }

    method DiscardSuggestion()
      modifies this
      ensures View() == Discard(old(View()))
    {
      if !enabled {
        return;
      }
      Reset();
      DisableSuggest();
    }

    method BeginPreview(thread: ThreadId, anchorFound: bool, ops: set<Op>)
      modifies this
      ensures View() == StartPreview(old(View()), thread, anchorFound, ops)
    {
      if !anchorFound {
        return;
      }
      outboundOpen := false;
      EditorUpdate(ops, {}, Other);
      previewing := Some(thread);
    }

    method FinishPreview(baseline: string)
      modifies this
      ensures View() == EndPreview(old(View()), baseline)
    {
      if previewing.None? {
        return;
      }
      Reset();
      if mode.Suggest? {
        outboundOpen := false;
        DisableSuggest();
        EnableSuggest(baseline);
      }
      previewing := None;
    }
  }

  // ---- the editor's feature modes

  /** Entering a mode leaves the previous one. The new mode is set first. */
  function ActivateMode(s: Session, m: Mode, baseline: string): Session {
    if s.mode == m then s
    else
      var t := s.(mode := m);
      match s.mode
      case Suggest => Discard(t)
      case Comments => EndPreview(t.(threadOpen := false, listOpen := false), baseline)
      case _ => t
  }

  function MaybeExitComments(s: Session): Session {
    if s.mode.Comments? && !s.threadOpen && !s.listOpen then s.(mode := NoMode) else s
  }

  /** Opening a thread claims the surface and, for a pending suggestion, starts its preview. */
  function OpenThread(s: Session, thread: ThreadId, pending: bool, baseline: string, current: string,
                      anchorFound: bool, ops: set<Op>): Session {
    ShowThread(ActivateMode(s, Comments, baseline), thread, pending, baseline, current, anchorFound, ops)
  }

  function ShowThread(a: Session, thread: ThreadId, pending: bool, baseline: string, current: string,
                      anchorFound: bool, ops: set<Op>): Session {
    var b := (if a.previewing.Some? && a.previewing != Some(thread) then EndPreview(a, baseline) else a).(threadOpen := true);
    if !pending || b.previewing == Some(thread) || (b.mode.Suggest? && HasPendingChanges(b, current)) then b
    else StartPreview(b, thread, anchorFound, ops)
  }

  function CloseThread(s: Session, baseline: string): Session {
    MaybeExitComments(EndPreview(s, baseline).(threadOpen := false))
  }

  /** The open thread is gone from the shared map, whoever deleted it: the observer takes it off the
      panel, and nothing else. */
  function Vanish(s: Session): Session {
    s.(threadOpen := false)
  }

  /** This user deletes the open thread. The observer runs first, so the panel that is to be closed
      afterwards is closed already. */
  function DeleteThread(s: Session, baseline: string): Session {
    var t := Vanish(s);
    if t.threadOpen then CloseThread(t, baseline) else t
  }

  /** Leaving Suggest Mode with a draft asks whether to submit it. */
  function ToggleSuggest(s: Session, active: bool, current: string, submit: bool): Session {
    if active then Enable(ActivateMode(s, Suggest, current), current)
    else
      var t := if !HasPendingChanges(s, current) then Disable(s)
               else if submit then CommitPending(s, None, current)
               else Discard(s);
      t.(mode := NoMode)
  }

  /** Submit from the toolbar, then go on suggesting from the reset text. */
  function SubmitNote(s: Session, note: Option<string>, current: string, next: string): Session {
    var t := CommitPending(s, note, current);
    if t.mode.Suggest? then Enable(t, next) else t
  }

  function DiscardDraft(s: Session, current: string): Session {
    Enable(Discard(s), current)
  }

  /** Accepting ends the preview and edits the sync document. */
  function Accept(s: Session, baseline: string, ops: set<Op>, rebased: string): Session {
    var t := ApplyToSync(CloseThread(s, baseline), ops, Other);
    if t.mode.Suggest? then Rebase(t, rebased) else t
  }

  // ---- runs

  /** `drafts` is every operation ever made on the editor document that the sync document did not take. */
  datatype World = World(session: Session, drafts: set<Op>)

  datatype Event =
    | Edit(ops: set<Op>, waits: set<Op>)
    | SyncChanged(ops: set<Op>)
    | SuggestToggled(active: bool, current: string, submit: bool)
    | Submitted(note: Option<string>, current: string, next: string)
    | Discarded(current: string)
    | ThreadOpened(thread: ThreadId, pending: bool, baseline: string, current: string, anchorFound: bool, ops: set<Op>)
    | ThreadClosed(baseline: string)
    | ThreadVanished
    | ThreadDeleted(baseline: string)
    | Accepted(baseline: string, ops: set<Op>, rebased: string)
    | ListToggled(open: bool, baseline: string)
    | BlameToggled(active: bool, baseline: string)

  const Boot: World := World(Fresh, {})

  /** Operations are unique: a local edit makes new ones, and nobody can put on the sync document
      (a peer's update, a comment thread) what never left this editor. The suggest controls exist
      only in Suggest Mode. */
  ghost predicate Possible(w: World, e: Event) {
    match e
    case Edit(ops, _) => ops !! (w.session.sync + w.session.editor + w.drafts)
    case ThreadOpened(_, _, _, _, _, ops) => ops !! (w.session.sync + w.session.editor + w.drafts)
    case Accepted(_, ops, _) => ops !! (w.session.sync + w.session.editor + w.drafts)
    case SyncChanged(ops) => ops !! w.drafts
    case SuggestToggled(active, _, _) => !active ==> w.session.mode.Suggest?
    case Discarded(_) => w.session.mode.Suggest?
    case _ => true
  }

  function Step(s: Session, e: Event): Session {
    match e
    case Edit(ops, waits) => ApplyToEditor(s, ops, waits, Other)
    case SyncChanged(ops) => ApplyToSync(s, ops, Other)
    case SuggestToggled(active, current, submit) => ToggleSuggest(s, active, current, submit)
    case Submitted(note, current, next) => SubmitNote(s, note, current, next)
    case Discarded(current) => DiscardDraft(s, current)
    case ThreadOpened(t, pending, baseline, current, found, ops) => OpenThread(s, t, pending, baseline, current, found, ops)
    case ThreadClosed(baseline) => CloseThread(s, baseline)
    case ThreadVanished => Vanish(s)
    case ThreadDeleted(baseline) => DeleteThread(s, baseline)
    case Accepted(baseline, ops, rebased) => Accept(s, baseline, ops, rebased)
    case ListToggled(open, baseline) =>
      if open then ActivateMode(s, Comments, baseline).(listOpen := true)
      else MaybeExitComments(s.(listOpen := false))
    case BlameToggled(active, baseline) =>
      if active then ActivateMode(s, Blame, baseline)
      else if s.mode.Blame? then s.(mode := NoMode) else s
  }

  /** The editor operations this event makes that are kept off the sync document: behind the closed
      gate, or waiting for others that are. */
  function Drafted(s: Session, e: Event): set<Op> {
    match e
    case Edit(ops, waits) => if !s.outboundOpen then ops else if s.editor <= s.sync then {} else ops * waits
    case ThreadOpened(_, _, _, _, _, ops) => ops * Step(s, e).editor
    case _ => {}
  }

  ghost function Next(w: World, e: Event): World {
    if Possible(w, e) then World(Step(w.session, e), w.drafts + Drafted(w.session, e)) else w
  }

  ghost function Run(w: World, es: seq<Event>): World
    decreases |es|
  {
    if es == [] then w else Next(Run(w, es[..|es| - 1]), es[|es| - 1])
  }

  // ---- what the two documents hold

  lemma ResetMeans(s: Session)
    ensures ResetEditorDoc(s) == s.(editor := s.sync, inboundOpen := true, outboundOpen := true)
  {
    assert {} + s.sync == s.sync;
  }

  lemma {:induction false} EditMeans(s: Session, ops: set<Op>, waits: set<Op>)
    requires ops !! s.editor
    ensures ApplyToEditor(s, ops, waits, Other)
         == s.(editor := s.editor + ops,
               sync := if !s.outboundOpen then s.sync
                       else if s.editor <= s.sync then s.sync + ops
                       else s.sync + (ops - waits))
  {
    assert s.editor + ops - ops == s.editor;
  }

  lemma PreviewMeans(s: Session, thread: ThreadId, ops: set<Op>)
    ensures StartPreview(s, thread, true, ops)
         == s.(editor := s.editor + ops, outboundOpen := false, previewing := Some(thread))
  {
  }

  lemma {:induction false} SyncChangeMeans(s: Session, ops: set<Op>)
    ensures ApplyToSync(s, ops, Other)
         == s.(sync := s.sync + ops, editor := if s.inboundOpen then s.editor + ops else s.editor)
  {
  }

  /** Drafts never reach the sync document; the editor document contains the sync document; and
      everything the editor document has beyond it is a draft. */
  ghost predicate Confined(w: World) {
    && w.drafts !! w.session.sync
    && w.session.sync <= w.session.editor
    && w.session.editor - w.session.sync <= w.drafts
    && w.session.inboundOpen
  }

  /** A step that makes no operations: the sync document stays, the editor document stays or is reset. */
  ghost predicate Quiet(s: Session, t: Session) {
    && t.sync == s.sync
    && ((t.editor == s.editor && t.inboundOpen == s.inboundOpen) || (t.editor == s.sync && t.inboundOpen))
  }

  lemma QuietDiscard(s: Session)
    ensures Quiet(s, Discard(s))
  {
    ResetMeans(s);
  }

  lemma QuietCommit(s: Session, note: Option<string>, current: string)
    ensures Quiet(s, Commit(s, note, current).0)
  {
    ResetMeans(s);
  }

  lemma QuietEndPreview(s: Session, baseline: string)
    ensures Quiet(s, EndPreview(s, baseline))
  {
    ResetMeans(s);
  }

  lemma QuietActivate(s: Session, m: Mode, baseline: string)
    ensures Quiet(s, ActivateMode(s, m, baseline))
  {
    QuietDiscard(s.(mode := m));
    QuietEndPreview(s.(mode := m, threadOpen := false, listOpen := false), baseline);
  }

  lemma QuietClose(s: Session, baseline: string)
    ensures Quiet(s, CloseThread(s, baseline))
  {
    QuietEndPreview(s, baseline);
  }

  lemma QuietSuggest(s: Session, active: bool, current: string, submit: bool)
    ensures Quiet(s, ToggleSuggest(s, active, current, submit))
  {
    QuietActivate(s, Suggest, current);
    QuietCommit(s, None, current);
    QuietDiscard(s);
  }

  lemma QuietSubmit(s: Session, note: Option<string>, current: string, next: string)
    ensures Quiet(s, SubmitNote(s, note, current, next))
  {
    QuietCommit(s, note, current);
  }

  lemma ConfinedQuiet(w: World, t: Session)
    requires Confined(w) && Quiet(w.session, t)
    ensures Confined(World(t, w.drafts))
  {
  }

  /** Opening a thread is quiet up to the preview it may start behind the closed gate. */
  lemma OpenThreadMeans(s: Session, e: Event) returns (q: Session)
    requires e.ThreadOpened?
    ensures Quiet(s, q)
    ensures KeptDocs(q, Step(s, e)) || KeptDocs(q.(editor := q.editor + e.ops), Step(s, e))
  {
    var a := ActivateMode(s, Comments, e.baseline);
    QuietActivate(s, Comments, e.baseline);
    QuietEndPreview(a, e.baseline);
    q := if a.previewing.Some? && a.previewing != Some(e.thread) then EndPreview(a, e.baseline) else a;
    PreviewMeans(q.(threadOpen := true), e.thread, e.ops);
  }

  ghost predicate KeptDocs(s: Session, t: Session) {
    t.sync == s.sync && t.editor == s.editor && t.inboundOpen == s.inboundOpen
  }

  lemma ConfinedOpenThread(w: World, e: Event)
    requires Confined(w) && e.ThreadOpened? && Possible(w, e)
    ensures Confined(Next(w, e))
  {
    var s := w.session;
    var q := OpenThreadMeans(s, e);
    ConfinedQuiet(w, q);
  }

  lemma ConfinedAccept(w: World, e: Event)
    requires Confined(w) && e.Accepted? && Possible(w, e)
    ensures Confined(Next(w, e))
  {
    var s := w.session;
    QuietClose(s, e.baseline);
    var t := CloseThread(s, e.baseline);
    ConfinedQuiet(w, t);
    SyncChangeMeans(t, e.ops);
  }

  lemma ConfinedNext(w: World, e: Event)
    requires Confined(w)
    ensures Confined(Next(w, e))
  {
    var s := w.session;
    match e {
      case Edit(ops, waits) => if Possible(w, e) { EditMeans(s, ops, waits); }
      case SyncChanged(ops) => SyncChangeMeans(s, ops);
      case SuggestToggled(active, current, submit) => QuietSuggest(s, active, current, submit);
      case Submitted(note, current, next) => QuietSubmit(s, note, current, next);
      case Discarded(current) => QuietDiscard(s);
      case ThreadOpened(_, _, _, _, _, _) => if Possible(w, e) { ConfinedOpenThread(w, e); }
      case ThreadClosed(baseline) => QuietClose(s, baseline);
      case ThreadVanished =>
      case ThreadDeleted(_) =>
      case Accepted(_, _, _) => if Possible(w, e) { ConfinedAccept(w, e); }
      case ListToggled(_, baseline) => QuietActivate(s, Comments, baseline);
      case BlameToggled(_, baseline) => QuietActivate(s, Blame, baseline);
    }
  }

  /** Over every run of edits, peer updates, suggestions, previews and mode changes: what was made
      behind the closed gate is never on the wire, the editor shows everything that is on the wire,
      and the two documents differ by drafts only. */
  lemma {:induction false} DraftsAreConfined(es: seq<Event>)
    ensures Confined(Run(Boot, es))
    decreases |es|
  {
    if es != [] {
      DraftsAreConfined(es[..|es| - 1]);
      ConfinedNext(Run(Boot, es[..|es| - 1]), es[|es| - 1]);
    }
  }

  // ---- leaving a draft or a preview

  /** The event submits or discards a draft, or ends a preview. */
  ghost predicate Leaves(s: Session, e: Event) {
    match e
    case SuggestToggled(active, current, _) =>
      if active then s.mode.Comments? && s.previewing.Some? else HasPendingChanges(s, current)
    case Submitted(_, current, _) => HasPendingChanges(s, current)
    case Discarded(_) => s.enabled
    case ThreadOpened(thread, _, _, _, _, _) =>
      (s.enabled && s.mode.Suggest?) || (s.previewing.Some? && s.previewing != Some(thread))
    case ThreadClosed(_) => s.previewing.Some?
    case Accepted(_, _, _) => s.previewing.Some?
    case ListToggled(open, _) => open && s.enabled && s.mode.Suggest?
    case BlameToggled(active, _) =>
      active && ((s.enabled && s.mode.Suggest?) || (s.previewing.Some? && s.mode.Comments?))
    case _ => false
  }

  /** What the event itself puts on the sync document: an accepted suggestion. */
  function Accepting(e: Event): set<Op> {
    if e.Accepted? then e.ops else {}
  }

  /** What it goes on to show in the editor alone: the preview of the thread it opens. */
  function Previewing(s: Session, e: Event): set<Op> {
    if e.ThreadOpened? && e.pending && e.anchorFound && s.previewing != Some(e.thread) then e.ops else {}
  }

  lemma LeavingSuggest(s: Session, m: Mode, baseline: string)
    requires s.enabled && s.mode.Suggest? && m != Suggest
    ensures var t := ActivateMode(s, m, baseline); t.editor == t.sync == s.sync && t.previewing == s.previewing
  {
    ResetMeans(s.(mode := m));
  }

  lemma ActivateComments(s: Session, baseline: string)
    ensures var a := ActivateMode(s, Comments, baseline);
      && a.mode.Comments? && a.previewing == s.previewing && a.sync == s.sync
      && (s.enabled && s.mode.Suggest? ==> a.editor == a.sync)
  {
    if s.enabled && s.mode.Suggest? {
      LeavingSuggest(s, Comments, baseline);
    }
  }

  lemma ShowThreadSynchronizes(a: Session, e: Event)
    requires e.ThreadOpened? && a.mode.Comments?
    requires a.editor == a.sync || (a.previewing.Some? && a.previewing != Some(e.thread))
    ensures var t := ShowThread(a, e.thread, e.pending, e.baseline, e.current, e.anchorFound, e.ops);
      t.sync == a.sync && t.editor == a.sync + Previewing(a, e)
  {
    ResetMeans(a);
    var b := (if a.previewing.Some? && a.previewing != Some(e.thread) then EndPreview(a, e.baseline) else a).(threadOpen := true);
    PreviewMeans(b, e.thread, e.ops);
    assert a.sync + {} == a.sync;
  }

  lemma LeavingByThread(s: Session, e: Event)
    requires e.ThreadOpened? && Leaves(s, e)
    ensures Step(s, e).sync == s.sync && Step(s, e).editor == s.sync + Previewing(s, e)
  {
    var a := ActivateMode(s, Comments, e.baseline);
    ActivateComments(s, e.baseline);
    ShowThreadSynchronizes(a, e);
  }

  lemma LeavingByToggle(s: Session, e: Event)
    requires e.SuggestToggled? && Leaves(s, e)
    ensures Step(s, e).editor == Step(s, e).sync == s.sync
  {
    ResetMeans(if e.active then s.(mode := Suggest, threadOpen := false, listOpen := false) else s);
  }

  lemma LeavingByAccept(s: Session, e: Event)
    requires e.Accepted? && Leaves(s, e)
    ensures Step(s, e).editor == Step(s, e).sync == s.sync + e.ops
  {
    ResetMeans(s);
    SyncChangeMeans(CloseThread(s, e.baseline), e.ops);
  }

  lemma LeavingByBlame(s: Session, e: Event)
    requires e.BlameToggled? && Leaves(s, e)
    ensures Step(s, e).editor == Step(s, e).sync == s.sync
  {
    if s.mode.Suggest? {
      LeavingSuggest(s, Blame, e.baseline);
    } else {
      ResetMeans(s.(mode := Blame, threadOpen := false, listOpen := false));
    }
  }

  /** After a commit, a discard or the end of a preview the editor shows exactly the sync document,
      apart from a preview that the same event starts. */
  lemma LeavingSynchronizes(s: Session, e: Event)
    requires Leaves(s, e)
    ensures Step(s, e).sync == s.sync + Accepting(e)
    ensures Step(s, e).editor == Step(s, e).sync + Previewing(s, e)
  {
    assert s.sync + {} == s.sync;
    match e {
      case SuggestToggled(_, _, _) => LeavingByToggle(s, e);
      case ThreadOpened(_, _, _, _, _, _) => LeavingByThread(s, e);
      case Accepted(_, ops, _) => LeavingByAccept(s, e);
      case ListToggled(_, baseline) => LeavingSuggest(s, Comments, baseline);
      case BlameToggled(_, _) => LeavingByBlame(s, e);
      case _ => ResetMeans(s);
    }
  }

  lemma ActivateKeeps(s: Session, m: Mode, baseline: string)
    requires s.mode == m || !((s.enabled && s.mode.Suggest?) || (s.previewing.Some? && s.mode.Comments?))
    ensures ActivateMode(s, m, baseline).editor == s.editor && ActivateMode(s, m, baseline).previewing == s.previewing
  {
  }

  lemma OpenThreadKeeps(s: Session, e: Event)
    requires e.ThreadOpened? && !Leaves(s, e)
    ensures s.editor <= Step(s, e).editor
  {
    ActivateKeeps(s, Comments, e.baseline);
    PreviewMeans(ActivateMode(s, Comments, e.baseline).(threadOpen := true), e.thread, e.ops);
  }

  lemma AcceptKeeps(s: Session, e: Event)
    requires e.Accepted? && !Leaves(s, e)
    ensures s.editor <= Step(s, e).editor
  {
    SyncChangeMeans(CloseThread(s, e.baseline), e.ops);
  }

  /** No other event takes anything out of the editor. */
  lemma OnlyLeavingDiscards(s: Session, e: Event)
    requires !Leaves(s, e)
    ensures s.editor <= Step(s, e).editor
  {
    match e {
      case SyncChanged(ops) => SyncChangeMeans(s, ops);
      case SuggestToggled(active, current, _) => if active && s.mode != Suggest { ActivateKeeps(s, Suggest, current); }
      case ThreadOpened(_, _, _, _, _, _) => OpenThreadKeeps(s, e);
      case Accepted(_, _, _) => AcceptKeeps(s, e);
      case ListToggled(open, baseline) => if open { ActivateKeeps(s, Comments, baseline); }
      case BlameToggled(active, baseline) => if active { ActivateKeeps(s, Blame, baseline); }
      case _ =>
    }
  }
}
