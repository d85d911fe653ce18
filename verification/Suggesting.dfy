/** What a user's suggestions say: which text each one starts from, which text it leads to, and that
    exactly the submitted drafts are sent. */
module Suggesting {
  import opened Options
  import opened Splice
  import opened EditorSession
  import opened SessionGate

  // ---- one commit

  /** A commit succeeds exactly when Suggest Mode is on and the text differs from the baseline. Its
      payload then describes how the baseline became the current text, and the editor is back to what
      is on the wire, with the gate open; otherwise nothing changes. */
  lemma CommitMeans(s: Session, note: Option<string>, current: string)
    ensures var (t, result) := Commit(s, note, current);
      if s.enabled && current != s.textAtEnable
      then && result.Built? && Describes(result.payload, s.textAtEnable, current, note)
           && t == s.(editor := s.sync, inboundOpen := true, outboundOpen := true, enabled := false, textAtEnable := "")
      else t == s && result == if s.enabled then NoPendingChanges else NotActive
  {
    if s.enabled && current != s.textAtEnable {
      BuildThenAccept(s.textAtEnable, current, note);
      ResetMeans(s);
    }
  }

  /** A preview ends with the editor back to what is on the wire. In Suggest Mode the user then suggests from
      the text shown, behind the closed gate; otherwise the gate is open. */
  lemma EndPreviewMeans(s: Session, baseline: string)
    requires s.previewing.Some?
    ensures var r := s.(editor := s.sync, inboundOpen := true, previewing := None);
      EndPreview(s, baseline) ==
        if s.mode.Suggest? then r.(enabled := true, textAtEnable := baseline, outboundOpen := false)
        else r.(outboundOpen := true)
  {
    ResetMeans(s);
  }

  // ---- what an event sends

  datatype Draft = Draft(note: Option<string>, text: string)

  /** The event asks to submit, with this note and this editor text. */
  function Asked(e: Event): Option<Draft> {
    match e
    case SuggestToggled(active, current, submit) => if !active && submit then Some(Draft(None, current)) else None
    case Submitted(note, current, _) => Some(Draft(note, current))
    case _ => None
  }

  predicate Submits(s: Session, e: Event) {
    Asked(e).Some? && s.enabled && Asked(e).value.text != s.textAtEnable
  }

  lemma QuietlySent(s: Session, m: Mode, baseline: string)
    ensures ActivateMode(s, m, baseline).sent == s.sent && CloseThread(s, baseline).sent == s.sent
  {
    ResetMeans(s);
    ResetMeans(s.(mode := m));
    ResetMeans(s.(mode := m, threadOpen := false, listOpen := false));
  }

  lemma OpeningSendsNothing(s: Session, e: Event)
    requires e.ThreadOpened?
    ensures Step(s, e).sent == s.sent
  {
    QuietlySent(s, Comments, e.baseline);
    var a := ActivateMode(s, Comments, e.baseline);
    ResetMeans(a);
    var b := (if a.previewing.Some? && a.previewing != Some(e.thread) then EndPreview(a, e.baseline) else a).(threadOpen := true);
    assert b.sent == s.sent;
    PreviewMeans(b, e.thread, e.ops);
  }

  lemma AcceptingSendsNothing(s: Session, e: Event)
    requires e.Accepted?
    ensures Step(s, e).sent == s.sent
  {
    QuietlySent(s, Comments, e.baseline);
    SyncChangeMeans(CloseThread(s, e.baseline), e.ops);
  }

  lemma TogglingSendsNothing(s: Session, e: Event)
    requires e.SuggestToggled? && !Submits(s, e)
    ensures Step(s, e).sent == s.sent
  {
    QuietlySent(s, Suggest, e.current);
    ResetMeans(s);
  }

  lemma NothingSent(s: Session, e: Event)
    requires !Submits(s, e)
    ensures Step(s, e).sent == s.sent
  {
    match e {
      case SuggestToggled(_, _, _) => TogglingSendsNothing(s, e);
      case Discarded(_) => ResetMeans(s);
      case ThreadOpened(_, _, _, _, _, _) => OpeningSendsNothing(s, e);
      case ThreadClosed(baseline) => QuietlySent(s, Comments, baseline);
      case Accepted(_, _, _) => AcceptingSendsNothing(s, e);
      case ListToggled(_, baseline) => QuietlySent(s, Comments, baseline);
      case BlameToggled(_, baseline) => QuietlySent(s, Blame, baseline);
      case _ =>
    }
  }

  lemma PendingIsSent(s: Session, note: Option<string>, current: string) returns (p: Suggestion)
    requires s.enabled && current != s.textAtEnable
    ensures CommitPending(s, note, current).sent == s.sent + [p] && Describes(p, s.textAtEnable, current, note)
  {
    CommitMeans(s, note, current);
    p := Commit(s, note, current).1.payload;
  }

  /** An event that submits a draft sends one suggestion, which leads from the baseline to the submitted
      text and carries its note. */
  lemma OneSent(s: Session, e: Event) returns (p: Suggestion)
    requires Submits(s, e)
    ensures Step(s, e).sent == s.sent + [p]
    ensures Describes(p, s.textAtEnable, Asked(e).value.text, Asked(e).value.note)
  {
    var d := Asked(e).value;
    p := PendingIsSent(s, d.note, d.text);
    var t := CommitPending(s, d.note, d.text);
    if e.SuggestToggled? {
      assert Step(s, e) == t.(mode := NoMode);
    } else {
      assert Step(s, e) == if t.mode.Suggest? then Enable(t, e.next) else t;
    }
  }

  // ---- the baseline

  /** Whether the user suggests after the event. */
  predicate Suggests(s: Session, e: Event) {
    match e
    case SuggestToggled(active, _, _) => active
    case Submitted(_, _, _) => s.mode.Suggest?
    case Discarded(_) => true
    case ThreadOpened(_, _, _, _, _, _) => false
    case ListToggled(open, _) => s.enabled && !open
    case BlameToggled(active, _) => s.enabled && !active
    case _ => s.enabled
  }

  /** The text that later drafts are then compared with. */
  function BaselineAfter(s: Session, e: Event): string {
    match e
    case SuggestToggled(_, current, _) => if s.enabled then s.textAtEnable else current
    case Submitted(_, current, next) => if s.enabled && current == s.textAtEnable then s.textAtEnable else next
    case Discarded(current) => current
    case Accepted(_, _, rebased) => rebased
    case _ => s.textAtEnable
  }

  lemma BaselineByOpening(s: Session, e: Event)
    requires GateExact(s) && e.ThreadOpened?
    ensures !Step(s, e).enabled
  {
    GateOpenThread(s, e);
    GateActivate(s, Comments, e.baseline);
    var a := ActivateMode(s, Comments, e.baseline);
    ResetMeans(a);
    var b := (if a.previewing.Some? && a.previewing != Some(e.thread) then EndPreview(a, e.baseline) else a).(threadOpen := true);
    PreviewMeans(b, e.thread, e.ops);
  }

  lemma BaselineByAccepting(s: Session, e: Event)
    requires GateExact(s) && e.Accepted?
    ensures Step(s, e).enabled <==> s.enabled
    ensures s.enabled ==> Step(s, e).textAtEnable == e.rebased
  {
    ResetMeans(s);
    SyncChangeMeans(CloseThread(s, e.baseline), e.ops);
  }

  lemma BaselineByToggling(s: Session, e: Event)
    requires GateExact(s) && e.SuggestToggled?
    ensures Step(s, e).enabled <==> e.active
    ensures e.active ==> Step(s, e).textAtEnable == BaselineAfter(s, e)
  {
    ResetMeans(s);
    CommitMeans(s, None, e.current);
    if s.mode.Comments? {
      ResetMeans(s.(mode := Suggest, threadOpen := false, listOpen := false));
    }
  }

  /** While the flags are in step: who suggests after an event, and from which text. Submitting and
      discarding go on from the text shown afterwards, accepting moves the baseline along. */
  lemma BaselineStep(w: World, e: Event)
    requires GateExact(w.session) && Possible(w, e)
    ensures Next(w, e).session.enabled <==> Suggests(w.session, e)
    ensures Suggests(w.session, e) ==> Next(w, e).session.textAtEnable == BaselineAfter(w.session, e)
  {
    var s := w.session;
    match e {
      case Edit(ops, waits) => EditMeans(s, ops, waits);
      case SyncChanged(ops) => SyncChangeMeans(s, ops);
      case SuggestToggled(_, _, _) => BaselineByToggling(s, e);
      case Submitted(note, current, _) => CommitMeans(s, note, current);
      case Discarded(_) => ResetMeans(s);
      case ThreadOpened(_, _, _, _, _, _) => BaselineByOpening(s, e);
      case ThreadClosed(baseline) => ResetMeans(s);
      case Accepted(_, _, _) => BaselineByAccepting(s, e);
      case ListToggled(_, baseline) => GateActivate(s, Comments, baseline);
      case BlameToggled(_, baseline) => GateActivate(s, Blame, baseline);
      case _ =>
    }
  }

  // ---- runs

  ghost predicate SubmitsLast(es: seq<Event>)
    requires es != []
  {
    var w := Run(Boot, es[..|es| - 1]);
    Possible(w, es[|es| - 1]) && Submits(w.session, es[|es| - 1])
  }

  /** Where in a run drafts are submitted. */
  ghost function Submissions(es: seq<Event>): (at: seq<nat>)
    ensures forall k :: 0 <= k < |at| ==> at[k] < |es|
    decreases |es|
  {
    if es == [] then []
    else Submissions(es[..|es| - 1]) + if SubmitsLast(es) then [(|es| - 1) as nat] else []
  }

  /** The suggestion is what the user submitted at event `i`: it leads from the baseline they had
      then to the text they had then. */
  ghost predicate SubmittedAt(p: Suggestion, es: seq<Event>, i: nat) {
    && i < |es| && Asked(es[i]).Some?
    && Describes(p, Run(Boot, es[..i]).session.textAtEnable, Asked(es[i]).value.text, Asked(es[i]).value.note)
  }

  ghost predicate AllSubmitted(sent: seq<Suggestion>, es: seq<Event>, at: seq<nat>) {
    |sent| == |at| && forall k :: 0 <= k < |at| ==> SubmittedAt(sent[k], es, at[k])
  }

  lemma SubmittedExtends(sent: seq<Suggestion>, es: seq<Event>, at: seq<nat>)
    requires es != [] && AllSubmitted(sent, es[..|es| - 1], at)
    ensures AllSubmitted(sent, es, at)
  {
    forall k | 0 <= k < |at| ensures SubmittedAt(sent[k], es, at[k]) {
      assert SubmittedAt(sent[k], es[..|es| - 1], at[k]);
      assert es[..|es| - 1][..at[k]] == es[..at[k]];
    }
  }

  lemma SentByLast(es: seq<Event>) returns (more: seq<Suggestion>)
    requires es != []
    ensures Run(Boot, es).session.sent == Run(Boot, es[..|es| - 1]).session.sent + more
    ensures AllSubmitted(more, es, if SubmitsLast(es) then [(|es| - 1) as nat] else [])
  {
    var w, e := Run(Boot, es[..|es| - 1]), es[|es| - 1];
    more := [];
    if SubmitsLast(es) {
      var p := OneSent(w.session, e);
      assert SubmittedAt(p, es, |es| - 1);
      more := [p];
    } else if Possible(w, e) {
      NothingSent(w.session, e);
    }
  }

  lemma AllSubmittedJoins(sent: seq<Suggestion>, more: seq<Suggestion>, es: seq<Event>, at: seq<nat>, next: seq<nat>)
    requires AllSubmitted(sent, es, at) && AllSubmitted(more, es, next)
    ensures AllSubmitted(sent + more, es, at + next)
  {
  }

  /** Over every run: the comment engine was handed exactly one suggestion per submitted draft, in order,
      and each one says what the user did between the baseline and the submission. */
  lemma {:induction false} SentAreTheDrafts(es: seq<Event>)
    ensures AllSubmitted(Run(Boot, es).session.sent, es, Submissions(es))
    decreases |es|
  {
    if es != [] {
      var before := es[..|es| - 1];
      SentAreTheDrafts(before);
      SubmittedExtends(Run(Boot, before).session.sent, es, Submissions(before));
      var more := SentByLast(es);
      AllSubmittedJoins(Run(Boot, before).session.sent, more, es, Submissions(before),
                        if SubmitsLast(es) then [(|es| - 1) as nat] else []);
    }
  }

  // ---- the wire

  /** What the event puts on the sync document. */
  function Wired(s: Session, e: Event): set<Op> {
    match e
    case SyncChanged(ops) => ops
    case Accepted(_, ops, _) => ops
    case Edit(ops, waits) => if !s.outboundOpen then {} else if s.editor <= s.sync then ops else ops - waits
    case _ => {}
  }

  /** An accepted suggestion reaches the wire in every state, a peer's update too, a local edit as far as
      the gate lets it, and nothing else does. */
  lemma WireStep(w: World, e: Event)
    requires Possible(w, e)
    ensures Next(w, e).session.sync == w.session.sync + Wired(w.session, e)
  {
    var s := w.session;
    assert s.sync + {} == s.sync;
    match e {
      case Edit(ops, waits) => EditMeans(s, ops, waits);
      case SyncChanged(ops) => SyncChangeMeans(s, ops);
      case SuggestToggled(active, current, submit) => QuietSuggest(s, active, current, submit);
      case Submitted(note, current, next) => QuietSubmit(s, note, current, next);
      case Discarded(_) => QuietDiscard(s);
      case ThreadOpened(_, _, _, _, _, _) => var q := OpenThreadMeans(s, e);
      case ThreadClosed(baseline) => QuietClose(s, baseline);
      case Accepted(baseline, ops, _) =>
        QuietClose(s, baseline);
        SyncChangeMeans(CloseThread(s, baseline), ops);
      case ListToggled(_, baseline) => QuietActivate(s, Comments, baseline);
      case BlameToggled(_, baseline) => QuietActivate(s, Blame, baseline);
      case _ =>
    }
  }
}
