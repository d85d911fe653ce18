/** The prefix/suffix splice: how a suggestion is cut out of an edited text, accepted into a
    shared text, and how the text binding writes an edit. */
module Splice {
  import opened Bits
  import opened Options

  datatype Anchor = Anchor(start: nat, end: nat, quoted: string)

  datatype OperationSummary =
    | Insert(offset: nat, inserted: string)
    | Delete(offset: nat, length: nat)
    | Replace(offset: nat, length: nat, inserted: string)

  datatype Suggestion = Suggestion(anchor: Anchor, beforeText: string, afterText: string,
                                   operations: seq<OperationSummary>, note: Option<string>)

  datatype BuildResult = Built(payload: Suggestion) | NotActive | NoPendingChanges

  /** One primitive edit of a Y.Text. */
  datatype Edit = Del(index: nat, length: nat) | Ins(index: nat, text: string)

  function Spliced(t: string, s: nat, e: nat, sub: string): string
    requires s <= e <= |t|
  {
    t[..s] + sub + t[e..]
  }

  // ---- the enclosing range of a change

  /** Counts on from `k` while the characters agree. */
  function PrefixFrom(a: string, b: string, k: nat): (p: nat)
    requires k <= |a| && k <= |b|
    ensures k <= p <= |a| && p <= |b|
    ensures forall i :: k <= i < p ==> a[i] == b[i]
    ensures p < |a| && p < |b| ==> a[p] != b[p]
    decreases |a| - k
  {
    if k < |a| && k < |b| && a[k] == b[k] then PrefixFrom(a, b, k + 1) else k
  }

  function PrefixLen(a: string, b: string): (p: nat)
    ensures p <= |a| && p <= |b| && a[..p] == b[..p]
    ensures p < |a| && p < |b| ==> a[p] != b[p]
  {
    PrefixFrom(a, b, 0)
  }

  /** Character `i` counted from the end. */
  function FromEnd(t: string, i: nat): char
    requires i < |t|
  {
    t[|t| - 1 - i]
  }

  /** The same count from the end, up to a bound. */
  function SuffixFrom(a: string, b: string, bound: nat, k: nat): (q: nat)
    requires k <= bound <= |a| && bound <= |b|
    ensures k <= q <= bound
    ensures forall i :: k <= i < q ==> FromEnd(a, i) == FromEnd(b, i)
    ensures q < bound ==> FromEnd(a, q) != FromEnd(b, q)
    decreases bound - k
  {
    if k < bound && FromEnd(a, k) == FromEnd(b, k) then SuffixFrom(a, b, bound, k + 1) else k
  }

  lemma SuffixesAgree(a: string, b: string, q: nat)
    requires q <= |a| && q <= |b| && forall i :: 0 <= i < q ==> FromEnd(a, i) == FromEnd(b, i)
    ensures a[|a| - q..] == b[|b| - q..]
  {
    var x, y := a[|a| - q..], b[|b| - q..];
    forall j | 0 <= j < q
      ensures x[j] == y[j]
    {
      assert FromEnd(a, q - 1 - j) == FromEnd(b, q - 1 - j);
    }
  }

  function SuffixLen(a: string, b: string, bound: nat): (q: nat)
    requires bound <= |a| && bound <= |b|
    ensures q <= bound && a[|a| - q..] == b[|b| - q..]
    ensures q < bound ==> FromEnd(a, q) != FromEnd(b, q)
  {
    var q := SuffixFrom(a, b, bound, 0);
    SuffixesAgree(a, b, q);
    q
  }

  function AnchorOf(base: string, after: string): Anchor {
    var p := PrefixLen(base, after);
    var q := SuffixLen(base, after, Min(|base|, |after|) - p);
    Anchor(p, |base| - q, base[p..|base| - q])
  }

  /** The part of the edited text that stands where the anchored range was. */
  function Replacement(base: string, after: string): (r: string)
    ensures |r| == |after| - |base| + AnchorOf(base, after).end - AnchorOf(base, after).start
  {
    var a := AnchorOf(base, after);
    after[a.start..a.end + |after| - |base|]
  }

  /** Putting the replacement into the anchored range gives the edited text. */
  lemma AnchorEnclosesChange(base: string, after: string)
    ensures AnchorOf(base, after).start <= AnchorOf(base, after).end <= |base|
    ensures Spliced(base, AnchorOf(base, after).start, AnchorOf(base, after).end, Replacement(base, after)) == after
  {
    var a := AnchorOf(base, after);
    assert after == after[..a.start] + Replacement(base, after) + after[a.end + |after| - |base|..];
  }

  lemma PrefixIsLongest(a: string, b: string, s: nat)
    requires s <= |a| && s <= |b| && forall k :: 0 <= k < s ==> a[k] == b[k]
    ensures s <= PrefixLen(a, b)
  {
  }

  /** Any splice that produces the edited text shares a prefix with it ... */
  lemma SpliceKeepsPrefix(base: string, s: nat, e: nat, sub: string)
    requires s <= e <= |base|
    ensures s <= PrefixLen(base, Spliced(base, s, e, sub))
  {
    PrefixIsLongest(base, Spliced(base, s, e, sub), s);
  }

  lemma SuffixIsLongest(a: string, b: string, bound: nat, n: nat)
    requires n <= bound <= |a| && bound <= |b| && forall i :: 0 <= i < n ==> FromEnd(a, i) == FromEnd(b, i)
    ensures n <= SuffixLen(a, b, bound)
  {
  }

  /** ... and a suffix, up to the bound the search has left. */
  lemma SpliceKeepsSuffix(base: string, s: nat, e: nat, sub: string, bound: nat)
    requires s <= e <= |base| && bound <= Min(|base|, |Spliced(base, s, e, sub)|)
    ensures Min(bound, |base| - e) <= SuffixLen(base, Spliced(base, s, e, sub), bound)
  {
    SuffixIsLongest(base, Spliced(base, s, e, sub), bound, Min(bound, |base| - e));
  }

  /** No splice that turns the base into the edited text replaces a shorter range. */
  lemma AnchorIsTightest(base: string, s: nat, e: nat, sub: string)
    requires s <= e <= |base|
    ensures var a := AnchorOf(base, Spliced(base, s, e, sub)); a.end - a.start <= e - s
  {
    var after := Spliced(base, s, e, sub);
    SpliceKeepsPrefix(base, s, e, sub);
    SpliceKeepsSuffix(base, s, e, sub, Min(|base|, |after|) - PrefixLen(base, after));
  }

  method CountPrefix(base: string, after: string) returns (prefix: nat)
    ensures prefix == PrefixLen(base, after)
  {
    prefix := 0;
    while prefix < Min(|base|, |after|) && base[prefix] == after[prefix]
      invariant prefix <= Min(|base|, |after|)
      invariant PrefixFrom(base, after, 0) == PrefixFrom(base, after, prefix)
    {
      prefix := prefix + 1;
    }
  }

  method CountSuffix(base: string, after: string, bound: nat) returns (suffix: nat)
    requires bound <= Min(|base|, |after|)
    ensures suffix == SuffixLen(base, after, bound)
  {
    suffix := 0;
    while suffix < bound && FromEnd(base, suffix) == FromEnd(after, suffix)
      invariant suffix <= bound
      invariant SuffixFrom(base, after, bound, 0) == SuffixFrom(base, after, bound, suffix)
    {
      suffix := suffix + 1;
    }
  }

  lemma AnchorFromCounts(base: string, after: string, prefix: nat, suffix: nat)
    requires prefix == PrefixLen(base, after)
    requires suffix == SuffixLen(base, after, Min(|base|, |after|) - prefix)
    ensures prefix + suffix <= |base| && prefix + suffix <= |after|
    ensures AnchorOf(base, after) == Anchor(prefix, |base| - suffix, base[prefix..|base| - suffix])
  {
  }

  method ComputeAnchor(base: string, after: string) returns (a: Anchor)
    ensures a == AnchorOf(base, after)
  {
    var prefix := CountPrefix(base, after);
    var suffix := CountSuffix(base, after, Min(|base|, |after|) - prefix);
    AnchorFromCounts(base, after, prefix, suffix);
    var end := if prefix > |base| - suffix then prefix else |base| - suffix;
    a := Anchor(prefix, end, base[prefix..end]);
  }

  // ---- building a suggestion

  function Summaries(base: string, after: string): seq<OperationSummary> {
    var a := AnchorOf(base, after);
    var before, inserted := base[a.start..a.end], Replacement(base, after);
    if before == inserted then []
    else if |before| == 0 && |inserted| > 0 then [Insert(a.start, inserted)]
    else if |before| > 0 && |inserted| == 0 then [Delete(a.start, |before|)]
    else [Replace(a.start, |before|, inserted)]
  }

  function BuildSuggestion(enabled: bool, textAtEnable: string, note: Option<string>, current: string): BuildResult {
    if !enabled then NotActive
    else if current == textAtEnable then NoPendingChanges
    else
      var a := AnchorOf(textAtEnable, current);
      Built(Suggestion(a, textAtEnable[a.start..a.end], Replacement(textAtEnable, current),
                       Summaries(textAtEnable, current),
                       if note.Some? && |note.value| > 0 then note else None))
  }

  /** Offset, replaced length and new text. */
  function Meaning(op: OperationSummary): (nat, nat, string) {
    match op
    case Insert(o, s) => (o, 0, s)
    case Delete(o, n) => (o, n, "")
    case Replace(o, n, s) => (o, n, s)
  }

  /** Replays an operation summary; a summary that does not fit the text has no meaning. */
  function Replay(t: string, ops: seq<OperationSummary>): Option<string>
    decreases |ops|
  {
    if ops == [] then Some(t)
    else
      var (at, len, sub) := Meaning(ops[0]);
      if at + len > |t| then None else Replay(Spliced(t, at, at + len, sub), ops[1..])
  }

  lemma {:induction false} ReplayOne(t: string, op: OperationSummary)
    ensures Replay(t, [op]) ==
      var (at, len, sub) := Meaning(op);
      if at + len > |t| then None else Some(Spliced(t, at, at + len, sub))
  {
    assert [op][1..] == [];
  }

  /** There is a summary exactly if the anchored range reads differently afterwards, and then it is one
      operation on that range. */
  lemma SummaryMeans(base: string, after: string)
    ensures var a, ops := AnchorOf(base, after), Summaries(base, after);
      if base[a.start..a.end] == Replacement(base, after) then ops == []
      else |ops| == 1 && Meaning(ops[0]) == (a.start, a.end - a.start, Replacement(base, after))
  {
  }

  /** What happened: text was only put in, only taken out, or both. */
  ghost predicate OnlyInserts(base: string, after: string) {
    exists s: nat, sub: string :: s <= |base| && after == Spliced(base, s, s, sub)
  }

  ghost predicate OnlyDeletes(base: string, after: string) {
    exists s: nat, e: nat :: s <= e <= |base| && after == Spliced(base, s, e, "")
  }

  lemma OnlyInsertsIff(base: string, after: string)
    ensures OnlyInserts(base, after) <==> AnchorOf(base, after).start == AnchorOf(base, after).end
  {
    var a := AnchorOf(base, after);
    AnchorEnclosesChange(base, after);
    if OnlyInserts(base, after) {
      var s: nat, sub: string :| s <= |base| && after == Spliced(base, s, s, sub);
      AnchorIsTightest(base, s, s, sub);
    }
    if a.start == a.end {
      assert after == Spliced(base, a.start, a.start, Replacement(base, after));
    }
  }

  lemma OnlyDeletesIff(base: string, after: string)
    ensures OnlyDeletes(base, after) <==> Replacement(base, after) == ""
  {
    var a := AnchorOf(base, after);
    AnchorEnclosesChange(base, after);
    if OnlyDeletes(base, after) {
      var s: nat, e: nat :| s <= e <= |base| && after == Spliced(base, s, e, "");
      AnchorIsTightest(base, s, e, "");
    }
    if Replacement(base, after) == "" {
      assert after == Spliced(base, a.start, a.end, "");
    }
  }

  /** The summary says which: an insertion exactly if some insertion alone makes the edited text, a
      deletion exactly if some deletion alone does, and a replacement otherwise. */
  lemma SummaryNamesTheKind(base: string, after: string)
    requires base != after
    ensures |Summaries(base, after)| == 1
    ensures Summaries(base, after)[0].Insert? <==> OnlyInserts(base, after)
    ensures Summaries(base, after)[0].Delete? <==> OnlyDeletes(base, after)
  {
    UnchangedIff(base, after);
    OnlyInsertsIff(base, after);
    OnlyDeletesIff(base, after);
  }

  lemma SpliceSelf(t: string, s: nat, e: nat)
    requires s <= e <= |t|
    ensures Spliced(t, s, e, t[s..e]) == t
  {
  }

  lemma UnchangedIff(base: string, after: string)
    ensures var a := AnchorOf(base, after); base[a.start..a.end] == Replacement(base, after) <==> base == after
  {
    var a := AnchorOf(base, after);
    AnchorEnclosesChange(base, after);
    SpliceSelf(base, a.start, a.end);
  }

  /** The summary shown with a suggestion means the whole edit. */
  lemma {:induction false} ReplayRestoresEdit(base: string, after: string)
    ensures Replay(base, Summaries(base, after)) == Some(after)
    ensures Summaries(base, after) == [] <==> base == after
  {
    UnchangedIff(base, after);
    SummaryMeans(base, after);
    var ops := Summaries(base, after);
    if ops != [] {
      assert ops == [ops[0]];
      AnchorEnclosesChange(base, after);
      ReplayOne(base, ops[0]);
    }
  }

  // ---- applying edits to a shared text

  function ApplyEdit(t: string, e: Edit): string
    requires e.Del? ==> e.index + e.length <= |t|
    requires e.Ins? ==> e.index <= |t|
  {
    match e
    case Del(i, n) => t[..i] + t[i + n..]
    case Ins(i, s) => t[..i] + s + t[i..]
  }

  /** A Y.Text with the primitive edits made on it; edits outside the text are an error in Yjs. */
  class YText {
    var text: string
    var edits: seq<Edit>

    constructor (text: string)
      ensures this.text == text && this.edits == []
    {
      this.text, this.edits := text, [];
    }

    method Apply(e: Edit)
      requires e.Del? ==> e.index + e.length <= |text|
      requires e.Ins? ==> e.index <= |text|
      modifies this
      ensures text == ApplyEdit(old(text), e)
      ensures edits == old(edits) + [e]
    {
      text := ApplyEdit(text, e);
      edits := edits + [e];
    }
  }

  /** The primitive edits that replace [s, e) by `sub`: nothing empty is deleted or inserted. */
  function RegionEdits(s: nat, e: nat, sub: string): (edits: seq<Edit>)
    requires s <= e
    ensures |edits| <= 2 && forall d :: d in edits ==> if d.Del? then d.length > 0 else d.text != ""
  {
    (if e > s then [Del(s, e - s)] else []) + (if |sub| > 0 then [Ins(s, sub)] else [])
  }

  /** Delete the range unless it is empty, then insert the text unless it is empty. */
  method ReplaceRegion(ytext: YText, from: nat, count: nat, sub: string)
    requires from + count <= |ytext.text|
    modifies ytext
    ensures ytext.text == Spliced(old(ytext.text), from, from + count, sub)
    ensures ytext.edits == old(ytext.edits) + RegionEdits(from, from + count, sub)
  {
    if count > 0 {
      ytext.Apply(Del(from, count));
    }
    if |sub| > 0 {
      ytext.Apply(Ins(from, sub));
    }
  }

  /** Applying a suggestion's text at a resolved anchor; refused when the anchor is lost or out of range. */
  method TryApplyTextSuggestion(ytext: YText, anchor: Option<(int, int)>, afterText: string) returns (ok: bool)
    modifies ytext
    ensures ok <==> anchor.Some? && 0 <= anchor.value.0 <= anchor.value.1 <= |old(ytext.text)|
    ensures !ok ==> ytext.text == old(ytext.text) && ytext.edits == old(ytext.edits)
    ensures ok ==>
      && ytext.text == Spliced(old(ytext.text), anchor.value.0, anchor.value.1, afterText)
      && ytext.edits == old(ytext.edits) +
           if old(ytext.text)[anchor.value.0..anchor.value.1] == afterText then []
           else RegionEdits(anchor.value.0, anchor.value.1, afterText)
  {
    if anchor.None? {
      return false;
    }
    var (from, to) := anchor.value;
    if from < 0 || to > |ytext.text| || from > to {
      return false;
    }
    if ytext.text[from..to] != afterText {
      ReplaceRegion(ytext, from, to - from, afterText);
    }
    ok := true;
  }

  lemma CountsGiveRegion(base: string, after: string, prefix: nat, suffix: nat)
    requires prefix == PrefixLen(base, after)
    requires suffix == SuffixLen(base, after, Min(|base|, |after|) - prefix)
    ensures prefix + suffix <= |base| && prefix <= |after| - suffix
    ensures AnchorOf(base, after).start == prefix && AnchorOf(base, after).end == |base| - suffix
    ensures Replacement(base, after) == after[prefix..|after| - suffix]
    ensures Spliced(base, prefix, |base| - suffix, after[prefix..|after| - suffix]) == after
  {
    AnchorFromCounts(base, after, prefix, suffix);
    AnchorEnclosesChange(base, after);
  }

  /** The binding's own copy of the two counting loops. */
  method ChangedRegion(oldStr: string, newStr: string) returns (prefixLen: nat, suffixLen: nat)
    ensures prefixLen == AnchorOf(oldStr, newStr).start
    ensures suffixLen == |oldStr| - AnchorOf(oldStr, newStr).end
    ensures prefixLen + suffixLen <= |oldStr| && prefixLen <= |newStr| - suffixLen
    ensures Replacement(oldStr, newStr) == newStr[prefixLen..|newStr| - suffixLen]
    ensures Spliced(oldStr, prefixLen, |oldStr| - suffixLen, Replacement(oldStr, newStr)) == newStr
  {
    prefixLen := CountPrefix(oldStr, newStr);
    suffixLen := CountSuffix(oldStr, newStr, Min(|oldStr|, |newStr|) - prefixLen);
    CountsGiveRegion(oldStr, newStr, prefixLen, suffixLen);
  }

  /** The edits with which the binding writes one text over another. */
  function BindingEdits(oldStr: string, newStr: string): seq<Edit> {
    RegionEdits(AnchorOf(oldStr, newStr).start, AnchorOf(oldStr, newStr).end, Replacement(oldStr, newStr))
  }

  /** The text binding's write: delete and insert only the changed region. */
  method ApplyStringDiff(ytext: YText, oldStr: string, newStr: string)
    requires ytext.text == oldStr
    modifies ytext
    ensures ytext.text == newStr
    ensures ytext.edits == old(ytext.edits) + BindingEdits(oldStr, newStr)
  {
    var prefixLen, suffixLen := ChangedRegion(oldStr, newStr);
    var deleteCount := |oldStr| - prefixLen - suffixLen;
    var insertEnd := if suffixLen > 0 then |newStr| - suffixLen else |newStr|;
    assert newStr[prefixLen..insertEnd] == Replacement(oldStr, newStr);
    assert prefixLen + deleteCount == AnchorOf(oldStr, newStr).end == |oldStr| - suffixLen;
    ReplaceRegion(ytext, prefixLen, deleteCount, newStr[prefixLen..insertEnd]);
  }

  // ---- round trips

  /** Building a suggestion and splicing it into the unchanged text at its own anchor gives the edited
      text; so does replaying its one operation. */
  lemma {:induction false} BuildThenAccept(textAtEnable: string, current: string, note: Option<string>)
    requires current != textAtEnable
    ensures BuildSuggestion(true, textAtEnable, note, current).Built?
    ensures var p := BuildSuggestion(true, textAtEnable, note, current).payload;
      && p.anchor.start <= p.anchor.end <= |textAtEnable|
      && Spliced(textAtEnable, p.anchor.start, p.anchor.end, p.afterText) == current
      && p.beforeText == p.anchor.quoted == textAtEnable[p.anchor.start..p.anchor.end] != p.afterText
      && Replay(textAtEnable, p.operations) == Some(current)
      && |p.operations| == 1
      && p.note == (if note == Some("") then None else note)
  {
    AnchorEnclosesChange(textAtEnable, current);
    ReplayRestoresEdit(textAtEnable, current);
  }

  /** A suggestion built from `current` is accepted on a text that has not changed: it turns into
      `current`, by the very edits with which the text binding writes it. */
  method AcceptBuilt(ytext: YText, current: string, note: Option<string>)
    requires ytext.text != current
    modifies ytext
    ensures ytext.text == current
    ensures ytext.edits == old(ytext.edits) + BindingEdits(old(ytext.text), current)
  {
    BuildThenAccept(ytext.text, current, note);
    var p := BuildSuggestion(true, ytext.text, note, current).payload;
    var ok := TryApplyTextSuggestion(ytext, Some((p.anchor.start, p.anchor.end)), p.afterText);
  }
}
