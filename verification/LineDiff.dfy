/** The line diff between two version texts. */
module LineDiff {
  import opened Lcs
  import opened Lines

  type LineNo = n: int | 1 <= n witness 1

  /** An entry of a diff; the line type is left open because nothing looks inside a line. */
  datatype DiffLine<T> =
    | Removed(content: T, oldNo: LineNo)
    | Added(content: T, newNo: LineNo)
    | Unchanged(content: T, oldNo: LineNo, newNo: LineNo)

  type Diff<T> = seq<DiffLine<T>>

  /** The empty text has no lines here (blame gives it one empty line). */
  function DiffLines(t: string): (lines: seq<string>)
    ensures Join(lines) == t && NoNewlines(lines)
    ensures lines == [] <==> t == ""
  {
    JoinSplit(t);
    if t == "" then [] else Split(t)
  }

  /** What a diff says: the old text by its removed and unchanged entries, the new text by its added
      and unchanged ones, the unchanged lines as index pairs, and the number of changed lines. */
  datatype Reading<T> = Reading(old': seq<(T, LineNo)>, new': seq<(T, LineNo)>, kept: seq<Pair>, cost: nat)

  function ReadEntry<T>(r: Reading<T>, x: DiffLine<T>): Reading<T> {
    match x
    case Removed(c, o) => r.(old' := r.old' + [(c, o)], cost := r.cost + 1)
    case Added(c, n) => r.(new' := r.new' + [(c, n)], cost := r.cost + 1)
    case Unchanged(c, o, n) =>
      Reading(r.old' + [(c, o)], r.new' + [(c, n)], r.kept + [(o - 1, n - 1)], r.cost)
  }

  /** The first `n` entries. */
  function ReadUpTo<T>(d: Diff<T>, n: nat): Reading<T>
    requires n <= |d|
  {
    if n == 0 then Reading([], [], [], 0) else ReadEntry(ReadUpTo(d, n - 1), d[n - 1])
  }

  function Read<T>(d: Diff<T>): Reading<T> {
    ReadUpTo(d, |d|)
  }

  /** The first `n` lines with their numbers. */
  function Numbered<T>(lines: seq<T>, n: nat): (r: seq<(T, LineNo)>)
    requires n <= |lines|
    ensures |r| == n && forall k :: 0 <= k < n ==> r[k] == (lines[k], k + 1)
  {
    if n == 0 then [] else Numbered(lines, n - 1) + [(lines[n - 1], n)]
  }

  /** `d` is an edit script from `old'` to `new'`, every line numbered as it stands there. An
      unchanged entry has one content, so a script keeps only equal lines. */
  ghost predicate IsScript<T>(d: Diff<T>, old': seq<T>, new': seq<T>) {
    Read(d).old' == Numbered(old', |old'|) && Read(d).new' == Numbered(new', |new'|)
  }

  /** Within a change, removed lines come before added ones. */
  ghost predicate RemovalsFirst<T>(d: Diff<T>) {
    forall k :: 0 <= k < |d| - 1 && d[k].Added? ==> !d[k + 1].Removed?
  }

  // ---- every script is bounded by the longest matching

  /** A last entry about a side is about its last line. */
  lemma LastNumbered<T>(s: seq<(T, LineNo)>, x: (T, LineNo), lines: seq<T>, n: nat)
    requires n <= |lines| && s + [x] == Numbered(lines, n)
    ensures n > 0 && s == Numbered(lines, n - 1) && x == (lines[n - 1], n)
  {
    assert |s + [x]| == n;
    var t := Numbered(lines, n - 1);
    assert s == (s + [x])[..n - 1] && t == (t + [(lines[n - 1], n)])[..n - 1];
    assert x == (s + [x])[n - 1];
  }

  /** Every line of either text is changed or kept. */
  lemma {:induction false} ReadCounts<T>(d: Diff<T>, k: nat)
    requires k <= |d|
    ensures var r := ReadUpTo(d, k); r.cost + 2 * |r.kept| == |r.old'| + |r.new'|
  {
    if k > 0 {
      ReadCounts(d, k - 1);
    }
  }

  ghost predicate ReadsTo<T>(r: Reading<T>, old': seq<T>, new': seq<T>, i: nat, j: nat) {
    i <= |old'| && j <= |new'| && r.old' == Numbered(old', i) && r.new' == Numbered(new', j)
  }

  /** Where a reading stood before its last entry, and what that entry adds to the kept lines. */
  lemma EntryKeepsMatching<T>(r: Reading<T>, x: DiffLine<T>, old': seq<T>, new': seq<T>, i: nat, j: nat)
    returns (a: nat, b: nat)
    requires ReadsTo(ReadEntry(r, x), old', new', i, j)
    ensures ReadsTo(r, old', new', a, b)
    ensures IsMatching(old', new', r.kept) && Within(r.kept, a, b) ==>
      IsMatching(old', new', ReadEntry(r, x).kept) && Within(ReadEntry(r, x).kept, i, j)
  {
    a, b := i, j;
    if !x.Added? {
      LastNumbered(r.old', (x.content, x.oldNo), old', i);
      a := i - 1;
    }
    if !x.Removed? {
      LastNumbered(r.new', (x.content, x.newNo), new', j);
      b := j - 1;
    }
    if x.Unchanged? && IsMatching(old', new', r.kept) && Within(r.kept, a, b) {
      ExtendMatching(old', new', r.kept, a, b);
    }
  }

  /** The kept lines of any script are a matching. */
  lemma {:induction false} ScriptKeepsMatching<T>(d: Diff<T>, k: nat, old': seq<T>, new': seq<T>, i: nat, j: nat)
    requires k <= |d| && ReadsTo(ReadUpTo(d, k), old', new', i, j)
    ensures IsMatching(old', new', ReadUpTo(d, k).kept) && Within(ReadUpTo(d, k).kept, i, j)
  {
    if k > 0 {
      var a, b := EntryKeepsMatching(ReadUpTo(d, k - 1), d[k - 1], old', new', i, j);
      ScriptKeepsMatching(d, k - 1, old', new', a, b);
    }
  }

  /** No script between the same lines has fewer added plus removed lines. */
  ghost predicate IsShortest<T(!new)>(d: Diff<T>, old': seq<T>, new': seq<T>) {
    forall e :: IsScript(e, old', new') ==> Read(d).cost <= Read(e).cost
  }

  /** A script that keeps a longest matching is a shortest one. */
  lemma KeepingPairsIsShortest<T(!new)>(d: Diff<T>, old': seq<T>, new': seq<T>)
    requires IsScript(d, old', new') && Read(d).kept == Pairs(old', new')
    ensures IsShortest(d, old', new')
  {
    ReadCounts(d, |d|);
    PairsAreLongestMatching(old', new');
    forall e | IsScript(e, old', new')
      ensures Read(d).cost <= Read(e).cost
    {
      ReadCounts(e, |e|);
      ScriptKeepsMatching(e, |e|, old', new', |old'|, |new'|);
    }
  }

  function Contents(side: seq<(string, LineNo)>): seq<string> {
    seq(|side|, i requires 0 <= i < |side| => side[i].0)
  }

  lemma {:induction false} NumberedContents(lines: seq<string>, n: nat)
    requires n <= |lines|
    ensures Contents(Numbered(lines, n)) == lines[..n]
  {
    if n > 0 {
      NumberedContents(lines, n - 1);
      assert Contents(Numbered(lines, n)) == Contents(Numbered(lines, n - 1)) + [lines[n - 1]];
    }
  }

  /** A script can be read back: each side, rejoined, is the text it came from. */
  lemma ScriptRestoresTexts(d: Diff<string>, oldText: string, newText: string)
    requires IsScript(d, DiffLines(oldText), DiffLines(newText))
    ensures Join(Contents(Read(d).old')) == oldText
    ensures Join(Contents(Read(d).new')) == newText
  {
    var oldLines, newLines := DiffLines(oldText), DiffLines(newText);
    NumberedContents(oldLines, |oldLines|);
    NumberedContents(newLines, |newLines|);
    assert oldLines[..|oldLines|] == oldLines && newLines[..|newLines|] == newLines;
  }

  // ---- the diff loop

  lemma {:induction false} ReadPrefix<T>(d: Diff<T>, x: DiffLine<T>, n: nat)
    requires n <= |d|
    ensures ReadUpTo(d + [x], n) == ReadUpTo(d, n)
  {
    if n > 0 {
      ReadPrefix(d, x, n - 1);
    }
  }

  lemma ReadSnoc<T>(d: Diff<T>, x: DiffLine<T>)
    ensures Read(d + [x]) == ReadEntry(Read(d), x)
  {
    ReadPrefix(d, x, |d|);
  }

  /** `d` reads as a script up to old line `oi` and new line `ni` that keeps the pairs `kept`. */
  ghost predicate Partial<T>(d: Diff<T>, old': seq<T>, new': seq<T>, oi: nat, ni: nat, kept: seq<Pair>) {
    && oi <= |old'| && ni <= |new'|
    && Read(d).old' == Numbered(old', oi) && Read(d).new' == Numbered(new', ni) && Read(d).kept == kept
  }

  /** Removals may follow: the last entry is not an added line. */
  ghost predicate Closed<T>(d: Diff<T>) {
    RemovalsFirst(d) && (d != [] ==> !d[|d| - 1].Added?)
  }

  method EmitRemoved<T>(d: Diff<T>, old': seq<T>, ghost new': seq<T>, oi: nat, ghost ni: nat, ghost kept: seq<Pair>, to: nat)
    returns (r: Diff<T>)
    requires Partial(d, old', new', oi, ni, kept) && oi <= to <= |old'| && Closed(d)
    ensures Partial(r, old', new', to, ni, kept) && Closed(r)
  {
    r := d;
    for i := oi to to
      invariant Partial(r, old', new', i, ni, kept) && Closed(r)
    {
      ReadSnoc(r, Removed(old'[i], i + 1));
      r := r + [Removed(old'[i], i + 1)];
    }
  }

  method EmitAdded<T>(d: Diff<T>, ghost old': seq<T>, new': seq<T>, ghost oi: nat, ni: nat, ghost kept: seq<Pair>, to: nat)
    returns (r: Diff<T>)
    requires Partial(d, old', new', oi, ni, kept) && ni <= to <= |new'| && RemovalsFirst(d)
    ensures Partial(r, old', new', oi, to, kept) && RemovalsFirst(r)
  {
    r := d;
    for i := ni to to
      invariant Partial(r, old', new', oi, i, kept) && RemovalsFirst(r)
    {
      ReadSnoc(r, Added(new'[i], i + 1));
      r := r + [Added(new'[i], i + 1)];
    }
  }

  /** The lines before the next match, then the match itself. */
  method EmitBlock<T>(d: Diff<T>, old': seq<T>, new': seq<T>, oi: nat, ni: nat, ghost kept: seq<Pair>, p: Pair)
    returns (r: Diff<T>)
    requires Partial(d, old', new', oi, ni, kept) && Closed(d)
    requires oi <= p.0 < |old'| && ni <= p.1 < |new'| && old'[p.0] == new'[p.1]
    ensures Partial(r, old', new', p.0 + 1, p.1 + 1, kept + [p]) && Closed(r)
  {
    r := EmitRemoved(d, old', new', oi, ni, kept, p.0);
    r := EmitAdded(r, old', new', p.0, ni, kept, p.1);
    ReadSnoc(r, Unchanged(old'[p.0], p.0 + 1, p.1 + 1));
    r := r + [Unchanged(old'[p.0], p.0 + 1, p.1 + 1)];
  }

  /** Emits the script that keeps exactly the given matching. */
  method EmitScript<T>(old': seq<T>, new': seq<T>, lcs: seq<Pair>) returns (d: Diff<T>)
    requires IsMatching(old', new', lcs)
    ensures IsScript(d, old', new') && Read(d).kept == lcs && RemovalsFirst(d)
  {
    d := [];
    var oi, ni := 0, 0;
    for k := 0 to |lcs|
      invariant Partial(d, old', new', oi, ni, lcs[..k]) && Closed(d)
      invariant k < |lcs| ==> oi <= lcs[k].0 && ni <= lcs[k].1
    {
      d := EmitBlock(d, old', new', oi, ni, lcs[..k], lcs[k]);
      oi, ni := lcs[k].0 + 1, lcs[k].1 + 1;
    }
    assert lcs[..|lcs|] == lcs;
    d := EmitRemoved(d, old', new', oi, ni, lcs, |old'|);
    d := EmitAdded(d, old', new', |old'|, ni, lcs, |new'|);
  }

  method DiffOf<T(==,!new)>(old': seq<T>, new': seq<T>) returns (d: Diff<T>)
    ensures IsScript(d, old', new') && Read(d).kept == Pairs(old', new') && RemovalsFirst(d)
    ensures IsShortest(d, old', new')
  {
    var lcs := ComputeLCS(old', new');
    d := EmitScript(old', new', lcs);
    KeepingPairsIsShortest(d, old', new');
  }

  /** No other cut into lines: newline-free lines that join to a nonempty text are its lines. */
  lemma {:induction false} DiffLinesUnique(t: string, lines: seq<string>)
    requires Join(lines) == t && NoNewlines(lines) && (lines == [] <==> t == "")
    ensures lines == DiffLines(t)
  {
    if lines != [] {
      SplitJoin(lines);
    }
  }

  ghost predicate HasLine<T>(side: seq<(T, LineNo)>, c: T) {
    exists j :: 0 <= j < |side| && side[j].0 == c
  }

  lemma HasLineGrows<T>(side: seq<(T, LineNo)>, more: seq<(T, LineNo)>, c: T)
    requires HasLine(side, c)
    ensures HasLine(side + more, c)
  {
    var j :| 0 <= j < |side| && side[j].0 == c;
    assert (side + more)[j].0 == c;
  }

  lemma EntryIsLine<T>(r: Reading<T>, x: DiffLine<T>)
    ensures var t := ReadEntry(r, x); HasLine(t.old', x.content) || HasLine(t.new', x.content)
  {
    var t := ReadEntry(r, x);
    if x.Added? {
      assert t.new'[|t.new'| - 1].0 == x.content;
    } else {
      assert t.old'[|t.old'| - 1].0 == x.content;
    }
  }

  lemma EntryKeepsLines<T>(r: Reading<T>, x: DiffLine<T>, c: T)
    requires HasLine(r.old', c) || HasLine(r.new', c)
    ensures var t := ReadEntry(r, x); HasLine(t.old', c) || HasLine(t.new', c)
  {
    if HasLine(r.old', c) {
      if !x.Added? { HasLineGrows(r.old', [(x.content, x.oldNo)], c); }
    } else {
      if !x.Removed? { HasLineGrows(r.new', [(x.content, x.newNo)], c); }
    }
  }

  /** Every entry of a script is a line of one of the texts. */
  lemma {:induction false} EntriesAreLines<T>(d: Diff<T>, k: nat, n: nat)
    requires k < n <= |d|
    ensures var r := ReadUpTo(d, n); HasLine(r.old', d[k].content) || HasLine(r.new', d[k].content)
  {
    if k < n - 1 {
      EntriesAreLines(d, k, n - 1);
      EntryKeepsLines(ReadUpTo(d, n - 1), d[n - 1], d[k].content);
    } else {
      EntryIsLine(ReadUpTo(d, n - 1), d[k]);
    }
  }

  lemma EntriesHaveNoNewlines(d: Diff<string>, old': seq<string>, new': seq<string>)
    requires IsScript(d, old', new') && NoNewlines(old') && NoNewlines(new')
    ensures forall k :: 0 <= k < |d| ==> NEWLINE !in d[k].content
  {
    forall k | 0 <= k < |d|
      ensures NEWLINE !in d[k].content
    {
      EntriesAreLines(d, k, |d|);
    }
  }

  /** A correct and shortest edit script between the two texts: each entry is one line, the two sides
      rejoin to the two texts, and no script between their lines changes fewer. */
  method ComputeLineDiff(oldText: string, newText: string) returns (d: Diff<string>)
    ensures var old', new' := DiffLines(oldText), DiffLines(newText);
      && IsScript(d, old', new') && Read(d).kept == Pairs(old', new') && RemovalsFirst(d)
      && IsShortest(d, old', new')
    ensures forall k :: 0 <= k < |d| ==> NEWLINE !in d[k].content
    ensures Join(Contents(Read(d).old')) == oldText && Join(Contents(Read(d).new')) == newText
  {
    d := DiffOf(DiffLines(oldText), DiffLines(newText));
    EntriesHaveNoNewlines(d, DiffLines(oldText), DiffLines(newText));
    ScriptRestoresTexts(d, oldText, newText);
  }
}
