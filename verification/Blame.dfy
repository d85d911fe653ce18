/** Per-character blame from a chain of version texts. The TypeScript and Python SDKs run the
    same algorithm; they differ only in what counts as a missing creator. */
module Blame {
  import opened Lcs
  import opened Lines
  import opened Options

  datatype Sdk = TypeScript | Python

  datatype Version = Version(content: Option<string>, creator: Option<string>)

  datatype Segment = Segment(start: nat, end: nat, user: string)

  const UNKNOWN := "unknown"

  function Text(v: Version): string {
    if v.content.Some? then v.content.value else ""
  }

  /** `creator ?? 'unknown'` keeps an empty name, `creator or "unknown"` does not. */
  function Creator(v: Version, sdk: Sdk): (name: string)
    ensures v.creator.Some? && v.creator.value != "" ==> name == v.creator.value
    ensures name == "" ==> sdk.TypeScript? && v.creator == Some("")
  {
    if v.creator.None? || (sdk.Python? && v.creator.value == "") then UNKNOWN else v.creator.value
  }

  /** The two SDKs name the same creator exactly unless it is the empty string. */
  lemma SdksAgreeIff(v: Version)
    ensures Creator(v, TypeScript) == Creator(v, Python) <==> v.creator != Some("")
  {
  }

  function LinesOf(v: Version): (lines: seq<string>)
    ensures |lines| >= 1
  {
    Split(Text(v))
  }

  /** The lines of a version are its content, cut at every newline; a missing content is empty. */
  lemma LinesOfMeans(v: Version)
    ensures NoNewlines(LinesOf(v))
    ensures Join(LinesOf(v)) == if v.content.Some? then v.content.value else ""
  {
    JoinSplit(Text(v));
  }

  // ---- following a line back through the versions

  function FindPair(ps: seq<Pair>, ni: nat): Option<nat> {
    if ps == [] then None
    else if ps[|ps| - 1].1 == ni then Some(ps[|ps| - 1].0)
    else FindPair(ps[..|ps| - 1], ni)
  }

  lemma {:induction false} FindPairFinds(ps: seq<Pair>, ni: nat)
    ensures FindPair(ps, ni).Some? ==> (FindPair(ps, ni).value, ni) in ps
    ensures FindPair(ps, ni).None? ==> forall k :: 0 <= k < |ps| ==> ps[k].1 != ni
  {
    if ps != [] && ps[|ps| - 1].1 != ni {
      FindPairFinds(ps[..|ps| - 1], ni);
    }
  }

  /** The old line that new line `ni` is matched with, if any. */
  function MatchOf(old': seq<string>, new': seq<string>, ni: nat): (o: Option<nat>)
    requires ni < |new'|
    ensures o.Some? ==> o.value < |old'| && old'[o.value] == new'[ni]
  {
    PairsAreLongestMatching(old', new');
    FindPairFinds(Pairs(old', new'), ni);
    FindPair(Pairs(old', new'), ni)
  }

  /** A line has a match exactly if a pair of the longest matching ends in it. */
  lemma MatchOfIff(old': seq<string>, new': seq<string>, oi: nat, ni: nat)
    requires ni < |new'|
    ensures MatchOf(old', new', ni) == Some(oi) <==> (oi, ni) in Pairs(old', new')
  {
    var ps := Pairs(old', new');
    PairsAreLongestMatching(old', new');
    FindPairFinds(ps, ni);
    if (oi, ni) in ps {
      var k :| 0 <= k < |ps| && ps[k] == (oi, ni);
      var l :| 0 <= l < |ps| && ps[l] == (FindPair(ps, ni).value, ni);
      assert k == l;
    }
  }

  /** The new lines that keep their author in one step. */
  ghost function KeptLines(old': seq<string>, new': seq<string>): set<nat> {
    set ni | 0 <= ni < |new'| && MatchOf(old', new', ni).Some?
  }

  ghost function SecondsTo(ps: seq<Pair>, n: nat): set<nat>
    requires n <= |ps|
  {
    set k | 0 <= k < n :: ps[k].1
  }

  lemma {:induction false} SecondsCount(ps: seq<Pair>, n: nat)
    requires n <= |ps| && forall k, l :: 0 <= k < l < |ps| ==> ps[k].1 < ps[l].1
    ensures |SecondsTo(ps, n)| == n
  {
    if n > 0 {
      SecondsCount(ps, n - 1);
      assert SecondsTo(ps, n) == SecondsTo(ps, n - 1) + {ps[n - 1].1};
      assert ps[n - 1].1 !in SecondsTo(ps, n - 1);
    } else {
      assert SecondsTo(ps, 0) == {};
    }
  }

  /** The lines one step keeps are kept in order. */
  lemma StepKeepsOrder(old': seq<string>, new': seq<string>, i: nat, j: nat)
    requires i < j < |new'| && MatchOf(old', new', i).Some? && MatchOf(old', new', j).Some?
    ensures MatchOf(old', new', i).value < MatchOf(old', new', j).value
  {
    var ps, x, y := Pairs(old', new'), MatchOf(old', new', i).value, MatchOf(old', new', j).value;
    PairsAreLongestMatching(old', new');
    MatchOfIff(old', new', x, i);
    MatchOfIff(old', new', y, j);
    var k :| 0 <= k < |ps| && ps[k] == (x, i);
    var l :| 0 <= l < |ps| && ps[l] == (y, j);
  }

  /** No attribution that follows equal lines in order keeps more of them than one step does. */
  lemma StepKeepsMost(old': seq<string>, new': seq<string>)
    ensures forall ps :: IsMatching(old', new', ps) ==> |ps| <= |KeptLines(old', new')|
  {
    var ps := Pairs(old', new');
    PairsAreLongestMatching(old', new');
    forall ni: nat | ni < |new'|
      ensures ni in KeptLines(old', new') <==> ni in SecondsTo(ps, |ps|)
    {
      if ni in KeptLines(old', new') {
        MatchOfIff(old', new', MatchOf(old', new', ni).value, ni);
      }
      if ni in SecondsTo(ps, |ps|) {
        var k :| 0 <= k < |ps| && ps[k].1 == ni;
        MatchOfIff(old', new', ps[k].0, ni);
      }
    }
    assert KeptLines(old', new') == SecondsTo(ps, |ps|);
    SecondsCount(ps, |ps|);
  }

  /** Where line `line` of version `v` came from: follow matches back until there is none. */
  function Origin(vs: seq<Version>, v: nat, line: nat): (o: (nat, nat))
    requires v < |vs| && line < |LinesOf(vs[v])|
    ensures o.0 <= v && o.1 < |LinesOf(vs[o.0])|
  {
    if v == 0 then (0, line)
    else
      var m := MatchOf(LinesOf(vs[v - 1]), LinesOf(vs[v]), line);
      if m.None? then (v, line) else Origin(vs, v - 1, m.value)
  }

  /** A line stands verbatim in the version it is traced to, and there it matches nothing older. */
  lemma {:induction false} OriginIsVerbatim(vs: seq<Version>, v: nat, line: nat)
    requires v < |vs| && line < |LinesOf(vs[v])|
    ensures var (w, l) := Origin(vs, v, line);
      && LinesOf(vs[w])[l] == LinesOf(vs[v])[line]
      && (w == 0 || MatchOf(LinesOf(vs[w - 1]), LinesOf(vs[w]), l).None?)
  {
    if v > 0 {
      var m := MatchOf(LinesOf(vs[v - 1]), LinesOf(vs[v]), line);
      if m.Some? {
        OriginIsVerbatim(vs, v - 1, m.value);
      }
    }
  }

  /** Line `y` of version `v` is matched with line `x` of the version before it. */
  ghost predicate Follows(vs: seq<Version>, v: nat, x: nat, y: nat) {
    0 < v < |vs| && y < |LinesOf(vs[v])| && MatchOf(LinesOf(vs[v - 1]), LinesOf(vs[v]), y) == Some(x)
  }

  /** From version `from` on, each line of the chain is matched with the one before it. */
  ghost predicate IsChain(vs: seq<Version>, from: nat, chain: seq<nat>) {
    forall k :: 1 <= k < |chain| ==> Follows(vs, from + k, chain[k - 1], chain[k])
  }

  lemma ExtendChain(vs: seq<Version>, from: nat, chain: seq<nat>, line: nat)
    requires chain != [] && IsChain(vs, from, chain) && Follows(vs, from + |chain|, chain[|chain| - 1], line)
    ensures IsChain(vs, from, chain + [line])
  {
    var longer := chain + [line];
    forall k | 1 <= k < |longer|
      ensures Follows(vs, from + k, longer[k - 1], longer[k])
    {
      assert k < |chain| ==> longer[k - 1] == chain[k - 1] && longer[k] == chain[k];
    }
  }

  lemma OriginStep(vs: seq<Version>, v: nat, line: nat) returns (x: Option<nat>)
    requires v < |vs| && line < |LinesOf(vs[v])|
    ensures x.None? ==> Origin(vs, v, line) == (v, line)
    ensures x.Some? ==>
      && Follows(vs, v, x.value, line) && x.value < |LinesOf(vs[v - 1])|
      && Origin(vs, v, line) == Origin(vs, v - 1, x.value)
  {
    x := if v == 0 then None else MatchOf(LinesOf(vs[v - 1]), LinesOf(vs[v]), line);
  }

  /** The chain leads from line `o.1` of version `o.0` to line `line` of version `v`. */
  ghost predicate Leads(vs: seq<Version>, o: (nat, nat), v: nat, line: nat, chain: seq<nat>) {
    o.0 <= v && |chain| == v - o.0 + 1 && chain[0] == o.1 && chain[|chain| - 1] == line && IsChain(vs, o.0, chain)
  }

  lemma LeadsOn(vs: seq<Version>, o: (nat, nat), v: nat, x: nat, line: nat, chain: seq<nat>)
    requires v > 0 && Leads(vs, o, v - 1, x, chain) && Follows(vs, v, x, line)
    ensures Leads(vs, o, v, line, chain + [line])
  {
    ExtendChain(vs, o.0, chain, line);
  }

  /** From its origin to where it stands a line is matched from version to version. */
  lemma {:induction false} OriginIsChained(vs: seq<Version>, v: nat, line: nat) returns (chain: seq<nat>)
    requires v < |vs| && line < |LinesOf(vs[v])|
    ensures Leads(vs, Origin(vs, v, line), v, line, chain)
  {
    var x := OriginStep(vs, v, line);
    if x.None? {
      chain := [line];
    } else {
      var before := OriginIsChained(vs, v - 1, x.value);
      LeadsOn(vs, Origin(vs, v, line), v, x.value, line, before);
      chain := before + [line];
    }
  }

  /** The author a matched old line hands on; `creator` when there is none. */
  function Inherited(oldLine: Option<nat>, oldAuthors: seq<string>, creator: string): string {
    if oldLine.Some? && oldLine.value < |oldAuthors| then oldAuthors[oldLine.value] else creator
  }

  /** The pairs of the longest matching hand authors on, and nobody else does. */
  ghost predicate AttributedByPairs(r: seq<string>, old': seq<string>, new': seq<string>, oldAuthors: seq<string>,
                                    creator: string) {
    && |r| == |new'|
    && (forall oi, ni :: (oi, ni) in Pairs(old', new') ==>
          ni < |r| && r[ni] == if oi < |oldAuthors| then oldAuthors[oi] else creator)
    && (forall ni :: 0 <= ni < |r| && (forall oi :: (oi, ni) !in Pairs(old', new')) ==> r[ni] == creator)
  }

  lemma MatchesAttribute(r: seq<string>, old': seq<string>, new': seq<string>, oldAuthors: seq<string>, creator: string)
    requires |r| == |new'|
    requires forall ni :: 0 <= ni < |new'| ==> r[ni] == Inherited(MatchOf(old', new', ni), oldAuthors, creator)
    ensures AttributedByPairs(r, old', new', oldAuthors, creator)
  {
    var ps := Pairs(old', new');
    PairsAreLongestMatching(old', new');
    forall oi, ni | (oi, ni) in ps
      ensures ni < |r| && r[ni] == if oi < |oldAuthors| then oldAuthors[oi] else creator
    {
      var k :| 0 <= k < |ps| && ps[k] == (oi, ni);
      MatchOfIff(old', new', oi, ni);
    }
    forall ni | 0 <= ni < |r| && forall oi :: (oi, ni) !in ps
      ensures r[ni] == creator
    {
      if MatchOf(old', new', ni).Some? {
        MatchOfIff(old', new', MatchOf(old', new', ni).value, ni);
      }
    }
  }

  /** Matched lines keep their author, the others go to the creator of the new version. */
  method ApplyDiffAttribution(oldLines: seq<string>, newLines: seq<string>, oldAuthors: seq<string>, creator: string)
    returns (r: seq<string>)
    ensures |r| == |newLines|
    ensures forall ni :: 0 <= ni < |newLines| ==>
      r[ni] == Inherited(MatchOf(oldLines, newLines, ni), oldAuthors, creator)
    ensures AttributedByPairs(r, oldLines, newLines, oldAuthors, creator)
  {
    var lcs := ComputeLCS(oldLines, newLines);
    var authors := new string[|newLines|](_ => creator);
    for k := 0 to |lcs|
      invariant forall ni :: 0 <= ni < |newLines| ==>
        authors[ni] == Inherited(FindPair(lcs[..k], ni), oldAuthors, creator)
    {
      var (oldIdx, newIdx) := lcs[k];
      authors[newIdx] := if oldIdx < |oldAuthors| then oldAuthors[oldIdx] else creator;
      assert lcs[..k + 1][..|lcs[..k + 1]| - 1] == lcs[..k];
    }
    assert lcs[..|lcs|] == lcs;
    r := authors[..];
    MatchesAttribute(r, oldLines, newLines, oldAuthors, creator);
  }

  // ---- from line authors to character segments

  /** A line together with the newline that ends it; the last line has none. */
  function LineLen(lines: seq<string>, i: nat): nat
    requires i < |lines|
  {
    |lines[i]| + if i < |lines| - 1 then 1 else 0
  }

  /** Where line `i` starts in the text. */
  function Offset(lines: seq<string>, i: nat): nat
    requires i <= |lines|
  {
    if i == 0 then 0 else Offset(lines, i - 1) + LineLen(lines, i - 1)
  }

  lemma {:induction false} OffsetShift(lines: seq<string>, i: nat)
    requires |lines| > 1 && i < |lines|
    ensures Offset(lines, i + 1) == LineLen(lines, 0) + Offset(lines[1..], i)
  {
    if i > 0 {
      OffsetShift(lines, i - 1);
    } else {
      assert Offset(lines, 1) == Offset(lines, 0) + LineLen(lines, 0);
    }
  }

  lemma {:induction false} OffsetsEndAtTextLength(lines: seq<string>)
    ensures Offset(lines, |lines|) == |Join(lines)|
  {
    if |lines| == 1 {
      assert Offset(lines, 1) == Offset(lines, 0) + LineLen(lines, 0);
    } else if |lines| > 1 {
      OffsetShift(lines, |lines| - 1);
      OffsetsEndAtTextLength(lines[1..]);
    }
  }

  /** Line `i` stands at its offset in the joined text, with its newline behind it unless it is the last. */
  lemma {:induction false} LineStandsAtOffset(lines: seq<string>, i: nat)
    requires i < |lines|
    ensures Offset(lines, i) + LineLen(lines, i) <= |Join(lines)|
    ensures Join(lines)[Offset(lines, i)..Offset(lines, i) + LineLen(lines, i)]
         == lines[i] + if i < |lines| - 1 then [NEWLINE] else []
  {
    if |lines| > 1 {
      var rest := lines[1..];
      if i > 0 {
        LineStandsAtOffset(rest, i - 1);
        OffsetShift(lines, i - 1);
        SliceBehind(lines[0] + [NEWLINE], Join(rest), Offset(rest, i - 1), LineLen(rest, i - 1));
      }
    }
  }

  lemma SliceBehind(a: string, b: string, at: nat, n: nat)
    requires at + n <= |b|
    ensures (a + b)[|a| + at..|a| + at + n] == b[at..at + n]
  {
  }

  lemma {:induction false} OffsetMonotone(lines: seq<string>, i: nat, j: nat)
    requires i <= j <= |lines|
    ensures Offset(lines, i) <= Offset(lines, j)
  {
    if i < j {
      OffsetMonotone(lines, i, j - 1);
    }
  }

  /** The segments cover [0, n) without gap or overlap, none of them empty. */
  ghost predicate Tiles(segs: seq<Segment>, n: nat) {
    && (if segs == [] then n == 0 else segs[0].start == 0 && segs[|segs| - 1].end == n)
    && (forall k :: 0 <= k < |segs| ==> segs[k].start < segs[k].end)
    && (forall k :: 0 <= k < |segs| - 1 ==> segs[k].end == segs[k + 1].start)
  }

  /** Neighbouring segments have different authors. */
  ghost predicate Merged(segs: seq<Segment>) {
    forall k :: 0 <= k < |segs| - 1 ==> segs[k].user != segs[k + 1].user
  }

  function AuthorOf(authors: seq<string>, i: nat): string {
    if i < |authors| then authors[i] else UNKNOWN
  }

  /** Text offset `at` lies in line `i`. */
  ghost predicate InLine(lines: seq<string>, i: nat, at: nat) {
    i < |lines| && Offset(lines, i) <= at < Offset(lines, i + 1)
  }

  /** Every character before line `done` carries the author of its line. */
  ghost predicate Attributes(segs: seq<Segment>, lines: seq<string>, authors: seq<string>, done: nat) {
    forall k, i: nat, at: nat :: 0 <= k < |segs| && segs[k].start <= at < segs[k].end && i < done && InLine(lines, i, at)
      ==> segs[k].user == AuthorOf(authors, i)
  }

  /** One round of the loop: grow the last segment when it ends here with the same author. */
  function Extend(segs: seq<Segment>, offset: nat, len: nat, author: string): seq<Segment> {
    if segs != [] && segs[|segs| - 1].user == author && segs[|segs| - 1].end == offset
    then segs[|segs| - 1 := segs[|segs| - 1].(end := offset + len)]
    else segs + [Segment(offset, offset + len, author)]
  }

  lemma ExtendTiles(segs: seq<Segment>, offset: nat, len: nat, author: string)
    requires Tiles(segs, offset) && Merged(segs) && len > 0
    ensures Tiles(Extend(segs, offset, len, author), offset + len)
    ensures Merged(Extend(segs, offset, len, author))
  {
  }

  lemma {:induction false} TilesBound(segs: seq<Segment>, n: nat, k: nat)
    requires Tiles(segs, n) && k < |segs|
    ensures segs[k].end <= n
    decreases |segs| - k
  {
    if k < |segs| - 1 {
      TilesBound(segs, n, k + 1);
    }
  }

  lemma ExtendAttributes(segs: seq<Segment>, lines: seq<string>, authors: seq<string>, i: nat)
    requires i < |lines| && Tiles(segs, Offset(lines, i))
    requires Attributes(segs, lines, authors, i)
    ensures LineLen(lines, i) == 0 ==> Attributes(segs, lines, authors, i + 1)
    ensures LineLen(lines, i) > 0 ==>
      Attributes(Extend(segs, Offset(lines, i), LineLen(lines, i), AuthorOf(authors, i)), lines, authors, i + 1)
  {
    var offset := Offset(lines, i);
    var r := if LineLen(lines, i) == 0 then segs else Extend(segs, offset, LineLen(lines, i), AuthorOf(authors, i));
    forall k, j: nat, at: nat | 0 <= k < |r| && r[k].start <= at < r[k].end && j < i + 1 && InLine(lines, j, at)
      ensures r[k].user == AuthorOf(authors, j)
    {
      if j < i {
        OffsetMonotone(lines, j + 1, i);
        assert at < offset;
        assert k < |segs| && segs[k].start <= at < segs[k].end;
      } else if k < |segs| {
        TilesBound(segs, offset, k);
      }
    }
  }

  method LinesToSegments(lines: seq<string>, authors: seq<string>) returns (segs: seq<Segment>)
    ensures Tiles(segs, |Join(lines)|)
    ensures Merged(segs)
    ensures Attributes(segs, lines, authors, |lines|)
  {
    segs := [];
    var offset := 0;
    for i := 0 to |lines|
      invariant offset == Offset(lines, i)
      invariant Tiles(segs, offset) && Merged(segs)
      invariant Attributes(segs, lines, authors, i)
    {
      var lineLen := LineLen(lines, i);
      ExtendAttributes(segs, lines, authors, i);
      if lineLen > 0 {
        var author := AuthorOf(authors, i);
        ExtendTiles(segs, offset, lineLen, author);
        if segs != [] && segs[|segs| - 1].user == author && segs[|segs| - 1].end == offset {
          segs := segs[|segs| - 1 := segs[|segs| - 1].(end := segs[|segs| - 1].end + lineLen)];
        } else {
          segs := segs + [Segment(offset, offset + lineLen, author)];
        }
        offset := offset + lineLen;
      }
    }
    OffsetsEndAtTextLength(lines);
  }

  // ---- the whole chain

  /** `authors` names, for every line of version `v`, the creator of the version it is traced to. */
  ghost predicate Traced(vs: seq<Version>, sdk: Sdk, v: nat, authors: seq<string>)
    requires v < |vs|
  {
    && |authors| == |LinesOf(vs[v])|
    && forall l :: 0 <= l < |authors| ==> authors[l] == Creator(vs[Origin(vs, v, l).0], sdk)
  }

  lemma TracedStep(vs: seq<Version>, sdk: Sdk, v: nat, before: seq<string>, after: seq<string>)
    requires 0 < v < |vs| && Traced(vs, sdk, v - 1, before)
    requires |after| == |LinesOf(vs[v])|
    requires forall l :: 0 <= l < |after| ==>
      after[l] == Inherited(MatchOf(LinesOf(vs[v - 1]), LinesOf(vs[v]), l), before, Creator(vs[v], sdk))
    ensures Traced(vs, sdk, v, after)
  {
  }

  /** Every character of the final text is credited to the creator of the version its line is traced to. */
  ghost predicate CreditsOrigins(segs: seq<Segment>, vs: seq<Version>, sdk: Sdk)
    requires vs != []
  {
    var last := |vs| - 1;
    forall k, i: nat, at: nat :: 0 <= k < |segs| && segs[k].start <= at < segs[k].end && InLine(LinesOf(vs[last]), i, at)
      ==> segs[k].user == Creator(vs[Origin(vs, last, i).0], sdk)
  }

  lemma AttributesCreditOrigins(segs: seq<Segment>, vs: seq<Version>, sdk: Sdk, authors: seq<string>)
    requires vs != [] && Traced(vs, sdk, |vs| - 1, authors)
    requires Attributes(segs, LinesOf(vs[|vs| - 1]), authors, |LinesOf(vs[|vs| - 1])|)
    ensures CreditsOrigins(segs, vs, sdk)
  {
  }

  /** The walk over the versions. */
  method LineAuthors(vs: seq<Version>, sdk: Sdk) returns (authors: seq<string>)
    requires vs != []
    ensures Traced(vs, sdk, |vs| - 1, authors)
  {
    authors := seq(|LinesOf(vs[0])|, _ => Creator(vs[0], sdk));
    for i := 1 to |vs|
      invariant Traced(vs, sdk, i - 1, authors)
    {
      var next := ApplyDiffAttribution(LinesOf(vs[i - 1]), LinesOf(vs[i]), authors, Creator(vs[i], sdk));
      TracedStep(vs, sdk, i, authors, next);
      authors := next;
    }
  }

  method ComputeBlame(vs: seq<Version>, sdk: Sdk) returns (segs: seq<Segment>)
    ensures vs == [] ==> segs == []
    ensures vs != [] ==>
      && Tiles(segs, |Text(vs[|vs| - 1])|)
      && Merged(segs)
      && CreditsOrigins(segs, vs, sdk)
  {
    if vs == [] {
      return [];
    }
    var authors := LineAuthors(vs, sdk);
    segs := LinesToSegments(LinesOf(vs[|vs| - 1]), authors);
    AttributesCreditOrigins(segs, vs, sdk, authors);
    JoinSplit(Text(vs[|vs| - 1]));
  }
}
