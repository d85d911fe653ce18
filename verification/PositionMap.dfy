/** Projecting source offsets (Markdown, HTML) onto ProseMirror positions and back. The document is
    given by its text nodes in document order. */
module PositionMap {
  import opened Options

  datatype Node = Node(text: string, pos: nat, marks: seq<string>)

  type PosMap = map<nat, nat>

  function End(n: Node): nat {
    n.pos + |n.text|
  }

  /** Text nodes of a document follow one another. */
  ghost predicate Ordered(nodes: seq<Node>) {
    forall i, j :: 0 <= i < j < |nodes| ==> End(nodes[i]) <= nodes[j].pos
  }

  predicate OccursAt(y: string, t: string, k: nat) {
    k + |t| <= |y| && y[k..k + |t|] == t
  }

  /** The text reads `t` with `k` characters in front of it. */
  lemma OccursIff(y: string, t: string, k: nat)
    ensures OccursAt(y, t, k) <==> exists before, behind :: |before| == k && y == before + t + behind
  {
    if OccursAt(y, t, k) {
      assert y == y[..k] + t + y[k + |t|..];
    }
  }

  /** `y.indexOf(t, from)`. */
  function IndexOf(y: string, t: string, from: nat): (r: Option<nat>)
    ensures r.Some? ==> from <= r.value && OccursAt(y, t, r.value)
    ensures r.Some? ==> forall k :: from <= k < r.value ==> !OccursAt(y, t, k)
    ensures r.None? ==> forall k :: from <= k ==> !OccursAt(y, t, k)
    decreases |y| - from
  {
    if from + |t| > |y| then None
    else if OccursAt(y, t, from) then Some(from)
    else IndexOf(y, t, from + 1)
  }

  /** The entries for the first `n` characters of a node found at `at`. */
  function PlacedUpTo(node: Node, at: nat, n: nat): (m: PosMap)
    ensures forall k :: k in m <==> at <= k < at + n
    ensures forall k :: k in m ==> m[k] == node.pos + (k - at)
  {
    if n == 0 then map[] else PlacedUpTo(node, at, n - 1)[at + n - 1 := node.pos + n - 1]
  }

  function Placed(node: Node, at: nat): PosMap {
    PlacedUpTo(node, at, |node.text|)
  }

  /** The map and the cursor after the given nodes. A node whose text is not found from the cursor
      on is skipped and leaves the cursor. */
  function Build(nodes: seq<Node>, y: string): (PosMap, nat) {
    if nodes == [] then (map[], 0)
    else
      var (m, cursor) := Build(nodes[..|nodes| - 1], y);
      var node := nodes[|nodes| - 1];
      var idx := if node.text == "" then None else IndexOf(y, node.text, cursor);
      if idx.None? then (m, cursor) else (m + Placed(node, idx.value), idx.value + |node.text|)
  }

  lemma {:induction false} BuildStep(nodes: seq<Node>, y: string, i: nat)
    requires i < |nodes|
    ensures Build(nodes[..i + 1], y) ==
      var (m, cursor) := Build(nodes[..i], y);
      var idx := if nodes[i].text == "" then None else IndexOf(y, nodes[i].text, cursor);
      if idx.None? then (m, cursor) else (m + Placed(nodes[i], idx.value), idx.value + |nodes[i].text|)
  {
    assert nodes[..i + 1][..i] == nodes[..i];
  }

  /** The inner loop: one entry per character. */
  method PlaceNode(m: PosMap, node: Node, at: nat) returns (r: PosMap)
    ensures r == m + Placed(node, at)
  {
    r := m;
    for j := 0 to |node.text|
      invariant r == m + PlacedUpTo(node, at, j)
    {
      r := r[at + j := node.pos + j];
    }
  }

  method BuildPositionMap(nodes: seq<Node>, y: string) returns (m: PosMap)
    ensures m == Build(nodes, y).0
    ensures Ordered(nodes) ==> Lawful(m, nodes, y)
  {
    m := map[];
    var cursor := 0;
    for i := 0 to |nodes|
      invariant (m, cursor) == Build(nodes[..i], y)
    {
      var node := nodes[i];
      BuildStep(nodes, y, i);
      if |node.text| > 0 {
        var idx := IndexOf(y, node.text, cursor);
        if idx.Some? {
          m := PlaceNode(m, node, idx.value);
          cursor := idx.value + |node.text|;
        }
      }
    }
    assert nodes[..|nodes|] == nodes;
    if Ordered(nodes) {
      BuildIsLawful(nodes, y);
    }
  }

  // ---- what the map says

  /** Position `p` lies in the node and shows character `c`. */
  ghost predicate Shows(n: Node, p: nat, c: char) {
    n.pos <= p < End(n) && n.text[p - n.pos] == c
  }

  ghost predicate Increasing(m: PosMap) {
    forall j, k :: j in m && k in m && j < k ==> m[j] < m[k]
  }

  /** Every mapped offset holds the character shown at its position. */
  ghost predicate MapsCharacters(m: PosMap, nodes: seq<Node>, y: string) {
    forall k :: k in m ==> k < |y| && exists i :: 0 <= i < |nodes| && Shows(nodes[i], m[k], y[k])
  }

  /** The map grows with the source: it is injective, and both sides show the same characters. */
  lemma {:induction false} MapIsFaithful(nodes: seq<Node>, y: string)
    requires Ordered(nodes)
    ensures Increasing(Build(nodes, y).0)
    ensures MapsCharacters(Build(nodes, y).0, nodes, y)
    ensures forall k :: k in Build(nodes, y).0 ==> k < Build(nodes, y).1
  {
    if nodes != [] {
      var pre, node := nodes[..|nodes| - 1], nodes[|nodes| - 1];
      var (m, cursor) := Build(pre, y);
      MapIsFaithful(pre, y);
      MapsLift(m, pre, node, y);
      assert nodes == pre + [node];
      var idx := if node.text == "" then None else IndexOf(y, node.text, cursor);
      if idx.Some? {
        PlaceKeepsOrder(m, cursor, nodes, idx.value, y);
        PlaceKeepsCharacters(m, nodes, idx.value, y);
      }
    }
  }

  lemma MapsLift(m: PosMap, pre: seq<Node>, node: Node, y: string)
    requires MapsCharacters(m, pre, y)
    ensures MapsCharacters(m, pre + [node], y)
  {
    forall k | k in m
      ensures exists i :: 0 <= i < |pre + [node]| && Shows((pre + [node])[i], m[k], y[k])
    {
      var i :| 0 <= i < |pre| && Shows(pre[i], m[k], y[k]);
      assert (pre + [node])[i] == pre[i];
    }
  }

  lemma PlaceKeepsOrder(m: PosMap, cursor: nat, nodes: seq<Node>, at: nat, y: string)
    requires nodes != [] && Ordered(nodes) && Increasing(m)
    requires MapsCharacters(m, nodes[..|nodes| - 1], y)
    requires cursor <= at && forall k :: k in m ==> k < cursor
    ensures Increasing(m + Placed(nodes[|nodes| - 1], at))
  {
    var node := nodes[|nodes| - 1];
    forall k | k in m
      ensures m[k] < node.pos
    {
      var i :| 0 <= i < |nodes| - 1 && Shows(nodes[..|nodes| - 1][i], m[k], y[k]);
    }
  }

  lemma PlaceKeepsCharacters(m: PosMap, nodes: seq<Node>, at: nat, y: string)
    requires nodes != [] && MapsCharacters(m, nodes, y)
    requires OccursAt(y, nodes[|nodes| - 1].text, at)
    ensures MapsCharacters(m + Placed(nodes[|nodes| - 1], at), nodes, y)
  {
    var node := nodes[|nodes| - 1];
    var r := m + Placed(node, at);
    forall k | k in r
      ensures k < |y| && exists i :: 0 <= i < |nodes| && Shows(nodes[i], r[k], y[k])
    {
      if k in Placed(node, at) {
        assert y[at..at + |node.text|][k - at] == y[k];
        assert Shows(nodes[|nodes| - 1], r[k], y[k]);
      }
    }
  }

  /** The whole node is mapped, from source offset `at` on. */
  ghost predicate MappedAt(m: PosMap, node: Node, y: string, at: nat) {
    && OccursAt(y, node.text, at)
    && forall j :: at <= j < at + |node.text| ==> j in m && m[j] == node.pos + (j - at)
  }

  /** No source offset is mapped into the node. */
  ghost predicate Unmapped(m: PosMap, node: Node) {
    forall k :: k in m ==> !(node.pos <= m[k] < End(node))
  }

  /** Where the search for node `i` ended. */
  function PlaceOf(nodes: seq<Node>, y: string, i: nat): Option<nat>
    requires i < |nodes|
  {
    if nodes[i].text == "" then None else IndexOf(y, nodes[i].text, Build(nodes[..i], y).1)
  }

  /** Everything mapped so far lies before the next node. */
  lemma MappedBefore(m: PosMap, pre: seq<Node>, last: Node, y: string)
    requires MapsCharacters(m, pre, y) && Ordered(pre + [last])
    ensures forall k :: k in m ==> m[k] < last.pos
  {
    forall k | k in m
      ensures m[k] < last.pos
    {
      var j :| 0 <= j < |pre| && Shows(pre[j], m[k], y[k]);
      assert (pre + [last])[j] == pre[j] && (pre + [last])[|pre|] == last;
    }
  }

  /** A node is mapped as a whole where it is first found behind the nodes before it, or, if it is
      not found there, not at all. */
  lemma {:induction false} NodesAreWholeOrSkipped(nodes: seq<Node>, y: string, i: nat)
    requires Ordered(nodes) && i < |nodes|
    ensures var p := PlaceOf(nodes, y, i);
      if p.Some? then MappedAt(Build(nodes, y).0, nodes[i], y, p.value)
      else Unmapped(Build(nodes, y).0, nodes[i])
    decreases |nodes|
  {
    var pre, last := nodes[..|nodes| - 1], nodes[|nodes| - 1];
    var (m, cursor) := Build(pre, y);
    MapIsFaithful(pre, y);
    if i < |nodes| - 1 {
      NodesAreWholeOrSkipped(pre, y, i);
      assert pre[..i] == nodes[..i];
      LaterNodeKeeps(m, cursor, nodes, y, i);
    } else {
      LastNodeIsWholeOrSkipped(nodes, y);
    }
  }

  lemma {:induction false} LastNodeIsWholeOrSkipped(nodes: seq<Node>, y: string)
    requires Ordered(nodes) && nodes != []
    ensures var i := |nodes| - 1; var p := PlaceOf(nodes, y, i);
      if p.Some? then MappedAt(Build(nodes, y).0, nodes[i], y, p.value) else Unmapped(Build(nodes, y).0, nodes[i])
  {
    var pre, last := nodes[..|nodes| - 1], nodes[|nodes| - 1];
    MapIsFaithful(pre, y);
    assert pre + [last] == nodes;
    MappedBefore(Build(pre, y).0, pre, last, y);
  }

  lemma {:induction false} LaterNodeKeeps(m: PosMap, cursor: nat, nodes: seq<Node>, y: string, i: nat)
    requires Ordered(nodes) && i < |nodes| - 1 && (m, cursor) == Build(nodes[..|nodes| - 1], y)
    requires forall k :: k in m ==> k < cursor
    ensures forall at :: MappedAt(m, nodes[i], y, at) ==> MappedAt(Build(nodes, y).0, nodes[i], y, at)
    ensures Unmapped(m, nodes[i]) ==> Unmapped(Build(nodes, y).0, nodes[i])
  {
  }

  // ---- where a node is placed, told from the map alone

  /** Offset `k` lies behind every source offset that is mapped in front of the node. */
  ghost predicate Behind(m: PosMap, node: Node, k: nat) {
    forall j :: j in m && m[j] < node.pos ==> j < k
  }

  /** The first occurrence of the node's text behind the nodes in front of it; from 0 on, if none of
      those is mapped. */
  ghost predicate FirstPlace(m: PosMap, y: string, node: Node, at: nat) {
    && OccursAt(y, node.text, at) && Behind(m, node, at)
    && forall k :: 0 <= k < at && OccursAt(y, node.text, k) ==> !Behind(m, node, k)
  }

  ghost predicate NoPlace(m: PosMap, y: string, node: Node) {
    forall k: nat :: OccursAt(y, node.text, k) ==> !Behind(m, node, k)
  }

  /** The cursor stands right behind the last offset mapped. */
  lemma {:induction false} CursorIsEnd(nodes: seq<Node>, y: string)
    requires Ordered(nodes)
    ensures var (m, cursor) := Build(nodes, y); (forall k :: k in m ==> k < cursor) && (cursor > 0 ==> cursor - 1 in m)
  {
    if nodes != [] {
      CursorIsEnd(nodes[..|nodes| - 1], y);
    }
  }

  /** A node placed behind everything mapped so far adds nothing in front of `p`. */
  lemma PlacedBehind(m: PosMap, cursor: nat, node: Node, at: nat, p: nat, k: nat)
    requires (forall j :: j in m ==> j < cursor) && cursor <= at && p <= node.pos
    ensures var r := m + Placed(node, at); k in r && r[k] < p <==> k in m && m[k] < p
  {
  }

  /** Everything mapped before node `i` is looked for lies in front of it, and before the cursor. */
  lemma {:induction false} MappedInFront(nodes: seq<Node>, y: string, i: nat)
    requires Ordered(nodes) && i < |nodes|
    ensures var (m, cursor) := Build(nodes[..i], y); forall k :: k in m ==> k < cursor && m[k] < nodes[i].pos
  {
    MapIsFaithful(nodes[..i], y);
    assert nodes[..i] + [nodes[i]] == nodes[..i + 1];
    MappedBefore(Build(nodes[..i], y).0, nodes[..i], nodes[i], y);
  }

  /** The next node adds nothing in front of `p`. */
  lemma {:induction false} StepAddsBehind(nodes: seq<Node>, y: string, n: nat, p: nat, k: nat)
    requires Ordered(nodes) && n < |nodes| && p <= nodes[n].pos
    ensures var m, r := Build(nodes[..n], y).0, Build(nodes[..n + 1], y).0;
      k in r && r[k] < p <==> k in m && m[k] < p
  {
    var (m, cursor) := Build(nodes[..n], y);
    var idx := if nodes[n].text == "" then None else IndexOf(y, nodes[n].text, cursor);
    BuildStep(nodes, y, n);
    MappedInFront(nodes, y, n);
    if idx.Some? {
      PlacedBehind(m, cursor, nodes[n], idx.value, p, k);
    }
  }

  /** What is mapped in front of a node was there before the node was looked for. */
  lemma {:induction false} EarlierEntriesTo(nodes: seq<Node>, y: string, i: nat, n: nat, k: nat)
    requires Ordered(nodes) && i <= n <= |nodes| && i < |nodes|
    ensures var m := Build(nodes[..n], y).0; k in m && m[k] < nodes[i].pos <==> k in Build(nodes[..i], y).0
  {
    if n == i {
      MappedInFront(nodes, y, i);
    } else {
      EarlierEntriesTo(nodes, y, i, n - 1, k);
      StepAddsBehind(nodes, y, n - 1, nodes[i].pos, k);
    }
  }

  lemma {:induction false} BehindIsCursor(nodes: seq<Node>, y: string, i: nat, k: nat)
    requires Ordered(nodes) && i < |nodes|
    ensures Behind(Build(nodes, y).0, nodes[i], k) <==> k >= Build(nodes[..i], y).1
  {
    var m, before, cursor := Build(nodes, y).0, Build(nodes[..i], y).0, Build(nodes[..i], y).1;
    CursorIsEnd(nodes[..i], y);
    assert nodes[..|nodes|] == nodes;
    forall j: nat
      ensures j in m && m[j] < nodes[i].pos <==> j in before
    {
      EarlierEntriesTo(nodes, y, i, |nodes|, j);
    }
    if cursor > 0 && k < cursor {
      assert cursor - 1 in before;
    }
  }

  /** The search ends at the first place, and fails exactly if there is none. */
  lemma {:induction false} PlaceIsFirst(nodes: seq<Node>, y: string, i: nat)
    requires Ordered(nodes) && i < |nodes| && nodes[i].text != ""
    ensures var m, p := Build(nodes, y).0, PlaceOf(nodes, y, i);
      if p.Some? then FirstPlace(m, y, nodes[i], p.value) else NoPlace(m, y, nodes[i])
  {
    var m := Build(nodes, y).0;
    forall k: nat
      ensures Behind(m, nodes[i], k) <==> k >= Build(nodes[..i], y).1
    {
      BehindIsCursor(nodes, y, i, k);
    }
  }

  /** A node is mapped as a whole at its first place behind the nodes in front of it, and it is left
      out if and only if it has no place there. */
  ghost predicate Lawful(m: PosMap, nodes: seq<Node>, y: string) {
    && Increasing(m) && MapsCharacters(m, nodes, y)
    && forall i :: 0 <= i < |nodes| && nodes[i].text != "" ==> LawfulAt(m, nodes[i], y)
  }

  ghost predicate LawfulAt(m: PosMap, node: Node, y: string) {
    && (forall at :: FirstPlace(m, y, node, at) ==> MappedAt(m, node, y, at))
    && (Unmapped(m, node) <==> NoPlace(m, y, node))
  }

  lemma FirstPlaceUnique(m: PosMap, y: string, node: Node, a: nat, b: nat)
    requires FirstPlace(m, y, node, a) && FirstPlace(m, y, node, b)
    ensures a == b
  {
  }

  lemma PlacedIsLawful(m: PosMap, node: Node, y: string, p: Option<nat>)
    requires node.text != ""
    requires if p.Some? then FirstPlace(m, y, node, p.value) && MappedAt(m, node, y, p.value)
             else NoPlace(m, y, node) && Unmapped(m, node)
    ensures LawfulAt(m, node, y)
  {
    forall at | FirstPlace(m, y, node, at)
      ensures MappedAt(m, node, y, at)
    {
      if p.Some? {
        FirstPlaceUnique(m, y, node, at, p.value);
      }
    }
    if p.Some? {
      assert p.value in m && m[p.value] == node.pos;
    }
  }

  lemma {:induction false} BuildIsLawful(nodes: seq<Node>, y: string)
    requires Ordered(nodes)
    ensures Lawful(Build(nodes, y).0, nodes, y)
  {
    var m := Build(nodes, y).0;
    MapIsFaithful(nodes, y);
    forall i | 0 <= i < |nodes| && nodes[i].text != ""
      ensures LawfulAt(m, nodes[i], y)
    {
      PlaceIsFirst(nodes, y, i);
      NodesAreWholeOrSkipped(nodes, y, i);
      PlacedIsLawful(m, nodes[i], y, PlaceOf(nodes, y, i));
    }
  }

  /** Every entry of `m` with a position below `p` is in `n` too. */
  ghost predicate InBelow(m: PosMap, n: PosMap, p: nat) {
    forall k :: k in m && m[k] < p ==> k in n && n[k] == m[k]
  }

  ghost predicate AgreeBelow(m: PosMap, n: PosMap, p: nat) {
    InBelow(m, n, p) && InBelow(n, m, p)
  }

  lemma PlacesAgree(m: PosMap, n: PosMap, y: string, node: Node)
    requires AgreeBelow(m, n, node.pos)
    ensures NoPlace(m, y, node) <==> NoPlace(n, y, node)
    ensures forall at :: FirstPlace(m, y, node, at) <==> FirstPlace(n, y, node, at)
  {
    assert forall k: nat :: Behind(m, node, k) <==> Behind(n, node, k);
  }

  lemma HasFirstPlace(m: PosMap, y: string, node: Node) returns (at: nat)
    requires !NoPlace(m, y, node)
    ensures FirstPlace(m, y, node, at)
  {
    var k: nat :| OccursAt(y, node.text, k) && Behind(m, node, k);
    at := 0;
    while !(OccursAt(y, node.text, at) && Behind(m, node, at))
      invariant at <= k
      invariant forall j :: 0 <= j < at && OccursAt(y, node.text, j) ==> !Behind(m, node, j)
      decreases k - at
    {
      at := at + 1;
    }
  }

  /** Two lawful maps that agree in front of a node agree on the node. */
  lemma NodeAgrees(m: PosMap, n: PosMap, y: string, node: Node)
    requires Increasing(m) && LawfulAt(m, node, y) && LawfulAt(n, node, y) && AgreeBelow(m, n, node.pos)
    ensures InBelow(m, n, End(node))
  {
    PlacesAgree(m, n, y, node);
    if !NoPlace(m, y, node) {
      var at := HasFirstPlace(m, y, node);
      forall k | k in m && node.pos <= m[k] < End(node)
        ensures k in n && n[k] == m[k]
      {
        var j := at + (m[k] - node.pos);
        assert j in m && m[j] == m[k];
        assert j == k;
      }
    }
  }

  /** Nothing is mapped between two nodes. */
  lemma GapAgrees(m: PosMap, n: PosMap, nodes: seq<Node>, y: string, i: nat)
    requires Ordered(nodes) && MapsCharacters(m, nodes, y) && i < |nodes| && InBelow(m, n, End(nodes[i]))
    ensures if i + 1 < |nodes| then InBelow(m, n, nodes[i + 1].pos) else forall k :: k in m ==> k in n && n[k] == m[k]
  {
    forall k | k in m && (i + 1 < |nodes| ==> m[k] < nodes[i + 1].pos)
      ensures m[k] < End(nodes[i])
    {
      var j :| 0 <= j < |nodes| && Shows(nodes[j], m[k], y[k]);
    }
  }

  lemma NothingBeforeFirst(m: PosMap, n: PosMap, nodes: seq<Node>, y: string)
    requires Ordered(nodes) && nodes != [] && MapsCharacters(m, nodes, y)
    ensures InBelow(m, n, nodes[0].pos)
  {
    forall k | k in m
      ensures m[k] >= nodes[0].pos
    {
      var j :| 0 <= j < |nodes| && Shows(nodes[j], m[k], y[k]);
    }
  }

  ghost predicate Included(m: PosMap, n: PosMap) {
    forall k :: k in m ==> k in n && n[k] == m[k]
  }

  /** The two maps agree before node `i`, or on everything if there is no such node. */
  ghost predicate IncludedTo(m: PosMap, n: PosMap, nodes: seq<Node>, i: nat) {
    if i < |nodes| then InBelow(m, n, nodes[i].pos) else Included(m, n)
  }

  lemma IncludedNext(m: PosMap, n: PosMap, nodes: seq<Node>, y: string, i: nat)
    requires Ordered(nodes) && i < |nodes| && Increasing(m) && MapsCharacters(m, nodes, y)
    requires nodes[i].text != "" ==> LawfulAt(m, nodes[i], y) && LawfulAt(n, nodes[i], y)
    requires IncludedTo(m, n, nodes, i) && IncludedTo(n, m, nodes, i)
    ensures IncludedTo(m, n, nodes, i + 1)
  {
    if nodes[i].text != "" {
      NodeAgrees(m, n, y, nodes[i]);
    }
    GapAgrees(m, n, nodes, y, i);
  }

  ghost predicate BothTo(m: PosMap, n: PosMap, nodes: seq<Node>, i: nat) {
    IncludedTo(m, n, nodes, i) && IncludedTo(n, m, nodes, i)
  }

  lemma BothStart(m: PosMap, n: PosMap, nodes: seq<Node>, y: string)
    requires Ordered(nodes) && Lawful(m, nodes, y) && Lawful(n, nodes, y)
    ensures BothTo(m, n, nodes, 0)
  {
    if nodes != [] {
      NothingBeforeFirst(m, n, nodes, y);
      NothingBeforeFirst(n, m, nodes, y);
    }
  }

  lemma BothStep(m: PosMap, n: PosMap, nodes: seq<Node>, y: string, i: nat)
    requires Ordered(nodes) && Lawful(m, nodes, y) && Lawful(n, nodes, y) && i < |nodes| && BothTo(m, n, nodes, i)
    ensures BothTo(m, n, nodes, i + 1)
  {
    IncludedNext(m, n, nodes, y, i);
    IncludedNext(n, m, nodes, y, i);
  }

  ghost predicate Inductive(m: PosMap, n: PosMap, nodes: seq<Node>) {
    BothTo(m, n, nodes, 0) && forall i :: 0 <= i < |nodes| && BothTo(m, n, nodes, i) ==> BothTo(m, n, nodes, i + 1)
  }

  lemma LawfulIsInductive(m: PosMap, n: PosMap, nodes: seq<Node>, y: string)
    requires Ordered(nodes) && Lawful(m, nodes, y) && Lawful(n, nodes, y)
    ensures Inductive(m, n, nodes)
  {
    BothStart(m, n, nodes, y);
    forall i | 0 <= i < |nodes| && BothTo(m, n, nodes, i)
      ensures BothTo(m, n, nodes, i + 1)
    {
      BothStep(m, n, nodes, y, i);
    }
  }

  lemma {:induction false} InductiveTo(m: PosMap, n: PosMap, nodes: seq<Node>, i: nat)
    requires Inductive(m, n, nodes) && i <= |nodes|
    ensures BothTo(m, n, nodes, i)
  {
    if i > 0 {
      InductiveTo(m, n, nodes, i - 1);
    }
  }

  lemma IncludedBothWays(m: PosMap, n: PosMap)
    requires Included(m, n) && Included(n, m)
    ensures m == n
  {
  }

  lemma InductiveIsEqual(m: PosMap, n: PosMap, nodes: seq<Node>)
    requires Inductive(m, n, nodes)
    ensures m == n
  {
    InductiveTo(m, n, nodes, |nodes|);
    IncludedBothWays(m, n);
  }

  /** There is only one lawful map. */
  lemma LawfulIsUnique(m: PosMap, n: PosMap, nodes: seq<Node>, y: string)
    requires Ordered(nodes) && Lawful(m, nodes, y) && Lawful(n, nodes, y)
    ensures m == n
  {
    LawfulIsInductive(m, n, nodes, y);
    InductiveIsEqual(m, n, nodes);
  }

  /** So the law says everything there is to say about the map that is built. */
  lemma {:induction false} BuildIsTheLawfulMap(m: PosMap, nodes: seq<Node>, y: string)
    requires Ordered(nodes)
    ensures m == Build(nodes, y).0 <==> Lawful(m, nodes, y)
  {
    BuildIsLawful(nodes, y);
    if Lawful(m, nodes, y) {
      LawfulIsUnique(m, Build(nodes, y).0, nodes, y);
    }
  }

  // ---- selections

  /** Source offset `k` is mapped into the selection [from, to) of positions. */
  ghost predicate Selected(m: PosMap, from: nat, to: nat, k: nat) {
    k in m && from <= m[k] < to
  }

  ghost predicate Sorted(ks: seq<nat>) {
    forall i, j :: 0 <= i < j < |ks| ==> ks[i] < ks[j]
  }

  ghost predicate KeysOf(ks: seq<nat>, m: PosMap) {
    Sorted(ks) && forall k :: k in ks <==> k in m
  }

  method InsertKey(ks: seq<nat>, k: nat) returns (r: seq<nat>)
    requires Sorted(ks) && k !in ks
    ensures Sorted(r) && forall x :: x in r <==> x in ks || x == k
  {
    var i := 0;
    while i < |ks| && ks[i] < k
      invariant 0 <= i <= |ks| && forall j :: 0 <= j < i ==> ks[j] < k
    {
      i := i + 1;
    }
    r := ks[..i] + [k] + ks[i..];
  }

  /** The keys in ascending order. */
  method SortedKeys(m: PosMap) returns (ks: seq<nat>)
    ensures KeysOf(ks, m)
  {
    ks := [];
    var rest := m.Keys;
    while rest != {}
      invariant Sorted(ks) && rest <= m.Keys
      invariant forall k :: k in ks <==> k in m && k !in rest
      decreases |rest|
    {
      var k :| k in rest;
      ks := InsertKey(ks, k);
      rest := rest - {k};
    }
  }

  /** The range from the first to the last selected offset; none exactly when the selection holds
      no mapped character. */
  ghost predicate IsRange(m: PosMap, from: nat, to: nat, r: Option<(nat, nat)>) {
    if r.None? then forall k :: !Selected(m, from, to, k)
    else
      && r.value.1 > 0 && Selected(m, from, to, r.value.0) && Selected(m, from, to, r.value.1 - 1)
      && forall k: nat :: Selected(m, from, to, k) ==> r.value.0 <= k < r.value.1
  }

  /** Nothing behind a key that is mapped beyond the selection can be in it. */
  lemma NothingFurther(m: PosMap, ks: seq<nat>, i: nat, from: nat, to: nat)
    requires Increasing(m) && KeysOf(ks, m) && i < |ks| && ks[i] in m && m[ks[i]] >= to
    ensures forall j :: i <= j < |ks| ==> !Selected(m, from, to, ks[j])
  {
    forall j | i <= j < |ks|
      ensures !Selected(m, from, to, ks[j])
    {
      assert ks[j] in ks;
    }
  }

  /** `start` and `last` are the first and the last of the first `i` keys that are selected. */
  ghost predicate RangeUpTo(m: PosMap, from: nat, to: nat, ks: seq<nat>, i: nat, start: Option<nat>, last: Option<nat>)
    requires i <= |ks|
  {
    if start.None? || last.None? then start.None? && last.None? && forall j :: 0 <= j < i ==> !Selected(m, from, to, ks[j])
    else
      && Selected(m, from, to, start.value) && Selected(m, from, to, last.value)
      && start.value <= last.value && (i == |ks| || last.value < ks[i])
      && forall j :: 0 <= j < i && Selected(m, from, to, ks[j]) ==> start.value <= ks[j] <= last.value
  }

  lemma RangeIsWhole(m: PosMap, from: nat, to: nat, ks: seq<nat>, start: Option<nat>, last: Option<nat>)
    requires KeysOf(ks, m) && RangeUpTo(m, from, to, ks, |ks|, start, last)
    ensures IsRange(m, from, to, if start.None? then None else Some((start.value, last.value + 1)))
  {
    forall k: nat | Selected(m, from, to, k)
      ensures start.Some? && start.value <= k <= last.value
    {
      assert k in ks;
    }
  }

  method RangeOf(m: PosMap, from: nat, to: nat) returns (r: Option<(nat, nat)>)
    requires Increasing(m)
    ensures IsRange(m, from, to, r)
  {
    if to <= from {
      return None;
    }
    var ks := SortedKeys(m);
    var start: Option<nat>, last: Option<nat> := None, None;
    for i := 0 to |ks|
      invariant RangeUpTo(m, from, to, ks, i, start, last)
    {
      var yOff := ks[i];
      assert yOff in ks;
      if m[yOff] >= to {
        NothingFurther(m, ks, i, from, to);
        assert RangeUpTo(m, from, to, ks, |ks|, start, last);
        break;
      }
      if m[yOff] >= from {
        if start.None? {
          start := Some(yOff);
        }
        last := Some(yOff);
      }
    }
    RangeIsWhole(m, from, to, ks, start, last);
    r := if start.None? then None else Some((start.value, last.value + 1));
  }

  method PmRangeToYText(nodes: seq<Node>, y: string, from: nat, to: nat) returns (r: Option<(nat, nat)>)
    requires Ordered(nodes)
    ensures IsRange(Build(nodes, y).0, from, to, r)
  {
    MapIsFaithful(nodes, y);
    var m := BuildPositionMap(nodes, y);
    r := RangeOf(m, from, to);
  }

  /** `a` is the first and `b` the last mapped offset in [start, end). */
  ghost predicate Ends(m: PosMap, start: nat, end: nat, a: nat, b: nat) {
    && a in m && b in m && start <= a <= b < end
    && forall k :: k in m && start <= k < end ==> a <= k <= b
  }

  /** The positions from the first mapped offset of [start, end) to behind the last; none exactly
      when no offset in it is mapped. */
  ghost predicate IsSnap(m: PosMap, start: nat, end: nat, r: Option<(nat, nat)>) {
    if r.None? then forall k :: k in m ==> !(start <= k < end)
    else exists a, b :: Ends(m, start, end, a, b) && r.value == (m[a], m[b] + 1)
  }

  method FirstKeyFrom(m: PosMap, start: nat, end: nat) returns (r: Option<nat>)
    ensures r.None? <==> forall k :: k in m ==> !(start <= k < end)
    ensures r.Some? ==> r.value in m && start <= r.value < end
    ensures r.Some? ==> forall k :: k in m && start <= k < end ==> r.value <= k
  {
    if start < end && start in m {
      return Some(start);
    }
    var ks := SortedKeys(m);
    for i := 0 to |ks|
      invariant forall j :: 0 <= j < i ==> ks[j] < start
    {
      assert ks[i] in ks;
      if ks[i] >= start {
        assert forall k :: k in m && start <= k ==> k in ks[i..];
        if ks[i] >= end {
          return None;
        }
        return Some(ks[i]);
      }
    }
    r := None;
  }

  /** The last key below `end`, given one that is. */
  method LastKeyBelow(m: PosMap, end: nat, some: nat) returns (r: nat)
    requires some in m && some < end
    ensures r in m && some <= r < end && forall k :: k in m && k < end ==> k <= r
  {
    if end - 1 in m {
      return end - 1;
    }
    var ks := SortedKeys(m);
    assert some in ks;
    var i := |ks| - 1;
    while ks[i] > end - 1
      invariant 0 <= i < |ks| && some in ks[..i + 1]
      invariant forall j :: i < j < |ks| ==> ks[j] > end - 1
    {
      i := i - 1;
    }
    r := ks[i];
    assert r in ks;
    assert forall k :: k in m && k > r ==> k in ks[i + 1..];
  }

  /** Snap a source range onto positions: forward at the start, backward at the end. */
  method SnapRange(start: nat, end: nat, m: PosMap) returns (r: Option<(nat, nat)>)
    ensures IsSnap(m, start, end, r)
  {
    if end <= start {
      return None;
    }
    var first := FirstKeyFrom(m, start, end);
    if first.None? {
      return None;
    }
    var last := LastKeyBelow(m, end, first.value);
    assert Ends(m, start, end, first.value, last);
    r := Some((m[first.value], m[last] + 1));
  }

  /** Exactly the hull of the mapped characters inside the selection, and never outside it. */
  ghost predicate IsHull(m: PosMap, from: nat, to: nat, r: Option<(nat, nat)>) {
    if r.None? then forall k :: !Selected(m, from, to, k)
    else
      && from <= r.value.0 < r.value.1 <= to
      && (exists a, b :: Selected(m, from, to, a) && Selected(m, from, to, b) && r.value == (m[a], m[b] + 1))
      && (forall k :: Selected(m, from, to, k) ==> r.value.0 <= m[k] < r.value.1)
  }

  /** A selection projected to the source and snapped back is its hull. */
  lemma SnappedRangeIsHull(m: PosMap, from: nat, to: nat, range: Option<(nat, nat)>, r: Option<(nat, nat)>)
    requires Increasing(m) && IsRange(m, from, to, range)
    requires if range.None? then r.None? else IsSnap(m, range.value.0, range.value.1, r)
    ensures IsHull(m, from, to, r)
  {
    if range.Some? {
      var (start, end) := range.value;
      assert start in m && start <= start < end;
      var a, b :| Ends(m, start, end, a, b) && r.value == (m[a], m[b] + 1);
      assert a == start && b == end - 1;
    }
  }

  method SelectionHull(nodes: seq<Node>, y: string, from: nat, to: nat) returns (r: Option<(nat, nat)>)
    requires Ordered(nodes)
    ensures IsHull(Build(nodes, y).0, from, to, r)
  {
    MapIsFaithful(nodes, y);
    r := None;
    var range := PmRangeToYText(nodes, y, from, to);
    if range.Some? {
      var m := BuildPositionMap(nodes, y);
      r := SnapRange(range.value.0, range.value.1, m);
    }
    SnappedRangeIsHull(Build(nodes, y).0, from, to, range, r);
  }
}
