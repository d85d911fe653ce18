/** Formatting authorship: text nodes that one user wrote and another one wrapped in a mark. */
module Overrides {
  import opened Options
  import opened PositionMap

  /** One run of characters in the item chain of a Y.Text. Yjs items are never empty. */
  datatype RawItem = RawItem(client: nat, deleted: bool, content: string)
  type Item = i: RawItem | |i.content| > 0 witness RawItem(0, true, " ")

  datatype Pattern = Pattern(mark: string, open: string, close: string)

  datatype Override = Override(from: nat, to: nat, delimiterUser: string, textUser: string)

  /** The visible text of an item chain. */
  function Visible(items: seq<Item>): string {
    if items == [] then ""
    else
      var last := items[|items| - 1];
      Visible(items[..|items| - 1]) + if last.deleted then "" else last.content
  }

  /** The client that wrote the visible character at `k`. */
  function AuthorAt(items: seq<Item>, k: nat): nat
    requires k < |Visible(items)|
  {
    var pre, last := items[..|items| - 1], items[|items| - 1];
    if k < |Visible(pre)| then AuthorAt(pre, k) else last.client
  }

  // ---- collecting the clients of a range

  /** Clients of the live items that overlap [start, end). */
  function Overlapping(items: seq<Item>, start: nat, end: nat): set<nat> {
    if items == [] then {}
    else
      var pre, last := items[..|items| - 1], items[|items| - 1];
      var itemStart, itemEnd := |Visible(pre)|, |Visible(items)|;
      Overlapping(pre, start, end) +
        if !last.deleted && itemStart < end && itemEnd > start then {last.client} else {}
  }

  method CollectClientsInRange(items: seq<Item>, start: nat, end: nat) returns (clients: set<nat>)
    ensures clients == Overlapping(items, start, end)
  {
    clients := {};
    var offset := 0;
    for i := 0 to |items|
      invariant clients == Overlapping(items[..i], start, end) && offset == |Visible(items[..i])|
    {
      assert items[..i + 1][..i] == items[..i];
      if !items[i].deleted {
        var itemStart, itemEnd := offset, offset + |items[i].content|;
        if itemStart < end && itemEnd > start {
          clients := clients + {items[i].client};
        }
        offset := offset + |items[i].content|;
      }
    }
    assert items[..|items|] == items;
  }

  /** `c` wrote some character of [start, end). */
  ghost predicate Wrote(items: seq<Item>, start: nat, end: nat, c: nat) {
    exists k :: start <= k < end && k < |Visible(items)| && AuthorAt(items, k) == c
  }

  /** `c` wrote every character of [start, end). */
  ghost predicate WroteAll(items: seq<Item>, start: nat, end: nat, c: nat) {
    end <= |Visible(items)| && forall k :: start <= k < end ==> AuthorAt(items, k) == c
  }

  /** The collected clients are exactly the authors of the characters, for every nonempty range. */
  lemma {:induction false} CollectedAreAuthors(items: seq<Item>, start: nat, end: nat, c: nat)
    requires start < end
    ensures c in Overlapping(items, start, end) <==> Wrote(items, start, end, c)
  {
    if items != [] {
      var pre, last := items[..|items| - 1], items[|items| - 1];
      CollectedAreAuthors(pre, start, end, c);
      var a, b := |Visible(pre)|, |Visible(items)|;
      if Wrote(pre, start, end, c) {
        var k :| start <= k < end && k < a && AuthorAt(pre, k) == c;
        assert AuthorAt(items, k) == c;
      }
      if !last.deleted && a < end && b > start && last.client == c {
        var k := if start < a then a else start;
        assert AuthorAt(items, k) == c;
      }
      if Wrote(items, start, end, c) {
        var k :| start <= k < end && k < b && AuthorAt(items, k) == c;
        if k < a {
          assert AuthorAt(pre, k) == c;
        }
      }
    }
  }

  /** Item `i` is live, starts before `end` and ends behind `start`. */
  ghost predicate MeetsAt(items: seq<Item>, i: nat, start: nat, end: nat)
    requires i < |items|
  {
    !items[i].deleted && |Visible(items[..i])| < end && start < |Visible(items[..i + 1])|
  }

  /** For an empty range: the offset cuts an item in two. */
  ghost predicate Meets(items: seq<Item>, start: nat, end: nat) {
    exists i :: 0 <= i < |items| && MeetsAt(items, i, start, end)
  }

  lemma {:induction false} CollectsUpTo(items: seq<Item>, n: nat, start: nat, end: nat)
    requires n <= |items|
    ensures Overlapping(items[..n], start, end) == {} <==> forall i :: 0 <= i < n ==> !MeetsAt(items, i, start, end)
  {
    if n > 0 {
      CollectsUpTo(items, n - 1, start, end);
      assert items[..n][..n - 1] == items[..n - 1];
      var before := Overlapping(items[..n - 1], start, end);
      assert Overlapping(items[..n], start, end) ==
        before + if MeetsAt(items, n - 1, start, end) then {items[n - 1].client} else {};
      assert items[n - 1].client in before + {items[n - 1].client};
    }
  }

  lemma {:induction false} CollectsNoneIff(items: seq<Item>, start: nat, end: nat)
    ensures Overlapping(items, start, end) == {} <==> !Meets(items, start, end)
  {
    CollectsUpTo(items, |items|, start, end);
    assert items[..|items|] == items;
  }

  /** For every range: the collected clients are exactly the authors of its characters, if and only
      if it is not empty or cuts no item. */
  lemma {:induction false} CollectedAreAuthorsIff(items: seq<Item>, start: nat, end: nat)
    ensures (forall c :: c in Overlapping(items, start, end) <==> Wrote(items, start, end, c))
       <==> start < end || !Meets(items, start, end)
  {
    if start < end {
      forall c
        ensures c in Overlapping(items, start, end) <==> Wrote(items, start, end, c)
      {
        CollectedAreAuthors(items, start, end, c);
      }
    } else {
      CollectsNoneIff(items, start, end);
      if Meets(items, start, end) {
        var c :| c in Overlapping(items, start, end);
        assert !Wrote(items, start, end, c);
      }
    }
  }

  /** Such an item yields its client although nothing lies in the range. */
  lemma {:induction false} EmptyRangeInsideAnItem(item: Item, at: nat)
    requires !item.deleted && 0 < at < |item.content|
    ensures Overlapping([item], at, at) == {item.client} && !Wrote([item], at, at, item.client)
  {
    assert [item][..0] == [] && Visible([item]) == "" + item.content;
  }

  /** What is collected at a single offset wrote on both sides of it. */
  lemma {:induction false} CutItemIsAround(items: seq<Item>, at: nat, c: nat)
    requires c in Overlapping(items, at, at)
    ensures 0 < at < |Visible(items)| && AuthorAt(items, at - 1) == c && AuthorAt(items, at) == c
  {
    var pre := items[..|items| - 1];
    if c in Overlapping(pre, at, at) {
      CutItemIsAround(pre, at, c);
    }
  }

  // ---- matching one delimiter pattern

  /** All delimiter characters around [s, e) have one author and all characters inside another. */
  ghost predicate Wrapped(items: seq<Item>, p: Pattern, s: nat, e: nat, delim: nat, inner: nat) {
    && delim != inner && |p.open| <= s
    && WroteAll(items, s - |p.open|, s, delim)
    && WroteAll(items, e, e + |p.close|, delim)
    && WroteAll(items, s, e, inner)
  }

  /** The two users, when both clients resolve to different nonempty names. */
  function Names(users: map<nat, string>, delim: nat, inner: nat): Option<(string, string)> {
    if delim in users && inner in users && users[delim] != "" && users[inner] != "" && users[delim] != users[inner]
    then Some((users[delim], users[inner]))
    else None
  }

  /** The source reads open delimiter, text, close delimiter at `s`. */
  predicate Delimited(y: string, p: Pattern, s: nat, len: nat) {
    && |p.open| <= s
    && OccursAt(y, p.open, s - |p.open|)
    && OccursAt(y, p.close, s + len)
  }

  lemma OccurTogether(y: string, a: string, b: string, k: nat)
    ensures OccursAt(y, a + b, k) <==> OccursAt(y, a, k) && OccursAt(y, b, k + |a|)
  {
    if k + |a + b| <= |y| {
      var all := y[k..k + |a + b|];
      assert all == y[k..k + |a|] + y[k + |a|..k + |a| + |b|];
      assert (a + b)[..|a|] == a && (a + b)[|a|..] == b;
      assert all[..|a|] == y[k..k + |a|] && all[|a|..] == y[k + |a|..k + |a| + |b|];
    }
  }

  /** Around a text that stands at `s`: the source reads the two delimiters right in front and right behind. */
  lemma DelimitedIff(y: string, p: Pattern, s: nat, t: string)
    requires OccursAt(y, t, s)
    ensures Delimited(y, p, s, |t|) <==>
      exists before, behind :: |before| + |p.open| == s && y == before + (p.open + t + p.close) + behind
  {
    if |p.open| <= s {
      var at := s - |p.open|;
      OccurTogether(y, p.open, t, at);
      OccurTogether(y, p.open + t, p.close, at);
      OccursIff(y, p.open + t + p.close, at);
    }
  }

  /** The only member of a set, if it has exactly one. */
  method Single(s: set<nat>) returns (r: Option<nat>)
    ensures r.Some? <==> exists c :: s == {c}
    ensures r.Some? ==> s == {r.value}
  {
    if s == {} {
      return None;
    }
    var c :| c in s;
    if s != {c} {
      assert forall d :: s == {d} ==> d == c;
      return None;
    }
    r := Some(c);
  }

  ghost function DelimiterClients(items: seq<Item>, p: Pattern, s: nat, e: nat): set<nat>
    requires |p.open| <= s
  {
    Overlapping(items, s - |p.open|, s) + Overlapping(items, e, e + |p.close|)
  }

  /** What one pattern yields for the node found at `s`. */
  ghost predicate Hit(items: seq<Item>, users: map<nat, string>, p: Pattern, s: nat, len: nat,
                      delim: nat, inner: nat) {
    && Delimited(Visible(items), p, s, len)
    && DelimiterClients(items, p, s, s + len) == {delim}
    && Overlapping(items, s, s + len) == {inner}
    && delim != inner
    && Names(users, delim, inner).Some?
  }

  ghost function HitNames(items: seq<Item>, users: map<nat, string>, p: Pattern, s: nat, len: nat): (r: Option<(string, string)>)
    ensures r.Some? <==> exists delim, inner :: Hit(items, users, p, s, len, delim, inner)
    ensures forall delim, inner :: Hit(items, users, p, s, len, delim, inner) ==> r == Names(users, delim, inner)
  {
    if exists delim, inner :: Hit(items, users, p, s, len, delim, inner) then
      var delim, inner :| Hit(items, users, p, s, len, delim, inner);
      assert forall d, i :: Hit(items, users, p, s, len, d, i) ==> d in {delim} && i in {inner};
      Names(users, delim, inner)
    else None
  }

  method MatchPattern(items: seq<Item>, users: map<nat, string>, p: Pattern, s: nat, len: nat)
    returns (r: Option<(string, string)>)
    ensures r == HitNames(items, users, p, s, len)
  {
    var y := TextOf(items);
    if !Delimited(y, p, s, len) {
      return None;
    }
    var openClients := CollectClientsInRange(items, s - |p.open|, s);
    var closeClients := CollectClientsInRange(items, s + len, s + len + |p.close|);
    var delim := Single(openClients + closeClients);
    var textClients := CollectClientsInRange(items, s, s + len);
    var inner := Single(textClients);
    if delim.None? || inner.None? || delim.value == inner.value {
      return None;
    }
    r := Names(users, delim.value, inner.value);
    assert r.Some? ==> Hit(items, users, p, s, len, delim.value, inner.value);
  }

  /** `ytext.toString()`. */
  method TextOf(items: seq<Item>) returns (y: string)
    ensures y == Visible(items)
  {
    y := "";
    for i := 0 to |items|
      invariant y == Visible(items[..i])
    {
      assert items[..i + 1][..i] == items[..i];
      if !items[i].deleted {
        y := y + items[i].content;
      }
    }
    assert items[..|items|] == items;
  }

  /** There is a delimiter, and where one side has none, no item reaches across that end of the text. */
  ghost predicate SetApart(items: seq<Item>, p: Pattern, s: nat, e: nat) {
    && (p.open != "" || p.close != "")
    && (p.open == "" ==> !Meets(items, s, s))
    && (p.close == "" ==> !Meets(items, e, e))
  }

  /** One side of the text: the collected clients are its one author, or nobody if it is empty. Of an
      empty side only an author next to it can be collected. */
  lemma {:induction false} SideClients(items: seq<Item>, start: nat, end: nat, delim: nat, inner: nat)
    requires start <= end <= |Visible(items)| && delim != inner
    requires start == end && 0 < start < |Visible(items)| ==>
      AuthorAt(items, start - 1) == inner || AuthorAt(items, start) == inner
    ensures start < end ==>
      Overlapping(items, start, end) != {} && (Overlapping(items, start, end) == {delim} <==> WroteAll(items, start, end, delim))
    ensures start == end ==>
      Overlapping(items, start, end) <= {inner} && (Overlapping(items, start, end) == {} <==> !Meets(items, start, end))
  {
    if start < end {
      OneAuthor(items, start, end, delim);
    } else {
      CollectsNoneIff(items, start, end);
      forall c | c in Overlapping(items, start, end)
        ensures c == inner
      {
        CutItemIsAround(items, start, c);
      }
    }
  }

  /** Each side has a delimiter author, or at most the inner one; the union is the delimiter author. */
  lemma SidesTogether(x: set<nat>, z: set<nat>, delim: nat, inner: nat)
    requires delim != inner
    ensures x != {} && z != {} ==> (x + z == {delim} <==> x == {delim} && z == {delim})
    ensures x <= {inner} ==> (x + z == {delim} <==> x == {} && z == {delim})
    ensures z <= {inner} ==> (x + z == {delim} <==> z == {} && x == {delim})
  {
    if x + z == {delim} {
      assert inner !in x + z;
      assert x <= x + z && z <= x + z;
      assert x <= {inner} ==> x == {};
      assert z <= {inner} ==> z == {};
    }
  }

  lemma {:induction false} DelimitersIff(items: seq<Item>, p: Pattern, s: nat, e: nat, delim: nat, inner: nat)
    requires |p.open| <= s < e && e + |p.close| <= |Visible(items)| && delim != inner
    requires WroteAll(items, s, e, inner)
    ensures DelimiterClients(items, p, s, e) == {delim} <==>
      && WroteAll(items, s - |p.open|, s, delim) && WroteAll(items, e, e + |p.close|, delim)
      && SetApart(items, p, s, e)
  {
    SideClients(items, s - |p.open|, s, delim, inner);
    SideClients(items, e, e + |p.close|, delim, inner);
    SidesTogether(Overlapping(items, s - |p.open|, s), Overlapping(items, e, e + |p.close|), delim, inner);
  }

  /** For every pattern, also with empty delimiters: a hit is a text by one author in delimiters by
      another, set apart from it, and the two are different named users. */
  lemma {:induction false} HitMeansWrapped(items: seq<Item>, users: map<nat, string>, p: Pattern, s: nat, len: nat,
                                           delim: nat, inner: nat)
    requires len > 0
    ensures Hit(items, users, p, s, len, delim, inner) <==>
      && Delimited(Visible(items), p, s, len)
      && Wrapped(items, p, s, s + len, delim, inner)
      && SetApart(items, p, s, s + len)
      && Names(users, delim, inner).Some?
  {
    if Delimited(Visible(items), p, s, len) && delim != inner {
      OneAuthor(items, s, s + len, inner);
      if WroteAll(items, s, s + len, inner) {
        DelimitersIff(items, p, s, s + len, delim, inner);
      }
    }
  }

  /** A nonempty range inside the text has one collected client exactly when one client wrote it all. */
  lemma {:induction false} OneAuthor(items: seq<Item>, start: nat, end: nat, c: nat)
    requires start < end <= |Visible(items)|
    ensures Overlapping(items, start, end) == {c} <==> WroteAll(items, start, end, c)
    ensures Overlapping(items, start, end) != {}
  {
    var o := Overlapping(items, start, end);
    forall d
      ensures d in o <==> Wrote(items, start, end, d)
    {
      CollectedAreAuthors(items, start, end, d);
    }
    forall k | start <= k < end
      ensures AuthorAt(items, k) in o
    {
      assert Wrote(items, start, end, AuthorAt(items, k));
    }
    assert AuthorAt(items, start) in o;
    if WroteAll(items, start, end, c) {
      forall d | d in o
        ensures d == c
      {
        assert Wrote(items, start, end, d);
      }
      assert o == {c};
    }
  }

  // ---- all overrides of a document

  function Candidates(patterns: seq<Pattern>, mark: string): seq<Pattern> {
    if patterns == [] then []
    else
      var pre, last := patterns[..|patterns| - 1], patterns[|patterns| - 1];
      Candidates(pre, mark) + if last.mark == mark then [last] else []
  }

  /** The first candidate that hits wins. */
  ghost function FirstHit(items: seq<Item>, users: map<nat, string>, ps: seq<Pattern>, s: nat, len: nat): Option<(string, string)> {
    if ps == [] then None
    else
      var h := HitNames(items, users, ps[0], s, len);
      if h.Some? then h else FirstHit(items, users, ps[1..], s, len)
  }

  ghost function MarkHit(items: seq<Item>, users: map<nat, string>, patterns: seq<Pattern>, node: Node, at: nat,
                         mark: string): seq<Override> {
    match FirstHit(items, users, Candidates(patterns, mark), at, |node.text|)
    case None => []
    case Some((delimiterUser, textUser)) => [Override(node.pos, End(node), delimiterUser, textUser)]
  }

  ghost function NodeHits(items: seq<Item>, users: map<nat, string>, patterns: seq<Pattern>, node: Node, at: nat,
                          marks: seq<string>): seq<Override> {
    if marks == [] then []
    else
      NodeHits(items, users, patterns, node, at, marks[..|marks| - 1])
        + MarkHit(items, users, patterns, node, at, marks[|marks| - 1])
  }

  /** The first `n` lists, one behind the other. */
  ghost function Flat<T>(lists: seq<seq<T>>, n: nat): seq<T>
    requires n <= |lists|
  {
    if n == 0 then [] else Flat(lists, n - 1) + lists[n - 1]
  }

  lemma {:induction false} FlatMembers<T>(lists: seq<seq<T>>, n: nat, x: T)
    requires n <= |lists|
    ensures x in Flat(lists, n) <==> exists i :: 0 <= i < n && x in lists[i]
  {
    if n > 0 {
      FlatMembers(lists, n - 1, x);
    }
  }

  /** The overrides of each node. */
  ghost function HitLists(items: seq<Item>, users: map<nat, string>, patterns: seq<Pattern>, nodes: seq<Node>): seq<seq<Override>> {
    seq(|nodes|, i requires 0 <= i < |nodes| => PlaceHits(items, users, patterns, nodes[i], PlaceOf(nodes, Visible(items), i)))
  }

  /** All overrides, in document order. */
  ghost function Hits(items: seq<Item>, users: map<nat, string>, patterns: seq<Pattern>, nodes: seq<Node>): seq<Override> {
    Flat(HitLists(items, users, patterns, nodes), |nodes|)
  }

  /** A node that is not found has no overrides. */
  ghost function PlaceHits(items: seq<Item>, users: map<nat, string>, patterns: seq<Pattern>, node: Node,
                           place: Option<nat>): seq<Override> {
    if place.None? then [] else NodeHits(items, users, patterns, node, place.value, node.marks)
  }

  /** A scan for the entry that maps to the node's position. */
  method FindYTextStart(m: PosMap, pos: nat) returns (r: Option<nat>)
    ensures r.Some? ==> r.value in m && m[r.value] == pos
    ensures r.None? ==> forall k :: k in m ==> m[k] != pos
  {
    var ks := SortedKeys(m);
    for i := 0 to |ks|
      invariant forall j :: 0 <= j < i ==> ks[j] in m && m[ks[j]] != pos
    {
      assert ks[i] in ks;
      if m[ks[i]] == pos {
        return Some(ks[i]);
      }
    }
    assert forall k :: k in m ==> k in ks;
    r := None;
  }

  /** The scan finds exactly the place of the node. */
  lemma {:induction false} NodeIsFound(nodes: seq<Node>, y: string, i: nat)
    requires Ordered(nodes) && i < |nodes| && nodes[i].text != ""
    ensures var m, p := Build(nodes, y).0, PlaceOf(nodes, y, i);
      if p.Some? then
        && MappedAt(m, nodes[i], y, p.value) && p.value in m && m[p.value] == nodes[i].pos
        && forall k :: k in m && m[k] == nodes[i].pos ==> k == p.value
      else forall k :: k in m ==> m[k] != nodes[i].pos
  {
    var m, p, node := Build(nodes, y).0, PlaceOf(nodes, y, i), nodes[i];
    MapIsFaithful(nodes, y);
    NodesAreWholeOrSkipped(nodes, y, i);
    if p.Some? {
      var s := p.value;
      assert s in m && m[s] == node.pos;
      forall k | k in m && m[k] == node.pos
        ensures k == s
      {
      }
    }
  }

  /** Snapping the range of a node gives exactly the node. */
  lemma NodeIsSnapped(m: PosMap, node: Node, y: string, at: nat, r: Option<(nat, nat)>)
    requires node.text != "" && MappedAt(m, node, y, at) && IsSnap(m, at, at + |node.text|, r)
    ensures r == Some((node.pos, End(node)))
  {
    var s, e := at, at + |node.text|;
    assert s in m && m[s] == node.pos;
    assert e - 1 in m && m[e - 1] == node.pos + (e - 1 - s);
    var a, b :| Ends(m, s, e, a, b) && r.value == (m[a], m[b] + 1);
    assert a == s && b == e - 1;
  }

  method Group(patterns: seq<Pattern>) returns (byMark: map<string, seq<Pattern>>)
    ensures Grouped(patterns, byMark)
  {
    byMark := map[];
    for i := 0 to |patterns|
      invariant forall mark :: Candidates(patterns[..i], mark) == if mark in byMark then byMark[mark] else []
    {
      assert patterns[..i + 1][..i] == patterns[..i];
      var p := patterns[i];
      var list := if p.mark in byMark then byMark[p.mark] else [];
      byMark := byMark[p.mark := list + [p]];
    }
    assert patterns[..|patterns|] == patterns;
  }

  method FirstMatch(items: seq<Item>, users: map<nat, string>, ps: seq<Pattern>, s: nat, len: nat)
    returns (r: Option<(string, string)>)
    ensures r == FirstHit(items, users, ps, s, len)
  {
    for i := 0 to |ps|
      invariant FirstHit(items, users, ps, s, len) == FirstHit(items, users, ps[i..], s, len)
    {
      assert ps[i..][1..] == ps[i + 1..];
      r := MatchPattern(items, users, ps[i], s, len);
      if r.Some? {
        return;
      }
    }
    r := None;
  }

  lemma {:induction false} NodeHitsSnoc(items: seq<Item>, users: map<nat, string>, patterns: seq<Pattern>, node: Node,
                                        at: nat, marks: seq<string>, j: nat)
    requires j < |marks|
    ensures NodeHits(items, users, patterns, node, at, marks[..j + 1])
         == NodeHits(items, users, patterns, node, at, marks[..j]) + MarkHit(items, users, patterns, node, at, marks[j])
  {
    assert marks[..j + 1][..j] == marks[..j];
  }

  ghost predicate Grouped(patterns: seq<Pattern>, byMark: map<string, seq<Pattern>>) {
    forall mark :: Candidates(patterns, mark) == if mark in byMark then byMark[mark] else []
  }

  method NodeOverrides(items: seq<Item>, users: map<nat, string>, ghost patterns: seq<Pattern>,
                       byMark: map<string, seq<Pattern>>, m: PosMap, node: Node, s: nat) returns (os: seq<Override>)
    requires node.text != "" && MappedAt(m, node, Visible(items), s)
    requires Grouped(patterns, byMark)
    ensures os == NodeHits(items, users, patterns, node, s, node.marks)
  {
    os := [];
    for j := 0 to |node.marks|
      invariant os == NodeHits(items, users, patterns, node, s, node.marks[..j])
    {
      NodeHitsSnoc(items, users, patterns, node, s, node.marks, j);
      var one := MarkOverride(items, users, patterns, byMark, m, node, s, node.marks[j]);
      os := os + one;
    }
    assert node.marks[..|node.marks|] == node.marks;
  }

  method MarkOverride(items: seq<Item>, users: map<nat, string>, ghost patterns: seq<Pattern>,
                      byMark: map<string, seq<Pattern>>, m: PosMap, node: Node, s: nat, mark: string)
    returns (os: seq<Override>)
    requires node.text != "" && MappedAt(m, node, Visible(items), s)
    requires Grouped(patterns, byMark)
    ensures os == MarkHit(items, users, patterns, node, s, mark)
  {
    if mark !in byMark {
      return [];
    }
    var names := FirstMatch(items, users, byMark[mark], s, |node.text|);
    if names.None? {
      return [];
    }
    var snapped := SnapRange(s, s + |node.text|, m);
    NodeIsSnapped(m, node, Visible(items), s, snapped);
    os := [Override(snapped.value.0, snapped.value.1, names.value.0, names.value.1)];
  }

  method VisitNode(items: seq<Item>, users: map<nat, string>, ghost patterns: seq<Pattern>,
                   byMark: map<string, seq<Pattern>>, m: PosMap, nodes: seq<Node>, i: nat) returns (os: seq<Override>)
    requires Ordered(nodes) && i < |nodes| && m == Build(nodes, Visible(items)).0
    requires Grouped(patterns, byMark)
    ensures os == PlaceHits(items, users, patterns, nodes[i], PlaceOf(nodes, Visible(items), i))
  {
    var node := nodes[i];
    if |node.text| == 0 || |node.marks| == 0 {
      return [];
    }
    NodeIsFound(nodes, Visible(items), i);
    var start := FindYTextStart(m, node.pos);
    if start.None? {
      return [];
    }
    os := NodeOverrides(items, users, patterns, byMark, m, node, start.value);
  }

  method FindFormattingOverrides(nodes: seq<Node>, items: seq<Item>, users: map<nat, string>, patterns: seq<Pattern>)
    returns (os: seq<Override>)
    requires Ordered(nodes)
    ensures os == Hits(items, users, patterns, nodes)
  {
    var y := TextOf(items);
    var m := BuildPositionMap(nodes, y);
    var byMark := Group(patterns);
    os := [];
    for i := 0 to |nodes|
      invariant os == Flat(HitLists(items, users, patterns, nodes), i)
    {
      var more := VisitNode(items, users, patterns, byMark, m, nodes, i);
      os := os + more;
    }
  }

  // ---- what is reported

  /** Node `node`, found at `at`, is one user's text wrapped by another user in pattern `p`. */
  ghost predicate WrappedNode(o: Override, items: seq<Item>, users: map<nat, string>, node: Node, at: nat, p: Pattern) {
    && o.from == node.pos && o.to == End(node)
    && OccursAt(Visible(items), node.text, at) && Delimited(Visible(items), p, at, |node.text|)
    && SetApart(items, p, at, at + |node.text|)
    && exists delim, inner ::
         Wrapped(items, p, at, at + |node.text|, delim, inner) && NamedAs(o, users, delim, inner)
  }

  /** The author of the delimiters and the author of the text, by their names, which differ. */
  ghost predicate NamedAs(o: Override, users: map<nat, string>, delim: nat, inner: nat) {
    && delim in users && inner in users
    && o.delimiterUser == users[delim] && o.textUser == users[inner]
    && o.delimiterUser != "" && o.textUser != "" && o.delimiterUser != o.textUser
  }

  lemma {:induction false} FirstHitFinds(items: seq<Item>, users: map<nat, string>, ps: seq<Pattern>, s: nat, len: nat)
    returns (p: Pattern)
    requires FirstHit(items, users, ps, s, len).Some?
    ensures p in ps && HitNames(items, users, p, s, len) == FirstHit(items, users, ps, s, len)
  {
    if HitNames(items, users, ps[0], s, len).Some? {
      p := ps[0];
    } else {
      p := FirstHitFinds(items, users, ps[1..], s, len);
    }
  }

  lemma {:induction false} FirstHitMisses(items: seq<Item>, users: map<nat, string>, ps: seq<Pattern>, s: nat, len: nat)
    requires FirstHit(items, users, ps, s, len).None?
    ensures forall p :: p in ps ==> HitNames(items, users, p, s, len).None?
  {
    if ps != [] {
      FirstHitMisses(items, users, ps[1..], s, len);
    }
  }

  lemma {:induction false} CandidatesAre(patterns: seq<Pattern>, mark: string, p: Pattern)
    ensures p in Candidates(patterns, mark) <==> p in patterns && p.mark == mark
  {
    if patterns != [] {
      var pre, last := patterns[..|patterns| - 1], patterns[|patterns| - 1];
      assert patterns == pre + [last];
      CandidatesAre(pre, mark, p);
    }
  }

  lemma {:induction false} HitIsWrappedNode(items: seq<Item>, users: map<nat, string>, node: Node, at: nat, p: Pattern,
                                            delim: nat, inner: nat)
    requires node.text != "" && OccursAt(Visible(items), node.text, at)
    requires Hit(items, users, p, at, |node.text|, delim, inner)
    ensures var names := Names(users, delim, inner).value;
      WrappedNode(Override(node.pos, End(node), names.0, names.1), items, users, node, at, p)
  {
    HitMeansWrapped(items, users, p, at, |node.text|, delim, inner);
    var names := Names(users, delim, inner).value;
    assert NamedAs(Override(node.pos, End(node), names.0, names.1), users, delim, inner);
  }

  lemma WrappedNodeIsHit(items: seq<Item>, users: map<nat, string>, node: Node, at: nat, p: Pattern, o: Override)
    returns (delim: nat, inner: nat)
    requires node.text != "" && WrappedNode(o, items, users, node, at, p)
    ensures Hit(items, users, p, at, |node.text|, delim, inner)
  {
    delim, inner :| Wrapped(items, p, at, at + |node.text|, delim, inner)
      && NamedAs(o, users, delim, inner);
    HitMeansWrapped(items, users, p, at, |node.text|, delim, inner);
  }

  lemma {:induction false} MarkHitIsWrapped(items: seq<Item>, users: map<nat, string>, patterns: seq<Pattern>,
                                            node: Node, at: nat, mark: string)
    requires node.text != "" && OccursAt(Visible(items), node.text, at)
    ensures forall o :: o in MarkHit(items, users, patterns, node, at, mark) ==>
      exists p :: p in patterns && p.mark == mark && WrappedNode(o, items, users, node, at, p)
    ensures MarkHit(items, users, patterns, node, at, mark) == [] ==>
      forall p, o :: p in patterns && p.mark == mark ==> !WrappedNode(o, items, users, node, at, p)
  {
    var cands, len := Candidates(patterns, mark), |node.text|;
    if FirstHit(items, users, cands, at, len).Some? {
      var p := FirstHitFinds(items, users, cands, at, len);
      CandidatesAre(patterns, mark, p);
      var delim, inner :| Hit(items, users, p, at, len, delim, inner);
      HitIsWrappedNode(items, users, node, at, p, delim, inner);
    } else {
      FirstHitMisses(items, users, cands, at, len);
      forall p, o | p in patterns && p.mark == mark
        ensures !WrappedNode(o, items, users, node, at, p)
      {
        CandidatesAre(patterns, mark, p);
        if WrappedNode(o, items, users, node, at, p) {
          var _, _ := WrappedNodeIsHit(items, users, node, at, p, o);
        }
      }
    }
  }

  /** `o` reports node `node`, found at `at`, for one of `marks` and one of the patterns. */
  ghost predicate Reported(o: Override, items: seq<Item>, users: map<nat, string>, patterns: seq<Pattern>, node: Node,
                           at: nat, marks: seq<string>) {
    exists p :: p in patterns && p.mark in marks && WrappedNode(o, items, users, node, at, p)
  }

  lemma {:induction false} NodeHitsAreWrapped(items: seq<Item>, users: map<nat, string>, patterns: seq<Pattern>,
                                              node: Node, at: nat, marks: seq<string>)
    requires node.text != "" && OccursAt(Visible(items), node.text, at)
    ensures forall o :: o in NodeHits(items, users, patterns, node, at, marks) ==>
      Reported(o, items, users, patterns, node, at, marks)
    ensures NodeHits(items, users, patterns, node, at, marks) == [] ==>
      forall o :: !Reported(o, items, users, patterns, node, at, marks)
  {
    if marks != [] {
      var pre, mark := marks[..|marks| - 1], marks[|marks| - 1];
      assert marks == pre + [mark];
      NodeHitsAreWrapped(items, users, patterns, node, at, pre);
      MarkHitIsWrapped(items, users, patterns, node, at, mark);
      forall o | o in NodeHits(items, users, patterns, node, at, marks)
        ensures Reported(o, items, users, patterns, node, at, marks)
      {
        if o in NodeHits(items, users, patterns, node, at, pre) {
          var p :| p in patterns && p.mark in pre && WrappedNode(o, items, users, node, at, p);
          assert p.mark in marks;
        } else {
          var p :| p in patterns && p.mark == mark && WrappedNode(o, items, users, node, at, p);
          assert p.mark in marks;
        }
      }
      if NodeHits(items, users, patterns, node, at, marks) == [] {
        forall o
          ensures !Reported(o, items, users, patterns, node, at, marks)
        {
          if p :| p in patterns && p.mark in marks && WrappedNode(o, items, users, node, at, p) {
            assert p.mark in pre ==> Reported(o, items, users, patterns, node, at, pre);
          }
        }
      }
    }
  }

  /** `o` reports node `i` of the document where that node was found. */
  ghost predicate ReportsNode(o: Override, items: seq<Item>, users: map<nat, string>, patterns: seq<Pattern>,
                              nodes: seq<Node>, i: nat) {
    && i < |nodes| && PlaceOf(nodes, Visible(items), i).Some?
    && Reported(o, items, users, patterns, nodes[i], PlaceOf(nodes, Visible(items), i).value, nodes[i].marks)
  }

  /** Of several patterns for one mark the first that hits is the one reported. */
  lemma {:induction false} FirstPatternWins(items: seq<Item>, users: map<nat, string>, ps: seq<Pattern>, s: nat,
                                            len: nat, j: nat)
    requires j < |ps| && HitNames(items, users, ps[j], s, len).Some?
    requires forall i :: 0 <= i < j ==> HitNames(items, users, ps[i], s, len).None?
    ensures FirstHit(items, users, ps, s, len) == HitNames(items, users, ps[j], s, len)
    decreases |ps|
  {
    if j > 0 {
      FirstPatternWins(items, users, ps[1..], s, len, j - 1);
    }
  }

  lemma {:induction false} NodeHitsCover(items: seq<Item>, users: map<nat, string>, patterns: seq<Pattern>, node: Node,
                                         at: nat, marks: seq<string>)
    ensures |NodeHits(items, users, patterns, node, at, marks)| <= |marks|
    ensures forall o :: o in NodeHits(items, users, patterns, node, at, marks) ==> o.from == node.pos && o.to == End(node)
  {
    if marks != [] {
      NodeHitsCover(items, users, patterns, node, at, marks[..|marks| - 1]);
    }
  }

  ghost predicate FromAll(os: seq<Override>, p: nat) {
    forall k :: 0 <= k < |os| ==> os[k].from == p
  }

  ghost predicate InDocumentOrder(os: seq<Override>) {
    forall k, l :: 0 <= k < l < |os| ==> os[k].from <= os[l].from
  }

  ghost predicate FromBelow(os: seq<Override>, p: nat) {
    forall k :: 0 <= k < |os| ==> os[k].from <= p
  }

  lemma OrderExtends(os: seq<Override>, more: seq<Override>, p: nat)
    requires InDocumentOrder(os) && FromBelow(os, p) && FromAll(more, p)
    ensures InDocumentOrder(os + more) && FromBelow(os + more, p)
  {
  }

  lemma {:induction false} FlatInOrder(lists: seq<seq<Override>>, ps: seq<nat>, n: nat)
    requires n <= |lists| == |ps| && forall i :: 0 <= i < |ps| ==> FromAll(lists[i], ps[i])
    requires forall i, j :: 0 <= i < j < |ps| ==> ps[i] <= ps[j]
    ensures InDocumentOrder(Flat(lists, n)) && (n > 0 ==> FromBelow(Flat(lists, n), ps[n - 1]))
  {
    if n > 0 {
      FlatInOrder(lists, ps, n - 1);
      OrderExtends(Flat(lists, n - 1), lists[n - 1], ps[n - 1]);
    }
  }

  /** The overrides come in document order, at most one for each mark of a node. */
  lemma OverridesInOrder(items: seq<Item>, users: map<nat, string>, patterns: seq<Pattern>, nodes: seq<Node>)
    requires Ordered(nodes)
    ensures InDocumentOrder(Hits(items, users, patterns, nodes))
    ensures forall i :: 0 <= i < |nodes| ==> |HitLists(items, users, patterns, nodes)[i]| <= |nodes[i].marks|
  {
    var lists := HitLists(items, users, patterns, nodes);
    var ps := seq(|nodes|, i requires 0 <= i < |nodes| => nodes[i].pos);
    forall i | 0 <= i < |nodes|
      ensures FromAll(lists[i], ps[i]) && |lists[i]| <= |nodes[i].marks|
    {
      var place := PlaceOf(nodes, Visible(items), i);
      if place.Some? {
        NodeHitsCover(items, users, patterns, nodes[i], place.value, nodes[i].marks);
        assert forall k :: 0 <= k < |lists[i]| ==> lists[i][k] in lists[i];
      }
    }
    FlatInOrder(lists, ps, |nodes|);
  }

  /** Whatever is reported covers exactly one found text node, whose source reads open delimiter,
      text, close delimiter, all delimiter characters by one author and all inner characters by
      another. */
  lemma OverridesAreSound(items: seq<Item>, users: map<nat, string>, patterns: seq<Pattern>, nodes: seq<Node>, o: Override)
    requires o in Hits(items, users, patterns, nodes)
    ensures exists i :: 0 <= i < |nodes| && ReportsNode(o, items, users, patterns, nodes, i)
  {
    FlatMembers(HitLists(items, users, patterns, nodes), |nodes|, o);
    var i :| 0 <= i < |nodes| && o in HitLists(items, users, patterns, nodes)[i];
    NodeHitsAreWrapped(items, users, patterns, nodes[i], PlaceOf(nodes, Visible(items), i).value, nodes[i].marks);
    assert ReportsNode(o, items, users, patterns, nodes, i);
  }

  /** No found node that one user wrote and another one wrapped goes unreported. */
  lemma OverridesAreComplete(items: seq<Item>, users: map<nat, string>, patterns: seq<Pattern>, nodes: seq<Node>,
                             i: nat, o: Override)
    requires ReportsNode(o, items, users, patterns, nodes, i)
    ensures exists r :: r in Hits(items, users, patterns, nodes) && ReportsNode(r, items, users, patterns, nodes, i)
  {
    var node, at := nodes[i], PlaceOf(nodes, Visible(items), i).value;
    NodeHitsAreWrapped(items, users, patterns, node, at, node.marks);
    var r := NodeHits(items, users, patterns, node, at, node.marks)[0];
    assert r in HitLists(items, users, patterns, nodes)[i];
    FlatMembers(HitLists(items, users, patterns, nodes), |nodes|, r);
  }
}
