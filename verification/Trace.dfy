/**
 Traversal of the trace links of a project. A recursive query keeps a table of rows, one for each way found so far,
 and joins the rows of the last round with the links again, until a round adds none. Each row carries the array of the
 work products on its way; a row that closes a circle is kept but not continued, and so is one at the depth limit.

 The impact of a change follows links from their target up to their source, the report of a root follows them down.
 */
module Trace {
  import opened Wrappers
  import opened Review
  import Canonical

  datatype TraceLink = TraceLink(source: Id, target: Id, kind: string, suspect: bool)

  /** A row has come to `end` over the link at this position. */
  datatype Row = Row(link: nat, end: Id, path: seq<Id>, cycle: bool)

  const Limit: nat := 100

  // ---------------------------------------------------------------- links as steps

  /** Where a step along the link starts, and where it ends: upwards against the link, downwards along it. */
  function From(l: TraceLink, up: bool): Id {
    if up then l.target else l.source
  }

  function To(l: TraceLink, up: bool): Id {
    if up then l.source else l.target
  }

  predicate Hop(links: seq<TraceLink>, up: bool, a: Id, b: Id) {
    exists i | 0 <= i < |links| :: From(links[i], up) == a && To(links[i], up) == b
  }

  predicate Walk(links: seq<TraceLink>, up: bool, w: seq<Id>) {
    w != [] && forall i | 0 <= i < |w| - 1 :: Hop(links, up, w[i], w[i + 1])
  }

  predicate WalkTo(links: seq<TraceLink>, up: bool, root: Id, x: Id, w: seq<Id>) {
    Walk(links, up, w) && w[0] == root && w[|w| - 1] == x
  }

  /** x is reached from the root in at most n steps. */
  ghost predicate Within(links: seq<TraceLink>, up: bool, root: Id, x: Id, n: nat) {
    exists w :: WalkTo(links, up, root, x, w) && |w| <= n + 1
  }

  // ---------------------------------------------------------------- the recursive query

  /** The impact query starts its array with the target, the report with source and target. */
  function BaseRow(links: seq<TraceLink>, up: bool, i: nat): Row
    requires i < |links|
  {
    Row(i, To(links[i], up), if up then [links[i].target] else [links[i].source, links[i].target], false)
  }

  function BaseRows(links: seq<TraceLink>, up: bool, root: Id, n: nat): seq<Row>
    requires n <= |links|
  {
    if n == 0 then []
    else BaseRows(links, up, root, n - 1) + if From(links[n - 1], up) == root then [BaseRow(links, up, n - 1)] else []
  }

  predicate RowFits(links: seq<TraceLink>, r: Row) {
    r.link < |links|
  }

  /** Both queries append the target of the new link, and look for it among the earlier ones. */
  function ChildRow(links: seq<TraceLink>, up: bool, r: Row, i: nat): Row
    requires i < |links|
  {
    Row(i, To(links[i], up), r.path + [links[i].target], links[i].target in r.path)
  }

  /** `level` counts the links of the row after the first: 99 is the last level that is filled. */
  predicate Continues(r: Row, level: nat) {
    level + 1 < Limit && !r.cycle
  }

  function Children(links: seq<TraceLink>, up: bool, r: Row, n: nat): seq<Row>
    requires n <= |links|
  {
    if n == 0 then []
    else Children(links, up, r, n - 1)
         + if From(links[n - 1], up) == r.end then [ChildRow(links, up, r, n - 1)] else []
  }

  function Join(links: seq<TraceLink>, up: bool, rows: seq<Row>, level: nat): seq<Row> {
    if rows == [] then []
    else
      var last := rows[|rows| - 1];
      Join(links, up, rows[..|rows| - 1], level) + if Continues(last, level) then Children(links, up, last, |links|) else []
  }

  /** The rows of one round. */
  function Level(links: seq<TraceLink>, up: bool, root: Id, n: nat): seq<Row> {
    if n == 0 then BaseRows(links, up, root, |links|) else Join(links, up, Level(links, up, root, n - 1), n - 1)
  }

  /** All rounds up to the n-th, in order. */
  function Levels(links: seq<TraceLink>, up: bool, root: Id, n: nat): seq<Row> {
    if n == 0 then Level(links, up, root, 0) else Levels(links, up, root, n - 1) + Level(links, up, root, n)
  }

  // ---------------------------------------------------------------- what the rounds contain

  lemma {:induction false} BaseRowsAre(links: seq<TraceLink>, up: bool, root: Id, n: nat)
    requires n <= |links|
    ensures forall r | r in BaseRows(links, up, root, n) :: r.link < n && From(links[r.link], up) == root && r == BaseRow(links, up, r.link)
    ensures forall i | 0 <= i < n && From(links[i], up) == root :: BaseRow(links, up, i) in BaseRows(links, up, root, n)
  {
    if n > 0 { BaseRowsAre(links, up, root, n - 1); }
  }

  lemma {:induction false} ChildrenAre(links: seq<TraceLink>, up: bool, r: Row, n: nat)
    requires n <= |links|
    ensures forall c | c in Children(links, up, r, n) ::
              c.link < n && From(links[c.link], up) == r.end && c == ChildRow(links, up, r, c.link)
    ensures forall i | 0 <= i < n && From(links[i], up) == r.end :: ChildRow(links, up, r, i) in Children(links, up, r, n)
  {
    if n > 0 { ChildrenAre(links, up, r, n - 1); }
  }

  /** The row c continues the row r. */
  predicate ChildOf(links: seq<TraceLink>, up: bool, r: Row, c: Row, level: nat) {
    RowFits(links, c) && Continues(r, level)
    && From(links[c.link], up) == r.end && c == ChildRow(links, up, r, c.link)
  }

  predicate SomeParent(links: seq<TraceLink>, up: bool, rows: seq<Row>, c: Row, level: nat) {
    exists i | 0 <= i < |rows| :: ChildOf(links, up, rows[i], c, level)
  }

  lemma LastParent(links: seq<TraceLink>, up: bool, rows: seq<Row>, c: Row, level: nat)
    requires rows != []
    ensures SomeParent(links, up, rows, c, level) <==>
            SomeParent(links, up, rows[..|rows| - 1], c, level) || ChildOf(links, up, rows[|rows| - 1], c, level)
  {
    var n := |rows| - 1;
    if i :| 0 <= i < n && ChildOf(links, up, rows[..n][i], c, level) { assert ChildOf(links, up, rows[i], c, level); }
    if i :| 0 <= i < |rows| && ChildOf(links, up, rows[i], c, level) {
      if i < n { assert ChildOf(links, up, rows[..n][i], c, level); }
    }
  }

  /** The joined rows are exactly the children of the rows that may be continued. */
  lemma {:induction false} JoinIs(links: seq<TraceLink>, up: bool, rows: seq<Row>, level: nat)
    ensures forall c :: c in Join(links, up, rows, level) <==> SomeParent(links, up, rows, c, level)
  {
    if rows != [] {
      var n := |rows| - 1;
      JoinIs(links, up, rows[..n], level);
      ChildrenAre(links, up, rows[n], |links|);
      forall c ensures c in Join(links, up, rows, level) <==> SomeParent(links, up, rows, c, level) {
        LastParent(links, up, rows, c, level);
      }
    }
  }

  lemma LevelContinues(links: seq<TraceLink>, up: bool, root: Id, n: nat, r: Row, c: Row)
    requires r in Level(links, up, root, n) && ChildOf(links, up, r, c, n)
    ensures c in Level(links, up, root, n + 1)
  {
    JoinIs(links, up, Level(links, up, root, n), n);
  }

  lemma ParentOf(links: seq<TraceLink>, up: bool, root: Id, n: nat, r: Row) returns (p: Row)
    requires r in Level(links, up, root, n + 1)
    ensures p in Level(links, up, root, n) && ChildOf(links, up, p, r, n)
  {
    var rows := Level(links, up, root, n);
    JoinIs(links, up, rows, n);
    var k :| 0 <= k < |rows| && ChildOf(links, up, rows[k], r, n);
    p := rows[k];
  }

  // ---------------------------------------------------------------- rows are walks

  lemma WalkAppend(links: seq<TraceLink>, up: bool, w: seq<Id>, x: Id)
    requires Walk(links, up, w) && Hop(links, up, w[|w| - 1], x)
    ensures Walk(links, up, w + [x])
  {
  }

  // ---------------------------------------------------------------- which rows there are

  /** The row that has come along the way w and takes the link i from its end. It is flagged if its array ends in
      a work product that it already contains, except that the first link is never looked at. */
  function RowAlong(links: seq<TraceLink>, up: bool, w: seq<Id>, i: nat): Row
    requires i < |links| && w != []
  {
    var path := if up then w else w + [links[i].target];
    Row(i, To(links[i], up), path, |w| > 1 && path[|path| - 1] in path[..|path| - 1])
  }

  /** The row that took the k-th step of the way was not flagged. */
  predicate PlainStep(up: bool, w: seq<Id>, k: nat)
    requires k < |w| - 1
  {
    if up then w[k] !in w[..k] else w[k + 1] !in w[..k + 1]
  }

  /** No row on the way was flagged before its last link. */
  predicate Unflagged(up: bool, w: seq<Id>) {
    forall k | 1 <= k < |w| - 1 :: PlainStep(up, w, k)
  }

  lemma PlainAppend(up: bool, w: seq<Id>, x: Id, k: nat)
    requires w != [] && k < |w|
    ensures PlainStep(up, w + [x], k) <==>
            if k < |w| - 1 then PlainStep(up, w, k) else if up then w[k] !in w[..k] else x !in w
  {
    var v := w + [x];
    assert v[..k] == w[..k] && v[..k + 1] == w[..k + 1];
    if k == |w| - 1 { assert w[..k + 1] == w; }
  }

  lemma UnflaggedAppend(up: bool, w: seq<Id>, x: Id)
    requires w != []
    ensures Unflagged(up, w + [x]) <==>
            Unflagged(up, w) && (|w| > 1 ==> if up then w[|w| - 1] !in w[..|w| - 1] else x !in w)
  {
    forall k | 1 <= k < |w|
      ensures PlainStep(up, w + [x], k) <==>
              if k < |w| - 1 then PlainStep(up, w, k) else if up then w[k] !in w[..k] else x !in w
    {
      PlainAppend(up, w, x, k);
    }
    if Unflagged(up, w + [x]) {
      forall k | 1 <= k < |w| - 1 ensures PlainStep(up, w, k) { assert PlainStep(up, w + [x], k); }
      assert |w| > 1 ==> PlainStep(up, w + [x], |w| - 1);
    }
  }

  /** Extending the row that came along w over its link j to x, and there taking the link i. */
  lemma ChildAlong(links: seq<TraceLink>, up: bool, w: seq<Id>, j: nat, i: nat)
    requires w != [] && i < |links| && j < |links| && From(links[i], up) == To(links[j], up)
    ensures ChildRow(links, up, RowAlong(links, up, w, j), i) == RowAlong(links, up, w + [To(links[j], up)], i)
    ensures RowAlong(links, up, w, j).cycle <==> |w| > 1 && if up then w[|w| - 1] in w[..|w| - 1] else To(links[j], up) in w
  {
    var v := w + [To(links[j], up)];
    assert v[..|v| - 1] == w;
    var path := if up then v else v + [links[i].target];
    assert path[..|path| - 1] == if up then w else v;
    if !up { assert (w + [links[j].target])[..|w|] == w; }
  }

  /** A row that is not flagged is extended by each link that starts where its link ends. */
  lemma ComesFurther(links: seq<TraceLink>, up: bool, root: Id, w: seq<Id>, j: nat, i: nat)
    requires j < |links| && i < |links| && From(links[i], up) == To(links[j], up)
    requires WalkTo(links, up, root, From(links[j], up), w) && Unflagged(up, w) && !RowAlong(links, up, w, j).cycle
    ensures var v := w + [To(links[j], up)];
            && WalkTo(links, up, root, From(links[i], up), v) && Unflagged(up, v)
            && ChildRow(links, up, RowAlong(links, up, w, j), i) == RowAlong(links, up, v, i)
  {
    assert Hop(links, up, From(links[j], up), To(links[j], up));
    ChildAlong(links, up, w, j, i);
    WalkAppend(links, up, w, To(links[j], up));
    UnflaggedAppend(up, w, To(links[j], up));
  }

  /** A row of level n has come along a way of n links, unflagged before, to where its link starts. */
  lemma {:induction false} RowCameAlong(links: seq<TraceLink>, up: bool, root: Id, n: nat, r: Row) returns (w: seq<Id>)
    requires r in Level(links, up, root, n)
    ensures RowFits(links, r) && n < Limit
    ensures WalkTo(links, up, root, From(links[r.link], up), w) && |w| == n + 1 && Unflagged(up, w)
    ensures r == RowAlong(links, up, w, r.link)
    decreases n
  {
    if n == 0 {
      BaseRowsAre(links, up, root, |links|);
      w := [root];
    } else {
      var p := ParentOf(links, up, root, n - 1, r);
      var before := RowCameAlong(links, up, root, n - 1, p);
      ComesFurther(links, up, root, before, p.link, r.link);
      w := before + [From(links[r.link], up)];
    }
  }

  lemma {:induction false} WayHasRow(links: seq<TraceLink>, up: bool, root: Id, w: seq<Id>, i: nat)
    requires i < |links| && WalkTo(links, up, root, From(links[i], up), w) && |w| <= Limit && Unflagged(up, w)
    ensures RowAlong(links, up, w, i) in Level(links, up, root, |w| - 1)
    decreases |w|
  {
    if |w| == 1 {
      BaseRowsAre(links, up, root, |links|);
      assert RowAlong(links, up, w, i) == BaseRow(links, up, i);
    } else {
      var before, x := w[..|w| - 1], w[|w| - 1];
      assert w == before + [x];
      var j := LastLink(links, up, root, before, x);
      UnflaggedAppend(up, before, x);
      WayHasRow(links, up, root, before, j);
      ChildAlong(links, up, before, j, i);
      LevelContinues(links, up, root, |before| - 1, RowAlong(links, up, before, j), RowAlong(links, up, w, i));
    }
  }

  /** The link over which a way goes its last step. */
  lemma LastLink(links: seq<TraceLink>, up: bool, root: Id, w: seq<Id>, x: Id) returns (j: nat)
    requires w != [] && WalkTo(links, up, root, x, w + [x])
    ensures j < |links| && To(links[j], up) == x && WalkTo(links, up, root, From(links[j], up), w)
  {
    var v := w + [x];
    assert Hop(links, up, v[|w| - 1], v[|w| - 1 + 1]);
    j :| 0 <= j < |links| && From(links[j], up) == w[|w| - 1] && To(links[j], up) == x;
    WalkPrefix(links, up, w, x);
  }

  lemma WalkPrefix(links: seq<TraceLink>, up: bool, w: seq<Id>, x: Id)
    requires w != [] && Walk(links, up, w + [x])
    ensures Walk(links, up, w)
  {
    forall k | 0 <= k < |w| - 1 ensures Hop(links, up, w[k], w[k + 1]) {
      assert (w + [x])[k] == w[k] && (w + [x])[k + 1] == w[k + 1];
    }
  }

  /** The way w of n links leads the query to this row. */
  ghost predicate CameAlong(links: seq<TraceLink>, up: bool, root: Id, n: nat, r: Row, w: seq<Id>)
    requires RowFits(links, r)
  {
    WalkTo(links, up, root, From(links[r.link], up), w) && |w| == n + 1 && Unflagged(up, w) && r == RowAlong(links, up, w, r.link)
  }

  /** Level n has exactly the rows that came along a way of n links, flagged nowhere before, with its work products
      as their array; and they are flagged exactly when the last of these is among the others. */
  lemma RowsExact(links: seq<TraceLink>, up: bool, root: Id, n: nat, r: Row)
    ensures r in Level(links, up, root, n) <==> RowFits(links, r) && n < Limit && exists w :: CameAlong(links, up, root, n, r, w)
  {
    if r in Level(links, up, root, n) {
      var w := RowCameAlong(links, up, root, n, r);
      assert CameAlong(links, up, root, n, r, w);
    }
    if RowFits(links, r) && n < Limit {
      if w :| CameAlong(links, up, root, n, r, w) { WayHasRow(links, up, root, w, r.link); }
    }
  }

  // ---------------------------------------------------------------- short ways have no circles

  predicate Simple(w: seq<Id>) {
    forall i, j | 0 <= i < j < |w| :: w[i] != w[j]
  }

  /** Cutting out circles leaves a way between the same ends that is no longer. */
  lemma {:induction false} Straighten(links: seq<TraceLink>, up: bool, root: Id, x: Id, w: seq<Id>) returns (s: seq<Id>)
    requires WalkTo(links, up, root, x, w)
    ensures WalkTo(links, up, root, x, s) && Simple(s) && |s| <= |w|
    decreases |w|
  {
    if Simple(w) {
      s := w;
    } else {
      var i, j :| 0 <= i < j < |w| && w[i] == w[j];
      var cut := w[..i] + w[j..];
      forall k | 0 <= k < |cut| - 1 ensures Hop(links, up, cut[k], cut[k + 1]) {
        if k < i { assert Hop(links, up, w[k], w[k + 1]); } else { assert Hop(links, up, w[k + j - i], w[k + j - i + 1]); }
      }
      s := Straighten(links, up, root, x, cut);
    }
  }

  lemma SimpleIsUnflagged(up: bool, w: seq<Id>)
    requires Simple(w)
    ensures Unflagged(up, w)
  {
  }

  /** A link that starts within the limit has a row, at a level no greater than its distance. */
  lemma ReachedHasRow(links: seq<TraceLink>, up: bool, root: Id, i: nat, w: seq<Id>) returns (n: nat, r: Row)
    requires i < |links| && WalkTo(links, up, root, From(links[i], up), w) && |w| <= Limit
    ensures n < |w| && r in Level(links, up, root, n) && r.link == i
  {
    var s := Straighten(links, up, root, From(links[i], up), w);
    SimpleIsUnflagged(up, s);
    WayHasRow(links, up, root, s, i);
    n, r := |s| - 1, RowAlong(links, up, s, i);
  }

  predicate InLevelUpTo(links: seq<TraceLink>, up: bool, root: Id, n: nat, r: Row) {
    exists k | 0 <= k <= n :: r in Level(links, up, root, k)
  }

  lemma {:induction false} LevelInLevels(links: seq<TraceLink>, up: bool, root: Id, n: nat, r: Row)
    ensures r in Levels(links, up, root, n) <==> InLevelUpTo(links, up, root, n, r)
  {
    if n == 0 {
      assert r in Levels(links, up, root, n) <==> r in Level(links, up, root, 0);
    } else {
      LevelInLevels(links, up, root, n - 1, r);
      assert InLevelUpTo(links, up, root, n, r) <==> InLevelUpTo(links, up, root, n - 1, r) || r in Level(links, up, root, n);
    }
  }

  predicate HasRow(rows: seq<Row>, i: nat) {
    exists r | r in rows :: r.link == i
  }

  /** The rows of all rounds name exactly the links that start within 99 steps of the root, cycles or not. */
  lemma QueryExact(links: seq<TraceLink>, up: bool, root: Id, i: nat)
    requires i < |links|
    ensures HasRow(Levels(links, up, root, Limit - 1), i) <==> Within(links, up, root, From(links[i], up), Limit - 1)
  {
    if HasRow(Levels(links, up, root, Limit - 1), i) {
      var r :| r in Levels(links, up, root, Limit - 1) && r.link == i;
      LevelInLevels(links, up, root, Limit - 1, r);
      var k :| 0 <= k <= Limit - 1 && r in Level(links, up, root, k);
      var w := RowCameAlong(links, up, root, k, r);
    }
    if Within(links, up, root, From(links[i], up), Limit - 1) {
      var w :| WalkTo(links, up, root, From(links[i], up), w) && |w| <= Limit;
      var n, r := ReachedHasRow(links, up, root, i, w);
      LevelInLevels(links, up, root, Limit - 1, r);
    }
  }

  /** The least level of a link is its distance: it has a row within n levels iff it starts within n steps. */
  lemma LeastLevelIsDistance(links: seq<TraceLink>, up: bool, root: Id, i: nat, n: nat)
    requires i < |links| && n < Limit
    ensures (exists k, r | 0 <= k <= n :: r in Level(links, up, root, k) && r.link == i)
            <==> Within(links, up, root, From(links[i], up), n)
  {
    if k, r :| 0 <= k <= n && r in Level(links, up, root, k) && r.link == i {
      var w := RowCameAlong(links, up, root, k, r);
    }
    if w :| WalkTo(links, up, root, From(links[i], up), w) && |w| <= n + 1 {
      var k, r := ReachedHasRow(links, up, root, i, w);
    }
  }

  /** The links whose target depends on the work product through at most 99 links. */
  ghost function Dependents(links: seq<TraceLink>, root: Id): set<nat> {
    set i | 0 <= i < |links| && Within(links, true, root, links[i].target, 99)
  }

  // ---------------------------------------------------------------- beyond the limit

  /** Work product i + 1 depends on i, for each link i. */
  predicate Chain(links: seq<TraceLink>) {
    forall i | 0 <= i < |links| :: links[i].source == i + 1 && links[i].target == i
  }

  lemma {:induction false} ChainWalk(links: seq<TraceLink>, w: seq<Id>, k: nat)
    requires Chain(links) && Walk(links, true, w) && w[0] == 0 && k < |w|
    ensures w[k] == k
  {
    if k > 0 {
      ChainWalk(links, w, k - 1);
      assert Hop(links, true, w[k - 1], w[k - 1 + 1]);
    }
  }

  lemma {:induction false} ChainReaches(links: seq<TraceLink>, x: nat) returns (w: seq<Id>)
    requires Chain(links) && x <= |links|
    ensures WalkTo(links, true, 0, x, w) && |w| == x + 1
  {
    if x == 0 {
      w := [0];
    } else {
      var before := ChainReaches(links, x - 1);
      assert From(links[x - 1], true) == x - 1 && To(links[x - 1], true) == x;
      WalkAppend(links, true, before, x);
      w := before + [x];
    }
  }

  /** Along a chain a revision of the first work product marks the first hundred links and no other. */
  lemma ChainIsCutOff(links: seq<TraceLink>, i: nat)
    requires Chain(links) && i < |links|
    ensures i in Dependents(links, 0) <==> i <= 99
  {
    if w :| WalkTo(links, true, 0, links[i].target, w) && |w| <= 100 { ChainWalk(links, w, |w| - 1); }
    var w := ChainReaches(links, i);
  }

  /** A chain of 101 links, the last of which is never marked although it depends on the first work product. */
  lemma UnmarkedDependent() returns (links: seq<TraceLink>, w: seq<Id>)
    ensures |links| == 101 && WalkTo(links, true, 0, links[100].target, w) && 100 !in Dependents(links, 0)
  {
    links := seq(101, i requires 0 <= i < 101 => TraceLink(i + 1, i, "derives_from", false));
    ChainIsCutOff(links, 100);
    w := ChainReaches(links, 100);
  }

  // ---------------------------------------------------------------- the store

  /** One line of the report: the depth of the row, its link by position, and whether it closes a circle. */
  datatype Entry = Entry(depth: nat, link: nat, cycle: bool)

  function Entries(rows: seq<Row>, depth: nat): seq<Entry> {
    if rows == [] then []
    else
      var last := rows[|rows| - 1];
      Entries(rows[..|rows| - 1], depth) + [Entry(depth, last.link, last.cycle)]
  }

  /** The entries of all rounds, in order. */
  function Gathered(rounds: seq<seq<Row>>): seq<Entry> {
    if rounds == [] then [] else Gathered(rounds[..|rounds| - 1]) + Entries(rounds[|rounds| - 1], |rounds|)
  }

  function Rounds(links: seq<TraceLink>, root: Id, n: nat): seq<seq<Row>> {
    seq(n, k requires 0 <= k < n => Level(links, false, root, k))
  }

  /** The report of the rounds up to the n-th. */
  function Report(links: seq<TraceLink>, root: Id, n: nat): seq<Entry> {
    Gathered(Rounds(links, root, n + 1))
  }

  lemma ReportStep(links: seq<TraceLink>, root: Id, n: nat)
    ensures Report(links, root, n + 1) == Report(links, root, n) + Entries(Level(links, false, root, n + 1), n + 2)
  {
    assert Rounds(links, root, n + 2)[..n + 1] == Rounds(links, root, n + 1);
  }

  lemma ReportStart(links: seq<TraceLink>, root: Id)
    ensures Report(links, root, 0) == Entries(Level(links, false, root, 0), 1)
  {
    assert Rounds(links, root, 1)[..0] == [];
    assert Gathered([]) == [];
  }

  function EntryOf(r: Row, depth: nat): Entry {
    Entry(depth, r.link, r.cycle)
  }

  lemma {:induction false} EntriesFrom(rows: seq<Row>, depth: nat, e: Entry) returns (r: Row)
    requires e in Entries(rows, depth)
    ensures r in rows && e == EntryOf(r, depth)
  {
    var before, last := rows[..|rows| - 1], rows[|rows| - 1];
    if e in Entries(before, depth) { r := EntriesFrom(before, depth, e); } else { r := last; }
  }

  lemma {:induction false} EntriesOf(rows: seq<Row>, depth: nat, r: Row)
    requires r in rows
    ensures EntryOf(r, depth) in Entries(rows, depth)
  {
    var before, last := rows[..|rows| - 1], rows[|rows| - 1];
    assert rows == before + [last];
    if r in before { EntriesOf(before, depth, r); }
  }

  lemma {:induction false} GatheredFrom(rounds: seq<seq<Row>>, e: Entry) returns (k: nat, r: Row)
    requires e in Gathered(rounds)
    ensures k < |rounds| && r in rounds[k] && e == EntryOf(r, k + 1)
  {
    var n := |rounds| - 1;
    if e in Entries(rounds[n], n + 1) {
      k := n;
      r := EntriesFrom(rounds[n], n + 1, e);
    } else {
      k, r := GatheredFrom(rounds[..n], e);
    }
  }

  lemma {:induction false} GatheredOf(rounds: seq<seq<Row>>, k: nat, r: Row)
    requires k < |rounds| && r in rounds[k]
    ensures EntryOf(r, k + 1) in Gathered(rounds)
  {
    var n := |rounds| - 1;
    if k == n { EntriesOf(rounds[n], n + 1, r); } else { GatheredOf(rounds[..n], k, r); }
  }

  /** An entry of depth k + 1 comes from a row of level k, */
  lemma ReportFrom(links: seq<TraceLink>, root: Id, n: nat, e: Entry) returns (k: nat, r: Row)
    requires e in Report(links, root, n)
    ensures k <= n && r in Level(links, false, root, k) && e == EntryOf(r, k + 1)
  {
    k, r := GatheredFrom(Rounds(links, root, n + 1), e);
  }

  /** and each such row has its entry. */
  lemma ReportOf(links: seq<TraceLink>, root: Id, n: nat, k: nat, r: Row)
    requires k <= n && r in Level(links, false, root, k)
    ensures EntryOf(r, k + 1) in Report(links, root, n)
  {
    GatheredOf(Rounds(links, root, n + 1), k, r);
  }

  predicate Ordered(es: seq<Entry>) {
    forall d, e | 0 <= d < e < |es| :: es[d].depth <= es[e].depth
  }

  predicate DepthsUpTo(es: seq<Entry>, n: nat) {
    forall d | 0 <= d < |es| :: 1 <= es[d].depth <= n
  }

  lemma {:induction false} OrderedAppend(es: seq<Entry>, rows: seq<Row>, n: nat)
    requires Ordered(es) && DepthsUpTo(es, n)
    ensures Ordered(es + Entries(rows, n + 1)) && DepthsUpTo(es + Entries(rows, n + 1), n + 1)
  {
    if rows == [] {
      assert es + Entries(rows, n + 1) == es;
    } else {
      var before, last := rows[..|rows| - 1], rows[|rows| - 1];
      OrderedAppend(es, before, n);
      assert es + Entries(rows, n + 1) == es + Entries(before, n + 1) + [Entry(n + 1, last.link, last.cycle)];
    }
  }

  lemma {:induction false} GatheredOrdered(rounds: seq<seq<Row>>)
    ensures Ordered(Gathered(rounds)) && DepthsUpTo(Gathered(rounds), |rounds|)
  {
    if rounds != [] {
      var n := |rounds| - 1;
      GatheredOrdered(rounds[..n]);
      OrderedAppend(Gathered(rounds[..n]), rounds[n], n);
    }
  }

  predicate HasEntry(es: seq<Entry>, i: nat, depth: nat) {
    exists e | e in es :: e.link == i && e.depth <= depth
  }

  lemma ReportedByLevel(links: seq<TraceLink>, root: Id, i: nat, depth: nat)
    requires 1 <= depth <= Limit
    ensures HasEntry(Report(links, root, Limit - 1), i, depth)
            <==> exists k, r | 0 <= k <= depth - 1 :: r in Level(links, false, root, k) && r.link == i
  {
    if HasEntry(Report(links, root, Limit - 1), i, depth) {
      var e :| e in Report(links, root, Limit - 1) && e.link == i && e.depth <= depth;
      var k, r := ReportFrom(links, root, Limit - 1, e);
    }
    if k, r :| 0 <= k <= depth - 1 && r in Level(links, false, root, k) && r.link == i {
      ReportOf(links, root, Limit - 1, k, r);
    }
  }

  /** An entry of the report is flagged exactly when its link leads back to a work product on the way to it; a link
      that leads from the root to itself is not looked at where it comes first. */
  ghost predicate CameTo(links: seq<TraceLink>, root: Id, e: Entry, w: seq<Id>)
    requires e.link < |links|
  {
    && WalkTo(links, false, root, links[e.link].source, w) && |w| == e.depth && Unflagged(false, w)
    && (e.cycle <==> e.depth > 1 && links[e.link].target in w)
  }

  lemma ReportFlags(links: seq<TraceLink>, root: Id, e: Entry)
    ensures e in Report(links, root, Limit - 1) <==> e.link < |links| && 1 <= e.depth <= Limit && exists w :: CameTo(links, root, e, w)
  {
    if e in Report(links, root, Limit - 1) { var w := ReportedCameTo(links, root, e); }
    if e.link < |links| && 1 <= e.depth <= Limit {
      if w :| CameTo(links, root, e, w) { CameToReported(links, root, e, w); }
    }
  }

  lemma ReportedCameTo(links: seq<TraceLink>, root: Id, e: Entry) returns (w: seq<Id>)
    requires e in Report(links, root, Limit - 1)
    ensures e.link < |links| && 1 <= e.depth <= Limit && CameTo(links, root, e, w)
  {
    var k, r := ReportFrom(links, root, Limit - 1, e);
    w := RowCameAlong(links, false, root, k, r);
    AlongFlag(links, w, e.link);
  }

  lemma CameToReported(links: seq<TraceLink>, root: Id, e: Entry, w: seq<Id>)
    requires e.link < |links| && 1 <= e.depth <= Limit && CameTo(links, root, e, w)
    ensures e in Report(links, root, Limit - 1)
  {
    WayHasRow(links, false, root, w, e.link);
    AlongFlag(links, w, e.link);
    ReportOf(links, root, Limit - 1, |w| - 1, RowAlong(links, false, w, e.link));
  }

  lemma AlongFlag(links: seq<TraceLink>, w: seq<Id>, i: nat)
    requires i < |links| && w != []
    ensures RowAlong(links, false, w, i).cycle <==> |w| > 1 && links[i].target in w
  {
    assert (w + [links[i].target])[..|w|] == w;
  }

  /** The report names exactly the links whose source is within 99 links of the root, its least depth for a link
      is the distance of its source plus one, and it is ordered by depth. */
  lemma ReportExact(links: seq<TraceLink>, root: Id, i: nat, depth: nat)
    requires i < |links| && 1 <= depth <= Limit
    ensures HasEntry(Report(links, root, Limit - 1), i, depth) <==> Within(links, false, root, links[i].source, depth - 1)
    ensures Ordered(Report(links, root, Limit - 1)) && DepthsUpTo(Report(links, root, Limit - 1), Limit)
  {
    LeastLevelIsDistance(links, false, root, i, depth - 1);
    ReportedByLevel(links, root, i, depth);
    GatheredOrdered(Rounds(links, root, Limit));
  }

  // ---------------------------------------------------------------- the order of the report

  /** What the report is ordered by: depth, then the codes of source and target. */
  datatype Rank = Rank(depth: nat, source: string, target: string)

  function CodeOf(codes: map<Id, string>, p: Id): string {
    if p in codes then codes[p] else ""
  }

  function RankOf(links: seq<TraceLink>, codes: map<Id, string>, e: Entry): Rank {
    if e.link < |links| then Rank(e.depth, CodeOf(codes, links[e.link].source), CodeOf(codes, links[e.link].target))
    else Rank(e.depth, "", "")
  }

  predicate NotAfter(a: Rank, b: Rank) {
    if a.depth != b.depth then a.depth < b.depth
    else if a.source != b.source then Canonical.Below(a.source, b.source)
    else Canonical.Below(a.target, b.target)
  }

  lemma RanksCompare(a: Rank, b: Rank)
    ensures NotAfter(a, b) || NotAfter(b, a)
  {
    Canonical.BelowTotal(a.source, b.source);
    Canonical.BelowTotal(a.target, b.target);
  }

  lemma RanksChain(a: Rank, b: Rank, c: Rank)
    requires NotAfter(a, b) && NotAfter(b, c)
    ensures NotAfter(a, c)
  {
    if a.depth == b.depth == c.depth {
      if a.source == b.source == c.source {
        Canonical.BelowTransitive(a.target, b.target, c.target);
      } else if a.source != b.source && b.source != c.source {
        Canonical.BelowTransitive(a.source, b.source, c.source);
        Canonical.BelowTotal(a.source, b.source);
      }
    }
  }

  predicate InOrder(links: seq<TraceLink>, codes: map<Id, string>, es: seq<Entry>) {
    forall i, j | 0 <= i < j < |es| :: NotAfter(RankOf(links, codes, es[i]), RankOf(links, codes, es[j]))
  }

  /** In order means: by depth, then by the code of the source, then by the code of the target. */
  lemma InOrderExactly(links: seq<TraceLink>, codes: map<Id, string>, es: seq<Entry>)
    requires forall i | 0 <= i < |es| :: es[i].link < |links|
    ensures InOrder(links, codes, es) <==>
            forall i, j | 0 <= i < j < |es| ::
              var a, b := links[es[i].link], links[es[j].link];
              || es[i].depth < es[j].depth
              || (es[i].depth == es[j].depth && CodeOf(codes, a.source) != CodeOf(codes, b.source)
                  && Canonical.Below(CodeOf(codes, a.source), CodeOf(codes, b.source)))
              || (es[i].depth == es[j].depth && CodeOf(codes, a.source) == CodeOf(codes, b.source)
                  && Canonical.Below(CodeOf(codes, a.target), CodeOf(codes, b.target)))
  {
    assert forall i | 0 <= i < |es| :: RankOf(links, codes, es[i])
                                       == Rank(es[i].depth, CodeOf(codes, links[es[i].link].source), CodeOf(codes, links[es[i].link].target));
  }

  /** The entry goes before the first one that is not before it. */
  function Place(links: seq<TraceLink>, codes: map<Id, string>, es: seq<Entry>, e: Entry): seq<Entry> {
    if es == [] then [e]
    else if NotAfter(RankOf(links, codes, e), RankOf(links, codes, es[0])) then [e] + es
    else [es[0]] + Place(links, codes, es[1..], e)
  }

  lemma {:induction false} PlaceAdds(links: seq<TraceLink>, codes: map<Id, string>, es: seq<Entry>, e: Entry)
    ensures multiset(Place(links, codes, es, e)) == multiset(es) + multiset{e}
  {
    if es != [] {
      assert es == [es[0]] + es[1..];
      PlaceAdds(links, codes, es[1..], e);
    }
  }

  lemma {:induction false} PlaceOrders(links: seq<TraceLink>, codes: map<Id, string>, es: seq<Entry>, e: Entry)
    requires InOrder(links, codes, es)
    ensures InOrder(links, codes, Place(links, codes, es, e))
  {
    if es != [] {
      var first, rank := RankOf(links, codes, es[0]), RankOf(links, codes, e);
      if NotAfter(rank, first) {
        forall j | 0 <= j < |es| ensures NotAfter(rank, RankOf(links, codes, es[j])) {
          if j > 0 { RanksChain(rank, first, RankOf(links, codes, es[j])); }
        }
      } else {
        var rest := Place(links, codes, es[1..], e);
        PlaceOrders(links, codes, es[1..], e);
        PlaceAdds(links, codes, es[1..], e);
        RanksCompare(rank, first);
        forall j | 0 <= j < |rest| ensures NotAfter(first, RankOf(links, codes, rest[j])) {
          assert rest[j] in multiset(rest);
          assert rest[j] == e || rest[j] in es[1..];
        }
      }
    }
  }

  class TraceStore {
    var links: seq<TraceLink>
    /** The codes of the work products of the project. */
    var codes: map<Id, string>

    constructor (links: seq<TraceLink>, codes: map<Id, string>)
      ensures this.links == links && this.codes == codes
    {
      this.links, this.codes := links, codes;
    }

    method SelectBase(up: bool, root: Id) returns (rows: seq<Row>)
      ensures rows == Level(links, up, root, 0)
    {
      rows := [];
      for i := 0 to |links|
        invariant rows == BaseRows(links, up, root, i)
      {
        if From(links[i], up) == root { rows := rows + [BaseRow(links, up, i)]; }
      }
    }

    method JoinRow(up: bool, r: Row) returns (next: seq<Row>)
      ensures next == Children(links, up, r, |links|)
    {
      next := [];
      for n := 0 to |links|
        invariant next == Children(links, up, r, n)
      {
        if From(links[n], up) == r.end { next := next + [ChildRow(links, up, r, n)]; }
      }
    }

    /** The next round: every row that may be continued, with every link it meets. */
    method JoinLinks(up: bool, working: seq<Row>, level: nat) returns (next: seq<Row>)
      ensures next == Join(links, up, working, level)
    {
      next := [];
      for i := 0 to |working|
        invariant next == Join(links, up, working[..i], level)
      {
        assert working[..i + 1][..i] == working[..i];
        if Continues(working[i], level) {
          var children := JoinRow(up, working[i]);
          next := next + children;
        }
      }
      assert working[..|working|] == working;
    }

    /** Marks as suspect exactly the links whose target depends on the work product through at most 99 links. */
    method PropagateSuspect(root: Id) returns (count: nat)
      modifies this`links
      ensures |links| == |old(links)|
      ensures forall i | 0 <= i < |links| :: links[i].source == old(links)[i].source && links[i].target == old(links)[i].target
                                             && links[i].kind == old(links)[i].kind
      ensures forall i | 0 <= i < |links| ::
                links[i].suspect <==> old(links)[i].suspect || Within(old(links), true, root, old(links)[i].target, 99)
      ensures count == |Dependents(old(links), root)|
    {
      var impact := Query(true, root);
      var before := links;
      count := 0;
      ghost var marked: set<nat> := {};
      for i := 0 to |before|
        invariant |links| == |before|
        invariant forall j | 0 <= j < |before| :: links[j] == if j < i && HasRow(impact, j) then before[j].(suspect := true) else before[j]
        invariant count == |marked| && forall j: nat :: j in marked <==> j < i && HasRow(impact, j)
      {
        if HasRow(impact, i) {
          links := links[i := links[i].(suspect := true)];
          count := count + 1;
          marked := marked + {i};
        }
      }
      forall j: nat ensures j in marked <==> j in Dependents(before, root) {
        if j < |before| { QueryExact(before, true, root, j); }
      }
      assert marked == Dependents(before, root);
      forall i | 0 <= i < |links|
        ensures links[i].suspect <==> before[i].suspect || Within(before, true, root, before[i].target, 99)
      {
        QueryExact(before, true, root, i);
      }
    }

    /** Runs the rounds until one is empty. */
    method Query(up: bool, root: Id) returns (result: seq<Row>)
      ensures result == Levels(links, up, root, Limit - 1)
    {
      var working := SelectBase(up, root);
      result := working;
      var level := 0;
      while working != []
        invariant level <= Limit && working == Level(links, up, root, level) && result == Levels(links, up, root, level)
        decreases Limit - level
      {
        LevelNonEmpty(links, up, root, level);
        working := JoinLinks(up, working, level);
        level := level + 1;
        result := result + working;
      }
      EmptyFromHere(links, up, root, level, Limit);
      if level >= Limit { assert level == Limit; LastLevelEmpty(links, up, root); }
    }

    /** Reports each way found, ordered by depth and then by the codes of source and target. */
    method TraverseTraceability(root: Id) returns (entries: Option<seq<Entry>>)
      ensures entries.Some? <==> root in codes
      ensures entries.Some? ==> multiset(entries.value) == multiset(Report(links, root, Limit - 1)) && InOrder(links, codes, entries.value)
    {
      if root !in codes { return None; }
      var found := Collect(root);
      var sorted: seq<Entry> := [];
      for i := 0 to |found|
        invariant multiset(sorted) == multiset(found[..i]) && InOrder(links, codes, sorted)
      {
        assert found[..i + 1] == found[..i] + [found[i]];
        PlaceAdds(links, codes, sorted, found[i]);
        PlaceOrders(links, codes, sorted, found[i]);
        sorted := Place(links, codes, sorted, found[i]);
      }
      assert found[..|found|] == found;
      return Some(sorted);
    }

    /** Collects the entries round by round. */
    method Collect(root: Id) returns (entries: seq<Entry>)
      ensures entries == Report(links, root, Limit - 1)
    {
      var working := SelectBase(false, root);
      entries := Entries(working, 1);
      ReportStart(links, root);
      var level := 0;
      while working != []
        invariant level <= Limit && working == Level(links, false, root, level) && entries == Report(links, root, level)
        decreases Limit - level
      {
        LevelNonEmpty(links, false, root, level);
        working := JoinLinks(false, working, level);
        ReportStep(links, root, level);
        level := level + 1;
        entries := entries + Entries(working, level + 1);
      }
      ReportEnds(links, root, level);
    }
  }

  lemma LevelNonEmpty(links: seq<TraceLink>, up: bool, root: Id, n: nat)
    requires Level(links, up, root, n) != []
    ensures n < Limit
  {
    var w := RowCameAlong(links, up, root, n, Level(links, up, root, n)[0]);
  }

  lemma LastLevelEmpty(links: seq<TraceLink>, up: bool, root: Id)
    ensures Level(links, up, root, Limit) == []
    ensures Levels(links, up, root, Limit) == Levels(links, up, root, Limit - 1)
  {
    if Level(links, up, root, Limit) != [] { LevelNonEmpty(links, up, root, Limit); }
  }

  /** After an empty round every round is empty. */
  lemma {:induction false} EmptyFromHere(links: seq<TraceLink>, up: bool, root: Id, n: nat, m: nat)
    requires Level(links, up, root, n) == [] && n <= m
    ensures Level(links, up, root, m) == [] && Levels(links, up, root, m) == Levels(links, up, root, n)
    decreases m
  {
    if n < m { EmptyFromHere(links, up, root, n, m - 1); }
  }

  lemma ReportEnds(links: seq<TraceLink>, root: Id, n: nat)
    requires n <= Limit && Level(links, false, root, n) == []
    ensures Report(links, root, n) == Report(links, root, Limit - 1)
  {
    EmptyReport(links, root, n, Limit);
    EmptyReport(links, root, Limit - 1, Limit);
  }

  lemma {:induction false} EmptyReport(links: seq<TraceLink>, root: Id, n: nat, m: nat)
    requires n <= m && (Level(links, false, root, n) == [] || (n == Limit - 1 && m == Limit))
    ensures Report(links, root, m) == Report(links, root, n)
    decreases m
  {
    if n < m {
      ReportStep(links, root, m - 1);
      if Level(links, false, root, n) == [] {
        EmptyFromHere(links, false, root, n, m);
        EmptyReport(links, root, n, m - 1);
      } else {
        LastLevelEmpty(links, false, root);
      }
    }
  }
}
