/** The duplicate clusters of the memory audit: a union-find whose `find` rewrites parents as it walks,
    joined over the neighbours the index reports. */
module Audit {
  import opened Wrappers

  type Id = nat

  /** The neighbours the index reports for a record. */
  type Near = Id -> seq<Id>

  // ---- What a cluster is ------------------------------------------------------------------

  predicate Linked(edges: set<(Id, Id)>, a: Id, b: Id) {
    (a, b) in edges || (b, a) in edges
  }

  /** A walk from `a` to `b`, each step one edge in either direction. */
  ghost predicate Walk(edges: set<(Id, Id)>, p: seq<Id>, a: Id, b: Id) {
    && |p| > 0 && p[0] == a && p[|p| - 1] == b
    && forall i | 0 <= i < |p| - 1 :: Linked(edges, p[i], p[i + 1])
  }

  ghost predicate Connected(edges: set<(Id, Id)>, a: Id, b: Id) {
    exists p :: Walk(edges, p, a, b)
  }

  /** Every report of one active record about another. */
  function Reports(ids: set<Id>, near: Near): set<(Id, Id)> {
    set a, b | a in ids && b in near(a) && b in ids :: (a, b)
  }

  ghost function Component(ids: set<Id>, near: Near, a: Id): set<Id> {
    set b | b in ids && Connected(Reports(ids, near), a, b)
  }

  lemma ConnectedItself(edges: set<(Id, Id)>, a: Id)
    ensures Connected(edges, a, a)
  {
    assert Walk(edges, [a], a, a);
  }

  lemma ConnectedEdge(edges: set<(Id, Id)>, a: Id, b: Id)
    requires Linked(edges, a, b)
    ensures Connected(edges, a, b)
  {
    assert Walk(edges, [a, b], a, b);
  }

  lemma ConnectedMore(edges: set<(Id, Id)>, more: set<(Id, Id)>, a: Id, b: Id)
    requires edges <= more && Connected(edges, a, b)
    ensures Connected(more, a, b)
  {
    var p :| Walk(edges, p, a, b);
    assert Walk(more, p, a, b);
  }

  lemma ConnectedOn(edges: set<(Id, Id)>, a: Id, b: Id, c: Id)
    requires Connected(edges, a, b) && Connected(edges, b, c)
    ensures Connected(edges, a, c)
  {
    var p :| Walk(edges, p, a, b);
    var q :| Walk(edges, q, b, c);
    var r := p + q[1..];
    forall i | 0 <= i < |r| - 1 ensures Linked(edges, r[i], r[i + 1]) {
      if i < |p| - 1 {
        assert r[i] == p[i] && r[i + 1] == p[i + 1];
      } else {
        assert r[i] == q[i - (|p| - 1)] && r[i + 1] == q[i + 1 - (|p| - 1)];
      }
    }
    assert Walk(edges, r, a, c);
  }

  function Reversed(p: seq<Id>): (r: seq<Id>)
    ensures |r| == |p| && forall i | 0 <= i < |p| :: r[i] == p[|p| - 1 - i]
  {
    seq(|p|, i requires 0 <= i < |p| => p[|p| - 1 - i])
  }

  lemma ConnectedBack(edges: set<(Id, Id)>, a: Id, b: Id)
    requires Connected(edges, a, b)
    ensures Connected(edges, b, a)
  {
    var p :| Walk(edges, p, a, b);
    var r := Reversed(p);
    forall i | 0 <= i < |r| - 1 ensures Linked(edges, r[i], r[i + 1]) {
      assert Linked(edges, p[|p| - 2 - i], p[|p| - 2 - i + 1]);
    }
    assert Walk(edges, r, b, a);
  }

  // ---- Union-find -------------------------------------------------------------------------

  /** One element: its parent leads to the same root, at a lower rank unless it is the root. */
  ghost predicate Leads(parent: map<Id, Id>, root: map<Id, Id>, rank: map<Id, nat>, x: Id) {
    && x in parent && x in root && x in rank && root[x] in parent && parent[root[x]] == root[x]
    && parent[x] in parent && parent[x] in root && parent[x] in rank && root[parent[x]] == root[x]
    && (if parent[x] == x then root[x] == x else rank[parent[x]] < rank[x])
  }

  ghost predicate IsForest(parent: map<Id, Id>, root: map<Id, Id>, rank: map<Id, nat>) {
    && parent.Keys == root.Keys == rank.Keys
    && forall x {:trigger Leads(parent, root, rank, x)} :: x in parent.Keys ==> Leads(parent, root, rank, x)
  }

  /** Pointing an element at its grandparent keeps every root. */
  lemma HalvingKeeps(parent: map<Id, Id>, root: map<Id, Id>, rank: map<Id, nat>, x: Id)
    requires IsForest(parent, root, rank) && x in parent && parent[x] in parent && parent[x] != x
    ensures IsForest(parent[x := parent[parent[x]]], root, rank)
    ensures parent[parent[x]] in parent && root[parent[parent[x]]] == root[x]
    ensures rank[parent[parent[x]]] < rank[x]
  {
    var halved := parent[x := parent[parent[x]]];
    assert Leads(parent, root, rank, x);
    assert Leads(parent, root, rank, parent[x]);
    assert Leads(parent, root, rank, parent[parent[x]]);
    forall y | y in halved.Keys ensures Leads(halved, root, rank, y) {
      assert Leads(parent, root, rank, y);
      assert root[y] != x;
    }
  }

  function Moved(root: map<Id, Id>, rb: Id, ra: Id): map<Id, Id> {
    map x | x in root :: if root[x] == rb then ra else root[x]
  }

  function Lifted(root: map<Id, Id>, rank: map<Id, nat>, rb: Id, lift: nat): map<Id, nat>
    requires root.Keys == rank.Keys
  {
    map x | x in rank :: if root[x] == rb then rank[x] + lift else rank[x]
  }

  /** Hanging one root under another moves its whole tree. */
  lemma HangingKeeps(parent: map<Id, Id>, root: map<Id, Id>, rank: map<Id, nat>, ra: Id, rb: Id)
    requires IsForest(parent, root, rank) && ra in parent && rb in parent && ra in rank
    requires ra != rb && root[ra] == ra && root[rb] == rb
    ensures IsForest(parent[rb := ra], Moved(root, rb, ra), Lifted(root, rank, rb, rank[ra] + 1))
  {
    hide Leads, Moved, Lifted;
    var parent', root', rank' := parent[rb := ra], Moved(root, rb, ra), Lifted(root, rank, rb, rank[ra] + 1);
    SameKeys(root, rank, rb, ra, rank[ra] + 1);
    forall x | x in parent'.Keys ensures Leads(parent', root', rank', x) {
      HangingAt(parent, root, rank, ra, rb, x);
    }
  }

  lemma SameKeys(root: map<Id, Id>, rank: map<Id, nat>, rb: Id, ra: Id, lift: nat)
    requires root.Keys == rank.Keys
    ensures Moved(root, rb, ra).Keys == root.Keys && Lifted(root, rank, rb, lift).Keys == rank.Keys
  {}

  lemma MovedNowhere(root: map<Id, Id>, ra: Id)
    ensures Moved(root, ra, ra) == root
  {}

  lemma HangingAt(parent: map<Id, Id>, root: map<Id, Id>, rank: map<Id, nat>, ra: Id, rb: Id, x: Id)
    requires IsForest(parent, root, rank) && ra in parent && rb in parent && ra in rank && x in parent
    requires ra != rb && root[ra] == ra && root[rb] == rb
    ensures Leads(parent[rb := ra], Moved(root, rb, ra), Lifted(root, rank, rb, rank[ra] + 1), x)
  {
    assert Leads(parent, root, rank, ra) && Leads(parent, root, rank, rb) && Leads(parent, root, rank, x);
  }

  class Forest {
    var parent: map<Id, Id>

    /** The root each element leads to, and a measure that falls along every parent. */
    ghost var root: map<Id, Id>
    ghost var rank: map<Id, nat>

    ghost predicate Valid() reads this { IsForest(parent, root, rank) }

    constructor ()
      ensures Valid() && parent == map[]
    {
      parent, root, rank := map[], map[], map[];
    }

    /** A new element is its own root. */
    method Make(x: Id)
      requires Valid() && x !in parent
      modifies this
      ensures Valid() && parent == old(parent)[x := x] && root == old(root)[x := x]
    {
      parent, root, rank := parent[x := x], root[x := x], rank[x := 0];
      forall y | y in parent.Keys ensures Leads(parent, root, rank, y) {
        if y != x { assert old(Leads(parent, root, rank, y)); }
      }
    }

    /** Walk to the root, pointing every other element at its grandparent on the way. */
    method Find(start: Id) returns (x: Id)
      requires Valid() && start in parent
      modifies this`parent
      ensures Valid() && parent.Keys == old(parent.Keys) && start in root
      ensures x in parent && parent[x] == x == root[x] == root[start]
    {
      x := start;
      assert Leads(parent, root, rank, x);
      while parent[x] != x
        invariant Valid() && parent.Keys == old(parent.Keys)
        invariant x in parent && x in root && root[x] == root[start] && parent[x] in parent
        decreases rank[x]
      {
        HalvingKeeps(parent, root, rank, x);
        parent := parent[x := parent[parent[x]]];
        x := parent[x];
        assert Leads(parent, root, rank, x);
      }
      assert Leads(parent, root, rank, x);
    }

    /** `parent[find(b)] = find(a)`. */
    method Join(a: Id, b: Id)
      requires Valid() && a in parent && b in parent
      modifies this
      ensures Valid() && parent.Keys == old(parent.Keys) == root.Keys
      ensures a in old(root) && b in old(root) && root == Moved(old(root), old(root)[b], old(root)[a])
    {
      hide Leads, Moved, Lifted;
      var ra := Find(a);
      var rb := Find(b);
      SameKeys(root, rank, rb, ra, rank[ra] + 1);
      if ra != rb {
        HangingKeeps(parent, root, rank, ra, rb);
        root, rank := Moved(root, rb, ra), Lifted(root, rank, rb, rank[ra] + 1);
      } else {
        MovedNowhere(root, ra);
        assert parent[rb := ra] == parent;
      }
      parent := parent[rb := ra];
    }
  }

  /** `n` steps up. */
  function Up(parent: map<Id, Id>, x: Id, n: nat): Id
    decreases n
  {
    if n == 0 || x !in parent then x else Up(parent, parent[x], n - 1)
  }

  /** The parents alone lead every element to its root, whatever the measure. */
  lemma {:induction false} RootReached(parent: map<Id, Id>, root: map<Id, Id>, rank: map<Id, nat>, x: Id)
    requires IsForest(parent, root, rank) && x in parent
    ensures x in root && exists n: nat :: Up(parent, x, n) == root[x]
    decreases if x in rank then rank[x] else 0
  {
    assert Leads(parent, root, rank, x);
    if parent[x] == x {
      assert Up(parent, x, 0) == root[x];
    } else {
      RootReached(parent, root, rank, parent[x]);
      var n: nat :| Up(parent, parent[x], n) == root[parent[x]];
      assert Up(parent, x, n + 1) == root[x];
    }
  }

  // ---- The audit --------------------------------------------------------------------------

  /** Two active records have one root exactly when the edges so far connect them. */
  ghost predicate Matches(root: map<Id, Id>, ids: set<Id>, edges: set<(Id, Id)>) {
    && ids <= root.Keys
    && (forall e | e in edges :: e.0 in ids && e.1 in ids && root[e.0] == root[e.1])
    && (forall a, b | a in ids && b in ids && root[a] == root[b] :: Connected(edges, a, b))
  }

  lemma JoinMatches(root: map<Id, Id>, root': map<Id, Id>, ids: set<Id>, edges: set<(Id, Id)>, a: Id, b: Id)
    requires Matches(root, ids, edges) && a in ids && b in ids
    requires root' == Moved(root, root[b], root[a])
    ensures Matches(root', ids, edges + {(a, b)})
  {
    var more := edges + {(a, b)};
    forall x, y | x in ids && y in ids && root'[x] == root'[y] ensures Connected(more, x, y) {
      ConnectedEdge(more, a, b);
      if root[x] == root[y] {
        ConnectedMore(edges, more, x, y);
      } else if root[x] == root[b] {
        Across(root, ids, edges, a, b, x, y);
        ConnectedBack(more, y, x);
      } else {
        Across(root, ids, edges, a, b, y, x);
      }
    }
  }

  /** `x` was with `b` and `y` with `a`: the new edge connects them. */
  lemma Across(root: map<Id, Id>, ids: set<Id>, edges: set<(Id, Id)>, a: Id, b: Id, x: Id, y: Id)
    requires Matches(root, ids, edges) && {a, b, x, y} <= ids
    requires root[x] == root[b] && root[y] == root[a]
    ensures Connected(edges + {(a, b)}, y, x)
  {
    var more := edges + {(a, b)};
    assert a in ids && b in ids && x in ids && y in ids;
    ConnectedMore(edges, more, y, a);
    ConnectedMore(edges, more, b, x);
    ConnectedEdge(more, a, b);
    ConnectedOn(more, y, a, b);
    ConnectedOn(more, y, b, x);
  }

  lemma {:induction false} WalkKeepsRoot(root: map<Id, Id>, ids: set<Id>, edges: set<(Id, Id)>, p: seq<Id>, a: Id, b: Id)
    requires Matches(root, ids, edges) && a in ids && Walk(edges, p, a, b)
    ensures b in ids && root[b] == root[a]
  {
    if |p| > 1 {
      var q := p[..|p| - 1];
      forall i | 0 <= i < |q| - 1 ensures Linked(edges, q[i], q[i + 1]) {
        assert Linked(edges, p[i], p[i + 1]);
      }
      WalkKeepsRoot(root, ids, edges, q, a, p[|p| - 2]);
      assert Linked(edges, p[|p| - 2], p[|p| - 2 + 1]);
    }
  }

  /** At the end, one root means one component. */
  lemma RootsAreComponents(root: map<Id, Id>, ids: set<Id>, near: Near, a: Id)
    requires Matches(root, ids, Reports(ids, near)) && a in ids
    ensures Component(ids, near, a) == set b | b in ids && root[b] == root[a]
  {
    forall b | b in ids ensures Connected(Reports(ids, near), a, b) <==> root[b] == root[a] {
      if Connected(Reports(ids, near), a, b) {
        var p :| Walk(Reports(ids, near), p, a, b);
        WalkKeepsRoot(root, ids, Reports(ids, near), p, a, b);
      }
    }
  }

  /** The reports of the records looked at. */
  function ReportsOf(done: set<Id>, ids: set<Id>, near: Near): set<(Id, Id)> {
    set a, b | a in done && b in near(a) && b in ids :: (a, b)
  }

  /** Join one record with the active neighbours reported for it. */
  method JoinNeighbours(f: Forest, ids: set<Id>, near: Near, mid: Id, ghost edges: set<(Id, Id)>)
    requires f.Valid() && Matches(f.root, ids, edges) && mid in ids && ids <= f.parent.Keys
    modifies f
    ensures f.Valid() && f.parent.Keys == old(f.parent.Keys)
    ensures Matches(f.root, ids, edges + ReportsOf({mid}, ids, near))
  {
    hide IsForest, Leads, Matches, Moved;
    var reported := near(mid);
    ghost var grown := edges;
    for i := 0 to |reported|
      invariant f.Valid() && f.parent.Keys == old(f.parent.Keys)
      invariant Matches(f.root, ids, grown)
      invariant grown == edges + set b | b in reported[..i] && b in ids :: (mid, b)
    {
      var other := reported[i];
      ghost var root := f.root;
      if other in ids {
        f.Join(mid, other);
        JoinMatches(root, f.root, ids, grown, mid, other);
        grown := grown + {(mid, other)};
      }
      assert reported[..i + 1] == reported[..i] + [other];
    }
    assert reported[..|reported|] == reported;
    assert grown == edges + ReportsOf({mid}, ids, near);
  }

  /** The clusters of one project: the connected components of at least two active records of the
      reports read both ways. */
  method Clusters(f: Forest, ids: set<Id>, near: Near) returns (clusters: set<set<Id>>)
    requires f.Valid() && ids !! f.parent.Keys
    modifies f
    ensures f.Valid() && f.parent.Keys == old(f.parent.Keys) + ids
    ensures clusters == set a | a in ids && |Component(ids, near, a)| >= 2 :: Component(ids, near, a)
    ensures Partition(ids, near, clusters)
  {
    hide Matches, ReportsOf, Reports, Component, IsForest, Partition;
    Fresh(f, ids);
    ReportsNone(ids, near);
    var left := ids;
    while left != {}
      invariant left <= ids && f.Valid() && f.parent.Keys == old(f.parent.Keys) + ids
      invariant Matches(f.root, ids, ReportsOf(ids - left, ids, near))
      decreases left
    {
      var mid := MinOf(left);
      JoinNeighbours(f, ids, near, mid, ReportsOf(ids - left, ids, near));
      ReportsGrow(ids, near, left, mid);
      left := left - {mid};
    }
    ReportsAll(ids, near);
    clusters := Grouped(f, ids, near);
    ComponentsPartition(ids, near);
  }

  /** Active records, each of which the index reports near the one before it, or the one before it near this one. */
  ghost predicate Chain(ids: set<Id>, near: Near, p: seq<Id>, a: Id, b: Id) {
    && p != [] && p[0] == a && p[|p| - 1] == b && (forall x | x in p :: x in ids)
    && forall i | 0 < i < |p| :: p[i] in near(p[i - 1]) || p[i - 1] in near(p[i])
  }

  /** Each cluster has two records or more, and with one of them exactly those a chain leads to; and a record that a chain
      leads from to another one is in a cluster. */
  ghost predicate Partition(ids: set<Id>, near: Near, clusters: set<set<Id>>) {
    && (forall c | c in clusters :: |c| >= 2 && c <= ids)
    && (forall c, a, b | c in clusters && a in c :: b in c <==> exists p :: Chain(ids, near, p, a, b))
    && (forall a, b, p | Chain(ids, near, p, a, b) && a != b :: exists c :: c in clusters && a in c && b in c)
  }

  lemma ChainIff(ids: set<Id>, near: Near, a: Id, b: Id)
    requires a in ids
    ensures (exists p :: Chain(ids, near, p, a, b)) <==> b in Component(ids, near, a)
  {
    var edges := Reports(ids, near);
    if p :| Chain(ids, near, p, a, b) {
      assert p[|p| - 1] in p;
      forall i | 0 <= i < |p| - 1 ensures Linked(edges, p[i], p[i + 1]) {
        assert p[i] in p && p[i + 1] in p;
        assert p[i + 1] in near(p[i + 1 - 1]) || p[i + 1 - 1] in near(p[i + 1]);
      }
      assert Walk(edges, p, a, b);
    }
    if b in Component(ids, near, a) {
      var p :| Walk(edges, p, a, b);
      forall x | x in p ensures x in ids {
        var i :| 0 <= i < |p| && p[i] == x;
        if i > 0 { assert Linked(edges, p[i - 1], p[i - 1 + 1]); }
      }
      forall i | 0 < i < |p| ensures p[i] in near(p[i - 1]) || p[i - 1] in near(p[i]) {
        assert Linked(edges, p[i - 1], p[i - 1 + 1]);
      }
      assert Chain(ids, near, p, a, b);
    }
  }

  lemma SameComponent(ids: set<Id>, near: Near, a: Id, b: Id)
    requires a in ids && b in Component(ids, near, a)
    ensures Component(ids, near, b) == Component(ids, near, a)
  {
    hide Reports, Connected;
    var edges := Reports(ids, near);
    ConnectedBack(edges, a, b);
    forall x | x in ids ensures Connected(edges, a, x) <==> Connected(edges, b, x) {
      if Connected(edges, a, x) { ConnectedOn(edges, b, a, x); }
      if Connected(edges, b, x) { ConnectedOn(edges, a, b, x); }
    }
  }

  lemma ComponentsPartition(ids: set<Id>, near: Near)
    ensures Partition(ids, near, set a | a in ids && |Component(ids, near, a)| >= 2 :: Component(ids, near, a))
  {
    hide Component, Chain;
    var clusters := set a | a in ids && |Component(ids, near, a)| >= 2 :: Component(ids, near, a);
    forall a | a in ids ensures a in Component(ids, near, a) && Component(ids, near, a) <= ids { InOwn(ids, near, a); }
    forall c, a, b | c in clusters && a in c ensures b in c <==> exists p :: Chain(ids, near, p, a, b) {
      var r :| r in ids && c == Component(ids, near, r);
      SameComponent(ids, near, r, a);
      ChainIff(ids, near, a, b);
    }
    forall a, b, p | Chain(ids, near, p, a, b) && a != b ensures exists c :: c in clusters && a in c && b in c {
      assert a in ids by { ChainStarts(ids, near, p, a, b); }
      ChainIff(ids, near, a, b);
      var c := Component(ids, near, a);
      TwoIn(c, a, b);
      assert c in clusters;
    }
  }

  lemma InOwn(ids: set<Id>, near: Near, a: Id)
    requires a in ids
    ensures a in Component(ids, near, a) && Component(ids, near, a) <= ids
  {
    ConnectedItself(Reports(ids, near), a);
  }

  lemma ChainStarts(ids: set<Id>, near: Near, p: seq<Id>, a: Id, b: Id)
    requires Chain(ids, near, p, a, b)
    ensures a in ids
  {
    assert p[0] in p;
  }

  lemma TwoIn(c: set<Id>, a: Id, b: Id)
    requires a in c && b in c && a != b
    ensures |c| >= 2
  {
    assert c == {a, b} + (c - {a, b}) && |{a, b}| == 2;
  }

  lemma ReportsNone(ids: set<Id>, near: Near)
    ensures ReportsOf(ids - ids, ids, near) == {}
  {}

  lemma ReportsAll(ids: set<Id>, near: Near)
    ensures ReportsOf(ids - {}, ids, near) == Reports(ids, near)
  {
    assert ids - {} == ids;
  }

  lemma ReportsGrow(ids: set<Id>, near: Near, left: set<Id>, mid: Id)
    requires mid in left && left <= ids
    ensures ReportsOf(ids - (left - {mid}), ids, near)
            == ReportsOf(ids - left, ids, near) + ReportsOf({mid}, ids, near)
  {
    assert ids - (left - {mid}) == ids - left + {mid};
  }

  method Fresh(f: Forest, ids: set<Id>)
    requires f.Valid() && ids !! f.parent.Keys
    modifies f
    ensures f.Valid() && f.parent.Keys == old(f.parent.Keys) + ids
    ensures Matches(f.root, ids, {})
  {
    var left := ids;
    while left != {}
      invariant left <= ids && f.Valid() && f.parent.Keys == old(f.parent.Keys) + (ids - left)
      invariant forall x | x in ids - left :: x in f.root && f.root[x] == x
      decreases left
    {
      var mid :| mid in left;
      f.Make(mid);
      left := left - {mid};
    }
    forall a | a in ids { ConnectedItself({}, a); }
  }

  /** The records seen so far, by root. */
  ghost predicate GroupedBy(groups: map<Id, set<Id>>, root: map<Id, Id>, seen: set<Id>) {
    && seen <= root.Keys
    && (forall a | a in seen :: root[a] in groups)
    && (forall r | r in groups ::
          groups[r] == (set a | a in seen && root[a] == r) && exists a :: a in seen && root[a] == r)
  }

  function With(groups: map<Id, set<Id>>, r: Id, mid: Id): map<Id, set<Id>> {
    groups[r := (if r in groups then groups[r] else {}) + {mid}]
  }

  lemma GroupOne(groups: map<Id, set<Id>>, root: map<Id, Id>, seen: set<Id>, mid: Id)
    requires GroupedBy(groups, root, seen) && mid in root
    ensures GroupedBy(With(groups, root[mid], mid), root, seen + {mid})
  {
    var groups', seen' := With(groups, root[mid], mid), seen + {mid};
    forall r | r in groups'
      ensures groups'[r] == (set a | a in seen' && root[a] == r) && exists a :: a in seen' && root[a] == r
    {
      if r == root[mid] {
        assert mid in seen';
      } else {
        var a :| a in seen && root[a] == r;
        assert a in seen';
      }
    }
  }

  lemma GroupsAreComponents(groups: map<Id, set<Id>>, root: map<Id, Id>, ids: set<Id>, near: Near)
    requires Matches(root, ids, Reports(ids, near)) && GroupedBy(groups, root, ids)
    ensures (set r | r in groups && |groups[r]| > 1 :: groups[r])
            == set a | a in ids && |Component(ids, near, a)| >= 2 :: Component(ids, near, a)
  {
    hide Matches, Component, Reports;
    forall a | a in ids ensures root[a] in groups && groups[root[a]] == Component(ids, near, a) {
      RootsAreComponents(root, ids, near, a);
    }
    forall r | r in groups ensures exists a :: a in ids && groups[r] == Component(ids, near, a) {
      var a :| a in ids && root[a] == r;
      RootsAreComponents(root, ids, near, a);
    }
  }

  /** The records of each root, and of these the groups of two or more. */
  method Grouped(f: Forest, ids: set<Id>, near: Near) returns (clusters: set<set<Id>>)
    requires f.Valid() && Matches(f.root, ids, Reports(ids, near)) && ids <= f.parent.Keys
    modifies f`parent
    ensures f.Valid() && f.parent.Keys == old(f.parent.Keys)
    ensures clusters == set a | a in ids && |Component(ids, near, a)| >= 2 :: Component(ids, near, a)
  {
    hide IsForest, Leads, Reports, Component, GroupedBy;
    var groups: map<Id, set<Id>> := map[];
    var left := ids;
    NoneGrouped(f.root, ids);
    while left != {}
      invariant left <= ids && f.Valid() && f.parent.Keys == old(f.parent.Keys)
      invariant GroupedBy(groups, f.root, ids - left)
      decreases left
    {
      var mid :| mid in left;
      var r := f.Find(mid);
      GroupOne(groups, f.root, ids - left, mid);
      assert ids - left + {mid} == ids - (left - {mid});
      left := left - {mid};
      groups := With(groups, r, mid);
    }
    assert ids - left == ids;
    GroupsAreComponents(groups, f.root, ids, near);
    clusters := set r | r in groups && |groups[r]| > 1 :: groups[r];
  }

  lemma NoneGrouped(root: map<Id, Id>, ids: set<Id>)
    ensures GroupedBy(map[], root, ids - ids)
  {}

  /** Every project in turn over one parent map; no record is in two projects. */
  method AuditProjects(projects: seq<set<Id>>, near: Near) returns (clusters: seq<set<set<Id>>>)
    requires forall i, j | 0 <= i < j < |projects| :: projects[i] !! projects[j]
    ensures |clusters| == |projects|
    ensures forall i | 0 <= i < |projects| ::
              clusters[i] == set a | a in projects[i] && |Component(projects[i], near, a)| >= 2
                             :: Component(projects[i], near, a)
    ensures forall i | 0 <= i < |projects| :: Partition(projects[i], near, clusters[i])
  {
    hide Partition, Component;
    var f := new Forest();
    clusters := [];
    for i := 0 to |projects|
      invariant f.Valid() && fresh(f)
      invariant f.parent.Keys == set j, x | 0 <= j < i && x in projects[j] :: x
      invariant |clusters| == i
      invariant forall j | 0 <= j < i ::
          clusters[j] == set a | a in projects[j] && |Component(projects[j], near, a)| >= 2
                         :: Component(projects[j], near, a)
      invariant forall j | 0 <= j < i :: Partition(projects[j], near, clusters[j])
    {
      var found := Clusters(f, projects[i], near);
      clusters := clusters + [found];
    }
  }
}
