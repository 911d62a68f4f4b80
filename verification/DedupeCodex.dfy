/** Which Codex rows may go. A session whose rollout is gone keeps one row per distinct turn, and every
    deleted row's text stays in a kept one; a session on disk loses an old row only when a row of the
    current parse holds its reply. */
module DedupeCodex {
  import opened Wrappers

  /** An indexed turn; `inMilvus` is false for a row only the keyword index holds. */
  datatype Row = Row(id: nat, turnIndex: int, document: string, inMilvus: bool)

  const USER := "User: "
  const MARKER := "\n\nAssistant: "

  predicate StartsWith(s: string, t: string) { |t| <= |s| && s[..|t|] == t }

  predicate EndsWith(s: string, t: string) { |t| <= |s| && s[|s| - |t|..] == t }

  predicate HoldsAt(s: string, t: string, i: nat) { i + |t| <= |s| && s[i..i + |t|] == t }

  predicate Holds(s: string, t: string) {
    exists i :: 0 <= i <= |s| && HoldsAt(s, t, i)
  }

  /** `doc` is a user turn, or the like, whose reply is exactly `text`. */
  predicate Answers(doc: string, text: string) { EndsWith(doc, MARKER + text) }

  // ---- Sessions whose rollout is gone -----------------------------------------------------

  /** Milvus copies first, then by turn, then by doc_id. */
  predicate Precedes(a: Row, b: Row) {
    if a.inMilvus != b.inMilvus then a.inMilvus
    else if a.turnIndex != b.turnIndex then a.turnIndex < b.turnIndex
    else a.id <= b.id
  }

  predicate Ordered(s: seq<Row>) { forall i, j | 0 <= i < j < |s| :: Precedes(s[i], s[j]) }

  function InsertRow(s: seq<Row>, r: Row): seq<Row> {
    if s == [] then [r]
    else if Precedes(s[|s| - 1], r) then s + [r]
    else InsertRow(s[..|s| - 1], r) + [s[|s| - 1]]
  }

  function SortRows(s: seq<Row>): seq<Row> {
    if s == [] then [] else InsertRow(SortRows(s[..|s| - 1]), s[|s| - 1])
  }

  lemma OrderedAppend(s: seq<Row>, r: Row)
    requires Ordered(s) && forall x | x in s :: Precedes(x, r)
    ensures Ordered(s + [r])
  {
    hide Precedes;
    var t := s + [r];
    forall i, j | 0 <= i < j < |t| ensures Precedes(t[i], t[j]) {
      assert t[i] == s[i] && s[i] in s;
    }
  }

  lemma OrderedFront(front: seq<Row>, last: Row)
    requires Ordered(front + [last])
    ensures Ordered(front) && forall x | x in front :: Precedes(x, last)
  {
    hide Precedes;
    var s := front + [last];
    forall i, j | 0 <= i < j < |front| ensures Precedes(front[i], front[j]) {
      assert s[i] == front[i] && s[j] == front[j];
    }
    forall x | x in front ensures Precedes(x, last) {
      var i :| 0 <= i < |front| && front[i] == x;
      assert s[i] == x && s[|front|] == last;
    }
  }

  lemma PrecedesOn(x: Row, y: Row, z: Row)
    requires Precedes(x, y) && Precedes(y, z)
    ensures Precedes(x, z)
  {}

  lemma {:induction false} InsertKeeps(s: seq<Row>, r: Row)
    requires Ordered(s)
    ensures Ordered(InsertRow(s, r)) && multiset(InsertRow(s, r)) == multiset(s) + multiset{r}
  {
    hide Ordered;
    if s == [] {
      OneOrdered(r);
    } else {
      var front, last := s[..|s| - 1], s[|s| - 1];
      assert s == front + [last];
      OrderedFront(front, last);
      if Precedes(last, r) {
        forall x | x in s ensures Precedes(x, r) {
          if x in front { PrecedesOn(x, last, r); }
        }
        OrderedAppend(s, r);
      } else {
        InsertKeeps(front, r);
        forall x | x in InsertRow(front, r) ensures Precedes(x, last) {
          assert x in multiset(InsertRow(front, r));
        }
        OrderedAppend(InsertRow(front, r), last);
      }
    }
  }

  lemma OneOrdered(r: Row)
    ensures Ordered([r])
  {}

  lemma SortedNothing()
    ensures Ordered([])
  {}

  lemma {:induction false} SortKeeps(s: seq<Row>)
    ensures Ordered(SortRows(s)) && multiset(SortRows(s)) == multiset(s)
  {
    hide Ordered, InsertRow;
    SortedNothing();
    if s != [] {
      SortKeeps(s[..|s| - 1]);
      InsertKeeps(SortRows(s[..|s| - 1]), s[|s| - 1]);
      assert s == s[..|s| - 1] + [s[|s| - 1]];
    }
  }

  predicate BackedBy(rows: seq<Row>, doc: string) {
    exists i :: 0 <= i < |rows| && rows[i].document == doc && rows[i].inMilvus
  }

  /** Each document with a reply in it, and whether Milvus holds one. */
  function WithUser(rows: seq<Row>): map<string, bool> {
    map i | 0 <= i < |rows| && Holds(rows[i].document, MARKER) :: rows[i].document := BackedBy(rows, rows[i].document)
  }

  /** An assistant-only copy of a reply, which Milvus holds too unless this copy is not in Milvus. */
  predicate CopyOf(withUser: map<string, bool>, r: Row) {
    !StartsWith(r.document, USER)
    && exists doc :: doc in withUser && Answers(doc, r.document) && (withUser[doc] || !r.inMilvus)
  }

  predicate Seen(kept: seq<Row>, doc: string) { exists i :: 0 <= i < |kept| && kept[i].document == doc }

  function Kept(order: seq<Row>, withUser: map<string, bool>): seq<Row> {
    if order == [] then []
    else
      var kept, r := Kept(order[..|order| - 1], withUser), order[|order| - 1];
      if Seen(kept, r.document) || CopyOf(withUser, r) then kept else kept + [r]
  }

  function Dropped(order: seq<Row>, withUser: map<string, bool>): seq<nat> {
    if order == [] then []
    else
      var front, r := order[..|order| - 1], order[|order| - 1];
      Dropped(front, withUser)
      + if Seen(Kept(front, withUser), r.document) || CopyOf(withUser, r) then [r.id] else []
  }

  method Users(rows: seq<Row>) returns (withUser: map<string, bool>)
    ensures withUser == WithUser(rows)
  {
    withUser := map[];
    for n := 0 to |rows|
      invariant withUser.Keys == set i | 0 <= i < n && Holds(rows[i].document, MARKER) :: rows[i].document
      invariant forall doc | doc in withUser :: withUser[doc] == BackedBy(rows[..n], doc)
    {
      var r := rows[n];
      forall doc: string ensures BackedBy(rows[..n + 1], doc) == (BackedBy(rows[..n], doc) || (r.document == doc && r.inMilvus)) {
        BackedNext(rows, n, doc);
      }
      if Holds(r.document, MARKER) {
        if r.document !in withUser { NotBackedYet(rows, n); }
        withUser := withUser[r.document :=
                               (r.document in withUser && withUser[r.document]) || r.inMilvus];
      }
    }
    assert rows[..|rows|] == rows;
  }

  lemma BackedNext(rows: seq<Row>, n: nat, doc: string)
    requires n < |rows|
    ensures BackedBy(rows[..n + 1], doc) == (BackedBy(rows[..n], doc) || (rows[n].document == doc && rows[n].inMilvus))
  {
    var a, b := rows[..n], rows[..n + 1];
    if BackedBy(a, doc) {
      var i :| 0 <= i < |a| && a[i].document == doc && a[i].inMilvus;
      assert b[i] == a[i];
    }
    if BackedBy(b, doc) {
      var i :| 0 <= i < |b| && b[i].document == doc && b[i].inMilvus;
      if i < n { assert a[i] == b[i]; }
    }
    if rows[n].document == doc && rows[n].inMilvus { assert b[n] == rows[n]; }
  }

  lemma NotBackedYet(rows: seq<Row>, n: nat)
    requires n < |rows| && Holds(rows[n].document, MARKER)
    requires rows[n].document !in set i | 0 <= i < n && Holds(rows[i].document, MARKER) :: rows[i].document
    ensures !BackedBy(rows[..n], rows[n].document)
  {}

  /** The doc_ids to delete: repeats of an earlier row and assistant-only copies. */
  method DuplicateRows(rows: seq<Row>) returns (duplicates: seq<nat>)
    ensures duplicates == Dropped(SortRows(rows), WithUser(rows))
    ensures forall x | x in duplicates :: exists r :: r in rows && r.id == x
    ensures DistinctIds(rows) ==> Chosen(rows, duplicates)
  {
    hide Kept, Dropped, CopyOf, Chosen, DistinctIds;
    var withUser := Users(rows);
    var order := SortRows(rows);
    var seen: set<string> := {};
    duplicates := [];
    NoRows(withUser);
    assert order[..0] == [];
    for n := 0 to |order|
      invariant duplicates == Dropped(order[..n], withUser)
      invariant forall doc :: doc in seen <==> Seen(Kept(order[..n], withUser), doc)
    {
      var r := order[n];
      assert order[..n + 1][..n] == order[..n];
      ghost var kept := Kept(order[..n], withUser);
      OneMore(order[..n], r, withUser);
      assert order[..n] + [r] == order[..n + 1];
      if r.document in seen || CopyOf(withUser, r) {
        duplicates := duplicates + [r.id];
        assert kept + [] == kept;
      } else {
        forall doc: string ensures Seen(kept + [r], doc) == (Seen(kept, doc) || doc == r.document) {
          SeenNext(kept, r, doc);
        }
        seen := seen + {r.document};
      }
    }
    assert order[..|order|] == order;
    DroppedRows(rows, duplicates);
    if DistinctIds(rows) { ChosenRows(rows); }
  }

  lemma OneMore(front: seq<Row>, r: Row, withUser: map<string, bool>)
    ensures var dup := Seen(Kept(front, withUser), r.document) || CopyOf(withUser, r);
            && Dropped(front + [r], withUser) == Dropped(front, withUser) + (if dup then [r.id] else [])
            && Kept(front + [r], withUser) == Kept(front, withUser) + (if dup then [] else [r])
  {
    hide Seen, CopyOf;
    assert (front + [r])[..|front|] == front;
  }

  lemma SeenNext(kept: seq<Row>, r: Row, doc: string)
    ensures Seen(kept + [r], doc) == (Seen(kept, doc) || doc == r.document)
  {
    if Seen(kept, doc) {
      var i :| 0 <= i < |kept| && kept[i].document == doc;
      assert (kept + [r])[i] == kept[i];
    }
    assert (kept + [r])[|kept|] == r;
  }

  // ---- No turn is lost --------------------------------------------------------------------

  lemma {:induction false} KeptGrows(order: seq<Row>, withUser: map<string, bool>, n: nat)
    requires n <= |order|
    ensures |Kept(order[..n], withUser)| <= |Kept(order, withUser)|
    ensures Kept(order, withUser)[..|Kept(order[..n], withUser)|] == Kept(order[..n], withUser)
    decreases |order|
  {
    if n < |order| {
      KeptGrows(order[..|order| - 1], withUser, n);
      assert order[..|order| - 1][..n] == order[..n];
    } else {
      assert order[..n] == order;
    }
  }

  lemma {:induction false} KeptAreRows(order: seq<Row>, withUser: map<string, bool>, k: Row)
    requires k in Kept(order, withUser)
    ensures exists i :: 0 <= i < |order| && order[i] == k
  {
    var front := order[..|order| - 1];
    if k in Kept(front, withUser) {
      KeptAreRows(front, withUser, k);
      var i :| 0 <= i < |front| && front[i] == k;
      assert order[i] == k;
    }
  }

  /** `k` still tells what `r` told. */
  predicate Tells(k: Row, r: Row) {
    (k.document == r.document || Answers(k.document, r.document)) && (r.inMilvus ==> k.inMilvus)
  }

  function MaxLength(rows: seq<Row>): nat {
    if rows == [] then 0
    else
      var m, n := MaxLength(rows[..|rows| - 1]), |rows[|rows| - 1].document|;
      if m < n then n else m
  }

  lemma {:induction false} WithinMax(rows: seq<Row>, i: nat)
    requires i < |rows|
    ensures |rows[i].document| <= MaxLength(rows)
  {
    if i < |rows| - 1 {
      WithinMax(rows[..|rows| - 1], i);
      assert rows[..|rows| - 1][i] == rows[i];
    }
  }

  lemma AnswersOn(a: string, b: string, c: string)
    requires a == b || Answers(a, b)
    requires Answers(b, c)
    ensures Answers(a, c)
  {
    if a != b {
      var bb, cc := MARKER + b, MARKER + c;
      assert a[|a| - |bb|..] == bb;
      assert b[|b| - |cc|..] == cc;
      assert bb[|bb| - |cc|..] == cc by { assert bb[|bb| - |cc|..] == b[|b| - |cc|..]; }
      assert a[|a| - |cc|..] == a[|a| - |bb|..][|bb| - |cc|..];
    }
  }

  /** Whatever row goes, a kept one holds the same document or one that ends in the reply marker and
      it, and that one is in Milvus whenever the deleted one was, however long the chain of deleted
      rows that cover each other: each is longer than the one it covers. */
  lemma {:induction false} NoTurnLost(order: seq<Row>, withUser: map<string, bool>, i: nat)
    requires Ordered(order) && i < |order|
    requires forall doc | doc in withUser :: exists q :: 0 <= q < |order| && order[q].document == doc
    requires forall doc | doc in withUser :: withUser[doc] ==> BackedBy(order, doc)
    ensures exists k :: k in Kept(order, withUser) && Tells(k, order[i])
    decreases MaxLength(order) - |order[i].document|
  {
    hide EndsWith, CopyOf, StartsWith;
    var r, before := order[i], Kept(order[..i], withUser);
    KeptGrows(order, withUser, i);
    KeptGrows(order, withUser, i + 1);
    assert order[..i + 1][..i] == order[..i];
    if Seen(before, r.document) {
      var j :| 0 <= j < |before| && before[j].document == r.document;
      assert before[j] in Kept(order[..i], withUser);
      KeptAreRows(order[..i], withUser, before[j]);
      assert Kept(order, withUser)[j] == before[j];
      assert Tells(before[j], r);
    } else if CopyOf(withUser, r) {
      var q := Longer(order, withUser, r);
      WithinMax(order, q);
      NoTurnLost(order, withUser, q);
      var k :| k in Kept(order, withUser) && Tells(k, order[q]);
      AnswersOn(k.document, order[q].document, r.document);
    } else {
      var upTo := Kept(order[..i + 1], withUser);
      assert upTo[|upTo| - 1] == r;
      assert Kept(order, withUser)[|upTo| - 1] == r;
      assert r in Kept(order, withUser) && Tells(r, order[i]);
    }
  }

  /** A row that answers with `r`'s document, in Milvus if `r` is. */
  lemma Longer(order: seq<Row>, withUser: map<string, bool>, r: Row) returns (q: nat)
    requires CopyOf(withUser, r)
    requires forall doc | doc in withUser :: exists q :: 0 <= q < |order| && order[q].document == doc
    requires forall doc | doc in withUser :: withUser[doc] ==> BackedBy(order, doc)
    ensures q < |order| && Answers(order[q].document, r.document) && (r.inMilvus ==> order[q].inMilvus)
    ensures |order[q].document| > |r.document|
  {
    var doc :| doc in withUser && Answers(doc, r.document) && (withUser[doc] || !r.inMilvus);
    if withUser[doc] {
      q :| 0 <= q < |order| && order[q].document == doc && order[q].inMilvus;
    } else {
      q :| 0 <= q < |order| && order[q].document == doc;
    }
  }

  /** No turn is lost from the rows of a session. */
  lemma NothingLost(rows: seq<Row>, r: Row)
    requires r in rows
    ensures var kept := Kept(SortRows(rows), WithUser(rows));
            exists k :: k in kept && k in rows && Tells(k, r)
  {
    hide Tells, Kept;
    var order, withUser := SortRows(rows), WithUser(rows);
    SortKeeps(rows);
    SameRows(rows, order);
    var i :| 0 <= i < |order| && order[i] == r;
    NoTurnLost(order, withUser, i);
    var k :| k in Kept(order, withUser) && Tells(k, r);
    KeptAreRows(order, withUser, k);
  }

  lemma SameRows(rows: seq<Row>, order: seq<Row>)
    requires multiset(order) == multiset(rows)
    ensures forall r :: r in rows <==> r in order
    ensures forall doc | doc in WithUser(rows) :: exists q :: 0 <= q < |order| && order[q].document == doc
    ensures forall doc | doc in WithUser(rows) :: WithUser(rows)[doc] ==> BackedBy(order, doc)
  {
    forall r ensures r in rows <==> r in order {
      assert r in rows <==> r in multiset(rows);
      assert r in order <==> r in multiset(order);
    }
    forall doc | doc in WithUser(rows)
      ensures exists q :: 0 <= q < |order| && order[q].document == doc
      ensures WithUser(rows)[doc] ==> BackedBy(order, doc)
    {
      var i :| 0 <= i < |rows| && rows[i].document == doc;
      assert rows[i] in order;
      var q :| 0 <= q < |order| && order[q] == rows[i];
      if WithUser(rows)[doc] {
        var j :| 0 <= j < |rows| && rows[j].document == doc && rows[j].inMilvus;
        assert rows[j] in order;
        var p :| 0 <= p < |order| && order[p] == rows[j];
      }
    }
  }

  /** What stays has no repeats and no assistant-only copy left, so a second run deletes nothing. */
  lemma {:induction false} KeptAreDistinct(order: seq<Row>, withUser: map<string, bool>)
    ensures var kept := Kept(order, withUser);
            && (forall i, j | 0 <= i < j < |kept| :: kept[i].document != kept[j].document)
            && (forall k | k in kept :: !CopyOf(withUser, k))
  {
    hide CopyOf;
    if order != [] {
      KeptAreDistinct(order[..|order| - 1], withUser);
      var before, r := Kept(order[..|order| - 1], withUser), order[|order| - 1];
      if Seen(before, r.document) || CopyOf(withUser, r) {
        assert Kept(order, withUser) == before;
      } else {
        forall i | 0 <= i < |before| ensures before[i].document != r.document {}
        assert Kept(order, withUser) == before + [r];
      }
    }
  }

  lemma {:induction false} NothingMore(kept: seq<Row>, withUser: map<string, bool>, fewer: map<string, bool>)
    requires forall i, j | 0 <= i < j < |kept| :: kept[i].document != kept[j].document
    requires forall k | k in kept :: !CopyOf(withUser, k)
    requires forall doc | doc in fewer :: doc in withUser && (fewer[doc] ==> withUser[doc])
    ensures Dropped(kept, fewer) == [] && Kept(kept, fewer) == kept
  {
    hide CopyOf, Seen, Kept, Dropped;
    NoRows(fewer);
    if kept != [] {
      var front, k := kept[..|kept| - 1], kept[|kept| - 1];
      assert kept == front + [k];
      FrontDistinct(front, k);
      forall x | x in front ensures !CopyOf(withUser, x) { assert x in kept; }
      NothingMore(front, withUser, fewer);
      NotCopy(withUser, fewer, k);
      OneKept(front, k, fewer);
    }
  }

  lemma NoRows(withUser: map<string, bool>)
    ensures Kept([], withUser) == [] && Dropped([], withUser) == []
  {}

  lemma FrontDistinct(front: seq<Row>, k: Row)
    requires forall i, j | 0 <= i < j < |front + [k]| :: (front + [k])[i].document != (front + [k])[j].document
    ensures forall i, j | 0 <= i < j < |front| :: front[i].document != front[j].document
    ensures !Seen(front, k.document)
  {
    var s := front + [k];
    assert s[|front|] == k;
    forall i | 0 <= i < |front| ensures s[i] == front[i] && front[i].document != k.document {}
  }

  lemma OneKept(front: seq<Row>, k: Row, withUser: map<string, bool>)
    requires Kept(front, withUser) == front && Dropped(front, withUser) == []
    requires !Seen(front, k.document) && !CopyOf(withUser, k)
    ensures Kept(front + [k], withUser) == front + [k] && Dropped(front + [k], withUser) == []
  {
    hide Seen, CopyOf;
    var s := front + [k];
    assert s[..|s| - 1] == front && s[|s| - 1] == k;
  }

  lemma NotCopy(withUser: map<string, bool>, fewer: map<string, bool>, k: Row)
    requires !CopyOf(withUser, k)
    requires forall doc | doc in fewer :: doc in withUser && (fewer[doc] ==> withUser[doc])
    ensures !CopyOf(fewer, k)
  {
    hide Answers, StartsWith;
  }

  lemma SecondRunDeletesNothing(rows: seq<Row>)
    ensures var kept := Kept(SortRows(rows), WithUser(rows));
            Dropped(kept, WithUser(kept)) == []
  {
    var order, withUser := SortRows(rows), WithUser(rows);
    var kept := Kept(order, withUser);
    KeptAreDistinct(order, withUser);
    SortKeeps(rows);
    SameRows(rows, order);
    forall doc | doc in WithUser(kept) ensures doc in withUser && (WithUser(kept)[doc] ==> withUser[doc]) {
      FewerUsers(rows, kept, doc);
    }
    NothingMore(kept, withUser, WithUser(kept));
  }

  lemma FewerUsers(rows: seq<Row>, kept: seq<Row>, doc: string)
    requires kept == Kept(SortRows(rows), WithUser(rows)) && doc in WithUser(kept)
    requires forall r :: r in rows <==> r in SortRows(rows)
    ensures doc in WithUser(rows) && (WithUser(kept)[doc] ==> WithUser(rows)[doc])
  {
    hide Holds, Kept, SortRows;
    var i :| 0 <= i < |kept| && Holds(kept[i].document, MARKER) && kept[i].document == doc;
    KeptAreRows(SortRows(rows), WithUser(rows), kept[i]);
    assert kept[i] in rows;
    var a :| 0 <= a < |rows| && rows[a] == kept[i];
    if WithUser(kept)[doc] {
      var j :| 0 <= j < |kept| && kept[j].document == doc && kept[j].inMilvus;
      KeptAreRows(SortRows(rows), WithUser(rows), kept[j]);
      assert kept[j] in rows;
      var b :| 0 <= b < |rows| && rows[b] == kept[j];
    }
  }

  // ---- What goes, in the rows' own terms ------------------------------------------------------

  predicate DistinctIds(rows: seq<Row>) { forall i, j | 0 <= i < j < |rows| :: rows[i].id != rows[j].id }

  /** The document ends in the reply marker and this reply. */
  predicate Quotes(doc: string, reply: string) {
    exists head: nat :: head <= |doc| && doc == doc[..head] + "\n\nAssistant: " + reply
  }

  /** `k` says what `r` said, and in Milvus if `r` did. */
  predicate Says(k: Row, r: Row) {
    (k.document == r.document || Quotes(k.document, r.document)) && (r.inMilvus ==> k.inMilvus)
  }

  /** In Milvus before not, then the earlier turn, then the lower doc_id. */
  predicate Before(a: Row, b: Row) {
    || (a.inMilvus && !b.inMilvus)
    || (a.inMilvus == b.inMilvus && (a.turnIndex < b.turnIndex || (a.turnIndex == b.turnIndex && a.id < b.id)))
  }

  /** A reply without its question that another row's document ends with, one in Milvus if this row is. */
  predicate Repeats(rows: seq<Row>, r: Row) {
    !("User: " <= r.document) && exists q :: q in rows && Quotes(q.document, r.document) && (r.inMilvus ==> q.inMilvus)
  }

  /** Each row that goes is said by one that stays; of the rows with one document the first stays alone, unless it repeats
      a reply; and none that does stays. */
  ghost predicate Chosen(rows: seq<Row>, duplicates: seq<nat>) {
    && (forall i, j | 0 <= i < j < |duplicates| :: duplicates[i] != duplicates[j])
    && (forall r | r in rows :: exists k :: k in rows && k.id !in duplicates && Says(k, r))
    && (forall r | r in rows :: r.id in duplicates <==>
          Repeats(rows, r) || exists a :: a in rows && a.document == r.document && Before(a, r))
  }

  lemma {:induction false} DroppedAre(order: seq<Row>, withUser: map<string, bool>, x: nat)
    requires x in Dropped(order, withUser)
    ensures exists i :: 0 <= i < |order| && order[i].id == x
  {
    hide Seen, CopyOf;
    var n := |order| - 1;
    if x in Dropped(order[..n], withUser) {
      DroppedAre(order[..n], withUser, x);
      var i :| 0 <= i < n && order[..n][i].id == x;
      assert order[i].id == x;
    } else {
      assert order[n].id == x;
    }
  }

  lemma DroppedRows(rows: seq<Row>, duplicates: seq<nat>)
    requires duplicates == Dropped(SortRows(rows), WithUser(rows))
    ensures forall x | x in duplicates :: exists r :: r in rows && r.id == x
  {
    hide Dropped, WithUser, SortRows;
    SortKeeps(rows);
    var order := SortRows(rows);
    SameRows(rows, order);
    forall x | x in duplicates ensures exists r :: r in rows && r.id == x {
      DroppedAre(order, WithUser(rows), x);
      var i :| 0 <= i < |order| && order[i].id == x;
      assert order[i] in rows;
    }
  }

  /** Nothing before the last row has its id. */
  lemma NotYet(front: seq<Row>, last: Row, withUser: map<string, bool>)
    requires DistinctIds(front + [last])
    ensures DistinctIds(front) && last.id !in Dropped(front, withUser)
    ensures forall k | k in Kept(front, withUser) || k in front :: k.id != last.id
  {
    hide Kept, Dropped;
    var s := front + [last];
    forall i, j | 0 <= i < j < |front| ensures front[i].id != front[j].id { assert s[i] == front[i] && s[j] == front[j]; }
    forall r | r in front ensures r.id != last.id {
      var i :| 0 <= i < |front| && front[i] == r;
      assert s[i] == r && s[|front|] == last;
    }
    forall x | x in Dropped(front, withUser) ensures x != last.id {
      DroppedAre(front, withUser, x);
      var i :| 0 <= i < |front| && front[i].id == x;
      assert front[i] in front;
    }
    forall k | k in Kept(front, withUser) ensures k.id != last.id {
      KeptAreRows(front, withUser, k);
      var i :| 0 <= i < |front| && front[i] == k;
      assert front[i] in front;
    }
  }

  /** With distinct ids, what is dropped is what is not kept. */
  lemma {:induction false} DroppedNotKept(order: seq<Row>, withUser: map<string, bool>)
    requires DistinctIds(order)
    ensures forall r | r in order :: r in Kept(order, withUser) <==> r.id !in Dropped(order, withUser)
  {
    hide Kept, Dropped, Seen, CopyOf, DistinctIds;
    if order != [] {
      var n := |order| - 1;
      var front, last := order[..n], order[n];
      assert order == front + [last];
      NotYet(front, last, withUser);
      DroppedNotKept(front, withUser);
      OneMore(front, last, withUser);
    }
  }

  lemma {:induction false} DroppedOnce(order: seq<Row>, withUser: map<string, bool>)
    requires DistinctIds(order)
    ensures var d := Dropped(order, withUser); forall i, j | 0 <= i < j < |d| :: d[i] != d[j]
  {
    hide Kept, Dropped, Seen, CopyOf, DistinctIds;
    if order == [] {
      NoRows(withUser);
    } else {
      var n := |order| - 1;
      var front, last := order[..n], order[n];
      assert order == front + [last];
      NotYet(front, last, withUser);
      DroppedOnce(front, withUser);
      OneMore(front, last, withUser);
    }
  }

  lemma QuotesIff(doc: string, reply: string)
    ensures Quotes(doc, reply) <==> Answers(doc, reply)
  {
    var tail := MARKER + reply;
    if Answers(doc, reply) {
      var head := |doc| - |tail|;
      assert doc == doc[..head] + doc[head..];
      assert doc == doc[..head] + "\n\nAssistant: " + reply;
    }
    if head: nat :| head <= |doc| && doc == doc[..head] + "\n\nAssistant: " + reply {
      assert doc == doc[..head] + tail;
      assert doc[|doc| - |tail|..] == tail;
    }
  }

  lemma SaysIff(k: Row, r: Row)
    ensures Says(k, r) <==> Tells(k, r)
  {
    QuotesIff(k.document, r.document);
  }

  /** What ends in a reply holds the marker. */
  lemma AnswersHold(doc: string, reply: string)
    requires Answers(doc, reply)
    ensures Holds(doc, MARKER)
  {
    var tail := MARKER + reply;
    var i := |doc| - |tail|;
    assert doc[i..] == tail;
    assert doc[i..i + |MARKER|] == tail[..|MARKER|] == MARKER;
    assert HoldsAt(doc, MARKER, i);
  }

  lemma RepeatsIff(rows: seq<Row>, r: Row)
    ensures Repeats(rows, r) <==> CopyOf(WithUser(rows), r)
  {
    hide Holds, Quotes, Answers;
    if q :| q in rows && Repeats(rows, r) && Quotes(q.document, r.document) && (r.inMilvus ==> q.inMilvus) {
      QuotesIff(q.document, r.document);
      AnswersHold(q.document, r.document);
      var i :| 0 <= i < |rows| && rows[i] == q;
      assert q.inMilvus ==> BackedBy(rows, q.document);
    }
    if CopyOf(WithUser(rows), r) {
      var doc :| doc in WithUser(rows) && Answers(doc, r.document) && (WithUser(rows)[doc] || !r.inMilvus);
      QuotesIff(doc, r.document);
      if r.inMilvus {
        var i :| 0 <= i < |rows| && rows[i].document == doc && rows[i].inMilvus;
        assert rows[i] in rows;
      } else {
        var i :| 0 <= i < |rows| && rows[i].document == doc;
        assert rows[i] in rows;
      }
    }
  }

  /** Copies stay copies further on in the order, Milvus rows being first. */
  lemma CopyOn(withUser: map<string, bool>, a: Row, r: Row)
    requires Precedes(a, r) && a.document == r.document && CopyOf(withUser, a)
    ensures CopyOf(withUser, r)
  {
    hide Answers, StartsWith;
  }

  /** A row is kept when it is no copy and no row before it in order has its document. */
  lemma {:induction false} KeptIff(order: seq<Row>, withUser: map<string, bool>, i: nat)
    requires DistinctIds(order) && Ordered(order) && i < |order|
    ensures order[i] in Kept(order, withUser)
            <==> !CopyOf(withUser, order[i]) && forall j | 0 <= j < i :: order[j].document != order[i].document
    decreases |order|, 0
  {
    hide CopyOf, Precedes, Seen;
    var n, r := |order| - 1, order[i];
    var front := order[..n];
    assert order == front + [order[n]];
    FrontOf(front, order[n]);
    if i < n {
      assert front[i] == r;
      KeptIff(front, withUser, i);
      forall j | 0 <= j < i ensures front[j] == order[j] {}
    } else {
      NotYet(front, r, withUser);
      OneMore(front, r, withUser);
      if !CopyOf(withUser, r) { SeenIffBefore(front, withUser, r); }
      forall j | 0 <= j < n ensures front[j] == order[j] {}
    }
  }

  lemma FrontOf(front: seq<Row>, last: Row)
    requires DistinctIds(front + [last]) && Ordered(front + [last])
    ensures DistinctIds(front) && Ordered(front) && forall x | x in front :: Precedes(x, last) && x.id != last.id
  {
    var s := front + [last];
    OrderedFront(front, last);
    forall i, j | 0 <= i < j < |front| ensures front[i].id != front[j].id { assert s[i] == front[i] && s[j] == front[j]; }
    forall x | x in front ensures x.id != last.id {
      var i :| 0 <= i < |front| && front[i] == x;
      assert s[i] == x && s[|front|] == last;
    }
  }

  lemma {:induction false} SeenIffBefore(front: seq<Row>, withUser: map<string, bool>, r: Row)
    requires DistinctIds(front) && Ordered(front) && !CopyOf(withUser, r) && forall x | x in front :: Precedes(x, r)
    ensures Seen(Kept(front, withUser), r.document) <==> exists j :: 0 <= j < |front| && front[j].document == r.document
    decreases |front|, 1
  {
    hide CopyOf, Precedes, Ordered, DistinctIds, Kept;
    if Seen(Kept(front, withUser), r.document) {
      var i :| 0 <= i < |Kept(front, withUser)| && Kept(front, withUser)[i].document == r.document;
      KeptAreRows(front, withUser, Kept(front, withUser)[i]);
    }
    if j :| 0 <= j < |front| && front[j].document == r.document {
      var f := FirstWith(front, r.document, j);
      assert front[f] in front;
      if CopyOf(withUser, front[f]) { CopyOn(withUser, front[f], r); }
      KeptIff(front, withUser, f);
      var k :| 0 <= k < |Kept(front, withUser)| && Kept(front, withUser)[k] == front[f];
      assert Kept(front, withUser)[k].document == r.document;
    }
  }

  lemma {:induction false} FirstWith(s: seq<Row>, doc: string, j: nat) returns (f: nat)
    requires j < |s| && s[j].document == doc
    ensures f <= j && s[f].document == doc && forall i | 0 <= i < f :: s[i].document != doc
  {
    f := j;
    if i :| 0 <= i < j && s[i].document == doc { f := FirstWith(s, doc, i); }
  }

  lemma PlaceIsBefore(order: seq<Row>, i: nat, j: nat)
    requires Ordered(order) && DistinctIds(order) && i < |order| && j < |order|
    ensures Before(order[i], order[j]) <==> i < j
  {
    if i < j { assert Precedes(order[i], order[j]); } else if j < i { assert Precedes(order[j], order[i]); }
  }

  lemma SortedDistinct(rows: seq<Row>)
    requires DistinctIds(rows)
    ensures DistinctIds(SortRows(rows))
  {
    hide SortRows;
    SortKeeps(rows);
    var order := SortRows(rows);
    SameRows(rows, order);
    forall i, j | 0 <= i < j < |order| ensures order[i].id != order[j].id {
      assert order[i] in order && order[j] in order;
      var a :| 0 <= a < |rows| && rows[a] == order[i];
      var b :| 0 <= b < |rows| && rows[b] == order[j];
      if order[i] == order[j] {
        OnceEach(rows, order[i]);
        TwiceIn(order, i, j);
      }
    }
  }

  lemma {:induction false} OnceEach(rows: seq<Row>, r: Row)
    requires DistinctIds(rows)
    ensures multiset(rows)[r] <= 1
  {
    if rows != [] {
      var front, last := rows[..|rows| - 1], rows[|rows| - 1];
      assert rows == front + [last];
      NotYet(front, last, map[]);
      OnceEach(front, r);
      if r in multiset(front) { assert r in front; }
    }
  }

  lemma TwiceIn(s: seq<Row>, i: nat, j: nat)
    requires i < j < |s| && s[i] == s[j]
    ensures multiset(s)[s[i]] >= 2
  {
    assert s == s[..i] + [s[i]] + s[i + 1..j] + [s[j]] + s[j + 1..];
  }

  lemma ChosenRows(rows: seq<Row>)
    requires DistinctIds(rows)
    ensures Chosen(rows, Dropped(SortRows(rows), WithUser(rows)))
  {
    hide DistinctIds, Ordered, Kept, Dropped, SortRows, WithUser, CopyOf, Says, Repeats, Before;
    SortedDistinct(rows);
    DroppedOnce(SortRows(rows), WithUser(rows));
    forall r | r in rows { SaidBy(rows, r); }
    forall r | r in rows { GoesIff(rows, r); }
  }

  lemma SaidBy(rows: seq<Row>, r: Row)
    requires DistinctIds(rows) && r in rows
    ensures exists k :: k in rows && k.id !in Dropped(SortRows(rows), WithUser(rows)) && Says(k, r)
  {
    hide DistinctIds, Ordered, Kept, Dropped, SortRows, WithUser, CopyOf, Says, Tells;
    var order, withUser := SortRows(rows), WithUser(rows);
    SortKeeps(rows);
    SameRows(rows, order);
    SortedDistinct(rows);
    DroppedNotKept(order, withUser);
    NothingLost(rows, r);
    var k :| k in Kept(order, withUser) && k in rows && Tells(k, r);
    SaysIff(k, r);
  }

  lemma GoesIff(rows: seq<Row>, r: Row)
    requires DistinctIds(rows) && r in rows
    ensures r.id in Dropped(SortRows(rows), WithUser(rows)) <==>
              Repeats(rows, r) || exists a :: a in rows && a.document == r.document && Before(a, r)
  {
    hide DistinctIds, Ordered, Kept, Dropped, SortRows, WithUser, CopyOf, Repeats, Before;
    var order, withUser := SortRows(rows), WithUser(rows);
    SortKeeps(rows);
    SameRows(rows, order);
    SortedDistinct(rows);
    DroppedNotKept(order, withUser);
    var i :| 0 <= i < |order| && order[i] == r;
    KeptIff(order, withUser, i);
    RepeatsIff(rows, r);
    if j :| 0 <= j < i && order[j].document == r.document {
      PlaceIsBefore(order, j, i);
      assert order[j] in rows;
    }
    if a :| a in rows && a.document == r.document && Before(a, r) {
      var j :| 0 <= j < |order| && order[j] == a;
      PlaceIsBefore(order, j, i);
    }
  }

  // ---- Sessions whose rollout is on disk --------------------------------------------------

  /** A parsed turn, and whether ingestion would store it. */
  datatype Turn = Turn(id: nat, stored: bool)

  /** What the rollouts on disk say of a session. */
  datatype Parse = Gone | Unreadable | Turns(turns: seq<Turn>)

  datatype Plan =
    | Duplicates(ids: seq<nat>)
    | Unread
    | Waiting(turns: nat)
    | OnDisk(stale: set<nat>, uncovered: nat)

  const TRUNCATED := "[truncated]"

  /** Where the first marker starts. */
  function FirstMarker(doc: string, from: nat): (i: nat)
    requires from <= |doc| && exists i :: from <= i <= |doc| && HoldsAt(doc, MARKER, i)
    ensures from <= i <= |doc| && HoldsAt(doc, MARKER, i)
    ensures forall j | from <= j < i :: !HoldsAt(doc, MARKER, j)
    decreases |doc| - from
  {
    if HoldsAt(doc, MARKER, from) then from else FirstMarker(doc, from + 1)
  }

  /** The reply part of a document, without the truncation mark and outer white space. */
  function Reply(strip: string -> string, doc: string): string {
    var tail := if StartsWith(doc, USER) && Holds(doc, MARKER) then doc[FirstMarker(doc, 0) + |MARKER|..] else doc;
    strip(if EndsWith(tail, TRUNCATED) then tail[..|tail| - |TRUNCATED|] else tail)
  }

  function Ids(turns: seq<Turn>): set<nat> { set t | t in turns :: t.id }

  /** Turns ingestion would store that Milvus does not hold yet. */
  function Missing(rows: seq<Row>, turns: seq<Turn>): set<nat> {
    (set t | t in turns && t.stored :: t.id) - (set r | r in rows && r.inMilvus :: r.id)
  }

  /** A row of the current parse, in Milvus, holds the row's whole reply. */
  predicate Covered(strip: string -> string, rows: seq<Row>, turns: seq<Turn>, r: Row) {
    Reply(strip, r.document) != ""
    && exists i :: 0 <= i < |rows| && rows[i].id in Ids(turns) && rows[i].inMilvus
                   && Holds(Reply(strip, rows[i].document), Reply(strip, r.document))
  }

  function Texts(strip: string -> string, rows: seq<Row>, turns: seq<Turn>): seq<string> {
    if rows == [] then []
    else
      var n := |rows| - 1;
      Texts(strip, rows[..n], turns)
      + if rows[n].id in Ids(turns) && rows[n].inMilvus then [Reply(strip, rows[n].document)] else []
  }

  lemma {:induction false} TextsAre(strip: string -> string, rows: seq<Row>, turns: seq<Turn>, text: string)
    ensures text in Texts(strip, rows, turns) <==>
              exists i :: 0 <= i < |rows| && rows[i].id in Ids(turns) && rows[i].inMilvus
                          && Reply(strip, rows[i].document) == text
  {
    hide Reply, Ids;
    if rows != [] {
      var n := |rows| - 1;
      TextsAre(strip, rows[..n], turns, text);
      if i :| 0 <= i < |rows| && rows[i].id in Ids(turns) && rows[i].inMilvus
              && Reply(strip, rows[i].document) == text {
        if i < n { assert rows[..n][i] == rows[i]; }
      }
    }
  }

  lemma CoveredByTexts(strip: string -> string, rows: seq<Row>, turns: seq<Turn>, r: Row)
    ensures Covered(strip, rows, turns, r) <==>
              Reply(strip, r.document) != ""
              && exists text :: text in Texts(strip, rows, turns) && Holds(text, Reply(strip, r.document))
  {
    hide Reply, Ids, Holds;
    forall text { TextsAre(strip, rows, turns, text); }
    if text :| text in Texts(strip, rows, turns) && Holds(text, Reply(strip, r.document)) {
      TextsAre(strip, rows, turns, text);
    }
  }

  /** How many rows neither belong to the parse nor are covered by it. */
  function Uncovered(strip: string -> string, all: seq<Row>, rows: seq<Row>, turns: seq<Turn>): nat {
    if rows == [] then 0
    else
      var r := rows[|rows| - 1];
      Uncovered(strip, all, rows[..|rows| - 1], turns)
      + if r.id !in Ids(turns) && !Covered(strip, all, turns, r) then 1 else 0
  }

  /** Among the first `n` rows, one with this doc_id that the parse does not yield but covers. */
  predicate Replaced(strip: string -> string, rows: seq<Row>, turns: seq<Turn>, n: nat, id: nat)
    requires n <= |rows|
  {
    exists i :: 0 <= i < n && rows[i].id == id && id !in Ids(turns) && Covered(strip, rows, turns, rows[i])
  }

  lemma ReplacedNone(strip: string -> string, rows: seq<Row>, turns: seq<Turn>)
    ensures forall id :: !Replaced(strip, rows, turns, 0, id)
  {}

  lemma ReplacedNext(strip: string -> string, rows: seq<Row>, turns: seq<Turn>, n: nat, id: nat)
    requires n < |rows|
    ensures Replaced(strip, rows, turns, n + 1, id) <==>
              Replaced(strip, rows, turns, n, id)
              || (rows[n].id == id && id !in Ids(turns) && Covered(strip, rows, turns, rows[n]))
  {
    hide Covered, Ids;
  }

  /** One session: nothing goes until every storable turn of the parse is in Milvus, and then a row
      goes exactly when the parse does not yield it and a row of the parse in Milvus covers it. */
  method PlanSession(strip: string -> string, rows: seq<Row>, parse: Parse) returns (plan: Plan)
    ensures parse.Gone? ==> plan == Duplicates(Dropped(SortRows(rows), WithUser(rows)))
    ensures parse.Gone? && DistinctIds(rows) ==> Chosen(rows, plan.ids)
    ensures parse.Unreadable? ==> plan == Unread
    ensures parse.Turns? && Missing(rows, parse.turns) != {} ==> plan == Waiting(|Missing(rows, parse.turns)|)
    ensures parse.Turns? && Missing(rows, parse.turns) == {} ==>
              && plan.OnDisk? && plan.uncovered == Uncovered(strip, rows, rows, parse.turns)
              && forall id :: id in plan.stale <==> Replaced(strip, rows, parse.turns, |rows|, id)
  {
    hide Covered, Reply, Dropped, SortRows, WithUser, Replaced, Missing, Holds, DistinctIds, Chosen;
    match parse
    case Gone =>
      var ids := DuplicateRows(rows);
      return Duplicates(ids);
    case Unreadable => return Unread;
    case Turns(turns) =>
      var missing := Missing(rows, turns);
      if missing != {} { return Waiting(|missing|); }
      var texts := Texts(strip, rows, turns);
      ReplacedNone(strip, rows, turns);
      var stale: set<nat>, uncovered := {}, 0;
      for n := 0 to |rows|
        invariant uncovered == Uncovered(strip, rows, rows[..n], turns)
        invariant forall id :: id in stale <==> Replaced(strip, rows, turns, n, id)
      {
        var r := rows[n];
        assert rows[..n + 1][..n] == rows[..n];
        CoveredByTexts(strip, rows, turns, r);
        forall id { ReplacedNext(strip, rows, turns, n, id); }
        if r.id !in Ids(turns) {
          var reply := Reply(strip, r.document);
          if reply != "" && exists text :: text in texts && Holds(text, reply) {
            stale := stale + {r.id};
          } else {
            uncovered := uncovered + 1;
          }
        }
      }
      assert rows[..|rows|] == rows;
      return OnDisk(stale, uncovered);
  }

  /** The row that covers a stale one is not itself deleted, so search never loses a reply. */
  lemma CoverStays(strip: string -> string, rows: seq<Row>, turns: seq<Turn>, stale: set<nat>, r: Row)
    requires forall i, j | 0 <= i < j < |rows| :: rows[i].id != rows[j].id
    requires forall id :: id in stale <==> Replaced(strip, rows, turns, |rows|, id)
    requires r in rows && r.id in stale
    ensures Reply(strip, r.document) != ""
    ensures exists k :: k in rows && k.id !in stale && k.inMilvus
                        && Holds(Reply(strip, k.document), Reply(strip, r.document))
  {
    hide Reply, Holds, Ids;
    var i :| 0 <= i < |rows| && rows[i].id == r.id && r.id !in Ids(turns) && Covered(strip, rows, turns, rows[i]);
    assert rows[i] == r;
    var k :| 0 <= k < |rows| && rows[k].id in Ids(turns) && rows[k].inMilvus
             && Holds(Reply(strip, rows[k].document), Reply(strip, r.document));
    assert rows[k] in rows && rows[k].id !in stale;
  }

  // ---- The plan, in the rows' own terms ------------------------------------------------------

  /** The text without the mark of a cut at its end. */
  function Whole(text: string): string {
    if |text| >= 11 && text[|text| - 11..] == "[truncated]" then text[..|text| - 11] else text
  }

  /** The reply of a turn is what follows its first marker, and of any other document the whole of it; stripped, and without
      the mark of a cut. */
  lemma ReplyIs(strip: string -> string, q: string, a: string)
    requires forall i: nat :: i < |USER + q| ==> !HoldsAt(USER + q + MARKER + a, MARKER, i)
    ensures Reply(strip, "User: " + q + "\n\nAssistant: " + a) == strip(Whole(a))
  {
    var doc := USER + q + MARKER + a;
    var n := |USER + q|;
    assert doc == USER + (q + MARKER + a) && doc == (USER + q) + MARKER + a;
    assert doc[n..n + |MARKER|] == MARKER;
    assert HoldsAt(doc, MARKER, n);
    assert FirstMarker(doc, 0) == n;
    assert doc[n + |MARKER|..] == a;
    assert doc[..|USER|] == USER;
  }

  lemma ReplyOfOther(strip: string -> string, doc: string)
    requires !("User: " <= doc) || forall i: nat :: !HoldsAt(doc, MARKER, i)
    ensures Reply(strip, doc) == strip(Whole(doc))
  {}

  /** Some place of `text` is the whole of `part`. */
  predicate Contains(text: string, part: string) {
    exists i: nat :: i <= |text| && part <= text[i..]
  }

  predicate Yields(turns: seq<Turn>, id: nat) { exists t :: t in turns && t.id == id }

  /** A row of the current parse that Milvus holds has this row's reply in its own. */
  predicate CoveredIn(strip: string -> string, rows: seq<Row>, turns: seq<Turn>, r: Row) {
    && Reply(strip, r.document) != ""
    && exists k :: k in rows && Yields(turns, k.id) && k.inMilvus && Contains(Reply(strip, k.document), Reply(strip, r.document))
  }

  lemma ContainsIff(text: string, part: string)
    ensures Contains(text, part) <==> Holds(text, part)
  {
    if i: nat :| i <= |text| && part <= text[i..] {
      assert text[i..i + |part|] == text[i..][..|part|];
      assert HoldsAt(text, part, i);
    }
    if i :| 0 <= i <= |text| && HoldsAt(text, part, i) {
      assert text[i..][..|part|] == text[i..i + |part|];
      assert part <= text[i..];
    }
  }

  lemma CoveredIff(strip: string -> string, rows: seq<Row>, turns: seq<Turn>, r: Row)
    ensures CoveredIn(strip, rows, turns, r) <==> Covered(strip, rows, turns, r)
  {
    hide Reply, Holds, Contains;
    forall text, part { ContainsIff(text, part); }
    if Covered(strip, rows, turns, r) {
      var i :| 0 <= i < |rows| && rows[i].id in Ids(turns) && rows[i].inMilvus
               && Holds(Reply(strip, rows[i].document), Reply(strip, r.document));
      assert rows[i] in rows && Yields(turns, rows[i].id);
    }
    if CoveredIn(strip, rows, turns, r) {
      var k :| k in rows && Yields(turns, k.id) && k.inMilvus && Contains(Reply(strip, k.document), Reply(strip, r.document));
      var i :| 0 <= i < |rows| && rows[i] == k;
    }
  }

  /** What goes from a session on disk, and what waits for it. */
  lemma PlanIs(strip: string -> string, rows: seq<Row>, turns: seq<Turn>)
    ensures forall id :: id in Missing(rows, turns) <==>
              && (exists t :: t in turns && t.stored && t.id == id) && !(exists r :: r in rows && r.inMilvus && r.id == id)
    ensures forall id :: Replaced(strip, rows, turns, |rows|, id) <==>
              !Yields(turns, id) && exists r :: r in rows && r.id == id && CoveredIn(strip, rows, turns, r)
    ensures Uncovered(strip, rows, rows, turns)
            == |set i | 0 <= i < |rows| && !Yields(turns, rows[i].id) && !CoveredIn(strip, rows, turns, rows[i])|
  {
    hide Covered, CoveredIn;
    forall r { CoveredIff(strip, rows, turns, r); }
    forall id ensures Replaced(strip, rows, turns, |rows|, id) <==>
                        !Yields(turns, id) && exists r :: r in rows && r.id == id && CoveredIn(strip, rows, turns, r)
    {
      if i :| 0 <= i < |rows| && rows[i].id == id && id !in Ids(turns) && Covered(strip, rows, turns, rows[i]) {
        assert rows[i] in rows;
      }
    }
    UncoveredAre(strip, rows, rows, turns);
    assert (set i | 0 <= i < |rows| && rows[i].id !in Ids(turns) && !Covered(strip, rows, turns, rows[i]))
           == set i | 0 <= i < |rows| && !Yields(turns, rows[i].id) && !CoveredIn(strip, rows, turns, rows[i]);
  }

  lemma {:induction false} UncoveredAre(strip: string -> string, all: seq<Row>, rows: seq<Row>, turns: seq<Turn>)
    ensures Uncovered(strip, all, rows, turns)
            == |set i | 0 <= i < |rows| && rows[i].id !in Ids(turns) && !Covered(strip, all, turns, rows[i])|
  {
    hide Covered, Ids;
    if rows != [] {
      var n := |rows| - 1;
      UncoveredAre(strip, all, rows[..n], turns);
      var before := set i | 0 <= i < n && rows[..n][i].id !in Ids(turns) && !Covered(strip, all, turns, rows[..n][i]);
      var now := set i | 0 <= i < |rows| && rows[i].id !in Ids(turns) && !Covered(strip, all, turns, rows[i]);
      assert now == before + if rows[n].id !in Ids(turns) && !Covered(strip, all, turns, rows[n]) then {n} else {};
    }
  }
}
