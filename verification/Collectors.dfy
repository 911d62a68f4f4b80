/** The bounded collectors of the timeline and the recency listing: at most `limit` entries held, yet
    exactly the first `limit` of everything offered, deduplicated and sorted. One class serves both
    directions; what a heap promises of its first element is kept, its tree is not. */
module Collectors {

  type DocId = nat

  /** `time` is the parsed timestamp, the earliest one when it does not parse. */
  datatype Entry = Entry(doc: DocId, time: int, columns: string)

  // ---- Sort and take ----------------------------------------------------------------------

  /** Strictly earlier in the result: older first, or newer first; ties by doc_id the same way. */
  predicate Ahead(newest: bool, a: Entry, b: Entry) {
    if a.time != b.time then (a.time < b.time) != newest else a.doc != b.doc && (a.doc < b.doc) != newest
  }

  predicate HasDoc(s: seq<Entry>, d: DocId) { exists i :: 0 <= i < |s| && s[i].doc == d }

  /** The first entry of each doc. */
  function Dedup(s: seq<Entry>): seq<Entry> {
    if s == [] then []
    else
      var front, last := s[..|s| - 1], s[|s| - 1];
      Dedup(front) + if HasDoc(front, last.doc) then [] else [last]
  }

  function Insert(newest: bool, s: seq<Entry>, e: Entry): seq<Entry> {
    if s == [] then [e]
    else if Ahead(newest, e, s[|s| - 1]) then Insert(newest, s[..|s| - 1], e) + [s[|s| - 1]]
    else s + [e]
  }

  function Sort(newest: bool, s: seq<Entry>): seq<Entry> {
    if s == [] then [] else Insert(newest, Sort(newest, s[..|s| - 1]), s[|s| - 1])
  }

  function First(limit: nat, s: seq<Entry>): seq<Entry> { if |s| <= limit then s else s[..limit] }

  /** What a collector of the whole stream would return. */
  function Best(newest: bool, limit: nat, s: seq<Entry>): seq<Entry> { First(limit, Sort(newest, Dedup(s))) }

  ghost predicate Ordered(newest: bool, s: seq<Entry>) {
    forall i, j | 0 <= i < j < |s| :: Ahead(newest, s[i], s[j])
  }

  predicate DistinctDocs(s: seq<Entry>) { forall i, j | 0 <= i < j < |s| :: s[i].doc != s[j].doc }

  /** Entries of one doc carry one time. */
  predicate OneTime(s: seq<Entry>) {
    forall i, j | 0 <= i < |s| && 0 <= j < |s| && s[i].doc == s[j].doc :: s[i].time == s[j].time
  }

  lemma AheadTotal(newest: bool, a: Entry, b: Entry)
    ensures a.doc != b.doc ==> Ahead(newest, a, b) || Ahead(newest, b, a)
    ensures !(Ahead(newest, a, b) && Ahead(newest, b, a))
  {}

  lemma AheadOn(newest: bool, a: Entry, b: Entry, c: Entry)
    requires Ahead(newest, a, b) && Ahead(newest, b, c)
    ensures Ahead(newest, a, c)
  {}

  lemma OrderedAppend(newest: bool, s: seq<Entry>, e: Entry)
    requires Ordered(newest, s) && forall i | 0 <= i < |s| :: Ahead(newest, s[i], e)
    ensures Ordered(newest, s + [e])
  {
    hide Ahead;
  }

  lemma OrderedFront(newest: bool, s: seq<Entry>)
    requires Ordered(newest, s) && s != []
    ensures Ordered(newest, s[..|s| - 1])
    ensures forall i | 0 <= i < |s| - 1 :: Ahead(newest, s[i], s[|s| - 1])
  {
    hide Ahead;
  }

  lemma {:induction false} InsertKeeps(newest: bool, s: seq<Entry>, e: Entry)
    requires Ordered(newest, s) && !HasDoc(s, e.doc)
    ensures Ordered(newest, Insert(newest, s, e))
    ensures multiset(Insert(newest, s, e)) == multiset(s) + multiset{e}
    ensures |Insert(newest, s, e)| == |s| + 1
  {
    hide Ahead, Ordered;
    if s == [] {
      OneOrdered(newest, e);
    } else {
      var front, last := s[..|s| - 1], s[|s| - 1];
      assert s == front + [last];
      OrderedFront(newest, s);
      assert s[|s| - 1].doc != e.doc;
      if Ahead(newest, e, last) {
        NotInFront(front, last, e.doc);
        InsertKeeps(newest, front, e);
        var t := Insert(newest, front, e);
        forall i | 0 <= i < |t| ensures Ahead(newest, t[i], last) {
          assert t[i] in multiset(t);
          if t[i] != e {
            assert t[i] in front;
            var j :| 0 <= j < |front| && front[j] == t[i];
          }
        }
        OrderedAppend(newest, t, last);
      } else {
        AheadTotal(newest, e, last);
        forall i | 0 <= i < |s| ensures Ahead(newest, s[i], e) {
          if i < |s| - 1 { AheadOn(newest, s[i], last, e); }
        }
        OrderedAppend(newest, s, e);
      }
    }
  }

  lemma OneOrdered(newest: bool, e: Entry)
    ensures Ordered(newest, [e]) && Ordered(newest, [])
  {}

  lemma NotInFront(front: seq<Entry>, last: Entry, d: DocId)
    requires !HasDoc(front + [last], d)
    ensures !HasDoc(front, d)
  {
    forall i | 0 <= i < |front| ensures front[i].doc != d { assert (front + [last])[i] == front[i]; }
  }

  lemma SameDocs(s: seq<Entry>, t: seq<Entry>, d: DocId)
    requires multiset(s) == multiset(t)
    ensures HasDoc(s, d) <==> HasDoc(t, d)
  {
    if i :| 0 <= i < |s| && s[i].doc == d {
      assert s[i] in multiset(t);
      var j :| 0 <= j < |t| && t[j] == s[i];
    }
    if j :| 0 <= j < |t| && t[j].doc == d {
      assert t[j] in multiset(s);
      var i :| 0 <= i < |s| && s[i] == t[j];
    }
  }

  lemma {:induction false} SortKeeps(newest: bool, s: seq<Entry>)
    requires DistinctDocs(s)
    ensures Ordered(newest, Sort(newest, s)) && multiset(Sort(newest, s)) == multiset(s)
    ensures |Sort(newest, s)| == |s|
  {
    if s != [] {
      var front, last := s[..|s| - 1], s[|s| - 1];
      SortKeeps(newest, front);
      SameDocs(front, Sort(newest, front), last.doc);
      InsertKeeps(newest, Sort(newest, front), last);
      assert s == front + [last];
    }
  }

  /** Strictly ordered sequences with the same elements end the same. */
  lemma LastSame(newest: bool, s: seq<Entry>, t: seq<Entry>)
    requires Ordered(newest, s) && Ordered(newest, t) && s != [] && t != []
    requires s[|s| - 1] in t && t[|t| - 1] in s
    ensures s[|s| - 1] == t[|t| - 1]
  {
    hide Ahead;
    var a, b := s[|s| - 1], t[|t| - 1];
    var i :| 0 <= i < |t| && t[i] == a;
    var j :| 0 <= j < |s| && s[j] == b;
    AheadTotal(newest, a, b);
  }

  lemma WithoutLast(s: seq<Entry>)
    requires s != []
    ensures multiset(s[..|s| - 1]) == multiset(s) - multiset{s[|s| - 1]} && s == s[..|s| - 1] + [s[|s| - 1]]
  {
    assert s == s[..|s| - 1] + [s[|s| - 1]];
  }

  /** Strictly ordered sequences with the same elements are equal. */
  lemma {:induction false} OrderedUnique(newest: bool, s: seq<Entry>, t: seq<Entry>)
    requires Ordered(newest, s) && Ordered(newest, t) && multiset(s) == multiset(t)
    ensures s == t
  {
    hide Ahead, Ordered;
    assert |multiset(s)| == |s| && |multiset(t)| == |t|;
    if s != [] {
      var a, b := s[|s| - 1], t[|t| - 1];
      assert a in multiset(t) && b in multiset(s);
      LastSame(newest, s, t);
      OrderedFront(newest, s);
      OrderedFront(newest, t);
      WithoutLast(s);
      WithoutLast(t);
      OrderedUnique(newest, s[..|s| - 1], t[..|t| - 1]);
    }
  }

  lemma {:induction false} DedupHas(s: seq<Entry>, d: DocId)
    ensures HasDoc(Dedup(s), d) <==> HasDoc(s, d)
  {
    if s != [] {
      var front, last := s[..|s| - 1], s[|s| - 1];
      assert s == front + [last];
      DedupHas(front, d);
      DedupHas(front, last.doc);
      OneMore(front, last, d);
      OneMore(Dedup(front), last, d);
      assert Dedup(front) + [] == Dedup(front);
    }
  }

  lemma {:induction false} DedupKeeps(s: seq<Entry>)
    ensures DistinctDocs(Dedup(s))
    ensures forall e | e in Dedup(s) :: e in s
  {
    if s != [] {
      var front, last := s[..|s| - 1], s[|s| - 1];
      assert s == front + [last];
      DedupKeeps(front);
      DedupHas(front, last.doc);
    }
  }

  lemma OneMore(s: seq<Entry>, e: Entry, d: DocId)
    ensures HasDoc(s + [e], d) <==> HasDoc(s, d) || e.doc == d
  {
    var t := s + [e];
    assert t[|s|] == e;
    forall i | 0 <= i < |s| ensures t[i] == s[i] {}
    if HasDoc(s, d) {
      var i :| 0 <= i < |s| && s[i].doc == d;
      assert t[i].doc == d;
    } else if HasDoc(t, d) {
      var i :| 0 <= i < |t| && t[i].doc == d;
    }
  }

  // ---- One more entry ---------------------------------------------------------------------

  /** An entry that goes in before the last of `front` leaves what follows alone. */
  lemma {:induction false} InsertBefore(newest: bool, front: seq<Entry>, back: seq<Entry>, e: Entry)
    requires forall i | 0 <= i < |back| :: Ahead(newest, e, back[i])
    ensures Insert(newest, front + back, e) == Insert(newest, front, e) + back
    decreases |back|
  {
    hide Ahead;
    if back == [] {
      assert front + back == front;
    } else {
      var shorter, last := back[..|back| - 1], back[|back| - 1];
      assert (front + back)[..|front + back| - 1] == front + shorter;
      InsertBefore(newest, front, shorter, e);
      assert back == shorter + [last];
    }
  }

  /** An entry that goes in after the last of `front` leaves it alone. */
  lemma {:induction false} InsertAfter(newest: bool, front: seq<Entry>, back: seq<Entry>, e: Entry)
    requires front == [] || !Ahead(newest, e, front[|front| - 1])
    ensures Insert(newest, front + back, e) == front + Insert(newest, back, e)
    decreases |back|
  {
    hide Ahead;
    if back == [] {
      assert front + back == front;
    } else {
      var shorter, last := back[..|back| - 1], back[|back| - 1];
      assert (front + back)[..|front + back| - 1] == front + shorter;
      InsertAfter(newest, front, shorter, e);
      assert back == shorter + [last];
    }
  }

  lemma SortDedup(newest: bool, s: seq<Entry>)
    ensures var t := Sort(newest, Dedup(s));
            Ordered(newest, t) && multiset(t) == multiset(Dedup(s)) && forall d :: HasDoc(t, d) <==> HasDoc(s, d)
  {
    var t := Sort(newest, Dedup(s));
    DedupKeeps(s);
    SortKeeps(newest, Dedup(s));
    forall d ensures HasDoc(t, d) <==> HasDoc(s, d) {
      SameDocs(Dedup(s), t, d);
      DedupHas(s, d);
    }
  }

  /** The collector's rule, on what it holds: skip a doc it holds, take anything while there is room,
      then take only what is ahead of the last, which goes. */
  function Offer(newest: bool, limit: nat, held: seq<Entry>, e: Entry): seq<Entry> {
    if HasDoc(held, e.doc) then held
    else if |held| < limit then Insert(newest, held, e)
    else if held != [] && Ahead(newest, e, held[|held| - 1]) then Insert(newest, held[..|held| - 1], e)
    else held
  }

  lemma FirstHas(limit: nat, t: seq<Entry>, d: DocId)
    requires HasDoc(First(limit, t), d)
    ensures HasDoc(t, d)
  {
    var i :| 0 <= i < |First(limit, t)| && First(limit, t)[i].doc == d;
    assert t[i].doc == d;
  }

  /** `e` repeats a doc of `front`, and another doc's first entry stands between the new copy and the
      first one. */
  ghost predicate CrossesAt(newest: bool, front: seq<Entry>, e: Entry) {
    exists a, b | a in Dedup(front) && b in Dedup(front) ::
      a.doc == e.doc && Ahead(newest, e, b) && Ahead(newest, b, a)
  }

  ghost predicate Crosses(newest: bool, s: seq<Entry>) {
    exists j :: 0 <= j < |s| && CrossesAt(newest, s[..j], s[j])
  }

  /** A doc seen before but no longer held does not come back, unless its new copy crosses: otherwise the
      copy is not ahead of the last entry held. */
  lemma Evicted(newest: bool, limit: nat, s: seq<Entry>, e: Entry)
    requires HasDoc(s, e.doc) && !CrossesAt(newest, s, e)
    requires var held := Best(newest, limit, s); !HasDoc(held, e.doc) && held != []
    ensures var held := Best(newest, limit, s); |held| == limit && !Ahead(newest, e, held[|held| - 1])
  {
    hide Ahead, Sort, Dedup;
    var t := Sort(newest, Dedup(s));
    SortDedup(newest, s);
    var i :| 0 <= i < |t| && t[i].doc == e.doc;
    forall k | 0 <= k < |First(limit, t)| ensures t[k].doc != e.doc { assert First(limit, t)[k] == t[k]; }
    assert |t| > limit && i >= limit;
    assert First(limit, t)[limit - 1] == t[limit - 1];
    SameMembers(t, Dedup(s));
    assert t[i] in t && t[limit - 1] in t;
  }

  lemma SameMembers(s: seq<Entry>, t: seq<Entry>)
    requires multiset(s) == multiset(t)
    ensures forall e :: e in s <==> e in t
  {
    forall e ensures e in s <==> e in t { assert e in s <==> e in multiset(s); assert e in t <==> e in multiset(t); }
  }

  lemma SameKey(newest: bool, x: Entry, e: Entry, o: Entry)
    requires x.doc == e.doc && x.time == e.time
    ensures Ahead(newest, o, x) == Ahead(newest, o, e) && Ahead(newest, x, o) == Ahead(newest, e, o)
  {}

  /** When the entries of a doc carry one time, nothing can stand between two of them. */
  lemma OneTimeNeverCrosses(newest: bool, s: seq<Entry>)
    requires OneTime(s)
    ensures !Crosses(newest, s)
  {
    hide Ahead, Dedup;
    forall j, a, b | 0 <= j < |s| && a in Dedup(s[..j]) && b in Dedup(s[..j]) && a.doc == s[j].doc
      ensures !(Ahead(newest, s[j], b) && Ahead(newest, b, a))
    {
      DedupKeeps(s[..j]);
      var i :| 0 <= i < j && s[..j][i] == a;
      assert s[i] == a;
      SameKey(newest, a, s[j], b);
      AheadTotal(newest, a, b);
    }
  }

  /** The rule keeps exactly the first `limit` of the deduplicated, sorted stream. */
  lemma OfferKeeps(newest: bool, limit: nat, s: seq<Entry>, e: Entry)
    requires !CrossesAt(newest, s, e)
    ensures Best(newest, limit, s + [e]) == Offer(newest, limit, Best(newest, limit, s), e)
  {
    hide Ahead, Sort, Dedup, Insert, CrossesAt;
    var t, held := Sort(newest, Dedup(s)), Best(newest, limit, s);
    SortDedup(newest, s);
    DedupMore(newest, s, e);
    if HasDoc(s, e.doc) {
      if !HasDoc(held, e.doc) {
        if held != [] { Evicted(newest, limit, s, e); } else { HeldNone(limit, t, e.doc); }
      }
    } else {
      if HasDoc(held, e.doc) { FirstHas(limit, t, e.doc); }
      NewEntry(newest, limit, t, e);
    }
  }

  lemma HeldNone(limit: nat, t: seq<Entry>, d: DocId)
    requires First(limit, t) == [] && HasDoc(t, d)
    ensures limit == 0
  {}

  lemma DedupMore(newest: bool, s: seq<Entry>, e: Entry)
    ensures Sort(newest, Dedup(s + [e])) ==
            if HasDoc(s, e.doc) then Sort(newest, Dedup(s)) else Insert(newest, Sort(newest, Dedup(s)), e)
  {
    hide Dedup, HasDoc, Sort, Insert;
    DedupNext(s, e);
    if !HasDoc(s, e.doc) { SortNext(newest, Dedup(s), e); }
  }

  lemma DedupNext(s: seq<Entry>, e: Entry)
    ensures Dedup(s + [e]) == if HasDoc(s, e.doc) then Dedup(s) else Dedup(s) + [e]
  {
    hide HasDoc;
    var t := s + [e];
    assert t[..|t| - 1] == s && t[|t| - 1] == e;
    assert Dedup(s) + [] == Dedup(s);
  }

  lemma SortNext(newest: bool, s: seq<Entry>, e: Entry)
    ensures Sort(newest, s + [e]) == Insert(newest, Sort(newest, s), e)
  {
    hide Insert;
    var t := s + [e];
    assert t[..|t| - 1] == s && t[|t| - 1] == e;
  }

  lemma NewEntry(newest: bool, limit: nat, t: seq<Entry>, e: Entry)
    requires Ordered(newest, t) && !HasDoc(t, e.doc)
    ensures First(limit, Insert(newest, t, e)) == Offer(newest, limit, First(limit, t), e)
  {
    hide Ahead, Ordered, Insert;
    InsertKeeps(newest, t, e);
    if |t| >= limit {
      NotHeld(limit, t, e.doc);
      if limit > 0 {
        if Ahead(newest, e, t[limit - 1]) { Replaces(newest, limit, t, e); } else { Refuses(newest, limit, t, e); }
      }
    }
  }

  lemma NotHeld(limit: nat, t: seq<Entry>, d: DocId)
    requires !HasDoc(t, d)
    ensures !HasDoc(First(limit, t), d)
  {
    if HasDoc(First(limit, t), d) { FirstHas(limit, t, d); }
  }

  lemma Replaces(newest: bool, limit: nat, t: seq<Entry>, e: Entry)
    requires Ordered(newest, t) && !HasDoc(t, e.doc) && 0 < limit <= |t| && Ahead(newest, e, t[limit - 1])
    ensures First(limit, Insert(newest, t, e)) == Insert(newest, First(limit, t)[..limit - 1], e)
  {
    hide Ahead, Insert;
    var front, back := t[..limit - 1], t[limit - 1..];
    assert t == front + back && First(limit, t)[..limit - 1] == front;
    forall i | 0 <= i < |back| ensures Ahead(newest, e, back[i]) {
      if i > 0 { AheadOn(newest, e, t[limit - 1], t[limit - 1 + i]); }
    }
    InsertBefore(newest, front, back, e);
    FrontOf(newest, t, limit - 1, e.doc);
    InsertKeeps(newest, front, e);
  }

  lemma Refuses(newest: bool, limit: nat, t: seq<Entry>, e: Entry)
    requires 0 < limit <= |t| && !Ahead(newest, e, t[limit - 1])
    ensures First(limit, Insert(newest, t, e)) == First(limit, t)
  {
    hide Ahead, Insert;
    var front, back := t[..limit], t[limit..];
    assert t == front + back;
    InsertAfter(newest, front, back, e);
    LongerInsert(newest, back, e);
  }

  lemma {:induction false} LongerInsert(newest: bool, s: seq<Entry>, e: Entry)
    ensures |Insert(newest, s, e)| == |s| + 1
  {
    if s != [] { LongerInsert(newest, s[..|s| - 1], e); }
  }

  lemma FrontOf(newest: bool, t: seq<Entry>, n: nat, d: DocId)
    requires n <= |t| && Ordered(newest, t) && !HasDoc(t, d)
    ensures Ordered(newest, t[..n]) && !HasDoc(t[..n], d)
  {
    hide Ahead;
    forall i | 0 <= i < n ensures t[..n][i].doc != d { assert t[..n][i] == t[i]; }
  }

  // ---- The collectors ---------------------------------------------------------------------

  /** What is held after a stream. */
  function Held(newest: bool, limit: nat, s: seq<Entry>): seq<Entry> {
    if s == [] then [] else Offer(newest, limit, Held(newest, limit, s[..|s| - 1]), s[|s| - 1])
  }

  /** A collector fed a stream in which no copy crosses, in any order and with any repeats, holds exactly
      the first `limit` of the deduplicated stream sorted. */
  lemma {:induction false} HeldIsBest(newest: bool, limit: nat, s: seq<Entry>)
    requires !Crosses(newest, s)
    ensures Held(newest, limit, s) == Best(newest, limit, s)
  {
    hide Offer, Best, CrossesAt;
    if s == [] {
      BestOfNone(newest, limit);
    } else {
      var front, last := s[..|s| - 1], s[|s| - 1];
      FrontNeverCrosses(newest, s, |s| - 1);
      HeldIsBest(newest, limit, front);
      OfferKeeps(newest, limit, front, last);
      assert s == front + [last];
    }
  }

  lemma FrontNeverCrosses(newest: bool, s: seq<Entry>, n: nat)
    requires !Crosses(newest, s) && n <= |s|
    ensures !Crosses(newest, s[..n])
    ensures n < |s| ==> !CrossesAt(newest, s[..n], s[n])
  {
    hide CrossesAt;
    forall j | 0 <= j < n ensures !CrossesAt(newest, s[..n][..j], s[..n][j]) {
      assert s[..n][..j] == s[..j] && s[..n][j] == s[j];
    }
  }

  /** Full up to `p`, the rule lets an entry ahead of `t[p]` in, although its doc stands further back. */
  lemma PushesOut(newest: bool, t: seq<Entry>, p: nat, q: nat, e: Entry)
    requires Ordered(newest, t) && DistinctDocs(t) && p < q < |t| && t[q].doc == e.doc && Ahead(newest, e, t[p])
    ensures !HasDoc(t[..p + 1], e.doc) && HasDoc(Offer(newest, p + 1, t[..p + 1], e), e.doc)
  {
    hide Ahead, Insert;
    var held, front := t[..p + 1], t[..p];
    assert held[..p] == front && held[p] == t[p];
    forall k | 0 <= k < |held| ensures held[k].doc != e.doc { assert held[k] == t[k]; }
    forall k | 0 <= k < |front| ensures front[k].doc != e.doc { assert front[k] == t[k]; }
    FrontOrdered(newest, t, p);
    InsertKeeps(newest, front, e);
    InsertHas(newest, front, e);
  }

  lemma InsertHas(newest: bool, s: seq<Entry>, e: Entry)
    requires multiset(Insert(newest, s, e)) == multiset(s) + multiset{e}
    ensures HasDoc(Insert(newest, s, e), e.doc)
  {
    hide Ahead, Insert;
    var next := Insert(newest, s, e);
    assert e in multiset(next);
    var k :| 0 <= k < |next| && next[k] == e;
  }

  /** The first copies `a` and `b` of a crossing stand in the sorted stream the other way round. */
  lemma CrossingPlaces(newest: bool, s: seq<Entry>, e: Entry) returns (p: nat, q: nat)
    requires CrossesAt(newest, s, e)
    ensures var t := Sort(newest, Dedup(s));
            Ordered(newest, t) && DistinctDocs(t) && p < q < |t| && t[q].doc == e.doc && Ahead(newest, e, t[p])
    ensures HasDoc(s, e.doc)
  {
    hide Ahead, Sort, Dedup, Insert;
    var a, b :| a in Dedup(s) && b in Dedup(s) && a.doc == e.doc && Ahead(newest, e, b) && Ahead(newest, b, a);
    var t := Sort(newest, Dedup(s));
    SortDedup(newest, s);
    SameMembers(t, Dedup(s));
    DedupKeeps(s);
    SameDistinct(Dedup(s), t);
    p :| 0 <= p < |t| && t[p] == b;
    q :| 0 <= q < |t| && t[q] == a;
    AheadTotal(newest, a, b);
    AheadTotal(newest, a, a);
    var i :| 0 <= i < |s| && s[i] == a;
  }

  /** Where the first copy that crosses comes in, some limit lets it push out the entry it crossed. */
  lemma CrossingShows(newest: bool, s: seq<Entry>, e: Entry) returns (limit: nat)
    requires !Crosses(newest, s) && CrossesAt(newest, s, e)
    ensures Held(newest, limit, s + [e]) != Best(newest, limit, s + [e])
  {
    hide Ahead, Sort, Dedup, Offer, Crosses, CrossesAt;
    var p, q := CrossingPlaces(newest, s, e);
    var t := Sort(newest, Dedup(s));
    limit := p + 1;
    assert First(limit, t) == t[..limit];
    PushesOut(newest, t, p, q, e);
    HeldIsBest(newest, limit, s);
    HeldNext(newest, limit, s, e);
    DedupMore(newest, s, e);
  }

  lemma FrontOrdered(newest: bool, t: seq<Entry>, n: nat)
    requires Ordered(newest, t) && n <= |t|
    ensures Ordered(newest, t[..n])
  {
    hide Ahead;
  }

  /** The collector is at every moment, whatever its limit, the first `limit` of the deduplicated stream
      sorted, exactly when no copy of a doc comes in on the other side of another doc's first entry. */
  lemma HeldIsBestIff(newest: bool, s: seq<Entry>)
    ensures (forall limit: nat, n: nat | n <= |s| :: Held(newest, limit, s[..n]) == Best(newest, limit, s[..n]))
            <==> !Crosses(newest, s)
  {
    hide Held, Best, CrossesAt;
    if Crosses(newest, s) {
      var j := FirstCrossing(newest, s);
      var limit := CrossingShows(newest, s[..j], s[j]);
      assert s[..j + 1] == s[..j] + [s[j]];
    } else {
      forall limit: nat, n: nat | n <= |s| ensures Held(newest, limit, s[..n]) == Best(newest, limit, s[..n]) {
        FrontNeverCrosses(newest, s, n);
        HeldIsBest(newest, limit, s[..n]);
      }
    }
  }

  lemma {:induction false} FirstCrossing(newest: bool, s: seq<Entry>) returns (j: nat)
    requires Crosses(newest, s)
    ensures j < |s| && CrossesAt(newest, s[..j], s[j]) && !Crosses(newest, s[..j])
    decreases |s|
  {
    hide CrossesAt;
    var i :| 0 <= i < |s| && CrossesAt(newest, s[..i], s[i]);
    if Crosses(newest, s[..i]) {
      j := FirstCrossing(newest, s[..i]);
      assert s[..i][..j] == s[..j] && s[..i][j] == s[j];
    } else {
      j := i;
    }
  }

  lemma BestOfNone(newest: bool, limit: nat)
    ensures Best(newest, limit, []) == []
  {}

  const EARLY := Entry(1, 5, "")
  const OTHER := Entry(2, 3, "")
  const AGAIN := Entry(1, 1, "")

  /** With two times for one doc an evicted entry can return under its other time. */
  lemma TwoTimesReturn()
    ensures var s := [EARLY, OTHER, AGAIN];
            !OneTime(s) && Held(false, 1, s) == [AGAIN] && Best(false, 1, s) == [OTHER]
  {
    var s := [EARLY, OTHER, AGAIN];
    assert s[0].doc == s[2].doc && s[0].time != s[2].time;
    TwoTimesHeld();
    TwoTimesBest();
  }

  lemma TwoTimesHeld()
    ensures Held(false, 1, [EARLY, OTHER, AGAIN]) == [AGAIN]
  {
    hide Insert;
    assert [EARLY, OTHER, AGAIN][..2] == [EARLY, OTHER] && [EARLY, OTHER][..1] == [EARLY] && [EARLY][..0] == [];
    InsertOne(EARLY);
    InsertOne(OTHER);
    InsertOne(AGAIN);
    assert Held(false, 1, [EARLY]) == [EARLY];
    assert [EARLY][..0] == [] && [OTHER][..0] == [];
    assert Held(false, 1, [EARLY, OTHER]) == [OTHER];
  }

  lemma InsertOne(e: Entry)
    ensures Insert(false, [], e) == [e] && !HasDoc([], e.doc)
  {}

  lemma TwoTimesBest()
    ensures Best(false, 1, [EARLY, OTHER, AGAIN]) == [OTHER]
  {
    var s := [EARLY, OTHER, AGAIN];
    assert s[..2] == [EARLY, OTHER] && [EARLY, OTHER][..1] == [EARLY] && [EARLY][..0] == [];
    assert [EARLY, OTHER][0].doc == AGAIN.doc;
    assert Dedup([EARLY]) == [EARLY];
    assert Dedup([EARLY, OTHER]) == [EARLY, OTHER];
    assert Dedup(s) == [EARLY, OTHER];
    assert Sort(false, [EARLY]) == [EARLY];
    assert Insert(false, [EARLY], OTHER) == [OTHER, EARLY];
  }

  /** What a heap promises of its first element: it is the last of all. */
  ghost predicate Heap(newest: bool, h: seq<Entry>) {
    forall i | 0 < i < |h| :: Ahead(newest, h[i], h[0])
  }

  method Push(newest: bool, h: seq<Entry>, e: Entry) returns (h': seq<Entry>)
    requires Heap(newest, h) && !HasDoc(h, e.doc)
    ensures Heap(newest, h') && multiset(h') == multiset(h) + multiset{e}
  {
    if h == [] { return [e]; }
    assert h[0].doc != e.doc;
    AheadTotal(newest, h[0], e);
    if Ahead(newest, h[0], e) {
      h' := [e] + h;
      forall i | 0 < i < |h'| ensures Ahead(newest, h'[i], e) {
        if i > 1 { AheadOn(newest, h[i - 1], h[0], e); }
      }
    } else {
      h' := h + [e];
    }
  }

  /** The first element out, another in. */
  method ReplaceFirst(newest: bool, h: seq<Entry>, e: Entry) returns (h': seq<Entry>)
    requires h != [] && DistinctDocs(h) && !HasDoc(h, e.doc)
    ensures Heap(newest, h') && multiset(h') == multiset(h) - multiset{h[0]} + multiset{e}
  {
    assert h == [h[0]] + h[1..];
    h' := [e];
    for n := 1 to |h|
      invariant Heap(newest, h') && multiset(h') == multiset(h[1..n]) + multiset{e}
    {
      assert h[1..n + 1] == h[1..n] + [h[n]];
      NotYetIn(h, n, h', e);
      h' := Push(newest, h', h[n]);
    }
    assert h[1..|h|] == h[1..];
  }

  lemma NotYetIn(h: seq<Entry>, n: nat, h': seq<Entry>, e: Entry)
    requires 1 <= n < |h| && DistinctDocs(h) && !HasDoc(h, e.doc)
    requires multiset(h') == multiset(h[1..n]) + multiset{e}
    ensures !HasDoc(h', h[n].doc)
  {
    DocsMore(h[1..n], h', e);
    forall i | 0 <= i < |h[1..n]| ensures h[1..n][i].doc != h[n].doc { assert h[1..n][i] == h[i + 1]; }
    assert h[n].doc != e.doc;
  }

  lemma HeapFirst(newest: bool, h: seq<Entry>, s: seq<Entry>)
    requires Heap(newest, h) && Ordered(newest, s) && multiset(h) == multiset(s) && h != []
    ensures s != [] && h[0] == s[|s| - 1]
  {
    hide Ahead;
    assert h[0] in multiset(s);
    var last := s[|s| - 1];
    assert last in multiset(h);
    var i :| 0 <= i < |h| && h[i] == last;
    var j :| 0 <= j < |s| && s[j] == h[0];
    AheadTotal(newest, h[0], last);
  }

  lemma {:induction false} HeldKeeps(newest: bool, limit: nat, s: seq<Entry>)
    ensures var held := Held(newest, limit, s);
            Ordered(newest, held) && |held| <= limit && DistinctDocs(held)
  {
    if s != [] {
      HeldKeeps(newest, limit, s[..|s| - 1]);
      OfferOrdered(newest, limit, Held(newest, limit, s[..|s| - 1]), s[|s| - 1]);
    }
  }

  lemma OfferOrdered(newest: bool, limit: nat, held: seq<Entry>, e: Entry)
    requires Ordered(newest, held) && |held| <= limit && DistinctDocs(held)
    ensures var next := Offer(newest, limit, held, e);
            Ordered(newest, next) && |next| <= limit && DistinctDocs(next)
  {
    hide Ahead, Insert;
    if !HasDoc(held, e.doc) {
      InsertKeeps(newest, held, e);
      InsertDistinct(newest, held, e);
      if held != [] {
        FrontOf(newest, held, |held| - 1, e.doc);
        InsertKeeps(newest, held[..|held| - 1], e);
        InsertDistinct(newest, held[..|held| - 1], e);
      }
    }
  }

  lemma InsertDistinct(newest: bool, s: seq<Entry>, e: Entry)
    requires Ordered(newest, s) && !HasDoc(s, e.doc) && DistinctDocs(s)
    ensures DistinctDocs(Insert(newest, s, e))
  {
    hide Ahead, Insert, Ordered;
    InsertKeeps(newest, s, e);
    SameDistinct(s + [e], Insert(newest, s, e));
  }

  lemma {:induction false} SameDistinct(s: seq<Entry>, t: seq<Entry>)
    requires multiset(s) == multiset(t) && DistinctDocs(s)
    ensures DistinctDocs(t)
  {
    forall i, j | 0 <= i < j < |t| ensures t[i].doc != t[j].doc {
      if t[i].doc == t[j].doc {
        assert t[i] in multiset(s) && t[j] in multiset(s);
        var a :| 0 <= a < |s| && s[a] == t[i];
        var b :| 0 <= b < |s| && s[b] == t[j];
        assert t[i] == t[j];
        Twice(t, i, j);
        OnceOnly(s, t[i]);
      }
    }
  }

  lemma Twice(t: seq<Entry>, i: nat, j: nat)
    requires i < j < |t| && t[i] == t[j]
    ensures multiset(t)[t[i]] >= 2
  {
    assert t == t[..i] + [t[i]] + t[i + 1..j] + [t[j]] + t[j + 1..];
  }

  lemma {:induction false} OnceOnly(s: seq<Entry>, e: Entry)
    requires DistinctDocs(s)
    ensures multiset(s)[e] <= 1
  {
    if s != [] {
      var front, last := s[..|s| - 1], s[|s| - 1];
      assert s == front + [last];
      OnceOnly(front, e);
      forall i | 0 <= i < |front| ensures front[i] != last { assert s[i] == front[i]; }
      assert last !in multiset(front);
    }
  }

  /** The heap and the id set of a collector that was offered `s`. */
  ghost predicate Tracks(newest: bool, limit: nat, heap: seq<Entry>, ids: set<DocId>, s: seq<Entry>) {
    && Heap(newest, heap) && multiset(heap) == multiset(Held(newest, limit, s))
    && forall d :: d in ids <==> HasDoc(heap, d)
  }

  lemma TracksSays(newest: bool, limit: nat, heap: seq<Entry>, ids: set<DocId>, s: seq<Entry>, e: Entry)
    requires Tracks(newest, limit, heap, ids, s)
    ensures Heap(newest, heap) && DistinctDocs(heap) && (e.doc in ids <==> HasDoc(heap, e.doc))
  {
    hide Held, Ahead;
    HeldKeeps(newest, limit, s);
    SameDistinct(Held(newest, limit, s), heap);
  }

  lemma AddSkips(newest: bool, limit: nat, heap: seq<Entry>, ids: set<DocId>, s: seq<Entry>, e: Entry)
    requires Tracks(newest, limit, heap, ids, s)
    requires e.doc in ids || (|heap| >= limit && (heap == [] || !Ahead(newest, e, heap[0])))
    ensures Tracks(newest, limit, heap, ids, s + [e])
  {
    hide Held, Ahead, Heap, Insert, Ordered, Offer, HasDoc;
    OfferAt(newest, limit, heap, ids, s, e);
  }

  lemma AddPushed(newest: bool, limit: nat, heap: seq<Entry>, ids: set<DocId>, s: seq<Entry>, e: Entry, h: seq<Entry>)
    requires Tracks(newest, limit, heap, ids, s) && e.doc !in ids && |heap| < limit
    requires Heap(newest, h) && multiset(h) == multiset(heap) + multiset{e}
    ensures Tracks(newest, limit, h, ids + {e.doc}, s + [e])
  {
    hide Held, Ahead, Heap, Insert, Ordered, Offer, HasDoc;
    OfferAt(newest, limit, heap, ids, s, e);
    DocsMore(heap, h, e);
  }

  lemma AddReplaced(newest: bool, limit: nat, heap: seq<Entry>, ids: set<DocId>, s: seq<Entry>, e: Entry, h: seq<Entry>)
    requires Tracks(newest, limit, heap, ids, s) && e.doc !in ids && |heap| >= limit && heap != []
    requires Ahead(newest, e, heap[0])
    requires Heap(newest, h) && multiset(h) == multiset(heap) - multiset{heap[0]} + multiset{e}
    ensures Tracks(newest, limit, h, ids - {heap[0].doc} + {e.doc}, s + [e])
  {
    hide Held, Ahead, Heap, Insert, Ordered, Offer, HasDoc;
    TracksSays(newest, limit, heap, ids, s, e);
    OfferAt(newest, limit, heap, ids, s, e);
    DocsReplaced(heap, h, e);
  }

  /** What the rule makes of one more entry, in terms of the heap. */
  lemma OfferAt(newest: bool, limit: nat, heap: seq<Entry>, ids: set<DocId>, s: seq<Entry>, e: Entry)
    requires Tracks(newest, limit, heap, ids, s)
    ensures var next := Held(newest, limit, s + [e]);
            && (e.doc in ids || (|heap| >= limit && (heap == [] || !Ahead(newest, e, heap[0]))) ==>
                  multiset(next) == multiset(heap))
            && (e.doc !in ids && |heap| < limit ==> multiset(next) == multiset(heap) + multiset{e})
            && (e.doc !in ids && |heap| >= limit && heap != [] && Ahead(newest, e, heap[0]) ==>
                  multiset(next) == multiset(heap) - multiset{heap[0]} + multiset{e})
  {
    hide Held, Ahead, Heap, Insert, Ordered, Offer, HasDoc;
    var held := Held(newest, limit, s);
    HeldKeeps(newest, limit, s);
    HeldNext(newest, limit, s, e);
    SameDocs(heap, held, e.doc);
    SameSize(heap, held);
    OfferSkips(newest, limit, held, e);
    if e.doc !in ids {
      OfferCases(newest, limit, held, e);
      if heap != [] { HeapFirst(newest, heap, held); }
    }
  }

  class Collector {
    const newest: bool
    const limit: nat
    var heap: seq<Entry>
    var ids: set<DocId>

    ghost var offered: seq<Entry>

    ghost predicate Valid() reads this { Tracks(newest, limit, heap, ids, offered) }

    constructor (newest: bool, limit: nat)
      ensures Valid() && this.newest == newest && this.limit == limit && offered == []
    {
      this.newest, this.limit := newest, limit;
      heap, ids, offered := [], {}, [];
    }

    /** Offer one entry. */
    method Add(e: Entry)
      requires Valid()
      modifies this
      ensures Valid() && offered == old(offered) + [e]
    {
      hide Tracks, Ahead;
      TracksSays(newest, limit, heap, ids, offered, e);
      if e.doc !in ids && |heap| < limit {
        var pushed := Push(newest, heap, e);
        AddPushed(newest, limit, heap, ids, offered, e, pushed);
        heap, ids := pushed, ids + {e.doc};
      } else if e.doc !in ids && heap != [] && Ahead(newest, e, heap[0]) {
        var replaced := ReplaceFirst(newest, heap, e);
        AddReplaced(newest, limit, heap, ids, offered, e, replaced);
        heap, ids := replaced, ids - {heap[0].doc} + {e.doc};
      } else {
        AddSkips(newest, limit, heap, ids, offered, e);
      }
      offered := offered + [e];
    }

    /** The retained entries in order. */
    method Result() returns (r: seq<Entry>)
      requires Valid()
      ensures r == Held(newest, limit, offered) && |r| <= limit
      ensures !Crosses(newest, offered) ==> r == Best(newest, limit, offered) && Leads(newest, limit, offered, r)
    {
      hide Ahead, Held, Ordered, Best, Crosses, Leads;
      HeldKeeps(newest, limit, offered);
      SameDistinct(Held(newest, limit, offered), heap);
      SortKeeps(newest, heap);
      r := Sort(newest, heap);
      OrderedUnique(newest, r, Held(newest, limit, offered));
      if !Crosses(newest, offered) { HeldIsBest(newest, limit, offered); }
      BestLeads(newest, limit, offered);
    }
  }

  lemma HeldNext(newest: bool, limit: nat, s: seq<Entry>, e: Entry)
    ensures Held(newest, limit, s + [e]) == Offer(newest, limit, Held(newest, limit, s), e)
  {
    assert (s + [e])[..|s + [e]| - 1] == s;
  }

  lemma SameSize(s: seq<Entry>, t: seq<Entry>)
    requires multiset(s) == multiset(t)
    ensures |s| == |t|
  {
    assert |multiset(s)| == |s| && |multiset(t)| == |t|;
  }

  lemma OfferSkips(newest: bool, limit: nat, held: seq<Entry>, e: Entry)
    ensures HasDoc(held, e.doc) ==> Offer(newest, limit, held, e) == held
  {}

  lemma OfferCases(newest: bool, limit: nat, held: seq<Entry>, e: Entry)
    requires Ordered(newest, held) && !HasDoc(held, e.doc)
    ensures var next := Offer(newest, limit, held, e);
            && (|held| < limit ==> multiset(next) == multiset(held) + multiset{e})
            && (|held| >= limit && held != [] && Ahead(newest, e, held[|held| - 1]) ==>
                  multiset(next) == multiset(held) - multiset{held[|held| - 1]} + multiset{e})
            && (|held| >= limit && (held == [] || !Ahead(newest, e, held[|held| - 1])) ==> next == held)
  {
    hide Ahead, Insert, Ordered;
    InsertKeeps(newest, held, e);
    if held != [] {
      var front := held[..|held| - 1];
      FrontOf(newest, held, |held| - 1, e.doc);
      InsertKeeps(newest, front, e);
      assert held == front + [held[|held| - 1]];
    }
  }

  lemma DocsMore(h: seq<Entry>, h': seq<Entry>, e: Entry)
    requires multiset(h') == multiset(h) + multiset{e}
    ensures forall d :: HasDoc(h', d) <==> HasDoc(h, d) || d == e.doc
  {
    forall d ensures HasDoc(h', d) <==> HasDoc(h, d) || d == e.doc {
      SameDocs(h', h + [e], d);
      OneMore(h, e, d);
    }
  }

  lemma DocsReplaced(h: seq<Entry>, h': seq<Entry>, e: Entry)
    requires h != [] && DistinctDocs(h) && multiset(h') == multiset(h) - multiset{h[0]} + multiset{e}
    ensures forall d :: HasDoc(h', d) <==> (HasDoc(h, d) && d != h[0].doc) || d == e.doc
  {
    assert h == [h[0]] + h[1..];
    DocsMore(h[1..], h', e);
    forall d ensures HasDoc(h[1..], d) <==> HasDoc(h, d) && d != h[0].doc {
      if HasDoc(h[1..], d) {
        var i :| 0 <= i < |h[1..]| && h[1..][i].doc == d;
        assert h[i + 1].doc == d;
      }
      if HasDoc(h, d) && d != h[0].doc {
        var i :| 0 <= i < |h| && h[i].doc == d;
        assert h[1..][i - 1].doc == d;
      }
    }
  }

  // ---- The recency listing ----------------------------------------------------------------

  function Matching(rows: seq<Entry>, matches: Entry -> bool): seq<Entry> {
    if rows == [] then []
    else
      Matching(rows[..|rows| - 1], matches) + if matches(rows[|rows| - 1]) then [rows[|rows| - 1]] else []
  }

  lemma {:induction false} MatchingAre(rows: seq<Entry>, matches: Entry -> bool, e: Entry)
    ensures e in Matching(rows, matches) <==> e in rows && matches(e)
  {
    if rows != [] {
      MatchingAre(rows[..|rows| - 1], matches, e);
      assert e in rows <==> e in rows[..|rows| - 1] || e == rows[|rows| - 1];
    }
  }

  lemma {:induction false} MatchingDistinct(rows: seq<Entry>, matches: Entry -> bool)
    requires DistinctDocs(rows)
    ensures DistinctDocs(Matching(rows, matches))
  {
    if rows != [] {
      var front, last := rows[..|rows| - 1], rows[|rows| - 1];
      MatchingDistinct(front, matches);
      var found := Matching(front, matches);
      forall i | 0 <= i < |found| ensures found[i].doc != last.doc {
        MatchingAre(front, matches, found[i]);
        var j :| 0 <= j < |front| && front[j] == found[i];
        assert rows[j] == front[j];
      }
    }
  }

  function DocsOf(s: seq<Entry>): set<DocId> { set i | 0 <= i < |s| :: s[i].doc }

  /** Stream every matching row into a collector. */
  method Collect(c: Collector, rows: seq<Entry>, matches: Entry -> bool)
    requires c.Valid()
    modifies c
    ensures c.Valid() && c.offered == old(c.offered) + Matching(rows, matches)
  {
    for i := 0 to |rows|
      invariant c.Valid() && c.offered == old(c.offered) + Matching(rows[..i], matches)
    {
      assert rows[..i + 1][..i] == rows[..i];
      if matches(rows[i]) { c.Add(rows[i]); }
    }
    assert rows[..|rows|] == rows;
  }

  /** The newest `n` rows the filter matches: one pass over the cheap columns finds them, a second
      fetches them whole, `chunk` ids at a time. The collection stays as it is between the passes. */
  method RecentListing(rows: seq<Entry>, matches: Entry -> bool, n: nat, chunk: nat) returns (r: seq<Entry>)
    requires DistinctDocs(rows) && chunk > 0
    ensures r == First(n, Sort(true, Matching(rows, matches)))
    ensures Recent(rows, matches, n, r)
  {
    hide Tracks, Best, Sort, DistinctDocs, OneTime, Matching, Recent, Leads;
    RecentAre(rows, matches, n);
    MatchingDistinct(rows, matches);
    var all := Matching(rows, matches);
    DistinctOneTime(true, n, all);
    if n == 0 {
      FirstNone(Sort(true, all));
      return [];
    }
    var newest := new Collector(true, n);
    Collect(newest, rows, matches);
    assert newest.offered == all;
    var found := newest.Result();
    FoundAre(n, all);
    var collector := new Collector(true, n);
    Fetch(collector, rows, matches, found, chunk);
    SecondPass(n, all, collector.offered);
    r := collector.Result();
  }

  /** Fetch the found rows whole, `chunk` ids at a time. */
  method Fetch(collector: Collector, rows: seq<Entry>, matches: Entry -> bool, found: seq<Entry>, chunk: nat)
    requires collector.Valid() && collector.offered == [] && chunk > 0
    requires DistinctDocs(rows) && DistinctDocs(found)
    modifies collector
    ensures collector.Valid() && FetchedUpTo(Matching(rows, matches), found, collector.offered)
  {
    hide Tracks, FetchedUpTo, Matching, DistinctDocs;
    FetchedNone(Matching(rows, matches), found);
    var start := 0;
    while start < |found|
      invariant start <= |found| && collector.Valid()
      invariant FetchedUpTo(Matching(rows, matches), found[..start], collector.offered)
    {
      var end := if start + chunk < |found| then start + chunk else |found|;
      var ids := DocsOf(found[start..end]);
      ghost var before := collector.offered;
      var asked := (e: Entry) => matches(e) && e.doc in ids;
      Collect(collector, rows, asked);
      FetchMore(rows, matches, found, start, end, before, asked);
      start := end;
    }
    assert found[..|found|] == found;
  }

  lemma FirstNone(s: seq<Entry>)
    ensures First(0, s) == []
  {}

  lemma DistinctOneTime(newest: bool, limit: nat, s: seq<Entry>)
    requires DistinctDocs(s)
    ensures OneTime(s) && !Crosses(newest, s)
    ensures Dedup(s) == s && Best(newest, limit, s) == First(limit, Sort(newest, s))
  {
    hide Crosses;
    DedupItself(s);
    OneTimeNeverCrosses(newest, s);
  }

  lemma DedupNone()
    ensures Dedup([]) == []
  {}

  lemma DistinctFront(front: seq<Entry>, last: Entry)
    requires DistinctDocs(front + [last])
    ensures DistinctDocs(front) && !HasDoc(front, last.doc)
  {
    var s := front + [last];
    forall i | 0 <= i < |front| ensures s[i] == front[i] && front[i].doc != last.doc { assert s[|front|] == last; }
  }

  lemma {:induction false} DedupItself(s: seq<Entry>)
    requires DistinctDocs(s)
    ensures Dedup(s) == s
  {
    hide Dedup, HasDoc, DistinctDocs;
    DedupNone();
    if s != [] {
      var front, last := s[..|s| - 1], s[|s| - 1];
      assert s == front + [last];
      DistinctFront(front, last);
      DedupItself(front);
      DedupNext(front, last);
    }
  }

  /** The second pass so far: distinct matching rows, exactly the ones of the docs asked for. */
  ghost predicate FetchedUpTo(all: seq<Entry>, asked: seq<Entry>, got: seq<Entry>) {
    && DistinctDocs(got) && DistinctDocs(asked)
    && (forall e :: e in got <==> e in all && HasDoc(asked, e.doc))
  }

  lemma FetchedNone(all: seq<Entry>, found: seq<Entry>)
    ensures FetchedUpTo(all, found[..0], [])
  {}

  lemma FetchMore(rows: seq<Entry>, matches: Entry -> bool, found: seq<Entry>, start: nat, end: nat,
                  before: seq<Entry>, asked: Entry -> bool)
    requires start <= end <= |found| && DistinctDocs(found) && DistinctDocs(rows)
    requires FetchedUpTo(Matching(rows, matches), found[..start], before)
    requires forall e :: asked(e) <==> matches(e) && e.doc in DocsOf(found[start..end])
    ensures FetchedUpTo(Matching(rows, matches), found[..end], before + Matching(rows, asked))
  {
    hide Matching;
    var got := before + Matching(rows, asked);
    MatchingDistinct(rows, asked);
    forall e ensures e in got <==> e in Matching(rows, matches) && HasDoc(found[..end], e.doc) {
      MatchingAre(rows, matches, e);
      MatchingAre(rows, asked, e);
      assert e in got <==> e in before || e in Matching(rows, asked);
      DocsUpTo(found, start, end, e.doc);
    }
    forall i, j | 0 <= i < |before| && 0 <= j < |Matching(rows, asked)|
      ensures before[i].doc != Matching(rows, asked)[j].doc
    {
      assert before[i] in before && Matching(rows, asked)[j] in Matching(rows, asked);
      MatchingAre(rows, asked, Matching(rows, asked)[j]);
      DocsApart(found, start, end, before[i].doc);
    }
  }

  lemma DocsUpTo(found: seq<Entry>, start: nat, end: nat, d: DocId)
    requires start <= end <= |found|
    ensures HasDoc(found[..end], d) <==> HasDoc(found[..start], d) || d in DocsOf(found[start..end])
  {
    if i :| 0 <= i < |found[..end]| && found[..end][i].doc == d {
      if i < start { assert found[..start][i].doc == d; } else { assert found[start..end][i - start].doc == d; }
    }
    if i :| 0 <= i < |found[..start]| && found[..start][i].doc == d { assert found[..end][i].doc == d; }
    if i :| 0 <= i < |found[start..end]| && found[start..end][i].doc == d { assert found[..end][start + i].doc == d; }
  }

  lemma DocsApart(found: seq<Entry>, start: nat, end: nat, d: DocId)
    requires start <= end <= |found| && DistinctDocs(found)
    ensures HasDoc(found[..start], d) ==> d !in DocsOf(found[start..end])
  {
    var done, asked := found[..start], found[start..end];
    if HasDoc(done, d) {
      var i :| 0 <= i < |done| && done[i].doc == d;
      forall j | 0 <= j < |asked| ensures asked[j].doc != d { assert found[i].doc != found[start + j].doc; }
    }
  }

  /** What the first pass finds is distinct rows of the stream. */
  lemma FoundAre(n: nat, all: seq<Entry>)
    requires DistinctDocs(all)
    ensures var found := First(n, Sort(true, all));
            Ordered(true, found) && DistinctDocs(found) && |found| <= n && forall e | e in found :: e in all
  {
    hide Ahead, Sort, DistinctDocs;
    var t := Sort(true, all);
    SortKeeps(true, all);
    SameDistinct(all, t);
    FirstKeeps(n, t);
    forall e | e in First(n, t) ensures e in all {
      assert e in multiset(t);
      assert e in multiset(all);
    }
  }

  lemma FirstKeeps(n: nat, t: seq<Entry>)
    requires Ordered(true, t) && DistinctDocs(t)
    ensures Ordered(true, First(n, t)) && DistinctDocs(First(n, t)) && |First(n, t)| <= n
    ensures forall e | e in First(n, t) :: e in t
  {
    hide Ahead;
  }

  /** The second pass offers the found rows again, in whatever order, and returns them sorted. */
  lemma SecondPass(n: nat, all: seq<Entry>, got: seq<Entry>)
    requires DistinctDocs(all) && FetchedUpTo(all, First(n, Sort(true, all)), got)
    ensures !Crosses(true, got) && Best(true, n, got) == First(n, Sort(true, all))
  {
    hide Ahead, Sort, Ordered;
    var found := First(n, Sort(true, all));
    FoundAre(n, all);
    forall e ensures e in got <==> e in found {
      if e in got {
        var i :| 0 <= i < |found| && found[i].doc == e.doc;
        assert found[i] in found;
        OneOfDoc(all, found[i], e);
      }
      if e in found {
        var i :| 0 <= i < |found| && found[i] == e;
        assert HasDoc(found, e.doc);
      }
    }
    SameBags(got, found);
    DistinctOneTime(true, n, got);
    SortKeeps(true, got);
    OrderedUnique(true, Sort(true, got), found);
  }

  lemma OneOfDoc(all: seq<Entry>, a: Entry, b: Entry)
    requires DistinctDocs(all) && a in all && b in all && a.doc == b.doc
    ensures a == b
  {
    var i :| 0 <= i < |all| && all[i] == a;
    var j :| 0 <= j < |all| && all[j] == b;
  }

  lemma SameBags(s: seq<Entry>, t: seq<Entry>)
    requires DistinctDocs(s) && DistinctDocs(t) && forall e :: e in s <==> e in t
    ensures multiset(s) == multiset(t)
  {
    forall e ensures multiset(s)[e] == multiset(t)[e] {
      OnceOnly(s, e);
      OnceOnly(t, e);
      assert e in multiset(s) <==> e in s;
      assert e in multiset(t) <==> e in t;
    }
  }

  // ---- What is returned, in the stream's own terms -------------------------------------------

  /** Newest first or oldest first, ties by doc_id the same way. */
  predicate Comes(newest: bool, a: Entry, b: Entry) {
    if newest then a.time > b.time || (a.time == b.time && a.doc > b.doc)
    else a.time < b.time || (a.time == b.time && a.doc < b.doc)
  }

  lemma AheadIs(newest: bool, a: Entry, b: Entry)
    ensures Ahead(newest, a, b) <==> Comes(newest, a, b)
  {}

  /** `e` is the first entry of its doc in the stream. */
  ghost predicate Opens(s: seq<Entry>, e: Entry) {
    exists i :: 0 <= i < |s| && s[i] == e && forall j | 0 <= j < i :: s[j].doc != e.doc
  }

  /** The first `limit` of the docs in the stream, each with its first entry, in order. */
  ghost predicate Leads(newest: bool, limit: nat, s: seq<Entry>, r: seq<Entry>) {
    && |r| <= limit
    && (forall i, j | 0 <= i < j < |r| :: Comes(newest, r[i], r[j]))
    && (forall e | e in r :: Opens(s, e))
    && (forall e | Opens(s, e) && e !in r :: |r| == limit && forall x | x in r :: Comes(newest, x, e))
  }

  lemma {:induction false} DedupOpens(s: seq<Entry>, e: Entry)
    ensures e in Dedup(s) <==> Opens(s, e)
  {
    if s != [] {
      var n := |s| - 1;
      var front, last := s[..n], s[n];
      DedupOpens(front, e);
      if i :| 0 <= i < |front| && front[i] == e && forall j | 0 <= j < i :: front[j].doc != e.doc {
        assert s[i] == e;
        forall j | 0 <= j < i ensures s[j].doc != e.doc { assert s[j] == front[j]; }
        assert Opens(s, e);
      }
      if i :| 0 <= i < |s| && s[i] == e && forall j | 0 <= j < i :: s[j].doc != e.doc {
        if i < n {
          assert front[i] == e;
          forall j | 0 <= j < i ensures front[j].doc != e.doc { assert s[j] == front[j]; }
          assert Opens(front, e);
        } else {
          forall j | 0 <= j < |front| ensures front[j].doc != last.doc { assert s[j] == front[j]; }
          assert !HasDoc(front, last.doc);
        }
      }
      if !HasDoc(front, last.doc) && e == last {
        forall j | 0 <= j < n ensures s[j].doc != e.doc { assert s[j] == front[j]; }
        assert s[n] == e;
      }
    }
  }

  lemma BestLeads(newest: bool, limit: nat, s: seq<Entry>)
    ensures Leads(newest, limit, s, Best(newest, limit, s))
  {
    hide Ahead, Comes, Opens, Sort, Dedup;
    var t := Sort(newest, Dedup(s));
    SortDedup(newest, s);
    SameMembers(t, Dedup(s));
    forall e { DedupOpens(s, e); }
    forall a, b { AheadIs(newest, a, b); }
    var r := First(limit, t);
    forall e | e in t && e !in r ensures |r| == limit && forall x | x in r :: Comes(newest, x, e) {
      forall j | 0 <= j < |r| ensures t[j] == r[j] && r[j] in r {}
      var k :| 0 <= k < |t| && t[k] == e;
    }
  }

  /** A crossing, in the stream's own terms: some doc has a first entry and a later one, and another doc a first entry before
      that later one, which the later one comes before and the first one after. */
  lemma CrossesIff(newest: bool, s: seq<Entry>)
    ensures Crosses(newest, s) <==>
              exists j, a, b ::
                && 0 <= j < |s| && Opens(s[..j], a) && Opens(s[..j], b) && a.doc == s[j].doc
                && Comes(newest, s[j], b) && Comes(newest, b, a)
  {
    hide Ahead, Comes, Opens, Dedup;
    forall a, b { AheadIs(newest, a, b); }
    forall j, e | 0 <= j < |s| { DedupOpens(s[..j], e); }
    if Crosses(newest, s) {
      var j :| 0 <= j < |s| && CrossesAt(newest, s[..j], s[j]);
      var a, b :| a in Dedup(s[..j]) && b in Dedup(s[..j]) && a.doc == s[j].doc && Ahead(newest, s[j], b) && Ahead(newest, b, a);
      assert Opens(s[..j], a) && Opens(s[..j], b);
    }
    if j, a, b :| && 0 <= j < |s| && Opens(s[..j], a) && Opens(s[..j], b) && a.doc == s[j].doc
                  && Comes(newest, s[j], b) && Comes(newest, b, a) {
      assert CrossesAt(newest, s[..j], s[j]);
    }
  }

  /** The newest of the matching rows, newest first. */
  ghost predicate Recent(rows: seq<Entry>, matches: Entry -> bool, n: nat, r: seq<Entry>) {
    && |r| <= n
    && (forall i, j | 0 <= i < j < |r| :: Comes(true, r[i], r[j]))
    && (forall e | e in r :: e in rows && matches(e))
    && (forall e | e in rows && matches(e) && e !in r :: |r| == n && forall x | x in r :: Comes(true, x, e))
  }

  lemma RecentAre(rows: seq<Entry>, matches: Entry -> bool, n: nat)
    requires DistinctDocs(rows)
    ensures Recent(rows, matches, n, First(n, Sort(true, Matching(rows, matches))))
  {
    hide Comes, Ahead, Sort, Matching, DistinctDocs;
    var all := Matching(rows, matches);
    MatchingDistinct(rows, matches);
    SortKeeps(true, all);
    var t := Sort(true, all);
    SameMembers(t, all);
    forall e { MatchingAre(rows, matches, e); }
    forall a, b { AheadIs(true, a, b); }
    var r := First(n, t);
    forall e | e in t && e !in r ensures |r| == n && forall x | x in r :: Comes(true, x, e) {
      forall j | 0 <= j < |r| ensures t[j] == r[j] && r[j] in r {}
      var k :| 0 <= k < |t| && t[k] == e;
    }
  }
}
