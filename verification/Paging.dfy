/** Keyset paging over the canonical store, with any writes between pages: the cursor names the last
    row's creation time and id, which no write ever changes. */
module Paging {
  import opened Wrappers
  import opened MemoryStore
  import opened StoreInvariants

  /** A listing's filters; the fingerprint names them in a cursor. */
  datatype Filters = Filters(fingerprint: string, matches: Memory -> bool)

  /** What a client sends back: a decoded cursor, or one that does not decode. */
  datatype Cursor = Cursor(created: Time, id: MemoryId, fingerprint: string) | Malformed

  datatype ListError = InvalidCursor

  datatype Page = Page(ids: seq<MemoryId>, next: Option<Cursor>)

  // ---- The order --------------------------------------------------------------------------

  /** Newest first, ties by id descending. */
  predicate Newer(db: Db, a: MemoryId, b: MemoryId)
    requires a in db.memories && b in db.memories
  {
    var x, y := db.memories[a].createdAt, db.memories[b].createdAt;
    x > y || (x == y && a > b)
  }

  /** `(created_at, memory_id) < (cursor)`. */
  predicate Past(db: Db, c: Option<Cursor>, id: MemoryId)
    requires id in db.memories
  {
    Below(db.memories[id].createdAt, id, c)
  }

  predicate Below(created: Time, id: MemoryId, c: Option<Cursor>) {
    c.Some? && c.value.Cursor? ==> created < c.value.created || (created == c.value.created && id < c.value.id)
  }

  function Candidates(db: Db, f: Filters, c: Option<Cursor>): set<MemoryId> {
    set id | id in db.memories && f.matches(db.memories[id]) && Past(db, c, id)
  }

  ghost predicate Newest(db: Db, ids: set<MemoryId>, id: MemoryId)
    requires ids <= db.memories.Keys
  {
    id in ids && forall o | o in ids && o != id :: Newer(db, id, o)
  }

  lemma NewerOn(db: Db, a: MemoryId, b: MemoryId, c: MemoryId)
    requires a in db.memories && b in db.memories && c in db.memories
    requires Newer(db, a, b) && Newer(db, b, c)
    ensures Newer(db, a, c)
  {}

  lemma NewerTotal(db: Db, a: MemoryId, b: MemoryId)
    requires a in db.memories && b in db.memories
    ensures a != b ==> Newer(db, a, b) || Newer(db, b, a)
    ensures !(Newer(db, a, b) && Newer(db, b, a))
  {}

  lemma {:induction false} NewestExists(db: Db, ids: set<MemoryId>)
    requires ids <= db.memories.Keys && ids != {}
    ensures exists id :: Newest(db, ids, id)
    decreases ids
  {
    hide Newer;
    var x :| x in ids;
    var rest := ids - {x};
    assert ids == rest + {x};
    if rest == {} {
      assert Newest(db, ids, x);
    } else {
      NewestExists(db, rest);
      var y :| Newest(db, rest, y);
      NewerTotal(db, x, y);
      if Newer(db, x, y) {
        forall o | o in ids && o != x ensures Newer(db, x, o) { if o != y { NewerOn(db, x, y, o); } }
        assert Newest(db, ids, x);
      } else {
        assert Newest(db, ids, y);
      }
    }
  }

  /** `ORDER BY created_at DESC, memory_id DESC`. */
  ghost function Descending(db: Db, ids: set<MemoryId>): seq<MemoryId>
    requires ids <= db.memories.Keys
    decreases ids
  {
    if ids == {} then []
    else
      NewestExists(db, ids);
      var id :| Newest(db, ids, id);
      [id] + Descending(db, ids - {id})
  }

  lemma {:induction false} DescendingLists(db: Db, ids: set<MemoryId>)
    requires ids <= db.memories.Keys
    ensures var s := Descending(db, ids);
            && |s| == |ids| && (forall id :: id in s <==> id in ids)
            && forall i, j | 0 <= i < j < |s| :: Newer(db, s[i], s[j])
    decreases ids
  {
    if ids != {} { DescendingLists(db, ids - {Descending(db, ids)[0]}); }
  }

  function Limit(limit: int): nat { if limit < 1 then 1 else limit }

  /** The answer, from the sorted candidates. */
  function PageOf(db: Db, f: Filters, limit: int, sorted: seq<MemoryId>): Page
    requires forall id | id in sorted :: id in db.memories
  {
    var n := Limit(limit);
    if |sorted| <= n then Page(sorted, None)
    else
      var last := sorted[n - 1];
      assert last in sorted;
      Page(sorted[..n], Some(Cursor(db.memories[last].createdAt, last, f.fingerprint)))
  }

  predicate Accepted(f: Filters, c: Option<Cursor>) {
    c.Some? ==> c.value.Cursor? && c.value.fingerprint == f.fingerprint
  }

  ghost function ListOf(db: Db, f: Filters, limit: int, c: Option<Cursor>): Result<Page, ListError> {
    if !Accepted(f, c) then Err(InvalidCursor)
    else
      DescendingLists(db, Candidates(db, f, c));
      Ok(PageOf(db, f, limit, Descending(db, Candidates(db, f, c))))
  }

  /** A cursor that is none, or one made under these filters; a record comes after it by time, then by id. */
  predicate ComesAfter(db: Db, c: Option<Cursor>, id: MemoryId)
    requires id in db.memories
  {
    match c
    case None => true
    case Some(Malformed) => true
    case Some(Cursor(created, last, _)) =>
      db.memories[id].createdAt < created || (db.memories[id].createdAt == created && id < last)
  }

  /** The records a page is drawn from. */
  predicate Wanted(db: Db, f: Filters, c: Option<Cursor>, id: MemoryId) {
    id in db.memories && f.matches(db.memories[id]) && ComesAfter(db, c, id)
  }

  /** In strictly descending order of creation time, then id. */
  predicate Downwards(db: Db, ids: seq<MemoryId>) {
    && (forall id | id in ids :: id in db.memories)
    && forall i, j | 0 <= i < j < |ids| ::
         var x, y := db.memories[ids[i]].createdAt, db.memories[ids[j]].createdAt; x > y || (x == y && ids[i] > ids[j])
  }

  /** The page holds the first of the records that match and come after the cursor, as many as the limit allows but at
      least one; there is a next cursor exactly when some are left, and it names the last one of the page. */
  ghost predicate Answers(db: Db, f: Filters, limit: int, c: Option<Cursor>, r: Result<Page, ListError>) {
    if c.Some? && (c.value.Malformed? || c.value.fingerprint != f.fingerprint) then r == Err(InvalidCursor)
    else
      && r.Ok?
      && var ids, n := r.value.ids, if limit >= 1 then limit else 1;
      && Downwards(db, ids) && |ids| <= n
      && (forall id | id in ids :: Wanted(db, f, c, id))
      && (forall id | Wanted(db, f, c, id) && id !in ids :: |ids| == n && Downwards(db, [ids[n - 1], id]))
      && (r.value.next.Some? <==> exists id :: Wanted(db, f, c, id) && id !in ids)
      && (r.value.next.Some? ==>
            ids != [] && var last := ids[|ids| - 1]; r.value.next.value == Cursor(db.memories[last].createdAt, last, f.fingerprint))
  }

  lemma ListAnswers(db: Db, f: Filters, limit: int, c: Option<Cursor>)
    ensures Answers(db, f, limit, c, ListOf(db, f, limit, c))
  {
    hide Descending, Downwards, Wanted, Candidates;
    if Accepted(f, c) {
      CandidatesAre(db, f, c);
      var all, n := Descending(db, Candidates(db, f, c)), Limit(limit);
      DescendingLists(db, Candidates(db, f, c));
      CandidatesWanted(db, f, c);
      DownwardsAre(db, all);
      FirstAre(db, all, n);
    }
  }

  /** The first `n` of a descending listing, and what is left of it. */
  lemma FirstAre(db: Db, all: seq<MemoryId>, n: nat)
    requires Downwards(db, all) && n > 0
    ensures var ids := if |all| <= n then all else all[..n];
            && Downwards(db, ids) && |ids| <= n && (forall id | id in ids :: id in all)
            && (forall id | id in all && id !in ids :: |ids| == n && Downwards(db, [ids[n - 1], id]))
            && (|all| > n <==> exists id :: id in all && id !in ids)
  {
    hide Downwards;
    var ids := if |all| <= n then all else all[..n];
    if |all| > n {
      FrontDownwards(db, all, n);
      FirstLeft(db, all, n);
    }
    forall id | id in all && id !in ids ensures |ids| == n && Downwards(db, [ids[n - 1], id]) {
      forall j | 0 <= j < |ids| ensures all[j] == ids[j] && ids[j] in ids {}
      var k :| 0 <= k < |all| && all[k] == id;
      PairDownwards(db, all, n - 1, k);
    }
  }

  lemma CandidatesWanted(db: Db, f: Filters, c: Option<Cursor>)
    ensures forall id :: id in Candidates(db, f, c) <==> Wanted(db, f, c, id)
  {}

  lemma DownwardsAre(db: Db, s: seq<MemoryId>)
    requires forall id | id in s :: id in db.memories
    requires forall i, j | 0 <= i < j < |s| :: Newer(db, s[i], s[j])
    ensures Downwards(db, s)
  {}

  lemma FrontDownwards(db: Db, s: seq<MemoryId>, n: nat)
    requires Downwards(db, s) && n <= |s|
    ensures Downwards(db, s[..n])
  {}

  lemma PairDownwards(db: Db, s: seq<MemoryId>, i: nat, j: nat)
    requires Downwards(db, s) && i < j < |s|
    ensures Downwards(db, [s[i], s[j]])
  {}

  /** What is left begins with a record that is not among the first. */
  lemma FirstLeft(db: Db, s: seq<MemoryId>, n: nat)
    requires Downwards(db, s) && n < |s|
    ensures s[n] in s && s[n] !in s[..n]
  {
    forall i | 0 <= i < n ensures s[i] != s[n] {}
  }

  /** The newest of some rows. */
  method Pick(db: Db, ids: set<MemoryId>) returns (id: MemoryId)
    requires ids <= db.memories.Keys && ids != {}
    ensures Newest(db, ids, id)
  {
    hide Newer;
    id :| id in ids;
    var left := ids - {id};
    while left != {}
      invariant id in ids && left <= ids && id !in left
      invariant forall o | o in ids - left && o != id :: Newer(db, id, o)
      decreases left
    {
      var o :| o in left;
      left := left - {o};
      NewerTotal(db, o, id);
      if Newer(db, o, id) {
        forall x | x in ids - left && x != o ensures Newer(db, o, x) { if x != id { NewerOn(db, o, id, x); } }
        id := o;
      }
    }
  }

  /** The first rows of a listing, at most `n` of them. */
  method Select(db: Db, ids: set<MemoryId>, n: nat) returns (rows: seq<MemoryId>)
    requires ids <= db.memories.Keys
    ensures rows == if |Descending(db, ids)| <= n then Descending(db, ids) else Descending(db, ids)[..n]
  {
    hide Newer, Descending;
    var left := ids;
    ghost var all := Descending(db, ids);
    rows := [];
    while left != {} && |rows| < n
      invariant left <= db.memories.Keys && |rows| <= n
      invariant rows + Descending(db, left) == all
      decreases left
    {
      var id := Pick(db, left);
      DescendingFirst(db, left, id);
      ConcatAssoc(rows, [id], Descending(db, left - {id}));
      rows, left := rows + [id], left - {id};
    }
    if left == {} { DescendingNone(db); }
  }

  lemma DescendingNone(db: Db)
    ensures Descending(db, {}) == []
  {}

  /** One page and the next cursor; one row more than the page is read to learn whether there is one. */
  method List(db: Db, f: Filters, limit: int, c: Option<Cursor>) returns (r: Result<Page, ListError>)
    ensures r == ListOf(db, f, limit, c)
    ensures Answers(db, f, limit, c, r)
  {
    hide Descending, Candidates, Answers;
    ListAnswers(db, f, limit, c);
    if c.Some? && (c.value.Malformed? || c.value.fingerprint != f.fingerprint) { return Err(InvalidCursor); }
    var n := Limit(limit);
    CandidatesAre(db, f, c);
    DescendingLists(db, Candidates(db, f, c));
    var rows := Select(db, Candidates(db, f, c), n + 1);
    ghost var all := Descending(db, Candidates(db, f, c));
    if |all| > n { assert all[..n + 1][..n] == all[..n]; }
    if |rows| <= n { return Ok(Page(rows, None)); }
    var last := rows[n - 1];
    assert last in Descending(db, Candidates(db, f, c));
    return Ok(Page(rows[..n], Some(Cursor(db.memories[last].createdAt, last, f.fingerprint))));
  }

  lemma CandidatesAre(db: Db, f: Filters, c: Option<Cursor>)
    ensures Candidates(db, f, c) <= db.memories.Keys
  {}

  lemma DescendingFirst(db: Db, ids: set<MemoryId>, id: MemoryId)
    requires ids <= db.memories.Keys && Newest(db, ids, id)
    ensures Descending(db, ids) == [id] + Descending(db, ids - {id})
  {
    NewestExists(db, ids);
    assert forall o | Newest(db, ids, o) :: o == id;
  }

  // ---- Writes between pages ---------------------------------------------------------------

  /** Any number of commits later: every record is still there, created when it was. */
  ghost predicate Later(db: Db, db': Db) {
    forall id | id in db.memories ::
      id in db'.memories && db'.memories[id].createdAt == db.memories[id].createdAt
  }

  lemma CommitIsLater(db: Db, db': Db)
    requires Commit(db, db')
    ensures Later(db, db')
  {
    forall id | id in db.memories ensures db'.memories[id].createdAt == db.memories[id].createdAt {
      assert Kept(db, db', id) || Advanced(db, db', id);
    }
  }

  /** A client's walk: each page is read from the store as it then is, from the cursor before it. */
  ghost predicate Walk(dbs: seq<Db>, f: Filters, limit: int, pages: seq<Page>) {
    && |pages| == |dbs| && |dbs| > 0
    && (forall i | 0 <= i < |dbs| - 1 :: Later(dbs[i], dbs[i + 1]))
    && ListOf(dbs[0], f, limit, None) == Ok(pages[0])
    && (forall i | 0 <= i < |pages| - 1 ::
          pages[i].next.Some? && ListOf(dbs[i + 1], f, limit, pages[i].next) == Ok(pages[i + 1]))
  }

  /** The cursor page `i` was read from. */
  function From(pages: seq<Page>, i: nat): Option<Cursor>
    requires i <= |pages|
  {
    if i == 0 then None else pages[i - 1].next
  }

  lemma PageRead(dbs: seq<Db>, f: Filters, limit: int, pages: seq<Page>, i: nat)
    requires Walk(dbs, f, limit, pages) && i < |pages|
    ensures Accepted(f, From(pages, i))
    ensures Candidates(dbs[i], f, From(pages, i)) <= dbs[i].memories.Keys
    ensures var sorted := Descending(dbs[i], Candidates(dbs[i], f, From(pages, i)));
            && (forall id | id in sorted :: id in dbs[i].memories)
            && pages[i] == PageOf(dbs[i], f, limit, sorted)
  {
    if i > 0 { assert ListOf(dbs[i - 1 + 1], f, limit, pages[i - 1].next) == Ok(pages[i - 1 + 1]); }
    DescendingLists(dbs[i], Candidates(dbs[i], f, From(pages, i)));
  }

  lemma {:induction false} WalkLater(dbs: seq<Db>, f: Filters, limit: int, pages: seq<Page>, i: nat, j: nat)
    requires Walk(dbs, f, limit, pages) && i <= j < |dbs|
    ensures Later(dbs[i], dbs[j])
  {
    if i < j {
      WalkLater(dbs, f, limit, pages, i, j - 1);
      assert Later(dbs[j - 1], dbs[j - 1 + 1]);
    }
  }

  /** Every row of a page is past its cursor, and the next cursor is the key of its last row. */
  lemma PageBounds(dbs: seq<Db>, f: Filters, limit: int, pages: seq<Page>, i: nat)
    requires Walk(dbs, f, limit, pages) && i < |pages|
    ensures forall k | 0 <= k < |pages[i].ids| ::
              pages[i].ids[k] in dbs[i].memories && Past(dbs[i], From(pages, i), pages[i].ids[k])
    ensures forall k, l | 0 <= k < l < |pages[i].ids| :: Newer(dbs[i], pages[i].ids[k], pages[i].ids[l])
    ensures pages[i].next.Some? ==>
              && pages[i].next.value.Cursor?
              && forall k | 0 <= k < |pages[i].ids| :: !Past(dbs[i], pages[i].next, pages[i].ids[k])
  {
    hide ListOf, Descending;
    PageRead(dbs, f, limit, pages, i);
    var ids := Candidates(dbs[i], f, From(pages, i));
    DescendingLists(dbs[i], ids);
    var sorted := Descending(dbs[i], ids);
    forall k | 0 <= k < |pages[i].ids|
      ensures pages[i].ids[k] in dbs[i].memories && Past(dbs[i], From(pages, i), pages[i].ids[k])
    {
      assert sorted[k] in ids;
    }
  }

  /** A next cursor is below the one its page was read from. */
  lemma NextBelow(dbs: seq<Db>, f: Filters, limit: int, pages: seq<Page>, i: nat)
    requires Walk(dbs, f, limit, pages) && i < |pages| && pages[i].next.Some?
    ensures pages[i].next.value.Cursor?
    ensures Below(pages[i].next.value.created, pages[i].next.value.id, From(pages, i))
  {
    hide ListOf;
    PageRead(dbs, f, limit, pages, i);
    var ids := Candidates(dbs[i], f, From(pages, i));
    DescendingLists(dbs[i], ids);
    assert Descending(dbs[i], ids)[Limit(limit) - 1] in ids;
  }

  /** What is below a cursor is below every earlier one. */
  lemma {:induction false} CursorsDescend(dbs: seq<Db>, f: Filters, limit: int, pages: seq<Page>, i: nat, j: nat,
                                          created: Time, id: MemoryId)
    requires Walk(dbs, f, limit, pages) && i < j < |pages|
    requires Below(created, id, From(pages, j))
    ensures Below(created, id, pages[i].next)
  {
    hide ListOf;
    if i < j - 1 {
      assert pages[j - 1].next.Some?;
      NextBelow(dbs, f, limit, pages, j - 1);
      CursorsDescend(dbs, f, limit, pages, i, j - 1, created, id);
    }
  }

  /** Whatever is written between pages, no record is returned twice. */
  lemma NoRepeats(dbs: seq<Db>, f: Filters, limit: int, pages: seq<Page>, i: nat, k: nat, j: nat, l: nat)
    requires Walk(dbs, f, limit, pages) && i <= j < |pages| && k < |pages[i].ids| && l < |pages[j].ids|
    requires i == j ==> k != l
    ensures pages[i].ids[k] != pages[j].ids[l]
  {
    hide Walk, Below;
    WalkStarts(dbs, f, limit, pages);
    PageBounds(dbs, f, limit, pages, i);
    PageBounds(dbs, f, limit, pages, j);
    if i == j {
      assert Newer(dbs[i], pages[i].ids[k], pages[i].ids[l]) || Newer(dbs[i], pages[i].ids[l], pages[i].ids[k]);
    } else {
      var id := pages[j].ids[l];
      CursorsDescend(dbs, f, limit, pages, i, j, dbs[j].memories[id].createdAt, id);
      WalkLater(dbs, f, limit, pages, i, j);
      MoreThanOne(dbs, f, limit, pages, i, j);
    }
  }

  lemma MoreThanOne(dbs: seq<Db>, f: Filters, limit: int, pages: seq<Page>, i: nat, j: nat)
    requires Walk(dbs, f, limit, pages) && i < j < |pages|
    ensures pages[i].next.Some?
  {}

  /** Every page of a walk answers from its cursor as the store then was, so what it returned matched then. */
  lemma WalkAnswers(dbs: seq<Db>, f: Filters, limit: int, pages: seq<Page>, i: nat)
    requires Walk(dbs, f, limit, pages) && i < |pages|
    ensures Answers(dbs[i], f, limit, From(pages, i), Ok(pages[i]))
    ensures forall id | id in pages[i].ids :: id in dbs[i].memories && f.matches(dbs[i].memories[id])
  {
    hide ListOf, Downwards;
    ListAnswers(dbs[i], f, limit, From(pages, i));
    if i > 0 { assert ListOf(dbs[i - 1 + 1], f, limit, pages[i - 1].next) == Ok(pages[i - 1 + 1]); }
    PageRead(dbs, f, limit, pages, i);
  }

  /** `id` exists and matches at every page. */
  ghost predicate Throughout(dbs: seq<Db>, f: Filters, id: MemoryId) {
    forall i | 0 <= i < |dbs| :: id in dbs[i].memories && f.matches(dbs[i].memories[id])
  }

  ghost predicate Returned(pages: seq<Page>, id: MemoryId) {
    exists i, k :: 0 <= i < |pages| && 0 <= k < |pages[i].ids| && pages[i].ids[k] == id
  }

  /** A candidate is on the page or past its next cursor. */
  lemma PageOrNext(dbs: seq<Db>, f: Filters, limit: int, pages: seq<Page>, i: nat, id: MemoryId)
    requires Walk(dbs, f, limit, pages) && i < |pages|
    requires id in dbs[i].memories && f.matches(dbs[i].memories[id]) && Past(dbs[i], From(pages, i), id)
    ensures id in pages[i].ids || (pages[i].next.Some? && Past(dbs[i], pages[i].next, id))
  {
    hide ListOf;
    PageRead(dbs, f, limit, pages, i);
    var ids := Candidates(dbs[i], f, From(pages, i));
    DescendingLists(dbs[i], ids);
    var sorted := Descending(dbs[i], ids);
    assert id in sorted;
    var k :| 0 <= k < |sorted| && sorted[k] == id;
    if |sorted| > Limit(limit) {
      if k < Limit(limit) { assert pages[i].ids[k] == id; } else { assert Newer(dbs[i], sorted[Limit(limit) - 1], id); }
    }
  }

  lemma {:induction false} ReachedFrom(dbs: seq<Db>, f: Filters, limit: int, pages: seq<Page>, i: nat, id: MemoryId)
    requires Walk(dbs, f, limit, pages) && i < |pages| && pages[|pages| - 1].next.None?
    requires Throughout(dbs, f, id) && Past(dbs[i], From(pages, i), id)
    ensures Returned(pages, id)
    decreases |pages| - i
  {
    hide ListOf;
    PageOrNext(dbs, f, limit, pages, i, id);
    if id in pages[i].ids {
      var k :| 0 <= k < |pages[i].ids| && pages[i].ids[k] == id;
    } else {
      assert Later(dbs[i], dbs[i + 1]);
      ReachedFrom(dbs, f, limit, pages, i + 1, id);
    }
  }

  /** Whatever is written between pages, a record that is there and matches from the first page to the
      last is returned; by the lemma above, once. */
  lemma NothingMissed(dbs: seq<Db>, f: Filters, limit: int, pages: seq<Page>, id: MemoryId)
    requires Walk(dbs, f, limit, pages) && pages[|pages| - 1].next.None? && Throughout(dbs, f, id)
    ensures Returned(pages, id)
  {
    hide Walk;
    WalkStarts(dbs, f, limit, pages);
    ReachedFrom(dbs, f, limit, pages, 0, id);
  }

  lemma WalkStarts(dbs: seq<Db>, f: Filters, limit: int, pages: seq<Page>)
    requires Walk(dbs, f, limit, pages)
    ensures |dbs| == |pages| > 0
  {}

  /** A cursor a page gave out leads on from that page's last row whatever the store has become and
      whatever the limit, under filters of the same fingerprint and under no others; what does not
      decode is refused. */
  lemma IssuedCursors(db: Db, f: Filters, limit: int, c: Option<Cursor>, later: Db, g: Filters, other: int)
    requires Accepted(f, c)
    ensures ListOf(db, f, limit, c).Ok?
    ensures var page := ListOf(db, f, limit, c).value;
            page.next.Some? ==>
              && (ListOf(later, g, other, page.next).Ok? <==> g.fingerprint == f.fingerprint)
              && page.ids != [] && page.ids[|page.ids| - 1] in db.memories
              && forall id | id in later.memories :: Past(later, page.next, id) <==>
                   var last := page.ids[|page.ids| - 1];
                   later.memories[id].createdAt < db.memories[last].createdAt
                   || (later.memories[id].createdAt == db.memories[last].createdAt && id < last)
    ensures ListOf(later, g, other, Some(Malformed)) == Err(InvalidCursor)
  {
    hide Descending;
    DescendingLists(db, Candidates(db, f, c));
  }

  // ---- A store nobody writes --------------------------------------------------------------

  /** A strictly descending listing of a set is the listing. */
  lemma {:induction false} DescendingUnique(db: Db, s: seq<MemoryId>, t: seq<MemoryId>)
    requires forall id | id in s :: id in db.memories
    requires forall id | id in t :: id in db.memories
    requires forall id :: id in s <==> id in t
    requires forall i, j | 0 <= i < j < |s| :: Newer(db, s[i], s[j])
    requires forall i, j | 0 <= i < j < |t| :: Newer(db, t[i], t[j])
    ensures s == t
    decreases |s|
  {
    hide Newer;
    assert (s != [] ==> s[0] in s) && (t != [] ==> t[0] in t);
    if s != [] {
      var i :| 0 <= i < |t| && t[i] == s[0];
      var j :| 0 <= j < |s| && s[j] == t[0];
      assert (i > 0 ==> Newer(db, t[0], t[i])) && (j > 0 ==> Newer(db, s[0], s[j]));
      NewerTotal(db, s[0], t[0]);
      assert s[0] == t[0];
      NewerTotal(db, s[0], s[0]);
      forall id ensures id in s[1..] <==> id in t[1..] {
        assert id in s <==> id == s[0] || id in s[1..];
        assert id in t <==> id == t[0] || id in t[1..];
        assert forall k | 0 < k < |s| :: Newer(db, s[0], s[k]);
        assert forall k | 0 < k < |t| :: Newer(db, t[0], t[k]);
      }
      DescendingUnique(db, s[1..], t[1..]);
    }
  }

  /** What a page leaves is what the next cursor lists. */
  lemma RestIsNext(db: Db, f: Filters, limit: int, c: Option<Cursor>)
    requires Accepted(f, c) && |Descending(db, Candidates(db, f, c))| > Limit(limit)
    ensures var page := ListOf(db, f, limit, c);
            && page.Ok? && page.value.next.Some? && Accepted(f, page.value.next)
            && Descending(db, Candidates(db, f, page.value.next))
               == Descending(db, Candidates(db, f, c))[Limit(limit)..]
  {
    hide Newer, Descending, Candidates, Below;
    var n, ids := Limit(limit), Candidates(db, f, c);
    CandidatesAre(db, f, c);
    DescendingLists(db, ids);
    var sorted := Descending(db, ids);
    PageIs(db, f, limit, c);
    var next := ListOf(db, f, limit, c).value.next;
    CandidatesAre(db, f, next);
    DescendingLists(db, Candidates(db, f, next));
    var rest := sorted[n..];
    forall id ensures id in rest <==> id in Candidates(db, f, next) { RestAt(db, f, c, sorted, n, id); }
    forall i, j | 0 <= i < j < |rest| ensures Newer(db, rest[i], rest[j]) {
      assert Newer(db, sorted[n + i], sorted[n + j]);
    }
    DescendingUnique(db, Descending(db, Candidates(db, f, next)), rest);
  }

  lemma RestAt(db: Db, f: Filters, c: Option<Cursor>, sorted: seq<MemoryId>, n: nat, id: MemoryId)
    requires 0 < n < |sorted| && (forall o :: o in sorted <==> o in Candidates(db, f, c))
    requires forall o | o in sorted :: o in db.memories
    requires forall i, j | 0 <= i < j < |sorted| :: Newer(db, sorted[i], sorted[j])
    ensures var last := sorted[n - 1];
            last in db.memories
            && (id in sorted[n..] <==>
                  id in Candidates(db, f, Some(Cursor(db.memories[last].createdAt, last, f.fingerprint))))
  {
    var last, rest := sorted[n - 1], sorted[n..];
    assert last in sorted;
    var next := Some(Cursor(db.memories[last].createdAt, last, f.fingerprint));
    assert last in Candidates(db, f, c);
    if id in sorted {
      var k :| 0 <= k < |sorted| && sorted[k] == id;
      if k >= n {
        assert rest[k - n] == id && Newer(db, last, sorted[k]);
      } else {
        forall j | 0 <= j < |rest| ensures rest[j] != id { assert Newer(db, sorted[k], sorted[n + j]); }
        assert k == n - 1 || Newer(db, sorted[k], last);
      }
    } else {
      forall j | 0 <= j < |rest| ensures rest[j] != id { assert rest[j] == sorted[n + j]; }
    }
  }

  /** Follow the cursors to the end. */
  ghost function Pages(db: Db, f: Filters, limit: int, c: Option<Cursor>): seq<Page>
    requires Accepted(f, c)
    decreases |Descending(db, Candidates(db, f, c))|
  {
    var page := ListOf(db, f, limit, c).value;
    if |Descending(db, Candidates(db, f, c))| <= Limit(limit) then [page]
    else
      RestIsNext(db, f, limit, c);
      [page] + Pages(db, f, limit, page.next)
  }

  function Flat(pages: seq<Page>): seq<MemoryId> {
    if pages == [] then [] else pages[0].ids + Flat(pages[1..])
  }

  /** Full pages, then the rest. */
  function PageCount(rows: nat, n: nat): nat
    requires n > 0
  {
    if rows <= n then 1 else 1 + PageCount(rows - n, n)
  }

  /** On a store nobody writes the walk ends, its pages are the whole sorted listing in order, and
      there are as many as it takes. */
  lemma {:induction false} StaticWalk(db: Db, f: Filters, limit: int, c: Option<Cursor>)
    requires Accepted(f, c)
    ensures var pages, all := Pages(db, f, limit, c), Descending(db, Candidates(db, f, c));
            && Flat(pages) == all && |pages| == PageCount(|all|, Limit(limit))
            && pages[|pages| - 1].next.None?
    decreases |Descending(db, Candidates(db, f, c))|
  {
    hide ListOf, Descending, Candidates, Flat, Pages, Accepted;
    CandidatesAre(db, f, c);
    PageIs(db, f, limit, c);
    var all, n := Descending(db, Candidates(db, f, c)), Limit(limit);
    var page := ListOf(db, f, limit, c).value;
    PagesStep(db, f, limit, c);
    if |all| <= n {
      FlatStep(page, []);
    } else {
      RestIsNext(db, f, limit, c);
      StaticWalk(db, f, limit, page.next);
      FlatStep(page, Pages(db, f, limit, page.next));
      assert all[..n] + all[n..] == all;
    }
  }

  /** The followed cursors are a walk over a store that stays as it is, so what holds of every walk
      holds of them. */
  lemma {:induction false} PagesWalk(db: Db, f: Filters, limit: int, c: Option<Cursor>, i: nat)
    requires Accepted(f, c) && i < |Pages(db, f, limit, c)|
    ensures var pages := Pages(db, f, limit, c);
            if i == 0 then ListOf(db, f, limit, c) == Ok(pages[0])
            else pages[i - 1].next.Some? && ListOf(db, f, limit, pages[i - 1].next) == Ok(pages[i])
    decreases i
  {
    hide ListOf, Descending, Candidates, Pages, Accepted;
    PagesStep(db, f, limit, c);
    var page := ListOf(db, f, limit, c).value;
    if i > 0 {
      PageIs(db, f, limit, c);
      var rest := Pages(db, f, limit, page.next);
      assert Pages(db, f, limit, c)[i] == rest[i - 1];
      PagesWalk(db, f, limit, page.next, i - 1);
      if i == 1 { PagesWalk(db, f, limit, page.next, 0); } else { assert Pages(db, f, limit, c)[i - 1] == rest[i - 2]; }
    }
  }

  lemma StaticIsWalk(db: Db, f: Filters, limit: int)
    ensures var pages := Pages(db, f, limit, None);
            Walk(seq(|pages|, _ => db), f, limit, pages)
  {
    hide ListOf, Pages;
    var pages := Pages(db, f, limit, None);
    var dbs := seq(|pages|, _ => db);
    PagesSome(db, f, limit, None);
    PagesWalk(db, f, limit, None, 0);
    forall i | 0 <= i < |pages| - 1
      ensures pages[i].next.Some? && ListOf(dbs[i + 1], f, limit, pages[i].next) == Ok(pages[i + 1])
    {
      PagesWalk(db, f, limit, None, i + 1);
    }
    assert Walk(dbs, f, limit, pages);
  }

  lemma PagesSome(db: Db, f: Filters, limit: int, c: Option<Cursor>)
    requires Accepted(f, c)
    ensures |Pages(db, f, limit, c)| > 0
  {}

  lemma PagesStep(db: Db, f: Filters, limit: int, c: Option<Cursor>)
    requires Accepted(f, c)
    ensures ListOf(db, f, limit, c).Ok?
    ensures var page := ListOf(db, f, limit, c).value;
            if |Descending(db, Candidates(db, f, c))| <= Limit(limit) then Pages(db, f, limit, c) == [page]
            else Accepted(f, page.next) && Pages(db, f, limit, c) == [page] + Pages(db, f, limit, page.next)
  {
    hide Descending, Candidates;
    PageIs(db, f, limit, c);
    CandidatesAre(db, f, c);
    if |Descending(db, Candidates(db, f, c))| > Limit(limit) { RestIsNext(db, f, limit, c); }
  }

  lemma FlatStep(page: Page, rest: seq<Page>)
    ensures Flat([page] + rest) == page.ids + Flat(rest)
    ensures rest == [] ==> Flat([page]) == page.ids
  {
    assert ([page] + rest)[1..] == rest;
    assert [page][1..] == [] && page.ids + [] == page.ids;
  }

  lemma PageIs(db: Db, f: Filters, limit: int, c: Option<Cursor>)
    requires Accepted(f, c)
    ensures var all, n := Descending(db, Candidates(db, f, c)), Limit(limit);
            && ListOf(db, f, limit, c).Ok?
            && ListOf(db, f, limit, c).value.ids == (if |all| <= n then all else all[..n])
            && (ListOf(db, f, limit, c).value.next.Some? <==> |all| > n)
  {
    hide Descending;
    DescendingLists(db, Candidates(db, f, c));
  }

  /** On such a store the pages together are exactly the records that match, each once, in strictly descending order. */
  lemma StaticAnswers(db: Db, f: Filters, limit: int)
    ensures var all := Flat(Pages(db, f, limit, None));
            && Downwards(db, all) && (forall id :: id in all <==> id in db.memories && f.matches(db.memories[id]))
            && forall i, j | 0 <= i < j < |all| :: all[i] != all[j]
  {
    hide Descending, Flat, Pages, Downwards;
    StaticWalk(db, f, limit, None);
    DescendingLists(db, Candidates(db, f, None));
    CandidatesWanted(db, f, None);
    DownwardsAre(db, Descending(db, Candidates(db, f, None)));
  }
}
