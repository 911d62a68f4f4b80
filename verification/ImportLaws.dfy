/** What one imported record leaves in every column, and the list of export ids, said of the stored fields alone. */
module ImportLaws {
  import opened Wrappers
  import opened MemoryStore
  import opened StoreInvariants
  import opened StoreLaws
  import opened MemoryImport

  // ---- The list of ids --------------------------------------------------------------------

  lemma {:induction false} LessOn(a: string, b: string, c: string)
    requires Less(a, b) && Less(b, c)
    ensures Less(a, c)
  {
    if a != [] && b != [] && c != [] && a[0] == b[0] && b[0] == c[0] { LessOn(a[1..], b[1..], c[1..]); }
  }

  lemma {:induction false} LessTotal(a: string, b: string)
    ensures Less(a, b) || Less(b, a) || a == b
    ensures !(Less(a, b) && Less(b, a)) && !Less(a, a)
  {
    if a != [] { LessTotal(a[1..], a[1..]); }
    if a != [] && b != [] && a[0] == b[0] {
      LessTotal(a[1..], b[1..]);
      if a[1..] == b[1..] { assert a == [a[0]] + a[1..] && b == [b[0]] + b[1..]; }
    }
  }

  /** Code point order: at the first place they differ, or by length where they do not. */
  lemma {:induction false} LessIs(head: string, a: string, b: string)
    requires a != [] && b != [] ==> a[0] != b[0]
    ensures Less(head + a, head + b) <==> b != [] && (a == [] || a[0] < b[0])
  {
    if head == [] {
      assert head + a == a && head + b == b;
    } else {
      assert (head + a)[1..] == head[1..] + a && (head + b)[1..] == head[1..] + b;
      LessIs(head[1..], a, b);
    }
  }

  predicate Rising(s: seq<string>) { forall i, j | 0 <= i < j < |s| :: Less(s[i], s[j]) }

  lemma {:induction false} InsertRises(s: seq<string>, x: string)
    requires Rising(s)
    ensures Rising(InsertId(s, x)) && forall y :: y in InsertId(s, x) <==> y in s || y == x
  {
    hide Less;
    forall y { InsertHas(s, x, y); }
    if s != [] {
      var n := |s| - 1;
      LessTotal(x, s[n]);
      if x != s[n] && Less(x, s[n]) {
        InsertRises(s[..n], x);
        var t := InsertId(s[..n], x);
        forall i | 0 <= i < |t| ensures Less(t[i], s[n]) {
          assert t[i] in t;
          if t[i] != x {
            assert t[i] in s[..n];
            var k :| 0 <= k < n && s[..n][k] == t[i];
            assert Less(s[k], s[n]);
          }
        }
      } else if x != s[n] {
        forall i | 0 <= i < n ensures Less(s[i], x) { LessOn(s[i], s[n], x); }
      }
    }
  }

  /** The stored list holds each id once, in code point order. */
  lemma {:induction false} SortedIds(ids: seq<string>)
    ensures Rising(SortIds(ids)) && forall x :: x in SortIds(ids) <==> x in ids
  {
    hide Less, InsertId;
    if ids != [] {
      var n := |ids| - 1;
      SortedIds(ids[..n]);
      InsertRises(SortIds(ids[..n]), ids[n]);
      assert ids == ids[..n] + [ids[n]];
    }
  }

  /** `extra` with exactly these ids listed, and every other key as it was. */
  ghost predicate Lists(extra: Extra, was: Extra, ids: set<string>) {
    && extra.Keys == was.Keys + {"mem0_ids"} && (forall k | k in extra && k != "mem0_ids" :: extra[k] == was[k])
    && Rising(extra["mem0_ids"]) && (forall x :: x in extra["mem0_ids"] <==> x in ids)
  }

  lemma WithIdLists(extra: Extra, ids: seq<string>)
    ensures Lists(WithId(extra, ids), extra, set x | x in ids)
  {
    SortedIds(ids);
  }

  // ---- Which record -------------------------------------------------------------------------

  predicate HoldsId(row: Memory, m: string) { "mem0_ids" in row.extra && m in row.extra["mem0_ids"] }

  /** The record that holds an export id: a live one if any, the lowest id of those. */
  lemma FindIs(db: Db, m: string)
    ensures match FindByMem0Id(db, m)
            case None => forall id | id in db.memories :: !HoldsId(db.memories[id], m)
            case Some(id) =>
              && id in db.memories && HoldsId(db.memories[id], m)
              && (forall o | o in db.memories && HoldsId(db.memories[o], m) && db.memories[o].deletedAt.None? ::
                    db.memories[id].deletedAt.None? && id <= o)
              && (forall o | o in db.memories && HoldsId(db.memories[o], m) && db.memories[id].deletedAt.Some? :: id <= o)
  {
    var holders := HoldersOf(db, m);
    forall id ensures id in holders <==> id in db.memories && HoldsId(db.memories[id], m) {}
    var live := set id | id in holders && !db.memories[id].Deleted();
    if live != {} {
      var id := MinOf(live);
      assert FindByMem0Id(db, m) == Some(id) && id in live && id in holders;
      forall o | o in db.memories && HoldsId(db.memories[o], m) && db.memories[o].deletedAt.None? ensures id <= o {
        assert o in holders && o in live;
      }
    } else {
      forall o | o in holders ensures db.memories[o].deletedAt.Some? { assert o !in live; }
      if holders != {} {
        var id := MinOf(holders);
        assert FindByMem0Id(db, m) == Some(id) && id in holders;
      }
    }
  }

  // ---- One record ---------------------------------------------------------------------------

  /** A new record from an export one. */
  ghost predicate ImportedFrom(row: Memory, r: Record, issues: Issues)
    requires r.fields.Some?
  {
    var f := r.fields.value;
    && row.text == f.text && row.contentHash == Sha256(f.text) && row.user == f.user && row.project == f.project
    && row.agent == f.agent && row.kind == f.kind && row.status == Active && row.topicKey.None? && row.issueIds == issues(f.text)
    && row.supersedes == {} && row.source == "" && row.createdAt == f.created && row.updatedAt == f.updated
    && row.deletedAt.None? && row.version == 1 && Lists(row.extra, f.extra, {r.mem0Id})
  }

  /** The record was there alone under this id, and takes the export's text, type, agent and other columns. */
  ghost predicate RewrittenFrom(row: Memory, was: Memory, r: Record, issues: Issues)
    requires r.fields.Some?
  {
    var f := r.fields.value;
    && row.text == f.text && row.contentHash == Sha256(f.text) && row.kind == f.kind && row.agent == f.agent
    && SameIssues(row.issueIds, was.issueIds, issues(f.text)) && row.updatedAt == f.updated && row.version == was.version + 1
    && Lists(row.extra, f.extra, {r.mem0Id} + Members(Mem0Ids(was)))
    && row.user == was.user && row.project == was.project && row.status == was.status && row.topicKey == was.topicKey
    && row.createdAt == was.createdAt && row.deletedAt == was.deletedAt && row.supersedes == was.supersedes
    && row.source == was.source
  }

  /** What one record of an export leaves, by its outcome. */
  ghost predicate ImportLeaves(db: Db, db': Db, issues: Issues, r: Record, newId: MemoryId, outcome: ImportOutcome) {
    match outcome
    case Imported =>
      && r.fields.Some? && newId in db'.memories && ImportedFrom(db'.memories[newId], r, issues)
      && db'.memories == db.memories[newId := db'.memories[newId]]
      && (forall o | o in db.memories :: !HoldsId(db.memories[o], r.mem0Id))
    case Rewritten =>
      r.fields.Some? && exists id :: id in db.memories && id in db'.memories && RewrittenAt(db, db', issues, r, id)
    case Merged =>
      r.fields.Some? && exists id :: id in db.memories && id in db'.memories && MergedInto(db, db', r, id)
    case NoChange => db' == db && r.fields.Some? && exists id :: id in db.memories && LeftAlone(db, r, id)
    case Skipped =>
      && db' == db
      && (r.fields.Some? ==>
            exists id :: id in db.memories && HoldsId(db.memories[id], r.mem0Id)
                         && (db.memories[id].deletedAt.Some? || |Members(Mem0Ids(db.memories[id]))| == 1))
  }

  /** Several export ids, or already as the export has it. */
  ghost predicate LeftAlone(db: Db, r: Record, id: MemoryId)
    requires id in db.memories && r.fields.Some?
  {
    var row, f := db.memories[id], r.fields.value;
    && HoldsId(row, r.mem0Id) && row.deletedAt.None?
    && (|Members(Mem0Ids(row))| > 1
        || (row.text == f.text && row.kind == f.kind && row.agent == f.agent
            && Lists(row.extra, f.extra, {r.mem0Id} + Members(Mem0Ids(row)))))
  }

  ghost predicate RewrittenAt(db: Db, db': Db, issues: Issues, r: Record, id: MemoryId)
    requires id in db.memories && id in db'.memories && r.fields.Some?
  {
    && HoldsId(db.memories[id], r.mem0Id) && db.memories[id].deletedAt.None? && |Members(Mem0Ids(db.memories[id]))| == 1
    && RewrittenFrom(db'.memories[id], db.memories[id], r, issues)
    && db'.memories == db.memories[id := db'.memories[id]]
  }

  /** A record with the text was there: it has the id too now, and its time is as it was. */
  ghost predicate MergedInto(db: Db, db': Db, r: Record, id: MemoryId)
    requires id in db.memories && id in db'.memories && r.fields.Some?
  {
    var was, row, f := db.memories[id], db'.memories[id], r.fields.value;
    && was.deletedAt.None? && was.user == f.user && was.project == f.project && was.contentHash == Sha256(f.text)
    && (forall o | o in db.memories :: !HoldsId(db.memories[o], r.mem0Id))
    && Lists(row.extra, was.extra, {r.mem0Id} + Members(Mem0Ids(was)))
    && row == was.(extra := row.extra, version := was.version + 1, changeSeq := row.changeSeq)
    && db'.memories == db.memories[id := row]
  }

  /** The outcome says what was done, column by column. */
  lemma ImportIs(db: Db, issues: Issues, r: Record, now: Time, newId: MemoryId)
    requires Valid(db) && newId !in db.memories
    ensures var (db', outcome) := ImportTx(db, issues, r, now, newId); ImportLeaves(db, db', issues, r, newId, outcome)
  {
    hide Valid, AddTx, UpdateTx, ImportLeaves;
    if r.fields.Some? {
      FindIs(db, r.mem0Id);
      var found := FindByMem0Id(db, r.mem0Id);
      if found.Some? { AgainIs(db, issues, r, now, newId, found.value); } else { FirstIs(db, issues, r, now, newId); }
    } else {
      SkipLeaves(db, issues, r, newId);
    }
  }

  lemma OneHeld(row: Memory, m: string)
    requires HoldsId(row, m) && |Members(Mem0Ids(row))| <= 1
    ensures |Members(Mem0Ids(row))| == 1
  {
    assert m in Members(Mem0Ids(row));
  }

  lemma MoreIds(was: Extra, ids: seq<string>, m: string)
    ensures Lists(WithId(was, ids + [m]), was, {m} + Members(ids))
  {
    WithIdLists(was, ids + [m]);
    assert (set x | x in ids + [m]) == {m} + Members(ids);
  }

  lemma AgainIs(db: Db, issues: Issues, r: Record, now: Time, newId: MemoryId, id: MemoryId)
    requires Valid(db) && newId !in db.memories && r.fields.Some?
    requires FindByMem0Id(db, r.mem0Id) == Some(id) && id in db.memories && HoldsId(db.memories[id], r.mem0Id)
    ensures var (db', outcome) := ImportTx(db, issues, r, now, newId); ImportLeaves(db, db', issues, r, newId, outcome)
  {
    hide Valid, AddTx, UpdateTx, Lists, WithId, FindByMem0Id;
    var row, f := db.memories[id], r.fields.value;
    var extra := WithId(f.extra, Mem0Ids(row) + [r.mem0Id]);
    MoreIds(f.extra, Mem0Ids(row), r.mem0Id);
    if !row.Deleted() && |Members(Mem0Ids(row))| <= 1 {
      OneHeld(row, r.mem0Id);
      if !SameAs(row, f, extra) { RewriteIs(db, issues, r, now, id); }
    }
  }

  lemma RewriteIs(db: Db, issues: Issues, r: Record, now: Time, id: MemoryId)
    requires Valid(db) && r.fields.Some? && id in db.memories && HoldsId(db.memories[id], r.mem0Id)
    requires db.memories[id].deletedAt.None? && |Members(Mem0Ids(db.memories[id]))| == 1
    requires !SameAs(db.memories[id], r.fields.value, WithId(r.fields.value.extra, Mem0Ids(db.memories[id]) + [r.mem0Id]))
    ensures var f := r.fields.value;
            var (db', w) := UpdateTx(db, id, UpdateOf(issues, f, WithId(f.extra, Mem0Ids(db.memories[id]) + [r.mem0Id])), None, now);
            if w.Ok? then id in db'.memories && RewrittenAt(db, db', issues, r, id) else db' == db
  {
    hide Valid, UpdateTx, Lists, WithId, Kept, Members;
    var row, f := db.memories[id], r.fields.value;
    var ch := UpdateOf(issues, f, WithId(f.extra, Mem0Ids(row) + [r.mem0Id]));
    MoreIds(f.extra, Mem0Ids(row), r.mem0Id);
    UpdateColumns(db, id, ch, None, now);
    var (db', w) := UpdateTx(db, id, ch, None, now);
    if w.Ok? && w.value.outcome != Unchanged { OthersSame(db, db', id); }
  }

  lemma OthersSame(db: Db, db': Db, id: MemoryId)
    requires id in db.memories && OnlyRewritten(db, db', id)
    ensures db'.memories == db.memories[id := db'.memories[id]]
  {
    forall o | o in db.memories && o != id ensures db'.memories[o] == db.memories[o] { assert Kept(db, db', o); }
  }

  lemma FirstIs(db: Db, issues: Issues, r: Record, now: Time, newId: MemoryId)
    requires Valid(db) && newId !in db.memories && r.fields.Some? && FindByMem0Id(db, r.mem0Id).None?
    requires forall id | id in db.memories :: !HoldsId(db.memories[id], r.mem0Id)
    ensures var (db', outcome) := ImportTx(db, issues, r, now, newId); ImportLeaves(db, db', issues, r, newId, outcome)
  {
    hide Valid, AddTx, UpdateTx, Lists, WithId, FindByMem0Id, MergedInto, ImportedFrom;
    var rec := RecordOf(issues, r);
    AddNames(db, rec, now, newId);
    var (db1, w) := AddTx(db, rec, now, newId);
    if HashRows(db, rec.user, rec.project, rec.contentHash) == {} {
      NewIs(db, issues, r, now);
    } else {
      assert w.value.id in HashRows(db, rec.user, rec.project, rec.contentHash);
      MergeIs(db, r, now, w.value.id);
    }
  }

  lemma NewIs(db: Db, issues: Issues, r: Record, now: Time)
    requires r.fields.Some?
    ensures ImportedFrom(FreshRow(db, RecordOf(issues, r), None, now), r, issues)
  {
    WithIdLists(r.fields.value.extra, [r.mem0Id]);
    assert (set x | x in [r.mem0Id]) == {r.mem0Id};
  }

  lemma MergeIs(db: Db, r: Record, now: Time, id: MemoryId)
    requires Valid(db) && r.fields.Some? && (forall o | o in db.memories :: !HoldsId(db.memories[o], r.mem0Id))
    requires id in HashRows(db, r.fields.value.user, r.fields.value.project, Sha256(r.fields.value.text))
    ensures var (db', w) := UpdateTx(db, id, MergeOf(db.memories[id], r.mem0Id), None, now);
            w.Ok? && id in db'.memories && MergedInto(db, db', r, id)
  {
    hide Valid, UpdateTx, Lists, WithId, Kept, Members;
    var row := db.memories[id];
    var ch := MergeOf(row, r.mem0Id);
    MoreIds(row.extra, Mem0Ids(row), r.mem0Id);
    assert WithId(row.extra, Mem0Ids(row) + [r.mem0Id]) != row.extra by { ListedNow(row, r.mem0Id); }
    UpdateColumns(db, id, ch, None, now);
    var (db', w) := UpdateTx(db, id, ch, None, now);
    if w.Err? && w.error.Conflict? { NoClash(db, id, ch, w.error.ids); }
    OthersSame(db, db', id);
  }

  lemma ListedNow(row: Memory, m: string)
    requires !HoldsId(row, m) && Lists(WithId(row.extra, Mem0Ids(row) + [m]), row.extra, {m} + Members(Mem0Ids(row)))
    ensures WithId(row.extra, Mem0Ids(row) + [m]) != row.extra
  {
    hide WithId;
    assert m in WithId(row.extra, Mem0Ids(row) + [m])["mem0_ids"];
  }

  /** An update that names neither text nor key clashes with nothing. */
  lemma NoClash(db: Db, id: MemoryId, ch: Changes, ids: set<MemoryId>)
    requires id in db.memories && ch.text.None? && ch.contentHash.None? && ch.topicKey.None?
    ensures !ClashesOf(db, id, ch, ids)
  {
    if o :| o in ids && o != id { assert ids != {id}; } else { assert id in ids ==> ids == {id}; }
  }

  lemma SkipLeaves(db: Db, issues: Issues, r: Record, newId: MemoryId)
    requires r.fields.None?
    ensures ImportLeaves(db, db, issues, r, newId, Skipped)
  {}
}
