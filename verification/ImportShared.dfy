/** Importing an export twice over a store that already holds some of its texts. Such a record is merged into
    the row that is there, and the second import compares that row with the export: exactly when it should
    differ is said here for a whole export. */
module ImportShared {
  import StoreInvariants
  import opened Wrappers
  import opened MemoryStore
  import opened MemoryImport

  predicate SameText(a: Record, b: Record) {
    && a.fields.Some? && b.fields.Some? && a.fields.value.user == b.fields.value.user
    && a.fields.value.project == b.fields.value.project && a.fields.value.text == b.fields.value.text
  }

  /** A live row in the record's scope with its text. */
  predicate Fits(row: Memory, r: Record) {
    && r.fields.Some? && LiveIn(row, r.fields.value.user, r.fields.value.project)
    && row.contentHash == Sha256(r.fields.value.text)
  }

  /** No id of the export is in the store. */
  ghost predicate NoIdShared(db: Db, records: seq<Record>) {
    forall id, i | id in db.memories && 0 <= i < |records| && records[i].fields.Some? ::
      records[i].mem0Id !in Mem0Ids(db.memories[id])
  }

  /** No two live records of one scope hold one text. */
  ghost predicate OneHash(db: Db) {
    forall a, b | a in db.memories && b in db.memories && a != b && !db.memories[a].Deleted()
                  && LiveIn(db.memories[b], db.memories[a].user, db.memories[a].project) ::
      db.memories[a].contentHash != db.memories[b].contentHash
  }

  ghost predicate HonestTexts(db: Db) {
    forall id | id in db.memories :: db.memories[id].contentHash == Sha256(db.memories[id].text)
  }

  /** What every transaction keeps gives both. */
  lemma ValidGives(db: Db)
    requires StoreInvariants.Valid(db) && StoreInvariants.Honest(db)
    ensures OneHash(db) && HonestTexts(db)
  {
    forall id | id in db.memories ensures db.memories[id].contentHash == Sha256(db.memories[id].text) {
      assert StoreInvariants.LogOf(db, id);
    }
  }

  /** What a merge leaves alone. */
  predicate SameBase(old_: Memory, row: Memory) {
    && row.user == old_.user && row.project == old_.project && row.contentHash == old_.contentHash
    && row.text == old_.text && row.kind == old_.kind && row.agent == old_.agent && row.Deleted() == old_.Deleted()
    && (Mem0Ids(row) == [] ==> row.extra == old_.extra)
    && (forall m | m in Mem0Ids(old_) :: m in Mem0Ids(row))
  }

  /** `m` is the id of one of the first `n` records, and the row is where its text belongs. */
  ghost predicate From(records: seq<Record>, n: nat, row: Memory, m: string)
    requires n <= |records|
  {
    exists i :: 0 <= i < n && records[i].mem0Id == m && Fits(row, records[i])
  }

  /** A row that only this record went into: as it made it, or as it was but for the list of ids. */
  ghost predicate Content(db0: Db, id: MemoryId, row: Memory, r: Record)
    requires r.fields.Some?
  {
    if id in db0.memories then row.extra == WithId(db0.memories[id].extra, [r.mem0Id])
    else SameAs(row, r.fields.value, WithId(r.fields.value.extra, [r.mem0Id]))
  }

  ghost predicate RowOver(db0: Db, records: seq<Record>, n: nat, id: MemoryId, row: Memory)
    requires n <= |records|
  {
    && (if id in db0.memories then SameBase(db0.memories[id], row) else !row.Deleted() && Mem0Ids(row) != [])
    && (forall m | m in Mem0Ids(row) ::
          From(records, n, row, m) || (id in db0.memories && m in Mem0Ids(db0.memories[id])))
    && (forall i | 0 <= i < n && records[i].fields.Some? && Members(Mem0Ids(row)) == {records[i].mem0Id} ::
          Content(db0, id, row, records[i]))
  }

  ghost predicate HeldSome(db: Db, r: Record) {
    exists id :: id in db.memories && r.mem0Id in Mem0Ids(db.memories[id])
  }

  /** After the first `n` records. */
  ghost predicate Over(db0: Db, db: Db, records: seq<Record>, n: nat)
    requires n <= |records|
  {
    && OneHash(db) && db0.memories.Keys <= db.memories.Keys
    && (forall id | id in db.memories :: RowOver(db0, records, n, id, db.memories[id]))
    && (forall i | 0 <= i < n && records[i].fields.Some? :: HeldSome(db, records[i]))
  }

  // ---- The first import --------------------------------------------------------------------

  lemma OverStarts(db0: Db, records: seq<Record>)
    requires OneHash(db0)
    ensures Over(db0, db0, records, 0)
  {}

  /** No row holds the next record's id yet. */
  lemma NextUnheld(db0: Db, db: Db, records: seq<Record>, n: nat)
    requires n < |records| && records[n].fields.Some? && Over(db0, db, records, n)
    requires NoIdShared(db0, records) && DistinctIds(records)
    ensures forall id | id in db.memories :: records[n].mem0Id !in Mem0Ids(db.memories[id])
  {
    hide OneHash, Content, SameBase, HeldSome;
    assert forall i | 0 <= i < n :: records[i].mem0Id != records[n].mem0Id;
    forall id | id in db.memories ensures records[n].mem0Id !in Mem0Ids(db.memories[id]) {
      assert RowOver(db0, records, n, id, db.memories[id]);
    }
  }

  /** A row the next record does not go into. */
  lemma RowStays(db0: Db, records: seq<Record>, n: nat, id: MemoryId, row: Memory)
    requires n < |records| && RowOver(db0, records, n, id, row) && records[n].mem0Id !in Mem0Ids(row)
    ensures RowOver(db0, records, n + 1, id, row)
  {
    hide SameBase, Content, Fits;
    forall m | From(records, n, row, m) ensures From(records, n + 1, row, m) {
      var i :| 0 <= i < n && records[i].mem0Id == m && Fits(row, records[i]);
    }
    assert records[n].mem0Id !in Members(Mem0Ids(row));
  }

  /** The row a record makes. */
  lemma RowMade(db0: Db, db: Db, issues: Issues, records: seq<Record>, n: nat, now: Time, newId: MemoryId)
    requires n < |records| && records[n].fields.Some? && newId !in db0.memories && DistinctIds(records)
    ensures RowOver(db0, records, n + 1, newId, FreshRow(db, RecordOf(issues, records[n]), None, now))
  {
    var r := records[n];
    var row := FreshRow(db, RecordOf(issues, r), None, now);
    SortOne([r.mem0Id], r.mem0Id);
    assert Mem0Ids(row) == [r.mem0Id];
    assert Fits(row, r);
    assert From(records, n + 1, row, r.mem0Id);
    assert r.mem0Id in Members(Mem0Ids(row));
  }

  /** The row a record is merged into. */
  lemma RowMerged(db0: Db, records: seq<Record>, n: nat, id: MemoryId, row: Memory, row': Memory)
    requires n < |records| && RowOver(db0, records, n, id, row) && Fits(row, records[n]) && DistinctIds(records)
    requires records[n].mem0Id !in Mem0Ids(row)
    requires row'.user == row.user && row'.project == row.project && row'.contentHash == row.contentHash
    requires row'.text == row.text && row'.kind == row.kind && row'.agent == row.agent && !row'.Deleted()
    requires row'.extra == WithId(row.extra, Mem0Ids(row) + [records[n].mem0Id])
    ensures RowOver(db0, records, n + 1, id, row')
  {
    hide Content;
    var m0, ids := records[n].mem0Id, Mem0Ids(row) + [records[n].mem0Id];
    assert Mem0Ids(row') == SortIds(ids);
    forall m ensures m in Mem0Ids(row') <==> m in Mem0Ids(row) || m == m0 {
      SortHas(ids, m);
      assert m in ids <==> m in Mem0Ids(row) || m == m0;
    }
    assert m0 in Mem0Ids(row') && m0 in Members(Mem0Ids(row'));
    forall m | m in Mem0Ids(row')
      ensures From(records, n + 1, row', m) || (id in db0.memories && m in Mem0Ids(db0.memories[id]))
    {
      if m == m0 {
        assert Fits(row', records[n]);
      } else if From(records, n, row, m) {
        var i :| 0 <= i < n && records[i].mem0Id == m && Fits(row, records[i]);
        assert Fits(row', records[i]);
      }
    }
    forall i | 0 <= i < n + 1 && records[i].fields.Some? && Members(Mem0Ids(row')) == {records[i].mem0Id}
      ensures Content(db0, id, row', records[i])
    {
      assert i == n;
      AloneMerged(db0, id, row, row', records[n]);
    }
  }

  lemma AloneMerged(db0: Db, id: MemoryId, row: Memory, row': Memory, r: Record)
    requires r.fields.Some? && r.mem0Id !in Mem0Ids(row)
    requires forall m :: m in Mem0Ids(row') <==> m in Mem0Ids(row) || m == r.mem0Id
    requires Members(Mem0Ids(row')) == {r.mem0Id}
    requires row'.extra == WithId(row.extra, Mem0Ids(row) + [r.mem0Id])
    requires if id in db0.memories then SameBase(db0.memories[id], row) else Mem0Ids(row) != []
    ensures Content(db0, id, row', r)
  {
    hide SameAs;
    assert Members(Mem0Ids(row)) <= Members(Mem0Ids(row'));
    assert r.mem0Id !in Members(Mem0Ids(row));
    assert Members(Mem0Ids(row)) == {};
    SomeMember(Mem0Ids(row));
    assert Mem0Ids(row) + [r.mem0Id] == [r.mem0Id];
  }

  lemma SomeMember(ids: seq<string>)
    ensures ids != [] ==> Members(ids) != {}
  {
    if ids != [] { assert ids[0] in Members(ids); }
  }

  lemma HeldOn(db: Db, db': Db, r: Record)
    requires HeldSome(db, r)
    requires forall id | id in db.memories ::
               id in db'.memories && forall m | m in Mem0Ids(db.memories[id]) :: m in Mem0Ids(db'.memories[id])
    ensures HeldSome(db', r)
  {
    var id :| id in db.memories && r.mem0Id in Mem0Ids(db.memories[id]);
    assert r.mem0Id in Mem0Ids(db'.memories[id]);
  }

  /** The merge of `m` into a row, in full. */
  lemma MergeIs(db: Db, id: MemoryId, m: string, now: Time)
    requires id in db.memories && !db.memories[id].Deleted() && m !in Mem0Ids(db.memories[id])
    ensures var row := db.memories[id]; var db' := UpdateTx(db, id, MergeOf(row, m), None, now).0;
            && id in db'.memories && db'.memories == db.memories[id := db'.memories[id]]
            && var row' := db'.memories[id];
               && row'.user == row.user && row'.project == row.project && row'.contentHash == row.contentHash
               && row'.text == row.text && row'.kind == row.kind && row'.agent == row.agent && !row'.Deleted()
               && row'.extra == WithId(row.extra, Mem0Ids(row) + [m]) && row'.version == row.version + 1
  {
    hide SortIds;
    var row := db.memories[id];
    SortHas(Mem0Ids(row) + [m], m);
    assert Merge(row, MergeOf(row, m)).extra == WithId(row.extra, Mem0Ids(row) + [m]);
    assert m in WithId(row.extra, Mem0Ids(row) + [m])[MEM0_IDS];
    assert Merge(row, MergeOf(row, m)) != row;
  }

  lemma CreatedOver(db0: Db, db: Db, db': Db, issues: Issues, records: seq<Record>, n: nat, now: Time, newId: MemoryId)
    requires n < |records| && records[n].fields.Some? && Over(db0, db, records, n) && DistinctIds(records)
    requires forall id | id in db.memories :: records[n].mem0Id !in Mem0Ids(db.memories[id])
    requires newId !in db.memories && db'.memories == db.memories[newId := FreshRow(db, RecordOf(issues, records[n]), None, now)]
    requires var f := records[n].fields.value; HashRows(db, f.user, f.project, Sha256(f.text)) == {}
    ensures Over(db0, db', records, n + 1)
  {
    hide RowOver, HeldSome;
    var f := records[n].fields.value;
    forall id | id in db'.memories ensures RowOver(db0, records, n + 1, id, db'.memories[id]) {
      if id == newId { RowMade(db0, db, issues, records, n, now, newId); } else { RowStays(db0, records, n, id, db.memories[id]); }
    }
    forall i | 0 <= i < n + 1 && records[i].fields.Some? ensures HeldSome(db', records[i]) {
      if i < n { HeldOn(db, db', records[i]); } else { MadeHolds(db, issues, records[n], now, db', newId); }
    }
    forall id | id in db.memories ensures id !in HashRows(db, f.user, f.project, Sha256(f.text)) {}
  }

  lemma MadeHolds(db: Db, issues: Issues, r: Record, now: Time, db': Db, newId: MemoryId)
    requires r.fields.Some? && newId in db'.memories && db'.memories[newId] == FreshRow(db, RecordOf(issues, r), None, now)
    ensures HeldSome(db', r)
  {
    SortOne([r.mem0Id], r.mem0Id);
    assert r.mem0Id in Mem0Ids(db'.memories[newId]);
  }

  lemma MergedOver(db0: Db, db: Db, records: seq<Record>, n: nat, now: Time, id: MemoryId)
    requires n < |records| && records[n].fields.Some? && Over(db0, db, records, n) && DistinctIds(records)
    requires forall o | o in db.memories :: records[n].mem0Id !in Mem0Ids(db.memories[o])
    requires id in db.memories && Fits(db.memories[id], records[n])
    ensures Over(db0, UpdateTx(db, id, MergeOf(db.memories[id], records[n].mem0Id), None, now).0, records, n + 1)
  {
    hide RowOver, HeldSome, UpdateTx;
    var m := records[n].mem0Id;
    var db' := UpdateTx(db, id, MergeOf(db.memories[id], m), None, now).0;
    MergeIs(db, id, m, now);
    forall o | o in db'.memories ensures RowOver(db0, records, n + 1, o, db'.memories[o]) {
      if o == id { RowMerged(db0, records, n, id, db.memories[id], db'.memories[id]); } else { RowStays(db0, records, n, o, db.memories[o]); }
    }
    MergedIds(db, db', id, m);
    forall i | 0 <= i < n + 1 && records[i].fields.Some? ensures HeldSome(db', records[i]) {
      if i < n { HeldOn(db, db', records[i]); } else { HeldNow(db', id, records[n]); }
    }
  }

  lemma HeldNow(db: Db, id: MemoryId, r: Record)
    requires id in db.memories && r.mem0Id in Mem0Ids(db.memories[id])
    ensures HeldSome(db, r)
  {}

  lemma MergedIds(db: Db, db': Db, id: MemoryId, m: string)
    requires id in db.memories && id in db'.memories && db'.memories == db.memories[id := db'.memories[id]]
    requires db'.memories[id].extra == WithId(db.memories[id].extra, Mem0Ids(db.memories[id]) + [m])
    ensures m in Mem0Ids(db'.memories[id])
    ensures forall o | o in db.memories ::
              o in db'.memories && forall x | x in Mem0Ids(db.memories[o]) :: x in Mem0Ids(db'.memories[o])
  {
    var ids := Mem0Ids(db.memories[id]) + [m];
    forall x | x in ids ensures x in Mem0Ids(db'.memories[id]) { SortHas(ids, x); }
  }

  lemma OverStep(db0: Db, db: Db, issues: Issues, records: seq<Record>, n: nat, now: Time, newId: MemoryId)
    requires n < |records| && Over(db0, db, records, n) && newId !in db.memories
    requires NoIdShared(db0, records) && DistinctIds(records)
    ensures Over(db0, ImportTx(db, issues, records[n], now, newId).0, records, n + 1)
  {
    hide AddTx, UpdateTx, RowOver, HeldSome, OneHash, NoIdShared;
    var r := records[n];
    if r.fields.None? {
      OverSkipped(db0, db, records, n);
    } else {
      NextUnheld(db0, db, records, n);
      assert HoldersOf(db, r.mem0Id) == {};
      var rec := RecordOf(issues, r);
      AddNames(db, rec, now, newId);
      var (db', result) := AddTx(db, rec, now, newId);
      if HashRows(db, rec.user, rec.project, rec.contentHash) == {} {
        CreatedOver(db0, db, db', issues, records, n, now, newId);
      } else {
        MergedOver(db0, db, records, n, now, result.value.id);
      }
    }
  }

  lemma OverSkipped(db0: Db, db: Db, records: seq<Record>, n: nat)
    requires n < |records| && records[n].fields.None? && Over(db0, db, records, n)
    ensures Over(db0, db, records, n + 1)
  {
    hide SameBase, Content, HeldSome, OneHash;
    forall id | id in db.memories ensures RowOver(db0, records, n + 1, id, db.memories[id]) {
      var row := db.memories[id];
      assert RowOver(db0, records, n, id, row);
      forall m | From(records, n, row, m) ensures From(records, n + 1, row, m) {
        var i :| 0 <= i < n && records[i].mem0Id == m && Fits(row, records[i]);
      }
    }
  }

  lemma {:induction false} OverRun(db0: Db, issues: Issues, records: seq<Record>, now: Time, newIds: seq<MemoryId>, n: nat)
    requires n <= |records| == |newIds| && OneHash(db0) && NoIdShared(db0, records) && DistinctIds(records)
    requires ImportAll(db0, issues, records[..n], now, newIds[..n]).Some?
    ensures Over(db0, ImportAll(db0, issues, records[..n], now, newIds[..n]).value, records, n)
  {
    hide ImportTx, NoIdShared, Over, OneHash;
    if n == 0 {
      OverStarts(db0, records);
    } else {
      assert records[..n][..n - 1] == records[..n - 1] && newIds[..n][..n - 1] == newIds[..n - 1];
      OverRun(db0, issues, records, now, newIds, n - 1);
      OverStep(db0, ImportAll(db0, issues, records[..n - 1], now, newIds[..n - 1]).value, issues, records, n - 1,
               now, newIds[n - 1]);
    }
  }

  // ---- The second import -------------------------------------------------------------------

  /** What decides whether the second import leaves record `i` alone, all of it known before the first: the
      live row that already has its text in its scope, if any, takes no other id, and then it must have the
      record's kind, agent and other columns. */
  ghost predicate Agrees(db0: Db, records: seq<Record>, i: nat)
    requires i < |records|
  {
    forall id | id in db0.memories && Fits(db0.memories[id], records[i]) && Mem0Ids(db0.memories[id]) == []
                && AloneText(records, i) ::
      var row, f := db0.memories[id], records[i].fields.value;
      row.kind == f.kind && row.agent == f.agent
      && WithId(row.extra, [records[i].mem0Id]) == WithId(f.extra, [records[i].mem0Id])
  }

  predicate AloneText(records: seq<Record>, i: nat)
    requires i < |records|
  {
    forall j | 0 <= j < |records| && j != i :: !SameText(records[i], records[j])
  }

  /** The row that holds a record after the first import. */
  lemma Holder(db0: Db, db: Db, records: seq<Record>, i: nat) returns (id: MemoryId)
    requires Over(db0, db, records, |records|) && NoIdShared(db0, records) && DistinctIds(records)
    requires i < |records| && records[i].fields.Some?
    ensures id in db.memories && Fits(db.memories[id], records[i]) && HoldersOf(db, records[i].mem0Id) == {id}
    ensures FindByMem0Id(db, records[i].mem0Id) == Some(id)
  {
    hide RowOver, OneHash, Fits, NoIdShared;
    var m := records[i].mem0Id;
    assert HeldSome(db, records[i]);
    id :| id in db.memories && m in Mem0Ids(db.memories[id]);
    HolderFits(db0, records, i, id, db.memories[id]);
    forall o | o in HoldersOf(db, m) ensures o == id {
      HolderFits(db0, records, i, o, db.memories[o]);
      OnlyFit(db, o, id, records[i]);
    }
    FitsLive(db.memories[id], records[i]);
    assert HoldersOf(db, m) == {id};
    assert (set o | o in HoldersOf(db, m) && !db.memories[o].Deleted()) == {id};
  }

  lemma OnlyFit(db: Db, a: MemoryId, b: MemoryId, r: Record)
    requires OneHash(db) && a in db.memories && b in db.memories && Fits(db.memories[a], r) && Fits(db.memories[b], r)
    ensures a == b
  {}

  lemma FitsLive(row: Memory, r: Record)
    requires Fits(row, r)
    ensures !row.Deleted()
  {}

  lemma HolderFits(db0: Db, records: seq<Record>, i: nat, id: MemoryId, row: Memory)
    requires RowOver(db0, records, |records|, id, row) && NoIdShared(db0, records) && DistinctIds(records)
    requires i < |records| && records[i].fields.Some? && records[i].mem0Id in Mem0Ids(row)
    ensures Fits(row, records[i])
  {
    hide SameBase, Content, Fits;
    var m := records[i].mem0Id;
    if id in db0.memories { assert m !in Mem0Ids(db0.memories[id]); }
    var j :| 0 <= j < |records| && records[j].mem0Id == m && Fits(row, records[j]);
    assert j == i;
  }

  /** The holder lists this record's id alone exactly when it is new or had no id, and no other record of the
      export has the text. */
  lemma SingleIff(db0: Db, db: Db, records: seq<Record>, i: nat, id: MemoryId)
    requires Over(db0, db, records, |records|) && NoIdShared(db0, records) && DistinctIds(records)
    requires i < |records| && records[i].fields.Some?
    requires id in db.memories && Fits(db.memories[id], records[i]) && HoldersOf(db, records[i].mem0Id) == {id}
    ensures |Members(Mem0Ids(db.memories[id]))| <= 1 <==>
              AloneText(records, i) && (id in db0.memories ==> Mem0Ids(db0.memories[id]) == [])
  {
    hide Content, HeldSome, OneHash, NoIdShared;
    var row, m := db.memories[id], records[i].mem0Id;
    assert RowOver(db0, records, |records|, id, row);
    assert m in Mem0Ids(row) by { assert id in HoldersOf(db, m); }
    if |Members(Mem0Ids(row))| <= 1 {
      OneMember(Mem0Ids(row), m);
      forall j | 0 <= j < |records| && j != i ensures !SameText(records[i], records[j]) {
        OtherHeld(db0, db, records, i, j, id);
      }
      if id in db0.memories {
        NotShared(db0, records, i, id);
        NoOldIds(db0.memories[id], row, m);
      }
    } else if AloneText(records, i) && (id in db0.memories ==> Mem0Ids(db0.memories[id]) == []) {
      forall x | x in Mem0Ids(row) ensures x == m {
        var j :| 0 <= j < |records| && records[j].mem0Id == x && Fits(row, records[j]);
        FitsSame(row, records[i], records[j]);
      }
      AllOne(Mem0Ids(row), m);
    }
  }

  lemma NoOldIds(old_: Memory, row: Memory, m: string)
    requires SameBase(old_, row) && m !in Mem0Ids(old_) && forall x | x in Mem0Ids(row) :: x == m
    ensures Mem0Ids(old_) == []
  {
    assert Members(Mem0Ids(old_)) == {};
    SomeMember(Mem0Ids(old_));
  }

  lemma NotShared(db0: Db, records: seq<Record>, i: nat, id: MemoryId)
    requires NoIdShared(db0, records) && i < |records| && records[i].fields.Some? && id in db0.memories
    ensures records[i].mem0Id !in Mem0Ids(db0.memories[id])
  {}

  lemma FitsSame(row: Memory, a: Record, b: Record)
    requires Fits(row, a) && Fits(row, b)
    ensures SameText(a, b)
  {
    assert Sha256(a.fields.value.text).text == a.fields.value.text;
  }

  lemma AllOne(ids: seq<string>, m: string)
    requires forall x | x in ids :: x == m
    ensures |Members(ids)| <= 1
  {
    assert Members(ids) <= {m};
    if m in Members(ids) { assert Members(ids) == {m}; } else { assert Members(ids) == {}; }
  }

  /** Another record with the text went into the same row. */
  lemma OtherHeld(db0: Db, db: Db, records: seq<Record>, i: nat, j: nat, id: MemoryId)
    requires Over(db0, db, records, |records|) && NoIdShared(db0, records) && DistinctIds(records)
    requires i < |records| && j < |records| && i != j && records[i].fields.Some?
    requires id in db.memories && Fits(db.memories[id], records[i])
    requires forall x | x in Mem0Ids(db.memories[id]) :: x == records[i].mem0Id
    ensures !SameText(records[i], records[j])
  {
    hide RowOver, HeldSome, NoIdShared;
    if records[j].fields.Some? {
      var o := Holder(db0, db, records, j);
      assert records[j].mem0Id in Mem0Ids(db.memories[o]) by { assert o in HoldersOf(db, records[j].mem0Id); }
      assert records[i].mem0Id != records[j].mem0Id;
      assert o != id;
    }
  }

  /** The holder is an old row exactly when an old row fits. */
  lemma OldHolder(db0: Db, db: Db, records: seq<Record>, i: nat, id: MemoryId)
    requires Over(db0, db, records, |records|) && i < |records| && records[i].fields.Some?
    requires id in db.memories && Fits(db.memories[id], records[i])
    ensures id in db0.memories ==> Fits(db0.memories[id], records[i])
    ensures forall o | o in db0.memories && Fits(db0.memories[o], records[i]) :: o == id
  {
    hide Content, HeldSome, OneHash;
    assert RowOver(db0, records, |records|, id, db.memories[id]);
    forall o | o in db0.memories && Fits(db0.memories[o], records[i]) ensures o == id {
      assert RowOver(db0, records, |records|, o, db.memories[o]);
      OnlyFit(db, o, id, records[i]);
    }
  }

  /** One record again: nothing is written exactly when it agrees; otherwise its row is rewritten. */
  lemma AgainOver(db0: Db, db: Db, issues: Issues, records: seq<Record>, i: nat, now: Time, newId: MemoryId)
    requires Over(db0, db, records, |records|) && NoIdShared(db0, records) && DistinctIds(records) && HonestTexts(db0)
    requires i < |records| && newId !in db.memories
    ensures var db' := ImportTx(db, issues, records[i], now, newId).0;
            if records[i].fields.None? || Agrees(db0, records, i) then db' == db
            else exists id :: id in db.memories && id in db'.memories && db'.memories[id].version > db.memories[id].version
  {
    hide Over, NoIdShared, OneHash, AddTx, UpdateTx, WithId, Fits, Agrees, AloneText, SameAs;
    var r := records[i];
    if r.fields.Some? {
      var id := Holder(db0, db, records, i);
      FitsLive(db.memories[id], r);
      SingleIff(db0, db, records, i, id);
      OldHolder(db0, db, records, i, id);
      var row, f := db.memories[id], r.fields.value;
      assert r.mem0Id in Mem0Ids(row) by { assert id in HoldersOf(db, r.mem0Id); }
      if |Members(Mem0Ids(row))| > 1 {
        AgreesMany(db0, records, i, id);
      } else {
        OneMember(Mem0Ids(row), r.mem0Id);
        SameList(f.extra, Mem0Ids(row), r.mem0Id);
        AgreesOne(db0, db, records, i, id);
        assert OneHash(db) by { OverHash(db0, db, records, |records|); }
        FittingRows(db, id, r);
        UpdateWrites(db, issues, id, f, WithId(f.extra, Mem0Ids(row) + [r.mem0Id]), now);
      }
    }
  }

  lemma AgreesMany(db0: Db, records: seq<Record>, i: nat, id: MemoryId)
    requires i < |records| && records[i].fields.Some?
    requires forall o | o in db0.memories && Fits(db0.memories[o], records[i]) :: o == id
    requires !(AloneText(records, i) && (id in db0.memories ==> Mem0Ids(db0.memories[id]) == []))
    ensures Agrees(db0, records, i)
  {
    hide Fits, AloneText, WithId;
  }

  /** With its id alone in the row, a record agrees exactly when the row is as it would make it. */
  lemma AgreesOne(db0: Db, db: Db, records: seq<Record>, i: nat, id: MemoryId)
    requires Over(db0, db, records, |records|) && HonestTexts(db0) && i < |records| && records[i].fields.Some?
    requires id in db.memories && Fits(db.memories[id], records[i]) && AloneText(records, i)
    requires Members(Mem0Ids(db.memories[id])) == {records[i].mem0Id}
    requires forall o | o in db0.memories && Fits(db0.memories[o], records[i]) :: o == id
    requires id in db0.memories ==> Fits(db0.memories[id], records[i]) && Mem0Ids(db0.memories[id]) == []
    ensures Agrees(db0, records, i)
            <==> SameAs(db.memories[id], records[i].fields.value, WithId(records[i].fields.value.extra, [records[i].mem0Id]))
  {
    hide AloneText, WithId, OneHash, HeldSome;
    assert RowOver(db0, records, |records|, id, db.memories[id]);
    if id in db0.memories {
      assert db0.memories[id].contentHash == Sha256(db0.memories[id].text);
      assert Sha256(db0.memories[id].text).text == Sha256(records[i].fields.value.text).text;
    }
  }

  lemma OverHash(db0: Db, db: Db, records: seq<Record>, n: nat)
    requires n <= |records| && Over(db0, db, records, n)
    ensures OneHash(db)
  {}

  lemma FittingRows(db: Db, id: MemoryId, r: Record)
    requires OneHash(db) && id in db.memories && Fits(db.memories[id], r)
    ensures HashRows(db, db.memories[id].user, db.memories[id].project, Sha256(r.fields.value.text)) <= {id}
  {}

  /** No import lowers a version or removes a record. */
  lemma NeverLower(db: Db, issues: Issues, r: Record, now: Time, newId: MemoryId)
    requires newId !in db.memories
    ensures var db' := ImportTx(db, issues, r, now, newId).0;
            forall id | id in db.memories :: id in db'.memories && db.memories[id].version <= db'.memories[id].version
  {
    hide AddTx, UpdateTx, HashRows;
    if r.fields.Some? && FindByMem0Id(db, r.mem0Id).Some? {
      var row, f := db.memories[FindByMem0Id(db, r.mem0Id).value], r.fields.value;
      UpdateRaises(db, FindByMem0Id(db, r.mem0Id).value, UpdateOf(issues, f, WithId(f.extra, Mem0Ids(row) + [r.mem0Id])), now);
    } else if r.fields.Some? {
      var rec := RecordOf(issues, r);
      AddNames(db, rec, now, newId);
      var (db', result) := AddTx(db, rec, now, newId);
      UpdateRaises(db', result.value.id, MergeOf(db'.memories[result.value.id], r.mem0Id), now);
    }
  }

  lemma UpdateRaises(db: Db, id: MemoryId, ch: Changes, now: Time)
    ensures var db' := UpdateTx(db, id, ch, None, now).0;
            forall o | o in db.memories :: o in db'.memories && db.memories[o].version <= db'.memories[o].version
  {
    hide Rivals;
  }

  /** As far as the records agree nothing is written; after one that does not, some version has risen. */
  lemma {:induction false} AgainAll(db0: Db, once: Db, issues: Issues, records: seq<Record>, now: Time,
                                    newIds: seq<MemoryId>, n: nat)
    requires n <= |records| == |newIds| && Over(db0, once, records, |records|)
    requires NoIdShared(db0, records) && DistinctIds(records) && HonestTexts(db0)
    requires ImportAll(once, issues, records[..n], now, newIds[..n]).Some?
    ensures var db := ImportAll(once, issues, records[..n], now, newIds[..n]).value;
            if forall i | 0 <= i < n && records[i].fields.Some? :: Agrees(db0, records, i) then db == once
            else exists id :: id in once.memories && id in db.memories && db.memories[id].version > once.memories[id].version
  {
    hide ImportTx, Over, NoIdShared, HonestTexts, Agrees;
    if n > 0 {
      assert records[..n][..n - 1] == records[..n - 1] && newIds[..n][..n - 1] == newIds[..n - 1];
      AgainAll(db0, once, issues, records, now, newIds, n - 1);
      var db := ImportAll(once, issues, records[..n - 1], now, newIds[..n - 1]).value;
      if forall i | 0 <= i < n - 1 && records[i].fields.Some? :: Agrees(db0, records, i) {
        AgainOver(db0, once, issues, records, n - 1, now, newIds[n - 1]);
      } else {
        NeverLower(db, issues, records[n - 1], now, newIds[n - 1]);
      }
    }
  }

  /** A whole export over a store that may hold some of its texts, though none of its ids: the second import
      writes nothing exactly when every record agrees, which the store and the export decide beforehand. */
  lemma SecondImportIff(db0: Db, issues: Issues, records: seq<Record>, now: Time, newIds: seq<MemoryId>, later: Time,
                        moreIds: seq<MemoryId>)
    requires |records| == |newIds| == |moreIds| && DistinctIds(records)
    requires OneHash(db0) && HonestTexts(db0) && NoIdShared(db0, records)
    requires ImportAll(db0, issues, records, now, newIds).Some?
    requires ImportAll(ImportAll(db0, issues, records, now, newIds).value, issues, records, later, moreIds).Some?
    ensures var once := ImportAll(db0, issues, records, now, newIds).value;
            ImportAll(once, issues, records, later, moreIds) == Some(once)
            <==> forall i | 0 <= i < |records| && records[i].fields.Some? :: Agrees(db0, records, i)
  {
    hide ImportTx, ImportAll, Over, OneHash, NoIdShared, HonestTexts, Agrees;
    assert records[..|records|] == records && newIds[..|newIds|] == newIds && moreIds[..|moreIds|] == moreIds;
    OverRun(db0, issues, records, now, newIds, |records|);
    AgainAll(db0, ImportAll(db0, issues, records, now, newIds).value, issues, records, later, moreIds, |records|);
  }

  /** So it is for every store the transactions have made. */
  lemma StoreImportIff(db0: Db, issues: Issues, records: seq<Record>, now: Time, newIds: seq<MemoryId>, later: Time,
                       moreIds: seq<MemoryId>)
    requires StoreInvariants.Valid(db0) && StoreInvariants.Honest(db0)
    requires |records| == |newIds| == |moreIds| && DistinctIds(records) && NoIdShared(db0, records)
    requires ImportAll(db0, issues, records, now, newIds).Some?
    requires ImportAll(ImportAll(db0, issues, records, now, newIds).value, issues, records, later, moreIds).Some?
    ensures var once := ImportAll(db0, issues, records, now, newIds).value;
            ImportAll(once, issues, records, later, moreIds) == Some(once)
            <==> forall i | 0 <= i < |records| && records[i].fields.Some? :: Agrees(db0, records, i)
  {
    hide ImportAll, OneHash, HonestTexts, NoIdShared, Agrees, StoreInvariants.Valid, StoreInvariants.Honest;
    ValidGives(db0);
    SecondImportIff(db0, issues, records, now, newIds, later, moreIds);
  }

  const HELD := Memory("u", "p", 0, "a", "fact", Active, None, Sha256("t"), "t", map[], [], {}, "", 0, None, 1, 1)

  const HOLDER := Db(map[0 := HELD], map[(0, 1) := HELD], map[], Meta(None, None, None, 1), 2)

  const OTHER_KIND := Record("m", Some(Fields("t", "p", "preference", "a", 0, 0, "u", map[])))

  lemma HolderValid()
    ensures StoreInvariants.Valid(HOLDER) && StoreInvariants.Honest(HOLDER)
  {}

  lemma HolderRows()
    ensures HashRows(HOLDER, "u", "p", Sha256("t")) == {0} && HoldersOf(HOLDER, "m") == {}
  {}

  /** One record of the export, whose text the store holds as another kind: the second import writes. */
  lemma SharedTextWrites(issues: Issues, now: Time, later: Time)
    ensures var once := ImportAll(HOLDER, issues, [OTHER_KIND], now, [1]);
            && StoreInvariants.Valid(HOLDER) && StoreInvariants.Honest(HOLDER) && once.Some?
            && ImportAll(once.value, issues, [OTHER_KIND], later, [1]).Some?
            && ImportAll(once.value, issues, [OTHER_KIND], later, [1]) != once
  {
    hide ImportTx, WithId, StoreInvariants.Valid, StoreInvariants.Honest, HashRows, HoldersOf;
    HolderValid();
    HolderRows();
    MergedOnce(HOLDER, issues, OTHER_KIND, 0, now, 1);
    assert [OTHER_KIND][..0] == [] && [1][..0] == [];
    SharedTextIff(HOLDER, issues, OTHER_KIND, 0, now, 1, later, 1);
  }
}
