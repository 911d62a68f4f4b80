/** The import of an exported memory file. A record is found again by the export's id kept in its
    `extra`, so importing the same file twice writes nothing the second time. */
module MemoryImport {
  import opened Wrappers
  import opened MemoryStore

  const MEM0_IDS := "mem0_ids"

  /** A raw record's mapping to store fields. */
  datatype Fields = Fields(text: string, project: string, kind: string, agent: string, created: Time,
                           updated: Time, user: string, extra: Extra)

  /** An export record; `fields` is none when it cannot be placed or its text is refused. */
  datatype Record = Record(mem0Id: string, fields: Option<Fields>)

  datatype ImportOutcome = Imported | Merged | Rewritten | NoChange | Skipped

  type Issues = string -> seq<string>

  // ---- The list of export ids -------------------------------------------------------------

  function InsertId(s: seq<string>, x: string): seq<string> {
    if s == [] then [x]
    else if s[|s| - 1] == x then s
    else if Less(x, s[|s| - 1]) then InsertId(s[..|s| - 1], x) + [s[|s| - 1]]
    else s + [x]
  }

  /** `sorted(set(ids))`. */
  function SortIds(ids: seq<string>): seq<string> {
    if ids == [] then [] else InsertId(SortIds(ids[..|ids| - 1]), ids[|ids| - 1])
  }

  function WithId(extra: Extra, ids: seq<string>): Extra { extra[MEM0_IDS := SortIds(ids)] }

  function Mem0Ids(row: Memory): seq<string> { if MEM0_IDS in row.extra then row.extra[MEM0_IDS] else [] }

  function Members(s: seq<string>): set<string> { set x | x in s }

  lemma {:induction false} InsertHas(s: seq<string>, x: string, y: string)
    ensures y in InsertId(s, x) <==> y in s || y == x
  {
    if s != [] {
      var front, last := s[..|s| - 1], s[|s| - 1];
      assert s == front + [last];
      InsertHas(front, x, y);
    }
  }

  lemma {:induction false} SortHas(ids: seq<string>, y: string)
    ensures y in SortIds(ids) <==> y in ids
  {
    if ids != [] {
      var front, last := ids[..|ids| - 1], ids[|ids| - 1];
      assert ids == front + [last];
      SortHas(front, y);
      InsertHas(SortIds(front), last, y);
    }
  }

  /** One id, however often it is listed, sorts to itself. */
  lemma {:induction false} SortOne(ids: seq<string>, x: string)
    requires forall y | y in ids :: y == x
    ensures SortIds(ids) == if ids == [] then [] else [x]
  {
    if ids != [] {
      var front := ids[..|ids| - 1];
      assert ids[|ids| - 1] in ids;
      forall y | y in front ensures y == x { assert y in ids; }
      SortOne(front, x);
    }
  }

  // ---- One record -------------------------------------------------------------------------

  function HoldersOf(db: Db, m: string): set<MemoryId> {
    set id | id in db.memories && m in Mem0Ids(db.memories[id])
  }

  /** The record that holds an export id, a live one first. */
  function FindByMem0Id(db: Db, m: string): Option<MemoryId> {
    var holders := HoldersOf(db, m);
    var live := set id | id in holders && !db.memories[id].Deleted();
    if live != {} then Some(MinOf(live)) else FirstOf(holders)
  }

  function RecordOf(issues: Issues, r: Record): NewMemory
    requires r.fields.Some?
  {
    var f := r.fields.value;
    NewMemory(f.text, f.agent, f.project, f.kind, Sha256(f.text), f.user, Active, None,
              WithId(f.extra, [r.mem0Id]), issues(f.text), {}, "", Some(f.created), Some(f.updated))
  }

  /** What an update of an earlier import compares and writes. */
  predicate SameAs(row: Memory, f: Fields, extra: Extra) {
    row.text == f.text && row.kind == f.kind && row.agent == f.agent && row.extra == extra
  }

  function UpdateOf(issues: Issues, f: Fields, extra: Extra): Changes {
    NO_CHANGES.(text := Some(f.text), contentHash := Some(Sha256(f.text)), kind := Some(f.kind), agent := Some(f.agent),
                extra := Some(extra), issueIds := Some(issues(f.text)), updatedAt := Some(f.updated))
  }

  function MergeOf(row: Memory, m: string): Changes {
    NO_CHANGES.(extra := Some(WithId(row.extra, Mem0Ids(row) + [m])), updatedAt := Some(row.updatedAt))
  }

  /** An add that supersedes nothing: the created, or the found, record, and nothing else changed. */
  lemma AddNames(db: Db, rec: NewMemory, now: Time, newId: MemoryId)
    requires newId !in db.memories && rec.supersedes == {} && rec.topicKey.None?
    ensures var (db', result) := AddTx(db, rec, now, newId); var same := HashRows(db, rec.user, rec.project, rec.contentHash);
            && result.Ok?
            && (same == {} ==>
                  result.value.outcome == Created && result.value.id == newId
                  && db'.memories == db.memories[newId := FreshRow(db, rec, None, now)])
            && (same != {} ==>
                  result.value.outcome == Deduplicated && result.value.id in same && db' == db)
            && result.value.id in db'.memories
  {
    assert TopicRows(db, rec.user, rec.project, EmptyToNone(rec.topicKey)) == {};
    assert BadTargets(db, rec) == {};
  }

  function ImportTx(db: Db, issues: Issues, r: Record, now: Time, newId: MemoryId): (Db, ImportOutcome)
    requires newId !in db.memories
  {
    if r.fields.None? then (db, Skipped)
    else
      var f := r.fields.value;
      var existing := FindByMem0Id(db, r.mem0Id);
      if existing.Some? then
        var row := db.memories[existing.value];
        if row.Deleted() then (db, Skipped)
        else if |Members(Mem0Ids(row))| > 1 then (db, NoChange)
        else
          var extra := WithId(f.extra, Mem0Ids(row) + [r.mem0Id]);
          if SameAs(row, f, extra) then (db, NoChange)
          else
            var (db', result) := UpdateTx(db, existing.value, UpdateOf(issues, f, extra), None, now);
            (db', if result.Ok? then Rewritten else Skipped)
      else
        var (db', result) := AddTx(db, RecordOf(issues, r), now, newId);
        if result.Err? then (db', Skipped)
        else if result.value.outcome == Created then (db', Imported)
        else
          AddNames(db, RecordOf(issues, r), now, newId);
          var row := db'.memories[result.value.id];
          var (db'', merged) := UpdateTx(db', result.value.id, MergeOf(row, r.mem0Id), None, now);
          (db'', if merged.Ok? then Merged else Skipped)
  }

  method ImportOne(store: Store, issues: Issues, r: Record, now: Time, newId: MemoryId) returns (outcome: ImportOutcome)
    requires newId !in store.memories
    modifies store
    ensures (store.State(), outcome) == ImportTx(old(store.State()), issues, r, now, newId)
  {
    hide AddTx, UpdateTx;
    if r.fields.None? { return Skipped; }
    var f := r.fields.value;
    var existing := FindByMem0Id(store.State(), r.mem0Id);
    if existing.Some? {
      var row := store.memories[existing.value];
      if row.Deleted() { return Skipped; }
      var ids := Mem0Ids(row);
      if |Members(ids)| > 1 { return NoChange; }
      var extra := WithId(f.extra, ids + [r.mem0Id]);
      if SameAs(row, f, extra) { return NoChange; }
      var result := store.Update(existing.value, UpdateOf(issues, f, extra), None, now);
      return if result.Ok? then Rewritten else Skipped;
    }
    var result := store.Add(RecordOf(issues, r), now, newId);
    if result.Err? { return Skipped; }
    if result.value.outcome == Created { return Imported; }
    AddNames(old(store.State()), RecordOf(issues, r), now, newId);
    var row := store.memories[result.value.id];
    var merged := store.Update(result.value.id, MergeOf(row, r.mem0Id), None, now);
    return if merged.Ok? then Merged else Skipped;
  }

  function ImportAll(db: Db, issues: Issues, records: seq<Record>, now: Time, newIds: seq<MemoryId>): Option<Db>
    requires |newIds| == |records|
  {
    if records == [] then Some(db)
    else
      var n := |records| - 1;
      var before := ImportAll(db, issues, records[..n], now, newIds[..n]);
      if before.None? || newIds[n] in before.value.memories then None
      else Some(ImportTx(before.value, issues, records[n], now, newIds[n]).0)
  }

  // ---- What a first import leaves ---------------------------------------------------------

  /** The record as this export record made it, or several of the same text made it together. */
  ghost predicate MadeBy(row: Memory, r: Record) {
    && r.fields.Some?
    && row.user == r.fields.value.user && row.project == r.fields.value.project && row.contentHash == Sha256(r.fields.value.text)
    && (Members(Mem0Ids(row)) == {r.mem0Id} ==>
          SameAs(row, r.fields.value, WithId(r.fields.value.extra, [r.mem0Id])))
  }

  /** No id and no same-scope text of the export is in the store. */
  ghost predicate NothingShared(db: Db, records: seq<Record>) {
    forall id, i | id in db.memories && 0 <= i < |records| && records[i].fields.Some? ::
      && records[i].mem0Id !in Mem0Ids(db.memories[id])
      && id !in HashRows(db, records[i].fields.value.user, records[i].fields.value.project,
                         Sha256(records[i].fields.value.text))
  }

  predicate DistinctIds(records: seq<Record>) {
    forall i, j | 0 <= i < j < |records| :: records[i].mem0Id != records[j].mem0Id
  }

  /** After the first `n` records: the old rows untouched; each new row live, holding ids of some of
      those records only; each placed record held by exactly one new row. */
  ghost predicate Holds(db0: Db, db: Db, records: seq<Record>, n: nat)
    requires n <= |records|
  {
    && (forall id | id in db0.memories :: id in db.memories && db.memories[id] == db0.memories[id])
    && (forall id | id in db.memories && id !in db0.memories ::
          !db.memories[id].Deleted() && Mem0Ids(db.memories[id]) != [])
    && (forall id, m | id in db.memories && id !in db0.memories && m in Mem0Ids(db.memories[id]) ::
          exists i :: 0 <= i < n && records[i].fields.Some? && records[i].mem0Id == m)
    && (forall a, b, m | a in db.memories && b in db.memories && a !in db0.memories && b !in db0.memories
                         && m in Mem0Ids(db.memories[a]) && m in Mem0Ids(db.memories[b]) :: a == b)
    && (forall i | 0 <= i < n && records[i].fields.Some? :: Held(db0, db, records[i]))
  }

  /** A new row holds the record. */
  ghost predicate Held(db0: Db, db: Db, r: Record) {
    exists id :: HeldBy(db0, db, r, id)
  }

  ghost predicate HeldBy(db0: Db, db: Db, r: Record, id: MemoryId) {
    id in db.memories && id !in db0.memories && r.mem0Id in Mem0Ids(db.memories[id]) && MadeBy(db.memories[id], r)
  }

  /** No row holds the next record's id. */
  lemma NotHeldYet(db0: Db, db: Db, records: seq<Record>, n: nat)
    requires n < |records| && records[n].fields.Some? && Holds(db0, db, records, n)
    requires NothingShared(db0, records) && DistinctIds(records)
    ensures forall id | id in db.memories :: records[n].mem0Id !in Mem0Ids(db.memories[id])
  {
    var m := records[n].mem0Id;
    assert forall i | 0 <= i < n :: records[i].mem0Id != m;
    forall id | id in db.memories ensures m !in Mem0Ids(db.memories[id]) {
      if id in db0.memories { assert m !in Mem0Ids(db0.memories[id]); }
    }
  }

  /** One new row made for `r`, or its id put into one of the new rows. */
  ghost predicate Takes(db0: Db, db: Db, db': Db, r: Record, id: MemoryId) {
    && id !in db0.memories && id in db'.memories && db'.memories == db.memories[id := db'.memories[id]]
    && (forall o | o in db.memories :: r.mem0Id !in Mem0Ids(db.memories[o]))
    && var row := db'.memories[id];
       && MadeBy(row, r) && !row.Deleted()
       && (forall m :: m in Mem0Ids(row) <==> m == r.mem0Id || (id in db.memories && m in Mem0Ids(db.memories[id])))
       && (id in db.memories ==>
             row.user == db.memories[id].user && row.project == db.memories[id].project
             && row.contentHash == db.memories[id].contentHash)
  }

  lemma HeldNext(db0: Db, db: Db, db': Db, r: Record, id: MemoryId, s: Record)
    requires Takes(db0, db, db', r, id) && (Held(db0, db, s) || s == r)
    ensures Held(db0, db', s)
  {
    hide SameAs;
    if s == r {
      assert HeldBy(db0, db', r, id);
    } else {
      var o :| HeldBy(db0, db, s, o);
      if o == id { assert r.mem0Id in Members(Mem0Ids(db'.memories[id])); }
      assert HeldBy(db0, db', s, o);
    }
  }

  lemma HoldsNext(db0: Db, db: Db, db': Db, records: seq<Record>, n: nat, id: MemoryId)
    requires n < |records| && Holds(db0, db, records, n) && Takes(db0, db, db', records[n], id)
    ensures Holds(db0, db', records, n + 1)
  {
    hide Held, SameAs, MadeBy;
    var r := records[n];
    forall i | 0 <= i < n + 1 && records[i].fields.Some? ensures Held(db0, db', records[i]) {
      HeldNext(db0, db, db', r, id, records[i]);
    }
    MadeOf(db'.memories[id], r);
    assert r.mem0Id in Mem0Ids(db'.memories[id]);
    forall o, m | o in db'.memories && o !in db0.memories && m in Mem0Ids(db'.memories[o])
      ensures exists i :: 0 <= i < n + 1 && records[i].fields.Some? && records[i].mem0Id == m
    {
      if o != id || m != r.mem0Id {
        assert m in Mem0Ids(db.memories[o]);
        var i :| 0 <= i < n && records[i].fields.Some? && records[i].mem0Id == m;
      } else {
        assert records[n].mem0Id == m;
      }
    }
  }

  lemma MadeOf(row: Memory, r: Record)
    requires MadeBy(row, r)
    ensures r.fields.Some?
  {}

  /** Adding an id to a row's list is a write, and keeps all else that matters here. */
  lemma MergeWrites(db: Db, id: MemoryId, m: string, now: Time)
    requires id in db.memories && !db.memories[id].Deleted() && m !in Mem0Ids(db.memories[id])
    ensures var row := db.memories[id]; var (db', result) := UpdateTx(db, id, MergeOf(row, m), None, now);
            && result.Ok? && id in db'.memories && db'.memories == db.memories[id := db'.memories[id]]
            && var row' := db'.memories[id];
               && row'.user == row.user && row'.project == row.project && row'.contentHash == row.contentHash
               && !row'.Deleted() && (forall x :: x in Mem0Ids(row') <==> x in Mem0Ids(row) || x == m)
  {
    var row := db.memories[id];
    var ids := Mem0Ids(row) + [m];
    forall x ensures x in SortIds(ids) <==> x in Mem0Ids(row) || x == m {
      SortHas(ids, x);
      assert x in ids <==> x in Mem0Ids(row) || x == m;
    }
    assert m in SortIds(ids);
    assert Merge(row, MergeOf(row, m)).extra == WithId(row.extra, ids);
    assert Merge(row, MergeOf(row, m)) != row;
  }

  lemma CreatedTakes(db0: Db, db: Db, issues: Issues, r: Record, now: Time, newId: MemoryId)
    requires r.fields.Some? && newId !in db.memories && newId !in db0.memories
    requires forall o | o in db.memories :: r.mem0Id !in Mem0Ids(db.memories[o])
    ensures var db' := db.(memories := db.memories[newId := FreshRow(db, RecordOf(issues, r), None, now)]);
            Takes(db0, db, db', r, newId)
  {
    SortOne([r.mem0Id], r.mem0Id);
    assert Mem0Ids(FreshRow(db, RecordOf(issues, r), None, now)) == [r.mem0Id];
  }

  lemma MergedTakes(db0: Db, db: Db, r: Record, now: Time, id: MemoryId)
    requires r.fields.Some? && id in db.memories && id !in db0.memories
    requires forall o | o in db.memories :: r.mem0Id !in Mem0Ids(db.memories[o])
    requires id in HashRows(db, r.fields.value.user, r.fields.value.project, Sha256(r.fields.value.text))
    requires Mem0Ids(db.memories[id]) != []
    ensures Takes(db0, db, UpdateTx(db, id, MergeOf(db.memories[id], r.mem0Id), None, now).0, r, id)
  {
    hide UpdateTx, SameAs;
    MergeWrites(db, id, r.mem0Id, now);
    var db' := UpdateTx(db, id, MergeOf(db.memories[id], r.mem0Id), None, now).0;
    TwoIds(db.memories[id], db'.memories[id], r.mem0Id);
  }

  lemma FirstStep(db0: Db, db: Db, issues: Issues, records: seq<Record>, n: nat, now: Time, newId: MemoryId)
    requires n < |records| && Holds(db0, db, records, n) && newId !in db.memories
    requires NothingShared(db0, records) && DistinctIds(records)
    ensures Holds(db0, ImportTx(db, issues, records[n], now, newId).0, records, n + 1)
  {
    hide AddTx, UpdateTx, Takes, Held, MadeBy, SameAs, NothingShared;
    var r := records[n];
    if r.fields.None? {
      HoldsSkipped(db0, db, records, n);
    } else {
      NotHeldYet(db0, db, records, n);
      assert HoldersOf(db, r.mem0Id) == {};
      var rec := RecordOf(issues, r);
      AddNames(db, rec, now, newId);
      var (db', result) := AddTx(db, rec, now, newId);
      if HashRows(db, rec.user, rec.project, rec.contentHash) == {} {
        CreatedTakes(db0, db, issues, r, now, newId);
        TakesRows(db0, db, db.(memories := db'.memories), db', r, newId);
        HoldsNext(db0, db, db', records, n, newId);
      } else {
        var id := result.value.id;
        SharedIsNew(db0, db, records, n, id);
        MergedTakes(db0, db, r, now, id);
        HoldsNext(db0, db, UpdateTx(db, id, MergeOf(db.memories[id], r.mem0Id), None, now).0, records, n, id);
      }
    }
  }

  lemma TakesRows(db0: Db, db: Db, a: Db, b: Db, r: Record, id: MemoryId)
    requires Takes(db0, db, a, r, id) && a.memories == b.memories
    ensures Takes(db0, db, b, r, id)
  {}

  lemma TwoIds(row: Memory, row': Memory, m: string)
    requires Mem0Ids(row) != [] && m !in Mem0Ids(row)
    requires forall x :: x in Mem0Ids(row') <==> x in Mem0Ids(row) || x == m
    ensures Members(Mem0Ids(row')) != {m}
  {
    assert Mem0Ids(row)[0] in Members(Mem0Ids(row'));
  }

  lemma HoldsSkipped(db0: Db, db: Db, records: seq<Record>, n: nat)
    requires n < |records| && Holds(db0, db, records, n) && records[n].fields.None?
    ensures Holds(db0, db, records, n + 1)
  {
    hide Held;
    forall o, m | o in db.memories && o !in db0.memories && m in Mem0Ids(db.memories[o])
      ensures exists i :: 0 <= i < n + 1 && records[i].fields.Some? && records[i].mem0Id == m
    {
      var i :| 0 <= i < n && records[i].fields.Some? && records[i].mem0Id == m;
    }
  }

  /** A row with the same text in the same scope is one an earlier record made. */
  lemma SharedIsNew(db0: Db, db: Db, records: seq<Record>, n: nat, id: MemoryId)
    requires n < |records| && records[n].fields.Some? && Holds(db0, db, records, n) && NothingShared(db0, records)
    requires id in HashRows(db, records[n].fields.value.user, records[n].fields.value.project,
                            Sha256(records[n].fields.value.text))
    ensures id !in db0.memories
  {}

  lemma {:induction false} FirstRun(db0: Db, issues: Issues, records: seq<Record>, now: Time, newIds: seq<MemoryId>, n: nat)
    requires n <= |records| == |newIds| && NothingShared(db0, records) && DistinctIds(records)
    requires ImportAll(db0, issues, records[..n], now, newIds[..n]).Some?
    ensures Holds(db0, ImportAll(db0, issues, records[..n], now, newIds[..n]).value, records, n)
  {
    hide ImportTx, NothingShared, Holds;
    if n == 0 {
      HoldsAtStart(db0, records);
    } else {
      assert records[..n][..n - 1] == records[..n - 1] && newIds[..n][..n - 1] == newIds[..n - 1];
      FirstRun(db0, issues, records, now, newIds, n - 1);
      FirstStep(db0, ImportAll(db0, issues, records[..n - 1], now, newIds[..n - 1]).value, issues, records, n - 1,
                now, newIds[n - 1]);
    }
  }

  lemma HoldsAtStart(db0: Db, records: seq<Record>)
    ensures Holds(db0, db0, records, 0)
  {}

  // ---- The second import ------------------------------------------------------------------

  /** Once everything is held, importing any of the records again writes nothing. */
  lemma AgainWritesNothing(db0: Db, db: Db, issues: Issues, records: seq<Record>, i: nat, now: Time, newId: MemoryId)
    requires i < |records| && Holds(db0, db, records, |records|) && NothingShared(db0, records)
    requires newId !in db.memories
    ensures ImportTx(db, issues, records[i], now, newId).0 == db
    ensures ImportTx(db, issues, records[i], now, newId).1 == if records[i].fields.Some? then NoChange else Skipped
  {
    hide AddTx, UpdateTx, WithId;
    var r := records[i];
    if r.fields.Some? {
      assert Held(db0, db, r);
      var id :| HeldBy(db0, db, r, id);
      OnlyHolder(db0, db, records, i, id);
      var row := db.memories[id];
      assert FindByMem0Id(db, r.mem0Id) == Some(id);
      if |Members(Mem0Ids(row))| <= 1 {
        OneMember(Mem0Ids(row), r.mem0Id);
        SameList(r.fields.value.extra, Mem0Ids(row), r.mem0Id);
      }
    }
  }

  lemma OnlyHolder(db0: Db, db: Db, records: seq<Record>, i: nat, id: MemoryId)
    requires i < |records| && records[i].fields.Some? && Holds(db0, db, records, |records|) && NothingShared(db0, records)
    requires HeldBy(db0, db, records[i], id)
    ensures HoldersOf(db, records[i].mem0Id) == {id} && !db.memories[id].Deleted()
    ensures FindByMem0Id(db, records[i].mem0Id) == Some(id)
  {
    var m := records[i].mem0Id;
    forall o | o in db0.memories ensures m !in Mem0Ids(db.memories[o]) { assert m !in Mem0Ids(db0.memories[o]); }
    forall o | o in HoldersOf(db, m) ensures o == id {}
    assert HoldersOf(db, m) == {id};
    assert (set o | o in HoldersOf(db, m) && !db.memories[o].Deleted()) == {id};
  }

  lemma OneMember(ids: seq<string>, m: string)
    requires m in ids && |Members(ids)| <= 1
    ensures Members(ids) == {m} && forall y | y in ids :: y == m
  {
    var all := Members(ids);
    assert m in all;
    assert |all - {m}| == |all| - 1;
    forall y | y in ids ensures y == m {
      assert y in all;
      assert all - {m} == {};
    }
  }

  lemma SameList(extra: Extra, ids: seq<string>, m: string)
    requires forall y | y in ids :: y == m
    ensures WithId(extra, ids + [m]) == WithId(extra, [m])
  {
    var more := ids + [m];
    forall y | y in more ensures y == m { assert y in ids || y == m; }
    SortOne(more, m);
    SortOne([m], m);
  }

  /** Import idempotence: with distinct export ids and a store that shares no id and no same-scope text
      with the export, importing it a second time writes nothing, merged duplicates included. */
  lemma {:induction false} SecondImportWritesNothing(db0: Db, issues: Issues, records: seq<Record>, now: Time,
                                                    newIds: seq<MemoryId>, later: Time, moreIds: seq<MemoryId>, n: nat)
    requires n <= |records| == |newIds| == |moreIds| && NothingShared(db0, records) && DistinctIds(records)
    requires ImportAll(db0, issues, records, now, newIds).Some?
    requires forall i | 0 <= i < |moreIds| :: moreIds[i] !in ImportAll(db0, issues, records, now, newIds).value.memories
    ensures var once := ImportAll(db0, issues, records, now, newIds).value;
            ImportAll(once, issues, records[..n], later, moreIds[..n]) == Some(once)
  {
    hide ImportTx, NothingShared, Holds;
    var once := ImportAll(db0, issues, records, now, newIds).value;
    if n > 0 {
      assert records[..n][..n - 1] == records[..n - 1] && moreIds[..n][..n - 1] == moreIds[..n - 1];
      SecondImportWritesNothing(db0, issues, records, now, newIds, later, moreIds, n - 1);
      assert records[..|records|] == records && newIds[..|newIds|] == newIds;
      FirstRun(db0, issues, records, now, newIds, |records|);
      AgainWritesNothing(db0, once, issues, records, n - 1, later, moreIds[n - 1]);
    }
  }

  /** The hypothesis on texts is needed: over a record that already had the text, a second import
      writes nothing exactly when that record had the same kind, agent and other columns too. */
  lemma SharedTextIff(db: Db, issues: Issues, r: Record, id: MemoryId, now: Time, newId: MemoryId, later: Time, moreId: MemoryId)
    requires r.fields.Some? && newId !in db.memories && HoldersOf(db, r.mem0Id) == {}
    requires HashRows(db, r.fields.value.user, r.fields.value.project, Sha256(r.fields.value.text)) == {id}
    requires Mem0Ids(db.memories[id]) == [] && db.memories[id].contentHash == Sha256(db.memories[id].text)
    requires moreId !in ImportTx(db, issues, r, now, newId).0.memories
    ensures var row, f, once := db.memories[id], r.fields.value, ImportTx(db, issues, r, now, newId).0;
            && ImportTx(db, issues, r, now, newId).1 == Merged
            && (ImportTx(once, issues, r, later, moreId).0 == once <==>
                  row.kind == f.kind && row.agent == f.agent
                  && WithId(row.extra, [r.mem0Id]) == WithId(f.extra, [r.mem0Id]))
  {
    hide ImportTx, WithId;
    var once := ImportTx(db, issues, r, now, newId).0;
    MergedOnce(db, issues, r, id, now, newId);
    AgainIff(once, issues, r, id, later, moreId);
  }

  lemma MergedOnce(db: Db, issues: Issues, r: Record, id: MemoryId, now: Time, newId: MemoryId)
    requires r.fields.Some? && newId !in db.memories && HoldersOf(db, r.mem0Id) == {}
    requires HashRows(db, r.fields.value.user, r.fields.value.project, Sha256(r.fields.value.text)) == {id}
    requires Mem0Ids(db.memories[id]) == []
    ensures var once := ImportTx(db, issues, r, now, newId).0;
            && ImportTx(db, issues, r, now, newId).1 == Merged && once.memories.Keys == db.memories.Keys
            && HoldersOf(once, r.mem0Id) == {id} && id in once.memories && !once.memories[id].Deleted()
            && var row, row' := db.memories[id], once.memories[id];
               && row'.text == row.text && row'.kind == row.kind && row'.agent == row.agent
               && row'.extra == WithId(row.extra, [r.mem0Id]) && Mem0Ids(row') == [r.mem0Id]
               && HashRows(once, row'.user, row'.project, Sha256(r.fields.value.text)) == {id}
  {
    hide AddTx, UpdateTx, WithId;
    var m, row := r.mem0Id, db.memories[id];
    AddNames(db, RecordOf(issues, r), now, newId);
    assert FindByMem0Id(db, m).None?;
    MergeWrites(db, id, m, now);
    MergeContent(db, id, m, now);
    var once := UpdateTx(db, id, MergeOf(row, m), None, now).0;
    assert ImportTx(db, issues, r, now, newId).0 == once;
    forall o | o in HoldersOf(once, m) ensures o == id { assert o !in HoldersOf(db, m); }
    SameHashRows(db, once, row.user, row.project, Sha256(r.fields.value.text), id);
  }

  /** A change that touches no scope or hash leaves the rows of every hash. */
  lemma SameHashRows(db: Db, db': Db, user: string, project: string, hash: Hash, id: MemoryId)
    requires id in db.memories && id in db'.memories && db'.memories == db.memories[id := db'.memories[id]]
    requires var row, row' := db.memories[id], db'.memories[id];
             row'.user == row.user && row'.project == row.project && row'.contentHash == row.contentHash
             && row'.Deleted() == row.Deleted()
    ensures HashRows(db', user, project, hash) == HashRows(db, user, project, hash)
  {}

  lemma AgainIff(db: Db, issues: Issues, r: Record, id: MemoryId, now: Time, newId: MemoryId)
    requires r.fields.Some? && newId !in db.memories && HoldersOf(db, r.mem0Id) == {id}
    requires id in db.memories && !db.memories[id].Deleted() && Mem0Ids(db.memories[id]) == [r.mem0Id]
    requires HashRows(db, db.memories[id].user, db.memories[id].project, Sha256(r.fields.value.text)) == {id}
    ensures ImportTx(db, issues, r, now, newId).0 == db
            <==> SameAs(db.memories[id], r.fields.value, WithId(r.fields.value.extra, [r.mem0Id]))
  {
    hide AddTx, UpdateTx, WithId, SameAs;
    var m, f := r.mem0Id, r.fields.value;
    assert (set o | o in HoldersOf(db, m) && !db.memories[o].Deleted()) == {id};
    assert Members([m]) == {m};
    SameList(f.extra, [m], m);
    UpdateWrites(db, issues, id, f, WithId(f.extra, [m] + [m]), now);
  }

  /** An update that names another text, kind, agent or extra is a write. */
  lemma UpdateWrites(db: Db, issues: Issues, id: MemoryId, f: Fields, extra: Extra, now: Time)
    requires id in db.memories && !db.memories[id].Deleted()
    requires HashRows(db, db.memories[id].user, db.memories[id].project, Sha256(f.text)) <= {id}
    ensures var db' := UpdateTx(db, id, UpdateOf(issues, f, extra), None, now).0;
            SameAs(db.memories[id], f, extra)
            || (id in db'.memories && db'.memories[id].version == db.memories[id].version + 1)
  {
    hide HashRows;
    var row, ch := db.memories[id], Prepared(UpdateOf(issues, f, extra));
    var db' := UpdateTx(db, id, UpdateOf(issues, f, extra), None, now).0;
    assert Rivals(db, id, ch) == {};
    if !SameAs(row, f, extra) {
      assert Merge(row, ch).text == f.text && Merge(row, ch).kind == f.kind && Merge(row, ch).agent == f.agent
             && Merge(row, ch).extra == extra;
      assert Merge(row, ch) != row;
      assert db'.memories[id].version == row.version + 1;
    }
  }

  lemma MergeContent(db: Db, id: MemoryId, m: string, now: Time)
    requires id in db.memories && !db.memories[id].Deleted() && Mem0Ids(db.memories[id]) == []
    ensures var row := db.memories[id]; var db' := UpdateTx(db, id, MergeOf(row, m), None, now).0;
            id in db'.memories
            && var row' := db'.memories[id];
               && row'.text == row.text && row'.kind == row.kind && row'.agent == row.agent
               && row'.extra == WithId(row.extra, [m]) && Mem0Ids(row') == [m]
  {
    var row := db.memories[id];
    SortOne([m], m);
    assert Mem0Ids(row) + [m] == [m];
    assert Merge(row, MergeOf(row, m)).extra == WithId(row.extra, [m]);
    assert WithId(row.extra, [m])[MEM0_IDS] == [m] && WithId(row.extra, [m]) != row.extra;
  }
}
