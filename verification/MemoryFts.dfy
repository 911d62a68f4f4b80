/** The keyword index of one host. Every change commits with its watermark, so a delayed older
    write can never bring back a deleted or newer record. */
module MemoryFts {
  import opened Wrappers
  import opened MemoryStore

  datatype FtsRow = FtsRow(
    version: nat, contentHash: Hash, text: string, user: string, agent: string, project: string,
    kind: string, status: Status, issueIds: seq<string>, source: seq<string>,
    category: seq<string>, createdAt: Time)

  datatype Mark = Mark(version: nat, deleted: bool)

  datatype File = File(rows: map<MemoryId, FtsRow>, marks: map<MemoryId, Mark>)

  const EMPTY := File(map[], map[])

  function ExtraOf(extra: Extra, key: string): seq<string> {
    if key in extra then extra[key] else []
  }

  function RowOf(m: Memory): FtsRow {
    FtsRow(m.version, m.contentHash, m.text, m.user, m.agent, m.project, m.kind, m.status,
           m.issueIds, ExtraOf(m.extra, "source"), ExtraOf(m.extra, "category"), m.createdAt)
  }

  /** Apply one canonical row unless the watermark already holds this version or later. */
  function Apply(f: File, id: MemoryId, m: Memory): (File, bool) {
    if id in f.marks && f.marks[id].version >= m.version then (f, false)
    else (File(if m.Deleted() then f.rows - {id} else f.rows[id := RowOf(m)],
               f.marks[id := Mark(m.version, m.Deleted())]), true)
  }

  /** Drop rows and watermarks, so the records are applied again from scratch. */
  function Forget(f: File, ids: set<MemoryId>): File {
    File(f.rows - ids, f.marks - ids)
  }

  class Index {
    var rows: map<MemoryId, FtsRow>
    var marks: map<MemoryId, Mark>

    function Contents(): File reads this { File(rows, marks) }

    constructor ()
      ensures Contents() == EMPTY
    {
      rows, marks := map[], map[];
    }

    method ApplyRow(id: MemoryId, m: Memory) returns (applied: bool)
      modifies this
      ensures (Contents(), applied) == Apply(old(Contents()), id, m)
    {
      if id in marks && marks[id].version >= m.version { return false; }
      rows := rows - {id};
      if !m.Deleted() {
        rows := rows[id := RowOf(m)];
        assert rows == old(rows)[id := RowOf(m)];
      }
      marks := marks[id := Mark(m.version, m.Deleted())];
      return true;
    }

    /** The highest version the file has taken for the record, whatever deliveries made the file. */
    method Watermark(id: MemoryId) returns (v: Option<nat>)
      ensures v == if id in marks then Some(marks[id].version) else None
      ensures forall ds | Contents() == ApplyAll(EMPTY, ds) :: HighestOf(ds, id, v)
    {
      forall ds | Contents() == ApplyAll(EMPTY, ds)
        ensures HighestOf(ds, id, if id in marks then Some(marks[id].version) else None)
      {
        MarkIsHighest(ds, id);
      }
      return if id in marks then Some(marks[id].version) else None;
    }

    method ForgetRecords(ids: set<MemoryId>)
      modifies this
      ensures Contents() == Forget(old(Contents()), ids)
    {
      rows := rows - ids;
      marks := marks - ids;
    }

    method Reset()
      modifies this
      ensures Contents() == EMPTY
    {
      rows, marks := map[], map[];
    }
  }

  // ---- The watermark alone orders delayed writers -----------------------------------------

  datatype Delivery = Delivery(id: MemoryId, row: Memory)

  function ApplyAll(f: File, ds: seq<Delivery>): File {
    if ds == [] then f
    else Apply(ApplyAll(f, ds[..|ds| - 1]), ds[|ds| - 1].id, ds[|ds| - 1].row).0
  }

  /** What is delivered for one record at one version is always the same row. */
  ghost predicate OneHistory(ds: seq<Delivery>) {
    forall i, j | 0 <= i < |ds| && 0 <= j < |ds| && ds[i].id == ds[j].id
                  && ds[i].row.version == ds[j].row.version :: ds[i] == ds[j]
  }

  /** No delivery for the record of delivery `i` carries a higher version. */
  ghost predicate Newest(ds: seq<Delivery>, i: nat)
    requires i < |ds|
  {
    forall j | 0 <= j < |ds| && ds[j].id == ds[i].id :: ds[j].row.version <= ds[i].row.version
  }

  predicate HoldsRow(f: File, id: MemoryId, m: Memory) {
    && id in f.marks && f.marks[id] == Mark(m.version, m.Deleted())
    && (if m.Deleted() then id !in f.rows else id in f.rows && f.rows[id] == RowOf(m))
  }

  /** The index in `ds` of the first delivery of `id` at its highest version. */
  function Best(ds: seq<Delivery>, id: MemoryId): (b: Option<nat>)
    ensures b.Some? ==> b.value < |ds| && ds[b.value].id == id
  {
    if ds == [] then None
    else
      var n := |ds| - 1;
      var b := Best(ds[..n], id);
      if ds[n].id != id || (b.Some? && ds[b.value].row.version >= ds[n].row.version) then b
      else Some(n)
  }

  lemma {:induction false} BestIsNewest(ds: seq<Delivery>, id: MemoryId)
    ensures Best(ds, id).None? ==> forall i | 0 <= i < |ds| :: ds[i].id != id
    ensures Best(ds, id).Some? ==> Newest(ds, Best(ds, id).value)
  {
    if ds != [] { BestIsNewest(ds[..|ds| - 1], id); }
  }

  lemma {:induction false} FileHoldsBest(ds: seq<Delivery>, id: MemoryId)
    ensures var f, b := ApplyAll(EMPTY, ds), Best(ds, id);
            if b.None? then id !in f.marks && id !in f.rows else HoldsRow(f, id, ds[b.value].row)
  {
    if ds != [] { FileHoldsBest(ds[..|ds| - 1], id); }
  }

  /** None when nothing was delivered for the record, else the highest version that was. */
  ghost predicate HighestOf(ds: seq<Delivery>, id: MemoryId, v: Option<nat>) {
    && (v.None? <==> forall i | 0 <= i < |ds| :: ds[i].id != id)
    && (v.Some? ==>
          && (exists i :: 0 <= i < |ds| && ds[i].id == id && ds[i].row.version == v.value)
          && forall i | 0 <= i < |ds| && ds[i].id == id :: ds[i].row.version <= v.value)
  }

  lemma MarkIsHighest(ds: seq<Delivery>, id: MemoryId)
    ensures var f := ApplyAll(EMPTY, ds); HighestOf(ds, id, if id in f.marks then Some(f.marks[id].version) else None)
  {
    hide ApplyAll, Best;
    FileHoldsBest(ds, id);
    BestIsNewest(ds, id);
    var b := Best(ds, id);
    if b.Some? { assert ds[b.value].id == id; }
  }

  function Others(ds: seq<Delivery>, ids: set<MemoryId>): seq<Delivery> {
    if ds == [] then []
    else
      var d := ds[|ds| - 1];
      Others(ds[..|ds| - 1], ids) + if d.id in ids then [] else [d]
  }

  lemma ForgetApplied(f: File, d: Delivery, ids: set<MemoryId>)
    ensures Forget(Apply(f, d.id, d.row).0, ids)
            == if d.id in ids then Forget(f, ids) else Apply(Forget(f, ids), d.id, d.row).0
  {
    hide RowOf;
    var g := Apply(f, d.id, d.row).0;
    if d.id in ids {
      assert g.rows - ids == f.rows - ids && g.marks - ids == f.marks - ids;
    } else {
      var h := Apply(Forget(f, ids), d.id, d.row).0;
      assert g.rows - ids == h.rows && g.marks - ids == h.marks;
    }
  }

  /** To forget records is as if nothing had ever been delivered for them, so every file some deliveries
      made is still one that some deliveries made. */
  lemma {:induction false} ForgetIsOthers(ds: seq<Delivery>, ids: set<MemoryId>)
    ensures Forget(ApplyAll(EMPTY, ds), ids) == ApplyAll(EMPTY, Others(ds, ids))
  {
    hide Apply, Forget;
    if ds == [] {
      NothingForgotten(ids);
    } else {
      var front, d := ds[..|ds| - 1], ds[|ds| - 1];
      ForgetIsOthers(front, ids);
      ForgetApplied(ApplyAll(EMPTY, front), d, ids);
      if d.id in ids {
        assert Others(ds, ids) == Others(front, ids);
      } else {
        var others := Others(front, ids) + [d];
        assert others[..|others| - 1] == Others(front, ids);
      }
    }
  }

  lemma NothingForgotten(ids: set<MemoryId>)
    ensures Forget(EMPTY, ids) == EMPTY
  {
    assert EMPTY.rows - ids == map[] && EMPTY.marks - ids == map[];
  }

  lemma NewestIsHeld(ds: seq<Delivery>, i: nat)
    requires OneHistory(ds) && i < |ds| && Newest(ds, i)
    ensures HoldsRow(ApplyAll(EMPTY, ds), ds[i].id, ds[i].row)
  {
    hide ApplyAll, HoldsRow, Best;
    BestIsNewest(ds, ds[i].id);
    FileHoldsBest(ds, ds[i].id);
  }

  /** Whatever the order, delay and repetition of the deliveries, each record ends at its newest
      row: present with that row's columns, or absent when that row is a tombstone. A delayed
      older write, or one from before a delete, changes nothing; no other record appears. */
  lemma ApplyAllHoldsNewest(ds: seq<Delivery>)
    requires OneHistory(ds)
    ensures var f := ApplyAll(EMPTY, ds);
            && (forall i | 0 <= i < |ds| && Newest(ds, i) :: HoldsRow(f, ds[i].id, ds[i].row))
            && (forall id | id in f.marks || id in f.rows :: exists i :: 0 <= i < |ds| && ds[i].id == id)
  {
    hide ApplyAll, HoldsRow, Best, OneHistory;
    var f := ApplyAll(EMPTY, ds);
    forall i | 0 <= i < |ds| && Newest(ds, i) ensures HoldsRow(f, ds[i].id, ds[i].row) {
      NewestIsHeld(ds, i);
    }
    forall id | id in f.marks || id in f.rows ensures exists i :: 0 <= i < |ds| && ds[i].id == id {
      FileHoldsBest(ds, id);
      BestIsNewest(ds, id);
    }
  }
}
