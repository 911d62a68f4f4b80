/** The two stores of transcript turns, as the in-place maintenance runs see them: the Milvus rows
    by doc_id and the FTS sidecar rows by doc_id. */
module SessionStores {
  import opened Wrappers

  /** A turn, or the n-th passage of a turn: `<turn>::p<n>`. */
  datatype DocId = Turn(turn: nat) | Passage(turn: nat, index: nat)

  /** What was embedded: a text and, for passages, the title slot. */
  datatype Vector = Embedded(text: string, title: string)

  /** A Milvus row; `columns` stands for the metadata no run here changes. */
  datatype Row = Row(document: string, vector: Vector, issueIds: string, columns: string)

  datatype FtsRow = FtsRow(content: string, issueIds: string, columns: string)

  type Rows = map<DocId, Row>
  type FtsRows = map<DocId, FtsRow>

  function FtsOf(row: Row): FtsRow { FtsRow(row.document, row.issueIds, row.columns) }

  /** Both stores lack the doc, or both hold it with the same content. */
  predicate Agree(m: Rows, f: FtsRows, d: DocId) {
    (d in m <==> d in f) && (d in m && d in f ==> f[d] == FtsOf(m[d]))
  }

  /** What deleting `d` removes: the doc, and every passage of a turn. */
  predicate Under(d: DocId, o: DocId) {
    o == d || (d.Turn? && o.Passage? && o.turn == d.turn)
  }

  function WithoutDoc<T>(m: map<DocId, T>, d: DocId): map<DocId, T> {
    map o | o in m && !Under(d, o) :: m[o]
  }

  /** The Milvus half keys on the doc's own row: passages go only when their turn is there. */
  function DeleteRow(m: Rows, d: DocId): Rows {
    if d in m then WithoutDoc(m, d) else m
  }

  /** Every passage row outside `bad` has its turn's row. */
  ghost predicate NoOrphans(m: Rows, bad: set<DocId>) {
    forall o | o in m && o.Passage? && o !in bad :: Turn(o.turn) in m
  }

  /** What agreeing means, column by column. */
  lemma AgreeIs(m: Rows, f: FtsRows, d: DocId)
    ensures Agree(m, f, d) <==>
              if d in m then
                d in f && f[d].content == m[d].document && f[d].issueIds == m[d].issueIds && f[d].columns == m[d].columns
              else d !in f
  {}

  /** Deleting a doc takes the doc, and with a turn its passages and nothing else; from Milvus only if the doc is there. */
  lemma DeleteTakes(m: Rows, f: FtsRows, d: DocId, o: DocId)
    ensures o in DeleteRow(m, d) <==> o in m && !(d in m && (o == d || (d.Turn? && o.Passage? && o.turn == d.turn)))
    ensures o in DeleteRow(m, d) ==> DeleteRow(m, d)[o] == m[o]
    ensures o in WithoutDoc(f, d) <==> o in f && !(o == d || (d.Turn? && o.Passage? && o.turn == d.turn))
    ensures o in WithoutDoc(f, d) ==> WithoutDoc(f, d)[o] == f[o]
  {}

  /** What an upsert of which only `landed` took effect leaves. */
  lemma MergeIs(m: Rows, rows: Rows, landed: set<DocId>, d: DocId)
    ensures d in Merge(m, rows, landed) <==> d in m || (d in rows && d in landed)
    ensures d in Merge(m, rows, landed) ==>
              Merge(m, rows, landed)[d] == if d in rows && d in landed then rows[d] else if d in m then m[d] else rows[d]
  {}

  /** After a whole delete of a turn, everything under it agrees exactly when none of its passages
      was an orphan. */
  lemma DeleteAgreesIff(m: Rows, f: FtsRows, d: DocId)
    requires forall o | Under(d, o) :: Agree(m, f, o)
    ensures (forall o | Under(d, o) :: Agree(DeleteRow(m, d), WithoutDoc(f, d), o))
            <==> d in m || (forall o | Under(d, o) :: o !in m)
  {
    if o :| d !in m && Under(d, o) && o in m {
      assert !Agree(DeleteRow(m, d), WithoutDoc(f, d), o);
    }
  }

  /** A passage whose turn is gone, the same in both stores: the delete of the turn takes it from FTS only. */
  lemma OrphanStays(row: Row)
    ensures var m, f := map[Passage(0, 0) := row], map[Passage(0, 0) := FtsOf(row)];
            && (forall o :: Agree(m, f, o))
            && !Agree(DeleteRow(m, Turn(0)), WithoutDoc(f, Turn(0)), Passage(0, 0))
  {}

  /** A title from the stored text of the turn a passage belongs to. */
  function TitleOf(title: (string, string) -> string, m: Rows, d: DocId): string
    requires d in m
  {
    if d.Turn? then ""
    else title(m[d].columns, if Turn(d.turn) in m then m[Turn(d.turn)].document else "")
  }

  /** An upsert of `rows` of which the keys `landed` took effect. */
  function Merge(m: Rows, rows: Rows, landed: set<DocId>): Rows {
    map d | d in m.Keys + (rows.Keys * landed) :: if d in rows && d in landed then rows[d] else m[d]
  }

  /** A delete of `d` that may have stopped half way: passages first, the doc's own row last. */
  ghost predicate Shrunk(m: Rows, m': Rows, d: DocId) {
    && (forall o | o in m' :: o in m && m'[o] == m[o])
    && (forall o | o in m && o !in m' :: Under(d, o) && d in m)
    && (d in m && d !in m' ==> m' == WithoutDoc(m, d))
  }

  /** Some of what an FTS delete removes. */
  ghost predicate ShrunkFts(f: FtsRows, f': FtsRows, d: DocId) {
    && (forall o | o in f' :: o in f && f'[o] == f[o])
    && (forall o | o in f && o !in f' :: Under(d, o))
  }

  // ---- Backup files -----------------------------------------------------------------------

  /** One appended record. */
  datatype Saved<T> = Saved(id: DocId, what: T)

  type Vectors = seq<Saved<Vector>>

  /** The earliest record of a doc. */
  function First<T>(log: seq<Saved<T>>, d: DocId): Option<T> {
    if log == [] then None else if log[0].id == d then Some(log[0].what) else First(log[1..], d)
  }

  lemma {:induction false} FirstAppend<T>(log: seq<Saved<T>>, r: Saved<T>, d: DocId)
    ensures First(log + [r], d) == if First(log, d).Some? then First(log, d)
                                   else if r.id == d then Some(r.what) else None
  {
    if log != [] {
      FirstAppend(log[1..], r, d);
      assert (log + [r])[1..] == log[1..] + [r];
    }
  }

  // ---- The turn limit of a chunk ----------------------------------------------------------

  predicate Spent(maxTurns: Option<nat>, chunk: nat) { maxTurns.Some? && chunk >= maxTurns.value }

  predicate Within(maxTurns: Option<nat>, chunk: nat) { maxTurns.Some? ==> chunk <= maxTurns.value }

  /** The next batch: no more than the limit leaves, or than the worklist does. */
  function NextSize(maxTurns: Option<nat>, chunk: nat, size: nat, left: nat): (n: nat)
    requires Within(maxTurns, chunk) && !Spent(maxTurns, chunk)
    ensures Within(maxTurns, chunk + n) && n <= left && n <= size
    ensures size > 0 && left > 0 ==> n > 0
    ensures maxTurns.None? ==> n == if size < left then size else left
  {
    var room := if maxTurns.Some? && maxTurns.value - chunk < size then maxTurns.value - chunk else size;
    if room < left then room else left
  }

  /** Where a chunk that meets nothing but its limit ends. */
  function LimitFrom(cursor: nat, maxTurns: Option<nat>, length: nat): nat {
    if maxTurns.Some? && cursor + maxTurns.value < length then cursor + maxTurns.value else length
  }

  lemma LimitReached(cursor: nat, chunk: nat, maxTurns: Option<nat>, length: nat)
    requires Within(maxTurns, chunk) && cursor + chunk <= length
    requires cursor + chunk == length || Spent(maxTurns, chunk)
    ensures cursor + chunk == LimitFrom(cursor, maxTurns, length)
  {}

  /** Some of the keys: what a call that stopped half way may have reached. */
  method Part(all: set<DocId>) returns (part: set<DocId>)
    ensures part <= all
  {
    part := {};
    var left := all;
    while left != {}
      invariant part <= all && left <= all
      decreases left
    {
      var d :| d in left;
      left := left - {d};
      if * { part := part + {d}; }
    }
  }
}
