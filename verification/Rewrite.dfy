/** The crash-safe in-place rewrite of two stores. Every FTS write is logged as pending on disk before
    Milvus changes and cleared only once FTS confirms it; every old row is backed up before that. The
    process may stop between any two effects, and any call may fail. */
module Rewrite {
  import opened Wrappers
  import opened SessionStores
  import opened RewriteCourse

  datatype Status = Running | Paused | Done

  datatype State = State(cursor: nat, done: nat, missing: nat, errors: nat,
                         ftsRetry: seq<Entry>, status: Status)

  /** The old documents and issue ids; the old vectors have a file of their own. */
  type Documents = seq<Saved<(string, string)>>

  datatype Outcome = Finished | PausedRun | Stopped

  datatype End = Fine | Crashed | Raised | Denied

  // ---- What a batch writes ----------------------------------------------------------------

  /** The rows of a batch that exist, and among them the ones kept and dropped. */
  function Present(m: Rows, ids: seq<DocId>): seq<DocId> {
    if ids == [] then []
    else Present(m, ids[..|ids| - 1]) + if ids[|ids| - 1] in m then [ids[|ids| - 1]] else []
  }

  function Keep(rules: Rules, m: Rows, ids: seq<DocId>): seq<DocId> {
    if ids == [] then []
    else
      var d := ids[|ids| - 1];
      Keep(rules, m, ids[..|ids| - 1]) + if d in m && !Drops(rules, m[d]) then [d] else []
  }

  function Drop(rules: Rules, m: Rows, ids: seq<DocId>): seq<DocId> {
    if ids == [] then []
    else
      var d := ids[|ids| - 1];
      Drop(rules, m, ids[..|ids| - 1]) + if d in m && Drops(rules, m[d]) then [d] else []
  }

  function Updated(rules: Rules, m: Rows, keep: seq<DocId>): Rows {
    map d | d in keep && d in m :: NewRow(rules, m, d)
  }

  /** Python's `list.remove`: the first equal entry goes. */
  function Remove(list: seq<Entry>, e: Entry): seq<Entry> {
    if list == [] then [] else if list[0] == e then list[1..] else [list[0]] + Remove(list[1..], e)
  }

  function DeleteRows(m: Rows, ids: seq<DocId>): Rows {
    if ids == [] then m else DeleteRow(DeleteRows(m, ids[..|ids| - 1]), ids[|ids| - 1])
  }

  /** Milvus after a batch with no failure: every kept row is computed from the rows as read, then
      the dropped ones go. */
  function BatchRows(rules: Rules, m: Rows, ids: seq<DocId>): Rows {
    var keep := Keep(rules, m, ids);
    DeleteRows(Merge(m, Updated(rules, m, keep), set d | d in keep), Drop(rules, m, ids))
  }

  function RunRows(rules: Rules, m: Rows, ids: seq<DocId>, size: nat): Rows
    requires size > 0
    decreases |ids|
  {
    if |ids| <= size then BatchRows(rules, m, ids)
    else RunRows(rules, BatchRows(rules, m, ids[..size]), ids[size..], size)
  }

  /** Milvus after one chunk with no failure, from a checkpoint. */
  function ChunkRows(rules: Rules, m: Rows, saved: State, worklist: seq<DocId>, size: nat): Rows
    requires size > 0 && saved.cursor <= |worklist|
  {
    RunRows(rules, RetryRows(m, saved.ftsRetry), worklist[saved.cursor..], size)
  }

  /** Milvus after one pending entry, or all of them in order, were retried. */
  function RetryRow(m: Rows, e: Entry): Rows {
    if e.op == ToRewrite && e.id in m then m else DeleteRow(m, e.id)
  }

  function RetryRows(m: Rows, list: seq<Entry>): Rows {
    if list == [] then m else RetryRow(RetryRows(m, list[..|list| - 1]), list[|list| - 1])
  }

  // ---- What every point of every run keeps ------------------------------------------------

  /** The retry of `e` repairs `d`. */
  predicate Covers(e: Entry, d: DocId) {
    e.id == d || (e.op == ToDelete && Under(e.id, d))
  }

  predicate Covered(list: seq<Entry>, d: DocId) {
    exists i :: 0 <= i < |list| && Covers(list[i], d)
  }

  /** Outside `bad`, which holds what disagreed before, each doc agrees or is on the list. */
  ghost predicate Sound(m: Rows, f: FtsRows, list: seq<Entry>, bad: set<DocId>) {
    forall d | d !in bad :: Agree(m, f, d) || Covered(list, d)
  }

  predicate Backed(docs: Documents, vecs: Vectors, d: DocId) {
    First(docs, d).Some? && First(vecs, d).Some?
  }

  /** The earliest record of each row holds what it was before the run, and a row without both
      records is as it was, or is a passage that went with its turn. */
  ghost predicate BackedUp(pre: Rows, m: Rows, docs: Documents, vecs: Vectors) {
    && (forall d | d in m :: d in pre)
    && (forall d | d in pre ::
          && (First(docs, d).Some? ==> First(docs, d).value == (pre[d].document, pre[d].issueIds))
          && (First(vecs, d).Some? ==> First(vecs, d).value == pre[d].vector)
          && (Backed(docs, vecs, d) || (d in m && m[d] == pre[d])
              || (d !in m && d.Passage? && Backed(docs, vecs, Turn(d.turn)))))
  }

  /** A pending delete that still finds its row belongs to a row that was backed up. */
  ghost predicate DeletesBacked(m: Rows, list: seq<Entry>, docs: Documents, vecs: Vectors) {
    forall i | 0 <= i < |list| && list[i].op == ToDelete && list[i].id in m ::
      Backed(docs, vecs, list[i].id)
  }

  /** The backup half of what every point keeps, for a run that began with the rows `pre`; a run that
      took over pending deletes whose rows were still there has no such rows. */
  ghost predicate Kept(pre: Option<Rows>, m: Rows, list: seq<Entry>, docs: Documents, vecs: Vectors) {
    pre.Some? ==> BackedUp(pre.value, m, docs, vecs) && DeletesBacked(m, list, docs, vecs)
  }

  // ---- Small steps ------------------------------------------------------------------------

  lemma CoveredSub(a: seq<Entry>, b: seq<Entry>, d: DocId)
    requires Sub(a, b) && Covered(a, d)
    ensures Covered(b, d)
  {
    var i :| 0 <= i < |a| && Covers(a[i], d);
    var j :| 0 <= j < |b| && b[j] == a[i];
  }

  lemma SoundSub(m: Rows, f: FtsRows, a: seq<Entry>, b: seq<Entry>, bad: set<DocId>)
    requires Sub(a, b) && Sound(m, f, a, bad)
    ensures Sound(m, f, b, bad)
  {
    forall d | d !in bad ensures Agree(m, f, d) || Covered(b, d) {
      if Covered(a, d) { CoveredSub(a, b, d); }
    }
  }

  lemma {:induction false} RemoveKeepsOthers(list: seq<Entry>, e: Entry, x: Entry)
    ensures x != e && x in list ==> x in Remove(list, e)
    ensures x in Remove(list, e) ==> x in list
  {
    if list != [] && list[0] != e {
      RemoveKeepsOthers(list[1..], e, x);
      assert x in list <==> x == list[0] || x in list[1..];
    } else if list != [] {
      assert x in list <==> x == list[0] || x in list[1..];
    }
  }

  lemma RemoveSub(list: seq<Entry>, e: Entry)
    ensures Sub(Remove(list, e), list)
  {
    forall i | 0 <= i < |Remove(list, e)| ensures Remove(list, e)[i] in list {
      RemoveKeepsOthers(list, e, Remove(list, e)[i]);
    }
  }

  lemma InCovers(list: seq<Entry>, e: Entry, d: DocId)
    requires e in list && Covers(e, d)
    ensures Covered(list, d)
  {
    var i :| 0 <= i < |list| && list[i] == e;
  }

  /** Once everything an entry repairs agrees, the entry may go. */
  lemma ClearEntry(m: Rows, f: FtsRows, list: seq<Entry>, e: Entry, bad: set<DocId>)
    requires Sound(m, f, list, bad)
    requires forall d | Covers(e, d) && d !in bad :: Agree(m, f, d)
    ensures Sound(m, f, Remove(list, e), bad)
  {
    forall d | d !in bad ensures Agree(m, f, d) || Covered(Remove(list, e), d) {
      if !Agree(m, f, d) {
        var i :| 0 <= i < |list| && Covers(list[i], d);
        RemoveKeepsOthers(list, e, list[i]);
        InCovers(Remove(list, e), list[i], d);
      }
    }
  }

  /** A delete that got anywhere, under its own pending entry. */
  lemma ShrinkSound(m: Rows, f: FtsRows, m': Rows, f': FtsRows, e: Entry, list: seq<Entry>, bad: set<DocId>)
    requires Sound(m, f, list, bad) && NoOrphans(m, bad) && e in list
    requires e.op == ToDelete || e.id !in m
    requires Shrunk(m, m', e.id) && ShrunkFts(f, f', e.id)
    ensures Sound(m', f', list, bad) && NoOrphans(m', bad)
  {
    forall d | d !in bad && !Covered(list, d) && Agree(m, f, d) ensures Agree(m', f', d) {
      if Covers(e, d) { InCovers(list, e, d); }
      if Under(e.id, d) && d != e.id { assert d.Passage? && e.id == Turn(d.turn); }
    }
    forall o | o in m' && o.Passage? && o !in bad ensures Turn(o.turn) in m' {
      assert Turn(o.turn) in m;
    }
  }

  lemma DeletedAgrees(m: Rows, f: FtsRows, e: Entry, bad: set<DocId>)
    requires NoOrphans(m, bad)
    ensures forall d | Covers(e, d) && d !in bad :: Agree(DeleteRow(m, e.id), WithoutDoc(f, e.id), d)
  {
    forall d | Covers(e, d) && d !in bad ensures Agree(DeleteRow(m, e.id), WithoutDoc(f, e.id), d) {
      if d in m && d != e.id { assert Turn(d.turn) in m; }
    }
  }

  lemma BackedShrink(pre: Rows, m: Rows, m': Rows, d: DocId, docs: Documents, vecs: Vectors)
    requires BackedUp(pre, m, docs, vecs) && Shrunk(m, m', d) && (d in m ==> Backed(docs, vecs, d))
    ensures BackedUp(pre, m', docs, vecs)
  {}

  /** Rows go into a log as they are read, so a first record holds the row before the run. */
  lemma DocumentKept(pre: Option<Rows>, m: Rows, list: seq<Entry>, docs: Documents, vecs: Vectors, d: DocId)
    requires Kept(pre, m, list, docs, vecs) && d in m
    ensures var docs' := docs + [Saved(d, (m[d].document, m[d].issueIds))];
            && Kept(pre, m, list, docs', vecs) && First(docs', d).Some?
            && (forall o | First(docs, o).Some? :: First(docs', o).Some?)
  {
    forall o: DocId { FirstAppend(docs, Saved(d, (m[d].document, m[d].issueIds)), o); }
  }

  lemma VectorKept(pre: Option<Rows>, m: Rows, list: seq<Entry>, docs: Documents, vecs: Vectors, d: DocId)
    requires Kept(pre, m, list, docs, vecs) && d in m
    ensures var vecs' := vecs + [Saved(d, m[d].vector)];
            && Kept(pre, m, list, docs, vecs') && First(vecs', d).Some?
            && (forall o | First(vecs, o).Some? :: First(vecs', o).Some?)
  {
    forall o: DocId { FirstAppend(vecs, Saved(d, m[d].vector), o); }
  }

  lemma UpsertKeeps(m: Rows, f: FtsRows, rows: Rows, landed: set<DocId>, list: seq<Entry>, bad: set<DocId>,
                    pre: Option<Rows>, docs: Documents, vecs: Vectors)
    requires Sound(m, f, list, bad) && NoOrphans(m, bad) && Kept(pre, m, list, docs, vecs)
    requires forall d | d in rows :: d in m && Entry(ToRewrite, d) in list && Backed(docs, vecs, d)
    ensures var m' := Merge(m, rows, landed);
            Sound(m', f, list, bad) && NoOrphans(m', bad) && Kept(pre, m', list, docs, vecs) && m'.Keys == m.Keys
  {
    var m' := Merge(m, rows, landed);
    forall d | d !in bad && !Covered(list, d) && Agree(m, f, d) ensures Agree(m', f, d) {
      if d in rows { InCovers(list, Entry(ToRewrite, d), d); }
    }
  }

  /** Rewriting one FTS row from Milvus: done it agrees, undone it is still on the list. */
  lemma FtsRewriteKeeps(m: Rows, f: FtsRows, f': FtsRows, d: DocId, list: seq<Entry>, bad: set<DocId>)
    requires Sound(m, f, list, bad) && d in m && Entry(ToRewrite, d) in list
    requires f' == f || f' == f - {d} || f' == f[d := FtsOf(m[d])]
    ensures Sound(m, f', list, bad)
    ensures f' == f[d := FtsOf(m[d])] ==> Sound(m, f', Remove(list, Entry(ToRewrite, d)), bad)
  {
    InCovers(list, Entry(ToRewrite, d), d);
    assert Sound(m, f', list, bad) by {
      forall o | o !in bad && !Covered(list, o) && Agree(m, f, o) ensures Agree(m, f', o) {}
    }
    if f' == f[d := FtsOf(m[d])] { ClearEntry(m, f', list, Entry(ToRewrite, d), bad); }
  }

  lemma {:induction false} KeptOrDropped(rules: Rules, m: Rows, ids: seq<DocId>, d: DocId)
    ensures d in Keep(rules, m, ids) <==> d in ids && d in m && !Drops(rules, m[d])
    ensures d in Drop(rules, m, ids) <==> d in ids && d in m && Drops(rules, m[d])
    ensures d in Present(m, ids) <==> d in ids && d in m
  {
    hide Drops;
    if ids != [] {
      KeptOrDropped(rules, m, ids[..|ids| - 1], d);
      assert d in ids <==> d in ids[..|ids| - 1] || d == ids[|ids| - 1];
    }
  }

  lemma {:induction false} Counts(rules: Rules, m: Rows, ids: seq<DocId>)
    ensures |Keep(rules, m, ids)| + |Drop(rules, m, ids)| == |Present(m, ids)| <= |ids|
  {
    hide Drops;
    if ids != [] { Counts(rules, m, ids[..|ids| - 1]); }
  }

  // ---- The process ------------------------------------------------------------------------

  class Rewriter {
    const rules: Rules

    // The stores.
    var milvus: Rows
    var fts: FtsRows

    // On disk.
    var worklist: seq<DocId>
    var saved: State
    var documents: Documents
    var vectors: Vectors

    // In memory.
    var state: State

    // Whether no call fails, no limit is met and nothing stops the process from here on.
    var calm: bool

    constructor (rules: Rules, milvus: Rows, fts: FtsRows, pending: seq<Entry>, calm: bool)
      ensures this.rules == rules && this.milvus == milvus && this.fts == fts && this.calm == calm
      ensures saved == State(0, 0, 0, 0, pending, Paused)
    {
      this.rules, this.milvus, this.fts, this.calm := rules, milvus, fts, calm;
      worklist, documents, vectors := [], [], [];
      saved, state := State(0, 0, 0, 0, pending, Paused), State(0, 0, 0, 0, pending, Paused);
    }

    /** What holds at every point, so whatever effect the process stops at. */
    ghost predicate Inv(bad: set<DocId>, pre: Option<Rows>) reads this {
      && Sound(milvus, fts, saved.ftsRetry, bad) && NoOrphans(milvus, bad)
      && Kept(pre, milvus, saved.ftsRetry, documents, vectors)
      && Course(rules, pre, milvus, saved.ftsRetry, worklist, saved.cursor)
      && Counted(saved)
    }

    predicate Counted(s: State) reads this {
      && s.cursor <= |worklist| && s.done + s.missing <= s.cursor
      && (s.status == Done ==> s.cursor == |worklist| && s.ftsRetry == [])
    }

    /** While the process runs, its own list is enough too, and saves nothing it dropped wrongly. */
    ghost predicate Live(bad: set<DocId>, pre: Option<Rows>) reads this {
      && Inv(bad, pre) && Sound(milvus, fts, state.ftsRetry, bad)
      && Sub(state.ftsRetry, saved.ftsRetry)
      && state.cursor == saved.cursor && state.cursor <= |worklist| && state.status == Running
    }

    method Save(ghost bad: set<DocId>, ghost pre: Option<Rows>)
      requires Inv(bad, pre) && Counted(state) && Sound(milvus, fts, state.ftsRetry, bad)
      requires Kept(pre, milvus, state.ftsRetry, documents, vectors)
      requires Course(rules, pre, milvus, state.ftsRetry, worklist, state.cursor)
      modifies this`saved
      ensures saved == state && Inv(bad, pre)
    {
      saved := state;
    }

    /** Delete the FTS row, insert the new one; a failure may leave it deleted. */
    method RewriteFtsRow(d: DocId) returns (ok: bool, end: End)
      requires d in milvus
      modifies this`fts
      ensures fts == old(fts) || fts == old(fts) - {d} || fts == old(fts)[d := FtsOf(milvus[d])]
      ensures ok ==> end == Fine && fts == old(fts)[d := FtsOf(milvus[d])]
      ensures calm ==> ok
      ensures end == Fine || end == Crashed
    {
      if { case !calm => return false, Fine; case true => }
      if { case !calm => return false, Crashed; case true => }
      fts := fts - {d};
      if { case !calm => return false, Fine; case true => }
      if { case !calm => return false, Crashed; case true => }
      fts := fts[d := FtsOf(milvus[d])];
      assert fts == old(fts)[d := FtsOf(milvus[d])];
      if { case !calm => return false, Crashed; case true => }
      return true, Fine;
    }

    /** Passages of a turn that is there, then the doc's own row, then its FTS rows. */
    method DeleteByDocId(d: DocId) returns (ftsOk: bool, end: End)
      modifies this`milvus, this`fts
      ensures Shrunk(old(milvus), milvus, d) && ShrunkFts(old(fts), fts, d)
      ensures end == Fine ==> milvus == DeleteRow(old(milvus), d)
      ensures end == Fine && ftsOk ==> fts == WithoutDoc(old(fts), d)
      ensures calm ==> end == Fine && ftsOk
      ensures end == Fine || end == Raised || end == Crashed
    {
      ftsOk := false;
      if d in milvus {
        if d.Turn? {
          var under := set o | o in milvus && Under(d, o) && o != d;
          var part := Part(under);
          if {
            case !calm =>
              milvus := milvus - part;
              if { case true => return false, Raised; case true => return false, Crashed; }
            case true =>
          }
          milvus := milvus - under;
        }
        if { case !calm => return false, Raised; case !calm => return false, Crashed; case true => }
        milvus := milvus - {d};
        assert milvus == WithoutDoc(old(milvus), d);
      }
      if { case !calm => return false, Crashed; case true => }
      var gone := set o | o in fts && Under(d, o);
      if {
        case !calm =>
          var part := Part(gone);
          fts := fts - part;
          if { case true => return false, Crashed; case true => return false, Fine; }
        case true =>
      }
      fts := fts - gone;
      assert fts == WithoutDoc(old(fts), d);
      return true, Fine;
    }

    /** Retry entry `i` of the list; `still` failed before it. */
    method RetryOne(list: seq<Entry>, i: nat, still: seq<Entry>, ghost bad: set<DocId>, ghost pre: Option<Rows>)
      returns (ok: bool, end: End)
      requires Inv(bad, pre) && list == saved.ftsRetry && i < |list|
      requires Sound(milvus, fts, still + list[i..], bad)
      modifies this`milvus, this`fts
      ensures Inv(bad, pre) && Sound(milvus, fts, still + list[i..], bad)
      ensures ok ==> end == Fine && Sound(milvus, fts, still + list[i + 1..], bad)
      ensures ok ==> milvus == RetryRow(old(milvus), list[i])
      ensures milvus.Keys <= old(milvus.Keys)
      ensures calm ==> ok
      ensures end == Fine || end == Crashed
    {
      hide Sound, NoOrphans, Kept, Course, Shrunk, ShrunkFts, DeleteRow, WithoutDoc;
      var e := list[i];
      ghost var m, f := milvus, fts;
      if { case !calm => return false, Crashed; case true => }
      if { case !calm => return false, Fine; case true => }
      if e.op == ToRewrite && e.id in milvus {
        ok, end := RewriteFtsRow(e.id);
        RetriedRewrite(m, f, fts, e, still, list, i, ok, bad);
      } else {
        ok, end := DeleteByDocId(e.id);
        ok := ok && end == Fine;
        RetriedDelete(m, f, milvus, fts, e, still, list, i, ok, bad);
        ShrinkKept(pre, m, milvus, list, i, documents, vectors);
        EntryShrinks(rules, pre, m, milvus, e, list, worklist, saved.cursor);
        ShrunkKeys(m, milvus, e.id);
        end := if end == Raised then Fine else end;
      }
    }

    /** Retry a list of entries; returns the ones that failed again. */
    method RetryList(list: seq<Entry>, ghost bad: set<DocId>, ghost pre: Option<Rows>)
      returns (still: seq<Entry>, end: End)
      requires Inv(bad, pre) && list == saved.ftsRetry
      modifies this`milvus, this`fts
      ensures Inv(bad, pre)
      ensures end == Fine ==> Sound(milvus, fts, still, bad) && Sub(still, list)
      ensures end == Fine && still == [] ==> milvus == RetryRows(old(milvus), list)
      ensures calm ==> end == Fine && still == []
      ensures end == Fine || end == Crashed
    {
      hide Sound, NoOrphans, Kept, Course, RetryRow, Sub;
      still := [];
      SubEmpty(list);
      SoundAtStart(milvus, fts, list, bad);
      for i := 0 to |list|
        invariant Inv(bad, pre) && Sound(milvus, fts, still + list[i..], bad)
        invariant Sub(still, list)
        invariant still == [] ==> milvus == RetryRows(old(milvus), list[..i])
        invariant calm ==> still == []
      {
        var ok;
        ok, end := RetryOne(list, i, still, bad, pre);
        if end == Crashed { return still, Crashed; }
        assert list[..i + 1][..i] == list[..i];
        if !ok {
          assert still + list[i..] == still + [list[i]] + list[i + 1..];
          SubPush(still, list, i);
          still := still + [list[i]];
        }
      }
      assert list[..|list|] == list && still + list[|list|..] == still;
      return still, Fine;
    }

    /** Retry every pending FTS write; what fails again stays. */
    method RetryFts(ghost bad: set<DocId>, ghost pre: Option<Rows>) returns (end: End)
      requires Live(bad, pre) && state == saved
      modifies this`milvus, this`fts, this`state, this`saved
      ensures Inv(bad, pre)
      ensures end == Fine ==> Live(bad, pre) && state == saved && state.cursor == old(state.cursor)
      ensures end == Fine ==> state.done + state.missing <= state.cursor <= |worklist|
      ensures end == Fine && state.ftsRetry == [] ==> milvus == RetryRows(old(milvus), old(state.ftsRetry))
      ensures calm ==> end == Fine && state.ftsRetry == []
      ensures end == Fine || end == Crashed
    {
      hide Sound, NoOrphans, Kept, Course, RetryRows, Sub;
      var still;
      still, end := RetryList(state.ftsRetry, bad, pre);
      if end == Crashed { return Crashed; }
      SubKept(pre, milvus, still, state.ftsRetry, documents, vectors);
      CourseSub(rules, pre, milvus, still, state.ftsRetry, worklist, state.cursor);
      state := state.(ftsRetry := still);
      if { case !calm => return Crashed; case true => }
      Save(bad, pre);
      SubItself(still);
    }

    /** Old documents, then old vectors, of the rows as read; a failure leaves some of them. */
    method Backup(rows: seq<DocId>, ghost bad: set<DocId>, ghost pre: Option<Rows>) returns (end: End)
      requires Live(bad, pre) && forall d | d in rows :: d in milvus
      modifies this`documents, this`vectors
      ensures Live(bad, pre) && Inv(bad, pre)
      ensures end == Fine ==> forall d | d in rows :: Backed(documents, vectors, d)
      ensures Recorded(old(documents), documents, milvus.Keys) && Recorded(old(vectors), vectors, milvus.Keys)
      ensures calm ==> end == Fine
      ensures end == Fine || end == Raised || end == Crashed
    {
      hide Sound, NoOrphans, Kept, Course, First, Recorded;
      RecordedNone(documents, milvus.Keys);
      RecordedNone(vectors, milvus.Keys);
      for i := 0 to |rows|
        invariant Live(bad, pre) && Recorded(old(documents), documents, milvus.Keys) && vectors == old(vectors)
        invariant forall j | 0 <= j < i :: First(documents, rows[j]).Some?
      {
        if { case !calm => return Crashed; case true => }
        if { case !calm => return Raised; case true => }
        var d := rows[i];
        DocumentKept(pre, milvus, saved.ftsRetry, documents, vectors, d);
        RecordedNext(old(documents), documents, Saved(d, (milvus[d].document, milvus[d].issueIds)), milvus.Keys);
        documents := documents + [Saved(d, (milvus[d].document, milvus[d].issueIds))];
      }
      for i := 0 to |rows|
        invariant Live(bad, pre) && Recorded(old(documents), documents, milvus.Keys)
        invariant Recorded(old(vectors), vectors, milvus.Keys)
        invariant forall j | 0 <= j < |rows| :: First(documents, rows[j]).Some?
        invariant forall j | 0 <= j < i :: First(vectors, rows[j]).Some?
      {
        if { case !calm => return Crashed; case true => }
        if { case !calm => return Raised; case true => }
        var d := rows[i];
        VectorKept(pre, milvus, saved.ftsRetry, documents, vectors, d);
        RecordedNext(old(vectors), vectors, Saved(d, milvus[d].vector), milvus.Keys);
        vectors := vectors + [Saved(d, milvus[d].vector)];
      }
      return Fine;
    }

    /** One call; on a failure any of the rows may have landed. */
    method Upsert(rows: Rows, ghost bad: set<DocId>, ghost pre: Option<Rows>) returns (end: End)
      requires Live(bad, pre)
      requires forall d | d in rows :: d in milvus && Entry(ToRewrite, d) in state.ftsRetry
                                       && Backed(documents, vectors, d)
      requires Planned(rules, milvus, rows, worklist)
      modifies this`milvus
      ensures Live(bad, pre) && Inv(bad, pre) && milvus.Keys == old(milvus.Keys)
      ensures end == Fine ==> milvus == Merge(old(milvus), rows, rows.Keys)
      ensures calm ==> end == Fine
      ensures end == Fine || end == Raised || end == Crashed
    {
      hide Sound, NoOrphans, Kept, Course, Backed, Planned;
      var landed := rows.Keys;
      end := Fine;
      if {
        case !calm =>
          landed := Part(rows.Keys);
          if { case true => end := Raised; case true => end := Crashed; }
        case true =>
      }
      InBoth(rows, state.ftsRetry, saved.ftsRetry);
      UpsertKeeps(milvus, fts, rows, landed, saved.ftsRetry, bad, pre, documents, vectors);
      UpsertSound(milvus, fts, rows, landed, state.ftsRetry, bad);
      CourseUpserts(rules, pre, milvus, rows, landed, saved.ftsRetry, worklist, saved.cursor);
      milvus := Merge(milvus, rows, landed);
    }

    /** The FTS row of every kept row; a failed one stays on the list. */
    method RewriteKept(keep: seq<DocId>, ghost rest: multiset<Entry>, ghost others: multiset<Entry>,
                       ghost bad: set<DocId>, ghost pre: Option<Rows>)
      returns (end: End)
      requires Live(bad, pre) && forall d | d in keep :: d in milvus
      requires Exactly(state.ftsRetry, others, Entries(ToRewrite, keep), 0, rest)
      modifies this`fts, this`state
      ensures Live(bad, pre) && Inv(bad, pre) && state == old(state).(ftsRetry := state.ftsRetry)
      ensures end == Fine ==> AtLeast(state.ftsRetry, Entries(ToRewrite, keep), |keep|, rest)
      ensures calm ==> end == Fine && Exactly(state.ftsRetry, others, Entries(ToRewrite, keep), |keep|, rest)
      ensures end == Fine || end == Crashed
    {
      hide Sound, NoOrphans, Kept, Course, Remove, Exactly, AtLeast, Sub;
      var rewrites := Entries(ToRewrite, keep);
      ExactIsAtLeast(state.ftsRetry, others, rewrites, 0, rest);
      for i := 0 to |keep|
        invariant Live(bad, pre) && state == old(state).(ftsRetry := state.ftsRetry)
        invariant AtLeast(state.ftsRetry, rewrites, i, rest)
        invariant calm ==> Exactly(state.ftsRetry, others, rewrites, i, rest)
      {
        NextPending(state.ftsRetry, others, rewrites, i, rest);
        ghost var f := fts;
        var ok;
        ok, end := RewriteFtsRow(keep[i]);
        SubHas(state.ftsRetry, saved.ftsRetry, rewrites[i]);
        FtsRewriteKeeps(milvus, f, fts, keep[i], saved.ftsRetry, bad);
        FtsRewriteKeeps(milvus, f, fts, keep[i], state.ftsRetry, bad);
        if end == Crashed { return Crashed; }
        if ok {
          RemoveSubOf(state.ftsRetry, rewrites[i], saved.ftsRetry);
          state := state.(ftsRetry := Remove(state.ftsRetry, rewrites[i]));
        }
      }
      return Fine;
    }

    /** The dropped rows leave both stores; a failed FTS delete stays on the list. */
    method DeleteDropped(drop: seq<DocId>, ghost others: multiset<Entry>, ghost bad: set<DocId>,
                         ghost pre: Option<Rows>)
      returns (end: End)
      requires Live(bad, pre) && AtLeast(state.ftsRetry, Entries(ToDelete, drop), 0, multiset{})
      modifies this`milvus, this`fts, this`state
      ensures Live(bad, pre) && Inv(bad, pre) && state == old(state).(ftsRetry := state.ftsRetry)
      ensures end == Fine ==> milvus == DeleteRows(old(milvus), drop)
      ensures milvus.Keys <= old(milvus.Keys)
      ensures calm ==> end == Fine
      ensures calm && Exactly(old(state.ftsRetry), others, Entries(ToDelete, drop), 0, multiset{}) ==>
                Exactly(state.ftsRetry, others, Entries(ToDelete, drop), |drop|, multiset{})
      ensures end == Fine || end == Raised || end == Crashed
    {
      hide Sound, NoOrphans, Kept, Course, Remove, Shrunk, ShrunkFts, DeleteRow, WithoutDoc, Exactly, AtLeast, Sub;
      var deletes := Entries(ToDelete, drop);
      ghost var exact := Exactly(state.ftsRetry, others, deletes, 0, multiset{});
      for i := 0 to |drop|
        invariant Live(bad, pre) && state == old(state).(ftsRetry := state.ftsRetry)
        invariant milvus == DeleteRows(old(milvus), drop[..i]) && milvus.Keys <= old(milvus.Keys)
        invariant AtLeast(state.ftsRetry, deletes, i, multiset{})
        invariant calm && exact ==> Exactly(state.ftsRetry, others, deletes, i, multiset{})
      {
        NextPending(state.ftsRetry, others, deletes, i, multiset{});
        assert drop[..i + 1][..i] == drop[..i];
        ghost var m, f := milvus, fts;
        var ok;
        ok, end := DeleteByDocId(drop[i]);
        SubHas(state.ftsRetry, saved.ftsRetry, deletes[i]);
        EntryShrinks(rules, pre, m, milvus, deletes[i], saved.ftsRetry, worklist, saved.cursor);
        ShrunkKeys(m, milvus, drop[i]);
        DropStep(m, f, milvus, fts, deletes[i], state.ftsRetry, saved.ftsRetry, ok && end == Fine, bad, pre,
                 documents, vectors);
        if end != Fine { return end; }
        if ok {
          RemoveSubOf(state.ftsRetry, deletes[i], saved.ftsRetry);
          state := state.(ftsRetry := Remove(state.ftsRetry, deletes[i]));
        }
      }
      assert drop[..|drop|] == drop;
      return Fine;
    }

    /** The FTS writes of a batch go on the list, on disk, before Milvus changes. */
    method LogPending(keep: seq<DocId>, drop: seq<DocId>, ghost bad: set<DocId>, ghost pre: Option<Rows>)
      returns (end: End)
      requires Live(bad, pre) && state.done + state.missing <= state.cursor
      requires forall d | d in drop :: Backed(documents, vectors, d)
      requires forall d | d in drop :: d in worklist && (d in milvus ==> Drops(rules, milvus[d]))
      modifies this`state, this`saved
      ensures Inv(bad, pre)
      ensures end == Fine ==>
                && Live(bad, pre) && state == old(state).(ftsRetry := state.ftsRetry)
                && (forall d | d in keep :: Entry(ToRewrite, d) in state.ftsRetry)
                && Exactly(state.ftsRetry, multiset(old(state.ftsRetry)), Entries(ToRewrite, keep), 0,
                           multiset(Entries(ToDelete, drop)))
      ensures calm ==> end == Fine
      ensures end == Fine || end == Crashed
    {
      hide Sound, NoOrphans, Kept, Course, Backed, Exactly, Entries, Sub, Drops;
      CourseSub(rules, pre, milvus, state.ftsRetry, saved.ftsRetry, worklist, saved.cursor);
      CourseLogs(rules, pre, milvus, state.ftsRetry, keep, drop, worklist, saved.cursor);
      Extended(milvus, fts, state.ftsRetry, keep, drop, bad, pre, saved.ftsRetry, documents, vectors);
      state := state.(ftsRetry := state.ftsRetry + (Entries(ToRewrite, keep) + Entries(ToDelete, drop)));
      if { case !calm => return Crashed; case true => }
      Save(bad, pre);
      return Fine;
    }

    /** The two stores, once a batch is logged: Milvus in one call, then row by row. */
    method WriteBatch(updated: Rows, keep: seq<DocId>, drop: seq<DocId>, ghost before: multiset<Entry>,
                      ghost bad: set<DocId>, ghost pre: Option<Rows>)
      returns (end: End)
      requires Live(bad, pre) && updated.Keys == (set d | d in keep) && forall d | d in keep :: d in milvus
      requires forall d | d in keep :: Entry(ToRewrite, d) in state.ftsRetry && Backed(documents, vectors, d)
      requires Exactly(state.ftsRetry, before, Entries(ToRewrite, keep), 0, multiset(Entries(ToDelete, drop)))
      requires Planned(rules, milvus, updated, worklist)
      modifies this`milvus, this`fts, this`state
      ensures Inv(bad, pre)
      ensures end != Crashed ==> Live(bad, pre) && state == old(state).(ftsRetry := state.ftsRetry)
      ensures end == Fine ==> milvus == DeleteRows(Merge(old(milvus), updated, updated.Keys), drop)
      ensures milvus.Keys <= old(milvus.Keys)
      ensures calm ==> end == Fine && multiset(state.ftsRetry) == before
      ensures end == Fine || end == Raised || end == Crashed
    {
      hide Inv, Live, Backed, Exactly, AtLeast, Merge, Entries, DeleteRows, Planned;
      end := Upsert(updated, bad, pre);
      if end != Fine { return end; }
      ghost var deletes := Entries(ToDelete, drop);
      end := RewriteKept(keep, multiset(deletes), before, bad, pre);
      if end != Fine { return end; }
      NextList(state.ftsRetry, before, Entries(ToRewrite, keep), deletes);
      end := DeleteDropped(drop, before, bad, pre);
      if end != Fine { return end; }
      LastList(state.ftsRetry, before, deletes);
    }

    /** Strip, redact, re-embed and write one batch, dropping rows left too short. */
    method RewriteBatch(ids: seq<DocId>, ghost bad: set<DocId>, ghost pre: Option<Rows>)
      returns (end: End)
      requires Live(bad, pre) && Inv(bad, pre) && state.done + state.missing <= state.cursor
      requires forall d | d in ids :: d in worklist
      modifies this`milvus, this`fts, this`state, this`saved, this`documents, this`vectors
      ensures Inv(bad, pre)
      ensures milvus.Keys <= old(milvus.Keys)
      ensures Recorded(old(documents), documents, old(milvus.Keys)) && Recorded(old(vectors), vectors, old(milvus.Keys))
      ensures end != Crashed ==>
                Live(bad, pre) && state == old(state).(ftsRetry := state.ftsRetry, done := state.done)
      ensures end == Fine ==>
                && milvus == BatchRows(rules, old(milvus), ids)
                && state.done == old(state.done) + |Keep(rules, old(milvus), ids)|
      ensures end == Raised || end == Denied ==> state.done == old(state.done)
      ensures calm ==> end == Fine && multiset(state.ftsRetry) == multiset(old(state.ftsRetry))
    {
      hide Sound, NoOrphans, Kept, Course, DeleteRows, Drops, NewRow, Present, Keep, Drop, Backed, Exactly,
        AtLeast, Sub, Merge, Entries, Updated, Planned, Recorded;
      RecordedNone(documents, milvus.Keys);
      RecordedNone(vectors, milvus.Keys);
      var rows, keep, drop := Present(milvus, ids), Keep(rules, milvus, ids), Drop(rules, milvus, ids);
      ghost var before := multiset(state.ftsRetry);
      forall d { KeptOrDropped(rules, milvus, ids, d); }
      if { case !calm => return Crashed; case true => }
      if keep != [] {
        if { case !calm => return Denied; case true => }
        if { case !calm => return Raised; case true => }
      }
      var updated := Updated(rules, milvus, keep);
      UpdatedKeys(rules, milvus, keep);
      UpdatedPlanned(rules, milvus, ids, worklist);
      end := Backup(rows, bad, pre);
      if end != Fine { return end; }
      end := LogPending(keep, drop, bad, pre);
      if end != Fine { return end; }
      end := WriteBatch(updated, keep, drop, before, bad, pre);
      if end != Fine { return end; }
      state := state.(done := state.done + |keep|);
    }

    /** A fresh run: a new worklist and new backup files, the pending entries carried over. */
    method Begin(ids: seq<DocId>, ghost bad: set<DocId>)
      requires Sound(milvus, fts, saved.ftsRetry, bad) && NoOrphans(milvus, bad)
      modifies this`worklist, this`saved, this`documents, this`vectors
      ensures worklist == ids && saved == State(0, 0, 0, 0, old(saved.ftsRetry), Running)
      ensures documents == [] && vectors == []
      ensures Inv(bad, None)
      ensures Inv(bad, Some(milvus)) <==> NoLiveDelete(milvus, saved.ftsRetry)
    {
      worklist := ids;
      saved := State(0, 0, 0, 0, saved.ftsRetry, Running);
      documents, vectors := [], [];
      if NoLiveDelete(milvus, saved.ftsRetry) { CourseStarts(rules, milvus, saved.ftsRetry, worklist); }
    }

    /** A finished run leaves no divergence. */
    lemma DoneAgrees(bad: set<DocId>, pre: Option<Rows>)
      requires Inv(bad, pre) && saved.status == Done
      ensures forall d | d !in bad :: Agree(milvus, fts, d)
    {}

    /** A finished run, row by row: outside what differed before, a doc is in both stores with one text, one set of issue ids
        and one set of columns, or in neither. */
    lemma DoneColumns(bad: set<DocId>, pre: Option<Rows>, d: DocId)
      requires Inv(bad, pre) && saved.status == Done && d !in bad
      ensures d in milvus <==> d in fts
      ensures d in milvus ==>
                && fts[d].content == milvus[d].document && fts[d].issueIds == milvus[d].issueIds
                && fts[d].columns == milvus[d].columns
    {
      DoneAgrees(bad, pre);
      AgreeIs(milvus, fts, d);
    }

    /** At every point: each row the cursor has passed and that is still there holds its text from before the run
        rewritten at least once; what is gone was too short when its turn came. */
    lemma PassedRows(bad: set<DocId>, pre: Rows, d: DocId)
      requires Inv(bad, Some(pre)) && d in worklist[..saved.cursor] && d in pre
      ensures d in milvus ==> exists k: nat :: k > 0 && After(rules, pre, d, milvus[d], k)
      ensures d !in milvus ==> Gone(rules, pre, worklist, d)
    {
      hide Sound, NoOrphans, Kept, DeletesCourse, After, Gone, Titled;
      if d in milvus { var k: nat :| After(rules, pre, d, milvus[d], k) && k > 0; }
    }

    /** Whatever stopped it on the way, a finished run has rewritten each worklist row once, and dropped exactly
        those that were too short, when rewriting again changes nothing. */
    lemma DoneText(bad: set<DocId>, pre: Rows)
      requires Inv(bad, Some(pre)) && saved.status == Done && Replays(rules)
      ensures TextIs(rules, pre, worklist, milvus)
    {
      hide Sound, NoOrphans, Kept, Course, Replays, TextIs;
      CourseText(rules, pre, milvus, saved.ftsRetry, worklist);
    }

    /** The vector of each of those rows is of its cleaned text and its turn's title, either of them from before the run or
        as one rewrite left it. */
    lemma DoneVector(bad: set<DocId>, pre: Rows, d: DocId)
      requires Inv(bad, Some(pre)) && saved.status == Done && Replays(rules) && d in worklist && d in milvus
      ensures d in pre && VectorOnce(rules, pre, d, milvus[d].vector)
    {
      hide Sound, NoOrphans, Kept, Course, Replays, VectorOnce;
      CourseVector(rules, pre, milvus, saved.ftsRetry, worklist, d);
    }

    method Open(ghost bad: set<DocId>, ghost pre: Option<Rows>) returns (end: End)
      requires Inv(bad, pre) && saved.status != Done
      modifies this`state, this`saved
      ensures Inv(bad, pre)
      ensures end == Fine ==> Live(bad, pre) && state == saved == old(saved).(status := Running)
      ensures calm ==> end == Fine
      ensures end == Fine || end == Crashed
    {
      hide Sound, NoOrphans, Kept, Course;
      state := saved.(status := Running);
      if { case !calm => return Crashed; case true => }
      SubItself(state.ftsRetry);
      Save(bad, pre);
      return Fine;
    }

    /** The batch up to worklist entry `upto`, and the checkpoint after it. */
    method NextBatch(upto: nat, ghost bad: set<DocId>, ghost pre: Option<Rows>) returns (end: End)
      requires Live(bad, pre) && state == saved && state.cursor <= upto <= |worklist|
      modifies this`milvus, this`fts, this`saved, this`state, this`documents, this`vectors
      ensures Inv(bad, pre)
      ensures end != Crashed ==> Live(bad, pre) && state.done + state.missing <= state.cursor <= |worklist|
      ensures end == Fine ==>
                && state == saved && state.cursor == upto
                && milvus == BatchRows(rules, old(milvus), worklist[old(state.cursor)..upto])
      ensures Logged(old(documents), old(vectors), old(milvus.Keys), documents, vectors, milvus.Keys)
      ensures end == Fine ==>
                var ids := worklist[old(state.cursor)..upto];
                && state.done == old(state.done) + |Keep(rules, old(milvus), ids)|
                && state.missing == old(state.missing) + |ids| - |Present(old(milvus), ids)|
      ensures end == Raised ==> state.cursor == old(state.cursor) && state.errors == old(state.errors) + 1
      ensures end == Denied ==> state.cursor == old(state.cursor) && state.errors == old(state.errors)
      ensures calm ==> end == Fine && (old(state.ftsRetry) == [] ==> state.ftsRetry == [])
    {
      hide Sound, NoOrphans, Kept, Course, BatchRows, Present, Keep, Drop, Recorded, TextIs;
      var ids := worklist[state.cursor..upto];
      RecordedNone(documents, milvus.Keys);
      RecordedNone(vectors, milvus.Keys);
      ghost var m, n := milvus, state.cursor;
      SubEmpty(saved.ftsRetry);
      CourseSub(rules, pre, milvus, [], saved.ftsRetry, worklist, saved.cursor);
      if {
        case !calm =>  // The rows could not be read.
          state := state.(errors := state.errors + 1);
          return Raised;
        case true =>
      }
      var present := |Present(milvus, ids)|;
      Counts(rules, milvus, ids);
      if present > 0 {
        end := RewriteBatch(ids, bad, pre);
        if end == Raised { state := state.(errors := state.errors + 1); }
        if end != Fine { return end; }
      } else {
        NonePresent(rules, milvus, ids);
      }
      state := state.(cursor := upto, missing := state.missing + (|ids| - present));
      if { case !calm => return Crashed; case true => }
      SubKept(pre, milvus, state.ftsRetry, saved.ftsRetry, documents, vectors);
      BatchText(rules, m, ids);
      BatchVectors(rules, m, ids);
      CoursePasses(rules, pre, m, milvus, saved.ftsRetry, worklist, n, upto);
      CourseSub(rules, pre, milvus, state.ftsRetry, saved.ftsRetry, worklist, upto);
      Save(bad, pre);
      SubItself(state.ftsRetry);
      return Fine;
    }

    /** The end of a chunk is saved: finished only with nothing pending. */
    method Close(ghost bad: set<DocId>, ghost pre: Option<Rows>) returns (outcome: Outcome)
      requires Live(bad, pre) && state.done + state.missing <= state.cursor
      modifies this`saved, this`state
      ensures Inv(bad, pre)
      ensures outcome == Finished ==> saved.status == Done
      ensures outcome == Stopped || (outcome == Finished <==> old(state.cursor) == |worklist| && old(state.ftsRetry) == [])
      ensures calm ==> outcome != Stopped
      ensures outcome != Stopped ==> saved.cursor == old(state.cursor)
    {
      hide Sound, NoOrphans, Kept, Course;
      outcome := if state.cursor == |worklist| && state.ftsRetry == [] then Finished else PausedRun;
      state := state.(status := if outcome == Finished then Done else Paused);
      if { case !calm => return Stopped; case true => }
      SubKept(pre, milvus, state.ftsRetry, saved.ftsRetry, documents, vectors);
      CourseSub(rules, pre, milvus, state.ftsRetry, saved.ftsRetry, worklist, saved.cursor);
      Save(bad, pre);
    }

    /** Batches until the worklist, a limit, the embedding budget or a failure ends it. */
    method Batches(size: nat, maxTurns: Option<nat>, ghost bad: set<DocId>, ghost pre: Option<Rows>) returns (end: End)
      requires size > 0 && Live(bad, pre) && state == saved && state.done + state.missing <= state.cursor
      modifies this`milvus, this`fts, this`saved, this`state, this`documents, this`vectors
      ensures Inv(bad, pre)
      ensures end != Crashed ==> Live(bad, pre) && state.done + state.missing <= state.cursor <= |worklist|
      ensures Logged(old(documents), old(vectors), old(milvus.Keys), documents, vectors, milvus.Keys)
      ensures calm ==>
                && end != Crashed && state.cursor == LimitFrom(old(state.cursor), maxTurns, |worklist|)
                && (old(state.ftsRetry) == [] ==> state.ftsRetry == [])
                && (maxTurns.None? ==> milvus == RunRows(rules, old(milvus), worklist[old(state.cursor)..], size))
    {
      hide Inv, Live, RunRows, BatchRows, NextSize, LimitFrom, Logged;
      LoggedNone(documents, vectors, milvus.Keys);
      LiveWithin(bad, pre);
      end := Fine;
      var chunk: nat, broke := 0, false;
      while state.cursor < |worklist| && !broke
        invariant Live(bad, pre) && end != Crashed && state.done + state.missing <= state.cursor <= |worklist|
        invariant broke ==> !calm || Spent(maxTurns, chunk)
        invariant calm ==> state.cursor == old(state.cursor) + chunk && (old(state.ftsRetry) == [] ==> state.ftsRetry == [])
        invariant Within(maxTurns, chunk)
        invariant Logged(old(documents), old(vectors), old(milvus.Keys), documents, vectors, milvus.Keys)
        invariant !broke ==> state == saved
        invariant !broke && maxTurns.None? ==>
            RunRows(rules, milvus, worklist[state.cursor..], size)
            == RunRows(rules, old(milvus), worklist[old(state.cursor)..], size)
        decreases |worklist| - state.cursor, !broke
      {
        if Spent(maxTurns, chunk) { broke := true; break; }
        if { case !calm => broke := true; break; case true => }
        var upto := state.cursor + NextSize(maxTurns, chunk, size, |worklist| - state.cursor);
        chunk := chunk + (upto - state.cursor);
        ghost var before, rest := milvus, worklist[state.cursor..];
        ghost var docs, vecs := documents, vectors;
        Slices(worklist, state.cursor, upto);
        end := NextBatch(upto, bad, pre);
        LoggedOn(old(documents), old(vectors), old(milvus.Keys), docs, vecs, before.Keys, documents, vectors, milvus.Keys);
        if end == Crashed { LiveInv(bad, pre); return; }
        if end != Fine { broke := true; break; }
        RunStep(rules, before, rest, size);
      }
      if calm { LimitReached(old(state.cursor), chunk, maxTurns, |worklist|); }
      assert worklist[|worklist|..] == [];
      RunNone(rules, milvus, size);
      LiveInv(bad, pre);
    }

    lemma LiveWithin(bad: set<DocId>, pre: Option<Rows>)
      requires Live(bad, pre)
      ensures state.cursor <= |worklist|
    {}

    lemma LiveInv(bad: set<DocId>, pre: Option<Rows>)
      ensures Live(bad, pre) ==> Inv(bad, pre)
    {}

    /** One chunk: retry what is pending, go on from the checkpoint, and save how it ended. */
    method Run(size: nat, maxTurns: Option<nat>, ghost bad: set<DocId>, ghost pre: Option<Rows>) returns (outcome: Outcome)
      requires size > 0 && Inv(bad, pre)
      modifies this`milvus, this`fts, this`saved, this`state, this`documents, this`vectors
      ensures Inv(bad, pre)
      ensures outcome == Finished ==> saved.status == Done && forall d | d !in bad :: Agree(milvus, fts, d)
      ensures outcome == Finished && pre.Some? && Replays(rules) ==> TextIs(rules, pre.value, worklist, milvus)
      ensures calm && old(saved.status) != Done ==>
                var kept := RetryRows(old(milvus), old(saved.ftsRetry)).Keys;
                Logged(old(documents), old(vectors), kept, documents, vectors, milvus.Keys)
      ensures calm && maxTurns.None? ==>
                && outcome == Finished
                && milvus == (if old(saved.status) == Done then old(milvus)
                              else ChunkRows(rules, old(milvus), old(saved), worklist, size))
      ensures calm && old(saved.status) != Done ==> saved.cursor == LimitFrom(old(saved.cursor), maxTurns, |worklist|)
    {
      hide Inv, Live, Agree, RetryRows, RunRows, Logged, Replays, TextIs;
      if saved.status == Done {
        DoneAgrees(bad, pre);
        if pre.Some? && Replays(rules) { DoneText(bad, pre.value); }
        return Finished;
      }
      var end := Open(bad, pre);
      if end == Crashed { return Stopped; }
      end := RetryFts(bad, pre);
      if end == Crashed { return Stopped; }
      end := Batches(size, maxTurns, bad, pre);
      if end == Crashed { return Stopped; }
      outcome := Close(bad, pre);
      if outcome == Finished {
        DoneAgrees(bad, pre);
        if pre.Some? && Replays(rules) { DoneText(bad, pre.value); }
      }
    }

    /** Any number of chunks, each of them stopped, paused, failed or finished anywhere; when nothing goes
        wrong in the last one, the run is finished whatever happened before. */
    method RunAll(sizes: seq<nat>, maxTurns: Option<nat>, lastCalm: bool, ghost bad: set<DocId>, ghost pre: Option<Rows>)
      requires Inv(bad, pre) && forall i | 0 <= i < |sizes| :: sizes[i] > 0
      modifies this`milvus, this`fts, this`saved, this`state, this`documents, this`vectors, this`calm
      ensures Inv(bad, pre)
      ensures saved.status == Done ==> forall d | d !in bad :: Agree(milvus, fts, d)
      ensures saved.status == Done && pre.Some? && Replays(rules) ==> TextIs(rules, pre.value, worklist, milvus)
      ensures sizes != [] && lastCalm && maxTurns.None? ==> saved.status == Done
    {
      hide Sound, NoOrphans, Kept, Course, ChunkRows, RetryRows, Recorded, Replays, TextIs;
      for i := 0 to |sizes|
        invariant Inv(bad, pre)
        invariant i == |sizes| > 0 && lastCalm && maxTurns.None? ==> saved.status == Done
      {
        if { case true => calm := true; case i < |sizes| - 1 || !lastCalm => calm := false; }
        var _ := Run(sizes[i], maxTurns, bad, pre);
      }
      if saved.status == Done {
        DoneAgrees(bad, pre);
        if pre.Some? && Replays(rules) { DoneText(bad, pre.value); }
      }
    }

    /** A fresh run and its first chunk. What was backed up or is still there afterwards includes no row that a
        carried-over delete still found: the retry takes it before anything is read. */
    method Restart(ids: seq<DocId>, size: nat, maxTurns: Option<nat>, ghost bad: set<DocId>) returns (outcome: Outcome)
      requires size > 0 && Sound(milvus, fts, saved.ftsRetry, bad) && NoOrphans(milvus, bad)
      modifies this`milvus, this`fts, this`worklist, this`saved, this`state, this`documents, this`vectors
      ensures worklist == ids && Inv(bad, None)
      ensures NoLiveDelete(old(milvus), old(saved.ftsRetry)) ==> Inv(bad, Some(old(milvus)))
      ensures calm ==>
                forall e | e in old(saved.ftsRetry) && e.op == ToDelete && e.id in old(milvus) ::
                  e.id !in milvus && First(documents, e.id).None? && First(vectors, e.id).None?
    {
      hide Sound, NoOrphans, Kept, Course, NoLiveDelete, RetryRows, ChunkRows, Recorded, Replays, TextIs;
      ghost var pre, list := milvus, saved.ftsRetry;
      Begin(ids, bad);
      ghost var start := if NoLiveDelete(pre, list) then Some(pre) else None;
      outcome := Run(size, maxTurns, bad, start);
      if start.Some? { WeakerInv(bad, pre); }
      forall e | calm && e in list && e.op == ToDelete && e.id in pre
        ensures e.id !in milvus && First(documents, e.id).None? && First(vectors, e.id).None?
      {
        RetryTakes(pre, list, e);
        RecordedAt(documents, RetryRows(pre, list).Keys, e.id);
        RecordedAt(vectors, RetryRows(pre, list).Keys, e.id);
      }
    }

    lemma WeakerInv(bad: set<DocId>, pre: Rows)
      requires Inv(bad, Some(pre))
      ensures Inv(bad, None)
    {}
  }

  /** One row, and a delete of it that an earlier run left pending: a fresh run loses it, nothing going wrong,
      and leaves no record of it. */
  method CarriedDeleteLoses(rules: Rules, row: Row) returns (milvus: Rows, documents: Documents, vectors: Vectors)
    ensures Turn(0) !in milvus && First(documents, Turn(0)).None? && First(vectors, Turn(0)).None?
  {
    var pending := [Entry(ToDelete, Turn(0))];
    var r := new Rewriter(rules, map[Turn(0) := row], map[Turn(0) := FtsOf(row)], pending, true);
    var _ := r.Restart([], 1, None, {});
    assert Entry(ToDelete, Turn(0)) in pending;
    milvus, documents, vectors := r.milvus, r.documents, r.vectors;
  }

  lemma Slices<T>(s: seq<T>, i: nat, j: nat)
    requires i <= j <= |s|
    ensures s[i..j] == s[i..][..j - i] && s[j..] == s[i..][j - i..]
  {}

  // ---- What the logs hold ------------------------------------------------------------------

  /** Every doc that got its first record has it from one of the rows `keys`. */
  ghost predicate Recorded<T(!new)>(log: seq<Saved<T>>, log': seq<Saved<T>>, keys: set<DocId>) {
    forall d | First(log', d).Some? && First(log, d).None? :: d in keys
  }

  lemma RecordedNone<T(!new)>(log: seq<Saved<T>>, keys: set<DocId>)
    ensures Recorded(log, log, keys)
  {}

  lemma RecordedNext<T(!new)>(log: seq<Saved<T>>, log': seq<Saved<T>>, r: Saved<T>, keys: set<DocId>)
    requires Recorded(log, log', keys) && r.id in keys
    ensures Recorded(log, log' + [r], keys)
  {
    hide First;
    forall d | First(log' + [r], d).Some? && First(log, d).None? ensures d in keys { FirstAppend(log', r, d); }
  }

  lemma RecordedOn<T(!new)>(log: seq<Saved<T>>, mid: seq<Saved<T>>, log': seq<Saved<T>>, some: set<DocId>, keys: set<DocId>)
    requires Recorded(log, mid, keys) && Recorded(mid, log', some) && some <= keys
    ensures Recorded(log, log', keys)
  {
    hide First;
  }

  lemma RecordedAt<T(!new)>(log: seq<Saved<T>>, keys: set<DocId>, d: DocId)
    requires Recorded([], log, keys) && d !in keys
    ensures First(log, d).None?
  {
    assert First<T>([], d).None?;
  }

  /** No row appeared, and both logs have first records of the rows `keys0` only. */
  ghost predicate Logged(docs0: Documents, vecs0: Vectors, keys0: set<DocId>, docs: Documents, vecs: Vectors,
                         keys: set<DocId>)
  {
    keys <= keys0 && Recorded(docs0, docs, keys0) && Recorded(vecs0, vecs, keys0)
  }

  lemma LoggedNone(docs: Documents, vecs: Vectors, keys: set<DocId>)
    ensures Logged(docs, vecs, keys, docs, vecs, keys)
  {}

  lemma LoggedOn(docs0: Documents, vecs0: Vectors, keys0: set<DocId>, docs: Documents, vecs: Vectors,
                 keys: set<DocId>, docs': Documents, vecs': Vectors, keys': set<DocId>)
    requires Logged(docs0, vecs0, keys0, docs, vecs, keys) && Logged(docs, vecs, keys, docs', vecs', keys')
    ensures Logged(docs0, vecs0, keys0, docs', vecs', keys')
  {
    hide Recorded;
    RecordedOn(docs0, docs, docs', keys, keys0);
    RecordedOn(vecs0, vecs, vecs', keys, keys0);
  }

  lemma ShrunkKeys(m: Rows, m': Rows, d: DocId)
    requires Shrunk(m, m', d)
    ensures m'.Keys <= m.Keys
  {}

  /** Retrying pending entries deletes what a pending delete finds, with the passages of a turn, and leaves every other row
      as it is: a pending rewrite is of the FTS row alone. */
  lemma {:induction false} RetriesLeave(m: Rows, list: seq<Entry>, o: DocId)
    requires o in m && forall e | e in list && e.op == ToDelete :: !(e.id == o || (e.id.Turn? && o.Passage? && o.turn == e.id.turn))
    ensures o in RetryRows(m, list) && RetryRows(m, list)[o] == m[o]
  {
    if list != [] {
      var front, last := list[..|list| - 1], list[|list| - 1];
      forall e | e in front ensures e in list {}
      RetriesLeave(m, front, o);
      assert last in list;
    }
  }

  /** The retry of a delete takes the row. */
  lemma {:induction false} RetryTakes(m: Rows, list: seq<Entry>, e: Entry)
    requires e in list && e.op == ToDelete
    ensures e.id !in RetryRows(m, list)
  {
    var front, last := list[..|list| - 1], list[|list| - 1];
    if e in front { RetryTakes(m, front, e); } else { assert last == e; }
  }

  lemma UpdatedPlanned(rules: Rules, m: Rows, ids: seq<DocId>, worklist: seq<DocId>)
    requires forall d | d in ids :: d in worklist
    ensures Planned(rules, m, Updated(rules, m, Keep(rules, m, ids)), worklist)
  {
    hide NewRow, Drops, Keep;
    forall d { KeptOrDropped(rules, m, ids, d); }
  }

  lemma SubEmpty(b: seq<Entry>)
    ensures Sub([], b)
  {}

  lemma SoundAtStart(m: Rows, f: FtsRows, list: seq<Entry>, bad: set<DocId>)
    requires Sound(m, f, list, bad)
    ensures Sound(m, f, [] + list[0..], bad)
  {
    assert [] + list[0..] == list;
  }

  lemma SubPush(a: seq<Entry>, b: seq<Entry>, i: nat)
    requires i < |b| && Sub(a, b)
    ensures Sub(a + [b[i]], b)
  {}

  lemma SubItself(a: seq<Entry>)
    ensures Sub(a, a)
  {}

  lemma {:induction false} NonePresent(rules: Rules, m: Rows, ids: seq<DocId>)
    requires Present(m, ids) == []
    ensures BatchRows(rules, m, ids) == m
  {
    Counts(rules, m, ids);
    assert Keep(rules, m, ids) == [] && Drop(rules, m, ids) == [];
    assert Merge(m, Updated(rules, m, []), set d | d in []) == m;
  }

  lemma RunStep(rules: Rules, m: Rows, ids: seq<DocId>, size: nat)
    requires size > 0
    ensures var k := if |ids| <= size then |ids| else size;
            RunRows(rules, m, ids, size) == RunRows(rules, BatchRows(rules, m, ids[..k]), ids[k..], size)
  {
    hide BatchRows;
    if |ids| <= size {
      assert ids[..|ids|] == ids && ids[|ids|..] == [];
      RunNone(rules, BatchRows(rules, m, ids), size);
    }
  }

  lemma RunNone(rules: Rules, m: Rows, size: nat)
    requires size > 0
    ensures RunRows(rules, m, [], size) == m
  {
    NonePresent(rules, m, []);
  }

  lemma InBoth(rows: Rows, a: seq<Entry>, b: seq<Entry>)
    requires Sub(a, b) && forall d | d in rows :: Entry(ToRewrite, d) in a
    ensures forall d | d in rows :: Entry(ToRewrite, d) in b
  {
    forall d | d in rows ensures Entry(ToRewrite, d) in b { SubHas(a, b, Entry(ToRewrite, d)); }
  }

  lemma SubHas(a: seq<Entry>, b: seq<Entry>, e: Entry)
    requires Sub(a, b) && e in a
    ensures e in b
  {
    var i :| 0 <= i < |a| && a[i] == e;
  }

  lemma UpsertSound(m: Rows, f: FtsRows, rows: Rows, landed: set<DocId>, list: seq<Entry>, bad: set<DocId>)
    requires Sound(m, f, list, bad) && forall d | d in rows :: d in m && Entry(ToRewrite, d) in list
    ensures Sound(Merge(m, rows, landed), f, list, bad)
  {
    forall d | d !in bad && !Covered(list, d) && Agree(m, f, d) ensures Agree(Merge(m, rows, landed), f, d) {
      if d in rows { InCovers(list, Entry(ToRewrite, d), d); }
    }
  }

  lemma UpdatedKeys(rules: Rules, m: Rows, keep: seq<DocId>)
    requires forall d | d in keep :: d in m
    ensures Updated(rules, m, keep).Keys == set d | d in keep
    ensures forall d | d in Updated(rules, m, keep) :: d in keep
  {}

  /** The list holds exactly `others`, what is left of `todo` from `i` on, and `rest`. */
  ghost predicate Exactly(list: seq<Entry>, others: multiset<Entry>, todo: seq<Entry>, i: nat, rest: multiset<Entry>)
    requires i <= |todo|
  {
    multiset(list) == others + multiset(todo[i..]) + rest
  }

  ghost predicate AtLeast(list: seq<Entry>, todo: seq<Entry>, i: nat, rest: multiset<Entry>)
    requires i <= |todo|
  {
    multiset(todo[i..]) + rest <= multiset(list)
  }

  lemma ExactIsAtLeast(list: seq<Entry>, others: multiset<Entry>, todo: seq<Entry>, i: nat, rest: multiset<Entry>)
    requires i <= |todo| && Exactly(list, others, todo, i, rest)
    ensures AtLeast(list, todo, i, rest)
  {}

  /** The next entry is on the list; with it gone, or kept, the rest still is. */
  lemma NextPending(list: seq<Entry>, others: multiset<Entry>, todo: seq<Entry>, i: nat, rest: multiset<Entry>)
    requires i < |todo| && AtLeast(list, todo, i, rest)
    ensures todo[i] in list
    ensures AtLeast(list, todo, i + 1, rest) && AtLeast(Remove(list, todo[i]), todo, i + 1, rest)
    ensures Exactly(list, others, todo, i, rest) ==> Exactly(Remove(list, todo[i]), others, todo, i + 1, rest)
  {
    hide Remove;
    var e, after := todo[i], multiset(todo[i + 1..]);
    assert todo[i..] == [e] + todo[i + 1..];
    assert multiset(todo[i..]) == multiset{e} + after;
    RemoveCount(list, e);
    assert e in multiset(todo[i..]);
    TakeOne(multiset(list), others, e, after, rest);
  }

  lemma TakeOne(list: multiset<Entry>, others: multiset<Entry>, e: Entry, after: multiset<Entry>, rest: multiset<Entry>)
    requires multiset{e} + after + rest <= list
    ensures e in list && after + rest <= list - multiset{e} && after + rest <= list
    ensures list == others + (multiset{e} + after) + rest ==> list - multiset{e} == others + after + rest
  {
    assert (multiset{e} + after + rest)[e] > 0;
    if list == others + (multiset{e} + after) + rest {
      assert list == (others + after + rest) + multiset{e};
    }
  }

  lemma NextList(list: seq<Entry>, others: multiset<Entry>, done: seq<Entry>, todo: seq<Entry>)
    ensures AtLeast(list, done, |done|, multiset(todo)) ==> AtLeast(list, todo, 0, multiset{})
    ensures Exactly(list, others, done, |done|, multiset(todo)) ==> Exactly(list, others, todo, 0, multiset{})
  {
    assert todo[0..] == todo;
  }

  lemma LastList(list: seq<Entry>, others: multiset<Entry>, done: seq<Entry>)
    ensures Exactly(list, others, done, |done|, multiset{}) ==> multiset(list) == others
  {}

  lemma {:induction false} RemoveCount(list: seq<Entry>, e: Entry)
    ensures multiset(Remove(list, e)) == multiset(list) - multiset{e}
  {
    if list != [] {
      assert list == [list[0]] + list[1..];
      if list[0] != e { RemoveCount(list[1..], e); }
    }
  }

  lemma RemoveSubOf(list: seq<Entry>, e: Entry, all: seq<Entry>)
    requires Sub(list, all)
    ensures Sub(Remove(list, e), all)
  {
    RemoveSub(list, e);
    forall i | 0 <= i < |Remove(list, e)| ensures Remove(list, e)[i] in all {
      SubHas(list, all, Remove(list, e)[i]);
    }
  }

  lemma DropStep(m: Rows, f: FtsRows, m': Rows, f': FtsRows, e: Entry, list: seq<Entry>, all: seq<Entry>,
                 ok: bool, bad: set<DocId>, pre: Option<Rows>, docs: Documents, vecs: Vectors)
    requires e.op == ToDelete && e in list && Sub(list, all) && NoOrphans(m, bad)
    requires Sound(m, f, list, bad) && Sound(m, f, all, bad) && Kept(pre, m, all, docs, vecs)
    requires Shrunk(m, m', e.id) && ShrunkFts(f, f', e.id)
    requires ok ==> m' == DeleteRow(m, e.id) && f' == WithoutDoc(f, e.id)
    ensures Sound(m', f', list, bad) && Sound(m', f', all, bad) && NoOrphans(m', bad)
    ensures Kept(pre, m', all, docs, vecs)
    ensures ok ==> Sound(m', f', Remove(list, e), bad)
  {
    hide Sound, NoOrphans, Kept, Shrunk, ShrunkFts, DeleteRow, WithoutDoc;
    SubHas(list, all, e);
    ShrinkSound(m, f, m', f', e, list, bad);
    ShrinkSound(m, f, m', f', e, all, bad);
    var i :| 0 <= i < |all| && all[i] == e;
    ShrinkKept(pre, m, m', all, i, docs, vecs);
    if ok {
      DeletedAgrees(m, f, e, bad);
      ClearEntry(m', f', list, e, bad);
    }
  }

  /** Logging a batch as pending, once its rows are backed up. */
  lemma Extended(m: Rows, f: FtsRows, before: seq<Entry>, keep: seq<DocId>, drop: seq<DocId>, bad: set<DocId>,
                 pre: Option<Rows>, all: seq<Entry>, docs: Documents, vecs: Vectors)
    requires Sound(m, f, before, bad) && Kept(pre, m, all, docs, vecs) && Sub(before, all)
    requires forall d | d in drop :: Backed(docs, vecs, d)
    ensures var list := before + (Entries(ToRewrite, keep) + Entries(ToDelete, drop));
            && Sound(m, f, list, bad) && Kept(pre, m, list, docs, vecs) && Sub(list, list)
            && (forall d | d in keep :: Entry(ToRewrite, d) in list)
            && Exactly(list, multiset(before), Entries(ToRewrite, keep), 0, multiset(Entries(ToDelete, drop)))
  {
    var list := before + (Entries(ToRewrite, keep) + Entries(ToDelete, drop));
    assert Sub(before, list) by {
      forall i | 0 <= i < |before| ensures before[i] in list { assert list[i] == before[i]; }
    }
    SoundSub(m, f, before, list, bad);
    assert Entries(ToRewrite, keep)[0..] == Entries(ToRewrite, keep);
    forall d | d in keep ensures Entry(ToRewrite, d) in list {
      var i :| 0 <= i < |keep| && keep[i] == d;
      assert list[|before| + i] == Entry(ToRewrite, d);
    }
    if pre.Some? {
      forall i | 0 <= i < |list| && list[i].op == ToDelete && list[i].id in m
        ensures Backed(docs, vecs, list[i].id)
      {
        if i < |before| {
          SubHas(before, all, list[i]);
        } else {
          assert list[i] == Entries(ToDelete, drop)[i - |before| - |keep|];
        }
      }
    }
  }

  lemma SubKept(pre: Option<Rows>, m: Rows, a: seq<Entry>, b: seq<Entry>, docs: Documents, vecs: Vectors)
    requires Sub(a, b) && Kept(pre, m, b, docs, vecs)
    ensures Kept(pre, m, a, docs, vecs)
  {
    if pre.Some? {
      forall i | 0 <= i < |a| && a[i].op == ToDelete && a[i].id in m ensures Backed(docs, vecs, a[i].id) {
        var j :| 0 <= j < |b| && b[j] == a[i];
      }
    }
  }

  /** The retry of entry `i` by rewriting: the docs on the list, or on what is left of it, stay sound. */
  lemma RetriedRewrite(m: Rows, f: FtsRows, f': FtsRows, e: Entry, still: seq<Entry>, list: seq<Entry>,
                       i: nat, ok: bool, bad: set<DocId>)
    requires i < |list| && list[i] == e && e.op == ToRewrite && e.id in m
    requires Sound(m, f, list, bad) && Sound(m, f, still + list[i..], bad)
    requires f' == f || f' == f - {e.id} || f' == f[e.id := FtsOf(m[e.id])]
    requires ok ==> f' == f[e.id := FtsOf(m[e.id])]
    ensures Sound(m, f', list, bad) && Sound(m, f', still + list[i..], bad)
    ensures ok ==> Sound(m, f', still + list[i + 1..], bad)
  {
    FtsRewriteKeeps(m, f, f', e.id, list, bad);
    assert (still + list[i..])[|still|] == e;
    FtsRewriteKeeps(m, f, f', e.id, still + list[i..], bad);
    if ok { ClearAt(m, f', still, list, i, bad); }
  }

  lemma RetriedDelete(m: Rows, f: FtsRows, m': Rows, f': FtsRows, e: Entry, still: seq<Entry>,
                      list: seq<Entry>, i: nat, ok: bool, bad: set<DocId>)
    requires i < |list| && list[i] == e && (e.op == ToDelete || e.id !in m) && NoOrphans(m, bad)
    requires Sound(m, f, list, bad) && Sound(m, f, still + list[i..], bad)
    requires Shrunk(m, m', e.id) && ShrunkFts(f, f', e.id)
    requires ok ==> m' == DeleteRow(m, e.id) && f' == WithoutDoc(f, e.id)
    ensures Sound(m', f', list, bad) && Sound(m', f', still + list[i..], bad) && NoOrphans(m', bad)
    ensures ok ==> Sound(m', f', still + list[i + 1..], bad)
  {
    ShrinkSound(m, f, m', f', e, list, bad);
    assert (still + list[i..])[|still|] == e;
    ShrinkSound(m, f, m', f', e, still + list[i..], bad);
    if ok {
      DeletedAgrees(m, f, e, bad);
      ClearAt(m', f', still, list, i, bad);
    }
  }

  lemma ShrinkKept(pre: Option<Rows>, m: Rows, m': Rows, list: seq<Entry>, i: nat, docs: Documents, vecs: Vectors)
    requires i < |list| && (list[i].op == ToDelete || list[i].id !in m)
    requires Kept(pre, m, list, docs, vecs) && Shrunk(m, m', list[i].id)
    ensures Kept(pre, m', list, docs, vecs)
  {
    if pre.Some? { BackedShrink(pre.value, m, m', list[i].id, docs, vecs); }
  }

  lemma ClearAt(m: Rows, f: FtsRows, still: seq<Entry>, list: seq<Entry>, i: nat, bad: set<DocId>)
    requires i < |list| && Sound(m, f, still + list[i..], bad)
    requires forall d | Covers(list[i], d) && d !in bad :: Agree(m, f, d)
    ensures Sound(m, f, still + list[i + 1..], bad)
  {
    var rest := still + list[i + 1..];
    forall d | d !in bad ensures Agree(m, f, d) || Covered(rest, d) {
      if !Agree(m, f, d) {
        var before := still + list[i..];
        var j :| 0 <= j < |before| && Covers(before[j], d);
        assert j != |still|;
        assert rest[if j < |still| then j else j - 1] == before[j];
      }
    }
  }

  // ---- What a fault-free run makes of the text --------------------------------------------

  /** A delete of one of `ids` that is there takes `o`. */
  predicate Reached(m: Rows, ids: seq<DocId>, o: DocId) {
    exists i :: 0 <= i < |ids| && ids[i] in m && Under(ids[i], o)
  }

  lemma {:induction false} DeletedRows(m: Rows, ids: seq<DocId>, o: DocId)
    ensures o in DeleteRows(m, ids) <==> o in m && !Reached(m, ids, o)
    ensures o in DeleteRows(m, ids) ==> DeleteRows(m, ids)[o] == m[o]
  {
    if ids != [] {
      var front, d := ids[..|ids| - 1], ids[|ids| - 1];
      DeletedRows(m, front, o);
      DeletedRows(m, front, d);
      if o in DeleteRows(m, ids) {
        forall i | 0 <= i < |ids| && ids[i] in m ensures !Under(ids[i], o) {
          if i < |front| { assert front[i] == ids[i]; }
        }
      } else if o in m && o in DeleteRows(m, front) {
        assert ids[|ids| - 1] in m && Under(ids[|ids| - 1], o);
      } else if o in m {
        var i :| 0 <= i < |front| && front[i] in m && Under(front[i], o);
        assert ids[i] == front[i];
      }
    }
  }

  lemma BatchText(rules: Rules, m: Rows, ids: seq<DocId>)
    ensures TextIs(rules, m, ids, BatchRows(rules, m, ids))
  {
    hide BatchRows, Doomed, Rewritten;
    forall o ensures o in BatchRows(rules, m, ids) <==> o in m && !Doomed(rules, m, ids, o)
             ensures o in BatchRows(rules, m, ids) && o in m ==>
                       Rewritten(rules, m, ids, o, BatchRows(rules, m, ids)[o])
    {
      BatchTextAt(rules, m, ids, o);
    }
  }

  lemma ReachedSame(m: Rows, m': Rows, ids: seq<DocId>, o: DocId)
    requires m.Keys == m'.Keys
    ensures Reached(m, ids, o) <==> Reached(m', ids, o)
  {}

  lemma BatchTextAt(rules: Rules, m: Rows, ids: seq<DocId>, o: DocId)
    ensures var m' := BatchRows(rules, m, ids);
            && (o in m' <==> o in m && !Doomed(rules, m, ids, o))
            && (o in m' && o in m ==> Rewritten(rules, m, ids, o, m'[o]))
  {
    hide Drops, Keep, Drop, Doomed, DeleteRows, Reached;
    var keep, drop := Keep(rules, m, ids), Drop(rules, m, ids);
    forall d { KeptOrDropped(rules, m, ids, d); }
    var merged := Merge(m, Updated(rules, m, keep), set d | d in keep);
    assert merged.Keys == m.Keys;
    DeletedRows(merged, drop, o);
    ReachedSame(merged, m, drop, o);
    DoomedIff(rules, m, ids, o);
    if o in m && !Doomed(rules, m, ids, o) { NotDropped(rules, m, ids, o); }
  }

  lemma DoomedIff(rules: Rules, m: Rows, ids: seq<DocId>, o: DocId)
    ensures var drop := Drop(rules, m, ids);
            Doomed(rules, m, ids, o) <==> Reached(m, drop, o)
  {
    hide Drops;
    var drop := Drop(rules, m, ids);
    if Doomed(rules, m, ids, o) {
      var i :| 0 <= i < |ids| && ids[i] in m && Drops(rules, m[ids[i]]) && Under(ids[i], o);
      KeptOrDropped(rules, m, ids, ids[i]);
      var j :| 0 <= j < |drop| && drop[j] == ids[i];
    }
    if i :| 0 <= i < |drop| && drop[i] in m && Under(drop[i], o) {
      KeptOrDropped(rules, m, ids, drop[i]);
      var j :| 0 <= j < |ids| && ids[j] == drop[i];
    }
  }

  lemma NotDropped(rules: Rules, m: Rows, ids: seq<DocId>, o: DocId)
    requires o in m && !Doomed(rules, m, ids, o)
    ensures o in ids ==> !Drops(rules, m[o])
  {
    hide Drops;
    if o in ids {
      var i :| 0 <= i < |ids| && ids[i] == o;
    }
  }

  /** Batches one after another do to the text what they would do at once. */
  lemma TextCompose(rules: Rules, m: Rows, a: seq<DocId>, b: seq<DocId>, m1: Rows, m2: Rows)
    requires TextIs(rules, m, a, m1) && TextIs(rules, m1, b, m2)
    requires forall d | d in a :: d !in b
    ensures TextIs(rules, m, a + b, m2)
  {
    hide Doomed, Rewritten;
    forall o ensures o in m2 <==> o in m && !Doomed(rules, m, a + b, o) {
      DoomedBoth(rules, m, a, b, m1, o);
    }
    forall o | o in m2 && o in m ensures Rewritten(rules, m, a + b, o, m2[o]) {
      DoomedBoth(rules, m, a, b, m1, o);
      RewrittenBoth(rules, m, a, b, m1, o, m2[o]);
    }
  }

  lemma RewrittenBoth(rules: Rules, m: Rows, a: seq<DocId>, b: seq<DocId>, m1: Rows, o: DocId, r: Row)
    requires o in m && o in m1 && Rewritten(rules, m, a, o, m1[o]) && Rewritten(rules, m1, b, o, r)
    requires forall d | d in a :: d !in b
    ensures Rewritten(rules, m, a + b, o, r)
  {
    assert o in a + b <==> o in a || o in b;
  }

  /** `d` is one of `ids`, there, and too short: what it takes with it includes `o`. */
  predicate Takes(rules: Rules, m: Rows, ids: seq<DocId>, d: DocId, o: DocId) {
    d in ids && d in m && Drops(rules, m[d]) && Under(d, o)
  }

  lemma DoomedTakes(rules: Rules, m: Rows, ids: seq<DocId>, o: DocId)
    ensures Doomed(rules, m, ids, o) <==> exists d :: Takes(rules, m, ids, d, o)
  {
    hide Drops, Under;
    if d :| Takes(rules, m, ids, d, o) {
      var i :| 0 <= i < |ids| && ids[i] == d;
    }
    if Doomed(rules, m, ids, o) {
      var i :| 0 <= i < |ids| && ids[i] in m && Drops(rules, m[ids[i]]) && Under(ids[i], o);
      assert Takes(rules, m, ids, ids[i], o);
    }
  }

  lemma DoomedBoth(rules: Rules, m: Rows, a: seq<DocId>, b: seq<DocId>, m1: Rows, o: DocId)
    requires TextIs(rules, m, a, m1) && forall d | d in a :: d !in b
    ensures Doomed(rules, m, a + b, o) <==> Doomed(rules, m, a, o) || Doomed(rules, m1, b, o)
  {
    hide Doomed, Takes, Rewritten;
    DoomedTakes(rules, m, a, o);
    DoomedTakes(rules, m1, b, o);
    DoomedTakes(rules, m, a + b, o);
    forall d { TakesBoth(rules, m, a, b, m1, d, o); }
  }

  lemma TakesBoth(rules: Rules, m: Rows, a: seq<DocId>, b: seq<DocId>, m1: Rows, d: DocId, o: DocId)
    requires TextIs(rules, m, a, m1) && forall d | d in a :: d !in b
    ensures Takes(rules, m, a, d, o) || Takes(rules, m1, b, d, o) ==> Takes(rules, m, a + b, d, o)
    ensures Takes(rules, m, a + b, d, o) ==> Takes(rules, m1, b, d, o) || Doomed(rules, m, a, o)
  {
    hide Drops, Doomed;
    assert d in a + b <==> d in a || d in b;
    if d in m && d in m1 && d in b { assert Rewritten(rules, m, a, d, m1[d]); }
    if Takes(rules, m, a + b, d, o) {
      DoomedTakes(rules, m, a, o);
      if d in a {
        assert Takes(rules, m, a, d, o);
      } else if d !in m1 {
        DoomedTakes(rules, m, a, d);
        var e :| Takes(rules, m, a, e, d);
        assert Takes(rules, m, a, e, o);
      }
    }
  }

  /** Whatever the batch size, a fault-free run leaves exactly the same docs with the same text,
      issue ids and metadata: each worklist row stripped and redacted once, the short ones gone
      with their passages. */
  lemma {:induction false} RunText(rules: Rules, m: Rows, ids: seq<DocId>, size: nat)
    requires size > 0 && forall i, j | 0 <= i < j < |ids| :: ids[i] != ids[j]
    ensures TextIs(rules, m, ids, RunRows(rules, m, ids, size))
    decreases |ids|
  {
    hide BatchRows, TextIs;
    if |ids| <= size {
      BatchText(rules, m, ids);
    } else {
      var a, b := ids[..size], ids[size..];
      BatchText(rules, m, a);
      RunText(rules, BatchRows(rules, m, a), b, size);
      TextCompose(rules, m, a, b, BatchRows(rules, m, a), RunRows(rules, m, ids, size));
      assert a + b == ids;
    }
  }

  function Stripper(): Rules {
    Rules(s => if s == "<wake>x" then "x" else s, s => s, s => s, s => "", (c, s) => s, s => false)
  }

  function TwoRows(): Rows {
    map[Turn(0) := Row("<wake>x", Embedded("", ""), "", ""),
        Passage(0, 0) := Row("y", Embedded("", ""), "", "")]
  }

  // ---- When the vectors are the same ---------------------------------------------------------

  /** Which batch a doc of the worklist is in. */
  function BatchOf(ids: seq<DocId>, size: nat, o: DocId): nat
    requires size > 0
    decreases |ids|
  {
    if |ids| <= size || o in ids[..size] then 0 else 1 + BatchOf(ids[size..], size, o)
  }

  predicate Distinct(ids: seq<DocId>) { forall i, j | 0 <= i < j < |ids| :: ids[i] != ids[j] }

  /** The turn of a passage is rewritten in a batch before the passage's own. */
  predicate TurnFirst(ids: seq<DocId>, size: nat, o: DocId)
    requires size > 0
  {
    Turn(o.turn) in ids && BatchOf(ids, size, Turn(o.turn)) < BatchOf(ids, size, o)
  }

  /** The title a passage gets: from the text its turn has when the passage's batch comes up. */
  function TitleThen(rules: Rules, m: Rows, ids: seq<DocId>, size: nat, o: DocId): string
    requires size > 0 && o in m
  {
    var t := Turn(o.turn);
    if o.Turn? then ""
    else if t !in m then rules.title(m[o].columns, "")
    else rules.title(m[o].columns, if TurnFirst(ids, size, o) then Once(rules, m[t].document) else m[t].document)
  }

  lemma BatchVector(rules: Rules, m: Rows, ids: seq<DocId>, o: DocId)
    requires o in ids && o in m && !Doomed(rules, m, ids, o)
    ensures var m' := BatchRows(rules, m, ids); o in m' && m'[o].vector == NewRow(rules, m, o).vector
  {
    hide Drops, Keep, Drop, Doomed, DeleteRows, Reached, NewRow;
    var keep, drop := Keep(rules, m, ids), Drop(rules, m, ids);
    forall d { KeptOrDropped(rules, m, ids, d); }
    var merged := Merge(m, Updated(rules, m, keep), set d | d in keep);
    assert merged.Keys == m.Keys;
    NotDropped(rules, m, ids, o);
    assert merged[o] == NewRow(rules, m, o);
    DeletedRows(merged, drop, o);
    ReachedSame(merged, m, drop, o);
    DoomedIff(rules, m, ids, o);
  }

  lemma BatchVectors(rules: Rules, m: Rows, ids: seq<DocId>)
    ensures var m' := BatchRows(rules, m, ids);
            forall o | o in ids && o in m && o in m' :: m'[o].vector == NewRow(rules, m, o).vector
  {
    hide BatchRows, NewRow, Doomed, Rewritten;
    BatchText(rules, m, ids);
    forall o | o in ids && o in m && !Doomed(rules, m, ids, o) { BatchVector(rules, m, ids, o); }
  }

  /** A turn that stays when its passage does. */
  lemma TurnNotDoomed(rules: Rules, m: Rows, ids: seq<DocId>, o: DocId)
    requires o.Passage? && !Doomed(rules, m, ids, o)
    ensures !Doomed(rules, m, ids, Turn(o.turn))
  {
    hide Drops;
    forall i | 0 <= i < |ids| && Under(ids[i], Turn(o.turn)) ensures Under(ids[i], o) {}
  }

  /** What one batch leaves of a doc that is not in it, or that is. */
  lemma BatchLeaves(rules: Rules, m: Rows, ids: seq<DocId>, o: DocId)
    requires o in m && !Doomed(rules, m, ids, o)
    ensures var m' := BatchRows(rules, m, ids);
            && o in m' && m'[o].columns == m[o].columns
            && (o !in ids ==> m'[o] == m[o]) && (o in ids ==> m'[o].document == Once(rules, m[o].document))
  {
    hide BatchRows, Doomed;
    BatchText(rules, m, ids);
  }

  lemma BatchAdds(rules: Rules, m: Rows, ids: seq<DocId>, o: DocId)
    requires o !in m
    ensures o !in BatchRows(rules, m, ids)
  {
    hide BatchRows, Doomed;
    BatchText(rules, m, ids);
  }

  /** The title of a passage of a later batch, seen from before and from after the first one. */
  lemma TitleOn(rules: Rules, m: Rows, ids: seq<DocId>, size: nat, o: DocId)
    requires size > 0 && |ids| > size && Distinct(ids) && o in m && o in ids[size..]
    requires !Doomed(rules, m, ids[..size], o)
    ensures var m1 := BatchRows(rules, m, ids[..size]);
            o in m1 && m1[o] == m[o] && TitleThen(rules, m1, ids[size..], size, o) == TitleThen(rules, m, ids, size, o)
  {
    hide BatchRows, Doomed, Once;
    var first, rest, t := ids[..size], ids[size..], Turn(o.turn);
    Apart(ids, size);
    BatchLeaves(rules, m, first, o);
    if o.Passage? {
      TurnNotDoomed(rules, m, first, o);
      if t in m { BatchLeaves(rules, m, first, t); } else { BatchAdds(rules, m, first, t); }
      assert t in ids <==> t in first || t in rest by { assert ids == first + rest; }
    }
  }

  lemma Apart(ids: seq<DocId>, n: nat)
    requires Distinct(ids) && n <= |ids|
    ensures forall d | d in ids[..n] :: d !in ids[n..]
    ensures Distinct(ids[n..])
  {
    assert forall j | 0 <= j < |ids[n..]| :: ids[n..][j] == ids[n + j];
  }

  /** A passage that stays gets the embedding of its own cleaned text under that title. */
  lemma {:induction false} RunVector(rules: Rules, m: Rows, ids: seq<DocId>, size: nat, o: DocId)
    requires size > 0 && Distinct(ids) && o in ids && o in m && !Doomed(rules, m, ids, o)
    ensures var m' := RunRows(rules, m, ids, size);
            o in m' && m'[o].vector == Embedded(Clean(rules, m[o].document), TitleThen(rules, m, ids, size, o))
    decreases |ids|
  {
    hide BatchRows, Doomed, Once, TitleThen;
    if |ids| <= size {
      BatchVector(rules, m, ids, o);
      TitleNow(rules, m, ids, size, o);
    } else {
      var first, rest := ids[..size], ids[size..];
      Apart(ids, size);
      assert ids == first + rest;
      BatchText(rules, m, first);
      var m1 := BatchRows(rules, m, first);
      DoomedBoth(rules, m, first, rest, m1, o);
      if o in first {
        BatchVector(rules, m, first, o);
        TitleNow(rules, m, ids, size, o);
        RunText(rules, m1, rest, size);
      } else {
        TitleOn(rules, m, ids, size, o);
        RunVector(rules, m1, rest, size, o);
      }
    }
  }

  /** In the first batch no turn has been rewritten yet. */
  lemma TitleNow(rules: Rules, m: Rows, ids: seq<DocId>, size: nat, o: DocId)
    requires size > 0 && o in m && (|ids| <= size || o in ids[..size])
    ensures NewRow(rules, m, o).vector == Embedded(Clean(rules, m[o].document), TitleThen(rules, m, ids, size, o))
  {
    hide Once;
  }

  /** The title of `o` does not depend on which of two batch sizes is used: its turn's text gives the same title
      rewritten or not, or is rewritten before its batch under both or under neither. */
  predicate SameTitle(rules: Rules, m: Rows, ids: seq<DocId>, a: nat, b: nat, o: DocId)
    requires a > 0 && b > 0 && o in m && Turn(o.turn) in m
  {
    || rules.title(m[o].columns, m[Turn(o.turn)].document) == rules.title(m[o].columns, Once(rules, m[Turn(o.turn)].document))
    || TurnFirst(ids, a, o) == TurnFirst(ids, b, o)
  }

  lemma TitlesAgree(rules: Rules, m: Rows, ids: seq<DocId>, a: nat, b: nat, o: DocId)
    requires a > 0 && b > 0 && o in m
    ensures TitleThen(rules, m, ids, a, o) == TitleThen(rules, m, ids, b, o) <==>
              (o.Passage? && Turn(o.turn) in m && Turn(o.turn) in ids ==> SameTitle(rules, m, ids, a, b, o))
  {
    hide Once;
  }

  /** Two batch sizes give the same rows, vectors included, exactly when no passage that stays, whose turn is
      on the worklist too, gets a title that depends on whether its turn was rewritten first, with the one size
      putting the turn into an earlier batch and the other not. */
  lemma VectorsIff(rules: Rules, m: Rows, ids: seq<DocId>, a: nat, b: nat)
    requires a > 0 && b > 0 && Distinct(ids)
    ensures RunRows(rules, m, ids, a) == RunRows(rules, m, ids, b) <==>
              forall o | o in ids && o in m && !Doomed(rules, m, ids, o) && o.Passage?
                         && Turn(o.turn) in m && Turn(o.turn) in ids :: SameTitle(rules, m, ids, a, b, o)
  {
    hide RunRows, Doomed, SameTitle, TitleThen;
    var x, y := RunRows(rules, m, ids, a), RunRows(rules, m, ids, b);
    RunText(rules, m, ids, a);
    RunText(rules, m, ids, b);
    forall o | o in ids && o in m && !Doomed(rules, m, ids, o)
      ensures o in x && o in y
      ensures x[o].vector == y[o].vector <==>
                (o.Passage? && Turn(o.turn) in m && Turn(o.turn) in ids ==> SameTitle(rules, m, ids, a, b, o))
    {
      RunVector(rules, m, ids, a, o);
      RunVector(rules, m, ids, b, o);
      TitlesAgree(rules, m, ids, a, b, o);
    }
    if forall o | o in ids && o in m && !Doomed(rules, m, ids, o) :: x[o].vector == y[o].vector {
      forall o | o in x ensures o in y && x[o] == y[o] { RowsAgree(rules, m, ids, x, y, o); }
      assert x.Keys == y.Keys;
    }
  }

  lemma RowsAgree(rules: Rules, m: Rows, ids: seq<DocId>, x: Rows, y: Rows, o: DocId)
    requires TextIs(rules, m, ids, x) && TextIs(rules, m, ids, y) && o in x
    requires o in ids && o in m && !Doomed(rules, m, ids, o) && o in y ==> x[o].vector == y[o].vector
    ensures o in y && x[o] == y[o]
  {
    hide Doomed;
    assert Rewritten(rules, m, ids, o, x[o]) && Rewritten(rules, m, ids, o, y[o]);
  }

  /** The vectors do depend on it: a passage's title is read from its turn as stored when the batch
      comes up, rewritten if an earlier batch had it and not yet if the same batch has it. */
  lemma TitlesDependOnBatches()
    ensures var ids := [Turn(0), Passage(0, 0)];
            && VectorAfter(TwoRows(), ids, 1) == Some(Embedded("y", "x"))
            && VectorAfter(TwoRows(), ids, 2) == Some(Embedded("y", "<wake>x"))
  {
    hide BatchRows, Stripper;
    var m, ids := TwoRows(), [Turn(0), Passage(0, 0)];
    assert ids[..1] == [Turn(0)] && ids[1..] == [Passage(0, 0)];
    BatchKeeps(m, ids, Passage(0, 0));
    BatchKeeps(m, [Turn(0)], Turn(0));
    BatchKeeps(m, [Turn(0)], Passage(0, 0));
    var m1 := BatchRows(Stripper(), m, [Turn(0)]);
    BatchKeeps(m1, [Passage(0, 0)], Passage(0, 0));
    StripperWrites(m, Turn(0));
    StripperWrites(m, Passage(0, 0));
    StripperWrites(m1, Passage(0, 0));
  }

  function VectorAfter(m: Rows, ids: seq<DocId>, size: nat): Option<Vector>
    requires size > 0
  {
    var m' := RunRows(Stripper(), m, ids, size);
    if Passage(0, 0) in m' then Some(m'[Passage(0, 0)].vector) else None
  }

  lemma StripperWrites(m: Rows, d: DocId)
    requires d in m && Turn(d.turn) in m
    ensures var t := if m[d].document == "<wake>x" then "x" else m[d].document;
            && NewRow(Stripper(), m, d).document == t
            && NewRow(Stripper(), m, d).vector == Embedded(t, if d.Turn? then "" else m[Turn(d.turn)].document)
  {}

  /** Where nothing is dropped a batch is one merge. */
  lemma BatchKeeps(m: Rows, ids: seq<DocId>, o: DocId)
    requires o in m && forall d | d in ids :: d in m
    ensures var m' := BatchRows(Stripper(), m, ids);
            o in m' && m'[o] == if o in ids then NewRow(Stripper(), m, o) else m[o]
  {
    hide Stripper, NewRow;
    KeepsBoth(m, ids);
    assert DeleteRows(Merge(m, Updated(Stripper(), m, ids), set d | d in ids), [])
        == Merge(m, Updated(Stripper(), m, ids), set d | d in ids);
  }

  lemma NeverDrops(row: Row)
    ensures !Drops(Stripper(), row)
  {}

  lemma {:induction false} KeepsBoth(m: Rows, ids: seq<DocId>)
    requires forall d | d in ids :: d in m
    ensures Keep(Stripper(), m, ids) == ids && Drop(Stripper(), m, ids) == []
  {
    hide Drops, Stripper;
    if ids != [] {
      NeverDrops(m[ids[|ids| - 1]]);
      KeepsBoth(m, ids[..|ids| - 1]);
      assert ids == ids[..|ids| - 1] + [ids[|ids| - 1]];
    }
  }
}
