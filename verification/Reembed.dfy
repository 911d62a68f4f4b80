/** The resumable re-embedding of every stored row: chunks that may stop, pause or fail anywhere, with
    rows removed by others in between, give each row still present the vector one uninterrupted run
    would give it. */
module Reembed {
  import opened Wrappers
  import opened SessionStores

  datatype Status = Running | Paused | Done

  datatype State = State(cursor: nat, done: nat, missing: nat, errors: nat, status: Status)

  datatype End = Fine | Crashed | Raised | Denied

  /** The row with its vector from its own text and, for a passage, its turn's. */
  function Target(title: (string, string) -> string, m: Rows, d: DocId): Row
    requires d in m
  {
    m[d].(vector := Embedded(m[d].document, TitleOf(title, m, d)))
  }

  /** What one uninterrupted run makes of the rows. */
  function Uninterrupted(title: (string, string) -> string, pre: Rows): Rows {
    map d | d in pre :: Target(title, pre, d)
  }

  /** A row embedded again: every column as it was before the run, and the vector of its text, for a passage under the
      title its turn's text gives. */
  predicate Again(title: (string, string) -> string, pre: Rows, d: DocId, r: Row)
    requires d in pre
  {
    && r.document == pre[d].document && r.issueIds == pre[d].issueIds && r.columns == pre[d].columns
    && match d
       case Turn(_) => r.vector == Embedded(pre[d].document, "")
       case Passage(t, _) =>
         r.vector == Embedded(pre[d].document, title(pre[d].columns, if Turn(t) in pre then pre[Turn(t)].document else ""))
  }

  lemma AgainIff(title: (string, string) -> string, pre: Rows, d: DocId, r: Row)
    requires d in pre
    ensures Again(title, pre, d, r) <==> r == Target(title, pre, d)
  {}

  function Present(m: Rows, ids: seq<DocId>): seq<DocId> {
    if ids == [] then []
    else Present(m, ids[..|ids| - 1]) + if ids[|ids| - 1] in m then [ids[|ids| - 1]] else []
  }

  function Renewed(title: (string, string) -> string, m: Rows, rows: seq<DocId>): Rows {
    map d | d in rows && d in m :: Target(title, m, d)
  }

  /** A passage loses its turn only together with it. */
  ghost predicate Attached(pre: Rows, m: Rows) {
    forall d | d in m && d.Passage? && Turn(d.turn) in pre :: Turn(d.turn) in m
  }

  /** A doc of one of the lists, or a passage of a turn of one, was deleted. */
  ghost predicate Taken(lists: seq<seq<DocId>>, o: DocId) {
    exists i, j :: 0 <= i < |lists| && 0 <= j < |lists[i]| && Under(lists[i][j], o)
  }

  /** What is gone from `m` was deleted by someone else. */
  ghost predicate OnlyTaken(m: Rows, m': Rows, lists: seq<seq<DocId>>) {
    m'.Keys <= m.Keys && forall o | o in m && o !in m' :: Taken(lists, o)
  }

  /** Each row left is as before the run or re-embedded, and the run so far left none behind. */
  ghost predicate Progress(title: (string, string) -> string, pre: Rows, m: Rows, processed: seq<DocId>) {
    && m.Keys <= pre.Keys && Attached(pre, m)
    && (forall d | d in m :: m[d] == pre[d] || m[d] == Target(title, pre, d))
    && (forall i | 0 <= i < |processed| && processed[i] in m :: m[processed[i]] == Target(title, pre, processed[i]))
  }

  /** The earliest record of a row holds its vector before the run, and a changed row has one. */
  ghost predicate BackedUp(pre: Rows, m: Rows, backup: Vectors) {
    forall d | d in pre ::
      && (First(backup, d).Some? ==> First(backup, d).value == pre[d].vector)
      && (d in m && m[d] != pre[d] ==> First(backup, d).Some?)
  }

  /** Re-embedding does not change the text a title is read from. */
  lemma TargetsFixed(title: (string, string) -> string, pre: Rows, m: Rows, processed: seq<DocId>, d: DocId)
    requires Progress(title, pre, m, processed) && d in m
    ensures Target(title, m, d) == Target(title, pre, d)
  {
    if d.Passage? && Turn(d.turn) in m {
      assert m[Turn(d.turn)].document == pre[Turn(d.turn)].document;
    }
  }

  lemma {:induction false} PresentAre(m: Rows, ids: seq<DocId>, d: DocId)
    ensures d in Present(m, ids) <==> d in ids && d in m
    ensures |Present(m, ids)| <= |ids|
  {
    if ids != [] {
      PresentAre(m, ids[..|ids| - 1], d);
      assert d in ids <==> d in ids[..|ids| - 1] || d == ids[|ids| - 1];
    }
  }

  /** An upsert of which any part landed. */
  lemma UpsertKeeps(title: (string, string) -> string, pre: Rows, m: Rows, processed: seq<DocId>,
                    rows: seq<DocId>, landed: set<DocId>, backup: Vectors)
    requires Progress(title, pre, m, processed) && BackedUp(pre, m, backup)
    requires forall d | d in rows :: d in m && First(backup, d).Some?
    ensures var m' := Merge(m, Renewed(title, m, rows), landed);
            && Progress(title, pre, m', processed) && BackedUp(pre, m', backup) && m'.Keys == m.Keys
            && (forall d | d in rows && d in landed :: m'[d] == Target(title, pre, d))
  {
    forall d | d in m { TargetsFixed(title, pre, m, processed, d); }
  }

  lemma BatchProcessed(title: (string, string) -> string, pre: Rows, m: Rows, processed: seq<DocId>, ids: seq<DocId>)
    requires Progress(title, pre, m, processed)
    requires forall d | d in ids && d in m :: m[d] == Target(title, pre, d)
    ensures Progress(title, pre, m, processed + ids)
  {}

  /** A record goes in as the row was read; the first one is from before the run. */
  lemma AppendKeeps(title: (string, string) -> string, pre: Rows, m: Rows, processed: seq<DocId>, d: DocId, backup: Vectors)
    requires Progress(title, pre, m, processed) && BackedUp(pre, m, backup) && d in m
    ensures var b := backup + [Saved(d, m[d].vector)];
            && BackedUp(pre, m, b) && First(b, d).Some?
            && (forall o | First(backup, o).Some? :: First(b, o).Some?)
  {
    forall o: DocId { FirstAppend(backup, Saved(d, m[d].vector), o); }
  }

  lemma RemovalKeeps(title: (string, string) -> string, pre: Rows, m: Rows, processed: seq<DocId>, d: DocId, backup: Vectors)
    requires Progress(title, pre, m, processed) && BackedUp(pre, m, backup)
    ensures Progress(title, pre, WithoutDoc(m, d), processed) && BackedUp(pre, WithoutDoc(m, d), backup)
  {}

  class Reembedder {
    const title: (string, string) -> string

    var milvus: Rows

    // On disk.
    var worklist: seq<DocId>
    var saved: State
    var backup: Vectors

    // In memory.
    var state: State

    // Whether no call fails, no limit is met and nothing stops the process from here on.
    var calm: bool

    /** What holds whatever effect the process stops at; `pre` is the rows the run began with. */
    ghost predicate Inv(pre: Rows) reads this {
      && saved.done + saved.missing == saved.cursor <= |worklist|
      && (saved.status == Done ==> saved.cursor == |worklist|)
      && Progress(title, pre, milvus, worklist[..saved.cursor])
      && BackedUp(pre, milvus, backup)
      && (forall d | d in pre :: d in worklist)
    }

    /** At every point: each row still there is as it was, or embedded again, and one the cursor has passed is. */
    lemma RowsAre(pre: Rows)
      requires Inv(pre)
      ensures forall d | d in milvus :: d in pre && (milvus[d] == pre[d] || Again(title, pre, d, milvus[d]))
      ensures forall d | d in worklist[..saved.cursor] && d in milvus :: d in pre && Again(title, pre, d, milvus[d])
    {
      hide Target, Again;
      forall d | d in milvus { AgainIff(title, pre, d, milvus[d]); }
    }

    /** A fresh run over a snapshot of every key. */
    method Begin(ids: seq<DocId>)
      requires forall d :: d in ids <==> d in milvus
      modifies this`worklist, this`saved, this`backup
      ensures worklist == ids && backup == [] && saved == State(0, 0, 0, 0, Running) && Inv(milvus)
    {
      worklist, backup := ids, [];
      saved := State(0, 0, 0, 0, Running);
    }

    /** Someone else deletes a doc, a turn with its passages. */
    method Removed(d: DocId, ghost pre: Rows)
      requires Inv(pre)
      modifies this`milvus
      ensures Inv(pre) && milvus == WithoutDoc(old(milvus), d)
    {
      RemovalKeeps(title, pre, milvus, worklist[..saved.cursor], d, backup);
      milvus := WithoutDoc(milvus, d);
    }

    /** Others delete docs one after another. */
    method RemovedAll(ids: seq<DocId>, ghost pre: Rows)
      requires Inv(pre)
      modifies this`milvus
      ensures Inv(pre) && milvus.Keys <= old(milvus.Keys)
      ensures forall o | o in old(milvus) && o !in milvus :: exists j :: 0 <= j < |ids| && Under(ids[j], o)
    {
      hide Inv;
      for i := 0 to |ids|
        invariant Inv(pre) && milvus.Keys <= old(milvus.Keys)
        invariant forall o | o in old(milvus) && o !in milvus :: exists j :: 0 <= j < i && Under(ids[j], o)
      {
        Removed(ids[i], pre);
      }
    }

    method AppendBackup(rows: seq<DocId>, ghost pre: Rows) returns (end: End)
      requires Inv(pre) && forall d | d in rows :: d in milvus
      modifies this`backup
      ensures Inv(pre)
      ensures end == Fine ==> forall d | d in rows :: First(backup, d).Some?
      ensures calm ==> end == Fine
      ensures end == Fine || end == Raised || end == Crashed
    {
      hide Progress, BackedUp, First;
      for i := 0 to |rows|
        invariant Inv(pre) && forall j | 0 <= j < i :: First(backup, rows[j]).Some?
      {
        if { case !calm => return Crashed; case true => }
        if { case !calm => return Raised; case true => }
        AppendKeeps(title, pre, milvus, worklist[..saved.cursor], rows[i], backup);
        backup := backup + [Saved(rows[i], milvus[rows[i]].vector)];
      }
      return Fine;
    }

    /** Embed, back up and upsert the rows of a batch. */
    method WriteRows(rows: seq<DocId>, ghost pre: Rows) returns (end: End)
      requires Inv(pre) && forall d | d in rows :: d in milvus
      modifies this`milvus, this`backup
      ensures Inv(pre) && milvus.Keys == old(milvus.Keys)
      ensures end == Fine ==> forall d | d in rows && d in pre :: milvus[d] == Target(title, pre, d)
      ensures end == Fine ==> forall d | d in rows && d in pre :: Again(title, pre, d, milvus[d])
      ensures calm ==> end == Fine
    {
      hide Progress, BackedUp, First, Renewed, Merge, Target, Again;
      if { case !calm => return Denied; case true => }
      if { case !calm => return Raised; case true => }
      var renewed := Renewed(title, milvus, rows);
      end := AppendBackup(rows, pre);
      if end != Fine { return end; }
      RenewedKeys(title, milvus, rows);
      var landed := renewed.Keys;
      if {
        case !calm =>
          landed := Part(renewed.Keys);
          if { case true => end := Raised; case true => end := Crashed; }
        case true =>
      }
      UpsertKeeps(title, pre, milvus, worklist[..saved.cursor], rows, landed, backup);
      milvus := Merge(milvus, renewed, landed);
      if end == Fine { forall d | d in rows && d in pre { AgainIff(title, pre, d, milvus[d]); } }
    }

    /** The batch up to worklist entry `upto`, and the checkpoint after it. */
    method NextBatch(upto: nat, ghost pre: Rows) returns (end: End)
      requires Inv(pre) && state == saved && state.cursor <= upto <= |worklist| && state.status == Running
      modifies this`milvus, this`backup, this`state, this`saved
      ensures Inv(pre) && milvus.Keys == old(milvus.Keys)
      ensures end != Crashed ==> state.done + state.missing == state.cursor == saved.cursor && state.status == Running
      ensures end == Fine ==> state == saved && state.cursor == upto
      ensures end == Fine ==>
                state.done == old(state.done) + |Present(old(milvus), worklist[old(state.cursor)..upto])|
      ensures end == Raised ==> state.cursor == old(state.cursor) && state.errors == old(state.errors) + 1
      ensures end == Denied ==> state.cursor == old(state.cursor) && state.errors == old(state.errors)
      ensures calm ==> end == Fine
    {
      hide Progress, BackedUp, Target, Present;
      var ids := worklist[state.cursor..upto];
      if {
        case !calm =>  // The rows could not be read.
          state := state.(errors := state.errors + 1);
          return Raised;
        case true =>
      }
      var rows := Present(milvus, ids);
      forall d { PresentAre(milvus, ids, d); }
      end := Fine;
      if rows != [] {
        end := WriteRows(rows, pre);
        if end == Raised { state := state.(errors := state.errors + 1); }
        if end != Fine { return end; }
      }
      assert worklist[..upto] == worklist[..state.cursor] + ids;
      WithinPre(title, pre, milvus, worklist[..state.cursor]);
      PresentAre(milvus, ids, Turn(0));
      BatchProcessed(title, pre, milvus, worklist[..state.cursor], ids);
      state := state.(cursor := upto, done := state.done + |rows|, missing := state.missing + (|ids| - |rows|));
      if { case !calm => return Crashed; case true => }
      saved := state;
      return Fine;
    }

    /** One chunk: batches until the worklist, a limit, the embedding budget or a failure ends it. Before
        its n-th batch others delete the n-th list of docs. */
    method Run(size: nat, maxTurns: Option<nat>, removals: seq<seq<DocId>>, ghost pre: Rows) returns (finished: bool)
      requires size > 0 && Inv(pre)
      modifies this`milvus, this`backup, this`state, this`saved
      ensures Inv(pre) && OnlyTaken(old(milvus), milvus, removals)
      ensures finished ==> saved.status == Done
      ensures calm && maxTurns.None? ==> finished
      ensures calm && old(saved.status) != Done ==> saved.cursor == LimitFrom(old(saved.cursor), maxTurns, |worklist|)
      ensures finished ==> forall d | d in milvus :: d in pre && Again(title, pre, d, milvus[d])
      ensures finished && milvus.Keys == pre.Keys ==> milvus == Uninterrupted(title, pre)
    {
      hide Progress, BackedUp, Target, Again, NextSize, LimitFrom, Taken;
      if saved.status == Done {
        AllTargets(title, pre, milvus, worklist);
        return true;
      }
      state := saved.(status := Running);
      if { case !calm => return false; case true => }
      saved := state;
      var chunk: nat, broke, batch: nat := 0, false, 0;
      while state.cursor < |worklist| && !broke
        invariant Inv(pre) && OnlyTaken(old(milvus), milvus, removals)
        invariant state.done + state.missing == state.cursor == saved.cursor && state.status == Running
        invariant !broke ==> state == saved
        invariant broke ==> !calm || Spent(maxTurns, chunk)
        invariant calm ==> state.cursor == old(saved.cursor) + chunk
        invariant Within(maxTurns, chunk)
        decreases |worklist| - state.cursor, !broke
      {
        if Spent(maxTurns, chunk) { broke := true; break; }
        if { case !calm => broke := true; break; case true => }
        if batch < |removals| {
          ghost var before := milvus;
          RemovedAll(removals[batch], pre);
          TakenMore(old(milvus), before, milvus, removals, batch);
        }
        batch := batch + 1;
        var upto := state.cursor + NextSize(maxTurns, chunk, size, |worklist| - state.cursor);
        chunk := chunk + (upto - state.cursor);
        var end := NextBatch(upto, pre);
        if end == Crashed { return false; }
        if end != Fine { broke := true; break; }
      }
      if calm { LimitReached(old(saved.cursor), chunk, maxTurns, |worklist|); }
      finished := !broke;
      if { case finished && !calm => finished := false; case true => }  // The fingerprint stamp may fail.
      state := state.(status := if finished then Done else Paused);
      if { case !calm => return false; case true => }
      saved := state;
      if finished { AllTargets(title, pre, milvus, worklist); }
    }

    /** Chunks of any sizes, stopped anywhere, with docs deleted by others before any batch of any chunk: once the run is
        done every row still present is what one uninterrupted run would have made it, and a last chunk in
        which nothing goes wrong finishes it. */
    method RunAll(sizes: seq<nat>, maxTurns: Option<nat>, removals: seq<seq<seq<DocId>>>, lastCalm: bool,
                  ghost pre: Rows)
      requires Inv(pre) && |removals| == |sizes| && forall i | 0 <= i < |sizes| :: sizes[i] > 0
      modifies this`milvus, this`backup, this`state, this`saved, this`calm
      ensures Inv(pre)
      ensures saved.status == Done ==>
                forall d | d in milvus :: d in pre && milvus[d] == Uninterrupted(title, pre)[d] && Again(title, pre, d, milvus[d])
      ensures sizes != [] && lastCalm && maxTurns.None? ==> saved.status == Done
    {
      hide Progress, BackedUp, Target, Again;
      for i := 0 to |sizes|
        invariant Inv(pre)
        invariant i == |sizes| > 0 && lastCalm && maxTurns.None? ==> saved.status == Done
      {
        if { case true => calm := true; case i < |sizes| - 1 || !lastCalm => calm := false; }
        var _ := Run(sizes[i], maxTurns, removals[i], pre);
      }
      if saved.status == Done { AllTargets(title, pre, milvus, worklist); }
    }
  }

  lemma TakenMore(m0: Rows, m: Rows, m': Rows, lists: seq<seq<DocId>>, i: nat)
    requires OnlyTaken(m0, m, lists) && i < |lists| && m'.Keys <= m.Keys
    requires forall o | o in m && o !in m' :: exists j :: 0 <= j < |lists[i]| && Under(lists[i][j], o)
    ensures OnlyTaken(m0, m', lists)
  {}

  lemma RenewedKeys(title: (string, string) -> string, m: Rows, rows: seq<DocId>)
    requires forall d | d in rows :: d in m
    ensures Renewed(title, m, rows).Keys == set d | d in rows
  {}

  lemma WithinPre(title: (string, string) -> string, pre: Rows, m: Rows, processed: seq<DocId>)
    requires Progress(title, pre, m, processed)
    ensures m.Keys <= pre.Keys
  {}

  lemma AllTargets(title: (string, string) -> string, pre: Rows, m: Rows, worklist: seq<DocId>)
    requires Progress(title, pre, m, worklist[..|worklist|]) && forall d | d in pre :: d in worklist
    ensures forall d | d in m :: d in pre && m[d] == Uninterrupted(title, pre)[d] && Again(title, pre, d, m[d])
    ensures m.Keys == pre.Keys ==> m == Uninterrupted(title, pre)
  {
    hide Target, Again;
    assert worklist[..|worklist|] == worklist;
    forall d | d in m ensures d in pre && m[d] == Target(title, pre, d) {
      var i :| 0 <= i < |worklist| && worklist[i] == d;
    }
    forall d | d in m { AgainIff(title, pre, d, m[d]); }
  }
}
