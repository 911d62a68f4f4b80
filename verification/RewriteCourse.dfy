/** What a rewrite makes of the text, at every point of every run however often it stops: each row has been
    rewritten as often as its batches came up again, and what is gone was too short when its turn came. */
module RewriteCourse {
  import opened Wrappers
  import opened SessionStores

  datatype Op = ToRewrite | ToDelete

  datatype Entry = Entry(op: Op, id: DocId)

  /** Stripping, redaction, truncation, issue extraction, passage titles, and the length test. */
  datatype Rules = Rules(strip: string -> string, redact: string -> string,
                         truncate: string -> string, issues: string -> string,
                         title: (string, string) -> string, short: string -> bool)

  // ---- What one rewrite does ----------------------------------------------------------------

  predicate Drops(rules: Rules, row: Row) {
    rules.strip(row.document) != row.document && rules.short(rules.strip(row.document))
  }

  function NewRow(rules: Rules, m: Rows, d: DocId): Row
    requires d in m
  {
    var text := rules.redact(rules.strip(m[d].document));
    m[d].(document := rules.truncate(text), vector := Embedded(text, TitleOf(rules.title, m, d)),
          issueIds := rules.issues(text))
  }

  function Entries(op: Op, ids: seq<DocId>): (r: seq<Entry>)
    ensures |r| == |ids| && forall i | 0 <= i < |r| :: r[i] == Entry(op, ids[i])
  {
    seq(|ids|, i requires 0 <= i < |ids| => Entry(op, ids[i]))
  }

  predicate Sub(a: seq<Entry>, b: seq<Entry>) { forall i | 0 <= i < |a| :: a[i] in b }

  /** No pending delete finds its row. */
  predicate NoLiveDelete(m: Rows, list: seq<Entry>) {
    forall i | 0 <= i < |list| && list[i].op == ToDelete :: list[i].id !in m
  }

  /** A worklist doc stripping leaves too little of, or a passage of such a turn. */
  predicate Doomed(rules: Rules, m: Rows, ids: seq<DocId>, o: DocId) {
    exists i :: 0 <= i < |ids| && ids[i] in m && Drops(rules, m[ids[i]]) && Under(ids[i], o)
  }

  /** `r` is what `o` should be, its vector aside. */
  predicate Rewritten(rules: Rules, m: Rows, ids: seq<DocId>, o: DocId, r: Row)
    requires o in m
  {
    if o in ids then
      r == m[o].(document := rules.truncate(rules.redact(rules.strip(m[o].document))),
                 issueIds := rules.issues(rules.redact(rules.strip(m[o].document))), vector := r.vector)
    else r == m[o]
  }

  /** Each doc is gone, rewritten or untouched, whatever the batches were. */
  ghost predicate TextIs(rules: Rules, m: Rows, ids: seq<DocId>, m': Rows) {
    && (forall o :: o in m' <==> o in m && !Doomed(rules, m, ids, o))
    && (forall o | o in m' && o in m :: Rewritten(rules, m, ids, o, m'[o]))
  }

  // ---- Again and again ----------------------------------------------------------------------

  /** The text after redaction, and the text that is stored. */
  function Clean(rules: Rules, x: string): string { rules.redact(rules.strip(x)) }

  function Once(rules: Rules, x: string): string { rules.truncate(Clean(rules, x)) }

  function Times(rules: Rules, x: string, k: nat): string { if k == 0 then x else Once(rules, Times(rules, x, k - 1)) }

  predicate Short(rules: Rules, x: string) { rules.strip(x) != x && rules.short(rules.strip(x)) }

  /** Not too short at any of the first `k` rewrites. */
  ghost predicate LongFor(rules: Rules, x: string, k: nat) {
    forall j: nat | j < k :: !Short(rules, Times(rules, x, j))
  }

  /** The title slot a rewrite of `o` read: a turn has none, and a passage has its turn's, whose text had been rewritten
      some number of times by then. */
  ghost predicate Titled(rules: Rules, pre: Rows, o: DocId, title: string)
    requires o in pre
  {
    if o.Turn? then title == ""
    else if Turn(o.turn) in pre then
      exists j: nat :: title == rules.title(pre[o].columns, Times(rules, pre[Turn(o.turn)].document, j))
    else title == rules.title(pre[o].columns, "")
  }

  /** `r` is what `k` rewrites make of `o`, the last of them having embedded the text before its cut under
      such a title. */
  ghost predicate After(rules: Rules, pre: Rows, o: DocId, r: Row, k: nat)
    requires o in pre
  {
    var x := pre[o].document;
    && r.document == Times(rules, x, k) && r.columns == pre[o].columns && LongFor(rules, x, k)
    && (if k == 0 then r == pre[o]
        else && r.issueIds == rules.issues(Clean(rules, Times(rules, x, k - 1)))
             && r.vector.text == Clean(rules, Times(rules, x, k - 1)) && Titled(rules, pre, o, r.vector.title))
  }

  /** Rewritten at least once when the cursor has passed it, and never when it is not on the worklist. */
  ghost predicate OnRow(rules: Rules, pre: Rows, o: DocId, r: Row, passed: bool, listed: bool)
    requires o in pre
  {
    exists k: nat :: After(rules, pre, o, r, k) && (passed ==> k > 0) && (!listed ==> k == 0)
  }

  /** What is gone went with a worklist row that was too short, its text being what some number of
      rewrites had made of it. */
  ghost predicate Gone(rules: Rules, pre: Rows, worklist: seq<DocId>, o: DocId) {
    exists d, k: nat :: d in pre && d in worklist && Under(d, o)
      && Short(rules, Times(rules, pre[d].document, k)) && LongFor(rules, pre[d].document, k)
  }

  /** The rows, in a run that began with `pre` and has passed the first `n` entries of its worklist. */
  ghost predicate RowsCourse(rules: Rules, pre: Rows, m: Rows, worklist: seq<DocId>, n: nat) {
    && n <= |worklist|
    && (forall o | o in m :: o in pre && OnRow(rules, pre, o, m[o], o in worklist[..n], o in worklist))
    && (forall o | o in m && o.Passage? && Turn(o.turn) in pre :: Turn(o.turn) in m)
    && (forall o | o in pre && o !in m :: Gone(rules, pre, worklist, o))
  }

  /** A pending delete that still finds its row is of a worklist row that is too short. */
  ghost predicate DeletesCourse(rules: Rules, m: Rows, list: seq<Entry>, worklist: seq<DocId>) {
    forall e | e in list && e.op == ToDelete && e.id in m :: e.id in worklist && Drops(rules, m[e.id])
  }

  /** Both, for a run that began with the rows `pre`; one that took over pending deletes whose rows were
      still there has no such rows. */
  ghost predicate Course(rules: Rules, pre: Option<Rows>, m: Rows, list: seq<Entry>, worklist: seq<DocId>, n: nat) {
    pre.Some? ==> RowsCourse(rules, pre.value, m, worklist, n) && DeletesCourse(rules, m, list, worklist)
  }

  lemma CourseStarts(rules: Rules, m: Rows, list: seq<Entry>, worklist: seq<DocId>)
    requires NoLiveDelete(m, list)
    ensures Course(rules, Some(m), m, list, worklist, 0)
  {
    forall o | o in m ensures OnRow(rules, m, o, m[o], o in worklist[..0], o in worklist) {
      assert After(rules, m, o, m[o], 0);
    }
    forall e | e in list && e.op == ToDelete ensures e.id !in m {
      var i :| 0 <= i < |list| && list[i] == e;
    }
  }

  /** Fewer entries are pending. */
  lemma CourseSub(rules: Rules, pre: Option<Rows>, m: Rows, a: seq<Entry>, b: seq<Entry>, worklist: seq<DocId>, n: nat)
    requires Sub(a, b) && Course(rules, pre, m, b, worklist, n)
    ensures Course(rules, pre, m, a, worklist, n)
  {
    hide RowsCourse, Drops;
    forall e | e in a ensures e in b { var i :| 0 <= i < |a| && a[i] == e; }
  }

  /** A batch is logged as pending. */
  lemma CourseLogs(rules: Rules, pre: Option<Rows>, m: Rows, before: seq<Entry>, keep: seq<DocId>, drop: seq<DocId>,
                   worklist: seq<DocId>, n: nat)
    requires Course(rules, pre, m, before, worklist, n)
    requires forall d | d in drop :: d in worklist && (d in m ==> Drops(rules, m[d]))
    ensures Course(rules, pre, m, before + (Entries(ToRewrite, keep) + Entries(ToDelete, drop)), worklist, n)
  {
    hide RowsCourse, Drops;
    var list := before + (Entries(ToRewrite, keep) + Entries(ToDelete, drop));
    forall e | e in list && e.op == ToDelete && e !in before ensures e.id in drop {
      assert e in Entries(ToDelete, drop);
      var i :| 0 <= i < |drop| && Entries(ToDelete, drop)[i] == e;
    }
  }

  /** The rows an upsert writes are rewrites of worklist rows as they are. */
  ghost predicate Planned(rules: Rules, m: Rows, rows: Rows, worklist: seq<DocId>) {
    forall d | d in rows :: d in m && d in worklist && !Drops(rules, m[d]) && rows[d] == NewRow(rules, m, d)
  }

  /** The title a rewrite reads now. */
  lemma TitledNow(rules: Rules, pre: Rows, m: Rows, worklist: seq<DocId>, n: nat, d: DocId)
    requires RowsCourse(rules, pre, m, worklist, n) && d in m
    ensures d in pre && Titled(rules, pre, d, TitleOf(rules.title, m, d))
  {
    hide LongFor, Gone, Times, Titled;
    var t := Turn(d.turn);
    assert OnRow(rules, pre, d, m[d], d in worklist[..n], d in worklist);
    var k: nat :| After(rules, pre, d, m[d], k);
    if d.Turn? || t !in pre {
      TitledNone(rules, pre, d);
    } else {
      assert OnRow(rules, pre, t, m[t], t in worklist[..n], t in worklist);
      var j: nat :| After(rules, pre, t, m[t], j);
      TitledBy(rules, pre, d, j);
    }
  }

  lemma TitledNone(rules: Rules, pre: Rows, d: DocId)
    requires d in pre && (d.Turn? || Turn(d.turn) !in pre)
    ensures Titled(rules, pre, d, if d.Turn? then "" else rules.title(pre[d].columns, ""))
  {}

  lemma TitledBy(rules: Rules, pre: Rows, d: DocId, j: nat)
    requires d in pre && d.Passage? && Turn(d.turn) in pre
    ensures Titled(rules, pre, d, rules.title(pre[d].columns, Times(rules, pre[Turn(d.turn)].document, j)))
  {}

  lemma AfterNext(rules: Rules, pre: Rows, m: Rows, d: DocId, k: nat)
    requires d in m && d in pre && After(rules, pre, d, m[d], k) && !Drops(rules, m[d])
    requires Titled(rules, pre, d, TitleOf(rules.title, m, d))
    ensures After(rules, pre, d, NewRow(rules, m, d), k + 1)
  {
    hide Titled, TitleOf;
    var x := pre[d].document;
    assert Times(rules, x, k + 1) == Once(rules, Times(rules, x, k));
    assert Short(rules, m[d].document) == Drops(rules, m[d]);
  }

  lemma OnRowNext(rules: Rules, pre: Rows, m: Rows, worklist: seq<DocId>, n: nat, d: DocId)
    requires RowsCourse(rules, pre, m, worklist, n) && d in m && d in worklist && !Drops(rules, m[d])
    ensures d in pre && OnRow(rules, pre, d, NewRow(rules, m, d), true, true)
  {
    hide After, NewRow, Drops, Gone, Titled;
    TitledNow(rules, pre, m, worklist, n, d);
    assert OnRow(rules, pre, d, m[d], d in worklist[..n], true);
    var k: nat :| After(rules, pre, d, m[d], k);
    AfterNext(rules, pre, m, d, k);
  }

  lemma OnRowLess(rules: Rules, pre: Rows, o: DocId, r: Row, passed: bool, listed: bool)
    requires o in pre && OnRow(rules, pre, o, r, true, listed)
    ensures OnRow(rules, pre, o, r, passed, listed)
  {
    hide After;
  }

  /** An upsert of which any part landed. */
  lemma CourseUpserts(rules: Rules, pre: Option<Rows>, m: Rows, rows: Rows, landed: set<DocId>, list: seq<Entry>,
                      worklist: seq<DocId>, n: nat)
    requires Course(rules, pre, m, list, worklist, n) && Planned(rules, m, rows, worklist)
    ensures Course(rules, pre, Merge(m, rows, landed), list, worklist, n)
  {
    hide OnRow, NewRow, Drops, Gone;
    var m' := Merge(m, rows, landed);
    if pre.Some? {
      forall o | o in m' ensures o in pre.value && OnRow(rules, pre.value, o, m'[o], o in worklist[..n], o in worklist) {
        if o in rows && o in landed {
          OnRowNext(rules, pre.value, m, worklist, n, o);
          OnRowLess(rules, pre.value, o, m'[o], o in worklist[..n], true);
        }
      }
      forall e | e in list && e.op == ToDelete && e.id in m' ensures e.id in worklist && Drops(rules, m'[e.id]) {
        assert e.id in m && e.id !in rows;
      }
    }
  }

  /** A delete of `d` that got anywhere takes what may go. */
  lemma ShrunkGone(rules: Rules, pre: Rows, m: Rows, worklist: seq<DocId>, n: nat, m': Rows, d: DocId, o: DocId)
    requires RowsCourse(rules, pre, m, worklist, n) && Shrunk(m, m', d) && o in m && o !in m'
    requires d in worklist && d in m && Drops(rules, m[d])
    ensures Gone(rules, pre, worklist, o)
  {
    hide Gone;
    var k: nat :| After(rules, pre, d, m[d], k);
    assert Short(rules, Times(rules, pre[d].document, k)) && LongFor(rules, pre[d].document, k);
    assert Under(d, o);
    GoneBy(rules, pre, worklist, o, d, k);
  }

  lemma GoneBy(rules: Rules, pre: Rows, worklist: seq<DocId>, o: DocId, d: DocId, k: nat)
    requires d in pre && d in worklist && Under(d, o)
    requires Short(rules, Times(rules, pre[d].document, k)) && LongFor(rules, pre[d].document, k)
    ensures Gone(rules, pre, worklist, o)
  {}

  lemma CourseShrinks(rules: Rules, pre: Option<Rows>, m: Rows, m': Rows, d: DocId, list: seq<Entry>,
                      worklist: seq<DocId>, n: nat)
    requires Course(rules, pre, m, list, worklist, n) && Shrunk(m, m', d)
    requires pre.Some? && d in m ==> d in worklist && Drops(rules, m[d])
    ensures Course(rules, pre, m', list, worklist, n)
  {
    hide OnRow, Drops, Gone;
    if pre.Some? {
      forall o | o in pre.value && o !in m' ensures Gone(rules, pre.value, worklist, o) {
        if o in m { ShrunkGone(rules, pre.value, m, worklist, n, m', d, o); }
      }
      forall o | o in m' && o.Passage? && Turn(o.turn) in pre.value ensures Turn(o.turn) in m' {
        assert Turn(o.turn) in m;
        assert Turn(o.turn) !in m' ==> Under(d, Turn(o.turn));
      }
    }
  }

  /** The pending entry `e` may take its row. */
  lemma EntryShrinks(rules: Rules, pre: Option<Rows>, m: Rows, m': Rows, e: Entry, list: seq<Entry>,
                     worklist: seq<DocId>, n: nat)
    requires Course(rules, pre, m, list, worklist, n) && Shrunk(m, m', e.id)
    requires e in list && (e.op == ToDelete || e.id !in m)
    ensures Course(rules, pre, m', list, worklist, n)
  {
    hide RowsCourse, Drops, Shrunk;
    CourseShrinks(rules, pre, m, m', e.id, list, worklist, n);
  }

  /** The cursor passes rows that were all rewritten as they were read, or went. */
  lemma CoursePasses(rules: Rules, pre: Option<Rows>, m: Rows, m': Rows, list: seq<Entry>, worklist: seq<DocId>,
                     n: nat, upto: nat)
    requires n <= upto <= |worklist|
    requires Course(rules, pre, m, [], worklist, n) && Course(rules, pre, m', list, worklist, n)
    requires TextIs(rules, m, worklist[n..upto], m')
    requires forall o | o in worklist[n..upto] && o in m && o in m' :: m'[o].vector == NewRow(rules, m, o).vector
    ensures Course(rules, pre, m', list, worklist, upto)
  {
    hide OnRow, Gone, Drops, After, NewRow, Doomed, Rewritten;
    if pre.Some? {
      forall o | o in m' ensures o in pre.value && OnRow(rules, pre.value, o, m'[o], o in worklist[..upto], o in worklist) {
        if o in worklist[n..upto] {
          BatchPasses(rules, m, worklist[n..upto], m', o);
          OnRowNext(rules, pre.value, m, worklist, n, o);
          OnRowLess(rules, pre.value, o, m'[o], o in worklist[..upto], true);
        } else {
          assert o in worklist[..upto] <==> o in worklist[..n];
        }
      }
    }
  }

  lemma BatchPasses(rules: Rules, m: Rows, ids: seq<DocId>, m': Rows, o: DocId)
    requires TextIs(rules, m, ids, m') && o in m' && o in ids
    requires o in m ==> m'[o].vector == NewRow(rules, m, o).vector
    ensures o in m && !Drops(rules, m[o]) && m'[o] == NewRow(rules, m, o)
  {
    hide Doomed;
    assert !Doomed(rules, m, ids, o);
    NotShort(rules, m, ids, o);
  }

  lemma NotShort(rules: Rules, m: Rows, ids: seq<DocId>, o: DocId)
    requires o in m && o in ids && !Doomed(rules, m, ids, o)
    ensures !Drops(rules, m[o])
  {
    var i :| 0 <= i < |ids| && ids[i] == o;
    assert Under(ids[i], o);
  }

  // ---- A finished run -----------------------------------------------------------------------

  /** Stripping leaves stored text alone, a second rewrite changes nothing, and the issue ids read from
      stored text are those read before the cut. */
  ghost predicate Replays(rules: Rules) {
    forall x ::
      && rules.strip(Once(rules, x)) == Once(rules, x) && Once(rules, Once(rules, x)) == Once(rules, x)
      && rules.issues(Clean(rules, Once(rules, x))) == rules.issues(Clean(rules, x))
  }

  lemma {:induction false} TimesStay(rules: Rules, x: string, k: nat)
    requires Replays(rules) && k > 0
    ensures Times(rules, x, k) == Once(rules, x) && !Short(rules, Times(rules, x, k))
    ensures rules.issues(Clean(rules, Times(rules, x, k - 1))) == rules.issues(Clean(rules, x))
  {
    hide Clean;
    assert rules.strip(Once(rules, x)) == Once(rules, x);
    if k > 1 { TimesStay(rules, x, k - 1); }
  }

  lemma GoneIsDoomed(rules: Rules, pre: Rows, worklist: seq<DocId>, o: DocId)
    requires Replays(rules) && o in pre && Gone(rules, pre, worklist, o)
    ensures Doomed(rules, pre, worklist, o)
  {
    hide Replays, Once, Clean;
    var d, k: nat :| d in pre && d in worklist && Under(d, o)
      && Short(rules, Times(rules, pre[d].document, k)) && LongFor(rules, pre[d].document, k);
    if k > 0 { TimesStay(rules, pre[d].document, k); }
    var i :| 0 <= i < |worklist| && worklist[i] == d;
  }

  lemma DoomedIsGone(rules: Rules, pre: Rows, m: Rows, worklist: seq<DocId>, o: DocId)
    requires RowsCourse(rules, pre, m, worklist, |worklist|) && o in pre && Doomed(rules, pre, worklist, o)
    ensures o !in m
  {
    hide Once, Gone;
    var i :| 0 <= i < |worklist| && worklist[i] in pre && Drops(rules, pre[worklist[i]]) && Under(worklist[i], o);
    var d := worklist[i];
    assert worklist[..|worklist|] == worklist;
    forall k: nat | k > 0 ensures !LongFor(rules, pre[d].document, k) {
      assert Short(rules, Times(rules, pre[d].document, 0));
    }
    assert d !in m;
  }

  lemma OnRowOnce(rules: Rules, pre: Rows, worklist: seq<DocId>, o: DocId, r: Row)
    requires Replays(rules) && o in pre && OnRow(rules, pre, o, r, o in worklist, o in worklist)
    ensures Rewritten(rules, pre, worklist, o, r)
  {
    hide Replays, Short, Titled;
    var k: nat :| After(rules, pre, o, r, k) && (o in worklist ==> k > 0) && (o !in worklist ==> k == 0);
    if k > 0 { TimesStay(rules, pre[o].document, k); }
  }

  /** Whatever crashes, resumptions and repeated batches came before: when rewriting again changes nothing, a
      finished run has rewritten each worklist row once and dropped exactly those that were too short, with
      their passages. */
  lemma CourseText(rules: Rules, pre: Rows, m: Rows, list: seq<Entry>, worklist: seq<DocId>)
    requires Course(rules, Some(pre), m, list, worklist, |worklist|) && Replays(rules)
    ensures TextIs(rules, pre, worklist, m)
  {
    hide Replays, OnRow, Gone, Doomed, Rewritten;
    assert worklist[..|worklist|] == worklist;
    forall o ensures o in m <==> o in pre && !Doomed(rules, pre, worklist, o)
             ensures o in m && o in pre ==> Rewritten(rules, pre, worklist, o, m[o])
    {
      if o in pre {
        if o in m { OnRowOnce(rules, pre, worklist, o, m[o]); } else { GoneIsDoomed(rules, pre, worklist, o); }
        if Doomed(rules, pre, worklist, o) { DoomedIsGone(rules, pre, m, worklist, o); }
      }
    }
  }

  /** And each of those rows carries the vector of the cleaned text, as it was or as it was after one rewrite, under its
      turn's title from before or after one. */
  ghost predicate VectorOnce(rules: Rules, pre: Rows, o: DocId, v: Vector)
    requires o in pre
  {
    var x, c := pre[o].document, pre[o].columns;
    && v.text in {Clean(rules, x), Clean(rules, Once(rules, x))}
    && (if o.Turn? then v.title == ""
        else if Turn(o.turn) in pre then
          var y := pre[Turn(o.turn)].document; v.title in {rules.title(c, y), rules.title(c, Once(rules, y))}
        else v.title == rules.title(c, ""))
  }

  lemma CourseVector(rules: Rules, pre: Rows, m: Rows, list: seq<Entry>, worklist: seq<DocId>, o: DocId)
    requires Course(rules, Some(pre), m, list, worklist, |worklist|) && Replays(rules) && o in m && o in worklist
    ensures o in pre && VectorOnce(rules, pre, o, m[o].vector)
  {
    hide Replays, Gone, Short, Once, Clean, LongFor, DeletesCourse;
    assert worklist[..|worklist|] == worklist;
    assert OnRow(rules, pre, o, m[o], o in worklist[..|worklist|], o in worklist);
    var k: nat :| After(rules, pre, o, m[o], k) && k > 0;
    if k > 1 { TimesStay(rules, pre[o].document, k - 1); }
    if o.Passage? && Turn(o.turn) in pre {
      var y := pre[Turn(o.turn)].document;
      var j: nat :| m[o].vector.title == rules.title(pre[o].columns, Times(rules, y, j));
      if j > 0 { TimesStay(rules, y, j); }
    }
  }

  // ---- What the text becomes, in the rules' own terms ----------------------------------------

  /** Stripping leaves less of the row's text, and too little. */
  predicate TooShort(rules: Rules, row: Row) {
    rules.strip(row.document) != row.document && rules.short(rules.strip(row.document))
  }

  /** A listed row that is too short goes, with its passages when it is a turn. */
  ghost predicate GoesWith(rules: Rules, m: Rows, ids: seq<DocId>, o: DocId) {
    exists d :: d in ids && d in m && TooShort(rules, m[d]) && (o == d || (d.Turn? && o.Passage? && o.turn == d.turn))
  }

  /** What `TextIs` says: what goes is gone, a listed row has its text stripped, redacted and then cut, and its issue ids
      read before the cut, and the rest is as it was. */
  lemma TextMeans(rules: Rules, m: Rows, ids: seq<DocId>, m': Rows)
    ensures TextIs(rules, m, ids, m') <==>
              && (forall o :: o in m' <==> o in m && !GoesWith(rules, m, ids, o))
              && (forall o | o in m' && o in m ::
                    if o in ids then
                      && m'[o].document == rules.truncate(rules.redact(rules.strip(m[o].document)))
                      && m'[o].issueIds == rules.issues(rules.redact(rules.strip(m[o].document)))
                      && m'[o].columns == m[o].columns
                    else m'[o] == m[o])
  {
    forall o ensures GoesWith(rules, m, ids, o) <==> Doomed(rules, m, ids, o) { GoesIff(rules, m, ids, o); }
  }

  lemma GoesIff(rules: Rules, m: Rows, ids: seq<DocId>, o: DocId)
    ensures GoesWith(rules, m, ids, o) <==> Doomed(rules, m, ids, o)
  {
    if d :| d in ids && d in m && TooShort(rules, m[d]) && (o == d || (d.Turn? && o.Passage? && o.turn == d.turn)) {
      var i :| 0 <= i < |ids| && ids[i] == d;
      assert Drops(rules, m[ids[i]]) && Under(ids[i], o);
    }
    if i :| 0 <= i < |ids| && ids[i] in m && Drops(rules, m[ids[i]]) && Under(ids[i], o) {
      assert TooShort(rules, m[ids[i]]);
    }
  }
}
