/** Storing the turns a Codex parse emits: each turn lands with all its passages or not at all, and a
    landed turn replaces the other turn rows of its session and index. Over passes on a growing rollout
    the index holds one row per replied task, with its latest text. */
module CodexIndex {
  import opened Wrappers
  import opened CodexTasks
  import TurnText

  /** A turn, named by what its doc_id hashes. */
  datatype Turn = Turn(session: string, ordinal: nat, text: string)

  /** A doc_id: of a turn, of a passage of one, or of any other row. */
  datatype Key = TurnKey(turn: Turn) | PassageKey(turn: Turn, n: nat) | OtherKey(name: string)

  datatype Row = Row(session: string, index: nat, isTurn: bool, document: string)

  type Rows = map<Key, Row>

  /** What boilerplate stripping drops, what it and redaction make of a text, and its passages. */
  datatype Ingest = Ingest(drops: string -> bool, clean: string -> string, cut: string -> seq<string>)

  // ---- Units ------------------------------------------------------------------------------

  function Pieces(ing: Ingest, t: Turn): seq<string> { ing.cut(ing.clean(t.text)) }

  function UnitSize(ing: Ingest, t: Turn): nat { 1 + |Pieces(ing, t)| }

  function Total(ing: Ingest, turns: seq<Turn>): nat {
    if turns == [] then 0 else Total(ing, turns[..|turns| - 1]) + UnitSize(ing, turns[|turns| - 1])
  }

  /** A turn with its passages. */
  function UnitRows(ing: Ingest, t: Turn): Rows {
    (map i | 0 <= i < |Pieces(ing, t)| :: PassageKey(t, i) := Row(t.session, t.ordinal, false, Pieces(ing, t)[i]))
    [TurnKey(t) := Row(t.session, t.ordinal, true, ing.clean(t.text))]
  }

  /** The longest run of whole units the embeddings cover. */
  ghost predicate Fits(ing: Ingest, turns: seq<Turn>, embedded: nat, n: nat) {
    && n <= |turns| && Total(ing, turns[..n]) <= embedded
    && (n < |turns| ==> Total(ing, turns[..n + 1]) > embedded)
  }

  method FitUnits(ing: Ingest, turns: seq<Turn>, embedded: nat) returns (n: nat)
    ensures Fits(ing, turns, embedded, n)
  {
    n := 0;
    var done := 0;
    while n < |turns| && done + UnitSize(ing, turns[n]) <= embedded
      invariant n <= |turns| && done == Total(ing, turns[..n]) <= embedded
    {
      assert turns[..n + 1][..n] == turns[..n];
      done := done + UnitSize(ing, turns[n]);
      n := n + 1;
    }
    if n < |turns| { assert turns[..n + 1][..n] == turns[..n]; }
  }

  lemma {:induction false} TotalGrows(ing: Ingest, turns: seq<Turn>, n: nat)
    requires n <= |turns|
    ensures Total(ing, turns[..n]) <= Total(ing, turns)
  {
    if n < |turns| {
      TotalGrows(ing, turns[..|turns| - 1], n);
      assert turns[..|turns| - 1][..n] == turns[..n];
    } else {
      assert turns[..n] == turns;
    }
  }

  /** Enough embeddings store everything. */
  lemma AllFit(ing: Ingest, turns: seq<Turn>, embedded: nat, n: nat)
    requires Fits(ing, turns, embedded, n) && Total(ing, turns) <= embedded
    ensures n == |turns|
  {
    if n < |turns| { TotalGrows(ing, turns, n + 1); }
  }

  // ---- Replacing same turns ---------------------------------------------------------------

  /** What deleting `k` takes with it. */
  predicate Under(k: Key, o: Key) {
    o == k || (k.TurnKey? && o.PassageKey? && o.turn == k.turn)
  }

  function Without(rows: Rows, gone: set<Key>): Rows {
    map o | o in rows && forall k | k in gone :: !Under(k, o) :: rows[o]
  }

  /** The doc to keep per session and index; the last one wins. */
  function KeepOf(landed: seq<Turn>): map<(string, nat), Key> {
    if landed == [] then map[]
    else
      var t := landed[|landed| - 1];
      KeepOf(landed[..|landed| - 1])[(t.session, t.ordinal) := TurnKey(t)]
  }

  function Stale(rows: Rows, keep: map<(string, nat), Key>): set<Key> {
    set k | k in rows && rows[k].isTurn && (rows[k].session, rows[k].index) in keep
            && keep[(rows[k].session, rows[k].index)] != k
  }

  function AddAll(ing: Ingest, rows: Rows, turns: seq<Turn>): Rows {
    if turns == [] then rows else AddAll(ing, rows, turns[..|turns| - 1]) + UnitRows(ing, turns[|turns| - 1])
  }

  function Existing(rows: Rows, turns: seq<Turn>): seq<Turn> {
    if turns == [] then []
    else
      var t := turns[|turns| - 1];
      Existing(rows, turns[..|turns| - 1]) + if TurnKey(t) in rows then [t] else []
  }

  /** The turns not indexed yet that are worth storing. */
  function New(ing: Ingest, rows: Rows, turns: seq<Turn>): seq<Turn> {
    if turns == [] then []
    else
      var t := turns[|turns| - 1];
      New(ing, rows, turns[..|turns| - 1]) + if TurnKey(t) !in rows && !ing.drops(t.text) then [t] else []
  }

  /** The index after `turns` were added, of whose new ones the first `n` landed. */
  function Added(ing: Ingest, rows: Rows, turns: seq<Turn>, n: nat): Rows
    requires n <= |New(ing, rows, turns)|
  {
    var landed := New(ing, rows, turns)[..n];
    var stored := AddAll(ing, rows, landed);
    Without(stored, Stale(stored, KeepOf(Existing(rows, turns) + landed)))
  }

  class Collection {
    var rows: Rows

    /** Delete a doc, a turn with its passages. */
    method DeleteByDocId(k: Key)
      modifies this
      ensures rows == if k in old(rows) then Without(old(rows), {k}) else old(rows)
    {
      if k in rows { rows := map o | o in rows && !Under(k, o) :: rows[o]; }
      assert k in old(rows) ==> rows == Without(old(rows), {k});
    }

    /** Delete the other turn rows of the session and index of each landed turn. */
    method ReplaceStaleTurns(landed: seq<Turn>)
      modifies this
      ensures rows == Without(old(rows), Stale(old(rows), KeepOf(landed)))
    {
      hide Without, Under;
      var keep: map<(string, nat), Key> := map[];
      for i := 0 to |landed|
        invariant keep == KeepOf(landed[..i])
      {
        assert landed[..i + 1][..i] == landed[..i];
        keep := keep[(landed[i].session, landed[i].ordinal) := TurnKey(landed[i])];
      }
      assert landed[..|landed|] == landed;
      var stale := Stale(rows, keep);
      var left := stale;
      assert stale - stale == {};
      WithoutNone(rows);
      while left != {}
        invariant left <= stale && rows == Without(old(rows), stale - left)
        decreases left
      {
        var k :| k in left;
        DeleteByDocId(k);
        WithoutOne(old(rows), stale - left, k);
        assert stale - left + {k} == stale - (left - {k});
        left := left - {k};
      }
      assert stale - {} == stale;
    }

    /** Insert new turns up to the last whole unit that was embedded, then replace stale ones; returns
        how many rows went in. */
    method AddTurns(ing: Ingest, turns: seq<Turn>, embedded: nat) returns (inserted: nat, ghost n: nat)
      modifies this
      ensures Fits(ing, New(ing, old(rows), turns), embedded, n)
      ensures rows == Added(ing, old(rows), turns, n)
      ensures inserted == Total(ing, New(ing, old(rows), turns)[..n])
    {
      hide UnitRows, UnitSize, KeepOf, Stale, Without, Existing, New;
      var existing, unseen := Existing(rows, turns), New(ing, rows, turns);
      var fit := FitUnits(ing, unseen, embedded);
      n := fit;
      var landed := unseen[..fit];
      inserted := 0;
      for i := 0 to |landed|
        invariant rows == AddAll(ing, old(rows), landed[..i]) && inserted == Total(ing, landed[..i])
      {
        assert landed[..i + 1][..i] == landed[..i];
        rows := rows + UnitRows(ing, landed[i]);
        inserted := inserted + UnitSize(ing, landed[i]);
      }
      assert landed[..|landed|] == landed;
      ReplaceStaleTurns(existing + landed);
    }
  }

  lemma WithoutNone(rows: Rows)
    ensures Without(rows, {}) == rows
  {}

  /** One more delete of a doc of the original rows. */
  lemma WithoutOne(rows: Rows, gone: set<Key>, k: Key)
    requires k in rows
    ensures var now := Without(rows, gone);
            Without(rows, gone + {k}) == if k in now then Without(now, {k}) else now
  {
    var now := Without(rows, gone);
    if k !in now {
      var g :| g in gone && Under(g, k);
      assert forall o | Under(k, o) :: Under(g, o);
    }
  }

  // ---- Passes over a growing rollout ------------------------------------------------------

  type Cut = string -> string

  function TurnOf(session: string, tasks: seq<TaskValue>, i: nat, truncate: Cut): Turn
    requires i < |tasks|
  {
    Turn(session, i, tasks[i].Text(truncate))
  }

  predicate OfSession(k: Key, session: string) { !k.OtherKey? && k.turn.session == session }

  /** A doc of the session, or a turn row stored under it. */
  predicate Belongs(k: Key, row: Row, session: string) {
    OfSession(k, session) || (row.isTurn && row.session == session)
  }

  /** `t` is the turn of a replied native task. */
  predicate Wanted(session: string, tasks: seq<TaskValue>, t: Turn, truncate: Cut) {
    t.session == session && t.ordinal < |tasks| && tasks[t.ordinal].Replied()
    && t.text == tasks[t.ordinal].Text(truncate)
  }

  /** A row of a wanted turn or of one of its passages, with its content. */
  predicate Expected(ing: Ingest, session: string, tasks: seq<TaskValue>, truncate: Cut, k: Key, row: Row) {
    && !k.OtherKey? && Wanted(session, tasks, k.turn, truncate)
    && k in UnitRows(ing, k.turn) && row == UnitRows(ing, k.turn)[k]
  }

  /** The session's rows are exactly those of the replied native tasks, each with its passages. */
  ghost predicate Mirrors(ing: Ingest, rows: Rows, session: string, tasks: seq<TaskValue>, truncate: Cut) {
    && (forall k | k in rows && Belongs(k, rows[k], session) :: Expected(ing, session, tasks, truncate, k, rows[k]))
    && (forall t, k | Wanted(session, tasks, t, truncate) && k in UnitRows(ing, t) :: k in rows)
  }

  /** The turns a parse emits, without the ones the cursor names. */
  function Emitted(session: string, tasks: seq<TaskValue>, truncate: Cut, seen: set<Turn>): seq<Turn> {
    if tasks == [] then []
    else
      var i := |tasks| - 1;
      var t := Turn(session, tasks[i].ordinal, tasks[i].Text(truncate));
      Emitted(session, tasks[..i], truncate, seen) + if tasks[i].Replied() && t !in seen then [t] else []
  }

  lemma {:induction false} EmittedAre(session: string, tasks: seq<TaskValue>, truncate: Cut, seen: set<Turn>, t: Turn)
    requires Placed(tasks)
    ensures t in Emitted(session, tasks, truncate, seen) <==> Wanted(session, tasks, t, truncate) && t !in seen
  {
    if tasks != [] {
      var i := |tasks| - 1;
      EmittedAre(session, tasks[..i], truncate, seen, t);
      assert t.ordinal < i ==> tasks[..i][t.ordinal] == tasks[t.ordinal];
    }
  }

  lemma {:induction false} AddAllAt(ing: Ingest, rows: Rows, turns: seq<Turn>, k: Key)
    ensures var hit := !k.OtherKey? && k.turn in turns && k in UnitRows(ing, k.turn);
            && (k in AddAll(ing, rows, turns) <==> hit || k in rows)
            && (k in AddAll(ing, rows, turns) ==>
                  AddAll(ing, rows, turns)[k] == if hit then UnitRows(ing, k.turn)[k] else rows[k])
  {
    if turns != [] {
      var front, last := turns[..|turns| - 1], turns[|turns| - 1];
      AddAllAt(ing, rows, front, k);
      assert k in UnitRows(ing, last) ==> !k.OtherKey? && k.turn == last;
      assert !k.OtherKey? ==> (k.turn in turns <==> k.turn in front || k.turn == last);
    }
  }

  lemma {:induction false} KeepIs(landed: seq<Turn>, session: string, o: nat)
    ensures (session, o) in KeepOf(landed) <==> exists t :: t in landed && t.session == session && t.ordinal == o
    ensures (session, o) in KeepOf(landed) ==>
              exists t :: t in landed && t.session == session && t.ordinal == o && KeepOf(landed)[(session, o)] == TurnKey(t)
  {
    if landed != [] {
      var front, last := landed[..|landed| - 1], landed[|landed| - 1];
      KeepIs(front, session, o);
      forall t ensures t in landed <==> t in front || t == last {}
      if last.session == session && last.ordinal == o { assert last in landed; }
    }
  }

  lemma {:induction false} SplitTurns(ing: Ingest, rows: Rows, turns: seq<Turn>, t: Turn)
    requires forall t | t in turns :: !ing.drops(t.text)
    ensures t in Existing(rows, turns) <==> t in turns && TurnKey(t) in rows
    ensures t in New(ing, rows, turns) <==> t in turns && TurnKey(t) !in rows
  {
    if turns != [] {
      forall t | t in turns[..|turns| - 1] ensures !ing.drops(t.text) { assert t in turns; }
      SplitTurns(ing, rows, turns[..|turns| - 1], t);
      assert t in turns <==> t in turns[..|turns| - 1] || t == turns[|turns| - 1];
    }
  }

  /** What one pass is given: every wanted turn that is not indexed yet is among the emitted ones, and
      every emitted one is wanted and stored. */
  ghost predicate Pass(ing: Ingest, rows: Rows, session: string, tasks: seq<TaskValue>, truncate: Cut, turns: seq<Turn>) {
    && (forall t | t in turns :: Wanted(session, tasks, t, truncate) && !ing.drops(t.text))
    && (forall t | Wanted(session, tasks, t, truncate) && TurnKey(t) !in rows :: t in turns)
  }

  /** The rows before stale ones go, and what is kept per place. */
  lemma StoredAt(ing: Ingest, rows: Rows, session: string, tasks: seq<TaskValue>, truncate: Cut, turns: seq<Turn>, k: Key)
    requires Pass(ing, rows, session, tasks, truncate, turns)
    ensures var stored := AddAll(ing, rows, New(ing, rows, turns));
            var hit := !k.OtherKey? && k.turn in turns && TurnKey(k.turn) !in rows && k in UnitRows(ing, k.turn);
            && (k in stored <==> hit || k in rows)
            && (k in stored ==> stored[k] == if hit then UnitRows(ing, k.turn)[k] else rows[k])
  {
    hide Wanted, UnitRows;
    AddAllAt(ing, rows, New(ing, rows, turns), k);
    if !k.OtherKey? { SplitTurns(ing, rows, turns, k.turn); }
  }

  lemma KeptAt(ing: Ingest, rows: Rows, session: string, tasks: seq<TaskValue>, truncate: Cut, turns: seq<Turn>,
               s: string, o: nat)
    requires Pass(ing, rows, session, tasks, truncate, turns)
    ensures var keep := KeepOf(Existing(rows, turns) + New(ing, rows, turns));
            && ((s, o) in keep ==> s == session && o < |tasks| && keep[(s, o)] == TurnKey(TurnOf(session, tasks, o, truncate)))
            && (s == session && o < |tasks| && TurnOf(session, tasks, o, truncate) in turns ==> (s, o) in keep)
  {
    var all := Existing(rows, turns) + New(ing, rows, turns);
    forall t ensures t in all <==> t in turns {
      SplitTurns(ing, rows, turns, t);
      assert t in all <==> t in Existing(rows, turns) || t in New(ing, rows, turns);
    }
    KeepIs(all, s, o);
  }

  lemma UnitRowsAre(ing: Ingest, t: Turn)
    ensures TurnKey(t) in UnitRows(ing, t)
    ensures forall k | k in UnitRows(ing, t) ::
              var row := UnitRows(ing, t)[k];
              && !k.OtherKey? && k.turn == t && row.session == t.session && row.index == t.ordinal
              && (row.isTurn <==> k == TurnKey(t)) && Under(TurnKey(t), k)
  {}

  lemma MirrorsAt(ing: Ingest, rows: Rows, session: string, tasks: seq<TaskValue>, truncate: Cut, k: Key)
    requires Mirrors(ing, rows, session, tasks, truncate)
    ensures k in rows && Belongs(k, rows[k], session) ==> Expected(ing, session, tasks, truncate, k, rows[k])
    ensures !k.OtherKey? && Wanted(session, tasks, k.turn, truncate) && k in UnitRows(ing, k.turn) ==> k in rows
  {}

  /** A row of a task whose text changed goes with its turn; one of a task whose text is the same is
      as it should be. */
  lemma OldRow(ing: Ingest, rows: Rows, session: string, tasks: seq<TaskValue>, longer: seq<TaskValue>, truncate: Cut,
               turns: seq<Turn>, k: Key)
    requires Mirrors(ing, rows, session, tasks, truncate) && Extends(tasks, longer)
    requires Pass(ing, rows, session, longer, truncate, turns)
    requires k in rows && Belongs(k, rows[k], session)
    ensures var stored := AddAll(ing, rows, New(ing, rows, turns));
            var keep := KeepOf(Existing(rows, turns) + New(ing, rows, turns));
            Expected(ing, session, longer, truncate, k, rows[k]) || k !in Without(stored, Stale(stored, keep))
  {
    hide KeepOf, Existing, New, AddAll, UnitRows, Mirrors;
    MirrorsAt(ing, rows, session, tasks, truncate, k);
    var t := k.turn;
    assert longer[t.ordinal].Replied() by { assert Grown(tasks[t.ordinal], longer[t.ordinal]); }
    var now := TurnOf(session, longer, t.ordinal, truncate);
    if now.text != t.text {
      UnitRowsAre(ing, t);
      MirrorsAt(ing, rows, session, tasks, truncate, TurnKey(t));
      MirrorsAt(ing, rows, session, tasks, truncate, TurnKey(now));
      StoredAt(ing, rows, session, longer, truncate, turns, TurnKey(t));
      KeptAt(ing, rows, session, longer, truncate, turns, session, t.ordinal);
    }
  }

  lemma PassAt(ing: Ingest, rows: Rows, session: string, tasks: seq<TaskValue>, longer: seq<TaskValue>, truncate: Cut,
               turns: seq<Turn>, k: Key)
    requires Mirrors(ing, rows, session, tasks, truncate) && Extends(tasks, longer)
    requires Pass(ing, rows, session, longer, truncate, turns)
    ensures var rows' := AfterPass(ing, rows, turns);
            k in rows' && Belongs(k, rows'[k], session) ==> Expected(ing, session, longer, truncate, k, rows'[k])
  {
    hide KeepOf, Existing, New, AddAll, UnitRows, Mirrors, Extends, Stale;
    AfterPassIs(ing, rows, turns);
    StoredAt(ing, rows, session, longer, truncate, turns, k);
    if k in rows && Belongs(k, rows[k], session) {
      OldRow(ing, rows, session, tasks, longer, truncate, turns, k);
    }
  }

  /** The index after a pass whose turns all landed. */
  function AfterPass(ing: Ingest, rows: Rows, turns: seq<Turn>): Rows {
    Added(ing, rows, turns, |New(ing, rows, turns)|)
  }

  lemma AfterPassIs(ing: Ingest, rows: Rows, turns: seq<Turn>)
    ensures var stored := AddAll(ing, rows, New(ing, rows, turns));
            var keep := KeepOf(Existing(rows, turns) + New(ing, rows, turns));
            AfterPass(ing, rows, turns) == Without(stored, Stale(stored, keep))
  {
    hide KeepOf, Existing, New, AddAll, Stale, Without;
    var landed := New(ing, rows, turns);
    assert landed[..|landed|] == landed;
  }

  /** Every row of a wanted turn is there after the pass, and no stale row takes it. */
  lemma WantedStays(ing: Ingest, rows: Rows, session: string, tasks: seq<TaskValue>, longer: seq<TaskValue>, truncate: Cut,
                    turns: seq<Turn>, k: Key)
    requires Mirrors(ing, rows, session, tasks, truncate)
    requires Pass(ing, rows, session, longer, truncate, turns)
    requires !k.OtherKey? && Wanted(session, longer, k.turn, truncate) && k in UnitRows(ing, k.turn)
    ensures k in AfterPass(ing, rows, turns)
  {
    hide KeepOf, Existing, New, AddAll, UnitRows, Mirrors;
    var t := k.turn;
    UnitRowsAre(ing, t);
    AfterPassIs(ing, rows, turns);
    MirrorsAt(ing, rows, session, tasks, truncate, TurnKey(t));
    MirrorsAt(ing, rows, session, tasks, truncate, k);
    StoredAt(ing, rows, session, longer, truncate, turns, TurnKey(t));
    StoredAt(ing, rows, session, longer, truncate, turns, k);
    KeptAt(ing, rows, session, longer, truncate, turns, session, t.ordinal);
  }

  /** No pass touches a row that is not of the session. */
  lemma OthersStay(ing: Ingest, rows: Rows, session: string, tasks: seq<TaskValue>, longer: seq<TaskValue>, truncate: Cut,
                   turns: seq<Turn>, k: Key)
    requires Mirrors(ing, rows, session, tasks, truncate)
    requires Pass(ing, rows, session, longer, truncate, turns)
    requires !OfSession(k, session) && (k in rows ==> !Belongs(k, rows[k], session))
    ensures var rows' := AfterPass(ing, rows, turns);
            (k in rows' <==> k in rows) && (k in rows && k in rows' ==> rows'[k] == rows[k])
  {
    hide KeepOf, Existing, New, AddAll, UnitRows, Mirrors, Without;
    var stored := AddAll(ing, rows, New(ing, rows, turns));
    var keep := KeepOf(Existing(rows, turns) + New(ing, rows, turns));
    AfterPassIs(ing, rows, turns);
    StoredAt(ing, rows, session, longer, truncate, turns, k);
    forall g | g in Stale(stored, keep) ensures !Under(g, k) {
      KeptAt(ing, rows, session, longer, truncate, turns, stored[g].session, stored[g].index);
      StoredAt(ing, rows, session, longer, truncate, turns, g);
      MirrorsAt(ing, rows, session, tasks, truncate, g);
    }
    WithoutKeeps(stored, Stale(stored, keep), k);
  }

  lemma WithoutKeeps(rows: Rows, gone: set<Key>, k: Key)
    requires forall g | g in gone :: !Under(g, k)
    ensures var rows' := Without(rows, gone);
            (k in rows' <==> k in rows) && (k in rows && k in rows' ==> rows'[k] == rows[k])
  {}

  /** One pass over a rollout that has grown: afterwards the session's rows are exactly one per replied
      native task, with its latest text and the passages of that text, and no other row changed. */
  lemma PassMirrors(ing: Ingest, rows: Rows, session: string, tasks: seq<TaskValue>, longer: seq<TaskValue>,
                    truncate: Cut, turns: seq<Turn>)
    requires Mirrors(ing, rows, session, tasks, truncate) && Extends(tasks, longer)
    requires Pass(ing, rows, session, longer, truncate, turns)
    ensures Mirrors(ing, AfterPass(ing, rows, turns), session, longer, truncate)
    ensures forall k | !OfSession(k, session) && (k in rows ==> !Belongs(k, rows[k], session)) ::
              SameRow(rows, AfterPass(ing, rows, turns), k)
  {
    hide Extends, Wanted, Expected, AfterPass, Belongs, Pass, UnitRows;
    var rows' := AfterPass(ing, rows, turns);
    forall k | k in rows' && Belongs(k, rows'[k], session)
      ensures Expected(ing, session, longer, truncate, k, rows'[k])
    {
      PassAt(ing, rows, session, tasks, longer, truncate, turns, k);
    }
    forall t, k | Wanted(session, longer, t, truncate) && k in UnitRows(ing, t) ensures k in rows' {
      UnitRowsAre(ing, t);
      WantedStays(ing, rows, session, tasks, longer, truncate, turns, k);
    }
    forall k | !OfSession(k, session) && (k in rows ==> !Belongs(k, rows[k], session)) ensures SameRow(rows, rows', k) {
      OthersStay(ing, rows, session, tasks, longer, truncate, turns, k);
    }
  }

  ghost predicate SameRow(rows: Rows, rows': Rows, k: Key) {
    (k in rows' <==> k in rows) && (k in rows && k in rows' ==> rows'[k] == rows[k])
  }

  /** The rollout end to end: parse what has been appended, emit what the cursor does not name, store
      it, and the index mirrors the new parse. The first pass starts from a session with no rows. */
  lemma PassOverRollout(ing: Ingest, rows: Rows, session: string, entries: seq<Entry>, more: seq<Entry>, truncate: Cut,
                        cursor: set<Turn>)
    requires Mirrors(ing, rows, session, Tasks(entries), truncate)
    requires HasTasks(entries) || !HasTasks(more) || !Splits(entries)
    requires forall t | t in cursor && Wanted(session, Tasks(entries + more), t, truncate) :: TurnKey(t) in rows
    requires forall t | Wanted(session, Tasks(entries + more), t, truncate) :: !ing.drops(t.text)
    ensures var turns := Emitted(session, Tasks(entries + more), truncate, cursor);
            Mirrors(ing, AfterPass(ing, rows, turns), session, Tasks(entries + more), truncate)
    ensures var turns := Emitted(session, Tasks(entries + more), truncate, cursor);
            forall t | Wanted(session, Tasks(entries + more), t, truncate) :: TurnKey(t) in AfterPass(ing, rows, turns)
  {
    hide Mirrors, AfterPass, Emitted, Wanted, Extends, Parse, UnitRows, HasTasks, Splits;
    var longer := Tasks(entries + more);
    var turns := Emitted(session, longer, truncate, cursor);
    ExtendsIff(entries, more);
    OrdinalsArePlaces(entries + more, HasTasks(entries + more));
    forall t { EmittedAre(session, longer, truncate, cursor, t); }
    PassMirrors(ing, rows, session, Tasks(entries), longer, truncate, turns);
    forall t | Wanted(session, longer, t, truncate) ensures TurnKey(t) in AfterPass(ing, rows, turns) {
      UnitRowsAre(ing, t);
      MirrorsAt(ing, AfterPass(ing, rows, turns), session, longer, truncate, TurnKey(t));
    }
  }

  // ---- Any number of passes ---------------------------------------------------------------

  /** The turns of a whole parse: what a saved cursor names. */
  function CursorOf(session: string, tasks: seq<TaskValue>, truncate: Cut): set<Turn> {
    set i | 0 <= i < |tasks| && tasks[i].Replied() :: TurnOf(session, tasks, i, truncate)
  }

  function Concat(chunks: seq<seq<Entry>>): seq<Entry> {
    if chunks == [] then [] else Concat(chunks[..|chunks| - 1]) + chunks[|chunks| - 1]
  }

  /** The parse after the first `n` chunks. */
  function ParseAt(chunks: seq<seq<Entry>>, n: nat): seq<TaskValue>
    requires n <= |chunks|
  {
    Tasks(Concat(chunks[..n]))
  }

  /** After which of the first `n` passes the cursor was last saved; 0 when never. */
  function LastSaved(saved: seq<bool>, n: nat): (c: nat)
    requires n <= |saved|
    ensures c <= n && (c == 0 || saved[c - 1]) && forall i | c <= i < n :: !saved[i]
  {
    if n == 0 then 0 else if saved[n - 1] then n else LastSaved(saved, n - 1)
  }

  /** The index after `n` passes, each after another chunk was appended to the rollout. A pass that stops
      before its cursor is saved leaves the older one. */
  function Passes(ing: Ingest, rows: Rows, session: string, chunks: seq<seq<Entry>>, saved: seq<bool>, truncate: Cut, n: nat)
    : Rows
    requires n <= |chunks| == |saved|
  {
    if n == 0 then rows
    else
      var cursor := CursorOf(session, ParseAt(chunks, LastSaved(saved, n - 1)), truncate);
      AfterPass(ing, Passes(ing, rows, session, chunks, saved, truncate, n - 1),
                Emitted(session, ParseAt(chunks, n), truncate, cursor))
  }

  /** No part of the rollout is read anew when more comes, and no turn is dropped. */
  ghost predicate Steady(ing: Ingest, session: string, chunks: seq<seq<Entry>>, truncate: Cut, n: nat)
    requires n <= |chunks|
  {
    var entries := Concat(chunks[..n]);
    && (HasTasks(entries) || !HasTasks(Concat(chunks)) || !Splits(entries))
    && forall t | Wanted(session, ParseAt(chunks, n), t, truncate) :: !ing.drops(t.text)
  }

  /** A turn that the cursor in force names and the next parse yields was yielded by the last one too, and
      so is indexed. */
  ghost predicate NoneBack(session: string, chunks: seq<seq<Entry>>, saved: seq<bool>, truncate: Cut, m: nat)
    requires m < |chunks| == |saved|
  {
    var named, last, next := ParseAt(chunks, LastSaved(saved, m)), ParseAt(chunks, m), ParseAt(chunks, m + 1);
    forall t | Wanted(session, named, t, truncate) && Wanted(session, next, t, truncate) ::
      Wanted(session, last, t, truncate)
  }

  /** No turn is wanted again after it was replaced, as far as the cursors in force name it. A cursor saved
      by the pass before names none that was. */
  ghost predicate NoReturn(session: string, chunks: seq<seq<Entry>>, saved: seq<bool>, truncate: Cut)
    requires |chunks| == |saved|
  {
    forall m | 0 <= m < |chunks| :: NoneBack(session, chunks, saved, truncate, m)
  }

  lemma CursorIs(session: string, tasks: seq<TaskValue>, truncate: Cut, t: Turn)
    ensures t in CursorOf(session, tasks, truncate) <==> Wanted(session, tasks, t, truncate)
  {
    if Wanted(session, tasks, t, truncate) {
      assert t == TurnOf(session, tasks, t.ordinal, truncate);
    }
  }

  lemma ChunkStep(chunks: seq<seq<Entry>>, n: nat)
    requires n < |chunks|
    ensures Concat(chunks[..n + 1]) == Concat(chunks[..n]) + chunks[n]
  {
    assert chunks[..n + 1][..n] == chunks[..n];
  }

  /** One more pass, when none of the turns its cursor names has to be stored again. */
  lemma PassOn(ing: Ingest, before: Rows, session: string, chunks: seq<seq<Entry>>, saved: seq<bool>, truncate: Cut, m: nat)
    requires m < |chunks| == |saved| && Mirrors(ing, before, session, ParseAt(chunks, m), truncate)
    requires NoReturn(session, chunks, saved, truncate)
    requires Steady(ing, session, chunks, truncate, m) && Steady(ing, session, chunks, truncate, m + 1)
    ensures var cursor := CursorOf(session, ParseAt(chunks, LastSaved(saved, m)), truncate);
            var after := AfterPass(ing, before, Emitted(session, ParseAt(chunks, m + 1), truncate, cursor));
            Mirrors(ing, after, session, ParseAt(chunks, m + 1), truncate)
  {
    hide Mirrors, AfterPass, Emitted, Wanted, Parse, UnitRows, HasTasks, CursorOf, Concat, Splits, LastSaved;
    var c, n := LastSaved(saved, m), m + 1;
    var cursor := CursorOf(session, ParseAt(chunks, c), truncate);
    ChunkStep(chunks, m);
    KindKept(chunks, m);
    assert NoneBack(session, chunks, saved, truncate, m);
    forall t | t in cursor && Wanted(session, ParseAt(chunks, n), t, truncate) ensures TurnKey(t) in before {
      CursorIs(session, ParseAt(chunks, c), truncate, t);
      assert Wanted(session, ParseAt(chunks, m), t, truncate);
      UnitRowsAre(ing, t);
      MirrorsAt(ing, before, session, ParseAt(chunks, m), truncate, TurnKey(t));
    }
    PassOverRollout(ing, before, session, Concat(chunks[..m]), chunks[m], truncate, cursor);
  }

  /** Over all the passes of a growing rollout, from a session with no rows and with any of the cursors
      never saved, the index mirrors the latest parse after every pass. */
  lemma {:induction false} PassesMirror(ing: Ingest, rows: Rows, session: string, chunks: seq<seq<Entry>>,
                                        saved: seq<bool>, truncate: Cut, n: nat)
    requires n <= |chunks| == |saved| && Mirrors(ing, rows, session, [], truncate)
    requires NoReturn(session, chunks, saved, truncate)
    requires forall i | 0 <= i <= |chunks| :: Steady(ing, session, chunks, truncate, i)
    ensures Mirrors(ing, Passes(ing, rows, session, chunks, saved, truncate, n), session, ParseAt(chunks, n), truncate)
  {
    hide Mirrors, AfterPass, Emitted, Wanted, Parse, UnitRows, HasTasks, CursorOf, Concat, Steady, NoReturn, LastSaved;
    if n == 0 {
      NoTasks();
      assert chunks[..0] == [];
    } else {
      PassesMirror(ing, rows, session, chunks, saved, truncate, n - 1);
      PassOn(ing, Passes(ing, rows, session, chunks, saved, truncate, n - 1), session, chunks, saved, truncate, n - 1);
    }
  }

  lemma NoTasks()
    ensures Tasks(Concat([])) == []
  {}

  /** The next chunk of a rollout that is not read anew. */
  lemma KindKept(chunks: seq<seq<Entry>>, m: nat)
    requires m < |chunks|
    ensures HasTasks(chunks[m]) ==> HasTasks(Concat(chunks))
  {
    hide HasTasks;
    ChunkStep(chunks, m);
    HasTasksBoth(Concat(chunks[..m]), chunks[m]);
    ConcatGrows(chunks, m + 1, |chunks|);
    assert chunks[..|chunks|] == chunks;
    var all, part := Concat(chunks), Concat(chunks[..m + 1]);
    assert all == part + all[|part|..];
    HasTasksBoth(part, all[|part|..]);
  }

  /** When every cursor is saved nothing can come back. */
  lemma SavedNeverReturns(session: string, chunks: seq<seq<Entry>>, saved: seq<bool>, truncate: Cut)
    requires |chunks| == |saved| && forall i | 0 <= i < |saved| :: saved[i]
    ensures NoReturn(session, chunks, saved, truncate)
  {
    hide Wanted, ParseAt;
    forall m | 0 <= m < |chunks| ensures NoneBack(session, chunks, saved, truncate, m) {
      assert LastSaved(saved, m) == m;
    }
  }

  /** A cut under which a text between two that look the same looks the same. */
  ghost predicate Smooth(truncate: Cut) {
    forall a: string, b: string, c: string | a <= b <= c && truncate(a) == truncate(c) :: truncate(b) == truncate(a)
  }

  lemma {:induction false} JoinedGrows(a: seq<string>, b: seq<string>)
    requires a <= b
    ensures Joined(a) <= Joined(b)
    decreases |a|
  {
    if |a| >= 1 && |b| >= 2 {
      JoinedGrows(a[1..], b[1..]);
      assert Joined(b) == b[0] + "\n\n" + Joined(b[1..]);
      assert |a| > 1 ==> Joined(a) == b[0] + "\n\n" + Joined(a[1..]);
    } else if |a| == |b| {
      assert a == b;
    }
  }

  lemma TextBetween(x: TaskValue, y: TaskValue, z: TaskValue, truncate: Cut)
    requires Grown(x, y) && Grown(y, z) && x.parts != [] && Smooth(truncate)
    requires x.Text(truncate) == z.Text(truncate)
    ensures y.Text(truncate) == x.Text(truncate)
  {
    hide Joined;
    JoinedGrows(x.parts, y.parts);
    JoinedGrows(y.parts, z.parts);
    var head := if x.user != "" then "User: " + x.user + "\n\nAssistant: " else "";
    assert head + Joined(x.parts) <= head + Joined(y.parts) <= head + Joined(z.parts);
    HeadText(x, truncate, head);
    HeadText(y, truncate, head);
    HeadText(z, truncate, head);
  }

  lemma HeadText(x: TaskValue, truncate: Cut, head: string)
    requires head == if x.user != "" then "User: " + x.user + "\n\nAssistant: " else ""
    ensures x.Text(truncate) == truncate(head + Joined(x.parts))
  {
    hide Joined;
    assert "" + Joined(x.parts) == Joined(x.parts);
  }

  /** Between two parses that show one text the text is the same. */
  lemma Between(session: string, a: seq<TaskValue>, b: seq<TaskValue>, c: seq<TaskValue>, truncate: Cut, t: Turn)
    requires Extends(a, b) && Extends(b, c) && Smooth(truncate)
    requires Wanted(session, a, t, truncate) && Wanted(session, c, t, truncate)
    ensures Wanted(session, b, t, truncate)
  {
    hide Joined, Smooth;
    var i := t.ordinal;
    assert Grown(a[i], b[i]) && Grown(b[i], c[i]);
    TextBetween(a[i], b[i], c[i], truncate);
  }

  lemma {:induction false} ConcatGrows(chunks: seq<seq<Entry>>, m: nat, n: nat)
    requires m <= n <= |chunks|
    ensures Concat(chunks[..m]) <= Concat(chunks[..n])
  {
    if m < n {
      ConcatGrows(chunks, m, n - 1);
      ChunkStep(chunks, n - 1);
    }
  }

  lemma ParsesExtend(ing: Ingest, session: string, chunks: seq<seq<Entry>>, truncate: Cut, m: nat, n: nat)
    requires m <= n <= |chunks| && Steady(ing, session, chunks, truncate, m)
    ensures Extends(ParseAt(chunks, m), ParseAt(chunks, n))
  {
    hide HasTasks, Wanted, Parse, Extends, Splits;
    ConcatGrows(chunks, m, n);
    ConcatGrows(chunks, n, |chunks|);
    assert chunks[..|chunks|] == chunks;
    var a, b, all := Concat(chunks[..m]), Concat(chunks[..n]), Concat(chunks);
    assert b == a + b[|a|..] && all == b + all[|b|..];
    HasTasksBoth(a, b[|a|..]);
    HasTasksBoth(b, all[|b|..]);
    ExtendsIff(a, b[|a|..]);
  }

  /** With such a cut no replaced text comes back, whichever cursors were saved. */
  lemma SmoothNeverReturns(ing: Ingest, session: string, chunks: seq<seq<Entry>>, saved: seq<bool>, truncate: Cut)
    requires |chunks| == |saved| && Smooth(truncate)
    requires forall i | 0 <= i <= |chunks| :: Steady(ing, session, chunks, truncate, i)
    ensures NoReturn(session, chunks, saved, truncate)
  {
    hide Smooth, Wanted, Extends, ParseAt, Steady, LastSaved;
    forall m | 0 <= m < |chunks| ensures NoneBack(session, chunks, saved, truncate, m) {
      var c := LastSaved(saved, m);
      assert Steady(ing, session, chunks, truncate, c) && Steady(ing, session, chunks, truncate, m);
      ParsesExtend(ing, session, chunks, truncate, c, m);
      ParsesExtend(ing, session, chunks, truncate, m, m + 1);
      forall t | Wanted(session, ParseAt(chunks, c), t, truncate) && Wanted(session, ParseAt(chunks, m + 1), t, truncate)
        ensures Wanted(session, ParseAt(chunks, m), t, truncate)
      {
        Between(session, ParseAt(chunks, c), ParseAt(chunks, m), ParseAt(chunks, m + 1), truncate, t);
      }
    }
  }

  /** The cut of stored turns is one. */
  lemma TruncateIsSmooth()
    ensures Smooth(TurnText.Truncate)
  {
    hide TurnText.Cut;
    forall a: string, b: string, c: string | a <= b <= c && TurnText.Truncate(a) == TurnText.Truncate(c)
      ensures TurnText.Truncate(b) == TurnText.Truncate(a)
    {
      TurnText.CutBetween(a, b, c, TurnText.MAX_TURN_BYTES);
    }
  }

  /** With the cut the program makes: from a session with no rows, whichever cursors were saved, the index
      mirrors the latest parse after every pass. */
  lemma RolloutMirrors(ing: Ingest, rows: Rows, session: string, chunks: seq<seq<Entry>>, saved: seq<bool>, n: nat)
    requires n <= |chunks| == |saved| && Mirrors(ing, rows, session, [], TurnText.Truncate)
    requires forall i | 0 <= i <= |chunks| :: Steady(ing, session, chunks, TurnText.Truncate, i)
    ensures Mirrors(ing, Passes(ing, rows, session, chunks, saved, TurnText.Truncate, n), session, ParseAt(chunks, n),
                    TurnText.Truncate)
  {
    hide Mirrors, Steady, Smooth, NoReturn, Passes, ParseAt, TurnText.Truncate;
    TruncateIsSmooth();
    SmoothNeverReturns(ing, session, chunks, saved, TurnText.Truncate);
    PassesMirror(ing, rows, session, chunks, saved, TurnText.Truncate, n);
  }

  /** Exactly one turn row per replied task. */
  lemma OneRowPerTask(ing: Ingest, rows: Rows, session: string, tasks: seq<TaskValue>, truncate: Cut, i: nat)
    requires Mirrors(ing, rows, session, tasks, truncate) && i < |tasks|
    ensures var mine := set k | k in rows && rows[k].isTurn && rows[k].session == session && rows[k].index == i;
            if tasks[i].Replied() then
              mine == {TurnKey(TurnOf(session, tasks, i, truncate))}
              && rows[TurnKey(TurnOf(session, tasks, i, truncate))].document == ing.clean(tasks[i].Text(truncate))
            else mine == {}
  {
    hide Mirrors, UnitRows;
    var t := TurnOf(session, tasks, i, truncate);
    UnitRowsAre(ing, t);
    UnitTurn(ing, t);
    MirrorsAt(ing, rows, session, tasks, truncate, TurnKey(t));
    forall k | k in rows && rows[k].isTurn && rows[k].session == session && rows[k].index == i
      ensures tasks[i].Replied() && k == TurnKey(t)
    {
      MirrorsAt(ing, rows, session, tasks, truncate, k);
      UnitRowsAre(ing, k.turn);
    }
  }

  lemma UnitTurn(ing: Ingest, t: Turn)
    ensures TurnKey(t) in UnitRows(ing, t)
    ensures UnitRows(ing, t)[TurnKey(t)] == Row(t.session, t.ordinal, true, ing.clean(t.text))
  {}

  // ---- The rows of a task, in its own terms --------------------------------------------------

  /** Every row the session has for task `i`: its turn, with the cleaned text, and one passage for each piece of that, when
      it is a native task with a reply; none at all when it is not. */
  lemma RowsOfTask(ing: Ingest, rows: Rows, session: string, tasks: seq<TaskValue>, truncate: Cut, i: nat)
    requires Mirrors(ing, rows, session, tasks, truncate) && i < |tasks|
    ensures var text := tasks[i].Text(truncate);
            var t, clean := Turn(session, i, text), ing.clean(text);
            if !tasks[i].importing && tasks[i].parts != [] then
              && TurnKey(t) in rows && rows[TurnKey(t)] == Row(session, i, true, clean)
              && (forall n: nat :: PassageKey(t, n) in rows <==> n < |ing.cut(clean)|)
              && (forall n: nat | n < |ing.cut(clean)| :: rows[PassageKey(t, n)] == Row(session, i, false, ing.cut(clean)[n]))
              && (forall k | k in rows && Belongs(k, rows[k], session) && rows[k].index == i :: k.TurnKey? || k.PassageKey?)
              && (forall k | k in rows && Belongs(k, rows[k], session) && rows[k].index == i :: k.turn == t)
            else forall k | k in rows && Belongs(k, rows[k], session) :: rows[k].index != i
  {
    hide Mirrors, UnitRows;
    var t := Turn(session, i, tasks[i].Text(truncate));
    UnitColumns(ing, t);
    forall k: Key { MirrorsAt(ing, rows, session, tasks, truncate, k); }
    forall k | k in rows && Belongs(k, rows[k], session) ensures !k.OtherKey? && rows[k].index == k.turn.ordinal {
      UnitColumns(ing, k.turn);
    }
  }

  lemma UnitColumns(ing: Ingest, t: Turn)
    ensures var clean := ing.clean(t.text);
            && TurnKey(t) in UnitRows(ing, t) && UnitRows(ing, t)[TurnKey(t)] == Row(t.session, t.ordinal, true, clean)
            && (forall n: nat :: PassageKey(t, n) in UnitRows(ing, t) <==> n < |ing.cut(clean)|)
            && (forall n: nat | n < |ing.cut(clean)| ::
                  UnitRows(ing, t)[PassageKey(t, n)] == Row(t.session, t.ordinal, false, ing.cut(clean)[n]))
            && (forall k | k in UnitRows(ing, t) :: (k.TurnKey? || k.PassageKey?) && k.turn == t)
            && (forall k | k in UnitRows(ing, t) :: UnitRows(ing, t)[k].index == t.ordinal)
  {}

  /** A unit counts as many embeddings as it has rows. */
  lemma UnitCounts(ing: Ingest, t: Turn)
    ensures UnitSize(ing, t) == |UnitRows(ing, t)|
  {
    var n := |Pieces(ing, t)|;
    PassageKeysCount(t, n);
    assert UnitRows(ing, t).Keys == PassageKeys(t, n) + {TurnKey(t)};
    assert TurnKey(t) !in PassageKeys(t, n);
    assert |UnitRows(ing, t)| == |UnitRows(ing, t).Keys|;
  }

  /** What the turns of a batch need is the sum of that. */
  lemma TotalMore(ing: Ingest, turns: seq<Turn>, t: Turn)
    ensures Total(ing, []) == 0 && Total(ing, turns + [t]) == Total(ing, turns) + |UnitRows(ing, t)|
  {
    hide UnitRows, UnitSize;
    assert (turns + [t])[..|turns + [t]| - 1] == turns;
    UnitCounts(ing, t);
  }

  function PassageKeys(t: Turn, n: nat): set<Key> { if n == 0 then {} else PassageKeys(t, n - 1) + {PassageKey(t, n - 1)} }

  lemma {:induction false} PassageKeysCount(t: Turn, n: nat)
    ensures |PassageKeys(t, n)| == n
    ensures forall k :: k in PassageKeys(t, n) <==> exists i :: 0 <= i < n && k == PassageKey(t, i)
  {
    if n > 0 {
      PassageKeysCount(t, n - 1);
      assert PassageKey(t, n - 1) !in PassageKeys(t, n - 1);
      forall k ensures k in PassageKeys(t, n) <==> exists i :: 0 <= i < n && k == PassageKey(t, i) {
        if k == PassageKey(t, n - 1) { assert 0 <= n - 1 < n; }
      }
    }
  }
}
