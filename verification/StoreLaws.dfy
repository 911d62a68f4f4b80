/** What each write leaves in every column, said of the stored fields alone, and what one write makes of the
    next. */
module StoreLaws {
  import opened Wrappers
  import opened MemoryStore
  import opened StoreInvariants

  // ---- Add --------------------------------------------------------------------------------

  /** No record but `id` and the targets changed in any way, and of a target at most its status, with the columns
      every write moves; one that was superseded before did not change at all. */
  ghost predicate OnlyMarked(db: Db, db': Db, id: MemoryId, targets: set<MemoryId>) {
    && db'.memories.Keys == db.memories.Keys + {id} && db'.meta == db.meta
    && (forall o | o in db.memories && o != id && o !in targets :: Kept(db, db', o))
    && (forall t | t in targets && t in db.memories && t != id :: Marks(db, db', t))
  }

  ghost predicate Marks(db: Db, db': Db, t: MemoryId)
    requires t in db.memories && t in db'.memories
  {
    var row, row' := db.memories[t], db'.memories[t];
    if row.status == Superseded then Kept(db, db', t)
    else
      && row' == row.(status := Superseded, updatedAt := row'.updatedAt, version := row.version + 1, changeSeq := row'.changeSeq)
      && row'.updatedAt > row.updatedAt && NoAcks(db', t)
  }

  predicate StoredKey(key: Option<string>, stored: Option<string>) {
    if key == Some("") then stored.None? else stored == key
  }

  predicate OrDefault<T(==)>(given: Option<T>, default: T, stored: T) {
    stored == match given case Some(v) => v case None => default
  }

  /** A created record has every column it was added with. */
  predicate CreatedFrom(row: Memory, rec: NewMemory, now: Time) {
    && row.user == rec.user && row.project == rec.project && row.agent == rec.agent && row.kind == rec.kind
    && row.status == rec.status && StoredKey(rec.topicKey, row.topicKey) && row.contentHash == rec.contentHash
    && row.text == rec.text && row.extra == rec.extra && row.issueIds == rec.issueIds
    && row.supersedes == rec.supersedes && row.source == rec.source && row.deletedAt.None? && row.version == 1
    && OrDefault(rec.createdAt, now, row.createdAt) && OrDefault(rec.updatedAt, row.createdAt, row.updatedAt)
  }

  /** A replaced one has them too, but keeps its identity, its topic key, the order of issue ids that are the
      same, and what it superseded when nothing new is named; its time moves on. */
  predicate ReplacedFrom(row: Memory, was: Memory, rec: NewMemory, now: Time) {
    && row.user == was.user && row.project == was.project && row.createdAt == was.createdAt
    && row.topicKey == was.topicKey && StoredKey(rec.topicKey, row.topicKey) && row.deletedAt == was.deletedAt
    && row.agent == rec.agent && row.kind == rec.kind && row.status == rec.status && row.contentHash == rec.contentHash
    && row.text == rec.text && row.extra == rec.extra && row.source == rec.source
    && SameIssues(row.issueIds, was.issueIds, rec.issueIds)
    && row.supersedes == (if rec.supersedes == {} then was.supersedes else rec.supersedes)
    && row.version == was.version + 1 && MovesOn(rec.updatedAt, was.updatedAt, now, row.updatedAt)
  }

  predicate SameIssues(row: seq<string>, was: seq<string>, given: seq<string>) {
    row == if multiset(was) == multiset(given) then was else given
  }

  /** The given time, else the clock, or the next instant when the clock has not moved on. */
  predicate MovesOn(given: Option<Time>, was: Time, now: Time, at: Time) {
    if given.Some? then at == given.value else at >= now && at > was && (at == now || at == was + 1)
  }

  predicate Reported(w: Written, row: Memory) {
    w.version == row.version && w.createdAt == row.createdAt && w.updatedAt == row.updatedAt && w.changeSeq == row.changeSeq
  }

  ghost predicate Added(db: Db, db': Db, rec: NewMemory, now: Time, newId: MemoryId, w: Written) {
    && w.id in db'.memories && Reported(w, db'.memories[w.id])
    && match w.outcome
       case Created => w.id == newId && CreatedFrom(db'.memories[newId], rec, now) && OnlyMarked(db, db', newId, rec.supersedes)
       case Replaced =>
         && w.id in db.memories && ReplacedFrom(db'.memories[w.id], db.memories[w.id], rec, now)
         && OnlyMarked(db, db', w.id, rec.supersedes)
       case Deduplicated => db' == db && LiveIn(db.memories[w.id], rec.user, rec.project)
                            && db.memories[w.id].contentHash == rec.contentHash
       case _ => false
  }

  lemma {:induction false} SupersedeMarks(db: Db, targets: set<MemoryId>, now: Time)
    requires targets <= db.memories.Keys
    ensures var db' := Supersede(db, targets, now);
            && db'.memories.Keys == db.memories.Keys && db'.meta == db.meta && db'.acks.Keys <= db.acks.Keys
            && (forall o | o in db.memories && o !in targets :: Kept(db, db', o))
            && (forall t | t in targets :: Marks(db, db', t))
    decreases targets
  {
    hide Marks, Kept;
    if targets == {} {
      forall o | o in db.memories ensures Kept(db, db, o) { KeptItself(db, o); }
    } else {
      var t := MinOf(targets);
      var mid := if db.memories[t].status == Superseded then db
                 else ApplyChange(db, t, MARK_SUPERSEDED, now, Marked).0;
      MarkOne(db, t, now);
      SupersedeMarks(mid, targets - {t}, now);
      var db' := Supersede(mid, targets - {t}, now);
      forall o | o in db.memories && o !in targets ensures Kept(db, db', o) { KeptTwice(db, mid, db', o); }
      forall u | u in targets ensures Marks(db, db', u) {
        if u == t { MarkedKept(db, mid, db', t); } else { KeptMarked(db, mid, db', u); }
      }
    }
  }

  lemma KeptItself(db: Db, o: MemoryId)
    requires o in db.memories
    ensures Kept(db, db, o)
  {}

  lemma KeptTwice(a: Db, b: Db, c: Db, o: MemoryId)
    requires o in a.memories && o in b.memories && o in c.memories && Kept(a, b, o) && Kept(b, c, o)
    ensures Kept(a, c, o)
  {}

  lemma MarkOne(db: Db, t: MemoryId, now: Time)
    requires t in db.memories
    ensures var mid := if db.memories[t].status == Superseded then db
                       else ApplyChange(db, t, MARK_SUPERSEDED, now, Marked).0;
            && mid.memories.Keys == db.memories.Keys && mid.meta == db.meta && Marks(db, mid, t)
            && forall o | o in db.memories && o != t :: Kept(db, mid, o)
  {}

  /** Acknowledgements never come back while no index is at work. */
  lemma MarkedKept(a: Db, b: Db, c: Db, t: MemoryId)
    requires t in a.memories && t in b.memories && t in c.memories && Marks(a, b, t) && Kept(b, c, t)
    requires forall k | k in c.acks :: k in b.acks
    ensures Marks(a, c, t)
  {}

  lemma KeptMarked(a: Db, b: Db, c: Db, t: MemoryId)
    requires t in a.memories && t in b.memories && t in c.memories && Kept(a, b, t) && Marks(b, c, t)
    ensures Marks(a, c, t)
  {}

  lemma CreatesColumns(db: Db, rec: NewMemory, now: Time, newId: MemoryId)
    requires newId !in db.memories && BadTargets(db, rec) == {} && (forall k | k in db.acks :: k.1 in db.memories)
    ensures var row := FreshRow(db, rec, EmptyToNone(rec.topicKey), now);
            && rec.supersedes <= Insert(db, newId, row).memories.Keys
            && var db' := Supersede(Insert(db, newId, row), rec.supersedes, now);
            newId in db'.memories && db'.memories[newId] == row && CreatedFrom(row, rec, now)
            && OnlyMarked(db, db', newId, rec.supersedes)
  {
    hide Marks;
    var row := FreshRow(db, rec, EmptyToNone(rec.topicKey), now);
    var mid := Insert(db, newId, row);
    TargetsLive(db, rec);
    SupersedeMarks(mid, rec.supersedes, now);
    var db' := Supersede(mid, rec.supersedes, now);
    assert Kept(mid, db', newId);
    forall o | o in db.memories && o !in rec.supersedes ensures Kept(db, db', o) { assert Kept(mid, db', o); }
    forall t | t in rec.supersedes ensures Marks(db, db', t) {
      assert Kept(db, mid, t);
      KeptMarked(db, mid, db', t);
    }
  }

  lemma ReplacesColumns(db: Db, rec: NewMemory, now: Time, id: MemoryId)
    requires id in db.memories && BadTargets(db, rec) == {} && id in TopicRows(db, rec.user, rec.project, EmptyToNone(rec.topicKey))
    requires db.memories[id].contentHash != rec.contentHash
    ensures var (mid, w) := ApplyChange(db, id, Replacement(rec), now, Replaced);
            && rec.supersedes - {id} <= mid.memories.Keys
            && var db' := Supersede(mid, rec.supersedes - {id}, now);
            && id in db'.memories && w == Report(id, db'.memories[id], Replaced)
            && ReplacedFrom(db'.memories[id], db.memories[id], rec, now) && NoAcks(db', id)
            && OnlyMarked(db, db', id, rec.supersedes)
  {
    hide Marks, BadTargets;
    TargetsLive(db, rec);
    var mid := ApplyChange(db, id, Replacement(rec), now, Replaced).0;
    ReplacedRow(db, rec, now, id);
    SupersedeMarks(mid, rec.supersedes - {id}, now);
    var db' := Supersede(mid, rec.supersedes - {id}, now);
    assert Kept(mid, db', id);
    forall o | o in db.memories && o != id && o !in rec.supersedes ensures Kept(db, db', o) {
      assert Kept(mid, db', o);
      KeptTwice(db, mid, db', o);
    }
    forall t | t in rec.supersedes && t != id ensures Marks(db, db', t) { KeptMarked(db, mid, db', t); }
  }

  lemma ReplacedRow(db: Db, rec: NewMemory, now: Time, id: MemoryId)
    requires id in db.memories && id in TopicRows(db, rec.user, rec.project, EmptyToNone(rec.topicKey))
    requires db.memories[id].contentHash != rec.contentHash
    ensures var (mid, w) := ApplyChange(db, id, Replacement(rec), now, Replaced);
            && mid.memories.Keys == db.memories.Keys && mid.meta == db.meta && NoAcks(mid, id)
            && w == Report(id, mid.memories[id], Replaced) && ReplacedFrom(mid.memories[id], db.memories[id], rec, now)
            && forall o | o in db.memories && o != id :: Kept(db, mid, o)
  {
    assert Merge(db.memories[id], Replacement(rec)).contentHash == rec.contentHash;
  }

  /** What an add leaves: a record with every column given, or one with the topic key given them all in place of its
      own, or nothing new; and of the rest nothing changes but that the targets end superseded. */
  lemma AddColumns(db: Db, rec: NewMemory, now: Time, newId: MemoryId)
    requires Valid(db) && newId !in db.memories
    ensures var (db', r) := AddTx(db, rec, now, newId);
            if r.Ok? then Added(db, db', rec, now, newId, r.value) else db' == db && Refuses(db, rec, r.error)
  {
    hide Valid, BadTargets, Refuses, OnlyMarked, CreatedFrom, ReplacedFrom, Supersede, ApplyChange, FreshRow, Insert, TopicRows, HashRows;
    assert forall k | k in db.acks :: k.1 in db.memories by { AcksOfRecords(db); }
    if BadTargets(db, rec) == {} {
      var topics := TopicRows(db, rec.user, rec.project, EmptyToNone(rec.topicKey));
      var hashes := HashRows(db, rec.user, rec.project, rec.contentHash);
      InRows(db, rec);
      if topics != {} && hashes != {} && MinOf(topics) != MinOf(hashes) { ConflictRefuses(db, rec, MinOf(topics), MinOf(hashes)); }
      if topics == {} && hashes == {} {
        CreatesColumns(db, rec, now, newId);
      } else if topics != {} && db.memories[MinOf(topics)].contentHash != rec.contentHash {
        ReplacesColumns(db, rec, now, MinOf(topics));
      }
    } else {
      BadRefuses(db, rec);
    }
  }

  lemma AcksOfRecords(db: Db)
    requires Valid(db)
    ensures forall k | k in db.acks :: k.1 in db.memories
  {
    hide Unique, LogOf, SequencesUnique;
  }

  lemma InRows(db: Db, rec: NewMemory)
    ensures forall id | id in TopicRows(db, rec.user, rec.project, EmptyToNone(rec.topicKey)) ::
              id in db.memories && LiveIn(db.memories[id], rec.user, rec.project)
    ensures forall id | id in HashRows(db, rec.user, rec.project, rec.contentHash) ::
              id in db.memories && LiveIn(db.memories[id], rec.user, rec.project)
              && db.memories[id].contentHash == rec.contentHash
  {}

  /** A target is usable when it is a live record of the same user and project. */
  predicate Usable(db: Db, rec: NewMemory, t: MemoryId) {
    t in db.memories && db.memories[t].deletedAt.None? && db.memories[t].user == rec.user && db.memories[t].project == rec.project
  }

  /** The refusal names exactly the targets that are not usable, or one live record of the scope with the topic key and
      another one with the content. */
  ghost predicate Refuses(db: Db, rec: NewMemory, e: Error) {
    match e
    case InvalidSupersede(ids) => ids != {} && forall t :: t in ids <==> t in rec.supersedes && !Usable(db, rec, t)
    case Conflict(ids) =>
      exists a, b :: ids == {a, b} && a != b && Usable(db, rec, a) && Usable(db, rec, b)
        && rec.topicKey.Some? && rec.topicKey != Some("") && db.memories[a].topicKey == rec.topicKey
        && db.memories[b].contentHash == rec.contentHash
    case _ => false
  }

  lemma BadRefuses(db: Db, rec: NewMemory)
    requires BadTargets(db, rec) != {}
    ensures Refuses(db, rec, InvalidSupersede(BadTargets(db, rec)))
  {}

  lemma ConflictRefuses(db: Db, rec: NewMemory, a: MemoryId, b: MemoryId)
    requires a in TopicRows(db, rec.user, rec.project, EmptyToNone(rec.topicKey)) && a != b
    requires b in HashRows(db, rec.user, rec.project, rec.contentHash)
    ensures Refuses(db, rec, Conflict({a, b}))
  {
    assert {a, b} == {a, b} && Usable(db, rec, a) && Usable(db, rec, b);
  }

  // ---- One add after another ----------------------------------------------------------------

  /** A later add of the same scope with the topic key and with a content nobody holds goes over the record the first one
      named, unless that one was found by its content and holds another key: then it makes a record of its own. */
  lemma TopicReplaces(db: Db, rec: NewMemory, now: Time, newId: MemoryId, once: Db, named: Written,
                      next: NewMemory, later: Time, moreId: MemoryId)
    requires Valid(db) && newId !in db.memories && AddTx(db, rec, now, newId) == (once, Ok(named))
    requires rec.topicKey.Some? && rec.topicKey != Some("")
    requires next.topicKey == rec.topicKey && next.user == rec.user && next.project == rec.project
    requires moreId !in once.memories && forall t | t in next.supersedes :: Usable(once, next, t)
    requires forall o | o in once.memories && Usable(once, next, o) :: once.memories[o].contentHash != next.contentHash
    ensures named.id in once.memories
    ensures var (twice, r) := AddTx(once, next, later, moreId);
            && r.Ok?
            && (if once.memories[named.id].topicKey == rec.topicKey
                then && r.value.outcome == Replaced && r.value.id == named.id
                     && named.id in twice.memories && twice.memories[named.id].text == next.text
                else named.outcome == Deduplicated && r.value.outcome == Created && r.value.id == moreId)
  {
    hide Valid, BadTargets, Supersede, ApplyChange, FreshRow, Insert, Replacement, AddTx, Added, OnlyMarked;
    AddKeeps(db, rec, now, newId);
    AllUsable(once, next);
    assert HashRows(once, next.user, next.project, next.contentHash) == {};
    NamedHolds(db, rec, now, newId);
    ValidIsUnique(once);
    if once.memories[named.id].topicKey == rec.topicKey {
      assert named.id in TopicRows(once, next.user, next.project, next.topicKey);
      TopicRowsUnique(once, next.user, next.project, next.topicKey, named.id);
      SecondReplaces(once, next, later, moreId, named.id);
    } else {
      SecondCreates(once, next, later, moreId);
    }
  }

  lemma AllUsable(db: Db, rec: NewMemory)
    requires forall t | t in rec.supersedes :: Usable(db, rec, t)
    ensures BadTargets(db, rec) == {}
  {}

  /** The record an add names has the topic key, or the add wrote nothing and no live record of the scope has it. */
  lemma NamedHolds(db: Db, rec: NewMemory, now: Time, newId: MemoryId)
    requires Valid(db) && newId !in db.memories && rec.topicKey.Some? && rec.topicKey != Some("")
    requires AddTx(db, rec, now, newId).1.Ok?
    ensures var (once, r) := AddTx(db, rec, now, newId);
            && r.value.id in once.memories && LiveIn(once.memories[r.value.id], rec.user, rec.project)
            && (once.memories[r.value.id].topicKey == rec.topicKey
                || (r.value.outcome == Deduplicated && TopicRows(once, rec.user, rec.project, rec.topicKey) == {}))
  {
    hide Valid, BadTargets, Supersede, ApplyChange, FreshRow, Insert, Replacement, OnlyMarked;
    AddColumns(db, rec, now, newId);
    AddKeeps(db, rec, now, newId);
    InRows(db, rec);
  }

  lemma SecondReplaces(db: Db, rec: NewMemory, now: Time, newId: MemoryId, id: MemoryId)
    requires newId !in db.memories && BadTargets(db, rec) == {}
    requires rec.topicKey != Some("") && TopicRows(db, rec.user, rec.project, rec.topicKey) == {id}
    requires HashRows(db, rec.user, rec.project, rec.contentHash) == {}
    ensures var (db', r) := AddTx(db, rec, now, newId);
            r.Ok? && r.value.outcome == Replaced && r.value.id == id && id in db'.memories && db'.memories[id].text == rec.text
  {
    hide BadTargets, ApplyChange, FreshRow, Insert, Supersede, OnlyMarked;
    assert MinOf({id}) == id;
    assert id in db.memories && db.memories[id].contentHash != rec.contentHash by {
      assert id in TopicRows(db, rec.user, rec.project, rec.topicKey);
      assert id !in HashRows(db, rec.user, rec.project, rec.contentHash);
    }
    ReplacesColumns(db, rec, now, id);
  }

  lemma SecondCreates(db: Db, rec: NewMemory, now: Time, newId: MemoryId)
    requires newId !in db.memories && BadTargets(db, rec) == {}
    requires rec.topicKey != Some("") && TopicRows(db, rec.user, rec.project, rec.topicKey) == {}
    requires HashRows(db, rec.user, rec.project, rec.contentHash) == {}
    ensures var r := AddTx(db, rec, now, newId).1; r.Ok? && r.value.outcome == Created && r.value.id == newId
  {
    hide BadTargets, FreshRow, Insert, Supersede;
  }

  /** The same content added again to its scope, under the same key or none, names the same record and writes nothing. */
  lemma AddTwice(db: Db, rec: NewMemory, now: Time, newId: MemoryId, once: Db, named: Written, later: Time, moreId: MemoryId)
    requires Valid(db) && newId !in db.memories && AddTx(db, rec, now, newId) == (once, Ok(named))
    requires moreId !in once.memories && forall t | t in rec.supersedes :: Usable(once, rec, t)
    ensures var (twice, r) := AddTx(once, rec, later, moreId);
            twice == once && r.Ok? && r.value.outcome == Deduplicated && r.value.id == named.id
  {
    hide Valid, BadTargets, Supersede, ApplyChange, FreshRow, Insert, Replacement, Added, OnlyMarked;
    AddKeeps(db, rec, now, newId);
    AllUsable(once, rec);
    ValidIsUnique(once);
    var topic := EmptyToNone(rec.topicKey);
    assert named.id in HashRows(once, rec.user, rec.project, rec.contentHash);
    HashRowsUnique(once, rec.user, rec.project, rec.contentHash, named.id);
    assert MinOf({named.id}) == named.id;
    if topic.Some? {
      NamedHolds(db, rec, now, newId);
      if once.memories[named.id].topicKey == topic {
        TopicRowsUnique(once, rec.user, rec.project, topic, named.id);
      }
    }
  }

  // ---- Update and delete --------------------------------------------------------------------

  /** An update or a delete may name the project it expects; nothing and `*` stand for any. */
  predicate Expected(row: Memory, inProject: Option<string>) {
    inProject.None? || inProject == Some("") || inProject == Some("*") || inProject == Some(row.project)
  }

  predicate NamedOr<T(==)>(given: Option<T>, was: T, stored: T) { stored == if given.Some? then given.value else was }

  /** A named column takes its value, the topic key `""` standing for none and a text bringing its hash, and a column
      that is not named stays. */
  predicate UpdatedFrom(row: Memory, was: Memory, ch: Changes) {
    && row.user == was.user && row.project == was.project && row.createdAt == was.createdAt && row.deletedAt == was.deletedAt
    && NamedOr(ch.text, was.text, row.text) && NamedOr(ch.agent, was.agent, row.agent) && NamedOr(ch.kind, was.kind, row.kind)
    && NamedOr(ch.status, was.status, row.status) && NamedOr(ch.extra, was.extra, row.extra)
    && NamedOr(ch.source, was.source, row.source) && NamedOr(ch.supersedes, was.supersedes, row.supersedes)
    && (if ch.contentHash.Some? then row.contentHash == ch.contentHash.value
        else if ch.text.Some? then row.contentHash == Sha256(ch.text.value) else row.contentHash == was.contentHash)
    && (if ch.topicKey.Some? then StoredKey(ch.topicKey.value, row.topicKey) else row.topicKey == was.topicKey)
    && (if ch.issueIds.Some? then SameIssues(row.issueIds, was.issueIds, ch.issueIds.value) else row.issueIds == was.issueIds)
  }

  /** Stored one version on, at a later time, without acknowledgements, and nothing else changed. */
  ghost predicate OnlyRewritten(db: Db, db': Db, id: MemoryId)
    requires id in db.memories
  {
    && db'.memories.Keys == db.memories.Keys && db'.meta == db.meta && NoAcks(db', id)
    && db'.memories[id].version == db.memories[id].version + 1
    && db'.log == db.log[(id, db'.memories[id].version) := db'.memories[id]]
    && forall o | o in db.memories && o != id :: Kept(db, db', o)
  }

  /** What an update leaves, or why it is refused. A call that changes no column writes nothing. */
  lemma UpdateColumns(db: Db, id: MemoryId, changes: Changes, inProject: Option<string>, now: Time)
    requires Valid(db)
    ensures var (db', r) := UpdateTx(db, id, changes, inProject, now);
            match r
            case Ok(w) =>
              && id in db.memories && db.memories[id].deletedAt.None? && Expected(db.memories[id], inProject)
              && w.id == id && id in db'.memories && Reported(w, db'.memories[id])
              && (if w.outcome == Unchanged then db' == db && UpdatedFrom(db.memories[id], db.memories[id], changes)
                  else && w.outcome == Updated && OnlyRewritten(db, db', id)
                       && UpdatedFrom(db'.memories[id], db.memories[id], changes)
                       && MovesOn(changes.updatedAt, db.memories[id].updatedAt, now, db'.memories[id].updatedAt)
                       && db'.memories[id].(version := 0, changeSeq := 0, updatedAt := 0)
                          != db.memories[id].(version := 0, changeSeq := 0, updatedAt := 0))
            case Err(e) =>
              && db' == db
              && (e == NotFound(id) <==> id !in db.memories || db.memories[id].deletedAt.Some?)
              && (e == ProjectMismatch(id) <==>
                    id in db.memories && db.memories[id].deletedAt.None? && !Expected(db.memories[id], inProject))
              && (e != NotFound(id) && e != ProjectMismatch(id) ==> e.Conflict? && ClashesOf(db, id, changes, e.ids))
  {
    hide Valid, Merge, Prepared, Rivals, ApplyChange, UpdatedFrom, ClashesOf, OnlyRewritten;
    if id in db.memories {
      ChangedRow(db, id, changes, now);
      if Rivals(db, id, Prepared(changes)) != {} { RivalsClash(db, id, changes); }
    }
  }

  lemma RivalsClash(db: Db, id: MemoryId, changes: Changes)
    requires id in db.memories && Rivals(db, id, Prepared(changes)) != {}
    ensures ClashesOf(db, id, changes, {id} + Rivals(db, id, Prepared(changes)))
  {
    var o :| o in Rivals(db, id, Prepared(changes));
    assert o in {id} + Rivals(db, id, Prepared(changes));
  }

  lemma ChangedRow(db: Db, id: MemoryId, changes: Changes, now: Time)
    requires id in db.memories
    ensures var was, (db', w) := db.memories[id], ApplyChange(db, id, Prepared(changes), now, Updated);
            && w.id == id && id in db'.memories && Reported(w, db'.memories[id])
            && (if w.outcome == Unchanged then db' == db && UpdatedFrom(was, was, changes)
                else && w.outcome == Updated && OnlyRewritten(db, db', id)
                     && UpdatedFrom(db'.memories[id], was, changes)
                     && MovesOn(changes.updatedAt, was.updatedAt, now, db'.memories[id].updatedAt)
                     && db'.memories[id].(version := 0, changeSeq := 0, updatedAt := 0)
                        != was.(version := 0, changeSeq := 0, updatedAt := 0))
  {
    hide Merge;
    MergeIs(db.memories[id], changes);
  }

  /** The other live records of the scope that hold the new content or the new topic key, and the record itself. */
  ghost predicate ClashesOf(db: Db, id: MemoryId, ch: Changes, ids: set<MemoryId>)
    requires id in db.memories
  {
    && id in ids && ids != {id}
    && forall o | o != id :: o in ids <==>
         && o in db.memories && db.memories[o].deletedAt.None?
         && db.memories[o].user == db.memories[id].user && db.memories[o].project == db.memories[id].project
         && (NewHash(ch) == Some(db.memories[o].contentHash)
             || (ch.topicKey.Some? && ch.topicKey.value.Some? && ch.topicKey.value != Some("")
                 && db.memories[o].topicKey == ch.topicKey.value))
  }

  function NewHash(ch: Changes): Option<Hash> {
    if ch.contentHash.None? && ch.text.Some? then Some(Sha256(ch.text.value)) else ch.contentHash
  }

  lemma MergeIs(row: Memory, changes: Changes)
    ensures UpdatedFrom(Merge(row, Prepared(changes)), row, changes)
    ensures var row' := Merge(row, Prepared(changes));
            row'.updatedAt == row.updatedAt && row'.version == row.version && row'.changeSeq == row.changeSeq
  {}

  /** A delete leaves every column but the marks of the write, or says why it is refused. */
  lemma DeleteColumns(db: Db, id: MemoryId, inProject: Option<string>, now: Time)
    requires Valid(db)
    ensures var (db', r) := DeleteTx(db, id, inProject, now);
            match r
            case Ok(w) =>
              && id in db.memories && db.memories[id].deletedAt.None? && Expected(db.memories[id], inProject)
              && w.id == id && w.outcome == Removed && id in db'.memories && Reported(w, db'.memories[id])
              && OnlyRewritten(db, db', id)
              && var was, row := db.memories[id], db'.memories[id];
                 && row == was.(deletedAt := Some(row.updatedAt), updatedAt := row.updatedAt, version := was.version + 1,
                                changeSeq := row.changeSeq)
                 && MovesOn(None, was.updatedAt, now, row.updatedAt)
            case Err(e) =>
              && db' == db
              && (e == NotFound(id) <==> id !in db.memories || db.memories[id].deletedAt.Some?)
              && (e != NotFound(id) ==> e == ProjectMismatch(id) && !Expected(db.memories[id], inProject))
  {
    hide Valid;
  }

  // ---- The embedding model -------------------------------------------------------------------

  /** A claim names the model where none was named, and only fills in a fingerprint for the one that was; the generation
      stays. */
  lemma ClaimRecords(meta: Meta, name: string, dim: nat, fp: Option<Fingerprint>)
    ensures var m := Claim(meta, name, dim, fp);
            && m.generation == meta.generation && m.modelName.Some?
            && (meta.modelName.None? ==> m.modelName == Some(name) && m.vectorDim == Some(dim) && m.fingerprint == fp)
            && (meta.modelName.Some? ==> m.modelName == meta.modelName && m.vectorDim == meta.vectorDim)
            && (meta.modelName.Some? && m.fingerprint != meta.fingerprint ==>
                  meta.fingerprint.None? && m.fingerprint == fp && meta.modelName == Some(name) && meta.vectorDim == Some(dim))
            && (meta == Meta(Some(name), Some(dim), None, meta.generation) ==> m.fingerprint == fp)
  {}

  /** A new generation takes what is named, keeps what is not, and is one more. */
  lemma BumpRecords(meta: Meta, name: Option<string>, dim: Option<nat>, fp: Option<Fingerprint>)
    ensures var m := Bump(meta, name, dim, fp);
            && m.generation == meta.generation + 1
            && m.modelName == (if name.Some? then name else meta.modelName)
            && m.vectorDim == (if dim.Some? then dim else meta.vectorDim)
            && m.fingerprint == (if fp.Some? then fp else meta.fingerprint)
  {}
}
