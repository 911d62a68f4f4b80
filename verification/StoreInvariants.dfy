/** What every transaction of the canonical store keeps: live records of a scope have distinct
    content hashes and topic keys, the version log of a record is exactly 1..version, sequence
    numbers never repeat, and a changed record loses its acknowledgements in the same commit. */
module StoreInvariants {
  import opened Wrappers
  import opened MemoryStore

  // ---- The canonical invariant ------------------------------------------------------------

  /** No two live records of one user and project share a content hash or a topic key. */
  ghost predicate Unique(ms: map<MemoryId, Memory>) {
    forall a, b | a in ms && b in ms && a != b && !ms[a].Deleted()
                  && LiveIn(ms[b], ms[a].user, ms[a].project) ::
      ms[a].contentHash != ms[b].contentHash
      && (ms[a].topicKey.Some? ==> ms[a].topicKey != ms[b].topicKey)
  }

  /** The log of a record is exactly versions 1..version, the last entry is the row, every entry
      has the record's identity, and only the last can be a tombstone. */
  ghost predicate LogOf(db: Db, id: MemoryId)
    requires id in db.memories
  {
    var row := db.memories[id];
    && row.version >= 1
    && (forall k: nat {:trigger (id, k) in db.log} :: (id, k) in db.log <==> 1 <= k <= row.version)
    && db.log[(id, row.version)] == row
    && (forall k: nat | 1 <= k <= row.version :: Entry(db.log[(id, k)], row, k))
  }

  predicate Entry(entry: Memory, row: Memory, k: nat) {
    && entry.version == k
    && entry.user == row.user && entry.project == row.project && entry.createdAt == row.createdAt
    && (k < row.version ==> !entry.Deleted())
  }

  ghost predicate SequencesUnique(db: Db) {
    && (forall k | k in db.log :: db.log[k].changeSeq < db.nextSeq)
    && (forall j, k | j in db.log && k in db.log && j != k ::
          db.log[j].changeSeq != db.log[k].changeSeq)
  }

  ghost predicate Valid(db: Db) {
    && Unique(db.memories)
    && (forall id | id in db.memories :: LogOf(db, id))
    && (forall k | k in db.log :: k.0 in db.memories)
    && (forall k | k in db.acks :: k.1 in db.memories)
    && SequencesUnique(db)
  }

  /** What one committed transaction may do to the tables, whoever wrote it: a record is left
      alone with its acknowledgements, or it was live and takes the next version with none, or it
      is new at version 1 with none; history is only appended to and identity is fixed. */
  ghost predicate Commit(db: Db, db': Db) {
    && db'.meta == db.meta
    && db.memories.Keys <= db'.memories.Keys
    && (forall k | k in db.log :: k in db'.log && db'.log[k] == db.log[k])
    && (forall k | k in db'.acks :: k in db.acks && db'.acks[k] == db.acks[k])
    && (forall id | id in db.memories :: Kept(db, db', id) || Advanced(db, db', id))
    && (forall id | id in db'.memories && id !in db.memories ::
          db'.memories[id].version == 1 && NoAcks(db', id))
  }

  ghost predicate NoAcks(db: Db, id: MemoryId) {
    forall c :: (c, id) !in db.acks
  }

  ghost predicate Kept(db: Db, db': Db, id: MemoryId)
    requires id in db.memories && id in db'.memories
  {
    && db'.memories[id] == db.memories[id]
    && forall c :: (c, id) in db.acks ==> (c, id) in db'.acks
  }

  ghost predicate Advanced(db: Db, db': Db, id: MemoryId)
    requires id in db.memories && id in db'.memories
  {
    var old_, new_ := db.memories[id], db'.memories[id];
    && !old_.Deleted() && new_.version == old_.version + 1
    && new_.user == old_.user && new_.project == old_.project && new_.createdAt == old_.createdAt
    && NoAcks(db', id)
  }

  /** A row version may follow `row`: same identity, one version on. */
  predicate Follows(row: Memory, row': Memory, seqNo: nat) {
    && !row.Deleted()
    && row'.user == row.user && row'.project == row.project && row'.createdAt == row.createdAt
    && row'.version == row.version + 1 && row'.changeSeq == seqNo
  }

  /** The row clashes with no other live record of its scope. */
  ghost predicate Fits(db: Db, id: MemoryId, row: Memory) {
    forall o | o in db.memories && o != id && LiveIn(db.memories[o], row.user, row.project) ::
      db.memories[o].contentHash != row.contentHash
      && (row.topicKey.Some? ==> db.memories[o].topicKey != row.topicKey)
  }

  lemma StoreUnique(db: Db, id: MemoryId, row: Memory)
    requires Unique(db.memories)
    requires row.Deleted() || Fits(db, id, row)
    ensures Unique(db.memories[id := row])
  {}

  /** Appending the next version of a record keeps every log. */
  lemma StoreLog(db: Db, db': Db, id: MemoryId, row: Memory)
    requires forall o | o in db.memories :: LogOf(db, o)
    requires forall k | k in db.log :: k.0 in db.memories
    requires db'.memories == db.memories[id := row] && db'.log == db.log[(id, row.version) := row]
    requires if id in db.memories then Follows(db.memories[id], row, db.nextSeq) else row.version == 1
    ensures forall o | o in db'.memories :: LogOf(db', o)
    ensures forall k | k in db.log :: k in db'.log && db'.log[k] == db.log[k]
  {
    hide LogOf, Follows;
    NextIsFree(db, id, row);
    forall o | o in db'.memories ensures LogOf(db', o) {
      if o != id { OtherLog(db, db', id, row, o); } else { NewLog(db, db', id, row); }
    }
  }

  lemma NextIsFree(db: Db, id: MemoryId, row: Memory)
    requires id in db.memories ==> LogOf(db, id)
    requires forall k | k in db.log :: k.0 in db.memories
    requires if id in db.memories then Follows(db.memories[id], row, db.nextSeq) else row.version == 1
    ensures (id, row.version) !in db.log
  {}

  lemma OtherLog(db: Db, db': Db, id: MemoryId, row: Memory, o: MemoryId)
    requires o in db.memories && o != id && LogOf(db, o)
    requires db'.memories == db.memories[id := row] && db'.log == db.log[(id, row.version) := row]
    ensures LogOf(db', o)
  {
    assert forall k: nat :: (o, k) in db'.log <==> (o, k) in db.log;
  }

  lemma NewLog(db: Db, db': Db, id: MemoryId, row: Memory)
    requires id in db.memories ==> LogOf(db, id)
    requires forall k | k in db.log :: k.0 in db.memories
    requires db'.memories == db.memories[id := row] && db'.log == db.log[(id, row.version) := row]
    requires if id in db.memories then Follows(db.memories[id], row, db.nextSeq) else row.version == 1
    ensures LogOf(db', id)
  {
    assert forall k: nat | k != row.version :: (id, k) in db'.log <==> (id, k) in db.log;
    if id in db.memories {
      forall k: nat | 1 <= k <= row.version ensures Entry(db'.log[(id, k)], row, k) {
        if k < row.version { assert Entry(db.log[(id, k)], db.memories[id], k); }
      }
    }
  }

  lemma StoreSequences(db: Db, db': Db, k: (MemoryId, nat), row: Memory)
    requires SequencesUnique(db) && k !in db.log && row.changeSeq == db.nextSeq
    requires db'.log == db.log[k := row] && db'.nextSeq == db.nextSeq + 1
    ensures SequencesUnique(db')
  {}

  lemma RewriteKeeps(db: Db, id: MemoryId, row: Memory)
    requires Valid(db) && id in db.memories && Follows(db.memories[id], row, db.nextSeq)
    requires row.Deleted() || Fits(db, id, row)
    ensures Valid(Rewrite(db, id, row)) && Commit(db, Rewrite(db, id, row))
  {
    hide LogOf, Fits, Unique;
    var db' := Rewrite(db, id, row);
    assert LogOf(db, id);
    StoreUnique(db, id, row);
    StoreLog(db, db', id, row);
    StoreSequences(db, db', (id, row.version), row);
    assert Advanced(db, db', id);
    forall o | o in db.memories && o != id ensures Kept(db, db', o) {}
  }

  lemma InsertKeeps(db: Db, id: MemoryId, row: Memory)
    requires Valid(db) && id !in db.memories
    requires row.version == 1 && row.changeSeq == db.nextSeq && !row.Deleted() && Fits(db, id, row)
    ensures Valid(Insert(db, id, row)) && Commit(db, Insert(db, id, row))
  {
    var db' := Insert(db, id, row);
    StoreUnique(db, id, row);
    StoreLog(db, db', id, row);
    StoreSequences(db, db', (id, row.version), row);
    assert Commit(db, db') by {
      forall o | o in db.memories ensures Kept(db, db', o) {}
      assert NoAcks(db', id);
    }
  }

  // ---- Every transaction keeps the invariant and is a commit ------------------------------

  /** Every stored version's hash is the hash of its text. */
  ghost predicate Honest(db: Db) {
    forall k | k in db.log :: HonestRow(db.log[k])
  }

  predicate HonestRow(row: Memory) { row.contentHash == Sha256(row.text) }

  /** A commit that touches no record that existed before outside `ids`. */
  ghost predicate CommitOn(db: Db, db': Db, ids: set<MemoryId>) {
    Commit(db, db') && forall id | id in db.memories && id !in ids :: Kept(db, db', id)
  }

  lemma CommitRefl(db: Db)
    ensures CommitOn(db, db, {})
  {
    forall id | id in db.memories ensures Kept(db, db, id) {}
  }

  /** Two commits that touch different records, none of them new, are one commit. */
  lemma CommitTogether(a: Db, b: Db, c: Db, s: set<MemoryId>, t: set<MemoryId>)
    requires CommitOn(a, b, s) && CommitOn(b, c, t) && s !! t && t <= a.memories.Keys
    ensures CommitOn(a, c, s + t)
  {
    forall id | id in a.memories
      ensures Kept(a, c, id) || (id in s + t && Advanced(a, c, id))
    {
      if id !in s { assert Kept(a, b, id); }
      if id !in t { assert Kept(b, c, id); }
    }
    forall id | id in c.memories && id !in a.memories
      ensures c.memories[id].version == 1 && NoAcks(c, id)
    {
      if id in b.memories { assert Kept(b, c, id); }
    }
  }

  /** A change that takes no other live record's hash or topic key keeps everything. */
  lemma ChangeKeeps(db: Db, id: MemoryId, ch: Changes, now: Time, outcome: Outcome)
    requires Valid(db) && id in db.memories && !db.memories[id].Deleted()
    requires Fits(db, id, Merge(db.memories[id], ch))
    ensures var db' := ApplyChange(db, id, ch, now, outcome).0;
            Valid(db') && CommitOn(db, db', {id}) && db'.memories.Keys == db.memories.Keys
            && SameContent(db'.memories[id], Merge(db.memories[id], ch))
            && (Honest(db) && HonestRow(Merge(db.memories[id], ch)) ==> Honest(db'))
  {
    hide Valid, Commit;
    var row := db.memories[id];
    if Merge(row, ch) == row {
      CommitRefl(db);
    } else {
      var row' := Merge(row, ch).(updatedAt := GetOr(ch.updatedAt, NextTime(row, now)),
                                  version := row.version + 1, changeSeq := db.nextSeq);
      assert Fits(db, id, row') by {
        forall o | o in db.memories && o != id && LiveIn(db.memories[o], row'.user, row'.project)
          ensures db.memories[o].contentHash != row'.contentHash
                  && (row'.topicKey.Some? ==> db.memories[o].topicKey != row'.topicKey)
        {}
      }
      RewriteKeeps(db, id, row');
      forall o | o in db.memories && o != id ensures Kept(db, Rewrite(db, id, row'), o) {}
    }
  }

  /** Equal but for the bookkeeping columns a write moves. */
  predicate SameContent(row: Memory, other: Memory) {
    row == other.(updatedAt := row.updatedAt, version := row.version, changeSeq := row.changeSeq)
  }

  lemma ValidIsUnique(db: Db)
    requires Valid(db)
    ensures Unique(db.memories)
  {}

  lemma RowsHonest(db: Db, id: MemoryId)
    requires Valid(db) && Honest(db) && id in db.memories
    ensures HonestRow(db.memories[id])
  {
    assert LogOf(db, id);
  }

  /** Marking a record superseded takes no new key, so it clashes with nothing. */
  lemma MarkKeeps(db: Db, t: MemoryId, now: Time)
    requires Valid(db) && t in db.memories && !db.memories[t].Deleted()
    ensures var db' := ApplyChange(db, t, MARK_SUPERSEDED, now, Marked).0;
            Valid(db') && CommitOn(db, db', {t}) && db'.memories.Keys == db.memories.Keys
            && SameContent(db'.memories[t], db.memories[t].(status := Superseded))
            && (Honest(db) ==> Honest(db'))
  {
    var merged := Merge(db.memories[t], MARK_SUPERSEDED);
    assert merged == db.memories[t].(status := Superseded);
    assert Fits(db, t, merged) by {
      forall o | o in db.memories && o != t && LiveIn(db.memories[o], merged.user, merged.project)
        ensures db.memories[o].contentHash != merged.contentHash
                && (merged.topicKey.Some? ==> db.memories[o].topicKey != merged.topicKey)
      {
        assert !db.memories[t].Deleted();
      }
    }
    if Honest(db) { RowsHonest(db, t); }
    ChangeKeeps(db, t, MARK_SUPERSEDED, now, Marked);
  }

  lemma {:induction false} SupersedeKeeps(db: Db, targets: set<MemoryId>, now: Time)
    requires Valid(db) && targets <= db.memories.Keys
    requires forall t | t in targets :: !db.memories[t].Deleted()
    ensures var db' := Supersede(db, targets, now);
            Valid(db') && CommitOn(db, db', targets) && db'.memories.Keys == db.memories.Keys
            && (forall t | t in targets ::
                  SameContent(db'.memories[t], db.memories[t].(status := Superseded)))
            && (Honest(db) ==> Honest(db'))
    decreases targets
  {
    hide Valid, Commit, Honest;
    if targets == {} {
      CommitRefl(db);
    } else {
      var t := MinOf(targets);
      var mid := if db.memories[t].status == Superseded then db
                 else ApplyChange(db, t, MARK_SUPERSEDED, now, Marked).0;
      if db.memories[t].status == Superseded { CommitRefl(db); } else { MarkKeeps(db, t, now); }
      forall o | o in db.memories && o != t ensures Kept(db, mid, o) {}
      SupersedeKeeps(mid, targets - {t}, now);
      var db' := Supersede(mid, targets - {t}, now);
      CommitTogether(db, mid, db', {t}, targets - {t});
      assert {t} + (targets - {t}) == targets;
      assert Kept(mid, db', t);
    }
  }

  lemma TargetsLive(db: Db, rec: NewMemory)
    requires BadTargets(db, rec) == {}
    ensures forall t | t in rec.supersedes ::
              t in db.memories && LiveIn(db.memories[t], rec.user, rec.project)
  {
    forall t | t in rec.supersedes
      ensures t in db.memories && LiveIn(db.memories[t], rec.user, rec.project)
    {
      assert t !in BadTargets(db, rec);
    }
  }

  /** When `id` is the only holder of the topic key and of the hash, no other record clashes. */
  lemma NoOtherHolder(db: Db, rec: NewMemory, topic: Option<string>, id: MemoryId, row: Memory)
    requires TopicRows(db, rec.user, rec.project, topic) <= {id}
    requires HashRows(db, rec.user, rec.project, rec.contentHash) <= {id}
    requires row.user == rec.user && row.project == rec.project
    requires row.contentHash == rec.contentHash && row.topicKey == topic
    ensures Fits(db, id, row)
  {
    forall o | o in db.memories && o != id && LiveIn(db.memories[o], row.user, row.project)
      ensures db.memories[o].contentHash != row.contentHash
              && (row.topicKey.Some? ==> db.memories[o].topicKey != row.topicKey)
    {
      assert o !in TopicRows(db, rec.user, rec.project, topic);
      assert o !in HashRows(db, rec.user, rec.project, rec.contentHash);
    }
  }

  /** The first match names every match, because keys are unique among live records. */
  lemma TopicRowsUnique(db: Db, user: string, project: string, topic: Option<string>, id: MemoryId)
    requires Unique(db.memories) && id in TopicRows(db, user, project, topic)
    ensures TopicRows(db, user, project, topic) == {id}
  {
    forall o | o in TopicRows(db, user, project, topic) ensures o == id {}
  }

  lemma HashRowsUnique(db: Db, user: string, project: string, hash: Hash, id: MemoryId)
    requires Unique(db.memories) && id in HashRows(db, user, project, hash)
    ensures HashRows(db, user, project, hash) == {id}
  {
    forall o | o in HashRows(db, user, project, hash) ensures o == id {}
  }

  /** The topic-key match takes the new content and clashes with no other record. */
  lemma ReplacementFits(db: Db, rec: NewMemory, id: MemoryId)
    requires Unique(db.memories)
    requires id in TopicRows(db, rec.user, rec.project, EmptyToNone(rec.topicKey))
    requires HashRows(db, rec.user, rec.project, rec.contentHash) <= {id}
    ensures id in db.memories && !db.memories[id].Deleted()
    ensures id !in HashRows(db, rec.user, rec.project, rec.contentHash) ==>
              Merge(db.memories[id], Replacement(rec)) != db.memories[id]
    ensures var row := Merge(db.memories[id], Replacement(rec));
            Fits(db, id, row) && LiveIn(row, rec.user, rec.project)
            && row.contentHash == rec.contentHash && row.text == rec.text
  {
    var topic := EmptyToNone(rec.topicKey);
    TopicRowsUnique(db, rec.user, rec.project, topic, id);
    NoOtherHolder(db, rec, topic, id, Merge(db.memories[id], Replacement(rec)));
  }

  lemma ReplaceKeeps(db: Db, rec: NewMemory, id: MemoryId, now: Time) returns (mid: Db, db': Db)
    requires Valid(db) && BadTargets(db, rec) == {}
    requires id in TopicRows(db, rec.user, rec.project, EmptyToNone(rec.topicKey))
    requires HashRows(db, rec.user, rec.project, rec.contentHash) == {}
    ensures mid == ApplyChange(db, id, Replacement(rec), now, Replaced).0
    ensures id in mid.memories && rec.supersedes <= mid.memories.Keys
    ensures ApplyChange(db, id, Replacement(rec), now, Replaced).1
            == Report(id, mid.memories[id], Replaced)
    ensures db' == Supersede(mid, rec.supersedes - {id}, now)
    ensures Valid(db') && Commit(db, db')
    ensures id in db'.memories && db'.memories[id] == mid.memories[id]
    ensures LiveIn(db'.memories[id], rec.user, rec.project)
    ensures db'.memories[id].contentHash == rec.contentHash && db'.memories[id].text == rec.text
    ensures forall t | t in rec.supersedes && t != id ::
              t in db'.memories && db'.memories[t].status == Superseded
    ensures Honest(db) && rec.contentHash == Sha256(rec.text) ==> Honest(db')
  {
    hide Valid, Commit, Honest, Unique, Fits, Merge, Replacement, TopicRows, BadTargets, Supersede;
    ValidIsUnique(db);
    TargetsLive(db, rec);
    ReplacementFits(db, rec, id);
    ChangeKeeps(db, id, Replacement(rec), now, Replaced);
    mid := ApplyChange(db, id, Replacement(rec), now, Replaced).0;
    forall o | o in db.memories && o != id ensures Kept(db, mid, o) {}
    SupersedeKeeps(mid, rec.supersedes - {id}, now);
    db' := Supersede(mid, rec.supersedes - {id}, now);
    assert Kept(mid, db', id);
    CommitTogether(db, mid, db', {id}, rec.supersedes - {id});
  }

  lemma CreateKeeps(db: Db, rec: NewMemory, id: MemoryId, now: Time)
    requires Valid(db) && BadTargets(db, rec) == {} && id !in db.memories
    requires TopicRows(db, rec.user, rec.project, EmptyToNone(rec.topicKey)) == {}
    requires HashRows(db, rec.user, rec.project, rec.contentHash) == {}
    ensures var row := FreshRow(db, rec, EmptyToNone(rec.topicKey), now);
            var mid := Insert(db, id, row);
            rec.supersedes <= mid.memories.Keys &&
            var db' := Supersede(mid, rec.supersedes, now);
            Valid(db') && Commit(db, db') && id in db'.memories && db'.memories[id] == row
            && (forall t | t in rec.supersedes ::
                  t in db'.memories && db'.memories[t].status == Superseded)
            && (Honest(db) && rec.contentHash == Sha256(rec.text) ==> Honest(db'))
  {
    hide Valid, Commit, Fits;
    var row := FreshRow(db, rec, EmptyToNone(rec.topicKey), now);
    var mid := Insert(db, id, row);
    TargetsLive(db, rec);
    NoOtherHolder(db, rec, EmptyToNone(rec.topicKey), id, row);
    InsertKeeps(db, id, row);
    forall o | o in db.memories ensures Kept(db, mid, o) {}
    SupersedeKeeps(mid, rec.supersedes, now);
    CommitTogether(db, mid, Supersede(mid, rec.supersedes, now), {}, rec.supersedes);
    assert Kept(mid, Supersede(mid, rec.supersedes, now), id);
  }

  /** The topic key and the content hash are held by different live records. */
  ghost predicate KeysDisagree(db: Db, rec: NewMemory) {
    exists a, b :: a in TopicRows(db, rec.user, rec.project, EmptyToNone(rec.topicKey))
                   && b in HashRows(db, rec.user, rec.project, rec.contentHash) && a != b
  }

  ghost predicate AddHolds(db: Db, db': Db, rec: NewMemory, w: Written) {
    && w.id in db'.memories
    && LiveIn(db'.memories[w.id], rec.user, rec.project)
    && db'.memories[w.id].contentHash == rec.contentHash
    && w.version == db'.memories[w.id].version
    && w.outcome in {Created, Replaced, Deduplicated}
    && (w.outcome == Created <==> w.id !in db.memories)
    && (w.outcome == Deduplicated <==> w.id in HashRows(db, rec.user, rec.project, rec.contentHash))
    && (w.outcome == Deduplicated ==> db' == db)
    && (w.outcome != Deduplicated ==>
          db'.memories[w.id].text == rec.text
          && forall t | t in rec.supersedes && t != w.id ::
               t in db'.memories && db'.memories[t].status == Superseded)
  }

  /** At most one record holds each key, so the two keys disagree exactly when the first rows
      found differ. */
  lemma FirstRows(db: Db, rec: NewMemory)
    requires Unique(db.memories)
    ensures var topics := TopicRows(db, rec.user, rec.project, EmptyToNone(rec.topicKey));
            var hashes := HashRows(db, rec.user, rec.project, rec.contentHash);
            && (topics != {} ==> topics == {MinOf(topics)})
            && (hashes != {} ==> hashes == {MinOf(hashes)})
            && (KeysDisagree(db, rec) <==> topics != {} && hashes != {} && topics != hashes)
            && (topics != {} ==> (db.memories[MinOf(topics)].contentHash == rec.contentHash
                                  <==> MinOf(topics) in hashes))
  {
    var topic := EmptyToNone(rec.topicKey);
    var topics := TopicRows(db, rec.user, rec.project, topic);
    var hashes := HashRows(db, rec.user, rec.project, rec.contentHash);
    if topics != {} { TopicRowsUnique(db, rec.user, rec.project, topic, MinOf(topics)); }
    if hashes != {} { HashRowsUnique(db, rec.user, rec.project, rec.contentHash, MinOf(hashes)); }
    if topics != {} && hashes != {} && topics != hashes {
      assert MinOf(topics) in topics && MinOf(hashes) in hashes;
    }
  }

  /** What `add` promises: it fails exactly when a supersede target is not a live record of the
      scope or the two keys disagree, and then changes nothing; otherwise the record it names is
      live, in scope and holds the content, and unless the content was already there every other
      target ends superseded. */
  lemma AddKeeps(db: Db, rec: NewMemory, now: Time, newId: MemoryId)
    requires Valid(db) && newId !in db.memories
    ensures var (db', r) := AddTx(db, rec, now, newId);
            Valid(db') && Commit(db, db')
            && (Honest(db) && rec.contentHash == Sha256(rec.text) ==> Honest(db'))
            && (r.Err? ==> db' == db)
            && (r.Err? <==> BadTargets(db, rec) != {} || KeysDisagree(db, rec))
            && (r.Ok? ==> AddHolds(db, db', rec, r.value))
  {
    hide Valid, Commit, Honest, Unique, KeysDisagree, BadTargets, Supersede, ApplyChange,
      Replacement;
    CommitRefl(db);
    ValidIsUnique(db);
    FirstRows(db, rec);
    var topics := TopicRows(db, rec.user, rec.project, EmptyToNone(rec.topicKey));
    var hashes := HashRows(db, rec.user, rec.project, rec.contentHash);
    if BadTargets(db, rec) == {} && !KeysDisagree(db, rec) {
      if topics == {} && hashes == {} {
        CreateKeeps(db, rec, newId, now);
      } else if hashes == {} {
        var _, _ := ReplaceKeeps(db, rec, MinOf(topics), now);
      } else {
        assert MinOf(hashes) in hashes;
      }
    }
  }

  /** `update` fails exactly on a missing or deleted record, another project, or a key another
      live record of the scope holds; otherwise the row takes every named change. */
  lemma UpdateKeeps(db: Db, id: MemoryId, changes: Changes, inProject: Option<string>, now: Time)
    requires Valid(db)
    ensures var (db', r) := UpdateTx(db, id, changes, inProject, now);
            Valid(db') && Commit(db, db')
            && (Honest(db) && HonestChanges(changes) ==> Honest(db'))
            && (r.Err? ==> db' == db)
            && (r.Err? <==> id !in db.memories || db.memories[id].Deleted()
                            || Mismatched(db.memories[id], inProject)
                            || !Fits(db, id, Merge(db.memories[id], Prepared(changes))))
            && (r.Ok? ==> SameContent(db'.memories[id], Merge(db.memories[id], Prepared(changes)))
                          && (r.value.outcome == Unchanged <==> db' == db)
                          && r.value.version == db'.memories[id].version)
  {
    hide Valid, Commit, Honest, Unique, Fits;
    CommitRefl(db);
    ValidIsUnique(db);
    if id in db.memories && Honest(db) { RowsHonest(db, id); }
    if id in db.memories && !db.memories[id].Deleted() {
      var ch := Prepared(changes);
      RivalsAreClashes(db, id, ch);
      if !Mismatched(db.memories[id], inProject) && Rivals(db, id, ch) == {} {
        ChangeKeeps(db, id, ch, now, Updated);
      }
    }
  }

  /** A caller that supplies a hash supplies the hash of the text it supplies. */
  predicate HonestChanges(ch: Changes) {
    ch.contentHash.Some? ==> ch.text.Some? && ch.contentHash.value == Sha256(ch.text.value)
  }

  lemma RivalsAreClashes(db: Db, id: MemoryId, ch: Changes)
    requires Unique(db.memories) && id in db.memories && !db.memories[id].Deleted()
    requires ch.topicKey != Some(Some(""))
    ensures Rivals(db, id, ch) == {} <==> Fits(db, id, Merge(db.memories[id], ch))
  {
    var row := db.memories[id];
    if Rivals(db, id, ch) == {} {
      forall o | o in db.memories && o != id && LiveIn(db.memories[o], row.user, row.project)
        ensures db.memories[o].contentHash != Merge(row, ch).contentHash
                && (Merge(row, ch).topicKey.Some? ==>
                      db.memories[o].topicKey != Merge(row, ch).topicKey)
      {
        assert o !in Rivals(db, id, ch);
      }
    } else {
      var o :| o in Rivals(db, id, ch);
      assert o != id && LiveIn(db.memories[o], row.user, row.project);
    }
  }

  /** A delete keeps the row as a tombstone, one version on. */
  lemma DeleteKeeps(db: Db, id: MemoryId, inProject: Option<string>, now: Time)
    requires Valid(db)
    ensures var (db', r) := DeleteTx(db, id, inProject, now);
            Valid(db') && Commit(db, db') && (Honest(db) ==> Honest(db'))
            && (r.Err? ==> db' == db)
            && (r.Ok? ==> Advanced(db, db', id) && db'.memories[id].Deleted())
  {
    hide Valid, Commit;
    CommitRefl(db);
    if id in db.memories && Honest(db) { RowsHonest(db, id); }
    if id in db.memories && !db.memories[id].Deleted() && !Mismatched(db.memories[id], inProject) {
      RewriteKeeps(db, id, DeleteTx(db, id, inProject, now).0.memories[id]);
    }
  }
}
