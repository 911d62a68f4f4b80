/** The canonical memory store: rows, their version log, the acknowledgements of every index
    consumer, and the embedding generation. Each operation is one committed transaction.

    A transaction is a function on `Db`; the class `MemoryStore` carries it out statement by
    statement on its own tables and is proved equal to that function. */
module MemoryStore {
  import opened Wrappers

  type MemoryId = nat
  type Time = int

  /** SHA-256 of a text, injective because the text is its only content. */
  datatype Hash = Sha256(text: string)

  datatype Status = Active | Superseded

  type Extra = map<string, seq<string>>

  datatype Memory = Memory(
    user: string, project: string, createdAt: Time,
    agent: string, kind: string, status: Status, topicKey: Option<string>,
    contentHash: Hash, text: string, extra: Extra, issueIds: seq<string>,
    supersedes: set<MemoryId>, source: string,
    updatedAt: Time, deletedAt: Option<Time>, version: nat, changeSeq: nat)
  {
    predicate Deleted() { deletedAt.Some? }
  }

  datatype Consumer = Milvus | Fts(host: string)

  datatype Ack = Ack(version: nat, generation: nat, deleted: bool)

  /** The fingerprint fields a write is refused on, and everything that only warns. */
  datatype Fingerprint = Fingerprint(modelId: string, embedDim: nat, warnings: string)

  datatype Meta = Meta(modelName: Option<string>, vectorDim: Option<nat>,
                       fingerprint: Option<Fingerprint>, generation: nat)

  datatype Db = Db(
    memories: map<MemoryId, Memory>,
    log: map<(MemoryId, nat), Memory>,
    acks: map<(Consumer, MemoryId), Ack>,
    meta: Meta,
    nextSeq: nat)

  datatype NewMemory = NewMemory(
    text: string, agent: string, project: string, kind: string, contentHash: Hash, user: string,
    status: Status, topicKey: Option<string>, extra: Extra, issueIds: seq<string>,
    supersedes: set<MemoryId>, source: string, createdAt: Option<Time>, updatedAt: Option<Time>)

  /** The fields an update names; `None` leaves a field out. */
  datatype Changes = Changes(
    text: Option<string>, contentHash: Option<Hash>, agent: Option<string>, kind: Option<string>,
    status: Option<Status>, topicKey: Option<Option<string>>, extra: Option<Extra>,
    issueIds: Option<seq<string>>, source: Option<string>, supersedes: Option<set<MemoryId>>,
    updatedAt: Option<Time>)

  const NO_CHANGES := Changes(None, None, None, None, None, None, None, None, None, None, None)

  datatype Outcome = Created | Replaced | Deduplicated | Updated | Unchanged | Removed | Marked

  datatype Written = Written(id: MemoryId, outcome: Outcome, version: nat, createdAt: Time,
                             updatedAt: Time, changeSeq: nat)

  datatype Error =
    | InvalidSupersede(ids: set<MemoryId>)
    | Conflict(ids: set<MemoryId>)
    | NotFound(id: MemoryId)
    | ProjectMismatch(id: MemoryId)

  type WriteResult = Result<Written, Error>

  // ---- Row arithmetic ---------------------------------------------------------------------

  function GetOr<T>(o: Option<T>, default: T): T {
    match o case Some(v) => v case None => default
  }

  function EmptyToNone(topic: Option<string>): Option<string> {
    if topic == Some("") then None else topic
  }

  /** The row with every effective change applied. A list that only changes order is no change,
      so the stored order stays. */
  function Merge(row: Memory, ch: Changes): Memory {
    row.(text := GetOr(ch.text, row.text),
         contentHash := GetOr(ch.contentHash, row.contentHash),
         agent := GetOr(ch.agent, row.agent),
         kind := GetOr(ch.kind, row.kind),
         status := GetOr(ch.status, row.status),
         topicKey := GetOr(ch.topicKey, row.topicKey),
         extra := GetOr(ch.extra, row.extra),
         issueIds := if ch.issueIds.Some? && multiset(ch.issueIds.value) != multiset(row.issueIds)
                     then ch.issueIds.value else row.issueIds,
         source := GetOr(ch.source, row.source),
         supersedes := GetOr(ch.supersedes, row.supersedes))
  }

  /** updated_at moves forward even when two writes share a clock tick. */
  function NextTime(row: Memory, now: Time): Time {
    if now >= row.updatedAt + 1 then now else row.updatedAt + 1
  }

  function Report(id: MemoryId, row: Memory, outcome: Outcome): Written {
    Written(id, outcome, row.version, row.createdAt, row.updatedAt, row.changeSeq)
  }

  // ---- Reads ------------------------------------------------------------------------------

  predicate LiveIn(row: Memory, user: string, project: string) {
    !row.Deleted() && row.user == user && row.project == project
  }

  function TopicRows(db: Db, user: string, project: string, topic: Option<string>): set<MemoryId> {
    set id | id in db.memories && LiveIn(db.memories[id], user, project)
             && topic.Some? && db.memories[id].topicKey == topic
  }

  function HashRows(db: Db, user: string, project: string, hash: Hash): set<MemoryId> {
    set id | id in db.memories && LiveIn(db.memories[id], user, project)
             && db.memories[id].contentHash == hash
  }

  function FirstOf(ids: set<MemoryId>): Option<MemoryId> {
    if ids == {} then None else Some(MinOf(ids))
  }

  predicate Mismatched(row: Memory, inProject: Option<string>) {
    inProject.Some? && inProject.value != "" && inProject.value != "*" && row.project != inProject.value
  }

  // ---- Transactions -----------------------------------------------------------------------

  /** Store a changed row: the row, its snapshot, a new change_seq, and no acknowledgements. */
  function Rewrite(db: Db, id: MemoryId, row: Memory): Db {
    db.(memories := db.memories[id := row],
        log := db.log[(id, row.version) := row],
        acks := map k | k in db.acks && k.1 != id :: db.acks[k],
        nextSeq := db.nextSeq + 1)
  }

  function ApplyChange(db: Db, id: MemoryId, ch: Changes, now: Time, outcome: Outcome): (Db, Written)
    requires id in db.memories
  {
    var row := db.memories[id];
    if Merge(row, ch) == row then (db, Report(id, row, Unchanged))
    else
      var row' := Merge(row, ch).(updatedAt := GetOr(ch.updatedAt, NextTime(row, now)),
                                  version := row.version + 1, changeSeq := db.nextSeq);
      (Rewrite(db, id, row'), Report(id, row', outcome))
  }

  const MARK_SUPERSEDED := NO_CHANGES.(status := Some(Superseded))

  /** Mark every target superseded, in id order. */
  function Supersede(db: Db, targets: set<MemoryId>, now: Time): Db
    requires targets <= db.memories.Keys
    decreases targets
  {
    if targets == {} then db
    else
      var t := MinOf(targets);
      var db' := if db.memories[t].status == Superseded then db
                 else ApplyChange(db, t, MARK_SUPERSEDED, now, Marked).0;
      Supersede(db', targets - {t}, now)
  }

  function BadTargets(db: Db, rec: NewMemory): set<MemoryId> {
    set t | t in rec.supersedes
            && (t !in db.memories || !LiveIn(db.memories[t], rec.user, rec.project))
  }

  /** What a topic-key match writes over the record it replaces. */
  function Replacement(rec: NewMemory): Changes {
    Changes(Some(rec.text), Some(rec.contentHash), Some(rec.agent), Some(rec.kind),
            Some(rec.status), None, Some(rec.extra), Some(rec.issueIds), Some(rec.source),
            if rec.supersedes == {} then None else Some(rec.supersedes), rec.updatedAt)
  }

  function FreshRow(db: Db, rec: NewMemory, topic: Option<string>, now: Time): Memory {
    var created := GetOr(rec.createdAt, now);
    Memory(rec.user, rec.project, created, rec.agent, rec.kind, rec.status, topic,
           rec.contentHash, rec.text, rec.extra, rec.issueIds, rec.supersedes, rec.source,
           GetOr(rec.updatedAt, created), None, 1, db.nextSeq)
  }

  function Insert(db: Db, id: MemoryId, row: Memory): Db {
    db.(memories := db.memories[id := row], log := db.log[(id, row.version) := row],
        nextSeq := db.nextSeq + 1)
  }

  /** `newId` is the random UUID a created record takes. */
  function AddTx(db: Db, rec: NewMemory, now: Time, newId: MemoryId): (Db, WriteResult)
    requires newId !in db.memories
  {
    var topic := EmptyToNone(rec.topicKey);
    var bad := BadTargets(db, rec);
    if bad != {} then (db, Err(InvalidSupersede(bad)))
    else
      var byTopic := FirstOf(TopicRows(db, rec.user, rec.project, topic));
      var byHash := FirstOf(HashRows(db, rec.user, rec.project, rec.contentHash));
      if byTopic.Some? && byHash.Some? && byTopic != byHash then
        (db, Err(Conflict({byTopic.value, byHash.value})))
      else if byTopic.Some? && db.memories[byTopic.value].contentHash != rec.contentHash then
        var (db', written) := ApplyChange(db, byTopic.value, Replacement(rec), now, Replaced);
        assert rec.supersedes <= db.memories.Keys by {
          assert forall t | t in rec.supersedes :: t !in BadTargets(db, rec);
        }
        (Supersede(db', rec.supersedes - {byTopic.value}, now), Ok(written))
      else if byTopic.Some? || byHash.Some? then
        var id := if byTopic.Some? then byTopic.value else byHash.value;
        (db, Ok(Report(id, db.memories[id], Deduplicated)))
      else
        var row := FreshRow(db, rec, topic, now);
        assert rec.supersedes <= db.memories.Keys by {
          assert forall t | t in rec.supersedes :: t !in BadTargets(db, rec);
        }
        (Supersede(Insert(db, newId, row), rec.supersedes, now), Ok(Report(newId, row, Created)))
  }

  /** Give a text change its hash and store an empty topic key as none. */
  function Prepared(ch: Changes): Changes {
    ch.(contentHash := if ch.text.Some? && ch.contentHash.None? then Some(Sha256(ch.text.value))
                       else ch.contentHash,
        topicKey := if ch.topicKey.Some? then Some(EmptyToNone(ch.topicKey.value)) else None)
  }

  /** Other live records of the same scope that already hold the new hash or topic key. */
  function Rivals(db: Db, id: MemoryId, ch: Changes): set<MemoryId>
    requires id in db.memories
  {
    var row := db.memories[id];
    (if ch.contentHash.Some? then HashRows(db, row.user, row.project, ch.contentHash.value) else {})
    + (if ch.topicKey.Some? then TopicRows(db, row.user, row.project, ch.topicKey.value) else {})
    - {id}
  }

  function UpdateTx(db: Db, id: MemoryId, changes: Changes, inProject: Option<string>, now: Time)
    : (Db, WriteResult)
  {
    var ch := Prepared(changes);
    if id !in db.memories || db.memories[id].Deleted() then (db, Err(NotFound(id)))
    else if Mismatched(db.memories[id], inProject) then (db, Err(ProjectMismatch(id)))
    else if Rivals(db, id, ch) != {} then (db, Err(Conflict({id} + Rivals(db, id, ch))))
    else
      var (db', written) := ApplyChange(db, id, ch, now, Updated);
      (db', Ok(written))
  }

  function DeleteTx(db: Db, id: MemoryId, inProject: Option<string>, now: Time): (Db, WriteResult) {
    if id !in db.memories || db.memories[id].Deleted() then (db, Err(NotFound(id)))
    else if Mismatched(db.memories[id], inProject) then (db, Err(ProjectMismatch(id)))
    else
      var row := db.memories[id];
      var at := NextTime(row, now);
      var row' := row.(deletedAt := Some(at), updatedAt := at, version := row.version + 1,
                       changeSeq := db.nextSeq);
      (Rewrite(db, id, row'), Ok(Report(id, row', Removed)))
  }

  // ---- Acknowledgements and the embedding generation --------------------------------------

  /** The row comparison of SQL: version first, then generation. */
  predicate PairLess(v: nat, g: nat, v': nat, g': nat) {
    v < v' || (v == v' && g < g')
  }

  /** Record what a consumer holds; a stored acknowledgement at that pair or later stays. */
  function AckTx(db: Db, c: Consumer, id: MemoryId, ack: Ack): (Db, bool) {
    if id !in db.memories then (db, false)
    else if (c, id) in db.acks
            && !PairLess(db.acks[(c, id)].version, db.acks[(c, id)].generation,
                         ack.version, ack.generation) then (db, false)
    else (db.(acks := db.acks[(c, id) := ack]), true)
  }

  predicate IsAcked(db: Db, c: Consumer, id: MemoryId, version: nat, generation: nat) {
    (c, id) in db.acks
    && !PairLess(db.acks[(c, id)].version, db.acks[(c, id)].generation, version, generation)
  }

  /** Forget acknowledgements; `None` means every record, or every consumer. */
  function ResetAcks(db: Db, ids: Option<set<MemoryId>>, c: Option<Consumer>): Db {
    db.(acks := map k | k in db.acks
                        && !((ids.None? || k.1 in ids.value) && (c.None? || k.0 == c.value))
                    :: db.acks[k])
  }

  /** Missing or behind. Only the Milvus consumer holds vectors, so only it has a generation. */
  predicate IsPending(db: Db, c: Consumer, id: MemoryId)
    requires id in db.memories
  {
    || (c, id) !in db.acks
    || db.acks[(c, id)].version < db.memories[id].version
    || (c.Milvus? && db.acks[(c, id)].generation < db.meta.generation)
  }

  function PendingIds(db: Db, c: Consumer): set<MemoryId> {
    set id | id in db.memories && IsPending(db, c, id)
  }

  ghost predicate LowestSeq(db: Db, ids: set<MemoryId>, id: MemoryId)
    requires ids <= db.memories.Keys
  {
    id in ids && forall o | o in ids :: db.memories[id].changeSeq <= db.memories[o].changeSeq
  }

  lemma LowestSeqExists(db: Db, ids: set<MemoryId>)
    requires ids <= db.memories.Keys && ids != {}
    ensures exists id :: LowestSeq(db, ids, id)
  {
    var seqs := set id | id in ids :: db.memories[id].changeSeq;
    var some :| some in ids;
    assert db.memories[some].changeSeq in seqs;
    var id :| id in ids && db.memories[id].changeSeq == MinOf(seqs);
    forall o | o in ids ensures db.memories[id].changeSeq <= db.memories[o].changeSeq {
      assert db.memories[o].changeSeq in seqs;
      assert MinOf(seqs) <= db.memories[o].changeSeq;
    }
    assert LowestSeq(db, ids, id);
  }

  /** `ORDER BY change_seq`. */
  ghost function InSequence(db: Db, ids: set<MemoryId>): seq<MemoryId>
    requires ids <= db.memories.Keys
    decreases ids
  {
    if ids == {} then []
    else
      LowestSeqExists(db, ids);
      var id :| LowestSeq(db, ids, id);
      [id] + InSequence(db, ids - {id})
  }

  /** The listing names each record once, in strictly rising change_seq order. */
  lemma {:induction false} InSequenceLists(db: Db, ids: set<MemoryId>)
    requires ids <= db.memories.Keys
    requires forall a, b | a in ids && b in ids && a != b ::
               db.memories[a].changeSeq != db.memories[b].changeSeq
    ensures var s := InSequence(db, ids);
            |s| == |ids| && (forall id :: id in s <==> id in ids)
            && forall i, j | 0 <= i < j < |s| ::
                 db.memories[s[i]].changeSeq < db.memories[s[j]].changeSeq
    decreases ids
  {
    if ids != {} {
      var id := InSequence(db, ids)[0];
      InSequenceLists(db, ids - {id});
    }
  }

  function Take<T>(s: seq<T>, limit: Option<nat>): seq<T> {
    if limit.Some? && limit.value < |s| then s[..limit.value] else s
  }

  /** Record the model when none is set; a stored model of the same name and dimension without a
      fingerprint takes this one. */
  function Claim(meta: Meta, name: string, dim: nat, fp: Option<Fingerprint>): Meta {
    if meta.modelName.None? then meta.(modelName := Some(name), vectorDim := Some(dim), fingerprint := fp)
    else if meta.fingerprint.None? && meta.modelName == Some(name) && meta.vectorDim == Some(dim)
    then meta.(fingerprint := fp)
    else meta
  }

  function OrElse<T>(o: Option<T>, other: Option<T>): Option<T> {
    if o.Some? then o else other
  }

  /** Start a new embedding generation, keeping whatever the caller leaves out. */
  function Bump(meta: Meta, name: Option<string>, dim: Option<nat>, fp: Option<Fingerprint>): Meta {
    Meta(OrElse(name, meta.modelName), OrElse(dim, meta.vectorDim), OrElse(fp, meta.fingerprint),
         meta.generation + 1)
  }

  // ---- The store --------------------------------------------------------------------------

  class Store {
    var memories: map<MemoryId, Memory>
    var log: map<(MemoryId, nat), Memory>
    var acks: map<(Consumer, MemoryId), Ack>
    var meta: Meta
    var nextSeq: nat

    function State(): Db reads this { Db(memories, log, acks, meta, nextSeq) }

    constructor ()
      ensures State() == Db(map[], map[], map[], Meta(None, None, None, 1), 1)
    {
      memories, log, acks, meta, nextSeq := map[], map[], map[], Meta(None, None, None, 1), 1;
    }

    method Change(id: MemoryId, ch: Changes, now: Time, outcome: Outcome) returns (w: Written)
      requires id in memories
      modifies this
      ensures (State(), w) == ApplyChange(old(State()), id, ch, now, outcome)
    {
      var row := Merge(memories[id], ch);
      if row == memories[id] { return Report(id, row, Unchanged); }
      row := row.(updatedAt := GetOr(ch.updatedAt, NextTime(memories[id], now)),
                  version := row.version + 1, changeSeq := nextSeq);
      nextSeq := nextSeq + 1;
      memories := memories[id := row];
      log := log[(id, row.version) := row];
      acks := map k | k in acks && k.1 != id :: acks[k];
      return Report(id, row, outcome);
    }

    method MarkSuperseded(targets: set<MemoryId>, now: Time)
      requires targets <= memories.Keys
      modifies this
      ensures State() == Supersede(old(State()), targets, now)
    {
      var left := targets;
      while left != {}
        invariant left <= memories.Keys
        invariant Supersede(State(), left, now) == Supersede(old(State()), targets, now)
        decreases left
      {
        var t := MinOf(left);
        left := left - {t};
        if memories[t].status != Superseded {
          var _ := Change(t, MARK_SUPERSEDED, now, Marked);
        }
      }
    }

    method Add(rec: NewMemory, now: Time, newId: MemoryId) returns (r: WriteResult)
      requires newId !in memories
      modifies this
      ensures (State(), r) == AddTx(old(State()), rec, now, newId)
    {
      var topic := EmptyToNone(rec.topicKey);
      var bad := BadTargets(State(), rec);
      if bad != {} { return Err(InvalidSupersede(bad)); }
      assert rec.supersedes <= memories.Keys by {
        assert forall t | t in rec.supersedes :: t !in BadTargets(State(), rec);
      }
      var byTopic := FirstOf(TopicRows(State(), rec.user, rec.project, topic));
      var byHash := FirstOf(HashRows(State(), rec.user, rec.project, rec.contentHash));
      if byTopic.Some? && byHash.Some? && byTopic != byHash {
        return Err(Conflict({byTopic.value, byHash.value}));
      }
      if byTopic.Some? && memories[byTopic.value].contentHash != rec.contentHash {
        var w := Change(byTopic.value, Replacement(rec), now, Replaced);
        MarkSuperseded(rec.supersedes - {byTopic.value}, now);
        return Ok(w);
      }
      if byTopic.Some? || byHash.Some? {
        var id := if byTopic.Some? then byTopic.value else byHash.value;
        return Ok(Report(id, memories[id], Deduplicated));
      }
      var row := FreshRow(State(), rec, topic, now);
      nextSeq := nextSeq + 1;
      memories := memories[newId := row];
      log := log[(newId, 1) := row];
      MarkSuperseded(rec.supersedes, now);
      return Ok(Report(newId, row, Created));
    }

    method Update(id: MemoryId, changes: Changes, inProject: Option<string>, now: Time)
      returns (r: WriteResult)
      modifies this
      ensures (State(), r) == UpdateTx(old(State()), id, changes, inProject, now)
    {
      var ch := Prepared(changes);
      if id !in memories || memories[id].Deleted() { return Err(NotFound(id)); }
      if Mismatched(memories[id], inProject) { return Err(ProjectMismatch(id)); }
      var others := Rivals(State(), id, ch);
      if others != {} { return Err(Conflict({id} + others)); }
      var w := Change(id, ch, now, Updated);
      return Ok(w);
    }

    method Delete(id: MemoryId, inProject: Option<string>, now: Time) returns (r: WriteResult)
      modifies this
      ensures (State(), r) == DeleteTx(old(State()), id, inProject, now)
    {
      if id !in memories || memories[id].Deleted() { return Err(NotFound(id)); }
      if Mismatched(memories[id], inProject) { return Err(ProjectMismatch(id)); }
      var at := NextTime(memories[id], now);
      var row := memories[id].(deletedAt := Some(at), updatedAt := at,
                               version := memories[id].version + 1, changeSeq := nextSeq);
      nextSeq := nextSeq + 1;
      memories := memories[id := row];
      log := log[(id, row.version) := row];
      acks := map k | k in acks && k.1 != id :: acks[k];
      return Ok(Report(id, row, Removed));
    }

    method RecordAck(c: Consumer, id: MemoryId, ack: Ack) returns (changed: bool)
      modifies this
      ensures (State(), changed) == AckTx(old(State()), c, id, ack)
    {
      if id !in memories { return false; }
      if (c, id) in acks
         && !PairLess(acks[(c, id)].version, acks[(c, id)].generation, ack.version, ack.generation) {
        return false;
      }
      acks := acks[(c, id) := ack];
      return true;
    }

    method ClearAcks(ids: Option<set<MemoryId>>, c: Option<Consumer>) returns (count: nat)
      modifies this
      ensures State() == ResetAcks(old(State()), ids, c)
      ensures count == |old(acks)| - |acks|
    {
      var kept := ResetAcks(State(), ids, c).acks;
      KeptIsSmaller(kept, acks);
      count := |acks| - |kept|;
      acks := kept;
    }

    ghost predicate SequencesDiffer() reads this {
      forall a, b | a in memories && b in memories && a != b ::
        memories[a].changeSeq != memories[b].changeSeq
    }

    /** At most `limit` of the records `ids`, oldest change first. */
    method Listed(ids: set<MemoryId>, limit: Option<nat>) returns (batch: seq<MemoryId>)
      requires SequencesDiffer() && ids <= memories.Keys
      ensures batch == Take(InSequence(State(), ids), limit)
    {
      batch := [];
      var left := ids;
      ghost var all := InSequence(State(), left);
      while left != {} && !(limit.Some? && |batch| >= limit.value)
        invariant left <= memories.Keys
        invariant limit.Some? ==> |batch| <= limit.value
        invariant batch + InSequence(State(), left) == all
        decreases left
      {
        var next := First(left);
        ConcatAssoc(batch, [next], InSequence(State(), left - {next}));
        batch := batch + [next];
        left := left - {next};
      }
    }

    method Pending(c: Consumer, limit: Option<nat>) returns (batch: seq<MemoryId>)
      requires SequencesDiffer()
      ensures batch == Take(InSequence(State(), PendingIds(State(), c)), limit)
    {
      batch := Listed(PendingIds(State(), c), limit);
    }

    /** Every record, tombstones included. */
    method Everything() returns (ids: seq<MemoryId>)
      requires SequencesDiffer()
      ensures ids == InSequence(State(), memories.Keys)
    {
      ids := Listed(memories.Keys, None);
    }

    /** The pending record with the lowest change_seq. */
    method First(ids: set<MemoryId>) returns (id: MemoryId)
      requires ids != {} && ids <= memories.Keys && SequencesDiffer()
      ensures id in ids && InSequence(State(), ids) == [id] + InSequence(State(), ids - {id})
    {
      id :| id in ids;
      var left := ids - {id};
      while left != {}
        invariant id in ids && left <= ids
        invariant forall o | o in ids - left :: memories[id].changeSeq <= memories[o].changeSeq
        decreases left
      {
        var o :| o in left;
        left := left - {o};
        if memories[o].changeSeq < memories[id].changeSeq { id := o; }
      }
      assert LowestSeq(State(), ids, id);
      LowestSeqExists(State(), ids);
    }

    method ClaimIndexModel(name: string, dim: nat, fp: Option<Fingerprint>) returns (m: Meta)
      modifies this
      ensures State() == old(State()).(meta := Claim(old(meta), name, dim, fp)) && m == meta
      ensures old(meta.modelName).None? ==> meta == Meta(Some(name), Some(dim), fp, old(meta.generation))
      ensures old(meta.modelName).Some? ==>
                meta == old(meta).(fingerprint := if old(meta) == Meta(Some(name), Some(dim), None, old(meta.generation))
                                                  then fp else old(meta.fingerprint))
    {
      if meta.modelName.None? {
        meta := meta.(modelName := Some(name), vectorDim := Some(dim), fingerprint := fp);
      }
      if meta.fingerprint.None? && meta.modelName == Some(name) && meta.vectorDim == Some(dim) {
        meta := meta.(fingerprint := fp);
      }
      m := meta;
    }

    method BumpGeneration(name: Option<string>, dim: Option<nat>, fp: Option<Fingerprint>)
      returns (generation: nat)
      modifies this
      ensures State() == old(State()).(meta := Bump(old(meta), name, dim, fp))
      ensures generation == old(meta.generation) + 1 == meta.generation
    {
      meta := Meta(OrElse(name, meta.modelName), OrElse(dim, meta.vectorDim),
                   OrElse(fp, meta.fingerprint), meta.generation + 1);
      generation := meta.generation;
    }
  }

  lemma KeptIsSmaller<K, V>(part: map<K, V>, whole: map<K, V>)
    requires part.Keys <= whole.Keys
    ensures |part| <= |whole|
  {
    KeysSubset(part.Keys, whole.Keys);
  }

  lemma KeysSubset<K>(a: set<K>, b: set<K>)
    requires a <= b
    ensures |a| <= |b|
  {
    assert b == a + (b - a);
  }
}
