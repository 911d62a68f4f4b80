/** A machine's tick is a run of the sync protocol: each call on a record is one worker's statements in
    a row, or as many of them as came before the failure. Whatever holds of every run of the protocol
    holds of ticks, on any machine and in any order. */
module IndexRefinement {
  import opened Wrappers
  import opened MemoryStore
  import opened StoreInvariants
  import opened IndexProtocol
  import opened IndexGuarantees
  import opened MemoryIndex
  import opened IndexConvergence
  import Fts = MemoryFts

  // ---- Paths ------------------------------------------------------------------------------

  /** `ws` goes from `w` to `w'` by the events `es`. */
  ghost predicate Path(w: World, ws: seq<World>, es: seq<Event>, w': World) {
    && |ws| == |es| + 1 && ws[0] == w && ws[|es|] == w'
    && forall i | 0 <= i < |es| :: Takes(ws[i], es[i], ws[i + 1])
  }

  ghost predicate Reaches(w: World, w': World) {
    exists ws, es :: Path(w, ws, es, w')
  }

  lemma ReachesItself(w: World)
    ensures Reaches(w, w)
  {
    assert Path(w, [w], [], w);
  }

  lemma ReachesOn(a: World, b: World, e: Event, c: World)
    requires Reaches(a, b) && Takes(b, e, c)
    ensures Reaches(a, c)
  {
    hide Takes;
    var ws, es :| Path(a, ws, es, b);
    var ws', es' := ws + [c], es + [e];
    forall i | 0 <= i < |es'| ensures Takes(ws'[i], es'[i], ws'[i + 1]) {
      if i < |es| { assert Takes(ws[i], es[i], ws[i + 1]); }
    }
    assert Path(a, ws', es', c);
  }

  lemma ReachesBoth(a: World, b: World, c: World)
    requires Reaches(a, b) && Reaches(b, c)
    ensures Reaches(a, c)
  {
    hide Takes;
    var ws, es :| Path(b, ws, es, c);
    PathOn(a, b, ws, es, c);
  }

  lemma {:induction false} PathOn(a: World, b: World, ws: seq<World>, es: seq<Event>, c: World)
    requires Reaches(a, b) && Path(b, ws, es, c)
    ensures Reaches(a, c)
    decreases |es|
  {
    hide Takes, Reaches;
    if es != [] {
      var ws', es' := ws[..|es|], es[..|es| - 1];
      forall i | 0 <= i < |es'| ensures Takes(ws'[i], es'[i], ws'[i + 1]) {
        assert Takes(ws[i], es[i], ws[i + 1]);
      }
      PathOn(a, b, ws', es', ws[|es| - 1]);
      assert Takes(ws[|es| - 1], es[|es| - 1], ws[|es| - 1 + 1]);
      ReachesOn(a, ws[|es| - 1], es[|es| - 1], c);
    }
  }

  lemma {:induction false} ReachesInv(w: World, w': World)
    requires Inv(w) && Reaches(w, w')
    ensures Inv(w') && Grows(w, w')
  {
    hide Inv, Takes, Grows;
    var ws, es :| Path(w, ws, es, w');
    PathInv(w, ws, es, w');
  }

  lemma {:induction false} PathInv(w: World, ws: seq<World>, es: seq<Event>, w': World)
    requires Inv(w) && Path(w, ws, es, w')
    ensures Inv(w') && Grows(w, w')
    decreases |es|
  {
    hide Inv, Takes, Grows;
    if es == [] {
      SelfGrows(w, w');
    } else {
      var ws', es' := ws[..|es|], es[..|es| - 1];
      forall i | 0 <= i < |es'| ensures Takes(ws'[i], es'[i], ws'[i + 1]) {
        assert Takes(ws[i], es[i], ws[i + 1]);
      }
      PathInv(w, ws', es', ws[|es| - 1]);
      assert Takes(ws[|es| - 1], es[|es| - 1], ws[|es| - 1 + 1]);
      EventKeeps(ws[|es| - 1], es[|es| - 1], w');
      GrowsTransitive(w, ws[|es| - 1], w');
    }
  }

  // ---- One worker, alone ------------------------------------------------------------------

  /** Worker `k` is at `p`; nothing else about the workers of `w` changed, and no lock but perhaps its
      own. */
  ghost predicate Alone(w: World, v: World, k: nat, p: Worker) {
    && k !in w.workers && v.workers == w.workers[k := p] && v.servers == w.servers
    && v.locks == (if p.Holds() then w.locks[p.id := k] else w.locks)
    && (forall id | id in w.locks :: w.locks[id] != k)
  }

  /** Worker `k` is gone again. */
  ghost predicate Gone(w: World, v: World) {
    v.workers == w.workers && v.servers == w.servers && v.locks == w.locks
  }

  lemma Dropped(w: World, v: World, k: nat, p: Worker)
    requires Alone(w, v, k, p) && (p.Holds() ==> p.id !in w.locks)
    ensures Gone(w, Drop(v, k))
  {}

  lemma Spawned(w: World, k: nat, p: Worker)
    requires Inv(w) && k !in w.workers && p.sv in w.servers && !p.Holds()
    ensures Alone(w, Becomes(w, k, p), k, p)
  {
    forall id | id in w.locks ensures w.locks[id] != k { assert w.locks[id] in w.workers; }
  }

  /** The stores and files are as they were. */
  ghost predicate SameStores(v: World, v': World) { v'.db == v.db && v'.milvus == v.milvus && v'.files == v.files }

  /** One statement of a worker that is alone. */
  ghost predicate Next(w: World, v: World, v': World, k: nat, p: Worker, q: Worker) {
    && Takes(v, Advance(k), v') && Alone(w, v', k, q) && q.sv == p.sv && HostOf(v', k)
  }

  lemma ReadAlone(w: World, v: World, k: nat, sv: string, id: MemoryId)
    requires Alone(w, v, k, MStart(sv, id, 0)) && HostOf(v, k) && id in v.db.memories
    ensures var q := MRead(sv, id, 0, v.db.memories[id], v.db.meta.generation);
            Next(w, v, Step(v, k), k, MStart(sv, id, 0), q) && SameStores(v, Step(v, k))
  {
    assert v.workers[k] == MStart(sv, id, 0);
  }

  lemma TodoAlone(w: World, v: World, k: nat, sv: string, id: MemoryId, row: Memory, gen: nat)
    requires Alone(w, v, k, MRead(sv, id, 0, row, gen)) && HostOf(v, k)
    requires !IsAcked(v.db, Milvus, id, row.version, gen)
    ensures Next(w, v, Step(v, k), k, MRead(sv, id, 0, row, gen), MTodo(sv, id, 0, row, gen))
    ensures SameStores(v, Step(v, k))
  {
    hide IsAcked;
    assert v.workers[k] == MRead(sv, id, 0, row, gen);
  }

  function VectorOf(w: World, sv: string, row: Memory): Option<Vector>
    requires sv in w.servers
  {
    if row.Deleted() then None else Some(Embedding(w.servers[sv].model, row.text))
  }

  lemma EmbedAlone(w: World, v: World, k: nat, sv: string, id: MemoryId, row: Memory, gen: nat)
    requires Alone(w, v, k, MTodo(sv, id, 0, row, gen)) && HostOf(v, k)
    ensures sv in w.servers
    ensures Next(w, v, Step(v, k), k, MTodo(sv, id, 0, row, gen), MReady(sv, id, 0, row.contentHash, VectorOf(w, sv, row)))
    ensures SameStores(v, Step(v, k))
  {
    assert v.workers[k] == MTodo(sv, id, 0, row, gen);
  }

  lemma LockAlone(w: World, v: World, k: nat, sv: string, id: MemoryId, hash: Hash, vector: Option<Vector>)
    requires Alone(w, v, k, MReady(sv, id, 0, hash, vector)) && HostOf(v, k) && id !in w.locks && id in v.db.memories
    ensures var q := MLocked(sv, id, 0, hash, vector, v.db.memories[id], v.db.meta.generation, v.db.meta);
            Next(w, v, Step(v, k), k, MReady(sv, id, 0, hash, vector), q) && SameStores(v, Step(v, k))
  {
    assert v.workers[k] == MReady(sv, id, 0, hash, vector);
  }

  lemma WriteAlone(w: World, v: World, k: nat, p: Worker)
    requires Alone(w, v, k, p) && HostOf(v, k) && p.MLocked? && Writes(v, k)
    ensures var v', q := Step(v, k), MWrote(p.sv, p.id, p.row, p.gen);
            && Next(w, v, v', k, p, q) && v'.db == v.db && v'.files == v.files
            && v'.milvus == if p.row.Deleted() then v.milvus - {p.id}
                            else v.milvus[p.id := MilvusRowOf(p.row, p.gen, p.vector.value)]
  {
    hide Refused, MilvusRowOf;
    assert v.workers[k] == p;
  }

  lemma UnlockAlone(w: World, v: World, k: nat, p: Worker)
    requires Alone(w, v, k, p) && HostOf(v, k) && p.MWrote? && p.id !in w.locks
    ensures Next(w, v, Step(v, k), k, p, MAcking(p.sv, p.id, p.row, p.gen)) && SameStores(v, Step(v, k))
  {
    assert v.workers[k] == p;
    Dropped(w, v, k, p);
  }

  lemma AckAlone(w: World, v: World, k: nat, p: Worker)
    requires Alone(w, v, k, p) && HostOf(v, k) && (p.MAcking? || p.FAcking?)
    ensures var v', c := Step(v, k), if p.MAcking? then Milvus else Consumer.Fts(p.sv);
            && Takes(v, Advance(k), v') && Gone(w, v')
            && v'.db == AckTx(v.db, c, p.id, Ack(p.row.version, p.gen, p.row.Deleted())).0
            && v'.milvus == v.milvus && v'.files == v.files
  {
    hide AckTx;
    assert v.workers[k] == p;
    Dropped(w, v, k, p);
  }

  lemma StopAlone(w: World, v: World, k: nat, p: Worker)
    requires Alone(w, v, k, p) && (p.Holds() ==> p.id !in w.locks)
    ensures Takes(v, Stop(k), Drop(v, k)) && Gone(w, Drop(v, k)) && SameStores(v, Drop(v, k))
  {
    Dropped(w, v, k, p);
  }

  lemma SpawnAlone(w: World, k: nat, p: Worker)
    requires Inv(w) && k !in w.workers && p.sv in w.servers && p.sv in w.files
    requires p == MStart(p.sv, p.id, 0) || p == FStart(p.sv, p.id)
    ensures var v := Becomes(w, k, p);
            && Reaches(w, v) && Alone(w, v, k, p) && HostOf(v, k) && SameStores(w, v)
  {
    hide Inv, Reaches;
    Spawned(w, k, p);
    ReachesItself(w);
    ReachesOn(w, w, Spawn(k, p), Becomes(w, k, p));
  }

  // ---- One call ---------------------------------------------------------------------------

  /** The world after a call on one record agrees with the machine's account of it. */
  ghost predicate Agrees(w: World, v: World, sv: string, y: Machine) {
    && Reaches(w, v) && Gone(w, v) && sv in v.servers && sv in v.files && v.files == w.files[sv := v.files[sv]]
    && MachineOf(v, sv, y.lagging) == y
  }

  /** Putting the pieces of a world into the machine's account. */
  lemma Accounted(w: World, v: World, sv: string, y: Machine)
    requires Reaches(w, v) && Gone(w, v) && sv in w.servers && sv in w.files
    requires sv in v.files && v.files == w.files[sv := v.files[sv]]
    requires v.db == y.db && v.milvus == y.milvus && v.files[sv] == y.file
    requires y.blocked == Refused(y.db.meta, w.servers[sv])
    ensures Agrees(w, v, sv, y)
  {
    hide Reaches, Refused;
  }

  /** The statements up to the locked row. */
  lemma Locked(w: World, k: nat, sv: string, id: MemoryId) returns (v: World)
    requires Inv(w) && k !in w.workers && sv in w.servers && sv in w.files
    requires id in w.db.memories && id !in w.locks
    requires !IsAcked(w.db, Milvus, id, w.db.memories[id].version, w.db.meta.generation)
    ensures var row := w.db.memories[id];
            && Reaches(w, v) && HostOf(v, k) && SameStores(w, v)
            && Alone(w, v, k, MLocked(sv, id, 0, row.contentHash, VectorOf(w, sv, row), row, w.db.meta.generation, w.db.meta))
  {
    hide Inv, Reaches, Takes, Step, Alone, IsAcked;
    var row, gen := w.db.memories[id], w.db.meta.generation;
    SpawnAlone(w, k, MStart(sv, id, 0));
    var v0 := Becomes(w, k, MStart(sv, id, 0));
    ReadAlone(w, v0, k, sv, id);
    var v1 := Step(v0, k);
    ReachesOn(w, v0, Advance(k), v1);
    TodoAlone(w, v1, k, sv, id, row, gen);
    var v2 := Step(v1, k);
    ReachesOn(w, v1, Advance(k), v2);
    EmbedAlone(w, v2, k, sv, id, row, gen);
    var v3 := Step(v2, k);
    ReachesOn(w, v2, Advance(k), v3);
    LockAlone(w, v3, k, sv, id, row.contentHash, VectorOf(w, sv, row));
    v := Step(v3, k);
    ReachesOn(w, v3, Advance(k), v);
  }

  /** The statements from the locked row on. */
  lemma MilvusFinish(w: World, v4: World, k: nat, p: Worker, fault: Fault) returns (v: World)
    requires Reaches(w, v4) && HostOf(v4, k) && Alone(w, v4, k, p) && p.MLocked? && fault != BeforeWrite
    requires p.sv in w.servers && !Refused(p.meta, w.servers[p.sv]) && p.id !in w.locks
    requires p.vector == VectorOf(w, p.sv, p.row) && p.hash == p.row.contentHash
    ensures Reaches(w, v) && Gone(w, v) && v.files == v4.files
    ensures v.milvus == if p.row.Deleted() then v4.milvus - {p.id}
                        else v4.milvus[p.id := MilvusRowOf(p.row, p.gen, p.vector.value)]
    ensures v.db == if fault == AfterWrite then v4.db
                    else AckTx(v4.db, Milvus, p.id, Ack(p.row.version, p.gen, p.row.Deleted())).0
  {
    hide Reaches, Takes, Step, Alone, Refused, MilvusRowOf, AckTx, Gone;
    LockedWrites(w, v4, k, p);
    WriteAlone(w, v4, k, p);
    var v5, p5 := Step(v4, k), MWrote(p.sv, p.id, p.row, p.gen);
    ReachesOn(w, v4, Advance(k), v5);
    if fault == AfterWrite {
      StopAlone(w, v5, k, p5);
      v := Drop(v5, k);
      ReachesOn(w, v5, Stop(k), v);
    } else {
      UnlockAlone(w, v5, k, p5);
      var v6 := Step(v5, k);
      ReachesOn(w, v5, Advance(k), v6);
      AckAlone(w, v6, k, MAcking(p.sv, p.id, p.row, p.gen));
      v := Step(v6, k);
      ReachesOn(w, v6, Advance(k), v);
    }
  }

  /** One Milvus call is a run of one worker, stopped where the call raises. */
  lemma MilvusCall(w: World, k: nat, sv: string, fp: Option<Fingerprint>, lagging: bool, id: MemoryId, fault: Fault)
    returns (v: World)
    requires Inv(w) && k !in w.workers && sv in w.servers && sv in w.files && id !in w.locks
    ensures Agrees(w, v, sv, MilvusOne(MachineOf(w, sv, lagging), Local(sv, w.servers[sv], fp), id, fault).0)
  {
    hide Inv, Reaches, Takes, Step, Alone, Agrees, IsAcked, Refused, MilvusRowOf, AckTx;
    ReachesItself(w);
    assert w.files[sv := w.files[sv]] == w.files;
    if Refused(w.db.meta, w.servers[sv]) || fault == BeforeWrite || id !in w.db.memories
       || IsAcked(w.db, Milvus, id, w.db.memories[id].version, w.db.meta.generation) {
      v := w;
    } else {
      var row, gen := w.db.memories[id], w.db.meta.generation;
      var v4 := Locked(w, k, sv, id);
      var p4 := MLocked(sv, id, 0, row.contentHash, VectorOf(w, sv, row), row, gen, w.db.meta);
      v := MilvusFinish(w, v4, k, p4, fault);
    }
    var x, me := MachineOf(w, sv, lagging), Local(sv, w.servers[sv], fp);
    CallsKeepMeta(x, me, id, fault);
    Accounted(w, v, sv, MilvusOne(x, me, id, fault).0);
  }

  /** No call changes the metadata, and none blocks a machine that is admitted. */
  lemma CallsKeepMeta(x: Machine, me: Local, id: MemoryId, fault: Fault)
    requires x.blocked == Refused(x.db.meta, me.server)
    ensures var y := MilvusOne(x, me, id, fault).0;
            y.db.meta == x.db.meta && y.blocked == x.blocked && y.lagging == x.lagging
            && y.db.memories == x.db.memories
    ensures var y := FtsOne(x, me, id, fault).0;
            y.db.meta == x.db.meta && y.blocked == x.blocked && y.lagging == x.lagging
            && y.db.memories == x.db.memories
  {
    hide Refused, IsAcked, MilvusRowOf, Fts.Apply;
  }

  lemma LockedWrites(w: World, v: World, k: nat, p: Worker)
    requires Alone(w, v, k, p) && HostOf(v, k) && p.MLocked? && !Refused(p.meta, w.servers[p.sv])
    requires p.sv in w.servers && p.vector == VectorOf(w, p.sv, p.row) && p.hash == p.row.contentHash
    ensures Writes(v, k)
  {
    hide Refused;
    assert v.workers[k] == p;
  }

  lemma FtsReadAlone(w: World, v: World, k: nat, sv: string, id: MemoryId)
    requires Alone(w, v, k, FStart(sv, id)) && HostOf(v, k) && id in v.db.memories
    ensures var q := FRead(sv, id, v.db.memories[id], v.db.meta.generation);
            Next(w, v, Step(v, k), k, FStart(sv, id), q) && SameStores(v, Step(v, k))
  {
    assert v.workers[k] == FStart(sv, id);
  }

  lemma FtsApplyAlone(w: World, v: World, k: nat, sv: string, id: MemoryId, row: Memory, gen: nat)
    requires Alone(w, v, k, FRead(sv, id, row, gen)) && HostOf(v, k)
    ensures var v' := Step(v, k); var applied := Fts.Apply(v.files[sv], id, row);
            && Next(w, v, v', k, FRead(sv, id, row, gen),
                    if applied.1 then FAcking(sv, id, row, gen) else FSkipped(sv, id, row, gen))
            && v'.db == v.db && v'.milvus == v.milvus && v'.files == v.files[sv := applied.0]
  {
    hide Fts.Apply;
    assert v.workers[k] == FRead(sv, id, row, gen);
  }

  lemma FtsSkipAlone(w: World, v: World, k: nat, sv: string, id: MemoryId, row: Memory, gen: nat)
    requires Alone(w, v, k, FSkipped(sv, id, row, gen)) && HostOf(v, k)
    requires id in v.files[sv].marks && v.files[sv].marks[id].version >= row.version
    ensures Next(w, v, Step(v, k), k, FSkipped(sv, id, row, gen), FAcking(sv, id, row, gen))
    ensures SameStores(v, Step(v, k))
  {
    assert v.workers[k] == FSkipped(sv, id, row, gen);
  }

  /** An application that writes nothing found the watermark at this version or later. */
  lemma SkipsBehindMark(f: Fts.File, id: MemoryId, row: Memory)
    ensures var (f', written) := Fts.Apply(f, id, row);
            !written ==> f' == f && id in f.marks && f.marks[id].version >= row.version
  {}

  /** The statements up to the FTS transaction. */
  lemma FtsWritten(w: World, k: nat, sv: string, id: MemoryId) returns (v: World)
    requires Inv(w) && k !in w.workers && sv in w.servers && sv in w.files && id in w.db.memories
    ensures var row, gen := w.db.memories[id], w.db.meta.generation; var applied := Fts.Apply(w.files[sv], id, row);
            && Reaches(w, v) && HostOf(v, k) && v.db == w.db && v.milvus == w.milvus
            && v.files == w.files[sv := applied.0]
            && Alone(w, v, k, if applied.1 then FAcking(sv, id, row, gen) else FSkipped(sv, id, row, gen))
  {
    hide Inv, Reaches, Takes, Step, Alone, Fts.Apply;
    var row, gen := w.db.memories[id], w.db.meta.generation;
    SpawnAlone(w, k, FStart(sv, id));
    var v0 := Becomes(w, k, FStart(sv, id));
    FtsReadAlone(w, v0, k, sv, id);
    var v1 := Step(v0, k);
    ReachesOn(w, v0, Advance(k), v1);
    FtsApplyAlone(w, v1, k, sv, id, row, gen);
    v := Step(v1, k);
    ReachesOn(w, v1, Advance(k), v);
  }

  /** And from there on. */
  lemma FtsFinish(w: World, v2: World, k: nat, sv: string, id: MemoryId, row: Memory, gen: nat, written: bool, fault: Fault)
    returns (v: World)
    requires sv in w.files && v2.files == w.files[sv := Fts.Apply(w.files[sv], id, row).0]
    requires written == Fts.Apply(w.files[sv], id, row).1
    requires Reaches(w, v2) && HostOf(v2, k)
    requires Alone(w, v2, k, if written then FAcking(sv, id, row, gen) else FSkipped(sv, id, row, gen))
    ensures Reaches(w, v) && Gone(w, v) && v.files == v2.files && v.milvus == v2.milvus
    ensures v.db == if fault == AfterWrite then v2.db
                    else AckTx(v2.db, Consumer.Fts(sv), id, Ack(row.version, gen, row.Deleted())).0
  {
    hide Reaches, Takes, Step, Alone, Fts.Apply, AckTx, Gone;
    var p2 := if written then FAcking(sv, id, row, gen) else FSkipped(sv, id, row, gen);
    SkipsBehindMark(w.files[sv], id, row);
    if fault == AfterWrite {
      StopAlone(w, v2, k, p2);
      v := Drop(v2, k);
      ReachesOn(w, v2, Stop(k), v);
    } else {
      var v3 := v2;
      if !written {
        FtsSkipAlone(w, v2, k, sv, id, row, gen);
        v3 := Step(v2, k);
        ReachesOn(w, v2, Advance(k), v3);
      }
      AckAlone(w, v3, k, FAcking(sv, id, row, gen));
      v := Step(v3, k);
      ReachesOn(w, v3, Advance(k), v);
    }
  }

  /** One FTS call is a run of one worker, stopped where the call raises. */
  lemma FtsCall(w: World, k: nat, sv: string, fp: Option<Fingerprint>, lagging: bool, id: MemoryId, fault: Fault)
    returns (v: World)
    requires Inv(w) && k !in w.workers && sv in w.servers && sv in w.files && id !in w.locks
    ensures Agrees(w, v, sv, FtsOne(MachineOf(w, sv, lagging), Local(sv, w.servers[sv], fp), id, fault).0)
  {
    hide Inv, Reaches, Takes, Step, Alone, Refused, Fts.Apply, AckTx;
    var x, me := MachineOf(w, sv, lagging), Local(sv, w.servers[sv], fp);
    CallsKeepMeta(x, me, id, fault);
    ReachesItself(w);
    assert w.files[sv := w.files[sv]] == w.files;
    if fault == BeforeWrite || id !in w.db.memories {
      v := w;
    } else {
      var row, gen := w.db.memories[id], w.db.meta.generation;
      var v2 := FtsWritten(w, k, sv, id);
      v := FtsFinish(w, v2, k, sv, id, row, gen, Fts.Apply(w.files[sv], id, row).1, fault);
    }
    Accounted(w, v, sv, FtsOne(x, me, id, fault).0);
  }

  // ---- Passes and ticks -------------------------------------------------------------------

  lemma AgreesOn(w: World, v: World, u: World, sv: string, y: Machine, z: Machine)
    requires Agrees(w, v, sv, y) && Agrees(v, u, sv, z)
    ensures Agrees(w, u, sv, z)
  {
    hide Reaches, Refused;
    ReachesBoth(w, v, u);
  }

  lemma {:induction false} FtsPassRuns(w: World, k: nat, sv: string, fp: Option<Fingerprint>, lagging: bool,
                                      ids: seq<MemoryId>, faults: Faults)
    returns (v: World)
    requires Inv(w) && k !in w.workers && sv in w.servers && sv in w.files && w.locks == map[]
    ensures Agrees(w, v, sv, FtsAll(MachineOf(w, sv, lagging), Local(sv, w.servers[sv], fp), ids, faults))
    ensures FtsAll(MachineOf(w, sv, lagging), Local(sv, w.servers[sv], fp), ids, faults).lagging == lagging
  {
    hide Inv, Reaches, FtsOne, Refused;
    var x, me := MachineOf(w, sv, lagging), Local(sv, w.servers[sv], fp);
    if ids == [] {
      v := w;
      ReachesItself(w);
      assert w.files[sv := w.files[sv]] == w.files;
    } else {
      var front, id := ids[..|ids| - 1], ids[|ids| - 1];
      var u := FtsPassRuns(w, k, sv, fp, lagging, front, faults);
      ReachesInv(w, u);
      v := FtsCall(u, k, sv, fp, lagging, id, faults(id));
      AgreesOn(w, u, v, sv, FtsAll(x, me, front, faults), FtsAll(x, me, ids, faults));
      CallsKeepMeta(FtsAll(x, me, front, faults), me, id, faults(id));
    }
  }

  lemma {:induction false} MilvusPassRuns(w: World, k: nat, sv: string, fp: Option<Fingerprint>, lagging: bool,
                                         ids: seq<MemoryId>, faults: Faults)
    returns (v: World)
    requires Inv(w) && k !in w.workers && sv in w.servers && sv in w.files && w.locks == map[]
    ensures Agrees(w, v, sv, MilvusAll(MachineOf(w, sv, lagging), Local(sv, w.servers[sv], fp), ids, faults))
    ensures MilvusAll(MachineOf(w, sv, lagging), Local(sv, w.servers[sv], fp), ids, faults).lagging == lagging
  {
    hide Inv, Reaches, MilvusOne, Refused;
    var x, me := MachineOf(w, sv, lagging), Local(sv, w.servers[sv], fp);
    if ids == [] {
      v := w;
      ReachesItself(w);
      assert w.files[sv := w.files[sv]] == w.files;
    } else {
      var front, id := ids[..|ids| - 1], ids[|ids| - 1];
      var u := MilvusPassRuns(w, k, sv, fp, lagging, front, faults);
      ReachesInv(w, u);
      v := MilvusCall(u, k, sv, fp, lagging, id, faults(id));
      AgreesOn(w, u, v, sv, MilvusAll(x, me, front, faults), MilvusAll(x, me, ids, faults));
      CallsKeepMeta(MilvusAll(x, me, front, faults), me, id, faults(id));
    }
  }

  lemma RefreshRuns(w: World, sv: string, fp: Option<Fingerprint>, lagging: bool) returns (v: World)
    requires sv in w.servers && sv in w.files
    ensures Agrees(w, v, sv, Refresh(MachineOf(w, sv, lagging), Local(sv, w.servers[sv], fp)))
  {
    hide Reaches, Refused, Claim;
    var server := w.servers[sv];
    v := WithMeta(w, Claim(w.db.meta, server.model.name, server.model.dim, fp));
    ReachesItself(w);
    ReachesOn(w, w, ClaimModel(server.model.name, server.model.dim, fp), v);
    assert w.files[sv := w.files[sv]] == w.files;
  }

  /** A whole tick of one server, with its calls failing anywhere, is a run of the protocol from any
      world of any run in which no record is locked. */
  lemma TickRuns(w: World, k: nat, sv: string, fp: Option<Fingerprint>, lagging: bool, ff: Faults, mf: Faults)
    returns (v: World)
    requires Inv(w) && k !in w.workers && sv in w.servers && sv in w.files && w.locks == map[]
    ensures Agrees(w, v, sv, Tick(MachineOf(w, sv, lagging), Local(sv, w.servers[sv], fp), ff, mf)) && Inv(v)
  {
    hide Inv, Reaches, Refused, Refresh, FtsAll, MilvusAll, Batch;
    var x, me := MachineOf(w, sv, lagging), Local(sv, w.servers[sv], fp);
    var v1 := RefreshRuns(w, sv, fp, lagging);
    ReachesInv(w, v1);
    RefreshLagging(x, me);
    var x1 := Refresh(x, me);
    var first := Batch(x1.db, me.FtsConsumer());
    var v2 := FtsPassRuns(v1, k, sv, fp, lagging, first, ff);
    var x2 := FtsAll(x1, me, first, ff);
    AgreesOn(w, v1, v2, sv, x1, x2);
    ReachesInv(w, v2);
    v := v2;
    if !x2.blocked {
      v := MilvusPassRuns(v2, k, sv, fp, lagging, Batch(x2.db, Milvus), mf);
      AgreesOn(w, v2, v, sv, x2, MilvusAll(x2, me, Batch(x2.db, Milvus), mf));
      ReachesInv(w, v);
    }
  }

  lemma RefreshLagging(x: Machine, me: Local)
    ensures Refresh(x, me).lagging == x.lagging
  {}

  /** A run goes on through whatever its last world reaches, so ticks of any servers, one after another
      and between any other events, only ever make runs. */
  lemma {:induction false} RunGoesOn(ws: seq<World>, es: seq<Event>, v: World)
    requires Run(ws, es) && Reaches(ws[|es|], v)
    ensures exists ws', es' :: Run(ws', es') && ws'[0] == ws[0] && ws'[|es'|] == v && |es'| >= |es|
  {
    hide Takes, Initial;
    var path, steps :| Path(ws[|es|], path, steps, v);
    var ws', es' := ws + path[1..], es + steps;
    forall i | 0 <= i < |es'| ensures Takes(ws'[i], es'[i], ws'[i + 1]) {
      if i < |es| {
        assert Takes(ws[i], es[i], ws[i + 1]);
      } else {
        assert Takes(path[i - |es|], steps[i - |es|], path[i - |es| + 1]);
        assert ws'[i] == path[i - |es|];
      }
    }
    assert Run(ws', es');
  }
}
