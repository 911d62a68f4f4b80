/** Many servers at once: in any order of their ticks, some of them with failing calls, Milvus and every
    server's own file come to the canonical records as soon as each server has had as many undisturbed ticks
    as it has batches. */
module IndexSchedule {
  import opened Wrappers
  import opened MemoryStore
  import opened IndexProtocol
  import opened IndexGuarantees
  import opened MemoryIndex
  import opened IndexConvergence
  import opened IndexRefinement
  import opened IndexRepair
  import Fts = MemoryFts

  /** What the servers share, and their files. */
  datatype Fleet = Fleet(db: Db, milvus: map<MemoryId, MilvusRow>, files: map<string, Fts.File>)

  function FleetOf(w: World): Fleet { Fleet(w.db, w.milvus, w.files) }

  /** A tick of server `sv`; unless it is calm its calls may fail. */
  datatype Turn = Turn(sv: string, calm: bool, ftsFaults: Faults, milvusFaults: Faults)
  {
    function OnFile(): Faults { if calm then NO_FAULTS else ftsFaults }

    function OnMilvus(): Faults { if calm then NO_FAULTS else milvusFaults }
  }

  type Locals = map<string, Local>

  function SeenBy(f: Fleet, sv: string, me: Local): Machine
    requires sv in f.files
  {
    Machine(f.db, f.milvus, f.files[sv], Refused(f.db.meta, me.server), true)
  }

  ghost function TickedBy(f: Fleet, t: Turn, me: Local): Fleet
    requires t.sv in f.files
  {
    var y := Tick(SeenBy(f, t.sv, me), me, t.OnFile(), t.OnMilvus());
    Fleet(y.db, y.milvus, f.files[t.sv := y.file])
  }

  /** The ticks of a schedule, one after another. */
  ghost function Ticked(f: Fleet, locals: Locals, schedule: seq<Turn>): (f': Fleet)
    requires forall t | t in schedule :: t.sv in locals && t.sv in f.files
    ensures f'.files.Keys == f.files.Keys
  {
    if schedule == [] then f
    else
      var n := |schedule| - 1;
      TickedBy(Ticked(f, locals, schedule[..n]), schedule[n], locals[schedule[n].sv])
  }

  /** How many calm ticks of `sv`, or of any server. */
  function CalmOf(schedule: seq<Turn>, sv: Option<string>): nat {
    if schedule == [] then 0
    else
      var t := schedule[|schedule| - 1];
      CalmOf(schedule[..|schedule| - 1], sv) + if t.calm && (sv.None? || sv == Some(t.sv)) then 1 else 0
  }

  /** Whichever of them claims the model first, none of them is refused. */
  predicate Compatible(meta: Meta, locals: Locals) {
    forall a, b | a in locals && b in locals ::
      !Refused(Claim(meta, locals[b].server.model.name, locals[b].server.model.dim, locals[b].claimable), locals[a].server)
  }

  lemma CompatibleStays(meta: Meta, locals: Locals, sv: string)
    requires Compatible(meta, locals) && sv in locals
    ensures Compatible(Claim(meta, locals[sv].server.model.name, locals[sv].server.model.dim, locals[sv].claimable), locals)
  {
    var meta' := Claim(meta, locals[sv].server.model.name, locals[sv].server.model.dim, locals[sv].claimable);
    forall a, b | a in locals && b in locals
      ensures !Refused(Claim(meta', locals[b].server.model.name, locals[b].server.model.dim, locals[b].claimable),
                       locals[a].server)
    {
      assert !Refused(meta', locals[a].server) && !Refused(meta', locals[b].server);
      assert !Refused(Claim(meta, locals[b].server.model.name, locals[b].server.model.dim, locals[b].claimable),
                      locals[a].server);
    }
  }

  // ---- What a tick leaves to the others -----------------------------------------------------

  /** The records, the metadata and the acknowledgements of consumer `c` are as they were. */
  ghost predicate SameFor(db: Db, db': Db, c: Consumer) {
    db'.memories == db.memories && db'.meta == db.meta && forall id :: Same(db.acks, db'.acks, (c, id))
  }

  lemma {:induction false} FtsAllOthers(x: Machine, me: Local, ids: seq<MemoryId>, faults: Faults, c: Consumer)
    requires c != me.FtsConsumer()
    ensures SameFor(x.db, FtsAll(x, me, ids, faults).db, c)
  {
    hide Fts.Apply;
    if ids != [] { FtsAllOthers(x, me, ids[..|ids| - 1], faults, c); }
  }

  lemma MilvusOneOthers(x: Machine, me: Local, id: MemoryId, fault: Fault, c: Consumer)
    requires c != Milvus
    ensures SameFor(x.db, MilvusOne(x, me, id, fault).0.db, c)
  {
    hide Refused, MilvusRowOf, IsAcked;
  }

  lemma {:induction false} MilvusAllOthers(x: Machine, me: Local, ids: seq<MemoryId>, faults: Faults, c: Consumer)
    requires c != Milvus
    ensures SameFor(x.db, MilvusAll(x, me, ids, faults).db, c)
  {
    hide MilvusOne;
    if ids != [] {
      var n := |ids| - 1;
      MilvusAllOthers(x, me, ids[..n], faults, c);
      MilvusOneOthers(MilvusAll(x, me, ids[..n], faults), me, ids[n], faults(ids[n]), c);
    }
  }

  lemma TickOthers(x: Machine, me: Local, ff: Faults, mf: Faults, c: Consumer)
    requires c != Milvus && c != me.FtsConsumer()
    ensures var y := Tick(x, me, ff, mf);
            PendingIds(y.db, c) == PendingIds(x.db, c)
  {
    hide FtsAll, MilvusAll, Batch, Refused, Claim;
    var x1 := Refresh(x, me);
    FtsAllOthers(x1, me, Batch(x1.db, me.FtsConsumer()), ff, c);
    var x2 := FtsAll(x1, me, Batch(x1.db, me.FtsConsumer()), ff);
    MilvusAllOthers(x2, me, Batch(x2.db, Milvus), mf, c);
    SamePending(x.db, Tick(x, me, ff, mf).db, c);
  }

  lemma TickMeta(x: Machine, me: Local, ff: Faults, mf: Faults)
    ensures Tick(x, me, ff, mf).db.meta == Refresh(x, me).db.meta
  {
    hide FtsAll, MilvusAll, Batch, Refused, Claim;
    var x1 := Refresh(x, me);
    FtsRows(x1, me, Batch(x1.db, me.FtsConsumer()), ff);
    var x2 := FtsAll(x1, me, Batch(x1.db, me.FtsConsumer()), ff);
    MilvusAllOthers(x2, me, Batch(x2.db, Milvus), mf, me.FtsConsumer());
  }

  lemma SamePending(db: Db, db': Db, c: Consumer)
    requires c != Milvus && db'.memories == db.memories && forall id :: Same(db.acks, db'.acks, (c, id))
    ensures PendingIds(db', c) == PendingIds(db, c)
  {}

  // ---- One tick of one of them --------------------------------------------------------------

  /** How many records are pending for a consumer. */
  function Owed(db: Db, c: Consumer): nat { |PendingIds(db, c)| }

  lemma SettledAt(w: World, sv: string, fp: Option<Fingerprint>)
    requires Inv(w) && sv in w.servers && sv in w.files && Admitted(MachineOf(w, sv, true), Local(sv, w.servers[sv], fp))
    ensures var x, me := MachineOf(w, sv, true), Local(sv, w.servers[sv], fp);
            Settled(x, me) && StuckIds(x.db) == {} && DistinctSeqs(x.db)
  {
    hide Inv, Settled, StuckIds, Refused, Claim, Reaches;
    var x, me := MachineOf(w, sv, true), Local(sv, w.servers[sv], fp);
    var v := RefreshRuns(w, sv, fp, true);
    ReachesInv(w, v);
    ReachableSettled(v, sv, fp, true);
    RefreshKeeps(x, me);
    ReachableSeqs(w);
    assert MachineOf(v, sv, true) == Refresh(x, me);
  }

  lemma TickLowers(x: Machine, me: Local, t: Turn)
    requires Settled(x, me) && StuckIds(x.db) == {} && DistinctSeqs(x.db) && Admitted(x, me)
    ensures var y := Tick(x, me, t.OnFile(), t.OnMilvus());
            && y.db.memories == x.db.memories
            && Owed(y.db, Milvus) <= Drained(Owed(x.db, Milvus), if t.calm then 1 else 0)
            && Owed(y.db, me.FtsConsumer()) <= Drained(Owed(x.db, me.FtsConsumer()), if t.calm then 1 else 0)
  {
    hide Settled, PendingIds, StuckIds, Refresh, Tick, Batch, Admitted;
    if t.calm {
      TicksDrain(x, me, 1);
      assert Ticks(x, me, 0) == x && Ticks(x, me, 1) == Tick(x, me, NO_FAULTS, NO_FAULTS);
    } else {
      TickKeeps(x, me, t.ftsFaults, t.milvusFaults);
      var y := Tick(x, me, t.ftsFaults, t.milvusFaults);
      SubsetCount(PendingIds(y.db, Milvus), PendingIds(x.db, Milvus));
      SubsetCount(PendingIds(y.db, me.FtsConsumer()), PendingIds(x.db, me.FtsConsumer()));
    }
  }

  /** The servers of `locals` are in the world as they are there, and no record is locked. */
  ghost predicate Ready(w: World, k: nat, locals: Locals) {
    && Inv(w) && k !in w.workers && w.locks == map[] && Compatible(w.db.meta, locals)
    && forall sv | sv in locals ::
         sv in w.servers && sv in w.files && locals[sv] == Local(sv, w.servers[sv], locals[sv].claimable)
  }

  lemma OneTurn(w: World, k: nat, locals: Locals, t: Turn) returns (v: World)
    requires Ready(w, k, locals) && t.sv in locals
    ensures Reaches(w, v) && Ready(v, k, locals) && Gone(w, v) && v.db.memories == w.db.memories
    ensures FleetOf(v) == TickedBy(FleetOf(w), t, locals[t.sv])
    ensures Owed(v.db, Milvus) <= Drained(Owed(w.db, Milvus), if t.calm then 1 else 0)
    ensures forall sv | sv in locals ::
              Owed(v.db, Consumer.Fts(sv)) <= Drained(Owed(w.db, Consumer.Fts(sv)), if t.calm && t.sv == sv then 1 else 0)
  {
    hide Inv, Settled, StuckIds, DistinctSeqs, Refused, Claim, Reaches, Tick, Compatible, PendingIds;
    var sv, me := t.sv, locals[t.sv];
    var x := MachineOf(w, sv, true);
    AdmittedAt(w, k, locals, sv);
    SettledAt(w, sv, me.claimable);
    v := TickRuns(w, k, sv, me.claimable, true, t.OnFile(), t.OnMilvus());
    TickLowers(x, me, t);
    var y := Tick(x, me, t.OnFile(), t.OnMilvus());
    assert v.files == w.files[sv := y.file];
    CompatibleStays(w.db.meta, locals, sv);
    TickMeta(x, me, t.OnFile(), t.OnMilvus());
    forall h | h in locals && h != sv
      ensures PendingIds(v.db, Consumer.Fts(h)) == PendingIds(w.db, Consumer.Fts(h))
    {
      TickOthers(x, me, t.OnFile(), t.OnMilvus(), Consumer.Fts(h));
    }
  }

  lemma AdmittedAt(w: World, k: nat, locals: Locals, sv: string)
    requires Ready(w, k, locals) && sv in locals
    ensures Admitted(MachineOf(w, sv, true), locals[sv])
  {
    hide Inv;
  }

  // ---- All of them ------------------------------------------------------------------------

  lemma {:induction false} ScheduleRuns(w: World, k: nat, locals: Locals, schedule: seq<Turn>) returns (v: World)
    requires Ready(w, k, locals) && forall t | t in schedule :: t.sv in locals
    ensures Reaches(w, v) && Ready(v, k, locals) && Gone(w, v) && v.db.memories == w.db.memories
    ensures FleetOf(v) == Ticked(FleetOf(w), locals, schedule)
    ensures Owed(v.db, Milvus) <= Drained(Owed(w.db, Milvus), CalmOf(schedule, None))
    ensures forall sv | sv in locals ::
              Owed(v.db, Consumer.Fts(sv)) <= Drained(Owed(w.db, Consumer.Fts(sv)), CalmOf(schedule, Some(sv)))
  {
    hide Reaches, Ready, Owed, TickedBy;
    if schedule == [] {
      v := w;
      ReachesItself(w);
    } else {
      var n := |schedule| - 1;
      var mid := ScheduleRuns(w, k, locals, schedule[..n]);
      v := OneTurn(mid, k, locals, schedule[n]);
      ReachesBoth(w, mid, v);
    }
  }

  /** From any world of any run: however the servers' ticks interleave, and whatever fails in some of them, once
      the calm ticks cover the Milvus batches and each server's own cover its file's, every server sees
      both of its indexes hold exactly the live canonical records. */
  lemma ScheduleConverges(ws: seq<World>, es: seq<Event>, i: nat, k: nat, locals: Locals, schedule: seq<Turn>)
    requires Run(ws, es) && i < |ws| && Ready(ws[i], k, locals) && forall t | t in schedule :: t.sv in locals
    requires Owed(ws[i].db, Milvus) <= CalmOf(schedule, None) * TICK_BATCH
    requires forall sv | sv in locals :: Owed(ws[i].db, Consumer.Fts(sv)) <= CalmOf(schedule, Some(sv)) * TICK_BATCH
    ensures var f := Ticked(FleetOf(ws[i]), locals, schedule);
            && f.db.memories == ws[i].db.memories
            && forall sv | sv in locals :: Synced(SeenBy(f, sv, locals[sv]), locals[sv])
  {
    hide Reaches, Settled, StuckIds, DistinctSeqs, Inv, Compatible, PendingIds, Synced;
    var v := ScheduleRuns(ws[i], k, locals, schedule);
    forall sv | sv in locals ensures Synced(SeenBy(FleetOf(v), sv, locals[sv]), locals[sv]) {
      AdmittedAt(v, k, locals, sv);
      SettledAt(v, sv, locals[sv].claimable);
      assert PendingIds(v.db, Milvus) == {} && PendingIds(v.db, Consumer.Fts(sv)) == {};
      NothingOwed(MachineOf(v, sv, true), locals[sv]);
    }
  }
}
