// Runs of the store with operations interleaved at their two lock points: the change of the map, and
// the later flush of whatever the map then holds (crates/pertisk-daemon/src/store.rs). An edit, such
// as a rename, takes the lock once more before that, to check the name
// (crates/pertisk-daemon/src/service.rs).
module StoreRuns {
  import opened Ids
  import opened Guests
  import opened Store

  // An edit between its check and its write: the name was free for this guest at version `since`.
  datatype Draft = Draft(id: VmId, name: string, since: nat)

  // `versions` lists the map after every change; `written` is the version on disk; `pending` and
  // `returned` give, for each call, the version its own change made; `drafts` are the edits under way.
  datatype Machine = Machine(
    versions: seq<VmMap>,
    disk: VmMap,
    written: nat,
    pending: map<nat, nat>,
    returned: map<nat, nat>,
    writeFailed: bool,
    drafts: map<nat, Draft>)

  ghost predicate WellFormed(m: Machine) {
    m.versions != [] && m.written < |m.versions|
  }

  ghost function Memory(m: Machine): VmMap
    requires WellFormed(m)
  {
    m.versions[|m.versions| - 1]
  }

  ghost predicate Init(m: Machine) {
    m == Machine([m.disk], m.disk, 0, map[], map[], false, map[])
  }

  ghost predicate IsNew(m: Machine, call: nat) {
    call !in m.pending && call !in m.returned && call !in m.drafts
  }

  // name_taken for any guest but this one.
  predicate TakenByOther(vms: VmMap, id: VmId, name: string) {
    exists other <- vms :: other != id && vms[other].spec.name == name
  }

  ghost predicate Changes(m: Machine, m': Machine, call: nat, op: LockOp)
    requires WellFormed(m)
  {
    && IsNew(m, call)
    && Enabled(Memory(m), op)
    && m' == m.(versions := m.versions + [Apply(Memory(m), op)], pending := m.pending[call := |m.versions|])
  }

  // The first half of an edit: the name, its own or a new one, is not another guest's. The guest itself
  // was read before that, and may be gone by now.
  ghost predicate Checks(m: Machine, m': Machine, call: nat, id: VmId, name: string)
    requires WellFormed(m)
  {
    && IsNew(m, call)
    && !TakenByOther(Memory(m), id, name)
    && m' == m.(drafts := m.drafts[call := Draft(id, name, |m.versions| - 1)])
  }

  // The second half: write the record, whatever has happened in between.
  ghost predicate Writes(m: Machine, m': Machine, call: nat, record: VmRecord)
    requires WellFormed(m)
  {
    && call in m.drafts && record.id == m.drafts[call].id && record.spec.name == m.drafts[call].name
    && m' == m.(versions := m.versions + [Apply(Memory(m), Put(record))],
                pending := m.pending[call := |m.versions|], drafts := m.drafts - {call})
  }

  ghost predicate Flushes(m: Machine, m': Machine, call: nat)
    requires WellFormed(m)
  {
    && call in m.pending
    && m' == m.(disk := Memory(m), written := |m.versions| - 1,
                pending := m.pending - {call}, returned := m.returned[call := m.pending[call]])
  }

  ghost predicate FailsToFlush(m: Machine, m': Machine, call: nat) {
    call in m.pending && m' == m.(pending := m.pending - {call}, writeFailed := true)
  }

  ghost predicate Next(m: Machine, m': Machine)
    requires WellFormed(m)
  {
    || (exists call, op :: Changes(m, m', call, op))
    || (exists call, id, name :: Checks(m, m', call, id, name))
    || (exists call, record :: Writes(m, m', call, record))
    || (exists call :: Flushes(m, m', call))
    || (exists call :: FailsToFlush(m, m', call))
  }

  ghost predicate IsRun(run: seq<Machine>) {
    && run != []
    && Init(run[0])
    && (forall i | 0 <= i < |run| :: WellFormed(run[i]))
    && forall i | 0 <= i < |run| - 1 :: Next(run[i], run[i + 1])
  }

  // ---------- Disk and memory ----------

  // Some call has made this version and not yet flushed.
  ghost predicate Owed(m: Machine, version: nat) {
    exists call <- m.pending :: m.pending[call] == version
  }

  ghost predicate Inv(m: Machine) {
    && WellFormed(m)
    && m.disk == m.versions[m.written]
    && (forall call <- m.returned :: m.returned[call] <= m.written)
    && (!m.writeFailed ==> forall v | m.written < v < |m.versions| :: Owed(m, v))
    && (forall call <- m.pending :: m.pending[call] < |m.versions|)
    && (forall call <- m.drafts :: call !in m.pending && m.drafts[call].since < |m.versions|)
  }

  // A change or a write adds a version that its call has yet to flush.
  lemma NewVersionKeepsInv(m: Machine, m': Machine, call: nat)
    requires Inv(m) && call !in m.pending
    requires m'.versions != [] && m'.versions[..|m'.versions| - 1] == m.versions
    requires m' == m.(versions := m'.versions, pending := m.pending[call := |m.versions|],
                      drafts := m.drafts - {call})
    ensures Inv(m')
  {
    assert |m'.versions| == |m.versions| + 1;
    assert m'.versions[m.written] == m'.versions[..|m.versions|][m.written];
    if !m'.writeFailed {
      forall v | m'.written < v < |m'.versions|
        ensures Owed(m', v)
      {
        if v < |m.versions| {
          assert Owed(m, v);
          var c :| c in m.pending && m.pending[c] == v;
          assert m'.pending[c] == v;
        } else {
          assert m'.pending[call] == v;
        }
      }
    }
  }

  lemma FlushKeepsInv(m: Machine, m': Machine, call: nat)
    requires Inv(m) && (Flushes(m, m', call) || FailsToFlush(m, m', call))
    ensures Inv(m')
  {
  }

  lemma ChangeKeepsInv(m: Machine, m': Machine, call: nat, op: LockOp)
    requires Inv(m) && Changes(m, m', call, op)
    ensures Inv(m')
  {
    assert m.drafts - {call} == m.drafts;
    hide Enabled, Apply, Inv;
    NewVersionKeepsInv(m, m', call);
  }

  lemma WriteKeepsInv(m: Machine, m': Machine, call: nat, record: VmRecord)
    requires Inv(m) && Writes(m, m', call, record)
    ensures Inv(m')
  {
    assert call !in m.pending;
    hide Apply, Inv;
    NewVersionKeepsInv(m, m', call);
  }

  lemma CheckKeepsInv(m: Machine, m': Machine, call: nat, id: VmId, name: string)
    requires Inv(m) && Checks(m, m', call, id, name)
    ensures Inv(m')
  {
    assert forall v :: Owed(m, v) ==> Owed(m', v);
  }

  lemma NextKeepsInv(m: Machine, m': Machine)
    requires Inv(m) && Next(m, m')
    ensures Inv(m')
  {
    assert WellFormed(m);
    hide Inv, Changes, Checks, Writes, Flushes, FailsToFlush;
    if call, op :| Changes(m, m', call, op) {
      ChangeKeepsInv(m, m', call, op);
    } else if call, record :| Writes(m, m', call, record) {
      WriteKeepsInv(m, m', call, record);
    } else if call :| Flushes(m, m', call) || FailsToFlush(m, m', call) {
      FlushKeepsInv(m, m', call);
    } else {
      var call, id, name :| Checks(m, m', call, id, name);
      CheckKeepsInv(m, m', call, id, name);
    }
  }

  lemma {:induction false} RunKeepsInv(run: seq<Machine>, i: nat)
    requires IsRun(run) && i < |run|
    ensures Inv(run[i])
  {
    if i > 0 {
      RunKeepsInv(run, i - 1);
      NextKeepsInv(run[i - 1], run[i]);
    }
  }

  // In every interleaving: once a call has returned, the file holds the map as it was at some lock
  // point no earlier than that call's own change.
  lemma DiskIsNotOlderThanReturnedCall(run: seq<Machine>, i: nat, call: nat)
    requires IsRun(run) && i < |run| && call in run[i].returned
    ensures exists v :: run[i].returned[call] <= v < |run[i].versions| && run[i].disk == run[i].versions[v]
  {
    RunKeepsInv(run, i);
    assert run[i].returned[call] <= run[i].written;
  }

  // With no call under way, and no write having failed, file and memory agree.
  lemma QuietStoreIsOnDisk(run: seq<Machine>, i: nat)
    requires IsRun(run) && i < |run| && run[i].pending == map[] && !run[i].writeFailed
    ensures run[i].disk == Memory(run[i])
  {
    RunKeepsInv(run, i);
    var m := run[i];
    assert m.written < |m.versions| - 1 ==> Owed(m, |m.versions| - 1);
  }

  // ---------- Uniqueness, one change at a time ----------

  // Every record sits under its own id, and no two records share a name.
  ghost predicate Unique(vms: VmMap) {
    Keyed(vms) && NamesUnique(vms)
  }

  // The change puts no record under another id, and gives no record a name that another one has.
  ghost predicate Respectful(vms: VmMap, op: LockOp) {
    match op
    case Insert(_, _, _) => true
    case Put(record) => !TakenByOther(vms, record.id, record.spec.name)
    case Patch(id, record) => record.id == id && !TakenByOther(vms, id, record.spec.name)
    case Replace(records) => NamesUnique(ReplaceAll(records))
    case Delete(_) => true
  }

  // An insert takes an id and a name that no live record has, and loses no record.
  lemma InsertIsNew(vms: VmMap, op: LockOp)
    requires op.Insert? && Enabled(vms, op)
    ensures op.record.id !in vms
    ensures forall id <- vms :: vms[id].spec.name != op.record.spec.name
    ensures Apply(vms, op).Keys == vms.Keys + {op.record.id} && forall id <- vms :: Apply(vms, op)[id] == vms[id]
  {
    if op.requested.None? {
      NextIdIsNotLive(vms, op.uuid, op.record.id);
    }
  }

  // One record is stored: the names stay unique exactly when no other record has its name.
  lemma StoringIsUniqueIff(vms: VmMap, id: VmId, record: VmRecord)
    requires Unique(vms)
    ensures Unique(vms[id := record]) <==> record.id == id && !TakenByOther(vms, id, record.spec.name)
  {
    var after := vms[id := record];
    assert id in after && after[id] == record;
    forall other | other in vms && other != id
      ensures other in after && after[other] == vms[other]
      ensures Unique(after) ==> vms[other].spec.name != record.spec.name
    {
    }
  }

  // What any change does to a unique store: it stays unique exactly when the change is respectful.
  lemma ChangeIsUniqueIff(vms: VmMap, op: LockOp)
    requires Unique(vms) && Enabled(vms, op)
    ensures Unique(Apply(vms, op)) <==> Respectful(vms, op)
  {
    hide NamesUnique, Keyed;
    match op
    case Insert(_, _, record) =>
      InsertIsNew(vms, op);
      hide Enabled;
      StoringIsUniqueIff(vms, record.id, record);
    case Put(record) => StoringIsUniqueIff(vms, record.id, record);
    case Patch(id, record) => StoringIsUniqueIff(vms, id, record);
    case Replace(records) => ReplaceAllIsKeyed(records);
    case Delete(id) => DeletingIsUnique(vms, id);
  }

  lemma DeletingIsUnique(vms: VmMap, id: VmId)
    requires Unique(vms)
    ensures Unique(vms - {id})
  {
  }

  // ---------- Uniqueness over runs ----------

  ghost predicate RespectfulStep(m: Machine, m': Machine)
    requires WellFormed(m)
  {
    && (forall call, op | Changes(m, m', call, op) :: Respectful(Memory(m), op))
    && forall call, record | Writes(m, m', call, record) :: Respectful(Memory(m), Put(record))
  }

  lemma ChangeMemory(m: Machine, m': Machine, call: nat, op: LockOp)
    requires WellFormed(m) && Changes(m, m', call, op)
    ensures WellFormed(m') && Memory(m') == Apply(Memory(m), op)
  {
    hide Enabled, Apply;
  }

  lemma WriteMemory(m: Machine, m': Machine, call: nat, record: VmRecord)
    requires WellFormed(m) && Writes(m, m', call, record)
    ensures WellFormed(m') && Memory(m') == Apply(Memory(m), Put(record))
  {
    hide Apply;
  }

  // No other step changes the map.
  lemma QuietMemory(m: Machine, m': Machine)
    requires WellFormed(m)
    requires || (exists call, id, name :: Checks(m, m', call, id, name))
             || (exists call :: Flushes(m, m', call))
             || (exists call :: FailsToFlush(m, m', call))
    ensures WellFormed(m') && Memory(m') == Memory(m)
  {
  }

  lemma StepIsUniqueIff(m: Machine, m': Machine)
    requires WellFormed(m) && Next(m, m') && Unique(Memory(m))
    ensures WellFormed(m') && (Unique(Memory(m')) <==> RespectfulStep(m, m'))
  {
    hide Unique, Respectful, Checks, Flushes, FailsToFlush, Memory, Apply, WellFormed;
    forall call, op | Changes(m, m', call, op)
      ensures WellFormed(m') && (Unique(Memory(m')) <==> Respectful(Memory(m), op))
    {
      ChangeMemory(m, m', call, op);
      ChangeIsUniqueIff(Memory(m), op);
    }
    forall call, record | Writes(m, m', call, record)
      ensures WellFormed(m') && (Unique(Memory(m')) <==> Respectful(Memory(m), Put(record)))
    {
      WriteMemory(m, m', call, record);
      ChangeIsUniqueIff(Memory(m), Put(record));
    }
    hide Changes, Writes;
    if (forall call, op :: !Changes(m, m', call, op)) && (forall call, record :: !Writes(m, m', call, record)) {
      QuietMemory(m, m');
    }
  }

  // In every interleaving: ids and names are unique throughout exactly when every change was
  // respectful at its own lock point.
  lemma {:induction false} RunIsUniqueIff(run: seq<Machine>, n: nat)
    requires IsRun(run) && n < |run| && Unique(run[0].disk)
    ensures (forall i | 0 <= i <= n :: Unique(Memory(run[i])))
       <==> (forall i | 0 <= i < n :: RespectfulStep(run[i], run[i + 1]))
  {
    if n > 0 {
      hide Next, Unique, RespectfulStep, Memory;
      RunIsUniqueIff(run, n - 1);
      if Unique(Memory(run[n - 1])) {
        StepIsUniqueIff(run[n - 1], run[n]);
      }
      assert (forall i | 0 <= i <= n :: Unique(Memory(run[i])))
        <==> (forall i | 0 <= i <= n - 1 :: Unique(Memory(run[i]))) && Unique(Memory(run[n]));
    }
  }

  // ---------- Edits ----------

  // What the service does besides edits: it inserts under the lock, deletes, patches fields other
  // than id and name, and adopts snapshots of unique stores. It stores no record without a check.
  ghost predicate IsPlain(vms: VmMap, op: LockOp) {
    match op
    case Insert(_, _, _) => true
    case Put(_) => false
    case Patch(id, record) => id in vms && record.id == id && record.spec.name == vms[id].spec.name
    case Replace(records) => NamesUnique(ReplaceAll(records))
    case Delete(_) => true
  }

  ghost predicate PlainChange(m: Machine, m': Machine)
    requires WellFormed(m)
  {
    exists call, op :: Changes(m, m', call, op) && IsPlain(Memory(m), op)
  }

  ghost predicate EditNext(m: Machine, m': Machine)
    requires WellFormed(m)
  {
    Next(m, m') && ((exists call, op :: Changes(m, m', call, op)) ==> PlainChange(m, m'))
  }

  ghost predicate IsEditRun(run: seq<Machine>) {
    && IsRun(run)
    && forall i | 0 <= i < |run| - 1 :: EditNext(run[i], run[i + 1])
  }

  lemma PlainIsRespectful(vms: VmMap, op: LockOp)
    requires Unique(vms) && Enabled(vms, op) && IsPlain(vms, op)
    ensures Respectful(vms, op)
  {
  }

  predicate Holds(vms: VmMap, id: VmId, name: string) {
    id in vms && vms[id].spec.name == name
  }

  // At version v the guest came to have this name, and has had it since.
  ghost predicate TookAt(versions: seq<VmMap>, v: nat, id: VmId, name: string) {
    && 0 < v < |versions|
    && !Holds(versions[v - 1], id, name)
    && forall u | v <= u < |versions| :: Holds(versions[u], id, name)
  }

  // Another guest came to have the draft's name after the check, and still has it.
  ghost predicate Overtaken(versions: seq<VmMap>, d: Draft) {
    exists v, other | d.since < v && other != d.id :: TookAt(versions, v, other, d.name)
  }

  lemma {:induction false} LastTake(versions: seq<VmMap>, since: nat, id: VmId, name: string) returns (v: nat)
    requires since < |versions| && !Holds(versions[since], id, name) && Holds(versions[|versions| - 1], id, name)
    ensures since < v && TookAt(versions, v, id, name)
  {
    v := |versions| - 1;
    while Holds(versions[v - 1], id, name)
      invariant since < v < |versions|
      invariant forall u | v <= u < |versions| :: Holds(versions[u], id, name)
      decreases v
    {
      v := v - 1;
    }
  }

  // Between a check that found the name free and the write, that is how the name can be taken.
  lemma TakenIffOvertaken(versions: seq<VmMap>, d: Draft)
    requires d.since < |versions| && !TakenByOther(versions[d.since], d.id, d.name)
    ensures TakenByOther(versions[|versions| - 1], d.id, d.name) <==> Overtaken(versions, d)
  {
    var last := versions[|versions| - 1];
    if TakenByOther(last, d.id, d.name) {
      var other :| other in last && other != d.id && last[other].spec.name == d.name;
      assert !Holds(versions[d.since], other, d.name);
      var v := LastTake(versions, d.since, other, d.name);
    }
    if v, other :| d.since < v && other != d.id && TookAt(versions, v, other, d.name) {
      assert Holds(last, other, d.name);
    }
  }

  // Snapshots aside, only an insert, or the write of another edit, gives a guest a name it did not have.
  lemma PlainTakeIsInsert(vms: VmMap, op: LockOp, id: VmId, name: string)
    requires IsPlain(vms, op) && !op.Replace?
    requires !Holds(vms, id, name) && Holds(Apply(vms, op), id, name)
    ensures op.Insert? && op.record.id == id && op.record.spec.name == name
  {
  }

  // Each draft's check did find the name free.
  ghost predicate DraftsChecked(m: Machine) {
    forall call <- m.drafts ::
      var d := m.drafts[call];
      d.since < |m.versions| && !TakenByOther(m.versions[d.since], d.id, d.name)
  }

  lemma GrowthKeepsDrafts(m: Machine, m': Machine)
    requires DraftsChecked(m) && m.versions <= m'.versions
    requires forall call <- m'.drafts :: call in m.drafts && m'.drafts[call] == m.drafts[call]
    ensures DraftsChecked(m')
  {
    hide TakenByOther;
    forall call | call in m'.drafts
      ensures m'.drafts[call].since < |m.versions|
      ensures m'.versions[m'.drafts[call].since] == m.versions[m'.drafts[call].since]
    {
    }
  }

  lemma CheckKeepsDrafts(m: Machine, m': Machine, call: nat, id: VmId, name: string)
    requires WellFormed(m) && Checks(m, m', call, id, name) && DraftsChecked(m)
    ensures DraftsChecked(m')
  {
    hide TakenByOther;
  }

  lemma ChangeKeepsDrafts(m: Machine, m': Machine, call: nat, op: LockOp)
    requires WellFormed(m) && DraftsChecked(m) && Changes(m, m', call, op)
    ensures DraftsChecked(m')
  {
    hide Enabled, Apply, DraftsChecked, Memory;
    GrowthKeepsDrafts(m, m');
  }

  lemma WriteKeepsDrafts(m: Machine, m': Machine, call: nat, record: VmRecord)
    requires WellFormed(m) && DraftsChecked(m) && Writes(m, m', call, record)
    ensures DraftsChecked(m')
  {
    hide Apply, DraftsChecked, Memory;
    GrowthKeepsDrafts(m, m');
  }

  lemma FlushKeepsDrafts(m: Machine, m': Machine, call: nat)
    requires WellFormed(m) && DraftsChecked(m) && (Flushes(m, m', call) || FailsToFlush(m, m', call))
    ensures DraftsChecked(m')
  {
    hide DraftsChecked, Memory;
    GrowthKeepsDrafts(m, m');
  }

  lemma NextKeepsDrafts(m: Machine, m': Machine)
    requires WellFormed(m) && Next(m, m') && DraftsChecked(m)
    ensures DraftsChecked(m')
  {
    hide DraftsChecked, Checks, Changes, Writes, Flushes, FailsToFlush;
    if call, op :| Changes(m, m', call, op) {
      ChangeKeepsDrafts(m, m', call, op);
    } else if call, record :| Writes(m, m', call, record) {
      WriteKeepsDrafts(m, m', call, record);
    } else if call :| Flushes(m, m', call) || FailsToFlush(m, m', call) {
      FlushKeepsDrafts(m, m', call);
    } else {
      var call, id, name :| Checks(m, m', call, id, name);
      CheckKeepsDrafts(m, m', call, id, name);
    }
  }

  lemma {:induction false} RunKeepsDrafts(run: seq<Machine>, i: nat)
    requires IsRun(run) && i < |run|
    ensures DraftsChecked(run[i])
  {
    if i > 0 {
      hide Next, DraftsChecked;
      RunKeepsDrafts(run, i - 1);
      NextKeepsDrafts(run[i - 1], run[i]);
    }
  }

  ghost predicate WritesInTime(m: Machine, m': Machine)
    requires WellFormed(m)
  {
    forall call, record | Writes(m, m', call, record) :: !Overtaken(m.versions, m.drafts[call])
  }

  lemma PlainChangeIsUnique(m: Machine, m': Machine)
    requires WellFormed(m) && Unique(Memory(m)) && PlainChange(m, m')
    ensures WellFormed(m') && Unique(Memory(m')) && WritesInTime(m, m')
  {
    hide Unique, Apply, IsPlain, Memory, Enabled, Overtaken;
    var call, op :| Changes(m, m', call, op) && IsPlain(Memory(m), op);
    ChangeMemory(m, m', call, op);
    assert Enabled(Memory(m), op);
    PlainIsRespectful(Memory(m), op);
    ChangeIsUniqueIff(Memory(m), op);
    forall c, record
      ensures !Writes(m, m', c, record)
    {
      assert c in m.drafts ==> m'.drafts == m.drafts != m.drafts - {c};
    }
  }

  lemma WriteIsUniqueIff(m: Machine, m': Machine, call: nat, record: VmRecord)
    requires WellFormed(m) && Unique(Memory(m)) && DraftsChecked(m) && Writes(m, m', call, record)
    ensures call in m.drafts
    ensures WellFormed(m') && (Unique(Memory(m')) <==> !Overtaken(m.versions, m.drafts[call]))
  {
    hide Unique, Apply, TakenByOther, Overtaken;
    WriteMemory(m, m', call, record);
    ChangeIsUniqueIff(Memory(m), Put(record));
    TakenIffOvertaken(m.versions, m.drafts[call]);
  }

  lemma EditStepIsUniqueIff(m: Machine, m': Machine)
    requires WellFormed(m) && EditNext(m, m') && Unique(Memory(m)) && DraftsChecked(m)
    ensures WellFormed(m') && (Unique(Memory(m')) <==> WritesInTime(m, m'))
  {
    hide Unique, DraftsChecked, Overtaken, Memory, Checks, Flushes, FailsToFlush, Changes, Writes, WellFormed;
    if PlainChange(m, m') {
      PlainChangeIsUnique(m, m');
    } else {
      forall call, record | Writes(m, m', call, record)
        ensures call in m.drafts
        ensures WellFormed(m') && (Unique(Memory(m')) <==> !Overtaken(m.versions, m.drafts[call]))
      {
        WriteIsUniqueIff(m, m', call, record);
      }
      if forall call, record :: !Writes(m, m', call, record) {
        QuietMemory(m, m');
      }
    }
  }

  ghost predicate UniqueUpTo(run: seq<Machine>, n: nat)
    requires IsRun(run) && n < |run|
  {
    forall i | 0 <= i <= n :: Unique(Memory(run[i]))
  }

  ghost predicate InTimeUpTo(run: seq<Machine>, n: nat)
    requires IsRun(run) && n < |run|
  {
    forall i | 0 <= i < n :: WritesInTime(run[i], run[i + 1])
  }

  lemma OneMore(run: seq<Machine>, n: nat)
    requires IsRun(run) && 0 < n < |run|
    ensures UniqueUpTo(run, n) <==> UniqueUpTo(run, n - 1) && Unique(Memory(run[n]))
    ensures UniqueUpTo(run, n - 1) ==> Unique(Memory(run[n - 1]))
    ensures InTimeUpTo(run, n) <==> InTimeUpTo(run, n - 1) && WritesInTime(run[n - 1], run[n])
  {
    hide Next, Unique, Memory, WritesInTime;
  }

  // In every run of inserts, edits, deletes, patches and snapshots: ids and names are unique
  // throughout exactly when no edit's name was taken, and kept, between its check and its write.
  lemma {:induction false} EditsKeepNamesUniqueIff(run: seq<Machine>, n: nat)
    requires IsEditRun(run) && n < |run| && Unique(run[0].disk)
    ensures UniqueUpTo(run, n) <==> InTimeUpTo(run, n)
  {
    if n > 0 {
      assert IsRun(run) && EditNext(run[n - 1], run[n]);
      hide IsEditRun, IsRun, EditNext, Unique, WritesInTime, DraftsChecked, UniqueUpTo, InTimeUpTo;
      EditsKeepNamesUniqueIff(run, n - 1);
      RunKeepsDrafts(run, n - 1);
      OneMore(run, n);
      if Unique(Memory(run[n - 1])) {
        EditStepIsUniqueIff(run[n - 1], run[n]);
      }
    }
  }

  lemma CheckIsNext(m: Machine, m': Machine, call: nat, id: VmId, name: string)
    requires WellFormed(m) && Checks(m, m', call, id, name)
    ensures EditNext(m, m')
  {
    hide TakenByOther;
  }

  lemma PlainIsNext(m: Machine, m': Machine, call: nat, op: LockOp)
    requires WellFormed(m) && Changes(m, m', call, op) && IsPlain(Memory(m), op)
    ensures EditNext(m, m')
  {
    hide Changes, IsPlain;
  }

  lemma WriteIsNext(m: Machine, m': Machine, call: nat, record: VmRecord)
    requires WellFormed(m) && Writes(m, m', call, record)
    ensures EditNext(m, m')
  {
    forall c, op
      ensures !Changes(m, m', c, op)
    {
      assert call in m.drafts && call !in m'.drafts;
    }
    hide Writes, Changes;
  }

  // An edit checks a name, an insert takes it, the edit writes.
  lemma RaceSteps(disk: VmMap, edited: VmRecord, insert: LockOp) returns (run: seq<Machine>)
    requires edited.id in disk && !TakenByOther(disk, edited.id, edited.spec.name)
    requires insert.Insert? && Enabled(disk, insert)
    ensures IsEditRun(run) && run[0].disk == disk
    ensures Memory(run[|run| - 1]) == disk[insert.record.id := insert.record][edited.id := edited]
  {
    hide Enabled, TakenByOther, EditNext, Next;
    var name := edited.spec.name;
    var m0 := Machine([disk], disk, 0, map[], map[], false, map[]);
    var m1 := m0.(drafts := map[0 := Draft(edited.id, name, 0)]);
    CheckIsNext(m0, m1, 0, edited.id, name);
    var m2 := m1.(versions := m1.versions + [Apply(disk, insert)], pending := map[1 := 1]);
    PlainIsNext(m1, m2, 1, insert);
    var m3 := m2.(versions := m2.versions + [Apply(Memory(m2), Put(edited))], pending := m2.pending[0 := 2],
                  drafts := m2.drafts - {0});
    WriteIsNext(m2, m3, 0, edited);
    run := [m0, m1, m2, m3];
    EditRunOf4(m0, m1, m2, m3);
  }

  lemma EditRunOf4(m0: Machine, m1: Machine, m2: Machine, m3: Machine)
    requires Init(m0) && WellFormed(m1) && WellFormed(m2) && WellFormed(m3)
    requires EditNext(m0, m1) && EditNext(m1, m2) && EditNext(m2, m3)
    ensures IsEditRun([m0, m1, m2, m3])
  {
    hide Next, PlainChange;
  }

  // So from every unique store, editing any guest to any free name can end with two guests of that name.
  lemma RenameRace(disk: VmMap, edited: VmRecord, insert: LockOp) returns (run: seq<Machine>)
    requires Unique(disk) && edited.id in disk && insert.Insert? && Enabled(disk, insert)
    requires insert.record.spec.name == edited.spec.name
    ensures IsEditRun(run) && run[0].disk == disk && !Unique(Memory(run[|run| - 1]))
  {
    InsertIsNew(disk, insert);
    hide Enabled, IsEditRun;
    run := RaceSteps(disk, edited, insert);
    var after := disk[insert.record.id := insert.record][edited.id := edited];
    assert after[edited.id].spec.name == after[insert.record.id].spec.name;
  }
}
