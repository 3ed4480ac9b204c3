// The volume pool's snapshot records (crates/pertisk-storage/src/lib.rs) and guest snapshots that
// span several disks (crates/pertisk-daemon/src/service.rs).
module Snapshots {
  import opened Prelude
  import opened Text
  import opened Guests

  datatype StorageError =
    | NoQuorum
    | NameRequired
    | IsTemplate
    | NoDisks
    | NotFound(id: VolumeId)
    | SnapshotExists(name: string)
    | SnapshotNotFound(name: string)
    | IoFailed

  // What the backend, the inventory file and the cluster file make of one call: it works, it fails
  // before the record changes, or it changes the record and then fails.
  datatype Outcome = Works | FailsBefore | FailsAfter

  type Pool = map<VolumeId, VolumeRecord>

  predicate Has(snaps: seq<Snap>, name: string) {
    exists i | 0 <= i < |snaps| :: snaps[i].name == name
  }

  predicate UniqueNames(snaps: seq<Snap>) {
    && (forall i, j | 0 <= i < j < |snaps| :: snaps[i].name != snaps[j].name)
    && forall i | 0 <= i < |snaps| :: snaps[i].name != "" && IsTrimmed(snaps[i].name)
  }

  predicate ValidPool(m: Pool) {
    forall v <- m :: m[v].id == v && UniqueNames(m[v].snapshots)
  }

  // A list without the snapshots of these names.
  function Without(snaps: seq<Snap>, names: set<string>): (r: seq<Snap>) {
    if snaps == [] then []
    else
      var front := Without(snaps[..|snaps| - 1], names);
      if snaps[|snaps| - 1].name in names then front else front + [snaps[|snaps| - 1]]
  }

  lemma {:induction false} WithoutKeepsOthers(snaps: seq<Snap>, names: set<string>, s: Snap)
    ensures s in Without(snaps, names) <==> s in snaps && s.name !in names
  {
    if snaps != [] {
      WithoutKeepsOthers(snaps[..|snaps| - 1], names, s);
    }
  }

  lemma {:induction false} WithoutKeepsUnique(snaps: seq<Snap>, names: set<string>)
    requires UniqueNames(snaps)
    ensures UniqueNames(Without(snaps, names))
  {
    if snaps != [] {
      var front, last := snaps[..|snaps| - 1], snaps[|snaps| - 1];
      WithoutKeepsUnique(front, names);
      forall i | 0 <= i < |Without(front, names)|
        ensures Without(front, names)[i].name != last.name
      {
        WithoutKeepsOthers(front, names, Without(front, names)[i]);
      }
    }
  }

  lemma {:induction false} WithoutTwice(snaps: seq<Snap>, a: set<string>, b: set<string>)
    ensures Without(Without(snaps, a), b) == Without(snaps, a + b)
  {
    if snaps != [] {
      var front, last := snaps[..|snaps| - 1], snaps[|snaps| - 1];
      WithoutTwice(front, a, b);
      assert last.name !in a ==>
          (Without(front, a) + [last])[..|Without(front, a)|] == Without(front, a);
    }
  }

  lemma {:induction false} WithoutAbsent(snaps: seq<Snap>, names: set<string>)
    requires forall i | 0 <= i < |snaps| :: snaps[i].name !in names
    ensures Without(snaps, names) == snaps
  {
    if snaps != [] {
      WithoutAbsent(snaps[..|snaps| - 1], names);
    }
  }

  // Removing the one snapshot of a name.
  lemma {:induction false} RemoveIsWithout(snaps: seq<Snap>, i: nat)
    requires i < |snaps| && UniqueNames(snaps)
    ensures snaps[..i] + snaps[i + 1..] == Without(snaps, {snaps[i].name})
  {
    var front, last := snaps[..|snaps| - 1], snaps[|snaps| - 1];
    if i == |snaps| - 1 {
      WithoutAbsent(front, {last.name});
      assert snaps[i + 1..] == [];
    } else {
      RemoveIsWithout(front, i);
      assert snaps[i + 1..] == front[i + 1..] + [last];
    }
  }

  class VolumePool {
    var volumes: Pool

    ghost predicate Valid()
      reads this
    {
      ValidPool(volumes)
    }

    // VolumePool::snapshot, and note_snapshot for one that QEMU has made.
    method Snapshot(id: VolumeId, rawName: string, now: u64, outcome: Outcome)
      returns (r: Result<VolumeRecord, StorageError>)
      requires Valid()
      modifies this
      ensures Valid()
      ensures volumes == AfterSnapshot(old(volumes), id, Trim(rawName), now, outcome)
      ensures r.Ok? <==> CanSnapshot(old(volumes), id, Trim(rawName)) && outcome.Works?
      ensures r.Ok? ==> id in volumes && r.value == volumes[id] && r.value.id == id
      ensures r.Ok? ==>
        && id in old(volumes) && Trim(rawName) != ""
        && (forall s <- old(volumes)[id].snapshots :: s.name != Trim(rawName))
        && volumes == old(volumes)[id := old(volumes)[id].(snapshots :=
                                         old(volumes)[id].snapshots + [Snap(Trim(rawName), now)])]
      ensures r.Err? ==> r.error == SnapshotFault(old(volumes), id, Trim(rawName))
      ensures Trim(rawName) == "" ==> r == Err(NameRequired)
      ensures Trim(rawName) != "" && id !in old(volumes) ==> r == Err(NotFound(id))
      ensures Trim(rawName) != "" && id in old(volumes)
              && (exists s <- old(volumes)[id].snapshots :: s.name == Trim(rawName)) ==>
                r == Err(SnapshotExists(Trim(rawName)))
    {
      var name := Trim(rawName);
      TrimIsTrimmed(rawName);
      if name == "" {
        return Err(NameRequired);
      }
      if id !in volumes {
        return Err(NotFound(id));
      }
      var record := volumes[id];
      if Has(record.snapshots, name) {
        return Err(SnapshotExists(name));
      }
      if outcome.FailsBefore? {
        return Err(IoFailed);
      }
      record := record.(snapshots := record.snapshots + [Snap(name, now)]);
      volumes := volumes[id := record];
      r := if outcome.Works? then Ok(record) else Err(IoFailed);
    }

    // VolumePool::delete_snapshot, which removes the first record of that name, or forget_snapshot,
    // which removes all of them, for one that QEMU has deleted.
    method Delete(id: VolumeId, rawName: string, forget: bool, outcome: Outcome)
      returns (r: Result<VolumeRecord, StorageError>)
      requires Valid()
      modifies this
      ensures Valid()
      ensures volumes == AfterDelete(old(volumes), id, Trim(rawName), outcome)
      ensures r.Ok? <==> CanDelete(old(volumes), id, Trim(rawName)) && outcome.Works?
      ensures r.Ok? ==> id in old(volumes) && exists i | 0 <= i < |old(volumes)[id].snapshots| ::
        var snaps := old(volumes)[id].snapshots;
        && snaps[i].name == Trim(rawName)
        && volumes == old(volumes)[id := old(volumes)[id].(snapshots := snaps[..i] + snaps[i + 1..])]
      ensures r.Err? ==> r.error == DeleteFault(old(volumes), id, Trim(rawName))
      ensures id !in old(volumes) ==> r == Err(NotFound(id))
      ensures id in old(volumes) && (forall s <- old(volumes)[id].snapshots :: s.name != Trim(rawName)) ==>
                r == Err(SnapshotNotFound(Trim(rawName)))
    {
      var name := Trim(rawName);
      if id !in volumes {
        return Err(NotFound(id));
      }
      var record := volumes[id];
      if !Has(record.snapshots, name) {
        return Err(SnapshotNotFound(name));
      }
      if outcome.FailsBefore? {
        return Err(IoFailed);
      }
      WithoutKeepsUnique(record.snapshots, {name});
      var i := Position(record.snapshots, name);
      RemoveIsWithout(record.snapshots, i);
      if forget {
        record := record.(snapshots := Without(record.snapshots, {name}));
      } else {
        record := record.(snapshots := record.snapshots[..i] + record.snapshots[i + 1..]);
      }
      volumes := volumes[id := record];
      r := if outcome.Works? then Ok(record) else Err(IoFailed);
    }
  }

  function Push(m: Pool, v: VolumeId, s: Snap): Pool
    requires v in m
  {
    m[v := m[v].(snapshots := m[v].snapshots + [s])]
  }

  function Drop(m: Pool, v: VolumeId, name: string): Pool
    requires v in m
  {
    m[v := m[v].(snapshots := Without(m[v].snapshots, {name}))]
  }

  predicate CanSnapshot(m: Pool, v: VolumeId, name: string) {
    name != "" && v in m && !Has(m[v].snapshots, name)
  }

  predicate CanDelete(m: Pool, v: VolumeId, name: string) {
    v in m && Has(m[v].snapshots, name)
  }

  // The error of a call that does not succeed.
  function SnapshotFault(m: Pool, v: VolumeId, name: string): StorageError {
    if name == "" then NameRequired
    else if v !in m then NotFound(v)
    else if Has(m[v].snapshots, name) then SnapshotExists(name)
    else IoFailed
  }

  function DeleteFault(m: Pool, v: VolumeId, name: string): StorageError {
    if v !in m then NotFound(v)
    else if !Has(m[v].snapshots, name) then SnapshotNotFound(name)
    else IoFailed
  }

  function AfterSnapshot(m: Pool, v: VolumeId, name: string, now: u64, outcome: Outcome): Pool {
    if CanSnapshot(m, v, name) && !outcome.FailsBefore? then Push(m, v, Snap(name, now)) else m
  }

  function AfterDelete(m: Pool, v: VolumeId, name: string, outcome: Outcome): Pool {
    if CanDelete(m, v, name) && !outcome.FailsBefore? then Drop(m, v, name) else m
  }

  function Position(snaps: seq<Snap>, name: string): (i: nat)
    requires Has(snaps, name)
    ensures i < |snaps| && snaps[i].name == name && !Has(snaps[..i], name)
  {
    if snaps[0].name == name then 0
    else
      assert snaps == [snaps[0]] + snaps[1..];
      assert Has(snaps[1..], name);
      var k := Position(snaps[1..], name);
      assert snaps[..k + 1] == [snaps[0]] + snaps[1..][..k];
      k + 1
  }

  // ---------- Snapshots of a whole guest ----------

  // The volumes of a guest's disks, CD drives aside.
  function DataVolumes(disks: seq<DiskSpec>): seq<VolumeId> {
    if disks == [] then []
    else
      var rest := DataVolumes(disks[1..]);
      if disks[0].cdrom || disks[0].volumeId.None? then rest else [disks[0].volumeId.value] + rest
  }

  // Some disk that is no CD drive names this volume.
  predicate IsDataVolume(disks: seq<DiskSpec>, v: VolumeId) {
    exists d <- disks :: !d.cdrom && d.volumeId == Some(v)
  }

  // The ids are those of the data disks from the n-th on, in the disks' order; `at` says which disk each
  // one is.
  ghost predicate ListsDataDisks(disks: seq<DiskSpec>, n: nat, ids: seq<VolumeId>, at: seq<nat>) {
    && |at| == |ids|
    && (forall j | 0 <= j < |at| :: at[j] < |disks| && !disks[at[j]].cdrom && disks[at[j]].volumeId == Some(ids[j]))
    && (forall j, k | 0 <= j < k < |at| :: at[j] < at[k])
    && forall i: nat :: i in at <==> n <= i < |disks| && !disks[i].cdrom && disks[i].volumeId.Some?
  }

  lemma {:induction false} DataDisksListed(disks: seq<DiskSpec>, n: nat) returns (at: seq<nat>)
    requires n <= |disks|
    ensures ListsDataDisks(disks, n, DataVolumes(disks[n..]), at)
    decreases |disks| - n
  {
    if n == |disks| {
      at := [];
    } else {
      at := DataDisksListed(disks, n + 1);
      assert disks[n..][1..] == disks[n + 1..];
      if !disks[n].cdrom && disks[n].volumeId.Some? {
        assert forall j | 0 <= j < |at| :: at[j] in at;
        at := [n] + at;
      }
    }
  }

  lemma DataVolumesAre(disks: seq<DiskSpec>) returns (at: seq<nat>)
    ensures ListsDataDisks(disks, 0, DataVolumes(disks), at)
    ensures forall v :: v in DataVolumes(disks) <==> IsDataVolume(disks, v)
  {
    at := DataDisksListed(disks, 0);
    assert disks[0..] == disks;
    hide DataVolumes;
    var ids := DataVolumes(disks);
    forall d | d in disks && !d.cdrom && d.volumeId.Some?
      ensures d.volumeId.value in ids
    {
      var i :| 0 <= i < |disks| && disks[i] == d;
      var j :| 0 <= j < |at| && at[j] == i;
      assert ids[j] == d.volumeId.value;
    }
  }

  predicate Ready(m: Pool, vols: seq<VolumeId>, name: string) {
    forall v <- vols :: v in m && !Has(m[v].snapshots, name)
  }

  predicate AllDistinct(vols: seq<VolumeId>) {
    forall i, j | 0 <= i < j < |vols| :: vols[i] != vols[j]
  }

  // The first step that fails: by itself, or because its volume is listed twice.
  function FirstFailure(vols: seq<VolumeId>, snap: nat -> Outcome, i: nat): (k: nat)
    requires i <= |vols|
    ensures i <= k <= |vols|
    ensures forall j | i <= j < k :: snap(j).Works? && vols[j] !in vols[..j]
    ensures k < |vols| ==> !snap(k).Works? || vols[k] in vols[..k]
    decreases |vols| - i
  {
    if i == |vols| || !snap(i).Works? || vols[i] in vols[..i] then i else FirstFailure(vols, snap, i + 1)
  }

  // The pool with a snapshot of one name, made at these times, added to some volumes.
  function Tagged(m: Pool, marks: map<VolumeId, u64>, name: string): Pool {
    map v | v in m :: if v in marks then Marked(m[v], Snap(name, marks[v])) else m[v]
  }

  function Marked(record: VolumeRecord, s: Snap): VolumeRecord {
    record.(snapshots := record.snapshots + [s])
  }

  // What the first i steps have added.
  function Marks(vols: seq<VolumeId>, clock: nat -> u64, i: nat): map<VolumeId, u64>
    requires i <= |vols|
  {
    if i == 0 then map[] else Marks(vols, clock, i - 1)[vols[i - 1] := clock(i - 1)]
  }

  lemma {:induction false} MarksKeys(vols: seq<VolumeId>, clock: nat -> u64, i: nat)
    requires i <= |vols|
    ensures forall v :: v in Marks(vols, clock, i) <==> v in vols[..i]
  {
    if i > 0 {
      MarksKeys(vols, clock, i - 1);
      assert vols[..i] == vols[..i - 1] + [vols[i - 1]];
    }
  }

  // What is left once the clean-up deletes of the first i steps have been attempted.
  function RolledBack(marks: map<VolumeId, u64>, vols: seq<VolumeId>, undo: nat -> Outcome, i: nat)
    : map<VolumeId, u64>
    requires i <= |vols|
  {
    if i == 0 then marks
    else
      var r := RolledBack(marks, vols, undo, i - 1);
      if undo(i - 1).FailsBefore? then r else r - {vols[i - 1]}
  }

  lemma {:induction false} RolledBackKeys(marks: map<VolumeId, u64>, vols: seq<VolumeId>, undo: nat -> Outcome,
                                          i: nat, v: VolumeId)
    requires i <= |vols|
    ensures v in RolledBack(marks, vols, undo, i)
       <==> v in marks && forall j | 0 <= j < i && vols[j] == v :: undo(j).FailsBefore?
  {
    if i > 0 {
      RolledBackKeys(marks, vols, undo, i - 1, v);
    }
  }

  lemma RolledBackStep(marks: map<VolumeId, u64>, vols: seq<VolumeId>, undo: nat -> Outcome, i: nat)
    requires i < |vols| && AllDistinct(vols) && vols[i] in marks
    ensures vols[i] in RolledBack(marks, vols, undo, i)
    ensures RolledBack(marks, vols, undo, i + 1)
         == (if undo(i).FailsBefore? then RolledBack(marks, vols, undo, i)
             else RolledBack(marks, vols, undo, i) - {vols[i]})
  {
    RolledBackKeys(marks, vols, undo, i, vols[i]);
  }

  lemma RolledBackNone(marks: map<VolumeId, u64>, vols: seq<VolumeId>, undo: nat -> Outcome)
    ensures RolledBack(marks, vols, undo, 0) == marks
  {
  }

  lemma {:induction false} RolledBackPrefix(marks: map<VolumeId, u64>, vols: seq<VolumeId>, undo: nat -> Outcome,
                                            i: nat, k: nat)
    requires i <= k <= |vols|
    ensures RolledBack(marks, vols[..k], undo, i) == RolledBack(marks, vols, undo, i)
  {
    if i > 0 {
      RolledBackPrefix(marks, vols, undo, i - 1, k);
    }
  }

  // What a failure at step k leaves behind.
  function Leftover(vols: seq<VolumeId>, clock: nat -> u64, snap: nat -> Outcome, undo: nat -> Outcome, k: nat)
    : map<VolumeId, u64>
    requires k < |vols|
  {
    RolledBack(AfterStep(vols, clock, snap, k), vols, undo, k)
  }

  function AfterStep(vols: seq<VolumeId>, clock: nat -> u64, snap: nat -> Outcome, k: nat): map<VolumeId, u64>
    requires k < |vols|
  {
    if !snap(k).FailsBefore? && vols[k] !in vols[..k] then Marks(vols, clock, k + 1) else Marks(vols, clock, k)
  }

  lemma TaggedHas(m: Pool, marks: map<VolumeId, u64>, name: string, v: VolumeId)
    requires v in m && !Has(m[v].snapshots, name)
    ensures Has(Tagged(m, marks, name)[v].snapshots, name) <==> v in marks
  {
    var snaps := Tagged(m, marks, name)[v].snapshots;
    assert v in marks ==> snaps[|snaps| - 1].name == name;
  }

  lemma PushTags(m: Pool, marks: map<VolumeId, u64>, name: string, v: VolumeId, t: u64)
    requires v in m && v !in marks
    ensures Push(Tagged(m, marks, name), v, Snap(name, t)) == Tagged(m, marks[v := t], name)
  {
  }

  lemma DropUntags(m: Pool, marks: map<VolumeId, u64>, name: string, v: VolumeId)
    requires v in m && v in marks && !Has(m[v].snapshots, name)
    ensures Drop(Tagged(m, marks, name), v, name) == Tagged(m, marks - {v}, name)
  {
    var snaps := m[v].snapshots;
    var tagged := snaps + [Snap(name, marks[v])];
    WithoutAbsent(snaps, {name});
    assert tagged[..|tagged| - 1] == snaps;
    assert Without(tagged, {name}) == snaps;
  }

  lemma SnapshotTags(m: Pool, marks: map<VolumeId, u64>, name: string, v: VolumeId, t: u64, outcome: Outcome)
    requires v in m && !Has(m[v].snapshots, name) && name != ""
    ensures CanSnapshot(Tagged(m, marks, name), v, name) <==> v !in marks
    ensures AfterSnapshot(Tagged(m, marks, name), v, name, t, outcome)
         == Tagged(m, if v in marks || outcome.FailsBefore? then marks else marks[v := t], name)
  {
    hide Has, Push;
    TaggedHas(m, marks, name, v);
    if v !in marks {
      PushTags(m, marks, name, v, t);
    }
  }

  lemma DeleteUntags(m: Pool, marks: map<VolumeId, u64>, name: string, v: VolumeId, outcome: Outcome)
    requires v in m && !Has(m[v].snapshots, name) && v in marks
    ensures AfterDelete(Tagged(m, marks, name), v, name, outcome)
         == Tagged(m, if outcome.FailsBefore? then marks else marks - {v}, name)
  {
    hide Has, Drop;
    TaggedHas(m, marks, name, v);
    DropUntags(m, marks, name, v);
  }

  lemma StartCase(m: Pool, vols: seq<VolumeId>, clock: nat -> u64, name: string)
    ensures Tagged(m, Marks(vols, clock, 0), name) == m
    ensures AllDistinct(vols[..0])
  {
  }

  // Step i: it goes on with the next one, or it is the first failure.
  lemma StepCases(vols: seq<VolumeId>, clock: nat -> u64, snap: nat -> Outcome, i: nat)
    requires i < |vols| && AllDistinct(vols[..i])
    ensures vols[i] in Marks(vols, clock, i) <==> vols[i] in vols[..i]
    ensures snap(i).Works? && vols[i] !in vols[..i] ==>
              && AllDistinct(vols[..i + 1])
              && FirstFailure(vols, snap, i) == FirstFailure(vols, snap, i + 1)
    ensures !snap(i).Works? || vols[i] in vols[..i] ==> FirstFailure(vols, snap, i) == i
    ensures Marks(vols, clock, i + 1) == Marks(vols, clock, i)[vols[i] := clock(i)]
    ensures forall v <- vols[..i] :: v in AfterStep(vols, clock, snap, i)
    ensures AfterStep(vols, clock, snap, i)
            == if vols[i] in vols[..i] || snap(i).FailsBefore? then Marks(vols, clock, i)
               else Marks(vols, clock, i)[vols[i] := clock(i)]
  {
    MarksKeys(vols, clock, i);
  }

  lemma EndCase(vols: seq<VolumeId>, snap: nat -> Outcome)
    ensures FirstFailure(vols, snap, |vols|) == |vols|
  {
  }

  // The clean-up after a failure: the marked volumes of `done` lose the name again, where it works.
  method RollBack(pool: VolumePool, done: seq<VolumeRecord>, name: string, undo: nat -> Outcome,
                  ghost before: Pool, ghost marks: map<VolumeId, u64>, ghost vols: seq<VolumeId>)
    requires pool.Valid() && pool.volumes == Tagged(before, marks, name)
    requires IsTrimmed(name)
    requires |done| == |vols| && forall j | 0 <= j < |vols| :: done[j].id == vols[j]
    requires AllDistinct(vols) && Ready(before, vols, name) && forall v <- vols :: v in marks
    modifies pool
    ensures pool.Valid()
    ensures pool.volumes == Tagged(before, RolledBack(marks, vols, undo, |vols|), name)
  {
    hide Tagged, Has, AfterDelete, CanDelete, RolledBack, IsTrimmed, Trim, VolumePool.Valid;
    TrimOfTrimmed(name);
    RolledBackNone(marks, vols, undo);
    for j := 0 to |done|
      invariant pool.Valid()
      invariant pool.volumes == Tagged(before, RolledBack(marks, vols, undo, j), name)
    {
      var forget: bool := *;
      assert vols[j] in vols;
      RolledBackStep(marks, vols, undo, j);
      DeleteUntags(before, RolledBack(marks, vols, undo, j), name, vols[j], undo(j));
      var _ := pool.Delete(done[j].id, name, forget, undo(j));
    }
  }

  // Service::create_vm_snapshot on the node that runs the guest, past its checks.
  method SnapshotAll(pool: VolumePool, vols: seq<VolumeId>, name: string,
                     clock: nat -> u64, snap: nat -> Outcome, undo: nat -> Outcome)
    returns (r: Result<seq<VolumeRecord>, StorageError>)
    requires pool.Valid() && name != "" && IsTrimmed(name) && Ready(pool.volumes, vols, name)
    modifies pool
    ensures pool.Valid()
    ensures var k := FirstFailure(vols, snap, 0);
            && (r.Ok? <==> k == |vols|)
            && pool.volumes == Tagged(old(pool.volumes), if k == |vols| then Marks(vols, clock, k)
                                                         else Leftover(vols, clock, snap, undo, k), name)
    ensures r.Ok? ==> |r.value| == |vols|
    ensures r.Ok? ==> forall j | 0 <= j < |vols| :: r.value[j].id == vols[j]
  {
    hide Tagged, Has, AfterSnapshot, CanSnapshot, RolledBack, IsTrimmed, Trim, Marks, FirstFailure, AfterStep;
    hide AllDistinct;
    hide VolumePool.Valid;
    TrimOfTrimmed(name);
    ghost var before := pool.volumes;
    var done: seq<VolumeRecord> := [];
    StartCase(before, vols, clock, name);
    for i := 0 to |vols|
      invariant pool.Valid()
      invariant AllDistinct(vols[..i]) && FirstFailure(vols, snap, 0) == FirstFailure(vols, snap, i)
      invariant |done| == i && forall j | 0 <= j < i :: done[j].id == vols[j]
      invariant pool.volumes == Tagged(before, Marks(vols, clock, i), name)
    {
      assert vols[i] in vols;
      SnapshotTags(before, Marks(vols, clock, i), name, vols[i], clock(i), snap(i));
      StepCases(vols, clock, snap, i);
      var step := pool.Snapshot(vols[i], name, clock(i), snap(i));
      match step {
        case Ok(record) =>
          done := done + [record];
        case Err(error) =>
          RollBack(pool, done, name, undo, before, AfterStep(vols, clock, snap, i), vols[..i]);
          RolledBackPrefix(AfterStep(vols, clock, snap, i), vols, undo, i, i);
          return Err(error);
      }
    }
    EndCase(vols, snap);
    r := Ok(done);
  }

  ghost predicate Admitted(m: Pool, quorum: bool, vm: VmRecord, rawName: string) {
    && quorum && Trim(rawName) != "" && !vm.template
    && DataVolumes(vm.spec.disks) != [] && Ready(m, DataVolumes(vm.spec.disks), Trim(rawName))
  }

  // The call goes ahead exactly with quorum, a name, a guest that is no template and has a data disk,
  // and with every data disk's volume there and without the name.
  lemma AdmittedIff(m: Pool, quorum: bool, vm: VmRecord, rawName: string)
    ensures Admitted(m, quorum, vm, rawName)
       <==> && quorum && Trim(rawName) != "" && !vm.template
            && (exists d <- vm.spec.disks :: !d.cdrom && d.volumeId.Some?)
            && forall d <- vm.spec.disks | !d.cdrom && d.volumeId.Some? ::
                 && d.volumeId.value in m
                 && forall s <- m[d.volumeId.value].snapshots :: s.name != Trim(rawName)
  {
    var disks := vm.spec.disks;
    var vols := DataVolumes(disks);
    var _ := DataVolumesAre(disks);
    hide DataVolumes, Trim;
    if d :| d in disks && !d.cdrom && d.volumeId.Some? {
      assert IsDataVolume(disks, d.volumeId.value);
    }
    if vols != [] {
      assert vols[0] in vols && IsDataVolume(disks, vols[0]);
    }
    forall v | v in vols
      ensures exists d <- disks :: !d.cdrom && d.volumeId == Some(v)
    {
      assert IsDataVolume(disks, v);
    }
    assert forall d <- disks | !d.cdrom && d.volumeId.Some? :: IsDataVolume(disks, d.volumeId.value);
  }

  // The check that stops the call.
  ghost predicate IsRefusal(m: Pool, quorum: bool, vm: VmRecord, rawName: string, error: StorageError) {
    var vols := DataVolumes(vm.spec.disks);
    if !quorum then error == NoQuorum
    else if Trim(rawName) == "" then error == NameRequired
    else if vm.template then error == IsTemplate
    else if vols == [] then error == NoDisks
    else exists c | 0 <= c < |vols| :: IsFirstUnready(m, vols, Trim(rawName), c, error)
  }

  ghost predicate IsFirstUnready(m: Pool, vols: seq<VolumeId>, name: string, c: nat, error: StorageError)
    requires c < |vols|
  {
    && (forall j | 0 <= j < c :: vols[j] in m && !Has(m[vols[j]].snapshots, name))
    && if vols[c] !in m then error == NotFound(vols[c])
       else Has(m[vols[c]].snapshots, name) && error == SnapshotExists(name)
  }

  // What create_vm_snapshot leaves in the pool.
  ghost function AfterVmSnapshot(m: Pool, quorum: bool, vm: VmRecord, rawName: string,
                                 clock: nat -> u64, snap: nat -> Outcome, undo: nat -> Outcome): Pool {
    var vols := DataVolumes(vm.spec.disks);
    var k := FirstFailure(vols, snap, 0);
    if !Admitted(m, quorum, vm, rawName) then m
    else if k == |vols| then Tagged(m, Marks(vols, clock, k), Trim(rawName))
    else Tagged(m, Leftover(vols, clock, snap, undo, k), Trim(rawName))
  }

  // Each volume that some data disk names has gained one snapshot of the name, and nothing else has
  // changed; none of them had the name before.
  ghost predicate IsGuestSnapshot(before: Pool, after: Pool, disks: seq<DiskSpec>, name: string, clock: nat -> u64) {
    && after.Keys == before.Keys
    && (forall d <- disks | !d.cdrom && d.volumeId.Some? :: d.volumeId.value in before)
    && forall v <- before ::
         if exists d <- disks :: !d.cdrom && d.volumeId == Some(v) then
           && (forall s <- before[v].snapshots :: s.name != name)
           && exists j :: after[v] == before[v].(snapshots := before[v].snapshots + [Snap(name, clock(j))])
         else after[v] == before[v]
  }

  lemma TaggedIsGuestSnapshot(m: Pool, disks: seq<DiskSpec>, name: string, clock: nat -> u64)
    requires Ready(m, DataVolumes(disks), name)
    ensures var vols := DataVolumes(disks);
      IsGuestSnapshot(m, Tagged(m, Marks(vols, clock, |vols|), name), disks, name, clock)
  {
    var _ := DataVolumesAre(disks);
    var vols := DataVolumes(disks);
    hide DataVolumes, Marks;
    assert forall d <- disks | !d.cdrom && d.volumeId.Some? :: IsDataVolume(disks, d.volumeId.value);
    forall v | v in m
      ensures v in vols ==> forall s <- m[v].snapshots :: s.name != name
      ensures v in vols ==> exists j ::
        Tagged(m, Marks(vols, clock, |vols|), name)[v]
        == m[v].(snapshots := m[v].snapshots + [Snap(name, clock(j))])
      ensures v !in vols ==> Tagged(m, Marks(vols, clock, |vols|), name)[v] == m[v]
    {
      SuccessTagsEveryDisk(m, vols, name, clock, v);
    }
  }

  method CreateVmSnapshot(pool: VolumePool, quorum: bool, vm: VmRecord, rawName: string,
                          clock: nat -> u64, snap: nat -> Outcome, undo: nat -> Outcome)
    returns (r: Result<seq<VolumeRecord>, StorageError>)
    requires pool.Valid()
    modifies pool
    ensures pool.Valid()
    ensures pool.volumes == AfterVmSnapshot(old(pool.volumes), quorum, vm, rawName, clock, snap, undo)
    ensures r.Ok? <==> && Admitted(old(pool.volumes), quorum, vm, rawName)
                       && FirstFailure(DataVolumes(vm.spec.disks), snap, 0) == |DataVolumes(vm.spec.disks)|
    ensures r.Err? && !Admitted(old(pool.volumes), quorum, vm, rawName) ==>
              IsRefusal(old(pool.volumes), quorum, vm, rawName, r.error)
    ensures r.Ok? ==> exists ids, at ::
              && ListsDataDisks(vm.spec.disks, 0, ids, at)
              && |r.value| == |ids| && forall j | 0 <= j < |ids| :: r.value[j].id == ids[j]
    ensures r.Ok? ==> IsGuestSnapshot(old(pool.volumes), pool.volumes, vm.spec.disks, Trim(rawName), clock)
  {
    hide Tagged, Has, Trim, IsTrimmed, Marks, FirstFailure, Leftover, DataVolumes, VolumePool.Valid;
    if !quorum {
      return Err(NoQuorum);
    }
    var name := Trim(rawName);
    TrimIsTrimmed(rawName);
    if name == "" {
      return Err(NameRequired);
    }
    if vm.template {
      return Err(IsTemplate);
    }
    var vols := DataVolumes(vm.spec.disks);
    if vols == [] {
      return Err(NoDisks);
    }
    for c := 0 to |vols|
      invariant forall j | 0 <= j < c :: vols[j] in pool.volumes && !Has(pool.volumes[vols[j]].snapshots, name)
    {
      if vols[c] !in pool.volumes {
        assert IsFirstUnready(pool.volumes, vols, name, c, NotFound(vols[c]));
        return Err(NotFound(vols[c]));
      }
      if Has(pool.volumes[vols[c]].snapshots, name) {
        assert IsFirstUnready(pool.volumes, vols, name, c, SnapshotExists(name));
        return Err(SnapshotExists(name));
      }
    }
    ghost var at := DataVolumesAre(vm.spec.disks);
    TaggedIsGuestSnapshot(pool.volumes, vm.spec.disks, name, clock);
    r := SnapshotAll(pool, vols, name, clock, snap, undo);
  }

  // Success reaches every data disk, and no other volume.
  lemma SuccessTagsEveryDisk(m: Pool, vols: seq<VolumeId>, name: string, clock: nat -> u64, v: VolumeId)
    requires Ready(m, vols, name) && v in m
    ensures var after := Tagged(m, Marks(vols, clock, |vols|), name);
            && v in after
            && (v in vols ==> exists j | 0 <= j < |vols| ::
                  vols[j] == v && after[v] == Marked(m[v], Snap(name, clock(j))))
            && (v !in vols ==> after[v] == m[v])
  {
    MarksKeys(vols, clock, |vols|);
    assert vols[..|vols|] == vols;
    if v in vols {
      MarkIsAStep(vols, clock, |vols|, v);
    }
  }

  lemma {:induction false} MarkIsAStep(vols: seq<VolumeId>, clock: nat -> u64, i: nat, v: VolumeId)
    requires i <= |vols| && v in Marks(vols, clock, i)
    ensures exists j | 0 <= j < i :: vols[j] == v && Marks(vols, clock, i)[v] == clock(j)
  {
    if vols[i - 1] != v {
      MarkIsAStep(vols, clock, i - 1, v);
    }
  }

  lemma AfterStepKeys(vols: seq<VolumeId>, clock: nat -> u64, snap: nat -> Outcome, k: nat, v: VolumeId)
    requires k < |vols|
    ensures v in AfterStep(vols, clock, snap, k)
       <==> v in vols[..k] || (v == vols[k] && !snap(k).FailsBefore?)
  {
    hide Marks;
    MarksKeys(vols, clock, k);
    MarksKeys(vols, clock, k + 1);
    assert vols[..k + 1] == vols[..k] + [vols[k]];
  }

  lemma DistinctBeforeFailure(vols: seq<VolumeId>, snap: nat -> Outcome)
    ensures AllDistinct(vols[..FirstFailure(vols, snap, 0)])
  {
    var k := FirstFailure(vols, snap, 0);
    assert forall i, j | 0 <= i < j < k :: vols[i] == vols[..j][i];
  }

  lemma LeftoverAt(vols: seq<VolumeId>, clock: nat -> u64, snap: nat -> Outcome, undo: nat -> Outcome,
                   k: nat, v: VolumeId)
    requires k < |vols| && AllDistinct(vols[..k]) && (!snap(k).Works? || vols[k] in vols[..k])
    ensures v in Leftover(vols, clock, snap, undo, k)
            <==> || (exists j | 0 <= j < k :: vols[j] == v && undo(j).FailsBefore?)
                 || (v == vols[k] && snap(k).FailsAfter? && v !in vols[..k])
  {
    hide RolledBack, AfterStep;
    var early := vols[..k];
    AfterStepKeys(vols, clock, snap, k, v);
    RolledBackKeys(AfterStep(vols, clock, snap, k), vols, undo, k, v);
    if v in early {
      var i :| 0 <= i < k && early[i] == v;
      assert forall j | 0 <= j < k && vols[j] == v :: early[j] == early[i];
    }
  }

  // The volumes that still carry the name after a failure at step k.
  lemma LeftoverIs(vols: seq<VolumeId>, clock: nat -> u64, snap: nat -> Outcome, undo: nat -> Outcome, v: VolumeId)
    requires FirstFailure(vols, snap, 0) < |vols|
    ensures var k := FirstFailure(vols, snap, 0);
            v in Leftover(vols, clock, snap, undo, k)
            <==> || (exists j | 0 <= j < k :: vols[j] == v && undo(j).FailsBefore?)
                 || (v == vols[k] && snap(k).FailsAfter? && v !in vols[..k])
  {
    hide Leftover, AllDistinct;
    DistinctBeforeFailure(vols, snap);
    LeftoverAt(vols, clock, snap, undo, FirstFailure(vols, snap, 0), v);
  }

  // A failed guest snapshot leaves the pool as it was exactly when the step that failed had recorded
  // nothing and every clean-up delete took effect.
  lemma FailureRestoresPoolIff(m: Pool, vols: seq<VolumeId>, name: string, clock: nat -> u64,
                               snap: nat -> Outcome, undo: nat -> Outcome)
    requires Ready(m, vols, name) && FirstFailure(vols, snap, 0) < |vols|
    ensures var k := FirstFailure(vols, snap, 0);
            Tagged(m, Leftover(vols, clock, snap, undo, k), name) == m
            <==> && (snap(k).FailsAfter? ==> vols[k] in vols[..k])
                 && forall j | 0 <= j < k :: !undo(j).FailsBefore?
  {
    hide Leftover, FirstFailure, Has;
    var k := FirstFailure(vols, snap, 0);
    var left := Leftover(vols, clock, snap, undo, k);
    LeftoverIs(vols, clock, snap, undo, vols[k]);
    forall v | v in m
      ensures v in left ==> Tagged(m, left, name)[v] != m[v]
    {
      assert v in left ==> |Tagged(m, left, name)[v].snapshots| == |m[v].snapshots| + 1;
    }
    forall j | 0 <= j < k
      ensures undo(j).FailsBefore? ==> vols[j] in left
    {
      LeftoverIs(vols, clock, snap, undo, vols[j]);
    }
    if left != map[] {
      var v :| v in left;
      LeftoverIs(vols, clock, snap, undo, v);
    }
  }
}
