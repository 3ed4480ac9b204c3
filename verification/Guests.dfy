// Guest and volume records (crates/pertisk-types/src/lib.rs).
module Guests {
  import opened Prelude
  import opened Ids
  import opened Scheduler
  import opened Text

  type u8 = x: int | 0 <= x < 0x100

  type VolumeId = nat

  datatype StorageBackend = Replica | Rbd | Zfs

  datatype Snap = Snap(name: string, createdUnix: u64)

  datatype VolumeRecord = VolumeRecord(
    id: VolumeId,
    backend: StorageBackend,
    replicas: seq<NodeId>,
    snapshots: seq<Snap>)

  datatype VmState = Created | Running | Stopped | Failed

  datatype DiskSpec = DiskSpec(volumeId: Option<VolumeId>, cdrom: bool)

  datatype VmSpec = VmSpec(
    name: string,
    vcpus: u8,
    memoryMib: u32,
    disks: seq<DiskSpec>,
    ha: bool,
    group: Option<string>)

  datatype VmRecord = VmRecord(
    id: VmId,
    spec: VmSpec,
    state: VmState,
    nodeId: Option<NodeId>,
    template: bool)

  // A blank group name is no group.
  function PlacementGroup(raw: Option<string>): Option<string> {
    match raw
    case None => None
    case Some(name) => if Trim(name) == "" then None else Some(Trim(name))
  }

  function SpecNeed(spec: VmSpec): Need {
    Need(spec.vcpus, spec.memoryMib)
  }

  // The score of every node that fits a guest that VmSpec::validate lets pass, as every created, edited,
  // cloned or imported one has, is exact: the scheduler compares the loads themselves.
  lemma ValidatedGuestsCompareLoads(spec: VmSpec, a: NodeLoad, b: NodeLoad)
    requires spec.vcpus != 0 && spec.memoryMib >= 64
    requires Fits(a, SpecNeed(spec)) && Fits(b, SpecNeed(spec))
    ensures LoadScore(a) == CpuPermille(a) + MemoryPermille(a) < 9000
    ensures var (x, y) := (CpuPermille(a) + MemoryPermille(a), CpuPermille(b) + MemoryPermille(b));
      KeyLess(LoadKey(a), LoadKey(b)) <==> x < y || (x == y && a.id < b.id)
  {
    hide Fits, CpuPermille, MemoryPermille, LoadScore;
    FittingScoreIsExact(a, SpecNeed(spec));
    ScoreOrdersLoads(a, b, SpecNeed(spec));
  }
}
