// The guest store: a map under a lock, rewritten to disk by a separately locked flush
// (crates/pertisk-daemon/src/store.rs).
module Store {
  import opened Prelude
  import opened Ids
  import opened Guests

  type VmMap = map<VmId, VmRecord>

  datatype StoreError = NameTaken(name: string) | IdTaken(id: VmId) | NotFound(id: VmId) | Io

  const FIRST_ID: u64 := 100
  const LAST_ID: u64 := 9_999_999_999

  // ---------- Ids ----------

  ghost predicate IsFree(vms: VmMap, n: int) {
    FIRST_ID <= n <= LAST_ID && Numeric(n) !in vms
  }

  // The least free number in range while there is one, else a new UUID.
  ghost predicate IsNextId(vms: VmMap, uuid: nat, id: VmId) {
    if exists n :: IsFree(vms, n) then
      id.Numeric? && IsFree(vms, id.n) && forall m | IsFree(vms, m) :: id.n <= m
    else id == Legacy(uuid)
  }

  // next_numeric_locked; `uuid` is the UUID it would generate.
  method NextNumeric(vms: VmMap, uuid: nat) returns (id: VmId)
    ensures IsNextId(vms, uuid, id)
    ensures match id
      case Numeric(n) =>
        100 <= n <= 9_999_999_999 && id !in vms && forall m: u64 | 100 <= m < n :: Numeric(m) in vms
      case Legacy(u) => u == uuid && forall m: u64 | 100 <= m <= 9_999_999_999 :: Numeric(m) in vms
  {
    var n: u64 := FIRST_ID;
    while Numeric(n) in vms
      invariant FIRST_ID <= n <= LAST_ID
      invariant forall m: u64 | 100 <= m < n :: Numeric(m) in vms
      decreases LAST_ID - n
    {
      n := n + 1;
      if n > LAST_ID {
        return Legacy(uuid);
      }
    }
    assert IsFree(vms, n);
    return Numeric(n);
  }

  // ---------- What each operation does under the lock ----------

  predicate NameUsed(vms: VmMap, name: string) {
    exists id <- vms :: vms[id].spec.name == name
  }

  function ReplaceAll(records: seq<VmRecord>): VmMap {
    if records == [] then map[]
    else
      var last := records[|records| - 1];
      ReplaceAll(records[..|records| - 1])[last.id := last]
  }

  lemma ReplaceAllGrows(records: seq<VmRecord>, r: VmRecord)
    ensures ReplaceAll(records + [r]) == ReplaceAll(records)[r.id := r]
  {
    assert (records + [r])[..|records|] == records;
  }

  // Of the records of one id the last one counts.
  lemma {:induction false} ReplaceAllIs(records: seq<VmRecord>, id: VmId)
    ensures id in ReplaceAll(records) <==> exists r <- records :: r.id == id
    ensures id in ReplaceAll(records) ==> exists i | 0 <= i < |records| ::
      && records[i].id == id && ReplaceAll(records)[id] == records[i]
      && forall j | i < j < |records| :: records[j].id != id
  {
    if records != [] {
      var front, last := records[..|records| - 1], records[|records| - 1];
      ReplaceAllIs(front, id);
      assert records == front + [last];
    }
  }

  lemma ReplaceNone(vms: VmMap)
    ensures ReplaceAll([]) == map[] == Restrict(vms, {})
  {
  }

  // The records of some ids, and no others.
  ghost predicate Lists(vms: VmMap, ids: set<VmId>, records: seq<VmRecord>)
    requires ids <= vms.Keys
  {
    forall r :: r in records <==> exists id <- ids :: vms[id] == r
  }

  lemma ListsGrows(vms: VmMap, ids: set<VmId>, records: seq<VmRecord>, id: VmId)
    requires ids <= vms.Keys && id in vms && Lists(vms, ids, records)
    ensures Lists(vms, ids + {id}, records + [vms[id]])
  {
  }

  lemma ListsNone(vms: VmMap)
    ensures Lists(vms, {}, [])
  {
  }

  ghost predicate Keyed(vms: VmMap) {
    forall id <- vms :: vms[id].id == id
  }

  lemma KeyedAt(vms: VmMap, id: VmId)
    requires id in vms
    ensures Keyed(vms) ==> vms[id].id == id
  {
  }

  ghost predicate NamesUnique(vms: VmMap) {
    forall a <- vms, b <- vms | vms[a].spec.name == vms[b].spec.name :: a == b
  }

  // The id an insert uses: the requested one if it is not taken, else the next automatic one.
  ghost predicate Chosen(vms: VmMap, requested: Option<VmId>, uuid: nat, id: VmId) {
    if requested.Some? then id == requested.value && id !in vms else IsNextId(vms, uuid, id)
  }

  // What an operation does to the map while it holds the lock.
  datatype LockOp =
    | Insert(requested: Option<VmId>, uuid: nat, record: VmRecord)
    | Put(record: VmRecord)
    | Patch(id: VmId, record: VmRecord)
    | Replace(records: seq<VmRecord>)
    | Delete(id: VmId)

  // Whether it passes its checks. A generated UUID is taken to be new.
  ghost predicate Enabled(vms: VmMap, op: LockOp) {
    match op
    case Insert(requested, uuid, record) =>
      !NameUsed(vms, record.spec.name) && Chosen(vms, requested, uuid, record.id) && Legacy(uuid) !in vms
    case Put(_) => true
    case Patch(id, _) => id in vms
    case Replace(_) => true
    case Delete(id) => id in vms
  }

  function Apply(vms: VmMap, op: LockOp): VmMap {
    match op
    case Insert(_, _, record) => vms[record.id := record]
    case Put(record) => vms[record.id := record]
    case Patch(id, record) => vms[id := record]
    case Replace(records) => ReplaceAll(records)
    case Delete(id) => vms - {id}
  }

  // How callers build a record: with the id they are given and the name they asked for.
  ghost predicate Builds(build: VmId -> VmRecord, name: string) {
    forall id :: build(id).id == id && build(id).spec.name == name
  }

  class Store {
    var vms: VmMap
    var disk: VmMap

    constructor ()
      ensures vms == map[] && disk == map[]
    {
      vms, disk := map[], map[];
    }

    // list: every record once.
    method List() returns (records: seq<VmRecord>)
      ensures Lists(vms, vms.Keys, records)
      ensures |records| == |vms|
      ensures Keyed(vms) ==> ReplaceAll(records) == vms
    {
      hide ReplaceAll, Restrict, Lists, Keyed;
      records := [];
      ReplaceNone(vms);
      ListsNone(vms);
      var done, left := {}, vms.Keys;
      while left != {}
        invariant done + left == vms.Keys && done !! left
        invariant |records| == |done|
        invariant Lists(vms, done, records)
        invariant Keyed(vms) ==> ReplaceAll(records) == Restrict(vms, done)
        decreases |left|
      {
        var id :| id in left;
        RestrictGrows(vms, done, id);
        ReplaceAllGrows(records, vms[id]);
        KeyedAt(vms, id);
        ListsGrows(vms, done, records, id);
        records := records + [vms[id]];
        done, left := done + {id}, left - {id};
      }
      RestrictAll(vms);
    }

    // flush: writes whatever the map holds now; `io` says whether the write succeeds.
    method Flush(io: bool) returns (r: Result<(), StoreError>)
      modifies this`disk
      ensures disk == if io then vms else old(disk)
      ensures r == if io then Ok(()) else Err(Io)
    {
      if !io {
        return Err(Io);
      }
      disk := vms;
      return Ok(());
    }

    method Upsert(record: VmRecord, io: bool) returns (r: Result<(), StoreError>)
      modifies this
      ensures vms == Apply(old(vms), Put(record)) == old(vms)[record.id := record]
      ensures r.Ok? <==> io
      ensures disk == if io then vms else old(disk)
    {
      vms := vms[record.id := record];
      r := Flush(io);
    }

    // Allocates an id and checks id and name under one lock. `build` makes the record.
    method InsertUnique(requested: Option<VmId>, name: string, build: VmId -> VmRecord, uuid: nat, io: bool)
      returns (r: Result<VmRecord, StoreError>)
      modifies this
      ensures r == Err(NameTaken(name)) <==> NameUsed(old(vms), name)
      ensures r == Err(NameTaken(name)) <==> exists id <- old(vms) :: old(vms)[id].spec.name == name
      ensures !NameUsed(old(vms), name) ==>
        forall id :: r == Err(IdTaken(id)) <==> requested == Some(id) && id in old(vms)
      ensures r.Err? && r.error != Io ==> vms == old(vms) && disk == old(disk)
      ensures (r.Ok? || r.error == Io) && requested.Some? ==>
        requested.value !in old(vms) && vms == old(vms)[requested.value := build(requested.value)]
      ensures (r.Ok? || r.error == Io) && requested.None? ==>
        exists id :: IsNextId(old(vms), uuid, id) && vms == old(vms)[id := build(id)]
      ensures !NameUsed(old(vms), name) && (requested.Some? ==> requested.value !in old(vms)) ==>
        && (exists id | Chosen(old(vms), requested, uuid, id) ::
              vms == old(vms)[id := build(id)] && r == if io then Ok(build(id)) else Err(Io))
        && disk == (if io then vms else old(disk))
      ensures Builds(build, name) && Legacy(uuid) !in old(vms) && (r.Ok? || r.error == Io) ==>
        exists id ::
          var op := Insert(requested, uuid, build(id));
          Enabled(old(vms), op) && vms == Apply(old(vms), op)
    {
      if exists id <- vms :: vms[id].spec.name == name {
        return Err(NameTaken(name));
      }
      var id;
      if requested.Some? {
        id := requested.value;
        if id in vms {
          return Err(IdTaken(id));
        }
      } else {
        id := NextNumeric(vms, uuid);
      }
      assert Chosen(vms, requested, uuid, id);
      var record := build(id);
      vms := vms[id := record];
      var flushed := Flush(io);
      r := if flushed.Ok? then Ok(record) else Err(Io);
    }

    // Patches a live record in place.
    method Update(id: VmId, patch: VmRecord -> VmRecord, io: bool) returns (r: Result<VmRecord, StoreError>)
      modifies this
      ensures id !in old(vms) ==> r == Err(NotFound(id)) && vms == old(vms) && disk == old(disk)
      ensures id in old(vms) ==>
        && Enabled(old(vms), Patch(id, patch(old(vms)[id])))
        && vms == Apply(old(vms), Patch(id, patch(old(vms)[id]))) == old(vms)[id := patch(old(vms)[id])]
        && disk == (if io then vms else old(disk))
        && r == if io then Ok(vms[id]) else Err(Io)
    {
      if id !in vms {
        return Err(NotFound(id));
      }
      vms := vms[id := patch(vms[id])];
      var record := vms[id];
      var flushed := Flush(io);
      r := if flushed.Ok? then Ok(record) else Err(Io);
    }

    method ReplaceWith(records: seq<VmRecord>, io: bool) returns (r: Result<(), StoreError>)
      modifies this
      ensures vms == Apply(old(vms), Replace(records)) == ReplaceAll(records)
      ensures r.Ok? <==> io
      ensures disk == if io then vms else old(disk)
    {
      vms := map[];
      for i := 0 to |records|
        invariant vms == ReplaceAll(records[..i])
        invariant disk == old(disk)
      {
        assert records[..i + 1] == records[..i] + [records[i]];
        ReplaceAllGrows(records[..i], records[i]);
        vms := vms[records[i].id := records[i]];
      }
      assert records[..|records|] == records;
      r := Flush(io);
    }

    method Remove(id: VmId, io: bool) returns (r: Result<VmRecord, StoreError>)
      modifies this
      ensures id !in old(vms) ==> r == Err(NotFound(id)) && vms == old(vms) && disk == old(disk)
      ensures id in old(vms) ==>
        && Enabled(old(vms), Delete(id))
        && vms == Apply(old(vms), Delete(id)) == old(vms) - {id}
        && disk == (if io then vms else old(disk))
        && r == if io then Ok(old(vms)[id]) else Err(Io)
    {
      if id !in vms {
        return Err(NotFound(id));
      }
      var record := vms[id];
      vms := vms - {id};
      var flushed := Flush(io);
      r := if flushed.Ok? then Ok(record) else Err(Io);
    }
  }

  // An automatic id is never live: a number is free, and a new UUID is new.
  lemma NextIdIsNotLive(vms: VmMap, uuid: nat, id: VmId)
    requires IsNextId(vms, uuid, id) && Legacy(uuid) !in vms
    ensures id !in vms
  {
    if exists n :: IsFree(vms, n) {
    } else {
    }
  }

  lemma ReplaceAllIsKeyed(records: seq<VmRecord>)
    ensures Keyed(ReplaceAll(records))
  {
  }
}
