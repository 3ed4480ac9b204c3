// Retention of scheduled snapshots (crates/pertisk-daemon/src/service.rs).
module Retention {
  import opened Prelude
  import opened Text
  import opened Guests
  import opened Snapshots

  predicate IsScheduled(name: string) {
    "sched-" <= name
  }

  function Scheduled(snaps: seq<Snap>): seq<Snap> {
    if snaps == [] then []
    else
      var front := Scheduled(snaps[..|snaps| - 1]);
      if IsScheduled(snaps[|snaps| - 1].name) then front + [snaps[|snaps| - 1]] else front
  }

  // The scheduled snapshots on these volumes, disk by disk.
  function OnDisks(m: Pool, vols: seq<VolumeId>): seq<Snap>
    requires forall v <- vols :: v in m
  {
    if vols == [] then []
    else OnDisks(m, vols[..|vols| - 1]) + Scheduled(m[vols[|vols| - 1]].snapshots)
  }

  // ---------- Which names stay ----------

  // The newest creation of its name.
  predicate IsLatest(snaps: seq<Snap>, s: Snap) {
    s in snaps && forall t <- snaps | t.name == s.name :: t.createdUnix <= s.createdUnix
  }

  function Latest(snaps: seq<Snap>): set<Snap> {
    set s <- snaps | IsLatest(snaps, s)
  }

  // Newest first; of two made at the same time, the greater name first.
  predicate Newer(a: Snap, b: Snap) {
    a.createdUnix > b.createdUnix || (a.createdUnix == b.createdUnix && StringLess(b.name, a.name))
  }

  function Ahead(all: set<Snap>, s: Snap): set<Snap> {
    set t <- all | Newer(t, s)
  }

  // The k newest names, each at its latest creation.
  function Kept(snaps: seq<Snap>, k: nat): set<Snap> {
    set s <- Latest(snaps) | |Ahead(Latest(snaps), s)| < k
  }

  function NamesOf(snaps: set<Snap>): set<string> {
    set s <- snaps :: s.name
  }

  function Dropped(snaps: seq<Snap>, k: nat): set<string> {
    NamesOf(Latest(snaps) - Kept(snaps, k))
  }

  // The pool without these names on these volumes.
  function Pruned(m: Pool, vols: seq<VolumeId>, names: set<string>): Pool {
    map v | v in m :: if v in vols then m[v].(snapshots := Without(m[v].snapshots, names)) else m[v]
  }

  // Nothing but snapshots of these names, on these volumes, is gone.
  predicate OnlyLost(a: Pool, b: Pool, vols: seq<VolumeId>, names: set<string>) {
    && a.Keys == b.Keys
    && forall v <- a ::
         && b[v] == a[v].(snapshots := b[v].snapshots)
         && Without(b[v].snapshots, names) == Without(a[v].snapshots, names)
         && (forall s <- b[v].snapshots :: s in a[v].snapshots)
         && (v !in vols ==> b[v] == a[v])
  }

  lemma PrunedOnlyLoses(m: Pool, vols: seq<VolumeId>, names: set<string>)
    ensures OnlyLost(m, Pruned(m, vols, names), vols, names)
  {
    forall v | v in m
      ensures Without(Pruned(m, vols, names)[v].snapshots, names) == Without(m[v].snapshots, names)
      ensures forall s <- Pruned(m, vols, names)[v].snapshots :: s in m[v].snapshots
    {
      forall s
        ensures s in Without(m[v].snapshots, names) ==> s in m[v].snapshots
      {
        WithoutKeepsOthers(m[v].snapshots, names, s);
      }
      WithoutTwice(m[v].snapshots, names, names);
      assert names + names == names;
    }
  }

  lemma OnlyLostChain(a: Pool, b: Pool, c: Pool, vols: seq<VolumeId>, few: set<string>, more: set<string>,
                      names: set<string>)
    requires OnlyLost(a, b, vols, few) && OnlyLost(b, c, vols, more) && few <= names && more <= names
    ensures OnlyLost(a, c, vols, names)
  {
    assert few + names == names && more + names == names;
    forall v | v in a
      ensures Without(c[v].snapshots, names) == Without(a[v].snapshots, names)
    {
      WithoutTwice(a[v].snapshots, few, names);
      WithoutTwice(b[v].snapshots, few, names);
      WithoutTwice(b[v].snapshots, more, names);
      WithoutTwice(c[v].snapshots, more, names);
    }
  }

  lemma PrunedTwice(m: Pool, vols: seq<VolumeId>, a: set<string>, b: set<string>)
    ensures Pruned(Pruned(m, vols, a), vols, b) == Pruned(m, vols, a + b)
  {
    forall v | v in m
      ensures Without(Without(m[v].snapshots, a), b) == Without(m[v].snapshots, a + b)
    {
      WithoutTwice(m[v].snapshots, a, b);
    }
  }

  lemma {:induction false} WithoutNone(snaps: seq<Snap>)
    ensures Without(snaps, {}) == snaps
  {
    WithoutAbsent(snaps, {});
  }

  lemma PrunedNone(m: Pool, vols: seq<VolumeId>, names: set<string>)
    requires vols == [] || names == {}
    ensures Pruned(m, vols, names) == m
  {
    forall v | v in m
      ensures vols != [] ==> Without(m[v].snapshots, names) == m[v].snapshots
    {
      if vols != [] {
        WithoutNone(m[v].snapshots);
      }
    }
  }

  // One more disk: its snapshot of that name goes, if it has one.
  lemma PrunedStep(m: Pool, vols: seq<VolumeId>, j: nat, name: string)
    requires j < |vols| && vols[j] in m
    ensures var before := Pruned(m, vols[..j], {name});
            && vols[j] in before
            && Pruned(m, vols[..j + 1], {name})
               == if CanDelete(before, vols[j], name) then Drop(before, vols[j], name) else before
  {
    var v := vols[j];
    var before := Pruned(m, vols[..j], {name});
    assert vols[..j + 1] == vols[..j] + [v];
    WithoutTwice(m[v].snapshots, {name}, {name});
    assert {name} + {name} == {name};
    if !Has(before[v].snapshots, name) {
      WithoutAbsent(before[v].snapshots, {name});
    }
    hide Without, Has;
  }

  // Service::delete_named_snapshot.
  method DeleteNamedSnapshot(pool: VolumePool, vols: seq<VolumeId>, name: string, fate: nat -> Outcome)
    returns (r: Result<(), StorageError>)
    requires pool.Valid() && IsTrimmed(name)
    modifies pool
    ensures pool.Valid()
    ensures r.Ok? ==> pool.volumes == Pruned(old(pool.volumes), vols, {name})
    ensures r.Err? ==> OnlyLost(old(pool.volumes), pool.volumes, vols, {name})
    ensures r.Ok? <== (forall v <- vols :: v in old(pool.volumes)) && forall j: nat :: fate(j).Works?
  {
    hide Pruned, OnlyLost, Has, Trim, IsTrimmed, VolumePool.Valid, Drop;
    TrimOfTrimmed(name);
    ghost var before := pool.volumes;
    PrunedNone(before, vols[..0], {name});
    for j := 0 to |vols|
      invariant pool.Valid()
      invariant pool.volumes == Pruned(before, vols[..j], {name})
    {
      PrunedOnlyLoses(before, vols[..j], {name});
      PrefixLoses(before, pool.volumes, vols, j, {name});
      if vols[j] !in pool.volumes {
        PrunedKeys(before, vols[..j], {name});
        return Err(NotFound(vols[j]));
      }
      PrunedKeys(before, vols[..j], {name});
      PrunedStep(before, vols, j, name);
      PrunedOnlyLoses(before, vols[..j + 1], {name});
      PrefixLoses(before, Pruned(before, vols[..j + 1], {name}), vols, j + 1, {name});
      if !Has(pool.volumes[vols[j]].snapshots, name) {
        continue;
      }
      var forget: bool := *;
      var deleted := pool.Delete(vols[j], name, forget, fate(j));
      if deleted.Err? {
        return Err(deleted.error);
      }
    }
    assert vols[..|vols|] == vols;
    r := Ok(());
  }

  lemma PrunedKeys(m: Pool, vols: seq<VolumeId>, names: set<string>)
    ensures Pruned(m, vols, names).Keys == m.Keys
  {
  }

  lemma PrefixLoses(a: Pool, b: Pool, vols: seq<VolumeId>, j: nat, names: set<string>)
    requires j <= |vols| && OnlyLost(a, b, vols[..j], names)
    ensures OnlyLost(a, b, vols, names)
  {
  }

  // ---------- The merged list of names ----------

  predicate DistinctNames(names: seq<Snap>) {
    forall i, j | 0 <= i < j < |names| :: names[i].name != names[j].name
  }

  // One entry per name, at its latest creation.
  ghost predicate Summarises(names: seq<Snap>, snaps: seq<Snap>) {
    && DistinctNames(names)
    && forall s :: s in names <==> IsLatest(snaps, s)
  }

  // The name is already listed at i: its time goes up, if it is older.
  lemma SummaryRaises(names: seq<Snap>, snaps: seq<Snap>, s: Snap, i: nat)
    requires Summarises(names, snaps) && i < |names| && names[i].name == s.name
    ensures var raised := Snap(s.name, Max(names[i].createdUnix, s.createdUnix));
            Summarises(names[i := raised], snaps + [s])
  {
    var raised := Snap(s.name, Max(names[i].createdUnix, s.createdUnix));
    var after, more := names[i := raised], snaps + [s];
    assert IsLatest(snaps, names[i]);
    forall t
      ensures t in after <==> IsLatest(more, t)
    {
      if t.name != s.name {
        if t in names {
          var j :| 0 <= j < |names| && names[j] == t;
          assert after[j] == t;
        }
        assert IsLatest(more, t) <==> IsLatest(snaps, t);
      } else {
        assert after[i] == raised;
        assert t in after ==> t == raised;
        assert s in more && names[i] in more;
        assert IsLatest(more, raised);
      }
    }
  }

  lemma SummaryGrows(names: seq<Snap>, snaps: seq<Snap>, s: Snap)
    requires Summarises(names, snaps) && !Has(names, s.name)
    ensures Summarises(names + [s], snaps + [s])
  {
    var after, more := names + [s], snaps + [s];
    NoneNamed(names, snaps, s.name);
    forall t
      ensures t in after <==> IsLatest(more, t)
    {
      if t.name != s.name {
        assert IsLatest(more, t) <==> IsLatest(snaps, t);
      } else {
        assert s in more;
      }
    }
  }

  // A name that is not listed is not in the list it summarises.
  lemma NoneNamed(names: seq<Snap>, snaps: seq<Snap>, name: string)
    requires Summarises(names, snaps) && !Has(names, name)
    ensures forall t <- snaps :: t.name != name
  {
    forall t | t in snaps
      ensures Has(names, t.name)
    {
      var top := NewestNamed(snaps, t);
      assert top in names;
    }
  }

  lemma {:induction false} NewestNamed(snaps: seq<Snap>, t: Snap) returns (top: Snap)
    requires t in snaps
    ensures IsLatest(snaps, top) && top.name == t.name
  {
    var front, last := snaps[..|snaps| - 1], snaps[|snaps| - 1];
    if t in front {
      top := NewestNamed(front, t);
      if last.name == t.name && last.createdUnix > top.createdUnix {
        top := last;
      }
    } else {
      top := last;
      if u :| u in front && u.name == t.name {
        top := NewestNamed(front, u);
        if last.createdUnix > top.createdUnix {
          top := last;
        }
      }
    }
  }

  // The merge loop over the records of one disk.
  method MergeDisk(names: seq<Snap>, snaps: seq<Snap>, ghost earlier: seq<Snap>) returns (merged: seq<Snap>)
    requires Summarises(names, earlier)
    ensures Summarises(merged, earlier + Scheduled(snaps))
  {
    hide Summarises, Has;
    merged := names;
    assert earlier + Scheduled(snaps[..0]) == earlier;
    for n := 0 to |snaps|
      invariant Summarises(merged, earlier + Scheduled(snaps[..n]))
    {
      var snap := snaps[n];
      assert snaps[..n + 1][..n] == snaps[..n];
      assert earlier + (Scheduled(snaps[..n]) + [snap]) == earlier + Scheduled(snaps[..n]) + [snap];
      if !IsScheduled(snap.name) {
        continue;
      }
      if Has(merged, snap.name) {
        var i := Position(merged, snap.name);
        SummaryRaises(merged, earlier + Scheduled(snaps[..n]), snap, i);
        merged := merged[i := Snap(snap.name, Max(merged[i].createdUnix, snap.createdUnix))];
      } else {
        SummaryGrows(merged, earlier + Scheduled(snaps[..n]), snap);
        merged := merged + [snap];
      }
    }
    assert snaps[..|snaps|] == snaps;
  }

  // ---------- Newest first ----------

  predicate NewestFirst(names: seq<Snap>) {
    forall i, j | 0 <= i < j < |names| :: Newer(names[i], names[j])
  }

  lemma NewerIsTotal(a: Snap, b: Snap)
    requires a.name != b.name
    ensures Newer(a, b) <==> !Newer(b, a)
  {
    StringLessIsTotal(a.name, b.name);
  }

  lemma NewerIsTransitive(a: Snap, b: Snap, c: Snap)
    requires Newer(a, b) && Newer(b, c)
    ensures Newer(a, c)
  {
    if a.createdUnix == c.createdUnix {
      StringLessIsTransitive(c.name, b.name, a.name);
    }
  }

  function Insert(s: Snap, sorted: seq<Snap>): seq<Snap> {
    if sorted == [] || Newer(s, sorted[0]) then [s] + sorted else [sorted[0]] + Insert(s, sorted[1..])
  }

  function SortNewest(names: seq<Snap>): seq<Snap> {
    if names == [] then [] else Insert(names[0], SortNewest(names[1..]))
  }

  lemma {:induction false} InsertKeeps(s: Snap, sorted: seq<Snap>)
    ensures forall t :: t in Insert(s, sorted) <==> t == s || t in sorted
    ensures |Insert(s, sorted)| == |sorted| + 1
  {
    if sorted != [] && !Newer(s, sorted[0]) {
      InsertKeeps(s, sorted[1..]);
      assert sorted == [sorted[0]] + sorted[1..];
    }
  }

  lemma {:induction false} InsertSorts(s: Snap, sorted: seq<Snap>)
    requires NewestFirst(sorted) && forall t <- sorted :: t.name != s.name
    ensures NewestFirst(Insert(s, sorted))
  {
    if sorted != [] {
      assert sorted == [sorted[0]] + sorted[1..];
      if Newer(s, sorted[0]) {
        forall j | 0 < j < |sorted|
          ensures Newer(s, sorted[j])
        {
          NewerIsTransitive(s, sorted[0], sorted[j]);
        }
      } else {
        InsertSorts(s, sorted[1..]);
        InsertKeeps(s, sorted[1..]);
        NewerIsTotal(sorted[0], s);
        forall t | t in Insert(s, sorted[1..])
          ensures Newer(sorted[0], t)
        {
        }
      }
    }
  }

  lemma {:induction false} SortNewestSorts(names: seq<Snap>)
    requires DistinctNames(names)
    ensures NewestFirst(SortNewest(names)) && |SortNewest(names)| == |names|
    ensures forall t :: t in SortNewest(names) <==> t in names
  {
    if names != [] {
      var rest := SortNewest(names[1..]);
      SortNewestSorts(names[1..]);
      InsertKeeps(names[0], rest);
      assert names == [names[0]] + names[1..];
      forall t | t in rest
        ensures t.name != names[0].name
      {
      }
      InsertSorts(names[0], rest);
    }
  }

  function Elements(names: seq<Snap>): set<Snap> {
    set s <- names
  }

  lemma NewestFirstIsIrreflexive(s: Snap)
    ensures !Newer(s, s)
  {
    StringLessIsTotal(s.name, s.name);
  }

  // In a list that is newest first, exactly the entries in front of an entry are ahead of it.
  lemma AheadIsFront(sorted: seq<Snap>, i: nat)
    requires NewestFirst(sorted) && i < |sorted|
    ensures Ahead(Elements(sorted), sorted[i]) == Elements(sorted[..i])
  {
    forall j | 0 <= j < |sorted|
      ensures Newer(sorted[j], sorted[i]) <==> j < i
    {
      if j == i {
        NewestFirstIsIrreflexive(sorted[i]);
      } else if j > i && Newer(sorted[j], sorted[i]) {
        NewerIsTransitive(sorted[i], sorted[j], sorted[i]);
        NewestFirstIsIrreflexive(sorted[i]);
      }
    }
  }

  lemma NewestFirstIsDistinct(sorted: seq<Snap>)
    requires NewestFirst(sorted)
    ensures forall i, j | 0 <= i < j < |sorted| :: sorted[i] != sorted[j]
  {
    forall i, j | 0 <= i < j < |sorted|
      ensures sorted[i] != sorted[j]
    {
      NewestFirstIsIrreflexive(sorted[i]);
      assert Newer(sorted[i], sorted[j]);
    }
  }

  lemma {:induction false} DistinctSize(snaps: seq<Snap>)
    requires forall i, j | 0 <= i < j < |snaps| :: snaps[i] != snaps[j]
    ensures |Elements(snaps)| == |snaps|
  {
    if snaps != [] {
      var front, last := snaps[..|snaps| - 1], snaps[|snaps| - 1];
      DistinctSize(front);
      assert snaps == front + [last];
      assert Elements(snaps) == Elements(front) + {last};
    }
  }

  // The first k of the sorted list are the k newest.
  lemma KeptIsFront(snaps: seq<Snap>, sorted: seq<Snap>, k: nat)
    requires NewestFirst(sorted) && Elements(sorted) == Latest(snaps)
    ensures Kept(snaps, k) == Elements(sorted[..Min(k, |sorted|)])
    ensures Latest(snaps) - Kept(snaps, k) == Elements(sorted[Min(k, |sorted|)..])
  {
    var n := Min(k, |sorted|);
    NewestFirstIsDistinct(sorted);
    forall i | 0 <= i < |sorted|
      ensures sorted[i] in Kept(snaps, k) <==> i < n
    {
      AheadIsFront(sorted, i);
      DistinctSize(sorted[..i]);
      assert sorted[i] in Elements(sorted);
    }
  }

  // ---------- The pass ----------

  lemma {:induction false} ScheduledIs(snaps: seq<Snap>, s: Snap)
    ensures s in Scheduled(snaps) <==> s in snaps && IsScheduled(s.name)
  {
    if snaps != [] {
      ScheduledIs(snaps[..|snaps| - 1], s);
    }
  }

  lemma {:induction false} OnDisksIs(m: Pool, vols: seq<VolumeId>, s: Snap)
    requires forall v <- vols :: v in m
    ensures s in OnDisks(m, vols) <==> IsScheduled(s.name) && exists v <- vols :: s in m[v].snapshots
  {
    if vols != [] {
      var front, last := vols[..|vols| - 1], vols[|vols| - 1];
      OnDisksIs(m, front, s);
      ScheduledIs(m[last].snapshots, s);
      assert vols == front + [last];
    }
  }

  predicate Present(m: Pool, vols: seq<VolumeId>) {
    forall v <- vols :: v in m
  }

  lemma ListedIsTrimmed(m: Pool, vols: seq<VolumeId>, s: Snap)
    requires ValidPool(m) && Present(m, vols) && s in OnDisks(m, vols)
    ensures IsTrimmed(s.name)
  {
    OnDisksIs(m, vols, s);
    var v :| v in vols && s in m[v].snapshots;
  }

  function NamesAt(sorted: seq<Snap>, lo: nat, hi: nat): set<string>
    requires lo <= hi <= |sorted|
  {
    NamesOf(Elements(sorted[lo..hi]))
  }

  lemma SummaryOfNone(m: Pool, vols: seq<VolumeId>)
    ensures Summarises([], OnDisks(m, vols[..0]))
  {
  }

  lemma OneMoreDisk(m: Pool, vols: seq<VolumeId>, j: nat)
    requires j < |vols| && Present(m, vols[..j]) && vols[j] in m
    ensures Present(m, vols[..j + 1])
    ensures OnDisks(m, vols[..j + 1]) == OnDisks(m, vols[..j]) + Scheduled(m[vols[j]].snapshots)
  {
    assert vols[..j + 1][..j] == vols[..j];
  }

  lemma SortedSummary(names: seq<Snap>, snaps: seq<Snap>)
    requires Summarises(names, snaps)
    ensures NewestFirst(SortNewest(names)) && Elements(SortNewest(names)) == Latest(snaps)
  {
    hide NewestFirst;
    SortNewestSorts(names);
    assert forall s :: IsLatest(snaps, s) ==> s in snaps;
  }

  lemma LatestIsListed(snaps: seq<Snap>)
    ensures forall s <- Latest(snaps) :: s in snaps
  {
  }

  lemma NamesAtGrows(sorted: seq<Snap>, lo: nat, i: nat)
    requires lo <= i < |sorted|
    ensures NamesAt(sorted, lo, i + 1) == NamesAt(sorted, lo, i) + {sorted[i].name}
  {
    assert sorted[lo..i + 1] == sorted[lo..i] + [sorted[i]];
  }

  // The entries from the k-th on are the dropped ones.
  lemma DroppedAre(snaps: seq<Snap>, sorted: seq<Snap>, k: nat, i: nat)
    requires NewestFirst(sorted) && Elements(sorted) == Latest(snaps) && Min(k, |sorted|) <= i <= |sorted|
    ensures var first := Min(k, |sorted|);
            && NamesAt(sorted, first, i) <= Dropped(snaps, k)
            && (i < |sorted| ==> sorted[i] in snaps && sorted[i].name in Dropped(snaps, k))
            && (i < |sorted| ==> NamesAt(sorted, first, i + 1) == NamesAt(sorted, first, i) + {sorted[i].name})
            && (i == |sorted| ==> NamesAt(sorted, first, i) == Dropped(snaps, k))
  {
    var first := Min(k, |sorted|);
    KeptIsFront(snaps, sorted, k);
    assert NamesAt(sorted, first, |sorted|) == Dropped(snaps, k) by {
      assert sorted[first..|sorted|] == sorted[first..];
    }
    if i < |sorted| {
      LatestIsListed(snaps);
      assert sorted[i] in Elements(sorted);
      hide Kept, NewestFirst, Latest, Elements, NamesAt, Dropped;
      NamesAtGrows(sorted, first, i);
    }
  }

  // Exactly the k newest names stay, or all of them when there are fewer.
  lemma KeepsTheNewest(m: Pool, vols: seq<VolumeId>, k: nat)
    requires Present(m, vols)
    ensures var all := Latest(OnDisks(m, vols));
            var kept := Kept(OnDisks(m, vols), k);
            && |kept| == Min(k, |all|)
            && forall s, t | s in kept && t in all - kept ::
                 s.createdUnix > t.createdUnix || (s.createdUnix == t.createdUnix && StringLess(t.name, s.name))
  {
    var snaps := OnDisks(m, vols);
    var names := Summary(snaps);
    var sorted := SortNewest(names);
    SortedSummary(names, snaps);
    KeptIsFront(snaps, sorted, k);
    NewestFirstIsDistinct(sorted);
    DistinctSize(sorted);
    DistinctSize(sorted[..Min(k, |sorted|)]);
  }

  lemma {:induction false} Summary(snaps: seq<Snap>) returns (names: seq<Snap>)
    ensures Summarises(names, snaps)
  {
    if snaps == [] {
      names := [];
    } else {
      var front, last := snaps[..|snaps| - 1], snaps[|snaps| - 1];
      names := Summary(front);
      assert snaps == front + [last];
      if Has(names, last.name) {
        var i := Position(names, last.name);
        SummaryRaises(names, front, last, i);
        names := names[i := Snap(last.name, Max(names[i].createdUnix, last.createdUnix))];
      } else {
        SummaryGrows(names, front, last);
        names := names + [last];
      }
    }
  }

  // A pruned disk has lost exactly its scheduled snapshots whose names are not kept: a kept name stays
  // on every disk that had it, and no other snapshot is touched.
  lemma PrunedDiskHas(m: Pool, vols: seq<VolumeId>, k: nat, v: VolumeId, s: Snap)
    requires Present(m, vols) && v in vols
    ensures var snaps := OnDisks(m, vols);
            s in Pruned(m, vols, Dropped(snaps, k))[v].snapshots
            <==> s in m[v].snapshots && (IsScheduled(s.name) ==> s.name in NamesOf(Kept(snaps, k)))
  {
    var snaps := OnDisks(m, vols);
    WithoutKeepsOthers(m[v].snapshots, Dropped(snaps, k), s);
    if s in m[v].snapshots {
      ListedOnce(m, vols, k, s);
    }
  }

  // A scheduled name on some disk is kept or dropped, never both; other names are neither.
  lemma ListedOnce(m: Pool, vols: seq<VolumeId>, k: nat, s: Snap)
    requires Present(m, vols) && exists v <- vols :: s in m[v].snapshots
    ensures var snaps := OnDisks(m, vols);
            s.name in Dropped(snaps, k) <==> IsScheduled(s.name) && s.name !in NamesOf(Kept(snaps, k))
  {
    var snaps := OnDisks(m, vols);
    OnDisksIs(m, vols, s);
    if s.name in Dropped(snaps, k) {
      var t :| t in Latest(snaps) - Kept(snaps, k) && t.name == s.name;
      OnDisksIs(m, vols, t);
      forall u | u in Kept(snaps, k)
        ensures u.name != s.name
      {
        assert u.name == t.name ==> u == t;
      }
    } else if IsScheduled(s.name) {
      var top := NewestNamed(snaps, s);
      assert top in Latest(snaps);
    }
  }

  // ---------- The rule, on the disks and the snapshots' own fields ----------

  // A scheduled snapshot on one of the guest's data disks.
  ghost predicate OnGuest(m: Pool, disks: seq<DiskSpec>, s: Snap) {
    && "sched-" <= s.name
    && exists d <- disks ::
         !d.cdrom && d.volumeId.Some? && d.volumeId.value in m && s in m[d.volumeId.value].snapshots
  }

  // ... made last of all those of its name.
  ghost predicate IsTop(m: Pool, disks: seq<DiskSpec>, s: Snap) {
    OnGuest(m, disks, s) && forall t | OnGuest(m, disks, t) && t.name == s.name :: t.createdUnix <= s.createdUnix
  }

  // `kept` are the `keep` names made last, or all; of names made at one time the greater ones.
  ghost predicate IsKept(m: Pool, disks: seq<DiskSpec>, keep: nat, kept: set<Snap>, all: set<Snap>) {
    && (forall s :: s in all <==> IsTop(m, disks, s))
    && kept <= all && |kept| == Min(keep, |all|)
    && forall s, t | s in kept && t in all - kept ::
         s.createdUnix > t.createdUnix || (s.createdUnix == t.createdUnix && StringLess(t.name, s.name))
  }

  // May be deleted: scheduled, on a data disk, and not of a kept name.
  ghost predicate IsDue(disks: seq<DiskSpec>, kept: set<Snap>, v: VolumeId, s: Snap) {
    && "sched-" <= s.name
    && (exists d <- disks :: !d.cdrom && d.volumeId == Some(v))
    && forall t <- kept :: t.name != s.name
  }

  // Only what is due is gone, and all of it if the pass got to its end.
  ghost predicate IsPass(before: Pool, after: Pool, disks: seq<DiskSpec>, kept: set<Snap>, complete: bool) {
    && after.Keys == before.Keys
    && forall v <- before ::
         && after[v] == before[v].(snapshots := after[v].snapshots)
         && (forall s <- after[v].snapshots :: s in before[v].snapshots)
         && (forall s <- before[v].snapshots :: s !in after[v].snapshots ==> IsDue(disks, kept, v, s))
         && (complete ==> forall s <- after[v].snapshots :: !IsDue(disks, kept, v, s))
  }

  lemma TopsAreLatest(m: Pool, disks: seq<DiskSpec>)
    requires Present(m, DataVolumes(disks))
    ensures forall s :: s in OnDisks(m, DataVolumes(disks)) <==> OnGuest(m, disks, s)
    ensures forall s :: s in Latest(OnDisks(m, DataVolumes(disks))) <==> IsTop(m, disks, s)
  {
    var vols := DataVolumes(disks);
    var _ := DataVolumesAre(disks);
    hide DataVolumes, OnDisks;
    forall s
      ensures s in OnDisks(m, vols) <==> OnGuest(m, disks, s)
    {
      OnDisksIs(m, vols, s);
      if v :| v in vols && s in m[v].snapshots {
        assert IsDataVolume(disks, v);
      }
      if OnGuest(m, disks, s) {
        var d :| d in disks && !d.cdrom && d.volumeId.Some? && d.volumeId.value in m
                 && s in m[d.volumeId.value].snapshots;
        assert IsDataVolume(disks, d.volumeId.value);
      }
    }
    assert forall s :: s in Latest(OnDisks(m, vols)) <==> IsLatest(OnDisks(m, vols), s);
  }

  lemma KeptIsKept(m: Pool, disks: seq<DiskSpec>, keep: nat)
    requires Present(m, DataVolumes(disks))
    ensures var snaps := OnDisks(m, DataVolumes(disks));
      IsKept(m, disks, keep, Kept(snaps, keep), Latest(snaps))
  {
    TopsAreLatest(m, disks);
    KeepsTheNewest(m, DataVolumes(disks), keep);
    hide OnDisks, DataVolumes, Latest, IsTop, StringLess;
  }

  // Every snapshot whose name does not start with "sched-" is still there.
  ghost predicate OthersStay(before: Pool, after: Pool) {
    forall v, s | v in before && s in before[v].snapshots && !("sched-" <= s.name) ::
      v in after && s in after[v].snapshots
  }

  lemma PartialPass(m: Pool, after: Pool, disks: seq<DiskSpec>, keep: nat)
    requires Present(m, DataVolumes(disks))
    requires OnlyLost(m, after, DataVolumes(disks), Dropped(OnDisks(m, DataVolumes(disks)), keep))
    ensures var snaps := OnDisks(m, DataVolumes(disks));
      && IsKept(m, disks, keep, Kept(snaps, keep), Latest(snaps))
      && IsPass(m, after, disks, Kept(snaps, keep), false)
      && OthersStay(m, after)
  {
    KeptIsKept(m, disks, keep);
    var vols := DataVolumes(disks);
    var snaps := OnDisks(m, vols);
    forall v, s | v in m && s in m[v].snapshots && s !in after[v].snapshots
      ensures IsDue(disks, Kept(snaps, keep), v, s)
    {
      LostIsDue(m, after, disks, keep, v, s);
    }
    assert forall v, s :: IsDue(disks, Kept(snaps, keep), v, s) ==> "sched-" <= s.name;
    hide Dropped, Kept, Latest, OnDisks, DataVolumes, IsKept, IsDue;
  }

  lemma LostIsDue(m: Pool, after: Pool, disks: seq<DiskSpec>, keep: nat, v: VolumeId, s: Snap)
    requires Present(m, DataVolumes(disks)) && v in m && s in m[v].snapshots && v in after
    requires OnlyLost(m, after, DataVolumes(disks), Dropped(OnDisks(m, DataVolumes(disks)), keep))
    requires s !in after[v].snapshots
    ensures IsDue(disks, Kept(OnDisks(m, DataVolumes(disks)), keep), v, s)
  {
    var vols := DataVolumes(disks);
    var names := Dropped(OnDisks(m, vols), keep);
    var _ := DataVolumesAre(disks);
    WithoutKeepsOthers(m[v].snapshots, names, s);
    WithoutKeepsOthers(after[v].snapshots, names, s);
    assert v in vols && IsDataVolume(disks, v);
    ListedOnce(m, vols, keep, s);
    hide Dropped, Kept, OnDisks, DataVolumes, Without;
  }

  lemma FullPass(m: Pool, disks: seq<DiskSpec>, keep: nat)
    requires Present(m, DataVolumes(disks))
    ensures var snaps := OnDisks(m, DataVolumes(disks));
      && IsKept(m, disks, keep, Kept(snaps, keep), Latest(snaps))
      && IsPass(m, Pruned(m, DataVolumes(disks), Dropped(snaps, keep)), disks, Kept(snaps, keep), true)
      && OthersStay(m, Pruned(m, DataVolumes(disks), Dropped(snaps, keep)))
  {
    var vols := DataVolumes(disks);
    var snaps := OnDisks(m, vols);
    var after := Pruned(m, vols, Dropped(snaps, keep));
    PrunedOnlyLoses(m, vols, Dropped(snaps, keep));
    PartialPass(m, after, disks, keep);
    var _ := DataVolumesAre(disks);
    forall v, s | v in m && s in after[v].snapshots
      ensures !IsDue(disks, Kept(snaps, keep), v, s)
    {
      if v in vols {
        PrunedDiskHas(m, vols, keep, v, s);
      } else {
        assert !IsDataVolume(disks, v);
      }
    }
    hide Dropped, Kept, Latest, OnDisks, DataVolumes, IsKept, IsDue, Pruned;
  }

  // Service::prune_scheduled_snapshots. fate(i, j) is what becomes of the delete of the i-th name on
  // the j-th disk.
  method PruneScheduledSnapshots(pool: VolumePool, vm: VmRecord, keep: u32, fate: (nat, nat) -> Outcome)
    returns (r: Result<(), StorageError>)
    requires pool.Valid()
    modifies pool
    ensures pool.Valid()
    ensures var vols := DataVolumes(vm.spec.disks);
            var before := old(pool.volumes);
            && (keep == 0 ==> r.Ok?)
            && (keep == 0 || !Present(before, vols) ==> pool.volumes == before)
            && (keep > 0 && !Present(before, vols) ==>
                  exists c | 0 <= c < |vols| ::
                    Present(before, vols[..c]) && vols[c] !in before && r == Err(NotFound(vols[c])))
            && (keep > 0 && Present(before, vols) && r.Ok? ==>
                  pool.volumes == Pruned(before, vols, Dropped(OnDisks(before, vols), keep)))
            && (keep > 0 && Present(before, vols) && r.Err? ==>
                  OnlyLost(before, pool.volumes, vols, Dropped(OnDisks(before, vols), keep)))
            && (Present(before, vols) && (forall i: nat, j: nat :: fate(i, j).Works?) ==> r.Ok?)
    ensures keep > 0 && Present(old(pool.volumes), DataVolumes(vm.spec.disks)) ==>
      exists kept, all ::
        && IsKept(old(pool.volumes), vm.spec.disks, keep, kept, all)
        && IsPass(old(pool.volumes), pool.volumes, vm.spec.disks, kept, r.Ok?)
    ensures OthersStay(old(pool.volumes), pool.volumes)
  {
    hide OnDisks, Pruned, OnlyLost, Summarises, NewestFirst, Dropped, IsTrimmed, DataVolumes, ValidPool, Latest;
    hide IsKept, IsPass, Kept, Scheduled;
    ghost var before := pool.volumes;
    if keep == 0 {
      return Ok(());
    }
    var vols := DataVolumes(vm.spec.disks);
    var names: seq<Snap> := [];
    SummaryOfNone(before, vols);
    for j := 0 to |vols|
      invariant pool.Valid() && pool.volumes == before && Present(before, vols[..j])
      invariant Summarises(names, OnDisks(before, vols[..j]))
    {
      if vols[j] !in pool.volumes {
        return Err(NotFound(vols[j]));
      }
      OneMoreDisk(before, vols, j);
      names := MergeDisk(names, pool.volumes[vols[j]].snapshots, OnDisks(before, vols[..j]));
    }
    assert vols[..|vols|] == vols;
    var sorted := SortNewest(names);
    ghost var snaps := OnDisks(before, vols);
    SortedSummary(names, snaps);
    var first := Min(keep, |sorted|);
    PrunedNone(before, vols, NamesAt(sorted, first, first));
    hide NamesAt;
    for i := first to |sorted|
      invariant pool.Valid()
      invariant pool.volumes == Pruned(before, vols, NamesAt(sorted, first, i))
    {
      DroppedAre(snaps, sorted, keep, i);
      ListedIsTrimmed(before, vols, sorted[i]);
      PrunedOnlyLoses(before, vols, NamesAt(sorted, first, i));
      PrunedKeys(before, vols, NamesAt(sorted, first, i));
      ghost var now := pool.volumes;
      var deleted := DeleteNamedSnapshot(pool, vols, sorted[i].name, (j: nat) => fate(i, j));
      if deleted.Err? {
        OnlyLostChain(before, now, pool.volumes, vols, NamesAt(sorted, first, i), {sorted[i].name},
                      Dropped(snaps, keep));
        PartialPass(before, pool.volumes, vm.spec.disks, keep);
        return Err(deleted.error);
      }
      PrunedTwice(before, vols, NamesAt(sorted, first, i), {sorted[i].name});
    }
    DroppedAre(snaps, sorted, keep, |sorted|);
    FullPass(before, vm.spec.disks, keep);
    r := Ok(());
  }
}
