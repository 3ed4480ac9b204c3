// Package repositories as the control plane lists them (crates/pertisk-daemon/src/updates.rs).
module Repositories {
  import opened Prelude
  import opened Text

  // What a line or a stanza says.
  datatype Entry = Entry(enabled: bool, types: string, uri: string, suite: string, components: string)

  datatype AptRepository = AptRepository(id: string, file: string, entry: Entry)

  // The position of a line or stanza names the repository.
  function RepoId(file: string, i: nat): string {
    file + ":" + Decimal(i)
  }

  lemma RepoIdIsInjective(file: string, i: nat, j: nat)
    requires RepoId(file, i) == RepoId(file, j)
    ensures i == j
  {
    DecimalIsDigits(i);
    DecimalIsDigits(j);
    assert Decimal(i) == RepoId(file, i)[|file| + 1..];
    assert Decimal(j) == RepoId(file, j)[|file| + 1..];
  }

  // The same repositories, with the flag of one of them set.
  function Toggled(repos: seq<AptRepository>, id: string, enabled: bool): seq<AptRepository> {
    if repos == [] then []
    else Toggled(repos[..|repos| - 1], id, enabled) + [ToggledOne(repos[|repos| - 1], id, enabled)]
  }

  function ToggledOne(repo: AptRepository, id: string, enabled: bool): AptRepository {
    if repo.id == id then repo.(entry := repo.entry.(enabled := enabled)) else repo
  }

  lemma {:induction false} ToggledAt(repos: seq<AptRepository>, id: string, enabled: bool, k: nat)
    requires k < |repos|
    ensures |Toggled(repos, id, enabled)| == |repos|
    ensures Toggled(repos, id, enabled)[k] == ToggledOne(repos[k], id, enabled)
  {
    var front := repos[..|repos| - 1];
    if k < |front| {
      ToggledAt(front, id, enabled, k);
    } else if |front| > 0 {
      ToggledAt(front, id, enabled, 0);
    }
  }

  // The repositories of a file, given what each position holds.
  function Listed(file: string, entries: seq<Option<Entry>>): seq<AptRepository> {
    if entries == [] then []
    else
      var front := Listed(file, entries[..|entries| - 1]);
      match entries[|entries| - 1]
      case None => front
      case Some(entry) => front + [AptRepository(RepoId(file, |entries| - 1), file, entry)]
  }

  lemma {:induction false} ListedHas(file: string, entries: seq<Option<Entry>>, n: nat, entry: Entry)
    ensures AptRepository(RepoId(file, n), file, entry) in Listed(file, entries)
       <==> n < |entries| && entries[n] == Some(entry)
  {
    hide RepoId;
    if entries != [] {
      ListedHas(file, entries[..|entries| - 1], n, entry);
      if RepoId(file, n) == RepoId(file, |entries| - 1) {
        RepoIdIsInjective(file, n, |entries| - 1);
      }
    }
  }

  lemma {:induction false} ListedIs(file: string, entries: seq<Option<Entry>>, repo: AptRepository) returns (n: nat)
    requires repo in Listed(file, entries)
    ensures n < |entries| && repo == AptRepository(RepoId(file, n), file, repo.entry)
    ensures entries[n] == Some(repo.entry)
  {
    hide RepoId;
    if repo in Listed(file, entries[..|entries| - 1]) {
      n := ListedIs(file, entries[..|entries| - 1], repo);
    } else {
      n := |entries| - 1;
    }
  }

  lemma {:induction false} ToggledElsewhere(file: string, entries: seq<Option<Entry>>, n: nat, enabled: bool)
    requires n >= |entries|
    ensures Toggled(Listed(file, entries), RepoId(file, n), enabled) == Listed(file, entries)
  {
    hide RepoId;
    if entries != [] {
      var front := entries[..|entries| - 1];
      ToggledElsewhere(file, front, n, enabled);
      if RepoId(file, n) == RepoId(file, |entries| - 1) {
        RepoIdIsInjective(file, n, |entries| - 1);
      }
      var repos := Listed(file, entries);
      if entries[|entries| - 1].Some? {
        assert repos[..|repos| - 1] == Listed(file, front);
      }
    }
  }

  // Setting the flag at one position sets it for that repository and no other.
  lemma {:induction false} ListedToggles(file: string, entries: seq<Option<Entry>>, n: nat, enabled: bool)
    requires n < |entries| && entries[n].Some?
    ensures Listed(file, entries[n := Some(entries[n].value.(enabled := enabled))])
         == Toggled(Listed(file, entries), RepoId(file, n), enabled)
  {
    hide RepoId;
    var front := entries[..|entries| - 1];
    var changed := entries[n := Some(entries[n].value.(enabled := enabled))];
    var repos := Listed(file, entries);
    if n == |front| {
      assert changed[..|front|] == front;
      ToggledElsewhere(file, front, n, enabled);
    } else {
      assert changed[..|front|] == front[n := Some(entries[n].value.(enabled := enabled))];
      ListedToggles(file, front, n, enabled);
      if RepoId(file, n) == RepoId(file, |front|) {
        RepoIdIsInjective(file, n, |front|);
      }
    }
    if entries[|front|].Some? {
      assert repos[..|repos| - 1] == Listed(file, front);
    }
  }
}
