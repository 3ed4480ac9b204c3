// Deb822 repository files as a whole: parsing, toggling and parsing again
// (crates/pertisk-daemon/src/updates.rs).
module SourcesFile {
  import opened Prelude
  import opened Text
  import opened Lines
  import opened Repositories
  import opened Deb822
  import opened EnabledField

  function FieldOr(fields: map<string, string>, key: string): string {
    if key in fields then fields[key] else ""
  }

  // A stanza is a repository when its Types name deb or deb-src.
  function EntryOf(fields: map<string, string>): Option<Entry> {
    var types := SplitWhitespace(FieldOr(fields, "Types"));
    if "deb" !in types && "deb-src" !in types then None
    else
      Some(Entry(IsOn(fields), if "deb" in types then "deb" else "deb-src",
                 FieldOr(fields, "URIs"), FieldOr(fields, "Suites"), FieldOr(fields, "Components")))
  }

  function Entries(stanzas: seq<string>): (r: seq<Option<Entry>>)
    ensures |r| == |stanzas|
  {
    seq(|stanzas|, i requires 0 <= i < |stanzas| => EntryOf(Fields(LinesOf(stanzas[i]))))
  }

  function ParseSources(file: string, text: string): seq<AptRepository> {
    Listed(file, Entries(Stanzas(text)))
  }

  method ParseDeb822File(file: string, text: string) returns (out: seq<AptRepository>)
    ensures out == ParseSources(file, text)
  {
    hide Stanzas, Fields, LinesOf, SplitWhitespace, IsOn;
    var stanzas := SplitStanzas(text);
    out := [];
    for i := 0 to |stanzas|
      invariant out == Listed(file, Entries(stanzas[..i]))
    {
      assert Entries(stanzas[..i + 1])[..i] == Entries(stanzas[..i]);
      assert stanzas[..i + 1][i] == stanzas[i];
      var fields := ParseFields(stanzas[i]);
      assert Entries(stanzas[..i + 1])[i] == EntryOf(fields);
      var types := SplitWhitespace(FieldOr(fields, "Types"));
      if "deb" !in types && "deb-src" !in types {
        continue;
      }
      var enabled := IsOn(fields);
      var kind := if "deb" in types then "deb" else "deb-src";
      out := out + [AptRepository(RepoId(file, i), file,
        Entry(enabled, kind, FieldOr(fields, "URIs"), FieldOr(fields, "Suites"), FieldOr(fields, "Components")))];
    }
    assert stanzas[..|stanzas|] == stanzas;
  }

  // The number at the end of a repository's id.
  function IndexOfId(id: string): Option<nat> {
    match RSplitOnce(id, ':')
    case None => None
    case Some((_, n)) => ParseUnsigned(n, U64_LIMIT)
  }

  lemma IndexOfRepoId(file: string, n: nat)
    requires n < U64_LIMIT
    ensures IndexOfId(RepoId(file, n)) == Some(n)
  {
    DecimalIsDigits(n);
    assert ':' !in Decimal(n);
    RSplitOnceAtLast(file, ':', Decimal(n));
    assert RepoId(file, n) == file + [':'] + Decimal(n);
    ParseOfDecimal(n, U64_LIMIT);
  }

  function Terminated(s: string): string {
    if s != "" && s[|s| - 1] == '\n' then s else s + "\n"
  }

  function Rebuilt(stanzas: seq<string>, n: nat, enabled: bool): string
    requires n < |stanzas|
  {
    Terminated(Join(stanzas[n := JoinLines(Rewrite(LinesOf(stanzas[n]), enabled))], "\n\n"))
  }

  function AfterSet(text: string, id: string, enabled: bool): Result<string, string> {
    match IndexOfId(id)
    case None => Err("invalid repository id")
    case Some(n) =>
      if n >= |Stanzas(text)| then Err("repository stanza not found") else Ok(Rebuilt(Stanzas(text), n, enabled))
  }

  method SetDeb822Enabled(text: string, id: string, enabled: bool) returns (r: Result<string, string>)
    ensures r == AfterSet(text, id, enabled)
  {
    hide Stanzas, Rewrite, JoinLines, LinesOf, IndexOfId, Join;
    var want := IndexOfId(id);
    if want.None? {
      return Err("invalid repository id");
    }
    var stanzas := SplitStanzas(text);
    if want.value >= |stanzas| {
      return Err("repository stanza not found");
    }
    var rebuilt: seq<string> := [];
    ghost var goal := stanzas[want.value := JoinLines(Rewrite(LinesOf(stanzas[want.value]), enabled))];
    for i := 0 to |stanzas|
      invariant rebuilt == goal[..i]
    {
      if i != want.value {
        rebuilt := rebuilt + [stanzas[i]];
        continue;
      }
      var rewritten := RewriteEnabledField(stanzas[i], enabled);
      rebuilt := rebuilt + [rewritten];
    }
    assert goal[..|stanzas|] == goal;
    var out := Join(rebuilt, "\n\n");
    r := Ok(Terminated(out));
  }

  // ---------- Splitting a rebuilt file ----------

  // The lines of groups set apart by empty lines.
  function Spaced(groups: seq<seq<string>>): seq<string> {
    if groups == [] then []
    else if |groups| == 1 then groups[0]
    else Spaced(groups[..|groups| - 1]) + [""] + groups[|groups| - 1]
  }

  lemma {:induction false} GroupedRun(lines: seq<string>, g: seq<string>)
    requires Grouped(lines).1 == [] && forall line <- g :: !IsBlank(line)
    ensures Grouped(lines + g) == (Grouped(lines).0, g)
  {
    hide IsBlank;
    if g == [] {
      assert lines + g == lines;
    } else {
      var front, last := g[..|g| - 1], g[|g| - 1];
      assert last in g;
      GroupedRun(lines, front);
      assert (lines + g)[..|lines + g| - 1] == lines + front;
      assert g == front + [last];
    }
  }

  // An empty line closes the open run, and the next run opens.
  lemma OneMoreGroup(lines: seq<string>, g: seq<string>)
    requires Grouped(lines).1 != [] && IsGroup(g)
    ensures Grouped(lines + [""] + g) == (Grouped(lines).0 + [Grouped(lines).1], g)
  {
    var closed := lines + [""];
    assert closed[..|closed| - 1] == lines && IsBlank("");
    GroupedRun(closed, g);
  }

  lemma {:induction false} GroupedSpaced(groups: seq<seq<string>>)
    requires AreGroups(groups) && groups != []
    ensures Grouped(Spaced(groups)) == (groups[..|groups| - 1], groups[|groups| - 1])
  {
    hide Grouped, IsGroup;
    var front, last := groups[..|groups| - 1], groups[|groups| - 1];
    assert last in groups;
    NotEmpty(last);
    if front == [] {
      FirstGroup(last);
    } else {
      assert front[|front| - 1] in groups;
      NotEmpty(front[|front| - 1]);
      GroupedSpaced(front);
      OneMoreGroup(Spaced(front), last);
      assert front[..|front| - 1] + [front[|front| - 1]] == front;
    }
  }

  lemma FirstGroup(g: seq<string>)
    requires IsGroup(g)
    ensures Grouped(g) == ([], g)
  {
    GroupedRun([], g);
    assert [] + g == g;
  }

  lemma GroupsOfSpaced(groups: seq<seq<string>>)
    requires AreGroups(groups)
    ensures Groups(Spaced(groups)) == groups
  {
    hide IsGroup;
    if groups != [] {
      var last := groups[|groups| - 1];
      assert last in groups;
      NotEmpty(last);
      GroupedSpaced(groups);
      hide Grouped;
      assert groups == groups[..|groups| - 1] + [last];
    }
  }

  lemma {:induction false} UnlinesOfBoth(a: seq<string>, b: seq<string>)
    ensures Unlines(a + b) == Unlines(a) + Unlines(b)
  {
    if b == [] {
      assert a + b == a;
    } else {
      assert (a + b)[..|a + b| - 1] == a + b[..|b| - 1];
      UnlinesOfBoth(a, b[..|b| - 1]);
    }
  }

  // Joined stanzas, and a newline, are their lines with an empty line in between.
  lemma {:induction false} JoinedIsSpaced(groups: seq<seq<string>>)
    requires AreGroups(groups) && groups != []
    ensures Join(Joined(groups), "\n\n") + "\n" == Unlines(Spaced(groups))
  {
    hide JoinLines, IsGroup;
    var parts := Joined(groups);
    var last := groups[|groups| - 1];
    assert last in groups && last != [] by {
      NotEmpty(last);
    }
    JoinThenNewline(last);
    if |groups| > 1 {
      var front := groups[..|groups| - 1];
      assert parts[..|parts| - 1] == Joined(front);
      JoinedIsSpaced(front);
      UnlinesOfBoth(Spaced(front) + [""], last);
      var j := Join(Joined(front), "\n\n");
      assert Unlines(Spaced(front) + [""]) == j + "\n\n" by {
        EmptyLine(Spaced(front));
        assert j + "\n" + "\n" == j + "\n\n";
      }
      assert Join(parts, "\n\n") == j + "\n\n" + JoinLines(last);
      assert j + "\n\n" + JoinLines(last) + "\n" == j + "\n\n" + (JoinLines(last) + "\n");
    }
  }

  lemma NotEmpty(g: seq<string>)
    ensures IsGroup(g) ==> g != []
  {
  }

  lemma EmptyLine(lines: seq<string>)
    ensures Unlines(lines + [""]) == Unlines(lines) + "\n"
  {
    assert (lines + [""])[..|lines|] == lines;
    assert Unlines(lines) + "" + "\n" == Unlines(lines) + "\n";
  }

  function Stripped(groups: seq<seq<string>>): (r: seq<seq<string>>)
    ensures |r| == |groups|
  {
    seq(|groups|, i requires 0 <= i < |groups| => StripAll(groups[i]))
  }

  lemma StrippedIsGroup(g: seq<string>)
    requires IsGroup(g)
    ensures IsGroup(StripAll(g))
  {
    hide StripCr, IsBlank;
    forall i | 0 <= i < |g|
      ensures IsLine(StripAll(g)[i]) && !IsBlank(StripAll(g)[i])
    {
      assert g[i] in g;
      TrimOfStripped(g[i]);
      StrippedIsLine(g[i]);
    }
  }

  lemma StrippedAreGroups(groups: seq<seq<string>>)
    requires AreGroups(groups)
    ensures AreGroups(Stripped(groups))
  {
    hide IsGroup;
    forall i | 0 <= i < |groups|
      ensures IsGroup(Stripped(groups)[i])
    {
      assert groups[i] in groups;
      StrippedIsGroup(groups[i]);
    }
  }

  lemma {:induction false} SpacedAreLines(groups: seq<seq<string>>)
    requires AreGroups(groups)
    ensures AreLines(Spaced(groups)) && StripAll(Spaced(groups)) == Spaced(Stripped(groups))
  {
    hide StripCr, IsBlank;
    if |groups| == 1 {
      assert groups[0] in groups;
    } else if |groups| > 1 {
      var front, last := groups[..|groups| - 1], groups[|groups| - 1];
      assert last in groups;
      SpacedAreLines(front);
      assert StripCr("") == "" by {
        EmptyStripped();
      }
      assert Stripped(groups)[..|front|] == Stripped(front);
    }
  }

  lemma EmptyStripped()
    ensures StripCr("") == ""
  {
  }

  // The rebuilt text ends without a newline until one is added.
  lemma JoinEndsPlain(groups: seq<seq<string>>)
    requires AreGroups(groups) && groups != []
    ensures Terminated(Join(Joined(groups), "\n\n")) == Join(Joined(groups), "\n\n") + "\n"
  {
    var g := groups[|groups| - 1];
    assert g in groups;
    LastNotEmpty(g);
    var last := g[|g| - 1];
    assert last in g && last[|last| - 1] in last;
    var stanza := JoinLines(g);
    assert stanza[|stanza| - 1] == last[|last| - 1];
    var out := Join(Joined(groups), "\n\n");
    assert Joined(groups)[|groups| - 1] == stanza;
    assert out[|out| - 1] == stanza[|stanza| - 1];
  }

  // Splitting joined stanzas gives them back, but for carriage returns at line ends.
  lemma ResplitIs(groups: seq<seq<string>>)
    requires AreGroups(groups) && groups != []
    ensures Stanzas(Terminated(Join(Joined(groups), "\n\n"))) == Joined(Stripped(groups))
  {
    hide AreGroups, Spaced, Terminated, Join, Unlines, JoinLines, LinesOf, Groups, AreLines;
    JoinEndsPlain(groups);
    JoinedIsSpaced(groups);
    SpacedAreLines(groups);
    LinesOfUnlines(Spaced(groups), "");
    assert Unlines(Spaced(groups)) + "" == Unlines(Spaced(groups));
    NoLinesInEmpty();
    assert StripAll(Spaced(groups)) + [] == StripAll(Spaced(groups));
    StrippedAreGroups(groups);
    GroupsOfSpaced(Stripped(groups));
  }

  lemma NoLinesInEmpty()
    ensures LinesOf("") == []
  {
  }

  // ---------- Parsing a rebuilt file ----------

  // A stanza that went through the file keeps its fields.
  lemma FieldsSurvive(g: seq<string>)
    requires IsGroup(g)
    ensures Fields(LinesOf(JoinLines(StripAll(g)))) == Fields(g)
  {
    hide LinesOf, JoinLines, ReadAll;
    StrippedIsGroup(g);
    LinesOfGroup(StripAll(g));
    ReadAllIgnoresCr(START, StripAll(g), g);
  }

  lemma EnabledLineIgnoresCr(line: string)
    ensures IsEnabledLine(StripCr(line)) <==> IsEnabledLine(line)
  {
    var front := StripCr(line);
    if EndsWithCr(line) && |line| <= 8 {
      assert Lowered(line)[|line| - 1] == '\r';
    } else if |line| >= 8 {
      assert Lowered(line)[..8] == Lowered(front)[..8];
    }
  }

  lemma RewriteKeepsOnlyCr(a: seq<string>, b: seq<string>, enabled: bool)
    requires OnlyCr(a, b)
    ensures OnlyCr(Rewrite(a, enabled), Rewrite(b, enabled))
  {
    hide IsEnabledLine, StripCr, EnabledLine;
    forall i | 0 <= i < |a|
      ensures IsEnabledLine(a[i]) <==> IsEnabledLine(b[i])
    {
      EnabledLineIgnoresCr(b[i]);
    }
    assert HasEnabledLine(a) <==> HasEnabledLine(b) by {
      if HasEnabledLine(a) {
        var i :| 0 <= i < |a| && IsEnabledLine(a[i]);
        assert b[i] in b;
      }
      if HasEnabledLine(b) {
        var i :| 0 <= i < |b| && IsEnabledLine(b[i]);
        assert a[i] in a;
      }
    }
  }

  lemma RewriteKeepsGroup(g: seq<string>, enabled: bool)
    requires IsGroup(g)
    ensures IsGroup(Rewrite(g, enabled))
  {
    hide IsEnabledLine, IsBlank;
    assert !IsBlank(EnabledLine(enabled)) && IsLine(EnabledLine(enabled)) by {
      EnabledLineIsLine(enabled);
    }
    forall line | line in Rewrite(g, enabled)
      ensures !IsBlank(line) && IsLine(line)
    {
      assert line in g || line == EnabledLine(enabled);
    }
  }

  lemma EnabledLineIsLine(enabled: bool)
    ensures !IsBlank(EnabledLine(enabled)) && IsLine(EnabledLine(enabled))
  {
    assert 'E' in EnabledLine(enabled);
  }

  // The rewritten stanza, as it is read back.
  lemma RewrittenGroup(g: seq<string>, enabled: bool)
    requires IsGroup(g)
    ensures var r := Rewrite(LinesOf(JoinLines(g)), enabled);
            IsGroup(r) && Fields(r) == Fields(Rewrite(g, enabled))
  {
    hide LinesOf, JoinLines, ReadAll, Rewrite;
    var lines := LinesOf(JoinLines(g));
    LinesOfGroup(g);
    RewriteKeepsGroup(lines, enabled);
    RewriteKeepsGroup(g, enabled);
    RewriteKeepsOnlyCr(lines, g, enabled);
    ReadAllIgnoresCr(START, Rewrite(lines, enabled), Rewrite(g, enabled));
  }

  lemma NotVariants()
    ensures !IsVariant("Types") && !IsVariant("URIs") && !IsVariant("Suites") && !IsVariant("Components")
  {
    assert Lowered("Types")[0] == 't' && Lowered("URIs")[0] == 'u';
    assert Lowered("Suites")[0] == 's' && Lowered("Components")[0] == 'c';
  }

  // Nothing but the flag of a repository depends on a field named enabled.
  lemma EntryAgrees(a: map<string, string>, b: map<string, string>)
    requires AgreeElsewhere(a, b)
    ensures EntryOf(b) == match EntryOf(a)
                          case None => None
                          case Some(entry) => Some(entry.(enabled := IsOn(b)))
  {
    hide IsVariant, IsOn, SplitWhitespace;
    NotVariants();
  }

  ghost predicate IsStanzaOf(text: string, n: nat, g: seq<string>) {
    n < |Groups(LinesOf(text))| && g == Groups(LinesOf(text))[n]
  }

  lemma EntriesAfter(groups: seq<seq<string>>, n: nat, enabled: bool)
    requires AreGroups(groups) && n < |groups| && EntryOf(Fields(groups[n])).Some?
    ensures var entry := EntryOf(Fields(groups[n])).value;
            Entries(Stanzas(Rebuilt(Joined(groups), n, enabled)))
            == Entries(Joined(groups))[n := Some(entry.(enabled := IsOn(Fields(Rewrite(groups[n], enabled)))))]
  {
    hide EntryOf, Fields, IsGroup, LinesOf, JoinLines, Rewrite, Join, Terminated, Stanzas, IsOn;
    assert groups[n] in groups;
    var r := Rewrite(LinesOf(JoinLines(groups[n])), enabled);
    RewrittenGroup(groups[n], enabled);
    var changed := groups[n := r];
    assert AreGroups(changed);
    assert Joined(groups)[n := JoinLines(r)] == Joined(changed);
    ResplitIs(changed);
    FieldsSurvive(r);
    RewriteKeepsOtherFields(groups[n], enabled);
    EntryAgrees(Fields(groups[n]), Fields(Rewrite(groups[n], enabled)));
    forall i | 0 <= i < |groups|
      ensures Fields(LinesOf(Joined(Stripped(changed))[i])) == Fields(changed[i])
      ensures Fields(LinesOf(Joined(groups)[i])) == Fields(groups[i])
    {
      assert changed[i] in changed && groups[i] in groups;
      FieldsSurvive(changed[i]);
      LinesOfGroup(groups[i]);
    }
  }

  // Parsing the toggled text gives the same repositories, with the same ids; only the target's flag
  // can differ, and it is the one asked for exactly when the toggle takes on the target's stanza.
  lemma ToggleCommutesWithParseIff(file: string, text: string, repo: AptRepository, enabled: bool, n: nat,
                                   g: seq<string>)
    requires repo in ParseSources(file, text) && repo.id == RepoId(file, n) && IsStanzaOf(text, n, g)
    ensures var after := Rebuilt(Stanzas(text), n, enabled);
            && ParseSources(file, after)
               == Toggled(ParseSources(file, text), repo.id, IsOn(Fields(Rewrite(g, enabled))))
            && (ParseSources(file, after) == Toggled(ParseSources(file, text), repo.id, enabled)
                <==> ToggleTakes(g, enabled))
  {
    hide EntryOf, Fields, LinesOf, JoinLines, Rewrite, Groups, RepoId, Rebuilt, IsOn, ToggleTakes, Toggled;
    hide Listed, IsGroup;
    var groups := Groups(LinesOf(text));
    LinesAreLines(text);
    GroupsAreGroups(LinesOf(text));
    var m := ListedIs(file, Entries(Stanzas(text)), repo);
    RepoIdIsInjective(file, n, m);
    assert g in groups;
    LinesOfGroup(g);
    var flag := IsOn(Fields(Rewrite(g, enabled)));
    EntriesAfter(groups, n, enabled);
    ListedToggles(file, Entries(Stanzas(text)), n, flag);
    RewriteSetsFlagIff(g, enabled);
    DifferentFlags(ParseSources(file, text), repo, flag, enabled);
  }

  lemma DifferentFlags(repos: seq<AptRepository>, repo: AptRepository, a: bool, b: bool)
    requires repo in repos
    ensures Toggled(repos, repo.id, a) == Toggled(repos, repo.id, b) <==> a == b
  {
    var k :| 0 <= k < |repos| && repos[k] == repo;
    ToggledAt(repos, repo.id, a, k);
    ToggledAt(repos, repo.id, b, k);
  }

  // The id leads to the stanza that the repository was listed under, in any text of fewer than 2^64
  // characters.
  lemma IdLeadsToStanza(file: string, text: string, repo: AptRepository) returns (n: nat)
    requires repo in ParseSources(file, text) && |text| < U64_LIMIT
    ensures n < |Stanzas(text)| && repo.id == RepoId(file, n) && IndexOfId(repo.id) == Some(n)
  {
    hide IndexOfId, EntryOf, Listed, LinesOf, Groups, RepoId;
    n := ListedIs(file, Entries(Stanzas(text)), repo);
    LinesAreLines(text);
    GroupsAreGroups(LinesOf(text));
    IndexOfRepoId(file, n);
  }

  // So setting a listed repository by its id succeeds, and has that effect on that stanza.
  lemma SetReachesRepository(file: string, text: string, repo: AptRepository, enabled: bool)
    returns (n: nat, g: seq<string>)
    requires repo in ParseSources(file, text) && |text| < U64_LIMIT
    ensures repo.id == RepoId(file, n) && IsStanzaOf(text, n, g) && AfterSet(text, repo.id, enabled).Ok?
    ensures var after := AfterSet(text, repo.id, enabled).value;
            && ParseSources(file, after)
               == Toggled(ParseSources(file, text), repo.id, IsOn(Fields(Rewrite(g, enabled))))
            && (ParseSources(file, after) == Toggled(ParseSources(file, text), repo.id, enabled)
                <==> ToggleTakes(g, enabled))
  {
    hide IndexOfId, ParseSources, RepoId, Rebuilt, Toggled, ToggleTakes, IsOn, Fields, Rewrite, LinesOf, Groups;
    n := IdLeadsToStanza(file, text, repo);
    g := Groups(LinesOf(text))[n];
    ToggleCommutesWithParseIff(file, text, repo, enabled, n, g);
  }

  // ---------- The other stanzas, as text ----------

  predicate HasCr(g: seq<string>) {
    exists line <- g :: EndsWithCr(line)
  }

  lemma {:induction false} StrippingShortens(g: seq<string>)
    ensures |JoinLines(StripAll(g))| <= |JoinLines(g)|
    ensures HasCr(g) <==> |JoinLines(StripAll(g))| < |JoinLines(g)|
    ensures !HasCr(g) ==> StripAll(g) == g
  {
    hide EndsWithCr;
    if g != [] {
      var front, last := g[..|g| - 1], g[|g| - 1];
      StrippingShortens(front);
      assert g == front + [last];
      assert StripAll(g) == StripAll(front) + [StripCr(last)];
      assert HasCr(g) <==> HasCr(front) || EndsWithCr(last);
      JoinStep(front, last);
      JoinStep(StripAll(front), StripCr(last));
      StripCrShortens(last);
    }
  }

  lemma StripCrShortens(line: string)
    ensures |StripCr(line)| == if EndsWithCr(line) then |line| - 1 else |line|
  {
  }

  // Splitting the toggled text again gives as many stanzas; the target's is the rewritten one, and
  // another one is the same text exactly when no line of it ends in a carriage return.
  lemma ResplitKeepsOthersIff(text: string, n: nat, enabled: bool, j: nat, g: seq<string>)
    requires n < |Stanzas(text)| && j < |Stanzas(text)| && IsStanzaOf(text, j, g)
    ensures var again := Stanzas(Rebuilt(Stanzas(text), n, enabled));
            && |again| == |Stanzas(text)|
            && again[n] == JoinLines(StripAll(Rewrite(LinesOf(Stanzas(text)[n]), enabled)))
            && (j != n ==> (again[j] == Stanzas(text)[j] <==> !HasCr(g)))
  {
    hide IsGroup, LinesOf, JoinLines, Rewrite, Join, Terminated, Groups, HasCr;
    var groups := Groups(LinesOf(text));
    LinesAreLines(text);
    GroupsAreGroups(LinesOf(text));
    assert groups[n] in groups;
    var r := Rewrite(LinesOf(JoinLines(groups[n])), enabled);
    RewrittenGroup(groups[n], enabled);
    var changed := groups[n := r];
    assert AreGroups(changed);
    assert Joined(groups)[n := JoinLines(r)] == Joined(changed);
    ResplitIs(changed);
    StrippingShortens(g);
  }
}
