// What a deb822 stanza's lines say (crates/pertisk-daemon/src/updates.rs).
module Deb822Facts {
  import opened Prelude
  import opened Text
  import opened Lines
  import opened Repositories
  import opened Deb822
  import opened EnabledField
  import opened SourcesFile

  // ---------- Where the stanzas are ----------

  // Lines lo up to hi are not blank, and a blank line or an end of the text is on either side.
  ghost predicate IsRun(lines: seq<string>, lo: nat, hi: nat) {
    && lo < hi <= |lines|
    && (forall i | lo <= i < hi :: !IsBlank(lines[i]))
    && (lo == 0 || IsBlank(lines[lo - 1]))
    && (hi == |lines| || IsBlank(lines[hi]))
  }

  // The groups are the runs before line n, in order; `at` says where each one is.
  ghost predicate AreRuns(lines: seq<string>, groups: seq<seq<string>>, at: seq<(nat, nat)>, n: nat) {
    && n <= |lines| && |at| == |groups|
    && (forall k | 0 <= k < |at| ::
         IsRun(lines, at[k].0, at[k].1) && at[k].1 <= n && groups[k] == lines[at[k].0..at[k].1])
    && (forall k | 0 < k < |at| :: at[k - 1].1 < at[k].0)
    && forall i | 0 <= i < n && !IsBlank(lines[i]) :: InSomeRun(at, i)
  }

  ghost predicate InSomeRun(at: seq<(nat, nat)>, i: nat) {
    exists run <- at :: run.0 <= i < run.1
  }

  lemma AddRun(lines: seq<string>, groups: seq<seq<string>>, at: seq<(nat, nat)>, lo: nat, hi: nat)
    requires AreRuns(lines, groups, at, lo) && IsRun(lines, lo, hi)
    ensures AreRuns(lines, groups + [lines[lo..hi]], at + [(lo, hi)], hi)
  {
    var more := at + [(lo, hi)];
    assert (lo, hi) in more;
    forall i | 0 <= i < hi && !IsBlank(lines[i])
      ensures InSomeRun(more, i)
    {
      if i < lo {
        var run :| run in at && run.0 <= i < run.1;
        assert run in more;
      }
    }
  }

  lemma SkipBlank(lines: seq<string>, groups: seq<seq<string>>, at: seq<(nat, nat)>, n: nat)
    requires n < |lines| && IsBlank(lines[n]) && AreRuns(lines, groups, at, n)
    ensures AreRuns(lines, groups, at, n + 1)
  {
  }

  // What the loop knows after i lines: the open run began at `start`.
  ghost predicate Open(lines: seq<string>, i: nat, start: nat) {
    && start <= i <= |lines|
    && Grouped(lines[..i]).1 == lines[start..i]
    && (forall j | start <= j < i :: !IsBlank(lines[j]))
    && (start == 0 || IsBlank(lines[start - 1]))
  }

  lemma OpenStep(lines: seq<string>, i: nat, start: nat)
    requires i < |lines| && Open(lines, i, start)
    ensures Open(lines, i + 1, if IsBlank(lines[i]) then i + 1 else start)
    ensures Grouped(lines[..i + 1]).0
         == Grouped(lines[..i]).0 + if IsBlank(lines[i]) && start < i then [lines[start..i]] else []
    ensures start < i && IsBlank(lines[i]) ==> IsRun(lines, start, i)
  {
    hide IsBlank, Grouped;
    GroupedStep(lines, i);
    assert lines[start..i] + [lines[i]] == lines[start..i + 1];
  }

  lemma OneMoreLine(lines: seq<string>, i: nat, at: seq<(nat, nat)>, start: nat)
    returns (more: seq<(nat, nat)>, next: nat)
    requires i < |lines| && Open(lines, i, start) && AreRuns(lines, Grouped(lines[..i]).0, at, start)
    ensures Open(lines, i + 1, next) && AreRuns(lines, Grouped(lines[..i + 1]).0, more, next)
  {
    hide IsBlank, Grouped, AreRuns, IsRun;
    var closed := Grouped(lines[..i]).0;
    OpenStep(lines, i, start);
    assert closed + [] == closed;
    more, next := at, start;
    if IsBlank(lines[i]) {
      if start < i {
        AddRun(lines, closed, at, start, i);
        more := at + [(start, i)];
        SkipBlank(lines, closed + [lines[start..i]], more, i);
      } else {
        SkipBlank(lines, closed, at, i);
      }
      next := i + 1;
    }
  }

  lemma {:induction false} RunsUpTo(lines: seq<string>, i: nat) returns (at: seq<(nat, nat)>, start: nat)
    requires i <= |lines|
    ensures Open(lines, i, start) && AreRuns(lines, Grouped(lines[..i]).0, at, start)
  {
    if i == 0 {
      at, start := [], 0;
      GroupedNone();
      assert lines[..0] == [];
    } else {
      hide Open, AreRuns, Grouped;
      at, start := RunsUpTo(lines, i - 1);
      at, start := OneMoreLine(lines, i - 1, at, start);
    }
  }

  // The stanzas are exactly the runs of lines that are not blank, in order.
  lemma GroupsAreRuns(lines: seq<string>) returns (at: seq<(nat, nat)>)
    ensures AreRuns(lines, Groups(lines), at, |lines|)
  {
    var start;
    at, start := RunsUpTo(lines, |lines|);
    hide Open, AreRuns, Grouped, Groups;
    assert lines[..|lines|] == lines;
    if start < |lines| {
      LastRun(lines, start);
      AddRun(lines, Grouped(lines).0, at, start, |lines|);
      at := at + [(start, |lines|)];
    } else {
      NoLastRun(lines, start);
    }
  }

  lemma LastRun(lines: seq<string>, start: nat)
    requires Open(lines, |lines|, start) && start < |lines|
    ensures IsRun(lines, start, |lines|) && Groups(lines) == Grouped(lines).0 + [lines[start..|lines|]]
  {
    hide Grouped;
    assert lines[..|lines|] == lines;
  }

  lemma NoLastRun(lines: seq<string>, start: nat)
    requires Open(lines, |lines|, start) && start >= |lines|
    ensures start == |lines| && Groups(lines) == Grouped(lines).0
  {
    hide Grouped;
    assert lines[..|lines|] == lines;
  }

  // ---------- What the fields are ----------

  function Indented(parts: seq<string>): (r: seq<string>)
    ensures |r| == |parts|
  {
    seq(|parts|, i requires 0 <= i < |parts| => " " + parts[i])
  }

  // Continuation lines are joined to the value with blanks.
  lemma {:induction false} ContinuationsJoin(s: Reader, parts: seq<string>)
    requires s.key != "" && s.val != "" && forall p <- parts :: IsTrimmed(p)
    ensures ReadAll(s, Indented(parts)) == s.(val := Join([s.val] + parts, " "))
    decreases |parts|
  {
    hide Trim;
    if parts == [] {
      assert [s.val] + parts == [s.val];
    } else {
      var front, last := parts[..|parts| - 1], parts[|parts| - 1];
      assert last in parts;
      ContinuationsJoin(s, front);
      assert Indented(parts) == Indented(front) + [" " + last];
      ReadStep(s, Indented(front), " " + last);
      assert (" " + last)[1..] == last;
      TrimOfTrimmed(last);
      var all := [s.val] + parts;
      assert all[..|all| - 1] == [s.val] + front;
      JoinIsNotEmpty([s.val] + front);
    }
  }

  lemma {:induction false} JoinIsNotEmpty(parts: seq<string>)
    requires parts != [] && parts[0] != ""
    ensures Join(parts, " ") != ""
  {
    if |parts| > 1 {
      JoinIsNotEmpty(parts[..|parts| - 1]);
    }
  }

  function FieldLine(key: string, value: string): string {
    key + ": " + value
  }

  // A line that starts a field.
  lemma FieldStarts(s: Reader, key: string, value: string)
    requires key != "" && IsTrimmed(key) && ':' !in key && IsTrimmed(value)
    ensures Read(s, FieldLine(key, value)) == Flush(s).(key := key, val := value)
  {
    hide Trim, SplitOnce;
    var line := FieldLine(key, value);
    assert line == key + [':'] + (" " + value);
    SplitOnceAtFirst(key, ':', " " + value);
    TrimOfTrimmed(key);
    TrimOfTrimmed(value);
    TrimDropsPads(" ", value, "");
    assert " " + value + "" == " " + value;
    assert line[0] == key[0] && IsWhitespace(' ');
  }

  function Head(types: string, uri: string): seq<string> {
    [FieldLine("Types", types), FieldLine("URIs", uri)]
  }

  function Tail(suites: string, components: string, flag: string): seq<string> {
    [FieldLine("Suites", suites), FieldLine("Components", components), FieldLine("Enabled", flag)]
  }

  // A stanza as it is written, with the URIs on as many lines as there are.
  function StanzaLines(types: string, uris: seq<string>, suites: string, components: string, flag: string): seq<string>
    requires uris != []
  {
    Head(types, uris[0]) + (Indented(uris[1..]) + Tail(suites, components, flag))
  }

  lemma {:induction false} ReadBoth(s: Reader, a: seq<string>, b: seq<string>)
    ensures ReadAll(s, a + b) == ReadAll(ReadAll(s, a), b)
    decreases a
  {
    if a == [] {
      assert a + b == b;
    } else {
      assert (a + b)[1..] == a[1..] + b;
      ReadBoth(Read(s, a[0]), a[1..], b);
    }
  }

  // It parses to those fields; so the repository has the URIs, suites and components written, and is
  // on unless the flag is `no` or `false`, in whatever letters.
  lemma StanzaParses(types: string, uris: seq<string>, suites: string, components: string, flag: string)
    requires uris != [] && uris[0] != "" && forall u <- uris :: IsTrimmed(u)
    requires IsTrimmed(types) && IsTrimmed(suites) && IsTrimmed(components) && IsTrimmed(flag)
    ensures Fields(StanzaLines(types, uris, suites, components, flag))
         == map["Types" := types, "URIs" := Join(uris, " "), "Suites" := suites, "Components" := components,
                "Enabled" := flag]
  {
    hide Trim, SplitOnce, Read, FieldLine, Head, Tail, Join, ReadAll;
    var head, cont, tail := Head(types, uris[0]), Indented(uris[1..]), Tail(suites, components, flag);
    ReadBoth(START, head, cont + tail);
    HeadReads(types, uris[0]);
    var s := ReadAll(START, head);
    ReadBoth(s, cont, tail);
    ContinuationsJoin(s, uris[1..]);
    assert [s.val] + uris[1..] == uris;
    TailReads(s.(val := Join(uris, " ")), suites, components, flag);
  }

  lemma ReadLine(s: Reader, line: string)
    ensures ReadAll(s, [line]) == Read(s, line)
  {
    hide Read;
    assert [line][1..] == [];
  }

  lemma ReadLines(s: Reader, a: string, rest: seq<string>)
    ensures ReadAll(s, [a] + rest) == ReadAll(Read(s, a), rest)
  {
    hide Read;
    assert ([a] + rest)[1..] == rest;
  }

  lemma HeadReads(types: string, uri: string)
    requires IsTrimmed(types) && IsTrimmed(uri)
    ensures ReadAll(START, Head(types, uri)) == Reader("URIs", uri, map["Types" := types])
  {
    hide Read, FieldLine;
    FieldStarts(START, "Types", types);
    var s := Reader("Types", types, map[]);
    FieldStarts(s, "URIs", uri);
    assert Head(types, uri) == [FieldLine("Types", types)] + [FieldLine("URIs", uri)];
    ReadLines(START, FieldLine("Types", types), [FieldLine("URIs", uri)]);
    ReadLine(s, FieldLine("URIs", uri));
    hide ReadAll, IsTrimmed;
  }

  lemma TailReads(s: Reader, suites: string, components: string, flag: string)
    requires s.key == "URIs" && IsTrimmed(suites) && IsTrimmed(components) && IsTrimmed(flag)
    ensures Flush(ReadAll(s, Tail(suites, components, flag))).fields
         == s.fields["URIs" := s.val]["Suites" := suites]["Components" := components]["Enabled" := flag]
  {
    hide Read, FieldLine;
    var (a, b, c) := (FieldLine("Suites", suites), FieldLine("Components", components), FieldLine("Enabled", flag));
    assert Tail(suites, components, flag) == [a] + [b, c] && [b, c] == [b] + [c];
    FieldStarts(s, "Suites", suites);
    ReadLines(s, a, [b, c]);
    var s1 := Read(s, a);
    FieldStarts(s1, "Components", components);
    ReadLines(s1, b, [c]);
    FieldStarts(Read(s1, b), "Enabled", flag);
    ReadLine(Read(s1, b), c);
    hide ReadAll, IsTrimmed;
  }

  lemma StanzaIsRepository(types: string, uris: seq<string>, suites: string, components: string, flag: string,
                           kinds: seq<string>)
    requires uris != [] && uris[0] != "" && forall u <- uris :: IsTrimmed(u)
    requires kinds != [] && (forall k <- kinds :: IsWord(k)) && types == Join(kinds, " ")
    requires IsTrimmed(suites) && IsTrimmed(components) && IsTrimmed(flag)
    ensures EntryOf(Fields(StanzaLines(types, uris, suites, components, flag)))
         == if "deb" !in kinds && "deb-src" !in kinds then None
            else Some(Entry(Lowered(flag) != "no" && Lowered(flag) != "false",
                            if "deb" in kinds then "deb" else "deb-src", Join(uris, " "), suites, components))
  {
    SplitOfJoined(kinds);
    JoinedIsTrimmed(kinds);
    StanzaParses(types, uris, suites, components, flag);
    hide Join, Fields, SplitWhitespace, StanzaLines, Lowered;
  }

  lemma JoinedIsTrimmed(words: seq<string>)
    requires words != [] && forall w <- words :: IsWord(w)
    ensures IsTrimmed(Join(words, " "))
  {
    if |words| > 1 {
      JoinHead(words, " ");
    }
    var last := words[|words| - 1];
    assert words[0] in words && last in words;
    assert words[0][0] in words[0] && last[|last| - 1] in last;
  }

  // ---------- What the rewrite writes ----------

  // The line begins with `enabled:` in whatever letters.
  ghost predicate StartsEnabled(line: string) {
    |line| >= 8 && forall i | 0 <= i < 8 :: line[i] == "enabled:"[i] || line[i] == "ENABLED:"[i]
  }

  lemma EnabledLineIff(line: string)
    ensures IsEnabledLine(line) <==> StartsEnabled(line)
  {
    if |line| >= 8 {
      forall i | 0 <= i < 8
        ensures Lowered(line)[i] == "enabled:"[i] <==> line[i] == "enabled:"[i] || line[i] == "ENABLED:"[i]
      {
      }
      assert "enabled:" <= Lowered(line) <==> forall i | 0 <= i < 8 :: Lowered(line)[i] == "enabled:"[i];
    }
  }

  // Each such line, and no other, is replaced; one is added at the end when there is none.
  lemma RewriteIs(lines: seq<string>, enabled: bool)
    ensures var (out, line) := (Rewrite(lines, enabled), "Enabled: " + if enabled then "yes" else "no");
      && |out| >= |lines|
      && (forall i | 0 <= i < |lines| :: out[i] == if StartsEnabled(lines[i]) then line else lines[i])
      && out[|lines|..] == if exists l <- lines :: StartsEnabled(l) then [] else [line]
  {
    hide IsEnabledLine, StartsEnabled;
    forall l | l in lines
      ensures IsEnabledLine(l) <==> StartsEnabled(l)
    {
      EnabledLineIff(l);
    }
  }
}
