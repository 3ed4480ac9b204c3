// Deb822 repository files: stanzas, their fields, and the Enabled toggle
// (crates/pertisk-daemon/src/updates.rs).
module Deb822 {
  import opened Prelude
  import opened Text
  import opened Lines

  // ---------- Stanzas ----------

  // The runs of lines that are not blank.
  function Groups(lines: seq<string>): seq<seq<string>> {
    var (closed, open) := Grouped(lines);
    if open == [] then closed else closed + [open]
  }

  // The runs that a blank line has ended, and the one still open.
  function Grouped(lines: seq<string>): (seq<seq<string>>, seq<string>) {
    if lines == [] then ([], [])
    else
      var (closed, open) := Grouped(lines[..|lines| - 1]);
      var last := lines[|lines| - 1];
      if !IsBlank(last) then (closed, open + [last])
      else (if open == [] then closed else closed + [open], [])
  }

  function Joined(groups: seq<seq<string>>): (r: seq<string>)
    ensures |r| == |groups|
  {
    seq(|groups|, i requires 0 <= i < |groups| => JoinLines(groups[i]))
  }

  function Stanzas(text: string): seq<string> {
    Joined(Groups(LinesOf(text)))
  }

  // What a stanza's lines look like.
  predicate IsGroup(g: seq<string>) {
    g != [] && AreLines(g) && forall line <- g :: !IsBlank(line)
  }

  predicate AreGroups(groups: seq<seq<string>>) {
    forall g <- groups :: IsGroup(g)
  }

  lemma {:induction false} GroupedAreGroups(lines: seq<string>)
    requires AreLines(lines)
    ensures AreGroups(Grouped(lines).0) && (Grouped(lines).1 != [] ==> IsGroup(Grouped(lines).1))
    ensures |Grouped(lines).0| + |Grouped(lines).1| <= |lines|
  {
    if lines != [] {
      assert lines[|lines| - 1] in lines;
      GroupedAreGroups(lines[..|lines| - 1]);
    }
  }

  lemma GroupsAreGroups(lines: seq<string>)
    requires AreLines(lines)
    ensures AreGroups(Groups(lines)) && |Groups(lines)| <= |lines|
  {
    GroupedAreGroups(lines);
  }

  lemma {:induction false} JoinIsBlankIff(g: seq<string>)
    requires forall line <- g :: !IsBlank(line)
    ensures IsBlank(JoinLines(g)) <==> g == []
    ensures JoinLines(g) == "" <==> g == []
  {
    if g != [] {
      var last := g[|g| - 1];
      assert last in g;
      var c :| c in last && !IsWhitespace(c);
      assert c in JoinLines(g);
    }
  }

  lemma GroupedNone()
    ensures Grouped([]) == ([], [])
  {
  }

  lemma GroupedStep(lines: seq<string>, i: nat)
    requires i < |lines|
    ensures var (closed, open) := Grouped(lines[..i]);
            Grouped(lines[..i + 1])
            == if !IsBlank(lines[i]) then (closed, open + [lines[i]])
               else (if open == [] then closed else closed + [open], [])
  {
    assert lines[..i + 1][..i] == lines[..i];
  }

  // The loop of split_stanzas.
  method SplitStanzas(text: string) returns (out: seq<string>)
    ensures out == Stanzas(text)
  {
    hide IsBlank, Trim, JoinLines, Grouped, LinesOf;
    GroupedNone();
    out := [];
    var cur := "";
    var lines := LinesOf(text);
    ghost var group: seq<string> := [];
    LinesAreLines(text);
    JoinIsBlankIff([]);
    for i := 0 to |lines|
      invariant group == Grouped(lines[..i]).1 && cur == JoinLines(group)
      invariant out == Joined(Grouped(lines[..i]).0)
      invariant forall line <- group :: !IsBlank(line)
    {
      var line := lines[i];
      GroupedStep(lines, i);
      JoinIsBlankIff(group);
      TrimEmptyIffBlank(line);
      TrimEmptyIffBlank(cur);
      JoinStep(group, line);
      if Trim(line) == "" {
        if Trim(cur) != "" {
          out := out + [cur];
          cur := "";
        }
        group := [];
        JoinIsBlankIff([]);
        continue;
      }
      if cur != "" {
        cur := cur + "\n";
      }
      cur := cur + line;
      group := group + [line];
    }
    assert lines[..|lines|] == lines;
    JoinIsBlankIff(group);
    TrimEmptyIffBlank(cur);
    if Trim(cur) != "" {
      out := out + [cur];
    }
  }

  lemma JoinStep(g: seq<string>, line: string)
    ensures JoinLines(g + [line]) == if g == [] then line else JoinLines(g) + "\n" + line
  {
    assert (g + [line])[..|g|] == g;
  }

  // ---------- Fields ----------

  datatype Reader = Reader(key: string, val: string, fields: map<string, string>)

  const START := Reader("", "", map[])

  function Flush(s: Reader): Reader {
    if s.key == "" then s else Reader("", "", s.fields[s.key := s.val])
  }

  predicate Continues(open: bool, line: string) {
    open && " " <= line
  }

  // A header's key and value.
  function Header(line: string): Option<(string, string)> {
    match SplitOnce(line, ':')
    case None => None
    case Some((k, v)) => Some((Trim(k), Trim(v)))
  }

  function Continued(val: string, line: string): string
    requires " " <= line
  {
    (if val == "" then "" else val + " ") + Trim(line[1..])
  }

  function Read(s: Reader, line: string): Reader {
    if Continues(s.key != "", line) then s.(val := Continued(s.val, line))
    else
      match Header(line)
      case None => Flush(s)
      case Some((k, v)) => Flush(s).(key := k, val := v)
  }

  function ReadAll(s: Reader, lines: seq<string>): Reader
    decreases lines
  {
    if lines == [] then s else ReadAll(Read(s, lines[0]), lines[1..])
  }

  function Fields(lines: seq<string>): map<string, string> {
    Flush(ReadAll(START, lines)).fields
  }

  // The loop of parse_deb822_fields.
  method ParseFields(stanza: string) returns (fields: map<string, string>)
    ensures fields == Fields(LinesOf(stanza))
  {
    hide SplitOnce, Trim, LinesOf;
    fields := map[];
    var key, val := "", "";
    var lines := LinesOf(stanza);
    for i := 0 to |lines|
      invariant Reader(key, val, fields) == ReadAll(START, lines[..i])
    {
      var line := lines[i];
      ReadStep(START, lines[..i], line);
      assert lines[..i + 1] == lines[..i] + [line];
      if " " <= line && key != "" {
        if val != "" {
          val := val + " ";
        }
        val := val + Trim(line[1..]);
        continue;
      }
      if key != "" {
        fields := fields[key := val];
        key, val := "", "";
      }
      var header := SplitOnce(line, ':');
      if header.Some? {
        key, val := Trim(header.value.0), Trim(header.value.1);
      }
    }
    assert lines[..|lines|] == lines;
    if key != "" {
      fields := fields[key := val];
    }
  }

  lemma {:induction false} ReadStep(s: Reader, lines: seq<string>, line: string)
    ensures ReadAll(s, lines + [line]) == Read(ReadAll(s, lines), line)
    decreases lines
  {
    if lines != [] {
      assert (lines + [line])[1..] == lines[1..] + [line];
      ReadStep(Read(s, lines[0]), lines[1..], line);
    } else {
      assert ([line])[1..] == [];
      assert lines + [line] == [line];
    }
  }

  // ---------- Carriage returns do not matter ----------

  // The same lines, some of them without a final carriage return.
  predicate OnlyCr(a: seq<string>, b: seq<string>) {
    |a| == |b| && forall i | 0 <= i < |a| :: a[i] == b[i] || a[i] == StripCr(b[i])
  }

  lemma ReadIgnoresCr(s: Reader, line: string)
    requires !IsBlank(line)
    ensures Read(s, StripCr(line)) == Read(s, line)
  {
    hide Trim, SplitOnce;
    if EndsWithCr(line) {
      var front := StripCr(line);
      assert line == front + "\r";
      TrimOfStripped(line);
      SplitOnceOfLonger(front, ':', "\r");
      if front != "" {
        assert line[1..] == front[1..] + "\r" && EndsWithCr(line[1..]) && StripCr(line[1..]) == front[1..];
        TrimOfStripped(line[1..]);
      }
      match SplitOnce(front, ':')
      case None =>
      case Some((k, v)) =>
        assert StripCr(v + "\r") == v;
        TrimOfStripped(v + "\r");
    }
  }

  lemma {:induction false} ReadAllIgnoresCr(s: Reader, a: seq<string>, b: seq<string>)
    requires OnlyCr(a, b) && forall line <- b :: !IsBlank(line)
    ensures ReadAll(s, a) == ReadAll(s, b)
    decreases a
  {
    if a != [] {
      ReadIgnoresCr(s, b[0]);
      ReadAllIgnoresCr(Read(s, a[0]), a[1..], b[1..]);
    }
  }

  // Joining a group's lines and splitting them again.
  lemma LinesOfGroup(g: seq<string>)
    requires IsGroup(g)
    ensures OnlyCr(LinesOf(JoinLines(g)), g) && IsGroup(LinesOf(JoinLines(g)))
    ensures Fields(LinesOf(JoinLines(g))) == Fields(g)
  {
    hide LinesOf, JoinLines, IsBlank, ReadAll, StripCr;
    var front, last := g[..|g| - 1], g[|g| - 1];
    assert g == front + [last] && last in g && last != "" by {
      LastNotEmpty(g);
    }
    LinesOfJoin(front, last);
    var lines := StripAll(front) + [last];
    forall i | 0 <= i < |lines|
      ensures !IsBlank(lines[i]) && IsLine(lines[i])
    {
      assert g[i] in g;
      TrimOfStripped(g[i]);
      StrippedIsLine(g[i]);
    }
    ReadAllIgnoresCr(START, lines, g);
  }

  lemma LastNotEmpty(g: seq<string>)
    requires IsGroup(g)
    ensures g[|g| - 1] != ""
  {
    assert g[|g| - 1] in g;
    assert IsBlank("");
  }

  lemma StrippedIsLine(line: string)
    requires IsLine(line)
    ensures IsLine(StripCr(line))
  {
  }

  // ---------- The toggle ----------

  predicate IsEnabledLine(line: string) {
    "enabled:" <= Lowered(line)
  }

  function EnabledValue(enabled: bool): string {
    if enabled then "yes" else "no"
  }

  function EnabledLine(enabled: bool): string {
    "Enabled: " + EnabledValue(enabled)
  }

  function RewriteEach(lines: seq<string>, enabled: bool): (r: seq<string>)
    ensures |r| == |lines|
  {
    seq(|lines|, i requires 0 <= i < |lines| => if IsEnabledLine(lines[i]) then EnabledLine(enabled) else lines[i])
  }

  predicate HasEnabledLine(lines: seq<string>) {
    exists line <- lines :: IsEnabledLine(line)
  }

  function Rewrite(lines: seq<string>, enabled: bool): seq<string> {
    RewriteEach(lines, enabled) + if HasEnabledLine(lines) then [] else [EnabledLine(enabled)]
  }

  method RewriteEnabledField(stanza: string, enabled: bool) returns (r: string)
    ensures r == JoinLines(Rewrite(LinesOf(stanza), enabled))
  {
    hide IsEnabledLine, LinesOf, JoinLines;
    var value := EnabledValue(enabled);
    var seen := false;
    var lines: seq<string> := [];
    var source := LinesOf(stanza);
    for i := 0 to |source|
      invariant lines == RewriteEach(source[..i], enabled) && (seen <==> HasEnabledLine(source[..i]))
    {
      assert source[..i + 1] == source[..i] + [source[i]];
      if IsEnabledLine(source[i]) {
        lines := lines + ["Enabled: " + value];
        seen := true;
      } else {
        lines := lines + [source[i]];
      }
    }
    assert source[..|source|] == source;
    if !seen {
      lines := lines + ["Enabled: " + value];
    }
    assert lines == Rewrite(source, enabled);
    r := JoinLines(lines);
  }
}
