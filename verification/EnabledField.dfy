// What rewriting the Enabled lines of a stanza does to its fields
// (crates/pertisk-daemon/src/updates.rs).
module EnabledField {
  import opened Prelude
  import opened Text
  import opened Deb822

  // ---------- The other fields ----------

  predicate IsVariant(key: string) {
    Lowered(key) == "enabled"
  }

  predicate AgreeElsewhere(a: map<string, string>, b: map<string, string>) {
    && (forall k <- a | !IsVariant(k) :: k in b && b[k] == a[k])
    && (forall k <- b | !IsVariant(k) :: k in a)
  }

  // Two readers that differ at most in a field named enabled, in some case of letters.
  predicate Alike(s: Reader, t: Reader) {
    && AgreeElsewhere(s.fields, t.fields)
    && (|| (s.key == t.key && s.val == t.val)
        || (IsVariant(s.key) && IsVariant(t.key)))
  }

  lemma FlushKeepsAlike(s: Reader, t: Reader)
    requires Alike(s, t)
    ensures Alike(Flush(s), Flush(t)) && Flush(s).val == Flush(t).val
  {
    assert !IsVariant("");
  }

  // A line that the toggle rewrites starts a field named enabled, in some case of letters.
  lemma EnabledLineHeads(line: string)
    requires IsEnabledLine(line)
    ensures !(" " <= line) && Header(line).Some? && IsVariant(Header(line).value.0)
  {
    var name := line[..7];
    forall i | 0 <= i < 7
      ensures LowerAscii(name[i]) == "enabled"[i] && !IsWhitespace(name[i]) && name[i] != ':'
    {
      assert Lowered(line)[i] == "enabled:"[i];
    }
    assert Lowered(line)[7] == ':' && line[7] == ':';
    assert Lowered(name) == "enabled";
    assert ':' !in name;
    SplitOnceAtFirst(name, ':', line[8..]);
    assert line == name + [':'] + line[8..];
    TrimOfTrimmed(name);
  }

  lemma NewLineHeads(enabled: bool)
    ensures IsEnabledLine(EnabledLine(enabled))
    ensures Header(EnabledLine(enabled)) == Some(("Enabled", EnabledValue(enabled)))
    ensures IsVariant("Enabled")
  {
    var value := EnabledValue(enabled);
    var line := EnabledLine(enabled);
    assert Lowered("Enabled") == "enabled";
    assert Lowered(line)[..8] == "enabled:";
    SplitOnceAtFirst("Enabled", ':', " " + value);
    assert line == "Enabled" + [':'] + (" " + value);
    TrimOfTrimmed("Enabled");
    TrimOfTrimmed(value);
    TrimDropsPads(" ", value, "");
    assert " " + value + "" == " " + value;
  }

  lemma ReadKeepsAlike(s: Reader, t: Reader, line: string, enabled: bool)
    requires Alike(s, t)
    ensures Alike(Read(s, line), Read(t, if IsEnabledLine(line) then EnabledLine(enabled) else line))
  {
    hide IsEnabledLine, Header, Trim, Flush, EnabledLine, IsVariant;
    FlushKeepsAlike(s, t);
    assert !IsVariant("") by {
      EmptyIsNoVariant();
    }
    NewLineHeads(enabled);
    if IsEnabledLine(line) {
      EnabledLineHeads(line);
      EnabledLineHeads(EnabledLine(enabled));
    }
  }

  lemma EmptyIsNoVariant()
    ensures !IsVariant("")
  {
  }

  lemma {:induction false} RewriteKeepsAlike(s: Reader, t: Reader, lines: seq<string>, enabled: bool)
    requires Alike(s, t)
    ensures Alike(ReadAll(s, lines), ReadAll(t, RewriteEach(lines, enabled)))
    decreases lines
  {
    hide Read, IsEnabledLine, Alike;
    if lines != [] {
      ReadKeepsAlike(s, t, lines[0], enabled);
      var line := if IsEnabledLine(lines[0]) then EnabledLine(enabled) else lines[0];
      RewriteKeepsAlike(Read(s, lines[0]), Read(t, line), lines[1..], enabled);
      assert RewriteEach(lines, enabled)[1..] == RewriteEach(lines[1..], enabled);
    }
  }

  // Every field but those named enabled comes out as it was.
  lemma RewriteKeepsOtherFields(lines: seq<string>, enabled: bool)
    ensures AgreeElsewhere(Fields(lines), Fields(Rewrite(lines, enabled)))
  {
    hide Read, Header, RewriteEach, EnabledLine, AgreeElsewhere, IsVariant;
    assert AgreeElsewhere(map[], map[]) by {
      NothingAgrees();
    }
    RewriteKeepsAlike(START, START, lines, enabled);
    var each := RewriteEach(lines, enabled);
    var s, t := ReadAll(START, lines), ReadAll(START, each);
    FlushKeepsAlike(s, t);
    if !HasEnabledLine(lines) {
      ReadStep(START, each, EnabledLine(enabled));
      AppendedField(t, enabled);
      NewLineHeads(enabled);
      AddingEnabled(Flush(s).fields, Flush(t).fields, EnabledValue(enabled));
    } else {
      assert Rewrite(lines, enabled) == each;
    }
  }

  lemma NothingAgrees()
    ensures AgreeElsewhere(map[], map[])
  {
  }

  lemma AddingEnabled(a: map<string, string>, b: map<string, string>, value: string)
    requires AgreeElsewhere(a, b) && IsVariant("Enabled")
    ensures AgreeElsewhere(a, b["Enabled" := value])
  {
  }

  // A last line that sets the field.
  lemma AppendedField(s: Reader, enabled: bool)
    ensures Flush(Read(s, EnabledLine(enabled))).fields == Flush(s).fields["Enabled" := EnabledValue(enabled)]
  {
    hide Header, EnabledLine;
    NewLineHeads(enabled);
    EnabledLineHeads(EnabledLine(enabled));
  }

  // ---------- The Enabled field itself ----------

  predicate ReadsEnabled(value: string) {
    Lowered(value) != "no" && Lowered(value) != "false"
  }

  predicate IsOn(fields: map<string, string>) {
    "Enabled" in fields ==> ReadsEnabled(fields["Enabled"])
  }

  // Which line has the last word on the field once the Enabled lines are rewritten: none, a rewritten
  // line (with or without a continuation line after it), or a line that is read as a header of that
  // name but is not rewritten, such as `Enabled : no`.
  datatype Decision = Undecided | Rewritten(continued: bool) | Kept

  predicate Sets(open: bool, line: string) {
    !Continues(open, line) && Header(line).Some? && Header(line).value.0 == "Enabled"
  }

  predicate OpenAfter(open: bool, line: string) {
    Continues(open, line) || (Header(line).Some? && Header(line).value.0 != "")
  }

  predicate StartsContinued(lines: seq<string>) {
    lines != [] && " " <= lines[0]
  }

  // `open` tells whether a field is being read when the lines start.
  function Decide(open: bool, lines: seq<string>): Decision
    decreases lines
  {
    if lines == [] then Undecided
    else
      var later := Decide(OpenAfter(open, lines[0]), lines[1..]);
      if !later.Undecided? then later
      else if IsEnabledLine(lines[0]) then Rewritten(StartsContinued(lines[1..]))
      else if Sets(open, lines[0]) then Kept
      else Undecided
  }

  function Final(s: Reader, lines: seq<string>): map<string, string> {
    Flush(ReadAll(s, lines)).fields
  }

  function TailValue(val: string, lines: seq<string>): string
    decreases lines
  {
    if StartsContinued(lines) then TailValue(Continued(val, lines[0]), lines[1..]) else val
  }

  lemma {:induction false} TailValueExtends(val: string, lines: seq<string>)
    requires val != ""
    ensures val <= TailValue(val, lines)
    ensures StartsContinued(lines) ==> val + " " <= TailValue(val, lines)
    decreases lines
  {
    if StartsContinued(lines) {
      TailValueExtends(Continued(val, lines[0]), lines[1..]);
    }
  }

  predicate SameEnabled(a: map<string, string>, b: map<string, string>) {
    ("Enabled" in a <==> "Enabled" in b) && ("Enabled" in a ==> a["Enabled"] == b["Enabled"])
  }

  // Lines that decide nothing: a field being read is finished, another one is left alone.
  lemma {:induction false} UndecidedTail(s: Reader, lines: seq<string>)
    requires Decide(s.key != "", lines).Undecided?
    ensures !HasEnabledLine(lines)
    ensures s.key == "Enabled" ==> "Enabled" in Final(s, lines) && Final(s, lines)["Enabled"] == TailValue(s.val, lines)
    ensures s.key != "Enabled" ==> SameEnabled(Final(s, lines), s.fields)
    decreases lines
  {
    hide IsEnabledLine, Header;
    if lines != [] {
      UndecidedTail(Read(s, lines[0]), lines[1..]);
    }
  }

  lemma UndecidedIsUnchanged(open: bool, lines: seq<string>, enabled: bool)
    requires Decide(open, lines).Undecided?
    ensures RewriteEach(lines, enabled) == lines
  {
    var s := Reader(if open then "k" else "", "", map[]);
    UndecidedTail(s, lines);
  }

  lemma {:induction false} RewrittenDecides(s: Reader, lines: seq<string>, enabled: bool)
    requires Decide(s.key != "", lines).Rewritten?
    ensures HasEnabledLine(lines)
    ensures var final := Final(s, RewriteEach(lines, enabled));
            && "Enabled" in final
            && (if Decide(s.key != "", lines).continued then EnabledValue(enabled) + " " <= final["Enabled"]
                else final["Enabled"] == EnabledValue(enabled))
    decreases lines
  {
    hide IsEnabledLine, Header, Trim, EnabledLine;
    var each := RewriteEach(lines, enabled);
    assert each[1..] == RewriteEach(lines[1..], enabled);
    var next := Read(s, each[0]);
    NewLineHeads(enabled);
    EnabledLineHeads(EnabledLine(enabled));
    var later := Decide(OpenAfter(s.key != "", lines[0]), lines[1..]);
    if IsEnabledLine(lines[0]) {
      EnabledLineHeads(lines[0]);
      assert OpenAfter(s.key != "", lines[0]) by {
        EmptyIsNoVariant();
      }
    }
    if later.Undecided? {
      UndecidedIsUnchanged(OpenAfter(s.key != "", lines[0]), lines[1..], enabled);
      UndecidedTail(next, lines[1..]);
      TailValueExtends(EnabledValue(enabled), lines[1..]);
    } else {
      RewrittenDecides(next, lines[1..], enabled);
    }
  }

  lemma {:induction false} KeptDecides(s: Reader, t: Reader, lines: seq<string>, enabled: bool)
    requires (s.key != "") == (t.key != "") && Decide(s.key != "", lines).Kept?
    ensures "Enabled" in Final(s, lines) && SameEnabled(Final(s, lines), Final(t, RewriteEach(lines, enabled)))
    decreases lines
  {
    hide IsEnabledLine, Header, Trim, EnabledLine;
    var each := RewriteEach(lines, enabled);
    assert each[1..] == RewriteEach(lines[1..], enabled);
    NewLineHeads(enabled);
    EnabledLineHeads(EnabledLine(enabled));
    if IsEnabledLine(lines[0]) {
      EnabledLineHeads(lines[0]);
      EmptyIsNoVariant();
    }
    var later := Decide(OpenAfter(s.key != "", lines[0]), lines[1..]);
    if later.Undecided? {
      UndecidedIsUnchanged(OpenAfter(s.key != "", lines[0]), lines[1..], enabled);
      UndecidedTail(Read(s, lines[0]), lines[1..]);
      UndecidedTail(Read(t, lines[0]), lines[1..]);
    } else {
      KeptDecides(Read(s, lines[0]), Read(t, each[0]), lines[1..], enabled);
    }
  }

  // Whether the toggle takes: there is no line to rewrite; or the last word is a rewritten line's, and
  // `no` is not continued on the next line; or it is another line's, which says so already.
  predicate ToggleTakes(lines: seq<string>, enabled: bool) {
    || !HasEnabledLine(lines)
    || match Decide(false, lines)
       case Undecided => true
       case Rewritten(continued) => enabled || !continued
       case Kept => IsOn(Fields(lines)) == enabled
  }

  lemma ReadsPlain(enabled: bool)
    ensures ReadsEnabled(EnabledValue(enabled)) == enabled
  {
    assert Lowered("yes")[0] == 'y' && Lowered("no") == "no";
  }

  lemma ReadsContinued(enabled: bool, value: string)
    requires EnabledValue(enabled) + " " <= value
    ensures ReadsEnabled(value)
  {
    var start := EnabledValue(enabled) + " ";
    assert |Lowered(value)| >= 3 && Lowered(value)[0] == start[0];
    assert "false"[0] == 'f' && |"no"| == 2;
  }

  // The flag read after the rewrite is the one asked for exactly when the toggle takes.
  lemma RewriteSetsFlagIff(lines: seq<string>, enabled: bool)
    ensures IsOn(Fields(Rewrite(lines, enabled))) == enabled <==> ToggleTakes(lines, enabled)
  {
    hide IsEnabledLine, Header, EnabledLine, Read, ReadsEnabled, EnabledValue, Lowered, HasEnabledLine;
    var each := RewriteEach(lines, enabled);
    ReadsPlain(enabled);
    if !HasEnabledLine(lines) {
      ReadStep(START, each, EnabledLine(enabled));
      AppendedField(ReadAll(START, each), enabled);
    } else {
      assert Rewrite(lines, enabled) == each;
      match Decide(false, lines)
      case Undecided =>
        UndecidedTail(START, lines);
      case Rewritten(continued) =>
        RewrittenDecides(START, lines, enabled);
        if continued {
          ReadsContinued(enabled, Final(START, each)["Enabled"]);
        }
      case Kept =>
        KeptDecides(START, START, lines, enabled);
    }
  }

  // The service only toggles a repository whose flag differs from the one asked for. Then the lines
  // alone decide.
  lemma AskedToggleTakesIff(lines: seq<string>, enabled: bool)
    requires IsOn(Fields(lines)) != enabled
    ensures IsOn(Fields(Rewrite(lines, enabled))) == enabled
       <==> || !HasEnabledLine(lines)
            || (Decide(false, lines).Rewritten? && (enabled || !Decide(false, lines).continued))
  {
    hide Fields, Rewrite, Decide, HasEnabledLine, IsOn;
    RewriteSetsFlagIff(lines, enabled);
    if Decide(false, lines).Undecided? {
      UndecidedTail(START, lines);
    }
  }

  // One plain Enabled field at most: the toggle takes.
  lemma PlainStanzaTakes(lines: seq<string>, enabled: bool, i: nat)
    requires i < |lines| && IsEnabledLine(lines[i]) && !StartsContinued(lines[i + 1..])
    requires forall j | 0 <= j < |lines| && j != i ::
               !IsEnabledLine(lines[j]) && (Header(lines[j]).Some? ==> Header(lines[j]).value.0 != "Enabled")
    ensures ToggleTakes(lines, enabled)
  {
    PlainDecision(false, lines, i);
  }

  lemma {:induction false} PlainDecision(open: bool, lines: seq<string>, i: nat)
    requires i <= |lines| && (i < |lines| ==> IsEnabledLine(lines[i]) && !StartsContinued(lines[i + 1..]))
    requires forall j | 0 <= j < |lines| && j != i ::
               !IsEnabledLine(lines[j]) && (Header(lines[j]).Some? ==> Header(lines[j]).value.0 != "Enabled")
    ensures Decide(open, lines) == if i < |lines| then Rewritten(false) else Undecided
    decreases lines
  {
    hide IsEnabledLine, Header;
    if lines != [] {
      if i == 0 {
        PlainDecision(OpenAfter(open, lines[0]), lines[1..], |lines| - 1);
      } else {
        assert i < |lines| ==> lines[i + 1..] == lines[1..][i..];
        PlainDecision(OpenAfter(open, lines[0]), lines[1..], i - 1);
      }
    }
  }

  // A stanza that cannot be disabled: its Enabled line goes on on the next line.
  lemma ContinuedNoStaysOn()
    ensures IsOn(Fields(Rewrite(["Enabled: yes", " x"], false)))
  {
    hide IsEnabledLine, Header, EnabledLine;
    var lines := [EnabledLine(true), " x"];
    assert lines == ["Enabled: yes", " x"] by {
      EnabledLineIs();
    }
    NewLineHeads(true);
    SpaceIsNoHeader();
    assert lines[1..] == [" x"];
    assert Decide(OpenAfter(false, lines[0]), [" x"]) == Undecided by {
      assert [" x"][1..] == [];
    }
    assert Decide(false, lines) == Rewritten(true);
    assert lines[0] in lines;
    hide Rewrite, Fields, Decide;
    RewriteSetsFlagIff(lines, false);
  }

  lemma EnabledLineIs()
    ensures EnabledLine(true) == "Enabled: yes"
  {
  }

  lemma SpaceIsNoHeader()
    ensures !IsEnabledLine(" x") && Header(" x") == None
  {
    assert Lowered(" x")[0] == ' ';
    NoSplit(" x", ':');
  }
}
