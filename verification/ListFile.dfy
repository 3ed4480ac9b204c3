// One-line repository files and their toggle (crates/pertisk-daemon/src/updates.rs).
module ListFile {
  import opened Prelude
  import opened Text
  import opened Lines
  import opened Repositories

  // `deb [options] URI SUITE COMPONENTS...`
  function ParseDebLine(line: string): Option<Entry> {
    var rest := Trim(line);
    if "deb-src" <= rest then ParseDebBody("deb-src", Trim(rest[7..]))
    else if "deb" <= rest then ParseDebBody("deb", Trim(rest[3..]))
    else None
  }

  function ParseDebBody(types: string, rest: string): Option<Entry> {
    if "[" <= rest then
      match SplitOnce(rest, ']')
      case None => None
      case Some((_, after)) => ParseDebWords(types, SplitWhitespace(Trim(after)))
    else ParseDebWords(types, SplitWhitespace(rest))
  }

  function ParseDebWords(types: string, words: seq<string>): Option<Entry> {
    if |words| < 2 then None else Some(Entry(true, types, words[0], words[1], Join(words[2..], " ")))
  }

  // One line: a repository, or a repository commented out.
  function ParseLine(raw: string): Option<Entry> {
    var trimmed := Trim(raw);
    if "#" <= trimmed then
      var rest := Trim(trimmed[1..]);
      if "deb" <= rest then
        match ParseDebLine(rest)
        case None => None
        case Some(entry) => Some(entry.(enabled := false))
      else None
    else ParseDebLine(trimmed)
  }

  function ParseLines(lines: seq<string>): (r: seq<Option<Entry>>)
    ensures |r| == |lines|
  {
    seq(|lines|, i requires 0 <= i < |lines| => ParseLine(lines[i]))
  }

  method ParseListFile(file: string, text: string) returns (out: seq<AptRepository>)
    ensures out == Listed(file, ParseLines(LinesOf(text)))
  {
    hide Trim, ParseDebLine, SplitWhitespace;
    out := [];
    var lines := LinesOf(text);
    for i := 0 to |lines|
      invariant out == Listed(file, ParseLines(lines[..i]))
    {
      assert ParseLines(lines[..i + 1])[..i] == ParseLines(lines[..i]);
      assert lines[..i + 1][i] == lines[i];
      ghost var entry := ParseLine(lines[i]);
      assert ParseLines(lines[..i + 1])[i] == entry;
      var trimmed := Trim(lines[i]);
      if trimmed == "" {
        NoRepoInBlank();
        continue;
      }
      var enabled, body := true, trimmed;
      if "#" <= trimmed {
        var rest := Trim(trimmed[1..]);
        if "deb" <= rest {
          enabled, body := false, rest;
        } else {
          continue;
        }
      }
      var repo := ParseDebLine(body);
      if repo.None? {
        continue;
      }
      DebLineIsEnabled(body);
      out := out + [AptRepository(RepoId(file, i), file, repo.value.(enabled := enabled))];
    }
    assert lines[..|lines|] == lines;
  }

  lemma NoRepoInBlank()
    ensures ParseDebLine("") == None
  {
  }

  lemma DebLineIsEnabled(line: string)
    ensures ParseDebLine(line).Some? ==> ParseDebLine(line).value.enabled
  {
  }

  // What the toggle makes of its line.
  function ToggleLine(raw: string, enabled: bool): string {
    var trimmed := Trim(raw);
    var body := if "#" <= trimmed then Trim(trimmed[1..]) else trimmed;
    if enabled then body
    else if "#" <= trimmed then raw
    else "# " + body
  }

  method SetListEnabled(text: string, repo: AptRepository, enabled: bool) returns (r: Result<string, string>)
    ensures var lines := LinesOf(text);
            && (forall n | 0 <= n < |lines| && repo.id == RepoId(repo.file, n) ::
                  r == Ok(Unlines(lines[n := ToggleLine(lines[n], enabled)])))
            && (r == Err("repository line not found in file")
                <==> forall n | 0 <= n < |lines| :: repo.id != RepoId(repo.file, n))
  {
    hide RepoId, Trim;
    var lines := LinesOf(text);
    var found := false;
    var out := "";
    ghost var at: nat := 0;
    ghost var edited := lines;
    for i := 0 to |lines|
      invariant found ==> at < i && repo.id == RepoId(repo.file, at)
      invariant !found ==> forall n | 0 <= n < i :: repo.id != RepoId(repo.file, n)
      invariant edited == if found then lines[at := ToggleLine(lines[at], enabled)] else lines
      invariant out == Unlines(edited[..i])
    {
      var raw := lines[i];
      assert edited[..i + 1][..i] == edited[..i];
      if RepoId(repo.file, i) != repo.id {
        out := out + raw + "\n";
        continue;
      }
      if found {
        RepoIdIsInjective(repo.file, i, at);
      }
      found, at := true, i;
      edited := lines[i := ToggleLine(raw, enabled)];
      var trimmed := Trim(raw);
      var body := if "#" <= trimmed then Trim(trimmed[1..]) else trimmed;
      assert edited[..i] == lines[..i] && edited[..i + 1][..i] == edited[..i];
      if enabled {
        out := out + body;
      } else if "#" <= trimmed {
        out := out + raw;
      } else {
        out := out + ("# " + body);
      }
      out := out + "\n";
    }
    assert edited[..|lines|] == edited;
    if !found {
      return Err("repository line not found in file");
    }
    forall n | 0 <= n < |lines| && repo.id == RepoId(repo.file, n)
      ensures n == at
    {
      RepoIdIsInjective(repo.file, n, at);
    }
    r := Ok(out);
  }

  lemma ParseLineIgnoresCr(line: string)
    ensures ParseLine(StripCr(line)) == ParseLine(line)
  {
    TrimOfStripped(line);
  }

  // A trimmed repository line, as it stands and commented out.
  lemma BodyParses(body: string)
    requires IsTrimmed(body) && "deb" <= body
    ensures ParseLine(body) == ParseDebLine(body)
    ensures ParseLine("# " + body)
         == if ParseDebLine(body).None? then None else Some(ParseDebLine(body).value.(enabled := false))
  {
    hide ParseDebLine, Trim;
    TrimOfTrimmed(body);
    var off := "# " + body;
    TrimOfTrimmed(off);
    TrimDropsPads(" ", body, "");
    assert off[1..] == " " + body + "";
    assert body[0] == 'd' && off[0] == '#';
  }

  // A repository line as it is written: `deb` or `deb-src`, options in brackets or none, and the words.
  function DebLine(types: string, options: Option<string>, words: seq<string>): string {
    types + (if options.Some? then " [" + options.value + "] " else " ") + Join(words, " ")
  }

  ghost predicate IsDebLine(types: string, options: Option<string>, words: seq<string>) {
    && (types == "deb" || types == "deb-src")
    && (options.Some? ==> ']' !in options.value)
    && |words| >= 2 && (forall w <- words :: IsWord(w)) && !("[" <= words[0])
  }

  lemma WordsAreTrimmed(words: seq<string>)
    requires words != [] && forall w <- words :: IsWord(w)
    ensures Join(words, " ") != "" && words[0] != "" && IsTrimmed(Join(words, " "))
    ensures Join(words, " ")[0] == words[0][0]
  {
    if |words| > 1 {
      JoinHead(words, " ");
    }
    var last := words[|words| - 1];
    assert words[0] in words && last in words;
    assert words[0][0] in words[0] && last[|last| - 1] in last;
  }

  lemma DebHead(types: string, rest: string)
    requires (types == "deb" || types == "deb-src") && " " <= rest && IsTrimmed(types + rest)
    ensures "deb" <= types + rest
    ensures ParseDebLine(types + rest) == ParseDebBody(types, Trim(rest))
  {
    hide ParseDebBody, Trim;
    var line := types + rest;
    TrimOfTrimmed(line);
    assert line[|types|..] == rest && line[|types|] == ' ';
    assert types == "deb" ==> line[3] == ' ' && "deb-src"[3] == '-';
  }

  // It parses to its kind, its first word as the URI, its second as the suite and the others as the
  // components; commented out it is the same repository, switched off.
  lemma DebLineParses(types: string, options: Option<string>, words: seq<string>)
    requires IsDebLine(types, options, words)
    ensures var entry := Entry(true, types, words[0], words[1], Join(words[2..], " "));
      && ParseLine(DebLine(types, options, words)) == Some(entry)
      && ParseLine("# " + DebLine(types, options, words)) == Some(entry.(enabled := false))
  {
    var body, line := Join(words, " "), DebLine(types, options, words);
    WordsAreTrimmed(words);
    SplitOfJoined(words);
    hide Trim, SplitWhitespace, Join, ParseDebLine, ParseDebBody, ParseLine;
    var rest := (if options.Some? then " [" + options.value + "] " else " ") + body;
    assert line == types + rest;
    assert line[|line| - 1] == body[|body| - 1];
    DebHead(types, rest);
    DebRestParses(types, options, body, words);
    BodyParses(line);
  }

  lemma DebRestParses(types: string, options: Option<string>, body: string, words: seq<string>)
    requires body != "" && IsTrimmed(body) && body[0] != '[' && SplitWhitespace(body) == words && |words| >= 2
    requires options.Some? ==> ']' !in options.value
    ensures var head := if options.Some? then " [" + options.value + "] " else " ";
      ParseDebBody(types, Trim(head + body)) == Some(Entry(true, types, words[0], words[1], Join(words[2..], " ")))
  {
    hide Trim, SplitWhitespace, Join;
    TrimOfTrimmed(body);
    if options.Some? {
      var bracket := "[" + options.value;
      var rest := bracket + [']'] + (" " + body);
      TrimDropsPads(" ", rest, "");
      assert " " + rest + "" == " [" + options.value + "] " + body;
      TrimOfTrimmed(rest);
      SplitOnceAtFirst(bracket, ']', " " + body);
      TrimDropsPads(" ", body, "");
      assert " " + body + "" == " " + body;
    } else {
      TrimDropsPads(" ", body, "");
      assert " " + body + "" == " " + body;
    }
  }

  // What the toggle writes, for a line that holds a repository between blanks, as it stands or
  // commented out.
  lemma ToggleLineIs(before: string, gap: string, body: string, after: string)
    requires IsBlank(before) && IsBlank(gap) && IsBlank(after) && IsTrimmed(body) && "deb" <= body
    ensures ToggleLine(before + body + after, true) == body
    ensures ToggleLine(before + body + after, false) == "# " + body
    ensures ToggleLine(before + ("#" + gap + body) + after, true) == body
    ensures ToggleLine(before + ("#" + gap + body) + after, false) == before + ("#" + gap + body) + after
  {
    var off := "#" + gap + body;
    hide Trim;
    TrimDropsPads(before, body, after);
    TrimDropsPads(before, off, after);
    TrimOfTrimmed(body);
    assert body[0] == 'd' && off[0] == '#' && off[|off| - 1] == body[|body| - 1];
    TrimOfTrimmed(off);
    TrimDropsPads(gap, body, "");
    assert off[1..] == gap + body + "";
  }

  // The line of a repository, once toggled, is the same repository with the flag asked for.
  lemma ToggledLineParses(raw: string, enabled: bool)
    requires ParseLine(raw).Some?
    ensures ParseLine(ToggleLine(raw, enabled)) == Some(ParseLine(raw).value.(enabled := enabled))
  {
    hide ParseDebBody, Trim;
    var trimmed := Trim(raw);
    TrimIsTrimmed(raw);
    DebLineIsEnabled(trimmed);
    if "#" <= trimmed {
      TrimIsTrimmed(trimmed[1..]);
      BodyParses(Trim(trimmed[1..]));
      DebLineIsEnabled(Trim(trimmed[1..]));
    } else {
      assert "deb" <= trimmed;
      BodyParses(trimmed);
    }
  }

  // For every text and every repository found in it, the toggle gives a text that parses to the same
  // repositories, with the same ids, and with only that one's flag changed.
  lemma ToggleCommutesWithParse(file: string, text: string, repo: AptRepository, enabled: bool, n: nat)
    requires n < |LinesOf(text)| && repo.id == RepoId(file, n)
    requires repo in Listed(file, ParseLines(LinesOf(text)))
    ensures var after := Unlines(LinesOf(text)[n := ToggleLine(LinesOf(text)[n], enabled)]);
            Listed(file, ParseLines(LinesOf(after)))
            == Toggled(Listed(file, ParseLines(LinesOf(text))), repo.id, enabled)
  {
    hide ParseLine, ToggleLine, RepoId, LinesOf, Listed, Toggled;
    var lines := LinesOf(text);
    var m := ListedIs(file, ParseLines(lines), repo);
    RepoIdIsInjective(file, n, m);
    var edited := lines[n := ToggleLine(lines[n], enabled)];
    LinesAreLines(text);
    ToggledIsLine(lines[n], enabled);
    LinesOfUnlines(edited, "");
    assert Unlines(edited) + "" == Unlines(edited);
    NoLines();
    assert LinesOf(Unlines(edited)) == StripAll(edited);
    ToggledLineParses(lines[n], enabled);
    forall i | 0 <= i < |edited|
      ensures ParseLine(StripAll(edited)[i]) == ParseLine(edited[i])
    {
      ParseLineIgnoresCr(edited[i]);
    }
    var entry := ParseLines(lines)[n].value;
    assert ParseLines(StripAll(edited)) == ParseLines(lines)[n := Some(entry.(enabled := enabled))];
    ListedToggles(file, ParseLines(lines), n, enabled);
  }

  lemma NoLines()
    ensures LinesOf("") == []
  {
  }

  lemma ToggledIsLine(raw: string, enabled: bool)
    requires IsLine(raw)
    ensures IsLine(ToggleLine(raw, enabled))
  {
    TrimIsLine(raw);
    TrimIsLine(if Trim(raw) != "" then Trim(raw)[1..] else "");
  }

  lemma TrimIsLine(s: string)
    requires IsLine(s)
    ensures IsLine(Trim(s))
  {
    TrimStartIsSuffix(s);
    TrimEndIsPrefix(TrimStart(s));
  }
}
