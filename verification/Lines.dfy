// str::lines and its inverses.
module Lines {
  import opened Text

  predicate EndsWithCr(line: string) {
    line != [] && line[|line| - 1] == '\r'
  }

  function StripCr(line: string): string {
    if EndsWithCr(line) then line[..|line| - 1] else line
  }

  function StripAll(lines: seq<string>): (r: seq<string>)
    ensures |r| == |lines|
  {
    seq(|lines|, i requires 0 <= i < |lines| => StripCr(lines[i]))
  }

  function LineEnd(text: string): (k: nat)
    ensures k <= |text| && '\n' !in text[..k]
    ensures k < |text| ==> text[k] == '\n'
  {
    if text == [] || text[0] == '\n' then 0 else 1 + LineEnd(text[1..])
  }

  // A carriage return goes with the newline it stands before; an unterminated last line keeps its own.
  function LinesOf(text: string): seq<string> {
    var k := LineEnd(text);
    if text == [] then []
    else if k == |text| then [text]
    else [StripCr(text[..k])] + LinesOf(text[k + 1..])
  }

  predicate IsLine(line: string) {
    '\n' !in line
  }

  predicate AreLines(lines: seq<string>) {
    forall line <- lines :: IsLine(line)
  }

  lemma {:induction false} LinesAreLines(text: string)
    ensures AreLines(LinesOf(text)) && |LinesOf(text)| <= |text|
  {
    var k := LineEnd(text);
    if k < |text| {
      LinesAreLines(text[k + 1..]);
    } else {
      assert text[..k] == text;
    }
  }

  // Every line followed by a newline.
  function Unlines(lines: seq<string>): string {
    if lines == [] then "" else Unlines(lines[..|lines| - 1]) + lines[|lines| - 1] + "\n"
  }

  // A newline between lines.
  function JoinLines(lines: seq<string>): string {
    if lines == [] then ""
    else if |lines| == 1 then lines[0]
    else JoinLines(lines[..|lines| - 1]) + "\n" + lines[|lines| - 1]
  }

  lemma JoinThenNewline(lines: seq<string>)
    requires lines != []
    ensures JoinLines(lines) + "\n" == Unlines(lines)
  {
    if |lines| == 1 {
      assert Unlines(lines[..0]) == "";
      assert lines[0] + "\n" == "" + lines[0] + "\n";
    } else {
      JoinThenNewline(lines[..|lines| - 1]);
    }
  }

  lemma LinesAfterLine(line: string, rest: string)
    requires IsLine(line)
    ensures LinesOf(line + "\n" + rest) == [StripCr(line)] + LinesOf(rest)
  {
    var text := line + "\n" + rest;
    LineEndIs(text, |line|);
    assert text[..|line|] == line && text[|line| + 1..] == rest;
  }

  lemma {:induction false} LineEndIs(text: string, k: nat)
    requires k < |text| && '\n' !in text[..k] && text[k] == '\n'
    ensures LineEnd(text) == k
  {
    if k > 0 {
      assert text[0] == text[..k][0] && text[1..][..k - 1] == text[..k][1..];
      LineEndIs(text[1..], k - 1);
    }
  }

  // Reading back what was written line by line, with more text behind it.
  lemma {:induction false} LinesOfUnlines(lines: seq<string>, rest: string)
    requires AreLines(lines)
    ensures LinesOf(Unlines(lines) + rest) == StripAll(lines) + LinesOf(rest)
  {
    hide LinesOf, StripCr;
    if lines == [] {
      assert Unlines(lines) + rest == rest;
    } else {
      var front, last := lines[..|lines| - 1], lines[|lines| - 1];
      assert last in lines;
      LinesOfUnlines(front, last + "\n" + rest);
      LinesAfterLine(last, rest);
      assert Unlines(lines) + rest == Unlines(front) + (last + "\n" + rest);
      assert StripAll(lines) == StripAll(front) + [StripCr(last)];
    }
  }

  // The lines of joined lines: all but the last have been terminated.
  lemma LinesOfJoin(front: seq<string>, last: string)
    requires AreLines(front) && IsLine(last) && last != ""
    ensures LinesOf(JoinLines(front + [last])) == StripAll(front) + [last]
  {
    var lines := front + [last];
    if front == [] {
      assert lines == [last];
    } else {
      JoinThenNewline(front);
      LinesOfUnlines(front, last);
      assert lines[..|lines| - 1] == front;
      assert JoinLines(lines) == Unlines(front) + last;
    }
  }

  // A carriage return is white space, so trimming does not see it.
  lemma TrimOfStripped(line: string)
    ensures Trim(StripCr(line)) == Trim(line)
    ensures IsBlank(StripCr(line)) <==> IsBlank(line)
  {
    if EndsWithCr(line) {
      TrimDropsPads("", StripCr(line), "\r");
      assert line == "" + StripCr(line) + "\r";
    }
  }
}
