// The string operations of the Rust standard library that the control plane relies on.
module Text {
  import opened Prelude

  // Unicode White_Space.
  predicate IsWhitespace(c: char) {
    || '\U{9}' <= c <= '\U{D}'
    || c == ' ' || c == '\U{85}' || c == '\U{A0}' || c == '\U{1680}'
    || '\U{2000}' <= c <= '\U{200A}'
    || c == '\U{2028}' || c == '\U{2029}' || c == '\U{202F}' || c == '\U{205F}' || c == '\U{3000}'
  }

  predicate IsBlank(s: string) {
    forall c <- s :: IsWhitespace(c)
  }

  function TrimStart(s: string): string {
    if s != [] && IsWhitespace(s[0]) then TrimStart(s[1..]) else s
  }

  function TrimEnd(s: string): string {
    if s != [] && IsWhitespace(s[|s| - 1]) then TrimEnd(s[..|s| - 1]) else s
  }

  function Trim(s: string): string {
    TrimEnd(TrimStart(s))
  }

  lemma {:induction false} TrimStartDropsPad(pad: string, s: string)
    requires IsBlank(pad)
    ensures TrimStart(pad + s) == TrimStart(s)
  {
    if pad == [] {
      assert pad + s == s;
    } else {
      assert (pad + s)[1..] == pad[1..] + s && pad[0] in pad;
      TrimStartDropsPad(pad[1..], s);
    }
  }

  lemma {:induction false} TrimEndDropsPad(s: string, pad: string)
    requires IsBlank(pad)
    ensures TrimEnd(s + pad) == TrimEnd(s)
  {
    if pad == [] {
      assert s + pad == s;
    } else {
      assert (s + pad)[..|s + pad| - 1] == s + pad[..|pad| - 1] && pad[|pad| - 1] in pad;
      TrimEndDropsPad(s, pad[..|pad| - 1]);
    }
  }

  lemma {:induction false} TrimOfBlank(s: string)
    requires IsBlank(s)
    ensures TrimStart(s) == "" && Trim(s) == ""
  {
    if s != [] {
      assert s[0] in s;
      TrimOfBlank(s[1..]);
    }
  }

  lemma {:induction false} TrimDropsPads(a: string, s: string, b: string)
    requires IsBlank(a) && IsBlank(b)
    ensures Trim(a + s + b) == Trim(s)
  {
    assert a + s + b == a + (s + b);
    TrimStartDropsPad(a, s + b);
    TrimDropsEndPad(s, b);
  }

  lemma {:induction false} TrimDropsEndPad(s: string, b: string)
    requires IsBlank(b)
    ensures Trim(s + b) == Trim(s)
  {
    if s == [] {
      assert s + b == b;
      TrimOfBlank(b);
    } else if IsWhitespace(s[0]) {
      assert (s + b)[1..] == s[1..] + b;
      TrimDropsEndPad(s[1..], b);
    } else {
      TrimEndDropsPad(s, b);
    }
  }

  lemma {:induction false} TrimEmptyIffBlank(s: string)
    ensures Trim(s) == "" <==> IsBlank(s)
  {
    if IsBlank(s) {
      TrimOfBlank(s);
    } else {
      TrimStartIsSuffix(s);
      TrimEndIsPrefix(TrimStart(s));
      assert s == s[..|s| - |TrimStart(s)|] + TrimStart(s);
    }
  }

  predicate IsTrimmed(s: string) {
    s != [] ==> !IsWhitespace(s[0]) && !IsWhitespace(s[|s| - 1])
  }

  lemma TrimOfTrimmed(s: string)
    requires IsTrimmed(s)
    ensures Trim(s) == s
  {
  }

  lemma {:induction false} TrimEndIsPrefix(s: string)
    ensures TrimEnd(s) <= s && IsBlank(s[|TrimEnd(s)|..])
    ensures TrimEnd(s) != [] ==> !IsWhitespace(TrimEnd(s)[|TrimEnd(s)| - 1])
  {
    if s != [] && IsWhitespace(s[|s| - 1]) {
      TrimEndIsPrefix(s[..|s| - 1]);
    }
  }

  lemma {:induction false} TrimStartIsSuffix(s: string)
    ensures |TrimStart(s)| <= |s| && TrimStart(s) == s[|s| - |TrimStart(s)|..]
    ensures IsBlank(s[..|s| - |TrimStart(s)|])
    ensures TrimStart(s) != [] ==> !IsWhitespace(TrimStart(s)[0])
  {
    if s != [] && IsWhitespace(s[0]) {
      TrimStartIsSuffix(s[1..]);
    }
  }

  lemma TrimIsTrimmed(s: string)
    ensures IsTrimmed(Trim(s)) && Trim(Trim(s)) == Trim(s)
  {
    TrimStartIsSuffix(s);
    TrimEndIsPrefix(TrimStart(s));
    TrimOfTrimmed(Trim(s));
  }

  // The order of String: by code point, a prefix first.
  predicate StringLess(a: string, b: string) {
    if b == [] then false
    else if a == [] then true
    else a[0] < b[0] || (a[0] == b[0] && StringLess(a[1..], b[1..]))
  }

  // The strings agree up to some place, where a ends or has the smaller character.
  lemma {:induction false} StringLessIff(a: string, b: string)
    ensures StringLess(a, b) <==>
      exists i | 0 <= i < |b| :: i <= |a| && a[..i] == b[..i] && (i == |a| || a[i] < b[i])
  {
    if a != [] && b != [] && a[0] == b[0] {
      StringLessIff(a[1..], b[1..]);
      if i :| 0 <= i < |b[1..]| && i <= |a[1..]| && a[1..][..i] == b[1..][..i]
              && (i == |a[1..]| || a[1..][i] < b[1..][i]) {
        assert a[..i + 1] == [a[0]] + a[1..][..i] && b[..i + 1] == [b[0]] + b[1..][..i];
        assert a[..i + 1] == b[..i + 1];
      }
      if i :| 0 <= i < |b| && i <= |a| && a[..i] == b[..i] && (i == |a| || a[i] < b[i]) {
        assert a[1..][..i - 1] == a[..i][1..] && b[1..][..i - 1] == b[..i][1..];
        assert a[1..][..i - 1] == b[1..][..i - 1];
      }
    } else if a != [] && b != [] {
      assert a[..0] == b[..0];
      assert forall i | 0 < i <= |a| && i < |b| && a[..i] == b[..i] :: a[..i][0] == b[..i][0];
    } else if b != [] {
      assert a[..0] == b[..0];
    }
  }

  lemma {:induction false} StringLessIsTotal(a: string, b: string)
    ensures !(StringLess(a, b) && StringLess(b, a))
    ensures !StringLess(a, b) && !StringLess(b, a) <==> a == b
  {
    if a != [] && b != [] {
      StringLessIsTotal(a[1..], b[1..]);
      assert a == [a[0]] + a[1..] && b == [b[0]] + b[1..];
    }
  }

  lemma {:induction false} StringLessIsTransitive(a: string, b: string, c: string)
    requires StringLess(a, b) && StringLess(b, c)
    ensures StringLess(a, c)
  {
    if a != [] && a[0] == b[0] && b[0] == c[0] {
      StringLessIsTransitive(a[1..], b[1..], c[1..]);
    }
  }

  // ---------- Splitting ----------

  function Split(s: string, sep: char): (parts: seq<string>)
    ensures parts != []
  {
    if s == [] then [""]
    else
      var rest := Split(s[1..], sep);
      if s[0] == sep then [""] + rest else [[s[0]] + rest[0]] + rest[1..]
  }

  lemma {:induction false} SplitOfPart(a: string, sep: char)
    requires sep !in a
    ensures Split(a, sep) == [a]
  {
    if a != [] {
      assert a[0] in a && a == [a[0]] + a[1..];
      SplitOfPart(a[1..], sep);
    }
  }

  lemma {:induction false} SplitAfterPart(a: string, sep: char, s: string)
    requires sep !in a
    ensures Split(a + [sep] + s, sep) == [a] + Split(s, sep)
  {
    var whole := a + [sep] + s;
    if a == [] {
      assert whole[1..] == s;
    } else {
      assert a[0] in a && a == [a[0]] + a[1..];
      SplitAfterPart(a[1..], sep, s);
      assert whole[1..] == a[1..] + [sep] + s;
    }
  }

  // The parts hold no separator, and with one between each two they are the string again.
  lemma {:induction false} SplitIs(s: string, sep: char)
    ensures forall part <- Split(s, sep) :: sep !in part
    ensures JoinAll(Split(s, sep), sep) == s
  {
    if s != [] {
      SplitIs(s[1..], sep);
      var rest := Split(s[1..], sep);
      assert rest == [rest[0]] + rest[1..];
      assert s == [s[0]] + s[1..];
      if s[0] == sep {
        assert ([""] + rest)[1..] == rest;
      } else {
        assert ([[s[0]] + rest[0]] + rest[1..])[1..] == rest[1..];
      }
    }
  }

  function JoinAll(parts: seq<string>, sep: char): string {
    if parts == [] then ""
    else if |parts| == 1 then parts[0]
    else parts[0] + [sep] + JoinAll(parts[1..], sep)
  }

  // At the first separator.
  function SplitOnce(s: string, sep: char): Option<(string, string)> {
    if s == [] then None
    else if s[0] == sep then Some(("", s[1..]))
    else
      match SplitOnce(s[1..], sep)
      case None => None
      case Some((before, after)) => Some(([s[0]] + before, after))
  }

  lemma {:induction false} SplitOnceAtFirst(a: string, sep: char, s: string)
    requires sep !in a
    ensures SplitOnce(a + [sep] + s, sep) == Some((a, s))
  {
    var whole := a + [sep] + s;
    if a == [] {
      assert whole[1..] == s;
    } else {
      assert a[0] in a && a == [a[0]] + a[1..];
      SplitOnceAtFirst(a[1..], sep, s);
      assert whole[1..] == a[1..] + [sep] + s;
    }
  }

  // More text behind the separator's part.
  lemma {:induction false} SplitOnceOfLonger(s: string, sep: char, more: string)
    requires sep !in more
    ensures SplitOnce(s + more, sep)
         == match SplitOnce(s, sep)
            case None => None
            case Some((before, after)) => Some((before, after + more))
  {
    if s == [] {
      assert s + more == more;
      NoSplit(more, sep);
    } else {
      assert (s + more)[1..] == s[1..] + more;
      SplitOnceOfLonger(s[1..], sep, more);
    }
  }

  lemma {:induction false} NoSplit(s: string, sep: char)
    requires sep !in s
    ensures SplitOnce(s, sep) == None
  {
    if s != [] {
      assert s[0] in s;
      NoSplit(s[1..], sep);
    }
  }

  // At the last separator.
  function RSplitOnce(s: string, sep: char): Option<(string, string)> {
    if s == [] then None
    else if s[|s| - 1] == sep then Some((s[..|s| - 1], ""))
    else
      match RSplitOnce(s[..|s| - 1], sep)
      case None => None
      case Some((before, after)) => Some((before, after + [s[|s| - 1]]))
  }

  lemma {:induction false} RSplitOnceAtLast(a: string, sep: char, s: string)
    requires sep !in s
    ensures RSplitOnce(a + [sep] + s, sep) == Some((a, s))
  {
    var whole := a + [sep] + s;
    if s == [] {
      assert whole[..|whole| - 1] == a;
    } else {
      assert s[|s| - 1] in s && s == s[..|s| - 1] + [s[|s| - 1]];
      RSplitOnceAtLast(a, sep, s[..|s| - 1]);
      assert whole[..|whole| - 1] == a + [sep] + s[..|s| - 1];
    }
  }

  function LowerAscii(c: char): char {
    if 'A' <= c <= 'Z' then (c as int + 32) as char else c
  }

  function Lowered(s: string): (r: string)
    ensures |r| == |s|
  {
    seq(|s|, i requires 0 <= i < |s| => LowerAscii(s[i]))
  }

  function WordEnd(s: string): (k: nat)
    ensures k <= |s|
    ensures s != [] && !IsWhitespace(s[0]) ==> k > 0
  {
    if s == [] || IsWhitespace(s[0]) then 0 else 1 + WordEnd(s[1..])
  }

  function SplitWhitespace(s: string): seq<string>
    decreases |s|
  {
    TrimStartIsSuffix(s);
    var t := TrimStart(s);
    if t == "" then [] else [t[..WordEnd(t)]] + SplitWhitespace(t[WordEnd(t)..])
  }

  // A word: no white space in it, and something.
  predicate IsWord(s: string) {
    s != [] && forall c <- s :: !IsWhitespace(c)
  }

  lemma {:induction false} WordEndIs(w: string, rest: string)
    requires (forall c <- w :: !IsWhitespace(c)) && (rest == [] || IsWhitespace(rest[0]))
    ensures WordEnd(w + rest) == |w|
  {
    if w == [] {
      assert w + rest == rest;
    } else {
      assert w[0] in w && (w + rest)[1..] == w[1..] + rest;
      WordEndIs(w[1..], rest);
    }
  }

  lemma SplitsFirstWord(w: string, rest: string)
    requires IsWord(w) && (rest == [] || IsWhitespace(rest[0]))
    ensures SplitWhitespace(w + rest) == [w] + SplitWhitespace(rest)
  {
    assert w[0] in w && TrimStart(w + rest) == w + rest;
    WordEndIs(w, rest);
    assert (w + rest)[..|w|] == w && (w + rest)[|w|..] == rest;
  }

  // Words with blanks between them are split into those words.
  lemma {:induction false} SplitOfJoined(words: seq<string>)
    requires forall w <- words :: IsWord(w)
    ensures SplitWhitespace(Join(words, " ")) == words
  {
    if |words| == 1 {
      SplitsFirstWord(words[0], "");
      assert words[0] + "" == words[0] && words == [words[0]] + [];
    } else if words != [] {
      JoinHead(words, " ");
      var rest := Join(words[1..], " ");
      assert words[0] + " " + rest == words[0] + (" " + rest);
      SplitsFirstWord(words[0], " " + rest);
      assert TrimStart(" " + rest) == TrimStart(rest) by {
        assert (" " + rest)[1..] == rest;
      }
      SplitOfJoined(words[1..]);
      assert words == [words[0]] + words[1..];
    }
  }

  lemma {:induction false} JoinHead(parts: seq<string>, sep: string)
    requires |parts| >= 2
    ensures Join(parts, sep) == parts[0] + sep + Join(parts[1..], sep)
  {
    var front := parts[..|parts| - 1];
    if |parts| > 2 {
      JoinHead(front, sep);
      assert front[1..] == parts[1..][..|parts| - 2];
    } else {
      assert front == [parts[0]] && parts[1..] == [parts[1]];
    }
  }

  function Join(parts: seq<string>, sep: string): string {
    if parts == [] then ""
    else if |parts| == 1 then parts[0]
    else Join(parts[..|parts| - 1], sep) + sep + parts[|parts| - 1]
  }

  // ---------- Decimal numbers ----------

  predicate IsDigit(c: char) {
    '0' <= c <= '9'
  }

  predicate AllDigits(s: string) {
    forall c <- s :: IsDigit(c)
  }

  function DigitValue(c: char): (d: nat)
    requires IsDigit(c)
    ensures d < 10
  {
    c as int - '0' as int
  }

  function DecimalValue(s: string): nat
    requires AllDigits(s)
  {
    if s == [] then 0 else DecimalValue(s[..|s| - 1]) * 10 + DigitValue(s[|s| - 1])
  }

  // str::parse for an unsigned type with this many values: one leading plus sign is allowed.
  function ParseUnsigned(s: string, limit: nat): Option<nat> {
    var digits := if |s| > 1 && s[0] == '+' then s[1..] else s;
    if digits == [] || !AllDigits(digits) || DecimalValue(digits) >= limit then None
    else Some(DecimalValue(digits))
  }

  function Digit(d: nat): (c: char)
    requires d < 10
    ensures IsDigit(c) && DigitValue(c) == d
  {
    ('0' as int + d) as char
  }

  function Decimal(n: nat): string {
    (if n < 10 then "" else Decimal(n / 10)) + [Digit(n % 10)]
  }

  lemma {:induction false} DecimalIsDigits(n: nat)
    ensures Decimal(n) != "" && AllDigits(Decimal(n)) && DecimalValue(Decimal(n)) == n
  {
    var s := Decimal(n);
    if n >= 10 {
      DecimalIsDigits(n / 10);
    }
    assert s[..|s| - 1] == if n < 10 then "" else Decimal(n / 10);
  }

  // Zeros and one plus sign in front make no difference.
  lemma ParseOfPadded(n: nat, limit: nat)
    requires n < limit
    ensures ParseUnsigned("0" + Decimal(n), limit) == Some(n)
    ensures ParseUnsigned("+" + Decimal(n), limit) == Some(n)
  {
    DecimalIsDigits(n);
    ValueOfPadded(Decimal(n));
    assert ("+" + Decimal(n))[1..] == Decimal(n);
  }

  lemma {:induction false} ValueOfPadded(s: string)
    requires AllDigits(s)
    ensures AllDigits("0" + s) && DecimalValue("0" + s) == DecimalValue(s)
  {
    if s == [] {
      assert "0" + s == "0" && ("0")[..0] == "";
    } else {
      ValueOfPadded(s[..|s| - 1]);
      assert ("0" + s)[..|s|] == "0" + s[..|s| - 1];
    }
  }

  lemma ParseOfDecimal(n: nat, limit: nat)
    requires n < limit
    ensures ParseUnsigned(Decimal(n), limit) == Some(n)
  {
    DecimalIsDigits(n);
    assert Decimal(n)[0] in Decimal(n);
  }
}
