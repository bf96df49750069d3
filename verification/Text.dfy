/** White space, words and lines, as the Go string library treats them. */
module Text {
  import opened Numerals

  /** unicode.IsSpace. */
  predicate IsSpace(c: char) {
    var n := c as int;
    9 <= n <= 13 || n == 0x20 || n == 0x85 || n == 0xA0 || n == 0x1680 || 0x2000 <= n <= 0x200a
    || n == 0x2028 || n == 0x2029 || n == 0x202f || n == 0x205f || n == 0x3000
  }

  predicate NoSpace(s: string) {
    forall i :: 0 <= i < |s| ==> !IsSpace(s[i])
  }

  predicate Trimmed(s: string) {
    s != "" ==> !IsSpace(s[0]) && !IsSpace(s[|s| - 1])
  }

  function TrimStart(s: string): string {
    if s != "" && IsSpace(s[0]) then TrimStart(s[1..]) else s
  }

  function TrimEnd(s: string): string {
    if s != "" && IsSpace(s[|s| - 1]) then TrimEnd(s[..|s| - 1]) else s
  }

  function TrimSpace(s: string): string {
    TrimEnd(TrimStart(s))
  }

  lemma {:induction false} TrimStartStarts(s: string)
    ensures TrimStart(s) != "" ==> !IsSpace(TrimStart(s)[0])
    ensures forall c <- TrimStart(s) :: c in s
  {
    if s != "" && IsSpace(s[0]) {
      TrimStartStarts(s[1..]);
    }
  }

  lemma {:induction false} TrimEndEnds(s: string)
    ensures TrimEnd(s) != "" ==> !IsSpace(TrimEnd(s)[|TrimEnd(s)| - 1]) && TrimEnd(s)[0] == s[0]
    ensures forall c <- TrimEnd(s) :: c in s
  {
    if s != "" && IsSpace(s[|s| - 1]) {
      TrimEndEnds(s[..|s| - 1]);
    }
  }

  lemma TrimSpaceTrims(s: string)
    ensures Trimmed(TrimSpace(s)) && forall c <- TrimSpace(s) :: c in s
  {
    TrimStartStarts(s);
    TrimEndEnds(TrimStart(s));
  }

  predicate AllSpace(s: string) {
    forall i :: 0 <= i < |s| ==> IsSpace(s[i])
  }

  lemma {:induction false} TrimStartRest(s: string)
    ensures |TrimStart(s)| <= |s| && s[|s| - |TrimStart(s)|..] == TrimStart(s) && AllSpace(s[..|s| - |TrimStart(s)|])
  {
    if s != "" && IsSpace(s[0]) {
      TrimStartRest(s[1..]);
      var k := |s| - |TrimStart(s)|;
      assert s[..k] == [s[0]] + s[1..][..k - 1];
    }
  }

  lemma {:induction false} TrimEndRest(s: string)
    ensures |TrimEnd(s)| <= |s| && s[..|TrimEnd(s)|] == TrimEnd(s) && AllSpace(s[|TrimEnd(s)|..])
  {
    if s != "" && IsSpace(s[|s| - 1]) {
      TrimEndRest(s[..|s| - 1]);
      var k := |TrimEnd(s)|;
      assert s[k..] == s[..|s| - 1][k..] + [s[|s| - 1]];
    }
  }

  /** Trimming takes white space, all of it, from both ends and nothing else. */
  lemma TrimSpaceExact(s: string) returns (before: string, after: string)
    ensures s == before + TrimSpace(s) + after && AllSpace(before) && AllSpace(after) && Trimmed(TrimSpace(s))
  {
    hide TrimStart, TrimEnd, AllSpace, Trimmed;
    var t := TrimStart(s);
    TrimStartRest(s);
    TrimEndRest(t);
    TrimSpaceTrims(s);
    before, after := s[..|s| - |t|], t[|TrimEnd(t)|..];
    assert t == TrimEnd(t) + after;
    assert s == before + t;
  }

  /** Trimming reaches no further than the first and the last character that is not white space. */
  lemma {:induction false} TrimStartStops(s: string, i: nat)
    requires i < |s| && !IsSpace(s[i])
    ensures |TrimStart(s)| >= |s| - i && TrimStart(s)[|TrimStart(s)| - 1] == s[|s| - 1]
  {
    if IsSpace(s[0]) {
      TrimStartStops(s[1..], i - 1);
    }
  }

  lemma TrimSpaceKeeps(s: string)
    requires Trimmed(s)
    ensures TrimSpace(s) == s && TrimSpace(" " + s) == s
  {
    assert (" " + s)[1..] == s;
  }

  /** strings.TrimLeft(s, " \t"): how many characters it drops. */
  function Blanks(s: string): (n: nat)
    ensures n <= |s|
  {
    if s != "" && (s[0] == ' ' || s[0] == '\t') then 1 + Blanks(s[1..]) else 0
  }

  /** Blanks and tabs, the only white space that separates the parts of a chapter line. */
  predicate Gap(s: string) {
    s != "" && forall i :: 0 <= i < |s| ==> s[i] == ' ' || s[i] == '\t'
  }

  lemma {:induction false} BlanksOf(gap: string, rest: string)
    requires (gap == "" || Gap(gap)) && rest != "" && !IsSpace(rest[0])
    ensures Blanks(gap + rest) == |gap|
  {
    if gap == "" {
      assert gap + rest == rest;
    } else {
      BlanksOf(gap[1..], rest);
      assert (gap + rest)[1..] == gap[1..] + rest;
    }
  }

  function WordLength(s: string): (n: nat)
    ensures n <= |s| && NoSpace(s[..n]) && (n < |s| ==> IsSpace(s[n]))
  {
    if s == "" || IsSpace(s[0]) then 0
    else
      var n := 1 + WordLength(s[1..]);
      assert s[..n] == [s[0]] + s[1..][..n - 1];
      n
  }

  /** strings.Fields. */
  function Fields(s: string): seq<string>
    decreases |s|
  {
    if s == "" then []
    else if IsSpace(s[0]) then Fields(s[1..])
    else [s[..WordLength(s)]] + Fields(s[WordLength(s)..])
  }

  lemma {:induction false} WordLengthOf(word: string, rest: string)
    requires NoSpace(word) && (rest != "" ==> IsSpace(rest[0]))
    ensures WordLength(word + rest) == |word|
  {
    if word == "" {
      assert word + rest == rest;
    } else {
      WordLengthOf(word[1..], rest);
      assert (word + rest)[1..] == word[1..] + rest;
    }
  }

  lemma FieldsOfWord(word: string, rest: string)
    requires NoSpace(word) && word != ""
    ensures Fields(word + " " + rest) == [word] + Fields(rest)
  {
    var tail := " " + rest;
    WordLengthOf(word, tail);
    assert word + " " + rest == word + tail;
    assert (word + tail)[..|word|] == word && (word + tail)[|word|..] == tail && tail[1..] == rest;
  }

  /** Words are what white space separates, however much of it: these two rules settle every text. */
  lemma {:induction false} FieldsExact(blank: string, word: string, rest: string)
    requires AllSpace(blank) && word != "" && NoSpace(word) && (rest != "" ==> IsSpace(rest[0]))
    ensures Fields(blank + word + rest) == [word] + Fields(rest)
    ensures Fields(blank) == []
  {
    if blank == "" {
      WordLengthOf(word, rest);
      assert blank + word + rest == word + rest;
      assert (word + rest)[..|word|] == word && (word + rest)[|word|..] == rest;
    } else {
      FieldsExact(blank[1..], word, rest);
      assert (blank + word + rest)[1..] == blank[1..] + word + rest;
    }
  }

  lemma FieldsNonEmpty(s: string)
    requires s != "" && !IsSpace(s[0])
    ensures |Fields(s)| >= 1
  {}

  /** strings.ReplaceAll(s, "\r\n", "\n"). */
  function UnixLines(s: string): string
    decreases |s|
  {
    if s == "" then ""
    else if |s| >= 2 && s[0] == '\r' && s[1] == '\n' then "\n" + UnixLines(s[2..])
    else [s[0]] + UnixLines(s[1..])
  }

  /** The same text with DOS line endings. */
  function DosLines(s: string): string {
    if s == "" then "" else (if s[0] == '\n' then "\r\n" else [s[0]]) + DosLines(s[1..])
  }

  /** DOS line endings are turned back into plain ones. */
  lemma {:induction false} UnixOfDos(s: string)
    requires '\r' !in s
    ensures UnixLines(DosLines(s)) == s
  {
    if s != "" {
      UnixOfDos(s[1..]);
      var d, rest := DosLines(s), DosLines(s[1..]);
      assert s == [s[0]] + s[1..];
      if s[0] == '\n' {
        assert d[2..] == rest;
      } else {
        assert d[1..] == rest;
        assert d[0] != '\r';
      }
    }
  }

  predicate NoCarriageReturnAtEnd(s: string) {
    forall i :: 0 <= i < |s| - 1 ==> !(s[i] == '\r' && s[i + 1] == '\n')
  }

  lemma {:induction false} UnixLinesKeeps(s: string)
    requires NoCarriageReturnAtEnd(s)
    ensures UnixLines(s) == s
  {
    if s != "" {
      forall i | 0 <= i < |s[1..]| - 1 ensures !(s[1..][i] == '\r' && s[1..][i + 1] == '\n') {
        assert !(s[i + 1] == '\r' && s[i + 1 + 1] == '\n');
      }
      UnixLinesKeeps(s[1..]);
      assert !(|s| >= 2 && s[0] == '\r' && s[1] == '\n');
    }
  }

  function Joined(parts: seq<string>, sep: char): string
    requires |parts| > 0
  {
    if |parts| == 1 then parts[0] else parts[0] + [sep] + Joined(parts[1..], sep)
  }

  lemma JoinedHead(c: char, rest: seq<string>, sep: char)
    requires |rest| > 0
    ensures Joined([[c] + rest[0]] + rest[1..], sep) == [c] + Joined(rest, sep)
  {
    var parts := [[c] + rest[0]] + rest[1..];
    if |rest| > 1 {
      assert parts[1..] == rest[1..];
      var more := Joined(rest[1..], sep);
      assert [c] + rest[0] + [sep] + more == [c] + (rest[0] + [sep] + more);
    }
  }

  lemma JoinedEmpty(rest: seq<string>, sep: char)
    requires |rest| > 0
    ensures Joined([""] + rest, sep) == [sep] + Joined(rest, sep)
  {
    assert ([""] + rest)[1..] == rest;
  }

  /** Splitting loses nothing. */
  lemma {:induction false} SplitJoined(s: string, sep: char)
    ensures Joined(Split(s, sep), sep) == s
  {
    hide Joined;
    if s == "" {
      SingleJoined("", sep);
    } else {
      SplitJoined(s[1..], sep);
      var rest := Split(s[1..], sep);
      if s[0] == sep {
        JoinedEmpty(rest, sep);
      } else {
        JoinedHead(s[0], rest, sep);
      }
      assert s == [s[0]] + s[1..];
    }
  }

  lemma SingleJoined(s: string, sep: char)
    ensures Joined([s], sep) == s
  {}

  /** No part holds the separator, and parts are made of the characters of the text. */
  lemma {:induction false} SplitParts(s: string, sep: char, i: nat)
    requires i < |Split(s, sep)|
    ensures sep !in Split(s, sep)[i] && forall c <- Split(s, sep)[i] :: c in s
  {
    if s != "" {
      SplitParts(s[1..], sep, if s[0] == sep && i > 0 then i - 1 else if s[0] == sep then 0 else i);
    }
  }
}
