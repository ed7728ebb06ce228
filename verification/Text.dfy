/** The string operations of the Go standard library that the modelled code relies on. */
module Text {
  import opened Wrappers

  /** `unicode.IsSpace`. */
  predicate IsSpace(c: char) {
    var n := c as int;
    || 0x09 <= n <= 0x0D || n == 0x20 || n == 0x85 || n == 0xA0 || n == 0x1680
    || 0x2000 <= n <= 0x200A || n == 0x2028 || n == 0x2029 || n == 0x202F || n == 0x205F || n == 0x3000
  }

  /** The number of bytes in a string's UTF-8 form, which is what `len` counts. */
  function ByteLen(s: string): nat {
    if s == "" then 0 else
      var n := s[0] as int;
      (if n < 0x80 then 1 else if n < 0x800 then 2 else if n < 0x10000 then 3 else 4) + ByteLen(s[1..])
  }

  predicate IsAscii(s: string) {
    forall i | 0 <= i < |s| :: s[i] as int < 0x80
  }

  /** Between one and four bytes for each character, and exactly one each in ASCII. */
  lemma {:induction false} ByteLenBounds(s: string)
    ensures |s| <= ByteLen(s) <= 4 * |s|
    ensures ByteLen(s) == |s| <==> IsAscii(s)
  {
    if s == "" {
    } else {
      ByteLenBounds(s[1..]);
      assert IsAscii(s) <==> s[0] as int < 0x80 && IsAscii(s[1..]);
    }
  }

  lemma {:induction false} ByteLenOfParts(a: string, b: string)
    ensures ByteLen(a + b) == ByteLen(a) + ByteLen(b)
  {
    if a == "" {
      assert a + b == b;
    } else {
      ByteLenOfParts(a[1..], b);
      assert (a + b)[1..] == a[1..] + b;
    }
  }

  // ---------------------------------------------------------------------------------
  // TrimSpace
  // ---------------------------------------------------------------------------------

  function TrimLeft(s: string): string {
    if s != "" && IsSpace(s[0]) then TrimLeft(s[1..]) else s
  }

  function TrimRight(s: string): string {
    if s != "" && IsSpace(s[|s| - 1]) then TrimRight(s[..|s| - 1]) else s
  }

  function TrimSpace(s: string): string {
    TrimRight(TrimLeft(s))
  }

  lemma {:induction false} TrimLeftStops(s: string)
    ensures TrimLeft(s) == "" || !IsSpace(TrimLeft(s)[0])
  {
    if s != "" && IsSpace(s[0]) {
      TrimLeftStops(s[1..]);
    }
  }

  lemma {:induction false} TrimRightStops(s: string)
    ensures TrimRight(s) == "" || !IsSpace(TrimRight(s)[|TrimRight(s)| - 1])
    ensures TrimRight(s) <= s
  {
    if s != "" && IsSpace(s[|s| - 1]) {
      TrimRightStops(s[..|s| - 1]);
    }
  }

  ghost predicate IsBlank(s: string) {
    forall c <- s :: IsSpace(c)
  }

  lemma {:induction false} TrimLeftRemovesBlank(s: string) returns (blank: string)
    ensures IsBlank(blank) && s == blank + TrimLeft(s)
  {
    if s != "" && IsSpace(s[0]) {
      var rest := TrimLeftRemovesBlank(s[1..]);
      blank := [s[0]] + rest;
      assert s == [s[0]] + s[1..] == blank + TrimLeft(s[1..]);
    } else {
      blank := "";
    }
  }

  lemma {:induction false} TrimRightRemovesBlank(s: string) returns (blank: string)
    ensures IsBlank(blank) && s == TrimRight(s) + blank
  {
    if s != "" && IsSpace(s[|s| - 1]) {
      var rest := TrimRightRemovesBlank(s[..|s| - 1]);
      blank := rest + [s[|s| - 1]];
      assert s == s[..|s| - 1] + [s[|s| - 1]] == TrimRight(s[..|s| - 1]) + blank;
    } else {
      blank := "";
    }
  }

  /** White space at both ends goes, nothing else does, and none is left there. */
  lemma TrimSpaceRemovesBlankEnds(s: string)
    ensures exists left, right :: IsBlank(left) && IsBlank(right) && s == left + TrimSpace(s) + right
    ensures TrimSpace(s) != "" ==> !IsSpace(TrimSpace(s)[0]) && !IsSpace(TrimSpace(s)[|TrimSpace(s)| - 1])
  {
    var left := TrimLeftRemovesBlank(s);
    var right := TrimRightRemovesBlank(TrimLeft(s));
    TrimLeftStops(s);
    TrimRightStops(TrimLeft(s));
    assert s == left + TrimSpace(s) + right;
  }

  /** Trimming twice is trimming once. */
  lemma TrimSpaceIdempotent(s: string)
    ensures TrimSpace(TrimSpace(s)) == TrimSpace(s)
  {
    TrimLeftStops(s);
    TrimRightStops(TrimLeft(s));
  }

  // ---------------------------------------------------------------------------------
  // Fields and Join
  // ---------------------------------------------------------------------------------

  /** The longest prefix without white space. */
  function Word(s: string): (w: string)
    ensures |w| <= |s|
  {
    if s == "" || IsSpace(s[0]) then "" else [s[0]] + Word(s[1..])
  }

  function Fields(s: string): seq<string> {
    if s == "" then []
    else if IsSpace(s[0]) then Fields(s[1..])
    else [Word(s)] + Fields(s[|Word(s)|..])
  }

  function Join(parts: seq<string>, sep: string): string {
    if parts == [] then ""
    else if |parts| == 1 then parts[0]
    else parts[0] + sep + Join(parts[1..], sep)
  }

  /** Runs of white space folded to one space each, none at the ends. */
  function Collapse(s: string): string {
    Join(Fields(s), " ")
  }

  ghost predicate SpaceFree(w: string) {
    forall c <- w :: !IsSpace(c)
  }

  ghost predicate AreWords(ws: seq<string>) {
    forall i | 0 <= i < |ws| :: ws[i] != "" && SpaceFree(ws[i])
  }

  lemma {:induction false} WordHasNoSpace(s: string)
    ensures SpaceFree(Word(s))
  {
    if s != "" && !IsSpace(s[0]) {
      WordHasNoSpace(s[1..]);
    }
  }

  lemma {:induction false} FieldsAreWords(s: string)
    ensures AreWords(Fields(s))
    decreases |s|
  {
    if s == "" {
    } else {
      if IsSpace(s[0]) {
        FieldsAreWords(s[1..]);
      } else {
        WordHasNoSpace(s);
        FieldsAreWords(s[|Word(s)|..]);
      }
    }
  }

  lemma {:induction false} WordOfWord(w: string, rest: string)
    requires SpaceFree(w)
    requires rest == "" || IsSpace(rest[0])
    ensures Word(w + rest) == w
  {
    if w == "" {
      assert w + rest == rest;
    } else {
      WordOfWord(w[1..], rest);
      assert (w + rest)[1..] == w[1..] + rest;
    }
  }

  lemma {:induction false} FieldsOfJoin(ws: seq<string>)
    requires AreWords(ws)
    ensures Fields(Join(ws, " ")) == ws
  {
    if ws == [] {
    } else {
      var rest := if |ws| == 1 then "" else " " + Join(ws[1..], " ");
      assert Join(ws, " ") == ws[0] + rest;
      WordOfWord(ws[0], rest);
      assert ws[0][0] in ws[0];
      assert (ws[0] + rest)[|ws[0]|..] == rest;
      if |ws| > 1 {
        FieldsOfJoin(ws[1..]);
        assert rest[1..] == Join(ws[1..], " ");
      }
    }
  }

  function WithoutSpace(s: string): string {
    if s == "" then "" else (if IsSpace(s[0]) then "" else [s[0]]) + WithoutSpace(s[1..])
  }

  lemma {:induction false} WithoutSpaceOfWord(s: string)
    ensures WithoutSpace(s) == Word(s) + WithoutSpace(s[|Word(s)|..])
  {
    if s == "" || IsSpace(s[0]) {
    } else {
      WithoutSpaceOfWord(s[1..]);
      assert s[|Word(s)|..] == s[1..][|Word(s[1..])|..];
    }
  }

  lemma JoinWithNothing(first: string, rest: seq<string>)
    ensures Join([first] + rest, "") == first + Join(rest, "")
  {
    assert ([first] + rest)[1..] == rest;
  }

  /** The words hold everything but the white space, in order. */
  lemma {:induction false} FieldsKeepTheRest(s: string)
    ensures Join(Fields(s), "") == WithoutSpace(s)
    decreases |s|
  {
    if s == "" {
    } else if IsSpace(s[0]) {
      FieldsKeepTheRest(s[1..]);
    } else {
      var rest := s[|Word(s)|..];
      FieldsKeepTheRest(rest);
      WithoutSpaceOfWord(s);
      JoinWithNothing(Word(s), Fields(rest));
    }
  }

  /** Every white space is a single space between two other characters. */
  ghost predicate HasSingleSpaces(s: string) {
    forall i | 0 <= i < |s| && IsSpace(s[i]) ::
      s[i] == ' ' && 0 < i < |s| - 1 && !IsSpace(s[i - 1]) && !IsSpace(s[i + 1])
  }

  lemma {:induction false} JoinedWordsHaveSingleSpaces(ws: seq<string>)
    requires AreWords(ws)
    ensures HasSingleSpaces(Join(ws, " "))
    ensures ws != [] ==> Join(ws, " ") != "" && !IsSpace(Join(ws, " ")[0])
  {
    if ws == [] {
    } else {
      assert ws[0][0] in ws[0];
      assert forall i | 0 <= i < |ws[0]| :: ws[0][i] in ws[0];
      if |ws| > 1 {
        var joined, rest := Join(ws, " "), Join(ws[1..], " ");
        JoinedWordsHaveSingleSpaces(ws[1..]);
        assert joined == ws[0] + " " + rest;
        assert forall i | |ws[0]| < i < |joined| :: joined[i] == rest[i - |ws[0]| - 1];
        assert forall i | 0 <= i < |ws[0]| :: joined[i] == ws[0][i];
      }
    }
  }

  /** Folding leaves the words of a text, with single spaces between them. */
  lemma CollapseFolds(s: string)
    ensures HasSingleSpaces(Collapse(s))
    ensures Fields(Collapse(s)) == Fields(s)
  {
    FieldsAreWords(s);
    FieldsOfJoin(Fields(s));
    JoinedWordsHaveSingleSpaces(Fields(s));
  }

  /** Folding white space twice is folding it once. */
  lemma CollapseIdempotent(s: string)
    ensures Collapse(Collapse(s)) == Collapse(s)
  {
    FieldsAreWords(s);
    FieldsOfJoin(Fields(s));
  }

  // ---------------------------------------------------------------------------------
  // Index, Contains, prefixes, Split
  // ---------------------------------------------------------------------------------

  predicate IsHexDigit(c: char) {
    '0' <= c <= '9' || 'a' <= c <= 'f' || 'A' <= c <= 'F'
  }

  predicate IsAt(s: string, part: string, i: nat) {
    i + |part| <= |s| && s[i..i + |part|] == part
  }

  /** `strings.Index`: the first occurrence. */
  method Index(s: string, part: string) returns (r: Option<nat>)
    ensures r.Some? ==> IsAt(s, part, r.value) && forall i: nat :: i < r.value ==> !IsAt(s, part, i)
    ensures r.None? ==> forall i: nat :: !IsAt(s, part, i)
  {
    var i := 0;
    while i + |part| <= |s|
      invariant forall k: nat :: k < i ==> !IsAt(s, part, k)
    {
      if s[i..i + |part|] == part {
        return Some(i);
      }
      i := i + 1;
    }
    r := None;
  }

  predicate Contains(s: string, part: string) {
    exists i | 0 <= i <= |s| :: IsAt(s, part, i)
  }

  lemma ContainsMeans(s: string, part: string)
    ensures Contains(s, part) <==> exists before, after :: s == before + part + after
  {
    if Contains(s, part) {
      var i :| 0 <= i <= |s| && IsAt(s, part, i);
      assert s == s[..i] + part + s[i + |part|..];
    }
    forall before: string, after: string | s == before + part + after
      ensures Contains(s, part)
    {
      assert IsAt(s, part, |before|);
    }
  }

  predicate HasSuffix(s: string, suffix: string) {
    |suffix| <= |s| && s[|s| - |suffix|..] == suffix
  }

  function TrimPrefix(s: string, prefix: string): string {
    if prefix <= s then s[|prefix|..] else s
  }

  /** `strings.Split` by one character. */
  function Split(s: string, sep: char): (lines: seq<string>)
    ensures lines != []
  {
    if s == "" then [""]
    else
      var rest := Split(s[1..], sep);
      if s[0] == sep then [""] + rest else [[s[0]] + rest[0]] + rest[1..]
  }

  /** Joining the pieces with the separator gives the string back. */
  lemma {:induction false} JoinOfSplit(s: string, sep: char)
    ensures Join(Split(s, sep), [sep]) == s
  {
    if s == "" {
    } else {
      JoinOfSplit(s[1..], sep);
      var rest := Split(s[1..], sep);
      if s[0] == sep {
        assert ([""] + rest)[1..] == rest;
        assert Join([""] + rest, [sep]) == "" + [sep] + Join(rest, [sep]);
      } else {
        var lines := [[s[0]] + rest[0]] + rest[1..];
        assert lines[1..] == rest[1..];
        if |rest| > 1 {
          assert Join(lines, [sep]) == ([s[0]] + rest[0]) + [sep] + Join(rest[1..], [sep]);
          assert Join(rest, [sep]) == rest[0] + [sep] + Join(rest[1..], [sep]);
        }
      }
    }
  }

  /** No piece has the separator in it. */
  lemma {:induction false} SplitSeparates(s: string, sep: char)
    ensures forall line <- Split(s, sep) :: sep !in line
  {
    if s == "" {
    } else {
      SplitSeparates(s[1..], sep);
      var rest := Split(s[1..], sep);
      assert rest[0] in rest;
    }
  }
}
