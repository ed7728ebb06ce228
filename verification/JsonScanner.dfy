/**
  Cutting a JSON object out of a page: the scanner looks only at braces, quotes and
  backslashes, and yet agrees with the grammar on every well-formed object.
*/
module JsonScanner {
  import opened Wrappers
  import opened Text
  import opened JsonGrammar

  /** The variables of the scanning loop. */
  datatype State = State(depth: int, inString: bool, escaped: bool)

  /** The loop body, short of returning. */
  function Step(s: State, c: char): State {
    if c == '\\' then (if s.inString then s.(escaped := !s.escaped) else s)
    else if c == '"' then s.(inString := if s.escaped then s.inString else !s.inString, escaped := false)
    else if c == '{' then (if s.inString then s else s.(depth := s.depth + 1))
    else if c == '}' then (if s.inString then s else s.(depth := s.depth - 1))
    else s.(escaped := false)
  }

  /** The loop returns at this character. */
  predicate Closes(s: State, c: char) {
    c == '}' && !s.inString && s.depth == 1
  }

  /** How much of `text` the loop has seen when it returns, if it does. */
  function ScanLength(s: State, text: string): (n: Option<nat>)
    ensures n.Some? ==> 0 < n.value <= |text|
    decreases text
  {
    if text == "" then None
    else if Closes(s, text[0]) then Some(1)
    else
      match ScanLength(Step(s, text[0]), text[1..])
      case None => None
      case Some(n) => Some(n + 1)
  }

  function FirstBrace(body: string, from: nat): (start: nat)
    requires from <= |body|
    ensures from <= start <= |body|
    decreases |body| - from
  {
    if from == |body| || body[from] == '{' then from else FirstBrace(body, from + 1)
  }

  const START := State(0, false, false)

  function ExtractAfter(body: string, from: nat): Option<string>
    requires from <= |body|
  {
    var start := FirstBrace(body, from);
    match ScanLength(START, body[start..])
    case None => None
    case Some(n) => Some(body[start..start + n])
  }

  ghost predicate IsFirst(body: string, marker: string, m: nat) {
    IsAt(body, marker, m) && forall i: nat :: i < m ==> !IsAt(body, marker, i)
  }

  /** What `extractJSONObject` returns: the scan from the first brace after the first marker. */
  ghost predicate Extracts(body: string, marker: string, r: Option<string>) {
    (forall m: nat :: IsFirst(body, marker, m) ==> r == ExtractAfter(body, m + |marker|))
    && ((forall m: nat :: !IsAt(body, marker, m)) ==> r.None?)
  }

  /** The scanning loop: the object that starts at `start`, if it is ever closed. */
  method ScanObject(body: string, start: nat) returns (r: Option<string>)
    requires start <= |body|
    ensures match ScanLength(START, body[start..])
      case None => r == None
      case Some(n) => r == Some(body[start..start + n])
  {
    var depth, inString, escaped := 0, false, false;
    ghost var all := ScanLength(START, body[start..]);
    for i := start to |body|
      invariant all == AfterMore(i - start, ScanLength(State(depth, inString, escaped), body[i..]))
    {
      ghost var before := State(depth, inString, escaped);
      assert body[i..][0] == body[i] && body[i..][1..] == body[i + 1..];
      var c := body[i];
      if c == '\\' {
        if inString {
          escaped := !escaped;
        }
      } else if c == '"' {
        if !escaped {
          inString := !inString;
        }
        escaped := false;
      } else if c == '{' {
        if !inString {
          depth := depth + 1;
        }
      } else if c == '}' {
        if !inString {
          depth := depth - 1;
          if depth == 0 {
            return Some(body[start..i + 1]);
          }
        }
      } else {
        escaped := false;
      }
      assert State(depth, inString, escaped) == Step(before, c) && !Closes(before, c);
    }
    r := None;
  }

  /** A length counted from `seen` characters on. */
  function AfterMore(seen: nat, n: Option<nat>): Option<nat> {
    match n
    case None => None
    case Some(k) => Some(seen + k)
  }

  /** `extractJSONObject`. */
  method ExtractJSONObject(body: string, marker: string) returns (r: Option<string>)
    ensures Extracts(body, marker, r)
  {
    var at := Index(body, marker);
    if at.None? {
      return None;
    }
    var from := at.value + |marker|;
    var start := from;
    while start < |body| && body[start] != '{'
      invariant from <= start <= |body|
      invariant FirstBrace(body, from) == FirstBrace(body, start)
    {
      start := start + 1;
    }
    if start == |body| {
      r := None;
    } else {
      r := ScanObject(body, start);
    }
    assert r == ExtractAfter(body, from);
  }

  // ---------------------------------------------------------------------------------
  // Agreement with the grammar
  // ---------------------------------------------------------------------------------

  /** Scanning `text` from `s` ends in `t` without returning on the way. */
  ghost predicate Passes(s: State, text: string, t: State)
    decreases text
  {
    if text == "" then s == t else !Closes(s, text[0]) && Passes(Step(s, text[0]), text[1..], t)
  }

  lemma {:induction false} PassesOn(s: State, a: string, t: State, b: string, u: State)
    requires Passes(s, a, t) && Passes(t, b, u)
    ensures Passes(s, a + b, u)
    decreases a
  {
    if a == "" {
      assert a + b == b;
    } else {
      PassesOn(Step(s, a[0]), a[1..], t, b, u);
      assert (a + b)[1..] == a[1..] + b;
    }
  }

  lemma {:induction false} ScanAfterPassing(s: State, a: string, t: State, b: string)
    requires Passes(s, a, t)
    ensures ScanLength(s, a + b) ==
      match ScanLength(t, b)
      case None => None
      case Some(n) => Some(|a| + n)
    decreases a
  {
    if a == "" {
      assert a + b == b;
    } else {
      ScanAfterPassing(Step(s, a[0]), a[1..], t, b);
      assert (a + b)[1..] == a[1..] + b;
    }
  }

  /** Outside strings, at some depth; nothing is pending. */
  function Outside(depth: int): State {
    State(depth, false, false)
  }

  /** Scanning `text` outside strings leaves the scanner as it was. */
  ghost predicate Neutral(depth: int, text: string) {
    Passes(Outside(depth), text, Outside(depth))
  }

  lemma NeutralParts(depth: int, a: string, b: string)
    requires Neutral(depth, a) && Neutral(depth, b)
    ensures Neutral(depth, a + b)
  {
    PassesOn(Outside(depth), a, Outside(depth), b, Outside(depth));
  }

  /** Text without quotes and braces does nothing outside strings. */
  lemma {:induction false} BlandIsNeutral(depth: int, text: string)
    requires forall i | 0 <= i < |text| :: text[i] != '"' && text[i] != '{' && text[i] != '}'
    ensures Neutral(depth, text)
  {
    if text == "" {
    } else {
      BlandIsNeutral(depth, text[1..]);
    }
  }

  lemma WsIsNeutral(depth: int, ws: string)
    requires IsWs(ws)
    ensures Neutral(depth, ws)
  {
    assert forall i | 0 <= i < |ws| :: ws[i] in ws;
    BlandIsNeutral(depth, ws);
  }

  lemma {:induction false} BlandInside(depth: int, text: string)
    requires forall i | 0 <= i < |text| :: text[i] != '"' && text[i] != '{' && text[i] != '}' && text[i] != '\\'
    ensures Passes(State(depth, true, false), text, State(depth, true, false))
  {
    if text == "" {
    } else {
      BlandInside(depth, text[1..]);
    }
  }

  lemma OneCharacter(s: State, c: char)
    requires !Closes(s, c)
    ensures Passes(s, [c], Step(s, c))
  {
    assert [c][1..] == "";
  }

  /** A backslash and the character it escapes, which is neither brace. */
  lemma EscapeStaysInside(depth: int, c: char)
    requires c != '{' && c != '}'
    ensures Passes(State(depth, true, false), "\\" + [c], State(depth, true, false))
  {
    var inside, pending := State(depth, true, false), State(depth, true, true);
    OneCharacter(inside, '\\');
    OneCharacter(pending, c);
    PassesOn(inside, "\\", pending, [c], inside);
  }

  lemma UnicodeStaysInside(depth: int, hex: string)
    requires forall c <- hex :: IsHexDigit(c)
    ensures Passes(State(depth, true, false), ("\\" + "u") + hex, State(depth, true, false))
  {
    var inside := State(depth, true, false);
    EscapeStaysInside(depth, 'u');
    assert forall i | 0 <= i < |hex| :: hex[i] in hex;
    BlandInside(depth, hex);
    PassesOn(inside, "\\" + "u", inside, hex, inside);
  }

  /** One character of a string keeps the scanner inside it, with no escape pending. */
  lemma CharStaysInside(depth: int, ch: Char)
    requires ValidChar(ch)
    ensures Passes(State(depth, true, false), CharText(ch), State(depth, true, false))
  {
    var inside := State(depth, true, false);
    match ch
    case Unescaped(c) =>
      OneCharacter(inside, c);
    case Escape(c) =>
      EscapeStaysInside(depth, c);
      assert CharText(ch) == "\\" + [c];
    case UnicodeEscape(hex) =>
      UnicodeStaysInside(depth, hex);
      assert CharText(ch) == ("\\" + "u") + hex;
  }

  lemma {:induction false} CharsStayInside(depth: int, chars: seq<Char>)
    requires ValidChars(chars)
    ensures Passes(State(depth, true, false), CharsText(chars), State(depth, true, false))
  {
    if chars == [] {
    } else {
      var inside := State(depth, true, false);
      CharStaysInside(depth, chars[0]);
      CharsStayInside(depth, chars[1..]);
      PassesOn(inside, CharText(chars[0]), inside, CharsText(chars[1..]), inside);
    }
  }

  lemma StringIsNeutral(depth: int, chars: seq<Char>)
    requires ValidChars(chars)
    ensures Neutral(depth, StringText(chars))
  {
    var inside := State(depth, true, false);
    CharsStayInside(depth, chars);
    assert "\""[1..] == "";
    assert Passes(Outside(depth), "\"", inside) && Passes(inside, "\"", Outside(depth));
    PassesOn(Outside(depth), "\"", inside, CharsText(chars), inside);
    PassesOn(Outside(depth), "\"" + CharsText(chars), inside, "\"", Outside(depth));
  }

  lemma NumberIsNeutral(depth: int, n: Number)
    requires ValidNumber(n)
    ensures Neutral(depth, NumberText(n))
  {
    var text := NumberText(n);
    forall i | 0 <= i < |text|
      ensures text[i] != '"' && text[i] != '{' && text[i] != '}'
    {
      assert text[i] in text;
    }
    BlandIsNeutral(depth, text);
  }

  /** Braces around neutral text are neutral one level up, unless they close the outermost. */
  lemma BracesAreNeutral(depth: int, inner: string)
    requires depth >= 1 && Neutral(depth + 1, inner)
    ensures Neutral(depth, "{" + inner + "}")
  {
    assert "{"[1..] == "" && "}"[1..] == "";
    assert Passes(Outside(depth), "{", Outside(depth + 1)) && Passes(Outside(depth + 1), "}", Outside(depth));
    PassesOn(Outside(depth), "{", Outside(depth + 1), inner, Outside(depth + 1));
    PassesOn(Outside(depth), "{" + inner, Outside(depth + 1), "}", Outside(depth));
  }

  /** Inside an object, a whole value leaves the scanner as it was. */
  lemma {:induction false} ValueIsNeutral(depth: int, v: Value)
    requires depth >= 1 && ValidValue(v)
    ensures Neutral(depth, ValueText(v))
    decreases v
  {
    match v
    case False => BlandIsNeutral(depth, "false");
    case Null => BlandIsNeutral(depth, "null");
    case True => BlandIsNeutral(depth, "true");
    case Num(n) => NumberIsNeutral(depth, n);
    case Str(chars) => StringIsNeutral(depth, chars);
    case Array(pad, items) =>
      WsIsNeutral(depth, pad);
      ItemsAreNeutral(depth, items);
      NeutralParts(depth, pad, ItemsText(items));
      BlandIsNeutral(depth, "[");
      BlandIsNeutral(depth, "]");
      NeutralParts(depth, "[", pad + ItemsText(items));
      NeutralParts(depth, "[" + (pad + ItemsText(items)), "]");
    case Object(pad, members) =>
      WsIsNeutral(depth + 1, pad);
      MembersAreNeutral(depth + 1, members);
      NeutralParts(depth + 1, pad, MembersText(members));
      BracesAreNeutral(depth, pad + MembersText(members));
  }

  lemma {:induction false} ItemsAreNeutral(depth: int, items: Items)
    requires depth >= 1 && ValidItems(items)
    ensures Neutral(depth, ItemsText(items))
    decreases items
  {
    if items.Item? {
      var Item(before, v, after, rest) := items;
      ItemsAreNeutral(depth, rest);
      BlandIsNeutral(depth, ",");
      NeutralParts(depth, ",", ItemsText(rest));
      var tail := if rest.NoItems? then "" else "," + ItemsText(rest);
      WsIsNeutral(depth, after);
      NeutralParts(depth, after, tail);
      ValueIsNeutral(depth, v);
      NeutralParts(depth, ValueText(v), after + tail);
      WsIsNeutral(depth, before);
      NeutralParts(depth, before, ValueText(v) + (after + tail));
    }
  }

  lemma {:induction false} MembersAreNeutral(depth: int, members: Members)
    requires depth >= 1 && ValidMembers(members)
    ensures Neutral(depth, MembersText(members))
    decreases members
  {
    if members.Member? {
      var Member(before, name, beforeColon, afterColon, v, after, rest) := members;
      MembersAreNeutral(depth, rest);
      BlandIsNeutral(depth, ",");
      NeutralParts(depth, ",", MembersText(rest));
      var tail := if rest.NoMembers? then "" else "," + MembersText(rest);
      WsIsNeutral(depth, after);
      NeutralParts(depth, after, tail);
      ValueIsNeutral(depth, v);
      NeutralParts(depth, ValueText(v), after + tail);
      ColonIsNeutral(depth, beforeColon, afterColon);
      var colon := beforeColon + ":" + afterColon;
      NeutralParts(depth, colon, ValueText(v) + (after + tail));
      StringIsNeutral(depth, name);
      NeutralParts(depth, StringText(name), colon + (ValueText(v) + (after + tail)));
      WsIsNeutral(depth, before);
      NeutralParts(depth, before, StringText(name) + (colon + (ValueText(v) + (after + tail))));
    }
  }

  lemma ColonIsNeutral(depth: int, before: string, after: string)
    requires IsWs(before) && IsWs(after)
    ensures Neutral(depth, before + ":" + after)
  {
    WsIsNeutral(depth, before);
    BlandIsNeutral(depth, ":");
    WsIsNeutral(depth, after);
    NeutralParts(depth, before, ":");
    NeutralParts(depth, before + ":", after);
  }

  /** The scanner returns at the last brace of a well-formed object, whatever follows it. */
  lemma ScanStopsAtObjectEnd(o: Value, suffix: string)
    requires o.Object? && ValidValue(o)
    ensures ScanLength(START, ValueText(o) + suffix) == Some(|ValueText(o)|)
  {
    var inner := o.pad + MembersText(o.members);
    WsIsNeutral(1, o.pad);
    MembersAreNeutral(1, o.members);
    NeutralParts(1, o.pad, MembersText(o.members));
    assert "{"[1..] == "";
    assert Passes(START, "{", Outside(1));
    PassesOn(START, "{", Outside(1), inner, Outside(1));
    ScanAfterPassing(START, "{" + inner, Outside(1), "}" + suffix);
    assert ValueText(o) + suffix == ("{" + inner) + ("}" + suffix);
  }

  lemma {:induction false} FirstBraceAfterGap(body: string, from: nat, gap: nat)
    requires from + gap < |body| && body[from + gap] == '{'
    requires forall i | from <= i < from + gap :: body[i] != '{'
    ensures FirstBrace(body, from) == from + gap
    decreases gap
  {
    if gap == 0 {
    } else {
      FirstBraceAfterGap(body, from + 1, gap - 1);
    }
  }

  lemma ExtractAfterGap(head: string, gap: string, o: Value, suffix: string)
    requires '{' !in gap && o.Object? && ValidValue(o)
    ensures ExtractAfter(head + (gap + (ValueText(o) + suffix)), |head|) == Some(ValueText(o))
  {
    var text := ValueText(o);
    var body := head + (gap + (text + suffix));
    forall i | |head| <= i < |head| + |gap|
      ensures body[i] != '{'
    {
      assert body[i] == gap[i - |head|];
    }
    FirstBraceAfterGap(body, |head|, |gap|);
    var start := |head| + |gap|;
    assert body[start..] == text + suffix;
    ScanStopsAtObjectEnd(o, suffix);
    assert body[start..start + |text|] == text;
  }

  lemma FirstIsExtracted(before: string, marker: string, rest: string, r: Option<string>)
    requires IsFirst(before + marker + rest, marker, |before|) && Extracts(before + marker + rest, marker, r)
    ensures r == ExtractAfter(before + marker + rest, |before + marker|)
  {
  }

  /**
    If the first brace after the first marker begins a well-formed object, then exactly
    that object's text is extracted: any nesting, any strings, any suffix.
  */
  lemma ExtractsWellFormedObject(before: string, marker: string, gap: string, o: Value, suffix: string,
                                 r: Option<string>)
    requires var body := (before + marker) + (gap + (ValueText(o) + suffix));
      IsFirst(body, marker, |before|) && Extracts(body, marker, r)
    requires '{' !in gap && o.Object? && ValidValue(o)
    ensures r == Some(ValueText(o))
  {
    FirstIsExtracted(before, marker, gap + (ValueText(o) + suffix), r);
    ExtractAfterGap(before + marker, gap, o, suffix);
  }

  /**
    Well-formedness is needed: a backslash before a brace, which is no escape in JSON,
    keeps the scanner from seeing the quote after it, and the object is never closed.
  */
  lemma InvalidEscapeHidesQuote()
    ensures ScanLength(START, "{\"\\{\"}") == None
    ensures !ValidChar(Escape('{'))
  {
    var text := "{\"\\{\"}";
    assert Step(START, text[0]) == State(1, false, false);
    assert Step(State(1, false, false), text[1]) == State(1, true, false);
    assert Step(State(1, true, false), text[2]) == State(1, true, true);
    assert Step(State(1, true, true), text[3]) == State(1, true, true);
    assert Step(State(1, true, true), text[4]) == State(1, true, false);
    assert Step(State(1, true, false), text[5]) == State(1, true, false);
    assert ScanLength(State(1, true, false), text[6..]) == None;
    assert ScanLength(State(1, true, false), text[5..]) == None by { assert text[5..][1..] == text[6..]; }
    assert ScanLength(State(1, true, true), text[4..]) == None by { assert text[4..][1..] == text[5..]; }
    assert ScanLength(State(1, true, true), text[3..]) == None by { assert text[3..][1..] == text[4..]; }
    assert ScanLength(State(1, true, false), text[2..]) == None by { assert text[2..][1..] == text[3..]; }
    assert ScanLength(State(1, false, false), text[1..]) == None by { assert text[1..][1..] == text[2..]; }
  }
}
