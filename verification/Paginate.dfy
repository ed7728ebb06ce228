/**
  Reading a long page in pieces: character windows, and the lines around the matches of a
  query. What is printed is modelled as lines and separators; number formatting is not.
*/
module Paginate {
  import opened Wrappers
  import opened Text

  // ---------------------------------------------------------------------------------
  // Character windows
  // ---------------------------------------------------------------------------------

  /** A window of the content, and where the next one starts when there is more. */
  datatype Page = BeyondEnd(start: nat, total: nat) | Window(text: string, next: Option<nat>)

  /** `paginateContent`. */
  function PaginateContent(content: string, start: nat, maxLength: nat): Page {
    var total := |content|;
    if start >= total && start > 0 then BeyondEnd(start, total)
    else
      var end := if maxLength > 0 && maxLength < total - start then start + maxLength else total;
      Window(content[start..end], if end < total then Some(end) else None)
  }

  /** What a caller has read in the end who asks for the next window as long as there is one. */
  function ReadOn(content: string, start: nat, maxLength: nat): string
    decreases |content| - start
  {
    match PaginateContent(content, start, maxLength)
    case BeyondEnd(_, _) => ""
    case Window(text, None) => text
    case Window(text, Some(next)) => text + ReadOn(content, next, maxLength)
  }

  /** Following the continuations from any start reads the rest of the content, once. */
  lemma {:induction false} WindowsCoverContent(content: string, start: nat, maxLength: nat)
    requires start <= |content|
    ensures ReadOn(content, start, maxLength) == content[start..]
    ensures var page := PaginateContent(content, start, maxLength);
      page.Window? ==>
        && (maxLength > 0 ==> |page.text| <= maxLength)
        && (page.next.Some? ==> start < page.next.value < |content| && |page.text| == maxLength)
    decreases |content| - start
  {
    var page := PaginateContent(content, start, maxLength);
    if page.Window? && page.next.Some? {
      WindowsCoverContent(content, page.next.value, maxLength);
    }
  }

  /** A start beyond the document is answered with its length; an empty document has one empty window. */
  lemma BeyondTheEnd(content: string, start: nat, maxLength: nat)
    requires start >= |content|
    ensures PaginateContent(content, start, maxLength)
         == if start == 0 then Window("", None) else BeyondEnd(start, |content|)
  {
  }

  // ---------------------------------------------------------------------------------
  // Matching lines
  // ---------------------------------------------------------------------------------

  const DEFAULT_MAX_MATCHES := 20

  /** The indices of the lines that match, in order. */
  function Matches(lines: seq<string>, isMatch: string -> bool): seq<nat> {
    if lines == [] then [] else
      Matches(lines[..|lines| - 1], isMatch) + if isMatch(lines[|lines| - 1]) then [|lines| - 1] else []
  }

  ghost predicate Increasing(s: seq<nat>, n: nat) {
    && (forall a | 0 <= a < |s| :: s[a] < n)
    && (forall a, b | 0 <= a < b < |s| :: s[a] < s[b])
  }

  lemma {:induction false} MatchesIncrease(lines: seq<string>, isMatch: string -> bool)
    ensures Increasing(Matches(lines, isMatch), |lines|)
  {
    if lines == [] {
    } else {
      MatchesIncrease(lines[..|lines| - 1], isMatch);
    }
  }

  /** They are exactly the lines that match. */
  lemma {:induction false} MatchesAre(lines: seq<string>, isMatch: string -> bool)
    ensures forall i: nat :: i in Matches(lines, isMatch) <==> i < |lines| && isMatch(lines[i])
  {
    if lines == [] {
    } else {
      MatchesAre(lines[..|lines| - 1], isMatch);
    }
  }

  lemma {:induction false} MatchesOfPrefix(lines: seq<string>, isMatch: string -> bool, n: nat)
    requires n <= |lines|
    ensures Matches(lines[..n], isMatch) <= Matches(lines, isMatch)
  {
    if n == |lines| {
      assert lines[..n] == lines;
    } else {
      MatchesOfPrefix(lines[..|lines| - 1], isMatch, n);
      assert lines[..|lines| - 1][..n] == lines[..n];
    }
  }

  /** The first loop of `grepContent`: the first matches, and whether there are more. */
  method FindMatches(lines: seq<string>, isMatch: string -> bool, limit: nat)
    returns (matched: seq<nat>, truncated: bool)
    ensures var all := Matches(lines, isMatch);
      truncated == (|all| > limit) && matched == if truncated then all[..limit] else all
    ensures Increasing(matched, |lines|)
  {
    matched, truncated := [], false;
    MatchesIncrease(lines, isMatch);
    for i := 0 to |lines|
      invariant matched == Matches(lines[..i], isMatch) && |matched| <= limit
    {
      assert lines[..i + 1][..i] == lines[..i];
      if isMatch(lines[i]) {
        MatchesOfPrefix(lines, isMatch, i + 1);
        if |matched| >= limit {
          truncated := true;
          return;
        }
        matched := matched + [i];
      }
    }
    assert lines[..|lines|] == lines;
  }

  // ---------------------------------------------------------------------------------
  // Windows of lines
  // ---------------------------------------------------------------------------------

  datatype Piece = Separator | Line(index: nat)

  /** Line `i` is within `context` lines of a match. */
  ghost predicate Covered(matched: seq<nat>, context: nat, i: int) {
    exists k | 0 <= k < |matched| :: matched[k] - context <= i <= matched[k] + context
  }

  /** The covered ones of the first `n` lines, a separator wherever some were left out between. */
  ghost function Layout(matched: seq<nat>, context: nat, n: nat): seq<Piece> {
    if n == 0 then []
    else
      var before := Layout(matched, context, n - 1);
      if !Covered(matched, context, n - 1) then before
      else before + (if before != [] && !Covered(matched, context, n - 2) then [Separator] else []) + [Line(n - 1)]
  }

  /** Lines that no match covers add nothing. */
  lemma {:induction false} LayoutSkips(matched: seq<nat>, context: nat, from: nat, to: nat)
    requires from <= to && forall i | from <= i < to :: !Covered(matched, context, i)
    ensures Layout(matched, context, to) == Layout(matched, context, from)
  {
    if from < to {
      LayoutSkips(matched, context, from, to - 1);
    }
  }

  /** Where the window of match `k` ends. */
  function WindowEnd(matched: seq<nat>, context: nat, total: nat, k: nat): int
    requires k < |matched|
  {
    if matched[k] + context >= total then total - 1 else matched[k] + context
  }

  lemma BetweenWindows(matched: seq<nat>, context: nat, total: nat, k: nat, i: nat)
    requires Increasing(matched, total) && k <= |matched| && i < total
    requires k > 0 ==> i > WindowEnd(matched, context, total, k - 1)
    requires k < |matched| ==> i < matched[k] - context
    ensures !Covered(matched, context, i)
  {
    forall j | 0 <= j < |matched|
      ensures !(matched[j] - context <= i <= matched[j] + context)
    {
    }
  }

  /** Nothing is covered between one window and the next. */
  lemma SkipsTo(matched: seq<nat>, context: nat, total: nat, k: nat, from: nat, to: nat)
    requires Increasing(matched, total) && k <= |matched| && from <= to <= total
    requires from == if k == 0 then 0 else WindowEnd(matched, context, total, k - 1) + 1
    requires k < |matched| ==> to == from || to == matched[k] - context
    ensures Layout(matched, context, to) == Layout(matched, context, from)
    ensures from < to ==> !Covered(matched, context, to - 1)
  {
    forall i | from <= i < to
      ensures !Covered(matched, context, i)
    {
      BetweenWindows(matched, context, total, k, i);
    }
    LayoutSkips(matched, context, from, to);
  }

  /** One window: a separator if lines were left out before it, then its lines. */
  method PrintWindow(ghost matched: seq<nat>, context: nat, pieces: seq<Piece>, lastPrinted: int, start: nat, end: int)
    returns (more: seq<Piece>)
    requires -1 <= lastPrinted < start && start <= end + 1
    requires pieces == Layout(matched, context, start)
    requires pieces == [] <==> lastPrinted < 0
    requires lastPrinted >= 0 ==> (Covered(matched, context, start - 1) <==> start == lastPrinted + 1)
    requires forall i | start <= i <= end :: Covered(matched, context, i)
    ensures start <= end ==> more == Layout(matched, context, end + 1)
    ensures start > end && start == lastPrinted + 1 ==> more == pieces
  {
    more := pieces;
    if lastPrinted >= 0 && start > lastPrinted + 1 {
      more := more + [Separator];
    }
    for i := start to end + 1
      invariant i == start ==> more == pieces + if lastPrinted >= 0 && start > lastPrinted + 1 then [Separator] else []
      invariant i > start ==> more == Layout(matched, context, i) && more != []
    {
      more := more + [Line(i)];
    }
  }

  lemma WindowIsCovered(matched: seq<nat>, context: nat, k: nat)
    requires k < |matched|
    ensures forall i :: matched[k] - context <= i <= matched[k] + context ==> Covered(matched, context, i)
  {
  }

  /** The second loop of `grepContent` after `k` matches. */
  ghost predicate Printed(total: nat, matched: seq<nat>, context: nat, k: nat, pieces: seq<Piece>, lastPrinted: int)
    requires k <= |matched|
  {
    && -1 <= lastPrinted == (if k == 0 then -1 else WindowEnd(matched, context, total, k - 1)) < total
    && pieces == Layout(matched, context, lastPrinted + 1)
    && (pieces == [] <==> lastPrinted < 0)
    && (k > 0 ==> Covered(matched, context, lastPrinted))
  }

  /** The body of that loop. */
  method PrintMatch(total: nat, matched: seq<nat>, context: nat, k: nat, pieces: seq<Piece>, lastPrinted: int)
    returns (more: seq<Piece>, end: int)
    requires Increasing(matched, total) && k < |matched| && Printed(total, matched, context, k, pieces, lastPrinted)
    ensures Printed(total, matched, context, k + 1, more, end)
  {
    var m := matched[k];
    var start := m - context;
    if start <= lastPrinted {
      start := lastPrinted + 1;
    }
    if start < 0 {
      start := 0;
    }
    end := m + context;
    if end >= total {
      end := total - 1;
    }
    SkipsTo(matched, context, total, k, lastPrinted + 1, start);
    WindowIsCovered(matched, context, k);
    more := PrintWindow(matched, context, pieces, lastPrinted, start, end);
  }

  /** The second loop of `grepContent`. */
  method PrintWindows(total: nat, matched: seq<nat>, context: nat) returns (pieces: seq<Piece>)
    requires Increasing(matched, total)
    ensures pieces == Layout(matched, context, total)
  {
    pieces := [];
    var lastPrinted := -1;
    for k := 0 to |matched|
      invariant Printed(total, matched, context, k, pieces, lastPrinted)
    {
      pieces, lastPrinted := PrintMatch(total, matched, context, k, pieces, lastPrinted);
    }
    SkipsTo(matched, context, total, |matched|, lastPrinted + 1, total);
  }

  /** What `grepContent` reports. */
  datatype Grep = NoMatches(lines: nat) | Found(matches: nat, pieces: seq<Piece>, truncatedAt: Option<nat>)

  /** `grepContent`. */
  method GrepContent(content: string, query: string, toLower: string -> string, context: nat, maxMatches: nat)
    returns (r: Grep)
    ensures var lines, limit := Split(content, '\n'), if maxMatches == 0 then 20 else maxMatches;
      var all := Matches(lines, line => Contains(toLower(line), toLower(query)));
      var matched := if |all| > limit then all[..limit] else all;
      r == if matched == [] then NoMatches(|lines|)
           else Found(|matched|, Layout(matched, context, |lines|), if |all| > limit then Some(limit) else None)
  {
    var limit := if maxMatches == 0 then DEFAULT_MAX_MATCHES else maxMatches;
    var lines := Split(content, '\n');
    var lowerQuery := toLower(query);
    var matched, truncated := FindMatches(lines, line => Contains(toLower(line), lowerQuery), limit);
    if |matched| == 0 {
      return NoMatches(|lines|);
    }
    var pieces := PrintWindows(|lines|, matched, context);
    r := Found(|matched|, pieces, if truncated then Some(limit) else None);
  }

  // ---------------------------------------------------------------------------------
  // What the layout means
  // ---------------------------------------------------------------------------------

  ghost function LinesOf(pieces: seq<Piece>): seq<nat> {
    if pieces == [] then [] else
      LinesOf(pieces[..|pieces| - 1]) + match pieces[|pieces| - 1] case Separator => [] case Line(i) => [i]
  }

  lemma LinesOfOneMore(pieces: seq<Piece>, i: nat)
    ensures LinesOf(pieces + [Line(i)]) == LinesOf(pieces) + [i]
    ensures LinesOf(pieces + [Separator]) == LinesOf(pieces)
  {
    assert (pieces + [Line(i)])[..|pieces|] == pieces;
    assert (pieces + [Separator])[..|pieces|] == pieces;
  }

  lemma LinesOfLayout(matched: seq<nat>, context: nat, n: nat)
    requires n > 0
    ensures LinesOf(Layout(matched, context, n)) ==
      LinesOf(Layout(matched, context, n - 1)) + if Covered(matched, context, n - 1) then [n - 1] else []
  {
    var before := Layout(matched, context, n - 1);
    LinesOfOneMore(before, n - 1);
    LinesOfOneMore(before + [Separator], n - 1);
    assert before + [] == before;
  }

  ghost function CoveredLines(matched: seq<nat>, context: nat, n: nat): seq<nat> {
    if n == 0 then [] else
      CoveredLines(matched, context, n - 1) + if Covered(matched, context, n - 1) then [n - 1] else []
  }

  lemma {:induction false} CoveredLinesAre(matched: seq<nat>, context: nat, n: nat)
    ensures Increasing(CoveredLines(matched, context, n), n)
    ensures forall i: nat :: i in CoveredLines(matched, context, n) <==> i < n && Covered(matched, context, i)
  {
    if n == 0 {
    } else {
      CoveredLinesAre(matched, context, n - 1);
    }
  }

  lemma {:induction false} LinesOfLayoutAre(matched: seq<nat>, context: nat, n: nat)
    ensures LinesOf(Layout(matched, context, n)) == CoveredLines(matched, context, n)
  {
    if n == 0 {
    } else {
      LinesOfLayoutAre(matched, context, n - 1);
      LinesOfLayout(matched, context, n);
    }
  }

  /** Exactly the covered lines are printed, each once, in increasing order. */
  lemma PrintedAreCovered(matched: seq<nat>, context: nat, n: nat)
    ensures Increasing(LinesOf(Layout(matched, context, n)), n)
    ensures forall i: nat :: i in LinesOf(Layout(matched, context, n)) <==> i < n && Covered(matched, context, i)
  {
    LinesOfLayoutAre(matched, context, n);
    CoveredLinesAre(matched, context, n);
  }

  /** How piece `p` joins the one before: neighbouring lines touch, and a separator stands
      between two lines that do not. */
  ghost predicate Joins(pieces: seq<Piece>, p: int)
    requires 0 < p < |pieces|
  {
    if pieces[p].Line? then pieces[p - 1].Line? ==> pieces[p].index == pieces[p - 1].index + 1
    else pieces[p - 1].Line? && p + 1 < |pieces| && pieces[p + 1].Line? && pieces[p + 1].index > pieces[p - 1].index + 1
  }

  ghost predicate WellSeparated(pieces: seq<Piece>) {
    && (pieces != [] ==> pieces[0].Line? && pieces[|pieces| - 1].Line?)
    && (forall p | 0 < p < |pieces| :: Joins(pieces, p))
  }

  lemma OneMoreLine(pieces: seq<Piece>, i: nat)
    requires WellSeparated(pieces) && (pieces != [] ==> pieces[|pieces| - 1].index < i)
    ensures pieces == [] || pieces[|pieces| - 1].index == i - 1 ==> WellSeparated(pieces + [Line(i)])
    ensures pieces != [] && pieces[|pieces| - 1].index < i - 1 ==> WellSeparated(pieces + [Separator] + [Line(i)])
  {
    forall more, p | 0 < p < |pieces| && pieces <= more
      ensures Joins(more, p)
    {
      assert Joins(pieces, p);
      assert more[p] == pieces[p] && more[p - 1] == pieces[p - 1];
      assert p + 1 < |pieces| ==> more[p + 1] == pieces[p + 1];
    }
  }

  /** A separator stands between printed lines that are not neighbours, and nowhere else. */
  lemma {:induction false} SeparatorsMarkGaps(matched: seq<nat>, context: nat, n: nat)
    ensures var pieces := Layout(matched, context, n);
      && WellSeparated(pieces)
      && (pieces != [] ==> pieces[|pieces| - 1].index < n)
      && (n > 0 && pieces != [] ==> (Covered(matched, context, n - 1) <==> pieces[|pieces| - 1].index == n - 1))
      && (n > 0 && Covered(matched, context, n - 1) ==> pieces != [])
  {
    if n == 0 {
    } else {
      SeparatorsMarkGaps(matched, context, n - 1);
      var before := Layout(matched, context, n - 1);
      OneMoreLine(before, n - 1);
      assert before + [] == before;
    }
  }
}
