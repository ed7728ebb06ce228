/**
  Reciprocal rank fusion. `Fuse` is the declarative reading: scores are sums over the
  providers' rankings, metadata comes from the rows in order, and the result is ranked.
  `FuseResults` is the one-pass loop over a map of running totals.
*/
module Fusion {
  import opened Wrappers
  import opened SearchTypes
  import opened Sorting
  import opened Text

  /** URL handling that is taken as given: which (trimmed) URLs are acceptable, and the
      normal form under which documents are recognized as the same. */
  datatype Web = Web(valid: string -> bool, key: string -> string)

  /** The constant of reciprocal rank fusion. */
  const RRF_K := 60

  // ---------------------------------------------------------------------------------
  // Rows and rankings
  // ---------------------------------------------------------------------------------

  /** A usable hit, cleaned up, with the key of its document. */
  datatype Row = Row(key: string, hit: Hit)

  function Clean(web: Web, provider: string, h: Hit): Option<Row> {
    var title, url := TrimSpace(h.title), TrimSpace(h.url);
    if url == "" || !web.valid(url) then None
    else Some(Row(web.key(url), Hit(
      if title == "" then url else title,
      url,
      Collapse(h.description),
      if h.source == "" then provider else h.source,
      h.published)))
  }

  /** One provider's usable rows, in order. */
  function Ballot(web: Web, provider: string, hits: seq<Hit>): seq<Row> {
    if hits == [] then [] else
      Ballot(web, provider, hits[..|hits| - 1]) +
      match Clean(web, provider, hits[|hits| - 1])
      case None => []
      case Some(row) => [row]
  }

  function Ballots(web: Web, responses: seq<Response>): seq<seq<Row>> {
    if responses == [] then [] else
      var last := responses[|responses| - 1];
      Ballots(web, responses[..|responses| - 1]) + [Ballot(web, last.provider, last.results)]
  }

  /** The distinct documents of some rows, in order of first occurrence. */
  function Ranking(rows: seq<Row>): seq<string> {
    if rows == [] then [] else
      var before, key := Ranking(rows[..|rows| - 1]), rows[|rows| - 1].key;
      if key in before then before else before + [key]
  }

  function IndexOf(s: seq<string>, x: string): nat {
    if s == [] || s[0] == x then 0 else 1 + IndexOf(s[1..], x)
  }

  function AllRows(ballots: seq<seq<Row>>): seq<Row> {
    if ballots == [] then [] else AllRows(ballots[..|ballots| - 1]) + ballots[|ballots| - 1]
  }

  // ---------------------------------------------------------------------------------
  // The declarative reading
  // ---------------------------------------------------------------------------------

  /** What the `i`-th document of a ranking (from 0) gets from it. */
  function Share(i: nat): real {
    1.0 / (RRF_K + i + 1) as real
  }

  /** One vote per provider and document, at the document's rank among distinct ones. */
  function Vote(ballot: seq<Row>, key: string): real {
    if key in Ranking(ballot) then Share(IndexOf(Ranking(ballot), key)) else 0.0
  }

  function Score(ballots: seq<seq<Row>>, key: string): real {
    if ballots == [] then 0.0 else Score(ballots[..|ballots| - 1], key) + Vote(ballots[|ballots| - 1], key)
  }

  /** How a later row of the same document completes the entry of the first. */
  function Merge(entry: Hit, row: Hit): Hit {
    entry.(
      title := if entry.title == entry.url && row.title != row.url then row.title else entry.title,
      description :=
        if ByteLen(row.description) > ByteLen(entry.description) then row.description else entry.description,
      published := if entry.published == "" then row.published else entry.published)
  }

  /** The rows of one document folded into one hit. */
  function Merged(rows: seq<Row>, key: string): Option<Hit> {
    if rows == [] then None else
      var before, last := Merged(rows[..|rows| - 1], key), rows[|rows| - 1];
      if last.key != key then before
      else match before
        case None => Some(last.hit)
        case Some(entry) => Some(Merge(entry, last.hit))
  }

  /** The source named by the first row of a document in one ballot; "" if there is none. */
  function SourceIn(ballot: seq<Row>, key: string): string {
    if ballot == [] then "" else
      var before := ballot[..|ballot| - 1];
      if key in Ranking(before) then SourceIn(before, key)
      else if ballot[|ballot| - 1].key == key then ballot[|ballot| - 1].hit.source else ""
  }

  function AddSource(sources: seq<string>, source: string): seq<string> {
    if source != "" && source !in sources then sources + [source] else sources
  }

  /** The distinct sources of a document, in ballot order. */
  function Sources(ballots: seq<seq<Row>>, key: string): seq<string> {
    if ballots == [] then [] else
      AddSource(Sources(ballots[..|ballots| - 1], key), SourceIn(ballots[|ballots| - 1], key))
  }

  function FusedHit(ballots: seq<seq<Row>>, key: string): Hit
    requires Merged(AllRows(ballots), key).Some?
  {
    Merged(AllRows(ballots), key).value.(source := Join(Sources(ballots, key), ","))
  }

  /** Every document once, by score, ties in order of first occurrence. */
  function Order(ballots: seq<seq<Row>>): seq<string> {
    SortByScore(Ranking(AllRows(ballots)), key => Score(ballots, key))
  }

  function Cut<T>(s: seq<T>, count: int): seq<T> {
    if 0 < count < |s| then s[..count] else s
  }

  function Fuse(web: Web, responses: seq<Response>, count: int): (hits: seq<Hit>)
  {
    var ballots := Ballots(web, responses);
    var order := Cut(Order(ballots), count);
    OrderIsListing(ballots);
    seq(|order|, i requires 0 <= i < |order| =>
      assert order[i] in Order(ballots);
      FusedHit(ballots, order[i]))
  }

  lemma {:induction false} RankingIsDistinct(rows: seq<Row>)
    ensures forall i, j | 0 <= i < j < |Ranking(rows)| :: Ranking(rows)[i] != Ranking(rows)[j]
    ensures |Ranking(rows)| <= |rows|
  {
    if rows == [] {
    } else {
      RankingIsDistinct(rows[..|rows| - 1]);
    }
  }

  lemma {:induction false} RankingFacts(rows: seq<Row>)
    ensures forall key :: key in Ranking(rows) <==> Merged(rows, key).Some?
    ensures forall row <- rows :: row.key in Ranking(rows)
  {
    if rows == [] {
    } else {
      RankingFacts(rows[..|rows| - 1]);
      assert rows == rows[..|rows| - 1] + [rows[|rows| - 1]];
    }
  }

  lemma OrderIsListing(ballots: seq<seq<Row>>)
    ensures multiset(Order(ballots)) == multiset(Ranking(AllRows(ballots)))
    ensures forall key <- Order(ballots) :: Merged(AllRows(ballots), key).Some?
  {
    SortIsPermutation(Ranking(AllRows(ballots)), key => Score(ballots, key));
    RankingFacts(AllRows(ballots));
  }

  // ---------------------------------------------------------------------------------
  // The loop
  // ---------------------------------------------------------------------------------

  /** The running total of one document. */
  datatype Entry = Entry(hit: Hit, score: real, sources: seq<string>)

  /** An entry holds what the ballots so far amount to for its document. */
  ghost predicate Totals(entry: Entry, ballots: seq<seq<Row>>, key: string) {
    && Merged(AllRows(ballots), key) == Some(entry.hit)
    && entry.score == Score(ballots, key)
    && entry.sources == Sources(ballots, key)
  }

  /** The map and the order list hold exactly what the ballots so far amount to. */
  ghost predicate Tallies(byURL: map<string, Entry>, order: seq<string>, ballots: seq<seq<Row>>) {
    && order == Ranking(AllRows(ballots))
    && (forall key :: key in byURL <==> key in order)
    && (forall key <- byURL :: Totals(byURL[key], ballots, key))
  }

  lemma {:induction false} IndexOfAppended(s: seq<string>, x: string, y: string)
    requires y in s || y == x
    ensures IndexOf(s + [x], y) == if y in s then IndexOf(s, y) else |s|
  {
    if s != [] && s[0] != y {
      assert (s + [x])[1..] == s[1..] + [x];
      IndexOfAppended(s[1..], x, y);
    }
  }

  lemma AllRowsExtended(ballots: seq<seq<Row>>, ballot: seq<Row>)
    ensures AllRows(ballots + [ballot]) == AllRows(ballots) + ballot
  {
    assert (ballots + [ballot])[..|ballots|] == ballots;
  }

  /** A document that no row names has no score and no source. */
  lemma {:induction false} Unlisted(ballots: seq<seq<Row>>, key: string)
    requires Merged(AllRows(ballots), key).None?
    ensures Score(ballots, key) == 0.0 && Sources(ballots, key) == []
  {
    if ballots == [] {
    } else {
      var before, last := ballots[..|ballots| - 1], ballots[|ballots| - 1];
      UnlistedInEither(AllRows(before), last, key);
      Unlisted(before, key);
      RankingFacts(last);
      NoSource(last, key);
    }
  }

  lemma {:induction false} UnlistedInEither(a: seq<Row>, b: seq<Row>, key: string)
    requires Merged(a + b, key).None?
    ensures Merged(a, key).None? && Merged(b, key).None?
  {
    if b == [] {
      assert a + b == a;
    } else {
      assert (a + b)[..|a + b| - 1] == a + b[..|b| - 1];
      UnlistedInEither(a, b[..|b| - 1], key);
    }
  }

  lemma {:induction false} NoSource(ballot: seq<Row>, key: string)
    requires key !in Ranking(ballot)
    ensures SourceIn(ballot, key) == ""
  {
  }

  /** What one more row in the last ballot does to a document's score and sources. */
  lemma RowAdded(ballots: seq<seq<Row>>, ballot: seq<Row>, row: Row, key: string)
    ensures var now, next := ballots + [ballot], ballots + [ballot + [row]];
      var counts := key == row.key && key !in Ranking(ballot);
      && AllRows(next) == AllRows(now) + [row]
      && Score(next, key) == Score(now, key) + (if counts then Share(|Ranking(ballot)|) else 0.0)
      && Sources(next, key) == if counts then AddSource(Sources(now, key), row.hit.source) else Sources(now, key)
  {
    var now, next := ballots + [ballot], ballots + [ballot + [row]];
    assert now[..|ballots|] == next[..|ballots|] == ballots;
    assert (ballot + [row])[..|ballot|] == ballot;
    if key in Ranking(ballot + [row]) {
      IndexOfAppended(Ranking(ballot), row.key, key);
    }
    if key !in Ranking(ballot) {
      NoSource(ballot, key);
    }
  }

  /** The entry of a row's document after the row; `rank` documents were seen before it. */
  function Advance(before: Option<Entry>, row: Row, seen: bool, rank: nat): Entry {
    var entry := match before
      case None => Entry(row.hit, 0.0, [])
      case Some(e) => e.(hit := Merge(e.hit, row.hit));
    if seen then entry
    else entry.(score := entry.score + Share(rank), sources := AddSource(entry.sources, row.hit.source))
  }

  lemma AdvanceTotals(ballots: seq<seq<Row>>, ballot: seq<Row>, row: Row, before: Option<Entry>)
    requires match before
      case None => Merged(AllRows(ballots + [ballot]), row.key).None?
      case Some(e) => Totals(e, ballots + [ballot], row.key)
    ensures Totals(Advance(before, row, row.key in Ranking(ballot), |Ranking(ballot)|),
                   ballots + [ballot + [row]], row.key)
  {
    var now := ballots + [ballot];
    RowAdded(ballots, ballot, row, row.key);
    assert (AllRows(now) + [row])[..|AllRows(now)|] == AllRows(now);
    if before.None? {
      Unlisted(now, row.key);
    }
  }

  lemma OthersKeepTotals(ballots: seq<seq<Row>>, ballot: seq<Row>, row: Row, key: string, entry: Entry)
    requires key != row.key && Totals(entry, ballots + [ballot], key)
    ensures Totals(entry, ballots + [ballot + [row]], key)
  {
    var now := ballots + [ballot];
    RowAdded(ballots, ballot, row, key);
    assert (AllRows(now) + [row])[..|AllRows(now)|] == AllRows(now);
  }

  lemma RankingAdded(rows: seq<Row>, row: Row)
    ensures Ranking(rows + [row]) == if row.key in Ranking(rows) then Ranking(rows) else Ranking(rows) + [row.key]
  {
    assert (rows + [row])[..|rows|] == rows;
  }

  /** The body of the inner loop: one clean row joins the tally. */
  method Absorb(byURL: map<string, Entry>, order: seq<string>, seen: set<string>, rank: nat, row: Row,
                ghost ballots: seq<seq<Row>>, ghost ballot: seq<Row>)
    returns (byURL': map<string, Entry>, order': seq<string>, seen': set<string>, rank': nat)
    requires Tallies(byURL, order, ballots + [ballot])
    requires rank == |Ranking(ballot)| && forall key :: key in seen <==> key in Ranking(ballot)
    ensures Tallies(byURL', order', ballots + [ballot + [row]])
    ensures rank' == |Ranking(ballot + [row])| && forall key :: key in seen' <==> key in Ranking(ballot + [row])
  {
    hide Totals, AllRows;
    var key := row.key;
    byURL', order', seen', rank' := byURL, order, seen, rank;
    if key !in byURL {
      byURL' := byURL'[key := Entry(row.hit, 0.0, [])];
      order' := order + [key];
    } else {
      byURL' := byURL'[key := byURL[key].(hit := Merge(byURL[key].hit, row.hit))];
    }
    if key !in seen {
      seen', rank' := seen + {key}, rank + 1;
      var entry := byURL'[key];
      byURL' := byURL'[key := entry.(
        score := entry.score + 1.0 / (RRF_K + rank') as real,
        sources := AddSource(entry.sources, row.hit.source))];
    }

    ghost var before := if key in byURL then Some(byURL[key]) else None;
    assert byURL' == byURL[key := Advance(before, row, key in seen, rank)];
    AdvancedTallies(byURL, order, row, before, ballots, ballot);
    RankingAdded(ballot, row);
  }

  lemma AdvancedTallies(byURL: map<string, Entry>, order: seq<string>, row: Row, before: Option<Entry>,
                        ballots: seq<seq<Row>>, ballot: seq<Row>)
    requires Tallies(byURL, order, ballots + [ballot])
    requires before == if row.key in byURL then Some(byURL[row.key]) else None
    ensures Tallies(byURL[row.key := Advance(before, row, row.key in Ranking(ballot), |Ranking(ballot)|)],
                    if row.key in byURL then order else order + [row.key],
                    ballots + [ballot + [row]])
  {
    var now, next := ballots + [ballot], ballots + [ballot + [row]];
    var entry := Advance(before, row, row.key in Ranking(ballot), |Ranking(ballot)|);
    var byURL', order' := byURL[row.key := entry], if row.key in byURL then order else order + [row.key];
    assert order' == Ranking(AllRows(next)) by {
      RowAdded(ballots, ballot, row, row.key);
      RankingAdded(AllRows(now), row);
    }
    assert Totals(entry, next, row.key) by {
      RankingFacts(AllRows(now));
      AdvanceTotals(ballots, ballot, row, before);
    }
    forall k <- byURL'
      ensures Totals(byURL'[k], next, k)
    {
      if k != row.key {
        assert Totals(byURL[k], now, k);
        OthersKeepTotals(ballots, ballot, row, k, byURL[k]);
      }
    }
    assert forall key :: key in byURL' <==> key in order';
  }

  /** `fuseResults`: the tally, the sort and the cut. */
  method FuseResults(web: Web, responses: seq<Response>, count: int) returns (results: seq<Hit>)
    ensures results == Fuse(web, responses, count)
  {
    var byURL, order := Tally(web, responses);
    ghost var ballots := Ballots(web, responses);
    var score := key => if key in byURL then byURL[key].score else 0.0;
    SortCongruence(order, score, key => Score(ballots, key));
    OrderIsListing(ballots);
    order := SortByScore(order, score);
    SameElements(order, Ranking(AllRows(ballots)));
    results := Emit(byURL, order, count);
  }

  /** The last loop of `fuseResults`. */
  method Emit(byURL: map<string, Entry>, order: seq<string>, count: int) returns (results: seq<Hit>)
    requires forall key <- order :: key in byURL
    ensures |results| == |Cut(order, count)|
    ensures forall i | 0 <= i < |results| ::
      results[i] == byURL[order[i]].hit.(source := Join(byURL[order[i]].sources, ","))
  {
    results := [];
    for i := 0 to |order|
      invariant |results| == i && (count > 0 ==> i <= count)
      invariant forall k | 0 <= k < i ::
        results[k] == byURL[order[k]].hit.(source := Join(byURL[order[k]].sources, ","))
    {
      if count > 0 && |results| >= count {
        break;
      }
      var entry := byURL[order[i]];
      results := results + [entry.hit.(source := Join(entry.sources, ","))];
    }
  }

  /** The nested loops of `fuseResults`. */
  method Tally(web: Web, responses: seq<Response>) returns (byURL: map<string, Entry>, order: seq<string>)
    ensures Tallies(byURL, order, Ballots(web, responses))
  {
    byURL, order := map[], [];
    for i := 0 to |responses|
      invariant Tallies(byURL, order, Ballots(web, responses[..i]))
    {
      ghost var ballots := Ballots(web, responses[..i]);
      StartBallot(byURL, order, ballots);
      byURL, order := TallyResponse(web, responses[i], byURL, order, ballots);
      assert responses[..i + 1][..i] == responses[..i];
    }
    assert responses[..|responses|] == responses;
  }

  lemma BallotOneMore(web: Web, provider: string, hits: seq<Hit>, j: nat)
    requires j < |hits|
    ensures Ballot(web, provider, hits[..j + 1]) == Ballot(web, provider, hits[..j]) +
      match Clean(web, provider, hits[j])
      case None => []
      case Some(row) => [row]
  {
    assert hits[..j + 1][..j] == hits[..j];
  }

  /** The inner loop of `fuseResults`. */
  method TallyResponse(web: Web, resp: Response, byURL0: map<string, Entry>, order0: seq<string>,
                       ghost ballots: seq<seq<Row>>)
    returns (byURL: map<string, Entry>, order: seq<string>)
    requires Tallies(byURL0, order0, ballots + [[]])
    ensures Tallies(byURL, order, ballots + [Ballot(web, resp.provider, resp.results)])
  {
    byURL, order := byURL0, order0;
    var seen: set<string>, rank := {}, 0;
    ghost var ballot: seq<Row> := [];
    for j := 0 to |resp.results|
      invariant ballot == Ballot(web, resp.provider, resp.results[..j])
      invariant Tallies(byURL, order, ballots + [ballot])
      invariant rank == |Ranking(ballot)| && forall key :: key in seen <==> key in Ranking(ballot)
    {
      var row := Clean(web, resp.provider, resp.results[j]);
      BallotOneMore(web, resp.provider, resp.results, j);
      if row.Some? {
        byURL, order, seen, rank := Absorb(byURL, order, seen, rank, row.value, ballots, ballot);
        ballot := ballot + [row.value];
      }
    }
    assert resp.results[..|resp.results|] == resp.results;
  }

  lemma StartBallot(byURL: map<string, Entry>, order: seq<string>, ballots: seq<seq<Row>>)
    requires Tallies(byURL, order, ballots)
    ensures Tallies(byURL, order, ballots + [[]])
  {
    AllRowsExtended(ballots, []);
    assert AllRows(ballots) + [] == AllRows(ballots);
    assert (ballots + [[]])[..|ballots|] == ballots;
    forall key <- byURL
      ensures Score(ballots + [[]], key) == Score(ballots, key) && Sources(ballots + [[]], key) == Sources(ballots, key)
    {
    }
  }

  // ---------------------------------------------------------------------------------
  // What fusion promises
  // ---------------------------------------------------------------------------------

  /** Some provider's usable rows include the document. */
  ghost predicate Listed(ballots: seq<seq<Row>>, key: string) {
    exists b, i | 0 <= b < |ballots| && 0 <= i < |ballots[b]| :: ballots[b][i].key == key
  }

  lemma ListedLast(ballots: seq<seq<Row>>, key: string)
    requires ballots != []
    ensures Listed(ballots, key) <==> Listed(ballots[..|ballots| - 1], key) || key in Ranking(ballots[|ballots| - 1])
  {
    var n := |ballots| - 1;
    RankingHasRow(ballots[n], key);
    if Listed(ballots, key) {
      var b, i :| 0 <= b < |ballots| && 0 <= i < |ballots[b]| && ballots[b][i].key == key;
      assert b < n ==> ballots[..n][b][i].key == key;
    }
    if Listed(ballots[..n], key) {
      var b, i :| 0 <= b < n && 0 <= i < |ballots[..n][b]| && ballots[..n][b][i].key == key;
      assert ballots[b][i].key == key;
    }
  }

  lemma {:induction false} ListedInAllRows(ballots: seq<seq<Row>>, key: string)
    ensures Listed(ballots, key) <==> key in Ranking(AllRows(ballots))
  {
    if ballots == [] {
    } else {
      var before, last := ballots[..|ballots| - 1], ballots[|ballots| - 1];
      ListedInAllRows(before, key);
      RankingOfParts(AllRows(before), last, key);
      ListedLast(ballots, key);
    }
  }

  lemma {:induction false} RankingOfParts(a: seq<Row>, b: seq<Row>, key: string)
    ensures key in Ranking(a + b) <==> key in Ranking(a) || key in Ranking(b)
  {
    if b == [] {
      assert a + b == a;
    } else {
      assert (a + b)[..|a + b| - 1] == a + b[..|b| - 1];
      RankingOfParts(a, b[..|b| - 1], key);
    }
  }

  lemma {:induction false} RankingHasRow(rows: seq<Row>, key: string)
    ensures key in Ranking(rows) <==> exists i | 0 <= i < |rows| :: rows[i].key == key
  {
    if rows == [] {
    } else {
      RankingHasRow(rows[..|rows| - 1], key);
      assert forall i | 0 <= i < |rows| - 1 :: rows[..|rows| - 1][i] == rows[i];
    }
  }

  lemma {:induction false} IndexOfDistinct(s: seq<string>, i: nat)
    requires i < |s| && forall j | 0 <= j < i :: s[j] != s[i]
    ensures IndexOf(s, s[i]) == i
  {
    if i == 0 {
    } else {
      IndexOfDistinct(s[1..], i - 1);
    }
  }

  /**
    The fused list names every listed document exactly once, by nonincreasing score, and
    documents of equal score in the order in which they first occur.
  */
  lemma OrderIsRanked(ballots: seq<seq<Row>>)
    ensures forall key :: key in Order(ballots) <==> Listed(ballots, key)
    ensures forall i, j | 0 <= i < j < |Order(ballots)| :: Order(ballots)[i] != Order(ballots)[j]
    ensures Ranked(Order(ballots), key => Score(ballots, key), key => IndexOf(Ranking(AllRows(ballots)), key))
  {
    var listing := Ranking(AllRows(ballots));
    var score, position := key => Score(ballots, key), key => IndexOf(listing, key);
    RankingIsDistinct(AllRows(ballots));
    forall i, j | 0 <= i < j < |listing|
      ensures position(listing[i]) < position(listing[j])
    {
      IndexOfDistinct(listing, i);
      IndexOfDistinct(listing, j);
    }
    SortIsRanked(listing, score, position);
    SortIsPermutation(listing, score);
    forall key
      ensures key in Order(ballots) <==> Listed(ballots, key)
    {
      ListedInAllRows(ballots, key);
    }
  }

  /** Every row is clean and keyed by its own URL. */
  ghost predicate WellKeyed(web: Web, rows: seq<Row>) {
    forall row <- rows :: row.key == web.key(row.hit.url) && Tidy(web, row.hit)
  }

  /** A hit that cleaning leaves alone, its source aside. */
  ghost predicate Tidy(web: Web, h: Hit) {
    && TrimSpace(h.title) == h.title != ""
    && TrimSpace(h.url) == h.url != ""
    && web.valid(h.url)
    && Collapse(h.description) == h.description
  }

  lemma {:induction false} BallotIsWellKeyed(web: Web, provider: string, hits: seq<Hit>)
    ensures WellKeyed(web, Ballot(web, provider, hits))
    ensures forall row <- Ballot(web, provider, hits) :: row.hit.source != "" || provider == ""
  {
    if hits == [] {
    } else {
      BallotIsWellKeyed(web, provider, hits[..|hits| - 1]);
      var h := hits[|hits| - 1];
      TrimSpaceIdempotent(h.title);
      TrimSpaceIdempotent(h.url);
      CollapseIdempotent(h.description);
    }
  }

  lemma {:induction false} BallotsAreWellKeyed(web: Web, responses: seq<Response>)
    ensures WellKeyed(web, AllRows(Ballots(web, responses)))
  {
    if responses == [] {
    } else {
      var last := responses[|responses| - 1];
      BallotsAreWellKeyed(web, responses[..|responses| - 1]);
      BallotIsWellKeyed(web, last.provider, last.results);
      AllRowsExtended(Ballots(web, responses[..|responses| - 1]), Ballot(web, last.provider, last.results));
    }
  }

  lemma {:induction false} MergedIsWellKeyed(web: Web, rows: seq<Row>, key: string)
    requires WellKeyed(web, rows) && Merged(rows, key).Some?
    ensures web.key(Merged(rows, key).value.url) == key && Tidy(web, Merged(rows, key).value)
  {
    var before, last := rows[..|rows| - 1], rows[|rows| - 1];
    assert last in rows;
    if Merged(before, key).Some? {
      MergedIsWellKeyed(web, before, key);
    }
  }

  /** `i` is a row of the document. */
  ghost predicate IsRowOf(rows: seq<Row>, key: string, i: int) {
    0 <= i < |rows| && rows[i].key == key
  }

  /** The merged hit has the URL of the document's first row. */
  lemma {:induction false} MergedUrlIsFirst(rows: seq<Row>, key: string)
    requires Merged(rows, key).Some?
    ensures exists i :: IsRowOf(rows, key, i) && rows[i].hit.url == Merged(rows, key).value.url
                        && forall j | 0 <= j < i :: !IsRowOf(rows, key, j)
  {
    var before, n := rows[..|rows| - 1], |rows| - 1;
    RankingFacts(before);
    if Merged(before, key).Some? {
      MergedUrlIsFirst(before, key);
      var i :| IsRowOf(before, key, i) && before[i].hit.url == Merged(before, key).value.url
               && forall j | 0 <= j < i :: !IsRowOf(before, key, j);
      assert IsRowOf(rows, key, i) && forall j | 0 <= j < i :: !IsRowOf(rows, key, j) by {
        assert forall j | 0 <= j < n :: IsRowOf(rows, key, j) <==> IsRowOf(before, key, j);
      }
    } else {
      assert forall j | 0 <= j < n :: before[j] in before && rows[j] == before[j];
      assert IsRowOf(rows, key, n);
    }
  }

  /** The rows of a document are those before the last, and the last if it is one. */
  lemma RowsOfPrefix(rows: seq<Row>, key: string)
    requires rows != []
    ensures var before, n := rows[..|rows| - 1], |rows| - 1;
      && (forall i :: IsRowOf(rows, key, i) <==> IsRowOf(before, key, i) || (i == n && rows[n].key == key))
      && (Merged(before, key).None? ==> forall i :: !IsRowOf(before, key, i))
  {
    var before := rows[..|rows| - 1];
    RankingFacts(before);
    forall i | IsRowOf(before, key, i)
      ensures Merged(before, key).Some?
    {
      assert before[i] in before;
    }
  }

  /** No row of the document has a description longer than `text`. */
  ghost predicate NoneLonger(rows: seq<Row>, key: string, text: string) {
    forall i :: IsRowOf(rows, key, i) ==> ByteLen(rows[i].hit.description) <= ByteLen(text)
  }

  /** `text` is row `i`'s description, and longer than any before. */
  ghost predicate IsLongestSoFar(rows: seq<Row>, key: string, text: string, i: int) {
    && IsRowOf(rows, key, i) && rows[i].hit.description == text
    && forall j | 0 <= j < i :: IsRowOf(rows, key, j) ==> ByteLen(rows[j].hit.description) < ByteLen(text)
  }

  /** `text` is the first of the longest descriptions that the rows give. */
  ghost predicate IsLongest(rows: seq<Row>, key: string, text: string) {
    NoneLonger(rows, key, text) && exists i :: IsLongestSoFar(rows, key, text, i)
  }

  lemma LongestSoFarStays(rows: seq<Row>, key: string, text: string, i: int)
    requires rows != [] && IsLongestSoFar(rows[..|rows| - 1], key, text, i)
    ensures IsLongestSoFar(rows, key, text, i)
  {
    hide ByteLen;
    var before := rows[..|rows| - 1];
    assert forall j | 0 <= j <= i :: rows[j] == before[j];
  }

  lemma LongestAtLast(rows: seq<Row>, key: string, text: string)
    requires rows != [] && NoneLonger(rows[..|rows| - 1], key, text)
    requires rows[|rows| - 1].key == key && ByteLen(rows[|rows| - 1].hit.description) > ByteLen(text)
    ensures IsLongestSoFar(rows, key, rows[|rows| - 1].hit.description, |rows| - 1)
  {
    hide ByteLen;
    var before := rows[..|rows| - 1];
    forall j | 0 <= j < |rows| - 1 && IsRowOf(rows, key, j)
      ensures ByteLen(rows[j].hit.description) <= ByteLen(text)
    {
      assert IsRowOf(before, key, j) && before[j] == rows[j];
    }
  }

  lemma NoneLongerOfOneMore(rows: seq<Row>, key: string, text: string, longest: string)
    requires rows != [] && NoneLonger(rows[..|rows| - 1], key, text) && ByteLen(text) <= ByteLen(longest)
    requires rows[|rows| - 1].key == key ==> ByteLen(rows[|rows| - 1].hit.description) <= ByteLen(longest)
    ensures NoneLonger(rows, key, longest)
  {
    hide ByteLen;
    var before := rows[..|rows| - 1];
    forall i | IsRowOf(rows, key, i)
      ensures ByteLen(rows[i].hit.description) <= ByteLen(longest)
    {
      assert i < |rows| - 1 ==> IsRowOf(before, key, i) && before[i] == rows[i];
    }
  }

  lemma LongestOfOneMore(rows: seq<Row>, key: string, text: string)
    requires rows != [] && IsLongest(rows[..|rows| - 1], key, text)
    ensures var last := rows[|rows| - 1];
      IsLongest(rows, key,
        if last.key == key && ByteLen(last.hit.description) > ByteLen(text) then last.hit.description else text)
  {
    hide ByteLen, NoneLonger, IsLongestSoFar;
    var last := rows[|rows| - 1];
    if last.key == key && ByteLen(last.hit.description) > ByteLen(text) {
      LongestAtLast(rows, key, text);
      NoneLongerOfOneMore(rows, key, text, last.hit.description);
    } else {
      var i :| IsLongestSoFar(rows[..|rows| - 1], key, text, i);
      LongestSoFarStays(rows, key, text, i);
      NoneLongerOfOneMore(rows, key, text, text);
    }
  }

  /** The merged hit has such a description. */
  lemma {:induction false} MergedDescriptionIsLongest(rows: seq<Row>, key: string)
    requires Merged(rows, key).Some?
    ensures IsLongest(rows, key, Merged(rows, key).value.description)
  {
    var before, n := rows[..|rows| - 1], |rows| - 1;
    if Merged(before, key).None? {
      RowsOfPrefix(rows, key);
      assert IsLongestSoFar(rows, key, rows[n].hit.description, n);
    } else {
      MergedDescriptionIsLongest(before, key);
      LongestOfOneMore(rows, key, Merged(before, key).value.description);
    }
  }

  /** `date` is the first publication date that any row gives, or empty if none gives one. */
  ghost predicate IsFirstDate(rows: seq<Row>, key: string, date: string) {
    && (exists i :: IsRowOf(rows, key, i) && rows[i].hit.published == date
                    && forall j | 0 <= j < i :: IsRowOf(rows, key, j) ==> rows[j].hit.published == "")
    && (date == "" ==> forall j :: IsRowOf(rows, key, j) ==> rows[j].hit.published == "")
  }

  lemma FirstDateOfOneMore(rows: seq<Row>, key: string, date: string)
    requires rows != [] && IsFirstDate(rows[..|rows| - 1], key, date)
    ensures var last := rows[|rows| - 1];
      IsFirstDate(rows, key, if last.key == key && date == "" then last.hit.published else date)
  {
    var before, n := rows[..|rows| - 1], |rows| - 1;
    RowsOfPrefix(rows, key);
    if rows[n].key == key && date == "" {
      assert IsRowOf(rows, key, n);
    } else {
      var i :| IsRowOf(before, key, i) && before[i].hit.published == date
               && forall j | 0 <= j < i :: IsRowOf(before, key, j) ==> before[j].hit.published == "";
      assert IsRowOf(rows, key, i);
    }
  }

  /** The merged hit has that date. */
  lemma {:induction false} MergedPublishedIsFirst(rows: seq<Row>, key: string)
    requires Merged(rows, key).Some?
    ensures IsFirstDate(rows, key, Merged(rows, key).value.published)
  {
    var before, n := rows[..|rows| - 1], |rows| - 1;
    if Merged(before, key).None? {
      RowsOfPrefix(rows, key);
      assert IsRowOf(rows, key, n);
    } else {
      MergedPublishedIsFirst(before, key);
      FirstDateOfOneMore(rows, key, Merged(before, key).value.published);
    }
  }

  /** The title of row `i` says more than a URL: its own, or the document's. */
  ghost predicate IsNamed(rows: seq<Row>, key: string, url: string, i: int) {
    IsRowOf(rows, key, i) && rows[i].hit.title != rows[i].hit.url && rows[i].hit.title != url
  }

  /** `title` is the first title that says more than a URL, or the document's URL if none does. */
  ghost predicate IsTitle(rows: seq<Row>, key: string, url: string, title: string) {
    || (title == url && forall j :: !IsNamed(rows, key, url, j))
    || (title != url && exists i ::
          && IsNamed(rows, key, url, i) && rows[i].hit.title == title
          && forall j | 0 <= j < i :: !IsNamed(rows, key, url, j))
  }

  lemma TitleOfOneMore(rows: seq<Row>, key: string, url: string, title: string)
    requires rows != [] && IsTitle(rows[..|rows| - 1], key, url, title)
    ensures var last := rows[|rows| - 1];
      IsTitle(rows, key, url,
        if last.key == key && title == url && last.hit.title != last.hit.url then last.hit.title else title)
  {
    var before, n := rows[..|rows| - 1], |rows| - 1;
    RowsOfPrefix(rows, key);
    assert forall j :: IsNamed(rows, key, url, j) <==>
      || IsNamed(before, key, url, j)
      || (j == n && rows[n].key == key && rows[n].hit.title != rows[n].hit.url && rows[n].hit.title != url);
    if title != url {
      var i :| && IsNamed(before, key, url, i) && before[i].hit.title == title
               && forall j | 0 <= j < i :: !IsNamed(before, key, url, j);
      assert IsNamed(rows, key, url, i) && rows[i] == before[i];
    } else if IsNamed(rows, key, url, n) {
      assert rows[n].hit.title != url;
    }
  }

  /** The merged hit has that title, whichever row it comes from. */
  lemma {:induction false} MergedTitleIsFirstName(rows: seq<Row>, key: string)
    requires Merged(rows, key).Some?
    ensures IsTitle(rows, key, Merged(rows, key).value.url, Merged(rows, key).value.title)
  {
    var before, n := rows[..|rows| - 1], |rows| - 1;
    if Merged(before, key).None? {
      RowsOfPrefix(rows, key);
      var url := rows[n].hit.url;
      assert forall j :: IsNamed(rows, key, url, j) ==> j == n;
      if rows[n].hit.title != url {
        assert IsNamed(rows, key, url, n);
      }
    } else {
      MergedTitleIsFirstName(before, key);
      TitleOfOneMore(rows, key, Merged(before, key).value.url, Merged(before, key).value.title);
    }
  }

  /** The first row of the document in one ballot. */
  ghost predicate IsFirstRowOf(ballot: seq<Row>, key: string, i: int) {
    IsRowOf(ballot, key, i) && forall j | 0 <= j < i :: !IsRowOf(ballot, key, j)
  }

  lemma {:induction false} SourceIsOfFirstRow(ballot: seq<Row>, key: string, i: int)
    requires IsFirstRowOf(ballot, key, i)
    ensures SourceIn(ballot, key) == ballot[i].hit.source
  {
    var before, n := ballot[..|ballot| - 1], |ballot| - 1;
    RankingHasRow(before, key);
    if i < n {
      assert IsRowOf(before, key, i);
      assert forall j | 0 <= j < i :: IsRowOf(before, key, j) ==> IsRowOf(ballot, key, j);
      SourceIsOfFirstRow(before, key, i);
    } else {
      forall j | 0 <= j < n
        ensures before[j].key != key
      {
        assert !IsRowOf(ballot, key, j);
      }
    }
  }

  /** A provider contributes the source of its first row of the document, if that is named. */
  ghost predicate Contributes(ballots: seq<seq<Row>>, key: string, b: int, source: string) {
    && 0 <= b < |ballots| && source != ""
    && exists i :: IsFirstRowOf(ballots[b], key, i) && ballots[b][i].hit.source == source
  }

  lemma {:induction false} FirstRow(ballot: seq<Row>, key: string) returns (i: nat)
    requires key in Ranking(ballot)
    ensures IsFirstRowOf(ballot, key, i)
  {
    var before, n := ballot[..|ballot| - 1], |ballot| - 1;
    if key in Ranking(before) {
      i := FirstRow(before, key);
      assert forall j | 0 <= j <= i :: IsRowOf(before, key, j) <==> IsRowOf(ballot, key, j);
    } else {
      RankingHasRow(before, key);
      i := n;
      forall j | 0 <= j < n
        ensures !IsRowOf(ballot, key, j)
      {
        assert before[j] == ballot[j];
      }
    }
  }

  lemma SourceInMeans(ballot: seq<Row>, key: string, source: string)
    requires source != ""
    ensures SourceIn(ballot, key) == source <==>
      exists i :: IsFirstRowOf(ballot, key, i) && ballot[i].hit.source == source
  {
    if key in Ranking(ballot) {
      var i := FirstRow(ballot, key);
      SourceIsOfFirstRow(ballot, key, i);
      forall j | IsFirstRowOf(ballot, key, j)
        ensures j == i
      {
        assert !(i < j) && !(j < i);
      }
    } else {
      NoSource(ballot, key);
      RankingHasRow(ballot, key);
    }
  }

  /** The listed sources are those that contribute, each once. */
  lemma {:induction false} SourcesAreContributed(ballots: seq<seq<Row>>, key: string)
    ensures forall source :: source in Sources(ballots, key) <==> exists b :: Contributes(ballots, key, b, source)
    ensures forall i, j | 0 <= i < j < |Sources(ballots, key)| :: Sources(ballots, key)[i] != Sources(ballots, key)[j]
  {
    if ballots == [] {
    } else {
      var before, n := ballots[..|ballots| - 1], |ballots| - 1;
      SourcesAreContributed(before, key);
      forall source
        ensures source in Sources(ballots, key) <==> exists b :: Contributes(ballots, key, b, source)
      {
        if source != "" {
          SourceInMeans(ballots[n], key, source);
          assert Contributes(ballots, key, n, source) <==> SourceIn(ballots[n], key) == source;
          assert forall b :: Contributes(ballots, key, b, source) <==>
            Contributes(before, key, b, source) || (b == n && Contributes(ballots, key, n, source));
        }
      }
    }
  }

  /** Sources are listed in the order of the providers: a further provider adds at the end. */
  lemma SourcesGrow(ballots: seq<seq<Row>>, ballot: seq<Row>, key: string)
    ensures Sources(ballots, key) <= Sources(ballots + [ballot], key)
  {
    assert (ballots + [ballot])[..|ballots|] == ballots;
  }

  /** Each fused hit is a tidy hit of the document at its place in the order. */
  lemma FusedHitsAreKeyed(web: Web, responses: seq<Response>, count: int)
    ensures var hits, order := Fuse(web, responses, count), Cut(Order(Ballots(web, responses)), count);
      && |hits| == |order|
      && forall i | 0 <= i < |hits| :: web.key(hits[i].url) == order[i] && Tidy(web, hits[i])
  {
    var ballots := Ballots(web, responses);
    BallotsAreWellKeyed(web, responses);
    OrderIsListing(ballots);
    var order := Cut(Order(ballots), count);
    forall i | 0 <= i < |order|
      ensures web.key(Fuse(web, responses, count)[i].url) == order[i] && Tidy(web, Fuse(web, responses, count)[i])
    {
      assert order[i] in Order(ballots);
      MergedIsWellKeyed(web, AllRows(ballots), order[i]);
    }
  }

  /** A positive count cuts the list of all documents to its first ones, any other not at all. */
  lemma CountCuts(web: Web, responses: seq<Response>, count: int)
    ensures var hits, all := Fuse(web, responses, count), Fuse(web, responses, 0);
      && hits <= all
      && |hits| == (if count > 0 && count < |all| then count else |all|)
  {
  }

  /** Each document is one hit, which has everything its rows say, and its sources. */
  lemma FusedHitsAreMerged(web: Web, responses: seq<Response>, i: nat)
    requires i < |Fuse(web, responses, 0)|
    ensures var ballots, hit := Ballots(web, responses), Fuse(web, responses, 0)[i];
      && i < |Order(ballots)|
      && var key := Order(ballots)[i];
      && Merged(AllRows(ballots), key).Some?
      && hit == Merged(AllRows(ballots), key).value.(source := Join(Sources(ballots, key), ","))
  {
    OrderIsListing(Ballots(web, responses));
    assert Order(Ballots(web, responses))[i] in Order(Ballots(web, responses));
  }

  // ---------------------------------------------------------------------------------
  // What becomes of a raw hit
  // ---------------------------------------------------------------------------------

  /**
    A hit is dropped exactly if its URL is blank or unacceptable. Otherwise it is kept up
    to white space, but for two gaps that are filled: a blank title by the URL, a missing
    source by the provider.
  */
  lemma CleanFillsGaps(web: Web, provider: string, h: Hit)
    ensures Clean(web, provider, h).Some? <==> TrimSpace(h.url) != "" && web.valid(TrimSpace(h.url))
    ensures Clean(web, provider, h).Some? ==>
      var row := Clean(web, provider, h).value;
      && row.key == web.key(row.hit.url) && row.hit.url == TrimSpace(h.url)
      && (TrimSpace(h.title) != "" ==> row.hit.title == TrimSpace(h.title))
      && (TrimSpace(h.title) == "" ==> row.hit.title == row.hit.url)
      && Fields(row.hit.description) == Fields(h.description)
      && (h.source != "" ==> row.hit.source == h.source) && (h.source == "" ==> row.hit.source == provider)
      && row.hit.published == h.published
  {
    FieldsAreWords(h.description);
    FieldsOfJoin(Fields(h.description));
  }

  // ---------------------------------------------------------------------------------
  // One response, fused and fused again
  // ---------------------------------------------------------------------------------

  lemma Reciprocals(a: real, b: real)
    requires 0.0 < a < b
    ensures 1.0 / a > 1.0 / b > 0.0
  {
    assert 1.0 / a == b / (a * b) && 1.0 / b == a / (a * b);
  }

  lemma SharesDecrease(i: nat, j: nat)
    requires i < j
    ensures Share(i) > Share(j) > 0.0
  {
    Reciprocals((RRF_K + i + 1) as real, (RRF_K + j + 1) as real);
  }

  lemma SingleBallot(ballot: seq<Row>, key: string)
    ensures AllRows([ballot]) == ballot
    ensures Score([ballot], key) == Vote(ballot, key)
    ensures Sources([ballot], key) == AddSource([], SourceIn(ballot, key))
  {
    assert [ballot][..0] == [];
    assert [] + ballot == ballot;
  }

  lemma ListingIsRanked(ballot: seq<Row>)
    ensures Ranked(Ranking(ballot), key => Score([ballot], key), key => IndexOf(Ranking(ballot), key))
  {
    var listing := Ranking(ballot);
    RankingIsDistinct(ballot);
    forall i, j | 0 <= i < j < |listing|
      ensures Score([ballot], listing[i]) > Score([ballot], listing[j])
    {
      SingleBallot(ballot, listing[i]);
      SingleBallot(ballot, listing[j]);
      IndexOfDistinct(listing, i);
      IndexOfDistinct(listing, j);
      SharesDecrease(i, j);
    }
  }

  /** A single ballot keeps its order. */
  lemma SingleBallotOrder(ballot: seq<Row>)
    ensures Order([ballot]) == Ranking(ballot)
  {
    SingleBallot(ballot, "");
    OrderIsRanked([ballot]);
    OrderIsListing([ballot]);
    ListingIsRanked(ballot);
    RankedIsUnique(Order([ballot]), Ranking(ballot), key => Score([ballot], key), key => IndexOf(Ranking(ballot), key));
  }

  lemma FuseOneAt(ballot: seq<Row>, key: string)
    requires key in Ranking(ballot)
    ensures Merged(ballot, key).Some? && Merged(AllRows([ballot]), key).Some?
    ensures FusedHit([ballot], key) == Merged(ballot, key).value.(source := SourceIn(ballot, key))
  {
    RankingFacts(ballot);
    SingleBallot(ballot, key);
  }

  lemma OneResponse(web: Web, resp: Response)
    ensures Ballots(web, [resp]) == [Ballot(web, resp.provider, resp.results)]
    ensures Order(Ballots(web, [resp])) == Ranking(Ballot(web, resp.provider, resp.results))
  {
    var ballot := Ballot(web, resp.provider, resp.results);
    assert [resp][..0] == [];
    assert Ballots(web, [resp]) == [] + [ballot] == [ballot];
    SingleBallotOrder(ballot);
  }

  /** Fusing one response: its documents in order, each with its own source. */
  lemma FuseOne(web: Web, resp: Response, count: int)
    ensures var ballot := Ballot(web, resp.provider, resp.results);
      var hits, order := Fuse(web, [resp], count), Cut(Ranking(ballot), count);
      && |hits| == |order|
      && forall i | 0 <= i < |hits| ::
           && Merged(ballot, order[i]).Some?
           && hits[i] == Merged(ballot, order[i]).value.(source := SourceIn(ballot, order[i]))
  {
    var ballot := Ballot(web, resp.provider, resp.results);
    OneResponse(web, resp);
    forall key <- Ranking(ballot) {
      FuseOneAt(ballot, key);
    }
  }

  /** Hits that cleaning leaves alone, of documents that are all different. */
  ghost predicate Settled(web: Web, provider: string, hits: seq<Hit>) {
    && (forall h <- hits :: Clean(web, provider, h) == Some(Row(web.key(h.url), h)))
    && (forall i, j | 0 <= i < j < |hits| :: web.key(hits[i].url) != web.key(hits[j].url))
  }

  /** The `i`-th document of the ballot is `hit`, and nothing but `hit`. */
  ghost predicate Stands(web: Web, ballot: seq<Row>, i: nat, hit: Hit) {
    var key := web.key(hit.url);
    && i < |Ranking(ballot)| && Ranking(ballot)[i] == key
    && Merged(ballot, key) == Some(hit)
    && SourceIn(ballot, key) == hit.source
  }

  lemma StandsOn(web: Web, ballot: seq<Row>, i: nat, hit: Hit, row: Row)
    requires Stands(web, ballot, i, hit) && row.key !in Ranking(ballot)
    ensures Stands(web, ballot + [row], i, hit)
  {
    assert (ballot + [row])[..|ballot|] == ballot;
    assert Ranking(ballot)[i] in Ranking(ballot);
    RankingAdded(ballot, row);
  }

  lemma StandsLast(web: Web, ballot: seq<Row>, hit: Hit)
    requires web.key(hit.url) !in Ranking(ballot)
    ensures Stands(web, ballot + [Row(web.key(hit.url), hit)], |Ranking(ballot)|, hit)
  {
    var row := Row(web.key(hit.url), hit);
    assert (ballot + [row])[..|ballot|] == ballot;
    RankingAdded(ballot, row);
    RankingFacts(ballot);
    NoSource(ballot, row.key);
  }

  /** The ballot lists exactly these hits. */
  ghost predicate ListsAll(web: Web, ballot: seq<Row>, hits: seq<Hit>) {
    |Ranking(ballot)| == |hits| && forall i | 0 <= i < |hits| :: Stands(web, ballot, i, hits[i])
  }

  lemma ListsOneMore(web: Web, ballot: seq<Row>, hits: seq<Hit>, hit: Hit)
    requires ListsAll(web, ballot, hits)
    requires forall i | 0 <= i < |hits| :: web.key(hits[i].url) != web.key(hit.url)
    ensures ListsAll(web, ballot + [Row(web.key(hit.url), hit)], hits + [hit])
  {
    var row := Row(web.key(hit.url), hit);
    assert row.key !in Ranking(ballot) by {
      assert forall i | 0 <= i < |hits| ::
        Stands(web, ballot, i, hits[i]) ==> Ranking(ballot)[i] == web.key(hits[i].url);
    }
    RankingAdded(ballot, row);
    StandsLast(web, ballot, hit);
    forall i | 0 <= i < |hits|
      ensures Stands(web, ballot + [row], i, hits[i])
    {
      StandsOn(web, ballot, i, hits[i], row);
    }
  }

  lemma {:induction false} SettledBallot(web: Web, provider: string, hits: seq<Hit>)
    requires Settled(web, provider, hits)
    ensures ListsAll(web, Ballot(web, provider, hits), hits)
  {
    if hits == [] {
    } else {
      var rest, last := hits[..|hits| - 1], hits[|hits| - 1];
      assert last in hits && hits == rest + [last];
      SettledBallot(web, provider, rest);
      ListsOneMore(web, Ballot(web, provider, rest), rest, last);
    }
  }

  /** Fusing settled hits alone changes nothing. */
  lemma FuseSettled(web: Web, resp: Response, count: int)
    requires Settled(web, resp.provider, resp.results) && (count > 0 ==> count >= |resp.results|)
    ensures Fuse(web, [resp], count) == resp.results
  {
    SettledBallot(web, resp.provider, resp.results);
    FuseOne(web, resp, count);
    var hits, ballot := resp.results, Ballot(web, resp.provider, resp.results);
    assert forall i | 0 <= i < |hits| :: Stands(web, ballot, i, hits[i]);
  }

  /** What fusing one response leaves is settled under that response's provider. */
  lemma FusedIsSettled(web: Web, resp: Response, count: int)
    ensures Settled(web, resp.provider, Fuse(web, [resp], count))
  {
    var ballot := Ballot(web, resp.provider, resp.results);
    var hits, order := Fuse(web, [resp], count), Cut(Ranking(ballot), count);
    FuseOne(web, resp, count);
    RankingFacts(ballot);
    RankingIsDistinct(ballot);
    BallotIsWellKeyed(web, resp.provider, resp.results);
    forall i | 0 <= i < |hits|
      ensures web.key(hits[i].url) == order[i]
      ensures Clean(web, resp.provider, hits[i]) == Some(Row(web.key(hits[i].url), hits[i]))
    {
      assert order[i] in Ranking(ballot);
      MergedIsWellKeyed(web, ballot, order[i]);
      SourceIsNamed(ballot, order[i], resp.provider);
    }
  }

  lemma {:induction false} SourceIsNamed(ballot: seq<Row>, key: string, provider: string)
    requires key in Ranking(ballot) && forall row <- ballot :: row.hit.source != "" || provider == ""
    ensures SourceIn(ballot, key) != "" || provider == ""
  {
    var before := ballot[..|ballot| - 1];
    assert ballot[|ballot| - 1] in ballot;
    if key in Ranking(before) {
      SourceIsNamed(before, key, provider);
    }
  }

  /** Fusing one response's results again, under the same provider, changes nothing. */
  lemma RefusingIsIdentity(web: Web, resp: Response, count: int, again: int)
    requires again > 0 ==> again >= |Fuse(web, [resp], count)|
    ensures Fuse(web, [resp.(results := Fuse(web, [resp], count))], again) == Fuse(web, [resp], count)
  {
    FusedIsSettled(web, resp, count);
    FuseSettled(web, resp.(results := Fuse(web, [resp], count)), again);
  }
}
