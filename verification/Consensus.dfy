/**
  Documents that two providers agree on come before documents only one of them names,
  because each provider contributes at most fifty candidates.
*/
module Consensus {
  import opened Wrappers
  import opened SearchTypes
  import opened Sorting
  import opened Fusion
  import opened Selection
  import opened FallbackChain
  import opened Service

  /** How many providers name a document. */
  ghost function Votes(ballots: seq<seq<Row>>, key: string): nat {
    if ballots == [] then 0 else
      Votes(ballots[..|ballots| - 1], key) + if key in Ranking(ballots[|ballots| - 1]) then 1 else 0
  }

  ghost predicate Bounded(ballots: seq<seq<Row>>) {
    forall b | 0 <= b < |ballots| :: |Ranking(ballots[b])| <= MAX_RESULT_COUNT
  }

  lemma ShareBounds(i: nat)
    requires i < MAX_RESULT_COUNT
    ensures 1.0 / 110.0 <= Share(i) <= 1.0 / 61.0
  {
    if i + 1 < MAX_RESULT_COUNT {
      Reciprocals((RRF_K + i + 1) as real, 110.0);
    }
    if i > 0 {
      Reciprocals(61.0, (RRF_K + i + 1) as real);
    }
  }

  lemma {:induction false} IndexOfMember(s: seq<string>, x: string)
    requires x in s
    ensures IndexOf(s, x) < |s|
  {
    if s[0] != x {
      IndexOfMember(s[1..], x);
    }
  }

  /** Each vote is worth between 1/110 and 1/61. */
  lemma {:induction false} ScoreBounds(ballots: seq<seq<Row>>, key: string)
    requires Bounded(ballots)
    ensures Votes(ballots, key) as real / 110.0 <= Score(ballots, key) <= Votes(ballots, key) as real / 61.0
  {
    if ballots == [] {
    } else {
      var last := ballots[|ballots| - 1];
      ScoreBounds(ballots[..|ballots| - 1], key);
      if key in Ranking(last) {
        IndexOfMember(Ranking(last), key);
        ShareBounds(IndexOf(Ranking(last), key));
      }
    }
  }

  /** Two providers outweigh any one. */
  lemma AgreedScoresHigher(ballots: seq<seq<Row>>, agreed: string, single: string)
    requires Bounded(ballots) && Votes(ballots, agreed) >= 2 && Votes(ballots, single) == 1
    ensures Score(ballots, agreed) > Score(ballots, single)
  {
    ScoreBounds(ballots, agreed);
    ScoreBounds(ballots, single);
    assert Votes(ballots, agreed) as real / 110.0 >= 2.0 / 110.0 > 1.0 / 61.0;
  }

  lemma {:induction false} BallotIsNoLonger(web: Web, provider: string, hits: seq<Hit>)
    ensures |Ballot(web, provider, hits)| <= |hits|
  {
    if hits == [] {
    } else {
      BallotIsNoLonger(web, provider, hits[..|hits| - 1]);
    }
  }

  lemma AnswerIsShort(s: Setup, req: Request, name: string)
    requires EachAlone(s, req)(name).Ok?
    ensures var resp := EachAlone(s, req)(name).value;
      |Ranking(Ballot(s.web, resp.provider, resp.results))| <= MAX_RESULT_COUNT
  {
    var resp := EachAlone(s, req)(name).value;
    SearchOneIsSettled(s, req.(provider := name));
    BallotIsNoLonger(s.web, resp.provider, resp.results);
    RankingIsDistinct(Ballot(s.web, resp.provider, resp.results));
  }

  lemma OneMoreBallot(web: Web, responses: seq<Response>, resp: Response)
    requires Bounded(Ballots(web, responses))
    requires |Ranking(Ballot(web, resp.provider, resp.results))| <= MAX_RESULT_COUNT
    ensures Bounded(Ballots(web, responses + [resp]))
  {
    assert (responses + [resp])[..|responses|] == responses;
  }

  lemma {:induction false} BallotsAreShort(s: Setup, req: Request, names: seq<string>)
    ensures Bounded(Ballots(s.web, Answers(EachAlone(s, req), names)))
  {
    if names == [] {
    } else {
      var ask, before := EachAlone(s, req), names[..|names| - 1];
      var outcome := ask(names[|names| - 1]);
      BallotsAreShort(s, req, before);
      if outcome.Ok? {
        AnswerIsShort(s, req, names[|names| - 1]);
        OneMoreBallot(s.web, Answers(ask, before), outcome.value);
        assert Answers(ask, names) == Answers(ask, before) + [outcome.value];
      } else {
        assert Answers(ask, names) == Answers(ask, before) + [] == Answers(ask, before);
      }
    }
  }

  /** In the fused order, what two providers name comes before what only one names. */
  lemma AgreedIsOrderedFirst(ballots: seq<seq<Row>>, i: nat, j: nat)
    requires Bounded(ballots) && i < |Order(ballots)| && j < |Order(ballots)|
    requires Votes(ballots, Order(ballots)[i]) >= 2 && Votes(ballots, Order(ballots)[j]) == 1
    ensures i < j
  {
    AgreedScoresHigher(ballots, Order(ballots)[i], Order(ballots)[j]);
    OrderIsRanked(ballots);
  }

  /** In a fan-out, what two providers name is listed before what only one names. */
  lemma AgreedComesFirst(s: Setup, req: Request, names: seq<string>, i: nat, j: nat)
    requires var responses := Answers(EachAlone(s, req), names);
      var ballots, fused := Ballots(s.web, responses), Fuse(s.web, responses, 0);
      && i < |fused| && j < |fused|
      && Votes(ballots, s.web.key(fused[i].url)) >= 2
      && Votes(ballots, s.web.key(fused[j].url)) == 1
    ensures i < j
  {
    var responses := Answers(EachAlone(s, req), names);
    BallotsAreShort(s, req, names);
    FusedHitsAreKeyed(s.web, responses, 0);
    AgreedIsOrderedFirst(Ballots(s.web, responses), i, j);
  }

  lemma ChosenIsPrefix(hostOf: string -> Option<string>, req: Request, hits: seq<Hit>, i: nat, j: nat)
    requires req.maxPerHost <= 0 && i < j < |hits|
    requires Passes(hostOf, req, hits[i]).Some? && j in Chosen(hostOf, req, hits)
    ensures i in Chosen(hostOf, req, hits)
  {
    var all, chosen := Eligible(hostOf, req, hits), Chosen(hostOf, req, hits);
    UncappedIsFilter(hostOf, req, hits, i);
    EligibleFacts(hostOf, req, hits);
    var x :| 0 <= x < |all| && all[x] == i;
    var y :| 0 <= y < |chosen| && chosen[y] == j;
    assert all[y] == j && x < y;
    assert chosen[x] == i;
  }

  /**
    However few results are asked for, and whatever the domain filters, a fan-out without
    a host cap never keeps a document that one provider names while it cuts one that
    several name and the filters admit.
  */
  lemma AgreementSurvivesTheCut(s: Setup, req: Request, names: seq<string>, i: nat, j: nat)
    requires req.maxPerHost <= 0
    requires var responses := Answers(EachAlone(s, req), names);
      var ballots, fused := Ballots(s.web, responses), Fuse(s.web, responses, 0);
      && i < |fused| && j < |fused|
      && Votes(ballots, s.web.key(fused[i].url)) >= 2
      && Votes(ballots, s.web.key(fused[j].url)) == 1
      && Passes(s.hostOf, req, fused[i]).Some?
      && j in Chosen(s.hostOf, req, fused)
    ensures i in Chosen(s.hostOf, req, Fuse(s.web, Answers(EachAlone(s, req), names), 0))
  {
    AgreedComesFirst(s, req, names, i, j);
    ChosenIsPrefix(s.hostOf, req, Fuse(s.web, Answers(EachAlone(s, req), names), 0), i, j);
  }

  lemma {:induction false} AnswersAreShort(s: Setup, req: Request, responses: seq<Response>)
    requires forall resp <- responses :: resp.provider in s.providers && Own(s, req, resp.provider) == Ok(resp)
    ensures Bounded(Ballots(s.web, responses))
  {
    if responses == [] {
    } else {
      var rest, last := responses[..|responses| - 1], responses[|responses| - 1];
      assert responses == rest + [last] && last in responses;
      AnswersAreShort(s, req, rest);
      assert EachAlone(s, req)(last.provider) == Own(s, req, last.provider);
      AnswerIsShort(s, req, last.provider);
      OneMoreBallot(s.web, rest, last);
    }
  }

  /**
    In what a fan-out without a host cap returns, whatever the count and the domain
    filters: if it has a hit that one provider names, then it has every document that the
    filters admit and several providers name, and has it earlier.
  */
  lemma AgreementShows(s: Setup, req: Request, responses: seq<Response>, results: seq<Hit>, i: nat, b: nat)
    requires req.maxPerHost <= 0 && AreAnswers(s, req, responses)
    requires IsSelectionOf(s.hostOf, req, Fuse(s.web, responses, 0), results)
    requires var ballots, fused := Ballots(s.web, responses), Fuse(s.web, responses, 0);
      && i < |fused| && b < |results|
      && Votes(ballots, s.web.key(fused[i].url)) >= 2 && IsAdmitted(s.hostOf, req, fused[i])
      && Votes(ballots, s.web.key(results[b].url)) == 1
    ensures exists a | 0 <= a < b :: results[a] == Fuse(s.web, responses, 0)[i]
  {
    hide Votes, IsAdmitted, Fuse, IsFair, IsSelectionOf, Order;
    var fused := Fuse(s.web, responses, 0);
    var picks := PicksOf(s.hostOf, req, fused, results);
    AnswersAreShort(s, req, responses);
    FusedHitsAreKeyed(s.web, responses, 0);
    AgreedIsOrderedFirst(Ballots(s.web, responses), i, picks[b]);
    UncappedPicksFirst(s.hostOf, req, fused, picks, i, b);
    var a :| 0 <= a < b && picks[a] == i;
    assert results[a] == fused[i];
  }
}
