/**
  The final choice of results: domain filters, a cap per host, and a count. The loop is
  greedy; what it chooses is described index by index, and no choice that respects the
  filters and the cap is longer.
*/
module Selection {
  import opened Wrappers
  import opened Numbers
  import opened SearchTypes
  import opened Text

  const MAX_RESULT_COUNT := 50

  /** How many candidates to ask a provider for. */
  function CandidateCount(req: Request): int {
    var count := Max(req.count, 10);
    var count := if |req.includeDomains| + |req.excludeDomains| > 0 || req.maxPerHost > 0
      then Max(count, Min(req.count * 3, MAX_RESULT_COUNT)) else count;
    Min(count, MAX_RESULT_COUNT)
  }

  /** There are always at least ten candidates, as many as results, and at most fifty. */
  lemma CandidateCountBounds(req: Request)
    ensures 10 <= CandidateCount(req) <= MAX_RESULT_COUNT
    ensures req.count <= MAX_RESULT_COUNT ==> req.count <= CandidateCount(req)
  {
  }

  /**
    There are no more than needed: without filters and cap ten, or as many as results; with
    either of them, three times as many as results if that is more.
  */
  lemma CandidatesAreNeeded(req: Request)
    requires 0 <= req.count <= MAX_RESULT_COUNT
    ensures var pool := if |req.includeDomains| + |req.excludeDomains| > 0 || req.maxPerHost > 0 then 3 else 1;
      && (pool * req.count <= 10 ==> CandidateCount(req) == 10)
      && (10 <= pool * req.count <= MAX_RESULT_COUNT ==> CandidateCount(req) == pool * req.count)
      && (pool * req.count >= MAX_RESULT_COUNT ==> CandidateCount(req) == MAX_RESULT_COUNT)
  {
  }

  /** A host matches a domain when it is the domain or lies below it. */
  predicate MatchesDomain(host: string, domains: seq<string>) {
    exists d <- domains :: host == d || HasSuffix(host, "." + d)
  }

  /**
    The host under which a hit is counted, or None if the filters drop it. `hostOf` stands
    for URL parsing and IDNA mapping; it gives None where either fails.
  */
  function Passes(hostOf: string -> Option<string>, req: Request, hit: Hit): Option<string> {
    match hostOf(hit.url)
    case None => None
    case Some(host) =>
      if |req.includeDomains| > 0 && !MatchesDomain(host, req.includeDomains) then None
      else if MatchesDomain(host, req.excludeDomains) then None
      else Some(TrimPrefix(host, "www."))
  }

  /** How many of the hits pass under a host. */
  function PassingFrom(hostOf: string -> Option<string>, req: Request, hits: seq<Hit>, host: string): nat {
    if hits == [] then 0 else
      PassingFrom(hostOf, req, hits[..|hits| - 1], host) +
      if Passes(hostOf, req, hits[|hits| - 1]) == Some(host) then 1 else 0
  }

  /** A hit is within the cap when fewer than `maxPerHost` earlier hits pass under its host. */
  predicate WithinCap(hostOf: string -> Option<string>, req: Request, hits: seq<Hit>, i: nat)
    requires i < |hits|
  {
    match Passes(hostOf, req, hits[i])
    case None => false
    case Some(host) => req.maxPerHost > 0 ==> PassingFrom(hostOf, req, hits[..i], host) < req.maxPerHost
  }

  /** The indices within the cap, in order. */
  function Eligible(hostOf: string -> Option<string>, req: Request, hits: seq<Hit>): seq<nat> {
    if hits == [] then [] else
      Eligible(hostOf, req, hits[..|hits| - 1]) +
      if WithinCap(hostOf, req, hits, |hits| - 1) then [|hits| - 1] else []
  }

  /** The loop appends before it looks at the count, so it never stops below one. */
  function Limit(req: Request): int {
    Max(req.count, 1)
  }

  function Chosen(hostOf: string -> Option<string>, req: Request, hits: seq<Hit>): seq<nat> {
    var all := Eligible(hostOf, req, hits);
    if |all| <= Limit(req) then all else all[..Limit(req)]
  }

  /** Increasing indices below `n`. */
  ghost predicate Ascending(indices: seq<nat>, n: nat) {
    && (forall a | 0 <= a < |indices| :: indices[a] < n)
    && (forall a, b | 0 <= a < b < |indices| :: indices[a] < indices[b])
  }

  lemma {:induction false} EligibleFacts(hostOf: string -> Option<string>, req: Request, hits: seq<Hit>)
    ensures Ascending(Eligible(hostOf, req, hits), |hits|)
    ensures forall a | 0 <= a < |Eligible(hostOf, req, hits)| ::
              WithinCap(hostOf, req, hits, Eligible(hostOf, req, hits)[a])
  {
    if hits == [] {
    } else {
      var rest := hits[..|hits| - 1];
      var before := Eligible(hostOf, req, rest);
      EligibleFacts(hostOf, req, rest);
      forall a | 0 <= a < |before|
        ensures WithinCap(hostOf, req, hits, before[a])
      {
        assert WithinCap(hostOf, req, rest, before[a]) && rest[..before[a]] == hits[..before[a]];
      }
    }
  }

  /** The hits at some indices. */
  function Pick(hits: seq<Hit>, indices: seq<nat>): (picked: seq<Hit>)
    requires Ascending(indices, |hits|)
    ensures |picked| == |indices|
  {
    seq(|indices|, a requires 0 <= a < |indices| => hits[indices[a]])
  }

  /** The results of `selectResults`. */
  function Select(hostOf: string -> Option<string>, req: Request, hits: seq<Hit>): seq<Hit> {
    EligibleFacts(hostOf, req, hits);
    Pick(hits, Chosen(hostOf, req, hits))
  }

  lemma {:induction false} EligiblePrefix(hostOf: string -> Option<string>, req: Request, hits: seq<Hit>, n: nat)
    requires n <= |hits|
    ensures Eligible(hostOf, req, hits[..n]) <= Eligible(hostOf, req, hits)
  {
    if n == |hits| {
      assert hits[..n] == hits;
    } else {
      var rest := hits[..|hits| - 1];
      EligiblePrefix(hostOf, req, rest, n);
      assert rest[..n] == hits[..n];
    }
  }

  lemma PassingOfOneMore(hostOf: string -> Option<string>, req: Request, hits: seq<Hit>, hit: Hit, host: string)
    ensures PassingFrom(hostOf, req, hits + [hit], host)
         == PassingFrom(hostOf, req, hits, host) + if Passes(hostOf, req, hit) == Some(host) then 1 else 0
  {
    assert (hits + [hit])[..|hits|] == hits;
  }

  /** The eligible hits. */
  function EligibleHits(hostOf: string -> Option<string>, req: Request, hits: seq<Hit>): seq<Hit> {
    EligibleFacts(hostOf, req, hits);
    Pick(hits, Eligible(hostOf, req, hits))
  }

  lemma EligibleLast(hostOf: string -> Option<string>, req: Request, hits: seq<Hit>)
    requires hits != []
    ensures var before := EligibleHits(hostOf, req, hits[..|hits| - 1]);
      EligibleHits(hostOf, req, hits) ==
      if WithinCap(hostOf, req, hits, |hits| - 1) then before + [hits[|hits| - 1]] else before
  {
    var rest := hits[..|hits| - 1];
    EligibleFacts(hostOf, req, hits);
    EligibleFacts(hostOf, req, rest);
  }

  /** A host's eligible hits: all that pass, up to the cap. */
  lemma {:induction false} EligiblePerHost(hostOf: string -> Option<string>, req: Request, hits: seq<Hit>, host: string)
    ensures var n := PassingFrom(hostOf, req, hits, host);
      PassingFrom(hostOf, req, EligibleHits(hostOf, req, hits), host)
      == if req.maxPerHost > 0 then Min(n, req.maxPerHost) else n
  {
    if hits == [] {
    } else {
      var rest, last := hits[..|hits| - 1], hits[|hits| - 1];
      EligiblePerHost(hostOf, req, rest, host);
      EligibleLast(hostOf, req, hits);
      PassingOfOneMore(hostOf, req, EligibleHits(hostOf, req, rest), last, host);
    }
  }

  /** One more hit is eligible unless it is dropped or its host has `maxPerHost` eligible hits. */
  lemma EligibleOneMore(hostOf: string -> Option<string>, req: Request, hits: seq<Hit>, hit: Hit)
    ensures var before, host := EligibleHits(hostOf, req, hits), Passes(hostOf, req, hit);
      EligibleHits(hostOf, req, hits + [hit]) ==
      if host.Some? && (req.maxPerHost > 0 ==> PassingFrom(hostOf, req, before, host.value) < req.maxPerHost)
      then before + [hit] else before
  {
    var more := hits + [hit];
    assert more[..|hits|] == hits;
    EligibleFacts(hostOf, req, hits);
    EligibleFacts(hostOf, req, more);
    var host := Passes(hostOf, req, hit);
    if host.Some? {
      EligiblePerHost(hostOf, req, hits, host.value);
    }
  }

  /** What is selected is a prefix of the eligible hits, whole or as long as the limit. */
  lemma SelectIsPrefix(hostOf: string -> Option<string>, req: Request, hits: seq<Hit>, n: nat)
    requires n <= |hits|
    requires var some := EligibleHits(hostOf, req, hits[..n]);
      |some| <= Limit(req) && (n < |hits| ==> |some| == Limit(req))
    ensures EligibleHits(hostOf, req, hits[..n]) == Select(hostOf, req, hits)
  {
    EligibleFacts(hostOf, req, hits);
    EligibleFacts(hostOf, req, hits[..n]);
    EligiblePrefix(hostOf, req, hits, n);
    if n == |hits| {
      assert hits[..n] == hits;
    }
  }

  /** `hostCounts` counts the selected hits by host. */
  ghost predicate CountsHosts(hostOf: string -> Option<string>, req: Request, hostCounts: map<string, nat>,
                              selected: seq<Hit>) {
    forall host :: (if host in hostCounts then hostCounts[host] else 0) == PassingFrom(hostOf, req, selected, host)
  }

  lemma CountOneMore(hostOf: string -> Option<string>, req: Request, hostCounts: map<string, nat>, selected: seq<Hit>,
                     hit: Hit, host: string)
    requires CountsHosts(hostOf, req, hostCounts, selected) && Passes(hostOf, req, hit) == Some(host)
    ensures var count := if host in hostCounts then hostCounts[host] else 0;
      CountsHosts(hostOf, req, hostCounts[host := count + 1], selected + [hit])
  {
    forall h {
      PassingOfOneMore(hostOf, req, selected, hit, h);
    }
  }

  // ---------------------------------------------------------------------------------
  // What the selection means
  // ---------------------------------------------------------------------------------

  /** The host is the domain, or ends in a dot and the domain. */
  ghost predicate IsUnder(host: string, domain: string) {
    host == domain || exists sub: string :: host == sub + ("." + domain)
  }

  /** The hit has a host, under an included domain if there are any, and under no excluded one. */
  ghost predicate IsAdmitted(hostOf: string -> Option<string>, req: Request, hit: Hit) {
    && hostOf(hit.url).Some?
    && (req.includeDomains == [] || exists d <- req.includeDomains :: IsUnder(hostOf(hit.url).value, d))
    && (forall d <- req.excludeDomains :: !IsUnder(hostOf(hit.url).value, d))
  }

  /** The hit counts for `host`: that is its host without one leading "www.". */
  ghost predicate CountsFor(hostOf: string -> Option<string>, hit: Hit, host: string) {
    && hostOf(hit.url).Some?
    && var h := hostOf(hit.url).value;
      h == "www." + host || (h == host && forall rest: string :: h != "www." + rest)
  }

  /** How many of the picked hits before `i` count for the same host as hit `i`. */
  ghost function Rivals(hostOf: string -> Option<string>, hits: seq<Hit>, picks: seq<nat>, i: nat): nat
    requires Ascending(picks, |hits|) && i < |hits|
  {
    if picks == [] then 0 else
      var rest, p := picks[..|picks| - 1], picks[|picks| - 1];
      Rivals(hostOf, hits, rest, i) +
      if p < i && exists host :: CountsFor(hostOf, hits[p], host) && CountsFor(hostOf, hits[i], host) then 1 else 0
  }

  /**
    The picks are the selection: in order, admitted, within the cap and the limit; and what
    is admitted but not picked came after the last one there was room for, or when its
    host was full.
  */
  ghost predicate IsFair(hostOf: string -> Option<string>, req: Request, hits: seq<Hit>, picks: seq<nat>) {
    && Ascending(picks, |hits|)
    && |picks| <= Max(req.count, 1)
    && (forall a | 0 <= a < |picks| ::
          && IsAdmitted(hostOf, req, hits[picks[a]])
          && (req.maxPerHost > 0 ==> Rivals(hostOf, hits, picks, picks[a]) < req.maxPerHost))
    && (forall i: nat | i < |hits| && i !in picks && IsAdmitted(hostOf, req, hits[i]) ::
          || (|picks| == Max(req.count, 1) && picks[|picks| - 1] < i)
          || (req.maxPerHost > 0 && Rivals(hostOf, hits, picks, i) >= req.maxPerHost))
  }

  ghost predicate IsSelectionOf(hostOf: string -> Option<string>, req: Request, hits: seq<Hit>, selected: seq<Hit>) {
    exists picks :: IsFair(hostOf, req, hits, picks) && selected == Pick(hits, picks)
  }

  lemma PicksOf(hostOf: string -> Option<string>, req: Request, hits: seq<Hit>, selected: seq<Hit>)
    returns (picks: seq<nat>)
    requires IsSelectionOf(hostOf, req, hits, selected)
    ensures Ascending(picks, |hits|) && IsFair(hostOf, req, hits, picks) && selected == Pick(hits, picks)
  {
    picks :| IsFair(hostOf, req, hits, picks) && selected == Pick(hits, picks);
  }

  lemma SuffixIsUnder(host: string, domain: string)
    ensures host == domain || HasSuffix(host, "." + domain) <==> IsUnder(host, domain)
  {
    var dotted := "." + domain;
    if HasSuffix(host, dotted) {
      assert host == host[..|host| - |dotted|] + dotted;
    }
    forall sub: string | host == sub + dotted
      ensures HasSuffix(host, dotted)
    {
      assert host[|host| - |dotted|..] == dotted;
    }
  }

  lemma MatchIsUnderSome(host: string, domains: seq<string>)
    ensures MatchesDomain(host, domains) <==> exists d <- domains :: IsUnder(host, d)
  {
    forall d <- domains {
      SuffixIsUnder(host, d);
    }
  }

  lemma BareHost(host: string, bare: string)
    ensures TrimPrefix(host, "www.") == bare <==>
      host == "www." + bare || (host == bare && forall rest: string :: host != "www." + rest)
  {
    if "www." <= host {
      assert host == "www." + host[4..];
    }
    assert ("www." + bare)[4..] == bare && "www." <= "www." + bare;
  }

  /** What passing means. */
  lemma PassesMeans(hostOf: string -> Option<string>, req: Request, hit: Hit, host: string)
    ensures Passes(hostOf, req, hit) == Some(host) <==> IsAdmitted(hostOf, req, hit) && CountsFor(hostOf, hit, host)
    ensures Passes(hostOf, req, hit).Some? <==> IsAdmitted(hostOf, req, hit)
  {
    if hostOf(hit.url).Some? {
      var h := hostOf(hit.url).value;
      MatchIsUnderSome(h, req.includeDomains);
      MatchIsUnderSome(h, req.excludeDomains);
      BareHost(h, host);
    }
  }

  /** Among admitted hits, rivals are those that pass under the same host. */
  lemma {:induction false} RivalsPass(hostOf: string -> Option<string>, req: Request, hits: seq<Hit>, picks: seq<nat>,
                                     i: nat, host: string)
    requires Ascending(picks, |hits|) && i < |hits| && Passes(hostOf, req, hits[i]) == Some(host)
    requires forall a | 0 <= a < |picks| :: Passes(hostOf, req, hits[picks[a]]).Some? && picks[a] < i
    ensures Rivals(hostOf, hits, picks, i) == PassingFrom(hostOf, req, Pick(hits, picks), host)
  {
    if picks == [] {
    } else {
      var rest, p := picks[..|picks| - 1], picks[|picks| - 1];
      hide IsAdmitted;
      RivalsPass(hostOf, req, hits, rest, i, host);
      assert Pick(hits, picks) == Pick(hits, rest) + [hits[p]];
      PassingOfOneMore(hostOf, req, Pick(hits, rest), hits[p], host);
      PassesMeans(hostOf, req, hits[i], host);
      PassesMeans(hostOf, req, hits[p], host);
      SameHost(hostOf, hits[p], hits[i], host);
    }
  }

  lemma SameHost(hostOf: string -> Option<string>, a: Hit, b: Hit, host: string)
    requires CountsFor(hostOf, b, host)
    ensures CountsFor(hostOf, a, host) <==> exists h :: CountsFor(hostOf, a, h) && CountsFor(hostOf, b, h)
  {
    forall h | CountsFor(hostOf, b, h)
      ensures h == host
    {
      BareHost(hostOf(b.url).value, h);
      BareHost(hostOf(b.url).value, host);
    }
  }

  /** Picks from `i` on are no rivals of hit `i`. */
  lemma {:induction false} RivalsAreEarlier(hostOf: string -> Option<string>, hits: seq<Hit>, picks: seq<nat>,
                                           n: nat, i: nat)
    requires Ascending(picks, |hits|) && i < |hits| && n <= |picks|
    requires forall a | n <= a < |picks| :: picks[a] >= i
    ensures Rivals(hostOf, hits, picks, i) == Rivals(hostOf, hits, picks[..n], i)
  {
    if n == |picks| {
      assert picks[..n] == picks;
    } else {
      RivalsAreEarlier(hostOf, hits, picks[..|picks| - 1], n, i);
      assert picks[..|picks| - 1][..n] == picks[..n];
    }
  }

  /** The eligible indices below `i` are those of the first `i` hits. */
  lemma {:induction false} EligibleBelow(hostOf: string -> Option<string>, req: Request, hits: seq<Hit>, i: nat)
    returns (n: nat)
    requires i <= |hits|
    ensures n <= |Eligible(hostOf, req, hits)| && Eligible(hostOf, req, hits)[..n] == Eligible(hostOf, req, hits[..i])
    ensures forall a | n <= a < |Eligible(hostOf, req, hits)| :: Eligible(hostOf, req, hits)[a] >= i
  {
    if i == |hits| {
      assert hits[..i] == hits;
      n := |Eligible(hostOf, req, hits)|;
    } else {
      var rest := hits[..|hits| - 1];
      n := EligibleBelow(hostOf, req, rest, i);
      assert rest[..i] == hits[..i];
    }
  }

  /** How many rivals an admitted hit has among the eligible ones before it. */
  lemma RivalsOfEligible(hostOf: string -> Option<string>, req: Request, hits: seq<Hit>, i: nat, host: string)
    requires i < |hits| && Passes(hostOf, req, hits[i]) == Some(host)
    requires Ascending(Eligible(hostOf, req, hits), |hits|)
    ensures Rivals(hostOf, hits, Eligible(hostOf, req, hits), i)
         == Capped(req, PassingFrom(hostOf, req, hits[..i], host))
  {
    var all, below := Eligible(hostOf, req, hits), Eligible(hostOf, req, hits[..i]);
    var n := EligibleBelow(hostOf, req, hits, i);
    RivalsAreEarlier(hostOf, hits, all, n, i);
    EligibleFacts(hostOf, req, hits[..i]);
    RivalsPass(hostOf, req, hits, below, i, host);
    assert Pick(hits, below) == Pick(hits[..i], below);
    EligiblePerHost(hostOf, req, hits[..i], host);
  }

  lemma PickedIsFair(hostOf: string -> Option<string>, req: Request, hits: seq<Hit>, a: nat)
    requires a < |Chosen(hostOf, req, hits)| && Ascending(Chosen(hostOf, req, hits), |hits|)
    ensures var picks := Chosen(hostOf, req, hits);
      && IsAdmitted(hostOf, req, hits[picks[a]])
      && (req.maxPerHost > 0 ==> Rivals(hostOf, hits, picks, picks[a]) < req.maxPerHost)
  {
    hide IsAdmitted, Passes;
    var all, picks := Eligible(hostOf, req, hits), Chosen(hostOf, req, hits);
    EligibleFacts(hostOf, req, hits);
    assert picks[a] == all[a] && WithinCap(hostOf, req, hits, all[a]);
    var host := Passes(hostOf, req, hits[all[a]]).value;
    PassesMeans(hostOf, req, hits[all[a]], host);
    RivalsOfEligible(hostOf, req, hits, all[a], host);
    RivalsAreEarlier(hostOf, hits, all, |picks|, all[a]);
  }

  /** The selection is the one that is fair. */
  lemma SelectIsFair(hostOf: string -> Option<string>, req: Request, hits: seq<Hit>)
    ensures IsFair(hostOf, req, hits, Chosen(hostOf, req, hits))
    ensures IsSelectionOf(hostOf, req, hits, Select(hostOf, req, hits))
  {
    hide IsAdmitted, Passes, Rivals;
    var picks := Chosen(hostOf, req, hits);
    EligibleFacts(hostOf, req, hits);
    forall a | 0 <= a < |picks| {
      PickedIsFair(hostOf, req, hits, a);
    }
    forall i: nat | i < |hits| && i !in picks && IsAdmitted(hostOf, req, hits[i]) {
      LeftOutForReason(hostOf, req, hits, i);
    }
  }

  /** Without a cap, what is admitted and comes before something picked is picked as well. */
  lemma UncappedPicksFirst(hostOf: string -> Option<string>, req: Request, hits: seq<Hit>, picks: seq<nat>,
                           i: nat, b: nat)
    requires IsFair(hostOf, req, hits, picks) && req.maxPerHost <= 0
    requires b < |picks| && i < picks[b] && IsAdmitted(hostOf, req, hits[i])
    ensures exists a | 0 <= a < b :: picks[a] == i
  {
    hide IsAdmitted, Rivals;
    assert picks[b] <= picks[|picks| - 1];
    var a :| 0 <= a < |picks| && picks[a] == i;
  }

  lemma LeftOutForReason(hostOf: string -> Option<string>, req: Request, hits: seq<Hit>, i: nat)
    requires i < |hits| && i !in Chosen(hostOf, req, hits) && IsAdmitted(hostOf, req, hits[i])
    requires Ascending(Chosen(hostOf, req, hits), |hits|)
    ensures var picks := Chosen(hostOf, req, hits);
      || (|picks| == Max(req.count, 1) && picks[|picks| - 1] < i)
      || (req.maxPerHost > 0 && Rivals(hostOf, hits, picks, i) >= req.maxPerHost)
  {
    var all, picks := Eligible(hostOf, req, hits), Chosen(hostOf, req, hits);
    EligibleFacts(hostOf, req, hits);
    PassesMeans(hostOf, req, hits[i], "");
    var host := Passes(hostOf, req, hits[i]).value;
    if i in all {
      var a :| 0 <= a < |all| && all[a] == i;
      assert forall b | 0 <= b < |picks| :: picks[b] == all[b] && picks[b] in picks;
    } else if |picks| == Max(req.count, 1) && picks[|picks| - 1] < i {
    } else {
      EligibleIfWithinCap(hostOf, req, hits, i);
      RivalsOfEligible(hostOf, req, hits, i, host);
      RivalsAreEarlier(hostOf, hits, all, |picks|, i);
      assert all[..|picks|] == picks;
    }
  }

  lemma {:induction false} EligibleIfWithinCap(hostOf: string -> Option<string>, req: Request, hits: seq<Hit>, i: nat)
    requires i < |hits|
    ensures WithinCap(hostOf, req, hits, i) ==> i in Eligible(hostOf, req, hits)
  {
    var rest := hits[..|hits| - 1];
    if i < |rest| {
      EligibleIfWithinCap(hostOf, req, rest, i);
      assert rest[..i] == hits[..i];
    }
  }

  lemma CountOf(hostOf: string -> Option<string>, req: Request, hostCounts: map<string, nat>, selected: seq<Hit>,
                host: string)
    requires CountsHosts(hostOf, req, hostCounts, selected)
    ensures PassingFrom(hostOf, req, selected, host) == if host in hostCounts then hostCounts[host] else 0
  {
  }

  lemma NothingYet(hostOf: string -> Option<string>, req: Request)
    ensures EligibleHits(hostOf, req, []) == [] && CountsHosts(hostOf, req, map[], [])
  {
  }

  /** `selectResults`. */
  method SelectResults(hostOf: string -> Option<string>, hits: seq<Hit>, req: Request) returns (selected: seq<Hit>)
    ensures selected == Select(hostOf, req, hits)
    ensures IsSelectionOf(hostOf, req, hits, selected)
  {
    hide IsFair, IsSelectionOf, EligibleHits, Select, Passes, CountsHosts, PassingFrom;
    SelectIsFair(hostOf, req, hits);
    NothingYet(hostOf, req);
    assert hits[..0] == [];
    selected := [];
    var hostCounts: map<string, nat> := map[];
    for i := 0 to |hits|
      invariant selected == EligibleHits(hostOf, req, hits[..i]) && |selected| < Limit(req)
      invariant CountsHosts(hostOf, req, hostCounts, selected)
    {
      assert hits[..i + 1] == hits[..i] + [hits[i]];
      EligibleOneMore(hostOf, req, hits[..i], hits[i]);
      var passed := Passes(hostOf, req, hits[i]);
      if passed.None? {
        continue;
      }
      var host := passed.value;
      var count := if host in hostCounts then hostCounts[host] else 0;
      CountOf(hostOf, req, hostCounts, selected, host);
      if req.maxPerHost > 0 && count >= req.maxPerHost {
        continue;
      }
      CountOneMore(hostOf, req, hostCounts, selected, hits[i], host);
      hostCounts := hostCounts[host := count + 1];
      selected := selected + [hits[i]];
      if |selected| >= req.count {
        SelectIsPrefix(hostOf, req, hits, i + 1);
        return;
      }
    }
    assert hits[..|hits|] == hits;
    SelectIsPrefix(hostOf, req, hits, |hits|);
  }

  // ---------------------------------------------------------------------------------
  // Nothing longer is possible
  // ---------------------------------------------------------------------------------

  ghost predicate AllPass(hostOf: string -> Option<string>, req: Request, hits: seq<Hit>) {
    forall a | 0 <= a < |hits| :: Passes(hostOf, req, hits[a]).Some?
  }

  /** Indices in order, of hits that pass, no host above the cap, not more than the limit. */
  ghost predicate IsSelection(hostOf: string -> Option<string>, req: Request, hits: seq<Hit>, indices: seq<nat>) {
    && Ascending(indices, |hits|)
    && AllPass(hostOf, req, Pick(hits, indices))
    && (req.maxPerHost > 0 ==> forall host :: PassingFrom(hostOf, req, Pick(hits, indices), host) <= req.maxPerHost)
    && |indices| <= Limit(req)
  }

  ghost function Hosts(hostOf: string -> Option<string>, req: Request, hits: seq<Hit>): multiset<string>
    requires AllPass(hostOf, req, hits)
  {
    if hits == [] then multiset{} else
      Hosts(hostOf, req, hits[..|hits| - 1]) + multiset{Passes(hostOf, req, hits[|hits| - 1]).value}
  }

  lemma {:induction false} HostsCount(hostOf: string -> Option<string>, req: Request, hits: seq<Hit>)
    requires AllPass(hostOf, req, hits)
    ensures |Hosts(hostOf, req, hits)| == |hits|
    ensures forall host :: Hosts(hostOf, req, hits)[host] == PassingFrom(hostOf, req, hits, host)
  {
    if hits == [] {
    } else {
      HostsCount(hostOf, req, hits[..|hits| - 1]);
    }
  }

  /** The last hit is the last one picked, or it is not picked. */
  lemma PickLast(hits: seq<Hit>, indices: seq<nat>)
    requires Ascending(indices, |hits|) && indices != []
    ensures hits != []
    ensures var n, m := |hits| - 1, |indices| - 1;
      if indices[m] == n
      then Ascending(indices[..m], n) && Pick(hits, indices) == Pick(hits[..n], indices[..m]) + [hits[n]]
      else Ascending(indices, n) && Pick(hits, indices) == Pick(hits[..n], indices)
  {
    assert indices[|indices| - 1] < |hits|;
  }

  lemma {:induction false} PickedArePassing(hostOf: string -> Option<string>, req: Request, hits: seq<Hit>,
                                           indices: seq<nat>, host: string)
    requires Ascending(indices, |hits|)
    ensures PassingFrom(hostOf, req, Pick(hits, indices), host) <= PassingFrom(hostOf, req, hits, host)
  {
    if indices == [] {
    } else {
      var n, m := |hits| - 1, |indices| - 1;
      PickLast(hits, indices);
      if indices[m] == n {
        PickedArePassing(hostOf, req, hits[..n], indices[..m], host);
        PassingOfOneMore(hostOf, req, Pick(hits[..n], indices[..m]), hits[n], host);
      } else {
        PickedArePassing(hostOf, req, hits[..n], indices, host);
      }
    }
  }

  lemma EligibleIsLongest(hostOf: string -> Option<string>, req: Request, hits: seq<Hit>, indices: seq<nat>)
    requires IsSelection(hostOf, req, hits, indices)
    ensures |indices| <= |Eligible(hostOf, req, hits)|
  {
    EligibleFacts(hostOf, req, hits);
    var mine, all := Pick(hits, indices), Pick(hits, Eligible(hostOf, req, hits));
    HostsCount(hostOf, req, mine);
    HostsCount(hostOf, req, all);
    var a, b := Hosts(hostOf, req, mine), Hosts(hostOf, req, all);
    forall host
      ensures a[host] <= b[host]
    {
      PickedArePassing(hostOf, req, hits, indices, host);
      EligiblePerHost(hostOf, req, hits, host);
    }
    assert a <= b;
    assert b == a + (b - a);
  }

  lemma {:induction false} FewerInPrefix(hostOf: string -> Option<string>, req: Request, hits: seq<Hit>, n: nat,
                                         host: string)
    requires n <= |hits|
    ensures PassingFrom(hostOf, req, hits[..n], host) <= PassingFrom(hostOf, req, hits, host)
  {
    if n < |hits| {
      FewerInPrefix(hostOf, req, hits[..|hits| - 1], n, host);
      assert hits[..|hits| - 1][..n] == hits[..n];
    } else {
      assert hits[..n] == hits;
    }
  }

  /**
    The greedy choice respects filters, cap, order and count, and nothing that does is
    longer: per host it is all that pass up to the cap, in total up to the count.
  */
  lemma GreedyIsOptimal(hostOf: string -> Option<string>, req: Request, hits: seq<Hit>, other: seq<nat>)
    requires IsSelection(hostOf, req, hits, other)
    ensures IsSelection(hostOf, req, hits, Chosen(hostOf, req, hits))
    ensures |other| <= |Chosen(hostOf, req, hits)| == |Select(hostOf, req, hits)|
  {
    EligibleFacts(hostOf, req, hits);
    EligibleIsLongest(hostOf, req, hits, other);
    var all, chosen := Eligible(hostOf, req, hits), Chosen(hostOf, req, hits);
    assert Pick(hits, all)[..|chosen|] == Pick(hits, chosen);
    forall host
      ensures req.maxPerHost > 0 ==> PassingFrom(hostOf, req, Pick(hits, chosen), host) <= req.maxPerHost
    {
      EligiblePerHost(hostOf, req, hits, host);
      FewerInPrefix(hostOf, req, Pick(hits, all), |chosen|, host);
    }
  }

  // ---------------------------------------------------------------------------------
  // How many are selected
  // ---------------------------------------------------------------------------------

  /** `hosts` names every host some hit passes under, each once. */
  ghost predicate NamesHosts(hostOf: string -> Option<string>, req: Request, hits: seq<Hit>, hosts: seq<string>) {
    && (forall a, b | 0 <= a < b < |hosts| :: hosts[a] != hosts[b])
    && (forall hit <- hits :: Passes(hostOf, req, hit).Some? ==> Passes(hostOf, req, hit).value in hosts)
  }

  /** What the cap leaves of a count. */
  function Capped(req: Request, n: nat): nat {
    if req.maxPerHost > 0 then Min(n, req.maxPerHost) else n
  }

  /** The passing hits summed over the hosts, each host's capped. */
  function CappedTotal(hostOf: string -> Option<string>, req: Request, hits: seq<Hit>, hosts: seq<string>): nat {
    if hosts == [] then 0 else
      CappedTotal(hostOf, req, hits, hosts[..|hosts| - 1]) +
      Capped(req, PassingFrom(hostOf, req, hits, hosts[|hosts| - 1]))
  }

  function PassingTotal(hostOf: string -> Option<string>, req: Request, hits: seq<Hit>, hosts: seq<string>): nat {
    if hosts == [] then 0 else
      PassingTotal(hostOf, req, hits, hosts[..|hosts| - 1]) + PassingFrom(hostOf, req, hits, hosts[|hosts| - 1])
  }

  lemma {:induction false} TotalOfOneMore(hostOf: string -> Option<string>, req: Request, hits: seq<Hit>, hit: Hit,
                                          hosts: seq<string>)
    requires NamesHosts(hostOf, req, [], hosts)
    ensures PassingTotal(hostOf, req, hits + [hit], hosts) == PassingTotal(hostOf, req, hits, hosts)
      + if Passes(hostOf, req, hit).Some? && Passes(hostOf, req, hit).value in hosts then 1 else 0
  {
    if hosts == [] {
    } else {
      TotalOfOneMore(hostOf, req, hits, hit, hosts[..|hosts| - 1]);
      PassingOfOneMore(hostOf, req, hits, hit, hosts[|hosts| - 1]);
      assert hosts == hosts[..|hosts| - 1] + [hosts[|hosts| - 1]];
    }
  }

  lemma {:induction false} NoneInTotal(hostOf: string -> Option<string>, req: Request, hosts: seq<string>)
    ensures PassingTotal(hostOf, req, [], hosts) == 0
  {
    if hosts == [] {
    } else {
      NoneInTotal(hostOf, req, hosts[..|hosts| - 1]);
    }
  }

  /** Hits that all pass are counted once each. */
  lemma {:induction false} TotalIsLength(hostOf: string -> Option<string>, req: Request, hits: seq<Hit>,
                                         hosts: seq<string>)
    requires AllPass(hostOf, req, hits) && NamesHosts(hostOf, req, hits, hosts)
    ensures PassingTotal(hostOf, req, hits, hosts) == |hits|
  {
    if hits == [] {
      NoneInTotal(hostOf, req, hosts);
    } else {
      var rest, last := hits[..|hits| - 1], hits[|hits| - 1];
      assert hits == rest + [last] && last in hits;
      TotalIsLength(hostOf, req, rest, hosts);
      TotalOfOneMore(hostOf, req, rest, last, hosts);
    }
  }

  lemma {:induction false} EligibleTotal(hostOf: string -> Option<string>, req: Request, hits: seq<Hit>,
                                         hosts: seq<string>)
    ensures PassingTotal(hostOf, req, EligibleHits(hostOf, req, hits), hosts) == CappedTotal(hostOf, req, hits, hosts)
  {
    if hosts == [] {
    } else {
      EligibleFacts(hostOf, req, hits);
      EligibleTotal(hostOf, req, hits, hosts[..|hosts| - 1]);
      EligiblePerHost(hostOf, req, hits, hosts[|hosts| - 1]);
    }
  }

  /**
    How many results there are: the hits that pass, summed over their hosts with each
    host's number capped, and then cut to the limit.
  */
  lemma SelectLength(hostOf: string -> Option<string>, req: Request, hits: seq<Hit>, hosts: seq<string>)
    requires NamesHosts(hostOf, req, hits, hosts)
    ensures |Select(hostOf, req, hits)| == Min(Limit(req), CappedTotal(hostOf, req, hits, hosts))
  {
    var all := EligibleHits(hostOf, req, hits);
    EligibleFacts(hostOf, req, hits);
    forall a | 0 <= a < |all|
      ensures all[a] in hits && Passes(hostOf, req, all[a]).Some?
    {
      assert WithinCap(hostOf, req, hits, Eligible(hostOf, req, hits)[a]);
    }
    TotalIsLength(hostOf, req, all, hosts);
    EligibleTotal(hostOf, req, hits, hosts);
  }

  /** Without a cap, what is eligible is simply what passes. */
  lemma {:induction false} UncappedIsFilter(hostOf: string -> Option<string>, req: Request, hits: seq<Hit>, i: nat)
    requires req.maxPerHost <= 0 && i < |hits|
    ensures i in Eligible(hostOf, req, hits) <==> Passes(hostOf, req, hits[i]).Some?
  {
    var rest := hits[..|hits| - 1];
    EligibleFacts(hostOf, req, rest);
    if i < |rest| {
      UncappedIsFilter(hostOf, req, rest, i);
    }
  }
}
