/** The request and response records that every layer of the search stack passes on. */
module SearchTypes {

  datatype Request = Request(
    query: string,
    count: int,
    country: string,
    language: string,
    safeSearch: string,
    freshness: string,
    provider: string,
    extraHeaders: map<string, string>,
    includeDomains: seq<string>,
    excludeDomains: seq<string>,
    maxPerHost: int)

  datatype Hit = Hit(
    title: string,
    url: string,
    description: string,
    source: string,
    published: string)

  datatype ProviderFailure = ProviderFailure(provider: string, error: string)

  datatype Response = Response(
    query: string,
    provider: string,
    results: seq<Hit>,
    degraded: seq<ProviderFailure>)
}
