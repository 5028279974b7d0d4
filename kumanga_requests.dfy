/**
  The catalog requests Kumanga sends: popular listing, search and the
  unsupported latest-updates feed (Kumanga.kt lines 42, 70-72, 88 and 164-188).
*/
module Requests {
  import opened Wrappers
  import opened KotlinText
  import opened Urls
  import opened Filters

  datatype HttpMethod = Get | Post

  /** An outbound request: method, address without query, and its query parameters in order. */
  datatype Request = Request(verb: HttpMethod, endpoint: string, query: seq<Param>)

  datatype RequestError = UnsupportedOperation

  const SearchEndpoint: string := BaseUrl + "/backend/ajax/searchengine.php"

  /** `supportsLatest`: this source has no latest-updates feed. */
  const SupportsLatest: bool := false

  /** The parameters every catalog request carries, with the keywords verbatim. */
  function BaseParams(page: int, keywords: string): (r: seq<Param>)
    ensures |r| == 6
    ensures r[0] == Param("page", IntToString(page)) && r[1] == Param("perPage", IntToString(SearchPageSize))
    ensures r[2] == Param("keywords", keywords)
    ensures r[3..] == [Param("retrieveCategories", "true"), Param("retrieveAuthors", "false"), Param("contentType", "manga")]
  {
    [ Param("page", IntToString(page)), Param("perPage", IntToString(SearchPageSize)), Param("keywords", keywords),
      Param("retrieveCategories", "true"), Param("retrieveAuthors", "false"), Param("contentType", "manga") ]
  }

  /** `popularMangaRequest`: a POST to the search engine with empty keywords and no filters. */
  function PopularMangaRequest(page: int): (r: Request)
    ensures r.verb == Post && r.endpoint == SearchEndpoint
    ensures r.query == BaseParams(page, "")
  {
    Request(Post, SearchEndpoint, BaseParams(page, ""))
  }

  /** `latestUpdatesRequest`: refused, since the site has no such feed. */
  function LatestUpdatesRequest(page: int): (r: Result<Request, RequestError>)
    ensures !SupportsLatest ==> r == Failure(UnsupportedOperation)
  {
    Failure(UnsupportedOperation)
  }

  /** Appends one `name` parameter per ticked option, in option order (`filter { it.state }.forEach { addQueryParameter }`). */
  method AddSelected(params: seq<Param>, name: string, options: seq<CheckBox>) returns (result: seq<Param>)
    ensures result == params + SelectedParams(name, options)
  {
    result := params;
    for k := 0 to |options|
      invariant result == params + SelectedParams(name, options[..k])
    {
      assert options[..k + 1][..k] == options[..k];
      if options[k].state {
        result := result + [Param(name, options[k].id)];
      }
    }
    assert options[..|options|] == options;
  }

  /**
    `searchMangaRequest`: the base parameters with the query as keywords, then,
    filter by filter, the ticked options of each check-box group.
  */
  method SearchMangaRequest(page: int, query: string, filters: seq<Filter>) returns (req: Request)
    ensures req == Request(Post, SearchEndpoint, BaseParams(page, query) + FilterParams(filters))
  {
    var base := BaseParams(page, query);
    var params := base;
    for i := 0 to |filters|
      invariant params == base + FilterParams(filters[..i])
    {
      FilterParamsStep(filters, i);
      ghost var before := params;
      match QueryName(filters[i]) {
        case Some(name) =>
          params := AddSelected(params, name, filters[i].options);
        case None =>
      }
      assert params == before + FilterParamsOf(filters[i]);
      AppendAssoc(base, FilterParams(filters[..i]), FilterParamsOf(filters[i]));
    }
    assert filters[..|filters|] == filters;
    req := Request(Post, SearchEndpoint, params);
  }

  /** The popular listing is the search with empty keywords and the filter list as first shown. */
  lemma PopularIsDefaultSearch(page: int)
    ensures PopularMangaRequest(page) == Request(Post, SearchEndpoint, BaseParams(page, "") + FilterParams(GetFilterList()))
  {
    DefaultFiltersSendNothing();
  }
}
