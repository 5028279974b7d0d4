# Kumanga source adapter, modelled in Dafny

This project models the Kumanga adapter of the manga-reader extensions
repository (`Kumanga.kt`): how the adapter builds its catalog and search
requests from a page number, a query and the user's filters, how it turns the
search engine's answers into manga entries, how it classifies a status text,
how it reads the `php_pagination(...)` call of a chapter listing and walks
the listing pages 2..N one request at a time, and how it numbers the page
images of a chapter.

Modules, one per part of the adapter:

- `Wrappers`: `Option` and `Result`.
- `KotlinText`: the Kotlin string operations the adapter calls
  (`indexOf`, `contains`, `substringAfter`, `substringBefore`, `split`,
  `replace`, `joinToString`, `Int.toString`, `toIntOrNull`), with their
  characterising lemmas.
- `Urls`: the site address, `getMangaUrl`, `getMangaCover`, the chapter
  link rewrite and backslash stripping.
- `Filters`: the filter kinds as one tagged datatype, `getFilterList` with
  its full option tables, and the selected-options-to-parameters mapping.
- `Requests`: popular, search (an imperative method with the source's
  nested loops) and the unsupported latest-updates request.
- `Catalog`: `parseMangaFromJson`, `popularMangaParse` (also used for
  search results), `parseStatus`, `mangaDetailsParse`.
- `Chapters`: `chapterFromElement`, the pagination metadata, the page
  count, and `chapterListParse` as a method with a `while` loop proved
  against the function `ChapterList`.
- `Pages`: `pageListParse` as a method with a loop.

Inputs that the HTML and JSON libraries produce (the body markup, the chapter
rows of a listing, the records of a search answer, the image entries) are
parameters. The HTTP call of each later listing page is a parameter
`fetch: string -> Option<seq<ChapterElement>>`: the URL requested goes in,
the chapter rows of the page come out, and `None` stands for a call that
throws. `ChapterListParse` returns the URLs it requested next to the
outcome, so the order and number of requests can be stated.

## Notes on the source

Some behaviour of Kumanga.kt is easy to misread:

- The "has next page" flag compares the response's own `retrievedCount` field
  with 10. It does not count the records received.
- A chapter date that cannot be parsed makes `SimpleDateFormat` throw. It does
  not default to 0.
- There are two metadata failures. Fewer than five comma fields fail with an
  index error at line 127, before the "No fue posible obtener los capítulos"
  error of line 142 can be reached. A field 4 that is not an Int gives that
  error of line 142.
- The page count takes `roundToInt` of `n/10.0 + 0.4`. In exact arithmetic
  that is the ceiling of n/10 for every integer n.

## Model

| member | source | states |
|---|---|---|
| KotlinText.IndexFrom | src/es/kumanga/src/eu/kanade/tachiyomi/extension/es/kumanga/Kumanga.kt:126 | the first position at or after k where the text occurs, with no occurrence before it; None only when there is no occurrence from k on |
| KotlinText.IndexOf | src/es/kumanga/src/eu/kanade/tachiyomi/extension/es/kumanga/Kumanga.kt:126 | the position of the first occurrence, no occurrence starting earlier; None exactly when the text does not occur anywhere |
| KotlinText.Contains | src/es/kumanga/src/eu/kanade/tachiyomi/extension/es/kumanga/Kumanga.kt:103-104 | true exactly when the text occurs at some position |
| KotlinText.SubstringAfter | src/es/kumanga/src/eu/kanade/tachiyomi/extension/es/kumanga/Kumanga.kt:126 | the whole text when the delimiter is absent, otherwise the rest after its FIRST occurrence, no occurrence starting earlier |
| KotlinText.SubstringBefore | src/es/kumanga/src/eu/kanade/tachiyomi/extension/es/kumanga/Kumanga.kt:126 | the whole text when the delimiter is absent, otherwise the prefix ending at the FIRST occurrence: no occurrence starts inside it |
| KotlinText.Split | src/es/kumanga/src/eu/kanade/tachiyomi/extension/es/kumanga/Kumanga.kt:127-129 | at least one piece; the pieces joined with the delimiter give the text back; no piece holds the delimiter; each separator is the leftmost one after its piece, trailing empty pieces kept |
| KotlinText.Join | src/es/kumanga/src/eu/kanade/tachiyomi/extension/es/kumanga/Kumanga.kt:59-61 | no parts give the empty text; otherwise its length is the parts' total plus one separator per gap, and it starts with the first part |
| KotlinText.SplitJoin | src/es/kumanga/src/eu/kanade/tachiyomi/extension/es/kumanga/Kumanga.kt:59-61 | splitting the joined text at the separator gives back the parts, when no part holds the separator and its last character appears in it only once |
| KotlinText.Replace | src/es/kumanga/src/eu/kanade/tachiyomi/extension/es/kumanga/Kumanga.kt:54 | a text without the pattern comes back unchanged; otherwise the text before the first occurrence, then the replacement, starts the result |
| KotlinText.ReplaceCharByNothing | src/es/kumanga/src/eu/kanade/tachiyomi/extension/es/kumanga/Kumanga.kt:54 | replacing one character by the empty string removes every copy of it and keeps all other characters in order |
| KotlinText.ReplaceAtFirst | src/es/kumanga/src/eu/kanade/tachiyomi/extension/es/kumanga/Kumanga.kt:116 | replace works piece by piece around the first occurrence of the pattern |
| KotlinText.FirstOccurrenceAfter | src/es/kumanga/src/eu/kanade/tachiyomi/extension/es/kumanga/Kumanga.kt:126 | when the delimiter's last character is unique in it and the prefix lacks it, the first occurrence in prefix+delimiter+rest is right after the prefix |
| KotlinText.SplitAtFirst | src/es/kumanga/src/eu/kanade/tachiyomi/extension/es/kumanga/Kumanga.kt:127 | splitting at a one-character separator peels off a first piece that lacks it |
| KotlinText.NatToString | src/es/kumanga/src/eu/kanade/tachiyomi/extension/es/kumanga/Kumanga.kt:50 | a non-empty all-digit numeral without leading zeros whose value is n |
| KotlinText.IntToString | src/es/kumanga/src/eu/kanade/tachiyomi/extension/es/kumanga/Kumanga.kt:50 | a non-empty text holding no comma, slash or parenthesis |
| KotlinText.IntToStringCanonical | src/es/kumanga/src/eu/kanade/tachiyomi/extension/es/kumanga/Kumanga.kt:50 | the canonical decimal: for n >= 0 the digits of n with no leading zero; for n < 0 a '-' then the digits of -n, the first not '0' |
| KotlinText.ToIntOrNull | src/es/kumanga/src/eu/kanade/tachiyomi/extension/es/kumanga/Kumanga.kt:127 | a value only within the 32-bit Int range, and none for the empty text; its values and rejections are stated by ToIntOrNullNumeral and ToIntOrNullRejects |
| KotlinText.ToIntOrNullNumeral | src/es/kumanga/src/eu/kanade/tachiyomi/extension/es/kumanga/Kumanga.kt:127 | an optional '-' or '+' followed by digits reads as its signed value when that lies in the Int range, and as null when it does not |
| KotlinText.ToIntOrNullRejects | src/es/kumanga/src/eu/kanade/tachiyomi/extension/es/kumanga/Kumanga.kt:127 | any non-digit character, other than a leading sign followed by more text, gives null |
| KotlinText.ToIntOrNullOfToString | src/es/kumanga/src/eu/kanade/tachiyomi/extension/es/kumanga/Kumanga.kt:127 | toIntOrNull reads back every printed 32-bit integer |
| KotlinText.IntToStringInjective | src/es/kumanga/src/eu/kanade/tachiyomi/extension/es/kumanga/Kumanga.kt:50 | different integers print differently |
| Urls.StripBackslashes | src/es/kumanga/src/eu/kanade/tachiyomi/extension/es/kumanga/Kumanga.kt:54 | the text with every backslash removed and nothing else changed |
| Urls.MangaCover | src/es/kumanga/src/eu/kanade/tachiyomi/extension/es/kumanga/Kumanga.kt:48 | the cover URL is the static prefix, the manga id and ".jpg?w=201", the id recoverable from between them |
| Urls.MangaUrl | src/es/kumanga/src/eu/kanade/tachiyomi/extension/es/kumanga/Kumanga.kt:50 | "/manga/" + id + "/p/", then the page number's decimal numeral, then "/" + slug + "#cl" |
| Urls.ChapterUrl | src/es/kumanga/src/eu/kanade/tachiyomi/extension/es/kumanga/Kumanga.kt:116 | the link starts with '/', and is '/' followed by the href when the href holds no "/c/" |
| Urls.ChapterUrlRewrite | src/es/kumanga/src/eu/kanade/tachiyomi/extension/es/kumanga/Kumanga.kt:116 | a "/c/" after a slash-free segment becomes "/leer/", and the rest of the href is rewritten the same way |
| Urls.ChapterUrlAtFirst | src/es/kumanga/src/eu/kanade/tachiyomi/extension/es/kumanga/Kumanga.kt:116 | for any href holding "/c/": '/', the text before its first "/c/", then "/leer/", then the rest rewritten the same way |
| Urls.MangaCoverInjective | src/es/kumanga/src/eu/kanade/tachiyomi/extension/es/kumanga/Kumanga.kt:48 | the cover URL determines the manga id |
| Urls.MangaUrlInjective | src/es/kumanga/src/eu/kanade/tachiyomi/extension/es/kumanga/Kumanga.kt:50 | for one manga, different listing pages have different URLs |
| Filters.QueryName | src/es/kumanga/src/eu/kanade/tachiyomi/extension/es/kumanga/Kumanga.kt:167-184 | the type, status and genre groups are sent as type_filter[], status_filter[] and category_filter[]; no other filter has a query parameter name |
| Filters.SelectedParams | src/es/kumanga/src/eu/kanade/tachiyomi/extension/es/kumanga/Kumanga.kt:170-182 | at most one parameter per option, all under the group's name |
| Filters.FilterParamsOf | src/es/kumanga/src/eu/kanade/tachiyomi/extension/es/kumanga/Kumanga.kt:167-185 | a non-group filter sends nothing; a group sends at most one parameter per option, all under its own query name |
| Filters.FilterParams | src/es/kumanga/src/eu/kanade/tachiyomi/extension/es/kumanga/Kumanga.kt:167-185 | every parameter of the filter part is sent under one of the three group names |
| Filters.SelectedParamsMembership | src/es/kumanga/src/eu/kanade/tachiyomi/extension/es/kumanga/Kumanga.kt:170-182 | a parameter is sent for a group exactly when a ticked option carries its id |
| Filters.NothingSelected | src/es/kumanga/src/eu/kanade/tachiyomi/extension/es/kumanga/Kumanga.kt:170-182 | a group with nothing ticked sends nothing |
| Filters.FilterParamsAppend | src/es/kumanga/src/eu/kanade/tachiyomi/extension/es/kumanga/Kumanga.kt:167-185 | the parameters of concatenated filter lists come in filter order |
| Filters.IgnoredFilterContributesNothing | src/es/kumanga/src/eu/kanade/tachiyomi/extension/es/kumanga/Kumanga.kt:167-185 | a separator or another filter kind can be removed anywhere without changing the query |
| Filters.FilterParamsMembership | src/es/kumanga/src/eu/kanade/tachiyomi/extension/es/kumanga/Kumanga.kt:167-185 | a parameter is in the filter part exactly when some group of that name has a ticked option with that id |
| Filters.NoFilterSelected | src/es/kumanga/src/eu/kanade/tachiyomi/extension/es/kumanga/Kumanga.kt:167-185 | a filter list with nothing ticked sends no filter parameters |
| Filters.GetFilterList | src/es/kumanga/src/eu/kanade/tachiyomi/extension/es/kumanga/Kumanga.kt:192-198 | five filters: types, separator, statuses, separator, genres |
| Filters.TypeOptions | src/es/kumanga/src/eu/kanade/tachiyomi/extension/es/kumanga/Kumanga.kt:209-215 | five unticked types with ids "1" to "5" in order |
| Filters.StatusOptions | src/es/kumanga/src/eu/kanade/tachiyomi/extension/es/kumanga/Kumanga.kt:217-221 | three unticked statuses with ids "1" to "3" in order |
| Filters.GenreOptions | src/es/kumanga/src/eu/kanade/tachiyomi/extension/es/kumanga/Kumanga.kt:223-272 | forty-eight genres, all unticked |
| Filters.DefaultFiltersSendNothing | src/es/kumanga/src/eu/kanade/tachiyomi/extension/es/kumanga/Kumanga.kt:192-207 | the filter list as first shown, all boxes unticked, sends no filter parameters |
| Requests.BaseParams | src/es/kumanga/src/eu/kanade/tachiyomi/extension/es/kumanga/Kumanga.kt:71 | page as a decimal, perPage=10 (the page size that also decides hasNextPage), the keywords, then retrieveCategories=true, retrieveAuthors=false and contentType=manga, in this order |
| Requests.PopularMangaRequest | src/es/kumanga/src/eu/kanade/tachiyomi/extension/es/kumanga/Kumanga.kt:70-72 | a POST to the search engine with the base parameters and empty keywords |
| Requests.LatestUpdatesRequest | src/es/kumanga/src/eu/kanade/tachiyomi/extension/es/kumanga/Kumanga.kt:88 | without a latest feed the request fails as unsupported |
| Requests.AddSelected | src/es/kumanga/src/eu/kanade/tachiyomi/extension/es/kumanga/Kumanga.kt:170-172 | appends exactly the parameters of the ticked options, in order |
| Requests.SearchMangaRequest | src/es/kumanga/src/eu/kanade/tachiyomi/extension/es/kumanga/Kumanga.kt:164-188 | the base parameters with the query as keywords, followed by the filter parameters in filter then option order |
| Requests.PopularIsDefaultSearch | src/es/kumanga/src/eu/kanade/tachiyomi/extension/es/kumanga/Kumanga.kt:70-72 | the popular request equals a search with empty keywords and the default filter list |
| Catalog.ParseManga | src/es/kumanga/src/eu/kanade/tachiyomi/extension/es/kumanga/Kumanga.kt:52-62 | page 1 of the chapter listing as URL, the id's cover, the name, the description without backslashes, the categories joined by ", " |
| Catalog.GenresReadBack | src/es/kumanga/src/eu/kanade/tachiyomi/extension/es/kumanga/Kumanga.kt:58-61 | the genre line split at ", " gives back the categories, when there is at least one and none holds ", " |
| Catalog.PopularMangaParse | src/es/kumanga/src/eu/kanade/tachiyomi/extension/es/kumanga/Kumanga.kt:74-86 | one entry per record in order; a next page exactly when retrievedCount is 10 |
| Catalog.HasNextPageIgnoresContents | src/es/kumanga/src/eu/kanade/tachiyomi/extension/es/kumanga/Kumanga.kt:77-79 | the next-page flag depends only on the reported count |
| Catalog.ShortPageIsLast | src/es/kumanga/src/eu/kanade/tachiyomi/extension/es/kumanga/Kumanga.kt:77-79 | when the reported count is the record count, a next page exactly when the page is full |
| Catalog.ParseStatus | src/es/kumanga/src/eu/kanade/tachiyomi/extension/es/kumanga/Kumanga.kt:102-106 | ongoing exactly when "Activo" occurs; completed exactly when "Finalizado" occurs and "Activo" does not; unknown otherwise |
| Catalog.MangaDetailsParse | src/es/kumanga/src/eu/kanade/tachiyomi/extension/es/kumanga/Kumanga.kt:92-100 | the status text classified by ParseStatus; author and artist kept as they stand |
| Chapters.ChapterFromElement | src/es/kumanga/src/eu/kanade/tachiyomi/extension/es/kumanga/Kumanga.kt:113-122 | the rewritten link, starting with '/', with the row's name, date text and scanlator |
| Chapters.ChaptersOf | src/es/kumanga/src/eu/kanade/tachiyomi/extension/es/kumanga/Kumanga.kt:134 | one chapter per row, in document order |
| Chapters.PaginationFields | src/es/kumanga/src/eu/kanade/tachiyomi/extension/es/kumanga/Kumanga.kt:126-127 | at least one field, none holding a comma |
| Chapters.ParsePagination | src/es/kumanga/src/eu/kanade/tachiyomi/extension/es/kumanga/Kumanga.kt:126-142 | too few fields exactly when fewer than five; count unavailable exactly when field 4 is not an Int; no other failure; on success the id is field 0, the slug is field 1 with every quote removed, and the count is field 4 read as an Int |
| Chapters.PageCount | src/es/kumanga/src/eu/kanade/tachiyomi/extension/es/kumanga/Kumanga.kt:133 | the integer nearest n/10 + 0.4 with halves rounded up, which is the ceiling of n/10 |
| Chapters.PageCountBoundaries | src/es/kumanga/src/eu/kanade/tachiyomi/extension/es/kumanga/Kumanga.kt:132-133 | 0, 1, 10, 11, 20 and 25 chapters give 0, 1, 1, 2, 2 and 3 pages |
| Chapters.PageUrls | src/es/kumanga/src/eu/kanade/tachiyomi/extension/es/kumanga/Kumanga.kt:137-140 | the absolute URLs of pages from..last, in increasing order |
| Chapters.PageChapters | src/es/kumanga/src/eu/kanade/tachiyomi/extension/es/kumanga/Kumanga.kt:139 | one chapter list per page from..last |
| Chapters.PageUrl | src/es/kumanga/src/eu/kanade/tachiyomi/extension/es/kumanga/Kumanga.kt:138 | baseUrl followed by getMangaUrl(id, slug, page) for the manga the pagination call names |
| Chapters.PageUrlOnSite | src/es/kumanga/src/eu/kanade/tachiyomi/extension/es/kumanga/Kumanga.kt:138 | every listing page URL starts with the site's base URL, then "/manga/" |
| Chapters.PagesFrom | src/es/kumanga/src/eu/kanade/tachiyomi/extension/es/kumanga/Kumanga.kt:137-141 | at most one request per page page..last, all of them when no fetch fails; the first request is for page `page`; a failure is the failed fetch of the last URL requested |
| Chapters.WalkStep | src/es/kumanga/src/eu/kanade/tachiyomi/extension/es/kumanga/Kumanga.kt:137-140 | defining equation of PagesFrom for a delivered page: its request and chapters in front of the walk from the next page |
| Chapters.WalkStopsHere | src/es/kumanga/src/eu/kanade/tachiyomi/extension/es/kumanga/Kumanga.kt:137-138 | defining equation of PagesFrom for a failed fetch: that one request, failing with its URL |
| Chapters.WalkEnds | src/es/kumanga/src/eu/kanade/tachiyomi/extension/es/kumanga/Kumanga.kt:137 | defining equation of PagesFrom past the last page: no request, no chapters |
| Chapters.WalkAfterFirst | src/es/kumanga/src/eu/kanade/tachiyomi/extension/es/kumanga/Kumanga.kt:131-141 | page 1's chapters start the list; at most N-1 requests; a failure is the failed fetch of the last URL requested |
| Chapters.ChapterList | src/es/kumanga/src/eu/kanade/tachiyomi/extension/es/kumanga/Kumanga.kt:124-143 | unreadable metadata fails with that error and no request; otherwise at most N-1 requests, and a failure names the last URL requested |
| Chapters.ChapterListParse | src/es/kumanga/src/eu/kanade/tachiyomi/extension/es/kumanga/Kumanga.kt:124-143 | the requests made and the outcome are those of ChapterList, the walk over pages 2..N |
| Chapters.WalkDelivered | src/es/kumanga/src/eu/kanade/tachiyomi/extension/es/kumanga/Kumanga.kt:137-141 | with every page delivered, one request per page in increasing order and all chapters concatenated page by page |
| Chapters.WalkFailsAt | src/es/kumanga/src/eu/kanade/tachiyomi/extension/es/kumanga/Kumanga.kt:137-141 | the walk stops at the first failing page, after requesting every page up to it, with no chapters |
| Chapters.ChapterListComplete | src/es/kumanga/src/eu/kanade/tachiyomi/extension/es/kumanga/Kumanga.kt:131-141 | page 1's chapters followed by those of pages 2..N, duplicates kept, after exactly one request per page 2..N |
| Chapters.SinglePageFetchesNothing | src/es/kumanga/src/eu/kanade/tachiyomi/extension/es/kumanga/Kumanga.kt:133-137 | with at most 10 chapters nothing is requested and the list is page 1's |
| Chapters.ChapterListAllOrNothing | src/es/kumanga/src/eu/kanade/tachiyomi/extension/es/kumanga/Kumanga.kt:124-143 | a failing page fails the whole list, with no request after it |
| Chapters.MetadataFailureFetchesNothing | src/es/kumanga/src/eu/kanade/tachiyomi/extension/es/kumanga/Kumanga.kt:126-142 | unreadable pagination metadata fails the list before any request |
| Chapters.NoCommaMeansTooFewFields | src/es/kumanga/src/eu/kanade/tachiyomi/extension/es/kumanga/Kumanga.kt:126-127 | a page without any comma fails with too few fields |
| Chapters.PageUrlsDistinct | src/es/kumanga/src/eu/kanade/tachiyomi/extension/es/kumanga/Kumanga.kt:138 | the pages requested in one walk have pairwise different URLs |
| Chapters.PaginationArgsFound | src/es/kumanga/src/eu/kanade/tachiyomi/extension/es/kumanga/Kumanga.kt:126 | the argument text of the first pagination call is found exactly |
| Chapters.PaginationArgsSplit | src/es/kumanga/src/eu/kanade/tachiyomi/extension/es/kumanga/Kumanga.kt:127-129 | the arguments split into id, quoted slug, two more fields and the count |
| Chapters.SplitLeading | src/es/kumanga/src/eu/kanade/tachiyomi/extension/es/kumanga/Kumanga.kt:127 | a comma-free lead is the first field |
| Chapters.UnquoteSlug | src/es/kumanga/src/eu/kanade/tachiyomi/extension/es/kumanga/Kumanga.kt:129 | removing the quotes around a quote-free slug gives the slug |
| Chapters.PaginationRoundTrip | src/es/kumanga/src/eu/kanade/tachiyomi/extension/es/kumanga/Kumanga.kt:126-129 | a page whose first pagination call is php_pagination(id,'slug',a,b,count,...) gives back the id, the slug and the count |
| Pages.ImageListTextFound | src/es/kumanga/src/eu/kanade/tachiyomi/extension/es/kumanga/Kumanga.kt:147-149 | the JSON text of the first "var pUrl=" assignment is found exactly |
| Pages.ImageListText | src/es/kumanga/src/eu/kanade/tachiyomi/extension/es/kumanga/Kumanga.kt:147-149 | a piece no longer than the head; the head up to its first ';' when "var pUrl=" is absent; free of ';' whenever a ';' follows the marker |
| Pages.ImageUrl | src/es/kumanga/src/eu/kanade/tachiyomi/extension/es/kumanga/Kumanga.kt:153-154 | the site address followed by the entry's path without backslashes |
| Pages.PageListParse | src/es/kumanga/src/eu/kanade/tachiyomi/extension/es/kumanga/Kumanga.kt:145-158 | one page per entry, in order, the i-th with index i and the entry's image URL |

## Left out

- The HTTP client, its redirect setting, request headers and `imageRequest` (lines 31-34, 44-46, 160) are transport, not modelled. A later listing page's fetch is the `fetch` parameter.
- The HTML selectors (Jsoup) and the JSON parsing (Gson) are foreign libraries. Their results are inputs: body text, chapter rows, search records, image entries, and the status, author and artist texts of the details page.
- `parseChapterDate` (lines 108-109) depends on the default locale and time zone. A chapter keeps its raw date text instead of epoch milliseconds.
- Chapters.ChapterListParse: a date text that SimpleDateFormat cannot parse throws in the source and fails the whole list. The model keeps the raw text and does not fail on it.
- Line 133 is computed with IEEE doubles in the source. The model uses the exact-arithmetic value.
- Requests.SearchMangaRequest: the source pastes the raw query into the URL text before parsing it. A query holding '&', '=', '#' or other characters that URL parsing treats specially is not modelled. The model always sends the query as one keywords value, and it also leaves out percent-encoding.
- KotlinText.ToIntOrNull: only ASCII digits are accepted. Kotlin also accepts other Unicode decimal digits.
- `latestUpdatesParse` and `imageUrlParse` (lines 90 and 162) only throw. Only the unsupported latest request is modelled.
- Gson failures throw in the source and are not modelled: any missing or mistyped JSON field (`contents`, `retrievedCount`, `name`, `description`, `id`, `slug`, `categories` and each category's `name`, `imgURL`, lines 53-58, 68, 77-78 and 153), a text after "var pUrl=" that is not a JSON array (line 150, also when the marker is missing), and the `!!` on the response body (line 75).
- src/all/kavita/src/eu/kanade/tachiyomi/extension/all/kavita/KavitaConstants.kt holds only preference keys and is not part of this model.
