/**
  The chapter list of a manga: the pagination call embedded in the first
  listing page, the number of listing pages, and the sequential walk over
  pages 2..N that gathers every chapter (Kumanga.kt lines 108-143).
*/
module Chapters {
  import opened Wrappers
  import opened KotlinText
  import opened Urls

  /** One chapter row of a listing page, as the HTML selector yields it. */
  datatype ChapterElement = ChapterElement(href: string, text: string, title: string, scanlator: string)

  /** A chapter entry; `dateText` is the raw upload-date text the row carries. */
  datatype Chapter = Chapter(url: string, name: string, dateText: string, scanlator: string)

  /** The first (already fetched) listing page: its body markup and its chapter rows. */
  datatype Document = Document(body: string, rows: seq<ChapterElement>)

  /** What the `php_pagination(...)` call of the first page says about the manga. */
  datatype PaginationMeta = PaginationMeta(mangaId: string, mangaSlug: string, chapterCount: int)

  datatype ChapterError =
    | TooFewFields               // fewer than five comma-separated fields: `split(",")[4]` is out of bounds
    | ChapterCountUnavailable    // field 4 is not an Int: "No fue posible obtener los capítulos"
    | FetchFailed(url: string)   // the transport failed on a listing page

  /** The chapter rows of one listing page fetched at a URL, or `None` when the call fails. */
  type Fetcher = string -> Option<seq<ChapterElement>>

  /** The requests issued and what the whole chapter list came to. */
  datatype Traversal = Traversal(requested: seq<string>, outcome: Result<seq<Chapter>, ChapterError>)

  const ChaptersPerPage: int := 10
  const PaginationMarker: string := "php_pagination("

  /** `chapterFromElement`: the link rewritten to the reader, name and texts as they stand. */
  function ChapterFromElement(e: ChapterElement): (c: Chapter)
    ensures c.url == ChapterUrl(e.href) && c.url[0] == '/'
    ensures c.name == e.text && c.dateText == e.title && c.scanlator == e.scanlator
  {
    Chapter(ChapterUrl(e.href), e.text, e.title, e.scanlator)
  }

  /** `document.select(chapterSelector()).map { chapterFromElement(it) }`: one chapter per row, in document order. */
  function ChaptersOf(rows: seq<ChapterElement>): (cs: seq<Chapter>)
    ensures |cs| == |rows|
    ensures forall i :: 0 <= i < |rows| ==> cs[i] == ChapterFromElement(rows[i])
  {
    seq(|rows|, i requires 0 <= i < |rows| => ChapterFromElement(rows[i]))
  }

  /** The argument text of the first `php_pagination(` call, up to the first `)` after it, split at commas. */
  function PaginationFields(body: string): (fields: seq<string>)
    ensures |fields| >= 1
    ensures forall i :: 0 <= i < |fields| ==> !Contains(fields[i], ",")
  {
    Split(SubstringBefore(SubstringAfter(body, PaginationMarker), ")"), ",")
  }

  /**
    Lines 126-131: field 4 must read as an Int; field 0 is the manga id and
    field 1, with its quotes removed, the slug.
  */
  function ParsePagination(body: string): (r: Result<PaginationMeta, ChapterError>)
    ensures r.Success? ==> MinInt <= r.value.chapterCount <= MaxInt && '\'' !in r.value.mangaSlug
    ensures r == Failure(TooFewFields) <==> |PaginationFields(body)| < 5
    ensures r == Failure(ChapterCountUnavailable) <==> |PaginationFields(body)| >= 5 && ToIntOrNull(PaginationFields(body)[4]).None?
    ensures r.Failure? ==> r.error == TooFewFields || r.error == ChapterCountUnavailable
    ensures r.Success? ==>
              var fields := PaginationFields(body);
              |fields| >= 5 && r.value.mangaId == fields[0] && r.value.mangaSlug == Without(fields[1], '\'') &&
              ToIntOrNull(fields[4]) == Some(r.value.chapterCount)
  {
    var fields := PaginationFields(body);
    if |fields| < 5 then Failure(TooFewFields)
    else
      match ToIntOrNull(fields[4])
      case None => Failure(ChapterCountUnavailable)
      case Some(n) =>
        ReplaceCharByNothing(fields[1], '\'');
        Success(PaginationMeta(fields[0], Replace(fields[1], "'", ""), n))
  }

  /**
    Line 133: `(n / 10.0 + 0.4).roundToInt()` in exact arithmetic. The result
    is the integer nearest to n/10 + 0.4, halves rounded up, which is the
    ceiling of n/10.
  */
  function PageCount(n: int): (r: int)
    ensures (r as real) - 0.5 <= (n as real) / 10.0 + 0.4 < (r as real) + 0.5
    ensures ChaptersPerPage * (r - 1) < n <= ChaptersPerPage * r
  {
    (n + 9) / 10
  }

  lemma PageCountBoundaries()
    ensures PageCount(0) == 0 && PageCount(1) == 1 && PageCount(10) == 1
    ensures PageCount(11) == 2 && PageCount(20) == 2 && PageCount(25) == 3
  {
  }

  /** The absolute URL of listing page `page` (line 138). */
  function PageUrl(meta: PaginationMeta, page: int): string {
    BaseUrl + MangaUrl(meta.mangaId, meta.mangaSlug, page)
  }

  /** A listing page URL lies on the site: it starts with the base URL, then `/manga/`. */
  lemma PageUrlOnSite(meta: PaginationMeta, page: int)
    ensures var u := PageUrl(meta, page);
      |BaseUrl| + 7 <= |u| && u[..|BaseUrl|] == BaseUrl && u[|BaseUrl|..|BaseUrl| + 7] == "/manga/"
  {
    var path := MangaUrl(meta.mangaId, meta.mangaSlug, page);
    assert path[..7] == "/manga/";
  }

  /** Listing page URLs for pages `from`, `from + 1`, ..., `last`. */
  function PageUrls(meta: PaginationMeta, from: int, last: int): (urls: seq<string>)
    ensures |urls| == if from <= last then last - from + 1 else 0
    ensures forall i :: 0 <= i < |urls| ==> urls[i] == PageUrl(meta, from + i)
  {
    seq(if from <= last then last - from + 1 else 0, i => PageUrl(meta, from + i))
  }

  /** `done` chapters and `urls` requests prepended to a later part of the walk. */
  function Prepend(done: seq<Chapter>, urls: seq<string>, t: Traversal): Traversal {
    Traversal(urls + t.requested, if t.outcome.Success? then Success(done + t.outcome.value) else t.outcome)
  }

  /** The walk over pages `page`..`last`: one fetch per page, stopping at the first failure. */
  function PagesFrom(meta: PaginationMeta, page: int, last: int, fetch: Fetcher): (t: Traversal)
    ensures |t.requested| <= if page <= last then last - page + 1 else 0
    ensures t.outcome.Success? ==> |t.requested| == if page <= last then last - page + 1 else 0
    ensures t.outcome.Failure? ==> |t.requested| > 0 && t.outcome.error == FetchFailed(t.requested[|t.requested| - 1])
    ensures |t.requested| > 0 ==> t.requested[0] == PageUrl(meta, page)
    decreases last - page + 1
  {
    if page > last then Traversal([], Success([]))
    else
      var url := PageUrl(meta, page);
      match fetch(url)
      case None => Traversal([url], Failure(FetchFailed(url)))
      case Some(rows) =>
        var rest := PagesFrom(meta, page + 1, last, fetch);
        var t := Prepend(ChaptersOf(rows), [url], rest);
        assert t.requested == [url] + rest.requested;
        assert t.outcome.Failure? ==>
                 t.outcome == rest.outcome && t.requested[|t.requested| - 1] == rest.requested[|rest.requested| - 1];
        t
  }

  /** Page 1's chapters, then the walk over pages 2..N. */
  function WalkAfterFirst(meta: PaginationMeta, rows: seq<ChapterElement>, fetch: Fetcher): (t: Traversal)
    ensures |t.requested| + 1 <= PageCount(meta.chapterCount) || t.requested == []
    ensures t.outcome.Failure? ==> |t.requested| > 0 && t.outcome.error == FetchFailed(t.requested[|t.requested| - 1])
    ensures t.outcome.Success? ==>
              |ChaptersOf(rows)| <= |t.outcome.value| && t.outcome.value[..|ChaptersOf(rows)|] == ChaptersOf(rows)
  {
    var rest := PagesFrom(meta, 2, PageCount(meta.chapterCount), fetch);
    var t := Prepend(ChaptersOf(rows), [], rest);
    assert t.requested == rest.requested;
    t
  }

  /** `chapterListParse`, as a function of the first page and of what each later fetch returns. */
  function ChapterList(first: Document, fetch: Fetcher): (t: Traversal)
    ensures ParsePagination(first.body).Failure? ==> t == Traversal([], Failure(ParsePagination(first.body).error))
    ensures ParsePagination(first.body).Success? ==>
              (|t.requested| + 1 <= PageCount(ParsePagination(first.body).value.chapterCount) || t.requested == []) &&
              (t.outcome.Failure? ==> |t.requested| > 0 && t.outcome.error == FetchFailed(t.requested[|t.requested| - 1]))
  {
    match ParsePagination(first.body)
    case Failure(e) => Traversal([], Failure(e))
    case Success(meta) => WalkAfterFirst(meta, first.rows, fetch)
  }

  /** The chapters of consecutive listing pages, one after the other. */
  function Flatten(pages: seq<seq<Chapter>>): (r: seq<Chapter>)
    decreases |pages|
  {
    if pages == [] then [] else pages[0] + Flatten(pages[1..])
  }

  /** The rows a fetch yields, or none when it fails. */
  function RowsAt(fetch: Fetcher, url: string): seq<ChapterElement> {
    match fetch(url)
    case None => []
    case Some(rows) => rows
  }

  /** The chapters of listing pages `from`..`last`, page by page. */
  function PageChapters(meta: PaginationMeta, from: int, last: int, fetch: Fetcher): (pages: seq<seq<Chapter>>)
    ensures |pages| == if from <= last then last - from + 1 else 0
    ensures forall i :: 0 <= i < |pages| ==> pages[i] == ChaptersOf(RowsAt(fetch, PageUrl(meta, from + i)))
  {
    seq(if from <= last then last - from + 1 else 0, i => ChaptersOf(RowsAt(fetch, PageUrl(meta, from + i))))
  }

  lemma PrependPrepend(a: seq<Chapter>, r: seq<string>, b: seq<Chapter>, s: seq<string>, t: Traversal)
    ensures Prepend(a, r, Prepend(b, s, t)) == Prepend(a + b, r + s, t)
  {
    AppendAssoc(r, s, t.requested);
    if t.outcome.Success? {
      AppendAssoc(a, b, t.outcome.value);
    }
  }

  /**
    The traversal loop of lines 131-142: page 1's chapters, then for each page
    2..N one request and its chapters appended in order; any failure ends the
    whole list.
  */
  method ChapterListParse(first: Document, fetch: Fetcher) returns (requested: seq<string>, outcome: Result<seq<Chapter>, ChapterError>)
    ensures Traversal(requested, outcome) == ChapterList(first, fetch)
  {
    var parsed := ParsePagination(first.body);
    if parsed.Failure? {
      return [], Failure(parsed.error);
    }
    var meta := parsed.value;
    var numberOfPages := PageCount(meta.chapterCount);
    var chapters := ChaptersOf(first.rows);
    ghost var target := ChapterList(first, fetch);
    assert target == WalkAfterFirst(meta, first.rows, fetch);
    requested := [];
    var page := 2;
    while page <= numberOfPages
      invariant 2 <= page
      invariant Prepend(chapters, requested, PagesFrom(meta, page, numberOfPages, fetch)) == target
      decreases numberOfPages - page
    {
      var url := PageUrl(meta, page);
      var response := fetch(url);
      if response.None? {
        WalkStopsHere(meta, page, numberOfPages, fetch);
        return requested + [url], Failure(FetchFailed(url));
      }
      WalkStep(meta, page, numberOfPages, fetch);
      PrependPrepend(chapters, requested, ChaptersOf(response.value), [url], PagesFrom(meta, page + 1, numberOfPages, fetch));
      chapters := chapters + ChaptersOf(response.value);
      requested := requested + [url];
      page := page + 1;
    }
    WalkEnds(meta, page, numberOfPages, fetch);
    assert requested + [] == requested && chapters + [] == chapters;
    outcome := Success(chapters);
  }

  /** A failed fetch ends the walk with that one request. */
  lemma WalkStopsHere(meta: PaginationMeta, page: int, last: int, fetch: Fetcher)
    requires page <= last && fetch(PageUrl(meta, page)).None?
    ensures PagesFrom(meta, page, last, fetch) == Traversal([PageUrl(meta, page)], Failure(FetchFailed(PageUrl(meta, page))))
  {
  }

  /** Past the last page the walk requests nothing and adds nothing. */
  lemma WalkEnds(meta: PaginationMeta, page: int, last: int, fetch: Fetcher)
    requires page > last
    ensures PagesFrom(meta, page, last, fetch) == Traversal([], Success([]))
  {
  }

  lemma PageUrlsCons(meta: PaginationMeta, from: int, last: int)
    requires from <= last
    ensures PageUrls(meta, from, last) == [PageUrl(meta, from)] + PageUrls(meta, from + 1, last)
  {
    var urls := PageUrls(meta, from, last);
    var tail := PageUrls(meta, from + 1, last);
    forall i | 0 <= i < |tail|
      ensures urls[i + 1] == tail[i]
    {
      assert from + (i + 1) == from + 1 + i;
    }
    ConsByIndex(urls, PageUrl(meta, from), tail);
  }

  /** A sequence whose first element is `x` and whose later elements are those of `ys`. */
  lemma ConsByIndex<T>(xs: seq<T>, x: T, ys: seq<T>)
    requires |xs| == 1 + |ys| && xs[0] == x
    requires forall i :: 0 <= i < |ys| ==> xs[i + 1] == ys[i]
    ensures xs == [x] + ys
  {
    assert forall i :: 0 <= i < |xs| ==> xs[i] == ([x] + ys)[i] by {
      forall i | 0 <= i < |xs|
        ensures xs[i] == ([x] + ys)[i]
      {
        if i > 0 {
          assert xs[(i - 1) + 1] == ys[i - 1];
        }
      }
    }
  }

  /** When every page `from`..`last` is delivered, the walk requests each once, in order, and keeps every chapter. */
  lemma {:induction false} WalkDelivered(meta: PaginationMeta, from: int, last: int, fetch: Fetcher)
    requires forall p :: from <= p <= last ==> fetch(PageUrl(meta, p)).Some?
    ensures PagesFrom(meta, from, last, fetch) ==
            Traversal(PageUrls(meta, from, last), Success(Flatten(PageChapters(meta, from, last, fetch))))
    decreases last - from + 1
  {
    if from <= last {
      var url := PageUrl(meta, from);
      var rows := fetch(url).value;
      WalkDelivered(meta, from + 1, last, fetch);
      var urls := PageUrls(meta, from, last);
      var pages := PageChapters(meta, from, last, fetch);
      PageUrlsCons(meta, from, last);
      assert RowsAt(fetch, url) == rows;
      assert pages[0] == ChaptersOf(rows);
      assert pages[1..] == PageChapters(meta, from + 1, last, fetch);
    }
  }

  /** The walk stops at the first page that fails, after requesting every page up to it. */
  lemma {:induction false} WalkFailsAt(meta: PaginationMeta, from: int, q: int, last: int, fetch: Fetcher)
    requires from <= q <= last
    requires forall p :: from <= p < q ==> fetch(PageUrl(meta, p)).Some?
    requires fetch(PageUrl(meta, q)).None?
    ensures PagesFrom(meta, from, last, fetch) == Traversal(PageUrls(meta, from, q), Failure(FetchFailed(PageUrl(meta, q))))
    decreases q - from
  {
    if from < q {
      WalkFailsAt(meta, from + 1, q, last, fetch);
      ghost var tail := Traversal(PageUrls(meta, from + 1, q), Failure(FetchFailed(PageUrl(meta, q))));
      assert PagesFrom(meta, from + 1, last, fetch) == tail;
      WalkStep(meta, from, last, fetch);
      PageUrlsCons(meta, from, q);
    } else {
      WalkStopsHere(meta, q, last, fetch);
      assert PageUrls(meta, from, q) == [PageUrl(meta, q)];
    }
  }

  /** A delivered page contributes its request and its chapters in front of the rest of the walk. */
  lemma WalkStep(meta: PaginationMeta, from: int, last: int, fetch: Fetcher)
    requires from <= last && fetch(PageUrl(meta, from)).Some?
    ensures PagesFrom(meta, from, last, fetch) ==
            Prepend(ChaptersOf(fetch(PageUrl(meta, from)).value), [PageUrl(meta, from)], PagesFrom(meta, from + 1, last, fetch))
  {
  }

  /**
    When the pagination call reads and every later page is delivered, the
    chapter list is page 1's chapters followed by those of pages 2..N, each in
    document order, duplicates kept, after exactly one request per page
    2..N, in increasing order.
  */
  lemma ChapterListComplete(first: Document, fetch: Fetcher, meta: PaginationMeta)
    requires ParsePagination(first.body) == Success(meta)
    requires forall p :: 2 <= p <= PageCount(meta.chapterCount) ==> fetch(PageUrl(meta, p)).Some?
    ensures ChapterList(first, fetch) ==
            Traversal(PageUrls(meta, 2, PageCount(meta.chapterCount)),
                      Success(Flatten([ChaptersOf(first.rows)] + PageChapters(meta, 2, PageCount(meta.chapterCount), fetch))))
  {
    assert ChapterList(first, fetch) == WalkAfterFirst(meta, first.rows, fetch);
    var n := PageCount(meta.chapterCount);
    WalkDelivered(meta, 2, n, fetch);
    var pages := [ChaptersOf(first.rows)] + PageChapters(meta, 2, n, fetch);
    assert pages[1..] == PageChapters(meta, 2, n, fetch);
  }

  /** A single listing page needs no request at all. */
  lemma SinglePageFetchesNothing(first: Document, fetch: Fetcher, meta: PaginationMeta)
    requires ParsePagination(first.body) == Success(meta)
    requires meta.chapterCount <= ChaptersPerPage
    ensures ChapterList(first, fetch) == Traversal([], Success(ChaptersOf(first.rows)))
  {
    assert ChapterList(first, fetch) == WalkAfterFirst(meta, first.rows, fetch);
    assert ChaptersOf(first.rows) + [] == ChaptersOf(first.rows);
  }

  /** A failed page fetch fails the whole list: no chapters at all, and no request after the failing one. */
  lemma ChapterListAllOrNothing(first: Document, fetch: Fetcher, meta: PaginationMeta, q: int)
    requires ParsePagination(first.body) == Success(meta)
    requires 2 <= q <= PageCount(meta.chapterCount)
    requires forall p :: 2 <= p < q ==> fetch(PageUrl(meta, p)).Some?
    requires fetch(PageUrl(meta, q)).None?
    ensures ChapterList(first, fetch) == Traversal(PageUrls(meta, 2, q), Failure(FetchFailed(PageUrl(meta, q))))
  {
    assert ChapterList(first, fetch) == WalkAfterFirst(meta, first.rows, fetch);
    WalkFailsAt(meta, 2, q, PageCount(meta.chapterCount), fetch);
  }

  /** Unreadable pagination metadata fails the list before any request. */
  lemma MetadataFailureFetchesNothing(first: Document, fetch: Fetcher)
    requires ParsePagination(first.body).Failure?
    ensures ChapterList(first, fetch).requested == []
    ensures ChapterList(first, fetch).outcome == Failure(ParsePagination(first.body).error)
  {
  }

  /** A page without any comma (so without a usable pagination call) fails with too few fields. */
  lemma NoCommaMeansTooFewFields(first: Document, fetch: Fetcher)
    requires ',' !in first.body
    ensures ChapterList(first, fetch) == Traversal([], Failure(TooFewFields))
  {
    var after := SubstringAfter(first.body, PaginationMarker);
    assert ',' !in after;
    var args := SubstringBefore(after, ")");
    assert ',' !in args;
    SplitAbsent(args, ',');
  }

  /** The listing pages requested in one walk are pairwise different. */
  lemma PageUrlsDistinct(meta: PaginationMeta, from: int, last: int, i: int, j: int)
    requires 0 <= i < j < |PageUrls(meta, from, last)|
    ensures PageUrls(meta, from, last)[i] != PageUrls(meta, from, last)[j]
  {
    var a := MangaUrl(meta.mangaId, meta.mangaSlug, from + i);
    var b := MangaUrl(meta.mangaId, meta.mangaSlug, from + j);
    if a == b {
      MangaUrlInjective(meta.mangaId, meta.mangaSlug, from + i, from + j);
    }
    assert (BaseUrl + a)[|BaseUrl|..] == a;
    assert (BaseUrl + b)[|BaseUrl|..] == b;
  }

  // The pagination call as the site writes it.

  /** A field that neither ends the call nor splits it. */
  predicate PlainField(s: string) {
    ',' !in s && ')' !in s
  }

  /** `php_pagination(id,'slug',f2,f3,count<rest>)`, where `rest` holds any further fields. */
  function PaginationCall(id: string, slug: string, f2: string, f3: string, count: int, rest: string): string {
    PaginationMarker + PaginationArgs(id, slug, f2, f3, count, rest) + ")"
  }

  function PaginationArgs(id: string, slug: string, f2: string, f3: string, count: int, rest: string): string {
    id + ("," + (("'" + slug + "'") + ("," + (f2 + ("," + (f3 + ("," + (IntToString(count) + rest))))))))
  }

  /** The argument text of the first pagination call on the page is found exactly. */
  lemma PaginationArgsFound(before: string, args: string, after: string)
    requires !Contains(before, PaginationMarker) && ')' !in args
    ensures SubstringBefore(SubstringAfter(before + PaginationMarker + args + ")" + after, PaginationMarker), ")") == args
  {
    var body := before + PaginationMarker + args + ")" + after;
    assert body == before + PaginationMarker + (args + ")" + after);
    assert PaginationMarker[..14] == "php_pagination";
    FirstOccurrenceAfter(before, PaginationMarker, args + ")" + after);
    assert SubstringAfter(body, PaginationMarker) == args + ")" + after;
    ContainsChar(args, ')');
    FirstOccurrenceAfter(args, ")", after);
  }

  /** The arguments split into the five fields the adapter reads. */
  lemma PaginationArgsSplit(id: string, slug: string, f2: string, f3: string, count: int, rest: string)
    requires PlainField(id) && PlainField(slug) && PlainField(f2) && PlainField(f3)
    requires rest == "" || rest[0] == ','
    ensures var fields := Split(PaginationArgs(id, slug, f2, f3, count, rest), ",");
            |fields| >= 5 && fields[0] == id && fields[1] == "'" + slug + "'" && fields[4] == IntToString(count)
  {
    var quoted := "'" + slug + "'";
    var num := IntToString(count);
    var r4 := num + rest;
    var r3 := f3 + ("," + r4);
    var r2 := f2 + ("," + r3);
    var r1 := quoted + ("," + r2);
    SplitAtFirst(id, ',', r1);
    SplitAtFirst(quoted, ',', r2);
    SplitAtFirst(f2, ',', r3);
    SplitAtFirst(f3, ',', r4);
    SplitLeading(num, rest);
    var fields := Split(PaginationArgs(id, slug, f2, f3, count, rest), ",");
    assert fields == [id] + ([quoted] + ([f2] + ([f3] + Split(r4, ","))));
  }

  /** Arguments made of parenthesis-free fields hold no closing parenthesis. */
  lemma PaginationArgsUnclosed(id: string, slug: string, f2: string, f3: string, count: int, rest: string)
    requires PlainField(id) && PlainField(slug) && PlainField(f2) && PlainField(f3) && ')' !in rest
    ensures ')' !in PaginationArgs(id, slug, f2, f3, count, rest)
  {
  }

  /** A comma-free lead followed by nothing or by a comma is the first field. */
  lemma SplitLeading(lead: string, rest: string)
    requires ',' !in lead
    requires rest == "" || rest[0] == ','
    ensures Split(lead + rest, ",")[0] == lead
  {
    if rest == "" {
      assert lead + rest == lead;
      SplitAbsent(lead, ',');
    } else {
      assert rest == [','] + rest[1..];
      SplitAtFirst(lead, ',', rest[1..]);
    }
  }

  /** Removing the quotes around a quote-free slug gives the slug back. */
  lemma UnquoteSlug(slug: string)
    requires '\'' !in slug
    ensures Replace("'" + slug + "'", "'", "") == slug
  {
    ReplaceCharByNothing("'" + slug + "'", '\'');
    WithoutAppend("'" + slug, "'", '\'');
    WithoutAppend("'", slug, '\'');
    WithoutAbsent(slug, '\'');
    assert Without("'", '\'') == [] by {
      assert "'"[..0] == [];
    }
  }

  /**
    Reading back a pagination call: on a page whose first `php_pagination(`
    is this call, the id, the unquoted slug and the chapter count come back
    exactly.
  */
  lemma PaginationRoundTrip(before: string, id: string, slug: string, f2: string, f3: string, count: int, rest: string, after: string)
    requires !Contains(before, PaginationMarker)
    requires PlainField(id) && PlainField(slug) && PlainField(f2) && PlainField(f3) && '\'' !in slug
    requires ')' !in rest && (rest == "" || rest[0] == ',')
    requires MinInt <= count <= MaxInt
    ensures ParsePagination(before + PaginationCall(id, slug, f2, f3, count, rest) + after) ==
            Success(PaginationMeta(id, slug, count))
  {
    var args := PaginationArgs(id, slug, f2, f3, count, rest);
    var body := before + PaginationCall(id, slug, f2, f3, count, rest) + after;
    assert body == before + PaginationMarker + args + ")" + after;
    PaginationArgsUnclosed(id, slug, f2, f3, count, rest);
    PaginationArgsFound(before, args, after);
    PaginationArgsSplit(id, slug, f2, f3, count, rest);
    ToIntOrNullOfToString(count);
    UnquoteSlug(slug);
  }
}
