/**
  Catalog responses of the search engine turned into manga entries, and the
  details page's status classification (Kumanga.kt lines 52-62, 74-86, 92-106
  and 190).
*/
module Catalog {
  import opened KotlinText
  import opened Urls

  /** `SManga.UNKNOWN`, `SManga.ONGOING` and `SManga.COMPLETED`. */
  datatype MangaStatus = Unknown | Ongoing | Completed

  /** One entry of the response's `contents` array, as the JSON parser yields it. */
  datatype MangaRecord = MangaRecord(id: string, slug: string, name: string, description: string, categories: seq<string>)

  /** A search-engine response: its `contents` array and its `retrievedCount` field. */
  datatype CatalogResponse = CatalogResponse(contents: seq<MangaRecord>, retrievedCount: int)

  /** The fields a catalog entry fills in. */
  datatype Manga = Manga(url: string, title: string, description: string, thumbnailUrl: string, genre: string)

  /** One page of the catalog and whether another may follow. */
  datatype MangasPage = MangasPage(mangas: seq<Manga>, hasNextPage: bool)

  /** The fields the details page fills in. */
  datatype MangaDetails = MangaDetails(status: MangaStatus, author: string, artist: string)

  /** `parseMangaFromJson`: one record as a catalog entry, linked to page 1 of its chapter listing. */
  function ParseManga(rec: MangaRecord): (m: Manga)
    ensures m.url == MangaUrl(rec.id, rec.slug, 1)
    ensures m.thumbnailUrl == MangaCover(rec.id)
    ensures m.title == rec.name
    ensures m.description == Without(rec.description, '\\') && '\\' !in m.description
    ensures m.genre == Join(rec.categories, ", ")
  {
    Manga(MangaUrl(rec.id, rec.slug, 1), rec.name, StripBackslashes(rec.description), MangaCover(rec.id),
          Join(rec.categories, ", "))
  }

  /**
    The genre line reads back as the record's categories when it is split at
    ", ", provided no category itself holds ", ".
  */
  lemma GenresReadBack(rec: MangaRecord)
    requires |rec.categories| >= 1
    requires forall i :: 0 <= i < |rec.categories| ==> !Contains(rec.categories[i], ", ")
    ensures Split(ParseManga(rec).genre, ", ") == rec.categories
  {
    SplitJoin(rec.categories, ", ");
  }

  /**
    `popularMangaParse` (and `searchMangaParse`, which is the same): every
    record in order, and a next page exactly when the response reports a full
    page, whatever the number of records it actually holds.
  */
  function PopularMangaParse(resp: CatalogResponse): (r: MangasPage)
    ensures r.hasNextPage <==> resp.retrievedCount == SearchPageSize
    ensures |r.mangas| == |resp.contents|
    ensures forall i :: 0 <= i < |r.mangas| ==> r.mangas[i] == ParseManga(resp.contents[i])
  {
    MangasPage(seq(|resp.contents|, i requires 0 <= i < |resp.contents| => ParseManga(resp.contents[i])),
               resp.retrievedCount == SearchPageSize)
  }

  /** Two responses that report the same count agree on whether a next page exists. */
  lemma HasNextPageIgnoresContents(a: CatalogResponse, b: CatalogResponse)
    requires a.retrievedCount == b.retrievedCount
    ensures PopularMangaParse(a).hasNextPage == PopularMangaParse(b).hasNextPage
  {
  }

  /** When the reported count is the number of records, a short page ends the catalog. */
  lemma ShortPageIsLast(resp: CatalogResponse)
    requires resp.retrievedCount == |resp.contents|
    ensures PopularMangaParse(resp).hasNextPage <==> |resp.contents| == SearchPageSize
  {
  }

  /**
    `parseStatus`: "Activo" anywhere means ongoing, otherwise "Finalizado"
    anywhere means completed, otherwise the status is unknown.
  */
  function ParseStatus(status: string): (r: MangaStatus)
    ensures r == Ongoing <==> exists j :: OccursAt(status, "Activo", j)
    ensures r == Completed <==> (!exists j :: OccursAt(status, "Activo", j)) && exists j :: OccursAt(status, "Finalizado", j)
    ensures r == Unknown <==> !(exists j :: OccursAt(status, "Activo", j)) && !exists j :: OccursAt(status, "Finalizado", j)
  {
    if Contains(status, "Activo") then Ongoing
    else if Contains(status, "Finalizado") then Completed
    else Unknown
  }

  /** `mangaDetailsParse`: the status text classified, author and artist taken as they stand. */
  function MangaDetailsParse(statusText: string, authorText: string, artistText: string): (d: MangaDetails)
    ensures d.status == ParseStatus(statusText)
    ensures d.author == authorText && d.artist == artistText
  {
    MangaDetails(ParseStatus(statusText), authorText, artistText)
  }
}
