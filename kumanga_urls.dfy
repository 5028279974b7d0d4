/**
  The Kumanga site's address constants and the string helpers that build and
  clean up its URLs and texts (Kumanga.kt lines 38, 48-55 and 116).
*/
module Urls {
  import opened KotlinText

  const BaseUrl: string := "https://www.kumanga.com"

  /** The search engine's page size: requested as `perPage=10`, and a full page signals more. */
  const SearchPageSize: int := 10

  const CoverPrefix: string := "https://static.kumanga.com/manga_covers/"
  const CoverSuffix: string := ".jpg?w=201"

  /** `getMangaCover`: the cover image of a manga, keyed by its id. */
  function MangaCover(mangaId: string): (r: string)
    ensures |r| == |CoverPrefix| + |mangaId| + |CoverSuffix|
    ensures r[..|CoverPrefix|] == CoverPrefix && r[|r| - |CoverSuffix|..] == CoverSuffix
    ensures r[|CoverPrefix|..|r| - |CoverSuffix|] == mangaId
  {
    CoverPrefix + mangaId + CoverSuffix
  }

  /** `getMangaUrl`: the site path of page `page` of a manga's chapter listing. */
  function MangaUrl(mangaId: string, mangaSlug: string, page: int): (r: string)
    ensures var lead := "/manga/" + mangaId + "/p/";
            var num := IntToString(page);
            |lead| + |num| <= |r| && r[..|lead|] == lead && r[|lead|..|lead| + |num|] == num &&
            r[|lead| + |num|..] == "/" + mangaSlug + "#cl"
  {
    var lead := "/manga/" + mangaId + "/p/";
    var num := IntToString(page);
    var tail := "/" + mangaSlug + "#cl";
    var r := lead + num + tail;
    assert r[..|lead|] == lead;
    assert r[|lead|..|lead| + |num|] == num;
    assert r[|lead| + |num|..] == tail;
    r
  }

  /** The backslash-stripping `replace("\\", "")` applied to descriptions and image paths. */
  function StripBackslashes(s: string): (r: string)
    ensures r == Without(s, '\\')
  {
    ReplaceCharByNothing(s, '\\');
    Replace(s, "\\", "")
  }

  /** The chapter link rewrite: `'/' + href.replace("/c/", "/leer/")`. */
  function ChapterUrl(href: string): (r: string)
    ensures |r| >= 1 && r[0] == '/'
    ensures !Contains(href, "/c/") ==> r == "/" + href
  {
    "/" + Replace(href, "/c/", "/leer/")
  }

  /**
    A link whose first `/c/` follows a slash-free segment gets that `/c/`
    turned into `/leer/`, and the rest of the link is rewritten the same way.
  */
  lemma ChapterUrlRewrite(segment: string, rest: string)
    requires '/' !in segment
    ensures ChapterUrl(segment + "/c/" + rest) == "/" + segment + "/leer/" + Replace(rest, "/c/", "/leer/")
  {
    var s := segment + "/c/" + rest;
    forall j | 0 <= j < |segment|
      ensures !OccursAt(s, "/c/", j)
    {
      assert s[j] == segment[j];
    }
    ReplaceAtFirst(segment, "/c/", rest, "/leer/");
  }

  /**
    Any link that holds `/c/` gets its first `/c/` turned into `/leer/`: the
    text before it is kept, and the rest of the link is rewritten the same way.
  */
  lemma ChapterUrlAtFirst(href: string)
    requires Contains(href, "/c/")
    ensures var i := IndexOf(href, "/c/").value;
      ChapterUrl(href) == "/" + href[..i] + "/leer/" + Replace(href[i + 3..], "/c/", "/leer/")
  {
    var i := IndexOf(href, "/c/").value;
    var a, b := href[..i], href[i + 3..];
    assert href[i..i + 3] == "/c/";
    assert a + "/c/" + b == href;
    ReplaceAtFirst(a, "/c/", b, "/leer/");
  }

  /** A cover URL determines the manga id it was built from. */
  lemma MangaCoverInjective(a: string, b: string)
    requires MangaCover(a) == MangaCover(b)
    ensures a == b
  {
    var n := |CoverPrefix|;
    assert |a| == |b|;
    assert a == MangaCover(a)[n..n + |a|];
    assert b == MangaCover(b)[n..n + |b|];
  }

  /** For a fixed manga, different listing pages have different URLs. */
  lemma MangaUrlInjective(mangaId: string, mangaSlug: string, p: int, q: int)
    requires MangaUrl(mangaId, mangaSlug, p) == MangaUrl(mangaId, mangaSlug, q)
    ensures p == q
  {
    var n := |"/manga/" + mangaId + "/p/"|;
    var u := MangaUrl(mangaId, mangaSlug, p);
    var x := IntToString(p);
    var y := IntToString(q);
    assert |u| == n + |x| + |"/" + mangaSlug + "#cl"| == n + |y| + |"/" + mangaSlug + "#cl"|;
    assert x == u[n..n + |x|];
    IntToStringInjective(p, q);
  }
}
