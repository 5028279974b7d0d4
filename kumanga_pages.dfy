/**
  The reader page of a chapter turned into its list of page images
  (Kumanga.kt lines 145-158).
*/
module Pages {
  import opened KotlinText
  import opened Urls

  /** One entry of the `pUrl` JSON array, as the JSON parser yields it. */
  datatype ImageEntry = ImageEntry(imgURL: string)

  /** A page of a chapter: its 0-based index, its (unused) page URL and its image URL. */
  datatype Page = Page(index: int, url: string, imageUrl: string)

  const ImageListMarker: string := "var pUrl="

  /** The JSON text assigned to `pUrl` in the page head, up to the first `;` after it. */
  function ImageListText(head: string): (r: string)
    ensures |r| <= |head|
    ensures !Contains(head, ImageListMarker) ==> r == SubstringBefore(head, ";")
    ensures Contains(SubstringAfter(head, ImageListMarker), ";") ==> ';' !in r
  {
    var after := SubstringAfter(head, ImageListMarker);
    var r := SubstringBefore(after, ";");
    ContainsChar(r, ';');
    r
  }

  /** The image list is found exactly when it is the first `var pUrl=` assignment and holds no `;`. */
  lemma ImageListTextFound(before: string, json: string, after: string)
    requires !Contains(before, ImageListMarker) && ';' !in json
    ensures ImageListText(before + ImageListMarker + json + ";" + after) == json
  {
    var head := before + ImageListMarker + json + ";" + after;
    assert head == before + ImageListMarker + (json + ";" + after);
    assert ImageListMarker[..8] == "var pUrl";
    FirstOccurrenceAfter(before, ImageListMarker, json + ";" + after);
    assert SubstringAfter(head, ImageListMarker) == json + ";" + after;
    ContainsChar(json, ';');
    FirstOccurrenceAfter(json, ";", after);
  }

  /** The image of one entry: the site address followed by the entry's path without backslashes. */
  function ImageUrl(e: ImageEntry): (u: string)
    ensures u == BaseUrl + Without(e.imgURL, '\\')
    ensures u[..|BaseUrl|] == BaseUrl && '\\' !in u[|BaseUrl|..]
  {
    BaseUrl + StripBackslashes(e.imgURL)
  }

  /**
    `pageListParse`: for each entry, in order, a page whose index is the number
    of pages already listed.
  */
  method PageListParse(entries: seq<ImageEntry>) returns (pages: seq<Page>)
    ensures |pages| == |entries|
    ensures forall i :: 0 <= i < |pages| ==> pages[i] == Page(i, "", ImageUrl(entries[i]))
  {
    pages := [];
    for k := 0 to |entries|
      invariant |pages| == k
      invariant forall i :: 0 <= i < k ==> pages[i] == Page(i, "", ImageUrl(entries[i]))
    {
      pages := pages + [Page(|pages|, "", ImageUrl(entries[k]))];
    }
  }
}
