/**
  The search filters Kumanga offers and how the selected options become query
  parameters (Kumanga.kt lines 164-185 and 192-271).
*/
module Filters {
  import opened Wrappers
  import opened KotlinText

  /** One name/value query parameter, before any URL encoding. */
  datatype Param = Param(name: string, value: string)

  /** A check box of a filter group: its display name, the site's id for it, and whether it is ticked. */
  datatype CheckBox = CheckBox(name: string, id: string, state: bool)

  /**
    The filter kinds a search can receive: the three check-box groups of this
    source, the separator shown between them, and any other kind of filter,
    which carries no query meaning here.
  */
  datatype Filter =
    | TypeList(options: seq<CheckBox>)
    | StatusList(options: seq<CheckBox>)
    | GenreList(options: seq<CheckBox>)
    | Separator
    | OtherFilter(title: string)

  /** The query parameter a check-box group's selected ids are sent under. */
  function QueryName(f: Filter): (r: Option<string>)
    ensures r.Some? <==> f.TypeList? || f.StatusList? || f.GenreList?
    ensures f.TypeList? ==> r == Some("type_filter[]")
    ensures f.StatusList? ==> r == Some("status_filter[]")
    ensures f.GenreList? ==> r == Some("category_filter[]")
  {
    match f
    case TypeList(_) => Some("type_filter[]")
    case StatusList(_) => Some("status_filter[]")
    case GenreList(_) => Some("category_filter[]")
    case _ => None
  }

  /** One `name` parameter per ticked option, in option order. */
  function SelectedParams(name: string, options: seq<CheckBox>): (r: seq<Param>)
    ensures |r| <= |options|
    ensures forall k :: 0 <= k < |r| ==> r[k].name == name
  {
    if options == [] then []
    else
      var last := options[|options| - 1];
      SelectedParams(name, options[..|options| - 1]) + (if last.state then [Param(name, last.id)] else [])
  }

  /** One of the three names check-box groups are sent under. */
  predicate IsGroupName(name: string) {
    name == "type_filter[]" || name == "status_filter[]" || name == "category_filter[]"
  }

  /** The parameters one filter contributes. */
  function FilterParamsOf(f: Filter): (r: seq<Param>)
    ensures QueryName(f).None? ==> r == []
    ensures QueryName(f).Some? ==> |r| <= |f.options|
    ensures forall i :: 0 <= i < |r| ==> QueryName(f) == Some(r[i].name)
  {
    match QueryName(f)
    case None => []
    case Some(name) => SelectedParams(name, f.options)
  }

  /** The filter part of a search query: each filter's parameters, in filter order. */
  function FilterParams(filters: seq<Filter>): (r: seq<Param>)
    ensures forall i :: 0 <= i < |r| ==> IsGroupName(r[i].name)
  {
    if filters == [] then []
    else FilterParams(filters[..|filters| - 1]) + FilterParamsOf(filters[|filters| - 1])
  }

  /** Taking one more filter adds that filter's parameters at the end. */
  lemma FilterParamsStep(filters: seq<Filter>, i: nat)
    requires i < |filters|
    ensures FilterParams(filters[..i + 1]) == FilterParams(filters[..i]) + FilterParamsOf(filters[i])
  {
    assert filters[..i + 1][..i] == filters[..i];
  }

  /** Filter `f` is a check-box group sent as `name` with a ticked option whose id is `value`. */
  predicate Selects(f: Filter, name: string, value: string) {
    QueryName(f) == Some(name) &&
    exists k :: 0 <= k < |f.options| && f.options[k].state && f.options[k].id == value
  }

  lemma {:induction false} SelectedParamsAppend(name: string, a: seq<CheckBox>, b: seq<CheckBox>)
    ensures SelectedParams(name, a + b) == SelectedParams(name, a) + SelectedParams(name, b)
    decreases |b|
  {
    if b == [] {
      assert a + b == a;
    } else {
      var b' := b[..|b| - 1];
      assert (a + b)[..|a + b| - 1] == a + b';
      SelectedParamsAppend(name, a, b');
    }
  }

  /** A parameter is produced for an option list exactly when some ticked option carries its id. */
  lemma {:induction false} SelectedParamsMembership(name: string, options: seq<CheckBox>, p: Param)
    ensures p in SelectedParams(name, options) <==>
            p.name == name && exists k :: 0 <= k < |options| && options[k].state && options[k].id == p.value
    decreases |options|
  {
    if options != [] {
      var init := options[..|options| - 1];
      SelectedParamsMembership(name, init, p);
      if exists k :: 0 <= k < |options| && options[k].state && options[k].id == p.value {
        var k :| 0 <= k < |options| && options[k].state && options[k].id == p.value;
        if k < |init| {
          assert init[k] == options[k];
        }
      }
    }
  }

  /** An option list with nothing ticked sends nothing. */
  lemma {:induction false} NothingSelected(name: string, options: seq<CheckBox>)
    requires forall k :: 0 <= k < |options| ==> !options[k].state
    ensures SelectedParams(name, options) == []
    decreases |options|
  {
    if options != [] {
      NothingSelected(name, options[..|options| - 1]);
    }
  }

  /** The parameters of concatenated filter lists are concatenated in the same order. */
  lemma {:induction false} FilterParamsAppend(a: seq<Filter>, b: seq<Filter>)
    ensures FilterParams(a + b) == FilterParams(a) + FilterParams(b)
    decreases |b|
  {
    if b == [] {
      assert a + b == a;
    } else {
      var b' := b[..|b| - 1];
      var f := b[|b| - 1];
      assert (a + b)[..|a + b| - 1] == a + b';
      assert (a + b)[|a + b| - 1] == f;
      assert FilterParams(a + b) == FilterParams(a + b') + FilterParamsOf(f);
      assert FilterParams(b) == FilterParams(b') + FilterParamsOf(f);
      FilterParamsAppend(a, b');
    }
  }

  /** A separator or a filter of another kind can be removed without changing the query. */
  lemma IgnoredFilterContributesNothing(a: seq<Filter>, f: Filter, b: seq<Filter>)
    requires f.Separator? || f.OtherFilter?
    ensures FilterParams(a + [f] + b) == FilterParams(a + b)
  {
    FilterParamsAppend(a + [f], b);
    FilterParamsAppend(a, b);
    assert (a + [f])[..|a|] == a;
    assert FilterParamsOf(f) == [];
    assert FilterParams(a + [f]) == FilterParams(a);
  }

  /**
    A parameter is in the filter part of a query exactly when some filter is a
    check-box group of that name with a ticked option of that id.
  */
  lemma {:induction false} FilterParamsMembership(filters: seq<Filter>, p: Param)
    ensures p in FilterParams(filters) <==> exists i :: 0 <= i < |filters| && Selects(filters[i], p.name, p.value)
    decreases |filters|
  {
    if filters != [] {
      var init := filters[..|filters| - 1];
      var f := filters[|filters| - 1];
      FilterParamsMembership(init, p);
      assert FilterParams(filters) == FilterParams(init) + FilterParamsOf(f);
      assert p in FilterParamsOf(f) <==> Selects(f, p.name, p.value) by {
        match QueryName(f) {
          case None =>
          case Some(name) => SelectedParamsMembership(name, f.options, p);
        }
      }
      SomeSelects(filters, p);
    }
  }

  /** Some filter of a non-empty list selects `p` exactly when one of the earlier ones or the last one does. */
  lemma SomeSelects(filters: seq<Filter>, p: Param)
    requires filters != []
    ensures var init := filters[..|filters| - 1];
            (exists i :: 0 <= i < |filters| && Selects(filters[i], p.name, p.value)) <==>
            (exists i :: 0 <= i < |init| && Selects(init[i], p.name, p.value)) ||
            Selects(filters[|filters| - 1], p.name, p.value)
  {
    var init := filters[..|filters| - 1];
    if exists i :: 0 <= i < |filters| && Selects(filters[i], p.name, p.value) {
      var i :| 0 <= i < |filters| && Selects(filters[i], p.name, p.value);
      if i < |init| {
        assert init[i] == filters[i];
      }
    }
    if exists i :: 0 <= i < |init| && Selects(init[i], p.name, p.value) {
      var i :| 0 <= i < |init| && Selects(init[i], p.name, p.value);
      assert filters[i] == init[i];
    }
  }

  /** A filter list in which no check box is ticked sends no filter parameters. */
  lemma {:induction false} NoFilterSelected(filters: seq<Filter>)
    requires forall i, k :: 0 <= i < |filters| && QueryName(filters[i]).Some? && 0 <= k < |filters[i].options|
                            ==> !filters[i].options[k].state
    ensures FilterParams(filters) == []
    decreases |filters|
  {
    if filters != [] {
      var f := filters[|filters| - 1];
      NoFilterSelected(filters[..|filters| - 1]);
      if QueryName(f).Some? {
        NothingSelected(QueryName(f).value, f.options);
      }
    }
  }

  // The filter list shown to the user (`getFilterList`), every box unticked.

  /** Unticked check boxes from (display name, id) pairs. */
  function Unticked(entries: seq<(string, string)>): (r: seq<CheckBox>)
    ensures |r| == |entries|
    ensures forall k :: 0 <= k < |r| ==> r[k] == CheckBox(entries[k].0, entries[k].1, false)
  {
    seq(|entries|, k requires 0 <= k < |entries| => CheckBox(entries[k].0, entries[k].1, false))
  }

  /** `getTypeList`: the five publication types, ids 1 to 5 in order, none ticked. */
  function TypeOptions(): (r: seq<CheckBox>)
    ensures |r| == 5
    ensures forall k :: 0 <= k < |r| ==> !r[k].state && r[k].id == IntToString(k + 1)
  {
    Unticked([("Manga", "1"), ("Manhwa", "2"), ("Manhua", "3"), ("One shot", "4"), ("Doujinshi", "5")])
  }

  /** `getStatusList`: the three publication states, ids 1 to 3 in order, none ticked. */
  function StatusOptions(): (r: seq<CheckBox>)
    ensures |r| == 3
    ensures forall k :: 0 <= k < |r| ==> !r[k].state && r[k].id == IntToString(k + 1)
  {
    Unticked([("Activo", "1"), ("Finalizado", "2"), ("Inconcluso", "3")])
  }

  /** `getGenreList`: the 48 genres in the site's display order, none ticked. */
  function GenreOptions(): (r: seq<CheckBox>)
    ensures |r| == 48
    ensures forall k :: 0 <= k < |r| ==> !r[k].state
  {
    Unticked([("Acción", "1"), ("Artes marciales", "2"), ("Automóviles", "3"), ("Aventura", "4"),
      ("Ciencia Ficción", "5"), ("Comedia", "6"), ("Demonios", "7"), ("Deportes", "8"),
      ("Doujinshi", "9"), ("Drama", "10"), ("Ecchi", "11"), ("Espacio exterior", "12"),
      ("Fantasía", "13"), ("Gender bender", "14"), ("Gore", "46"), ("Harem", "15"),
      ("Hentai", "16"), ("Histórico", "17"), ("Horror", "18"), ("Josei", "19"),
      ("Juegos", "20"), ("Locura", "21"), ("Magia", "22"), ("Mecha", "23"),
      ("Militar", "24"), ("Misterio", "25"), ("Música", "26"), ("Niños", "27"),
      ("Parodia", "28"), ("Policía", "29"), ("Psicológico", "30"), ("Recuentos de la vida", "31"),
      ("Romance", "32"), ("Samurai", "33"), ("Seinen", "34"), ("Shoujo", "35"),
      ("Shoujo Ai", "36"), ("Shounen", "37"), ("Shounen Ai", "38"), ("Sobrenatural", "39"),
      ("Súperpoderes", "41"), ("Suspenso", "40"), ("Terror", "47"), ("Tragedia", "48"),
      ("Vampiros", "42"), ("Vida escolar", "43"), ("Yaoi", "44"), ("Yuri", "45")])
  }

  /** `getFilterList`: types, a separator, statuses, a separator, genres. */
  function GetFilterList(): (r: seq<Filter>)
    ensures |r| == 5
    ensures r[0].TypeList? && r[1].Separator? && r[2].StatusList? && r[3].Separator? && r[4].GenreList?
  {
    [TypeList(TypeOptions()), Separator, StatusList(StatusOptions()), Separator, GenreList(GenreOptions())]
  }

  /** The filter list as first shown sends no filter parameters. */
  lemma DefaultFiltersSendNothing()
    ensures FilterParams(GetFilterList()) == []
  {
    var fs := GetFilterList();
    forall i, k | 0 <= i < |fs| && QueryName(fs[i]).Some? && 0 <= k < |fs[i].options|
      ensures !fs[i].options[k].state
    {
    }
    NoFilterSelected(fs);
  }
}
