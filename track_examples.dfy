/**
 * The query builder on the concrete inputs of the repository's unit tests
 * (test/track.spec.ts) and on a few inputs that show its edge cases.
 */
module TrackExamples {
  import opened Wrappers
  import opened JsString
  import opened StringObject
  import opened Track

  // ------------------------------------------------------------ the table

  lemma TableKeys()
    ensures KeysOf(Categories) == ["name", "composer", "album", "genre", "artist"]
  {
  }

  /** Each category key reads its column. */
  lemma TableLookups()
    ensures HasKey(Categories, "name") && Get(Categories, "name") == Entry("name", "t.Name")
    ensures HasKey(Categories, "composer") && Get(Categories, "composer") == Entry("composer", "t.Composer")
    ensures HasKey(Categories, "album") && Get(Categories, "album") == Entry("album", "a.Title")
    ensures HasKey(Categories, "genre") && Get(Categories, "genre") == Entry("genre", "g.Name")
    ensures HasKey(Categories, "artist") && Get(Categories, "artist") == Entry("artist", "art.Name")
  {
    CategoryTableWellFormed();
    GetOfEntry(Categories, Entry("name", "t.Name"));
    GetOfEntry(Categories, Entry("composer", "t.Composer"));
    GetOfEntry(Categories, Entry("album", "a.Title"));
    GetOfEntry(Categories, Entry("genre", "g.Name"));
    GetOfEntry(Categories, Entry("artist", "art.Name"));
  }

  /** "all" and "tempo" are no category. */
  lemma NotCategories()
    ensures !HasKey(Categories, "all") && !HasKey(Categories, "tempo")
  {
    TableKeys();
  }

  /** "all", the empty string and no selector all select the whole table. */
  lemma AllSelectorsGiveFullTable()
    ensures GetCategories(None) == Categories
    ensures GetCategories(Some("all")) == Categories
    ensures GetCategories(Some("")) == Categories
  {
  }

  // ------------------------------------------------------------ conditions

  lemma NameClause()
    ensures Clause(Entry("name", "t.Name")) == "t.Name like @name"
  {
  }

  lemma ComposerClause()
    ensures Clause(Entry("composer", "t.Composer")) == "t.Composer like @composer"
  {
  }

  lemma AlbumClause()
    ensures Clause(Entry("album", "a.Title")) == "a.Title like @album"
  {
  }

  lemma GenreClause()
    ensures Clause(Entry("genre", "g.Name")) == "g.Name like @genre"
  {
  }

  lemma ArtistClause()
    ensures Clause(Entry("artist", "art.Name")) == "art.Name like @artist"
  {
  }

  /** The first `n` entries and the next one are the first `n + 1` entries. */
  lemma TakeOneMore(m: Mapping, n: nat)
    requires n < |m|
    ensures m[..n] + [m[n]] == m[..n + 1]
  {
  }

  // --------------------------------------------------------- WHERE fragment

  /** The WHERE text the tests expect for all five categories. */
  const FullWhere: string :=
    "where " + "t.Name like @name" + " or " + "t.Composer like @composer"
    + " or " + "a.Title like @album" + " or " + "g.Name like @genre"
    + " or " + "art.Name like @artist"

  /** Each further entry of a prefix adds " or " and its condition. */
  lemma WhereOfLongerPrefix(m: Mapping, n: nat, text: string)
    requires 1 <= n < |m| && GetWhere(m[..n]) == text
    ensures GetWhere(m[..n + 1]) == text + " or " + Clause(m[n])
  {
    TakeOneMore(m, n);
    WhereAppend(m[..n], m[n]);
  }

  lemma WhereOfFirstTwo()
    ensures GetWhere(Categories[..2])
      == "where " + "t.Name like @name" + " or " + "t.Composer like @composer"
  {
    var c := Categories;
    assert c[..1] == [c[0]];
    WhereOfOne(c[0]);
    NameClause();
    WhereOfLongerPrefix(c, 1, "where " + "t.Name like @name");
    ComposerClause();
  }

  lemma WhereOfFirstThree(text: string)
    requires GetWhere(Categories[..2]) == text
    ensures GetWhere(Categories[..3]) == text + " or " + "a.Title like @album"
  {
    WhereOfLongerPrefix(Categories, 2, text);
    AlbumClause();
  }

  lemma WhereOfFirstFour(text: string)
    requires GetWhere(Categories[..3]) == text
    ensures GetWhere(Categories[..4]) == text + " or " + "g.Name like @genre"
  {
    WhereOfLongerPrefix(Categories, 3, text);
    GenreClause();
  }

  lemma WhereOfAllFive(text: string)
    requires GetWhere(Categories[..4]) == text
    ensures GetWhere(Categories) == text + " or " + "art.Name like @artist"
  {
    CategoryTableWellFormed();
    WhereOfLongerPrefix(Categories, 4, text);
    assert Categories[..|Categories|] == Categories;
    ArtistClause();
  }

  /** The whole table gives one condition per category, in table order. */
  lemma FullWhereForAll()
    ensures GetWhere(GetCategories(Some("all"))) == FullWhere
  {
    var w2 := "where " + "t.Name like @name" + " or " + "t.Composer like @composer";
    var w3 := w2 + " or " + "a.Title like @album";
    var w4 := w3 + " or " + "g.Name like @genre";
    WhereOfFirstTwo();
    WhereOfFirstThree(w2);
    WhereOfFirstFour(w3);
    WhereOfAllFive(w4);
  }

  // ---------------------------------------------------------------- filters

  lemma KeywordTestNotBlank()
    ensures !IsBlank(Some("test"))
  {
    TrimOfTrimmed("test");
  }

  lemma TestPattern()
    ensures LikePattern("test") == "%test%"
  {
  }

  /** A keyword over "all" gives the full WHERE text. */
  lemma FullFiltersWhere()
    ensures GetFilters(Some("test"), Some("all")).where == FullWhere
  {
    KeywordTestNotBlank();
    FullWhereForAll();
  }

  /** A keyword over "all" binds every category, in table order, to the keyword wrapped in '%'. */
  lemma FullFiltersParams()
    ensures KeysOf(GetFilters(Some("test"), Some("all")).params)
      == ["name", "composer", "album", "genre", "artist"]
    ensures forall e :: e in GetFilters(Some("test"), Some("all")).params ==> e.value == "%test%"
  {
    KeywordTestNotBlank();
    TestPattern();
    TableKeys();
  }

  // ------------------------------------------------------ selective searches

  /** A selector other than "all" or "" picks the table entries its tokens name. */
  lemma SelectorPicks(text: string, tokens: seq<string>)
    requires text != "all" && text != "" && CategoryTokens(text) == tokens
    ensures GetCategories(Some(text)) == Pick(Categories, tokens)
  {
  }

  /** Picking one present key gives its entry. */
  lemma PickOne(k: string)
    requires HasKey(Categories, k)
    ensures Pick(Categories, [k]) == [Get(Categories, k)]
  {
    PickDistinctPresent(Categories, [k]);
  }

  /** Picking two distinct present keys gives their entries, in that order. */
  lemma PickTwo(k0: string, k1: string)
    requires HasKey(Categories, k0) && HasKey(Categories, k1) && k0 != k1
    ensures Pick(Categories, [k0, k1]) == [Get(Categories, k0), Get(Categories, k1)]
  {
    PickDistinctPresent(Categories, [k0, k1]);
  }

  /** Picking a key a second time adds nothing. */
  lemma PickRepeat(init: seq<string>, p: string)
    requires HasKey(Pick(Categories, init), p)
    ensures Pick(Categories, init + [p]) == Pick(Categories, init)
  {
    PickStep(Categories, init, p);
  }

  /** Picking a key the table lacks adds nothing. */
  lemma PickMissing(init: seq<string>, p: string)
    requires !HasKey(Categories, p)
    ensures Pick(Categories, init + [p]) == Pick(Categories, init)
  {
    PickStep(Categories, init, p);
  }

  lemma NameTokens()
    ensures CategoryTokens("name") == ["name"]
  {
    assert Join(["name"], [',']) == "name";
    CategoryTokensOfList(["name"]);
  }

  lemma PickName()
    ensures Pick(Categories, ["name"]) == [Entry("name", "t.Name")]
  {
    TableLookups();
    PickOne("name");
  }

  /** "name" selects the one category. */
  lemma SingleCategory()
    ensures GetCategories(Some("name")) == [Entry("name", "t.Name")]
  {
    NameTokens();
    SelectorPicks("name", ["name"]);
    PickName();
  }

  /** The WHERE text for "name" has its one condition. */
  lemma SingleCategoryWhere()
    ensures GetWhere(GetCategories(Some("name"))) == "where " + "t.Name like @name"
  {
    SingleCategory();
    WhereOfOne(Entry("name", "t.Name"));
    NameClause();
  }

  lemma ComposerAlbumTokens()
    ensures CategoryTokens("composer,album") == ["composer", "album"]
  {
    assert Join(["composer", "album"], [',']) == "composer,album";
    CategoryTokensOfList(["composer", "album"]);
  }

  lemma PickComposerAlbum()
    ensures Pick(Categories, ["composer", "album"])
      == [Entry("composer", "t.Composer"), Entry("album", "a.Title")]
  {
    TableLookups();
    PickTwo("composer", "album");
  }

  /** "composer,album" selects those two. */
  lemma TwoCategories()
    ensures GetCategories(Some("composer,album"))
      == [Entry("composer", "t.Composer"), Entry("album", "a.Title")]
  {
    ComposerAlbumTokens();
    SelectorPicks("composer,album", ["composer", "album"]);
    PickComposerAlbum();
  }

  lemma WhereOfComposerAlbum()
    ensures GetWhere([Entry("composer", "t.Composer"), Entry("album", "a.Title")])
      == "where " + "t.Composer like @composer" + " or " + "a.Title like @album"
  {
    var e0, e1 := Entry("composer", "t.Composer"), Entry("album", "a.Title");
    WhereOfOne(e0);
    WhereAppend([e0], e1);
    assert [e0] + [e1] == [e0, e1];
    ComposerClause();
    AlbumClause();
  }

  /** The WHERE text for "composer,album" has their two conditions, in that order. */
  lemma TwoCategoriesWhere()
    ensures GetWhere(GetCategories(Some("composer,album")))
      == "where " + "t.Composer like @composer" + " or " + "a.Title like @album"
  {
    TwoCategories();
    WhereOfComposerAlbum();
  }

  // ------------------------------------------------------- padded selector

  /** One space either side of a text with non-blank ends is trimmed away. */
  lemma TrimOfSpaced(inner: string)
    requires inner != [] && !IsWhitespace(inner[0]) && !IsWhitespace(inner[|inner| - 1])
    ensures Trim(" " + inner + " ") == inner
  {
    TrimIgnoresPadding(" ", inner, " ");
    TrimOfTrimmed(inner);
  }

  /** One space before a text with non-blank ends is trimmed away. */
  lemma TrimOfIndented(inner: string)
    requires inner != [] && !IsWhitespace(inner[0]) && !IsWhitespace(inner[|inner| - 1])
    ensures Trim(" " + inner) == inner
  {
    TrimIgnoresPadding(" ", inner, "");
    assert " " + inner + "" == " " + inner;
    TrimOfTrimmed(inner);
  }

  lemma PaddedSelectorLowered()
    ensures ToLower(" composer, album ") == " composer, album "
  {
    ToLowerOfLower(" composer, album ");
  }

  lemma PaddedSelectorTrimmed()
    ensures Trim(" composer, album ") == "composer, album"
  {
    assert " " + "composer, album" + " " == " composer, album ";
    TrimOfSpaced("composer, album");
  }

  lemma PaddedPiecesJoined()
    ensures Join(["composer", " album"], [',']) == "composer, album"
  {
  }

  lemma PaddedSelectorNormal()
    ensures Trim(ToLower(" composer, album ")) == Join(["composer", " album"], [','])
  {
    PaddedSelectorLowered();
    PaddedSelectorTrimmed();
    PaddedPiecesJoined();
  }

  lemma PaddedAlbumTrimmed()
    ensures Trim(" album") == "album"
  {
    assert " " + "album" == " album";
    TrimOfIndented("album");
  }

  lemma ComposerTrimmed()
    ensures Trim("composer") == "composer"
  {
    TrimOfTrimmed("composer");
  }

  /** A selector that normalises to two comma-free pieces has those pieces, trimmed, as tokens. */
  lemma TokensOfTwo(text: string, p0: string, p1: string, t0: string, t1: string)
    requires ',' !in p0 && ',' !in p1
    requires Trim(ToLower(text)) == Join([p0, p1], [','])
    requires Trim(p0) == t0 && Trim(p1) == t1
    ensures CategoryTokens(text) == [t0, t1]
  {
    TokensOfNormalised(text, [p0, p1], [t0, t1]);
  }

  lemma PaddedPiecesPlain()
    ensures ',' !in "composer" && ',' !in " album"
  {
  }

  lemma PaddedTokens()
    ensures CategoryTokens(" composer, album ") == ["composer", "album"]
  {
    PaddedSelectorNormal();
    PaddedPiecesPlain();
    ComposerTrimmed();
    PaddedAlbumTrimmed();
    TokensOfTwo(" composer, album ", "composer", " album", "composer", "album");
  }

  /** Spaces around the selector and around each token are ignored. */
  lemma PaddedCategories()
    ensures GetCategories(Some(" composer, album "))
      == [Entry("composer", "t.Composer"), Entry("album", "a.Title")]
  {
    PaddedTokens();
    SelectorPicks(" composer, album ", ["composer", "album"]);
    PickComposerAlbum();
  }

  // ------------------------------------------------ order, repeats, unknowns

  lemma RepeatTokens()
    ensures CategoryTokens("album,composer,album") == ["album", "composer", "album"]
  {
    assert Join(["album", "composer", "album"], [',']) == "album,composer,album";
    CategoryTokensOfList(["album", "composer", "album"]);
  }

  lemma PickAlbumComposer()
    ensures Pick(Categories, ["album", "composer"])
      == [Entry("album", "a.Title"), Entry("composer", "t.Composer")]
  {
    TableLookups();
    PickTwo("album", "composer");
  }

  lemma AlbumComposerPicked()
    ensures HasKey(Pick(Categories, ["album", "composer"]), "album")
  {
    PickAlbumComposer();
    assert KeysOf([Entry("album", "a.Title"), Entry("composer", "t.Composer")]) == ["album", "composer"];
  }

  /** Naming the first of two picked keys again leaves the pick as it is. */
  lemma PickFirstAgain(k0: string, k1: string, r: Mapping)
    requires Pick(Categories, [k0, k1]) == r && HasKey(r, k0)
    ensures Pick(Categories, [k0, k1, k0]) == r
  {
    PickRepeat([k0, k1], k0);
    assert [k0, k1] + [k0] == [k0, k1, k0];
  }

  lemma PickAlbumComposerAlbum()
    ensures Pick(Categories, ["album", "composer", "album"])
      == [Entry("album", "a.Title"), Entry("composer", "t.Composer")]
  {
    AlbumComposerPicked();
    PickAlbumComposer();
    PickFirstAgain("album", "composer", [Entry("album", "a.Title"), Entry("composer", "t.Composer")]);
  }

  /** The result follows the caller's token order, not the table's, and a repeat adds nothing. */
  lemma CallerOrderKept()
    ensures GetCategories(Some("album,composer,album"))
      == [Entry("album", "a.Title"), Entry("composer", "t.Composer")]
  {
    RepeatTokens();
    SelectorPicks("album,composer,album", ["album", "composer", "album"]);
    PickAlbumComposerAlbum();
  }

  lemma GenreTempoTokens()
    ensures CategoryTokens("genre,tempo") == ["genre", "tempo"]
  {
    assert Join(["genre", "tempo"], [',']) == "genre,tempo";
    CategoryTokensOfList(["genre", "tempo"]);
  }

  lemma PickGenre()
    ensures Pick(Categories, ["genre"]) == [Entry("genre", "g.Name")]
  {
    TableLookups();
    PickOne("genre");
  }

  lemma PickGenreTempo()
    ensures Pick(Categories, ["genre", "tempo"]) == [Entry("genre", "g.Name")]
  {
    PickGenre();
    NotCategories();
    PickMissing(["genre"], "tempo");
    assert ["genre"] + ["tempo"] == ["genre", "tempo"];
  }

  /** Unknown tokens are dropped. */
  lemma UnknownTokensDropped()
    ensures GetCategories(Some("genre,tempo")) == [Entry("genre", "g.Name")]
  {
    GenreTempoTokens();
    SelectorPicks("genre,tempo", ["genre", "tempo"]);
    PickGenreTempo();
  }

  // ---------------------------------------------------------- upper-case ALL

  /** A selector that normalises to one comma-free piece has that piece, trimmed, as its token. */
  lemma TokensOfOne(text: string, p: string, t: string)
    requires ',' !in p && Trim(ToLower(text)) == p && Trim(p) == t
    ensures CategoryTokens(text) == [t]
  {
    assert Join([p], [',']) == p;
    TokensOfNormalised(text, [p], [t]);
  }

  lemma UpperAllLowered()
    ensures ToLower("ALL") == "all"
  {
  }

  lemma UpperAllNormal()
    ensures Trim(ToLower("ALL")) == "all" && Trim("all") == "all"
  {
    UpperAllLowered();
    TrimOfTrimmed("all");
  }

  lemma UpperAllTokens()
    ensures CategoryTokens("ALL") == ["all"]
  {
    UpperAllNormal();
    TokensOfOne("ALL", "all", "all");
  }

  lemma PickAll()
    ensures Pick(Categories, ["all"]) == []
  {
    NotCategories();
    PickMissing([], "all");
    assert [] + ["all"] == ["all"];
  }

  /**
   * The "all" test reads the selector as written: "ALL" lowers to the token
   * "all", which is no category, so nothing is selected.
   */
  lemma UpperCaseAllSelectsNothing()
    ensures GetCategories(Some("ALL")) == []
  {
    UpperAllTokens();
    SelectorPicks("ALL", ["all"]);
    PickAll();
  }

  /** With "ALL" as the selector even a real keyword filters nothing. */
  lemma UpperCaseAllFiltersNothing(keyword: string)
    ensures GetFilters(Some(keyword), Some("ALL")) == Filters("", [])
  {
    UpperCaseAllSelectsNothing();
  }

  // ----------------------------------------------------------------- paging

  /**
   * The paging cases: offset first, 0 by default, sign dropped, non-integers
   * read as 0, and the truthiness of the raw limit deciding whether there is
   * a clause at all.
   */
  lemma LimitClauses()
    ensures LimitClause(Num(10), Num(0)) == "limit 0,10"
    ensures LimitClause(Num(2), Absent) == "limit 0,2"
    ensures LimitClause(Num(10), Num(-5)) == "limit 5,10"
    ensures LimitClause(Num(-3), Arg(true, None)) == "limit 0,3"
    ensures LimitClause(Arg(true, None), Num(4)) == "limit 4,0"
    ensures LimitClause(Num(0), Num(7)) == ""
    ensures LimitClause(Absent, Num(7)) == ""
  {
  }

  /** Query-string text: "0" is truthy, so `?limit=0` asks for no rows rather than for all of them. */
  lemma TextLimitClauses()
    ensures LimitClause(Arg(true, Some(0)), Absent) == "limit 0,0"
    ensures LimitClause(Arg(true, Some(20)), Arg(true, Some(40))) == "limit 40,20"
    ensures LimitClause(Arg(false, Some(0)), Arg(true, Some(40))) == ""
  {
  }
}
