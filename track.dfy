/**
 * The query builder of the track search (app/track.ts): which categories a
 * search looks in, the WHERE fragment with its named parameters, the integer
 * sanitising of the paging arguments, and the LIMIT clause.
 */
module Track {
  import opened Wrappers
  import opened JsString
  import opened StringObject

  /** The searchable categories and the column each one searches, in declaration order. */
  const Categories: Mapping := [
    Entry("name", "t.Name"),
    Entry("composer", "t.Composer"),
    Entry("album", "a.Title"),
    Entry("genre", "g.Name"),
    Entry("artist", "art.Name")
  ]

  /** The table has five categories and no key twice. */
  lemma CategoryTableWellFormed()
    ensures |Categories| == 5 && UniqueKeys(Categories)
  {
  }

  // ---------------------------------------------------------------- categories

  /**
   * A string argument once its default parameter value applies: only an
   * absent (`undefined`) argument takes the default; a passed one, even the
   * empty string, is used as written.
   */
  function ArgText(arg: Option<string>, default: string): (t: string)
    ensures arg.None? ==> t == default
    ensures arg.Some? ==> t == arg.value
  {
    arg.GetOr(default)
  }

  /** The default of `category`: every category. */
  const DefaultCategory := "all"

  /** The default of `keyword`: no keyword. */
  const DefaultKeyword := ""

  /** The selector, exactly as written after its default, is "all" or empty. */
  predicate SelectsAll(category: Option<string>)
    ensures SelectsAll(category) <==> category.None? || category.value == "all" || category.value == ""
  {
    var text := ArgText(category, DefaultCategory);
    text == "all" || text == ""
  }

  /** The selector lowered and trimmed, cut at every comma, each piece trimmed. */
  function CategoryTokens(text: string): (tokens: seq<string>)
    ensures |tokens| >= 1
    ensures forall i :: 0 <= i < |tokens| ==> ',' !in tokens[i] && Trim(tokens[i]) == tokens[i]
    ensures forall i :: 0 <= i < |tokens| ==> AllChars(tokens[i], NotUpper)
  {
    var parts := Split(Trim(ToLower(text)), ',');
    PiecesTrimmed(ToLower(text), parts);
    seq(|parts|, i requires 0 <= i < |parts| => Trim(parts[i]))
  }

  predicate NotUpper(c: char)
  {
    !IsAsciiUpper(c)
  }

  /** The pieces of a lowered, trimmed selector trim to comma-free, lower-case, trimmed tokens. */
  lemma PiecesTrimmed(lowered: string, parts: seq<string>)
    requires AllChars(lowered, NotUpper)
    requires parts == Split(Trim(lowered), ',')
    ensures forall i :: 0 <= i < |parts| ==>
      && ',' !in Trim(parts[i]) && Trim(Trim(parts[i])) == Trim(parts[i])
      && AllChars(Trim(parts[i]), NotUpper)
  {
    TrimAllChars(lowered, NotUpper);
    SplitAllChars(Trim(lowered), ',', NotUpper);
    forall i | 0 <= i < |parts|
      ensures ',' !in Trim(parts[i]) && Trim(Trim(parts[i])) == Trim(parts[i])
      ensures AllChars(Trim(parts[i]), NotUpper)
    {
      TrimAllChars(parts[i], c => c != ',');
      TrimAllChars(parts[i], NotUpper);
      TrimIdempotent(parts[i]);
    }
  }

  /**
   * `getCategories`: the whole table for "all", "" or no selector; otherwise
   * the table entries whose keys are among the tokens, each key once, any
   * other token dropped.
   */
  function GetCategories(category: Option<string>): (r: Mapping)
    ensures SelectsAll(category) ==> r == Categories
    ensures !SelectsAll(category) ==>
      forall k :: HasKey(r, k) <==> HasKey(Categories, k) && k in CategoryTokens(ArgText(category, DefaultCategory))
    ensures forall e :: e in r ==> e in Categories
    ensures UniqueKeys(r)
  {
    var text := ArgText(category, DefaultCategory);
    if text == "all" || text == "" then Categories
    else Pick(Categories, CategoryTokens(text))
  }

  predicate IsLowerLetter(c: char)
  {
    'a' <= c <= 'z'
  }

  /** Lower-case words joined by commas are left alone by lowering and trimming. */
  lemma JoinedWordsNormal(words: seq<string>)
    requires |words| >= 1
    requires forall i :: 0 <= i < |words| ==> |words[i]| > 0 && AllChars(words[i], IsLowerLetter)
    ensures Trim(ToLower(Join(words, [',']))) == Join(words, [','])
  {
    var text := Join(words, [',']);
    var P := (c: char) => IsLowerLetter(c) || c == ',';
    forall i | 0 <= i < |words| ensures AllChars(words[i], P) {
      assert AllChars(words[i], IsLowerLetter);
    }
    JoinAllChars(words, [','], P);
    ToLowerOfLower(text);
    var last := words[|words| - 1];
    JoinEndsWithLast(words, [',']);
    assert text[|text| - 1] == last[|last| - 1];
    assert text[0] == words[0][0];
    TrimOfTrimmed(text);
  }

  lemma WordsArePlain(words: seq<string>)
    requires forall i :: 0 <= i < |words| ==> |words[i]| > 0 && AllChars(words[i], IsLowerLetter)
    ensures forall i :: 0 <= i < |words| ==> ',' !in words[i] && Trim(words[i]) == words[i]
  {
    forall i | 0 <= i < |words| ensures ',' !in words[i] && Trim(words[i]) == words[i] {
      var w := words[i];
      assert AllChars(w, IsLowerLetter);
      assert IsLowerLetter(w[0]) && IsLowerLetter(w[|w| - 1]);
      TrimOfTrimmed(w);
    }
  }

  /**
   * A selector written as lower-case words joined by commas, with no spaces,
   * gives exactly those words as its tokens.
   */
  lemma CategoryTokensOfList(words: seq<string>)
    requires |words| >= 1
    requires forall i :: 0 <= i < |words| ==> |words[i]| > 0 && AllChars(words[i], IsLowerLetter)
    ensures CategoryTokens(Join(words, [','])) == words
  {
    WordsArePlain(words);
    JoinedWordsNormal(words);
    TokensOfNormalised(Join(words, [',']), words, words);
  }

  /**
   * The tokens of a selector whose lowered and trimmed form is `parts` joined
   * by commas are those parts, each trimmed.
   */
  lemma TokensOfNormalised(text: string, parts: seq<string>, tokens: seq<string>)
    requires |parts| >= 1 && forall i :: 0 <= i < |parts| ==> ',' !in parts[i]
    requires Trim(ToLower(text)) == Join(parts, [','])
    requires |tokens| == |parts| && forall i :: 0 <= i < |parts| ==> Trim(parts[i]) == tokens[i]
    ensures CategoryTokens(text) == tokens
  {
    SplitJoin(parts, ',');
  }

  /** A selective result lists its categories in the order the selector first names them. */
  lemma CategoriesFollowTokenOrder(category: Option<string>)
    requires !SelectsAll(category)
    ensures InPathOrder(GetCategories(category), CategoryTokens(ArgText(category, DefaultCategory)))
  {
    PickFollowsPathOrder(Categories, CategoryTokens(ArgText(category, DefaultCategory)));
  }

  // ------------------------------------------------------------------- where

  /** One search condition, `<column> like @<key>`. */
  function Clause(e: Entry): (c: string)
    ensures ' ' !in e.value ==> ParseClause(c) == Some(e)
  {
    var c := e.value + " like @" + e.key;
    if ' ' in e.value then c
    else
      assert c == e.value + (" like @" + e.key);
      IndexOfCharAfter(e.value, " like @" + e.key, ' ');
      assert c[|e.value|..|e.value| + 7] == " like @";
      assert c[|e.value| + 7..] == e.key;
      assert c[..|e.value|] == e.value;
      c
  }

  /** The `.map` over the keys: one condition per entry, in entry order, and no other. */
  function Clauses(m: Mapping): (cs: seq<string>)
    ensures |cs| == |m|
    ensures forall i :: 0 <= i < |m| ==> cs[i] == Clause(m[i])
    ensures forall c :: c in cs <==> exists e :: e in m && c == Clause(e)
  {
    seq(|m|, i requires 0 <= i < |m| => Clause(m[i]))
  }

  /**
   * `getWhere`: "where " and the conditions of the entries joined by " or ",
   * or the empty string when there is no entry.
   */
  function GetWhere(categories: Mapping): (r: string)
    ensures r == "" <==> categories == []
    ensures categories != [] ==> "where " <= r
  {
    var flattened := Join(Clauses(categories), " or ");
    assert categories != [] ==> Clause(categories[0]) <= flattened;
    if flattened != "" then "where " + flattened else ""
  }

  /** A single entry gives a single condition. */
  lemma WhereOfOne(e: Entry)
    ensures GetWhere([e]) == "where " + Clause(e)
  {
    assert Clauses([e]) == [Clause(e)];
  }

  /**
   * Reads a condition back into the entry it was built from: the column up
   * to the first space, and the key after ` like @`.
   */
  function ParseClause(c: string): Option<Entry>
  {
    var k := IndexOfChar(c, ' ');
    if k + 7 <= |c| && c[k..k + 7] == " like @" then Some(Entry(c[k + 7..], c[..k])) else None
  }

  /** Every condition the table can produce reads back as its entry. */
  lemma TableClausesReadBack()
    ensures forall e :: e in Categories ==> ParseClause(Clause(e)) == Some(e)
  {
    forall e | e in Categories ensures ParseClause(Clause(e)) == Some(e) {
      assert ' ' !in e.value;
    }
  }

  lemma ClausesAppend(m: Mapping, e: Entry)
    ensures Clauses(m + [e]) == Clauses(m) + [Clause(e)]
  {
  }

  /** One more entry adds " or " and its condition at the end, in mapping order. */
  lemma WhereAppend(m: Mapping, e: Entry)
    requires m != []
    ensures GetWhere(m + [e]) == GetWhere(m) + " or " + Clause(e)
  {
    var j := Join(Clauses(m), " or ");
    var c := Clause(e);
    ClausesAppend(m, e);
    JoinAppend(Clauses(m), " or ", c);
    ConcatAssoc("where ", j + " or ", c);
    ConcatAssoc("where ", j, " or ");
  }

  /** The characters a WHERE fragment is made of: letters, '.', ' ' and '@'. */
  predicate IsWhereChar(c: char)
  {
    ('a' <= c <= 'z') || ('A' <= c <= 'Z') || c == '.' || c == ' ' || c == '@'
  }

  predicate WhereSafe(s: string)
  {
    AllChars(s, IsWhereChar)
  }

  /** The table's keys and columns are spelled from WHERE characters only. */
  lemma EntryIsWhereSafe(i: nat)
    requires i < |Categories|
    ensures WhereSafe(Categories[i].key) && WhereSafe(Categories[i].value)
  {
    if i == 0 {
      WordsAreWhereSafe("name", "t.Name");
    } else if i == 1 {
      WordsAreWhereSafe("composer", "t.Composer");
    } else if i == 2 {
      WordsAreWhereSafe("album", "a.Title");
    } else if i == 3 {
      WordsAreWhereSafe("genre", "g.Name");
    } else {
      WordsAreWhereSafe("artist", "art.Name");
    }
  }

  lemma WordsAreWhereSafe(key: string, column: string)
    requires forall i :: 0 <= i < |key| ==> 'a' <= key[i] <= 'z'
    requires forall i :: 0 <= i < |column| ==> 'a' <= column[i] <= 'z' || 'A' <= column[i] <= 'Z' || column[i] == '.'
    ensures WhereSafe(key) && WhereSafe(column)
  {
  }

  /** A condition over safe words is safe. */
  lemma ClauseIsWhereSafe(e: Entry)
    requires WhereSafe(e.key) && WhereSafe(e.value)
    ensures WhereSafe(Clause(e))
  {
    AllCharsConcat(e.value, " like @", IsWhereChar);
    AllCharsConcat(e.value + " like @", e.key, IsWhereChar);
  }

  /**
   * A WHERE fragment over table entries is spelled only from the table's keys
   * and columns and the fixed words: it holds no quote, no semicolon, no '%'.
   */
  lemma WhereOnlyFromTable(m: Mapping)
    requires forall e :: e in m ==> e in Categories
    ensures WhereSafe(GetWhere(m))
  {
    forall i | 0 <= i < |m| ensures WhereSafe(Clauses(m)[i]) {
      assert m[i] in Categories;
      var k :| 0 <= k < |Categories| && Categories[k] == m[i];
      EntryIsWhereSafe(k);
      ClauseIsWhereSafe(m[i]);
    }
    JoinAllChars(Clauses(m), " or ", IsWhereChar);
    AllCharsConcat("where ", Join(Clauses(m), " or "), IsWhereChar);
  }

  // ----------------------------------------------------------------- filters

  /** The WHERE fragment and the named parameters it binds. */
  datatype Filters = Filters(where: string, params: Mapping)

  /** The keyword is absent, empty or all white space. */
  predicate IsBlank(keyword: Option<string>)
    ensures IsBlank(keyword) <==> AllWhitespace(ArgText(keyword, DefaultKeyword))
  {
    TrimBlank(ArgText(keyword, DefaultKeyword));
    Trim(ArgText(keyword, DefaultKeyword)) == ""
  }

  /** The LIKE pattern that finds the keyword anywhere in a column. */
  function LikePattern(keyword: string): (p: string)
    ensures |p| == |keyword| + 2 && p[0] == '%' && p[|p| - 1] == '%'
    ensures p[1..|p| - 1] == keyword
  {
    "%" + keyword + "%"
  }

  /**
   * `getFilters`: nothing for a blank keyword; otherwise the WHERE fragment of
   * the selected categories and, for each of their keys, the keyword, untrimmed,
   * wrapped in '%'.
   */
  function GetFilters(keyword: Option<string>, category: Option<string>): (f: Filters)
    ensures IsBlank(keyword) ==> f.where == "" && f.params == []
    ensures !IsBlank(keyword) ==>
      && f.where == GetWhere(GetCategories(category))
      && KeysOf(f.params) == KeysOf(GetCategories(category))
      && forall e :: e in f.params ==> e.value == LikePattern(ArgText(keyword, DefaultKeyword))
  {
    if Trim(ArgText(keyword, DefaultKeyword)) == "" then Filters("", [])
    else
      var categories := GetCategories(category);
      Filters(GetWhere(categories), MapValuesTo(categories, LikePattern(ArgText(keyword, DefaultKeyword))))
  }

  /** An empty, absent or white-space-only keyword filters nothing, whatever the categories. */
  lemma BlankKeywordFiltersNothing(keyword: Option<string>, category: Option<string>)
    requires AllWhitespace(ArgText(keyword, DefaultKeyword))
    ensures GetFilters(keyword, category) == Filters("", [])
  {
    TrimBlank(ArgText(keyword, DefaultKeyword));
  }

  /**
   * The keyword never reaches the WHERE text: two searches with the same
   * categories and non-blank keywords get the same WHERE fragment, and that
   * fragment is spelled from the table alone.
   */
  lemma WhereIgnoresKeyword(k1: Option<string>, k2: Option<string>, category: Option<string>)
    requires !IsBlank(k1) && !IsBlank(k2)
    ensures GetFilters(k1, category).where == GetFilters(k2, category).where
    ensures WhereSafe(GetFilters(k1, category).where)
  {
    WhereOnlyFromTable(GetCategories(category));
  }

  // ------------------------------------------------------------------ paging

  /**
   * A numeric argument as JavaScript sees it: absent (`undefined`), or a raw
   * value (a number, or text from a query string) with its truthiness and the
   * integer `Number()` makes of it, `None` when that is NaN, a fraction or an
   * infinity. The number 0 is falsy and the text "0" truthy; both give 0.
   */
  datatype NumberArg = Absent | Arg(truthy: bool, integer: Option<int>)

  /** A number the caller passes as a number: truthy unless it is 0. */
  function Num(v: int): (r: NumberArg)
    ensures Truthy(r) <==> v != 0
    ensures r.Arg? && r.integer == Some(v)
  {
    Arg(v != 0, Some(v))
  }

  predicate Truthy(x: NumberArg)
    ensures x.Absent? ==> !Truthy(x)
  {
    x.Arg? && x.truthy
  }

  /** `safeInteger`: the absolute value of an integer, 0 for anything else. */
  function SafeInteger(x: NumberArg): (r: nat)
    ensures x.Arg? && x.integer.Some? ==> r == x.integer.value || r == -x.integer.value
    ensures !(x.Arg? && x.integer.Some?) ==> r == 0
  {
    match x
    case Arg(_, Some(v)) => if v < 0 then -v else v
    case _ => 0
  }

  /**
   * Sanitising discards the sign and nothing else: a sanitised value sanitises
   * to itself, and a number sanitises to 0 exactly when it is falsy.
   */
  lemma SafeIntegerSignless(t: bool, v: int)
    ensures SafeInteger(Arg(t, Some(-v))) == SafeInteger(Arg(t, Some(v)))
    ensures SafeInteger(Num(SafeInteger(Arg(t, Some(v))))) == SafeInteger(Arg(t, Some(v)))
    ensures SafeInteger(Num(v)) == 0 <==> !Truthy(Num(v))
  {
  }

  /** The `offset` argument once its default applies: an absent one reads as the number 0. */
  function OffsetOrDefault(offset: NumberArg): (r: NumberArg)
    ensures offset.Absent? ==> r == Num(0)
    ensures r.Arg?
    ensures offset.Arg? ==> r == offset
    ensures SafeInteger(r) == SafeInteger(offset)
  {
    if offset.Absent? then Num(0) else offset
  }

  /**
   * The LIMIT clause of `getTracks`: `limit <offset>,<limit>` when the limit is
   * truthy, the empty string otherwise.
   */
  function LimitClause(limit: NumberArg, offset: NumberArg): (r: string)
    ensures r == "" <==> !Truthy(limit)
    ensures Truthy(limit) ==> "limit " <= r
  {
    var offsetClause := NatToDecimal(SafeInteger(OffsetOrDefault(offset))) + ",";
    if Truthy(limit) then "limit " + offsetClause + NatToDecimal(SafeInteger(limit)) else ""
  }

  /** Reads the offset and the limit back out of a `limit <offset>,<limit>` clause. */
  function ParseLimitClause(clause: string): Option<(nat, nat)>
  {
    if |clause| < 6 || clause[..6] != "limit " then None
    else
      var parts := Split(clause[6..], ',');
      if |parts| != 2 then None
      else
        match (ParseDecimal(parts[0]), ParseDecimal(parts[1]))
        case (Some(o), Some(l)) => Some((o, l))
        case _ => None
  }

  /** A clause built from two numbers parses back to those numbers. */
  lemma ParseOfClause(o: nat, l: nat)
    ensures ParseLimitClause("limit " + NatToDecimal(o) + "," + NatToDecimal(l)) == Some((o, l))
  {
    var os, ls := NatToDecimal(o), NatToDecimal(l);
    var clause := "limit " + os + "," + ls;
    assert clause[..6] == "limit ";
    assert clause[6..] == os + [','] + ls;
    assert Join([os, ls], [',']) == os + [','] + ls;
    assert ',' !in os && ',' !in ls;
    SplitJoin([os, ls], ',');
    DecimalRoundTrip(o);
    DecimalRoundTrip(l);
  }

  /**
   * A truthy limit gives a clause that holds the sanitised offset (0 when it
   * is absent or not an integer) and then the sanitised limit, and nothing else.
   */
  lemma LimitClauseRoundTrip(limit: NumberArg, offset: NumberArg)
    requires Truthy(limit)
    ensures ParseLimitClause(LimitClause(limit, offset)) == Some((SafeInteger(offset), SafeInteger(limit)))
  {
    var os, ls := NatToDecimal(SafeInteger(offset)), NatToDecimal(SafeInteger(limit));
    assert SafeInteger(OffsetOrDefault(offset)) == SafeInteger(offset);
    assert LimitClause(limit, offset) == "limit " + (os + ",") + ls;
    assert "limit " + (os + ",") + ls == "limit " + os + "," + ls;
    ParseOfClause(SafeInteger(offset), SafeInteger(limit));
  }
}
