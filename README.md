# Track search query builder, in Dafny

This project models the query builder of the music-tracks search service
(`app/track.ts`). The builder turns the loosely typed search parameters
`keyword`, `category`, `limit` and `offset` into pieces of SQL text and a
map of named parameters. The model covers:

- `getCategories`: which searchable categories a comma-separated selector
  picks out of the fixed five-entry table (name, composer, album, genre,
  artist);
- `getWhere`: the `where <col> like @<key> or …` fragment built from those
  categories;
- `getFilters`: that fragment together with the parameter map binding each
  category key to `%keyword%`;
- `safeInteger`: the integer sanitiser;
- the `limit <offset>,<limit>` clause that `getTracks` builds.

Everything is pure: functions over sequences, with lemmas about them.

The modules are:

- `Wrappers`: the `Option` type.
- `JsString`: the JavaScript string built-ins the code calls:
  - `toLowerCase`;
  - `trim`, over the WhiteSpace and LineTerminator code points of ECMAScript;
  - `split` on one character;
  - `Array.prototype.join`;
  - the decimal text that a template literal gives an integer.
- `StringObject`: a `{ [key: string]: string }` object without integer-like
  keys, as the list of its entries in insertion order. It provides
  `Object.keys`, property lookup, and lodash `pick` and `mapValues`.
- `Track`: the category table and the four operations.
- `TrackExamples`: the repository's unit-test cases (`test/track.spec.ts`)
  and a few edge cases, stated as lemmas about the model.

Three behaviours of the code are easy to miss. The model states each of them
as the code has it:

- The test for "everything" reads the selector as written
  (`category === 'all' || !category`), not its lowered and trimmed form. So
  `"ALL"` or `" all"` gives the token `all`, which is no category, and
  selects nothing. A non-blank keyword then yields `where == ""` and no
  parameters, so there is no filter at all, where a reader might expect a
  search over every category. `TrackExamples.UpperCaseAllSelectsNothing` and
  `TrackExamples.UpperCaseAllFiltersNothing` state this.
- lodash `pick` adds keys in the order the caller names them, and a repeated
  token adds nothing. So `"album,composer"` gives album before composer, and
  the WHERE conditions come in that order rather than in the table's order.
  The unit tests only fix `"composer,album"`, which is in table order either
  way. `StringObject.PickFollowsPathOrder` and `TrackExamples.CallerOrderKept`
  state the caller's order.
- The code checks the raw `limit` for truthiness, not the sanitised one. A
  truthy limit that is not an integer, such as the text `"abc"` or `2.5`,
  therefore gives `limit <offset>,0`. The query-string text `"0"` is truthy
  and gives `limit 0,0`, not "no limit".

Numeric arguments are modelled as `Absent | Arg(truthy, integer)`. The
`integer` field is what `Number()` makes of the raw value when that is an
integer, and `None` otherwise.

## Model

| member | source | states |
|---|---|---|
| Track.CategoryTableWellFormed | app/track.ts:73-79 | The category table has five entries and no key twice. |
| Track.GetCategories | app/track.ts:72-90 | A selector that is absent, `"all"` or `""` gives the whole table. Any other selector gives exactly the table entries whose keys equal one of its lowered, trimmed, comma-separated, trimmed tokens. Every result entry is a table entry with its own column, and no key appears twice. |
| Track.ArgText | app/track.ts:72 | A string argument with a default parameter value (`category = 'all'` here, `keyword = ''` at line 42): only an absent argument takes the default. A passed one, even `""`, is used as written. |
| Track.SelectsAll | app/track.ts:87 | The selector selects everything iff it is absent, exactly `"all"` or exactly `""`. |
| Track.CategoryTokens | app/track.ts:81-85 | The tokens of a selector: at least one, none holding a comma or an upper-case letter, each its own trim. |
| Track.CategoriesFollowTokenOrder | app/track.ts:87-89 | A selective result lists its categories in the order the selector first names them. |
| Track.CategoryTokensOfList | app/track.ts:81-85 | Lower-case words joined by commas tokenise back to exactly those words. |
| Track.TokensOfNormalised | app/track.ts:81-85 | If a selector lowers and trims to some comma-free pieces joined by commas, its tokens are those pieces, each trimmed. |
| StringObject.Pick | app/track.ts:89 | `pick` keeps only entries of the object. A key is in the result iff the object has it and the caller names it. No key appears twice. |
| StringObject.PickFollowsPathOrder | app/track.ts:89 | `pick` lists its keys in the order their paths first occur. |
| StringObject.PickStep | app/track.ts:89 | One more path appends the entry it names if the object has that key and the result does not yet hold it. Otherwise the result is unchanged. |
| StringObject.PickDistinctPresent | app/track.ts:89 | Picking distinct keys the object has gives their entries, one per path, in path order. |
| StringObject.KeysOf | app/track.ts:59 | `Object.keys` gives one key per entry, in entry order. A string is among the keys iff some entry has it as its key. |
| StringObject.Get | app/track.ts:60 | Looking up a present key gives an entry of the object with that key. |
| StringObject.GetOfEntry | app/track.ts:60 | In an object with unique keys, an entry's key looks up that very entry. |
| StringObject.MapValuesTo | app/track.ts:47 | `mapValues` keeps the keys and their order, and gives every key the same value. |
| Track.GetWhere | app/track.ts:58-64 | The WHERE text is empty iff there are no categories. Otherwise it starts with `where `. |
| Track.Clauses | app/track.ts:60 | The `.map` gives one condition per entry, in entry order. A string is among the conditions iff it is the condition of some entry. |
| Track.Clause | app/track.ts:60 | One condition, `<col> like @<key>`. It reads back as the entry it was built from whenever the column holds no space. |
| Track.TableClausesReadBack | app/track.ts:60 | Every condition the category table produces reads back as its entry. |
| Track.WhereOfOne | app/track.ts:59-63 | One category gives `where ` followed by its one condition. |
| Track.WhereAppend | app/track.ts:59-63 | Each further category appends ` or ` and its `<col> like @<key>` condition, in mapping order. |
| Track.WhereOnlyFromTable | app/track.ts:58-64 | The WHERE text over table entries uses only letters, `.`, space and `@`. It therefore holds no quote, semicolon or `%`. |
| Track.IsBlank | app/track.ts:43 | `!keyword.trim()` holds iff the keyword is absent, empty or all white space. |
| Track.LikePattern | app/track.ts:47 | The pattern is the keyword with one `%` before and one after, and the keyword is recovered by dropping them. |
| Track.GetFilters | app/track.ts:42-50 | A blank keyword gives an empty WHERE text and no parameters. Otherwise the WHERE text is that of the resolved categories. The parameters have exactly those categories' keys, in order, each bound to the untrimmed keyword wrapped in `%`. |
| Track.BlankKeywordFiltersNothing | app/track.ts:43 | An absent, empty or all-white-space keyword gives no filter, whatever the categories. |
| Track.WhereIgnoresKeyword | app/track.ts:45-47 | Two non-blank keywords give the same WHERE text, and that text is spelled from the table alone. The keyword reaches only the parameter values. |
| Track.SafeInteger | app/track.ts:101-107 | An integer sanitises to its absolute value. Anything else sanitises to 0. |
| Track.SafeIntegerSignless | app/track.ts:104-106 | The sign is discarded: `-v` and `v` sanitise alike. A sanitised value sanitises to itself. A number sanitises to 0 iff it is falsy. |
| Track.Num | app/track.ts:18 | A number is truthy iff it is not 0, and `Number()` gives it back unchanged. |
| Track.Truthy | app/track.ts:18 | An absent argument (`undefined`) is falsy. |
| Track.OffsetOrDefault | app/track.ts:15 | The default turns an absent offset into the number 0 (`Num(0)`). A passed offset is kept. Either way the sanitised offset is unchanged. |
| Track.LimitClause | app/track.ts:17-18 | The clause is empty iff the raw limit is falsy. Otherwise it starts with `limit `. |
| Track.ParseOfClause | app/track.ts:17-18 | `limit <o>,<l>` built from two numbers reads back as exactly those numbers. |
| Track.LimitClauseRoundTrip | app/track.ts:15-18 | A truthy limit gives a clause that holds the sanitised offset (0 when absent) and then the sanitised limit, and nothing else. |
| JsString.ToLower | app/track.ts:82 | Lowering keeps the length and leaves no upper-case letter. Every other character stays where it is, and each upper-case letter becomes its lower-case partner. |
| JsString.ToLowerOfLower | app/track.ts:82 | Lowering leaves a string without upper-case letters unchanged. |
| JsString.ToLowerIdempotent | app/track.ts:82 | Lowering twice is lowering once. |
| JsString.Trim | app/track.ts:83 | What `trim` gives is no longer than its input and neither starts nor ends with white space. |
| JsString.TrimPiece | app/track.ts:83 | What `trim` gives is a contiguous piece of its input with only white space around it. |
| JsString.TrimBlank | app/track.ts:43 | `trim` gives the empty string iff its input is all white space. |
| JsString.TrimIgnoresPadding | app/track.ts:83-85 | White space added around a string does not change its trim. |
| JsString.TrimOfTrimmed | app/track.ts:83-85 | A string with no white space at its ends is its own trim. |
| JsString.TrimAllChars | app/track.ts:83 | `trim` keeps only characters of its input. |
| JsString.TrimIdempotent | app/track.ts:83-85 | Trimming twice is trimming once. |
| JsString.Join | app/track.ts:61 | Joining no parts gives the empty string. Joining one part gives that part. A longer join starts with its first part. |
| JsString.JoinAppend | app/track.ts:61 | Joining one more part appends the separator and that part. |
| JsString.JoinAllChars | app/track.ts:61 | A join holds only characters of its parts and of the separator. |
| JsString.PartsOfJoinAllChars | app/track.ts:84 | Every part of a join holds only characters the join holds. |
| JsString.JoinInjective | app/track.ts:84 | Lists of separator-free pieces with equal joins are equal. |
| JsString.Split | app/track.ts:84 | `split` gives at least one piece. No piece holds the separator. Joining the pieces with the separator gives back the input. |
| JsString.SplitAllChars | app/track.ts:84 | `split` keeps only characters of its input. |
| JsString.SplitJoin | app/track.ts:84 | Splitting a join of separator-free pieces gives back those pieces. |
| JsString.NatToDecimal | app/track.ts:17-18 | The text of a non-negative integer is a non-empty run of digits. It is exactly `0` for zero and starts with no zero otherwise. |
| JsString.DecimalRoundTrip | app/track.ts:17-18 | The decimal text of a number reads back as that number. |
| TrackExamples.AllSelectorsGiveFullTable | test/track.spec.ts:80-96 | `"all"`, `""` and no selector give the full table. |
| TrackExamples.FullWhereForAll | test/track.spec.ts:47-54 | `"all"` gives the five conditions, in table order, joined by ` or `. |
| TrackExamples.FullFiltersWhere | test/track.spec.ts:39-45 | Keyword `"test"` over `"all"` gives the full WHERE text. |
| TrackExamples.FullFiltersParams | test/track.spec.ts:39-45 | Keyword `"test"` over `"all"` binds all five keys to `"%test%"`. |
| TrackExamples.SingleCategory | test/track.spec.ts:56-62 | `"name"` selects the name category alone. |
| TrackExamples.SingleCategoryWhere | test/track.spec.ts:56-62 | `"name"` gives `where t.Name like @name`. |
| TrackExamples.TwoCategories | test/track.spec.ts:98-102 | `"composer,album"` selects composer, then album. |
| TrackExamples.TwoCategoriesWhere | test/track.spec.ts:64-70 | `"composer,album"` gives the composer condition, then ` or `, then the album condition. |
| TrackExamples.PaddedCategories | test/track.spec.ts:104-108 | Spaces around the selector and around its tokens are ignored. |
| TrackExamples.CallerOrderKept | app/track.ts:87-89 | `"album,composer,album"` gives album, then composer: the caller's order, with the repeat dropped. |
| TrackExamples.UnknownTokensDropped | app/track.ts:87-89 | An unknown token (`tempo`) adds nothing. |
| TrackExamples.UpperCaseAllSelectsNothing | app/track.ts:81-89 | `"ALL"` is not the "everything" selector and selects no category. |
| TrackExamples.UpperCaseAllFiltersNothing | app/track.ts:42-50 | With `"ALL"` as selector, any keyword gives an empty WHERE text and no parameters. |
| TrackExamples.LimitClauses | app/track.ts:17-18 | Numeric paging cases: offset first, 0 by default, signs dropped, non-integers read as 0, a falsy limit gives no clause. |
| TrackExamples.TextLimitClauses | app/track.ts:17-18 | Query-string text: `"0"` as limit gives `limit 0,0`. Numeric text is sanitised like numbers. |

## Left out

- The database call and the SQL projection (app/track.ts:20-32) are external store I/O. The result rows, and their float columns computed by SQLite, depend on the data.
- `console.log` (app/track.ts:19) is a side effect only.
- The HTTP routing, the 404 mapping, server bootstrap and configuration (app/routes.ts, app/app.ts, app/config.ts) are not part of this model.
- `sort` is passed by the router but never read: `getTracks` has no sort parameter, so there is nothing to model.
- JavaScript `Number()` parsing and float arithmetic are abstracted. A raw argument is given by its truthiness and by the integer `Number()` makes of it, if any.
- Track.SafeInteger: the unused `defaultValue` parameter is not modelled. The code never reads it.
- JsString.NatToDecimal: renders every integer in plain digits. JavaScript switches to exponent notation from 10^21 on, and integers beyond 2^53 are not exact.
- JsString.ToLower: lowers ASCII letters only. JavaScript's full Unicode case mapping, including mappings that change the length, is left out. The selector tokens that matter are ASCII.
- StringObject.KeysOf / StringObject.Pick / StringObject.MapValuesTo: keys are kept in insertion order. JavaScript lists integer-like keys (`"0"`, `"12"`) first, in ascending order, before the other keys. No table key is integer-like, so the category results are unaffected.
- StringObject.Pick: models plain keys only. lodash's deep paths (`a.b`), array paths and inherited prototype keys (`constructor`) are left out. None of these is a table key.
- Arguments of the wrong type (a `null` keyword or selector, which throws in the code) are left out. `keyword` and `category` are modelled as absent or a string.
