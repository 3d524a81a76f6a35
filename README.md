# zetanom diet tracker — a Dafny model of its core

zetanom is a small diet tracker. Users keep a library of foods, each with nutrition facts per 100 g or 100 ml and named serving sizes. They log what they eat per day. A web server renders the day's log and an entry form.

This project models the logic under the HTML:

- **the store** (`crates/db/src/lib.rs`): a `Db` class holding three id-indexed tables and their id counters.
  - The create, edit and delete methods change the tables as their SQL statements do.
  - The `list_*` methods return every matching row once, in the order of their `ORDER BY`.
  - The serving-unit token codec (`"g"`, `"ml"`) is included.
- **the nutrition vector** (`src/types/nutrition.rs`): `scale` and `+` over eight real fields, with their algebra.
- **the date codec** (`crates/shared/src/date.rs`): `YYYY-MM-DD` printing and parsing, the `Date` wrapper and its SQL round trip.
- **the day page**, in both snapshots of the code:
  - `src/routes/log_view.rs` fails the whole page on any failing entry and totals the day with a fold.
  - `crates/www/src/routes/log_view.rs` resolves a `(unit, multiplier)` per entry, falls back quietly, and skips entries whose food is missing.
- **the entry form**, in both snapshots:
  - the serving option list and the `serving_id` field codec;
  - the URL builders and the route they must match;
  - the page script's `fuzzyMatch` and top-10 search;
  - the hand-built JSON food list the script reads.

Modules:

- `Wrappers`: `Option`/`Result`.
- `Errors`: the application error values.
- `Decimal`: the i64 `Display`/`FromStr`.
- `Dates`.
- `Ordering`: SQLite's text collation and the row order of an `ORDER BY`.
- `Nutrition`.
- `Db`.
- `LogView` and `WwwLogView`.
- `LogNew` and `WwwLogNew`, with `JsTrim` for the page script's `trim`.

Several functions the code calls are not part of this model, so they become parameters of the members that use them:

- `Entry::nutrition` (`nutritionOf`) and `Db::get_serving_by_id` (`servingById`);
- JavaScript's `toLowerCase` per character (`lower`);
- the float `{}` formatting (`formatAmount`);
- `Utc::now` (`now`);
- whether `try_lock` succeeds (`lockFree`).

## Model

| member | source | states |
|---|---|---|
| Db.UnitAsStr | crates/db/src/lib.rs:36-43 | The token of a unit is `"g"` or `"ml"`, and `try_from` of it gives the unit back. |
| Db.UnitTryFrom | crates/db/src/lib.rs:45-54 | Succeeds exactly on `"g"` and `"ml"`; every other string is the invalid-unit error. |
| Db.UnitTokensDistinct | crates/db/src/lib.rs:36-54 | Two units print the same token iff they are the same unit. |
| Db.Db.constructor | crates/db/src/lib.rs:181-189 | A new store is empty and satisfies the store invariant. |
| Db.Db.CountFoods | crates/db/src/lib.rs:191-196 | The count is the number of stored foods. |
| Db.Db.GetFood | crates/db/src/lib.rs:246-276 | An unknown id fails with "no rows". A stored id gives its row: name, brand, unit decoded from its token, the eight nutrients and `created_at`. |
| Db.Db.CreateFood | crates/db/src/lib.rs:198-225 | Adds one food under a fresh id and changes nothing else. The count rises by one, and `get_food` of the id gives back exactly the input. |
| Db.Db.ListFoods | crates/db/src/lib.rs:228-243 | Every food exactly once, with its name and brand, sorted by name. |
| Db.Db.EditFood | crates/db/src/lib.rs:278-313 | Overwrites name, brand, unit and nutrients of that food and keeps its `created_at`. An unknown id changes nothing; other foods and the other tables are unchanged. |
| Db.Db.CreateServing | crates/db/src/lib.rs:316-335 | Adds one serving under a fresh id and changes nothing else. |
| Db.Db.DeleteServing | crates/db/src/lib.rs:337-341 | Removes the serving with that id and nothing else; an absent id changes nothing. |
| Db.Db.ListServings | crates/db/src/lib.rs:343-369 | Exactly the servings of that food, each once, sorted by serving name. |
| Db.Db.CreateEntry | crates/db/src/lib.rs:371-391 | Adds one entry under a fresh id, its date stored as `%Y-%m-%d` text, and changes nothing else. |
| Db.Db.DeleteEntry | crates/db/src/lib.rs:393-397 | Removes the entry with that id and nothing else; an absent id changes nothing. |
| Db.Db.ListEntries | crates/db/src/lib.rs:399-427 | Exactly the entries stored with that date's text, each once, sorted by `created_at` ascending. |
| Db.CreatedEntryListedOnItsDate | crates/db/src/lib.rs:371-427 | An entry just created is listed on its own date and on no other, because the date is written and matched in the same encoding. |
| Ordering.SelectOrdered | crates/db/src/lib.rs:228-243 | The rows a `select … where … order by` returns: every kept id once, none other, in key order. |
| Ordering.InsertSorted | crates/db/src/lib.rs:407-408 | Inserting an id into a key-ordered list keeps it ordered, adds just that id and keeps the ids distinct. |
| Ordering.TextLeTotal | crates/db/src/lib.rs:228-243 | Text order is total. |
| Ordering.TextLeTransitive | crates/db/src/lib.rs:228-243 | Text order is transitive. |
| Ordering.TextLeAntisymmetric | crates/db/src/lib.rs:228-243 | Text order is antisymmetric. |
| Ordering.KeyLeTotal | crates/db/src/lib.rs:399-427 | The mixed number/text key order is total. |
| Ordering.KeyLeTransitive | crates/db/src/lib.rs:399-427 | The mixed number/text key order is transitive. |
| Ordering.SpliceSorted | crates/db/src/lib.rs:407-408 | An id spliced in after every key not above its own and before every key not below it keeps the list ordered, adds just that id, and keeps the ids distinct. |
| Nutrition.Scale | src/types/nutrition.rs:33-44 | Each of the eight fields is multiplied by the factor. |
| Nutrition.Add | src/types/nutrition.rs:47-61 | Each of the eight fields is the sum of the two fields. |
| Nutrition.Extensionality | src/types/nutrition.rs:21-30 | Values agreeing on all eight fields are equal. |
| Nutrition.ScaleOne | src/types/nutrition.rs:33-44 | Scaling by 1 is the identity. |
| Nutrition.ScaleZero | src/types/nutrition.rs:33-44 | Scaling by 0 gives all eight fields zero. |
| Nutrition.AddCommutative | src/types/nutrition.rs:47-61 | `a + b == b + a`. |
| Nutrition.AddAssociative | src/types/nutrition.rs:47-61 | `(a + b) + c == a + (b + c)`. |
| Nutrition.ZeroIdentity | src/types/nutrition.rs:47-61 | Zero is a left and right identity of `+`. |
| Nutrition.ScaleDistributes | src/types/nutrition.rs:33-61 | `scale` distributes over `+`. |
| Nutrition.ScaleCompose | src/types/nutrition.rs:33-44 | `scale(scale(n, a), b) == scale(n, a * b)`. |
| Decimal.NatToString | crates/www/src/routes/log_new.rs:64-66 | Decimal digits without a leading zero whose value is the number. |
| Decimal.IntToString | src/routes/log_new.rs:170 | A minus sign exactly for negatives, then digits with no leading zero whose value is the magnitude of the number. |
| Decimal.ParseI64 | crates/www/src/routes/log_new.rs:215-218 | Succeeds iff the text, less one optional leading sign, is a non-empty run of digits whose signed value is an i64; it then yields that value. Any failure is the integer-parse error. |
| Decimal.ParseIntToString | src/routes/log_new.rs:170 | Parsing the printed form of an i64 gives it back. |
| Decimal.LeadingZeroValue | crates/www/src/routes/log_new.rs:215-218 | A leading zero does not change the value of a digit run. |
| Decimal.ParseLenient | crates/www/src/routes/log_new.rs:215-218 | A leading `+` or leading zeros are accepted and give the same value, so more than one text posts the same serving id. |
| Dates.Padded | crates/shared/src/date.rs:50-52 | Zero-padded digits of the given width with the number's value. |
| Dates.PaddedDigitsValue | crates/shared/src/date.rs:58-62 | Re-padding the value of a digit string gives the string back. |
| Dates.Format | crates/shared/src/date.rs:50-52 | `%Y-%m-%d`: ten characters, dashes at 4 and 7, digits elsewhere, no `/`. |
| Dates.New | crates/shared/src/date.rs:32-34 | `into_inner(new(n)) == n`. |
| Dates.FormatFields | crates/shared/src/date.rs:58-62 | A valid date-shaped text is the format of the date it spells. |
| Dates.ParseNaive | crates/www/src/routes/log_view.rs:42-43 | Succeeds exactly on date-shaped text naming a real calendar day, and formats back to the input. |
| Dates.ParseFormat | crates/shared/src/date.rs:50-62 | Parsing a formatted date gives the date back. |
| Dates.FormatInjective | crates/shared/src/date.rs:50-52 | Two dates format alike iff they are equal. |
| Dates.IntoInner | crates/shared/src/date.rs:40-42 | Wrapping the unwrapped date again gives the same `Date`. |
| Dates.ToString | crates/shared/src/date.rs:50-52 | `Display` is the `%Y-%m-%d` form and parses back to the date. |
| Dates.TryFrom | crates/shared/src/date.rs:55-62 | Succeeds exactly on valid `%Y-%m-%d` text, and the result displays as the input. Otherwise it fails with "invalid date: <input>". |
| Dates.TryFromToString | crates/shared/src/date.rs:50-62 | `try_from(d.to_string()) == Ok(d)`. |
| Dates.ToSql | crates/shared/src/date.rs:65-70 | A date is stored as ten characters of text. |
| Dates.ColumnResult | crates/shared/src/date.rs:72-77 | Non-text fails as an invalid type. Text is read iff it parses; otherwise it fails with `Other`. |
| Dates.SqlRoundTrip | crates/shared/src/date.rs:65-77 | Reading back a stored date gives the same date. |
| LogView.CalculateTotals | src/routes/log_view.rs:220-236 | The loop computes the left fold of `+` from zero in list order. The first failing entry's error is returned, and an empty list gives zero. |
| LogView.TotalsErrorSticks | src/routes/log_view.rs:231-235 | Once a prefix fails, the fold of the whole list is that failure. |
| LogView.SumSnoc | src/routes/log_view.rs:231-235 | Appending a value to a sum adds it. |
| LogView.TotalsOk | src/routes/log_view.rs:220-236 | The total succeeds iff every entry's nutrition does, and is then the sum of those values. |
| LogView.TotalsFirstFailure | src/routes/log_view.rs:232 | The failure returned is that of the first failing entry; no partial total escapes. |
| LogView.UnitName | src/routes/log_view.rs:150-155 | The serving's name when `serving_id` is set, its lookup error when that fails, and otherwise the food's unit token. |
| LogView.RenderRow | src/routes/log_view.rs:146-218 | The food lookup fails first, then the entry's nutrition; the row renders iff the food, the nutrition and the unit name are all found. |
| LogView.RowContents | src/routes/log_view.rs:146-155 | A rendered row holds the entry's ids and amount, the food's name, the entry's nutrition and the unit chosen as above. |
| LogView.MissingServingFailsRow | src/routes/log_view.rs:151 | A set `serving_id` whose lookup fails fails the row; there is no fallback. |
| LogView.RenderRows | src/routes/log_view.rs:135-139 | Succeeds iff every row does; the rows are then the entries' rows in order. |
| LogView.RowsFirstFailure | src/routes/log_view.rs:137-138 | The table's error is that of the first failing row. |
| LogView.RenderTable | src/routes/log_view.rs:86-144 | No entries gives the "No food logged" message; otherwise the rows, failing as they do. |
| LogView.Nutritions | src/routes/log_view.rs:148 | One nutrition value per row, in order. |
| LogView.TableThenTotals | src/routes/log_view.rs:146-236 | When the table renders, the total succeeds and equals the sum of the rows' nutrition. |
| LogView.Handler | src/routes/log_view.rs:49-58 | A bad date fails before the lock. A held lock fails. Otherwise the page is the day's listed entries' table and their total, or the table's error. |
| LogView.Url | src/routes/log_view.rs:44-46 | `/log/` then the date text, which parses back to the date. |
| WwwLogView.Find | crates/www/src/routes/log_view.rs:77 | Finds a serving with the id iff one is listed. |
| WwwLogView.BaseChoice | crates/www/src/routes/log_view.rs:79-87 | The fallback is the food's own unit token, which decodes back to that unit, with multiplier 1.0. |
| WwwLogView.Resolve | crates/www/src/routes/log_view.rs:74-88 | The fallback applies for no `serving_id`, an id not found, or a failed listing. Any other choice is a listed serving's `(name, amount)` for that id. |
| WwwLogView.ResolveAgainstStore | crates/www/src/routes/log_view.rs:74-88 | Resolving against the food's listing equals looking the serving up in the store among that food's servings. |
| WwwLogView.OtherFoodsServingIgnored | crates/www/src/routes/log_view.rs:76-77 | A serving of another food is never used. |
| WwwLogView.Cells | crates/www/src/routes/log_view.rs:89-98 | A row shows the food's name and brand, the entry's amount, the chosen unit, and four nutrients that are the facts scaled by amount × multiplier, with no division by 100. |
| WwwLogView.DayRowsAppend | crates/www/src/routes/log_view.rs:72-73 | Rows of consecutive entry stretches are consecutive, so rows follow entry order. |
| WwwLogView.DayRowsSingle | crates/www/src/routes/log_view.rs:73 | An entry with a missing food gives no row; any other gives exactly its row. |
| WwwLogView.SkippedEntryInvisible | crates/www/src/routes/log_view.rs:73 | Removing an entry whose food is missing leaves the page's rows unchanged. |
| WwwLogView.Handler | crates/www/src/routes/log_view.rs:38-104 | A bad date fails with "Failed to parse date" before the lock. Otherwise the page shows the "No food logged" message for an empty day, and the day's rows in listing order otherwise. |
| WwwLogView.ServingMultiplierHundredfold | crates/www/src/routes/log_view.rs:78-97 | As written, 100 g logged as two 50 g servings shows 100 times the energy of 100 g logged as one base serving. |
| WwwLogView.CorrectedResolve | crates/www/src/routes/log_view.rs:74-88 | Same unit as written. Whenever the entry's serving is listed, its multiplier is the written one divided by 100; otherwise it is the base multiplier 1.0. |
| WwwLogView.CorrectedServingMatchesBase | crates/www/src/routes/log_view.rs:74-97 | With the correction, n servings of a g show the same nutrients as n·a/100 base servings, for every listed serving. |
| LogNew.Url | src/routes/log_new.rs:49-51 | The day URL followed by `/new`. |
| LogNew.UrlWithFoodId | src/routes/log_new.rs:53-55 | The form URL followed by `/food/` and the id. |
| LogNew.IndexOf | src/routes/log_new.rs:42-46 | The first position of the character. |
| LogNew.SplitJoin | src/routes/log_new.rs:42-46 | Splitting a slash-joined path at slashes gives back segments without slashes. |
| LogNew.JoinSplit | src/routes/log_new.rs:42-46 | Joining the pieces of a split path gives the path back. |
| LogNew.FirstSlash | src/routes/log_new.rs:42-46 | After a segment without `/`, the first `/` is the one that follows it. |
| LogNew.MatchFoodRoute | src/routes/log_new.rs:42-46 | A match of `/log/{date}/new/food/{food_id}` captures two non-empty segments without `/`, and the path is exactly the route with those two segments filled in. |
| LogNew.RouteMatchesPath | src/routes/log_new.rs:42-46 | Conversely, every path of the route's shape with two non-empty segments without `/` is matched, with those segments as its captures. |
| LogNew.NoSlashInNumber | src/routes/log_new.rs:53-55 | A printed integer holds no `/`. |
| LogNew.UrlMatchesRoute | src/routes/log_new.rs:42-55 | `url_with_food_id` matches the registered route. Its captures parse back to the date and the id. |
| LogNew.ParseServingField | src/routes/log_new.rs:210-214 | `""` is `None`. Other text is `Some` of its i64 value if it parses; otherwise the integer-parse error. |
| LogNew.ParseServingFieldRoundTrip | src/routes/log_new.rs:168-214 | Posting a serving option's value back gives that serving id. |
| LogNew.ServingOptions | src/routes/log_new.rs:165-174 | The base option, then one option per serving in list order, `servings + 1` in all. |
| LogNew.ServingOptionPostsBack | src/routes/log_new.rs:168-172 | A serving's option posts back as that serving's id, and its text starts with the serving's name. |
| LogNew.OptionsPostBack | src/routes/log_new.rs:165-172 | In the option list, the base option posts back as no serving and every other option as its own serving. |
| LogNew.Title | src/routes/log_new.rs:150-154 | The title starts with the name. It is the name alone iff the brand is empty, and it ends with the brand otherwise. |
| LogNew.TitleParts | src/routes/log_new.rs:150-154 | A branded title is the name, then ` — `, then the brand. |
| LogNew.GetHandlerWithFoodId | src/routes/log_new.rs:141-174 | Errors come in source order: lock, unknown food, bad date. The form posts to `url_with_food_id` and lists that food's servings as options. |
| LogNew.EntryInput | src/routes/log_new.rs:216-222 | The entry's food id comes from the form, not the path. |
| LogNew.PostHandler | src/routes/log_new.rs:203-228 | A bad date, a bad `serving_id` or a held lock fail, in that order, with the store unchanged. Otherwise one entry row is added and the redirect is the day URL. |
| WwwLogNew.LowerAll | crates/www/src/routes/log_new.rs:115-116 | Lowers each character, keeping the length. |
| WwwLogNew.GreedyGivesEmbedding | crates/www/src/routes/log_new.rs:120-127 | When the greedy scan succeeds, the pattern is a subsequence. |
| WwwLogNew.EmbeddingGivesGreedy | crates/www/src/routes/log_new.rs:120-127 | When the pattern is a subsequence, the greedy scan succeeds. |
| WwwLogNew.GreedyIffSubsequence | crates/www/src/routes/log_new.rs:120-127 | The greedy scan succeeds iff the pattern is a subsequence. |
| WwwLogNew.FuzzyMatch | crates/www/src/routes/log_new.rs:114-128 | The loop returns true iff `lower(pattern)` is a subsequence of `lower(str)`; the empty pattern always matches. |
| JsTrim.TrimStart | crates/www/src/routes/log_new.rs:131 | Drops exactly the leading whitespace. |
| JsTrim.TrimEnd | crates/www/src/routes/log_new.rs:131 | Drops exactly the trailing whitespace. |
| JsTrim.Trim | crates/www/src/routes/log_new.rs:131 | Empty iff the input is all whitespace; otherwise starts and ends with non-whitespace. The result is a slice of the input with only whitespace cut from either end. |
| JsTrim.TrimmedSlice | crates/www/src/routes/log_new.rs:131 | Cutting leading and then trailing whitespace leaves a slice of the input with only whitespace around it, empty iff the input is all whitespace. |
| WwwLogNew.Filter | crates/www/src/routes/log_new.rs:139-140 | Keeps exactly the foods whose name or brand fuzzy-matches. |
| WwwLogNew.FilterAppend | crates/www/src/routes/log_new.rs:139-140 | Filtering keeps library order. |
| WwwLogNew.Search | crates/www/src/routes/log_new.rs:130-146 | Hidden iff the query is blank. "No matches" iff no food matches. Otherwise the first 10 matches, in library order. |
| WwwLogNew.ReadEscapeChar | crates/www/src/routes/log_new.rs:106 | A JavaScript string literal reads an escaped character as itself. |
| WwwLogNew.ReadJsEscape | crates/www/src/routes/log_new.rs:106 | Text escaped for backslash, quote and line breaks reads back as itself. |
| WwwLogNew.QuoteEscape | crates/www/src/routes/log_new.rs:67-68 | Text without `"` is unchanged, every `"` of the result is preceded by a backslash, and the result is longer by exactly the number of `"`. |
| WwwLogNew.DropQuoteEscapesInverts | crates/www/src/routes/log_new.rs:67-68 | Dropping each backslash placed before a `"` gives back the original text, for every text. |
| WwwLogNew.FoodsJson | crates/www/src/routes/log_new.rs:61-72 | Empty iff there are no foods; otherwise it opens with the first object's `{`. |
| WwwLogNew.QuoteEscapeAgrees | crates/www/src/routes/log_new.rs:67-68 | Without backslashes and line breaks, quote-only escaping equals full escaping. |
| WwwLogNew.ObjectThenAppend | crates/www/src/routes/log_new.rs:64-69 | A food's object literal followed by text is the object built onto that text. |
| WwwLogNew.FoodsJsonCons | crates/www/src/routes/log_new.rs:61-72 | The food list is the first object, a comma, then the rest, in list order. |
| WwwLogNew.ExpectPrefix | crates/www/src/routes/log_new.rs:106 | A literal prefix is consumed. |
| WwwLogNew.ReadIntToString | crates/www/src/routes/log_new.rs:64-66 | A printed id followed by a comma reads back as that id. |
| WwwLogNew.ReadFieldEscape | crates/www/src/routes/log_new.rs:64-68 | A key and an escaped string field read back as the string. |
| WwwLogNew.ReadFoodObject | crates/www/src/routes/log_new.rs:64-69 | One object, correctly escaped, reads back as the food. |
| WwwLogNew.ReadLastElement | crates/www/src/routes/log_new.rs:61-106 | The last object and `]` read back as one food. |
| WwwLogNew.ReadNextElement | crates/www/src/routes/log_new.rs:61-106 | An object and a comma read back as that food before the rest. |
| WwwLogNew.ReadSingleElement | crates/www/src/routes/log_new.rs:61-72 | A one-food list reads back as itself. |
| WwwLogNew.ReadConsElements | crates/www/src/routes/log_new.rs:61-72 | One more food at the front reads back in front. |
| WwwLogNew.ReadAsWholeList | crates/www/src/routes/log_new.rs:61-72 | Reading the first food ahead of the others is reading the list. |
| WwwLogNew.ReadElementsJson | crates/www/src/routes/log_new.rs:61-72 | A non-empty list, correctly escaped, reads back as the list. |
| WwwLogNew.ReadEmptyArray | crates/www/src/routes/log_new.rs:106 | `[]` reads as the empty list. |
| WwwLogNew.ReadArrayOpen | crates/www/src/routes/log_new.rs:106 | `[{…` reads the elements. |
| WwwLogNew.ReadFoodsJson | crates/www/src/routes/log_new.rs:61-106 | With correct escaping, the JavaScript string literals of `const foods = [...]` read back as exactly the food list, in order. |
| WwwLogNew.FoodsJsonAgrees | crates/www/src/routes/log_new.rs:61-72 | As written, the list equals the correctly escaped one when no name or brand holds a backslash or line break. |
| WwwLogNew.ScriptReadsPlainFoods | crates/www/src/routes/log_new.rs:61-106 | As written, such lists read back as the food list. |
| WwwLogNew.EscapedQuoteReadsOn | crates/www/src/routes/log_new.rs:67 | A trailing backslash escapes the closing quote, so the literal runs on. |
| WwwLogNew.BrandKeySplit | crates/www/src/routes/log_new.rs:65 | The brand key begins with a comma and a quote. |
| WwwLogNew.BrandKeyMissing | crates/www/src/routes/log_new.rs:65 | Text that starts at `brand` does not read as the brand key. |
| WwwLogNew.TrailingBackslashBreaksObject | crates/www/src/routes/log_new.rs:64-69 | As written, a food named `\` no longer reads as a food object. |
| WwwLogNew.GetHandler | crates/www/src/routes/log_new.rs:50-83 | A bad date fails before the lock. A held lock fails. Otherwise the form posts to `/log/<date>/new` and embeds the food list of `list_foods` with quote escaping. |
| WwwLogNew.PostHandler | crates/www/src/routes/log_new.rs:201-234 | A bad date, a bad `serving_id` or a held lock fail, in that order, with the store unchanged. Otherwise one entry row is added and the redirect is `/log/<date>`. |

## Left out

- HTML rendering, page layout, CSS and the JavaScript DOM code (click handlers, serving-size loading) are presentation. Only the data the page shows is modelled.
- Floating point: nutrients and amounts are reals. Rounding, non-associativity and `{:.0}`/`{:.1}` display formatting are not modelled.
- Clocks and time zones: `Utc::now` is a parameter, and `Date::today`, `humanize` and the local-time display of `created_at` are not modelled. `Date::prev_day`/`next_day` are not part of this model.
- Dates.ParseNaive: chrono accepts more than four-digit `YYYY-MM-DD` (signed and extended years, lenient widths). The model accepts exactly four-digit years 0 to 9999 with two-digit month and day.
- Db: SQLite and `schema.sql` are not part of this model. Foreign keys, uniqueness and `serving_amount > 0` are not modelled, and no statement fails except where the visible Rust code fails. Each create hands out a fresh id that was never used before; SQLite without AUTOINCREMENT may reuse the largest id after it is deleted, which the model does not do. The order among rows with equal sort keys is not stated. `created_at` is a `DateTime<Utc>` that rusqlite stores as text (`%F %T%.f%:z`); the model sorts entries by the time itself, which agrees with text order for UTC timestamps with four-digit years.
- src/db.rs, the older snapshot's store, shows only its constructor. The src routes are modelled against the same store as crates/db.
- The `Mutex::try_lock` around the store is a boolean parameter. Its failure is the lock error.
- `Entry::nutrition` and `Db::get_serving_by_id` are not part of this model; they are function parameters. So `LogView.Handler` states its totals in terms of `nutritionOf`, not the food's facts.
- WwwLogView.Handler: `list_servings` cannot fail in the model, so the "listing failed" fallback is stated by `WwwLogView.Resolve` but never reached by the handler.
- WwwLogNew.LowerAll: JavaScript's `toLowerCase` is an arbitrary per-character function. Length-changing Unicode case mappings are not modelled, and strings are sequences of characters rather than UTF-16 code units.
- WwwLogNew.ReadBody: the reader of the page script's JavaScript string literals models the escapes `\"`, `\\`, `\'`, `\n`, `\r` and `\t` only. Other escapes (`\u`, `\x`, `\b`, octal, line continuations) are not read. The full escape never writes them. The as-written quote-only escape copies any backslash sequence in a name or brand through unchanged, which JavaScript would read and this reader rejects, so ScriptReadsPlainFoods is stated only for names and brands without backslashes or line breaks.
- WwwLogNew.ReadFoodsJson: the script reads each `id` as a JavaScript number, a double that holds integers exactly only up to 2^53 in magnitude. The model reads ids as unbounded integers, so larger i64 ids read back exactly in the model but not in the browser.
- WwwLogNew.ReadFoodsJson: the list is spliced unescaped into a `<script>` element (crates/www/src/routes/log_new.rs:104-106). The HTML tokenizer's script-data rules are not modelled: a `</script` inside a name or brand ends the element before any JavaScript reads it, and `<!--` changes how the element ends. Neither QuoteEscape nor JsEscape guards against this, so the read-back is proved for the JavaScript string-literal layer only; a food named `</script><b>x` breaks the page under both escapes.
- Ids are unbounded integers. The i64 range matters only where ids are printed and parsed back, and there it is a precondition.
- Path segments arrive percent-decoded from the router; URL decoding is not modelled.
- The older snapshot's `get_handler` (the plain food table on `/log/{date}/new`) is markup over `list_foods` and is not modelled beyond that listing.
- The multiplier in crates/www: the entry form labels the base option "Base unit (100g or 100ml)" (crates/www/src/routes/log_new.rs:95), so nutrition facts are per 100 base units and an amount is a count of the chosen unit. The day page nevertheless multiplies by `serving_amount` for a serving and by 1.0 for the base unit. The model follows the code and records the difference under Findings.
- LogView.Handler, LogNew.GetHandlerWithFoodId and LogNew.PostHandler: the older snapshot's `Date` type (src/types/date.rs) is not part of this model, nor are its error conversions apart from `From<rusqlite::Error>` in src/error.rs. These handlers use the crates `Date`, its "invalid date" error, and the crates conversions for a held lock and an integer that does not parse.
- Thin form-to-store handlers (food create/edit, serving create/delete, log delete, root), configuration, server start-up, the CLI and the REPL are outside the core.

## Findings

| source | as written | input that shows it | evidently intended | confidence | as-written member | corrected member |
|---|---|---|---|---|---|---|
| crates/www/src/routes/log_view.rs:78, 94-97 | A serving's multiplier is its `serving_amount`, and the shown nutrients are `facts * amount * multiplier`, while the base serving's multiplier is 1.0. | A food with 200 kcal per 100 g. Logged as 2 servings of 50 g, it shows 20000 kcal; logged as 1 base serving (100 g), it shows 200 kcal. | Facts are per 100 base units, so a serving's multiplier is `serving_amount / 100`. Then both entries show 200 kcal. | not executed | WwwLogView.ServingMultiplierHundredfold | WwwLogView.CorrectedServingMatchesBase |
| crates/www/src/routes/log_new.rs:67-68 | Names and brands embedded in the page script's string literals escape only `"`. | A food named `\`: the backslash escapes the closing quote, and the object no longer reads as `{id, name, brand}`. | Escape backslashes and line breaks too, so the script's string literals read back exactly the food list. (The HTML `</script` end tag is a separate hazard that neither escape handles; see Left out.) | not executed | WwwLogNew.TrailingBackslashBreaksObject | WwwLogNew.ReadFoodsJson |
