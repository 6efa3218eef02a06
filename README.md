# Price dashboard core, modelled in Dafny

This project models the core of a browser dashboard that compares shopping prices across eight
Brazilian cities. The user lists products, one per line, and picks cities. `getPrices` then
starts one search per product and selected city, reads each answer into at most five offers
sorted by price, and fills a product × city matrix. A small translation module supplies the
texts: a current language kept in storage, listeners told of every change, and `t`, which
looks a key up with an English fallback and fills in `{{ name }}` placeholders.

The modules follow the source:

- `JsRuntime` (`js_runtime.dfy`): the JavaScript semantics the code relies on. It covers
  values, truthiness (`||`), nullishness (`??`), `String(v)`, the white space of `trim` and
  `\s`, the word characters of `\w`, and the insertion-ordered `Set`, both as functions on
  sequences and as the class `JsSet`.
- `Cities`: `CITIES` and `CITY_LOCATION`.
- `PriceParser`: `parseBRLString`, including `Number` on the cleaned text.
- `Offers`: the query of `fetchCityOffers`, the row → offer mapping, the stable sort by price,
  and the city result.
- `ProductList`: `products`, which splits the text at '\n', trims each line and drops the
  empty ones.
- `CitySelection`: `toggleCity` and `selectAllCities` as functions of the previous selection.
- `Popover`: the placement arithmetic of `openPopover`.
- `Dashboard`: the `App` component as the class `App`, whose fields are its state.
  - `getPrices` is split the way the code is written: the `null` matrix (`BuildMatrix`), the
    task list (`BuildTasks`), and the tasks settling (`RunTasks`).
  - Each of these is a loop method proved against a specification function. The function's
    properties are proved as lemmas.
- `I18n`: `i18n.js`.
  - `t`, `interpolate` and the regular expression `/\{\{\s*(\w+)\s*\}\}/g`, read as a
    three-state scanner.
  - The class `LanguageState`: `currentLang`, storage, `document.documentElement.lang`, the
    listener `Set`, and a log of the listener calls `notify` makes.

The network, the clock and storage are parameters:

- a search is a function `fetch` from the query to a response or a failure;
- `clock(task)` is what `nowTime()` returns when that task's answer is read;
- the stored values enter through the constructors.

## Model

| member | source | states |
|---|---|---|
| JsRuntime.Trim | src/App.jsx:125 | `trim` leaves no white space at either end and never lengthens the text |
| JsRuntime.TrimSplits | src/App.jsx:125 | what `trim` removes is white space at the two ends: the text is white space, the trimmed text, white space |
| JsRuntime.TrimOf | src/App.jsx:125 | a trimmed core between two white-space stretches is exactly what `trim` returns |
| JsRuntime.SetAdd | src/App.jsx:169 | `add` of a value already present leaves the Set as it is; a new value goes last; a duplicate-free Set stays duplicate-free |
| JsRuntime.SetDelete | src/App.jsx:169 | `delete` removes exactly that value, never lengthens the Set, keeps it duplicate-free, and changes nothing when the value is absent |
| JsRuntime.SetDeleteAppend | src/App.jsx:169 | `delete` works member by member: deleting from a concatenation deletes from each part, in order |
| JsRuntime.SetDeleteAt | src/App.jsx:169 | in a duplicate-free Set, `delete` cuts out the value's one occurrence and leaves every other member in its place and order |
| JsRuntime.SetFrom | src/App.jsx:168 | `new Set(prev)` holds exactly the members of `prev`, each once |
| JsRuntime.SetFromDistinct | src/App.jsx:168-170 | a list without duplicates goes through `new Set` and `Array.from` unchanged, order included |
| JsRuntime.JsSet.FromSeq | src/App.jsx:168 | the loop that adds the elements one by one builds the Set `SetFrom` describes |
| JsRuntime.JsSet.Add | src/i18n/i18n.js:38 | in-place `add`: the new contents are `SetAdd` of the old, still without duplicates |
| JsRuntime.JsSet.Delete | src/i18n/i18n.js:39 | in-place `delete`: the new contents are `SetDelete` of the old |
| Cities.CatalogShape | src/App.jsx:7-32 | eight cities with distinct codes, and `CITY_LOCATION` has an entry for exactly those codes |
| Cities.Location | src/App.jsx:80 | a catalog code gets its own location and any other code gets "Brazil" |
| PriceParser.Cleaned | src/App.jsx:45 | the cleaned text holds only digits, ',', '.' and '-', is no longer than the text, and has at most one '.' |
| PriceParser.NumberOf | src/App.jsx:46-47 | `Number('')` is 0; a finite result means only digits and '.' remain, with at most a leading '-'; a negative result has that '-' |
| PriceParser.UnsignedDecimal | src/App.jsx:46 | a decimal literal that `Number` accepts is non-empty, made of digits and '.' only, and its value is not negative |
| PriceParser.ParseBRLString | src/App.jsx:43-48 | a missing argument or `null` reads as 0; text with two or more ',' never reads as a number |
| PriceParser.KeepPriceChars | src/App.jsx:45 | the first `replace` leaves only digits, ',', '.' and '-' |
| PriceParser.KeepPriceOnly | src/App.jsx:45 | text made of those characters only passes the first `replace` unchanged |
| PriceParser.KeepAppend | src/App.jsx:45 | the first `replace` works character by character: the cleaning of a concatenation is the concatenation of the cleanings |
| PriceParser.KeepAround | src/App.jsx:45 | price characters between two stretches without any are exactly what the first `replace` keeps |
| PriceParser.RemoveDots | src/App.jsx:45 | after the second `replace` no '.' is left |
| PriceParser.RemoveDotsNoDots | src/App.jsx:45 | text without '.' passes the second `replace` unchanged |
| PriceParser.ReplaceFirstComma | src/App.jsx:45 | a string pattern replaces only the first ',': that position becomes '.', every other character and the length stay |
| PriceParser.KeepRemoveDotsCommute | src/App.jsx:45 | deleting the dots before or after the first pass gives the same text |
| PriceParser.ParsesAmount | src/App.jsx:43-48 | integer digits, a ',' and cents, with any non-price text around them, read as units + cents/10^k |
| PriceParser.ParsesWholeAmount | src/App.jsx:43-48 | integer digits with non-price text around them read as that integer |
| PriceParser.DotsIgnored | src/App.jsx:45 | the result never depends on the '.' characters of the text |
| PriceParser.ParsesGroupedAmount | src/App.jsx:45-47 | an amount with one thousands '.', with any non-price text around it, reads as the same amount written without the '.' |
| PriceParser.ParsesSourceExample | src/App.jsx:44 | "R$ 183,38 agora" reads as 183.38 |
| PriceParser.ParsesThousandsExample | src/App.jsx:43-48 | "R$ 4.200,00" reads as 4200 |
| PriceParser.NoDigitsReadsAsZero | src/App.jsx:43-47 | text with no digit, ',' or '-' (the default '' included) cleans to '' and reads as 0, not null |
| PriceParser.MissingPriceReadsAsZero | src/App.jsx:43 | an undefined argument takes the default '' and reads as 0 |
| PriceParser.TwoCommasRejected | src/App.jsx:45-47 | a second ',' survives the cleaning, so the text is not finite and reads as null |
| PriceParser.MisplacedMinusRejected | src/App.jsx:45-47 | a '-' that is not in front of the cleaned text makes it read as null |
| PriceParser.ParsesNegative | src/App.jsx:45-47 | a bare '-' followed by digits is kept by the cleaning and read as the negated integer |
| PriceParser.ParsesNegativeAmount | src/App.jsx:43-47 | '-', integer digits, a ',' and cents, with any non-price text around them (such as "R$ -12,50"), read as the negated amount |
| Offers.QueryFor | src/App.jsx:77-86 | the query carries the product, the city's location or "Brazil", the fixed engine, language, country and domain, and the key |
| Offers.RowPrice | src/App.jsx:94 | a numeric `extracted_price` is the price; any other non-nullish one drops the row; a nullish one gives way to `parseBRLString(r.price)` |
| Offers.RowToOffer | src/App.jsx:93-97 | a row gives an offer exactly when its price passes the number test, at that price, with a truthy merchant and link |
| Offers.RowToOfferFields | src/App.jsx:93-97 | a row becomes an offer exactly when its price is a number; the merchant is `source` if truthy, else `store` if truthy, else "—"; the link is `product_link`, else `link`, else "#"; shipping is `delivery` if truthy, else '' |
| Offers.ExtractedPriceWins | src/App.jsx:94 | a numeric `extracted_price` is the price, whatever `price` says |
| Offers.NonNumericExtractedPriceDrops | src/App.jsx:94-97 | a non-nullish, non-numeric `extracted_price` is not replaced by the parsed text, and the row is dropped |
| Offers.PricelessRowIsFree | src/App.jsx:94-97 | a row with neither price field becomes an offer at price 0 |
| Offers.MapKeep | src/App.jsx:93-98 | `.map(f).filter(Boolean)` with objects or `null` never keeps more values than there are elements |
| Offers.MapKeepMembers | src/App.jsx:93-98 | a value is kept exactly when some element maps to it |
| Offers.MapKeepAppend | src/App.jsx:98 | `filter` keeps order and duplicates: what is kept of a concatenation is what is kept of each part, in order |
| Offers.MapKeepSource | src/App.jsx:93-98 | kept value i comes from an element whose predecessors give exactly the kept values before i |
| Offers.KeptOffers | src/App.jsx:93-98 | an offer is kept exactly when some row maps to it, and there are never more offers than rows |
| Offers.KeptOffersAppend | src/App.jsx:93-98 | the offers keep the row order: those of a concatenation of rows are those of the first part, then those of the second |
| Offers.KeptOffersOne | src/App.jsx:93-98 | one row gives its offer, or nothing when it maps to `null` |
| Offers.SortByPrice | src/App.jsx:98 | the sort keeps the length |
| Offers.SortSortsAndPermutes | src/App.jsx:98 | the result is in ascending price order and is a permutation of the input |
| Offers.SortStable | src/App.jsx:98 | offers at the same price keep their relative order (the sort is stable) |
| Offers.CityOffersShape | src/App.jsx:100-106 | a city result lists one to five offers in ascending price, `cheapest` is the first, and `mismatch` is false |
| Offers.CityOffersValue | src/App.jsx:98-105 | exposes the definition of a non-null city result: `cheapest` is the head and `offers` the first five of the sorted kept offers, with the given time |
| Offers.CityOffers | src/App.jsx:89-106 | `null` exactly for a failed response or when no row is kept; otherwise one to five offers, `cheapest` the first, the given time, `mismatch` false |
| Offers.CheapestIsMinimum | src/App.jsx:98-102 | `cheapest` is a kept offer and no kept offer is cheaper |
| Offers.OffersAreTopFive | src/App.jsx:98-103 | the listed offers are kept offers, and every kept offer left out costs at least as much as each listed one |
| Offers.CheapestIsFirstOfTheCheapest | src/App.jsx:92-102 | `cheapest` comes from a row of the response; no row gives a cheaper offer, and every earlier row that gives an offer gives a dearer one: among equally cheap offers the first row wins |
| Offers.FirstCheapestSource | src/App.jsx:98-102 | the first of the cheapest kept values comes from an element such that no element gives a cheaper one and every earlier one that gives a value gives a dearer one |
| Offers.TwoStoresExample | src/App.jsx:92-106 | a structured 4500 and a display "R$ 4.200,00" give `cheapest` at 4200 and the two offers in order |
| ProductList.SplitLines | src/App.jsx:125 | `split('\n')` gives at least one line and no line holds a '\n' |
| ProductList.JoinSplit | src/App.jsx:125 | joining the lines with '\n' gives the text back |
| ProductList.SplitJoin | src/App.jsx:125 | splitting joined lines that hold no '\n' gives the lines back |
| ProductList.TrimAll | src/App.jsx:125 | the `map` trims every line, one for one |
| ProductList.NonEmptyTrimmed | src/App.jsx:125 | `.map(s => s.trim()).filter(Boolean)` never gives more names than there are lines |
| ProductList.Products | src/App.jsx:125 | every product name is non-empty and trimmed |
| ProductList.ProductMembers | src/App.jsx:125 | a name is a product exactly when it is non-empty and is some line once trimmed |
| ProductList.ProductsOfJoin | src/App.jsx:125 | names that are trimmed, non-empty and free of '\n', written one per line, read back as the same names with order and duplicates |
| ProductList.ProductsAppendLine | src/App.jsx:125 | the products of two texts separated by '\n' are the products of the first followed by those of the second |
| ProductList.NoProductsIffBlank | src/App.jsx:125 | a text lists no product exactly when it is all white space |
| CitySelection.ToggledSelection | src/App.jsx:166-171 | the toggled code is selected exactly when it was not; every other code keeps its state; no duplicates |
| CitySelection.ToggleOnThenOff | src/App.jsx:166-171 | switching an unselected city on appends it, and switching it off again restores the selection exactly |
| CitySelection.ToggleOffThenOn | src/App.jsx:166-171 | switching a selected city off and on moves it to the end |
| CitySelection.ToggleTwiceReorders | src/App.jsx:166-171 | so ["SP", "RIO"] toggled twice at "SP" is ["RIO", "SP"] |
| CitySelection.ToggleTwiceSameMembers | src/App.jsx:166-171 | toggling the same code twice restores the set of selected codes |
| CitySelection.SelectAll | src/App.jsx:173-176 | the selection is cleared exactly when its length is that of the catalog, and is the whole catalog otherwise |
| CitySelection.SelectionStaysValid | src/App.jsx:166-176 | a selection of distinct catalog codes stays one after `selectAllCities`, and after `toggleCity` of a catalog code |
| CitySelection.FullLengthIsFullCatalog | src/App.jsx:174 | for a selection of distinct catalog codes, the length test means every city is selected |
| CitySelection.EightOfAnythingClears | src/App.jsx:174 | eight copies of "SP" are cleared, not completed: only the length is compared |
| Popover.PopoverWidth | src/App.jsx:208 | the width is 92% of the viewport or 420, whichever is smaller |
| Popover.PopoverPosition | src/App.jsx:208-210 | x is the centred position when that lies between the margins, the left margin when it lies left of them and both fit, and the right margin when it lies right of them or the margins cannot both hold; x never passes the right margin; y is 8 below the cell plus the scroll |
| Popover.WideViewportFits | src/App.jsx:208-209 | from a 300 px viewport on, the popover and both 12 px margins fit |
| Popover.NarrowViewportHugsRight | src/App.jsx:208-209 | below 300 px the right margin wins |
| Dashboard.KeepSelectedMembers | src/App.jsx:187-194 | a code is visited exactly when it is in the list and selected |
| Dashboard.KeepSelected | src/App.jsx:183-194 | the filter never keeps more codes than it is given, and every code it keeps is selected |
| Dashboard.SelectedCodes | src/App.jsx:187-194 | the visited cities are at most the eight catalog cities, and each is in `selectedSet` |
| Dashboard.KeepSelectedAppend | src/App.jsx:183 | `filter` keeps order and duplicates: what is kept of a concatenation is what is kept of each part, in order |
| Dashboard.KeepSelectedOne | src/App.jsx:183 | one element is kept exactly when it is selected |
| Dashboard.SelectedCodesShape | src/App.jsx:185-194 | the fan-out visits exactly the selected catalog cities, each once |
| Dashboard.TargetProducts | src/App.jsx:183 | there are never more targets than products |
| Dashboard.TargetProductsAppend | src/App.jsx:183 | the targets keep the products' order and duplicates: those of a concatenation are those of each part, in order |
| Dashboard.TargetProductMembers | src/App.jsx:183 | without `onlyProducts` every product is a target; with it, exactly the products it includes |
| Dashboard.EmptyOnlyProductsSelectsNothing | src/App.jsx:183 | an empty `onlyProducts` array is truthy, so no product is a target |
| Dashboard.TaskOutcome | src/App.jsx:195 | a task rejects exactly when its request fails; otherwise it resolves with `fetchCityOffers`' result for that response and time |
| Dashboard.InitialMatrix | src/App.jsx:184-188 | rows for exactly the products, each with a `null` cell for exactly the given codes |
| Dashboard.InitialMatrixCell | src/App.jsx:184-188 | the one-cell form of `InitialMatrix`'s contract: every product has a row holding `null` for every selected catalog city and nothing else |
| Dashboard.TaskList | src/App.jsx:191-197 | one task per target product and selected city |
| Dashboard.TaskRow | src/App.jsx:193-196 | one product starts one task per selected city |
| Dashboard.TaskListIndex | src/App.jsx:191-197 | task number i·n + j is product i in city j, with n selected cities |
| Dashboard.TaskListMembers | src/App.jsx:191-197 | a task is started exactly when its product is a target and its city is a selected catalog city |
| Dashboard.Write | src/App.jsx:195 | `next[p] ||= {}; next[p][c] = res` puts the result in its cell and leaves every other cell as it was |
| Dashboard.Run | src/App.jsx:195-198 | when every task rejects, the matrix is unchanged (that every cell survives is `RunKeeps`) |
| Dashboard.RunResolved | src/App.jsx:195 | a resolved task's result is in its cell afterwards; a task's outcome depends only on its product and city, so a duplicate task writes the same result (see "## Left out") |
| Dashboard.RunKeeps | src/App.jsx:195 | every cell survives the tasks, and one that no resolved task addresses keeps its value |
| Dashboard.RunShape | src/App.jsx:195 | tasks that address cells of the matrix add no product and no city to it |
| Dashboard.FanOutResult | src/App.jsx:183-198 | each target product's cell for a selected city holds its task's result, or `null` if the task rejected; other products keep `null` |
| Dashboard.FanOutShape | src/App.jsx:184-198 | the results have a row for exactly the products, each with a cell for exactly the selected catalog cities |
| Dashboard.SearchedCell | src/App.jsx:73-106 | a searched cell holds the city result built from that search's response, or `null` when the request failed |
| Dashboard.BuildMatrix | src/App.jsx:184-188 | the `products.forEach` builds the initial `null` matrix |
| Dashboard.BuildNullRow | src/App.jsx:187 | the inner loop builds one product's row of `null` cells |
| Dashboard.BuildTasks | src/App.jsx:191-197 | the nested loops start the tasks in the order `TaskList` gives |
| Dashboard.BuildTaskRow | src/App.jsx:193-196 | the inner loop starts one task per selected catalog city, in catalog order |
| Dashboard.RunTasks | src/App.jsx:195-198 | the settled matrix is `Run` of the tasks; the batch rejects exactly when some task rejects |
| Dashboard.FanOut | src/App.jsx:183-198 | the `try` body: the initial matrix, the task list and the settled matrix |
| Dashboard.GetPricesOn | src/App.jsx:179-205 | no key: `error` set, `hasRequested` false, no request, and `results`, `loading` and `lastUpdated` unchanged; otherwise every task is started, `results` is the settled matrix, `error` is whether a task rejected, `lastUpdated` changes only on success, and `loading` ends false |
| Dashboard.ClearWhenNoProducts | src/App.jsx:132-134 | the state goes back to empty exactly when a text with products becomes blank |
| Dashboard.App.constructor | src/App.jsx:59-123 | stored values or their defaults (every city selected), and the initial state |
| Dashboard.App.EditProducts | src/App.jsx:125-134 | the text is stored; `hasRequested` is cleared exactly when a text with products becomes blank; nothing else changes |
| Dashboard.App.ToggleCity | src/App.jsx:166-171 | the selection becomes `ToggledSelection` of the old one, built through an in-place Set; nothing else changes |
| Dashboard.App.SelectAllCities | src/App.jsx:173-176 | the selection becomes `SelectAll` of the old one; nothing else changes |
| Dashboard.App.GetPrices | src/App.jsx:179-205 | the state after `getPrices`, as `GetPricesOn` states it; text, selection, key and popover unchanged |
| Dashboard.App.OpenPopover | src/App.jsx:207-212 | the popover opens for that product and city at `PopoverPosition`; nothing else changes |
| I18n.InitialLang | src/i18n/i18n.js:5-7 | a stored non-empty language is the initial one; otherwise it is "pt-BR"; never empty |
| I18n.StoredUnknownLanguage | src/i18n/i18n.js:7-30 | a stored language without a dictionary is still taken, and `t` then reads the en-US texts |
| I18n.RawText | src/i18n/i18n.js:28-30 | the text comes from the language's dictionary, else from en-US, else it is the key |
| I18n.Translate | src/i18n/i18n.js:27-31 | without `vars`, or for a text without "{{", the looked-up text is returned as it is |
| I18n.EmptyEntryIsKept | src/i18n/i18n.js:30 | `??` keeps an empty entry: the translation is '' and the fallback is not asked |
| I18n.UnknownLanguageReadsFallback | src/i18n/i18n.js:28-30 | a language without a dictionary reads exactly like en-US |
| I18n.PlaceholderPrefixSound | src/i18n/i18n.js:24 | a match is `{{`, white space, a non-empty run of word characters (the captured name), white space, `}}` |
| I18n.PlaceholderPrefixFinds | src/i18n/i18n.js:24 | such a placeholder at the front is matched whole, with its name, whatever follows |
| I18n.PlaceholderPrefix | src/i18n/i18n.js:24 | a match covers at least the five characters of `{{x}}` and never more than the text |
| I18n.BeforeName | src/i18n/i18n.js:24 | a match found after k characters, in the white space before the name, covers at least k + 3 characters and never more than the text |
| I18n.InName | src/i18n/i18n.js:24 | a match found inside the name covers at least k + 2 characters and never more than the text |
| I18n.AfterName | src/i18n/i18n.js:24 | a match found after the name covers at least k + 2 characters (the closing `}}`) and never more than the text |
| I18n.Substitute | src/i18n/i18n.js:24 | a character that cannot start a match is copied to the front of the result |
| I18n.Interpolate | src/i18n/i18n.js:22-24 | without `vars`, or for a text without "{{", the text is returned as it is |
| I18n.NoPlaceholderUnchanged | src/i18n/i18n.js:24 | text without "{{" comes out unchanged |
| I18n.InertPrefix | src/i18n/i18n.js:24 | literal text in which no match can start is copied, and the scan resumes right after it |
| I18n.VarText | src/i18n/i18n.js:24 | `vars[k] ?? ''` as text: a missing or nullish value gives '', a string gives itself, a boolean gives "true" or "false" |
| I18n.SubstituteFills | src/i18n/i18n.js:24 | a template of literal text and placeholders comes out with each placeholder replaced by its value (or '' when missing or nullish), the literal text untouched; literal text holds no "{{", and may end in '{' only before a placeholder or at the end (see "## Left out") |
| I18n.BraceBeforePlaceholder | src/i18n/i18n.js:24 | "{{{x}}" with `x` = "v" gives "{v": the first '{' is literal |
| I18n.EmptyBracesKept | src/i18n/i18n.js:24 | "{{}} {{n}}" keeps the braces that hold no name and fills the placeholder after them |
| I18n.CopiedChar | src/i18n/i18n.js:24 | a character at which no match can start is copied, and the scan goes on after it |
| I18n.LoneBrace | src/i18n/i18n.js:24 | a '{' before a `{{` or at the end of the text is copied |
| I18n.ValueNotRescanned | src/i18n/i18n.js:24 | a value that itself looks like a placeholder is inserted as it is |
| I18n.SpacesAndMissingValue | src/i18n/i18n.js:24 | "{{ n }}!" with no `n` gives "!" |
| I18n.Calls | src/i18n/i18n.js:11 | `notify` calls each listener once, in Set order, with the language |
| I18n.CalledIffListening | src/i18n/i18n.js:11 | a listener is called exactly when it is registered |
| I18n.SubscribeTwiceCallsOnce | src/i18n/i18n.js:10-11 | adding a listener twice keeps one entry, so it is called once per change |
| I18n.UnsubscribedNotCalled | src/i18n/i18n.js:39 | a removed listener is not called |
| I18n.LanguageState.constructor | src/i18n/i18n.js:5-10 | module load: language from storage, copied to the document, no listeners |
| I18n.LanguageState.GetLang | src/i18n/i18n.js:20 | `getLang` returns the current language, which is the language the document shows |
| I18n.LanguageState.T | src/i18n/i18n.js:27-31 | `t` is the lookup and fill-in in the current language; without `vars` or "{{" it is the looked-up text |
| I18n.LanguageState.Notify | src/i18n/i18n.js:11 | the loop appends exactly `Calls(listeners, currentLang)` and changes nothing else |
| I18n.LanguageState.SetLang | src/i18n/i18n.js:13-19 | a language without a dictionary changes nothing; otherwise it becomes the current language, is stored and set on the document, and every listener is called with it; the document keeps showing the current language |
| I18n.LanguageState.Subscribe | src/i18n/i18n.js:38 | the listener Set becomes `SetAdd` of the old one |
| I18n.LanguageState.Unsubscribe | src/i18n/i18n.js:39 | the listener Set becomes `SetDelete` of the old one |

## Behaviour as written

Where a description of the dashboard and its code differ, the model follows the code:

- `parseBRLString` returns 0, not `null`, for text with no digit, ',' or '-'. This happens
  because `Number('')` is 0. A row with neither price field therefore becomes an offer at price 0.
- A row whose `extracted_price` is present but not a number (for example a string) is dropped.
  `??` does not fall through to the display text.
- Negative prices are accepted. The cleaning keeps a leading '-'.
- `selectAllCities` compares only the length of the selection with that of the catalog.
- `onlyProducts: []` is truthy and selects no product. A missing or falsy `onlyProducts` selects every
  product.
- When a task rejects, `results` still holds the results of the tasks that resolved. This is
  because `setResults(next)` shares the object that those tasks write into.
- The stored language is not checked against the dictionaries at load. Only `setLang` checks.
- The "back to the empty state" effect runs only when the number of products changes. Suppose
  `getPrices` runs on a blank list with a key set. `hasRequested` then stays true while the text
  stays blank.

## Left out

- Numbers are exact reals. NaN, the infinities, rounding and exponent notation are not
  represented.
  - `Number` is modelled only on the digits, ',', '.' and '-' that survive the cleaning.
  - `String(number)` is not modelled, so a number passed to `parseBRLString` or used as an
    interpolation value is outside the model.
- `formatBRL`, `nowTime`, `faviconFor`, the JSX rendering, the CSS-variable effect
  (`ResizeObserver`), the Escape handler, the settings panel and row selection are
  presentation and are not modelled.
- The timing jitter in `fetchCityOffers`, the HTTP request and `res.json()` are left out. A
  search is the parameter `fetch`, and a failure is `NetworkError`.
- `Dashboard.RunTasks` does not model concurrency.
  - The tasks settle one at a time in the order they were started, and a rejected task writes
    nothing.
  - Interleavings with other runs of `getPrices` or with edits made while a batch is pending are
    not modelled.
  - `Promise.all` rejecting early, while later tasks go on writing into `next`, is not
    modelled: `results` holds every resolved task's result.
- `Dashboard.GetPricesOn` and `Dashboard.App.GetPrices` take the outcome of every task as the
  function `Outcomes(fetch, apiKey, clock)`. `Dashboard.SearchedCell` unfolds that function for
  one cell.
- `Dashboard.RunResolved`, `Dashboard.FanOutResult` and `Dashboard.SearchedCell` rely on duplicate
  tasks sharing one outcome. `Outcomes` makes a task's outcome a function of its product and city
  alone. The search is deterministic per query, and the time is fixed per cell. In the source, two
  identical product lines start two separate `fetchCityOffers` calls for the same cell. Those calls
  can get different responses or times, or one can reject while the other resolves. The last one
  to settle wins. The model does not capture this.
- `localStorage`, `JSON.parse`/`JSON.stringify` and `document` are plain values or fields.
  Storage failures and malformed stored JSON are not modelled.
- `src/i18n/dicts.js` is not part of this model: the dictionaries are a parameter.
  Dictionary entries are strings. Inherited object properties (such as `constructor`) are not
  keys, neither in the dictionaries nor in `vars`.
- The results matrix (`next` and `results`) is a map as well. A product line `__proto__` would make
  `next[p] ||= {}` reach the object's prototype rather than create a key. The model does not
  capture this.
- I18n.SubstituteFills: does not cover literal text holding a "{{" that starts no match, such as
  "{{}} " or "a{{ b-c }}". It does not cover a literal piece ending in '{' that is followed by
  another literal piece either. `I18n.EmptyBracesKept` shows one such template.
- `I18n.Interpolate` takes `vars` as an optional map. `None` stands for every falsy `vars`.
- `I18n.LanguageState.Notify` does not model a listener that adds or removes listeners during
  `forEach`. Listeners are identified by a number, and their React state update is recorded as
  a call.
- `useI18n`'s React state and effect scheduling are reduced to `Subscribe` and `Unsubscribe`.
- `LangPicker` and the other components are not part of this model.
