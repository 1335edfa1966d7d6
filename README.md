# Easy bar menu: the spreadsheet-to-menu pipeline, modelled in Dafny

This project models the data core of the easy-bar-menu web app. The app is a bar
menu site whose content lives in a spreadsheet exported as CSV. The model covers:

- **The CSV tokenizer** (`Csv`). This is the character scanner shared by `parseCSV`
  and `parseUnifiedCSV` in `js/parser.js` and by the legacy `parseCSV` in `app.js`.
  It has quoting, doubled-quote escapes, CR/LF/CRLF row ends, trimming and a
  leading byte-order mark.
- **The record builders and the table demultiplexer** (`Parser`, `Keywords`).
  - `parseCSV` turns rows into header-keyed records, translating Italian
    headers through the forward keyword map.
  - `parseUnifiedCSV` cuts a marker row into runs of equal table names and
    slices every data row by those runs. It translates Italian keywords back
    through inverted maps.
- **The menu normaliser** (`Menu`): `getAllergens`, `getAllergenKeys` and
  `processMenuData` (active rows, category lookups, grouping, sorting, and the
  last update stamp).
- **The timeslot and content normalisers** (`Timeslots`): `processTimeslotsData`,
  `processContentData`, `processInfoData` and the day-range collapse
  `collapseTimeSlotDays`.
- **The helpers of `js/utils.js`** (`Utils`): `isTruthy`, `getNestedValue`,
  `parseNumber`, `parseTimeValue` and `parsePrice`.
- **Rendering logic** (`Render`): the diet and allergen filter, and the
  active/upcoming opening status shown in the hero (`getUpcomingSlots`,
  `parseTimeToMinutes`, `formatDuration`).
- **The translation fallback chains** (`I18n`): `t`, `tAllergen` and `tConfig`.
- **The legacy single-file app** (`Legacy`, `app.js`): its parser, truthiness,
  price reading, menu grouping, Italian-token filters and translation helpers.
- **The build scripts.**
  - `BuildIndex`: CSS custom property reading and `var()` resolution, and
    hreflang tags.
  - `BuildSeo`: `robots.txt` and `sitemap.xml`.
  - `BuildPages`: template placeholders, the language switch, canonical URLs,
    and the paragraph pass of the markdown converter.

Shared building blocks sit in `Text` and `Collections`:

- `Text` has JavaScript `trim`, `toLowerCase`, `split`, `join`, `replace`, and
  decimal reading.
- `Collections` has `filter`, `map`, stable `sort` by a numeric key, `slice`
  and de-duplication.
- `Values` holds records, JSON values and the `||` fallback.

Where the source mutates state step by step, the model has methods with loops
proved against specification functions. Examples are the tokenizer loop, the
marker scan, dictionary building, grouping, the collapse loop, the status
collection, the robots and sitemap builders, template replacement and the
paragraph pass. Pure filter and map chains are functions with lemmas.

The program's global state and environment become parameters:

- the configured CSV language and number format;
- the keyword and allergen catalogs;
- the active filters and the current language;
- the translation tables;
- the weekday and time of day;
- today's date.

## Model

| member | source | states |
|---|---|---|
| Csv.StripBom | js/parser.js:13 | One leading U+FEFF is removed and nothing else changes |
| Csv.Tokenize | js/parser.js:12-47 | The imperative character loop returns exactly the grid of the reference scanner `Grid` |
| Csv.RunQuoteToggle | js/parser.js:23-29 | A quote that is not a doubled quote inside a quoted field only toggles the in-quote flag |
| Csv.RunDoubledQuote | js/parser.js:24-26 | Inside quotes, `""` adds one literal quote to the field and consumes both characters |
| Csv.RunComma | js/parser.js:30-32 | An unquoted comma closes the trimmed field into the current row |
| Csv.RunLineEnd | js/parser.js:33-38 | Unquoted CR, LF or CRLF (one terminator) closes the trimmed field and the row |
| Csv.RunPlain | js/parser.js:39-41 | Any other character, including comma, CR and LF inside quotes, is appended to the field |
| Csv.EmptyText | js/parser.js:44-49 | Empty text gives no rows |
| Csv.BomIgnored | js/parser.js:13 | A leading byte-order mark does not change the rows |
| Csv.GridClean | js/parser.js:31-46 | Every row has at least one cell and every cell is trimmed, including a final unterminated row |
| Csv.RoundTrip | js/parser.js:19-47 | Quoting any grid of trimmed cells with a chosen terminator (LF, CR or CRLF) and scanning it gives the grid back, so a trailing terminator adds no extra row |
| Keywords.BuildReverse | js/parser.js:176-180 | The inversion loop returns the it→en map in which later entries overwrite earlier ones |
| Keywords.InverseStep | js/parser.js:177-179 | Each catalog entry `(en, it)` sets `reverse[it] := en` |
| Keywords.Lookup | js/parser.js:227 | A lookup succeeds exactly when the key is present with a non-empty value |
| Keywords.Translate | js/parser.js:58 | `map[h] \|\| h`: the mapped word when it is present and non-empty, else the input |
| Keywords.InverseKeys | js/parser.js:176-195 | The inverted map's keys are exactly the Italian words of the catalog |
| Keywords.InverseValue | js/parser.js:177-179 | An Italian word's last catalog entry decides its English word |
| Keywords.InverseForward | js/parser.js:168-200 | For an injective catalog, inverting and then looking up forward returns the Italian word |
| Keywords.ForwardInverse | js/parser.js:168-200 | For an injective catalog, looking up forward and then inverting returns the English word |
| Keywords.RoundTrip | js/parser.js:168-200 | For an injective catalog, the forward and inverse maps are mutually inverse on their domains |
| Parser.Slice | js/parser.js:216-218 | A column range of a row has exactly the range's width, and a missing cell reads as '' |
| Parser.KeyRow | js/parser.js:56 | Headers are lower-cased and trimmed one by one |
| Parser.TranslateRow | js/parser.js:57-59 | Each header is replaced by its forward translation when there is one |
| Parser.Pairs | js/parser.js:65-88 | One (header, value) pair per header, with the value translated as the row's language demands |
| Parser.RecordKeys | js/parser.js:64-90 | A record has exactly the header keys |
| Parser.RecordValue | js/parser.js:65-88 | A header that no later column repeats maps to its own cell |
| Parser.DataRows | js/parser.js:61-62 | No more rows come out than go in, and every kept row is an input row with more than one cell |
| Parser.DataRowsFilter | js/parser.js:61-62 | The kept rows are exactly the rows with more than one cell, in input order (`Filter` with the row-length test) |
| Parser.ParseCsv | js/parser.js:12-92 | `parseCSV` is the tokenizer followed by the record builder `CsvRecords` |
| Parser.CsvRecordsShape | js/parser.js:49-91 | There is one record per data row with more than one cell |
| Parser.CsvRecordValue | js/parser.js:56-91 | Outside Italian mode a record maps each header to its cell, and a missing cell becomes '' |
| Parser.CsvHeaderForward | js/parser.js:56-59 | In Italian mode a header listed in the forward column map becomes the mapped word |
| Parser.RunEnd | js/parser.js:153-166 | A run ends at the last column before the marker changes, and all columns in it share the marker |
| Parser.ScanColumn | js/parser.js:154-162 | One column step of the boundary scan keeps the scan state equal to that of the reference runs |
| Parser.TableRanges | js/parser.js:149-166 | The boundary loop returns exactly the maximal runs of equal markers |
| Parser.RunsCover | js/parser.js:149-166 | Every column lies in some range, any range containing it carries that column's marker, and the ranges are ordered and disjoint |
| Parser.HeaderSlice | js/parser.js:209 | `slice(start, end + 1)` on the header row, clamped as JavaScript clamps it |
| Parser.Demux | js/parser.js:204-250 | The result has exactly the five table names |
| Parser.CollectRow | js/parser.js:212-248 | One data row is appended to a table exactly when some cell in the table's range is non-blank |
| Parser.CollectRows | js/parser.js:211-249 | The row loop appends exactly the table's records from row 2 on |
| Parser.Demultiplex | js/parser.js:206-250 | The per-range loop yields the reference tables; ranges named by unknown markers are ignored |
| Parser.ParseUnifiedCsv | js/parser.js:97-253 | The whole of `parseUnifiedCSV` equals the reference `Unified` |
| Parser.UnifiedTooShort | js/parser.js:98-136 | Empty text or fewer than three rows gives all five tables empty |
| Parser.UnifiedTable | js/parser.js:204-250 | Each table gathers, in range order, the rows of every range carrying its name |
| Parser.TableRowsShape | js/parser.js:211-249 | A range contributes one record per data row that is not blank across the range |
| Parser.RowRecordValue | js/parser.js:213-248 | Outside Italian mode a record maps each sliced header to the cell in its own column |
| Parser.ItalianValueTranslated | js/parser.js:223-229 | In Italian mode an Italian keyword value is replaced by its English word |
| Menu.FlaggedColumns | js/parser.js:257 | A column is flagged exactly when its cell is truthy |
| Menu.FlaggedSound | js/parser.js:255-258 | Every reported allergen is a catalog entry whose column is flagged |
| Menu.FlaggedComplete | js/parser.js:255-258 | Every catalog entry whose column is flagged is reported |
| Menu.GetAllergensMembers | js/parser.js:255-260 | An allergen is listed exactly when it is in the catalog and its column is truthy |
| Menu.GetAllergensSorted | js/parser.js:259 | The list is sorted by allergen number, ties keep catalog order, and it is a permutation of the flagged entries |
| Menu.AllergenKeysFlagged | js/parser.js:262-264 | The keys are the flagged columns in catalog order |
| Menu.OrderValue | js/parser.js:277 | `parseFloat(x) \|\| 999`: the parsed number unless it is missing, not a number or zero, then 999 |
| Menu.OrderEntries | js/parser.js:276-278 | One order entry per category row, keyed by the raw `id` |
| Menu.LabelEntries | js/parser.js:289-295 | One label entry per category row, keyed by the lower-cased `category_id \|\| id`, with labels falling back to the key |
| Menu.OrderMapValue | js/parser.js:275-278 | The last category row with an id decides that id's order |
| Menu.BuildOrderMap | js/parser.js:275-278 | The order lookup loop returns the reference order map |
| Menu.BuildLabelMap | js/parser.js:288-295 | The label lookup loop returns the reference label map |
| Menu.Active | js/parser.js:280 | No more rows come out than go in, and every kept row is an input row with a truthy `active` |
| Menu.ActiveFilter | js/parser.js:280 | The kept rows are exactly the rows with a truthy `active`, in input order (`Filter` with the `isTruthy` test) |
| Menu.Stamps | js/parser.js:283-284 | The trimmed `last_updated` of every row |
| Menu.LastUpdateLatest | js/parser.js:282-285 | The stamp is the last non-blank trimmed `last_updated` over all rows, active or not, or none when all are blank |
| Menu.LatestUpdate | js/parser.js:282-285 | The stamp loop returns the reference stamp |
| Menu.MakeItem | js/parser.js:314-325 | An item's order is its index among the active rows |
| Menu.BlankTypeStandard | js/parser.js:312 | A blank `type` becomes `standard` |
| Menu.FindCat | js/parser.js:302 | The lookup finds the category with that id, or reports that none has it |
| Menu.RowIds | js/parser.js:299 | Each row's category id is its lower-cased, trimmed `category`, with `other` as default |
| Menu.RowItems | js/parser.js:298-325 | One item per active row, built from that row and its index |
| Menu.AddItemNew | js/parser.js:302-310 | A new id opens a category with the looked-up labels and order (999 when unlisted) holding just this item |
| Menu.AddItemOld | js/parser.js:314-325 | A known id appends the item to its category and leaves every other category unchanged |
| Menu.GroupInvariant | js/parser.js:297-326 | Grouping gives categories with distinct ids, each non-empty, with the order and labels the lookups give its id, holding exactly that id's items in row order |
| Menu.GroupByIds | js/parser.js:297-310 | The category ids are the distinct row ids in first-seen order, and each category has the order the categories table gives its id |
| Menu.PushItem | js/parser.js:302-325 | One grouping step equals the reference step |
| Menu.GroupRow | js/parser.js:298-326 | One row of the grouping loop preserves the grouping invariant |
| Menu.GroupRows | js/parser.js:297-326 | The grouping loop returns the reference grouping |
| Menu.SortedGroupsOrder | js/parser.js:297-330 | Categories come out in ascending order; the categories of one order are the same as before sorting, and their ids are the distinct row ids with that order in first-seen order |
| Menu.SortedGroupsSound | js/parser.js:297-330 | Every output category is non-empty, carries the looked-up order and labels of its id, and holds only items of rows with that id |
| Menu.SortedGroupsComplete | js/parser.js:297-330 | Every active row's item is in its category |
| Menu.ActiveRowShown | js/parser.js:280-330 | Every row of the sheet with a truthy `active` reaches the menu: its item, numbered by its place among the active rows, is in the category of its id |
| Menu.MenuCategories | js/parser.js:269-333 | Item orders are 0..k-1 over the active rows, and the categories are the grouping of those rows sorted by order |
| Menu.ProcessMenuData | js/parser.js:269-333 | The whole of `processMenuData` equals the reference `ProcessMenu` |
| Timeslots.DayNumber | js/parser.js:340 | `mon`..`sun` map to 1..7 and every other text to no day |
| Timeslots.TimeslotRow | js/parser.js:343-369 | A row is skipped exactly when it has no slot id or no mon..sun day; it carries an entry exactly when open and close are both non-empty |
| Timeslots.TimeslotRows | js/parser.js:342-370 | Each row is read on its own |
| Timeslots.InfoRows | js/parser.js:455-481 | Each legacy info row is read on its own |
| Timeslots.FindSlot | js/parser.js:349 | The lookup finds the slot with that id, or reports that none has it |
| Timeslots.AcceptedIds | js/parser.js:347-349 | Every accepted row's slot id is listed |
| Timeslots.Ids | js/parser.js:372 | The ids of the slots in slot order |
| Timeslots.ScheduleAbsent | js/parser.js:349-358 | A slot not yet seen has an empty schedule |
| Timeslots.CollectSpec | js/parser.js:342-372 | The slots are the distinct accepted ids in first-seen order; the first row fixes labels and flags, and the schedule holds every later entry of that id in row order |
| Timeslots.SkippedRow | js/parser.js:347 | A row without a slot id or a valid day changes nothing |
| Timeslots.PublishLists | js/parser.js:374-383 | The hero and info lists hold exactly the slots with their flag set; each info slot carries its own schedule collapsed by the corrected rule (equal hours), not by the key comparison of js/parser.js:546-548 |
| Timeslots.ForInfo | js/parser.js:379-382 | Each info slot is paired with the corrected collapse (equal hours) of its own schedule |
| Timeslots.PushSlotRow | js/parser.js:349-369 | One slot step equals the reference step |
| Timeslots.SlotStep | js/parser.js:342-370 | One row of the loop advances the state by that row |
| Timeslots.ProcessTimeslotsData | js/parser.js:338-384 | The whole of `processTimeslotsData` equals the reference `ProcessTimeslots`, whose info schedules use the corrected collapse |
| Timeslots.ItemOf | js/parser.js:415-431 | Exactly `text` and `cta` rows produce content items |
| Timeslots.LastHeader | js/parser.js:399-414 | A menu header is the one from the last row of its type, or none when there is no such row |
| Timeslots.ContentStep | js/parser.js:396-433 | One content row advances the content state by that row |
| Timeslots.ProcessContentData | js/parser.js:389-436 | The whole of `processContentData` equals the reference `ContentOf` |
| Timeslots.InfoStep | js/parser.js:454-516 | One legacy row advances both the slot state and the content state |
| Timeslots.ProcessInfoData | js/parser.js:441-528 | The whole of `processInfoData` equals the reference `ProcessInfo`, whose info schedules use the corrected collapse |
| Timeslots.RunsBy | js/parser.js:542-563 | There are no more runs than entries, and no runs exactly when there are no entries |
| Timeslots.RunsOrdered | js/parser.js:545-563 | Every run starts no later than it ends |
| Timeslots.RunsExpand | js/parser.js:545-563 | Expanding the runs day by day gives the sorted entries back (nothing lost, nothing invented) |
| Timeslots.RunsMaximal | js/parser.js:548 | No run could have been extended by the next run's first entry |
| Timeslots.CollapseSpec | js/parser.js:533-577 | Empty input gives []; the entries are sorted by day as a permutation; the runs expand to them; each range is the formatted run |
| Timeslots.FormatAll | js/parser.js:566-577 | One day range per run |
| Timeslots.FormatShape | js/parser.js:567-575 | A one-day run shows one day name, a longer one shows `start - end` in both languages, and the times are `open - close` |
| Timeslots.CollapseLoop | js/parser.js:542-563 | The imperative loop returns exactly the reference runs |
| Timeslots.CollapseTimeSlotDays | js/parser.js:533-578 | The method returns the collapse by equal hours |
| Timeslots.HoursKeyInjective | js/parser.js:546 | The key `open-close` identifies the hours when `open` has no dash |
| Timeslots.CollapseAgree | js/parser.js:546-548 | When no opening time contains a dash, the key comparison as written agrees with comparing the hours |
| Timeslots.CollapseKeyCollision | js/parser.js:546-548 | Two days with different hours merge into one range as written |
| Utils.IsTruthyWords | js/utils.js:8-12 | True exactly for true, 1, x, si, sì, yes and vero after lower-casing and trimming; '' is false |
| Utils.IsTruthyNormal | js/utils.js:10 | Case and surrounding white space never change the answer |
| Utils.Member | js/utils.js:32 | `result?.[key]` is defined exactly for an object that has the key |
| Utils.FollowConcat | js/utils.js:31-34 | Following a path in two parts is following it at once |
| Utils.FollowPrefixes | js/utils.js:33 | Once a prefix of the path is missing, the whole lookup is undefined |
| Utils.GetNestedValue | js/utils.js:27-36 | The loop returns the reference lookup, undefined when the object or path is missing |
| Utils.NestedSingle | js/utils.js:29-35 | A path without dots reads one field |
| Utils.ParseNumberFormats | js/utils.js:41-49 | Without a comma, the Italian and US formats read the same number |
| Utils.JsRem | js/utils.js:73 | JavaScript `%` truncates toward zero: it agrees with `%` for non-negative operands and is never positive for negative ones |
| Utils.Round | js/utils.js:71 | `Math.round` gives the integer within half a unit, ties upward |
| Utils.DayMinutes | js/utils.js:71 | A non-negative day fraction gives non-negative minutes |
| Utils.TwoDigits | js/utils.js:75 | Numbers below 100 are written as exactly two digits carrying their value |
| Utils.ClockShape | js/utils.js:72-75 | For a non-negative total the text is `HH:MM` with HH = (total div 60) mod 24 < 24 and MM = total mod 60 < 60 |
| Utils.ParseTimeValueText | js/utils.js:54-68 | Empty gives ''; a value with `:` is returned trimmed; an unparsable value is returned trimmed, with its first comma replaced by a dot in Italian format |
| Utils.ParseTimeValueClock | js/utils.js:67-75 | A parsable value is written as the clock of its rounded day minutes |
| Utils.ParsePrice | js/utils.js:81-85 | Empty gives no price; an unparsable value is returned trimmed; otherwise the amount is the number `parseNumber` reads |
| Render.DietRules | js/render.js:64-79 | Vegan keeps only vegan items, vegetarian keeps vegetarian and vegan items, and an item with an excluded allergen is dropped |
| Render.Narrow | js/render.js:63-83 | A filtered category keeps all its other fields |
| Render.NarrowItems | js/render.js:64-80 | An item survives exactly when it was in the category and passes the filter |
| Render.ApplyFilters | js/render.js:59-85 | There are never more categories out than in |
| Render.ApplyFiltersConcat | js/render.js:59-85 | Filtering distributes over concatenation, so category order is kept |
| Render.ApplyFiltersSound | js/render.js:59-85 | Every output category is non-empty and is some input category, narrowed |
| Render.ApplyFiltersComplete | js/render.js:59-85 | Every input category that keeps some item is in the output |
| Render.ApplyFiltersItems | js/render.js:59-85 | An item is shown exactly when it was in some category and passes the filter |
| Render.ApplyFiltersVegan | js/render.js:66-68 | Under the vegan diet every shown item is vegan |
| Render.ApplyFiltersVegetarianKeepsVegan | js/render.js:69-71 | The vegetarian diet never drops a vegan item without an excluded allergen |
| Render.ApplyFiltersFixed | js/render.js:59-85 | Categories that the filter leaves alone and that are non-empty come out unchanged |
| Render.ApplyFiltersIdempotent | js/render.js:59-85 | Filtering twice gives the same as filtering once |
| Render.ApplyFiltersNone | js/render.js:74-77 | With no diet and no exclusions only the empty categories are dropped |
| Render.ParseClock | js/render.js:760-763 | `h*60+m` of a clock written by `parseTimeValue` is its total minutes modulo a day |
| Render.ParseTimeRoundTrip | js/render.js:760-763 | Reading back a converted day fraction gives its rounded minutes within the day |
| Render.Classify | js/render.js:706-728 | A non-crossing entry is active iff open ≤ now < close and upcoming iff now < open; a crossing entry is active iff now ≥ open or now < close, else upcoming |
| Render.Label | js/render.js:698 | The label in the current language, else the English label, else the slot id |
| Render.IsoWeekday | js/render.js:692 | Sunday (0) becomes 7, and other days keep their number |
| Render.LineShape | js/render.js:730-747 | A pushed status carries the slot's label and kitchen flag; active means zero minutes, upcoming means open − now |
| Render.EntryStatusShape | js/render.js:700-747 | Only entries for today produce a status |
| Render.StatusesSound | js/render.js:697-749 | Every collected status comes from a slot entry for today |
| Render.StatusesComplete | js/render.js:697-749 | Every entry for today that is active or upcoming is collected |
| Render.LineWaits | js/render.js:730-746 | A status is active exactly when it waits zero minutes, and an upcoming one waits a positive time |
| Render.UpcomingSlotsSpec | js/render.js:687-757 | The first three sorted statuses (all of them when fewer), active first, then ascending wait, all drawn from the collected ones; no hero list gives [] |
| Render.GetUpcomingSlots | js/render.js:687-758 | The method returns the reference `UpcomingSlots` |
| Render.PushSlot | js/render.js:697-749 | One slot of the outer loop appends that slot's statuses |
| Render.FormatDuration | js/render.js:765-771 | Under an hour it shows the minutes, otherwise the rounded hours |
| Render.RoundedHours | js/render.js:769 | The hours are the nearest whole hours to any wait, fractional ones included, and at least one from 60 minutes on |
| I18n.Table | js/i18n.js:60 | The loaded table of a language, if any |
| I18n.Either | js/i18n.js:60-62 | `a \|\| b`: a when truthy, else b |
| I18n.FallbackLanguage | js/i18n.js:58 | The configured fallback language, or `en` when none is set |
| I18n.T | js/i18n.js:56-63 | The current language's value if truthy, else the fallback language's, else the key |
| I18n.TAllergen | js/i18n.js:68-76 | The same chain over the `allergens` sub-table |
| I18n.TConfig | js/i18n.js:81-86 | A non-object gives itself or the default; an object gives `obj[lang] \|\| obj[fallback] \|\| default` |
| I18n.TNeverFalsy | js/i18n.js:56-63 | For a non-empty key the answer is never falsy |
| I18n.TSameLanguage | js/i18n.js:56-63 | When the fallback is the current language only one table is consulted |
| I18n.TNothingLoaded | js/i18n.js:56-63 | With neither table loaded the key itself is returned |
| I18n.TPlainKey | js/i18n.js:56-63 | A dot-free key present in the current table reads that entry |
| I18n.TAllergenIsT | js/i18n.js:68-76 | For a dot-free key, `tAllergen(k)` agrees with `t('allergens.' + k)` whenever either table has the entry |
| I18n.TConfigTruthy | js/i18n.js:81-86 | A truthy default makes the answer truthy |
| Legacy.LegacyTruthyVero | app.js:304-308 | The legacy test is the current one without `vero` |
| Legacy.VeroNotFlagged | app.js:317-326 | A cell reading `vero` flags an allergen in the current code but not in the legacy app |
| Legacy.ParseCsv | app.js:252-302 | The legacy parser is the shared tokenizer plus the record builder with no translation |
| Legacy.ParseLegacyPrice | app.js:310-315 | Empty gives no price; an unparsable value is returned with its first comma replaced, untrimmed; otherwise the amount read after that replacement |
| Legacy.LegacyPriceAgrees | app.js:310-315 | For trimmed comma-free text the legacy and the current price reading agree |
| Legacy.LegacyAllergens | app.js:317-322 | An allergen is listed exactly when it is in the catalog and its cell is legacy-truthy |
| Legacy.LegacyAllergenKeys | app.js:324-326 | The keys are the legacy-flagged columns in catalog order |
| Legacy.CatName | app.js:349 | A missing category becomes `Altro` |
| Legacy.RowNames | app.js:348-349 | One category name per active row |
| Legacy.RowOrders | app.js:353 | One category order per active row |
| Legacy.LegacyItems | app.js:358-370 | One item per active row |
| Legacy.SortAllItems | app.js:373 | Every category's items are sorted, and the categories stay in place |
| Legacy.GatherSpec | app.js:347-371 | Grouping gives one category per distinct name, its order from its first row, and its items in row order |
| Legacy.BucketMembers | app.js:360 | A category holds exactly the items of the rows with its name |
| Legacy.FirstOrderFirst | app.js:350-355 | A category's order is that of its first row |
| Legacy.ArrangeSpec | app.js:373-377 | The output is sorted by order, each category holds its rows' items sorted by product order, and every active name appears |
| Legacy.ArrangeDistinct | app.js:347-377 | No two output categories share a name |
| Legacy.ArrangePermutes | app.js:376 | Sorting the categories is a permutation |
| Legacy.ArrangeItems | app.js:360-373 | An item is in a category exactly when some row with that name produced it |
| Legacy.LegacyMenuSorted | app.js:376 | Categories come out in ascending order |
| Legacy.LegacyMenuCovers | app.js:340-376 | Every active row's category appears |
| Legacy.LegacyMenuNamed | app.js:340-376 | Every category is named by some active row |
| Legacy.LegacyOnlyActive | app.js:340 | Only rows with a legacy-truthy `attivo` take part |
| Legacy.PushLegacyItem | app.js:349-370 | One grouping step equals the reference step |
| Legacy.GatherRows | app.js:348-371 | The grouping loop returns the reference grouping |
| Legacy.SortEachCategory | app.js:373 | The in-place sorting loop sorts every category's items |
| Legacy.ProcessMenuData | app.js:339-379 | The whole of the legacy `processMenuData` equals `LegacyMenu` |
| Legacy.LegacyFilterVegan | app.js:392-394 | Under the vegan diet every shown item is `vegano` |
| Legacy.LegacyFilterVegetarian | app.js:395-397 | Under the vegetarian diet an item is shown exactly when it is `vegetariano` or `vegano` and has no excluded allergen |
| Legacy.LegacyFilterIdempotent | app.js:385-411 | Filtering twice gives the same as filtering once |
| Legacy.LegacyTIsT | app.js:209-212 | With both tables loaded, the legacy `t` is the current `t` with `it` as fallback |
| Legacy.LegacyTAllergenIs | app.js:214-217 | The legacy `tAllergen` is the current chain with `it` as fallback, and never falsy for a non-empty key |
| BuildIndex.NameEndSpec | scripts/build-index.js:23 | `[\w-]+` stops at the first character that is not a word character or dash |
| BuildIndex.IndexFromSpec | scripts/build-index.js:23 | `[^;]+;` ends at the first `;` |
| BuildIndex.MatchAt | scripts/build-index.js:23 | A match ends past its start and within the text |
| BuildIndex.ParseCssVariables | scripts/build-index.js:21-33 | The scanning loop returns the reference variable map |
| BuildIndex.NextMatch | scripts/build-index.js:26 | Each `exec` finds the next match or steps past a non-match, consuming at least one character |
| BuildIndex.DeclarationsWellFormed | scripts/build-index.js:27-29 | Every variable name is a non-empty run of name characters, and every value is trimmed |
| BuildIndex.LastDeclarationWins | scripts/build-index.js:29 | The last definition of a name decides its value |
| BuildIndex.DeclareTable | scripts/build-index.js:21-33 | Writing well-formed declarations as `--name: value;` and parsing them gives them back, the last one winning |
| BuildIndex.VarRef | scripts/build-index.js:51 | A `var(--x)` reference names a non-empty x without `)` |
| BuildIndex.VarRefOf | scripts/build-index.js:51-53 | `var(--name)` yields name |
| BuildIndex.ResolveCssVariable | scripts/build-index.js:38-59 | Past depth 10 the result is null; a missing or empty variable gives null; a value without `var()` is returned unchanged; a reference resolves its target at depth+1 |
| BuildIndex.ResolveCycle | scripts/build-index.js:39-54 | A set of variables that only refer to each other resolves to null at any depth |
| BuildIndex.ResolveSelfReference | scripts/build-index.js:39-54 | A variable referring to itself resolves to null |
| BuildIndex.ResolveDeeper | scripts/build-index.js:38-59 | A resolution that succeeds from a deeper start succeeds identically from a shallower one |
| BuildIndex.AlternateLines | scripts/build-index.js:234-239 | One alternate line per supported language, in list order |
| BuildIndex.GenerateHreflangTags | scripts/build-index.js:227-245 | The method joins exactly the reference lines with `\n` |
| BuildIndex.HreflangShape | scripts/build-index.js:228-244 | There are n+2 lines: canonical first, then one alternate per language, then x-default pointing at `baseUrl/` |
| BuildIndex.RootIsDefault | scripts/build-index.js:235-237 | A language's URL is `baseUrl/` exactly when it is the default language |
| BuildIndex.HreflangSplit | scripts/build-index.js:244 | Splitting the text on newlines gives the lines back |
| BuildSeo.GenerateRobotsTxt | scripts/build-seo.js:55-89 | The method joins exactly the reference robots lines with `\n` |
| BuildSeo.RulesDirectives | scripts/build-seo.js:66-81 | The rule block's directives are `Allow: /` plus the folder and tab disallows, or `Disallow: /` alone |
| BuildSeo.RobotsDirectives | scripts/build-seo.js:55-89 | The whole file's Allow/Disallow lines are those of the rule block |
| BuildSeo.RobotsSwitch | scripts/build-seo.js:66-81 | `Disallow: /` is present exactly when indexing is off, and `Allow: /` exactly when it is on |
| BuildSeo.BlanketNotAllowed | scripts/build-seo.js:66-78 | Indexing on never blocks the whole site |
| BuildSeo.RobotsEnd | scripts/build-seo.js:83-88 | The text ends with `Sitemap: <baseUrl>/sitemap.xml` and a newline |
| BuildSeo.RobotsLabel | scripts/build-seo.js:60 | The comment says ENABLED exactly when indexing is on |
| BuildSeo.Settings | scripts/build-seo.js:92-95 | Each setting is the configured value, else its default (`privacy-cookie-policy`, `allergens`, `it`, `[en, it]`) |
| BuildSeo.AlternatesInOrder | scripts/build-seo.js:145-150 | The alternate links are one per supported language with a URL, in language order |
| BuildSeo.GroupEntriesInOrder | scripts/build-seo.js:134-156 | A group's entries are one per supported language with a URL, in language order |
| BuildSeo.AppendAlternates | scripts/build-seo.js:145-150 | The inner loop appends exactly the group's alternate links |
| BuildSeo.AppendEntry | scripts/build-seo.js:137-155 | One `<url>` entry is appended: loc, lastmod, changefreq, priority, alternates and x-default |
| BuildSeo.AppendVariant | scripts/build-seo.js:135-155 | A language without a URL in the group adds nothing |
| BuildSeo.AppendGroup | scripts/build-seo.js:134-156 | The language loop appends exactly the group's entries |
| BuildSeo.AppendGroups | scripts/build-seo.js:132-157 | The group loop appends exactly the entries of all groups in order |
| BuildSeo.GenerateSitemapXml | scripts/build-seo.js:91-161 | The method returns the reference sitemap |
| BuildSeo.SitemapFrame | scripts/build-seo.js:128-160 | The sitemap starts with the XML declaration and `<urlset` opener and ends with `</urlset>\n` |
| BuildSeo.PageGroupVariants | scripts/build-seo.js:98-126 | Each page group has URLs for exactly `it` and `en` |
| BuildSeo.PagesEntries | scripts/build-seo.js:132-157 | The entries are the main, privacy and allergens groups' entries, in that order |
| BuildSeo.SitemapEntries | scripts/build-seo.js:91-161 | The sitemap's body is one entry per (group, supported language with a URL) pair, groups in order |
| BuildPages.Replacements | scripts/build-pages.js:154-161 | Six placeholder/value pairs in source order, each value from legal, then branding/contact, then a literal default |
| BuildPages.ReplaceTemplateVars | scripts/build-pages.js:153-168 | The loop applies the six replacements in order, each to every occurrence |
| BuildPages.ApplyAllAbsent | scripts/build-pages.js:163-166 | Text containing none of the patterns is unchanged |
| BuildPages.TemplateWithoutPlaceholders | scripts/build-pages.js:153-168 | Content without placeholders is returned unchanged |
| BuildPages.TemplateStep | scripts/build-pages.js:165 | Each step splits the text at every occurrence of its placeholder and joins the pieces with the value; joining them with the placeholder gives the text back, and no piece contains it |
| BuildPages.TemplateDefaults | scripts/build-pages.js:155-160 | With an empty configuration the values are the literal defaults and today's date |
| BuildPages.LegalWins | scripts/build-pages.js:155-160 | A non-empty legal field always wins |
| BuildPages.WithoutLegal | scripts/build-pages.js:155-160 | Without legal fields the values come from branding/contact or the defaults |
| BuildPages.IndexIn | scripts/build-pages.js:179 | `indexOf`: the first index holding the language, or -1 when absent |
| BuildPages.SupportedLanguages | scripts/build-pages.js:176 | The configured list, else `[en, it]` |
| BuildPages.NextLanguage | scripts/build-pages.js:179-181 | No target exactly for an empty list, and otherwise a listed language |
| BuildPages.NextAfter | scripts/build-pages.js:179-181 | The target is the next language in the list, wrapping from last to first |
| BuildPages.NextUnlisted | scripts/build-pages.js:179-181 | An unlisted language leads to the first one |
| BuildPages.NextDiffers | scripts/build-pages.js:179-181 | In a list of two or more distinct languages the target is never the current language |
| BuildPages.DefaultToggle | scripts/build-pages.js:176-181 | With the default list, `en` and `it` switch to each other |
| BuildPages.CanonicalOwnPage | scripts/build-pages.js:196-198 | For `en` or `it` the canonical URL is the page's own, and it is always one of the two |
| BuildPages.CanonicalFallback | scripts/build-pages.js:198 | Every language other than `en` uses the `it` URL |
| BuildPages.CanonicalDistinct | scripts/build-pages.js:196-198 | The `en` and `it` canonical URLs differ |
| BuildPages.ParagraphPass | scripts/build-pages.js:114-141 | The line loop returns the reference paragraph pass |
| BuildPages.ProcessLineRule | scripts/build-pages.js:117-139 | A blank line becomes ''; a line whose trimmed text starts with `<` is kept as is (the six tag tests add nothing); any other line becomes `<p>trimmed</p>` |
| BuildPages.ProcessLineMarkup | scripts/build-pages.js:117-139 | Every processed line is blank or starts with `<` once trimmed |
| BuildPages.ProcessLineIdempotent | scripts/build-pages.js:117-139 | Processing a line twice gives the same as once |
| BuildPages.ParagraphLines | scripts/build-pages.js:114-141 | The output has one line per input line, each processed on its own |
| BuildPages.ParagraphsIdempotent | scripts/build-pages.js:114-141 | The pass applied twice gives the same as once |

## Findings

| source | as written | input that shows it | evidently intended | confidence | as-written member | corrected member |
|---|---|---|---|---|---|---|
| js/parser.js:546-548 | Consecutive days are merged when the joined key `${open}-${close}` is equal | Monday open `10:00-11:00` close `12:00` and Tuesday open `10:00` close `11:00-12:00` share the key `10:00-11:00-12:00`, so they merge into one range "Monday - Tuesday" that shows Monday's hours for both | Merge only when open and close are each equal | not executed | Timeslots.CollapseKeyCollision | Timeslots.CollapseSpec |

The corrected collapse (`Timeslots.Collapse`, computed by
`Timeslots.CollapseTimeSlotDays`) compares the hours themselves.
`Timeslots.CollapseAgree` shows that it agrees with the code as written
whenever no opening time contains a dash. That covers every `HH:MM` value,
but `parseTimeValue` returns any text containing `:` trimmed and otherwise
unchanged (js/utils.js:54-68), so a dash inside an opening time can reach the
comparison from the spreadsheet.

## Left out

- The browser and Node glue is not modelled: `fs` reads and writes, the
  `build()` drivers, `fetch`, the DOM, events, timers, `history`,
  `localStorage`, `js/main.js` and `js/state.js`. It is I/O with no logic of
  its own.
- scripts/generate-colors.js and generate_colors.js are not part of this model.
  They wrap an external colour library.
- The clock is a parameter: weekday, hours and minutes for `getUpcomingSlots`,
  and today's date for `lastUpdated`.
- `parseFloat` and `Number` are modelled as exact decimal reading into reals.
  Binary rounding, exponents, `Infinity` and hex are not modelled, nor is
  `toFixed(2)` rounding: a price is kept as its parsed amount.
- `formatPrice` (js/utils.js:90-109) is left out. It is `Intl.NumberFormat`
  formatting.
- `escapeHTML` is left out. It uses the DOM.
- `loadTranslations` is left out. It uses `fetch`.
- JavaScript object key order is modelled as insertion order. The rule that
  integer-like keys come first is not modelled, so a category id such as `1`
  could be ordered differently in the source (the `categories` objects of
  js/parser.js:297 and app.js:350). Time slots are kept in a `Map`
  (js/parser.js:339, 451), which keeps insertion order, so they are not
  affected.
- A missing record field and '' are treated alike wherever the source uses
  `||`. Non-string configuration values, for example a number as a company
  name, are not modelled.
- The markdown regex rewrites (scripts/build-pages.js:86-111) and the
  `<ul>`/`<p>` clean-ups after the paragraph pass (scripts/build-pages.js:143-147)
  are left out. They are regex-over-HTML rewriting.
- The HTML navbar reordering in scripts/build-index.js is left out for the same
  reason.
- The page HTML template, the flag and language labels, and the switch link
  markup of `generatePageHtml` are left out. Only the target language and the
  URLs are modelled.
- `getThemeColorFromCSS` (scripts/build-index.js:64-80) is left out. It is a
  file read plus the `#1c100f` fallback around `ResolveCssVariable`.
- The copies of `parseCSSVariables` and `resolveCSSVariable` in
  scripts/build-pages.js:24-62 are the same code as in scripts/build-index.js.
  They are modelled once, by the `BuildIndex` members.
- BuildPages.ReplaceTemplateVars: `$` patterns (`$&`, `$1`) inside replacement
  values are taken literally. JavaScript's `String.replace` would expand them.
- BuildSeo.GenerateSitemapXml: when the default language has no URL in a group,
  the source writes `undefined` into the x-default link. The model reproduces
  this through the group's URL lookup, but no lemma states it separately.
- BuildSeo.RobotsDirectives: the directives are stated over the list of lines
  before joining. Splitting the joined text back into lines is not proved.
- Render.UpcomingSlotsSpec: the comparator is modelled as a stable sort by
  minutes until open. This orders the statuses the source produces as its
  comparator does, because an active status always waits 0 minutes and an
  upcoming one a positive time (Render.LineWaits).
- Timeslots.ProcessTimeslotsData: `parseTimeValue` with a non-numeric format
  string behaves as US format, as in the source. A missing `csvNumberFormat`
  is passed as ''.
- Timeslots.ProcessTimeslotsData: the info schedules are collapsed by the
  corrected rule (`Timeslots.Collapse`, equal opening and equal closing time),
  not by the joined-key comparison of js/parser.js:546-548. The two differ
  only when an opening time contains a dash (see "## Findings" and
  `Timeslots.CollapseAgree`); there the source merges days the model keeps
  apart.
- Timeslots.ProcessInfoData: the same difference for the info slots of the
  legacy info table.
- Timeslots.PublishLists: each info schedule is the corrected collapse, so it
  differs from the source in the same case.
- Timeslots.ForInfo: pairs each info slot with the corrected collapse, with
  the same difference.
- Utils.Member: `result?.[key]` on an array or a string is modelled as
  undefined. In the source an array yields its element for an index key such
  as `0`, and a string yields `length` or a character (js/utils.js:31-33).
- Utils.Member: inherited names (`constructor`, `__proto__`, `toString`) are
  treated as absent, as in every other property lookup of the model. In the
  source they are present.
- Timeslots.DayNumber: a day written `constructor` (or another inherited
  name) passes the source's `dayToNum[day]` test (js/parser.js:345-347). The
  model rejects it and skips the row.
- Menu.AddItemNew: a category id `constructor` makes `categories[catId]`
  truthy in the source, so no category is opened and `.items.push` throws
  (js/parser.js:302, 314). The model opens a category.
- Legacy.LegacyTAllergen: a language table without `allergens` makes the
  source throw (app.js:216). The model reads the missing table as undefined
  and falls back to Italian, then to the key.
- Text.LowerChar: lowercases only A-Z and the Latin-1 capitals.
  `toLowerCase` covers all of Unicode; it is used on headers, ids, days and
  in `isTruthy`, so a value with other capitals compares differently.
- Render.FormatDuration: only whole-minute waits are modelled; its parameter
  is an integer. A wait is fractional when an opening time such as `10:30.5`
  reaches `parseTimeToMinutes` (js/render.js:760-763), because
  `parseTimeValue` passes text containing `:` through (js/utils.js:54-68).
  The source then prints the fraction (`29.5`) in the minutes branch, and
  such a wait cannot be passed in. Render.RoundedHours, the hours branch,
  is stated over real waits.
- Legacy.AddLegacy and Legacy.PushLegacyItem: a category named `constructor`
  (or another inherited name) makes `categories[catName]` truthy in the
  source, so no category is opened and `.items.push` throws
  (app.js:350-360). The model opens a category.
