# covid19-testkit-maps-crawler: a Dafny model of `build.js`

The crawler downloads two open-data feeds from Taiwan's National Health
Insurance Administration and writes two CSV files. The first feed lists the
fixed opening hours of contracted clinics. The second lists live stock of
rapid antigen test kits at pharmacies and clinics, which is merged with the
crawler's own overnight backup. This project models the pure core of
`build.js`, the only source file:

- **Options**: the `Option` result every validator returns.
- **Text**: ECMAScript `trim` over the whitespace set of the language standard,
  the `alphanum()` character class and a global one-character `replace`.
- **Numbers**: the clamp of lodash `toSafeInteger`, and a decimal reader
  standing for Joi's string-to-number conversion.
- **Fields**: a raw CSV row (`map<string, string>`, a missing key being an
  absent cell) and the three Joi field rules the schemas share. These are
  the alphanumeric id, required trimmed text, and the notice with its `-`
  placeholder.
- **Batch**: the accept/reject-and-count loop shared by `fetchOpens` and
  `fetchNhiStores`, as an order-keeping filter with a reject count.
- **Opens**: the `fetchOpens` schema (id, name, weekly `N`/`Y` grid,
  notice, the `opened` filter) and its loop.
- **CharMap**: `CHAR_MAP` and `strtr`, the substitution of 18 full-width or
  CJK characters and the line feed by ASCII.
- **Stores**: the `fetchNhiStores` schema, the timestamp check before it,
  the `strtr` pass over `addr`, `notice` and `tel`, and its loop.
- **Merge**: `fetchOldStores`' filter that keeps only backup rows newer
  than the start of the current UTC+8 day. Also the `fetchStores` fold into
  an insertion-ordered map keyed by id, where each later record overwrites
  every field except `amount`. `amount` becomes `max(new, toSafeInteger(old))`.

Three details of the Joi rules that the model follows:

- A `time` cell takes the empty default only when it is exactly empty after
  the `N`/`Y` replacement. `Joi.string()` without `.trim()` does not count
  whitespace as empty, so a blank cell such as `"  "` fails the 21-slot
  pattern and the row is rejected.
- The `opened` rule is `.equal('0')`, so only rows whose status trims to `0`
  (or is absent) are accepted; every other status rejects the row.
- A coordinate cell reading `0` is rejected by the range rule and not by
  `empty('0')`. The conversion to a number happens before the empty check,
  and the number 0 is not the string `'0'`. The outcome, rejection, is the same.

## Model

| member | source | states |
|---|---|---|
| Text.Trim | build.js:30 | the result is the slice of the input between a leading and a trailing run of whitespace, has no whitespace at either end, equals the input when the input is already trimmed, and is empty exactly when the input is all whitespace |
| Text.ReplaceAll | build.js:31 | a global one-character replace keeps the length, rewrites exactly the occurrences of the pattern character, and leaves none of it behind when the replacement differs |
| Fields.AlphanumId | build.js:29 | an id cell is accepted exactly when it is present, non-empty and all ASCII letters and digits; it is kept untrimmed |
| Fields.RequiredText | build.js:30 | a required trimmed text cell is accepted exactly when present and not all whitespace; the value is the trimmed, non-empty text |
| Fields.NoticeText | build.js:32 | the notice is empty exactly when the cell is absent or trims to `''` or `-`; otherwise it is the trimmed text; it is never rejected |
| Opens.Schedule | build.js:31 | a schedule cell is accepted exactly when absent, empty, or a 21-slot grid of `0`/`1` after `N`→`1`, `Y`→`0`; an absent cell gives `''`, a present one its replaced text |
| Opens.ScheduleAlphabet | build.js:31 | the replaced text is a grid exactly when the raw text has 21 characters drawn from `0`, `1`, `N` and `Y` |
| Opens.ScheduleExample | build.js:31 | twenty `N`s and a `Y` read as twenty `1`s and a `0` |
| Opens.ValidateOpen | build.js:28-44 | a row is accepted exactly when its id is alphanumeric, its name is not blank, its schedule is empty or a grid, and its status trims to `0` or is absent; the record's fields are the converted cells and every accepted record is well formed |
| Opens.RevalidateOpen | build.js:28-33 | every well-formed record, written back as a row, is accepted unchanged, so the accepted records are exactly the well-formed ones |
| Opens.OpenedStatus | build.js:33 | a present status passes exactly when it is a single `0` with only whitespace before and after it |
| Opens.OpenedOnlyFilters | build.js:33 | once the status passes, removing the status column does not change the result (the field is stripped) |
| Opens.IgnoresOtherColumns | build.js:38-44 | setting any column outside the five read does not change the result (unknown keys are stripped) |
| Opens.SameCellsSameRecord | build.js:38-44 | two rows agreeing on the five schema cells, with the status passing in both or in neither, validate to the same result |
| Opens.FetchOpens | build.js:35-50 | the opening-hours loop returns the accepted records in row order and counts the rejected rows; records plus count equal the row count and every record is well formed |
| Batch.RunBatch | build.js:35-48 | the validate-push-or-count loop yields exactly the filtered records and the reject count, which together account for every row |
| Batch.FilterMapSpec | build.js:36-48 | the output is the images of the accepted rows at strictly increasing positions, and output length plus reject count equals input length |
| Batch.FilterMapMembers | build.js:36-48 | a record is in the output exactly when some row is accepted as that record |
| Batch.FilterMapKeepsAll | build.js:56 | when every row is accepted as itself the filter returns the input unchanged |
| Numbers.ToSafeInteger | build.js:114 | `toSafeInteger` clamps to ±(2^53−1): a safe integer is returned unchanged, anything larger or smaller becomes the nearest bound |
| Numbers.ParseDecimalText | build.js:64 | the decimal text of a natural number reads back as that number; with a `+` sign the same number, with a `-` sign its negation |
| CharMap.MapCharIsZippedTable | build.js:74 | the two zipped strings have 19 characters each, the i-th key maps to the i-th value, and every non-key character maps to itself |
| CharMap.ReplacementsArePlain | build.js:74 | no character's image is a key, and a key's image is ASCII and not whitespace |
| CharMap.Strtr | build.js:75 | `strtr` keeps the length, maps each character through the table independently, and leaves no key in its result |
| CharMap.StrtrFixesExactlyNormal | build.js:75 | a string is left unchanged exactly when it contains no key |
| CharMap.StrtrIdempotent | build.js:74-75 | applying `strtr` twice equals applying it once |
| CharMap.StrtrConcat | build.js:75 | `strtr` distributes over concatenation |
| CharMap.StrtrKeepsTrimmed | build.js:93 | a trimmed field stays trimmed after `strtr`, and is empty afterwards exactly when it was empty before |
| CharMap.AddressExample | build.js:74-75 | a full-width house number `１２３` in an address becomes `123` and the other characters stay |
| Stores.Amount | build.js:64 | an amount cell is accepted exactly when it reads as a whole number from 0 to 2^53−1; the value is that number |
| Stores.Coordinate | build.js:66-67 | a coordinate cell is accepted exactly when it reads as a number inside the window; the value is that number |
| Stores.AmountOfDecimalText | build.js:64 | the decimal text of a natural number is accepted as that amount exactly when it is at most 2^53−1, and rejected above |
| Stores.NegativeAmountRejected | build.js:64 | a negative amount is rejected rather than clamped |
| Stores.ZeroCoordinateRejected | build.js:66-67 | a row whose latitude or longitude cell is `0` is rejected |
| Stores.StoreSchema | build.js:62-73 | the stock schema accepts a row exactly when the address, name, telephone and brand cells are not blank, the id is alphanumeric, the amount is a safe whole number ≥ 0 and both coordinates are numbers in their windows; the record's fields are the untrimmed id, the trimmed text cells, the notice rule's value, the parsed numbers and the given timestamp |
| Stores.Normalize | build.js:93 | only `addr`, `notice` and `tel` change, each keeps its length and holds no key afterwards |
| Stores.NormalizeIdempotent | build.js:93 | normalising a normalised record changes nothing |
| Stores.ValidateStore | build.js:77-94 | a stock row is accepted exactly when its timestamp parses, address, name, telephone and brand are not blank, the id is alphanumeric, the amount is a safe whole number ≥ 0, and the coordinates lie in [21, 28] and [117, 123]; each field is the converted, normalised cell, and every accepted record is well formed |
| Stores.FetchNhiStores | build.js:76-100 | the stock loop returns the accepted, normalised records in row order and counts the rest; records plus count equal the row count and every record is well formed |
| Merge.StartOfDay | build.js:55 | the start of the UTC+8 day is at or before `now`, less than a day before it, and falls on a UTC+8 midnight |
| Merge.Fresh | build.js:56 | the backup filter keeps exactly the rows whose `updatedAt` is strictly after the day start and never lengthens the list |
| Merge.FreshSpec | build.js:56 | a backup row survives exactly when its `updatedAt` is strictly after the day start; the survivors keep their relative order |
| Merge.AbsorbStep | build.js:110-115 | absorbing one record (the loop body) changes only that record's id: its entry takes every field of the record and the larger of the record's amount and the clamped prior amount (0 for a new id), other entries stay, a new id is appended to the order, and well-formedness is kept |
| Merge.MergeAll | build.js:108-116 | the map's keys are exactly the ids of the input and the insertion order lists each key once |
| Merge.Values | build.js:117 | the values come out in insertion order, one per key |
| Merge.MergeOrder | build.js:108-117 | keys are ordered by the first occurrence of each id in the input, with no duplicates |
| Merge.MergeLastWins | build.js:110-115 | for each id, every field except `amount` comes from the last record carrying it |
| Merge.ClampedMaxSpec | build.js:114 | the running maximum of clamped amounts for an id bounds every clamped amount seen for it and is 0 or one of them |
| Merge.ClampedMaxAppend | build.js:109-114 | the running clamped maximum over two concatenated lists is the larger of the two lists' maxima |
| Merge.MergeAmountClamped | build.js:110-115 | for every integer amount, an id's merged amount is the larger of its last record's amount and the running maximum of clamped amounts, and clamping the merged amount gives that running maximum |
| Merge.MergeAmountIsMax | build.js:110-115 | with safe-integer amounts, an id's amount is the maximum of 0 and every amount seen for it |
| Merge.MergeKnownKeepsOrder | build.js:111 | records whose ids are already present never change the insertion order |
| Merge.MergeSelfIdempotent | build.js:108-117 | for every integer amount, merging a collection followed by itself gives the same map as merging it once |
| Merge.NhiWins | build.js:109-115 | for an id the live feed carries, every field except `amount` comes from its last live record, whatever the backup held |
| Merge.IncomingKeys | build.js:56-111 | an id is in the merged map exactly when a live row carries it or a backup row newer than the day start does |
| Merge.AmountMonotone | build.js:109-114 | the merged amount is ≥ 0 and at least every amount a live row, or a fresh backup row, carries for that id |
| Merge.Incoming | build.js:109 | the rows entering the loop end with the live rows in their order, preceded by at most as many rows as the backup holds; a row is among them exactly when it is a backup row newer than the day start or a live row |
| Merge.IncomingSelf | build.js:104-117 | for every integer amount, when the backup and the live feed are the same current records, the result is the merge of those records once |
| Merge.MergeExample | build.js:108-117 | a backup row from 01:00 with amount 50 and a live row for the same id with amount 30 merge into the live row with amount 50 |
| Merge.MergeLoop | build.js:108-116 | the `for … of` loop over the rows computes exactly the fold `MergeAll` |
| Merge.FetchStores | build.js:103-118 | the merged list has one record per distinct id in backup-then-live order of first occurrence, each with the last record's fields and an amount equal to the larger of the last record's amount and the running maximum of clamped amounts, which with safe amounts is the largest amount seen |

## Left out

- `getCsv` (build.js:120-128) is not modelled: HTTP download, the cache-bust time bucket and CSV parsing are I/O and foreign libraries. The loops take already-parsed rows.
- `build` (build.js:11-23) is not modelled: directory creation, file writes and CSV serialisation are I/O.
- The `Promise.all` fan-out in `fetchStores` (build.js:104-107) is not modelled: the two result lists are parameters.
- The `console.log` error reports (build.js:49, 99) are not modelled; only the count is.
- The date library is not modelled. Stores.ValidateStore takes `parseTime: string -> Option<int>`, applied to the cell text (or `undefined` when missing) followed by `+0800`. The format string at build.js:79 is not interpreted, because only the `utc` plugin is loaded. The current instant `now` is a parameter in Unix seconds.
- Numbers.ParseDecimalText: Joi's number conversion is modelled by a decimal reader over exact rationals, handling an optional sign, digits and an optional fraction. Exponent forms such as `1e3`, which Joi accepts, are rejected by the model.
- Numbers.ParseDecimalText: Joi's `number.unsafe` check rejects number text with more digits than a double keeps (it does not survive the round trip); the model reads such text exactly and accepts it.
- Merge.MergeAmountIsMax: requires every amount to be a safe integer. Outside that range `toSafeInteger` clamps the prior amount and the result is no longer the plain maximum.
- Merge.AmountMonotone: requires safe-integer amounts, for the same reason.
- Merge.FetchStores: the plain-maximum clause is stated only when every amount is a safe integer; for every other integer amount the clamped form holds.
- Backup rows are typed records with integer amounts. A backup row with a non-numeric `amount` string, where `Math.max` would give `NaN`, is not modelled.
- A missing CSV cell is modelled as an absent cell; Papa's handling of short rows is part of the CSV parser, which is not modelled.
