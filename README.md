# Aetherkit core, modelled in Dafny

Aetherkit is a small browser utility for text templates with `{token}`
placeholders, stored in IndexedDB. This project models and proves the
logic at the centre of it:

- **Record schemas** (`schema.dfy`, module `Schema`). The Zod schemas for
  templates, settings and usage records become parsers from an untyped
  object (`Fields`, a map from property name to a JavaScript `Value`) to
  the typed record. Round-trip lemmas show that a typed record written as
  an object parses back to itself: every category name and usage record,
  and exactly the valid templates and settings.
- **Token engine** (`engine.dfy`, module `Engine`).
  - The placeholder pattern `\{([a-zA-Z0-9_]+)\}` is a left-to-right scan (`MatchAt`, `Matches`).
  - `ExtractTokens` is the imperative set-filling loop followed by a sort.
  - `RenderTemplate` is the global `replace` with its callback as intended: a placeholder without a value renders like any other missing value. `RenderAsWritten` is the render as the source does it, which throws for a placeholder naming an inherited object property (see Findings). `Splice` is the reference meaning of one substitution pass.
- **The database** (`db.dfy`, module `Db`). The template table is a
  `map<string, Template>` field of the class `TemplateDb`, and the settings
  record is an `Option<Settings>` field. `Valid` says that every record is
  stored under its own id, which is the table's inbound primary key.
- **Template operations** (`templates.dfy`, module `Templates`). These are
  listing, creating, updating, deleting, toggling the favourite flag and
  duplicating, as methods that modify the database. The listing sorts an
  array in place with a generic insertion sort (`sorting.dfy`, module
  `Sorting`), which stands for `Array.prototype.sort` with the source's
  comparator.
- **Import** (`import_export.dfy`, module `ImportExport`). This is the
  last-write-wins merge of an export into the table. The method's loop is
  proved against `MergeAll`, a fold of the per-record `Step` over the
  incoming records. Lemmas about `MergeAll` state the counts, the frame,
  the key invariant and re-import idempotence.
- **First-run seeding** (`seed.dfy`, module `Seed`). It writes three starter
  templates and the default settings into an empty database.

Time (`Date.now()`) is the parameter `now`. The generated ids
(`crypto.randomUUID()`) are parameters `freshId` / `ids`, required fresh and
distinct. Timestamps are JavaScript numbers and are modelled as `int`.
Strings are sequences of Dafny `char`s (Unicode scalar values), and string
order is lexicographic by character code (`Engine.StrLe`).

The import payload is untyped. In an incoming record, `id`, `createdAt` and
`updatedAt` are arbitrary JavaScript values (`Schema.Value`: missing, null,
boolean, number, string or a compound value). The other fields carry the
types the export declares.

## Model

| member | source | states |
|---|---|---|
| Schema.ParseCategory | src/lib/db/schema.ts:3 | a category name is accepted exactly when it is one of `receipt`, `event`, `rp`, `custom`, and parses to the category of that name |
| Schema.CategoryRoundTrip | src/lib/db/schema.ts:3 | the name of every category parses back to that category |
| Schema.ParseTemplate | src/lib/db/schema.ts:6-14 | an accepted object gives a valid template (name 1..64, content 1..10000) whose id, category and two timestamps are the object's string and numbers; an absent `favorite` gives `false` |
| Schema.TemplateRoundTrip | src/lib/db/schema.ts:6-14 | a typed template written as an object parses back to itself exactly when it is valid, and is rejected otherwise |
| Schema.FavoriteDefaultsToFalse | src/lib/db/schema.ts:11 | an object without `favorite` parses as the same object with `favorite: false` |
| Schema.ParseSettings | src/lib/db/schema.ts:17-23 | an object whose `id` is not the string `"default"` is rejected; absent `defaultVenue`, `defaultPayTo` and `language` default to `""`, `""` and `en`; `lastTemplateId` stays absent exactly when it is absent |
| Schema.SettingsRoundTrip | src/lib/db/schema.ts:17-23 | a settings record written as an object parses back to itself exactly when its id is `"default"` |
| Schema.BareSettingsAreDefaults | src/lib/db/schema.ts:19-21 | the object holding only `id: "default"` parses to the default settings |
| Schema.LanguageIsEnOrFrCa | src/lib/db/schema.ts:21 | a settings object is accepted only if its `language` is absent, `"en"` or `"fr-ca"` |
| Schema.ParseUsage | src/lib/db/schema.ts:26-29 | a usage object is accepted exactly when `templateId` is a string and `lastUsedAt` a number, and the record carries those two values |
| Schema.UsageRoundTrip | src/lib/db/schema.ts:26-29 | every usage record written as an object parses back to itself |
| Sorting.InsertionSort | src/lib/db/templates.ts:6-10 | the array is sorted in place by a total preorder, and is a permutation of what it held |
| Sorting.InsertLast | src/lib/db/templates.ts:6-10 | one insertion step extends the sorted prefix by one element and permutes the array |
| Db.TemplateDb.constructor | src/lib/db/index.ts:6-19 | the database as a first run opens it: an empty template table and no settings, with every record under its own id (a later run opens the persistent store with what it holds) |
| Db.TemplateDb.ToArray | src/lib/db/templates.ts:5 | the table read out as an array holds every stored template exactly once (same multiset as the table's values) |
| Engine.WordRunEnd | src/lib/templates/engine.ts:1 | the greedy `[a-zA-Z0-9_]+` run from a position: every character in it is a word character and the next one is not |
| Engine.MatchAt | src/lib/templates/engine.ts:1 | a match of the pattern at a position names a non-empty word whose `{word}` occurs there |
| Engine.MatchAtFinds | src/lib/templates/engine.ts:1 | every occurrence of `{w}` with `w` a word is matched at its position, with name `w` |
| Engine.Matches | src/lib/templates/engine.ts:1-5 | the global left-to-right scan of the pattern (`matchAll`): a match is recorded where the pattern matches and the scan resumes after it, otherwise one character on; its properties are stated by MatchesSound, MatchesAt and MatchesComplete |
| Engine.MatchesSound | src/lib/templates/engine.ts:1-5 | the global scan gives non-overlapping matches in ascending order that stay inside the content, each a genuine match at its start |
| Engine.MatchesAt | src/lib/templates/engine.ts:1-5 | where the pattern matches, the scan records that match first and resumes right after its closing brace |
| Engine.NoStartInside | src/lib/templates/engine.ts:1 | no `{` occurs inside a match, which is why matches never overlap |
| Engine.MatchesComplete | src/lib/templates/engine.ts:1-5 | every occurrence of `{w}` with `w` a word is among the scan's matches |
| Engine.MatchKeysAreTokens | src/lib/templates/engine.ts:5-7 | the names of the scan's matches are exactly the words `w` with `{w}` in the content |
| Engine.StrLeTotal | src/lib/templates/engine.ts:9 | any two strings are ordered one way or the other |
| Engine.StrLeTransitive | src/lib/templates/engine.ts:9 | the string order is transitive |
| Engine.StrLeAntisymmetric | src/lib/templates/engine.ts:9 | strings ordered both ways are equal |
| Engine.StrLeIsTotalPreorder | src/lib/templates/engine.ts:9 | the string order meets the sort's requirement |
| Engine.ExtractTokens | src/lib/templates/engine.ts:3-10 | the result lists a string exactly when it is a word `w` with `{w}` in the content, with no repeats, in strictly ascending order |
| Engine.BracedTokens | src/lib/templates/engine.ts:1-10 | content built only of braced names has exactly those names as its placeholder names |
| Engine.AscendingUnique | src/lib/templates/engine.ts:9 | two strictly ascending name lists with the same elements are equal, so the sorted output is determined by its set |
| Engine.ExtractBracedRoundTrip | src/lib/templates/engine.ts:3-10 | extracting names from the braced output of an extraction gives the same list back: extraction is idempotent on its own output |
| Engine.SortedElements | src/lib/templates/engine.ts:9 | spreading a set into an array and sorting it gives exactly the set's elements, strictly ascending |
| Engine.Spread | src/lib/templates/engine.ts:9 | spreading a set gives each element exactly once |
| Engine.SpaceRunEnd | src/lib/templates/engine.ts:18 | the position found ends the run of white space that starts at the given one |
| Engine.SpaceRunStart | src/lib/templates/engine.ts:18 | the position found starts the run of white space that ends at the given one, without passing the lower bound |
| Engine.Trim | src/lib/templates/engine.ts:18 | the result is a contiguous part of the input with only white space cut from either side, neither starts nor ends with white space, and is empty exactly when the input is all white space |
| Engine.Replacement | src/lib/templates/engine.ts:18-20 | as intended, a non-blank value is replaced by its trimmed self; a missing or blank value gives `[key]` in preview mode; the result is empty exactly in final mode with a missing or blank value |
| Engine.ReplaceMatches | src/lib/templates/engine.ts:17 | the global `replace` in one left-to-right pass: each match is replaced by the callback's result and every other character is copied; its meaning is stated by ReplaceIsSplice |
| Engine.RenderTemplate | src/lib/templates/engine.ts:12-22 | the intended render is the text between the scan's matches copied unchanged, each placeholder replaced by its Replacement, which is not scanned again |
| Engine.ReplaceIsSplice | src/lib/templates/engine.ts:17 | the one-pass replace equals the text between the matches copied unchanged with each match replaced by the callback's result, which is never rescanned |
| Engine.SpliceCopiesFirst | src/lib/templates/engine.ts:17 | a character before the first match is copied unchanged |
| Engine.NoMatchesWithoutTokens | src/lib/templates/engine.ts:17 | content without any `{w}` has no matches |
| Engine.RenderWithoutPlaceholders | src/lib/templates/engine.ts:17-21 | content without placeholders renders to itself in either mode |
| Engine.RenderSinglePlaceholder | src/lib/templates/engine.ts:17-21 | a lone placeholder renders to its replacement |
| Engine.RenderUnfilledPlaceholder | src/lib/templates/engine.ts:15-20 | with the default mode, a placeholder without a value renders as `[key]` |
| Engine.FilledPlaceholderIsLiteral | src/lib/templates/engine.ts:17-19 | a non-blank value is inserted trimmed and literally in either mode, even when it contains `{x}` |
| Engine.LookupAsWritten | src/lib/templates/engine.ts:18 | reading a key from the values object fails exactly for an inherited property name it does not define; otherwise it is the value or `""` |
| Engine.RenderAsWritten | src/lib/templates/engine.ts:12-22 | as written, a render either throws the TypeError of `trim` or gives the intended render |
| Engine.RenderAsWrittenThrowsIff | src/lib/templates/engine.ts:17-18 | as written, a render throws exactly when the template has a placeholder naming an inherited property the values do not define |
| Engine.InheritedKeyPlaceholderThrows | src/lib/templates/engine.ts:17-18 | as written, rendering a placeholder that names an inherited property the values do not define, such as `{constructor}` with no values, throws |
| Engine.InheritedKeyPlaceholderRenders | src/lib/templates/engine.ts:18-20 | corrected, a placeholder naming an inherited property without a value renders as `[key]` like any other |
| Templates.Compare | src/lib/db/templates.ts:6-10 | the comparator puts `a` strictly first exactly when it is a favourite and `b` is not, or both share favourite status and `a` was updated later; it ties exactly when favourite status and update time agree |
| Templates.ListedBeforeIsTotalPreorder | src/lib/db/templates.ts:6-10 | the listing comparator (favourites first, then newer update first) is a total preorder |
| Templates.ListTemplates | src/lib/db/templates.ts:4-11 | the listing is a permutation of the table's records, all favourites come before all others, and within equal favourite status the update time does not increase |
| Templates.DefaultTemplateIsValid | src/lib/db/templates.ts:17-30 | with no fields given, a new template is "New Template", custom, "Hello {guest}", not a favourite, created and updated now, and is valid |
| Templates.CreateTemplate | src/lib/db/templates.ts:17-30 | the table gains exactly the new record under the fresh id, which is returned; nothing else changes |
| Templates.PatchOverridesUpdatedAt | src/lib/db/templates.ts:32-34 | a patch always sets the update time to now, even when it carries one, keeps the id, and an empty patch changes only the update time |
| Templates.UpdateTemplate | src/lib/db/templates.ts:32-34 | an existing record becomes the patched record and nothing else changes; a missing id changes nothing |
| Templates.DeleteTemplate | src/lib/db/templates.ts:36-38 | exactly that key is removed; every other record stays |
| Templates.DeleteUndoesCreate | src/lib/db/templates.ts:17-38 | deleting a record just created under a fresh id gives back the table as it was |
| Templates.ToggleFavorite | src/lib/db/templates.ts:40-44 | a missing id changes nothing; otherwise the record's favourite flag is negated and its update time set to now |
| Templates.ToggleTwiceRestores | src/lib/db/templates.ts:40-44 | toggling twice restores every field but the update time |
| Templates.CopyValidity | src/lib/db/templates.ts:57 | the copy of a valid template is valid exactly when the name with " (copy)" fits in 64 characters |
| Templates.DuplicateTemplate | src/lib/db/templates.ts:46-64 | a missing id fails with "Template not found" and writes nothing; otherwise the table gains the copy (" (copy)" name, not a favourite, created now, same category and content) under the fresh id, which is returned, and the original is untouched |
| ImportExport.IsExportV1 | src/lib/db/import_export.ts:11-19 | the accepted payload shape: an object whose `schema` is the export schema name, `version` the number 1, `exportedAt` a string and `templates` an array |
| ImportExport.Tally | src/lib/db/import_export.ts:48-91 | the counter named by the record's outcome goes up by one and the other three stay |
| ImportExport.TsOf | src/lib/db/import_export.ts:28-33 | the timestamp is the update time if that is a non-zero number, else the creation time if a number, else 0; no record gives 0 |
| ImportExport.TsOfIsNotAMaximum | src/lib/db/import_export.ts:28-33 | for any numeric timestamps, a non-zero update time older than the creation time is still the one used |
| ImportExport.NewRecord | src/lib/db/import_export.ts:62-68 | an inserted record keeps its id and any numeric timestamp, including 0 |
| ImportExport.Overwrite | src/lib/db/import_export.ts:76-83 | an overwritten record keeps the stored creation time |
| ImportExport.Step | src/lib/db/import_export.ts:55-91 | one pass of the loop body: the new table and the outcome for one record; its cases are stated by StepCases |
| ImportExport.StepCases | src/lib/db/import_export.ts:55-91 | a record without a usable id is skipped and changes nothing; an unknown id is inserted; a known one is updated, kept or skipped as its timestamp is greater, smaller or equal, and only an update writes |
| ImportExport.StepFrame | src/lib/db/import_export.ts:55-91 | one record deletes nothing and touches no other id |
| ImportExport.MergeAll | src/lib/db/import_export.ts:48-100 | the whole loop as a fold of Step over the records in order, from the stored table and zero counts; its properties are stated by the Merge lemmas below |
| ImportExport.MergeCountsEveryRecord | src/lib/db/import_export.ts:48-100 | the four counts add up to the number of records |
| ImportExport.MergeNeverDeletes | src/lib/db/import_export.ts:53-97 | the import never deletes a record |
| ImportExport.MergeOneMore | src/lib/db/import_export.ts:54-92 | records are processed in order: one more record is one more step on what the earlier ones left |
| ImportExport.MergeTouchesOnlyImportedIds | src/lib/db/import_export.ts:53-97 | an id the payload does not carry is neither added nor changed |
| ImportExport.MergeKeepsKeyedById | src/lib/db/import_export.ts:64-83 | every record stays under its own id |
| ImportExport.StepNeverAges | src/lib/db/import_export.ts:76-84 | a record carrying a non-zero update time never makes a stored record's timestamp smaller |
| ImportExport.StepCoversItself | src/lib/db/import_export.ts:62-84 | after such a record, the table holds a record at least as recent under its id |
| ImportExport.MergeDominates | src/lib/db/import_export.ts:54-92 | after importing such records, the table holds each id with a record at least as recent |
| ImportExport.MergeDominatedIsIdentity | src/lib/db/import_export.ts:73-91 | importing records the table already matches or beats changes nothing |
| ImportExport.ReimportChangesNothing | src/lib/db/import_export.ts:35-101 | importing the same export twice, when its records with an id carry non-zero numeric update times, leaves the table as the first import left it |
| ImportExport.ImportTemplatesKeepNewestById | src/lib/db/import_export.ts:35-101 | a payload that is not an export, version 1, fails with the "Invalid import file" message and writes nothing; otherwise the table and counts are those of the in-order merge, the counts add up to the number of records, and the settings are untouched whatever `importSettings` says |
| Seed.SeededKeys | src/lib/db/seed.ts:14-25 | the seeded table has exactly the fresh ids as keys |
| Seed.SeededValues | src/lib/db/seed.ts:14-25 | with distinct ids, the i-th starter template is stored under the i-th id |
| Seed.SeededHoldsEachSeed | src/lib/db/seed.ts:14-25 | seeding stores each starter template under its own fresh id (name, category, content copied, not a favourite, created and updated now), and nothing else |
| Seed.SeedsAreValid | src/lib/templates/seed.ts:9-30 | every starter template satisfies the template schema |
| Seed.EnsureSeeded | src/lib/db/seed.ts:9-33 | a database holding any template is left alone; an empty one gets the starter templates and the default settings (replacing any); afterwards the table is non-empty, so a second call changes nothing |

## Left out

- Engine.RenderTemplate: models the intended render. The source throws a TypeError for a placeholder naming one of the twelve inherited property names (`INHERITED_KEYS`) that the values do not define; Replacement, RenderSinglePlaceholder, RenderUnfilledPlaceholder, FilledPlaceholderIsLiteral and ReplaceIsSplice describe the intended render, and RenderAsWritten and RenderAsWrittenThrowsIff the source as written.
- A second import policy and a pass-through render mode: the code has only the keep-newest import and the preview/final render, so neither is modelled.
- ImportTemplatesKeepNewestById: for an accepted export, requires that every record with a usable id carries timestamps that are numbers, null or absent. The source would store a mistyped timestamp (a string, say) as it is, which the typed table model cannot hold. The requirement also covers accepted records whose timestamps are never stored (records kept or skipped, and the creation time of a record that overwrites a stored one); the model does not say what the source does with those. Payloads that are not an export are not constrained.
- ImportTemplatesKeepNewestById: the incoming `name`, `category`, `content` and `favorite` are taken as typed and present. Missing or mistyped values of these fields, and extra properties spread into the record, are not modelled.
- ImportExport.Overwrite: `existing.createdAt ?? incoming.createdAt ?? now` is modelled as `existing.createdAt`. A stored record always has a numeric creation time, so the two fallbacks are unreachable.
- ImportExport.ReimportChangesNothing: holds only when every record with a usable id carries a non-zero numeric update time. A record with update time null or absent is stored with update time `now`; a second import then compares its creation time with that stored `now` and can overwrite it with a later `now` (created 10, update time null, imported at 5 and again at 6).
- ImportExport.StepNeverAges: holds only for records with a non-zero numeric update time. A record with update time 0 or none can win on its creation time and then be stored with update time 0 or `now`, which can look older.
- The settings part of the import (`importSettings`): the source does nothing with it, and the model shows that it changes nothing.
- Floating-point timestamps, NaN and fractional values: timestamps are integers.
- `localeCompare` in `extractTokens`: names are sorted by character code, a fixed total order, not by locale collation.
- The exact white space set of JavaScript `trim` is written out by hand (`Engine.IsSpace`). Line terminators and the Unicode space separators are listed; no Unicode database is consulted.
- String lengths are counted in Unicode characters. JavaScript counts UTF-16 code units, so a name or content with characters outside the Basic Multilingual Plane is longer there than here.
- Templates.ListTemplates: the order among records with equal favourite status and equal update time is not stated; it depends on the table's read order and the sort's stability.
- Templates.UpdateTemplate: a patch carrying an `id` (changing the primary key) is not modelled; patches carry only the other fields.
- `getTemplate` is a single table read and has no separate model.
- Asynchronous execution, Dexie transactions and their atomicity, storage failures, and the count-then-write race in seeding: each operation is one sequential method.
- `getDb`, the IndexedDB schema strings and the server-side-rendering check in src/lib/db/index.ts, replaced by the `TemplateDb` class.
- The usage table: only its schema (`Schema.ParseUsage`) is modelled; no operation in the core reads or writes it.
- src/lib/ui/file.ts and src/lib/ui/clipboard.ts (file picking, `JSON.parse`, clipboard): browser I/O. The import takes the already parsed payload.

## Findings

| source | as written | input that shows it | evidently intended | confidence | as-written member | corrected member |
|---|---|---|---|---|---|---|
| src/lib/templates/engine.ts:18 | `values[key]` on a plain object also reads inherited properties such as `constructor`; the function found there is not nullish, so `?? ""` keeps it, and `.trim()` throws a TypeError (modelled by `Engine.RenderAsWritten`; the corrected render is `Engine.RenderTemplate`) | `renderTemplate("{constructor}", {})` | an undefined placeholder renders as `[constructor]` in preview mode and `""` in final mode, like any other | medium, not executed | Engine.InheritedKeyPlaceholderThrows | Engine.InheritedKeyPlaceholderRenders |
