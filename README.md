# Semiconductor industry dashboard: a verified model of its core

The dashboard is a React single-page application over a hosted Postgres database. Most of it
renders lists and charts, and most of its data operations are calls to the database service.
What has behaviour of its own is modelled here in Dafny, one module per source file:

- **`JsValues`** (`values.dfy`) covers the JavaScript values a row property can hold, falsiness and
  `String()`. It also covers the built-ins the helpers rely on: `toLowerCase` (ASCII only),
  `includes`, `startsWith`, `split`, `join`, `trim` with JavaScript's whitespace set, and the 32-bit
  `<<`. It models `%`, which truncates toward zero.
- **`Types`** (`types.dfy`) holds the closed string unions of `src/types/index.ts` as datatypes, with
  each one's wire names.
- **`Helpers`** (`helpers.dfy`) models `src/utils/helpers.ts`:
  - the four lookup tables with their fallbacks;
  - `filterBySearch`;
  - `sortByField`, as a stable sort of a copy;
  - the CSV text that `exportToCSV` builds;
  - the parser inside `parseCSV`, whose `reduce` accumulator is a method with a loop;
  - `generateColor`, whose `for` loop is a method over UTF-16 code units.
- **`Store`** (`store.dfy`) models the zustand store of `src/stores/index.ts`:
  - an `Action` datatype with the merge each action performs;
  - the class `AppStore`, whose fields the setters overwrite;
  - the `partialize` projection that is persisted.
- **`Schema`** (`schema.dfy`) models the four tables declared in `run-schema.cjs:6-110`:
  - column types, defaults and NOT NULL / PRIMARY KEY / UNIQUE constraints;
  - the roadmap→company foreign key with `ON DELETE CASCADE`;
  - the `BEFORE UPDATE` trigger that stamps `updated_at`.

  Single-row `INSERT`, `UPDATE … WHERE id` and `DELETE … WHERE id` are functions on a database
  value. The class `Database` holds the four tables as fields. The clock (`NOW()`) and the fresh uuid
  are parameters of each statement.
- **`Stats`** (`stats.dfy`) models the counting loops of `statsApi` in `src/services/api.ts`, with
  their error short-circuits and the `[]` default of `getTrends`. The query response is a parameter.
- **`Navigation`** (`sidebar.dfy`) models the sidebar's role-gated menu and its active-path rule.
- **`Filters`** (`filters.dfy`) models the company filter panel: the initial record, `handleChange`,
  `handleReset` and the apply button. The parent's callbacks are recorded as a call log.

The invariants that are proved:

- Every store action keeps `isAuthenticated` equal to "there is a user".
- Every insert, update and delete keeps the database consistent: each row has exactly its table's
  columns with values of the right type, is stored under its own id, emails are unique, and every
  roadmap refers to an existing company or to none.
- The aggregation methods build exactly the dictionary `Stats.Tally` describes. Each count is the
  number of rows with that key, a key is present iff some row carries it, and the counts add up to
  the number of rows.

Behaviour the model pins down that a reader might not expect:

- **CSV export.** A string containing `,` is wrapped in quotes but an embedded quote is not doubled,
  and the parser ignores quotes altogether. So this is not RFC 4180 (section 2, rules 6 and 7).
  `Helpers.ExportThenParse` proves the round trip for tables whose values are plain: non-empty,
  already trimmed, no `,` or line break. `Helpers.CommaValueDoesNotRoundTrip` shows a two-field row
  that comes back as different values.
- **Active menu item.** The highlight uses a raw string prefix: `/roadmapping` highlights
  "Roadmap". The settings link, unlike the menu items, needs the exact path.
- **Status default.** The database defaults `status` to `'published'` (`run-schema.cjs:25, 36, 56`),
  which is not one of the company or roadmap statuses the UI knows. `getStatusColor` and
  `getStatusText` therefore show such a row with the default colour and the raw word
  (`Schema.DefaultStatusIsUnlabelled`).
- **Node counts.** `getRoadmapsByNode` merges roadmaps without a node with any whose node is
  literally `Unknown` (`Stats.UnknownCount`).

- **Column constraints.** Company `status` is a free `VARCHAR(20)` and `name` is only NOT NULL, so an
  empty name is stored. The UI union for status is active/pending/inactive. `region` and the roadmap
  `status` are free text of bounded length.
- **`updated_at`.** The trigger fires only before UPDATE and overrides any supplied value there; an
  INSERT keeps a supplied `updated_at` (`Schema.SuppliedStored`).
- **Updating `id`.** No constraint forbids an UPDATE of `id`. The model lets one through when the new
  id is free and, for a company, no roadmap refers to the old id; the lemmas about updates assume
  `id` is not among the changed columns.

## Model

| member | source | states |
|---|---|---|
| Helpers.GetStatusColor | src/utils/helpers.ts:39-54 | the colour is one of the table's colours, and is something other than 'default' exactly for the six statuses mapped to a real colour |
| Helpers.GetStatusText | src/utils/helpers.ts:56-68 | a status is translated exactly when the table lists it; otherwise the status itself is shown |
| Helpers.StatusTextsDistinguishStatuses | src/utils/helpers.ts:56-68 | every company and roadmap status gets a label, and no two listed statuses share one |
| Helpers.GetRegionLabel | src/utils/helpers.ts:71-82 | the label ends with the region itself and differs from it exactly for the seven listed regions |
| Helpers.RegionsAllLabelled | src/utils/helpers.ts:71-82 | every region of the closed union gets a flagged label |
| Helpers.GetIndustryIcon | src/utils/helpers.ts:85-96 | the icon is one of the table's icons, and is not the fallback exactly for the six named industries |
| Helpers.IndustryIconsDistinguishIndustries | src/utils/helpers.ts:85-96 | distinct industries other than "other" get distinct icons |
| Helpers.GetAt | src/utils/helpers.ts:108 | in a row with distinct keys, reading a key gives that field's value |
| Helpers.GetMissing | src/utils/helpers.ts:108 | reading a key the row does not have gives `undefined` |
| Helpers.SomeFieldContainsMeansSomeField | src/utils/helpers.ts:107-109 | `searchFields.some(...)` holds iff some listed field contains the lowered search text |
| Helpers.KeepMatching | src/utils/helpers.ts:106-110 | the kept items, in their original order, are exactly the matching items, each as often as in the input |
| Helpers.FilterBySearch | src/utils/helpers.ts:99-111 | an empty search returns the input; otherwise the result is the order-preserving sublist of items with some field containing the search text case-insensitively |
| Helpers.FalsyFieldNeverMatches | src/utils/helpers.ts:108 | a falsy field counts as '' and so never matches a non-empty search |
| Helpers.LexLessIsStrictTotal | src/utils/helpers.ts:122-123 | string `<` (UTF-16 code-unit order) is irreflexive, asymmetric, total on distinct strings and transitive |
| Helpers.KeyLessIsStrictWeak | src/utils/helpers.ts:122-123 | `<` on sort keys is a strict weak order |
| Helpers.BeforeIsStrictWeak | src/utils/helpers.ts:119-125 | the comparator for either order is a strict weak order, and equal keys compare as 0 |
| Helpers.SortedSnoc | src/utils/helpers.ts:119-125 | appending an element keeps the order exactly when nothing before it should come after it |
| Helpers.InsertSortedPermutes | src/utils/helpers.ts:119 | one insertion step adds exactly the inserted element |
| Helpers.InsertSortedKeepsOrder | src/utils/helpers.ts:119-125 | inserting into an ordered list keeps it ordered |
| Helpers.SortByField | src/utils/helpers.ts:114-126 | the result is a permutation of the input, with keys non-decreasing for 'asc' (the default) and non-increasing for 'desc' |
| Helpers.SortSortedIsIdentity | src/utils/helpers.ts:119-125 | sorting an already ordered list returns it unchanged |
| Helpers.InsertSortedIsStable | src/utils/helpers.ts:119-125 | an insertion step keeps the relative order of elements with equal keys |
| Helpers.SortIsStable | src/utils/helpers.ts:119-125 | sorting keeps the relative order of elements with equal keys |
| Helpers.Cell | src/utils/helpers.ts:146-151 | a string containing ',' is wrapped in quotes, any other string is kept, and null or undefined becomes empty |
| Helpers.RowCells | src/utils/helpers.ts:146-152 | a data line has one cell per header, in header order, each from the row's value for that header |
| Helpers.DataLines | src/utils/helpers.ts:145-153 | there is one data line per row, the row's cells joined by ',' |
| Helpers.CsvContent | src/utils/helpers.ts:139-154 | an empty list produces no text, and any other list produces some |
| Helpers.ExportLines | src/utils/helpers.ts:142-154 | without line breaks in the values, the text has rows+1 lines: the first row's keys joined by ',', then each row's cells |
| Helpers.NonBlankKeeps | src/utils/helpers.ts:172 | the line filter keeps only lines that are not blank after trimming, and keeps every such line |
| Helpers.NonBlankEmpty | src/utils/helpers.ts:172 | no line survives exactly when every line is blank |
| Helpers.AssignNames | src/utils/helpers.ts:178 | `obj[header] = ...` adds the key at the end when it is new and keeps the key order otherwise |
| Helpers.AssignSame | src/utils/helpers.ts:178 | after the assignment the key reads as the assigned value |
| Helpers.AssignOther | src/utils/helpers.ts:178 | the assignment leaves every other key's value as it was |
| Helpers.FoldKeys | src/utils/helpers.ts:177-180 | the record has distinct keys, exactly the headers seen so far |
| Helpers.FoldValue | src/utils/helpers.ts:177-180 | a header takes the cell at its last position, or '' when that cell is missing or empty |
| Helpers.FoldDistinct | src/utils/helpers.ts:177-180 | with distinct headers, the record pairs each header with its cell, in header order |
| Helpers.BuildRecord | src/utils/helpers.ts:177-180 | the `reduce` loop builds the record that `RecordOf` describes |
| Helpers.ParseCsv | src/utils/helpers.ts:172-185 | the parsing loop returns what `Parse` describes, the rejection included |
| Helpers.JoinAllWhitespace | src/utils/helpers.ts:172 | text joined by a newline is all whitespace exactly when every line is |
| Helpers.ParseRejectsIffBlank | src/utils/helpers.ts:172-173 | parsing rejects exactly the texts with no non-blank line, where `lines[0]` is undefined |
| Helpers.ParseShape | src/utils/helpers.ts:172-181 | one record per non-blank line after the first; each record has exactly the trimmed header cells as keys, and each key takes the trimmed cell at its index or '' |
| Helpers.TrimCells | src/utils/helpers.ts:173-176 | trimmed comma-split cells of plain cells joined by ',' are those cells |
| Helpers.LineRoundTrip | src/utils/helpers.ts:143-181 | a plain row's exported line parses back into that row |
| Helpers.ExportedLinesNotBlank | src/utils/helpers.ts:143-172 | no line of the export of a plain table is dropped by the blank-line filter |
| Helpers.ExportThenParse | src/utils/helpers.ts:139-181 | parsing the export of a plain table gives back that table |
| Helpers.CommaExport | src/utils/helpers.ts:143-154 | the one-row table with the value "A,B" exports as the header line and the line `"A,B",C` |
| Helpers.CommaValueDoesNotRoundTrip | src/utils/helpers.ts:148-178 | that export parses back to the fields `"A` and `B"`, not to the row that was exported |
| Helpers.ParseTwoLines | src/utils/helpers.ts:172-181 | a text with one header line and one data line parses into one record |
| Helpers.Hue | src/utils/helpers.ts:199 | the hue has the sign of the hash and lies strictly between -360 and 360 |
| Helpers.GenerateColor | src/utils/helpers.ts:194-201 | the loop computes the colour `HslColor(Hue(text))` |
| Helpers.EmptyTextColor | src/utils/helpers.ts:194-200 | the empty string gives `hsl(0, 70%, 50%)` |
| Helpers.HashBound | src/utils/helpers.ts:196-198 | the hash grows by at most 2^31+2^16 in size per code unit |
| Helpers.HashIsExact | src/utils/helpers.ts:197 | for texts of up to four million code units the hash stays below 2^53 in size, where JavaScript's arithmetic is exact |
| Helpers.HashIsPolyHashModulo32 | src/utils/helpers.ts:196-198 | modulo 2^32 the hash is the polynomial hash with factor 31 |
| JsValues.OrEmpty | src/utils/helpers.ts:108 | `v \|\| ''` replaces exactly the falsy values by '' |
| JsValues.NatToStringRoundTrip | src/utils/helpers.ts:200 | the decimal rendering of a number reads back as that number |
| JsValues.ToInt32 | src/utils/helpers.ts:197 | ToInt32 lands in the signed 32-bit range, agrees with its input modulo 2^32 and leaves in-range values alone |
| JsValues.JsRem | src/utils/helpers.ts:199 | `%` truncates: the remainder has the sign of the dividend and is smaller than the divisor in size |
| JsValues.ToLowerCase | src/utils/helpers.ts:105 | lower-casing keeps the length and maps each character on its own |
| JsValues.StartsWithIsPrefix | src/components/common/Sidebar.tsx:85 | `startsWith` holds exactly when the argument is a prefix |
| JsValues.IncludesAt | src/utils/helpers.ts:108 | `includes` holds exactly when the text occurs at some position |
| JsValues.SplitJoin | src/utils/helpers.ts:172-176 | splitting parts joined by a separator they do not contain gives the parts back |
| JsValues.JoinSplit | src/utils/helpers.ts:172-176 | joining the split parts gives the text back |
| JsValues.TrimIsSlice | src/utils/helpers.ts:173-176 | the trimmed text is a slice of the text with no whitespace at either end |
| JsValues.TrimEmptyIffBlank | src/utils/helpers.ts:172 | trimming gives '' exactly for all-whitespace text |
| Types.NamesAreInjective | src/types/index.ts:8-65 | the region, industry, roadmap status and role unions have distinct wire names |
| Store.Partialize | src/stores/index.ts:60-63 | the persisted object is exactly the theme and the sidebar flag |
| Store.InitialState | src/stores/index.ts:35-55 | initially no user, signed out, sidebar open, dark theme, empty lists and search |
| Store.ApplyKeepsCoupling | src/stores/index.ts:36-38 | every action keeps `isAuthenticated` equal to "there is a user" |
| Store.RunKeepsCoupling | src/stores/index.ts:36-38 | so does every run of actions |
| Store.SetUserSignsIn | src/stores/index.ts:37 | `setUser` stores the user and signs in exactly when it is not null |
| Store.LogoutSignsOut | src/stores/index.ts:38 | after `logout` there is no user and nobody is signed in, whatever the prior state |
| Store.ToggleTwice | src/stores/index.ts:42 | the toggle negates `sidebarCollapsed`, so toggling twice restores the state |
| Store.ApplyWritesOnly | src/stores/index.ts:37-56 | an action changes no field outside the keys it passes to `set` |
| Store.PersistedOnlyByUiActions | src/stores/index.ts:42-63 | only the toggle and `setTheme` change the persisted part, and both do |
| Store.RunKeepsPersisted | src/stores/index.ts:60-63 | a run of actions without a toggle or theme change leaves the persisted part as it was |
| Store.AppStore.constructor | src/stores/index.ts:33-56 | the new store holds the initial state |
| Store.AppStore.SetUser | src/stores/index.ts:37 | the new state is the old one merged with `{user, isAuthenticated: !!user}` |
| Store.AppStore.Logout | src/stores/index.ts:38 | the new state is the old one merged with `{user: null, isAuthenticated: false}` |
| Store.AppStore.ToggleSidebar | src/stores/index.ts:42 | the new state is the old one with `sidebarCollapsed` negated |
| Store.AppStore.SetTheme | src/stores/index.ts:44 | only the theme changes |
| Store.AppStore.SetCompanies | src/stores/index.ts:48 | only the company list changes |
| Store.AppStore.SetRoadmaps | src/stores/index.ts:50 | only the roadmap list changes |
| Store.AppStore.SetInsights | src/stores/index.ts:52 | only the insight list changes |
| Store.AppStore.SetGlobalSearch | src/stores/index.ts:56 | only the search text changes |
| Store.AppStore.Persist | src/stores/index.ts:60-63 | the persisted object is the projection of the current state |
| Store.Session | src/stores/index.ts:37-42 | signing in, searching, logging out and toggling twice ends signed out, with the persisted part as before |
| Schema.WithTable | run-schema.cjs:11-72 | replacing one table leaves the other three as they were |
| Schema.Coerce | run-schema.cjs:11-72 | an accepted value has the column's type and fits it; only NULL stays NULL; a string is at most cut by trailing spaces; a value that already fits is stored as given |
| Schema.CoerceRow | run-schema.cjs:11-72 | a coerced row has the supplied keys plus every column, and keys outside the table keep their values |
| Schema.NullViolation | run-schema.cjs:13-65 | the NOT NULL check passes exactly when no NOT NULL column holds NULL |
| Schema.Stamp | run-schema.cjs:82-88 | the trigger sets `updated_at` to now and leaves every other column as it was |
| Schema.Materialise | run-schema.cjs:11-72 | the row an INSERT builds has exactly the table's columns |
| Schema.TablesHaveDistinctColumns | run-schema.cjs:11-72 | no table declares a column twice |
| Schema.TableShape | run-schema.cjs:12-64 | every table has the uuid primary key `id` as its first column |
| Schema.MaterialiseAt | run-schema.cjs:11-72 | each column takes the supplied value, an explicit NULL included, or else its default |
| Schema.CoerceRowAt | run-schema.cjs:11-72 | a column of a coerced row holds its coerced value |
| Schema.CheckedRowOk | run-schema.cjs:11-72 | a row that passes coercion and the NOT NULL check satisfies every column constraint |
| Schema.FittingValueKept | run-schema.cjs:11-72 | a value that already fits its column is stored unchanged |
| Schema.NullFailsCheck | run-schema.cjs:13-65 | NULL in a NOT NULL column fails the check |
| Schema.DefaultStored | run-schema.cjs:12-71 | a column the INSERT does not mention stores its default |
| Schema.SuppliedStored | run-schema.cjs:11-72 | a supplied value that fits is stored as given, `updated_at` included, since no trigger fires on INSERT |
| Schema.InsertedId | run-schema.cjs:12 | without a supplied id the row gets the fresh uuid |
| Schema.InsertedTimestamps | run-schema.cjs:26-27 | without supplied timestamps, `created_at` and `updated_at` are both now |
| Schema.DefaultedColumns | run-schema.cjs:25-67 | the status, read_count, published_at and role columns carry the declared defaults |
| Schema.StatusColumn | run-schema.cjs:25-56 | companies, roadmaps and insights each have a `status` column defaulting to 'published' |
| Schema.InsertedStatus | run-schema.cjs:25-56 | a company, roadmap or insight inserted without status stores 'published' |
| Schema.InsertedRole | run-schema.cjs:67 | a user inserted without a role stores 'editor' |
| Schema.InsertedInsightCounters | run-schema.cjs:55-57 | an insight inserted without them stores read_count 0 and published_at now |
| Schema.NullRejected | run-schema.cjs:13-65 | an INSERT with NULL in a NOT NULL column without a default is rejected |
| Schema.RequiredColumns | run-schema.cjs:13-65 | an INSERT with a null company name, insight title or user email is rejected |
| Schema.TableOkStore | run-schema.cjs:11-72 | storing a valid row under its id keeps the table valid |
| Schema.TableOkRemove | run-schema.cjs:11-72 | removing a row keeps the table valid |
| Schema.EmailsStore | run-schema.cjs:65 | storing a row whose email no other row has keeps the emails unique |
| Schema.UserEmailNotNull | run-schema.cjs:65 | a stored user always has an email |
| Schema.ForeignKeysWider | run-schema.cjs:33 | adding companies keeps every roadmap reference valid |
| Schema.CompanyIdFreed | run-schema.cjs:33 | dropping an unreferenced company keeps every roadmap reference valid |
| Schema.StoreKeepsConsistent | run-schema.cjs:11-72 | storing a checked row that passes the key, unique and foreign-key checks keeps the database consistent |
| Schema.NewRowOk | run-schema.cjs:11-72 | the row an accepted INSERT builds satisfies every column constraint |
| Schema.InsertStores | run-schema.cjs:11-72 | an accepted INSERT stores the built row under its id and changes nothing else |
| Schema.InsertKeepsConsistent | run-schema.cjs:11-72 | every accepted INSERT keeps the database consistent |
| Schema.UpdatedAtIsAColumn | run-schema.cjs:27-71 | every table has a timestamp column `updated_at` for the trigger to set |
| Schema.UpdatedRowOk | run-schema.cjs:82-109 | the row an accepted UPDATE writes satisfies every column constraint |
| Schema.UpdateKeepsConsistent | run-schema.cjs:82-109 | every accepted UPDATE keeps the database consistent |
| Schema.StoredRowOk | run-schema.cjs:11-72 | a stored row of a consistent database is valid and stored under its own id |
| Schema.UpdateStores | run-schema.cjs:82-109 | an accepted UPDATE of an existing row replaces just that row and reports one row changed |
| Schema.UpdatedRowValues | run-schema.cjs:82-109 | the updated row keeps its id, has `updated_at` now, takes each SET column's coerced value and keeps every other column |
| Schema.IdKept | run-schema.cjs:82-109 | an UPDATE that does not set `id` keeps the row's id |
| Schema.UpdateInPlace | run-schema.cjs:82-109 | such an UPDATE rewrites the row in place under its id |
| Schema.ReplaceRow | run-schema.cjs:82-109 | removing a row and storing its replacement under the same id is a plain replacement |
| Schema.UpdateRewritesRow | run-schema.cjs:82-109 | after an UPDATE the stored row has `updated_at` now, whatever was supplied; each SET column holds its new value and every other column its old one |
| Schema.UpdateMissing | run-schema.cjs:92-109 | an UPDATE of an absent id changes nothing and reports 0 rows |
| Schema.DeleteKeepsConsistent | run-schema.cjs:33 | every DELETE keeps the database consistent, with no roadmap left behind |
| Schema.DeleteCompanyCascades | run-schema.cjs:33 | deleting a company removes it and exactly the roadmaps referring to it, leaves the other roadmaps unchanged and the other tables as they were |
| Schema.DeleteMissing | run-schema.cjs:33 | deleting an absent id changes nothing and reports 0 rows |
| Schema.Database.constructor | run-schema.cjs:11-72 | the new database has four empty tables and is consistent |
| Schema.Database.Insert | run-schema.cjs:11-72 | the tables become the INSERT's result and the new id is returned; a rejected INSERT changes nothing and returns the error; consistency is kept |
| Schema.Database.Update | run-schema.cjs:82-109 | the tables become the UPDATE's result and the row count is returned; a rejected UPDATE changes nothing; consistency is kept |
| Schema.Database.Delete | run-schema.cjs:33 | the tables become the DELETE's result, cascade included, and the row count is returned; consistency is kept |
| Schema.DefaultStatusIsUnlabelled | run-schema.cjs:25 | the default status 'published' falls back to the default colour and to its raw text in the UI lookups |
| Stats.TallyCounts | src/services/api.ts:123-126 | each key's count is the number of rows carrying that key |
| Stats.TallyKeys | src/services/api.ts:124-126 | a key is present exactly when some row carries it |
| Stats.TotalWithout | src/services/api.ts:124-141 | the sum of counts does not depend on the key it starts from |
| Stats.TallyTotal | src/services/api.ts:124-141 | each row increments exactly one key, so the counts sum to the number of rows |
| Stats.NodeKey | src/services/api.ts:140 | a falsy node is counted under 'Unknown'; any other node under its string form |
| Stats.RegionKeys | src/services/api.ts:125 | one key per row, the row's region |
| Stats.NodeKeys | src/services/api.ts:140 | one key per row, the row's node key |
| Stats.CompaniesByRegion | src/services/api.ts:115-129 | on a query error the result is `{data: null, error}`; otherwise the loop returns the tally of the rows' regions with a null error |
| Stats.RoadmapsByNode | src/services/api.ts:131-144 | on a query error the result is `{data: null, error}`; otherwise the loop returns the tally of the rows' node keys with a null error |
| Stats.Trends | src/services/api.ts:146-153 | the result passes the error through and always has data: the fetched rows, or [] when data is null |
| Stats.UnknownCount | src/services/api.ts:140 | the 'Unknown' count is the number of roadmaps whose node is falsy or is the text 'Unknown' |
| Stats.NodeKeysCount | src/services/api.ts:140 | the rows keyed 'Unknown' are exactly those with a falsy or 'Unknown' node |
| Stats.ErrorExcludesData | src/services/api.ts:121-128 | a region result has data exactly when it has no error, and every count it holds is at least 1 |
| Stats.CountPositive | src/services/api.ts:125 | a key carried by some row has a count of at least 1 |
| Navigation.AllItems | src/components/common/Sidebar.tsx:18-55 | the menu starts with the four public items, and the admin item follows exactly when the user's role is 'admin' |
| Navigation.MenuKeys | src/components/common/Sidebar.tsx:18-55 | without an admin user the menu is dashboard, companies, roadmap, insights; an admin also gets the admin item last |
| Navigation.RolesAgreeWithGate | src/components/common/Sidebar.tsx:45-55 | the `roles` list is never read, but an item carrying one is shown only to a user whose role it lists |
| Navigation.IsActive | src/components/common/Sidebar.tsx:84-85 | an item is active iff the path equals its path, or its path is not '/' and is a raw prefix of the path |
| Navigation.RootOnlyWhenExact | src/components/common/Sidebar.tsx:84-85 | the dashboard item is active only on exactly '/' |
| Navigation.RawPrefixMatches | src/components/common/Sidebar.tsx:84-85 | a detail page and a path merely starting with the same letters both highlight the section |
| Navigation.SettingsActive | src/components/common/Sidebar.tsx:116 | the settings link is active only on the exact path, which the menu rule would also accept |
| Navigation.SettingsNotByPrefix | src/components/common/Sidebar.tsx:84-116 | a path below '/settings' does not highlight settings, although the menu rule would |
| Navigation.PrefixesNest | src/components/common/Sidebar.tsx:85 | two prefixes of one path are prefixes of each other |
| Navigation.PathsDoNotNest | src/components/common/Sidebar.tsx:18-52 | no menu path other than '/' is a prefix of another |
| Navigation.AtMostOneActive | src/components/common/Sidebar.tsx:83-85 | for any path at most one menu item is highlighted |
| Filters.Changed | src/components/companies/CompanyFilters.tsx:26 | the new record has the old keys plus `key`, `key` maps to the value, and every other key is unchanged |
| Filters.InitialValues | src/components/companies/CompanyFilters.tsx:14-23 | the record starts with an empty search, sortBy 'updatedAt', sortOrder 'desc' and the five other fields undefined |
| Filters.ChangeTwice | src/components/companies/CompanyFilters.tsx:26 | changing a key twice keeps only the second value |
| Filters.ChangesCommute | src/components/companies/CompanyFilters.tsx:26 | changes to different keys commute |
| Filters.ChangeToSameValue | src/components/companies/CompanyFilters.tsx:26 | setting a field to its current value changes nothing |
| Filters.ChangeKeepsFields | src/components/companies/CompanyFilters.tsx:14-26 | a change keeps the eight fields and adds a field only for a new key |
| Filters.Report | src/components/companies/CompanyFilters.tsx:25-44 | a reset calls `onReset`; a change or apply calls `onFilterChange` with the record held after the event |
| Filters.ResetIdempotent | src/components/companies/CompanyFilters.tsx:31-43 | reset restores exactly the initial record, so resetting twice equals resetting once |
| Filters.ResetForgets | src/components/companies/CompanyFilters.tsx:31-43 | any run of events ending with a reset ends at the initial record |
| Filters.ReportsCurrentRecord | src/components/companies/CompanyFilters.tsx:25-29 | in a run of events, every `onFilterChange` call carries the record held right after that event |
| Filters.ReportsReset | src/components/companies/CompanyFilters.tsx:31-44 | in a run of events, every reset click calls `onReset`, and right after it the panel holds the initial record |
| Filters.Calls | src/components/companies/CompanyFilters.tsx:28-43 | a run of events makes one call per event |
| Filters.CompanyFilters.constructor | src/components/companies/CompanyFilters.tsx:14-23 | the panel starts with the initial record and no calls |
| Filters.CompanyFilters.HandleChange | src/components/companies/CompanyFilters.tsx:25-29 | the record becomes the old one with `key` set, and exactly that record is passed to `onFilterChange` |
| Filters.CompanyFilters.HandleReset | src/components/companies/CompanyFilters.tsx:31-44 | the record becomes the initial one and `onReset` is called, not `onFilterChange` |
| Filters.CompanyFilters.ApplyFilters | src/components/companies/CompanyFilters.tsx:149 | the record is unchanged and is passed to `onFilterChange` |
| Filters.CompanyFilters.Handle | src/components/companies/CompanyFilters.tsx:25-44 | each handler's effect on the record and its call agree with `Next` and `Report` |

## Left out

- Rendering: the pages, the JSX layout, the chart options and the mock data in the components are not modelled. The same goes for the render-time colour and label maps in the pages, which are lookups of the same kind as the helpers' tables.
- Formatting: `formatDate`, `formatDateTime`, `formatNumber`, `formatCurrency`, `formatCompactNumber`, `formatBytes` and StatsCard's `formatValue` are left out. They depend on dayjs, Intl, floating-point division and logarithms.
- Browser I/O is left out: the Blob, object-URL and link-click download steps of the exports, `exportToJSON`, and the FileReader plumbing of `parseCSV`. Only the strings built and parsed are modelled. The model's parse error stands for the exception that `lines[0].split` throws.
- The database client and the pass-through parts of `src/services/api.ts` are left out, because they are network calls. The query builder (`.not`, `.eq`, `.order`, `.limit`) lives in a library outside this model. The aggregations take the response as given, so the `.not('region', 'is', null)` filter is assumed to have been applied by the server.
- `statsApi.getOverview` is left out. It calls the local `statsApi`, which shadows the imported one, so as written it would call itself forever.
- The `increment_read_count` call is left out: its atomicity is a server-side concurrency property, and no file here defines it.
- The react-query hooks are left out: caching, invalidation, token storage and async mutation wiring.
- The `persist` middleware's storage mechanics are left out; only the `partialize` projection is modelled.
- From run-schema.cjs, only the declarations of lines 6-110 are modelled. The rest of the script, the HTTPS request that submits the SQL, is left out, and so are the indexes (lines 75-79), which change no result. The database's concurrency and isolation is left out too.
- Ids: `uuid_generate_v4` is a fresh number passed to each insert. The model assumes the caller picks an unused one; a clash is rejected as a duplicate key, as the database would reject it.
- Statements cover one row at a time, addressed by id. Multi-row UPDATE/DELETE and `RETURNING` are not modelled.
- Column types are simplified:
  - DECIMAL(p, s) is held as an unscaled integer, and only its digit count is checked; rounding is not modelled.
  - DATE and TIMESTAMP are abstract integers.
  - Implicit casts between types (a string into an INT column, say) are rejected rather than parsed.
- Numbers everywhere are integers: the model has no floating point. This affects the `Num` values of rows, sort keys and the region and node counts.
- JsValues.ToLowerCase: only ASCII letters are lowered. JavaScript's full Unicode case mapping, which can change a string's length, is not modelled.
- Helpers.SortByField: both keys passed to the comparator here are numbers or both are strings. JavaScript's `<` between mixed kinds or `undefined` is not a total order, and the model instead puts numbers before strings.
- Helpers.HashIsExact: the unbounded-integer hash matches JavaScript's double arithmetic only while the hash stays below 2^53 in size. The lemma proves that this holds for texts of up to four million code units; beyond that, rounding is not modelled.
- Object keys inherited from `Object.prototype` (`constructor`, `toString`, `__proto__`) are not modelled. In the source they would make the lookup tables return a function and the count dictionaries start from a non-number.
- JavaScript objects list integer-like keys first in numeric order. The model keeps insertion order for parsed CSV records.
- The React rendering cycle is not modelled. Each handler of the filter panel is assumed to see the record of the latest render, that is, the panel re-renders between two events. Two changes batched into one render, where the second would overwrite the first, are not modelled.
- The filter panel's date-range picker objects are abstracted to a single `Value`.
