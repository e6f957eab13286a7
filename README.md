# Honey Brook Water Authority website: a verified model of its page logic

The Honey Brook Water Authority website is a React single-page application.
Its JSON configuration lives in `public/`: site contact data, page metadata,
service alerts, the rate schedule, documents and pictures. This project
models in Dafny the logic that decides what the pages show:

- **head metadata**: which route entry describes a path, and the title,
  description, image and robots values taken from it (`Seo`);
- **service alerts**: when an alert is active or recently resolved, and how
  the alerts page splits the list (`Alerts`);
- **global alert banner**: which alerts it shows, the signature that
  identifies them, and dismissal kept in session storage (`AlertBanner`);
- **rates page**: footnote numbering in order of first appearance, note
  marks and the notes list, and amount text (`Rates`);
- **rates section card**: a section card under a fee filter, including its
  policies and links footer (`RatesSectionCard`);
- **rates filter bar**: the filter value and its input handlers
  (`RatesFilterBar`);
- **slideshow**: the index, play state, keyboard handling, announcement,
  and the autoplay timeout its effect schedules (`Slideshow`);
- **documents page**: the category and title filters, and the
  newest-first order (`Documents`);
- **water quality page**: the report list, the latest year and the three
  newest report cards, including undated reports (`WaterQuality`);
- **not-found page**: the quick-link search (`NotFound`);
- **error page**: status, message, contact fall-backs and the e-mail
  report (`ErrorPage`);
- **contact map**: the address lines, the search text and the map links
  (`ContactMap`);
- **emergency contact box**: the phone shown and its `tel:` link
  (`ContactBox`, `Phone`);
- **config validation**: the build script that checks the eight JSON
  configuration files (`ValidateConfigs`).

Helper modules model the JavaScript built-ins the pages rely on:

- `Seqs`: `Array.prototype.filter`;
- `Strings`: `trim`, ASCII `toLowerCase`, `includes`, `join`, `split`,
  `replaceAll` of one character, decimal formatting, and code-unit string
  comparison;
- `StableSort`: `Array.prototype.sort` with a comparator. It is an in-place
  stable insertion sort on an `array`, proved equal to a functional stable
  sort. Sortedness, permutation and stability are proved about that
  function.

`Configs` holds the configuration records as datatypes. `Wrappers` holds
`Option`, which stands for `undefined`/`null`.

Modelling conventions:

- **State the source updates in place is a `class`.** This covers the
  slideshow state, the banner's dismissed signature and session storage, and
  the rates page's numbering `Map` with its counter. The sorts work on an
  `array`.
- **Loops are methods** with invariants, proved against the functions used
  as specifications: `PickRouteMeta`, `BuildNoteOrder`, `SortInPlace`,
  `Validate`.
- **Everything else is functions.**
- **Clocks are parameters.** The current time is a millisecond count
  `ref`.
- **Dates are parsed before the model sees them.** A date string comes
  with the result of `new Date(s)`: a millisecond count, or an invalid date.
  Comparisons with an invalid date are false, as with NaN.
- **Locale-dependent and browser built-ins are function parameters**:
  `encodeURIComponent`, `Number`, currency formatting and the calendar year
  of a date string.
- **File existence, JSON parsing and schema checks are a `Probes` record**,
  a set of functions of the file name.

## Model

| member | source | states |
|---|---|---|
| Seqs.Filter | src/pages/Documents.tsx:13-14 | a filter keeps only elements that pass and is never longer than its input |
| Seqs.FilterContents | src/pages/Documents.tsx:13-14 | an element is in the filtered list iff it is in the input and passes; no element is added |
| Seqs.FilterIsSubsequence | src/pages/Documents.tsx:13-14 | a filter keeps the relative order of the elements it keeps |
| Seqs.FilterAllPass | src/pages/Documents.tsx:13-14 | filtering with a test every element passes changes nothing |
| Seqs.FilterIdempotent | src/pages/Documents.tsx:13-14 | filtering twice with the same test is filtering once |
| Seqs.FilterAppend | src/pages/Documents.tsx:13-14 | filtering distributes over concatenation |
| Seqs.FilterPartition | src/pages/Alerts.tsx:57-58 | a filter and the filter of its negation together hold every element exactly once |
| Seqs.FilterFilter | src/pages/Documents.tsx:13-14 | two filters in a row equal one filter by the conjunction |
| Seqs.FilterCount | src/components/alert/ContactBox.tsx:7 | an element that passes is kept exactly as often as it occurs |
| Seqs.FilterFirst | src/components/GlobalAlertBanner.tsx:48 | the first element kept is the first element of the input that passes |
| Seqs.FilterEmpty | src/components/GlobalAlertBanner.tsx:38-43 | a filter is empty iff no element passes |
| Seqs.SubsequenceReflexive | src/pages/Documents.tsx:12 | an unfiltered copy keeps the list order |
| Strings.TrimStart | src/pages/NotFound.tsx:31 | the result is a suffix of the input that starts with a non-space; only white space is dropped |
| Strings.AllWhitespaceCons | src/pages/NotFound.tsx:31 | a white-space character in front of blank text keeps it blank |
| Strings.TrimEnd | src/pages/NotFound.tsx:31 | the result is a prefix of the input that ends with a non-space; only white space is dropped |
| Strings.Trim | src/pages/Documents.tsx:11 | `trim()`: trimEnd after trimStart; TrimEmptyIffBlank, TrimLowerCommute and TrimSurroundingSpace state what it does |
| Strings.TrimEmptyIffBlank | src/pages/NotFound.tsx:31-32 | the trimmed query is empty iff the query is all white space |
| Strings.TrimStartLeadingSpace | src/pages/NotFound.tsx:31 | leading white space never reaches the trimmed text |
| Strings.TrimEndTrailingSpace | src/pages/NotFound.tsx:31 | trailing white space never reaches the trimmed text |
| Strings.TrimStartAppend | src/pages/NotFound.tsx:31 | trimming the start of a concatenation trims the first part, or skips it when it is blank |
| Strings.AllWhitespaceTail | src/pages/NotFound.tsx:31 | text that starts with white space is blank iff its tail is |
| Strings.TrimSurroundingSpace | src/pages/NotFound.tsx:31 | white space around a query does not change its trimmed form |
| Strings.LowerChar | src/pages/NotFound.tsx:31 | upper-case ASCII letters map to lower case and every other character is kept |
| Strings.Lower | src/pages/NotFound.tsx:31 | lower-casing keeps the length and maps each character on its own |
| Strings.TrimLowerCommute | src/pages/Documents.tsx:11 | trimming and lower-casing can be done in either order |
| Strings.LowerTrimStart | src/pages/Documents.tsx:11 | lower-casing commutes with trimming the start |
| Strings.LowerTrimEnd | src/pages/Documents.tsx:11 | lower-casing commutes with trimming the end |
| Strings.LowerIdempotent | src/pages/NotFound.tsx:31 | lower-casing lower-cased text changes nothing |
| Strings.Join | src/components/GlobalAlertBanner.tsx:46 | `parts.join(sep)`: the parts with the separator between neighbours; JoinEmpty and SplitJoin state it |
| Strings.JoinEmpty | src/components/contact/ContactMap.tsx:12-18 | joining non-empty parts gives the empty string iff there are no parts |
| Strings.IndexOf | scripts/validate-configs.ts:54 | the index found holds the character and no earlier position does |
| Strings.Split | src/pages/ErrorPage.tsx:51 | `split` on one character, the inverse of `join` used to read a joined report body or path back; SplitAtFirst and SplitJoin state it |
| Strings.SplitAtFirst | scripts/validate-configs.ts:54 | splitting cuts at the first separator |
| Strings.SplitJoin | scripts/validate-configs.ts:54 | splitting a join by a character that occurs in no part gives back the parts |
| Strings.ReplaceChar | src/pages/Rates.tsx:45 | every occurrence of one character is replaced and nothing else changes; none remains |
| Strings.DigitChar | src/pages/Rates.tsx:33 | a digit value maps to the character of that digit |
| Strings.NatToString | src/pages/Rates.tsx:33 | a number prints as decimal digits with no leading zero |
| Strings.NatToStringRoundTrip | src/pages/Rates.tsx:33 | reading the printed digits back gives the number |
| Strings.IntToString | src/pages/WaterQuality.tsx:92 | a number in a template string: a minus sign for a negative, then the decimal digits NatToString states |
| Strings.Compare | src/pages/Documents.tsx:15 | the comparison is -1, 0 or 1, and 0 exactly for equal strings |
| Strings.CompareAntisymmetric | src/pages/Documents.tsx:15 | swapping the operands negates the comparison |
| Strings.CompareTransitive | src/pages/Documents.tsx:15 | "sorts no later than" is transitive |
| StableSort.Insert | src/pages/Documents.tsx:15 | inserting adds one element |
| StableSort.SortSpec | src/pages/Documents.tsx:15 | the sorted list has the length of the input |
| StableSort.InsertPos | src/pages/Documents.tsx:15 | the insertion point lies within the list |
| StableSort.InsertShape | src/pages/Documents.tsx:15 | inserting places the element after everything that may precede it and before a run that must follow it |
| StableSort.InsertSplit | src/pages/Documents.tsx:15 | inserting splices the element in and keeps the rest in order |
| StableSort.InsertPermutes | src/pages/Documents.tsx:15 | inserting adds exactly the element to the multiset |
| StableSort.SplicedMultiset | src/pages/Documents.tsx:15 | splicing an element into a list adds exactly that element to its multiset |
| StableSort.SortSpecPermutes | src/pages/Documents.tsx:15 | sorting is a permutation |
| StableSort.InsertSorted | src/pages/Documents.tsx:15 | inserting into a sorted list keeps it sorted, for a consistent comparator |
| StableSort.InsertAgrees | src/pages/Documents.tsx:15 | two comparators that agree between the new element and every list element insert it at the same place |
| StableSort.SortSpecAgrees | src/pages/WaterQuality.tsx:75-81 | two comparators that agree on every pair of list elements sort the list alike |
| StableSort.SplicedSorted | src/pages/Documents.tsx:15 | splicing an element after what may precede it and before what must follow it keeps a sorted list sorted |
| StableSort.BeforeInserted | src/pages/Documents.tsx:15 | every element before the insertion point may precede the inserted one |
| StableSort.AfterInserted | src/pages/Documents.tsx:15 | an element that must follow the inserted one does not precede it |
| StableSort.InsertedOthers | src/pages/Documents.tsx:15 | two elements other than the inserted one keep their sorted relation after splicing |
| StableSort.SortSpecSorted | src/pages/Documents.tsx:15 | the sorted list is ordered by any consistent comparator |
| StableSort.SortSpecStable | src/pages/Documents.tsx:15 | elements the comparator ties keep their input order |
| StableSort.InsertFilter | src/pages/Documents.tsx:15 | inserting appends the element to its own tie class and leaves other classes alone |
| StableSort.InsertFilterSplit | src/pages/Documents.tsx:15 | when nothing tied with the element lies after the insertion point, its tie class gains it at the end |
| StableSort.SpliceFilterLast | src/pages/Documents.tsx:15 | filtering a splice with nothing passing after the element puts the element last |
| StableSort.SpliceFilter | src/pages/Documents.tsx:15 | filtering a splice filters the three parts separately |
| StableSort.NothingTiedAfter | src/pages/Documents.tsx:15 | nothing placed after the inserted element ties with it |
| StableSort.NoTieAfterInsert | src/pages/Documents.tsx:15 | an element that must follow the inserted one cannot tie with what it ties with |
| StableSort.InsertPosUnfold | src/pages/Documents.tsx:15 | one step of the backward scan leaves the insertion point unchanged |
| StableSort.InsertAt | src/pages/Documents.tsx:15 | shifting in place turns the sorted prefix plus the next element into their insertion; later cells are untouched |
| StableSort.ShiftRight | src/pages/Documents.tsx:15 | the backward scan moves each cell that must follow the element one place right, stops after one that may precede it, and touches nothing else |
| StableSort.InsertAtResult | src/pages/Documents.tsx:15 | the array prefix after the shift and the write is the insertion of the element into the old sorted prefix |
| StableSort.Spliced | src/pages/Documents.tsx:15 | a list that agrees cell by cell with a splice is that splice |
| StableSort.SortInPlace | src/pages/Documents.tsx:15 | sorting the array in place leaves exactly the stable sorted permutation of its old contents |
| Seo.Normalize | src/components/Seo.tsx:22 | one trailing slash is removed except from the root path; other paths are kept |
| Seo.Covers | src/components/Seo.tsx:28-30 | a key other than `/` covers a path equal to it or starting with it and `/`; see CoversNeedsSeparator |
| Seo.ResolvesTo | src/components/Seo.tsx:17-33 | the resolution rule, stated without a loop: exact entry, else a longest covering key, else `/*`; PickRouteMeta meets it |
| Seo.SameLengthCoverUnique | src/components/Seo.tsx:27-31 | two covering keys of the same length are the same key |
| Seo.LongestMatchUnique | src/components/Seo.tsx:23-31 | the longest covering key is unique, so the enumeration order of equal-length keys cannot matter |
| Seo.CoversNeedsSeparator | src/components/Seo.tsx:29 | any key but `/` covers every path below it (key, `/`, anything) and no path that extends it by another character (as `/docs` and `/docsx`) |
| Seo.ByLengthDescConsistent | src/components/Seo.tsx:25 | the length comparator is a valid sort order |
| Seo.RouteKeys | src/components/Seo.tsx:23-24 | the enumerated keys are exactly the route keys other than `/*` |
| Seo.SortedRouteKeys | src/components/Seo.tsx:23-25 | the sorted keys are exactly the non-wildcard route keys, longest first |
| Seo.LongestFirst | src/components/Seo.tsx:23-25 | sorting the keys by descending length keeps exactly the keys, and their lengths never increase |
| Seo.ResolutionIsDeterministic | src/components/Seo.tsx:17-33 | the resolution rule fixes one entry for every path and configuration |
| Seo.RootOnlyExact | src/components/Seo.tsx:28 | the `/` entry is never chosen by prefix matching |
| Seo.TrailingSlashResolves | src/components/Seo.tsx:20-31 | a path with a trailing slash and no entry of its own resolves to the entry of the path without it (`/docs/` to `/docs`), for every such key |
| Seo.PickRouteMeta | src/components/Seo.tsx:17-33 | the choice is: none without configuration; else the exact entry; else the longest covering key; else the `/*` entry if any |
| Seo.OccursShift | src/components/Seo.tsx:99 | an occurrence after the first index is an occurrence in the tail |
| Seo.ReplaceFirstStep | src/components/Seo.tsx:99 | with no occurrence at the front, replacement proceeds in the tail |
| Seo.NoEarlierInTail | src/components/Seo.tsx:99 | with no occurrence before index i, the tail has none before index i - 1 |
| Seo.ConsSplice | src/components/Seo.tsx:99 | replacing in the tail and putting the first character back is replacing in the whole text |
| Seo.ReplaceFirstAt | src/components/Seo.tsx:99 | `replace` with a string pattern replaces only the first occurrence |
| Seo.ReplaceFirstAbsent | src/components/Seo.tsx:99 | without an occurrence the text is unchanged |
| Seo.ReplaceFirst | src/components/Seo.tsx:99 | `replace` with a string pattern; ReplaceFirstAt and ReplaceFirstAbsent state what it does |
| Seo.Computed | src/components/Seo.tsx:96-102 | defaults come from the configuration or the built-in fallback; description and image come from the route entry, falling back to the defaults; noindex holds only when the entry says `true` |
| Seo.EmptyTemplateTitle | src/components/Seo.tsx:99 | an empty title template gives the bare page title, or "Home" |
| Seo.TemplateTitle | src/components/Seo.tsx:99 | the title is the template with its first `%s` replaced by the page title |
| Seo.TemplateWithoutPlaceholder | src/components/Seo.tsx:99 | a template without `%s` is used as the title verbatim |
| Seo.NoConfigUsesFallback | src/components/Seo.tsx:5-15 | with no configuration the page is titled "Home \| Honey Brook Water Authority", with no image, and is indexed |
| Seo.Robots | src/components/Seo.tsx:117 | the robots value is "noindex,nofollow" iff noindex, else "index,follow" |
| Rates.NoteKeyOf | src/pages/Rates.tsx:16-18 | a fee contributes its note key iff the key is present and non-empty |
| Rates.AddNewContents | src/pages/Rates.tsx:17 | adding keeps earlier keys in front, adds only unseen keys, and never repeats one |
| Rates.AddNew | src/pages/Rates.tsx:16-18 | the keys seen so far followed by the unseen keys in first-appearance order; stated by AddNewContents and AddNewAppend |
| Rates.FirstOccurrences | src/pages/Rates.tsx:12-27 | the keys in order of first appearance; stated by FirstOccurrencesPrefix and FirstOccurrenceOrder |
| Rates.PageNoteKeys | src/pages/Rates.tsx:20-24 | every note key met on the page, in visiting order, or none without data; stated by NumberedKeysAreNoteKeys |
| Rates.AddNewAppend | src/pages/Rates.tsx:20-24 | numbering in two batches equals numbering all the keys at once |
| Rates.FirstOccurrencesPrefix | src/pages/Rates.tsx:12-27 | later input never renumbers earlier keys |
| Rates.FirstOccurrenceOrder | src/pages/Rates.tsx:17 | a key first met after others gets the next number |
| Rates.NumberingIsOneToCount | src/pages/Rates.tsx:13-26 | the numbers used are exactly 1..count, one key each |
| Rates.NoteIndex.constructor | src/pages/Rates.tsx:13-14 | an empty table with the counter at 1 |
| Rates.NoteIndex.Consider | src/pages/Rates.tsx:16-18 | a new non-empty key gets the next number; known keys keep theirs |
| Rates.NoteIndex.ConsiderAll | src/pages/Rates.tsx:22 | considering a fee list adds its unseen keys in list order |
| Rates.NoteIndex.ConsiderSubsections | src/pages/Rates.tsx:23 | the subsections' fees are considered subsection by subsection |
| Rates.NoteIndex.ConsiderSection | src/pages/Rates.tsx:21-24 | the top-level fees are considered before the subsections' fees |
| Rates.BuildNoteOrder | src/pages/Rates.tsx:12-27 | keys are numbered 1..count in order of first appearance on the page, and count is the table size |
| Rates.NumberedKeysAreNoteKeys | src/pages/Rates.tsx:12-27 | exactly the note keys met on the page are numbered; nothing is numbered without data |
| Rates.FeeNoteKeysMembers | src/pages/Rates.tsx:16-18 | a fee list contributes exactly its present, non-empty note keys |
| Rates.FeeNoteKeysStep | src/pages/Rates.tsx:22 | one more fee appends its own note key, if any, to the keys met so far |
| Rates.SubsectionNoteKeysStep | src/pages/Rates.tsx:23 | one more subsection appends its fees' note keys to the keys met so far |
| Rates.EncounterKeysStep | src/pages/Rates.tsx:20-24 | one more section appends its note keys to the keys met so far |
| Rates.RenderNoteMark | src/pages/Rates.tsx:29-40 | a mark appears iff the key is present, non-empty and numbered; it links to `#note-N` with the label "See note N" |
| Rates.NoteMarksDistinct | src/pages/Rates.tsx:29-40 | two different notes never share a link target |
| Rates.UnitSuffix | src/pages/Rates.tsx:45 | the suffix is empty iff there is no unit; otherwise it is the unit name in parentheses with `_` shown as spaces |
| Rates.FormatAmount | src/pages/Rates.tsx:42-49 | a numeric amount is shown as currency, else the amount text or nothing; the unit suffix follows either |
| Rates.NotesAside | src/pages/Rates.tsx:141-148 | the aside is shown iff count > 0, with one paragraph per key in numbering order, id `note-N` |
| Rates.NoteLinksResolve | src/pages/Rates.tsx:33-144 | each note mark links to the id of its note's paragraph |
| Rates.NotesChipLabel | src/pages/Rates.tsx:127 | the chip label uses "item" for one note and "items" for more |
| Alerts.Parse | src/pages/Alerts.tsx:15 | an absent or empty date string is no date; any other string gives its parse, valid or not |
| Alerts.After | src/pages/Alerts.tsx:21 | `start > ref` on a `Date`: false for an invalid date, whose time is NaN; InvalidStartCountsAsStarted states the consequence |
| Alerts.Before | src/pages/Alerts.tsx:22 | `end < ref` on a `Date`: false for an invalid date; ActiveWindow states the window it bounds |
| Alerts.IsActive | src/pages/Alerts.tsx:17-24 | `isActive`: not without a start, not before a valid start, not after a valid end; stated by ActiveWindow and its neighbours |
| Alerts.IsRecentlyResolved | src/pages/Alerts.tsx:26-31 | `isRecentlyResolved`: a valid end at most 14 days before now and not after it; stated by ResolvedWindowEnds |
| Alerts.ActiveWindow | src/pages/Alerts.tsx:17-24 | with valid dates an alert is active from its start to its end, both included, and forever without an end |
| Alerts.NoStartNeverActive | src/pages/Alerts.tsx:20 | an alert without a start date is never active |
| Alerts.InvalidStartCountsAsStarted | src/pages/Alerts.tsx:21 | an unparseable start date never counts as in the future |
| Alerts.EndInstantIsBoth | src/pages/Alerts.tsx:17-31 | at the exact end instant an alert is both active and recently resolved |
| Alerts.ResolvedWindowEnds | src/pages/Alerts.tsx:26-31 | recently resolved means ended at most 14 days ago, at the current instant or before it |
| Alerts.SeveritiesPartitionActive | src/pages/Alerts.tsx:56-58 | the emergencies and notices lists split the active list, each in its order |
| Alerts.PageLists | src/pages/Alerts.tsx:56-59 | the page's active emergencies, active notices and recently resolved lists; stated by the partition and contents lemmas |
| Alerts.EmergencyListContents | src/pages/Alerts.tsx:56-57 | the emergencies list holds exactly the active alerts of emergency severity |
| Alerts.ResolvedIncludesActive | src/pages/Alerts.tsx:59 | every recently resolved alert is on the resolved list |
| Alerts.MakeSection | src/pages/Alerts.tsx:84-118 | a section shows its empty-state subtitle iff it has no cards |
| Alerts.AlertsPage | src/pages/Alerts.tsx:40-59 | loading wins; then a non-empty error or missing data gives the error view; otherwise the three lists are shown |
| Alerts.EmptyErrorMessage | src/pages/Alerts.tsx:48-51 | an empty error string does not block the lists, and without data it is shown as is |
| AlertBanner.IsActive | src/components/GlobalAlertBanner.tsx:13-20 | the banner's own `isActive`; IsActiveAgrees states it equals the alerts page's test |
| AlertBanner.IsActiveAgrees | src/components/GlobalAlertBanner.tsx:13-20 | the banner's activity test agrees with the alerts page's |
| AlertBanner.Entries | src/components/GlobalAlertBanner.tsx:46 | one `id:lastUpdated` entry per chosen alert, in order |
| AlertBanner.Signature | src/components/GlobalAlertBanner.tsx:45-47 | the mode, `::`, then the chosen entries joined by `\|`; its shape and injectivity are the two lemmas below |
| AlertBanner.Select | src/components/GlobalAlertBanner.tsx:26-49 | no mode without data; else emergencies if any are active, then notices; stated by EmergencyTakesPriority, NoticeModePrimary, ModeCases and ModeHasPrimary |
| AlertBanner.EmergencyTakesPriority | src/components/GlobalAlertBanner.tsx:38-48 | any active emergency puts the banner in emergency mode, led by the first active emergency |
| AlertBanner.NoticeModePrimary | src/components/GlobalAlertBanner.tsx:34-48 | with no active emergency and some active notice, the mode is notice, the signature summarises the active notices in order, and the primary is the first active notice |
| AlertBanner.ModeCases | src/components/GlobalAlertBanner.tsx:38-43 | notice mode iff no active emergency and some active notice; no mode without active alerts |
| AlertBanner.ModeHasPrimary | src/components/GlobalAlertBanner.tsx:26-48 | a mode is chosen iff there is a primary alert iff the signature is non-empty |
| AlertBanner.SignatureHead | src/components/GlobalAlertBanner.tsx:45-47 | the signature is the mode, `::`, then the entries joined by `\|` |
| AlertBanner.SignatureInjective | src/components/GlobalAlertBanner.tsx:45-47 | for non-empty chosen lists whose ids hold no `:` or `\|` and whose update stamps hold no `\|`, equal signatures mean the same mode and the same ids and update stamps, in order |
| AlertBanner.EntryInjective | src/components/GlobalAlertBanner.tsx:46 | when ids hold no `:`, an entry determines its id and update stamp |
| AlertBanner.Reconciled | src/components/GlobalAlertBanner.tsx:60-69 | a stored signature is kept or cleared; it is cleared only when it differs from a non-empty current one |
| AlertBanner.ReconcileIdempotent | src/components/GlobalAlertBanner.tsx:60-69 | reconciling twice is reconciling once |
| AlertBanner.Dismissed | src/components/GlobalAlertBanner.tsx:71-79 | dismissing stores a non-empty signature and ignores an empty one |
| AlertBanner.DismissHides | src/components/GlobalAlertBanner.tsx:71-83 | after dismissal the banner for that signature is hidden |
| AlertBanner.NewSignatureShowsAgain | src/components/GlobalAlertBanner.tsx:60-83 | a different set of alerts clears the dismissal and shows the banner again |
| AlertBanner.Label | src/components/GlobalAlertBanner.tsx:93 | the heading is "Active Emergency Notice" iff emergency mode |
| AlertBanner.Visible | src/components/GlobalAlertBanner.tsx:81-83 | the banner shows only when not loading, with no error, with a mode and a primary, and not dismissed for this signature; used by DismissHides and NewSignatureShowsAgain |
| AlertBanner.Banner.constructor | src/components/GlobalAlertBanner.tsx:24 | nothing is dismissed at mount |
| AlertBanner.Banner.Load | src/components/GlobalAlertBanner.tsx:51-58 | the stored signature is read when storage is available and otherwise left as it was; storage is unchanged |
| AlertBanner.Banner.Reconcile | src/components/GlobalAlertBanner.tsx:60-69 | the dismissed signature becomes its reconciled value and storage drops the key when it is cleared |
| AlertBanner.Banner.Dismiss | src/components/GlobalAlertBanner.tsx:71-79 | a non-empty signature is remembered and stored when storage is available |
| AlertBanner.DismissThenReload | src/components/GlobalAlertBanner.tsx:51-79 | a dismissal survives a reload through session storage |
| Slideshow.JsRem | src/components/gallery/Slideshow.tsx:37 | the remainder takes the sign of the dividend and is smaller in size than the divisor |
| Slideshow.Clamp | src/components/gallery/Slideshow.tsx:36-39 | `clamp`: the JavaScript remainder of `i + count` with loop, else `i` saturated at both ends; its range is stated by the lemmas below |
| Slideshow.JsRemNonNegative | src/components/gallery/Slideshow.tsx:37 | for non-negative operands the remainder is the usual modulus |
| Slideshow.JsRemNegative | src/components/gallery/Slideshow.tsx:37 | for a negative dividend the remainder is 0 on a multiple of the divisor, else the Euclidean modulus minus the divisor, a negative number |
| Slideshow.ModUnique | src/components/gallery/Slideshow.tsx:37 | the Euclidean remainder is the only remainder in [0, b) |
| Slideshow.ModOfMultiple | src/components/gallery/Slideshow.tsx:37 | a multiple of the divisor leaves remainder 0 |
| Slideshow.MulAtLeast | src/components/gallery/Slideshow.tsx:37 | a positive multiple of a positive number is at least that number |
| Slideshow.ClampInRange | src/components/gallery/Slideshow.tsx:36-39 | clamping lands in range, given an index at most one full turn below zero when looping |
| Slideshow.ClampKeepsValid | src/components/gallery/Slideshow.tsx:36-39 | an index already in range is unchanged |
| Slideshow.LoopWraps | src/components/gallery/Slideshow.tsx:36-38 | with looping, next from the last slide is the first and previous from the first is the last |
| Slideshow.NoLoopSaturates | src/components/gallery/Slideshow.tsx:39 | without looping, next and previous stop at the ends |
| Slideshow.LoopClampIsMod | src/components/gallery/Slideshow.tsx:37 | looping clamps to the modulus of the index |
| Slideshow.LoopClampBelowRange | src/components/gallery/Slideshow.tsx:37 | more than a turn below zero the loop clamp is negative (the Euclidean modulus minus the count), except where `i + count` is a multiple of the count, which gives 0 |
| Slideshow.Announcement | src/components/gallery/Slideshow.tsx:74 | the announcement, present iff there are slides, is "Slide i of n" |
| Slideshow.Slideshow.Announce | src/components/gallery/Slideshow.tsx:72-75 | the live-region text for the current state; Announcement states it is "Slide i of n", present iff there are slides |
| Slideshow.AutoplayArmed | src/components/gallery/Slideshow.tsx:53 | the effect's guard: playing, motion allowed, not hovered, not focused, at least two slides |
| Slideshow.Slideshow.constructor | src/components/gallery/Slideshow.tsx:18-34 | the defaults are loop on, autoplay on, interval 5000 ms, first slide, playing iff autoplay; before mounting no timeout is pending and the effect has not run |
| Slideshow.Slideshow.Next | src/components/gallery/Slideshow.tsx:46 | advance by one, wrapping or stopping at the end; nothing else changes |
| Slideshow.Slideshow.Prev | src/components/gallery/Slideshow.tsx:47 | go back by one, wrapping or stopping at the start; nothing else changes |
| Slideshow.Slideshow.GoTo | src/components/gallery/Slideshow.tsx:48 | jump to a clamped index, exact when in range |
| Slideshow.Slideshow.TogglePlaying | src/components/gallery/Slideshow.tsx:95-101 | the play state flips and nothing else changes |
| Slideshow.Slideshow.OnKeyDown | src/components/gallery/Slideshow.tsx:77-103 | arrow keys move, Home and End go to the ends, space or Enter on the region toggles play, other keys change nothing |
| Slideshow.Slideshow.Focus | src/components/gallery/Slideshow.tsx:113 | focus sets the focus flag only |
| Slideshow.Slideshow.Blur | src/components/gallery/Slideshow.tsx:114 | blur clears the focus flag only |
| Slideshow.Slideshow.MouseEnter | src/components/gallery/Slideshow.tsx:115-121 | hovering sets the hover flag and cancels any pending timeout; nothing else changes |
| Slideshow.Slideshow.MouseLeave | src/components/gallery/Slideshow.tsx:122 | leaving clears the hover flag only; the timer state is untouched |
| Slideshow.Slideshow.MouseLeaveResuming | src/components/gallery/Slideshow.tsx:115-122 | the corrected leave handler: clears the hover flag and schedules a timeout whenever the effect's guard then passes |
| Slideshow.Slideshow.Commit | src/components/gallery/Slideshow.tsx:51-70 | when a dependency changed (or on mount) the old timeout is cancelled and a new one is pending iff the guard passes; otherwise the timer state is untouched; a pending timeout always has two or more slides and no reduced motion behind it |
| Slideshow.Slideshow.Tick | src/components/gallery/Slideshow.tsx:60-62 | a pending timeout fires once and advances the slide as `next()` does |
| Slideshow.HomeThenEnd | src/components/gallery/Slideshow.tsx:87-94 | Home then End ends on the last slide, still playing |
| Slideshow.Replay | src/components/gallery/Slideshow.tsx:51-122 | after any sequence of key presses, focus changes, pointer moves, play toggles, timeouts and renders, no timeout is pending with fewer than two slides, nor, starting with none pending, when every render saw reduced motion |
| Slideshow.HoverStalls | src/components/gallery/Slideshow.tsx:115-122 | as written, hovering and leaving a playing slideshow of two or more pictures leaves no timeout pending after a later render, although the guard passes |
| Slideshow.HoverResumes | src/components/gallery/Slideshow.tsx:115-122 | with the corrected leave handler the same events leave a timeout pending |
| Documents.ByDateDesc | src/pages/Documents.tsx:15 | `b.date.localeCompare(a.date)`, newest first; ByDateDescConsistent states it is a valid order |
| Documents.ByDateDescConsistent | src/pages/Documents.tsx:15 | the date comparator is a valid sort order |
| Documents.FilteredList | src/pages/Documents.tsx:12-14 | the list is the copy after the category filter and, for a non-blank query, the title filter |
| Documents.Matching | src/pages/Documents.tsx:11-14 | the category filter, then the title filter for a non-blank lower-cased term; stated by MatchingContents and MatchingIsSubsequence |
| Documents.Items | src/pages/Documents.tsx:10-16 | the items are the matching documents, stably sorted newest date first |
| Documents.ItemsArePermutation | src/pages/Documents.tsx:15 | sorting neither loses nor adds a document |
| Documents.ItemsNewestFirst | src/pages/Documents.tsx:15 | every item's date sorts no earlier than the dates after it |
| Documents.MatchingContents | src/pages/Documents.tsx:11-14 | a document is listed iff it is in the chosen category (or "All") and, for a non-blank query, its lower-cased title contains the trimmed lower-cased query |
| Documents.MatchingIsSubsequence | src/pages/Documents.tsx:12-14 | filtering keeps the list order |
| Documents.BlankQueryAllCategories | src/pages/Documents.tsx:11-14 | a blank query with "All" lists every document |
| Documents.EmptyMessage | src/pages/Documents.tsx:45-46 | "No documents found." is shown iff nothing matches |
| WaterQuality.ReportsOf | src/pages/WaterQuality.tsx:13-16 | without data there are no reports; every report is of category Reports |
| WaterQuality.ReportsAreTheReports | src/pages/WaterQuality.tsx:13-16 | the reports are exactly the documents of category Reports, in order |
| WaterQuality.MathMax | src/pages/WaterQuality.tsx:20 | `Math.max` is NaN iff some year is NaN; otherwise it bounds every year and is one of them |
| WaterQuality.Years | src/pages/WaterQuality.tsx:20 | one year (or NaN) per report, in order |
| WaterQuality.LatestYear | src/pages/WaterQuality.tsx:17-23 | `undefined` iff there are no reports; NaN iff some report date gives no year; otherwise the largest report year, attained by a report |
| WaterQuality.Header | src/pages/WaterQuality.tsx:33-37 | `latestYear &&` shows the "Latest CCR" line iff the year is a non-zero number; nothing for `undefined`; the text "NaN" (or "0") otherwise |
| WaterQuality.ByYearDesc | src/pages/WaterQuality.tsx:76-81 | `yearB - yearA`, latest first; a NaN year on either side gives a NaN difference, which `sort` takes as a tie (0); NaNYearBreaksConsistency and DatedSortIsKnownSort state what follows |
| WaterQuality.ByKnownYearDescConsistent | src/pages/WaterQuality.tsx:76-80 | with every year known, the year comparator is a valid sort order |
| WaterQuality.NaNYearBreaksConsistency | src/pages/WaterQuality.tsx:76-80 | an undated report ties with every report, so with dated reports of two different years the comparator is not consistent |
| WaterQuality.DatedSortIsKnownSort | src/pages/WaterQuality.tsx:75-81 | with every report dated, the page's comparator sorts as the known-year comparator does |
| WaterQuality.KnownSortShape | src/pages/WaterQuality.tsx:75-81 | with every report dated, the sorted list holds the reports and is ordered latest year first |
| WaterQuality.TopCards | src/pages/WaterQuality.tsx:82 | at most three cards are shown |
| WaterQuality.TopCardsShape | src/pages/WaterQuality.tsx:73-82 | at most three cards, each a report; with every report dated, latest year first |
| WaterQuality.SortedHeadIsLatest | src/pages/WaterQuality.tsx:73-81 | the head of a list sorted by known years has the largest year |
| WaterQuality.LatestYearIsTheMaximum | src/pages/WaterQuality.tsx:17-23 | with every report dated, a report whose year bounds all others gives the latest year |
| WaterQuality.PermutedMembers | src/pages/WaterQuality.tsx:73-81 | a permutation has the same members |
| WaterQuality.FirstCardIsLatest | src/pages/WaterQuality.tsx:17-84 | with every report dated, the first card's year is the latest year; with an undated report the latest year is NaN and the header prints "NaN" |
| WaterQuality.ShownCards | src/pages/WaterQuality.tsx:71-82 | while loading or failed, no cards and the list is untouched; otherwise the list is sorted in place and the first three are shown |
| WaterQuality.StatusItems | src/pages/WaterQuality.tsx:71-72 | the loading and failure items are each shown iff their state holds |
| WaterQuality.CardHeading | src/pages/WaterQuality.tsx:84-92 | a card is headed by its year and "CCR", or "NaN CCR" for an undated report |
| RatesSectionCard.OrEmpty | src/components/rates/RatesSectionCard.tsx:18 | an absent list is empty |
| RatesSectionCard.Keep | src/components/rates/RatesSectionCard.tsx:18 | the fee test `filterFee ? filterFee(f) : true`; NoFilterKeepsEverything states that no filter keeps every fee |
| RatesSectionCard.FilteredFees | src/components/rates/RatesSectionCard.tsx:18 | the `fees` constant: the section's fees (none when absent) that pass the test; FilteredListsAreSubsequences states it keeps them in order |
| RatesSectionCard.FilteredSubsections | src/components/rates/RatesSectionCard.tsx:19-22 | every subsection is kept, with its fees filtered |
| RatesSectionCard.NoFilterKeepsEverything | src/components/rates/RatesSectionCard.tsx:18-22 | without a filter nothing is dropped |
| RatesSectionCard.FilteredListsAreSubsequences | src/components/rates/RatesSectionCard.tsx:18-22 | filtered fees are subsequences, and subsections keep their key, title and subtitle |
| RatesSectionCard.HasAnyIffSomeFeePasses | src/components/rates/RatesSectionCard.tsx:23-25 | the card is shown iff some fee of the section or of a subsection passes the filter |
| RatesSectionCard.HasAny | src/components/rates/RatesSectionCard.tsx:23 | `hasAny`; HasAnyIffSomeFeePasses states when it holds |
| RatesSectionCard.Shown | src/components/rates/RatesSectionCard.tsx:33-44 | a subtitle is shown iff present and non-empty |
| RatesSectionCard.OptionalLength | src/components/rates/RatesSectionCard.tsx:54 | `?.length` is undefined iff the list is absent, else its length |
| RatesSectionCard.JsOr | src/components/rates/RatesSectionCard.tsx:54 | `\|\|` is truthy iff either operand is |
| RatesSectionCard.FooterAsWritten | src/components/rates/RatesSectionCard.tsx:54-77 | the footer as the code renders it; StrayZeroFooter and FooterAgreesElsewhere state what it does |
| RatesSectionCard.StrayZeroFooter | src/components/rates/RatesSectionCard.tsx:54 | as written, an empty links list with no policies renders a stray "0" |
| RatesSectionCard.FooterBlock | src/components/rates/RatesSectionCard.tsx:54-77 | the footer never renders a number; the block appears iff there are policies or links, with both lists |
| RatesSectionCard.FooterAgreesElsewhere | src/components/rates/RatesSectionCard.tsx:54 | the written and corrected footers differ exactly when an empty links list meets no policies |
| RatesSectionCard.RenderSubsection | src/components/rates/RatesSectionCard.tsx:40-51 | a subsection block: its key, title, subtitle as shown and fees; SectionCard states every shown block this way |
| RatesSectionCard.SectionCard | src/components/rates/RatesSectionCard.tsx:23-77 | a section with a fee shows its title, shown subtitle and fees; every shown subsection keeps its key, title, shown subtitle and fees; the footer is the corrected one |
| RatesSectionCard.FilterOnlyDecidesVisibility | src/components/rates/RatesSectionCard.tsx:36-49 | the filter decides only whether the card shows, never its contents |
| RatesSectionCard.UnfilteredCardShown | src/components/rates/RatesSectionCard.tsx:23-25 | without a filter the card is shown iff the section has some fee |
| RatesFilterBar.Get | src/components/rates/RatesFilterBar.tsx:4-10 | each field reads a value of its own type |
| RatesFilterBar.FieldsDetermineFilter | src/components/rates/RatesFilterBar.tsx:4-10 | two filters with equal fields are equal |
| RatesFilterBar.Set | src/components/rates/RatesFilterBar.tsx:26-27 | setting a field changes that field only |
| RatesFilterBar.SetLaws | src/components/rates/RatesFilterBar.tsx:26-27 | setting a field to its value is a no-op; the second of two sets wins |
| RatesFilterBar.OnSearchInput | src/components/rates/RatesFilterBar.tsx:50 | typing sets the query to the text and nothing else |
| RatesFilterBar.AmountEntry | src/components/rates/RatesFilterBar.tsx:63-64 | an empty entry clears the bound; other text sets it to its number |
| RatesFilterBar.OnMinInput | src/components/rates/RatesFilterBar.tsx:63-64 | the minimum field takes the entry and nothing else changes |
| RatesFilterBar.OnMaxInput | src/components/rates/RatesFilterBar.tsx:74-75 | the maximum field takes the entry and nothing else changes |
| RatesFilterBar.AmountShown | src/components/rates/RatesFilterBar.tsx:63-74 | the input shows nothing iff the bound is unset or cleared |
| RatesFilterBar.AmountEntryShown | src/components/rates/RatesFilterBar.tsx:63-64 | the input shows nothing after an entry iff the entry was empty |
| RatesFilterBar.OnSectionSelect | src/components/rates/RatesFilterBar.tsx:87-89 | selecting sets the section key, with the empty option as "all"; nothing else changes |
| RatesFilterBar.SectionShown | src/components/rates/RatesFilterBar.tsx:87 | the select shows "all" when no key is set |
| RatesFilterBar.SelectionShowsNonEmpty | src/components/rates/RatesFilterBar.tsx:87-89 | after a choice the select never shows an empty value, and shows a non-empty choice as chosen |
| RatesFilterBar.Toggle | src/components/rates/RatesFilterBar.tsx:105 | the has-note flag becomes the negation of whether it was on; nothing else changes |
| RatesFilterBar.ToggleCases | src/components/rates/RatesFilterBar.tsx:105 | off or unset becomes on and on becomes off; two toggles restore the state |
| RatesFilterBar.Pressed | src/components/rates/RatesFilterBar.tsx:121 | `aria-pressed` is "true" iff the flag is on, otherwise "false" |
| RatesFilterBar.Reset | src/components/rates/RatesFilterBar.tsx:129-131 | reset gives an empty query, cleared bounds, section "all" and the flag off |
| RatesFilterBar.ResetShape | src/components/rates/RatesFilterBar.tsx:129-131 | reset ignores the old value, is idempotent, and leaves the controls showing their empty state |
| NotFound.Normalized | src/pages/NotFound.tsx:31 | the normalised query is empty iff the query is blank |
| NotFound.Narrow | src/pages/NotFound.tsx:30-34 | narrowing never adds links |
| NotFound.Filtered | src/pages/NotFound.tsx:30-34 | at most the twelve popular links are listed |
| NotFound.BlankQueryShowsAll | src/pages/NotFound.tsx:32 | a blank query lists all twelve links |
| NotFound.NarrowIsSubsequence | src/pages/NotFound.tsx:33 | the listed links keep their order |
| NotFound.NarrowContents | src/pages/NotFound.tsx:30-34 | a link is listed iff the query is blank or its lower-cased title contains the normalised query |
| NotFound.QueryInsensitive | src/pages/NotFound.tsx:31 | surrounding white space and letter case of the query do not change the list |
| NotFound.NoMatchesMessage | src/pages/NotFound.tsx:133-136 | the no-matches message is shown iff nothing is listed |
| NotFound.BlankQueryHasMatches | src/pages/NotFound.tsx:32-136 | a blank query never shows the no-matches message |
| ErrorPage.StatusOf | src/pages/ErrorPage.tsx:21-29 | a route response keeps its status line; anything else is 500 "Internal Error" |
| ErrorPage.MessageOf | src/pages/ErrorPage.tsx:31-34 | the message is never empty |
| ErrorPage.MessageChoice | src/pages/ErrorPage.tsx:31-34 | the response's data message wins, then the error's message, then the default; empty strings are skipped |
| ErrorPage.PhoneOf | src/pages/ErrorPage.tsx:38 | the configured phone, or the placeholder only when there is no configuration |
| ErrorPage.EmailOf | src/pages/ErrorPage.tsx:39 | the configured e-mail, or the placeholder when it is absent |
| ErrorPage.EmptyContactKept | src/pages/ErrorPage.tsx:38-39 | `??` keeps an empty phone or e-mail instead of falling back |
| ErrorPage.ReportLines | src/pages/ErrorPage.tsx:44-52 | the report has five lines: the heading, a 32-dash rule, the URL, the status and the message |
| ErrorPage.ReportBody | src/pages/ErrorPage.tsx:44-52 | the report lines joined with line breaks, before encoding; ReportBodySplits states it splits back into the five lines |
| ErrorPage.NoNewline | src/pages/ErrorPage.tsx:44-52 | joining two texts without a newline adds none |
| ErrorPage.ReportBodySplits | src/pages/ErrorPage.tsx:44-52 | the report body splits back into its five lines when no field holds a newline |
| ErrorPage.Page | src/pages/ErrorPage.tsx:36-154 | status 404 shows the not-found page; otherwise the error view carries the status, the message, the phone and its tel link, and a mailto with the encoded report |
| ErrorPage.NonResponseIsServerError | src/pages/ErrorPage.tsx:21-36 | a thrown value that is not a route response is shown as a 500 error, never the not-found page |
| Phone.Sanitize | src/components/alert/ContactBox.tsx:7 | only digits and `+` remain, and the text never grows |
| Phone.SanitizeKeeps | src/components/alert/ContactBox.tsx:7 | each digit and `+` is kept as often as it occurs, in order, and nothing else is |
| Phone.SanitizeIdempotent | src/components/alert/ContactBox.tsx:7 | sanitising twice is sanitising once; a dialable number is unchanged |
| Phone.TelHref | src/components/alert/ContactBox.tsx:7 | the link is `tel:` followed by the sanitised number |
| Phone.PunctuationIgnored | src/pages/ErrorPage.tsx:40 | punctuation in the number does not change the link |
| ContactBox.PhoneShown | src/components/alert/ContactBox.tsx:5 | the phone is never empty: the configured one if non-empty, else the office number |
| ContactBox.Box | src/components/alert/ContactBox.tsx:5-14 | the link shows the phone, is labelled "Call " and the phone, and dials the sanitised phone |
| ContactMap.Compact | src/components/contact/ContactMap.tsx:12-17 | `filter(Boolean)` keeps no empty parts |
| ContactMap.CompactContents | src/components/contact/ContactMap.tsx:12-17 | the kept parts are exactly the present non-empty ones; none are kept iff no part is present |
| ContactMap.Line1 | src/components/contact/ContactMap.tsx:12 | line 1 is the street, or empty |
| ContactMap.Line2 | src/components/contact/ContactMap.tsx:13-14 | city, state and zip, else the PO box, else empty; stated by Line2Fallback |
| ContactMap.Query | src/components/contact/ContactMap.tsx:16-18 | the present parts of building, street, city, state and zip joined by spaces; stated by QueryEmpty |
| ContactMap.SearchText | src/components/contact/ContactMap.tsx:19 | the query, else line 1, else line 2; stated by SearchTextCases |
| ContactMap.Caption | src/components/contact/ContactMap.tsx:83 | line 1 or "Address", then "— " and line 2 when present; stated by CaptionCases |
| ContactMap.Line2Fallback | src/components/contact/ContactMap.tsx:13-14 | line 2 is city, state and zip if any is present, else the PO box, else empty |
| ContactMap.QueryEmpty | src/components/contact/ContactMap.tsx:16-18 | the query is empty iff building, street, city, state and zip are all missing |
| ContactMap.SearchTextCases | src/components/contact/ContactMap.tsx:19 | the search text is the query, else line 2; the line-1 fallback never decides; it is empty iff every address part is missing |
| ContactMap.Links | src/components/contact/ContactMap.tsx:19-22 | the Google embed, Google search and Apple links all carry the encoded search text |
| ContactMap.CaptionCases | src/components/contact/ContactMap.tsx:83 | the caption starts with the street or "Address", and adds an em-dash and line 2 only when line 2 is non-empty |
| ValidateConfigs.OutcomeOf | scripts/validate-configs.ts:33-59 | files are checked in order: missing, then invalid JSON, then schema issues, else valid |
| ValidateConfigs.Texts | scripts/validate-configs.ts:54 | one text per path segment |
| ValidateConfigs.PathText | scripts/validate-configs.ts:54 | an empty issue path prints as "(root)" |
| ValidateConfigs.PathTextSplits | scripts/validate-configs.ts:54 | a dotted path splits back into its segments |
| ValidateConfigs.IssueLine | scripts/validate-configs.ts:54-55 | one issue as `→ path: message` on stderr, the path "(root)" when empty; IssueLineIsNoHeader and PathTextSplits state its parts |
| ValidateConfigs.IssueLines | scripts/validate-configs.ts:53-56 | one detail line per issue, in order |
| ValidateConfigs.HeaderLine | scripts/validate-configs.ts:34-61 | a file's header goes to standard output iff the file is valid |
| ValidateConfigs.FileLines | scripts/validate-configs.ts:33-61 | each file's output starts with its header |
| ValidateConfigs.AnyFailedIff | scripts/validate-configs.ts:28-62 | the failure flag is set iff some file is not valid |
| ValidateConfigs.Report | scripts/validate-configs.ts:30-62 | the lines printed for a list of file results, file by file; Validate produces them |
| ValidateConfigs.AnyFailed | scripts/validate-configs.ts:28-62 | whether some file failed; AnyFailedIff states it |
| ValidateConfigs.Summary | scripts/validate-configs.ts:64-69 | the summary goes to standard error iff validation failed |
| ValidateConfigs.ExitCode | scripts/validate-configs.ts:64-69 | the exit code is 1 iff validation failed, else 0 |
| ValidateConfigs.ReportStep | scripts/validate-configs.ts:30-62 | one more file appends its lines and may set the failure flag |
| ValidateConfigs.WriteIssues | scripts/validate-configs.ts:53-56 | the issue loop writes one detail line per issue |
| ValidateConfigs.CheckFile | scripts/validate-configs.ts:31-61 | one file writes its header and issue lines, and fails iff it is missing, not JSON, or breaks its schema |
| ValidateConfigs.Validate | scripts/validate-configs.ts:28-69 | the output is each file's lines in order then the summary, and the exit code reports failure |
| ValidateConfigs.ValidateConfigs | scripts/validate-configs.ts:17-69 | over the eight configuration files, the exit code is 1 iff some file is not valid |
| ValidateConfigs.IssueLineIsNoHeader | scripts/validate-configs.ts:55 | an issue line is never taken for a header |
| ValidateConfigs.FileLinesHeaders | scripts/validate-configs.ts:33-61 | each file prints exactly one header |
| ValidateConfigs.Headers | scripts/validate-configs.ts:30-62 | one header per file |
| ValidateConfigs.HeadersSnoc | scripts/validate-configs.ts:30-62 | one more file adds its own header at the end |
| ValidateConfigs.OneHeaderPerFile | scripts/validate-configs.ts:30-62 | the headers in the output are exactly one per file, in file order |
| ValidateConfigs.EightHeaders | scripts/validate-configs.ts:17-62 | the script prints eight header lines, one per configuration file |

## Left out

- Data loading: fetching, hook loading states and request errors are inputs, not modelled behaviour (`useJsonConfig` and the `use…` hooks are not part of this model).
- DOM and browser effects: the `document.head` tag upserts, the canonical URL built with `new URL`, live-region writes, focus management, the IntersectionObserver that delays the map iframe, and the reduced-motion media query. Only the values they are given are modelled; `prefersReduced` is a parameter.
- Slideshow region id: React's `useId` randomness is replaced by a `targetIsRegion` flag for the key event's target.
- Slideshow: the timeout's delay (`interval`) and the clock are not modelled. A pending timeout fires when `Tick` is called, and `prefersReduced` is what the media query answers at each `Commit` (one commit per render).
- WaterQuality.TopCards: with an undated report the year comparator is inconsistent and ECMAScript leaves the sort order implementation-defined. The model keeps the stable insertion order, and only membership and the count of cards are promised then.
- Strings.Compare: `localeCompare` is modelled as code-unit order, which agrees for the ISO dates the documents carry; locale collation is left out.
- Strings.Lower: only ASCII letters are lower-cased; full Unicode case mapping is left out.
- Number parsing (`Number(e.target.value)` and NaN), currency formatting (`toLocaleString`), `encodeURIComponent` and date-to-year extraction are function parameters, not models.
- Seo.ReplaceFirst: the `$` replacement patterns of `String.prototype.replace` are left out; page titles are taken literally.
- Seo.RouteKeys: `Object.keys` order is not modelled; `Seo.ResolutionIsDeterministic` shows the order cannot change the result.
- Alerts.IsRecentlyResolved: the source's division into days is taken as exact arithmetic on integer milliseconds.
- AlertBanner.Banner: session-storage failures are one flag fixed at construction. A storage that fails on some calls and not others is left out.
- ErrorPage.Page: the stack trace shown in development builds, and the retry and back navigation, are left out. A value that is both an `Error` and a route response is covered by the `Thrown` record carrying both messages.
- ContactMap: the `showLinks`, `showAddressCaption` and `height` properties only switch rendering on or off; the values behind them are modelled.
- ValidateConfigs: zod schemas are reduced to the issues they report (`Probes.issues`). The real file system, JSON parser and console streams are abstracted the same way.
- Presentational components (`FeesList`, `SectionBlock`, `NoticeCard`, the slideshow controls) are not part of this model.

## Findings

| source | as written | input that shows it | evidently intended | confidence | as-written member | corrected member |
|---|---|---|---|---|---|---|
| src/components/rates/RatesSectionCard.tsx:54 | `(policies?.length \|\| links?.length) && (…)` renders the number `0` when both lengths are falsy and `links` is an empty array | a section with `links: []` and no `policies` (or `policies: []`) | render no footer at all | medium, not executed | RatesSectionCard.FooterAsWritten, RatesSectionCard.StrayZeroFooter | RatesSectionCard.FooterBlock |
| src/components/gallery/Slideshow.tsx:122 | `onMouseLeave` only resets `hoverRef`; a ref is not among the autoplay effect's dependencies (line 70), so nothing schedules a new timeout and the slideshow stays still while it shows as playing | a playing slideshow of two or more pictures, no reduced motion; the pointer enters and leaves and nothing else changes | autoplay resumes when the pointer leaves | medium, not executed | Slideshow.HoverStalls | Slideshow.Slideshow.MouseLeaveResuming, Slideshow.HoverResumes |
