# SafeLinks core, modelled in Dafny

SafeLinks is a personal bookmark vault. A signed-in user captures a link
in a two-step form: they paste a URL, a title preview is fetched, and they
fill in the details. The link is stored in a `links` table, listed newest
first, shown ten at a time grouped by category, searched from an overlay
opened with "/", and deleted. This project models that core and proves
what it promises:

- `wrappers.dfy`: `Option` and `Result`.
- `text.dfy`: the JavaScript string operations the code relies on:
  - ASCII `toLowerCase`;
  - `startsWith` and `includes`;
  - `trim`, with the ECMAScript whitespace set;
  - `split('/')[0]`;
  - code-point comparison.
- `seqs.dfy`: order-preserving subsequences and a generic insertion sort.
- `schema.dfy`: the `links` record, its NULLs and its insert defaults.
- `url.dfy`: `getSafeHostname`, over an abstract URL parser.
- `actions.dfy`: the server actions, as follows.
  - `addLink` and `deleteLink` are methods of a `LinkStore` class holding
    the table as a `seq<Link>`.
  - `searchLinks` is a pure function.
  - `fetchMetadata` is a function whose title choice models the regular
    expression `/<title>(.*?)<\/title>/` exactly: leftmost start, shortest
    body, and `.` not matching line terminators.
- `page.tsx` → `page.dfy`: `getLinks` and the home page's count and form
  visibility.
- `LinkVault.tsx` → `vault.dfy`: three parts.
  - The pagination is a `Pager` class.
  - The `reduce` that groups by category appears twice. As written, on a
    plain `{}`, it throws for a category that names an `Object.prototype`
    member, and the rendered sections follow it. As intended, it is a
    method with a loop over a map accumulator.
  - The category comparator comes with a proof that sorting by it
    determines the display order.
- `UiProvider.tsx` → `ui_provider.dfy`: the `isSearchOpen` flag and the
  keyboard rule.
- `SearchOverlay.tsx` → `search_overlay.dfy`: the query reset, the
  debounced search and the result list.
- `AddLink.tsx` → `add_link.dfy`: the capture form's six state fields and
  their transitions.

External services become inputs:
- The signed-in user is an `Option<string>`.
- A failing database is a `storeFails` flag.
- The fetched page body is an `Option<string>`.
- The current time is a `Timestamp` argument.
- The WHATWG URL parser is a function `string -> Option<Url>`, where
  `None` means `new URL` throws.

Two behaviours worth noting:
- `getSafeHostname("not a url at all")` returns the text itself. There is
  no '/' to cut at, so `split('/')[0]` is the whole string
  (`SafeUrl.FreeTextKept`).
- Cancelling the capture form keeps the URL, the preview and the category
  until the next capture (`AddLinkForm.Capture.Cancel`,
  `AddLinkForm.Capture.Save`). The title, keyword and note inputs are
  uncontrolled and unmount with the form, so what was typed in them is
  lost.

## Model

| member | source | states |
|---|---|---|
| Schema.Materialise | db/schema.ts:5-13 | an inserted row takes the generated key and the current time; an omitted category becomes "General"; omitted description, keyword and note are NULL; every column that is given, including the nullable ones, is stored as given |
| Schema.DuplicatePairsAllowed | db/schema.ts:5-6 | the table itself accepts two rows with one `(userId, url)` pair as long as their ids differ: only `addLink` prevents duplicates |
| SafeUrl.GetSafeHostname | lib/url.ts:2-19 | total, with one result per branch: "unknown" for a missing or empty input; the parsed hostname; the raw input when it starts with "http"; the hostname of the "https://"-prefixed retry; else the text before the first '/', or "invalid url" when that is empty |
| SafeUrl.FallbackSegment | lib/url.ts:16 | in the last fallback, an input starting with '/' gives "invalid url"; any other input gives a non-empty prefix of itself that contains no '/' |
| SafeUrl.BareDomain | lib/url.ts:11-12 | "example.com", which parses only with a scheme, yields "example.com" |
| SafeUrl.FreeTextKept | lib/url.ts:16 | "not a url at all", which parses neither way, comes back unchanged |
| Text.StartsWith | app/actions.ts:29 | `startsWith` holds exactly when the prefix occurs at position 0 |
| Text.Lower | app/actions.ts:93 | lower-casing keeps the length and maps every character through the ASCII lower-case mapping |
| Text.LowerIdempotent | components/providers/UiProvider.tsx:27 | lower-casing twice is lower-casing once |
| Text.Contains | app/actions.ts:95-98 | `includes` holds exactly when the query occurs at some position |
| Text.Trim | app/actions.ts:121 | the result is a slice of the input; everything cut from either end is ECMAScript whitespace or a line terminator; the result neither starts nor ends with one |
| Text.BeforeFirst | lib/url.ts:16 | `split(c)[0]` is the longest prefix without `c`; when it is shorter than the input, `c` follows it |
| Text.Compare | components/features/LinkVault.tsx:77 | the three-way string comparison answers 0 exactly for equal strings |
| Text.CompareAntisymmetric | components/features/LinkVault.tsx:77 | swapping the arguments negates the comparison |
| Text.CompareTransitive | components/features/LinkVault.tsx:77 | the string order is transitive |
| Actions.NormaliseUrl | app/actions.ts:29-31 | a non-empty URL with no "http" prefix that contains '.' gets "https://" in front; every other value is left alone; emptiness is preserved |
| Actions.NormaliseIdempotent | app/actions.ts:29-31 | sanitising an already sanitised URL changes nothing |
| Actions.OrNull | app/actions.ts:55-56 | `v || null`: the value when it is non-empty, NULL otherwise |
| Actions.OrElse | app/actions.ts:54 | `v || fallback`: the value when it is non-empty, the fallback otherwise |
| Actions.Collected | app/actions.ts:39-45 | the duplicate query finds a row exactly when some row has the caller and the sanitised URL |
| Actions.AddDecision | app/actions.ts:18-57 | each outcome under its exact condition, in the source's order: no user; missing URL or title after sanitising; database failure; duplicate pair; otherwise the insert of owner, sanitised URL, title, `category \|\| "General"` and NULL for an empty keyword or note |
| Actions.AddAnswer | app/actions.ts:18-64 | the answer reports success exactly for the insert, with the source's five messages |
| Actions.AfterAdd | app/actions.ts:50-57 | the table grows by exactly the new row on insert and is unchanged on every rejection |
| Actions.AddedRow | app/actions.ts:50-57 | the row added last carries the key, the time, the caller, the sanitised URL, the title, `category \|\| "General"`, no description, and NULL for an empty keyword or note; the earlier rows are untouched |
| Actions.AddKeepsPairsDistinct | app/actions.ts:39-57 | if no two rows share a `(userId, url)` pair before `addLink`, none do after it |
| Actions.LinkStore.constructor | db/schema.ts:4-14 | the store starts as an empty table that satisfies the primary key |
| Actions.LinkStore.AddLink | app/actions.ts:15-65 | the answer and the new table are those of the decision, the key counter advances only on insert, and the primary key stays unique |
| Actions.Without | app/actions.ts:74-75 | the delete keeps exactly the rows whose id or owner differs, in table order |
| Actions.WithoutCounts | app/actions.ts:74-75 | every row that is kept appears as often as in the table, and the deleted ones not at all |
| Actions.WithoutNoMatch | app/actions.ts:74-75 | with no matching row the table is unchanged |
| Actions.DeleteIdempotent | app/actions.ts:73-78 | deleting twice leaves the table that deleting once does |
| Actions.WithoutDistinctIds | app/actions.ts:74-75 | deleting keeps the primary key unique |
| Actions.LinkStore.DeleteLink | app/actions.ts:67-83 | no user gives "Unauthorized" and no change; a database failure gives "Failed to delete link" and no change; otherwise "Link deleted" with the matching rows removed, whether or not any matched |
| Actions.OwnedBy | app/actions.ts:90 | the owner query returns exactly the caller's rows, in table order |
| Actions.OwnedByCounts | app/actions.ts:90 | each of the caller's rows appears as often as in the table, and no other row appears |
| Actions.FieldHitMeaning | app/actions.ts:95-97 | the field part of the filter (`FieldHit`) holds exactly when the query occurs in the lower-cased title, or in a non-empty lower-cased keyword or category |
| Actions.HitMeaning | app/actions.ts:95-98 | the whole criterion (`Hit`) is a field hit or an occurrence of the query in the hostname of a URL that parses |
| Actions.RowTest | app/actions.ts:94-98 | the filter test is true exactly for a hit in the title, keyword, category or hostname; it throws (`None`) exactly when no field hits and the URL does not parse |
| Actions.FilterHits | app/actions.ts:94-98 | the filter keeps exactly the hits, in order, and throws exactly when some row's test throws |
| Actions.FilterHitsCounts | app/actions.ts:94-98 | when the filter does not throw, each hit appears as often as in its input, and no other row appears |
| Actions.SearchLinks | app/actions.ts:85-100 | `[]` without a user or with an empty query; otherwise at most five of the caller's rows, in table order, each a hit for the lower-cased query; the result is exactly the first five of the filtered owned rows (all of them when fewer); a failing owner query always throws; with a working database, it throws only when some row the test reaches has an unparsable URL |
| Actions.CloseFrom | app/actions.ts:117 | the lazy body ends at the first `</title>` after the opening tag, and only if no line terminator comes first |
| Actions.TitleFrom | app/actions.ts:117 | from a start position, the first match the regular expression reports (leftmost start, then shortest body), or none at all |
| Actions.FindTitle | app/actions.ts:117 | `html.match(...)?.[1]` is the body of the first match; `None` exactly when the page has no match |
| Actions.FetchMetadata | app/actions.ts:103-130 | null for an empty URL; empty title and domain when the fetch or the parse fails; otherwise the parsed hostname as domain and the trimmed first title, or the trimmed hostname when there is no title |
| Page.SortedNewestFirst | app/page.tsx:17 | a list whose neighbours are in `createdAt`-descending order is newest first throughout |
| Page.SortNewestFirst | app/page.tsx:17 | the ordered rows are a permutation of the input and newest first |
| Page.GetLinks | app/page.tsx:10-18 | `[]` without a user; otherwise exactly the caller's rows (as a multiset), newest first |
| Page.Home | app/page.tsx:22-43 | the count shown is the number of links listed, which is the caller's row count; the capture form shows exactly for a signed-in user |
| Page.Copies | app/actions.ts:39-45 | the number of rows with a pair is zero exactly when the duplicate check finds none |
| Page.AddThenList | app/actions.ts:50-60 | after a successful `addLink`, `getLinks` lists the new row, the count grows by one, and the pair is stored exactly once |
| Page.RejectedAddKeepsList | app/actions.ts:18-48 | a rejected `addLink` leaves the listing as it was |
| Vault.VisibleLinks | components/features/LinkVault.tsx:44 | the visible links are the first `min(visibleCount, \|links\|)` links |
| Vault.HasMore | components/features/LinkVault.tsx:45 | "Show More" shows exactly when fewer links are visible than exist |
| Vault.AllVisibleIffNoMore | components/features/LinkVault.tsx:44-45 | every link is visible exactly when "Show More" is hidden |
| Vault.ClicksToShowAll | components/features/LinkVault.tsx:157 | the fewest clicks after which `10 + 10k` covers all links |
| Vault.NoMoreAfterClicks | components/features/LinkVault.tsx:40-45 | after `k` clicks the button is gone exactly when `k` is at least `ClicksToShowAll` of the link count |
| Vault.Pager.constructor | components/features/LinkVault.tsx:40 | `visibleCount` starts at 10, with no clicks yet |
| Vault.Pager.ShowMore | components/features/LinkVault.tsx:157 | each click adds exactly 10, keeping `visibleCount == 10 + 10 * clicks` |
| Vault.Pager.ShowsAll | components/features/LinkVault.tsx:44-45 | every link is on screen exactly when the button is gone, exactly when the clicks so far reach `ClicksToShowAll` |
| Vault.Pager.Sections | components/features/LinkVault.tsx:44-78 | the render throws exactly when a visible link's category names an `Object.prototype` member; otherwise the sections are the visible links grouped by category and sorted by the comparator |
| Vault.CategoryKey | components/features/LinkVault.tsx:58 | the group key is the category when it is non-empty, "General" otherwise, and never empty |
| Vault.InCategoryMembers | components/features/LinkVault.tsx:57-62 | a category's group holds exactly the links whose key (`category \|\| "General"`) is that category |
| Vault.InCategoryInOrder | components/features/LinkVault.tsx:62 | within a group the links keep their input order |
| Vault.Categories | components/features/LinkVault.tsx:59-61 | the keys are created without repetition |
| Vault.CategoriesMembers | components/features/LinkVault.tsx:59-61 | a key exists exactly when some link has that category |
| Vault.GroupedPartition | components/features/LinkVault.tsx:57-64 | the groups partition the links: every link is in the group of its category; every group is non-empty, holds only its category's links in input order, and no key repeats |
| Vault.GroupByCategory | components/features/LinkVault.tsx:57-64 | the `reduce` loop, with a map accumulator and the key-creation order, computes exactly the grouping |
| Vault.FindSlot | components/features/LinkVault.tsx:59 | `acc[category]` on the plain-object accumulator: an inherited value exactly for an `Object.prototype` name, an own array at a group of that category, or nothing when no group has it |
| Vault.PushAsWritten | components/features/LinkVault.tsx:59-62 | one step of the reduce as written throws exactly for a category that names an inherited property, and otherwise adds at most one group |
| Vault.ReduceAsWritten | components/features/LinkVault.tsx:57-64 | the reduce as written throws exactly when some link's category names an inherited property |
| Vault.Entries | components/features/LinkVault.tsx:70 | `Object.entries` lists one pair per key, with that key's links, taken in key-creation order. JavaScript puts integer-like keys first, in ascending numeric order; `Vault.EntryOrderIrrelevant` shows that the order does not change the sections |
| Vault.ReduceAsWrittenAgrees | components/features/LinkVault.tsx:57-64 | on links none of whose categories names an `Object.prototype` member, the reduce as written computes the grouping |
| Vault.ReduceAsWrittenThrows | components/features/LinkVault.tsx:59-62 | the reduce as written throws on a single link of category "constructor" |
| Vault.IndexOf | components/features/LinkVault.tsx:71-72 | `indexOf` is the first position of the value, or -1 exactly when it is absent |
| Vault.RankIsIndexOf | components/features/LinkVault.tsx:67-72 | the position in the fixed list, spelled out, equals `categoryOrder.indexOf` |
| Vault.CompareCategories | components/features/LinkVault.tsx:70-78 | the sort callback answers 0 only for equal categories, and puts a listed category before an unlisted one |
| Vault.CompareCategoriesMeaning | components/features/LinkVault.tsx:70-78 | listed categories compare by list position; a listed one comes before any unlisted one; unlisted ones compare as strings; 0 exactly for equal categories |
| Vault.CompareCategoriesReflexive | components/features/LinkVault.tsx:70-78 | a category compares equal to itself |
| Vault.CompareCategoriesAntisymmetric | components/features/LinkVault.tsx:70-78 | swapping the arguments swaps "before" and "after" |
| Vault.CompareCategoriesTransitive | components/features/LinkVault.tsx:70-78 | "no later than" is transitive, so the comparator is a consistent order |
| Vault.FixedOrder | components/features/LinkVault.tsx:67-76 | "UI Library", "Inspiration", "General", "Article" come in that order, and all of them come before "Tool" |
| Vault.GroupBeforeTotal | components/features/LinkVault.tsx:70-78 | any two groups are ordered one way or the other |
| Vault.SortedAllPairs | components/features/LinkVault.tsx:70-78 | in the sorted sections, every earlier category compares no later than every later one |
| Vault.SortCategories | components/features/LinkVault.tsx:70-78 | the sorted sections are a permutation of the groups, each no later than the next |
| Vault.SortedUnique | components/features/LinkVault.tsx:70-78 | two sorted orderings of the same groups, with no category twice, are equal |
| Vault.EntryOrderIrrelevant | components/features/LinkVault.tsx:70 | the sections do not depend on the order in which `Object.entries` lists the groups |
| Seqs.SortBy | components/features/LinkVault.tsx:70 | the sort returns a permutation of its input in which every element is in order with the next |
| SearchOverlay.LinkEntry | components/features/SearchOverlay.tsx:38-43 | a found link becomes an entry of type "link" with its title, its url as `href` and its category as `meta` |
| SearchOverlay.ResultsFor | components/features/SearchOverlay.tsx:38-48 | the list is the "My Vault" page at "/" first, then one entry per found link in order; the page entry is the only one of type "page" |
| SearchOverlay.ResultsAreOwnLinks | components/features/SearchOverlay.tsx:36-48 | a search shows at most six entries; the first leads to "/", and every other leads to the stored url of one of the caller's own links |
| SearchOverlay.Overlay.constructor | components/features/SearchOverlay.tsx:14-24 | starts with an empty query, an empty list, and not searching |
| SearchOverlay.Overlay.SetQuery | components/features/SearchOverlay.tsx:85 | typing sets the query and nothing else |
| SearchOverlay.Overlay.OpenChanged | components/features/SearchOverlay.tsx:18-20 | closing the overlay clears the query; opening leaves it |
| SearchOverlay.Overlay.Fire | components/features/SearchOverlay.tsx:26-57 | for a query longer than one character: a successful search gives the home entry plus the found links; a thrown search (a failing database or an unparsable URL) keeps the old list; the busy flag ends cleared. A shorter query gives exactly the home entry. Once a list is set, it starts with the home entry and never exceeds six entries |
| UiProvider.IsFormField | components/providers/UiProvider.tsx:28 | the focus is in a form field exactly when the lower-cased tag is "input", "textarea" or "select" |
| UiProvider.ActiveTag | components/providers/UiProvider.tsx:27 | the focused element's tag name, lower-cased; none without a focused element |
| UiProvider.KeyDown | components/providers/UiProvider.tsx:23-37 | the default is suppressed exactly for "/" while closed outside an input, textarea or select; the overlay is then open exactly if it opened or was open and the key was not Escape; Escape always closes |
| UiProvider.OtherKeysInert | components/providers/UiProvider.tsx:23-37 | any key other than "/" and Escape changes nothing |
| UiProvider.SlashIgnoresCase | components/providers/UiProvider.tsx:27-28 | the form-field test treats a tag name and its lower-cased spelling alike |
| UiProvider.SlashInFieldIgnored | components/providers/UiProvider.tsx:28-30 | "/" in an input, textarea or select neither opens the overlay nor is suppressed |
| UiProvider.KeyDownIdempotent | components/providers/UiProvider.tsx:23-37 | pressing a key twice leaves the flag where pressing it once does |
| UiProvider.Ui.constructor | components/providers/UiProvider.tsx:15 | the overlay starts closed |
| UiProvider.Ui.ToggleSearch | components/providers/UiProvider.tsx:17 | toggling negates the flag |
| UiProvider.Ui.OpenSearch | components/providers/UiProvider.tsx:18 | opening sets the flag |
| UiProvider.Ui.CloseSearch | components/providers/UiProvider.tsx:19 | closing clears the flag |
| UiProvider.Ui.HandleKeyDown | components/providers/UiProvider.tsx:23-37 | the listener's new flag and its suppression decision are the ones the key rule gives |
| UiProvider.UseUi | components/providers/UiProvider.tsx:49-54 | the context inside a provider; outside one, the error "useUi must be used within a UiProvider" |
| AddLinkForm.DefaultCategoryOffered | components/features/AddLink.tsx:21-30 | the initial category "General" is the picker's first option and the stored default |
| AddLinkForm.TitleDefault | components/features/AddLink.tsx:144 | the Title field starts from the preview's title, or "" when there is no preview |
| AddLinkForm.NextEnabled | components/features/AddLink.tsx:124 | the arrow button is enabled exactly when the URL is non-empty and no fetch is running; `Capture.BeginUrlSubmit` disables it while a fetch runs and `Capture.FinishUrlSubmit` re-enables it for a non-empty URL, so no second request starts during a fetch |
| AddLinkForm.DetailsForm | components/features/AddLink.tsx:138-176 | the details form carries the URL, the title, the keyword and the note exactly as typed, and the category picked; the URL and the title count as present exactly when non-empty |
| AddLinkForm.DetailsSubmission | components/features/AddLink.tsx:138-181 | saving with an empty title or URL is refused; with both, a signed-in user and a working database, the link is inserted or reported as already collected; an inserted row has the typed title and the picked category, and NULL for an empty keyword or note |
| AddLinkForm.AfterSave | components/features/AddLink.tsx:36-39 | corrected: every successful save closes the form at the URL step; a failed one leaves both as they were |
| AddLinkForm.AfterSaveAsWritten | components/features/AddLink.tsx:36-45 | as written, the effect closes the form at the URL step only when a save succeeds after one that did not; otherwise it leaves the form as it was |
| AddLinkForm.SecondSuccessStaysOpen | components/features/AddLink.tsx:36-45 | as written, a successful save right after another successful one leaves the form open on the details step, whereas the corrected effect closes it |
| AddLinkForm.AsWrittenAgreesAfterFailure | components/features/AddLink.tsx:36-45 | when the previous save failed, the effect as written and the corrected one agree |
| AddLinkForm.Capture.constructor | components/features/AddLink.tsx:15-33 | closed, empty URL, no preview, not fetching, URL step, category "General", no answer yet |
| AddLinkForm.Capture.Open | components/features/AddLink.tsx:88 | opening sets only `isOpen` |
| AddLinkForm.Capture.EditUrl | components/features/AddLink.tsx:116-117 | typing sets only the URL |
| AddLinkForm.Capture.ChooseCategory | components/features/AddLink.tsx:170-176 | picking sets only the category, which stays one of the options |
| AddLinkForm.Capture.BeginUrlSubmit | components/features/AddLink.tsx:47-51 | called only while no fetch runs, since the button is disabled then; an empty URL changes nothing; otherwise the busy flag is raised, which disables the button, and the URL is requested |
| AddLinkForm.Capture.FinishUrlSubmit | components/features/AddLink.tsx:53-58 | a preview with a non-empty title replaces the old one, and any other answer keeps the old one; the busy flag drops and the button is enabled again exactly for a non-empty URL; the details step shows |
| AddLinkForm.Capture.SubmitUrl | components/features/AddLink.tsx:47-59 | an empty URL changes nothing; either way no fetch is left running. Otherwise the details step shows, and its Title field starts from the fetched page's title when that is non-empty, or from the previous preview |
| AddLinkForm.Capture.Cancel | components/features/AddLink.tsx:180 | closes at the URL step and keeps the URL, the preview and the category |
| AddLinkForm.Capture.Save | components/features/AddLink.tsx:33-45 | runs `addLink` on the typed details with the form's URL and category; the table and the answer are those of the action; then the effect as written applies, which agrees with the corrected one whenever the previous answer was not a success; the URL, the preview and the category are kept |

## Left out

- Authentication is not modelled: the Clerk `auth()` call becomes an `Option<string>` owner id. `SignedIn`/`SignedOut` become the `showAddLink` flag of `Page.Home`.
- The database is an in-memory `seq<Link>`:
  - A thrown query or insert in `addLink`, `deleteLink` or `searchLinks` is the `storeFails` flag.
  - `revalidatePath` and `router.refresh` are framework side effects and are left out.
- `Schema.Materialise` and `Actions.LinkStore.AddLink` replace the random UUID key with a counter of fresh numbers. Only the key's uniqueness is used.
- The duplicate check and the insert are one step here. The race between two concurrent saves of the same URL is not modelled.
- `Page.GetLinks` does not model a failing `select`: on the page a thrown query is a render error, not a value the model returns.
- `Vault.Entries` and `Vault.Grouped` list the groups in key-creation order. JavaScript's `Object.entries` puts integer-like keys (a category "2024") first, in ascending numeric order. `Vault.EntryOrderIrrelevant` proves the sorted sections are the same for any order of the same groups.
- `Actions.OwnedBy` takes the unordered `select` to return rows in table order, because the database promises no order.
- `Page.SortNewestFirst` makes no claim about the order of rows with equal `createdAt`, because the database leaves it open.
- `Text.Lower`, `Actions.SearchLinks` and `UiProvider.ActiveTag` lower-case ASCII letters only. JavaScript `toLowerCase` also maps non-ASCII letters.
- `Text.Compare` and `Vault.CompareCategories` use code-point order for unlisted categories. `localeCompare` follows locale collation rules.
- `SearchOverlay.Overlay.Fire` counts characters, not UTF-16 code units, for `query.length > 1`.
- The WHATWG URL parser is an abstract function `Parser`. The network fetch in `fetchMetadata` is the page body given as an argument.
- Rendering, animation and routing are left out, except where they carry state. This includes:
  - `router.push` on a result click;
  - the "Nothing found." text;
  - the hostname rendered for each vault link at `components/features/LinkVault.tsx:116`. That rendering throws for a stored URL the parser rejects; the model does not capture this.
- Timers and async ordering are left out:
  - the 300 ms debounce and its cancellation;
  - the delayed refresh after a save;
  - `useTransition` around delete;
  - the order in which overlapping responses arrive.
- `SearchOverlay.Overlay.Fire` runs one search to completion, so the `isSearching` flag is never observed set.
- `AddLinkForm.Capture.BeginUrlSubmit` and `FinishUrlSubmit` model the `isFetching` window. Interleavings inside it, such as cancelling while a fetch runs, are allowed by the class but not studied.
- Pressing Enter in the URL field submits the form without a title. That path is covered by `Actions.AddDecision`'s "URL and Title are required" case, but no member of the form models it.
- `AddLinkForm.Capture.ChooseCategory` requires an option value. The picker in `components/ui/custom-select.tsx` only ever hands back one of its options; the picker itself is not part of this model.
- `useActionState`'s `isPending` is not modelled.
- `lib/source.ts` and the documentation pages are not part of this model.

## Findings

| source | as written | input that shows it | evidently intended | confidence | as-written member | corrected member |
|---|---|---|---|---|---|---|
| components/features/LinkVault.tsx:57-64 | the accumulator is a plain `{}`, so `acc[category]` finds members inherited from `Object.prototype`; they are truthy, so no array is created, and `push` on them throws | a stored link whose category is "constructor" (or "toString", "valueOf", "__proto__", …), which `addLink` accepts from any submitted form | every category gets its own group | not executed | Vault.ReduceAsWrittenThrows | Vault.GroupByCategory |
| components/features/AddLink.tsx:36-45 | the success effect depends on `state.success`, so it runs only when that value changes | two successful saves in a row in the same page session: reopen the form after a successful save and save another link | every successful save closes the form and returns to the URL step | not executed | AddLinkForm.SecondSuccessStaysOpen | AddLinkForm.AfterSave |
