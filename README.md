# FeedbackPulse core, modelled in Dafny

FeedbackPulse is a single-page application for collecting customer feedback
through rating buttons embedded in staff email signatures. This project
models the logic at the core of its client:

- **role-based access control** (`rbac.dfy`, module `Rbac`). A four-level
  role ranking, a constant grant table with `*` wildcards, and the `hasRole`
  and `hasPermission` checks.
- **Net Promoter Score** (`nps.dfy`, module `Nps`). Ratings are split into
  promoters (4 and above), passives (3) and detractors (2 and below). The
  score is rounded and then placed in one of four labelled bands.
- **list views** (`pagination.dfy`, `sort.dfy`, `search.dfy`). The state
  cells of the pagination, sort and search hooks, and what `paginate`,
  `sort`, `toggleSort` and `search` do to a list. Sorting copies the list
  into an array and sorts that array in place by insertion.
- **the survey recipient selector** (`selectors.dfy`, module
  `SurveySelectors`). Three option lists, three selections and a loading
  flag. The change handlers clear the selections below the one that
  changed. The effects reload option lists from the backend.
- **email signatures** (`surveys.dfy`, module `Surveys`). The rating buttons
  of a template's scale, and the base-64 tracking id that names the template
  and the user. The feedback page reads that id back with `atob` and
  `split(':')`. Base 64 follows section 4 of RFC 4648 (`base64.dfy`).
- **data export** (`export.dfy`, module `Export`). The export mutation's
  file naming and format dispatch, and the unquoted CSV writer.

`basics.dfy` holds the shared vocabulary: `Option`, `Result`, and the
JavaScript string operations the code relies on (`join`, `split` on one
character, ASCII `toLowerCase`, `includes`, decimal printing).

Browser and backend effects are parameters of the model:

- Supabase answers are `Result` values or functions passed in.
- `Date.now()` and today's date are passed in as well.
- A download is a value naming its content, file name and media type.

## Model

| member | source | states |
|---|---|---|
| Rbac.Rank | src/lib/utils/rbac.ts:10-15 | Ranks lie in 1..4; rank 4 is exactly `super_admin` and rank 1 exactly `user`. |
| Rbac.RankChain | src/lib/utils/rbac.ts:10-15 | The ranking is the strict chain user < manager < admin < super_admin. |
| Rbac.ParseRole | src/lib/utils/rbac.ts:10-38 | A role name is found in the tables exactly when it is one of the four keys, and it maps back to that key. |
| Rbac.GetUserRole | src/lib/utils/rbac.ts:62-64 | The role is `user` exactly when the metadata role is absent, empty or `user`. Any other string passes through unchecked. |
| Rbac.HasRole | src/lib/utils/rbac.ts:40-45 | True iff there is a user, the role name is a key of the table, and its rank is at least the required rank. |
| Rbac.HasRoleIsRank | src/lib/utils/rbac.ts:40-45 | For a role of the table, `hasRole` holds iff the held rank is at least the required rank. |
| Rbac.HasRoleNoPrincipal | src/lib/utils/rbac.ts:41 | No signed-in user means no role. |
| Rbac.MissingRoleIsUser | src/lib/utils/rbac.ts:40-45 | An absent or empty metadata role passes exactly the `user` check. |
| Rbac.UnknownRoleDenied | src/lib/utils/rbac.ts:40-45 | A non-empty role name outside the table fails every role check, the lowest included. |
| Rbac.HasRoleOrder | src/lib/utils/rbac.ts:40-45 | The role check is reflexive, transitive and total (of any two table roles one passes the other's check), and `super_admin` passes every check. |
| Rbac.HasPermission | src/lib/utils/rbac.ts:47-60 | No user gives `false`. The check throws exactly when the role name is not a key of the grant table. |
| Rbac.GrantMatchesIff | src/lib/utils/rbac.ts:53-59 | The four-way test equals "each half of the grant is `*` or equals the request". |
| Rbac.AnyGrantMatchesExists | src/lib/utils/rbac.ts:53-59 | `some` holds iff some grant of the list matches. |
| Rbac.GrantOrderIrrelevant | src/lib/utils/rbac.ts:53-59 | Any rearrangement of a grant list answers every request the same way. |
| Rbac.HasPermissionNoPrincipal | src/lib/utils/rbac.ts:48 | No user holds any permission. |
| Rbac.SuperAdminGrantedAll | src/lib/utils/rbac.ts:18 | `super_admin` is granted every (action, subject) pair. |
| Rbac.AdminGranted | src/lib/utils/rbac.ts:19-24 | `admin` is granted a pair iff its action is create, read, update or delete, whatever the subject. |
| Rbac.ManagerGranted | src/lib/utils/rbac.ts:25-32 | For every request, `manager` is granted exactly its six listed pairs. |
| Rbac.UserGranted | src/lib/utils/rbac.ts:33-37 | For every request, `user` is granted exactly its three listed pairs. |
| Rbac.PermissionsNotMonotone | src/lib/utils/rbac.ts:25-37 | `user` ranks below `manager` but may create a response, which `manager` may not. |
| Rbac.MissingRolePermissions | src/lib/utils/rbac.ts:47-64 | An absent or empty metadata role gets exactly the grants of `user`. |
| Rbac.UnknownRolePermissionThrows | src/lib/utils/rbac.ts:50-53 | A non-empty role name outside the table makes `hasPermission` throw instead of refusing. |
| Rbac.GuestPermissionThrows | src/lib/utils/rbac.ts:50-53 | Witness: metadata role `guest` makes `hasPermission` throw. |
| Rbac.HasPermissionFailClosed | src/lib/utils/rbac.ts:47-60 | Grants only to roles of the table, and agrees with `hasPermission` wherever that answers. |
| Rbac.FailClosedUnknownRole | src/lib/utils/rbac.ts:40-60 | An unknown role is refused both by the corrected permission check and by `hasRole`. |
| Nps.Classify | src/lib/utils/nps.ts:4-5 | A rating is a promoter iff it is at least 4, and a detractor iff it is at most 2. |
| Nps.Count | src/lib/utils/nps.ts:4-6 | A filter count never exceeds the number of ratings. |
| Nps.RoundHalfUp | src/lib/utils/nps.ts:8 | `Math.round` gives the nearest integer, rounding a half up: 2·den·r − den ≤ 2·num < 2·den·r + den. |
| Nps.CalculateNps | src/lib/utils/nps.ts:1-9 | No ratings score 0. Otherwise the score r is the nearest integer to 100·(P − D)/N with a half rounded up: 2·N·r − N ≤ 200·(P − D) < 2·N·r + N. |
| Nps.CountsPartition | src/lib/utils/nps.ts:4-6 | Promoters, passives and detractors together count every rating once. |
| Nps.CountAppend | src/lib/utils/nps.ts:4-5 | Counting distributes over concatenation. |
| Nps.CountPermutation | src/lib/utils/nps.ts:4-5 | Counts depend only on the multiset of ratings. |
| Nps.RemoveAt | src/lib/utils/nps.ts:4-5 | Removing one rating removes it from the multiset and from its band's count. |
| Nps.NoRatings | src/lib/utils/nps.ts:2 | No ratings score 0. |
| Nps.ScoreInRange | src/lib/utils/nps.ts:1-9 | The score always lies in [−100, 100]. |
| Nps.RoundWithinHundred | src/lib/utils/nps.ts:8 | Rounding a quotient in [−100, 100] stays in [−100, 100]. |
| Nps.UniformScores | src/lib/utils/nps.ts:1-9 | All promoters score 100, all detractors −100, all passives 0. |
| Nps.CountAll | src/lib/utils/nps.ts:4-5 | When every rating is in one band, that band counts them all. |
| Nps.DivExact | src/lib/utils/nps.ts:8 | Rounding an exact multiple gives the multiple back. |
| Nps.ScorePermutation | src/lib/utils/nps.ts:1-9 | The score does not depend on the order of the ratings. |
| Nps.HalvesRoundUp | src/lib/utils/nps.ts:8 | 12.5 rounds to 13 and −12.5 rounds to −12, as `Math.round` does. |
| Nps.OneAmongPassives | src/lib/utils/nps.ts:4-5 | One rating among seven passives is the only promoter or detractor. |
| Nps.PromoterCancelsDetractor | src/lib/utils/nps.ts:4-8 | One promoter and one detractor score 0. |
| Nps.GetNpsCategory | src/lib/utils/nps.ts:11-19 | Each band holds exactly its score range: ≥ 70, [30, 70), [0, 30), < 0. |
| Nps.CategoryMonotone | src/lib/utils/nps.ts:15-18 | A higher score never lands in a worse band. |
| Nps.CategoryTags | src/lib/utils/nps.ts:15-18 | The band edges are 70, 30 and 0, and no two bands share a label or a colour. |
| Pagination.SliceIndex | src/lib/hooks/use-pagination.ts:18 | `slice` counts a negative index from the end and clamps both ends to [0, n]. |
| Pagination.JsSlice | src/lib/hooks/use-pagination.ts:18 | A slice is never longer than the list. |
| Pagination.PageOf | src/lib/hooks/use-pagination.ts:15-19 | A page is never longer than the list, and a page size of 0 gives an empty page. |
| Pagination.Paginator.constructor | src/lib/hooks/use-pagination.ts:8-13 | Options left out fall back to page 1 and 10 items per page. |
| Pagination.Paginator.SetPage | src/lib/hooks/use-pagination.ts:12 | Stores the page as given and keeps the page size. |
| Pagination.Paginator.SetPageSize | src/lib/hooks/use-pagination.ts:13 | Stores the size as given and keeps the page. |
| Pagination.Paginator.Paginate | src/lib/hooks/use-pagination.ts:15-19 | The result is the page of the list at the current cells, so the window and tiling lemmas apply to it. For page ≥ 1 and size ≥ 0 it holds at most `pageSize` items. |
| Pagination.Window | src/lib/hooks/use-pagination.ts:16-18 | From a non-negative start, the slice is the window [start, start+size) cut off at the end of the list. |
| Pagination.PageWindow | src/lib/hooks/use-pagination.ts:15-19 | Page p is the window [(p−1)·size, p·size), cut off at the end of the list. |
| Pagination.ConsecutivePages | src/lib/hooks/use-pagination.ts:15-19 | For page p ≥ 1 and size s ≥ 0, page p followed by page p + 1 is the slice from (p−1)·s to (p+1)·s. |
| Pagination.PageLength | src/lib/hooks/use-pagination.ts:15-19 | A page holds at most `size` items, and exactly `size` when the list reaches the page's end. |
| Pagination.WindowLength | src/lib/hooks/use-pagination.ts:16-18 | A cut-off window is at most `size` long, and exactly that when it fits. |
| Pagination.PastTheEnd | src/lib/hooks/use-pagination.ts:15-19 | A page starting at or past the end of the list is empty. |
| Pagination.NonPositivePages | src/lib/hooks/use-pagination.ts:15-19 | Page 0 is empty. A negative page counts back from the end and yields a window of the list's tail. |
| Pagination.NegativeSizeDropsLast | src/lib/hooks/use-pagination.ts:15-19 | A negative size is not rejected: page 1 with size −1 is `slice(0, -1)`, the list without its last item. |
| Pagination.PagesPrefix | src/lib/hooks/use-pagination.ts:15-19 | Pages 1..k laid end to end are the first k·size items, or all of them. |
| Pagination.PagesCoverList | src/lib/hooks/use-pagination.ts:15-19 | With a positive size, pages 1..⌈n/size⌉ give the whole list back in order. |
| Sorting.Compare | src/lib/hooks/use-sort.ts:21-28 | The comparator is 0 iff the values are equal. It is positive iff `b` goes first in the chosen direction. |
| Sorting.Insert | src/lib/hooks/use-sort.ts:21-28 | Insertion adds exactly one element. |
| Sorting.SortSpec | src/lib/hooks/use-sort.ts:21-28 | The reference stable sort keeps the length. |
| Sorting.SortCopy | src/lib/hooks/use-sort.ts:21-28 | Copying into an array and insertion-sorting it in place yields exactly the reference stable sort. |
| Sorting.InsertLast | src/lib/hooks/use-sort.ts:21-28 | One in-place insertion step turns `a[..i+1]` into `Insert(a[..i], a[i])` and leaves the rest of the array alone. |
| Sorting.InsertAt | src/lib/hooks/use-sort.ts:21-28 | Insertion puts `x` after the last element that does not go after it. |
| Sorting.InsertPermutes | src/lib/hooks/use-sort.ts:21 | Insertion adds exactly `x` to the multiset. |
| Sorting.SortSpecPermutes | src/lib/hooks/use-sort.ts:21 | The sorted list is a permutation of the input. |
| Sorting.InsertSorted | src/lib/hooks/use-sort.ts:22-28 | Insertion keeps a sorted sequence sorted. |
| Sorting.SortSpecSorted | src/lib/hooks/use-sort.ts:22-28 | The result is ordered by the field in the chosen direction. |
| Sorting.WithValueAppend | src/lib/hooks/use-sort.ts:27 | Picking out the rows with one value distributes over concatenation. |
| Sorting.InsertStable | src/lib/hooks/use-sort.ts:27 | Insertion puts `x` after every element with the same value. |
| Sorting.SortSpecStable | src/lib/hooks/use-sort.ts:21-28 | The sort is stable: rows with equal values keep their input order. |
| Sorting.Toggled | src/lib/hooks/use-sort.ts:32-39 | The current field flips the direction; another field becomes the sort field, ascending. |
| Sorting.ToggleTwice | src/lib/hooks/use-sort.ts:33-34 | Toggling the current field twice restores both cells. |
| Sorting.ToggleNewFieldTwice | src/lib/hooks/use-sort.ts:32-39 | Toggling a new field twice ends descending on that field. |
| Sorting.Sorter.constructor | src/lib/hooks/use-sort.ts:10-15 | The field starts as given; the direction starts as given, ascending by default. |
| Sorting.Sorter.ToggleSort | src/lib/hooks/use-sort.ts:32-39 | The new cells are `Toggled` of the old cells. |
| Sorting.Sorter.Sort | src/lib/hooks/use-sort.ts:17-30 | With no field, the list comes back unchanged. Otherwise the result is a sorted, stable permutation of the input. |
| Basics.Join | src/lib/hooks/use-export.ts:32-35 | Joining a single part gives that part. |
| Basics.Split | src/pages/feedback-collection.tsx:23 | `split` always yields at least one piece. |
| Basics.JoinSplit | src/pages/feedback-collection.tsx:23 | No piece contains the separator, and joining the pieces restores the string. |
| Basics.SplitCons | src/pages/feedback-collection.tsx:23 | A separator-free piece followed by the separator splits off as exactly that piece. |
| Basics.SplitNone | src/lib/hooks/use-export.ts:33-34 | A string without the separator splits into itself. |
| Basics.SplitJoin | src/lib/hooks/use-export.ts:32-35 | Splitting undoes joining when no part holds the separator. |
| Basics.SplitFirstStops | src/pages/feedback-collection.tsx:23 | The first piece stops at the first separator, whatever follows it. |
| Basics.LowerChar | src/lib/hooks/use-search.ts:23-24 | ASCII capitals move down by 32; every other character is kept. |
| Basics.Lower | src/lib/hooks/use-search.ts:23-24 | Lower-casing maps each character and keeps the length. |
| Basics.LowerIdempotent | src/lib/hooks/use-search.ts:23-24 | Lower-casing twice is lower-casing once. |
| Basics.IncludesAt | src/lib/hooks/use-search.ts:24 | `includes` holds iff the substring occurs at some offset. |
| Basics.IncludesInfix | src/lib/hooks/use-enhanced-surveys.ts:123-131 | A text contains whatever sits in its middle. |
| Basics.IncludesWithin | src/lib/hooks/use-enhanced-surveys.ts:133 | What the middle part contains, the whole contains. |
| Basics.Decimal | src/lib/hooks/use-enhanced-surveys.ts:126 | A whole number prints as digits with no leading zero, and the digits read back as the number. |
| Basics.DecimalInjective | src/lib/hooks/use-enhanced-surveys.ts:126 | Different numbers print differently. |
| Search.Filter | src/lib/hooks/use-search.ts:20-25 | Filtering never lengthens the list. |
| Search.SearchItems | src/lib/hooks/use-search.ts:16-28 | The empty term returns the list unchanged, and the result is never longer than the list. |
| Search.Searcher.constructor | src/lib/hooks/use-search.ts:9-13 | The term starts empty; the fields are those given. |
| Search.Searcher.SetSearchTerm | src/lib/hooks/use-search.ts:13 | Stores the term verbatim. |
| Search.Searcher.Search | src/lib/hooks/use-search.ts:16-28 | The result is `SearchItems` at the current term and fields. The empty term returns the list. Otherwise every kept row matches, every matching row is kept, and each matching row is kept as many times as it occurs. |
| Search.AnyFieldMatchesExists | src/lib/hooks/use-search.ts:21-25 | `some` holds iff some field, lower-cased, contains the lower-cased term. |
| Search.FilterMembers | src/lib/hooks/use-search.ts:20-25 | A row is kept iff it is in the list and some field matches. |
| Search.FilterIndexed | src/lib/hooks/use-search.ts:20-25 | Every entry of the result is a matching row of the input. |
| Search.FilterCounts | src/lib/hooks/use-search.ts:20-25 | `filter` keeps each matching row as many times as it occurs and drops every other row. |
| Search.FilterSubsequence | src/lib/hooks/use-search.ts:20 | The result is an order-preserving subsequence of the input. |
| Search.SubsequenceOfTail | src/lib/hooks/use-search.ts:20 | A subsequence of the tail is a subsequence of the whole. |
| Search.SubsequenceRefl | src/lib/hooks/use-search.ts:18 | Every list is a subsequence of itself. |
| Search.SearchSpec | src/lib/hooks/use-search.ts:16-28 | `search` keeps an order-preserving subsequence. A row is in it iff some field contains the term, ignoring case (every row for the empty term). Each row occurs as often as in the input if it matches, and not at all otherwise. |
| Search.CaseInsensitive | src/lib/hooks/use-search.ts:22-24 | Terms that differ only in ASCII case find the same rows. |
| Search.FilterSameLower | src/lib/hooks/use-search.ts:20-25 | Terms with equal lower-casings filter alike. |
| Search.FieldsSameLower | src/lib/hooks/use-search.ts:21-25 | Terms with equal lower-casings match the same fields. |
| Search.NoFieldsNoRows | src/lib/hooks/use-search.ts:20-25 | With no search fields, a non-empty term finds nothing. |
| Search.SearchIdempotent | src/lib/hooks/use-search.ts:16-28 | Searching the result again with the same term changes nothing. |
| Search.FilterIdempotent | src/lib/hooks/use-search.ts:20-25 | Filtering twice is filtering once. |
| SurveySelectors.LocationRequestIds | src/lib/hooks/use-survey-selectors.ts:64-66 | At most one location id per loaded group. |
| SurveySelectors.AssigneeRequest | src/lib/hooks/use-survey-selectors.ts:83-93 | No call is made iff either selection is empty. Otherwise the call carries the first selected group and the first selected location. |
| SurveySelectors.NextLocations | src/lib/hooks/use-survey-selectors.ts:54-78 | No selected group gives no locations. Otherwise a successful answer to the query for the selected groups' location ids replaces the locations, and an error keeps the current ones. |
| SurveySelectors.NextAssignees | src/lib/hooks/use-survey-selectors.ts:81-107 | No selected group or location gives no assignees. Otherwise the answer for the first of each replaces them (null meaning none), and an error keeps the current ones. |
| SurveySelectors.Selectors.constructor | src/lib/hooks/use-survey-selectors.ts:25-31 | Every list and selection starts empty, and the hook starts loading. |
| SurveySelectors.Selectors.HandleGroupsChange | src/lib/hooks/use-survey-selectors.ts:109-113 | Sets the group selection and clears the location and assignee selections; nothing else changes. |
| SurveySelectors.Selectors.HandleLocationsChange | src/lib/hooks/use-survey-selectors.ts:115-118 | Sets the location selection and clears the assignee selection; nothing else changes. |
| SurveySelectors.Selectors.HandleAssigneesChange | src/lib/hooks/use-survey-selectors.ts:120-122 | Only the assignee selection changes. |
| SurveySelectors.Selectors.LoadGroups | src/lib/hooks/use-survey-selectors.ts:34-51 | Success stores the groups and ends loading. An error changes nothing, so the hook stays loading. |
| SurveySelectors.Selectors.LoadLocations | src/lib/hooks/use-survey-selectors.ts:54-78 | No selected group empties the options. Otherwise a successful answer for the selected groups' location ids replaces them and an error keeps them. Nothing else changes. |
| SurveySelectors.Selectors.LoadAssignees | src/lib/hooks/use-survey-selectors.ts:81-107 | No selected group or location empties the options. Otherwise the answer for the first of each replaces them (null meaning none) and an error keeps them. |
| SurveySelectors.Selectors.GroupsChanged | src/lib/hooks/use-survey-selectors.ts:54-113 | After a group change and its effects, the assignee options are empty and the locations follow the new groups (empty for no group). |
| SurveySelectors.Selectors.LocationsChanged | src/lib/hooks/use-survey-selectors.ts:81-118 | After a location change and its effect, the assignees are the answer for the first group and the first new location. |
| SurveySelectors.LocationRequestIdsSpec | src/lib/hooks/use-survey-selectors.ts:64-66 | A location id is requested iff some loaded, selected group has it. |
| SurveySelectors.LocationRequestIdsExtremes | src/lib/hooks/use-survey-selectors.ts:64-66 | Selecting no group requests nothing. Selecting every group requests every group's location, in order. |
| SurveySelectors.NoneSelected | src/lib/hooks/use-survey-selectors.ts:65 | An empty selection requests no location. |
| SurveySelectors.AllSelected | src/lib/hooks/use-survey-selectors.ts:64-66 | When every group is selected, each group's location is requested, in order. |
| SurveySelectors.NoGroupsNoLocations | src/lib/hooks/use-survey-selectors.ts:56-58 | With no group selected, the locations end up empty whatever the backend answers. |
| SurveySelectors.NoLocationNoAssignees | src/lib/hooks/use-survey-selectors.ts:83-85 | With no location or no group selected, the assignees end up empty whatever the backend answers. |
| SurveySelectors.AssigneesDependOnHeads | src/lib/hooks/use-survey-selectors.ts:89-93 | Selections that agree on their first group and first location load the same assignees. |
| Base64.CharOf | src/lib/hooks/use-enhanced-surveys.ts:32 | No alphabet character is the padding character. |
| Base64.IndexOf | src/pages/feedback-collection.tsx:23 | A character decodes to a value only if that value encodes back to the character. |
| Base64.Encode | src/lib/hooks/use-enhanced-surveys.ts:32 | The encoding is 4·⌈n/3⌉ characters long. |
| Base64.EncodeGroup | src/lib/hooks/use-enhanced-surveys.ts:32 | Three bytes encode to four characters. |
| Base64.Decode | src/pages/feedback-collection.tsx:23 | Only text whose length is a multiple of 4 decodes, to between 3·(n/4) − 2 and 3·(n/4) bytes. |
| Base64.Btoa | src/lib/hooks/use-enhanced-surveys.ts:32 | `btoa` succeeds iff every character is at most U+00FF, giving 4·⌈n/3⌉ characters; otherwise it fails with an invalid-character error. |
| Base64.Atob | src/pages/feedback-collection.tsx:23 | `atob` succeeds iff the text decodes, giving at most 3·(n/4) characters; otherwise it fails with an invalid-encoding error. |
| Base64.Latin1 | src/lib/hooks/use-enhanced-surveys.ts:32 | `btoa` reads a string as bytes iff every character is at most U+00FF, one byte per character with its code. |
| Base64.FromLatin1 | src/pages/feedback-collection.tsx:23 | `atob` turns each byte into the character with that code. |
| Base64.AlphabetTable | src/lib/hooks/use-enhanced-surveys.ts:32 | The alphabet runs A–Z, a–z, 0–9, `+`, `/`, and no two values share a character. |
| Base64.IndexOfCharOf | src/pages/feedback-collection.tsx:23 | Every alphabet character decodes to its own value. |
| Base64.EncodeAlphabet | src/lib/hooks/use-enhanced-surveys.ts:32 | An encoding contains only alphabet characters and `=`. |
| Base64.QuadRoundTrip | src/pages/feedback-collection.tsx:23 | The four 6-bit values of a group give its three bytes back. |
| Base64.DecodeFullQuad | src/pages/feedback-collection.tsx:23 | A leading full group decodes to its three bytes, followed by what the rest decodes to. |
| Base64.DecodeEncodeOne | src/pages/feedback-collection.tsx:23 | A lone final byte survives encoding and decoding. |
| Base64.DecodeEncodeTwo | src/pages/feedback-collection.tsx:23 | A final pair of bytes survives encoding and decoding. |
| Base64.DecodeGroup | src/pages/feedback-collection.tsx:23 | An encoded group in front of decodable text decodes to its bytes in front of the text's bytes. |
| Base64.DecodeEncode | src/pages/feedback-collection.tsx:23 | Decoding undoes encoding for every byte sequence. |
| Base64.AtobBtoa | src/lib/hooks/use-enhanced-surveys.ts:32 | `btoa` succeeds iff every character is at most U+00FF, and then `atob` gives the string back. |
| Base64.BtoaInjective | src/lib/hooks/use-enhanced-surveys.ts:32 | Two strings that `btoa` accepts encode alike only if they are equal. |
| Surveys.ArrayLength | src/lib/hooks/use-enhanced-surveys.ts:121 | `Array.from({ length: n })` has n elements, or none when n is negative. |
| Surveys.IntText | src/lib/hooks/use-enhanced-surveys.ts:126 | A printed number starts with `-` iff it is negative, and the digits read back as its absolute value. |
| Surveys.RatingValues | src/lib/hooks/use-enhanced-surveys.ts:119-162 | Each value is one more than the one before. Stars and emoji start at 1, and emoji is always 1..5. |
| Surveys.RatingButtons | src/lib/hooks/use-enhanced-surveys.ts:119-162 | Button i carries scale value i and belongs to that scale. A numeric button shows its own rating printed, so the number clicked is the rating recorded. Star buttons show a star, and the emoji buttons show the five faces in order. |
| Surveys.RatingHtml | src/lib/hooks/use-enhanced-surveys.ts:108-164 | The markup holds a `data-rating` attribute for every value of the scale. |
| Surveys.Fragments | src/lib/hooks/use-enhanced-surveys.ts:122-133 | One markup fragment per button, in button order. |
| Surveys.RatingValuesSpec | src/lib/hooks/use-enhanced-surveys.ts:119-162 | Numeric scales count min..max (none when max < min). Stars count 1..max. Emoji is always 1..5. |
| Surveys.ScaleIndependence | src/lib/hooks/use-enhanced-surveys.ts:134-162 | Stars ignore the minimum, and emoji ignores both bounds. |
| Surveys.FormBoundedScales | src/lib/schemas/survey.ts:7-8 | With both bounds in 0..10, every value is in 0..10 and there are at most 11 buttons. A numeric scale with min > max has no buttons. |
| Surveys.ConcatAt | src/lib/hooks/use-enhanced-surveys.ts:133 | `join('')` holds each part at its place. |
| Surveys.FragmentRating | src/lib/hooks/use-enhanced-surveys.ts:124-130 | A button's markup carries its `data-rating` attribute. |
| Surveys.ConcatIncludes | src/lib/hooks/use-enhanced-surveys.ts:133 | Whatever one part contains, the joined markup contains. |
| Surveys.FragmentsCarryRatings | src/lib/hooks/use-enhanced-surveys.ts:122-133 | Each button's `data-rating` attribute occurs in the joined markup. |
| Surveys.IntTextInjective | src/lib/hooks/use-enhanced-surveys.ts:126 | Different numbers print differently. |
| Surveys.DataRatingInjective | src/lib/hooks/use-enhanced-surveys.ts:126 | Different values give different `data-rating` attributes. |
| Surveys.DistinctRatings | src/lib/hooks/use-enhanced-surveys.ts:119-162 | No two buttons of one scale share a `data-rating` attribute. |
| Surveys.TrackingIdAccepted | src/lib/hooks/use-enhanced-surveys.ts:32 | A tracking id is produced iff neither id has a character above U+00FF. |
| Surveys.TrackingId | src/lib/hooks/use-enhanced-surveys.ts:32 | A produced tracking id decodes back to `templateId:userId:now`. |
| Surveys.DecodeTrackingId | src/pages/feedback-collection.tsx:23 | Decoding fails exactly when `atob` does. Otherwise neither id read back contains `:`. |
| Surveys.ReadBackIds | src/pages/feedback-collection.tsx:23 | Splitting `t:u:d` at `:` gives back `t` and `u` iff neither contains `:`. |
| Surveys.TrackingRoundTrip | src/pages/feedback-collection.tsx:23 | Decoding a tracking id recovers both ids iff neither contains `:`. |
| Surveys.FindTemplate | src/lib/hooks/use-enhanced-surveys.ts:23 | A found template has the id and belongs to the loaded templates. |
| Surveys.FindIn | src/lib/hooks/use-enhanced-surveys.ts:23 | `find` returns a member with the id. |
| Surveys.FindInSpec | src/lib/hooks/use-enhanced-surveys.ts:23 | The lookup fails iff no template has the id; otherwise it returns the first one that does. |
| Surveys.GenerateSignature | src/lib/hooks/use-enhanced-surveys.ts:22-53 | Fails with "template not found" iff no loaded template has the id, and with an invalid tracking text iff the template and user are found but `btoa` rejects the ids. It succeeds in every other case, carrying the looked-up user and the tracking id of the two ids. |
| Surveys.SignatureOutcomes | src/lib/hooks/use-enhanced-surveys.ts:22-53 | The failures in the order they are checked: no such template, then no user, then an id holding a character above U+00FF. A signature is produced exactly when none of them applies, and it carries the user, the tracking id and the rating markup of the first template with the id. |
| Surveys.SignatureTracksIds | src/lib/hooks/use-enhanced-surveys.ts:32 | The feedback page recovers exactly the ids of a signature whose ids have no `:`. |
| Export.Keys | src/lib/hooks/use-export.ts:31 | The headers are the first row's keys, in order. |
| Export.Cell | src/lib/hooks/use-export.ts:34 | A key missing from the row prints as the empty string. |
| Export.Cells | src/lib/hooks/use-export.ts:34 | Cell k of a line is the row's value under header k. |
| Export.CsvLines | src/lib/hooks/use-export.ts:32-35 | One header line, then one line per row. |
| Export.ExportToCsv | src/lib/hooks/use-export.ts:30-38 | Fails (on `data[0]`) iff there are no rows, and the error is then `NoRows`. Otherwise the download holds the CSV lines joined by newlines, named `<name>.csv`, as `text/csv`. |
| Export.FinalFileName | src/lib/hooks/use-export.ts:13-14 | A given non-empty name wins; an absent or empty one falls back to `export-<format>-<date>`. |
| Export.ExportMutationAsWritten | src/lib/hooks/use-export.ts:8-26 | As written, every call fails with a TypeError (calling the shadowed string). |
| Export.ExportMutation | src/lib/hooks/use-export.ts:8-26 | Fails iff CSV is asked for with no rows or the format is not csv, excel or pdf. A download happens only for CSV, as `<final name>.csv` in `text/csv`. Nothing is exported only for excel or pdf. |
| Export.CellFindsKey | src/lib/hooks/use-export.ts:34 | A cell prints the value of the first field with its key, or nothing for null. |
| Export.CsvLayout | src/lib/hooks/use-export.ts:32-35 | Line 0 is the keys joined by commas. Line i+1 is row i's values in header order. |
| Export.CsvLineRoundTrip | src/lib/hooks/use-export.ts:32-35 | With no newline in any key or value, the text splits back into exactly its header and row lines. |
| Export.CellFrom | src/lib/hooks/use-export.ts:34 | A printed cell holds a character only if some value does. |
| Export.JoinKeeps | src/lib/hooks/use-export.ts:33-35 | Joining adds no character other than the separator. |
| Export.CsvFieldRoundTrip | src/lib/hooks/use-export.ts:31-35 | With no comma in keys or values, each line splits into exactly one field per header. |
| Export.CommaInValueShiftsFields | src/lib/hooks/use-export.ts:34 | Nothing is quoted: the value `Doe, Jane` gives its line two fields under one header. |
| Export.MutationOutcomes | src/lib/hooks/use-export.ts:8-26 | CSV of a non-empty list downloads `<name>.csv` as `text/csv`, and CSV of an empty list fails. Excel and PDF export nothing. Any other format is refused with its name in the message. |
| Export.DefaultCsvName | src/lib/hooks/use-export.ts:13-14 | With no name, or an empty one, a CSV export is saved as `export-csv-<date>.csv`. |
| Export.ShadowedFormatNeverExports | src/lib/hooks/use-export.ts:8-13 | As written, every call throws before exporting, and differs from the intended export of non-empty CSV data. |

## Left out

- The search debounce is left out. `search` uses the current term directly, because the delay is timing only.
- Nps.CalculateNps: the score is computed in exact rational arithmetic. Floating-point evaluation of `(P − D) / N * 100` is not modelled, so a float error that tips a half the other way is not captured.
- Sorting: field values are whole numbers. JavaScript's mixed-type and string `<`/`>` comparisons are not modelled.
- Search: `toLowerCase` folds ASCII letters only. Unicode case mapping is not modelled.
- `String(item[field])` becomes a caller-supplied text function. Its printing rules are not modelled.
- Surveys.RatingHtml keeps each button's class, `data-rating` and caption. Inline styles and whitespace are not modelled.
- Surveys.GenerateSignature does not build the signature markup. The user-info block is left out; its parts (user, tracking id, rating markup) are returned as a value.
- `downloadFile` (Blob, object URL, clicked link) is the model's boundary. A CSV export ends in a `Download` value.
- Supabase queries and the RPC call are not modelled as I/O. Their answers are parameters: a `Result` for groups, and functions for the locations query and the assignee call.
- The order in which asynchronous answers arrive is not modelled; each effect runs to completion.
- A thrown exception in the assignee call is treated like an error answer: the list is kept.
- `Date.now()` and the `yyyy-MM-dd` date text are parameters.
- Export.Keys: the model does not reproduce the ordering `Object.keys` gives integer-like keys (ascending, before all others); the keys are taken in the order of the row's field list.
- Export.Cell: a row is a field list, so it may hold a key twice; `Cell` then prints the first field with that key.
- Base64.Decode is strict and canonical. The browser's `atob` also accepts missing padding, whitespace and non-zero trailing bits; those inputs are not modelled.
- Rbac: a metadata `role` that is not a string (a number, an object) is not modelled.
- The other hooks, pages and components of the application are not part of this model.

## Findings

| source | as written | input that shows it | evidently intended | confidence | as-written member | corrected member |
|---|---|---|---|---|---|---|
| src/lib/hooks/use-export.ts:13 | The destructured `format` string parameter shadows the `format` function imported from date-fns, so building the default file name calls a string and throws a TypeError on every call. | any call, e.g. `{ data: [{a: 1}], format: 'csv' }` | Format today's date with date-fns, then dispatch on the export format. | not executed | Export.ExportMutationAsWritten (Export.ShadowedFormatNeverExports) | Export.ExportMutation (Export.MutationOutcomes) |
| src/lib/utils/rbac.ts:51-53 | A metadata role outside the table makes `permissions[userRole]` undefined, and `.some` on it throws, whereas `hasRole` refuses such a role. | user metadata role `guest`, permission (read, survey) | Refuse the permission (`false`), as `hasRole` does. | not executed | Rbac.HasPermission (Rbac.GuestPermissionThrows) | Rbac.HasPermissionFailClosed (Rbac.FailClosedUnknownRole) |
