# School information site front-end: a Dafny model

This project models the logic underneath the admin and public front-end of a school-information site. The front-end is a Svelte/TypeScript application for news, teachers, sections, the canteen menu, the honor board, classes and schedules, in Russian and Kazakh. The model covers:

- **List utilities**: search, allow-list filter, sort by a named option, facet generation with counts, pagination and the per-page presets.
- **REST client**: header building with the bearer token, token hydration from storage, classification of the reply (401 logs out), endpoint paths, the "School ID is required" guard, and the mappers from collapsed single-language replies to bilingual records.
- **Stores**: the auth token store, the admin-mode store, the theme store, the toast queue, the language store and the image-validation form state.
- **Helpers**: the dotted-key translation lookup, the e-mail shape check, the required-field check, the localized-text pick, error-message extraction and the pre-network checks of the image-URL validator.

One Dafny module corresponds to each source file. Five helper modules support them:

| module | what it provides |
|---|---|
| `Wrappers` | `Option` and `Result` |
| `JsText` | the JavaScript string operations used: `trim`, `toLowerCase`, `includes`, `startsWith`, number printing, `split`, `join` |
| `JsValue` | dynamically typed field values, truthiness, thrown values |
| `Seqs` | `filter` and `map` with their order facts |
| `Storage` | `localStorage` as a class holding a string map |

Stores whose methods update state in place are classes with `modifies` clauses. Loops in the source are methods with loop invariants, proved against specification functions:

- the `forEach` of `generateFilters`;
- the segment walk of `getTranslation`;
- the `forEach` of `validateRequired`.

Pure expressions are functions.

Some inputs become explicit parameters:

- **The network and JSON**: each request receives its reply as a `Response` value. The image check receives its HEAD reply as a `HeadReply`.
- **URL parsing**: an optional `ParsedUrl`.
- **The clock**: `now`.
- **The environment**: whether the code runs in a browser, and the `prefers-color-scheme` media query.
- **Timers**: an explicit `FireTimer` step.

## Model

| member | source | states |
|---|---|---|
| Filters.SearchItems | src/lib/utils/filters.ts:3-23 | A blank term returns the input unchanged. Otherwise the result is an order-preserving subsequence keeping each item exactly when some listed field is a string containing the lower-cased term (case-insensitively) or a number whose decimal form contains it. |
| Filters.FilterItems | src/lib/utils/filters.ts:25-42 | An empty allow-list returns the input. Otherwise the result is an order-preserving subsequence keeping exactly the items whose field (a string, or a number printed) is in the list. |
| Filters.FindOption | src/lib/utils/filters.ts:51 | `find`: the index of the first option with that value, or none when no option has it. |
| Filters.LocaleCompare | src/lib/utils/filters.ts:59 | The string order used for sorting returns -1, 0 or 1, and 0 exactly for equal strings. |
| Filters.LocaleCompareAntisymmetric | src/lib/utils/filters.ts:59 | Swapping the operands negates the comparison. |
| Filters.LocaleCompareTransitive | src/lib/utils/filters.ts:59 | The string order is transitive. |
| Filters.CompareAntisymmetric | src/lib/utils/filters.ts:54-69 | The sort comparator (strings, numbers, mixed pairs equal, negated for `desc`) is antisymmetric. |
| Filters.CompareTransitive | src/lib/utils/filters.ts:54-69 | On items whose field holds only strings or only numbers, the comparator is transitive. |
| Filters.Insert | src/lib/utils/filters.ts:54-69 | Inserting one item adds exactly that item to the multiset. |
| Filters.SortBy | src/lib/utils/filters.ts:54-69 | The sort of a copy is a permutation of the input. |
| Filters.InsertSorted | src/lib/utils/filters.ts:54-69 | Inserting into a sorted, homogeneous list keeps it sorted. |
| Filters.SortBySorted | src/lib/utils/filters.ts:54-69 | For a field that is all-strings or all-numbers, the sort's result is ordered by the comparator. |
| Filters.SortByKeepsEqualOrder | src/lib/utils/filters.ts:68 | When every pair compares equal (for example, mixed types), the order is unchanged. |
| Filters.SortItems | src/lib/utils/filters.ts:44-70 | An empty `sortBy` or an unknown option returns the input. Otherwise the result is a permutation, and on a homogeneous field it is sorted in the chosen option's direction (ascending unless `desc`). |
| Filters.SortItemsNumbersOrdered | src/lib/utils/filters.ts:63-66 | On an all-number field the result is ascending, or descending for `desc`. |
| Filters.SortItemsStringsOrdered | src/lib/utils/filters.ts:58-61 | On an all-string field the result is ascending in the string order, or descending for `desc`. |
| Filters.FilterInsertTies | src/lib/utils/filters.ts:54-69 | Inserting an item into a sorted list puts it after every item it ties with. |
| Filters.SortByStable | src/lib/utils/filters.ts:54-69 | On a homogeneous field, the items that tie with any given item keep their input order in the sort's output. |
| Filters.SortItemsStable | src/lib/utils/filters.ts:44-70 | `sortItems` is stable: on a homogeneous field, the items tying with any item of the input come out in their input order. |
| Filters.NewsDateSortIsAlwaysDescending | src/lib/utils/filters.ts:156-162 | With the news options, `createdAt` always picks the descending entry and the ascending entry can never be chosen. |
| Filters.AllOptionsReachableIffDistinct | src/lib/utils/filters.ts:51 | Every option can be chosen by its value exactly when no two options share a value. |
| Filters.GetNewsSortOptions | src/lib/utils/filters.ts:156-162 | Two news options share a value (`createdAt`), and every option has a direction. |
| Filters.GetTeacherSortOptions | src/lib/utils/filters.ts:164-170 | The teacher options have distinct values, so each can be chosen, and all are ascending. |
| Filters.GetClassSortOptions | src/lib/utils/filters.ts:172-177 | The class options have distinct values and are ascending. |
| Filters.GetScheduleSortOptions | src/lib/utils/filters.ts:179-185 | The schedule options have distinct values and are ascending. |
| Filters.DistinctKeysIffCounted | src/lib/utils/filters.ts:80-87 | A value is among the collected unique values exactly when at least one item carries it. |
| Filters.DistinctKeysAreDistinct | src/lib/utils/filters.ts:84 | The collected values have no repetitions. |
| Filters.DistinctKeysInFirstOccurrenceOrder | src/lib/utils/filters.ts:80-89 | The unique values come in order of their first occurrence in the items. |
| Filters.FirstIndex | src/lib/utils/filters.ts:91 | `find` for the label: the index of the first item carrying the value. |
| Filters.GenerateFilters | src/lib/utils/filters.ts:72-96 | The loop yields one filter per distinct non-null printed value, in first-occurrence order. Each count is the number of items carrying the value. Each label is the first such item's label field printed, or the value when that is empty or absent. |
| Filters.FacetsCountsPositive | src/lib/utils/filters.ts:85-94 | Every generated filter has a count of at least 1. |
| Filters.Slice | src/lib/utils/filters.ts:109 | `slice` returns the contiguous run between the two resolved indices, empty when they cross, never longer than the input. |
| Filters.CeilDiv | src/lib/utils/filters.ts:104 | `Math.ceil(a / b)` is the least q with a <= q*b. |
| Filters.PaginateItems | src/lib/utils/filters.ts:98-113 | `totalItems` is the length and `totalPages` is its ceiling division by the page size. The items are at most a page long, are `slice((p-1)*n, p*n)` for p >= 1, and are empty beyond the last page or for page 0. |
| Filters.PageIsWindow | src/lib/utils/filters.ts:105-109 | For p >= 1 a page is the contiguous window from `(p-1)*n`, cut at the end of the list. |
| Filters.PagesUpToIsPrefix | src/lib/utils/filters.ts:105-109 | Pages 1..k concatenated are the prefix of length min(k*n, len). |
| Filters.AllPagesConcatenate | src/lib/utils/filters.ts:103-109 | Pages 1..totalPages concatenate back to the input. |
| Filters.GetNewsFilters | src/lib/utils/filters.ts:116-120 | Only the "all news" entry, without a count. |
| Filters.GetTeacherFilters | src/lib/utils/filters.ts:122-128 | "All teachers", then one facet per distinct subject with its count. |
| Filters.GetClassFilters | src/lib/utils/filters.ts:130-139 | "All classes", then one facet per distinct grade, labelled with the grade and " класс". |
| Filters.GetScheduleFilters | src/lib/utils/filters.ts:141-153 | "All lessons", the subject facets, then the class facets labelled "Класс " and the class id. |
| Client.Outcome | src/lib/api/client.ts:43-58 | A 2xx reply with a parseable body succeeds with it. A 401 fails with "Unauthorized - please login again". Any other failure status fails with the body's message (an array joined with ", "), or the status text when the body does not parse. A 2xx reply that does not parse fails with the parse error. A network failure fails with its own error. |
| Client.ErrorTextMentionsEveryPart | src/lib/api/client.ts:55 | The joined error message contains every part of an array message. |
| Client.TokenUsed | src/lib/api/client.ts:22-32 | The store's non-empty token is used. Otherwise, in a browser, the stored `authToken` is used. |
| Client.Headers | src/lib/api/client.ts:16-36 | Content-Type defaults to application/json and the caller may override it. The caller's headers all pass. `Authorization: Bearer <token>` is present, overriding the caller's value, exactly when a non-empty token was found. |
| Client.BearerCredentialOfHeaders | src/lib/api/client.ts:34-36 | A server reading the bearer credential (section 2.1 of RFC 6750) recovers exactly the token found. Without one it sees only what the caller sent. |
| Client.ScopedPath | src/lib/api/client.ts:111-113 | The path starts with `/<resource>/school/`, then a non-empty numeral, then `/lang/<tag>` exactly when a language is given. |
| Client.NewsByIdPath | src/lib/api/client.ts:134-147 | The path starts with `/news/`, then a non-empty numeral, then `/lang/<tag>` exactly when a language is given. |
| Client.ClassesPath | src/lib/api/client.ts:315 | The path starts with `/classes`. It is exactly `/classes` for a falsy id, and otherwise continues with `/school/` and the numeral only. |
| Client.SchedulePath | src/lib/api/client.ts:320 | The path starts with `/schedule`. It is exactly `/schedule` when both ids are falsy. A truthy school id comes first; a teacher id alone gives `/schedule/teacher/` and the numeral only. |
| Client.ScopedPathIff | src/lib/api/client.ts:111-113 | Scoped list paths are equal exactly when the school ids and the languages are. |
| Client.NewsByIdPathIff | src/lib/api/client.ts:133-149 | Single-news paths are equal exactly when the ids and the languages are. |
| Client.ClassesPathIff | src/lib/api/client.ts:315 | Class paths are equal exactly when the effective school ids are (a falsy id is no id). |
| Client.SchedulePathIff | src/lib/api/client.ts:320 | Schedule paths are equal exactly when the effective school ids and teacher ids are. The two segments never blur into each other. |
| Client.OptionalImage | src/lib/api/client.ts:124 | `imageUrl \|\| undefined`: a null or empty URL becomes absent, any other URL is kept. |
| Client.NewsFromApi | src/lib/api/client.ts:117-126 | The mapped record carries the same title and content in both languages. Collapsing it gives the reply back, up to the image normalisation. |
| Client.NewsFromApiOfToApi | src/lib/api/client.ts:117-126 | Collapsing a monolingual record with a normal image and mapping it again gives the record back. |
| Client.NewsListFromApi | src/lib/api/client.ts:117-126 | The news list mapper maps each element, in order, by `NewsFromApi`, and keeps the length. |
| Client.NewsListRoundTrip | src/lib/api/client.ts:117 | The list mapper keeps length, order and every field. |
| Client.SectionFromApi | src/lib/api/client.ts:222-231 | Name and schedule are copied into both languages, teacher passes through, and `teacherId` is never set. Collapsing gives the reply back. |
| Client.SectionFromApiOfToApi | src/lib/api/client.ts:222-231 | The inverse direction for monolingual sections. |
| Client.SectionListFromApi | src/lib/api/client.ts:222-231 | The section list mapper maps each element, in order, by `SectionFromApi`, and keeps the length. |
| Client.SectionListRoundTrip | src/lib/api/client.ts:222 | The section list mapper keeps length, order and every field. |
| Client.MenuFromApi | src/lib/api/client.ts:275-282 | The one dishes object serves both languages. Collapsing gives the reply back. |
| Client.MenuFromApiOfToApi | src/lib/api/client.ts:275-282 | The inverse direction for monolingual menus. |
| Client.MenuListFromApi | src/lib/api/client.ts:275-282 | The menu list mapper maps each element, in order, by `MenuFromApi`, and keeps the length. |
| Client.MenuListRoundTrip | src/lib/api/client.ts:275 | The menu list mapper keeps length, order and every field. |
| Client.HonorFromApi | src/lib/api/client.ts:336-343 | The description goes to both languages and the student name passes through. Collapsing gives the reply back. |
| Client.HonorFromApiOfToApi | src/lib/api/client.ts:336-343 | The inverse direction for monolingual honor-board records. |
| Client.HonorListFromApi | src/lib/api/client.ts:336-343 | The honor-board list mapper maps each element, in order, by `HonorFromApi`, and keeps the length. |
| Client.HonorListRoundTrip | src/lib/api/client.ts:336 | The honor-board list mapper keeps length, order and every field. |
| Client.ApiClient.Request | src/lib/api/client.ts:14-59 | Sends `baseUrl + endpoint` with the built headers and the caller's method and body, and settles with `Outcome(reply)`. When it adopts a stored token, the store logs in with it. A 401 logs out. Otherwise auth state and storage are untouched. |
| Client.ApiClient.Login | src/lib/api/client.ts:62-69 | POSTs the credentials to `/auth/login`. On success the returned token is stored in the auth store and under `authToken` and the reply is returned. On failure it is the request step's outcome. |
| Client.ApiClient.GetNews | src/lib/api/client.ts:105-131 | A falsy school id (absent or 0) fails with "School ID is required" before any request and changes nothing. Otherwise it requests the scoped news path and maps the reply. |
| Client.ApiClient.GetNewsById | src/lib/api/client.ts:133-149 | With a language it requests `/news/<id>/lang/<l>` and maps the reply. Without one it requests `/news/<id>` and returns the reply as it is. |
| Client.ApiClient.GetTeachers | src/lib/api/client.ts:172-183 | The same school-id guard, then `/teachers/school/<id>` with the reply passed through. |
| Client.ApiClient.GetSections | src/lib/api/client.ts:210-236 | The school-id guard, the scoped section path and the section mapper. |
| Client.ApiClient.GetCanteenMenu | src/lib/api/client.ts:263-287 | The school-id guard, the scoped canteen-menu path and the menu mapper. |
| Client.ApiClient.GetHonorBoard | src/lib/api/client.ts:324-348 | The school-id guard, the scoped honor-board path and the honor-board mapper. |
| Client.ApiClient.GetClasses | src/lib/api/client.ts:314-316 | No guard. `/classes`, with `/school/<id>` only for a truthy id. |
| Client.ApiClient.GetSchedule | src/lib/api/client.ts:319-321 | No guard. `/schedule`, then a school segment and a teacher segment, each present exactly when its id is truthy. |
| Auth.AuthStore.constructor | src/lib/stores/auth.ts:9-12 | It starts with no token and not authenticated. |
| Auth.AuthStore.Login | src/lib/stores/auth.ts:17-20 | Writes `authToken`, holds the token and sets the flag. The flag and storage agree with the token. |
| Auth.AuthStore.Logout | src/lib/stores/auth.ts:21-24 | Removes `authToken`, drops the token and clears the flag. The result does not depend on the previous state. |
| Auth.AuthStore.Initialize | src/lib/stores/auth.ts:25-30 | Adopts a non-empty stored token as authenticated. Otherwise nothing changes. |
| Auth.AuthStore.Set | src/lib/stores/auth.ts:16 | The raw exported `set` installs any state. |
| Auth.RawSetBreaksConsistency | src/lib/stores/auth.ts:16 | The raw `set` can produce a state whose flag disagrees with its token. |
| Admin.AdminStore.constructor | src/lib/stores/admin.ts:11-15 | Not in admin mode, not authenticated, no token. No access. |
| Admin.AdminStore.EnterAdminMode | src/lib/stores/admin.ts:19-39 | Logs in through the shared client. On success both flags are set, the returned token is the admin token and is also the main auth token, and the call returns true (access is held exactly when the token is non-empty). The token is also written under `authToken`, and nothing else in storage changes. On failure the login error is passed on, the admin state is unchanged, and the auth store and storage are as the failed request left them (logged out on a 401). |
| Admin.AdminStore.ExitAdminMode | src/lib/stores/admin.ts:40-47 | Clears both flags and the token, whatever the previous state. |
| Admin.AdminStore.VerifyAdminAccess | src/lib/stores/admin.ts:49-60 | Resolves true exactly when both flags hold and the token is non-empty. Otherwise it rejects with "Admin access required". |
| Translations.GetTranslation | src/lib/i18n/translations.ts:111-128 | The segment loop computes the specification `Translate`: the requested language's text when the path ends at a leaf, the key otherwise. |
| Translations.WalkAppend | src/lib/i18n/translations.ts:115-121 | Walking a concatenated path is walking the first part, then the rest. |
| Translations.MissingSegmentGivesKey | src/lib/i18n/translations.ts:116-120 | A segment that is missing where the walk has got to, or that follows a text, gives the key. |
| Translations.PathToTextGivesKey | src/lib/i18n/translations.ts:123-127 | A path ending at a text rather than at a leaf gives the key. |
| Translations.Translate | src/lib/i18n/translations.ts:111-128 | The lookup is total and returns either the key or a text stored in the table. |
| Translations.NavigationHomeExample | src/lib/i18n/translations.ts:3-6 | `navigation.home` gives "Басты бет" in Kazakh and "Главная" in Russian. |
| Translations.SectionPath | src/lib/i18n/translations.ts:123-127 | A key whose only segment is `navigation` gives the key. |
| Translations.SectionKeyExample | src/lib/i18n/translations.ts:112-128 | `navigation` gives `navigation` in either language. |
| Translations.MissingLeafExample | src/lib/i18n/translations.ts:116-120 | `navigation.missing` gives the key. |
| Translations.PastTextExample | src/lib/i18n/translations.ts:116-127 | `navigation.home.ru` (a path past a text) gives the key. |
| Theme.GetSystemTheme | src/lib/stores/theme.ts:14-17 | False outside a browser, the media query's answer inside one. |
| Theme.ClassesAfter | src/lib/stores/theme.ts:34-41 | After `applyTheme` the class list holds the new class if it is a valid token, holds `light` or `dark` only if that is the new class, and keeps every other class. It gains nothing else. |
| Theme.RootClassValid | src/lib/stores/theme.ts:37-41 | The class can be added exactly when the theme is `system` or is itself a valid class token (non-empty, no ASCII whitespace). |
| Theme.SavedThemeReadsBack | src/lib/stores/theme.ts:20-27 | A non-empty theme written under `theme` is what `getSavedTheme` reads back. |
| Theme.ShouldBeDark | src/lib/stores/theme.ts:52-56 | Dark for `dark`, light for `light`, the system preference for anything else. |
| Theme.GetSavedTheme | src/lib/stores/theme.ts:20-27 | `light` outside a browser. In a browser, the stored value unvalidated, or `system` when it is missing, empty or the read throws. |
| Theme.RootClass | src/lib/stores/theme.ts:37-41 | The class applied: the resolved one for `system`, the theme itself otherwise. |
| Theme.NextTheme | src/lib/stores/theme.ts:131-143 | light→dark→system→light, and anything unknown→light. |
| Theme.CycleThreeTimes | src/lib/stores/theme.ts:131-143 | Three cycles return a known theme to itself. |
| Theme.CycleNormalizes | src/lib/stores/theme.ts:141-142 | After one cycle any value is known, so three more return to it. |
| Theme.ToggledTheme | src/lib/stores/theme.ts:116-117 | Toggling gives light when dark, else dark. The new darkness is the opposite of the old, whatever the system preference. |
| Theme.ThemeStore.constructor | src/lib/stores/theme.ts:61-66 | It starts at `system`, not dark, with nothing applied. |
| Theme.ThemeStore.ApplyTheme | src/lib/stores/theme.ts:30-49 | In a browser, removes `light` and `dark` and adds the root class. When the class is not a valid token the add fails, after the removal and before the save. Otherwise `theme` is written to storage and no other key changes. Outside a browser nothing changes. |
| Theme.ThemeStore.Init | src/lib/stores/theme.ts:69-88 | In a browser, reads `theme` from storage (or takes `system` when the read throws) and applies it. If applying fails, the store and the listener are untouched. Otherwise it adopts the theme with its darkness and starts listening. Classes and storage change only as applying says. Outside a browser nothing changes. |
| Theme.ThemeStore.HandleSystemThemeChange | src/lib/stores/theme.ts:91-100 | For a `system` theme, the darkness becomes the new preference, the class list swaps to the matching class and `system` is saved. Other keys and classes are kept. For any other theme nothing changes. |
| Theme.ThemeStore.SetTheme | src/lib/stores/theme.ts:103-111 | Applies the theme, then the state becomes `{theme, shouldBeDark(theme)}`. When applying fails in a browser (a theme that is not a valid class token), the state and storage stay as they were. Other keys and classes are kept, and outside a browser only the state changes. |
| Theme.ThemeStore.ToggleTheme | src/lib/stores/theme.ts:114-124 | The theme becomes light if it was dark, else dark. The new darkness equals (theme = dark). In a browser the class list swaps to it and it is saved, keeping other keys and classes. Outside a browser only the state changes. |
| Theme.ThemeStore.CycleTheme | src/lib/stores/theme.ts:127-152 | The theme advances one step in the cycle with its darkness. In a browser the class list swaps to its class and it is saved, keeping other keys and classes. Outside a browser only the state changes. |
| Theme.PersistenceRoundTrip | src/lib/stores/theme.ts:69-111 | A theme that `setTheme` saves is the theme a later `init` on the same storage restores. A theme the class list rejects is not saved, and `init` falls back to `system`. |
| Toast.IdFor | src/lib/stores/toast.ts:16 | The id is the decimal form of the millisecond clock. |
| Toast.IdForSameIffSameTime | src/lib/stores/toast.ts:16 | Two ids are equal exactly when they were made in the same millisecond. |
| Toast.Without | src/lib/stores/toast.ts:72-74 | Removal keeps, in order and with multiplicity, exactly the toasts with another id. |
| Toast.WithoutIdempotent | src/lib/stores/toast.ts:72-74 | Removing twice is removing once. |
| Toast.WithoutAbsent | src/lib/stores/toast.ts:72-74 | Removing an absent id changes nothing. |
| Toast.SameTimeToastsRemovedTogether | src/lib/stores/toast.ts:16-24 | Two toasts made in the same millisecond share an id and leave together. |
| Toast.ToastStore.constructor | src/lib/stores/toast.ts:11 | No toasts and no timers. |
| Toast.ToastStore.Show | src/lib/stores/toast.ts:15-29 | Appends one toast, with the given or default (info, 5000) kind and duration, after the unchanged earlier ones. Returns its id. Schedules a removal only when the duration is positive. |
| Toast.ToastStore.ShowSuccess | src/lib/stores/toast.ts:30-43 | The same, with kind success. |
| Toast.ToastStore.ShowError | src/lib/stores/toast.ts:44-57 | The same, with kind error. |
| Toast.ToastStore.ShowInfo | src/lib/stores/toast.ts:58-71 | The same, with kind info. |
| Toast.ToastStore.FireTimer | src/lib/stores/toast.ts:23-25 | A due removal removes every toast with its id and nothing else. |
| Toast.ToastStore.Remove | src/lib/stores/toast.ts:72-74 | Removes every toast with that id and keeps the rest in order. |
| Toast.ToastStore.Clear | src/lib/stores/toast.ts:75-77 | Leaves no toasts. |
| Languages.ParseTag | src/lib/stores/language.ts:9 | Only "ru" and "kz" are accepted, and each reads back as its own tag. |
| Languages.ParseTagOfTag | src/lib/stores/language.ts:9-21 | A written tag reads back as the same language. |
| Languages.GetInitialLanguage | src/lib/stores/language.ts:6-14 | The stored value if it is exactly ru or kz in a browser, else ru. |
| Languages.Other | src/lib/stores/language.ts:30 | The other language. |
| Languages.OtherInvolution | src/lib/stores/language.ts:29-31 | Toggling twice gives the original language. |
| Languages.LanguageStore.constructor | src/lib/stores/language.ts:16-23 | Starts at the initial language. In a browser the subscription writes it to storage at once. |
| Languages.LanguageStore.Set | src/lib/stores/language.ts:20-22 | The store takes the value. Storage is written when the value changes. |
| Languages.LanguageStore.SetLanguage | src/lib/stores/language.ts:25-27 | The current language becomes the argument. In a browser, `language` is written exactly when the value changes, and no other key changes. Storage keeps mirroring it. |
| Languages.LanguageStore.ToggleLanguage | src/lib/stores/language.ts:29-31 | ru and kz swap. In a browser the new tag is written under `language`, and no other key changes. Storage keeps mirroring it. |
| Helpers.GetLocalizedText | src/lib/utils/helpers.ts:17-19 | The Russian text for ru, the Kazakh text for kz. |
| Helpers.GetLocalizedTextDefaultsToRussian | src/lib/utils/helpers.ts:17 | The default language is Russian. |
| Helpers.ResetFormData | src/lib/utils/helpers.ts:24-26 | A copy with the same fields and values. |
| Helpers.HandleApiError | src/lib/utils/helpers.ts:31-36 | An Error's message, else "Произошла неизвестная ошибка". |
| Helpers.IsValidEmail | src/lib/utils/helpers.ts:41-44 | The check accepts exactly the strings with no whitespace, one `@`, a non-empty local part, and a domain holding a `.` with non-empty whitespace- and `@`-free text on both sides. |
| Helpers.MissingMessages | src/lib/utils/helpers.ts:49-57 | At most one message per field. |
| Helpers.MissingMessagesNameMissingFields | src/lib/utils/helpers.ts:51-56 | The messages are, in entry order, "Поле <key> обязательно для заполнения" for exactly the missing fields. |
| Helpers.MissingClassification | src/lib/utils/helpers.ts:52 | undefined, null, false and 0 are missing, and a string is missing exactly when it is blank. true, objects and non-zero numbers are not. |
| Helpers.ValidateRequired | src/lib/utils/helpers.ts:49-57 | The loop computes the missing-field messages, and an empty record gives none. |
| ImageValidation.ValidateImageUrl | src/lib/utils/imageValidation.ts:6-29 | A blank URL is valid with no request. An unparseable URL, a non-http protocol or a path without an image extension is invalid with no request. Otherwise the HEAD request decides: OK and `image/` content type. |
| ImageValidation.ValidMeansBlankOrConfirmed | src/lib/utils/imageValidation.ts:6-29 | Valid exactly when blank, or every check passed and the HEAD reply confirmed an image. |
| ImageValidation.ExtensionAnywhereInPath | src/lib/utils/imageValidation.ts:15-18 | The extension test is a case-insensitive substring test, so `/photo.PNG/view` passes. |
| ImageValidation.HasImageChanged | src/lib/utils/imageValidation.ts:37-39 | String inequality. |
| ImageValidationHook.ShouldDisableSubmit | src/lib/hooks/useImageValidation.ts:20-35 | Disabled exactly when the image changed and it is validating or invalid. |
| ImageValidationHook.ImageValidationState.constructor | src/lib/hooks/useImageValidation.ts:10-17 | Not validating, valid, no error. Submit enabled. |
| ImageValidationHook.ImageValidationState.BeginValidation | src/lib/hooks/useImageValidation.ts:48-49 | Validating with the error cleared, and submit disabled. |
| ImageValidationHook.ImageValidationState.FinishValidation | src/lib/hooks/useImageValidation.ts:51-63 | Not validating afterwards. true sets valid, false sets invalid with the fixed message, and a rejection sets invalid with the failure message. |
| ImageValidationHook.ImageValidationState.ValidateCurrentImage | src/lib/hooks/useImageValidation.ts:40-64 | An unchanged image is valid with no error and no validation. A changed image takes the validator's verdict with the fixed message when false. Validating is false afterwards, and submit is disabled exactly when a changed image failed. |
| ImageValidationHook.ImageValidationState.ResetValidation | src/lib/hooks/useImageValidation.ts:69-73 | Back to not validating, valid, no error. |
| JsText.TrimEmptyIffBlank | src/lib/utils/helpers.ts:52 | `s.trim() === ''` exactly for blank strings. |
| JsText.IntToStringInjective | src/lib/api/client.ts:112 | Distinct numbers print differently. |
| JsText.JoinSplit | src/lib/i18n/translations.ts:112 | Joining the `split` parts with the separator gives the key back. |
| Seqs.FilterIsSubsequence | src/lib/utils/filters.ts:11 | `filter` keeps an order-preserving subsequence. |
| Seqs.FilterMultiset | src/lib/utils/filters.ts:32 | `filter` keeps each qualifying element with its multiplicity and drops the rest. |
| Seqs.FilterIdempotent | src/lib/stores/toast.ts:73 | Filtering twice by the same test is filtering once. |

## Left out

- Floating-point numbers: JavaScript numbers are modelled as integers, so fractional, NaN and infinite field values, ids and durations are not covered.
- Filters.PaginateItems: requires a positive page size. A page size of 0 or less produces Infinity, NaN or negative windows in JavaScript.
- Filters.SortItems: `Array.prototype.sort` is modelled as a stable insertion sort, as the language has required since ES2019. With mixed-type fields the comparator is not a consistent order, and the engine's actual order is then not modelled. Sortedness and stability are proved only for homogeneous fields.
- Filters.LocaleCompare: `localeCompare` is modelled as code-point lexicographic order. Collation rules of the user's locale are not modelled.
- JsText.LowerChar: `toLowerCase` is modelled for ASCII, Russian and Kazakh Cyrillic letters only. Other characters are left as they are.
- Filters.GenerateFilters: `Object.entries`/`Set` insertion order is taken from the item sequence. Fields holding objects print as "[object Object]", with no custom `toString`.
- Translations.Translate: keys that reach the object prototype (`toString`, `__proto__`) are not modelled. With them, `k in value` is true for inherited members, and `__proto__.__proto__` makes the original throw a TypeError. The table `t` contains no language entry that is an object, so that branch gives the key.
- Client.ApiClient.Request: outside a browser, the `localStorage` accesses inside `authStore.login`/`logout` would throw. The auth store is modelled as browser-side. An error body that is JSON `null`, which makes `errorData.message` throw a TypeError, is not modelled. A caller header spelled `authorization` in lower case is a different key here, whereas `fetch` would merge it.
- Client.ApiClient.Login: a login reply without a `token` field (which would store the string "undefined") is not modelled.
- Client request bodies: `JSON.stringify` output is kept as the structured `Credentials` value, not as text.
- The other CRUD endpoints of the client (`getMe`, the school endpoints, `create*`/`update*`/`delete*`, `getTeacher`, `getSection`, `getCanteenMenuItem`) are all the same request step on a fixed path and are not modelled separately. Their reply is never mapped.
- The mappers read only the collapsed fields (`title`, `name`, `dishes`, `description`), even when no language is requested. A reply that already carries `titleRu`/`titleKz` is not detected. The model follows the code here, not the richer two-shape design.
- Console logging in the client, the admin store and the theme store is left out.
- Theme.ThemeStore.SetTheme: the exception `classList.add` throws for an invalid class token is modelled as a `false` result (`ok`). That it propagates to the caller of `setTheme` and `init` is not modelled. The DOM rule is taken as non-empty with no ASCII whitespace.
- Theme.ThemeStore.ApplyTheme: a `localStorage.setItem` that throws (caught and logged in the source) is not modelled. Storage writes always succeed here. The `matchMedia` listener is a flag, and its removal function is not modelled.
- Toast timers: `setTimeout` is an explicit `FireTimer` step that the environment takes in any order. Elapsed time is not modelled.
- ImageValidationHook.ImageValidationState.FinishValidation: the `catch` arm of `validateCurrentImage` is modelled through `Rejected`. The image validator never rejects, so `ValidateCurrentImage` never takes that arm.
- Admin.AdminStore.VerifyAdminAccess: the subscription calls its callback synchronously, before the `unsubscribe` constant is initialised, so the callback's `unsubscribe()` throws a ReferenceError. The promise has settled by then, so this call's outcome is as modelled. The subscriber is never removed, though. svelte/store is not part of this model. The two lines below follow its usual `writable`, which keeps such a subscriber and calls it again on every later update.
- Admin.AdminStore.EnterAdminMode: after any earlier `verifyAdminAccess`, the stranded subscriber throws from inside `update`, once the new state is stored. The `try` block rethrows it, so the source rejects even though the login succeeded and both flags are set. The model returns success. A store whose notification threw may also stop notifying its other subscribers, and that is not modelled either.
- Admin.AdminStore.ExitAdminMode: after any earlier `verifyAdminAccess`, `update` throws once the flags and the token are cleared. The model clears them and returns normally.
- Concurrency: each async operation is one sequential step, so interleavings of overlapping requests or validations are not modelled.
- `formatDate` (date-fns locale formatting) is not part of this model.
