# medidict core, modelled in Dafny

medidict is a small medical dictionary. The server keeps an in-memory store of term records and a log of searches. It answers four GET endpoints: search, suggestions, lookup by name, and a random "word of the day". The browser client keeps a search session (query box, suggestions, results, loading and searched flags) and a list of recent searches mirrored into a browser storage slot. Several components start searches on that shared session.

What this project models:

- `Storage` (storage.dfy): the `MemStorage` class.
  - It holds the term table in insertion order, the append-only search history and the two id counters.
  - Its constructor, `insertMedicalTerm` and `recordSearch` are methods that change the object.
  - The lookups, the search and the suggestions are pure functions over the table's values, proved against their meaning: first match in store order, exactly the matching subsequence (every matching record kept as often as it occurs), and a prefix of the matching names.
  - `getRandomTerm` picks an arbitrary valid index.
- `Routes` (routes.dfy): the four GET handlers, each a decision from raw query parameters and the store to a status and a body.
  - Only the search handler changes the store; it appends one history record.
- `RecentList` (recent_list.dfy): the list computed by `addToRecentSearches`.
  - Most recent first, at most ten entries, de-duplicated by comparing lower-cased but untrimmed strings.
  - Also the list that the remove-one-entry button rebuilds, and the proofs of both.
- `SearchSession` (search_session.dfy): the context's state cells as a `Session` value and a `SearchContext` class.
  - `addToRecentSearches` and `clearRecentSearches`.
  - The search transition that four components repeat: launch, then settle.
  - The view guards of the loading panel, results panel, empty state, word of the day and recent-search panel.
- The server's answer to a `searchMedicalTerms` request is not computed on the client: every search transition takes it as a function `Searcher` from the query text sent to how the request ends, so each contract says which query was sent.
- `SearchBar` (search_bar.dfy): the search box.
  - Its handlers as pure transitions on a `Bar` value (session, highlighted index, pending debounce value).
  - A `SearchBar` class whose methods are proved to perform those transitions and to keep the bar invariant.
- `RecentSearches`, `SearchResults` and `WordOfDay` (recent_searches.dfy, search_results.dfy, word_of_day.dfy): the remaining components' handlers, as methods on the shared context.
  - Each is tied to a pure transition whose properties are proved as lemmas.
- `Strings`, `Seqs` and `Wrappers`: the string primitives (`toLowerCase`, `trim`, `includes`), sequence helpers (`filter`, sub-sequence, reverse, remove-at) and `Option`.

Two behaviours are modelled as the code has them, not as a reader might expect:

- Selecting a suggestion searches the old text. `handleSuggestionClick` sets the box to the suggestion, but the `handleSearch` it calls reads the `searchTerm` captured by the current render. So the search request and the recorded recent entry use the text the box held before the selection. The request is modelled as a function of its query (`SearchSession.Searcher`), so the results shown are the server's answer for that older text. See `SearchBar.Selected` and `SearchBar.SelectionSearchesPreviousText`; `SearchBar.SelectingAsthmaRecordsAst` shows the case "ast" then "Asthma", where the answer for "ast" is what is shown.
- Removing one recent entry reverses the others. The handler clears the list and re-adds each survivor, and each add prepends. See `RecentList.ReAddReverses` and `RecentSearches.RemoveEntryFacts`.

Code behaviours worth knowing, each modelled as written:

- The suggestion guard rejects a blank partial or an *untrimmed* length below 2. The trimmed length is not used; for example, `" a"` passes the guard and is searched as `"a"`.
- The client's `fetchSuggestions` checks the untrimmed length, after the debounce delay.
- The suggestions and term endpoints reject a parameter that is absent, empty or not a string, not only an absent one.
- Insertion turns every falsy optional value into `null`: the empty string as well as `undefined`. Arrays, even empty ones, are kept.
- The search transition of the search bar records the term before it sets the loading flags; the other components set the flags first. The final states agree.

Network requests, timers and the random index are not executed in the model. A search request's ending is given by a `Searcher`, a function from the query sent to its `SearchOutcome`, so the model says which text each search sends. The endings of the suggestion and word-of-the-day requests (`SuggestionReply`, `WordReply`) are parameters. The debounce timer is a pending-value slot plus an explicit "timer fires" event. The random pick is an arbitrary index (`:|`). Toasts are returned as `Notice` values.

## Model

| member | source | states |
|---|---|---|
| Storage.OrNull | server/storage.ts:306-307 | JavaScript's falsy-to-null on an optional string: absent exactly when the value is absent or the empty string, otherwise the value itself |
| Storage.FindById | server/storage.ts:258-260 | `getMedicalTerm`: absent exactly when no record has the id; otherwise a stored record with that id |
| Storage.FindByName | server/storage.ts:262-268 | absent exactly when no record's lower-cased name equals the lower-cased, trimmed query; otherwise the first such record in store order (the stored name is not trimmed) |
| Storage.TermMatches | server/storage.ts:276-281 | the search predicate: the lower-cased name, definition or some related term contains the key; symptoms are not consulted (its use is stated by `SearchTerms`) |
| Storage.SearchTerms | server/storage.ts:270-283 | empty for a blank query; otherwise a store-ordered subsequence that holds only records whose name, definition or some related term contains the normalized query, each such record as many times as the table holds it |
| Storage.NamesContaining | server/storage.ts:290-292 | reference definition of the store-ordered names whose lower-cased form contains the key; related to the source pipeline by `NamesOfNameFilter` and `NamesContainingSound` |
| Storage.NamesOfNameFilter | server/storage.ts:290-292 | filtering by name and then mapping to names gives the reference list of matching names in store order |
| Storage.NamesContainingSound | server/storage.ts:290-292 | every name in the reference list contains the key and is the name of a stored record |
| Storage.TooShortToSuggest | server/storage.ts:286 | the suggestion guard: blank after trimming, or fewer than 2 characters before trimming (its effect is stated by `Suggest`) |
| Storage.Suggest | server/storage.ts:285-296 | empty when the partial is blank or shorter than 2 before trimming; otherwise exactly the first `limit` of the store-ordered names containing the normalized partial, so at most `limit` and each one matching |
| Storage.MemStorage.constructor | server/storage.ts:246-256 | the table holds the seed in order, the history is empty, the term counter is count + 1, the search counter is 1, and the store invariant (distinct ids below the counter) holds |
| Storage.SampleSeedFits | server/storage.ts:246-255 | the bundled seed's ids (13 to 23, then 1 to 12) are distinct and at most 23, so the counter 24 exceeds every seeded id |
| Storage.MemStorage.InsertMedicalTerm | server/storage.ts:298-314 | the new record takes the old counter as its id and the counter grows by one; falsy strings become null; the record is appended; it is found by its id and every other id lookup is unchanged; the history is untouched |
| Storage.FindByIdAfterAppend | server/storage.ts:312 | appending a record with a fresh id makes it findable and leaves every other lookup as it was |
| Storage.MemStorage.RecordSearch | server/storage.ts:316-330 | appends one record whose id is the old search counter (ids run 1, 2, ...) with a falsy address as null; the term table and counter are untouched |
| Storage.MemStorage.GetRandomTerm | server/storage.ts:332-343 | absent exactly when the table is empty, otherwise a stored record |
| Strings.IsWhitespace | server/storage.ts:263 | the characters `trim` removes: ECMAScript WhiteSpace and LineTerminator |
| Strings.Lower | server/storage.ts:263 | `toLowerCase`, ASCII only: the result has the input's length |
| Strings.LowerAt | server/storage.ts:263 | lower-casing works character by character |
| Strings.TrimStart | server/storage.ts:263 | `trim` at the front: a suffix of the input whose first character, if any, is not whitespace |
| Strings.TrimEnd | server/storage.ts:263 | `trim` at the back: a prefix of the input whose last character, if any, is not whitespace |
| Strings.IsBlank | server/storage.ts:271 | `!s.trim()`: the trimmed string is empty (characterized by `BlankIffAllWhitespace`) |
| Strings.Normalize | server/storage.ts:273 | `toLowerCase().trim()` of the query (its empty case is `NormalizeEmptyIffBlank`) |
| Strings.Contains | server/storage.ts:277 | `includes`: characterized by `ContainsIffOccurs` |
| Strings.NormalizeEmptyIffBlank | server/storage.ts:271-273 | the lower-cased, trimmed query is empty exactly when the query is blank |
| Strings.BlankIffAllWhitespace | server/storage.ts:271 | `!s.trim()` holds exactly when every character is ECMAScript whitespace |
| Strings.ContainsIffOccurs | server/storage.ts:277 | `includes` holds exactly when the key occurs at some index |
| Routes.IsNonEmptyString | server/routes.ts:54 | the parameter test the handlers share: exactly a single string of at least one character passes, which is also what `searchTermSchema` (shared/schema.ts:41-43) accepts at line 17 (its use is stated by each handler) |
| Routes.ParseDecimal | server/routes.ts:61 | `parseInt(s, 10)` on decimal digits; what it computes is stated by `ParseDecimalInvertsDigits` and `LeadingZeroIgnored` |
| Routes.DecimalDigits | server/routes.ts:61 | a number's decimal form, always a non-empty string of digits: the reference the parse is checked against |
| Routes.ParseDecimalInvertsDigits | server/routes.ts:61 | parsing the decimal form of any n gives n |
| Routes.LeadingZeroIgnored | server/routes.ts:61 | a leading zero does not change the parsed value |
| Routes.LimitOf | server/routes.ts:61 | an absent or empty `limit` selects 5; otherwise the parsed decimal value |
| Routes.LimitOfDecimal | server/routes.ts:61 | a `limit` written as the decimal form of n selects exactly n suggestions |
| Routes.HandleSearch | server/routes.ts:12-47 | a term that is not a non-empty string gives 400 and writes nothing; otherwise 200 with the store's search, after appending exactly one history record with the raw term and the result count; a whitespace-only term gives empty results and a record with count 0; the table is never changed |
| Routes.HandleSuggestions | server/routes.ts:50-72 | 400 exactly when the term is not a non-empty string; otherwise 200 with the store's suggestions for the limit, at most `limit` names; the store is only read |
| Routes.HandleTermLookup | server/routes.ts:75-103 | 400 exactly for a missing, empty or non-string name, 404 exactly when the lookup finds nothing, 200 with the found record exactly when it finds one; the store is only read |
| Routes.HandleWordOfDay | server/routes.ts:106-125 | 404 exactly when the store is empty, otherwise 200 with a stored record |
| RecentList.AddRecent | client/src/contexts/SearchContext.tsx:39-50 | the list `addToRecentSearches` leaves: unchanged for a blank term, else `PutFirst`; its promises are the rows `AddRecentFacts`, `AddRecentKeepsValid` and `ReAddingPresentKeepsLength` |
| RecentList.PutFirst | client/src/contexts/SearchContext.tsx:44-46 | the list after the filter-prepend-slice: between 1 and 10 entries, headed by the term verbatim, no later entry equal to it ignoring case |
| RecentList.PutFirstKeepsOrder | client/src/contexts/SearchContext.tsx:44-46 | the entries behind the new head are a subsequence of the old list (relative order kept) |
| RecentList.AddRecentFacts | client/src/contexts/SearchContext.tsx:38-51 | a blank term leaves the list unchanged; otherwise the term heads a list of at most 10 whose other entries differ from it ignoring case and keep their order; while the list is not full, every entry that differs from the term survives; a term no entry matches is prepended and only the entries beyond the tenth, the oldest, are cut |
| RecentList.AddRecentKeepsNoDuplicates | client/src/contexts/SearchContext.tsx:44 | adding keeps the list free of case-insensitive duplicates |
| RecentList.AddRecentKeepsValid | client/src/contexts/SearchContext.tsx:40-46 | adding keeps the list's invariant: at most 10 entries, no case-insensitive duplicates, no blank entries |
| RecentList.SubseqKeepsNoDuplicates | client/src/contexts/SearchContext.tsx:44 | a subsequence of a duplicate-free list is duplicate-free and draws its entries from it |
| RecentList.FilterDropsTheMatch | client/src/contexts/SearchContext.tsx:44 | on a duplicate-free list holding a case-insensitive match of the term, the filter drops exactly one entry |
| RecentList.ReAddingPresentKeepsLength | client/src/contexts/SearchContext.tsx:44-46 | re-adding a present term moves it to the front without growing the list |
| RecentList.PutFirstFresh | client/src/contexts/SearchContext.tsx:44-46 | for a term no entry matches, the result is the term followed by the list, cut to ten: all of a list below ten is kept, and a full list loses exactly its oldest entries |
| RecentList.ComparisonIsUntrimmed | client/src/contexts/SearchContext.tsx:44 | the comparison is not trimmed: adding "Asthma " to ["asthma"] keeps both |
| RecentList.BlankIsNotRecorded | client/src/contexts/SearchContext.tsx:40 | for example, the whitespace-only term " \t " leaves ["asthma"] as it was (the general case is in `AddRecentFacts`) |
| RecentList.ReAdd | client/src/components/RecentSearches.tsx:91-93 | the list the forEach re-add leaves, starting from the cleared list: each entry added in turn; `ReAddReverses` states what it is for a valid list |
| RecentList.ReAddReverses | client/src/components/RecentSearches.tsx:90-93 | re-adding the entries of a valid list one by one onto the cleared list gives them in reverse order |
| RecentList.ReverseKeepsValid | client/src/components/RecentSearches.tsx:90-93 | the list invariant does not depend on order |
| RecentList.RemoveThenReAdd | client/src/components/RecentSearches.tsx:87-93 | removing entry i of a valid list and re-adding the rest yields exactly the other entries, reversed: one fewer entry, the multiset minus that entry |
| SearchSession.Initial | client/src/contexts/SearchContext.tsx:25-36 | the mounted provider's cells, the list restored from the slot (stated by `InitialSession`) |
| SearchSession.WithRecent | client/src/contexts/SearchContext.tsx:39-51 | the add on the session: list and slot together (stated by `WithRecentFacts`) |
| SearchSession.WithoutRecent | client/src/contexts/SearchContext.tsx:54-57 | the clear on the session (stated by `WithoutRecentFacts`) |
| SearchSession.Mirrored | client/src/contexts/SearchContext.tsx:48 | the in-memory list is the one a reload would restore from the slot |
| SearchSession.Launch | client/src/components/SearchBar.tsx:65-67 | the cells every search handler sets before awaiting the request |
| SearchSession.Settle | client/src/components/SearchBar.tsx:69-89 | the then/catch/finally continuation on the session (stated by `SettledViews`) |
| SearchSession.NoticeFor | client/src/components/SearchBar.tsx:73-86 | the toast of a finished search: "search failed" for a failure, "no results" for an empty delivery, none otherwise |
| SearchSession.SearchText | client/src/components/SearchBar.tsx:59-90 | the bar's search of given text, the request sent for that text (stated by `SearchTextFacts`) |
| SearchSession.SearchPicked | client/src/components/RecentSearches.tsx:18-51 | the pick of a recent entry or the word of the day (stated by `SearchPickedFacts`) |
| SearchSession.SearchRelated | client/src/components/SearchResults.tsx:71-104 | the related-term search (stated by `SearchRelatedFacts`) |
| SearchSession.ShowsLoading | client/src/components/LoadingState.tsx:7 | the loading panel renders exactly while loading |
| SearchSession.ShowsResults | client/src/components/SearchResults.tsx:13 | the results panel renders exactly when there are results |
| SearchSession.ShowsEmptyState | client/src/components/EmptyState.tsx:9 | the empty state renders exactly when searched, not loading and without results |
| SearchSession.ShowsWordOfDay | client/src/pages/Home.tsx:48 | the word of the day renders exactly before the first search |
| SearchSession.ShowsRecentSearches | client/src/components/RecentSearches.tsx:14 | the recent-search panel renders exactly when the list is non-empty |
| SearchSession.InitialSession | client/src/contexts/SearchContext.tsx:25-36 | the mounted session has an empty box, no suggestions or results, is not loading, has suggestions hidden and has not searched; the list is the slot's, or empty without one |
| SearchSession.SearchContext.constructor | client/src/contexts/SearchContext.tsx:25-36 | the provider's cells start as the initial session for the slot's contents |
| SearchSession.ReloadRestoresList | client/src/contexts/SearchContext.tsx:33-36 | a session whose list mirrors the slot is restored unchanged by a reload |
| SearchSession.WithRecentFacts | client/src/contexts/SearchContext.tsx:39-51 | a blank term changes nothing, not even the slot; otherwise the list is the added list and the slot holds exactly it; the mirror is kept and no other cell changes |
| SearchSession.WithRecentKeepsListValid | client/src/contexts/SearchContext.tsx:42-50 | adding through the context keeps the list invariant |
| SearchSession.SearchContext.AddToRecentSearches | client/src/contexts/SearchContext.tsx:39-51 | the context performs exactly that add on its list and slot |
| SearchSession.WithoutRecentFacts | client/src/contexts/SearchContext.tsx:53-57 | clearing empties the list, removes the slot, hides the recent panel, and a reload then restores nothing |
| SearchSession.SearchContext.ClearRecentSearches | client/src/contexts/SearchContext.tsx:54-57 | the context empties its list and removes the slot, nothing else |
| SearchSession.LaunchedViews | client/src/components/LoadingState.tsx:7-9 | while a search is in flight the loading panel shows, and neither the empty state nor the word of the day does |
| SearchSession.SettledViews | client/src/components/EmptyState.tsx:9-11 | after a search settles, loading has ended and exactly one of the results panel and the empty state shows; a delivery replaces the results, and the "no results" toast comes exactly with the empty state; a failure keeps the results and raises "search failed" |
| SearchSession.SearchedStaysSearched | client/src/pages/Home.tsx:48 | once a search has run, the word of the day never shows again, whatever is searched, added or cleared next |
| SearchSession.CompleteSearch | client/src/components/SearchBar.tsx:69-89 | the then/catch/finally continuation: delivered results replace the old ones, a failure keeps them, loading ends, and the toast matches how the request ended |
| SearchSession.SearchTextFacts | client/src/components/SearchBar.tsx:59-90 | blank text leaves the session alone; otherwise the text heads the recent list, suggestions are hidden, the page has searched, loading has ended, and the results are the server's answer for that text when delivered, else the earlier ones; box and suggestions are untouched; the mirror is kept |
| SearchSession.SearchPickedFacts | client/src/components/RecentSearches.tsx:18-51 | a picked term goes in the box and through the recent-list add, and is searched even when blank; the results are the answer for that term when delivered, loading ends, and the mirror is kept |
| SearchSession.SearchRelatedFacts | client/src/components/SearchResults.tsx:71-104 | a related-term search puts the term in the box, marks searched, hides suggestions and settles with the answer for that term; the recent list and the slot stay exactly as they were |
| SearchBar.BarInvariant | client/src/components/SearchBar.tsx:30-32 | the open list is non-empty, and over suggestions the highlight is -1 or one of them (kept by every handler, see `KeyPressedKeepsInvariant`, `FetchedFacts`, `PointerHandlersKeepInvariant`) |
| SearchBar.NextHighlight | client/src/components/SearchBar.tsx:113-115 | ArrowDown's move: the next index, wrapping from the last to 0 |
| SearchBar.PrevHighlight | client/src/components/SearchBar.tsx:124-126 | ArrowUp's move: the previous index, from 0 or -1 to the last |
| SearchBar.Advance | client/src/components/SearchBar.tsx:113-115 | k ArrowDown moves in a row (stated by `AdvanceCycles`) |
| SearchBar.HighlightMovesStayInRange | client/src/components/SearchBar.tsx:113-126 | from any highlight from -1 to count - 1, both arrow moves land on a suggestion |
| SearchBar.HighlightMovesAreInverse | client/src/components/SearchBar.tsx:113-126 | on a highlighted suggestion, down then up, and up then down, return to it |
| SearchBar.AdvanceCycles | client/src/components/SearchBar.tsx:113-115 | from the first suggestion, k presses of ArrowDown reach suggestion k, and count presses wrap back to the first |
| SearchBar.Typed | client/src/components/SearchBar.tsx:42-57 | the keystroke transition (stated by `TypedFacts`) |
| SearchBar.Fetched | client/src/components/SearchBar.tsx:26-40 | the suggestion-fetch transition (stated by `FetchedFacts`) |
| SearchBar.TimerFired | client/src/components/SearchBar.tsx:52-54 | the timer fetching the value it was set for (stated by `OnlyLastValueFetched`) |
| SearchBar.Searched | client/src/components/SearchBar.tsx:59-90 | `handleSearch` on the bar: the session search of the box text and its toast (stated by `SearchedFacts`) |
| SearchBar.Selected | client/src/components/SearchBar.tsx:92-99 | `handleSuggestionClick`: the box shows the suggestion and the request is sent for the old text (stated by `SelectionSearchesPreviousText`) |
| SearchBar.PressedDown | client/src/components/SearchBar.tsx:109-119 | the ArrowDown branch (stated by `ArrowDownFacts`) |
| SearchBar.PressedUp | client/src/components/SearchBar.tsx:120-127 | the ArrowUp branch (stated by `ArrowUpFacts`) |
| SearchBar.KeyPressed | client/src/components/SearchBar.tsx:101-136 | `handleKeyDown`: next state, prevented default and toast (stated by the per-key rows and `KeyPressedKeepsInvariant`) |
| SearchBar.Focused | client/src/components/SearchBar.tsx:182 | focus reopens a non-empty list |
| SearchBar.PressedElsewhere | client/src/components/SearchBar.tsx:148-157 | an outside press closes the list |
| SearchBar.Cleared | client/src/components/SearchBar.tsx:193-196 | the clear button's three setter calls |
| SearchBar.Hovered | client/src/components/SearchBar.tsx:242 | hovering a suggestion highlights it |
| SearchBar.TypedFacts | client/src/components/SearchBar.tsx:42-57 | a keystroke sets the box at once and replaces the pending fetch with one for the new value; typing the same value twice is the same as once; the invariant is kept |
| SearchBar.OnlyLastValueFetched | client/src/components/SearchBar.tsx:46-56 | of two keystrokes before the timer fires, the first leaves no trace: the bar, and the bar after the timer fires, are those of the second keystroke alone; only the second value is fetched, and no timer is left pending |
| SearchBar.FetchedFacts | client/src/components/SearchBar.tsx:26-40 | input shorter than 2 empties and closes the list; a reply replaces the list, opens it exactly when non-empty and resets the highlight to -1; a rejected request changes nothing; only the two list cells (and, on a reply, the highlight) change, and the pending timer is kept; the invariant is kept |
| SearchBar.SearchedFacts | client/src/components/SearchBar.tsx:59-90 | the bar's search: blank box text changes nothing and raises nothing; otherwise the text heads the recent list, the list is closed, the page has searched, loading has ended, and the results and the toast are those of the answer for the box text |
| SearchBar.SearchedKeepsInvariant | client/src/components/SearchBar.tsx:59-67 | the bar's search keeps the bar invariant |
| SearchBar.SelectionSearchesPreviousText | client/src/components/SearchBar.tsx:92-99 | selecting leaves the suggestion in the box and the list closed, but records the text held before and sends the request for it: the results and the toast are those of the answer for that older text; when that text was blank, nothing is recorded or searched |
| SearchBar.SelectedKeepsInvariant | client/src/components/SearchBar.tsx:92-99 | a selection keeps the bar invariant |
| SearchBar.SelectingAsthmaRecordsAst | client/src/components/SearchBar.tsx:92-98 | after typing "ast" and selecting "Asthma", the box shows "Asthma", the entry recorded is "ast", and the results shown are the answer for "ast" |
| SearchBar.ArrowDownFacts | client/src/components/SearchBar.tsx:109-119 | ArrowDown is always prevented; while open it advances the highlight circularly (last to 0) and changes nothing else; while closed over some suggestions it opens the list on 0 and changes nothing else; otherwise nothing changes |
| SearchBar.ArrowUpFacts | client/src/components/SearchBar.tsx:120-127 | ArrowUp is always prevented; while open it moves back, with 0 or -1 going to the last, leaving the session and the pending timer as they were; while closed nothing changes |
| SearchBar.EscapeFacts | client/src/components/SearchBar.tsx:128-130 | Escape closes the list and keeps every other session cell, the highlight and the pending timer |
| SearchBar.EnterFacts | client/src/components/SearchBar.tsx:102-108 | Enter with an in-range highlight selects that suggestion, open or not; otherwise it runs the bar's search |
| SearchBar.TabFacts | client/src/components/SearchBar.tsx:131-135 | Tab selects and is prevented exactly when the list is open with a highlight; otherwise nothing changes |
| SearchBar.KeyPressedKeepsInvariant | client/src/components/SearchBar.tsx:101-136 | every key keeps the bar invariant: the list is open only over suggestions, and the highlight is -1 or a suggestion |
| SearchBar.PointerHandlersKeepInvariant | client/src/components/SearchBar.tsx:182-198 | focus reopens a non-empty list, the clear button empties box and suggestions, an outside press closes the list and changes nothing else while a press inside changes nothing, and hovering a rendered suggestion highlights it; each keeps the invariant |
| SearchBar.SearchBar.constructor | client/src/components/SearchBar.tsx:23-24 | the bar starts with no highlight and no pending timer |
| SearchBar.SearchBar.InputChange | client/src/components/SearchBar.tsx:42-57 | the component performs the keystroke transition and keeps the invariant |
| SearchBar.SearchBar.FetchSuggestions | client/src/components/SearchBar.tsx:26-40 | the component performs the fetch transition and keeps the invariant |
| SearchBar.SearchBar.TimerFires | client/src/components/SearchBar.tsx:52-54 | the timer fetches the value it was set for and clears the pending slot |
| SearchBar.SearchBar.RunSearch | client/src/components/SearchBar.tsx:60-89 | the body of `handleSearch` for captured text is the session's search transition for that text, with the request sent for that text and its toast |
| SearchBar.SearchBar.HandleSearch | client/src/components/SearchBar.tsx:59-90 | the component searches the box's text and keeps the invariant |
| SearchBar.SearchBar.SuggestionClick | client/src/components/SearchBar.tsx:92-99 | the component performs the selection transition, sending the request for the previously captured text, and keeps the invariant |
| SearchBar.SearchBar.KeyDown | client/src/components/SearchBar.tsx:101-136 | the component performs the key transition, reports whether the default action was prevented, and keeps the invariant |
| SearchBar.SearchBar.Focus | client/src/components/SearchBar.tsx:182 | focusing reopens a non-empty list |
| SearchBar.SearchBar.MouseDown | client/src/components/SearchBar.tsx:148-157 | a press outside the box and the list closes it |
| SearchBar.SearchBar.ClearButton | client/src/components/SearchBar.tsx:193-198 | the clear button empties box and suggestions and closes the list |
| SearchBar.SearchBar.MouseEnter | client/src/components/SearchBar.tsx:242 | hovering a rendered suggestion highlights it |
| RecentSearches.SlotFor | client/src/components/RecentSearches.tsx:88-92 | the slot after the remove handler's last write: removed for an empty list, else holding it |
| RecentSearches.AfterRemove | client/src/components/RecentSearches.tsx:85-93 | the session after the remove button (stated by `RemoveEntryFacts`) |
| RecentSearches.Rebuilt | client/src/components/RecentSearches.tsx:90-93 | the session after re-adding the first k survivors (stepped by `ReAddNext`) |
| RecentSearches.HandleSearchClick | client/src/components/RecentSearches.tsx:18-51 | clicking an entry performs the pick transition for it: box, loading, searched, list closed, moved to the front, then the search settles |
| RecentSearches.ReAddNext | client/src/components/RecentSearches.tsx:92 | each re-add extends the rebuilt prefix by one and keeps the slot in step |
| RecentSearches.RemoveRecentAt | client/src/components/RecentSearches.tsx:85-93 | the remove button writes the survivors, clears, and re-adds them in order; the result is the rebuilt list and the slot that last write leaves |
| RecentSearches.ReAddAll | client/src/components/RecentSearches.tsx:91-93 | the forEach loop re-adds every survivor in turn |
| RecentSearches.RemoveEntryFacts | client/src/components/RecentSearches.tsx:85-93 | removing from a valid list leaves exactly the other entries, reversed and still valid, one fewer, and mirrored; removing the only entry empties the list, removes the slot and hides the panel; otherwise the slot holds the list; nothing else changes |
| SearchResults.RelatedOf | client/src/components/SearchResults.tsx:63-67 | the related-term buttons of a result; none when the field is null |
| SearchResults.RelatedClickFacts | client/src/components/SearchResults.tsx:63-104 | a related-term button is only rendered over results; clicking it sends the request for that term, whose delivered answer becomes the results, without touching the recent list or the slot; afterwards loading has ended and exactly one of results and empty state shows; a failure keeps the results shown |
| SearchResults.RelatedTermClick | client/src/components/SearchResults.tsx:71-104 | the click handler performs the related-term transition for the clicked term and returns the toast of the answer for that term |
| WordOfDay.WordOfDayWidget.constructor | client/src/components/WordOfDay.tsx:13-15 | the widget mounts loading, with no word and no error |
| WordOfDay.Loaded | client/src/components/WordOfDay.tsx:20-37 | the fetch effect on the widget (stated by `FetchFacts`) |
| WordOfDay.View | client/src/components/WordOfDay.tsx:82-101 | what the widget renders: the skeleton while loading, nothing after an error or without a word, else the card |
| WordOfDay.FetchFacts | client/src/components/WordOfDay.tsx:19-40 | the widget shows the skeleton until the fetch ends and never afterwards; a word is stored with the error cleared and shown as a card; an empty answer or an exception sets an error and nothing is shown |
| WordOfDay.WordOfDayWidget.FetchWordOfDay | client/src/components/WordOfDay.tsx:20-37 | the fetch effect performs the load transition for the answer it got |
| WordOfDay.ErrorHidesAnyWord | client/src/components/WordOfDay.tsx:99-101 | a failed fetch renders nothing, even if an earlier word was kept |
| WordOfDay.ViewDetails | client/src/components/WordOfDay.tsx:42-80 | "view details" on the session (stated by `ViewDetailsFacts`) |
| WordOfDay.ViewDetailsFacts | client/src/components/WordOfDay.tsx:42-80 | without a word nothing happens; with one, the box holds its name, the name heads the recent list (when not blank), the suggestion list is hidden and kept, the page has searched, the word of the day is hidden, loading has ended and the results are the answer for the word's name when delivered |
| WordOfDay.WordOfDayWidget.HandleViewDetails | client/src/components/WordOfDay.tsx:42-80 | the button performs that transition on the shared context and returns the toast of the answer for the word's name |

## Left out

- Express and zod plumbing, `req.ip` as a source, JSON serialization, message texts and the 500 responses of the handlers' `catch` blocks: the store operations modelled here do not throw.
- The network calls of the client's API module and `apiRequest`, which is not part of this model; each search is answered by a `Searcher` function of its query, and the other requests' endings are parameters of the handlers that await them. A `Searcher` answers the same query the same way each time, so a server whose answer changes between two requests for the same text is not modelled.
- How `apiRequest` treats non-OK statuses: a rejected request is `Failed`/`Threw`, whatever caused it.
- Timers: `setTimeout`, `clearTimeout`, the 300 ms delay and the unmount clean-up. The debounce is a pending-value slot and an explicit `TimerFires` event.
- Concurrency and async interleaving: each request completes atomically, so overlapping searches and out-of-order suggestion replies are not modelled.
- `Math.random`: the pick is an arbitrary in-range index, not floating-point arithmetic.
- Strings.Lower: lowers ASCII `A`-`Z` only, not the full Unicode mapping of `toLowerCase` (which can also change a string's length).
- `JSON.parse` of the saved slot: the slot is an `Option<seq<string>>`, the round trip through JSON is the identity, and a corrupt slot (which the code does not guard against) is not modelled.
- Routes.LimitOf: covers only an absent `limit` or a string of decimal digits; `parseInt` of other text is not modelled: a leading sign or spaces, trailing non-digits (`"5x"` gives 5, `"3.7"` gives 3), text with no leading digit (giving `NaN`), and a repeated `limit` parameter, which arrives as an array and reaches `parseInt` through `as string`; nor is `slice` with a negative bound.
- Storage.MemStorage.constructor: takes the seed as a parameter, requiring distinct ids no greater than the seed's length. `SampleSeedFits` shows that the bundled seed meets this; the seed's text fields are not reproduced.
- Storage.MemStorage.InsertMedicalTerm: a `Map` keyed by id is modelled as the sequence of its values in insertion order. Since the store invariant makes every new id fresh, `set` always appends.
- SearchBar.PointerHandlersKeepInvariant: the programmatic `focus()` at the end of the clear handler (SearchBar.tsx:197), and of a mouse-clicked suggestion (line 96), is not modelled. When the click has blurred the input, that call fires `onFocus` (line 182) with the render's stale `suggestions`. It can then reopen the list over an emptied list, the "No suggestions found" panel. `BarInvariant` is proved for the model without this focus event.
- SearchBar.SearchBar.ClearButton: models only the three setter calls; the refocus that may reopen the list is the one described in the line above.
- Storage.Suggest: `|s|` counts code points, while JavaScript's `length` counts UTF-16 code units. So a single character outside the Basic Multilingual Plane passes the source's `length < 2` guard but not the model's. The same holds for `SearchBar.Fetched` (SearchBar.tsx:28).
- Presentation: markup, focus, scrolling, toast rendering (a toast is a `Notice` value), text-to-speech, theme, header, footer, help and the mobile hook.
- SearchBar.SearchBar.MouseDown: whether the press landed outside the box and the list (the DOM `contains`/`closest` test) is a parameter.
