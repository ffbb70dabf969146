# Interview Flow: a verified model of its decks, routers and cards

Interview Flow is a Next.js application for practising interviews. It shows
three swipeable decks: questions, past interviews and study guides. This
project models, in Dafny, the parts of it that decide what the decks contain
and what the cards show:

- **The paginated routers** (`interviews.getPaginated`, `guides.getPaginated`):
  input validation, the filter, the row count, the `OFFSET`/`LIMIT` page and
  the `hasMore` flag (modules `Pagination`, `InterviewsRouter` and
  `GuidesRouter`). The database is an abstract sequence of rows, already in the
  seeded order.
- **The facet queries** (`interviews.getFilters`, `guides.getFilters`): the
  counting loops over a JavaScript `Map`, the sort, and the top-20 cut
  (modules `Tally`, `Sorting` and `Facets`).
- **The two paginated deck hooks** (`useInterviewStore`, `useGuideStore`).
  Both are the same state machine, written once as the pure transitions of
  `PagedDeck` and as the class `PagedDeck.Deck`. `InterviewStore` and
  `GuideStore` instantiate it with their filter types. `DeckServer` feeds
  the deck the pages `Pagination.GetPaginated` returns, and the two store
  modules prove that these are the router's answers to the deck's own
  requests.
- **The local question deck** (`useQuestionStore`): the in-place Fisher–Yates
  shuffle on an array, archive, skip, clearing the skipped set, and navigation
  (class `QuestionStore.QuestionDeck`). `Nav` models the clamped
  `goNext`/`goPrev` that all three hooks share.
- **The card components**:
  - `GuideCard`: the section tree, the top-level sections and nested
    rendering;
  - `TopicFilter`: topic totals, subtopics and the `__all__` option;
  - `InterviewCard`: the turns of a section, the sections present, the header
    badges and the shared open flag of the Introduction and Warm-up panels.

The code is followed wherever it departs from the intended design:

- The paginated stores have no archive or skip.
- Skipping a question removes it from the history but does not move the
  index.
- `clearSkipped` does not reshuffle, because the shuffle effect is not keyed
  on `skipped`.
- Pages are appended in arrival order, not page order (`PagedDeck.ArrivalOrder`).
- The auto-advance guard looks one page past the cursor, so it can advance
  again before the page it asked for arrives (`PagedDeck.AutoAdvanceRunsAhead`).
- `goNext` on an empty deck moves the index to -1
  (`PagedDeck.NextOnEmptyHidesFirstPage`).

## Model

| member | source | states |
|---|---|---|
| Pagination.ParseInput | src/server/routers/interviews.ts:37-45 | accepted exactly when the page is non-negative and the page size is absent or in 1..50; an absent page size becomes 10; seed, page and filter pass through |
| Pagination.Window | src/server/routers/interviews.ts:69-70 | `LIMIT`/`OFFSET`: at most `limit` rows, exactly max(0, min(limit, n - offset)) of them, row i being row offset+i |
| Pagination.Matching | src/server/routers/interviews.ts:50-57 | every kept row is a table row passing the filter, and every table row passing it is kept |
| Pagination.MatchingAll | src/server/routers/interviews.ts:57 | when every row passes (no `WHERE` clause) the whole table is kept, in order |
| Pagination.GetPaginated | src/server/routers/interviews.ts:59-79 | the total counts the matching rows (not the page); the page is the window of the matching rows that starts at page·pageSize and holds at most pageSize rows; `hasMore` exactly when page·pageSize + pageSize < total; page and pageSize are echoed |
| Pagination.GetPaginatedWindow | src/server/routers/interviews.ts:64-70 | the page has max(0, min(pageSize, total − page·pageSize)) rows, row i being matching row page·pageSize + i; an offset past the last match gives an empty page |
| Pagination.HasMoreOffset | src/server/routers/interviews.ts:78 | (page+1)·pageSize < total, the router's test, is the same as page·pageSize + pageSize < total |
| Pagination.GetPaginatedRows | src/server/routers/interviews.ts:64-70 | every returned row is a table row that passes the filter |
| Pagination.GetPaginatedHasMore | src/server/routers/interviews.ts:78 | `hasMore` holds exactly when the next page of matching rows is non-empty |
| Pagination.HasMoreIffNextPageNonEmpty | src/server/routers/guides.ts:70 | `(page + 1) * pageSize < totalCount` exactly when the next slice has a row |
| Pagination.PagesDisjoint | src/server/routers/interviews.ts:68-70 | over distinct rows in a fixed order, two different pages share no row |
| Pagination.WindowExtends | src/server/routers/interviews.ts:69-70 | the rows before an offset followed by the window are the prefix up to offset+limit |
| Pagination.PagesCover | src/server/routers/interviews.ts:68-70 | pages 0..k-1 laid end to end are exactly the first min(k·size, n) rows |
| Pagination.TwentyFiveRows | src/server/routers/interviews.ts:72-79 | an illustration: with 25 rows and pages of 10, pages 0 and 1 have more, page 2 has not and holds 5 rows |
| InterviewsRouter.Paginated | src/server/routers/interviews.ts:36-79 | rejected exactly when the input schema rejects; otherwise the page of the rows matching both filters |
| InterviewsRouter.PageRowsMatch | src/server/routers/interviews.ts:50-57 | every row on a page has the requested position if one is set and lists the requested technology if one is set |
| InterviewsRouter.NoFilterMatchesAll | src/server/routers/interviews.ts:51-57 | absent, null or empty filters select every row |
| InterviewsRouter.PositionVisits | src/server/routers/interviews.ts:96-98 | only truthy positions are counted, one each |
| InterviewsRouter.TechVisits | src/server/routers/interviews.ts:99-101 | every technology occurrence is counted once |
| InterviewsRouter.CountTechnologies | src/server/routers/interviews.ts:99-101 | the inner loop adds one per listed technology to the counter |
| InterviewsRouter.CountRows | src/server/routers/interviews.ts:92-102 | after the loop, both Maps are the counters of the visited positions and technologies, keys in first-insertion order |
| InterviewsRouter.GetFilters | src/server/routers/interviews.ts:82-114 | positions are the position counter sorted by name; technologies are the technology counter sorted by descending count and cut to 20 |
| InterviewsRouter.PositionVisitsCount | src/server/routers/interviews.ts:96-97 | a non-empty position counts as often as it occurs in the position column |
| InterviewsRouter.PositionVisitsKeys | src/server/routers/interviews.ts:96-97 | a non-empty position is a key exactly when some row has it |
| InterviewsRouter.TechVisitsCount | src/server/routers/interviews.ts:99-101 | a technology counts as often as it occurs across all rows' arrays |
| InterviewsRouter.TechVisitsKeys | src/server/routers/interviews.ts:99-101 | a technology is a key exactly when some row lists it |
| InterviewsRouter.PositionFacets | src/server/routers/interviews.ts:104-106 | one entry per distinct non-empty position, exactly those present, with the number of rows having it, in strictly ascending name order |
| InterviewsRouter.TechnologyFacets | src/server/routers/interviews.ts:108-111 | at most 20 distinct technologies that occur, each with its occurrence count, descending; every technology left out counts no more than any shown; nothing is cut when there are at most 20 |
| InterviewsRouter.DuplicateCountsTwice | src/server/routers/interviews.ts:99-100 | a technology listed twice in one row counts twice |
| GuidesRouter.Paginated | src/server/routers/guides.ts:32-72 | rejected exactly when the page is negative or the page size is outside 1..50; otherwise the page of the rows matching the stack filter, for the validated input (page size as given, or 10) |
| GuidesRouter.PageRowsMatch | src/server/routers/guides.ts:45-49 | every row on a page has the requested tech stack when one is set |
| GuidesRouter.NoFilterMatchesAll | src/server/routers/guides.ts:46-49 | an absent, null or empty tech stack selects every row |
| GuidesRouter.StackVisits | src/server/routers/guides.ts:84-88 | only truthy tech stacks are counted, one each |
| GuidesRouter.CountStacks | src/server/routers/guides.ts:83-88 | after the loop, the Map is the counter of the truthy tech stacks visited |
| GuidesRouter.GetFilters | src/server/routers/guides.ts:74-95 | the tech-stack counter's entries sorted by name |
| GuidesRouter.StackVisitsCount | src/server/routers/guides.ts:85-86 | a non-empty stack counts the rows carrying it |
| GuidesRouter.StackVisitsKeys | src/server/routers/guides.ts:85-86 | a non-empty stack is a key exactly when some row carries it |
| GuidesRouter.StackVisitsLength | src/server/routers/guides.ts:84-88 | one visit per row with a truthy tech stack |
| GuidesRouter.StackFacetNames | src/server/routers/guides.ts:90-92 | facet names are distinct, strictly ascending, and exactly the non-empty stacks present |
| GuidesRouter.StackFacetCounts | src/server/routers/guides.ts:83-92 | each facet counts (at least one) the rows carrying it; the facets add up to the number of tagged rows |
| Tally.TallyFacts | src/server/routers/interviews.ts:92-102 | the counter's keys are exactly the visited keys, each once, in first-insertion order |
| Tally.TallyEntries | src/server/routers/interviews.ts:104-105 | `[...m.entries()]` lists each visited key once, in first-insertion order, with its total weight |
| Tally.SumTally | src/components/TopicFilter.tsx:36-40 | the counter's entries add up to the total weight visited |
| Tally.TallyOnes | src/server/routers/interviews.ts:99-101 | counting a row's technologies into the Map is counting them one by one |
| Tally.DedupFacts | src/components/InterviewCard.tsx:96 | `[...new Set(xs)]` holds each element of xs once, in first-appearance order |
| Sorting.SortCorrect | src/server/routers/interviews.ts:106 | the sort result is ordered by the comparator and is a permutation of its input |
| Sorting.SortedByKeyStrict | src/server/routers/guides.ts:92 | sorted by name with distinct names means strictly ascending |
| Sorting.SumWeightsSort | src/components/TopicFilter.tsx:40-42 | sorting keeps the total count |
| Sorting.SortKeepsDistinctKeys | src/server/routers/interviews.ts:104-106 | sorting keeps the keys distinct |
| Facets.Truncate | src/server/routers/interviews.ts:111 | `slice(0, n)`: the first min(n, length) entries |
| Facets.FacetListFacts | src/server/routers/interviews.ts:104-111 | the facet list has one entry per distinct key, exactly the visited keys, each with its total, sorted by the comparator, with the same sum |
| Facets.FacetListByKeyAscending | src/server/routers/guides.ts:90-92 | a facet list sorted by name is strictly ascending |
| Facets.TruncateKeepsHeaviest | src/server/routers/interviews.ts:108-111 | cutting a descending list keeps it distinct and descending, and nothing cut off outweighs anything kept |
| Nav.NextIndex | src/hooks/useInterviewStore.ts:118-120 | `Math.min(i + 1, len - 1)`: one step forward or the last position, and -1 on an empty list |
| Nav.PrevIndex | src/hooks/useInterviewStore.ts:122-124 | `Math.max(i - 1, 0)`: one step back or 0, never negative |
| Nav.StepsKeepRange | src/hooks/useQuestionStore.ts:48-54 | both steps keep the index in its reachable range |
| Nav.GrowKeepsRange | src/hooks/useInterviewStore.ts:72-75 | a longer list keeps every reachable index reachable |
| Nav.PrevUndoesNext | src/hooks/useGuideStore.ts:102-108 | inside the list, going back undoes going forward |
| Nav.NextStallsIffLast | src/hooks/useQuestionStore.ts:84 | `isLast` holds exactly when `goNext` cannot move on |
| PagedDeck.Initial | src/hooks/useInterviewStore.ts:24-31 | on mount nothing is loaded, index and page are 0, the count is 0 and `hasMore` is true |
| PagedDeck.AfterFilterChange | src/hooks/useInterviewStore.ts:36-50 | a filter different by value resets everything but the seed; an equal filter changes nothing |
| PagedDeck.AfterMerge | src/hooks/useInterviewStore.ts:66-78 | nothing changes unless the payload is an array for a page not yet loaded; then its rows are appended, the page recorded, count and `hasMore` copied, and nothing else changes |
| PagedDeck.AfterAutoAdvance | src/hooks/useInterviewStore.ts:107-116 | the page cursor moves by one exactly when more pages exist, the list is non-empty, the index is at its end and the next page is not loaded; nothing else changes |
| PagedDeck.PrefetchRequest | src/hooks/useInterviewStore.ts:82-105 | a prefetch of the next page, with the deck's seed, filter and page size 10, exactly when more pages exist, at most three items remain and that page is not loaded |
| PagedDeck.PageQuery | src/hooks/useInterviewStore.ts:52-64 | the query runs exactly while the cursor's page is not loaded, asking for that page with size 10 |
| PagedDeck.AfterNext | src/hooks/useInterviewStore.ts:118-120 | only the index changes, by `NextIndex` |
| PagedDeck.AfterPrev | src/hooks/useInterviewStore.ts:122-124 | only the index changes, by `PrevIndex` |
| PagedDeck.CurrentItem | src/hooks/useInterviewStore.ts:80 | an item exactly when the index is inside the loaded list, and then the item at the index |
| PagedDeck.InvShowsItem | src/hooks/useInterviewStore.ts:80 | under the invariant, a deck with items shows the item at the index whenever the index is not -1 |
| PagedDeck.TransitionsKeepInv | src/hooks/useInterviewStore.ts:36-124 | every effect and callback keeps the index at -1, 0 or inside the list |
| PagedDeck.FilterChangeIdempotent | src/hooks/useGuideStore.ts:34-47 | a repeated filter event is a no-op |
| PagedDeck.MergeIdempotent | src/hooks/useInterviewStore.ts:69-71 | merging the same response twice is merging it once |
| PagedDeck.MergeAllAppendOnly | src/hooks/useGuideStore.ts:62-71 | any run of merges only appends items and pages, keeps the invariant and never moves the cursors, seed or filter |
| PagedDeck.ArrivalOrder | src/hooks/useInterviewStore.ts:72-75 | page 1 arriving before page 0 puts page 1's rows first |
| PagedDeck.AdvanceImpliesPrefetch | src/hooks/useInterviewStore.ts:82-116 | whenever auto-advance is due, the prefetch effect asks for the page it advances to |
| PagedDeck.AutoAdvanceRunsAhead | src/hooks/useInterviewStore.ts:107-116 | re-running auto-advance before a merge moves the cursor two pages ahead |
| PagedDeck.EndOfDeck | src/hooks/useInterviewStore.ts:118-128 | at the last item with no more pages, `goNext` stays, nothing is fetched and `isLast` holds |
| PagedDeck.NextOnEmptyHidesFirstPage | src/hooks/useInterviewStore.ts:118-120 | `goNext` before the first page arrives leaves the index at -1, so items are loaded but none is shown |
| PagedDeck.ResetState | src/hooks/useInterviewStore.ts:42-49 | after a reset the deck is first, shows nothing, reports loading while the query runs, and queries page 0 |
| PagedDeck.Deck.constructor | src/hooks/useInterviewStore.ts:24-31 | the deck starts in the initial state for its seed and filter |
| PagedDeck.Deck.OnFilterChange | src/hooks/useInterviewStore.ts:36-50 | the fields become `AfterFilterChange` of the old state |
| PagedDeck.Deck.MergeResponse | src/hooks/useInterviewStore.ts:66-78 | the fields become `AfterMerge` of the old state |
| PagedDeck.Deck.AutoAdvance | src/hooks/useInterviewStore.ts:107-116 | the fields become `AfterAutoAdvance` of the old state |
| PagedDeck.Deck.Prefetch | src/hooks/useInterviewStore.ts:82-105 | the request issued is `PrefetchRequest` of the state |
| PagedDeck.Deck.GoNext | src/hooks/useInterviewStore.ts:118-120 | the fields become `AfterNext` of the old state |
| PagedDeck.Deck.GoPrev | src/hooks/useInterviewStore.ts:122-124 | the fields become `AfterPrev` of the old state |
| DeckServer.ServerResponse | src/server/routers/interviews.ts:64-79 | the router's answer to the deck's request for page p, built from `GetPaginated`: the p-th slice of ten of the matching rows, their number, and `hasMore` exactly when (p+1)·10 < that number |
| DeckServer.Responses | src/hooks/useInterviewStore.ts:52-78 | the router's answers for pages 0..k-1, answer i being the one for page i |
| DeckServer.MergeAllSnoc | src/hooks/useGuideStore.ts:62-71 | merging one more response after a run of merges |
| DeckServer.InOrderArrival | src/hooks/useInterviewStore.ts:66-78 | the router's pages 0..k-1 arriving in order on a fresh deck leave the first min(10k, n) rows matching the filter in server order, pages 0..k-1 loaded, the router's count and the last page's `hasMore` |
| DeckServer.AllRowsOnceExhausted | src/hooks/useInterviewStore.ts:66-78 | once the router's last page says there is no more, the deck holds exactly the rows matching the filter, each once, in server order |
| InterviewStore.FilterResetIffFieldChanged | src/hooks/useInterviewStore.ts:36-50 | a change in position or technology resets the deck, equal fields change nothing, and "" differs from absent |
| InterviewStore.RequestsAccepted | src/hooks/useInterviewStore.ts:52-64 | every query and prefetch the deck sends passes the router's input schema with the deck's page and filter |
| InterviewStore.RequestsServed | src/hooks/useInterviewStore.ts:52-94 | the interviews router answers the deck's query with `ServerResponse` for the cursor's page and its prefetch with the one for the next page |
| GuideStore.FilterResetIffStackChanged | src/hooks/useGuideStore.ts:34-47 | a different tech stack resets the deck; the same one changes nothing |
| GuideStore.RequestsAccepted | src/hooks/useGuideStore.ts:49-60 | every query and prefetch the deck sends passes the router's input schema with the deck's page and filter |
| GuideStore.RequestsServed | src/hooks/useGuideStore.ts:49-87 | the guides router answers the deck's query with `ServerResponse` for the cursor's page and its prefetch with the one for the next page |
| QuestionStore.Swap | src/hooks/useQuestionStore.ts:26 | the destructuring swap exchanges positions i and j and leaves the rest |
| QuestionStore.SwapPermutation | src/hooks/useQuestionStore.ts:26 | a swap loses no element |
| QuestionStore.ShuffleFromPermutation | src/hooks/useQuestionStore.ts:22-29 | whatever the random choices, the remaining steps of the shuffle give a permutation of the same length |
| QuestionStore.ShuffledPermutation | src/hooks/useQuestionStore.ts:22-29 | the shuffle is a permutation of its input |
| QuestionStore.ShuffleFromIdentity | src/hooks/useQuestionStore.ts:25-26 | when every choice picks its own position, the shuffle changes nothing |
| QuestionStore.Shuffle | src/hooks/useQuestionStore.ts:22-29 | returns a fresh array, leaves the input untouched, holds the Fisher–Yates result for the given choices, which is a permutation of the input |
| QuestionStore.AvailableCount | src/hooks/useQuestionStore.ts:39-41 | a question is available as often as it is listed, unless its id is archived or skipped, and then never |
| QuestionStore.ArchiveIdempotent | src/hooks/useQuestionStore.ts:56-63 | archiving an id twice is archiving it once |
| QuestionStore.ArchivedCountStep | src/hooks/useQuestionStore.ts:58-59 | `archivedCount` grows by one exactly when the id was not archived yet |
| QuestionStore.RemoveIdCount | src/hooks/useQuestionStore.ts:73 | skipping drops every copy of the skipped id and keeps every other question as often as before |
| QuestionStore.RemoveIdKeepsOrder | src/hooks/useQuestionStore.ts:73 | the remaining questions keep their relative order |
| QuestionStore.RemoveAbsentId | src/hooks/useQuestionStore.ts:73 | skipping an id not in the history leaves it unchanged |
| QuestionStore.WithinAvailableMembers | src/hooks/useQuestionStore.ts:38-44 | a history drawn from the available questions holds no archived or skipped question |
| QuestionStore.WithinAvailableLength | src/hooks/useQuestionStore.ts:82 | such a history is no longer than the available list |
| QuestionStore.SkipKeepsWithin | src/hooks/useQuestionStore.ts:65-74 | skipping keeps the history within the available questions |
| QuestionStore.ClearKeepsWithin | src/hooks/useQuestionStore.ts:76-79 | clearing the skipped set keeps the history within the available questions |
| QuestionStore.QuestionDeck.constructor | src/hooks/useQuestionStore.ts:32-35 | the loaded sets, an empty history and index 0 |
| QuestionStore.QuestionDeck.Rederive | src/hooks/useQuestionStore.ts:38-44 | the history becomes the shuffle of the available questions, a permutation of them; the index becomes 0; the sets stay |
| QuestionStore.QuestionDeck.ArchiveQuestion | src/hooks/useQuestionStore.ts:56-63 | the id joins `archived` (its size grows by one unless already present), `skipped` stays, and the history is re-derived with index 0 |
| QuestionStore.QuestionDeck.SkipQuestion | src/hooks/useQuestionStore.ts:65-74 | the id joins `skipped`, its questions leave the history, the rest stays and the index does not move |
| QuestionStore.QuestionDeck.ClearSkipped | src/hooks/useQuestionStore.ts:76-79 | `skipped` becomes empty; history, index and `archived` stay |
| QuestionStore.QuestionDeck.GoNext | src/hooks/useQuestionStore.ts:48-50 | only the index changes, clamped to the last question |
| QuestionStore.QuestionDeck.GoPrev | src/hooks/useQuestionStore.ts:52-54 | only the index changes, clamped at 0 |
| QuestionStore.QuestionDeck.Current | src/hooks/useQuestionStore.ts:46 | a question exactly when the index is inside the history, and then an available one that is neither archived nor skipped |
| QuestionStore.QuestionDeck.TotalAvailable | src/hooks/useQuestionStore.ts:82 | the history's length, never more than the available questions |
| QuestionStore.QuestionDeck.IsFirst | src/hooks/useQuestionStore.ts:83 | exactly when `goPrev` cannot move back |
| QuestionStore.QuestionDeck.IsLast | src/hooks/useQuestionStore.ts:84 | exactly when `goNext` cannot move forward |
| GuideCard.ParentId | src/components/GuideCard.tsx:79-81 | a parent exactly when the id has a `.`; it is the prefix before the last `.` |
| GuideCard.BuildSectionTree | src/components/GuideCard.tsx:73-91 | the loop's map is the tree of all sections visited in order |
| GuideCard.TreeChildren | src/components/GuideCard.tsx:78-88 | the list under a key holds exactly the sections whose parent id is that key, in input order; the empty key holds none |
| GuideCard.ExactlyOneList | src/components/GuideCard.tsx:83-87 | a section with a truthy parent id is in exactly one list, its parent's |
| GuideCard.DroppedSections | src/components/GuideCard.tsx:79-83 | a section without a `.`, or whose only `.` is the first character, is in no list |
| GuideCard.ChildrenExtendKey | src/components/GuideCard.tsx:79-86 | a child under k is a section whose id is k, a `.`, then a suffix without `.` |
| GuideCard.LevelSectionsEmpty | src/components/GuideCard.tsx:117-121 | a level list is empty exactly when no section has that level |
| GuideCard.TopLevelSections | src/components/GuideCard.tsx:124-129 | level 1 if any section has it, else level 2 if any, else level 3; always sections of the guide |
| GuideCard.SectionItem | src/components/GuideCard.tsx:37-58 | open at first exactly at depth 0, indented 12 pixels per level, content 24 pixels more, content shown exactly when longer than 50 characters |
| GuideCard.RenderSection | src/components/GuideCard.tsx:131-142 | a section's item at its depth, then one rendered child per tree child, in tree order, one level deeper |
| GuideCard.RenderContents | src/components/GuideCard.tsx:251-253 | one rendering per top-level section, at depth 0, hence open |
| TopicFilter.NothingToRender | src/components/TopicFilter.tsx:33-53 | nothing renders exactly when the prop is not an array or is an empty one |
| TopicFilter.TopicCounts | src/components/TopicFilter.tsx:37-39 | the loop visits each row's (topic, count), in order |
| TopicFilter.UniqueTopics | src/components/TopicFilter.tsx:35-43 | the summed topic counter's entries, sorted by topic |
| TopicFilter.TopicCountsTotal | src/components/TopicFilter.tsx:38 | summing per topic agrees with adding up that topic's rows |
| TopicFilter.UniqueTopicsFacts | src/components/TopicFilter.tsx:35-43 | topics are listed once each, exactly those of the rows, strictly ascending, each with the sum of its rows' counts |
| TopicFilter.AllTopicsTotal | src/components/TopicFilter.tsx:66 | the "All topics" option shows the sum of every input count |
| TopicFilter.Subtopics | src/components/TopicFilter.tsx:45-51 | nothing while no truthy topic is selected; otherwise a sorted permutation of the selected topic's rows that have a subtopic |
| TopicFilter.SubtopicRowsMembers | src/components/TopicFilter.tsx:47-49 | a (subtopic, count) pair is listed exactly when some row of the topic has it |
| TopicFilter.SubtopicsOfTopic | src/components/TopicFilter.tsx:45-51 | with a topic selected, the subtopic select lists exactly that topic's rows that have a subtopic |
| TopicFilter.ToSelectValue | src/components/TopicFilter.tsx:58 | no selection shows `__all__`; a selection shows itself |
| TopicFilter.FromSelectValue | src/components/TopicFilter.tsx:59 | `__all__` clears the selection; any other value selects itself |
| TopicFilter.SelectionRoundTrip | src/components/TopicFilter.tsx:58-59 | picking the shown value gives back the selection, unless it is literally `__all__` |
| TopicFilter.ValueRoundTrip | src/components/TopicFilter.tsx:78-81 | showing the selection a value produces gives back that value |
| InterviewCard.TurnSectionFacts | src/components/InterviewCard.tsx:34-35 | nothing renders exactly when no turn has the section; otherwise every turn of the section, as often as it occurs, and no other |
| InterviewCard.TurnSectionOrder | src/components/InterviewCard.tsx:34 | the shown turns keep the conversation's order |
| InterviewCard.SectionColumn | src/components/InterviewCard.tsx:96 | the section of every turn, in order |
| InterviewCard.SectionsFacts | src/components/InterviewCard.tsx:96 | each section once, exactly those some turn has, in order of first turn |
| InterviewCard.PanelShownIffTurns | src/components/InterviewCard.tsx:207-221 | a panel is shown exactly when its `TurnSection` has turns |
| InterviewCard.HeaderOf | src/components/InterviewCard.tsx:112-128 | the first min(4, n) technologies as badges, a `+k` badge exactly when n > 4 with badges plus k equal to n, and the counter `index + 1 / total` |
| InterviewCard.SpeakerLabel | src/components/InterviewCard.tsx:56 | "Interviewer" exactly for the interviewer, "You" otherwise |
| InterviewCard.InitialFlags | src/components/InterviewCard.tsx:81-85 | only the context panel starts open |
| InterviewCard.SetOpen | src/components/InterviewCard.tsx:207-293 | the toggled panel ends up in the requested state |
| InterviewCard.SetOpenEffect | src/components/InterviewCard.tsx:208-230 | Introduction and Warm-up always agree and move together; every other panel keeps its state |

## Left out

- The database is not modelled: Drizzle, PostgreSQL and the
  `md5(id || seed)` ordering. Rows are an abstract sequence already in the
  seeded order, and the filter is a predicate on a row.
- The `getAll` and `getById` procedures and the whole questions router are
  not modelled. `_app.ts` mounts only the questions router; that wiring is
  not part of this model.
- Where the seed comes from is not modelled. `getSessionSeed` reads
  `sessionStorage` or calls `Math.random`; here the seed is a constructor
  parameter.
- `Math.random` in `shuffle` is replaced by caller-supplied choices
  `picks[i]` in 0..i. Every property is proved for all choices; the
  distribution is not modelled.
- `localStorage` (`loadSet` and `saveSet`) is not modelled. The loaded sets
  are constructor parameters, and writes are omitted.
- React Query and tRPC are not modelled: caching, `staleTime`, retries, the
  network and concurrency. A query or prefetch is a returned request, and a
  resolved response is an input to `MergeResponse`.
- React scheduling is not modelled. Effects and callbacks are separate
  transitions that the caller applies in any order.
- QuestionStore.QuestionDeck.ArchiveQuestion re-derives the history at
  once. The render in between, with the new `archived` and the old history,
  is not modelled.
- GuideCard.BuildSectionTree holds the children lists as map values. The
  aliasing of the array pushed into the `Map` is not modelled; it is
  unobservable here, because every key's list is re-set after the push.
- `localeCompare` is locale-dependent, so it is not modelled. Names are
  compared lexicographically by character code (`Strings.Less`).
- String length is a count of characters, not of UTF-16 code units.
- Rendering is not modelled: markup, styling, animation, swipe gestures,
  markdown and date formatting. The components are modelled only through
  the values that decide what they show.
- The filter components (`GuideFilter`, `InterviewFilter`), the pages and
  the navigation bars are not modelled. They only pass values to the
  modelled hooks and components.
- Mock data and the type declarations are not modelled, beyond the fields
  the modelled code reads.
- A NULL `technologies` column is not modelled. It becomes the empty
  sequence, as `row.technologies || []` reads it.
