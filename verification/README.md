# Top 10: a Dafny model of the party game's core logic

Top 10 is a party trivia game. A judge picks a "top ten" list from a category. The
other players guess its entries and score points. The game runs as a Next.js web
application backed by a Supabase database, and a Python scraper fills the lists.

This project models the decision logic of the game's core screens and of the scraper's
pure fragments as Dafny functions, methods and lemmas:

- **Roster** (`app/private/page.tsx`): editing the player roster, choosing the single
  judge, the three form checks in their order, and the rows that `startGame` inserts
  for the group, players, first round and round players, with the session it stores.
- **CategoryBrowser** (`app/private/categories/page.tsx`): the category carousel with
  bounded next/previous moves, the swipe classifier, and the
  category → lists → confirmation screen stack with its back button. It also covers
  resolving the round id, and the confirmation that navigates even when the update fails.
- **Admin** (`app/private/admin/page.tsx`): create, update and delete for categories,
  lists and items, with the database writes each handler issues and the local state it
  keeps. It also covers the ten-item list template, merging fetched items, the
  save-all loop that stops at the first failure, and the expand toggles.
- **ScrapeConfig** (`app/private/scrape/page.tsx`): formatting the list query rows, the
  configuration export, and the item import. The import groups items by list, then
  select/delete/insert per list with success and error counts.
- **Scores** (`components/ScoresPanel.tsx`): the stable sort by descending score, the
  trophy for the first row, and the judge's crown.
- **Login** (`app/login/page.tsx`, `app/login/actions.ts`): the `login` and `signup`
  server actions, and the page's submit handler, banner, password hint and mode switch.
- **Scraper** (`top10Scraper.py`):
  - normalising the extracted items (first ten, rank/name defaults, the detail string);
  - cleaning the matched source URL and the `http` check;
  - loading the topics file;
  - the Markdown document content.

Every database, authentication or agent reply is a parameter of the function that
consumes it. Browser storage, the router and the clock are replaced by the values
they would supply (`Option` parameters) or by the effects they would receive (result
fields). `Wrappers`, `Seqs` and `Text` hold shared helpers:
- `Option` and `Reply`;
- order-preserving `Filter` and distinctness;
- JavaScript `trim`/`toLowerCase`/`includes`, and Python `strip`/`rstrip`/`title`/`str`
  on integers.

## Model

| member | source | states |
|---|---|---|
| Seqs.FilterIsKeptSubsequence | app/private/admin/page.tsx:159 | `filter` returns the input read at the increasing positions of exactly the accepted elements: each accepted element once, in order |
| Roster.AddPlayer | app/private/page.tsx:40-42 | appends one blank non-judge row and keeps every earlier row; at most one judge stays at most one |
| Roster.RemovePlayer | app/private/page.tsx:45-57 | the last remaining row is never removed; otherwise `splice` semantics (negative index counts from the end, an index past the end throws) remove exactly one row, and removing the judge clears every judge flag |
| Roster.UpdatePlayerName | app/private/page.tsx:60-64 | renames exactly the row at the index and changes nothing else; an index out of range throws |
| Roster.SetJudge | app/private/page.tsx:67-74 | after choosing, exactly the chosen row is the judge and every name is unchanged |
| Roster.SetJudgeExactlyOne | app/private/page.tsx:67-74 | choosing an existing row leaves exactly one judge, that row |
| Roster.EditsKeepRosterInvariant | app/private/page.tsx:40-74 | any sequence of roster edits keeps at least one row and at most one judge |
| Roster.ReachableRostersHaveAtMostOneJudge | app/private/page.tsx:40-74 | every roster reachable from the initial single blank row has at most one judge |
| Roster.DuplicateNamesIffKeysRepeat | app/private/page.tsx:91-95 | the `Set` size test detects exactly the rosters with two names equal after trimming and lower-casing |
| Roster.ValidateForm | app/private/page.tsx:77-98 | blank names are reported first, then a missing judge, then duplicate names, each exactly when the earlier checks pass; the form is valid iff none applies |
| Roster.FindJudgeIndex | app/private/page.tsx:138-139 | -1 iff nobody is the judge, otherwise the first judge row |
| Roster.FirstRoundRow | app/private/page.tsx:138-153 | round 1, status setup, in the new group, judged by the created player at the first judge row's form position; absent exactly when that position has no created player |
| Roster.RoundPlayerRows | app/private/page.tsx:158-169 | one row per created player, in order, each in the new round, with draft position its index plus one and score 0 |
| Roster.RoundPlayerRowsDraftOrder | app/private/page.tsx:158-169 | the draft positions are exactly 1, 2, …, n in roster order (so none repeats) and every score starts at 0 |
| Roster.CreatedGameWrites | app/private/page.tsx:106-177 | a game starts exactly when all four inserts succeed and the judge's row has an inserted player; it then issued exactly the group, players, round and round-player inserts, and stored the group, the round, the judge comparison and the categories route |
| Roster.CreateGame | app/private/page.tsx:106-182 | creating a game fails at the first failing step with that step's message and exactly the writes issued up to it (group; players; a judge with no created player; round; round players), and otherwise starts |
| Roster.StartGame | app/private/page.tsx:101-186 | an invalid form is rejected with its first error; with a valid form and no user nothing is written; otherwise the game creation runs |
| Roster.InvalidFormWritesNothing | app/private/page.tsx:101-104 | an invalid form never reaches the database |
| CategoryBrowser.NextCategory | app/private/categories/page.tsx:118-125 | moves one category forward and closes every panel unless already at the last one; the cursor never leaves the list |
| CategoryBrowser.PreviousCategory | app/private/categories/page.tsx:127-134 | moves one category back and closes every panel unless at the first one; the cursor never leaves the list |
| CategoryBrowser.NextThenPreviousReturns | app/private/categories/page.tsx:118-134 | away from the end, next then previous returns to the same category with the panels closed |
| CategoryBrowser.MovesAtTheEndsAreNoOps | app/private/categories/page.tsx:118-134 | next at the last category and previous at the first change nothing |
| CategoryBrowser.ClassifySwipe | app/private/categories/page.tsx:102-115 | on real-valued coordinates, a leftward travel of more than 50 pixels means next, a rightward one previous, and a missing or zero coordinate means nothing |
| CategoryBrowser.SwipeIsSymmetric | app/private/categories/page.tsx:102-115 | reversing a swipe turns next into previous and back |
| CategoryBrowser.TouchEnd | app/private/categories/page.tsx:102-115 | a swipe to the left moves to the next category, one to the right to the previous, and any other gesture leaves the page unchanged |
| CategoryBrowser.LongSwipesNavigate | app/private/categories/page.tsx:93-115 | a touch started and moved at non-zero coordinates more than 50 pixels left navigates to the next category, more than 50 right to the previous |
| CategoryBrowser.ShortTouchesDoNotNavigate | app/private/categories/page.tsx:93-115 | a tap, or a move of at most 50 pixels, never changes the category |
| CategoryBrowser.SelectCategory | app/private/categories/page.tsx:136-157 | with a current category and a successful fetch the lists screen opens with the fetched lists; otherwise nothing changes |
| CategoryBrowser.SelectList | app/private/categories/page.tsx:159-162 | selecting a list opens its confirmation and keeps the cursor, the categories, the open lists and the round id |
| CategoryBrowser.Back | app/private/categories/page.tsx:187-194 | back closes the confirmation (dropping the selection) before the lists, and does nothing on the category screen |
| CategoryBrowser.BackPopsOneScreen | app/private/categories/page.tsx:187-194 | back moves exactly one screen up the stack and keeps the page well formed |
| CategoryBrowser.RunKeepsWellFormed | app/private/categories/page.tsx:118-194 | any sequence of navigation actions keeps the cursor in range and the screens consistent, and never changes the categories |
| CategoryBrowser.ResolveRoundId | app/private/categories/page.tsx:60-69 | the query parameter wins when non-empty, then the stored id when non-empty; there is no round id iff both are missing or empty |
| CategoryBrowser.Load | app/private/categories/page.tsx:48-90 | after loading, the cursor is at the first category with nothing open, the categories are those fetched or none, and the round id is the query parameter when non-empty, else the stored one |
| CategoryBrowser.ConfirmSelection | app/private/categories/page.tsx:164-185 | nothing happens without a selected list and a non-empty round id; otherwise the play route for that list and round opens |
| CategoryBrowser.ConfirmIgnoresUpdateResult | app/private/categories/page.tsx:164-185 | the route opened does not depend on whether the round update failed |
| Admin.NullIfEmpty | app/private/admin/page.tsx:191 | an empty or missing optional text is written as null and any other text unchanged |
| Admin.NullIfZero | app/private/admin/page.tsx:291 | a missing or zero year is written as null and any other year unchanged |
| Admin.EmptyListItems | app/private/admin/page.tsx:82-90 | ten nameless items of the list without details or statistic, ranked 1 to 10 in order |
| Admin.EmptyListItemsRanks | app/private/admin/page.tsx:82-90 | the template's ranks are exactly 1 to 10, each once |
| Admin.MergeFetched | app/private/admin/page.tsx:157-162 | the fetched items come last; before them stand exactly the earlier items of other lists |
| Admin.MergeFetchedKeepsOthersInOrder | app/private/admin/page.tsx:157-162 | the part before the fetched items is the earlier items read at the increasing positions of the items of other lists: each kept once, in order |
| Admin.MergeFetchedIdempotent | app/private/admin/page.tsx:157-162 | fetching the same items of a list twice gives the same state as once |
| Admin.FetchListItems | app/private/admin/page.tsx:145-165 | an error only sets the failure banner; a success replaces the list's items and keeps the rest |
| Admin.ApplyFieldEdit | app/private/admin/page.tsx:475-482 | the edited field takes the new value and every other field keeps its value |
| Admin.EditItem | app/private/admin/page.tsx:475-482 | only the items with the edited id change, by that field edit |
| Admin.ReplaceByIdChangesOne | app/private/admin/page.tsx:234 | with distinct ids, replacing by id changes exactly the matching element, or nothing when no id matches |
| Admin.CreateCategory | app/private/admin/page.tsx:180-208 | without a name and an icon nothing is written; otherwise one insert with an empty description as null, and the returned row is appended on success |
| Admin.UpdateCategory | app/private/admin/page.tsx:211-240 | without an edited category with a name and an icon nothing is written; otherwise one update, and on success the returned row replaces the one with its id |
| Admin.ListsOf | app/private/admin/page.tsx:262 | exactly the lists of the category |
| Admin.CascadeAsWrittenKeepsLastFilter | app/private/admin/page.tsx:266-268 | the item loop as written leaves only the last list's filter of the snapshot in effect |
| Admin.CascadeAsWrittenLeavesOrphans | app/private/admin/page.tsx:266-268 | a category with two lists keeps the first list's items locally after deletion |
| Admin.CascadeItems | app/private/admin/page.tsx:261-268 | removes exactly the items of every list of the category and keeps all others |
| Admin.DeleteCategory | app/private/admin/page.tsx:243-271 | an unconfirmed delete does nothing; a confirmed one issues one delete; on success the category, its lists and all their items leave the local state, and every other category, list and item stays, the items being the corrected cascade |
| Admin.DeleteCategoryAsWritten | app/private/admin/page.tsx:243-271 | the handler as written issues the same write and state as the corrected one except for the items, which follow the loop as written |
| Admin.CreateList | app/private/admin/page.tsx:276-322 | without a title and a category nothing is written; otherwise the list insert with empty fields and a zero year as null, then on success the ten-item template insert; the success banner ends up shown even when the template insert failed |
| Admin.UpdateList | app/private/admin/page.tsx:325-357 | without an edited list with a title nothing is written; otherwise one update, and on success the returned row replaces the one with its id |
| Admin.DeleteList | app/private/admin/page.tsx:360-382 | an unconfirmed delete does nothing; a confirmed one issues one delete and on success drops the list and exactly its items |
| Admin.DeleteListRemovesExactlyItsItems | app/private/admin/page.tsx:376-379 | after deleting a list no item of it remains and every item of another list does |
| Admin.UpdateListItem | app/private/admin/page.tsx:387-414 | a nameless item is refused with no write; otherwise one update, and on success the returned row replaces the one with its id |
| Admin.SaveAllListItems | app/private/admin/page.tsx:417-449 | a nameless item in the list refuses the whole save with no write; otherwise the items are updated in order, stopping at the first failure, whose rank and error the banner shows; success iff every update succeeded |
| Admin.SaveBatch | app/private/admin/page.tsx:428-449 | the writes are the batch's updates in order up to and including the first failing one |
| Admin.Toggle | app/private/admin/page.tsx:452-466 | toggling the open id closes it; toggling any other id opens that one |
| Admin.ToggleTwiceRestores | app/private/admin/page.tsx:452-466 | from closed, or from that id open, toggling twice restores the state |
| Admin.ToggleList | app/private/admin/page.tsx:461-472 | a list's items are fetched exactly when it is being opened and none are loaded |
| ScrapeConfig.ItemCount | app/private/scrape/page.tsx:111 | the first count of the join, or 0 when there is none |
| ScrapeConfig.CategoryName | app/private/scrape/page.tsx:108-110 | the joined category's name, the first one for an array join, none for a missing join or an empty array |
| ScrapeConfig.ExportConfig | app/private/scrape/page.tsx:122-129 | one record per list in order, with the list's id, title and URL, the category or the empty string, and a positive item count as `has_items` |
| ScrapeConfig.ExportHasItemsIffPositiveCount | app/private/scrape/page.tsx:104-129 | a formatted and exported list has items iff the query's first count is positive |
| ScrapeConfig.GroupByListPartitions | app/private/scrape/page.tsx:170-177 | the grouping puts every item in its list's group, in file order, and lists each list id once |
| ScrapeConfig.GroupOrderIsDistinctListIds | app/private/scrape/page.tsx:170-177 | the groups processed are exactly the distinct list ids of the file |
| ScrapeConfig.GroupOrderIsFirstAppearance | app/private/scrape/page.tsx:170-177 | every list id in the order occurs in the file, and of two list ids the earlier in the order first occurs earlier in the file |
| ScrapeConfig.GroupEffects | app/private/scrape/page.tsx:186-202 | each list is looked up first, its old items are deleted iff some exist, and the insert comes last when the lookup answered; a thrown lookup issues one call, otherwise two, or three with the delete |
| ScrapeConfig.KeysWhereSplit | app/private/scrape/page.tsx:180-214 | the successful and the failed lists partition the distinct list ids |
| ScrapeConfig.NoFailuresIffAllImported | app/private/scrape/page.tsx:216-217 | no failed list iff every list's insert succeeded |
| ScrapeConfig.ProcessGroups | app/private/scrape/page.tsx:183-214 | the calls are each group's calls in order, and the counts are the numbers of lists whose import succeeded and failed |
| ScrapeConfig.ImportListItems | app/private/scrape/page.tsx:142-229 | an unreadable or unparsable file and a non-array report their messages with no call; otherwise one count per distinct list, success iff every list imported, and the tally message; the calls issued are those of each group in turn, in the grouping's order |
| Scores.SortByScore | components/ScoresPanel.tsx:109-110 | the ranking holds the same players |
| Scores.InsertPermutes | components/ScoresPanel.tsx:109-110 | one insertion step adds the player and loses nobody |
| Scores.InsertSorted | components/ScoresPanel.tsx:109-110 | inserting into a descending ranking keeps it descending |
| Scores.SortByScoreSorted | components/ScoresPanel.tsx:109-110 | scores never increase from one row to the next |
| Scores.InsertKeepsTies | components/ScoresPanel.tsx:109-110 | among the players of one score, the inserted player comes before the rest, whose order is kept |
| Scores.SortByScoreStable | components/ScoresPanel.tsx:109-110 | players with equal scores keep their input order |
| Scores.MaxScore | components/ScoresPanel.tsx:109-110 | the highest score held by a player |
| Scores.FirstRowIsFirstTopScorer | components/ScoresPanel.tsx:109-118 | the first row is the earliest player, in input order, with the highest score |
| Scores.TrophyOnlyOnFirstRow | components/ScoresPanel.tsx:117-147 | only the first row can show the trophy and it then has the leader's style; the crown is shown exactly on judge rows |
| Scores.TrophyGoesToFirstTopScorer | components/ScoresPanel.tsx:109-142 | the trophy is shown iff the earliest top scorer has a positive score and is not the judge |
| Scores.ScoreRowsRankPlayers | components/ScoresPanel.tsx:109-111 | every player gets exactly one row and a lower score never comes first |
| Login.LoginAction | app/login/actions.ts:7-30 | the service is called iff both fields are non-empty; an error is handed back unchanged; success redirects to /private |
| Login.SignupAction | app/login/actions.ts:32-67 | empty fields and then a password under eight characters are refused before any call; an error is handed back; a user without identities gets the "already exists" notice; otherwise a redirect to /login, so the action redirects iff the call answered with a user whose identities are absent or non-empty |
| Login.Banner | app/login/page.tsx:85-87 | a banner is shown iff there is an error, and it starts with the error text |
| Login.ChangePassword | app/login/page.tsx:56-71 | the password is stored and revalidated; the banner shows the length message iff the field was left once and the value is short, and is cleared otherwise |
| Login.LoginFailureText | app/login/page.tsx:37-43 | an unknown user gets the sign-up hint; an empty message gives "Login failed"; a missing message throws and gives the generic message; any other message is shown as is |
| Login.Submit | app/login/page.tsx:20-53 | a short password is refused with no call; a thrown call gives the generic message; the page navigates iff the action redirected; a failed login shows its failure text, a failed signup the generic message when none or an empty one came back, else that message; a notice clears the banner; only the banner changes on the page |
| Login.NotFoundMessageOffersSwitch | app/login/page.tsx:38-39 | the unknown-user message contains the text that shows the switch button |
| Login.UnknownUserOffersSignup | app/login/page.tsx:35-43 | a login refused for an unknown user shows the switch-to-sign-up button |
| Login.ExistingAccountNoticeIsNotShown | app/login/page.tsx:44-49 | signing up with a registered address shows no banner and stays on the page |
| Login.EventsKeepConsistent | app/login/page.tsx:56-71 | any sequence of page events keeps the validity flag equal to the password length test |
| Login.HintTracksPassword | app/login/page.tsx:137-139 | from a fresh page, the hint is shown exactly when the field was left once and the password is under eight characters |
| Login.ModeChangesClearBanner | app/login/page.tsx:88-98 | switching mode by the link or the banner button clears the banner and keeps the fields |
| Scraper.Lookup | top10Scraper.py:248-249 | finds a key iff the dict has it, with the value stored under it |
| Scraper.UnderscoresToSpaces | top10Scraper.py:254 | every underscore becomes a space and every other character stays |
| Scraper.DetailLabel | top10Scraper.py:254 | a detail label is the key with each underscore a space and each letter upper-cased at a word start and lower-cased after a letter |
| Scraper.DetailParts | top10Scraper.py:251-254 | there is no detail part iff every key is rank or name |
| Scraper.DetailPartsOfFilteredEntries | top10Scraper.py:251-254 | the detail parts are one "Key: value" text per entry other than rank and name, in entry order |
| Scraper.JoinSnoc | top10Scraper.py:259 | joining one more part appends the separator and the part |
| Scraper.JoinLength | top10Scraper.py:259 | the joined string's length is the parts' total plus one separator between each two |
| Scraper.NormaliseItem | top10Scraper.py:247-259 | rank defaults to the position plus one and name to "Unknown"; details are null iff every key is rank or name, and otherwise the detail parts joined by ". " |
| Scraper.NormaliseItems | top10Scraper.py:245-262 | at most ten items, each normalised from the element at its position; fewer only when the list is shorter or a non-dict element stops the loop |
| Scraper.OnlyFirstTenMatter | top10Scraper.py:247 | elements after the tenth never affect the result |
| Scraper.NormalisedPrefixUnique | top10Scraper.py:247 | two lists agreeing on their first ten elements normalise alike |
| Scraper.DictsAreAllKept | top10Scraper.py:247 | when every element is a dict, the result has the list's length capped at ten |
| Scraper.CleanMatchedUrl | top10Scraper.py:193 | a prefix of the match that does not end in a trailing punctuation mark, having removed only such marks |
| Scraper.CleanMatchedUrlIdempotent | top10Scraper.py:193 | cleaning a cleaned URL changes nothing |
| Scraper.SourceUrl | top10Scraper.py:191-222 | the regex match wins over the extracted URL; the source is kept iff it starts with http, so every accepted source does |
| Scraper.LoadTopics | top10Scraper.py:408-418 | a list of strings loads as is, a non-empty list of dicts with a topic field loads the topics; a list raises the format error iff it is neither; a non-list raises the array error |
| Scraper.ItemBlock | top10Scraper.py:58-62 | an item block starts with "## " and ends with a newline |
| Scraper.ItemBlockLayout | top10Scraper.py:58-62 | an item block is the `## {rank}. {name}` heading line, then the details and a blank line when they are non-empty, else a lone newline |
| Scraper.ItemBlocksAppend | top10Scraper.py:57-62 | the sections of two runs of items are the first run's then the second's |
| Scraper.ItemBlocksSplit | top10Scraper.py:57-62 | the sections of a run of items are those before item k, item k's, and those after it |
| Scraper.DocContent | top10Scraper.py:54-62 | the document starts with the title-cased topic header and the source line (the item sections that follow are placed by Scraper.DocContentBlockAt and laid out by Scraper.ItemBlockLayout) |
| Scraper.DocContentSnoc | top10Scraper.py:57-62 | one more item appends exactly its block |
| Scraper.DocContentBlockAt | top10Scraper.py:54-62 | the document is the header, the blocks of the items before item k, item k's block, then the blocks of the items after it |
| Scraper.EmptyDetailsLikeNone | top10Scraper.py:58-62 | empty details print like missing details: the heading line and a blank line |
| Scraper.TitleCasedTopicSameDoc | top10Scraper.py:54 | title-casing the topic first does not change the document |

## Left out

- Supabase and the authentication service are not modelled. Each reply, such as a
  row, an error message or an identities count, is a parameter of the operation that
  reads it. The queries themselves are not modelled.
- Rendering, animation, notification auto-dismiss timers and loading spinners are
  not modelled. They have no bearing on the state.
- The scores panel's open/close and mobile-width handling are not modelled (resize
  listener, `isMobile`). They are layout only.
- `localStorage`, `useSearchParams` and the router are not modelled. Their values
  come in as `Option` parameters. Their effects come out as result fields, such as the
  session record and the route opened.
- The Next.js `redirect` mechanism is not modelled. It is the `Redirected` result,
  and the page's navigation is the `destination` of a submission.
- The browser's `required` attribute on the login fields is not modelled. It is form
  behaviour outside the handler.
- `app/private/simple/page.tsx` and the gameplay page are not part of this model.
- The scraper's browser and LLM agents are not modelled: search, extraction,
  scraping and the document agent. The regular-expression search for the URL and for
  the JSON block is not modelled either. Their outputs are parameters.
- File reading, JSON parsing and JSON serialisation are not modelled. This covers
  the export download, the import `FileReader`, and the topics file. The parsed shape
  is a datatype.
- The "Error during import" path is not modelled. It is reachable only if starting
  the file read throws.
- Scraper values are modelled through `VOther`. Floats, lists and nested dicts are
  kept only by their printed form.
- Roster.RemovePlayer: an index out of range models the `TypeError` thrown by reading
  `isJudge` of `undefined` as no change. Roster.UpdatePlayerName does the same.
- Text.ToLower and Text.PyTitle map ASCII letters only. Unicode case mapping is not
  modelled.
- Lengths are counted in Dafny characters. JavaScript counts UTF-16 code units, so
  an eight-character check differs for characters outside the Basic Multilingual
  Plane.
- ScrapeConfig.ProcessGroups processes lists in order of first appearance. The
  engine's `Object.entries` puts integer-like keys first in ascending order. Only
  the order of the calls depends on this; the counts do not.
- Scores.SortByScore: scores are integers. NaN or fractional scores, which would
  break the comparator, are not modelled. The sort mutating the `players` prop in
  place is not modelled.
- Admin.CreateList: the template items' insert failure sets an error banner that is
  then overwritten by the success banner. The model keeps the final banner only.
- CategoryBrowser.ClassifySwipe: coordinates are exact reals. IEEE double rounding
  of the subtraction is not modelled.
- Scraper.Lookup: a dict's entries are taken to have distinct keys, as a dict parsed
  by `json.loads` does. For repeated keys in the JSON text Python keeps the last
  value; the model reads the first.
- ScrapeConfig.ImportListItems: an element of the array that is `null`, or whose
  `list_id` names a member of `Object.prototype` (`constructor`, `toString`,
  `__proto__`), makes the grouping throw, and the source then reports the parse
  error with no call. The model groups and imports such items like any other. A
  numeric `list_id` becomes a string key in the source; the model's ids are strings.
- ScrapeConfig.GroupEffects: a reply that throws is modelled at the select only; a
  throw from a later step is not a separate case.
- Roster.CreatedGameWrites: the session's judge flag compares the judge's player id
  with the user id, as the source does. The model states that comparison and does not
  claim it says whether the user is the judge.

## Findings

| source | as written | input that shows it | evidently intended | confidence | as-written member | corrected member |
|---|---|---|---|---|---|---|
| app/private/admin/page.tsx:266-268 | each loop pass calls `setListItems(listItems.filter(...))` on the same snapshot, so only the last list's filter takes effect | a category with lists l1 and l2 holding items i1 (of l1) and i2 (of l2): after deleting it, i1 is still in the local items | remove the items of every list of the deleted category | not executed | Admin.CascadeAsWrittenLeavesOrphans | Admin.DeleteCategory |
