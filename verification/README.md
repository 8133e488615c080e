# Task manager core in Dafny

This project models the logic at the core of a small task manager and proves properties of it:

- **The chat assistant's interpreter**, `processNaturalLanguage` in
  `frontend/src/app/api/chat/route.ts`. It turns one user message into calls on the task store
  and a reply sentence.
- **The backend's per-user task store**, `backend/src/services/task_service.py`, together with the
  task record's field constraints in `backend/src/models/task.py`.
- **The task page's list reducers** in `frontend/src/app/tasks/page.tsx`.
- **The pure decisions of the browser API client** in `frontend/src/services/api.ts`: the base
  URL, the request headers and how a response becomes an outcome.

## Layout

| file | module | what it holds |
|---|---|---|
| `wrappers.dfy` | `Wrappers` | `Option` |
| `task_model.dfy` | `TaskModel` | the `Task` record, its field bounds, create drafts, partial updates |
| `text.dfy` | `Text` | ECMAScript whitespace, ASCII lower-casing, `includes`, `trim`, `split(/\s+/)`, decimal digits, `join` |
| `patterns.dfy` | `Patterns` | the three regular expressions written out as scans, the politeness cleanup, the stop words |
| `intents.dfy` | `Intents` | the first-match-wins classifier and the list status filter |
| `replies.dfy` | `Replies` | every reply sentence, and the symbolic `Message` that `Render` turns into text |
| `chat.dfy` | `Chat` | one interpreter turn: the store calls it makes and what it answers |
| `task_service.dfy` | `TaskService` | create, list, get, update, delete and toggle over all users' tasks |
| `task_list.dfy` | `TaskList` | the page's create, update, delete and toggle reducers |
| `api_client.dfy` | `ApiClient` | base URL, auth headers, response handling |

## How the interpreter is modelled

The interpreter's store is a value, `Store(listing, respond)`:

- `listing` is what listing the user's tasks returns: `None` when the call fails.
- `respond(j, c)` is what the `j`-th call of the turn returns: `None` when it fails, otherwise
  the task the store reports.

Indexing by position lets a failure be transient. The interpreter, `Chat.Interpret`, is a pure
function from the message, the user id and the store to a `Turn`. A `Turn` is the sequence of
calls made plus the answer.

The answer is a symbolic `Message`. `Replies.Render` gives its exact text. When listing fails
inside a complete, delete or update request, the source dereferences the missing list and
throws. The model answers `Fault` there.

The quirks of the source are kept, not fixed:

- `"all"` and `"what"` are plain substring tests, so "call mom" asks for the list
  (`Intents.CallMomIsAListRequest`).
- An update whose new-title pattern fails makes no change and falls through to the candidate list.
- A failed change is not reported: the interpreter moves on to the next candidate.
- The stop-word test looks at the lower-cased message, not at the cleaned text.
- An empty unfiltered listing reads "You don't have any tasks tasks right now."
  (`Replies.EmptyUnfilteredListSaysTasksTwice`).

## Model

| member | source | states |
|---|---|---|
| `Chat.Interpret` | frontend/src/app/api/chat/route.ts:26-220 | a missing or empty user id gives exactly the user-id reply and no store call; every call is made for the given user; at most one call changes the store, and only as the turn's last call; a complete/delete/update turn starts by listing and never adds a task; a fault only happens when listing failed |
| `Chat.OnlyUnclaimedMessagesCreate` | frontend/src/app/api/chat/route.ts:200-216 | a task is added only when the user id is present, no management test matched, the lower-cased message is not a stop word and the cleaned text is longer than one character; it is added under the cleaned text |
| `Chat.StopWordGetsHelp` | frontend/src/app/api/chat/route.ts:206-219 | a stop word that no management test claims makes no call and gets the help text |
| `Intents.StatusOf` | frontend/src/app/api/chat/route.ts:34-39 | pending words give `pending`; otherwise completed words give `completed`; otherwise `all` (each as an if-and-only-if) |
| `Intents.Classify` | frontend/src/app/api/chat/route.ts:33-145 | a list request carries the status the pending and completed word tests select; the order of the tests is stated by `Intents.ClassifyIsFirstMatch` |
| `Intents.ClassifyIsFirstMatch` | frontend/src/app/api/chat/route.ts:33-145 | each intent is chosen exactly when its own test succeeds and every earlier test (list, complete, delete, update) failed |
| `Chat.ManagementMessagesAreManaged` | frontend/src/app/api/chat/route.ts:26-145 | with a user id, a message the complete, delete or update test claims is handed, lower-cased and trimmed, to the turn for that request |
| `Chat.UnclaimedMessageCreates` | frontend/src/app/api/chat/route.ts:200-219 | with a user id, a message no test claims is handled as a create request |
| `Intents.ManagementWordsNeverCreate` | frontend/src/app/api/chat/route.ts:33-145 | a message matching any management test is never handed to task creation |
| `Intents.AllInsideAWordIsAListRequest` | frontend/src/app/api/chat/route.ts:33 | any message with "all" inside it is a list request, whatever else it contains |
| `Intents.CallMomIsAListRequest` | frontend/src/app/api/chat/route.ts:33 | "call mom" is a list request |
| `Intents.NotDoneAsksForPending` | frontend/src/app/api/chat/route.ts:35-37 | "not done" asks for pending tasks although it contains "done" |
| `Chat.ListTurn` | frontend/src/app/api/chat/route.ts:41-53 | a list turn makes one listing call with the requested status and answers with the listing or the retrieval-failure reply |
| `Replies.ListReplyShowsEveryTask` | frontend/src/app/api/chat/route.ts:43-51 | a non-empty list reply holds every task's numbered line and so mentions every title |
| `Replies.ListLine` | frontend/src/app/api/chat/route.ts:48 | a list line starts with its number, one more than its index, and ". ", continues with the title and ends with " (completed)" or " (pending)" as the task is done or not |
| `Replies.ListLines` | frontend/src/app/api/chat/route.ts:47-49 | one line per task, in listing order, line i numbered i + 1 |
| `Replies.ListLineMentionsTitle` | frontend/src/app/api/chat/route.ts:48 | a list line contains its task's title |
| `Replies.EmptyUnfilteredListSaysTasksTwice` | frontend/src/app/api/chat/route.ts:44 | the empty unfiltered listing reply repeats "tasks" |
| `Chat.ManageTurn` | frontend/src/app/api/chat/route.ts:56-198 | a complete/delete/update turn first lists all tasks; an empty listing answers "nothing to …" with no further call; every later call is a mutation of the request's kind for the user; only the last call may succeed; a fault exactly when listing failed |
| `Patterns.OrdinalReference` | frontend/src/app/api/chat/route.ts:65-67 | a number is read exactly when the ordinal pattern matches somewhere |
| `Patterns.OrdinalReferenceIsLeftmost` | frontend/src/app/api/chat/route.ts:65-67 | the number is the value of the digits of the leftmost ordinal match |
| `Patterns.OrdinalSpanShape` | frontend/src/app/api/chat/route.ts:65 | an ordinal match is the keyword, then only blanks, then the longest run of digits; with `Patterns.OrdinalKeywordEnd` the digits are read right after `task`, `number`, `no` or `no.` and its blanks |
| `Patterns.OrdinalSpanExists` | frontend/src/app/api/chat/route.ts:65 | after the keyword and blanks, a match exists exactly when a digit follows |
| `Patterns.OrdinalKeywordEnd` | frontend/src/app/api/chat/route.ts:65 | the keyword alternative matches exactly when `task`, `number` or `no` occurs there, ignoring case, and ends 4, 6, or 2 characters later (3 when `no` is followed by `.`) |
| `Patterns.FindOrdinal` | frontend/src/app/api/chat/route.ts:65 | the match position is the leftmost one at which the pattern matches |
| `Chat.OrdinalTarget` | frontend/src/app/api/chat/route.ts:65-68 | number n picks the listed task at index n - 1, and only when 1 <= n <= the number of listed tasks |
| `Chat.OrdinalTargets` | frontend/src/app/api/chat/route.ts:66-69 | at most one task is tried by number, and it is the one the number picks |
| `Chat.OrdinalTargetIsTriedFirst` | frontend/src/app/api/chat/route.ts:64-74 | a number that picks a listed task makes that task the first one tried; if that succeeds the turn ends with the reply about it |
| `Chat.Keywords` | frontend/src/app/api/chat/route.ts:81 | a string is a keyword exactly when it is longer than two characters and is one of the maximal blank-free runs of the lower-cased message |
| `Chat.LongWords` | frontend/src/app/api/chat/route.ts:81 | the filter keeps exactly the words longer than two characters |
| `Text.WordsAreMaximalRuns` | frontend/src/app/api/chat/route.ts:81 | the words of the split are exactly the maximal runs of non-blank characters, each non-empty and occurring in the message |
| `Chat.Pending` | frontend/src/app/api/chat/route.ts:78 | exactly the listed tasks that are not completed |
| `Chat.PendingAppend` | frontend/src/app/api/chat/route.ts:78 | the filter keeps listing order and multiplicity: it distributes over a split of the list |
| `Chat.Matching` | frontend/src/app/api/chat/route.ts:82-84 | exactly the tasks whose lower-cased title contains some keyword |
| `Chat.MatchingAppend` | frontend/src/app/api/chat/route.ts:82-84 | the candidates keep listing order and multiplicity: matching distributes over a split of the list |
| `Chat.MatchingStartsAtFirstMention` | frontend/src/app/api/chat/route.ts:82-84 | the first candidate is the first task, in listing order, that mentions a keyword |
| `Chat.FirstMentionedPendingLeads` | frontend/src/app/api/chat/route.ts:78-84 | the first candidate of a completion is the first task of the listing that is not completed and mentions a keyword |
| `Chat.CompletePicksFirstMentionedPendingTask` | frontend/src/app/api/chat/route.ts:77-91 | without a usable number, a completion first tries the first task of the listing that is not completed and mentions a keyword; if that succeeds the turn ends there with the "Nice work!" reply |
| `Chat.DeletePicksFirstMentionedTask` | frontend/src/app/api/chat/route.ts:125-135 | without a usable number, a deletion first tries the first listed task mentioning a keyword; if that succeeds the turn ends there, naming the task as listed |
| `Chat.TryInOrder` | frontend/src/app/api/chat/route.ts:82-90 | candidates are tried in order; every try before the last failed; a success ends the tries |
| `Chat.Resolve` | frontend/src/app/api/chat/route.ts:64-91 | keyword candidates are reached only after every numbered try failed; unresolved means every candidate was tried and failed |
| `Chat.ManageCallsOnlyLastMayChange` | frontend/src/app/api/chat/route.ts:64-91 | every mutation before the last one of a turn failed |
| `Chat.FirstTryDecides` | frontend/src/app/api/chat/route.ts:64-90 | the first planned target is the first call; if it succeeds it is the outcome and nothing else is tried |
| `Chat.ResolvedEndsWithSuccess` | frontend/src/app/api/chat/route.ts:71-72 | a resolved request ends with the call the store accepted |
| `Chat.NoneChangedMeansUnresolved` | frontend/src/app/api/chat/route.ts:82-91 | when every change failed, the request is unresolved and every candidate was tried |
| `Chat.FailuresAreNotReported` | frontend/src/app/api/chat/route.ts:82-100 | when every attempted change failed, the turn tried every planned target and answers with the candidate reply, never a failure sentence |
| `Chat.UnresolvedAnswersWithCandidates` | frontend/src/app/api/chat/route.ts:93-102 | an unresolved completion with nothing pending says all tasks are done, and otherwise lists the pending tasks; an unresolved delete or update lists all tasks |
| `Replies.CandidateLines` | frontend/src/app/api/chat/route.ts:96-98 | at most five candidates, line i is number i + 1 and the i-th title |
| `Replies.CandidateLinesAreNumbered` | frontend/src/app/api/chat/route.ts:96-98 | each candidate line starts with its decimal position, counted from one |
| `Chat.UpdateWithoutNewTitleChangesNothing` | frontend/src/app/api/chat/route.ts:151-197 | an update whose message yields no new title makes no change, even when it names a task, and answers with the candidate list |
| `Chat.UpdateByNumberCarriesNewTitle` | frontend/src/app/api/chat/route.ts:151-168 | when the number picks a listed task and the numbered pattern yields a new title, the first change renames that task to that title; if the store accepts, the turn ends there with the update reply quoting the stored title |
| `Chat.UpdatePicksFirstMentionedTask` | frontend/src/app/api/chat/route.ts:171-189 | when the numbered path is unusable and the keyword pattern yields a title, the first change renames the first listed task that mentions a keyword to that title; if the store accepts, the turn ends there with the update reply |
| `Chat.UpdateWithoutNumberPlan` | frontend/src/app/api/chat/route.ts:150-189 | with no usable number an update tries no task by number; its keyword candidates start with the first listed task that mentions a keyword, and each is renamed to the keyword pattern's title |
| `Chat.KeywordTargetIsTriedFirst` | frontend/src/app/api/chat/route.ts:82-189 | with no numbered target, the first keyword candidate is the call right after the listing; if the store accepts, the turn ends with the request's reply about that task |
| `Chat.KeywordRenameIsTriedFirst` | frontend/src/app/api/chat/route.ts:174-186 | an update whose first keyword candidate is to be renamed sends that rename right after the listing; if the store accepts, the turn ends with the update reply |
| `Patterns.NewTitle` | frontend/src/app/api/chat/route.ts:157-159 | a new title is found exactly when the pattern matches |
| `Patterns.NewTitleIsLeftmost` | frontend/src/app/api/chat/route.ts:157-159 | the new title is the trimmed capture of the leftmost match |
| `Patterns.FirstWordAtIsFirst` | frontend/src/app/api/chat/route.ts:157 | the verb alternatives are tried in order and the first one present wins |
| `Patterns.FirstWordAtFinds` | frontend/src/app/api/chat/route.ts:203 | an alternative present at a position, with no earlier-listed one present, is the one the alternation picks |
| `Patterns.ConnectiveChoiceIsFirst` | frontend/src/app/api/chat/route.ts:157 | the connective alternatives are tried in order and the first followed by a capturable tail wins |
| `Patterns.CaptureStartIsLastSplit` | frontend/src/app/api/chat/route.ts:157 | `\s+(.+)` gives the blanks back one by one until `.` can match, as a backtracking matcher does |
| `Patterns.CaptureIsRestOfLine` | frontend/src/app/api/chat/route.ts:157 | the capture is the rest of the line from where it starts |
| `Patterns.BlanksEndIsLongestRun` | frontend/src/app/api/chat/route.ts:157 | `\s+` fails exactly when no blank is there, and otherwise takes the whole run |
| `Patterns.CleanMessage` | frontend/src/app/api/chat/route.ts:202-204 | the cleaned text is no longer than the message and neither starts nor ends with a blank |
| `Patterns.StripWithoutPhrases` | frontend/src/app/api/chat/route.ts:203 | where no politeness phrase occurs, the replace changes nothing |
| `Patterns.CleanWithoutPhrases` | frontend/src/app/api/chat/route.ts:202-204 | a message without politeness phrases is only trimmed |
| `Patterns.StripDropsPhrase` | frontend/src/app/api/chat/route.ts:203 | where a phrase occurs and no earlier-listed one does, the phrase and the blanks after it are removed and the replace goes on after them |
| `Patterns.StripKeepsOtherCharacters` | frontend/src/app/api/chat/route.ts:203 | where no phrase occurs, the character is kept and the replace goes on from the next one |
| `Patterns.StripDropsLeadingPhrase` | frontend/src/app/api/chat/route.ts:203 | a text starting with a phrase and holding none after it loses exactly the phrase and its blanks |
| `Patterns.CleanDropsLeadingPhrase` | frontend/src/app/api/chat/route.ts:202-204 | a message starting with a politeness phrase and holding none after it is cleaned to the rest after the phrase and its blanks, trimmed |
| `Chat.CreateTurn` | frontend/src/app/api/chat/route.ts:202-219 | a task is added exactly when the cleaned text is longer than one character and the message is not a stop word, under the cleaned text; a success is confirmed with the stored title, anything else gets the help text |
| `Text.Trim` | frontend/src/app/api/chat/route.ts:30 | the trimmed text neither starts nor ends with a blank |
| `Text.TrimDropsOnlyBlanks` | frontend/src/app/api/chat/route.ts:30 | trimming removes only leading and trailing blanks |
| `Text.TrimIsIdempotent` | frontend/src/app/api/chat/route.ts:204 | trimming twice is trimming once |
| `Text.LowerIsIdempotent` | frontend/src/app/api/chat/route.ts:30 | lower-casing leaves no upper-case ASCII letter, and lower-casing twice changes nothing |
| `Replies.CompletedReply` | frontend/src/app/api/chat/route.ts:72 | the completion reply quotes the title |
| `Replies.DeletedReply` | frontend/src/app/api/chat/route.ts:120 | the deletion reply quotes the title |
| `Replies.UpdatedReply` | frontend/src/app/api/chat/route.ts:166 | the update reply quotes the title |
| `Replies.AddedReply` | frontend/src/app/api/chat/route.ts:213 | the creation reply quotes the title |
| `Replies.RenderQuotesTitle` | frontend/src/app/api/chat/route.ts:72-213 | every reply about one task mentions its title |
| `TaskModel.DraftWithDefaults` | backend/src/models/task.py:7-9 | description defaults to none and completed to false; the draft is valid exactly when its title has 1 to 255 characters |
| `TaskModel.ApplyUpdate` | backend/src/services/task_service.py:41-43 | each field the update sets is overwritten and every other field, id and owner included, is kept; valid updates keep a task valid |
| `TaskService.CreateTask` | backend/src/services/task_service.py:9-19 | the new task has the given id, owner, title, description and completion state and is added to the store; an id in use fails and changes nothing |
| `TaskService.CreateKeepsValid` | backend/src/models/task.py:7-8 | creating from a draft within the field bounds keeps ids unique and every task within bounds |
| `TaskService.ReadAfterCreate` | backend/src/services/task_service.py:9-19 | the creator can read the created task back under its id |
| `TaskService.GetTasks` | backend/src/services/task_service.py:22-29 | exactly the user's tasks, further restricted to the given completion state |
| `TaskService.GetTask` | backend/src/services/task_service.py:32-35 | a task is returned exactly when one with that id belongs to the user, and it is that task |
| `TaskService.NoForeignRead` | backend/src/services/task_service.py:32-35 | a task owned by someone else is never returned |
| `TaskService.UpdateTask` | backend/src/services/task_service.py:38-48 | a non-owned id returns nothing and changes nothing; otherwise the task gets the update's fields and no other task changes |
| `TaskService.UpdateKeepsValid` | backend/src/models/task.py:26-29 | an update within the field bounds keeps the store valid, and the updated task is what a later read returns |
| `TaskService.DeleteTask` | backend/src/services/task_service.py:51-57 | true exactly when the user owns a task with that id; false leaves the store unchanged |
| `TaskService.DeleteRemovesExactlyThatTask` | backend/src/services/task_service.py:51-57 | a successful delete removes one task: none with that id remains and every other task stays |
| `TaskService.DeleteKeepsValid` | backend/src/services/task_service.py:51-57 | deleting keeps the store valid |
| `TaskService.ToggleTask` | backend/src/services/task_service.py:60-68 | a non-owned id returns nothing and changes nothing; otherwise only that task's completion state is negated |
| `TaskService.ToggleTwiceRestores` | backend/src/services/task_service.py:60-68 | toggling twice restores the store |
| `TaskService.CreateIsolated` | backend/src/services/task_service.py:9-19 | creating a task for one user leaves every other user's listing unchanged |
| `TaskService.UpdateIsolated` | backend/src/services/task_service.py:38-48 | one user's update leaves every other user's listing unchanged |
| `TaskService.DeleteIsolated` | backend/src/services/task_service.py:51-57 | one user's delete leaves every other user's listing unchanged |
| `TaskService.ToggleIsolated` | backend/src/services/task_service.py:60-68 | one user's toggle leaves every other user's listing unchanged |
| `TaskList.OnCreated` | frontend/src/app/tasks/page.tsx:37-39 | the created task comes first, followed by the old list |
| `TaskList.OnUpdated` | frontend/src/app/tasks/page.tsx:41-43 | same length; every task with the updated id is replaced and every other stays in place |
| `TaskList.OnDeleted` | frontend/src/app/tasks/page.tsx:45-47 | exactly the tasks with another id remain |
| `TaskList.OnDeletedAppend` | frontend/src/app/tasks/page.tsx:45-47 | deleting distributes over a split of the list, so the remaining tasks keep their order |
| `TaskList.OnDeletedIdempotent` | frontend/src/app/tasks/page.tsx:45-47 | deleting twice is deleting once |
| `TaskList.OnCompletedToggle` | frontend/src/app/tasks/page.tsx:49-51 | a toggle replaces by id exactly as an update does |
| `TaskList.DeleteUndoesCreate` | frontend/src/app/tasks/page.tsx:37-47 | deleting a just-created task with a fresh id gives back the earlier list |
| `TaskList.DeleteAfterUpdate` | frontend/src/app/tasks/page.tsx:41-47 | deleting after updating an id is the same as deleting it |
| `TaskList.OnUpdatedIdempotent` | frontend/src/app/tasks/page.tsx:41-43 | applying the same update twice is applying it once |
| `ApiClient.BaseUrl` | frontend/src/services/api.ts:5-7 | the base URL ends with "/api", starts with the configured base, and adds "api" after a trailing slash or "/api" otherwise |
| `ApiClient.UnsetBaseIsApi` | frontend/src/services/api.ts:5-7 | an unset or empty base gives exactly "/api" |
| `ApiClient.TrailingSlashIsIgnored` | frontend/src/services/api.ts:7 | a base with and without a trailing slash give the same URL |
| `ApiClient.AuthHeaders` | frontend/src/services/api.ts:10-21 | JSON content type always; an authorization header exactly when a non-empty token is stored; no other header |
| `ApiClient.AuthorizationCarriesToken` | frontend/src/services/api.ts:16-18 | the authorization header is "Bearer " followed by exactly the stored token |
| `ApiClient.HandleResponse` | frontend/src/services/api.ts:71-91 | 401 clears token and user, sends the page to the login page and fails with the fixed message before any other test; another failing status fails with the server's detail or the status message; a success gives the parsed body exactly for JSON content and an empty object otherwise |
| `ApiClient.StatusMessageNamesStatus` | frontend/src/services/api.ts:82 | the status message ends in the status written in decimal |

## Left out

- The HTTP handler of the chat route and its tool adapter (`POST`, `createMcpTools`) are not part
  of this model. The store is a parameter.
  - Listing is not assumed to filter by status: the real tool ignores that argument.
  - An exception escaping to the handler is the `Fault` answer.
- The API routers, authentication, password hashing and tokens, database sessions and app
  wiring are left out. So is the route that toggles instead of setting `completed`. None of
  these hold logic of the modelled core.
- React rendering, effects, routing and `localStorage` access are left out. Storage is a map
  passed in and out, and the redirect is a field of the outcome.
- Timestamps (`created_at`, `updated_at`) and concurrency between turns or requests are left out.
- Random ids: `uuid4` becomes an id parameter of `TaskService.CreateTask`. An id in use fails as
  the primary key would.
- `TaskService.GetTasks` returns tasks in storage order. The database promises no order, so the
  model fixes one.
- `TaskModel.ApplyUpdate` does not model an explicit `null` for the title or completion field,
  which the database would reject. An explicit `null` description is `Put(None)`.
- `Text.Lower` folds ASCII letters only; `toLowerCase` also folds other scripts. The patterns'
  case-insensitive matching is exact, since those patterns are ASCII.
- Lengths are counted in characters, not UTF-16 code units. This affects the more-than-two-letter
  keyword filter and the more-than-one-character create test for characters outside the Basic
  Multilingual Plane.
- `Patterns.OrdinalReference` values digits exactly, while `parseInt` rounds numbers past 2^53.
  Such numbers never pick a listed task either way.
- Only the three regular expressions the interpreter uses are modelled, each as an explicit scan,
  not general regular-expression semantics.
- `ApiClient.HandleResponse` does not model a body that fails to parse on a successful response,
  where the promise rejects. It also does not model a `detail` that is not a string.
