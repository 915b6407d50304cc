# todo-backend core in Dafny

A model of the core of a multi-user task tracker. Users register and sign in
and create todos. A todo can be broken into items that several users tick
off together, and messages can be posted on it. The board views are derived
from who completed what.

The model covers these parts:

- **Todo lifecycle** (`TodoServiceImpl`):
  - creating, editing and deleting todos;
  - completing a todo, reopening it and reviewing it;
  - the pending-review, reviewed and overdue lists and the statistics;
  - the per-todo participation figures.
- **Item lifecycle** (`TodoItemServiceImpl`):
  - adding, deleting, ticking and unticking items;
  - the item listing and its display names;
  - the progress summary.
- **Messages** (`MessageServiceImpl`):
  - posting, deleting and listing;
  - the author's display name.
- **Accounts** (`AuthServiceImpl`):
  - the registration guard chain, including the email shape;
  - the account registration creates;
  - login's normalised error.
- **Boards** (`LeaderboardController`):
  - the collaboration board and its details;
  - the finisher board, re-sorted by count;
  - the finisher details.

The database is a `Model.Store` object:

- `users` is a sequence, and a user's id is its index.
- `todos`, `items` and `messages` are maps from id to record.
- Three counters hold the next identity value of each table.
- `Store.Valid` holds the table invariants:
  - unique usernames and emails;
  - every id is below its counter;
  - a todo is reviewed only when completed, and only then has a review time
    (the source can store a reviewed, uncompleted todo through `addTodo`; see
    "Left out");
  - a completer and a completion time are recorded together;
  - an item is completed exactly when it has a completer and a time;
  - every item and message belongs to an existing todo;
  - every reference points to an existing user.
- Every state-changing method keeps `Valid`.

Each state-changing operation is written in two parts:

- A pure *outcome* function. It runs the source's guard chain in the
  source's order and returns either the error the service would throw or
  the record it would save.
- A method on the `Store`. It changes only the fields its `modifies` clause
  names. Its `ensures` ties the result and the new tables to that outcome
  function.

The lifecycle properties are then proved as lemmas about the outcome
functions.

Outside effects become explicit parameters:

- the signed-in caller is a `Principal`: a name plus the authorities of the
  token;
- today's date and the current time;
- the password encoder.

Role checks made by method security become `requires` clauses:

- `CanManage`: ADMIN;
- `CanUse`: ADMIN or USER.

Where the source reads a query that none of the repository files shown
declares, the model defines that query as a function over the tables:

- `isParticipant`;
- `existsByTodo_IdAndCompletedFalse`;
- `countCompletedItemsByUser`;
- `collabLeaderboard` and `collabDetailsForUser`;
- `finisherLeaderboardByUserId` and `finisherDetailsByUserId`.

Modelling choices for those queries:

- A GROUP BY result comes out in ascending user id.
- The pending-review, reviewed and overdue lists come out in ascending id.
- Messages with equal creation times come out in ascending id.
- The collaboration query orders its rows by count, largest first.
- The detail queries order their rows by completion time, latest first.
- Ties keep id order.
- The collaboration rows carry the display name: trimmed last name plus
  first name, or the username when that is empty.
- The finisher rows carry the first name.

Behaviour of the code worth noting:

- **addItem and addMessage.** The blank-title and blank-content checks come
  before the todo lookup.
- **deleteItem and deleteMessage.** They never check that the item or
  message belongs to the todo in the route.
- **deleteMessage.** It compares the author's username with the raw name in
  the token. So an author who signed in with their email is refused,
  unless they are an admin.
- **Overdue flag.** `updateTodo` keeps a set flag when the due date is
  today. The statistics and the overdue list do not count such a todo as
  overdue.

## Model

| member | source | states |
|---|---|---|
| Model.Store.constructor | src/main/java/net/javaguides/todo/entity/Todo.java:24-68 | The store starts with the given accounts and empty todo, item and message tables, and with its table invariants holding |
| Model.PutTodoKeepsTables | src/main/java/net/javaguides/todo/entity/Todo.java:24-60 | Saving a todo that satisfies the todo invariant under an id below the counter keeps every table invariant |
| Model.PutItemKeepsTables | src/main/java/net/javaguides/todo/entity/TodoItem.java:20-44 | Saving an item that satisfies the item invariant keeps every table invariant |
| Model.PutMessageKeepsTables | src/main/java/net/javaguides/todo/entity/Message.java:19-38 | Saving a message that satisfies the message invariant keeps every table invariant |
| Model.AddUserKeepsTables | src/main/java/net/javaguides/todo/service/impl/AuthServiceImpl.java:42-49 | Appending an account whose username and email are both new keeps the accounts unique and every table invariant |
| Model.RemoveTodoKeepsTables | src/main/java/net/javaguides/todo/entity/Todo.java:62-68 | Removing a todo together with the items and messages of that todo (the orphan-removal cascade) leaves no dangling reference and keeps every table invariant |
| Model.FindUser | src/main/java/net/javaguides/todo/repository/UserRepository.java:13 | The lookup by username or email returns an account whose username or email is the name and no earlier account matches; it returns nothing exactly when no account matches |
| Model.ItemsOf | src/main/java/net/javaguides/todo/repository/TodoItemRepository.java:9 | Given a bound above every item id, lists the ids of exactly the todo's items, in strictly ascending order |
| Model.ParticipationRows | src/main/java/net/javaguides/todo/service/impl/TodoServiceImpl.java:262 | Every row has a positive count, and there are exactly as many rows as users who completed at least one of the todo's items; with RowsSound, RowsComplete and unique usernames, that is one row per such user |
| Model.RowsSound | src/main/java/net/javaguides/todo/service/impl/TodoServiceImpl.java:262 | Every row is the username of some user together with the number of the todo's completed items that user completed |
| Model.RowsComplete | src/main/java/net/javaguides/todo/service/impl/TodoServiceImpl.java:262 | Every user who completed at least one of the todo's items has a row with that count |
| Model.ParticipationNamesDistinct | src/main/java/net/javaguides/todo/service/impl/TodoServiceImpl.java:262-268 | With unique usernames, no two rows carry the same name, so the stats map loses no row |
| Model.ParticipantIffRow | src/main/java/net/javaguides/todo/service/impl/TodoServiceImpl.java:283-286 | The participant check holds for a name exactly when a participation row carries that name |
| Model.UserRows | src/main/java/net/javaguides/todo/controller/LeaderboardController.java:38 | A per-user aggregate lists users in strictly ascending id, each with its name and a positive count |
| Model.UserRowsComplete | src/main/java/net/javaguides/todo/controller/LeaderboardController.java:80 | Every user with a positive count has a row in the aggregate |
| Model.CountAtMostSum | src/main/java/net/javaguides/todo/service/impl/TodoServiceImpl.java:276-279 | Every row's count is at most the accumulated total |
| Seqs.AscendingKeys | src/main/java/net/javaguides/todo/repository/TodoItemRepository.java:9 | An ORDER BY id listing holds exactly the matching ids below the bound, strictly ascending |
| Seqs.AscendingCard | src/main/java/net/javaguides/todo/service/impl/TodoServiceImpl.java:232-236 | A strictly ascending list has as many entries as distinct elements, so counting the list counts records |
| Seqs.SortDesc | src/main/java/net/javaguides/todo/controller/LeaderboardController.java:88 | The sort by a numeric key, largest first, yields a non-increasing sequence that is a permutation of its input |
| Seqs.SortDescIsStable | src/main/java/net/javaguides/todo/service/impl/TodoServiceImpl.java:295 | The sort is stable: for every key, the elements with that key keep their input order |
| Seqs.StableSortDescUnique | src/main/java/net/javaguides/todo/service/impl/TodoServiceImpl.java:295 | Any sequence that is sorted largest first, a permutation of the input, and stable is the sort's result, so the stable sort is fully determined |
| Text.TrimSpec | src/main/java/net/javaguides/todo/service/impl/TodoItemServiceImpl.java:72 | String.trim leaves the part between the padding of characters up to U+0020; that part has no such character at either end, and it is empty exactly when the whole string is padding |
| Text.TrimIdempotent | src/main/java/net/javaguides/todo/service/impl/MessageServiceImpl.java:57 | Trimming a trimmed string changes nothing |
| Text.DisplayNameSpec | src/main/java/net/javaguides/todo/service/impl/TodoItemServiceImpl.java:149-156 | The display name is the username when last name plus first name is all padding; otherwise it is that concatenation with the padding cut away, with no padding left at either end |
| EmailFormat.Split | src/main/java/net/javaguides/todo/service/impl/AuthServiceImpl.java:53 | Splitting on a separator yields at least one piece, no piece contains the separator, and joining the pieces back gives the input |
| EmailFormat.SplitJoin | src/main/java/net/javaguides/todo/service/impl/AuthServiceImpl.java:53 | Splitting pieces that were joined on a separator they do not contain gives back the pieces |
| EmailFormat.ValidEmailIffPattern | src/main/java/net/javaguides/todo/service/impl/AuthServiceImpl.java:53-55 | The recognizer accepts exactly the strings the registration regular expression describes: a non-empty local part over [A-Za-z0-9_.-], one '@', at least one label over [A-Za-z0-9_-] followed by '.', and a final label of 2 to 4 such characters |
| EmailFormat.AcceptsAdminAddress | src/main/java/net/javaguides/todo/service/impl/AuthServiceImpl.java:53 | A plain address such as admin@example.com passes the check |
| TodoService.RaiseOverdue | src/main/java/net/javaguides/todo/service/impl/TodoServiceImpl.java:134-136 | On completion the overdue flag becomes set when the due date has passed, and is never cleared |
| TodoService.UpdatedOverdue | src/main/java/net/javaguides/todo/service/impl/TodoServiceImpl.java:78-84 | On update the flag is set when the due date has passed and cleared when it is strictly in the future; a due date of today, or none, leaves the flag as it was |
| TodoService.OverdueRulesDisagree | src/main/java/net/javaguides/todo/service/impl/TodoServiceImpl.java:78-84 | A flagged todo due today stays flagged on update, although the overdue queries do not count it |
| TodoService.NewTodo | src/main/java/net/javaguides/todo/service/impl/TodoServiceImpl.java:40-45 | From the five input fields the model takes, a new todo is created today, not reviewed and without a completer, and is flagged overdue exactly when the input says so or its due date has passed |
| TodoService.AddTodo | src/main/java/net/javaguides/todo/service/impl/TodoServiceImpl.java:37-50 | The new todo is stored under a fresh id, the identity counter advances, and nothing else changes |
| TodoService.UpdateTodo | src/main/java/net/javaguides/todo/service/impl/TodoServiceImpl.java:65-88 | Not-found, then the refusal to edit a reviewed todo; on success it copies title, description, due date and the completed flag and applies the overdue rule; a failure saves nothing |
| TodoService.DeleteTodo | src/main/java/net/javaguides/todo/service/impl/TodoServiceImpl.java:90-95 | A missing todo is not found and nothing changes; otherwise the todo goes, exactly its items and messages go with it (src/main/java/net/javaguides/todo/entity/Todo.java:62-68), and every other item and message stays unchanged |
| TodoService.ItemCountPositive | src/main/java/net/javaguides/todo/service/impl/TodoServiceImpl.java:117-118 | The todo's item count is positive exactly when it has an item |
| TodoService.CompleteTodo | src/main/java/net/javaguides/todo/service/impl/TodoServiceImpl.java:97-143 | Runs the completion guard chain: not-found, reviewed, already completed, open items, participation, then the completion stamp; only a success is saved |
| TodoService.InCompleteTodo | src/main/java/net/javaguides/todo/service/impl/TodoServiceImpl.java:145-189 | Runs the reopen guard chain: not-found, reviewed, a no-op when not completed, then completer-or-admin; on success it clears completer, times and review and recomputes overdue |
| TodoService.ReviewTodo | src/main/java/net/javaguides/todo/service/impl/TodoServiceImpl.java:191-209 | A todo that is not completed cannot be reviewed; otherwise it is marked reviewed, with the reviewer's first name and the time |
| TodoService.ReviewedTodoIsFrozen | src/main/java/net/javaguides/todo/service/impl/TodoServiceImpl.java:74-76 | On a reviewed todo, update, complete and reopen each fail with their bad-request message |
| TodoService.ReviewNeedsCompletion | src/main/java/net/javaguides/todo/service/impl/TodoServiceImpl.java:196-198 | Review fails with the illegal-state error exactly when the todo is not completed |
| TodoService.OpenItemBlocksCompletion | src/main/java/net/javaguides/todo/service/impl/TodoServiceImpl.java:117-123 | An open item makes completion fail with CONFLICT |
| TodoService.OnlyParticipantsComplete | src/main/java/net/javaguides/todo/service/impl/TodoServiceImpl.java:124-129 | With every item done, completion is FORBIDDEN exactly when the caller completed none of them |
| TodoService.NoItemsAnyoneCompletes | src/main/java/net/javaguides/todo/service/impl/TodoServiceImpl.java:117-139 | Any known caller can complete a todo that has no items, and is recorded as its completer |
| TodoService.CompleteIsIdempotent | src/main/java/net/javaguides/todo/service/impl/TodoServiceImpl.java:109-115 | Completing again returns the saved todo unchanged, whatever the new date and time |
| TodoService.CompletedByOtherConflicts | src/main/java/net/javaguides/todo/service/impl/TodoServiceImpl.java:109-115 | Another user completing a completed todo gets CONFLICT naming the recorded completer |
| TodoService.ReopenNeedsCompleterOrAdmin | src/main/java/net/javaguides/todo/service/impl/TodoServiceImpl.java:167-172 | Reopening is FORBIDDEN exactly when the caller is neither an admin nor the recorded completer |
| TodoService.ReopenThenComplete | src/main/java/net/javaguides/todo/service/impl/TodoServiceImpl.java:174-185 | After a reopen, a todo without items can be completed again and carries a fresh, unreviewed completion |
| TodoService.OutcomesKeepTodoOk | src/main/java/net/javaguides/todo/service/impl/TodoServiceImpl.java:65-209 | Every successful update, complete, reopen and review yields a todo satisfying the todo invariant (reviewed implies completed and more), and a review yields a reviewed todo |
| TodoService.PendingReview | src/main/java/net/javaguides/todo/service/impl/TodoServiceImpl.java:211-215 | Given a bound above every todo id, lists exactly the completed, unreviewed todos |
| TodoService.Reviewed | src/main/java/net/javaguides/todo/service/impl/TodoServiceImpl.java:217-221 | Given a bound above every todo id, lists exactly the completed, reviewed todos |
| TodoService.Overdue | src/main/java/net/javaguides/todo/service/impl/TodoServiceImpl.java:248-258 | Given a bound above every todo id, lists exactly the todos that are not completed and are past their due date, in the model's ascending id order; the stored flag is not consulted |
| TodoService.StatisticsConsistent | src/main/java/net/javaguides/todo/service/impl/TodoServiceImpl.java:223-246 | pending review <= completed <= total, and overdue + completed <= total; with the table invariant, reviewed + pending review = completed |
| TodoService.OverdueCountMatchesList | src/main/java/net/javaguides/todo/service/impl/TodoServiceImpl.java:232-258 | The overdue statistic equals the length of the overdue list |
| TodoService.OverdueUntilCompleted | src/main/java/net/javaguides/todo/service/impl/TodoServiceImpl.java:131-136 | A past-due open todo is listed as overdue; once completed it is flagged but no longer listed |
| TodoService.GetParticipationStats | src/main/java/net/javaguides/todo/service/impl/TodoServiceImpl.java:260-270 | The map holds exactly the usernames of the participation rows, each with its row's count |
| TodoService.PercentHundredths | src/main/java/net/javaguides/todo/service/impl/TodoServiceImpl.java:292 | The share in hundredths of a percent is count*10000/total rounded half up, and 0 when the total is 0 |
| TodoService.PercentAtMostWhole | src/main/java/net/javaguides/todo/service/impl/TodoServiceImpl.java:292 | A count no larger than the total gives at most 100.00% |
| TodoService.Entries | src/main/java/net/javaguides/todo/service/impl/TodoServiceImpl.java:288-294 | One entry per row, in row order, with the row's name, its count and its share |
| TodoService.GetParticipationDetail | src/main/java/net/javaguides/todo/service/impl/TodoServiceImpl.java:272-304 | The total is the sum of the counts; eligible holds exactly when there are at least two rows; the caller flag is the participant check; the entries are a stable largest-first sort of the rows' entries |
| TodoService.ParticipationExample | src/main/java/net/javaguides/todo/service/impl/TodoServiceImpl.java:288-295 | Counts 5, 3, 2 give 50.00%, 30.00%, 20.00%, in that order |
| TodoItemService.CompleterDisplayName | src/main/java/net/javaguides/todo/service/impl/TodoItemServiceImpl.java:149-156 | An item view has a completer name exactly when the item has a completer |
| TodoItemService.ItemViewShowsCompleter | src/main/java/net/javaguides/todo/service/impl/TodoItemServiceImpl.java:148-168 | The view copies id, todo and title; it shows a completer id and name exactly when the item is completed, and the username when the completer has no names |
| TodoItemService.ListByTodo | src/main/java/net/javaguides/todo/service/impl/TodoItemServiceImpl.java:34-41 | Not-found exactly when the todo is missing; otherwise, given a bound above every item id, one view per item of the todo, in ascending id, as many as the todo has items |
| TodoItemService.SummaryBounds | src/main/java/net/javaguides/todo/service/impl/TodoItemServiceImpl.java:43-56 | completed <= total; progress is completed over total, lies between 0 and 1, and is 0 when there are no items; it is 1 exactly when there are items and none is open |
| TodoItemService.AddItem | src/main/java/net/javaguides/todo/service/impl/TodoItemServiceImpl.java:59-75 | Blank title, then not-found, then a reviewed todo; on success the item is stored under a fresh id; a failure changes nothing |
| TodoItemService.DeleteItem | src/main/java/net/javaguides/todo/service/impl/TodoItemServiceImpl.java:77-91 | Not-found for the todo or the item, then the item's own todo must not be reviewed; on success exactly that item is removed |
| TodoItemService.CompleteItem | src/main/java/net/javaguides/todo/service/impl/TodoItemServiceImpl.java:94-115 | Not-found, reviewed, a no-op when already done, then an unknown caller is not found; otherwise it records the caller and the time; only a success is saved |
| TodoItemService.UncompleteItem | src/main/java/net/javaguides/todo/service/impl/TodoItemServiceImpl.java:117-145 | Not-found, reviewed, a no-op when open, then completer-or-admin by database roles; on success the completer and time are cleared |
| TodoItemService.BlankTitleRefusedFirst | src/main/java/net/javaguides/todo/service/impl/TodoItemServiceImpl.java:61-63 | A null or blank title is refused before the todo is looked up |
| TodoItemService.AddedItemIsTrimmed | src/main/java/net/javaguides/todo/service/impl/TodoItemServiceImpl.java:65-73 | A new item is open, belongs to the todo, and carries the trimmed, non-empty title |
| TodoItemService.ReviewedTodoItemsFrozen | src/main/java/net/javaguides/todo/service/impl/TodoItemServiceImpl.java:66-68 | On a reviewed todo, add, delete, tick and untick all fail with the same bad-request message |
| TodoItemService.DeleteIgnoresRouteTodo | src/main/java/net/javaguides/todo/service/impl/TodoItemServiceImpl.java:80-90 | The outcome of a delete does not depend on which existing todo the route names |
| TodoItemService.CompleteItemIsIdempotent | src/main/java/net/javaguides/todo/service/impl/TodoItemServiceImpl.java:102-104 | Ticking a ticked item, by anyone, returns it unchanged |
| TodoItemService.UncompleteItemIsIdempotent | src/main/java/net/javaguides/todo/service/impl/TodoItemServiceImpl.java:125-127 | Unticking an open item, by anyone, returns it unchanged |
| TodoItemService.TickUntickRestores | src/main/java/net/javaguides/todo/service/impl/TodoItemServiceImpl.java:102-142 | Ticking an open item and then unticking it by the same user restores the original item |
| TodoItemService.UntickNeedsCompleterOrAdmin | src/main/java/net/javaguides/todo/service/impl/TodoItemServiceImpl.java:132-138 | Unticking is FORBIDDEN exactly when the caller has no admin role and is not the recorded completer |
| TodoItemService.TickMakesParticipant | src/main/java/net/javaguides/todo/service/impl/TodoItemServiceImpl.java:110-112 | After ticking an item the caller is a participant of its todo |
| TodoItemService.OutcomesKeepItemOk | src/main/java/net/javaguides/todo/service/impl/TodoItemServiceImpl.java:59-145 | Every successful add, tick and untick yields an item that is completed exactly when it has a completer and a time |
| MessageService.MessageViewNamesAuthor | src/main/java/net/javaguides/todo/service/impl/MessageServiceImpl.java:85-99 | The view copies id, todo, author and content; the author's full name falls back to the username, and is the trimmed last name when there is no first name |
| MessageService.ThreadInIdOrderSpec | src/main/java/net/javaguides/todo/service/impl/MessageServiceImpl.java:33-36 | The thread has a view for a message id exactly when that message belongs to the todo and lies below the bound; the views come in strictly ascending message id, and each shows its own message |
| MessageService.ListMessagesByTodo | src/main/java/net/javaguides/todo/service/impl/MessageServiceImpl.java:31-40 | Not-found exactly when the todo is missing; otherwise the messages are ordered by creation time, earliest first, as a stable sort of the id-ordered thread, so equal times come in id order (the model's choice) |
| MessageService.ThreadIsTheTodosMessages | src/main/java/net/javaguides/todo/service/impl/MessageServiceImpl.java:33-39 | Given a bound above every message id, the listing holds exactly the todo's messages, each once |
| MessageService.AddMessage | src/main/java/net/javaguides/todo/service/impl/MessageServiceImpl.java:42-61 | Blank content, then not-found, then unknown caller; on success the message is stored under a fresh id; a failure changes nothing |
| MessageService.DeleteMessage | src/main/java/net/javaguides/todo/service/impl/MessageServiceImpl.java:63-83 | Not-found for the todo or the message, then author-or-admin; on success exactly that message is removed |
| MessageService.BlankContentRefusedFirst | src/main/java/net/javaguides/todo/service/impl/MessageServiceImpl.java:43-45 | A null or blank body is refused before the todo is looked up |
| MessageService.PostedMessageIsTrimmed | src/main/java/net/javaguides/todo/service/impl/MessageServiceImpl.java:47-58 | A posted message carries the trimmed, non-empty content, the caller as author and the time, even on a reviewed todo |
| MessageService.DeleteNeedsAuthorOrAdmin | src/main/java/net/javaguides/todo/service/impl/MessageServiceImpl.java:75-80 | A delete is FORBIDDEN exactly when the caller has no admin role and the author's username is not the requester's name |
| MessageService.AuthorSignedInByEmailIsRefused | src/main/java/net/javaguides/todo/service/impl/MessageServiceImpl.java:71-80 | A non-admin author signed in by an email different from their username cannot delete their own message |
| AuthService.NewAccount | src/main/java/net/javaguides/todo/service/impl/AuthServiceImpl.java:62-75 | The new account has the requested username and email and the role set {ROLE_USER}, so it is not an admin |
| AuthService.Register | src/main/java/net/javaguides/todo/service/impl/AuthServiceImpl.java:38-78 | On success exactly one account is appended; on failure the users table is unchanged |
| AuthService.RegisterSucceedsIff | src/main/java/net/javaguides/todo/service/impl/AuthServiceImpl.java:42-60 | Registration succeeds exactly when the username and email are both new, the email matches the pattern, and the password has at least 8 characters |
| AuthService.RegisterGuardOrder | src/main/java/net/javaguides/todo/service/impl/AuthServiceImpl.java:42-55 | The username check decides first, then the email, then the email shape |
| AuthService.RegisteredAccountIsFound | src/main/java/net/javaguides/todo/service/impl/AuthServiceImpl.java:62-77 | After registration the accounts stay unique and the lookup by the new username finds the new account, which is not an admin |
| AuthService.RegisterTwiceFails | src/main/java/net/javaguides/todo/service/impl/AuthServiceImpl.java:42-44 | Registering the same request a second time fails on the username |
| AuthService.LoginOutcome | src/main/java/net/javaguides/todo/service/impl/AuthServiceImpl.java:80-124 | Login succeeds exactly when an account matches and the credentials check passes; every failure carries the same UNAUTHORIZED message |
| AuthService.LoginFailuresIndistinguishable | src/main/java/net/javaguides/todo/service/impl/AuthServiceImpl.java:90-103 | An unknown account and a wrong password produce the identical error |
| Leaderboard.CollabCountPositiveIff | src/main/java/net/javaguides/todo/controller/LeaderboardController.java:30-34 | A user's collaboration count is positive exactly when they completed an item of a todo with at least two participants |
| Leaderboard.SingleParticipantAddsNothing | src/main/java/net/javaguides/todo/dto/CollabRowDto.java:8 | A todo with fewer than two participants adds nothing to anyone's count |
| Leaderboard.CollabBoard | src/main/java/net/javaguides/todo/controller/LeaderboardController.java:35-47 | The board is ordered by count, largest first, and is a permutation of the query rows mapped one to one to records (lines 38-45); each row is a user with that user's positive collaboration count and display name |
| Leaderboard.CollabQueryRow | src/main/java/net/javaguides/todo/controller/LeaderboardController.java:38-45 | Every mapped row names a real user with that user's count and display name |
| Leaderboard.CollabBoardComplete | src/main/java/net/javaguides/todo/controller/LeaderboardController.java:35-47 | Every user with a positive collaboration count is on the board |
| Leaderboard.CollabDetailRowsSpec | src/main/java/net/javaguides/todo/controller/LeaderboardController.java:57-66 | The detail records carry an item id exactly when the user completed that item, below the bound, on a todo with at least two participants; they come in strictly ascending item id, each with its item's title and completion time and its todo's id and title |
| Leaderboard.CollabDetails | src/main/java/net/javaguides/todo/controller/LeaderboardController.java:54-68 | The details are a stable sort of the detail records, latest completion first |
| Leaderboard.CollabDetailsAreEligibleItems | src/main/java/net/javaguides/todo/controller/LeaderboardController.java:54-68 | Every detail row is a completed item of that user, on that todo, and the todo has at least two participants |
| Leaderboard.CollabDetailsListEveryEligibleItem | src/main/java/net/javaguides/todo/controller/LeaderboardController.java:54-68 | Every item the user completed on a todo with at least two participants appears in the user's details |
| Leaderboard.FinishCountCountsTodos | src/main/java/net/javaguides/todo/controller/LeaderboardController.java:73 | The finish count is the number of todos whose completer reference is the user, each counted once |
| Leaderboard.ReopenLowersFinishCount | src/main/java/net/javaguides/todo/dto/FinisherRowDto.java:8 | Clearing a todo's completer lowers that user's finish count by exactly one |
| Leaderboard.FinisherBoard | src/main/java/net/javaguides/todo/controller/LeaderboardController.java:77-91 | The board is the query rows, mapped one to one to records (lines 81-86), re-sorted by finish count, largest first, as a permutation with the same length, and equal counts keep query order |
| Leaderboard.FinisherBoardRows | src/main/java/net/javaguides/todo/controller/LeaderboardController.java:80-89 | Each board row is a user with that user's positive finish count and first name, and every user with a positive finish count is on the board |
| Leaderboard.FinisherQueryRow | src/main/java/net/javaguides/todo/controller/LeaderboardController.java:80-86 | Every mapped finisher row names a real user with that user's count and first name |
| Leaderboard.FinisherQueryHas | src/main/java/net/javaguides/todo/controller/LeaderboardController.java:80-86 | Every user with a positive finish count has a mapped row |
| Leaderboard.FinisherDetailRowsSpec | src/main/java/net/javaguides/todo/controller/LeaderboardController.java:101-108 | The detail records carry a todo id exactly when that todo's completer is the user and it lies below the bound; they come in strictly ascending todo id, as many as the user's finish count, each with its todo's title and completion time |
| Leaderboard.FinisherDetails | src/main/java/net/javaguides/todo/controller/LeaderboardController.java:98-110 | The details are a stable sort of the detail records, latest completion first, with as many rows as the user's finish count |
| Leaderboard.FinisherDetailsAreTheUsersTodos | src/main/java/net/javaguides/todo/controller/LeaderboardController.java:98-110 | A todo appears in the user's finisher details exactly when its completer is the user (below the bound) |
| Leaderboard.FinisherDetailShowsItsTodo | src/main/java/net/javaguides/todo/controller/LeaderboardController.java:101-108 | Every finisher detail shows its own todo's title and completion time |

## Left out

- **Not modelled:**
  - HTTP status mapping, response wrapping and the exception handler's error bodies;
  - JWT issuance and the authentication manager;
  - password hashing. The encoder is a parameter of `Register`, and whether the credentials match is a boolean parameter of `LoginOutcome`;
  - the security context. The caller is an explicit `Principal`;
  - `@PrePersist` and the clock. Dates and times are integers passed in.
- **Framework configuration:** the Spring security filter chain and the start-up seeding of roles and the admin account.
- **Role pick at login:** login picks a role with `findFirst` over a hash set, whose order is unspecified. It is not modelled.
- **Role lookup at registration:** the ROLE_USER row is looked up in the role table. The model assumes the row exists. A missing row, which would make registration throw, is not modelled.
- **Null fields in the registration form:** a null email or password would throw a NullPointerException. This is not modelled; the fields are strings.
- **Database faults:** constraint violations, and failures inside the persistence layer, are not modelled.
- **Concurrency:** two requests racing past the same guard are not modelled. Each operation is atomic.
- `getTodo` and `getAllTodos`: plain lookups and mappings with no rule of their own; not modelled.
- **`toDto` of the todo service and the todo DTO class:** not modelled. The DTO class shown lacks fields the mapper sets.
- **ModelMapper:** `addTodo` maps the whole request onto a new todo. The model takes five of its fields: title, description, due date, completed and the overdue flag.
  - The request also carries `id`, `reviewed`, `reviewedBy`, `reviewedAt` and `completedAt`. The model drops them and always creates an unreviewed todo under a fresh id.
  - So the source can store a reviewed, uncompleted todo, which `Store.Valid` excludes. On such a todo every later update, complete and reopen is refused because it is reviewed, and a review is refused because it is not completed.
  - A request carrying an `id` goes to the repository's merge path instead of a fresh insert. That is not modelled either.
- **Floating point:**
  - summary progress is kept as an integer fraction, completed over total;
  - the participation share is kept as integer hundredths of a percent, rounded half up. This agrees with `Math.round(count*10000.0/total)` wherever the double division is exact.
- **Message length:** the 1–2000 bean-validation bound on a message is not enforced by the service and is not modelled.
- **Email validation size:** the email annotation's size limit is not modelled.
- **Summary of a missing todo:** `summary` does not check that the todo exists. The model follows that: a missing todo yields zero counts.
- **Ambiguous user lookup:**
  - `Model.FindUser` returns the first account, by id, whose username or email matches.
  - In the source, a name that is one account's username and another's email makes the repository fail with a non-unique result. That case is not modelled.
- **Password length:** `AuthService.RegisterSucceedsIff` counts Dafny characters. The source counts UTF-16 code units, so a password with characters outside the Basic Multilingual Plane is measured differently.
- **Unordered queries:** `findByCompletedTrueAndReviewedFalse`, `findByCompletedTrueAndReviewedTrue` and `findByDueDateBefore` have no ORDER BY. `TodoService.PendingReview`, `TodoService.Reviewed` and `TodoService.Overdue` list ids in ascending order as a modelling choice.
- **Message ties:** `findByTodo_IdOrderByCreatedAtAsc` leaves messages with equal creation times in no stated order. `MessageService.ListMessagesByTodo` puts them in ascending id as a modelling choice.
- **Leaderboard queries:**
  - `Leaderboard.CollabBoard` assumes that the collaboration query returns one row per user, ordered by count. The query text is not part of this model.
  - `Leaderboard.FinisherBoard` assumes the finisher query's rows come in user id order.
  - The detail queries are assumed to order by completion time, latest first, with ties in id order.
- **Finish count:** `Leaderboard.FinishCountCountsTodos` counts the completer reference only. A todo that `updateTodo` marked not completed, while it still has its completer reference, still counts, as the reference query would count it.
