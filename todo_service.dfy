/** TodoServiceImpl: the todo lifecycle (create, update, delete, complete,
    reopen, review), its read-side lists and counts, and the participation
    figures of one todo. Each state-changing operation is a method that
    changes the store field by field, proved equal to an outcome function
    that states the guards in the order the service checks them. */
module TodoService {
  import opened Common
  import opened Seqs
  import opened Model

  /** The request-body fields the service reads: addTodo maps all five,
      updateTodo copies the first four. */
  datatype TodoInput = TodoInput(
    title: string,
    description: string,
    dueDate: Option<Date>,
    completed: bool,
    overdue: bool)

  // ---------------------------------------------------------------------
  // The overdue flag: each operation has its own rule

  /** addTodo and completeTodo: set when past due, otherwise left alone. */
  function RaiseOverdue(flag: bool, due: Option<Date>, today: Date): (r: bool)
    ensures r <==> flag || PastDue(due, today)
  {
    if PastDue(due, today) then true else flag
  }

  /** updateTodo: set when past due; cleared only when set and the due date
      lies strictly after today; otherwise left alone. */
  function UpdatedOverdue(flag: bool, due: Option<Date>, today: Date): (r: bool)
    ensures PastDue(due, today) ==> r
    ensures !PastDue(due, today) && FutureDue(due, today) ==> !r
    ensures !PastDue(due, today) && !FutureDue(due, today) ==> r == flag
  {
    var f := flag;
    var f := if PastDue(due, today) then true else f;
    if f && FutureDue(due, today) then false else f
  }

  /** The update rule and the reopen rule disagree on a todo due today whose
      flag is set: the update keeps the flag, the reopen clears it. */
  lemma OverdueRulesDisagree(today: Date)
    ensures UpdatedOverdue(true, Some(today), today) == true
    ensures PastDue(Some(today), today) == false
  {
  }

  // ---------------------------------------------------------------------
  // addTodo

  /** The row addTodo stores: the mapped fields, today's creation date, no
      completion or review, and the overdue flag raised when past due. */
  function NewTodo(input: TodoInput, today: Date): (t: Todo)
    ensures t.createdDate == today && !t.reviewed && t.completedBy.None?
    ensures t.overdue <==> input.overdue || PastDue(input.dueDate, today)
  {
    Todo(input.title, input.description, input.dueDate, today, input.completed, false,
         None, None, None, None, RaiseOverdue(input.overdue, input.dueDate, today))
  }

  method AddTodo(db: Store, input: TodoInput, today: Date, caller: Principal) returns (id: Id, t: Todo)
    requires db.Valid() && CanManage(caller)
    modifies db`todos, db`nextTodo
    ensures db.Valid()
    ensures id == old(db.nextTodo) && id !in old(db.todos)
    ensures t == NewTodo(input, today)
    ensures db.todos == old(db.todos)[id := t] && db.nextTodo == id + 1
  {
    t := Todo(input.title, input.description, input.dueDate, 0, input.completed, false,
              None, None, None, None, input.overdue);
    t := t.(createdDate := today);
    if PastDue(t.dueDate, today) {
      t := t.(overdue := true);
    }
    id := db.nextTodo;
    PutTodoKeepsTables(db.users, db.todos, db.items, db.messages, db.nextTodo, db.nextItem, db.nextMessage, id, t, db.nextTodo + 1);
    db.todos := db.todos[id := t];
    db.nextTodo := db.nextTodo + 1;
  }

  // ---------------------------------------------------------------------
  // updateTodo

  function UpdateOutcome(todos: map<Id, Todo>, id: Id, input: TodoInput, today: Date): Result<Todo> {
    if id !in todos then Failure(TodoNotFound(id))
    else if todos[id].reviewed then Failure(ApiError(BadRequest, MsgReviewedCannotBeEdited))
    else
      var t := todos[id];
      Success(t.(title := input.title, description := input.description, dueDate := input.dueDate,
                 completed := input.completed, overdue := UpdatedOverdue(t.overdue, input.dueDate, today)))
  }

  /** The setters run before the review guard, but a failed request saves
      nothing, so a reviewed todo is left as it was. */
  method UpdateTodo(db: Store, input: TodoInput, id: Id, today: Date, caller: Principal) returns (r: Result<Todo>)
    requires db.Valid() && CanManage(caller)
    modifies db`todos
    ensures db.Valid()
    ensures r == UpdateOutcome(old(db.todos), id, input, today)
    ensures db.todos == if r.Success? then old(db.todos)[id := r.value] else old(db.todos)
  {
    if id !in db.todos {
      return Failure(TodoNotFound(id));
    }
    var t := db.todos[id];
    t := t.(title := input.title);
    t := t.(description := input.description);
    t := t.(dueDate := input.dueDate);
    t := t.(completed := input.completed);
    if t.reviewed {
      return Failure(ApiError(BadRequest, MsgReviewedCannotBeEdited));
    }
    if PastDue(t.dueDate, today) {
      t := t.(overdue := true);
    }
    if t.overdue && FutureDue(t.dueDate, today) {
      t := t.(overdue := false);
    }
    PutTodoKeepsTables(db.users, db.todos, db.items, db.messages, db.nextTodo, db.nextItem, db.nextMessage, id, t, db.nextTodo);
    db.todos := db.todos[id := t];
    r := Success(t);
  }

  // ---------------------------------------------------------------------
  // deleteTodo

  /** Deleting a todo removes its items and messages with it (orphan
      removal); there is no review guard. */
  method DeleteTodo(db: Store, id: Id, caller: Principal) returns (r: Result<()>)
    requires db.Valid() && CanManage(caller)
    modifies db`todos, db`items, db`messages
    ensures db.Valid()
    ensures id !in old(db.todos) ==> r == Failure(TodoNotFound(id)) && unchanged(db)
    ensures id in old(db.todos) ==>
      && r == Success(())
      && db.todos == old(db.todos) - {id}
      && (forall k :: k in db.items <==> k in old(db.items) && old(db.items)[k].todo != id)
      && (forall k :: k in db.items ==> db.items[k] == old(db.items)[k])
      && (forall k :: k in db.messages <==> k in old(db.messages) && old(db.messages)[k].todo != id)
      && (forall k :: k in db.messages ==> db.messages[k] == old(db.messages)[k])
  {
    if id !in db.todos {
      return Failure(TodoNotFound(id));
    }
    RemoveTodoKeepsTables(db.users, db.todos, db.items, db.messages, db.nextTodo, db.nextItem, db.nextMessage, id);
    db.items := WithoutTodo(db.items, ItemTodo, id);
    db.messages := WithoutTodo(db.messages, MessageTodo, id);
    db.todos := db.todos - {id};
    r := Success(());
  }

  // ---------------------------------------------------------------------
  // completeTodo

  /** countByTodo_Id(id) > 0 */
  predicate HasItems(items: map<Id, Item>, todo: Id) {
    exists k :: k in items && items[k].todo == todo
  }

  /** The first name of the recorded completer as string concatenation
      renders it. */
  function CompleterName(users: seq<User>, u: Id): string {
    if u < |users| then OrNull(users[u].firstName) else "null"
  }

  function CompleteOutcome(users: seq<User>, todos: map<Id, Todo>, items: map<Id, Item>,
                           id: Id, callerName: string, today: Date, now: Time): Result<Todo>
  {
    if id !in todos then Failure(TodoNotFound(id))
    else
      var t := todos[id];
      if t.reviewed then Failure(ApiError(BadRequest, MsgReviewedCannotComplete))
      else match FindUser(users, callerName)
        case None => Failure(UsernameNotFound)
        case Some(u) =>
          if t.completed then
            if t.completedBy.Some? && t.completedBy.value != u then
              Failure(ApiError(Conflict, MsgAlreadyCompletedBy + CompleterName(users, t.completedBy.value)))
            else Success(t)
          else if HasItems(items, id) && HasIncompleteItem(items, id) then
            Failure(ApiError(Conflict, MsgItemsIncomplete))
          else if HasItems(items, id) && !IsParticipant(users, items, id, users[u].username) then
            Failure(ApiError(Forbidden, MsgOnlyParticipants))
          else
            Success(t.(completed := true, reviewed := false,
                       overdue := RaiseOverdue(t.overdue, t.dueDate, today),
                       completedBy := Some(u), completedAt := Some(now)))
  }

  lemma ItemCountPositive(items: map<Id, Item>, todo: Id, hi: nat)
    requires forall k :: k in items ==> k < hi
    ensures CountItems(items, todo, hi) > 0 <==> HasItems(items, todo)
  {
    var ids := AscendingKeys(items, OfTodo(todo), hi);
    if ids != [] {
      assert ids[0] in ids;
    }
    if HasItems(items, todo) {
      var k :| k in items && items[k].todo == todo;
      assert k in ids;
    }
  }

  /** An already-completed todo is returned as it is unless another user
      completed it; otherwise the caller must have completed one of its
      items, all of which must be done, and the todo is stamped with the
      caller and now. */
  method CompleteTodo(db: Store, id: Id, caller: Principal, today: Date, now: Time) returns (r: Result<Todo>)
    requires db.Valid() && CanUse(caller)
    modifies db`todos
    ensures db.Valid()
    ensures r == CompleteOutcome(old(db.users), old(db.todos), old(db.items), id, caller.name, today, now)
    ensures db.todos == if r.Success? then old(db.todos)[id := r.value] else old(db.todos)
  {
    if id !in db.todos {
      return Failure(TodoNotFound(id));
    }
    var t := db.todos[id];
    if t.reviewed {
      return Failure(ApiError(BadRequest, MsgReviewedCannotComplete));
    }
    var found := FindUser(db.users, caller.name);
    if found.None? {
      return Failure(UsernameNotFound);
    }
    var u := found.value;
    if t.completed {
      if t.completedBy.Some? && t.completedBy.value != u {
        return Failure(ApiError(Conflict, MsgAlreadyCompletedBy + CompleterName(db.users, t.completedBy.value)));
      }
      return Success(t);
    }
    var itemsTotal := CountItems(db.items, id, db.nextItem);
    ItemCountPositive(db.items, id, db.nextItem);
    if itemsTotal > 0 {
      if HasIncompleteItem(db.items, id) {
        return Failure(ApiError(Conflict, MsgItemsIncomplete));
      }
      if !IsParticipant(db.users, db.items, id, db.users[u].username) {
        return Failure(ApiError(Forbidden, MsgOnlyParticipants));
      }
    }
    t := t.(completed := true);
    t := t.(reviewed := false);
    if PastDue(t.dueDate, today) {
      t := t.(overdue := true);
    }
    t := t.(completedBy := Some(u));
    t := t.(completedAt := Some(now));
    PutTodoKeepsTables(db.users, db.todos, db.items, db.messages, db.nextTodo, db.nextItem, db.nextMessage, id, t, db.nextTodo);
    db.todos := db.todos[id := t];
    r := Success(t);
  }

  // ---------------------------------------------------------------------
  // inCompleteTodo

  /** The admin flag comes from the caller's granted authorities. */
  function InCompleteOutcome(users: seq<User>, todos: map<Id, Todo>, id: Id, caller: Principal, today: Date): Result<Todo> {
    if id !in todos then Failure(TodoNotFound(id))
    else
      var t := todos[id];
      if t.reviewed then Failure(ApiError(BadRequest, MsgReviewedCannotIncomplete))
      else if !t.completed then Success(t)
      else match FindUser(users, caller.name)
        case None => Failure(UsernameNotFound)
        case Some(u) =>
          if !CanManage(caller) && t.completedBy != Some(u) then
            Failure(ApiError(Forbidden, MsgOnlyFinisherOrAdmin))
          else
            Success(t.(completed := false, completedBy := None, completedAt := None,
                       reviewed := false, reviewedBy := None, reviewedAt := None,
                       overdue := PastDue(t.dueDate, today)))
  }

  method InCompleteTodo(db: Store, id: Id, caller: Principal, today: Date) returns (r: Result<Todo>)
    requires db.Valid() && CanUse(caller)
    modifies db`todos
    ensures db.Valid()
    ensures r == InCompleteOutcome(old(db.users), old(db.todos), id, caller, today)
    ensures db.todos == if r.Success? then old(db.todos)[id := r.value] else old(db.todos)
  {
    if id !in db.todos {
      return Failure(TodoNotFound(id));
    }
    var t := db.todos[id];
    if t.reviewed {
      return Failure(ApiError(BadRequest, MsgReviewedCannotIncomplete));
    }
    if !t.completed {
      return Success(t);
    }
    var isAdmin := RoleAdmin in caller.authorities;
    var found := FindUser(db.users, caller.name);
    if found.None? {
      return Failure(UsernameNotFound);
    }
    var isOwner := t.completedBy.Some? && t.completedBy.value == found.value;
    if !isAdmin && !isOwner {
      return Failure(ApiError(Forbidden, MsgOnlyFinisherOrAdmin));
    }
    t := t.(completed := false);
    t := t.(completedBy := None);
    t := t.(completedAt := None);
    t := t.(reviewed := false);
    t := t.(reviewedBy := None);
    t := t.(reviewedAt := None);
    if t.dueDate.Some? {
      t := t.(overdue := t.dueDate.value < today);
    } else {
      t := t.(overdue := false);
    }
    PutTodoKeepsTables(db.users, db.todos, db.items, db.messages, db.nextTodo, db.nextItem, db.nextMessage, id, t, db.nextTodo);
    db.todos := db.todos[id := t];
    r := Success(t);
  }

  // ---------------------------------------------------------------------
  // reviewTodo

  /** There is no guard against reviewing twice: a second review restamps. */
  function ReviewOutcome(users: seq<User>, todos: map<Id, Todo>, id: Id, callerName: string, now: Time): Result<Todo> {
    if id !in todos then Failure(TodoNotFound(id))
    else
      var t := todos[id];
      if !t.completed then Failure(IllegalState(MsgCannotReview))
      else match FindUser(users, callerName)
        case None => Failure(UsernameNotFound)
        case Some(u) => Success(t.(reviewed := true, reviewedBy := users[u].firstName, reviewedAt := Some(now)))
  }

  method ReviewTodo(db: Store, id: Id, caller: Principal, now: Time) returns (r: Result<Todo>)
    requires db.Valid() && CanManage(caller)
    modifies db`todos
    ensures db.Valid()
    ensures r == ReviewOutcome(old(db.users), old(db.todos), id, caller.name, now)
    ensures db.todos == if r.Success? then old(db.todos)[id := r.value] else old(db.todos)
  {
    if id !in db.todos {
      return Failure(TodoNotFound(id));
    }
    var t := db.todos[id];
    if !t.completed {
      return Failure(IllegalState(MsgCannotReview));
    }
    t := t.(reviewed := true);
    var found := FindUser(db.users, caller.name);
    if found.None? {
      return Failure(UsernameNotFound);
    }
    t := t.(reviewedBy := db.users[found.value].firstName);
    t := t.(reviewedAt := Some(now));
    PutTodoKeepsTables(db.users, db.todos, db.items, db.messages, db.nextTodo, db.nextItem, db.nextMessage, id, t, db.nextTodo);
    db.todos := db.todos[id := t];
    r := Success(t);
  }

  // ---------------------------------------------------------------------
  // Properties of the lifecycle

  /** A reviewed todo cannot be edited, completed or reopened, each with its
      own bad-request message. */
  lemma ReviewedTodoIsFrozen(users: seq<User>, todos: map<Id, Todo>, items: map<Id, Item>,
                             id: Id, input: TodoInput, caller: Principal, today: Date, now: Time)
    requires id in todos && todos[id].reviewed
    ensures UpdateOutcome(todos, id, input, today) == Failure(ApiError(BadRequest, MsgReviewedCannotBeEdited))
    ensures CompleteOutcome(users, todos, items, id, caller.name, today, now) == Failure(ApiError(BadRequest, MsgReviewedCannotComplete))
    ensures InCompleteOutcome(users, todos, id, caller, today) == Failure(ApiError(BadRequest, MsgReviewedCannotIncomplete))
  {
  }

  /** Reviewing fails with the distinct illegal-state error exactly when the
      todo exists and is not completed. */
  lemma ReviewNeedsCompletion(users: seq<User>, todos: map<Id, Todo>, id: Id, callerName: string, now: Time)
    requires id in todos
    ensures ReviewOutcome(users, todos, id, callerName, now) == Failure(IllegalState(MsgCannotReview)) <==> !todos[id].completed
  {
  }

  /** Completion gating: while one of a todo's items is open, completing the
      todo fails with a conflict, whoever asks. */
  lemma OpenItemBlocksCompletion(users: seq<User>, todos: map<Id, Todo>, items: map<Id, Item>,
                                 id: Id, callerName: string, today: Date, now: Time, open: Id)
    requires id in todos && !todos[id].reviewed && !todos[id].completed
    requires FindUser(users, callerName).Some?
    requires open in items && items[open].todo == id && !items[open].completed
    ensures CompleteOutcome(users, todos, items, id, callerName, today, now) == Failure(ApiError(Conflict, MsgItemsIncomplete))
  {
  }

  /** Participation gating: once all of a todo's items are done, completing
      it is forbidden exactly for the callers who completed none of them. */
  lemma OnlyParticipantsComplete(users: seq<User>, todos: map<Id, Todo>, items: map<Id, Item>,
                                 id: Id, callerName: string, today: Date, now: Time)
    requires id in todos && !todos[id].reviewed && !todos[id].completed
    requires HasItems(items, id) && !HasIncompleteItem(items, id)
    requires FindUser(users, callerName).Some?
    ensures var u := FindUser(users, callerName).value;
      CompleteOutcome(users, todos, items, id, callerName, today, now) == Failure(ApiError(Forbidden, MsgOnlyParticipants))
      <==> !IsParticipant(users, items, id, users[u].username)
  {
  }

  /** A todo without items can be completed by any known caller. */
  lemma NoItemsAnyoneCompletes(users: seq<User>, todos: map<Id, Todo>, items: map<Id, Item>,
                               id: Id, callerName: string, today: Date, now: Time)
    requires id in todos && !todos[id].reviewed && !todos[id].completed
    requires !HasItems(items, id)
    requires FindUser(users, callerName).Some?
    ensures var r := CompleteOutcome(users, todos, items, id, callerName, today, now);
      r.Success? && r.value.completed && r.value.completedBy == FindUser(users, callerName)
  {
  }

  /** Completing is idempotent for the completer: completing again later
      returns the stored todo unchanged, with no new time stamp. */
  lemma CompleteIsIdempotent(users: seq<User>, todos: map<Id, Todo>, items: map<Id, Item>,
                             id: Id, callerName: string, today: Date, now: Time, later: Date, laterNow: Time)
    requires CompleteOutcome(users, todos, items, id, callerName, today, now).Success?
    ensures var t := CompleteOutcome(users, todos, items, id, callerName, today, now).value;
      CompleteOutcome(users, todos[id := t], items, id, callerName, later, laterNow) == Success(t)
  {
  }

  /** A todo completed by one user cannot be completed by another: the
      conflict names the first completer. */
  lemma CompletedByOtherConflicts(users: seq<User>, todos: map<Id, Todo>, items: map<Id, Item>,
                                  id: Id, callerName: string, today: Date, now: Time)
    requires id in todos && !todos[id].reviewed && todos[id].completed
    requires todos[id].completedBy.Some?
    requires FindUser(users, callerName).Some? && FindUser(users, callerName).value != todos[id].completedBy.value
    ensures CompleteOutcome(users, todos, items, id, callerName, today, now)
      == Failure(ApiError(Conflict, MsgAlreadyCompletedBy + CompleterName(users, todos[id].completedBy.value)))
  {
  }

  /** Reopen authorization: on a completed, unreviewed todo, a known caller
      is refused exactly when they are neither admin nor the completer. */
  lemma ReopenNeedsCompleterOrAdmin(users: seq<User>, todos: map<Id, Todo>, id: Id, caller: Principal, today: Date)
    requires id in todos && !todos[id].reviewed && todos[id].completed
    requires FindUser(users, caller.name).Some?
    ensures InCompleteOutcome(users, todos, id, caller, today) == Failure(ApiError(Forbidden, MsgOnlyFinisherOrAdmin))
      <==> !CanManage(caller) && todos[id].completedBy != FindUser(users, caller.name)
  {
  }

  /** Reopening then completing by the same caller restores a completed
      todo without review and with the caller as completer. */
  lemma ReopenThenComplete(users: seq<User>, todos: map<Id, Todo>, items: map<Id, Item>,
                           id: Id, caller: Principal, today: Date, now: Time)
    requires InCompleteOutcome(users, todos, id, caller, today).Success?
    requires !HasItems(items, id)
    requires FindUser(users, caller.name).Some?
    ensures var t := InCompleteOutcome(users, todos, id, caller, today).value;
      var r := CompleteOutcome(users, todos[id := t], items, id, caller.name, today, now);
      r.Success? && r.value.completed && !r.value.reviewed && r.value.completedBy == FindUser(users, caller.name)
  {
  }

  /** Every outcome keeps the row consistent: review implies completion,
      and completer and completion time go together. */
  lemma {:induction false} OutcomesKeepTodoOk(users: seq<User>, todos: map<Id, Todo>, items: map<Id, Item>,
                                              id: Id, input: TodoInput, caller: Principal, today: Date, now: Time)
    requires id in todos && TodoOk(todos[id], |users|)
    ensures var r := UpdateOutcome(todos, id, input, today); r.Success? ==> TodoOk(r.value, |users|)
    ensures var r := CompleteOutcome(users, todos, items, id, caller.name, today, now); r.Success? ==> TodoOk(r.value, |users|)
    ensures var r := InCompleteOutcome(users, todos, id, caller, today); r.Success? ==> TodoOk(r.value, |users|)
    ensures var r := ReviewOutcome(users, todos, id, caller.name, now); r.Success? ==> TodoOk(r.value, |users|) && r.value.reviewed
  {
  }

  // ---------------------------------------------------------------------
  // Read side: lists and counts

  function PendingReviewTest(): Todo -> bool {
    (t: Todo) => t.completed && !t.reviewed
  }

  function ReviewedTest(): Todo -> bool {
    (t: Todo) => t.completed && t.reviewed
  }

  function OverdueTest(today: Date): Todo -> bool {
    (t: Todo) => PastDue(t.dueDate, today) && !t.completed
  }

  /** findByCompletedTrueAndReviewedFalse, in id order. */
  function PendingReview(todos: map<Id, Todo>, hi: nat): (r: seq<Id>)
    requires forall k :: k in todos ==> k < hi
    ensures forall k :: k in r <==> k in todos && todos[k].completed && !todos[k].reviewed
  {
    AscendingKeys(todos, PendingReviewTest(), hi)
  }

  /** findByCompletedTrueAndReviewedTrue, in id order. */
  function Reviewed(todos: map<Id, Todo>, hi: nat): (r: seq<Id>)
    requires forall k :: k in todos ==> k < hi
    ensures forall k :: k in r <==> k in todos && todos[k].completed && todos[k].reviewed
  {
    AscendingKeys(todos, ReviewedTest(), hi)
  }

  /** getOverdueTodos: the todos due before today and not completed, the
      stored flag notwithstanding. */
  function Overdue(todos: map<Id, Todo>, hi: nat, today: Date): (r: seq<Id>)
    requires forall k :: k in todos ==> k < hi
    ensures forall i, j :: 0 <= i < j < |r| ==> r[i] < r[j]
    ensures forall k :: k in r <==> k in todos && PastDue(todos[k].dueDate, today) && !todos[k].completed
  {
    AscendingKeys(todos, OverdueTest(today), hi)
  }

  datatype Stats = Stats(total: nat, completed: nat, pendingReview: nat, reviewed: nat, overdue: nat)

  /** getTodoStatistics: five counts over all todos. */
  function Statistics(todos: map<Id, Todo>, today: Date): Stats {
    Stats(|todos|, |CompletedIds(todos)|, |PendingIds(todos)|, |ReviewedIds(todos)|, |OverdueIds(todos, today)|)
  }

  function CompletedIds(todos: map<Id, Todo>): set<Id> {
    set k | k in todos && todos[k].completed
  }

  function PendingIds(todos: map<Id, Todo>): set<Id> {
    set k | k in todos && todos[k].completed && !todos[k].reviewed
  }

  function ReviewedIds(todos: map<Id, Todo>): set<Id> {
    set k | k in todos && todos[k].reviewed
  }

  function OverdueIds(todos: map<Id, Todo>, today: Date): set<Id> {
    set k | k in todos && PastDue(todos[k].dueDate, today) && !todos[k].completed
  }

  /** pendingReview <= completed <= total; with reviewed todos completed,
      reviewed and pending review split the completed ones. */
  lemma StatisticsConsistent(todos: map<Id, Todo>, today: Date)
    ensures var s := Statistics(todos, today);
      s.pendingReview <= s.completed <= s.total && s.overdue + s.completed <= s.total
    ensures (forall k :: k in todos ==> todos[k].reviewed ==> todos[k].completed) ==>
      var s := Statistics(todos, today); s.reviewed + s.pendingReview == s.completed
  {
    var all := todos.Keys;
    var c := CompletedIds(todos);
    var p := PendingIds(todos);
    var o := OverdueIds(todos, today);
    SubsetCard(p, c);
    SubsetCard(c, all);
    assert o * c == {};
    SubsetCard(o + c, all);
    if forall k :: k in todos ==> todos[k].reviewed ==> todos[k].completed {
      var rv := ReviewedIds(todos);
      assert c == rv + p;
      assert rv * p == {};
    }
  }

  lemma OverdueCountMatchesList(todos: map<Id, Todo>, hi: nat, today: Date)
    requires forall k :: k in todos ==> k < hi
    ensures Statistics(todos, today).overdue == |Overdue(todos, hi, today)|
  {
    var r := Overdue(todos, hi, today);
    AscendingCard(r);
    assert Elements(r) == OverdueIds(todos, today);
  }

  /** A todo due before today and not completed is listed as overdue;
      completing it takes it off the list, whatever its due date. */
  lemma OverdueUntilCompleted(users: seq<User>, todos: map<Id, Todo>, items: map<Id, Item>, hi: nat,
                              id: Id, callerName: string, today: Date, now: Time)
    requires forall k :: k in todos ==> k < hi
    requires id in todos
    requires PastDue(todos[id].dueDate, today) && !todos[id].completed
    ensures id in Overdue(todos, hi, today)
    ensures var r := CompleteOutcome(users, todos, items, id, callerName, today, now);
      r.Success? ==> r.value.overdue && id !in Overdue(todos[id := r.value], hi, today)
  {
  }

  // ---------------------------------------------------------------------
  // Participation

  /** getParticipationStats: username -> number of the todo's items that
      user completed, for every user who completed one. */
  method GetParticipationStats(db: Store, todoId: Id, caller: Principal) returns (stats: map<string, nat>)
    requires db.Valid() && CanUse(caller)
    ensures var rows := Participation(db.users, db.items, todoId, db.nextItem);
      && (forall row :: row in rows ==> row.name in stats && stats[row.name] == row.count)
      && (forall name :: name in stats ==> exists row :: row in rows && row.name == name)
  {
    var rows := Participation(db.users, db.items, todoId, db.nextItem);
    ParticipationNamesDistinct(db.users, db.items, todoId, db.nextItem, |db.users|);
    stats := map[];
    for i := 0 to |rows|
      invariant forall j :: 0 <= j < i ==> rows[j].name in stats && stats[rows[j].name] == rows[j].count
      invariant forall name :: name in stats ==> exists j :: 0 <= j < i && rows[j].name == name
    {
      stats := stats[rows[i].name := rows[i].count];
    }
    forall row | row in rows ensures row.name in stats && stats[row.name] == row.count {
      var j :| 0 <= j < |rows| && rows[j] == row;
    }
  }

  /** Math.round(count * 10000.0 / total) / 100.0, as a whole number of
      hundredths of a percent: 10000 * count / total rounded half up, and 0
      when total is 0. */
  function PercentHundredths(count: nat, total: nat): (r: nat)
    ensures total == 0 ==> r == 0
    ensures total > 0 ==> 2 * total * r <= 20000 * count + total < 2 * total * r + 2 * total
  {
    if total == 0 then 0 else (20000 * count + total) / (2 * total)
  }

  /** A share is at most 100%. */
  lemma PercentAtMostWhole(count: nat, total: nat)
    requires count <= total
    ensures PercentHundredths(count, total) <= 10000
  {
    if total > 0 {
      var x := 20000 * count + total;
      var d := 2 * total;
      var q := x / d;
      assert d * q <= x < d * 10001;
      if q > 10000 {
        MulMono(10001, q, d);
      }
    }
  }

  lemma MulMono(a: nat, b: nat, c: nat)
    requires a <= b
    ensures c * a <= c * b
  {
    var diff := b - a;
    assert c * b == c * a + c * diff;
  }

  datatype ParticipantEntry = ParticipantEntry(username: string, count: nat, percentHundredths: nat)

  /** The entries built from the query rows, in row order. */
  function Entries(rows: seq<CountRow>, total: nat): (r: seq<ParticipantEntry>)
    ensures |r| == |rows|
    ensures forall i :: 0 <= i < |r| ==>
      r[i] == ParticipantEntry(rows[i].name, rows[i].count, PercentHundredths(rows[i].count, total))
  {
    if rows == [] then []
    else Entries(rows[..|rows| - 1], total) + [Entry(rows[|rows| - 1], total)]
  }

  function Entry(row: CountRow, total: nat): ParticipantEntry {
    ParticipantEntry(row.name, row.count, PercentHundredths(row.count, total))
  }

  function EntryCount(e: ParticipantEntry): int {
    e.count
  }

  datatype ParticipationDetail = ParticipationDetail(
    todoId: Id,
    eligibleForCollabBoard: bool,
    totalCompletedItems: nat,
    currentUserIsParticipant: bool,
    participants: seq<ParticipantEntry>)

  lemma SumCountsStep(rows: seq<CountRow>, i: nat)
    requires i < |rows|
    ensures SumCounts(rows[..i + 1]) == SumCounts(rows[..i]) + rows[i].count
  {
    assert rows[..i + 1][..i] == rows[..i];
  }

  lemma EntriesStep(rows: seq<CountRow>, i: nat, total: nat)
    requires i < |rows|
    ensures Entries(rows[..i + 1], total) == Entries(rows[..i], total) + [Entry(rows[i], total)]
  {
    assert rows[..i + 1][..i] == rows[..i];
  }

  /** getParticipationDetail: the total of the per-user counts, eligibility
      (at least two participants), whether the caller is a participant, and
      the entries sorted by count, largest first, ties in row order. */
  method GetParticipationDetail(db: Store, todoId: Id, caller: Principal) returns (r: ParticipationDetail)
    requires db.Valid() && CanUse(caller)
    ensures var rows := Participation(db.users, db.items, todoId, db.nextItem);
      && r.todoId == todoId
      && r.totalCompletedItems == SumCounts(rows)
      && (r.eligibleForCollabBoard <==> |rows| >= 2)
      && (r.currentUserIsParticipant <==> IsParticipant(db.users, db.items, todoId, caller.name))
      && IsStableSortDesc(r.participants, Entries(rows, SumCounts(rows)), EntryCount)
  {
    var rows := Participation(db.users, db.items, todoId, db.nextItem);
    var total := 0;
    for i := 0 to |rows|
      invariant total == SumCounts(rows[..i])
    {
      SumCountsStep(rows, i);
      total := total + rows[i].count;
    }
    assert rows[..|rows|] == rows;
    var eligible := |rows| >= 2;
    var currentIsParticipant := IsParticipant(db.users, db.items, todoId, caller.name);
    var participants := [];
    for i := 0 to |rows|
      invariant participants == Entries(rows[..i], total)
    {
      EntriesStep(rows, i, total);
      participants := participants + [Entry(rows[i], total)];
    }
    assert rows[..|rows|] == rows;
    SortDescIsStable(participants, EntryCount);
    participants := SortDesc(participants, EntryCount);
    r := ParticipationDetail(todoId, eligible, total, currentIsParticipant, participants);
  }

  /** Three participants with 5, 3 and 2 items get 50%, 30% and 20%, in
      that order. */
  lemma ParticipationExample()
    ensures var rows := [CountRow("a", 5), CountRow("b", 3), CountRow("c", 2)];
      SumCounts(rows) == 10 &&
      SortDesc(Entries(rows, 10), EntryCount) ==
        [ParticipantEntry("a", 5, 5000), ParticipantEntry("b", 3, 3000), ParticipantEntry("c", 2, 2000)]
  {
    var rows := [CountRow("a", 5), CountRow("b", 3), CountRow("c", 2)];
    assert rows[..2][..1] == [CountRow("a", 5)];
    assert [CountRow("a", 5)][..0] == [];
    assert rows[..2] == [CountRow("a", 5), CountRow("b", 3)];
    assert SumCounts([CountRow("a", 5)]) == 5;
    assert SumCounts(rows[..2]) == 8;
    assert SumCounts(rows) == 10;
    var e := [ParticipantEntry("a", 5, 5000), ParticipantEntry("b", 3, 3000), ParticipantEntry("c", 2, 2000)];
    assert Entries(rows, 10) == e;
    assert SortedDesc(e, EntryCount);
    SortDescIsStable(e, EntryCount);
    assert IsStableSortDesc(e, e, EntryCount);
    StableSortDescUnique(e, e, EntryCount);
  }
}
