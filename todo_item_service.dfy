/** TodoItemServiceImpl: the checklist items of a todo. Items are listed
    and counted per todo; adding and deleting need the admin role, ticking
    and unticking any role; none of them is allowed once the todo is
    reviewed. */
module TodoItemService {
  import opened Common
  import opened Text
  import opened Seqs
  import opened Model

  /** The consistency of the items table that the read side relies on. */
  ghost predicate ItemsOk(users: seq<User>, todos: map<Id, Todo>, items: map<Id, Item>) {
    forall k :: k in items ==> ItemOk(items[k], todos, |users|)
  }

  // ---------------------------------------------------------------------
  // The item view

  datatype ItemView = ItemView(
    id: Id,
    todoId: Id,
    title: string,
    completed: bool,
    completedById: Option<Id>,
    completedByName: Option<string>,
    completedAt: Option<Time>,
    createdAt: Time)

  /** The display name of the item's completer, if any. */
  function CompleterDisplayName(users: seq<User>, completer: Option<Id>): (r: Option<string>)
    requires completer.Some? ==> completer.value < |users|
    ensures r.Some? <==> completer.Some?
  {
    match completer
    case None => None
    case Some(u) => Some(DisplayName(users[u].firstName, users[u].lastName, users[u].username))
  }

  function ItemToView(users: seq<User>, id: Id, it: Item): (v: ItemView)
    requires it.completedBy.Some? ==> it.completedBy.value < |users|
  {
    ItemView(id, it.todo, it.title, it.completed, it.completedBy,
             CompleterDisplayName(users, it.completedBy), it.completedAt, it.createdAt)
  }

  /** A consistent item shows a completer, by id and by name, exactly when it
      is completed; a completer without a last or first name is shown by
      username. */
  lemma ItemViewShowsCompleter(users: seq<User>, todos: map<Id, Todo>, id: Id, it: Item)
    requires ItemOk(it, todos, |users|)
    ensures var v := ItemToView(users, id, it);
      && v.id == id && v.todoId == it.todo && v.title == it.title
      && (v.completedById.Some? <==> it.completed)
      && (v.completedByName.Some? <==> it.completed)
      && (it.completed && users[it.completedBy.value].firstName.None? && users[it.completedBy.value].lastName.None? ==>
            v.completedByName == Some(users[it.completedBy.value].username))
  {
  }

  // ---------------------------------------------------------------------
  // Read side

  /** listByTodo: the views of the todo's items in id order, or not-found
      for a missing todo. */
  function ListByTodo(users: seq<User>, todos: map<Id, Todo>, items: map<Id, Item>, todoId: Id, hi: nat): (r: Result<seq<ItemView>>)
    requires ItemsOk(users, todos, items)
    requires forall k :: k in items ==> k < hi
    ensures r.Failure? <==> todoId !in todos
    ensures r.Failure? ==> r.error == TodoNotFound(todoId)
    ensures r.Success? ==>
      var ids := ItemsOf(items, todoId, hi);
      && |r.value| == |ids| == CountItems(items, todoId, hi)
      && forall i :: 0 <= i < |ids| ==> r.value[i] == ItemToView(users, ids[i], items[ids[i]]) && r.value[i].todoId == todoId
  {
    if todoId !in todos then Failure(TodoNotFound(todoId))
    else
      var ids := ItemsOf(items, todoId, hi);
      Success(seq(|ids|, i requires 0 <= i < |ids| => ItemToView(users, ids[i], items[ids[i]])))
  }

  /** summary: the item counts of a todo and the completed fraction, which
      is 0 when the todo has no items. A missing todo is not an error. */
  datatype Summary = Summary(total: nat, completed: nat, progressNum: nat, progressDen: nat)

  function ItemSummary(items: map<Id, Item>, todo: Id, hi: nat): Summary {
    var total := CountItems(items, todo, hi);
    var completed := CountCompleted(items, todo, hi);
    if total == 0 then Summary(0, completed, 0, 1) else Summary(total, completed, completed, total)
  }

  /** The completed items are among the items, so progress lies between 0
      and 1; it is completed over total, 0 when there are no items, and 1
      exactly when there are items and none is open. */
  lemma {:induction false} SummaryBounds(items: map<Id, Item>, todo: Id, hi: nat)
    requires forall k :: k in items ==> k < hi
    ensures var s := ItemSummary(items, todo, hi);
      && s.completed <= s.total
      && s.progressDen > 0 && s.progressNum <= s.progressDen
      && (s.total == 0 ==> s.progressNum == 0)
      && (s.total > 0 ==> s.progressNum == s.completed && s.progressDen == s.total)
      && (s.progressNum == s.progressDen <==> s.total > 0 && !HasIncompleteItem(items, todo))
  {
    var all := AscendingKeys(items, OfTodo(todo), hi);
    var done := AscendingKeys(items, CompletedOfTodo(todo), hi);
    AscendingCard(all);
    AscendingCard(done);
    assert Elements(done) <= Elements(all);
    SubsetCard(Elements(done), Elements(all));
    if HasIncompleteItem(items, todo) {
      var k :| k in items && items[k].todo == todo && !items[k].completed;
      assert k in Elements(all) && k !in Elements(done);
    } else {
      assert Elements(done) == Elements(all);
    }
  }

  // ---------------------------------------------------------------------
  // addItem

  function AddItemOutcome(todos: map<Id, Todo>, todoId: Id, title: Option<string>, now: Time): Result<Item> {
    if IsBlank(title) then Failure(ApiError(BadRequest, MsgItemTitleEmpty))
    else if todoId !in todos then Failure(TodoNotFound(todoId))
    else if todos[todoId].reviewed then Failure(ApiError(BadRequest, MsgReviewedCannotBeModified))
    else Success(Item(todoId, Trim(title.value), false, None, None, now))
  }

  method AddItem(db: Store, todoId: Id, title: Option<string>, now: Time, caller: Principal) returns (r: Result<Item>, id: Id)
    requires db.Valid() && CanManage(caller)
    modifies db`items, db`nextItem
    ensures db.Valid()
    ensures r == AddItemOutcome(old(db.todos), todoId, title, now)
    ensures r.Success? ==> id == old(db.nextItem) && db.items == old(db.items)[id := r.value] && db.nextItem == id + 1
    ensures r.Failure? ==> unchanged(db)
  {
    id := db.nextItem;
    if IsBlank(title) {
      return Failure(ApiError(BadRequest, MsgItemTitleEmpty)), id;
    }
    var trimmed := Trim(title.value);
    if todoId !in db.todos {
      return Failure(TodoNotFound(todoId)), id;
    }
    if db.todos[todoId].reviewed {
      return Failure(ApiError(BadRequest, MsgReviewedCannotBeModified)), id;
    }
    var it := Item(todoId, trimmed, false, None, None, now);
    PutItemKeepsTables(db.users, db.todos, db.items, db.messages, db.nextTodo, db.nextItem, db.nextMessage, id, it, id + 1);
    db.items := db.items[id := it];
    db.nextItem := id + 1;
    r := Success(it);
  }

  // ---------------------------------------------------------------------
  // deleteItem

  /** The route's todo must exist, but the review guard looks at the item's
      own todo. */
  function DeleteItemOutcome(todos: map<Id, Todo>, items: map<Id, Item>, todoId: Id, itemId: Id): Result<()>
    requires itemId in items ==> items[itemId].todo in todos
  {
    if todoId !in todos then Failure(TodoNotFound(todoId))
    else if itemId !in items then Failure(ItemNotFound(itemId))
    else if todos[items[itemId].todo].reviewed then Failure(ApiError(BadRequest, MsgReviewedCannotBeModified))
    else Success(())
  }

  method DeleteItem(db: Store, todoId: Id, itemId: Id, caller: Principal) returns (r: Result<()>)
    requires db.Valid() && CanManage(caller)
    modifies db`items
    ensures db.Valid()
    ensures r == DeleteItemOutcome(old(db.todos), old(db.items), todoId, itemId)
    ensures db.items == if r.Success? then old(db.items) - {itemId} else old(db.items)
  {
    if todoId !in db.todos {
      return Failure(TodoNotFound(todoId));
    }
    if itemId !in db.items {
      return Failure(ItemNotFound(itemId));
    }
    var it := db.items[itemId];
    if db.todos[it.todo].reviewed {
      return Failure(ApiError(BadRequest, MsgReviewedCannotBeModified));
    }
    db.items := db.items - {itemId};
    r := Success(());
  }

  // ---------------------------------------------------------------------
  // completeItem and uncompleteItem

  function CompleteItemOutcome(users: seq<User>, todos: map<Id, Todo>, items: map<Id, Item>,
                               itemId: Id, callerName: string, now: Time): Result<Item>
    requires itemId in items ==> items[itemId].todo in todos
  {
    if itemId !in items then Failure(ItemNotFound(itemId))
    else
      var it := items[itemId];
      if todos[it.todo].reviewed then Failure(ApiError(BadRequest, MsgReviewedCannotBeModified))
      else if it.completed then Success(it)
      else match FindUser(users, callerName)
        case None => Failure(UserNotFound)
        case Some(u) => Success(it.(completed := true, completedBy := Some(u), completedAt := Some(now)))
  }

  method CompleteItem(db: Store, itemId: Id, caller: Principal, now: Time) returns (r: Result<Item>)
    requires db.Valid() && CanUse(caller)
    modifies db`items
    ensures db.Valid()
    ensures r == CompleteItemOutcome(old(db.users), old(db.todos), old(db.items), itemId, caller.name, now)
    ensures db.items == if r.Success? then old(db.items)[itemId := r.value] else old(db.items)
  {
    if itemId !in db.items {
      return Failure(ItemNotFound(itemId));
    }
    var it := db.items[itemId];
    if db.todos[it.todo].reviewed {
      return Failure(ApiError(BadRequest, MsgReviewedCannotBeModified));
    }
    if it.completed {
      return Success(it);
    }
    var found := FindUser(db.users, caller.name);
    if found.None? {
      return Failure(UserNotFound);
    }
    it := it.(completed := true);
    it := it.(completedBy := Some(found.value));
    it := it.(completedAt := Some(now));
    PutItemKeepsTables(db.users, db.todos, db.items, db.messages, db.nextTodo, db.nextItem, db.nextMessage, itemId, it, db.nextItem);
    db.items := db.items[itemId := it];
    r := Success(it);
  }

  /** The admin flag comes from the caller's stored roles. */
  function UncompleteItemOutcome(users: seq<User>, todos: map<Id, Todo>, items: map<Id, Item>,
                                 itemId: Id, callerName: string): Result<Item>
    requires itemId in items ==> items[itemId].todo in todos
  {
    if itemId !in items then Failure(ItemNotFound(itemId))
    else
      var it := items[itemId];
      if todos[it.todo].reviewed then Failure(ApiError(BadRequest, MsgReviewedCannotBeModified))
      else if !it.completed then Success(it)
      else match FindUser(users, callerName)
        case None => Failure(UserNotFound)
        case Some(u) =>
          if !IsAdminUser(users[u]) && it.completedBy != Some(u) then
            Failure(ApiError(Forbidden, MsgOnlyCompleterOrAdmin))
          else Success(it.(completed := false, completedBy := None, completedAt := None))
  }

  method UncompleteItem(db: Store, itemId: Id, caller: Principal) returns (r: Result<Item>)
    requires db.Valid() && CanUse(caller)
    modifies db`items
    ensures db.Valid()
    ensures r == UncompleteItemOutcome(old(db.users), old(db.todos), old(db.items), itemId, caller.name)
    ensures db.items == if r.Success? then old(db.items)[itemId := r.value] else old(db.items)
  {
    if itemId !in db.items {
      return Failure(ItemNotFound(itemId));
    }
    var it := db.items[itemId];
    if db.todos[it.todo].reviewed {
      return Failure(ApiError(BadRequest, MsgReviewedCannotBeModified));
    }
    if !it.completed {
      return Success(it);
    }
    var found := FindUser(db.users, caller.name);
    if found.None? {
      return Failure(UserNotFound);
    }
    var me := found.value;
    var isAdmin := RoleAdmin in db.users[me].roles;
    if !isAdmin && (it.completedBy.None? || it.completedBy.value != me) {
      return Failure(ApiError(Forbidden, MsgOnlyCompleterOrAdmin));
    }
    it := it.(completed := false);
    it := it.(completedBy := None);
    it := it.(completedAt := None);
    PutItemKeepsTables(db.users, db.todos, db.items, db.messages, db.nextTodo, db.nextItem, db.nextMessage, itemId, it, db.nextItem);
    db.items := db.items[itemId := it];
    r := Success(it);
  }

  // ---------------------------------------------------------------------
  // Properties

  /** A blank title is refused before the todo is looked up, so even for a
      missing todo the answer is the bad request. */
  lemma BlankTitleRefusedFirst(todos: map<Id, Todo>, todoId: Id, title: Option<string>, now: Time)
    requires IsBlank(title)
    ensures AddItemOutcome(todos, todoId, title, now) == Failure(ApiError(BadRequest, MsgItemTitleEmpty))
  {
  }

  /** An added item is open, belongs to the todo, and has its title trimmed:
      non-empty, without surrounding padding. */
  lemma {:induction false} AddedItemIsTrimmed(todos: map<Id, Todo>, todoId: Id, title: Option<string>, now: Time)
    requires AddItemOutcome(todos, todoId, title, now).Success?
    ensures var it := AddItemOutcome(todos, todoId, title, now).value;
      && it.todo == todoId && !it.completed && it.completedBy.None? && it.createdAt == now
      && it.title != [] && Trim(it.title) == it.title
      && exists i :: Pads(title.value, it.title, i)
  {
    TrimSpec(title.value);
    TrimIdempotent(title.value);
  }

  /** Once the todo is reviewed, none of the four item operations goes
      through. */
  lemma ReviewedTodoItemsFrozen(users: seq<User>, todos: map<Id, Todo>, items: map<Id, Item>,
                                todoId: Id, itemId: Id, title: Option<string>, callerName: string, now: Time)
    requires todoId in todos && todos[todoId].reviewed
    requires itemId in items && items[itemId].todo == todoId
    requires !IsBlank(title)
    ensures AddItemOutcome(todos, todoId, title, now) == Failure(ApiError(BadRequest, MsgReviewedCannotBeModified))
    ensures DeleteItemOutcome(todos, items, todoId, itemId) == Failure(ApiError(BadRequest, MsgReviewedCannotBeModified))
    ensures CompleteItemOutcome(users, todos, items, itemId, callerName, now) == Failure(ApiError(BadRequest, MsgReviewedCannotBeModified))
    ensures UncompleteItemOutcome(users, todos, items, itemId, callerName) == Failure(ApiError(BadRequest, MsgReviewedCannotBeModified))
  {
  }

  /** Deleting does not check that the item belongs to the todo in the
      route: any existing todo gives the same answer. */
  lemma DeleteIgnoresRouteTodo(todos: map<Id, Todo>, items: map<Id, Item>, a: Id, b: Id, itemId: Id)
    requires itemId in items ==> items[itemId].todo in todos
    requires a in todos && b in todos
    ensures DeleteItemOutcome(todos, items, a, itemId) == DeleteItemOutcome(todos, items, b, itemId)
  {
  }

  /** Ticking is idempotent: ticking an item again returns it unchanged,
      keeping the first completer and time. */
  lemma CompleteItemIsIdempotent(users: seq<User>, todos: map<Id, Todo>, items: map<Id, Item>,
                                 itemId: Id, callerName: string, otherName: string, now: Time, later: Time)
    requires itemId in items ==> items[itemId].todo in todos
    requires CompleteItemOutcome(users, todos, items, itemId, callerName, now).Success?
    ensures var it := CompleteItemOutcome(users, todos, items, itemId, callerName, now).value;
      CompleteItemOutcome(users, todos, items[itemId := it], itemId, otherName, later) == Success(it)
  {
  }

  /** Unticking is idempotent in the same way. */
  lemma UncompleteItemIsIdempotent(users: seq<User>, todos: map<Id, Todo>, items: map<Id, Item>,
                                   itemId: Id, callerName: string, otherName: string)
    requires itemId in items ==> items[itemId].todo in todos
    requires UncompleteItemOutcome(users, todos, items, itemId, callerName).Success?
    ensures var it := UncompleteItemOutcome(users, todos, items, itemId, callerName).value;
      UncompleteItemOutcome(users, todos, items[itemId := it], itemId, otherName) == Success(it)
  {
  }

  /** Ticking an open item and unticking it again by the same caller gives
      back the item as it was. */
  lemma TickUntickRestores(users: seq<User>, todos: map<Id, Todo>, items: map<Id, Item>,
                           itemId: Id, callerName: string, now: Time)
    requires itemId in items && ItemOk(items[itemId], todos, |users|)
    requires !items[itemId].completed && !todos[items[itemId].todo].reviewed
    requires FindUser(users, callerName).Some?
    ensures var r := CompleteItemOutcome(users, todos, items, itemId, callerName, now);
      && r.Success?
      && UncompleteItemOutcome(users, todos, items[itemId := r.value], itemId, callerName) == Success(items[itemId])
  {
  }

  /** Unticking a ticked item is refused exactly when the caller is neither
      an admin by stored role nor the completer. */
  lemma UntickNeedsCompleterOrAdmin(users: seq<User>, todos: map<Id, Todo>, items: map<Id, Item>,
                                    itemId: Id, callerName: string)
    requires itemId in items && items[itemId].todo in todos
    requires items[itemId].completed && !todos[items[itemId].todo].reviewed
    requires FindUser(users, callerName).Some?
    ensures var u := FindUser(users, callerName).value;
      UncompleteItemOutcome(users, todos, items, itemId, callerName) == Failure(ApiError(Forbidden, MsgOnlyCompleterOrAdmin))
      <==> !IsAdminUser(users[u]) && items[itemId].completedBy != Some(u)
  {
  }

  /** Ticking an item makes the caller a participant of its todo. */
  lemma TickMakesParticipant(users: seq<User>, todos: map<Id, Todo>, items: map<Id, Item>,
                             itemId: Id, callerName: string, now: Time)
    requires itemId in items && ItemOk(items[itemId], todos, |users|)
    requires !items[itemId].completed && !todos[items[itemId].todo].reviewed
    requires FindUser(users, callerName).Some?
    ensures var r := CompleteItemOutcome(users, todos, items, itemId, callerName, now);
      var u := FindUser(users, callerName).value;
      r.Success? && IsParticipant(users, items[itemId := r.value], items[itemId].todo, users[u].username)
  {
    var r := CompleteItemOutcome(users, todos, items, itemId, callerName, now);
    var u := FindUser(users, callerName).value;
    assert ParticipantItem(users, items[itemId := r.value][itemId], items[itemId].todo, users[u].username);
  }

  /** Every outcome keeps the item consistent with the tables. */
  lemma OutcomesKeepItemOk(users: seq<User>, todos: map<Id, Todo>, items: map<Id, Item>,
                           todoId: Id, itemId: Id, title: Option<string>, callerName: string, now: Time)
    requires itemId in items ==> ItemOk(items[itemId], todos, |users|)
    ensures var r := AddItemOutcome(todos, todoId, title, now); r.Success? ==> ItemOk(r.value, todos, |users|)
    ensures var r := CompleteItemOutcome(users, todos, items, itemId, callerName, now); r.Success? ==> ItemOk(r.value, todos, |users|)
    ensures var r := UncompleteItemOutcome(users, todos, items, itemId, callerName); r.Success? ==> ItemOk(r.value, todos, |users|)
  {
  }
}
