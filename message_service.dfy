/** MessageServiceImpl: the discussion thread of a todo. Messages can be
    posted and deleted whether or not the todo is reviewed; a message is
    deleted by its author or an admin. */
module MessageService {
  import opened Common
  import opened Text
  import opened Seqs
  import opened Model

  datatype MessageView = MessageView(
    id: Id,
    todoId: Id,
    userId: Id,
    username: string,
    authorFullName: string,
    content: string,
    createdAt: Time)

  function MessageToView(users: seq<User>, id: Id, m: Message): (v: MessageView)
    requires m.author < |users|
  {
    var u := users[m.author];
    MessageView(id, m.todo, m.author, u.username, DisplayName(u.firstName, u.lastName, u.username), m.content, m.createdAt)
  }

  /** The author's full name is the trimmed last-plus-first name; an author
      without either is shown by username. */
  lemma MessageViewNamesAuthor(users: seq<User>, id: Id, m: Message)
    requires m.author < |users|
    ensures var v := MessageToView(users, id, m); var u := users[m.author];
      && v.id == id && v.todoId == m.todo && v.userId == m.author && v.username == u.username
      && v.content == m.content && v.createdAt == m.createdAt
      && (u.firstName.None? && u.lastName.None? ==> v.authorFullName == u.username)
      && (u.firstName.None? && u.lastName.Some? && Trim(u.lastName.value) != [] ==> v.authorFullName == Trim(u.lastName.value))
  {
    var u := users[m.author];
    if u.firstName.None? && u.lastName.Some? {
      assert OrEmpty(u.lastName) + OrEmpty(u.firstName) == u.lastName.value;
    }
  }

  /** Sorting by the negated time puts the earliest message first. */
  function LaterFirst(v: MessageView): int {
    -v.createdAt
  }

  /** The todo's messages in id order (the order the table holds them). */
  function ThreadInIdOrder(users: seq<User>, messages: map<Id, Message>, todoId: Id, hi: nat): seq<MessageView>
    requires forall k :: k in messages ==> messages[k].author < |users|
  {
    var ids := AscendingKeys(messages, OfThread(todoId), hi);
    seq(|ids|, i requires 0 <= i < |ids| => MessageToView(users, ids[i], messages[ids[i]]))
  }

  /** The thread is one view per message of the todo below hi, in
      ascending message id, each showing its own message. */
  lemma ThreadInIdOrderSpec(users: seq<User>, messages: map<Id, Message>, todoId: Id, hi: nat)
    requires forall k :: k in messages ==> messages[k].author < |users|
    ensures var r := ThreadInIdOrder(users, messages, todoId, hi);
      && (forall i, j :: 0 <= i < j < |r| ==> r[i].id < r[j].id)
      && (forall i :: 0 <= i < |r| ==> r[i].id in messages && r[i] == MessageToView(users, r[i].id, messages[r[i].id]))
    ensures var r := ThreadInIdOrder(users, messages, todoId, hi);
      forall k :: (exists i :: 0 <= i < |r| && r[i].id == k) <==> k < hi && k in messages && messages[k].todo == todoId
  {
    var ids := AscendingKeys(messages, OfThread(todoId), hi);
    var r := ThreadInIdOrder(users, messages, todoId, hi);
    forall k ensures (exists i :: 0 <= i < |r| && r[i].id == k) <==> k < hi && k in messages && messages[k].todo == todoId {
      if i :| 0 <= i < |r| && r[i].id == k {
        assert ids[i] in ids;
      }
      if k < hi && k in messages && messages[k].todo == todoId {
        assert k in ids;
        var i :| 0 <= i < |ids| && ids[i] == k;
        assert r[i].id == k;
      }
    }
  }

  function OfThread(todo: Id): Message -> bool {
    (m: Message) => m.todo == todo
  }

  /** listMessagesByTodo: not-found for a missing todo; otherwise the todo's
      messages ordered by creation time, earliest first, messages created
      at the same time in id order. */
  function ListMessagesByTodo(users: seq<User>, todos: map<Id, Todo>, messages: map<Id, Message>, todoId: Id, hi: nat): (r: Result<seq<MessageView>>)
    requires forall k :: k in messages ==> messages[k].author < |users|
    ensures r.Failure? <==> todoId !in todos
    ensures r.Failure? ==> r.error == TodoNotFound(todoId)
    ensures r.Success? ==>
      && (forall i, j :: 0 <= i < j < |r.value| ==> r.value[i].createdAt <= r.value[j].createdAt)
      && IsStableSortDesc(r.value, ThreadInIdOrder(users, messages, todoId, hi), LaterFirst)
  {
    if todoId !in todos then Failure(TodoNotFound(todoId))
    else
      var thread := ThreadInIdOrder(users, messages, todoId, hi);
      SortDescIsStable(thread, LaterFirst);
      var sorted := SortDesc(thread, LaterFirst);
      assert forall i, j :: 0 <= i < j < |sorted| ==> LaterFirst(sorted[i]) >= LaterFirst(sorted[j]);
      Success(sorted)
  }

  /** The listed thread holds the views of the todo's messages and nothing
      else, each message once. */
  lemma {:induction false} ThreadIsTheTodosMessages(users: seq<User>, todos: map<Id, Todo>, messages: map<Id, Message>,
                                                    todoId: Id, hi: nat, k: Id)
    requires forall k :: k in messages ==> messages[k].author < |users|
    requires forall k :: k in messages ==> k < hi
    requires todoId in todos
    ensures var r := ListMessagesByTodo(users, todos, messages, todoId, hi);
      && r.Success?
      && |r.value| == |AscendingKeys(messages, OfThread(todoId), hi)|
      && (forall v :: v in r.value ==>
            v.id in messages && messages[v.id].todo == todoId && v == MessageToView(users, v.id, messages[v.id]))
      && (k in messages && messages[k].todo == todoId ==> MessageToView(users, k, messages[k]) in r.value)
  {
    var r := ListMessagesByTodo(users, todos, messages, todoId, hi).value;
    var thread := ThreadInIdOrder(users, messages, todoId, hi);
    SameMultisetSameMembers(r, thread);
    forall v | v in r
      ensures v.id in messages && messages[v.id].todo == todoId && v == MessageToView(users, v.id, messages[v.id])
    {
      ThreadMember(users, messages, todoId, hi, v);
    }
    if k in messages && messages[k].todo == todoId {
      ThreadHas(users, messages, todoId, hi, k);
    }
  }

  lemma ThreadHas(users: seq<User>, messages: map<Id, Message>, todoId: Id, hi: nat, k: Id)
    requires forall k :: k in messages ==> messages[k].author < |users|
    requires k < hi && k in messages && messages[k].todo == todoId
    ensures MessageToView(users, k, messages[k]) in ThreadInIdOrder(users, messages, todoId, hi)
  {
    var thread := ThreadInIdOrder(users, messages, todoId, hi);
    ThreadInIdOrderSpec(users, messages, todoId, hi);
    var i :| 0 <= i < |thread| && thread[i].id == k;
    assert thread[i] in thread;
  }

  lemma ThreadMember(users: seq<User>, messages: map<Id, Message>, todoId: Id, hi: nat, v: MessageView)
    requires forall k :: k in messages ==> messages[k].author < |users|
    requires v in ThreadInIdOrder(users, messages, todoId, hi)
    ensures v.id < hi && v.id in messages && messages[v.id].todo == todoId && v == MessageToView(users, v.id, messages[v.id])
  {
    var thread := ThreadInIdOrder(users, messages, todoId, hi);
    ThreadInIdOrderSpec(users, messages, todoId, hi);
    var i :| 0 <= i < |thread| && thread[i] == v;
    assert exists j :: 0 <= j < |thread| && thread[j].id == v.id;
  }

  // ---------------------------------------------------------------------
  // addMessage

  function AddMessageOutcome(users: seq<User>, todos: map<Id, Todo>, todoId: Id, content: Option<string>,
                             callerName: string, now: Time): Result<Message>
  {
    if IsBlank(content) then Failure(ApiError(BadRequest, MsgContentEmpty))
    else if todoId !in todos then Failure(TodoNotFound(todoId))
    else match FindUser(users, callerName)
      case None => Failure(UsernameNotFound)
      case Some(u) => Success(Message(Trim(content.value), now, todoId, u))
  }

  method AddMessage(db: Store, todoId: Id, content: Option<string>, caller: Principal, now: Time) returns (r: Result<Message>, id: Id)
    requires db.Valid() && CanUse(caller)
    modifies db`messages, db`nextMessage
    ensures db.Valid()
    ensures r == AddMessageOutcome(old(db.users), old(db.todos), todoId, content, caller.name, now)
    ensures r.Success? ==> id == old(db.nextMessage) && db.messages == old(db.messages)[id := r.value] && db.nextMessage == id + 1
    ensures r.Failure? ==> unchanged(db)
  {
    id := db.nextMessage;
    if content.None? || Trim(content.value) == [] {
      return Failure(ApiError(BadRequest, MsgContentEmpty)), id;
    }
    if todoId !in db.todos {
      return Failure(TodoNotFound(todoId)), id;
    }
    var found := FindUser(db.users, caller.name);
    if found.None? {
      return Failure(UsernameNotFound), id;
    }
    var m := Message([], now, todoId, found.value);
    m := m.(content := Trim(content.value));
    PutMessageKeepsTables(db.users, db.todos, db.items, db.messages, db.nextTodo, db.nextItem, db.nextMessage, id, m, id + 1);
    db.messages := db.messages[id := m];
    db.nextMessage := id + 1;
    r := Success(m);
  }

  // ---------------------------------------------------------------------
  // deleteMessage

  /** The admin flag comes from the caller's stored roles; authorship is the
      author's username compared with the name in the caller's token. */
  function DeleteMessageOutcome(users: seq<User>, todos: map<Id, Todo>, messages: map<Id, Message>,
                                todoId: Id, messageId: Id, requester: string): Result<()>
    requires messageId in messages ==> messages[messageId].author < |users|
  {
    if todoId !in todos then Failure(TodoNotFound(todoId))
    else if messageId !in messages then Failure(MessageNotFound(messageId))
    else match FindUser(users, requester)
      case None => Failure(UsernameNotFound)
      case Some(me) =>
        if !IsAdminUser(users[me]) && users[messages[messageId].author].username != requester then
          Failure(ApiError(Forbidden, MsgOnlyAuthorOrAdmin))
        else Success(())
  }

  method DeleteMessage(db: Store, todoId: Id, messageId: Id, caller: Principal) returns (r: Result<()>)
    requires db.Valid() && CanUse(caller)
    modifies db`messages
    ensures db.Valid()
    ensures r == DeleteMessageOutcome(old(db.users), old(db.todos), old(db.messages), todoId, messageId, caller.name)
    ensures db.messages == if r.Success? then old(db.messages) - {messageId} else old(db.messages)
  {
    if todoId !in db.todos {
      return Failure(TodoNotFound(todoId));
    }
    if messageId !in db.messages {
      return Failure(MessageNotFound(messageId));
    }
    var m := db.messages[messageId];
    var requester := caller.name;
    var found := FindUser(db.users, requester);
    if found.None? {
      return Failure(UsernameNotFound);
    }
    var isAdmin := RoleAdmin in db.users[found.value].roles;
    var ownerUsername := db.users[m.author].username;
    if !isAdmin && ownerUsername != requester {
      return Failure(ApiError(Forbidden, MsgOnlyAuthorOrAdmin));
    }
    db.messages := db.messages - {messageId};
    r := Success(());
  }

  // ---------------------------------------------------------------------
  // Properties

  /** Blank content is refused before the todo is looked up. */
  lemma BlankContentRefusedFirst(users: seq<User>, todos: map<Id, Todo>, todoId: Id, content: Option<string>, callerName: string, now: Time)
    requires IsBlank(content)
    ensures AddMessageOutcome(users, todos, todoId, content, callerName, now) == Failure(ApiError(BadRequest, MsgContentEmpty))
  {
  }

  /** A posted message carries the trimmed content, the caller as author and
      the todo; a reviewed todo does not prevent it. */
  lemma {:induction false} PostedMessageIsTrimmed(users: seq<User>, todos: map<Id, Todo>, todoId: Id, content: Option<string>,
                                                  callerName: string, now: Time)
    requires !IsBlank(content) && todoId in todos
    requires FindUser(users, callerName).Some?
    ensures var r := AddMessageOutcome(users, todos, todoId, content, callerName, now);
      && r.Success?
      && r.value.todo == todoId && r.value.author == FindUser(users, callerName).value && r.value.createdAt == now
      && r.value.content != [] && Trim(r.value.content) == r.value.content
  {
    TrimIdempotent(content.value);
  }

  /** A non-admin is refused exactly when the author's username differs from
      the name the caller signed in with; the todo in the route need not be
      the message's own, and review does not matter. */
  lemma DeleteNeedsAuthorOrAdmin(users: seq<User>, todos: map<Id, Todo>, messages: map<Id, Message>,
                                 todoId: Id, messageId: Id, requester: string)
    requires todoId in todos && messageId in messages && messages[messageId].author < |users|
    requires FindUser(users, requester).Some?
    ensures var me := FindUser(users, requester).value;
      DeleteMessageOutcome(users, todos, messages, todoId, messageId, requester) == Failure(ApiError(Forbidden, MsgOnlyAuthorOrAdmin))
      <==> !IsAdminUser(users[me]) && users[messages[messageId].author].username != requester
  {
  }

  /** Because authorship is tested on the token's name, an author who is not
      an admin and signed in with an email that differs from their username
      cannot delete their own message. */
  lemma AuthorSignedInByEmailIsRefused(users: seq<User>, todos: map<Id, Todo>, messages: map<Id, Message>,
                                       todoId: Id, messageId: Id)
    requires todoId in todos && messageId in messages
    requires AccountsUnique(users)
    requires messages[messageId].author < |users|
    requires var a := users[messages[messageId].author]; !IsAdminUser(a) && a.email != a.username
    requires FindUser(users, users[messages[messageId].author].email) == Some(messages[messageId].author)
    ensures DeleteMessageOutcome(users, todos, messages, todoId, messageId, users[messages[messageId].author].email)
      == Failure(ApiError(Forbidden, MsgOnlyAuthorOrAdmin))
  {
  }
}
