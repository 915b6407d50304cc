/** The persistent state of the backend: the four tables (users, todos,
    todo items, messages) held by one store object, the consistency the
    services keep between them, and the repository queries the services
    call, written over the tables. */
module Model {
  import opened Common
  import opened Seqs

  /** A LocalDate as a day number and a LocalDateTime as a tick count; both
      come from the caller's clock. */
  type Date = int
  type Time = int

  /** A row of the users table; its id is its index in the table. */
  datatype User = User(
    username: string,
    email: string,
    password: string,
    firstName: Option<string>,
    lastName: Option<string>,
    roles: set<string>)

  /** A row of the todos table (Todo.java). */
  datatype Todo = Todo(
    title: string,
    description: string,
    dueDate: Option<Date>,
    createdDate: Date,
    completed: bool,
    reviewed: bool,
    completedBy: Option<Id>,
    completedAt: Option<Time>,
    reviewedBy: Option<string>,
    reviewedAt: Option<Time>,
    overdue: bool)

  /** A row of the todo_items table (TodoItem.java). */
  datatype Item = Item(
    todo: Id,
    title: string,
    completed: bool,
    completedBy: Option<Id>,
    completedAt: Option<Time>,
    createdAt: Time)

  /** A row of the messages table (Message.java). */
  datatype Message = Message(content: string, createdAt: Time, todo: Id, author: Id)

  /** dueDate != null && dueDate.isBefore(today) */
  predicate PastDue(due: Option<Date>, today: Date) {
    due.Some? && due.value < today
  }

  /** dueDate != null && dueDate.isAfter(today) */
  predicate FutureDue(due: Option<Date>, today: Date) {
    due.Some? && due.value > today
  }

  predicate IsAdminUser(u: User) {
    RoleAdmin in u.roles
  }

  // ---------------------------------------------------------------------
  // Consistency of the tables

  /** Usernames are unique and emails are unique (the unique columns of the
      users table, and the guards of registration). */
  ghost predicate AccountsUnique(users: seq<User>) {
    forall i, j :: 0 <= i < j < |users| ==>
      users[i].username != users[j].username && users[i].email != users[j].email
  }

  /** A review exists only on a completed todo and always has a time; a
      completer and a completion time are recorded together. A completed
      flag without a completer, and a completer on an uncompleted todo, are
      both possible: the update path writes `completed` alone. */
  ghost predicate TodoOk(t: Todo, userCount: nat) {
    && (t.reviewed ==> t.completed)
    && (t.reviewed <==> t.reviewedAt.Some?)
    && (!t.reviewed ==> t.reviewedBy.None?)
    && (t.completedBy.Some? <==> t.completedAt.Some?)
    && (t.completedBy.Some? ==> t.completedBy.value < userCount)
  }

  /** An item belongs to an existing todo; it has a completer and a
      completion time exactly when it is completed. */
  ghost predicate ItemOk(it: Item, todos: map<Id, Todo>, userCount: nat) {
    && it.todo in todos
    && (it.completed <==> it.completedBy.Some?)
    && (it.completed <==> it.completedAt.Some?)
    && (it.completedBy.Some? ==> it.completedBy.value < userCount)
  }

  ghost predicate MessageOk(m: Message, todos: map<Id, Todo>, userCount: nat) {
    m.todo in todos && m.author < userCount
  }

  /** The tables are consistent: accounts are unique, every id is below its
      table's next identity value, and every row satisfies its own check. */
  ghost predicate TablesOk(users: seq<User>, todos: map<Id, Todo>, items: map<Id, Item>, messages: map<Id, Message>,
                           nextTodo: Id, nextItem: Id, nextMessage: Id)
  {
    && AccountsUnique(users)
    && (forall id :: id in todos ==> id < nextTodo && TodoOk(todos[id], |users|))
    && (forall id :: id in items ==> id < nextItem && ItemOk(items[id], todos, |users|))
    && (forall id :: id in messages ==> id < nextMessage && MessageOk(messages[id], todos, |users|))
  }

  /** Storing a consistent todo under an id below the next identity value
      keeps the tables consistent. */
  lemma PutTodoKeepsTables(users: seq<User>, todos: map<Id, Todo>, items: map<Id, Item>, messages: map<Id, Message>,
                           nextTodo: Id, nextItem: Id, nextMessage: Id, id: Id, t: Todo, next: Id)
    requires TablesOk(users, todos, items, messages, nextTodo, nextItem, nextMessage)
    requires TodoOk(t, |users|) && id < next && nextTodo <= next
    ensures TablesOk(users, todos[id := t], items, messages, next, nextItem, nextMessage)
  {
  }

  /** Storing a consistent item under an id below the next identity value
      keeps the tables consistent. */
  lemma PutItemKeepsTables(users: seq<User>, todos: map<Id, Todo>, items: map<Id, Item>, messages: map<Id, Message>,
                           nextTodo: Id, nextItem: Id, nextMessage: Id, id: Id, it: Item, next: Id)
    requires TablesOk(users, todos, items, messages, nextTodo, nextItem, nextMessage)
    requires ItemOk(it, todos, |users|) && id < next && nextItem <= next
    ensures TablesOk(users, todos, items[id := it], messages, nextTodo, next, nextMessage)
  {
  }

  lemma PutMessageKeepsTables(users: seq<User>, todos: map<Id, Todo>, items: map<Id, Item>, messages: map<Id, Message>,
                              nextTodo: Id, nextItem: Id, nextMessage: Id, id: Id, m: Message, next: Id)
    requires TablesOk(users, todos, items, messages, nextTodo, nextItem, nextMessage)
    requires MessageOk(m, todos, |users|) && id < next && nextMessage <= next
    ensures TablesOk(users, todos, items, messages[id := m], nextTodo, nextItem, next)
  {
  }

  /** Appending an account whose username and email are both new keeps the
      tables consistent. */
  lemma AddUserKeepsTables(users: seq<User>, todos: map<Id, Todo>, items: map<Id, Item>, messages: map<Id, Message>,
                           nextTodo: Id, nextItem: Id, nextMessage: Id, u: User)
    requires TablesOk(users, todos, items, messages, nextTodo, nextItem, nextMessage)
    requires !UsernameTaken(users, u.username) && !EmailTaken(users, u.email)
    ensures TablesOk(users + [u], todos, items, messages, nextTodo, nextItem, nextMessage)
  {
    var all := users + [u];
    forall i, j | 0 <= i < j < |all| ensures all[i].username != all[j].username && all[i].email != all[j].email {
      if j == |users| {
        assert all[i] == users[i];
      }
    }
  }

  /** The records of the other todos: what remains of the items or the
      messages once a todo is deleted and its children go with it (orphan
      removal). */
  function WithoutTodo<V>(m: map<Id, V>, todoOf: V -> Id, todo: Id): map<Id, V> {
    map k | k in m && todoOf(m[k]) != todo :: m[k]
  }

  function ItemTodo(i: Item): Id { i.todo }

  function MessageTodo(m: Message): Id { m.todo }

  lemma RemoveTodoKeepsTables(users: seq<User>, todos: map<Id, Todo>, items: map<Id, Item>, messages: map<Id, Message>,
                              nextTodo: Id, nextItem: Id, nextMessage: Id, id: Id)
    requires TablesOk(users, todos, items, messages, nextTodo, nextItem, nextMessage)
    ensures TablesOk(users, todos - {id}, WithoutTodo(items, ItemTodo, id), WithoutTodo(messages, MessageTodo, id),
                     nextTodo, nextItem, nextMessage)
  {
  }

  /** The database: one table per entity and the next identity value of
      each auto-numbered table. */
  class Store {
    var users: seq<User>
    var todos: map<Id, Todo>
    var items: map<Id, Item>
    var messages: map<Id, Message>
    var nextTodo: Id
    var nextItem: Id
    var nextMessage: Id

    ghost predicate Valid()
      reads this
    {
      TablesOk(users, todos, items, messages, nextTodo, nextItem, nextMessage)
    }

    /** A database holding the given accounts (the start-up seeding is
        external) and no todos, items or messages. */
    constructor (accounts: seq<User>)
      requires AccountsUnique(accounts)
      ensures Valid()
      ensures users == accounts
      ensures todos == map[] && items == map[] && messages == map[]
    {
      users := accounts;
      todos := map[];
      items := map[];
      messages := map[];
      nextTodo := 0;
      nextItem := 0;
      nextMessage := 0;
    }
  }

  // ---------------------------------------------------------------------
  // UserRepository

  predicate NameMatches(u: User, name: string) {
    u.username == name || u.email == name
  }

  /** findByUsernameOrEmail(name, name): the first account, by id, whose
      username or email is name. */
  function FindUser(users: seq<User>, name: string): (r: Option<Id>)
    ensures r.Some? ==> r.value < |users| && NameMatches(users[r.value], name)
    ensures r.Some? ==> forall j :: 0 <= j < r.value ==> !NameMatches(users[j], name)
    ensures r.None? <==> forall j :: 0 <= j < |users| ==> !NameMatches(users[j], name)
  {
    FindUserFrom(users, name, 0)
  }

  function FindUserFrom(users: seq<User>, name: string, i: nat): (r: Option<Id>)
    requires i <= |users|
    requires forall j :: 0 <= j < i ==> !NameMatches(users[j], name)
    ensures r.Some? ==> i <= r.value < |users| && NameMatches(users[r.value], name)
    ensures r.Some? ==> forall j :: 0 <= j < r.value ==> !NameMatches(users[j], name)
    ensures r.None? <==> forall j :: 0 <= j < |users| ==> !NameMatches(users[j], name)
    decreases |users| - i
  {
    if i == |users| then None
    else if NameMatches(users[i], name) then Some(i)
    else FindUserFrom(users, name, i + 1)
  }

  /** existsByUsername */
  predicate UsernameTaken(users: seq<User>, username: string) {
    exists i :: 0 <= i < |users| && users[i].username == username
  }

  /** existsByEmail */
  predicate EmailTaken(users: seq<User>, email: string) {
    exists i :: 0 <= i < |users| && users[i].email == email
  }

  // ---------------------------------------------------------------------
  // TodoItemRepository

  function OfTodo(todo: Id): Item -> bool {
    (it: Item) => it.todo == todo
  }

  function CompletedOfTodo(todo: Id): Item -> bool {
    (it: Item) => it.todo == todo && it.completed
  }

  function CompletedOfTodoBy(todo: Id, user: Id): Item -> bool {
    (it: Item) => it.todo == todo && it.completed && it.completedBy == Some(user)
  }

  /** findByTodo_IdOrderByIdAsc: the ids of the todo's items, ascending. */
  function ItemsOf(items: map<Id, Item>, todo: Id, hi: nat): (r: seq<Id>)
    requires forall k :: k in items ==> k < hi
    ensures forall i, j :: 0 <= i < j < |r| ==> r[i] < r[j]
    ensures forall k :: k in r <==> k in items && items[k].todo == todo
  {
    AscendingKeys(items, OfTodo(todo), hi)
  }

  /** countByTodo_Id */
  function CountItems(items: map<Id, Item>, todo: Id, hi: nat): nat {
    |AscendingKeys(items, OfTodo(todo), hi)|
  }

  /** countByTodo_IdAndCompletedTrue */
  function CountCompleted(items: map<Id, Item>, todo: Id, hi: nat): nat {
    |AscendingKeys(items, CompletedOfTodo(todo), hi)|
  }

  /** The number of the todo's items that user completed. */
  function CompletedByUser(items: map<Id, Item>, todo: Id, user: Id, hi: nat): nat {
    |AscendingKeys(items, CompletedOfTodoBy(todo, user), hi)|
  }

  /** existsByTodo_IdAndCompletedFalse */
  predicate HasIncompleteItem(items: map<Id, Item>, todo: Id) {
    exists id :: id in items && items[id].todo == todo && !items[id].completed
  }

  /** isParticipant(todoId, name): some completed item of the todo was
      completed by the account whose username is name. */
  predicate IsParticipant(users: seq<User>, items: map<Id, Item>, todo: Id, name: string) {
    exists id :: id in items && ParticipantItem(users, items[id], todo, name)
  }

  predicate ParticipantItem(users: seq<User>, it: Item, todo: Id, name: string) {
    && it.todo == todo
    && it.completed
    && it.completedBy.Some?
    && it.completedBy.value < |users|
    && users[it.completedBy.value].username == name
  }

  /** A row of countCompletedItemsByUser: a username and a count. */
  datatype CountRow = CountRow(name: string, count: nat)

  /** countCompletedItemsByUser(todoId) over the users with ids below n: one
      row per user who completed at least one of the todo's items, in
      ascending user id. */
  function ParticipationRows(users: seq<User>, items: map<Id, Item>, todo: Id, hi: nat, n: nat): (r: seq<CountRow>)
    requires n <= |users|
    ensures forall i :: 0 <= i < |r| ==> r[i].count > 0
    ensures |r| == |Participants(items, todo, hi, n)|
  {
    if n == 0 then
      assert Participants(items, todo, hi, 0) == {};
      []
    else
      var prefix := ParticipationRows(users, items, todo, hi, n - 1);
      var c := CompletedByUser(items, todo, n - 1, hi);
      ParticipantsStep(items, todo, hi, n);
      if c > 0 then prefix + [CountRow(users[n - 1].username, c)] else prefix
  }

  /** The ids below n of the users who completed at least one of the
      todo's items. */
  ghost function Participants(items: map<Id, Item>, todo: Id, hi: nat, n: nat): set<nat> {
    set u: nat | u < n && CompletedByUser(items, todo, u, hi) > 0
  }

  lemma ParticipantsStep(items: map<Id, Item>, todo: Id, hi: nat, n: nat)
    requires n > 0
    ensures var before := Participants(items, todo, hi, n - 1);
      n - 1 !in before &&
      Participants(items, todo, hi, n)
        == if CompletedByUser(items, todo, n - 1, hi) > 0 then before + {n - 1} else before
  {
  }

  /** The rows of the query for all users. */
  function Participation(users: seq<User>, items: map<Id, Item>, todo: Id, hi: nat): seq<CountRow> {
    ParticipationRows(users, items, todo, hi, |users|)
  }

  /** row is the row of user u. */
  ghost predicate RowFor(users: seq<User>, items: map<Id, Item>, todo: Id, hi: nat, u: nat, row: CountRow) {
    u < |users| && row == CountRow(users[u].username, CompletedByUser(items, todo, u, hi))
  }

  /** Every row is the row of a user below n. */
  lemma {:induction false} RowsSound(users: seq<User>, items: map<Id, Item>, todo: Id, hi: nat, n: nat)
    requires n <= |users|
    ensures forall row :: row in ParticipationRows(users, items, todo, hi, n) ==>
      exists u: nat :: u < n && RowFor(users, items, todo, hi, u, row)
  {
    if n > 0 {
      RowsSound(users, items, todo, hi, n - 1);
      var prefix := ParticipationRows(users, items, todo, hi, n - 1);
      var rows := ParticipationRows(users, items, todo, hi, n);
      forall row | row in rows
        ensures exists u: nat :: u < n && RowFor(users, items, todo, hi, u, row)
      {
        if row in prefix {
          var u: nat :| u < n - 1 && RowFor(users, items, todo, hi, u, row);
          assert u < n;
        } else {
          assert RowFor(users, items, todo, hi, n - 1, row);
        }
      }
    }
  }

  /** Every user below n who completed some of the todo's items has a row. */
  lemma {:induction false} RowsComplete(users: seq<User>, items: map<Id, Item>, todo: Id, hi: nat, n: nat, u: nat)
    requires u < n <= |users|
    requires CompletedByUser(items, todo, u, hi) > 0
    ensures CountRow(users[u].username, CompletedByUser(items, todo, u, hi)) in ParticipationRows(users, items, todo, hi, n)
  {
    if u < n - 1 {
      RowsComplete(users, items, todo, hi, n - 1, u);
    }
  }

  ghost predicate NamesDistinct(rows: seq<CountRow>) {
    forall i, j :: 0 <= i < j < |rows| ==> rows[i].name != rows[j].name
  }

  /** With unique usernames, no two rows carry the same username. */
  lemma {:induction false} ParticipationNamesDistinct(users: seq<User>, items: map<Id, Item>, todo: Id, hi: nat, n: nat)
    requires n <= |users|
    requires AccountsUnique(users)
    ensures NamesDistinct(ParticipationRows(users, items, todo, hi, n))
  {
    if n > 0 {
      ParticipationNamesDistinct(users, items, todo, hi, n - 1);
      RowsSound(users, items, todo, hi, n - 1);
      var prefix := ParticipationRows(users, items, todo, hi, n - 1);
      var rows := ParticipationRows(users, items, todo, hi, n);
      var c := CompletedByUser(items, todo, n - 1, hi);
      if c > 0 {
        assert rows == prefix + [CountRow(users[n - 1].username, c)];
        forall i, j | 0 <= i < j < |rows| ensures rows[i].name != rows[j].name {
          assert rows[i] == prefix[i] && prefix[i] in prefix;
          if j < |prefix| {
            assert rows[j] == prefix[j];
          } else {
            var u: nat :| u < n - 1 && RowFor(users, items, todo, hi, u, prefix[i]);
            assert rows[j].name == users[n - 1].username;
            assert users[u].username != users[n - 1].username;
          }
        }
      } else {
        assert rows == prefix;
      }
    }
  }

  /** A name is a participant exactly when it has a row: the query and the
      participant test agree. */
  lemma ParticipantIffRow(users: seq<User>, items: map<Id, Item>, todo: Id, hi: nat, name: string)
    requires forall id :: id in items ==> id < hi
    ensures IsParticipant(users, items, todo, name) <==>
      exists i :: 0 <= i < |Participation(users, items, todo, hi)| && Participation(users, items, todo, hi)[i].name == name
  {
    var rows := Participation(users, items, todo, hi);
    if IsParticipant(users, items, todo, name) {
      var id :| id in items && ParticipantItem(users, items[id], todo, name);
      var u := items[id].completedBy.value;
      assert id in AscendingKeys(items, CompletedOfTodoBy(todo, u), hi);
      RowsComplete(users, items, todo, hi, |users|, u);
      var i :| 0 <= i < |rows| && rows[i] == CountRow(users[u].username, CompletedByUser(items, todo, u, hi));
      assert rows[i].name == name;
    }
    if exists i :: 0 <= i < |rows| && rows[i].name == name {
      var i :| 0 <= i < |rows| && rows[i].name == name;
      RowsSound(users, items, todo, hi, |users|);
      assert rows[i] in rows;
      var u: nat :| u < |users| && RowFor(users, items, todo, hi, u, rows[i]);
      var ids := AscendingKeys(items, CompletedOfTodoBy(todo, u), hi);
      assert ids[0] in ids;
      assert ParticipantItem(users, items[ids[0]], todo, name);
    }
  }

  /** The rows (u, name(users[u]), count(u)) of the users u below n whose
      count is positive, in increasing u: the shape of the grouped
      leaderboard queries. */
  function UserRows<N>(users: seq<User>, n: nat, name: User -> N, count: nat -> nat): (r: seq<(Id, N, nat)>)
    requires n <= |users|
    ensures forall i, j :: 0 <= i < j < |r| ==> r[i].0 < r[j].0
    ensures forall row :: row in r ==> row.0 < n && row == (row.0, name(users[row.0]), count(row.0)) && count(row.0) > 0
  {
    if n == 0 then []
    else
      var prefix := UserRows(users, n - 1, name, count);
      if count(n - 1) > 0 then
        var r := prefix + [(n - 1, name(users[n - 1]), count(n - 1))];
        assert forall i :: 0 <= i < |prefix| ==> prefix[i] in prefix;
        r
      else prefix
  }

  /** Every user below n with a positive count has its row. */
  lemma {:induction false} UserRowsComplete<N>(users: seq<User>, n: nat, name: User -> N, count: nat -> nat, u: Id)
    requires u < n <= |users| && count(u) > 0
    ensures (u, name(users[u]), count(u)) in UserRows(users, n, name, count)
  {
    if u < n - 1 {
      UserRowsComplete(users, n - 1, name, count, u);
    }
  }

  /** The sum of the counts of the rows. */
  function SumCounts(rows: seq<CountRow>): nat {
    if rows == [] then 0 else SumCounts(rows[..|rows| - 1]) + rows[|rows| - 1].count
  }

  /** Every count is at most the sum. */
  lemma {:induction false} CountAtMostSum(rows: seq<CountRow>, i: nat)
    requires i < |rows|
    ensures rows[i].count <= SumCounts(rows)
  {
    if i < |rows| - 1 {
      CountAtMostSum(rows[..|rows| - 1], i);
    }
  }
}
