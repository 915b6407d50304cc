/** LeaderboardController and the aggregate queries behind it: the
    collaboration board (items completed on todos with at least two
    participants), the finisher board (todos recorded as completed by each
    user), and the per-user detail lists of both. The queries are functions
    over the tables; the controller maps their rows to response records one
    to one and re-sorts the finisher board by count, largest first. */
module Leaderboard {
  import opened Common
  import opened Text
  import opened Seqs
  import opened Model

  // ---------------------------------------------------------------------
  // Collaboration board

  /** A todo counts for the collaboration board when at least two distinct
      users completed one of its items. */
  predicate Eligible(users: seq<User>, items: map<Id, Item>, todo: Id, hi: nat) {
    |Participation(users, items, todo, hi)| >= 2
  }

  /** The items user u completed, summed over the eligible todos below n. */
  function CollabCount(users: seq<User>, todos: map<Id, Todo>, items: map<Id, Item>, u: Id, n: nat, hi: nat): nat {
    if n == 0 then 0
    else
      CollabCount(users, todos, items, u, n - 1, hi)
        + (if n - 1 in todos && Eligible(users, items, n - 1, hi) then CompletedByUser(items, n - 1, u, hi) else 0)
  }

  /** A user has a positive collaboration count exactly when they completed
      an item of some eligible todo: ineligible todos contribute nothing. */
  lemma {:induction false} CollabCountPositiveIff(users: seq<User>, todos: map<Id, Todo>, items: map<Id, Item>, u: Id, n: nat, hi: nat)
    ensures CollabCount(users, todos, items, u, n, hi) > 0 <==>
      exists t :: 0 <= t < n && t in todos && Eligible(users, items, t, hi) && CompletedByUser(items, t, u, hi) > 0
  {
    if n > 0 {
      CollabCountPositiveIff(users, todos, items, u, n - 1, hi);
      if CollabCount(users, todos, items, u, n, hi) > 0 && CollabCount(users, todos, items, u, n - 1, hi) == 0 {
        assert n - 1 in todos && Eligible(users, items, n - 1, hi) && CompletedByUser(items, n - 1, u, hi) > 0;
      }
    }
  }

  /** A todo with fewer than two participants adds nothing to anyone. */
  lemma SingleParticipantAddsNothing(users: seq<User>, todos: map<Id, Todo>, items: map<Id, Item>, u: Id, t: Id, hi: nat)
    requires t in todos && !Eligible(users, items, t, hi)
    ensures CollabCount(users, todos, items, u, t + 1, hi) == CollabCount(users, todos, items, u, t, hi)
  {
  }

  datatype CollabRowDto = CollabRowDto(userId: Id, userName: string, collabCount: nat)

  /* The name and count columns handed to Model.UserRows are named
     functions rather than lambdas written at each use: the query and the
     lemmas about it then pass the same function value, whereas two lambdas
     written apart are not known to be equal. */

  function CollabCountOf(users: seq<User>, todos: map<Id, Todo>, items: map<Id, Item>, nTodo: nat, hi: nat): nat -> nat {
    (u: nat) => CollabCount(users, todos, items, u, nTodo, hi)
  }

  function DisplayNameOf(): User -> string {
    (u: User) => DisplayName(u.firstName, u.lastName, u.username)
  }

  /** collabLeaderboard: (userId, display name, count) for every user with a
      positive collaboration count, in id order, each row mapped to its
      response record. */
  function CollabQuery(users: seq<User>, todos: map<Id, Todo>, items: map<Id, Item>, nTodo: nat, hi: nat): seq<CollabRowDto> {
    var q := UserRows(users, |users|, DisplayNameOf(), CollabCountOf(users, todos, items, nTodo, hi));
    seq(|q|, i requires 0 <= i < |q| => CollabRowDto(q[i].0, q[i].1, q[i].2))
  }

  function CollabKey(row: CollabRowDto): int {
    row.collabCount
  }

  /** getCollabBoard: the query rows as records, largest count first (the
      query's ORDER BY): each is a user with a positive collaboration count,
      that count and the user's display name. */
  function CollabBoard(users: seq<User>, todos: map<Id, Todo>, items: map<Id, Item>, nTodo: nat, hi: nat): (r: seq<CollabRowDto>)
    ensures SortedDesc(r, CollabKey)
    ensures multiset(r) == multiset(CollabQuery(users, todos, items, nTodo, hi))
    ensures forall row :: row in r ==>
      && row.userId < |users|
      && row.collabCount == CollabCount(users, todos, items, row.userId, nTodo, hi) > 0
      && row.userName == DisplayName(users[row.userId].firstName, users[row.userId].lastName, users[row.userId].username)
  {
    var rows := CollabQuery(users, todos, items, nTodo, hi);
    var sorted := SortDesc(rows, CollabKey);
    SameMultisetSameMembers(sorted, rows);
    forall row | row in rows
      ensures && row.userId < |users|
              && row.collabCount == CollabCount(users, todos, items, row.userId, nTodo, hi) > 0
              && row.userName == DisplayName(users[row.userId].firstName, users[row.userId].lastName, users[row.userId].username)
    {
      CollabQueryRow(users, todos, items, nTodo, hi, row);
    }
    sorted
  }

  lemma CollabQueryRow(users: seq<User>, todos: map<Id, Todo>, items: map<Id, Item>, nTodo: nat, hi: nat, row: CollabRowDto)
    requires row in CollabQuery(users, todos, items, nTodo, hi)
    ensures && row.userId < |users|
            && row.collabCount == CollabCount(users, todos, items, row.userId, nTodo, hi) > 0
            && row.userName == DisplayName(users[row.userId].firstName, users[row.userId].lastName, users[row.userId].username)
  {
    var q := UserRows(users, |users|, DisplayNameOf(), CollabCountOf(users, todos, items, nTodo, hi));
    var rows := CollabQuery(users, todos, items, nTodo, hi);
    var i :| 0 <= i < |rows| && rows[i] == row;
    assert q[i] in q;
  }

  /** Every user with a positive collaboration count is on the board. */
  lemma CollabBoardComplete(users: seq<User>, todos: map<Id, Todo>, items: map<Id, Item>, nTodo: nat, hi: nat, u: Id)
    requires u < |users| && CollabCount(users, todos, items, u, nTodo, hi) > 0
    ensures exists row :: row in CollabBoard(users, todos, items, nTodo, hi) && row.userId == u
  {
    var q := UserRows(users, |users|, DisplayNameOf(), CollabCountOf(users, todos, items, nTodo, hi));
    var rows := CollabQuery(users, todos, items, nTodo, hi);
    UserRowsComplete(users, |users|, DisplayNameOf(), CollabCountOf(users, todos, items, nTodo, hi), u);
    var i :| 0 <= i < |q| && q[i].0 == u;
    assert rows[i] in rows;
    SameMultisetSameMembers(CollabBoard(users, todos, items, nTodo, hi), rows);
  }

  // ---------------------------------------------------------------------
  // Collaboration detail

  function DetailOrder(completedAt: Option<Time>): int {
    match completedAt
    case Some(t) => t
    case None => 0
  }

  datatype CollabItemDetailDto = CollabItemDetailDto(todoId: Id, todoTitle: string, itemId: Id, itemTitle: string, completedAt: Option<Time>)

  function CollabDetailKey(row: CollabItemDetailDto): int {
    DetailOrder(row.completedAt)
  }

  /** The items user u completed on an eligible todo. */
  function CollabItemOf(users: seq<User>, todos: map<Id, Todo>, items: map<Id, Item>, u: Id, hi: nat): Item -> bool {
    (it: Item) => it.completed && it.completedBy == Some(u) && it.todo in todos && Eligible(users, items, it.todo, hi)
  }

  /** collabDetailsForUser: (todoId, todoTitle, itemId, itemTitle,
      completedAt) for those items, in item id order, each row mapped to its
      response record. */
  function CollabDetailRows(users: seq<User>, todos: map<Id, Todo>, items: map<Id, Item>, u: Id, hi: nat): seq<CollabItemDetailDto> {
    var ids := AscendingKeys(items, CollabItemOf(users, todos, items, u, hi), hi);
    seq(|ids|, i requires 0 <= i < |ids| =>
      var it := items[ids[i]];
      CollabItemDetailDto(it.todo, todos[it.todo].title, ids[i], it.title, it.completedAt))
  }

  /** The detail rows are one record per item below hi that u completed on
      an eligible todo, in ascending item id, each carrying that item's and
      its todo's fields. */
  lemma CollabDetailRowsSpec(users: seq<User>, todos: map<Id, Todo>, items: map<Id, Item>, u: Id, hi: nat)
    ensures var r := CollabDetailRows(users, todos, items, u, hi);
      && (forall i, j :: 0 <= i < j < |r| ==> r[i].itemId < r[j].itemId)
      && (forall i :: 0 <= i < |r| ==>
            && r[i].itemId in items && r[i].todoId == items[r[i].itemId].todo && r[i].todoId in todos
            && r[i].todoTitle == todos[r[i].todoId].title
            && r[i].itemTitle == items[r[i].itemId].title && r[i].completedAt == items[r[i].itemId].completedAt)
    ensures var r := CollabDetailRows(users, todos, items, u, hi);
      forall k :: (exists i :: 0 <= i < |r| && r[i].itemId == k) <==>
        && k < hi && k in items
        && items[k].completed && items[k].completedBy == Some(u) && items[k].todo in todos && Eligible(users, items, items[k].todo, hi)
  {
    var ids := AscendingKeys(items, CollabItemOf(users, todos, items, u, hi), hi);
    var r := CollabDetailRows(users, todos, items, u, hi);
    forall k
      ensures (exists i :: 0 <= i < |r| && r[i].itemId == k) <==>
        && k < hi && k in items
        && items[k].completed && items[k].completedBy == Some(u) && items[k].todo in todos && Eligible(users, items, items[k].todo, hi)
    {
      if i :| 0 <= i < |r| && r[i].itemId == k {
        assert ids[i] in ids;
      }
      if k < hi && k in items && CollabItemOf(users, todos, items, u, hi)(items[k]) {
        assert k in ids;
        var i :| 0 <= i < |ids| && ids[i] == k;
        assert r[i].itemId == k;
      }
    }
  }

  /** getCollabDetails: latest completion first, ties in item id order. */
  function CollabDetails(users: seq<User>, todos: map<Id, Todo>, items: map<Id, Item>, u: Id, hi: nat): (r: seq<CollabItemDetailDto>)
    ensures IsStableSortDesc(r, CollabDetailRows(users, todos, items, u, hi), CollabDetailKey)
  {
    var rows := CollabDetailRows(users, todos, items, u, hi);
    SortDescIsStable(rows, CollabDetailKey);
    SortDesc(rows, CollabDetailKey)
  }

  /** Each detail row is an item the user completed on an eligible todo. */
  lemma {:induction false} CollabDetailsAreEligibleItems(users: seq<User>, todos: map<Id, Todo>, items: map<Id, Item>, u: Id, hi: nat, row: CollabItemDetailDto)
    requires row in CollabDetails(users, todos, items, u, hi)
    ensures row.itemId in items && row.itemId < hi
    ensures var it := items[row.itemId];
      it.completed && it.completedBy == Some(u) && it.todo == row.todoId && Eligible(users, items, row.todoId, hi)
  {
    SameMultisetSameMembers(CollabDetails(users, todos, items, u, hi), CollabDetailRows(users, todos, items, u, hi));
    CollabDetailRowIsEligibleItem(users, todos, items, u, hi, row);
  }

  lemma CollabDetailRowIsEligibleItem(users: seq<User>, todos: map<Id, Todo>, items: map<Id, Item>, u: Id, hi: nat, row: CollabItemDetailDto)
    requires row in CollabDetailRows(users, todos, items, u, hi)
    ensures row.itemId in items && row.itemId < hi
    ensures var it := items[row.itemId];
      it.completed && it.completedBy == Some(u) && it.todo == row.todoId && Eligible(users, items, row.todoId, hi)
  {
    var rows := CollabDetailRows(users, todos, items, u, hi);
    CollabDetailRowsSpec(users, todos, items, u, hi);
    var i :| 0 <= i < |rows| && rows[i] == row;
    assert exists j :: 0 <= j < |rows| && rows[j].itemId == row.itemId;
  }

  /** Every item u completed on an eligible todo is in u's details. */
  lemma {:induction false} CollabDetailsListEveryEligibleItem(users: seq<User>, todos: map<Id, Todo>, items: map<Id, Item>, u: Id, hi: nat, k: Id)
    requires k < hi && k in items
    requires items[k].completed && items[k].completedBy == Some(u) && items[k].todo in todos && Eligible(users, items, items[k].todo, hi)
    ensures exists row :: row in CollabDetails(users, todos, items, u, hi) && row.itemId == k
  {
    var rows := CollabDetailRows(users, todos, items, u, hi);
    CollabDetailRowsSpec(users, todos, items, u, hi);
    var i :| 0 <= i < |rows| && rows[i].itemId == k;
    assert rows[i] in rows;
    SameMultisetSameMembers(CollabDetails(users, todos, items, u, hi), rows);
  }

  // ---------------------------------------------------------------------
  // Finisher board

  function CompletedBy(u: Id): Todo -> bool {
    (t: Todo) => t.completedBy == Some(u)
  }

  /** The todos whose recorded completer is u. */
  function FinishCount(todos: map<Id, Todo>, u: Id, hi: nat): nat {
    |AscendingKeys(todos, CompletedBy(u), hi)|
  }

  /** The todos whose completer reference is u. */
  ghost function FinishedBy(todos: map<Id, Todo>, u: Id): set<Id> {
    set k | k in todos && todos[k].completedBy == Some(u)
  }

  /** The finish count counts each todo once: it is the number of todos
      whose completer reference is u. */
  lemma FinishCountCountsTodos(todos: map<Id, Todo>, u: Id, hi: nat)
    requires forall k :: k in todos ==> k < hi
    ensures FinishCount(todos, u, hi) == |FinishedBy(todos, u)|
  {
    var ids := AscendingKeys(todos, CompletedBy(u), hi);
    AscendingCard(ids);
    assert Elements(ids) == FinishedBy(todos, u);
  }

  /** Reopening a todo takes it off its completer's count. */
  lemma {:induction false} ReopenLowersFinishCount(todos: map<Id, Todo>, u: Id, hi: nat, id: Id, t: Todo)
    requires forall k :: k in todos ==> k < hi
    requires id in todos && todos[id].completedBy == Some(u) && t.completedBy.None?
    ensures FinishCount(todos[id := t], u, hi) == FinishCount(todos, u, hi) - 1
  {
    var after := todos[id := t];
    FinishCountCountsTodos(todos, u, hi);
    FinishCountCountsTodos(after, u, hi);
    assert FinishedBy(after, u) == FinishedBy(todos, u) - {id};
  }

  datatype FinisherRowWithIdDto = FinisherRowWithIdDto(userId: Id, userName: Option<string>, finishCount: nat)

  // Named for the same reason as CollabCountOf and DisplayNameOf.
  function FinishCountOf(todos: map<Id, Todo>, hi: nat): nat -> nat {
    (u: nat) => FinishCount(todos, u, hi)
  }

  function FirstNameOf(): User -> Option<string> {
    (u: User) => u.firstName
  }

  /** finisherLeaderboardByUserId: (userId, first name, count) for every
      user recorded as the completer of some todo, in id order, each row
      mapped to its response record. */
  function FinisherQuery(users: seq<User>, todos: map<Id, Todo>, hi: nat): seq<FinisherRowWithIdDto> {
    var q := UserRows(users, |users|, FirstNameOf(), FinishCountOf(todos, hi));
    seq(|q|, i requires 0 <= i < |q| => FinisherRowWithIdDto(q[i].0, q[i].1, q[i].2))
  }

  function FinishKey(row: FinisherRowWithIdDto): int {
    row.finishCount
  }

  /** getFinisherBoardById: the query rows as records, sorted by finish
      count, largest first; the sort is stable, so equal counts keep the
      query's order. */
  function FinisherBoard(users: seq<User>, todos: map<Id, Todo>, hi: nat): (r: seq<FinisherRowWithIdDto>)
    ensures IsStableSortDesc(r, FinisherQuery(users, todos, hi), FinishKey)
    ensures |r| == |FinisherQuery(users, todos, hi)|
  {
    var rows := FinisherQuery(users, todos, hi);
    SortDescIsStable(rows, FinishKey);
    var sorted := SortDesc(rows, FinishKey);
    SameMultisetSameMembers(sorted, rows);
    sorted
  }

  /** Every user who completed a todo appears on the finisher board with the
      number of todos recorded as theirs, and no one else appears. */
  lemma {:induction false} FinisherBoardRows(users: seq<User>, todos: map<Id, Todo>, hi: nat, u: Id)
    ensures forall row :: row in FinisherBoard(users, todos, hi) ==>
      row.userId < |users| && row.finishCount == FinishCount(todos, row.userId, hi) > 0 && row.userName == users[row.userId].firstName
    ensures u < |users| && FinishCount(todos, u, hi) > 0 ==>
      exists row :: row in FinisherBoard(users, todos, hi) && row.userId == u
  {
    var rows := FinisherQuery(users, todos, hi);
    var board := FinisherBoard(users, todos, hi);
    SameMultisetSameMembers(board, rows);
    forall row | row in board
      ensures row.userId < |users| && row.finishCount == FinishCount(todos, row.userId, hi) > 0 && row.userName == users[row.userId].firstName
    {
      FinisherQueryRow(users, todos, hi, row);
    }
    if u < |users| && FinishCount(todos, u, hi) > 0 {
      FinisherQueryHas(users, todos, hi, u);
    }
  }

  lemma FinisherQueryRow(users: seq<User>, todos: map<Id, Todo>, hi: nat, row: FinisherRowWithIdDto)
    requires row in FinisherQuery(users, todos, hi)
    ensures row.userId < |users| && row.finishCount == FinishCount(todos, row.userId, hi) > 0 && row.userName == users[row.userId].firstName
  {
    var q := UserRows(users, |users|, FirstNameOf(), FinishCountOf(todos, hi));
    var rows := FinisherQuery(users, todos, hi);
    var i :| 0 <= i < |rows| && rows[i] == row;
    assert q[i] in q;
  }

  lemma FinisherQueryHas(users: seq<User>, todos: map<Id, Todo>, hi: nat, u: Id)
    requires u < |users| && FinishCount(todos, u, hi) > 0
    ensures exists row :: row in FinisherQuery(users, todos, hi) && row.userId == u
  {
    var q := UserRows(users, |users|, FirstNameOf(), FinishCountOf(todos, hi));
    var rows := FinisherQuery(users, todos, hi);
    UserRowsComplete(users, |users|, FirstNameOf(), FinishCountOf(todos, hi), u);
    var i :| 0 <= i < |q| && q[i].0 == u;
    assert rows[i] in rows;
  }

  // ---------------------------------------------------------------------
  // Finisher detail

  datatype FinisherTodoDetailDto = FinisherTodoDetailDto(todoId: Id, todoTitle: string, completedAt: Option<Time>)

  function FinisherDetailKey(row: FinisherTodoDetailDto): int {
    DetailOrder(row.completedAt)
  }

  /** finisherDetailsByUserId: (todoId, title, completedAt) of the todos
      recorded as completed by u, in id order, each row mapped to its
      response record. */
  function FinisherDetailRows(todos: map<Id, Todo>, u: Id, hi: nat): seq<FinisherTodoDetailDto> {
    var ids := AscendingKeys(todos, CompletedBy(u), hi);
    seq(|ids|, i requires 0 <= i < |ids| => FinisherTodoDetailDto(ids[i], todos[ids[i]].title, todos[ids[i]].completedAt))
  }

  /** The detail rows are one record per todo below hi whose completer is
      u, in ascending todo id, as many as u's finish count, each carrying
      that todo's title and completion time. */
  lemma FinisherDetailRowsSpec(todos: map<Id, Todo>, u: Id, hi: nat)
    ensures var r := FinisherDetailRows(todos, u, hi);
      && |r| == FinishCount(todos, u, hi)
      && (forall i, j :: 0 <= i < j < |r| ==> r[i].todoId < r[j].todoId)
      && (forall i :: 0 <= i < |r| ==>
            r[i].todoId in todos && r[i].todoTitle == todos[r[i].todoId].title && r[i].completedAt == todos[r[i].todoId].completedAt)
    ensures forall k :: (exists i :: 0 <= i < |FinisherDetailRows(todos, u, hi)| && FinisherDetailRows(todos, u, hi)[i].todoId == k) <==>
      k < hi && k in todos && todos[k].completedBy == Some(u)
  {
    var ids := AscendingKeys(todos, CompletedBy(u), hi);
    var r := FinisherDetailRows(todos, u, hi);
    forall k ensures (exists i :: 0 <= i < |r| && r[i].todoId == k) <==> k < hi && k in todos && todos[k].completedBy == Some(u) {
      if i :| 0 <= i < |r| && r[i].todoId == k {
        assert ids[i] in ids;
      }
      if k < hi && k in todos && todos[k].completedBy == Some(u) {
        assert k in ids;
        var i :| 0 <= i < |ids| && ids[i] == k;
        assert r[i].todoId == k;
      }
    }
  }

  /** getFinisherDetailsByUserId: latest completion first; as many rows as
      the user's finish count. */
  function FinisherDetails(todos: map<Id, Todo>, u: Id, hi: nat): (r: seq<FinisherTodoDetailDto>)
    ensures IsStableSortDesc(r, FinisherDetailRows(todos, u, hi), FinisherDetailKey)
    ensures |r| == FinishCount(todos, u, hi)
  {
    var rows := FinisherDetailRows(todos, u, hi);
    SortDescIsStable(rows, FinisherDetailKey);
    var sorted := SortDesc(rows, FinisherDetailKey);
    SameMultisetSameMembers(sorted, rows);
    sorted
  }

  /** The finisher details list exactly the todos below hi recorded as
      completed by u. */
  lemma {:induction false} FinisherDetailsAreTheUsersTodos(todos: map<Id, Todo>, u: Id, hi: nat, k: Id)
    ensures (exists row :: row in FinisherDetails(todos, u, hi) && row.todoId == k) <==>
      k < hi && k in todos && todos[k].completedBy == Some(u)
  {
    var rows := FinisherDetailRows(todos, u, hi);
    var details := FinisherDetails(todos, u, hi);
    assert multiset(details) == multiset(rows);
    SameMultisetSameMembers(details, rows);
    FinisherDetailRowsSpec(todos, u, hi);
    if exists row :: row in details && row.todoId == k {
      var row :| row in details && row.todoId == k;
      assert row in rows;
      var i :| 0 <= i < |rows| && rows[i] == row;
      assert 0 <= i < |rows| && rows[i].todoId == k;
    }
    if k < hi && k in todos && todos[k].completedBy == Some(u) {
      var i :| 0 <= i < |rows| && rows[i].todoId == k;
      assert rows[i] in rows;
      assert rows[i] in details;
    }
  }

  /** Each finisher detail shows its own todo's title and completion time. */
  lemma FinisherDetailShowsItsTodo(todos: map<Id, Todo>, u: Id, hi: nat, row: FinisherTodoDetailDto)
    requires row in FinisherDetails(todos, u, hi)
    ensures row.todoId in todos && row.todoTitle == todos[row.todoId].title && row.completedAt == todos[row.todoId].completedAt
  {
    var rows := FinisherDetailRows(todos, u, hi);
    FinisherDetailRowsSpec(todos, u, hi);
    SameMultisetSameMembers(FinisherDetails(todos, u, hi), rows);
    var i :| 0 <= i < |rows| && rows[i] == row;
  }
}
