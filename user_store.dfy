/**
 * The user store: one `UserState` record that every action replaces by a
 * copy with some fields changed (`setState` merges the partial record into
 * the old one). Listener notification is not part of this model.
 */
module UserStore {
  import opened Wrappers
  import opened Seqs
  import opened UserTypes

  datatype UserState = UserState(
    users: seq<User>,
    selectedUser: Option<User>,
    isLoading: bool,
    error: Option<string>,
    currentPage: int,
    totalPages: int,
    total: int,
    hasMore: bool,
    filters: UserFilters,
    searchQuery: string)

  /** `getInitialState`. */
  const Initial := UserState([], None, false, None, 1, 1, 0, false, NoFilters, "")

  function UserId(u: User): string { u.id }

  /** `addUser`: the user goes first and the total grows by one. */
  function WithUserAdded(s: UserState, user: User): UserState {
    s.(users := [user] + s.users, total := s.total + 1)
  }

  /** `updateUser`: every listed user with the same id, and a selected user with that id, become `user`. */
  function WithUserUpdated(s: UserState, user: User): UserState {
    s.(users := ReplaceKey(s.users, UserId, user.id, user),
       selectedUser := if s.selectedUser.Some? && s.selectedUser.value.id == user.id then Some(user) else s.selectedUser)
  }

  /** `removeUser`: every user with the id leaves the list, a matching selection is cleared, and the total drops by one. */
  function WithUserRemoved(s: UserState, userId: string): UserState {
    s.(users := DropKey(s.users, UserId, userId),
       selectedUser := if s.selectedUser.Some? && s.selectedUser.value.id == userId then None else s.selectedUser,
       total := s.total - 1)
  }

  /** After an update the list keeps its length and every id stays where it was; the users with other ids are untouched. */
  lemma UpdatedKeepsShape(s: UserState, user: User)
    ensures |WithUserUpdated(s, user).users| == |s.users|
    ensures forall j :: 0 <= j < |s.users| ==> WithUserUpdated(s, user).users[j].id == s.users[j].id
    ensures DropKey(WithUserUpdated(s, user).users, UserId, user.id) == DropKey(s.users, UserId, user.id)
  {
    forall j | 0 <= j < |s.users| {
      ReplaceKeyKeys(s.users, UserId, user, j);
    }
    ReplaceKeyOthers(s.users, UserId, user);
  }

  /** An update never clears or sets the selection; it swaps in `user` when the ids match and otherwise leaves it alone. */
  lemma UpdatedSelection(s: UserState, user: User)
    ensures WithUserUpdated(s, user).selectedUser.Some? <==> s.selectedUser.Some?
    ensures s.selectedUser.Some? && s.selectedUser.value.id == user.id ==> WithUserUpdated(s, user).selectedUser == Some(user)
    ensures !(s.selectedUser.Some? && s.selectedUser.value.id == user.id) ==> WithUserUpdated(s, user).selectedUser == s.selectedUser
  {
  }

  /** After a removal no listed or selected user has the id, and a user is still listed exactly when it had another id. */
  lemma RemovedMembers(s: UserState, userId: string, u: User)
    ensures u in WithUserRemoved(s, userId).users <==> u in s.users && u.id != userId
    ensures WithUserRemoved(s, userId).selectedUser.Some? ==> WithUserRemoved(s, userId).selectedUser.value.id != userId
  {
    DropKeyMembers(s.users, UserId, userId, u);
  }

  /** The total drops by one even when no user has the id, and then the list is unchanged. */
  lemma RemovedAbsent(s: UserState, userId: string)
    requires forall j :: 0 <= j < |s.users| ==> s.users[j].id != userId
    ensures WithUserRemoved(s, userId).users == s.users
    ensures WithUserRemoved(s, userId).total == s.total - 1
  {
    DropKeyAbsent(s.users, UserId, userId);
  }

  /** Adding a user with a new id and removing it again gives back the state, unless that id was selected. */
  lemma RemoveUndoesAdd(s: UserState, user: User)
    requires forall j :: 0 <= j < |s.users| ==> s.users[j].id != user.id
    requires !(s.selectedUser.Some? && s.selectedUser.value.id == user.id)
    ensures WithUserRemoved(WithUserAdded(s, user), user.id) == s
  {
    DropKeyAbsent(s.users, UserId, user.id);
    assert ([user] + s.users)[1..] == s.users;
  }

  class UserStore {
    var state: UserState

    constructor()
      ensures state == Initial
    {
      state := Initial;
    }

    /** `getState` hands out a copy, so the caller cannot change the store through it. */
    method GetState() returns (s: UserState)
      ensures s == state
    {
      s := state;
    }

    method SetUsers(users: seq<User>)
      modifies this
      ensures state == old(state).(users := users)
    {
      state := state.(users := users);
    }

    method SetSelectedUser(selectedUser: Option<User>)
      modifies this
      ensures state == old(state).(selectedUser := selectedUser)
    {
      state := state.(selectedUser := selectedUser);
    }

    method SetLoading(isLoading: bool)
      modifies this
      ensures state == old(state).(isLoading := isLoading)
    {
      state := state.(isLoading := isLoading);
    }

    method SetError(error: Option<string>)
      modifies this
      ensures state == old(state).(error := error)
    {
      state := state.(error := error);
    }

    method SetPagination(currentPage: int, totalPages: int, total: int, hasMore: bool)
      modifies this
      ensures state == old(state).(currentPage := currentPage, totalPages := totalPages, total := total, hasMore := hasMore)
    {
      state := state.(currentPage := currentPage, totalPages := totalPages, total := total, hasMore := hasMore);
    }

    /** New filters send the listing back to its first page. */
    method SetFilters(filters: UserFilters)
      modifies this
      ensures state == old(state).(filters := filters, currentPage := 1)
    {
      state := state.(filters := filters, currentPage := 1);
    }

    /** A new query sends the listing back to its first page. */
    method SetSearchQuery(searchQuery: string)
      modifies this
      ensures state == old(state).(searchQuery := searchQuery, currentPage := 1)
    {
      state := state.(searchQuery := searchQuery, currentPage := 1);
    }

    method AddUser(user: User)
      modifies this
      ensures state == WithUserAdded(old(state), user)
      ensures state.users[0] == user && state.users[1..] == old(state.users)
    {
      state := state.(users := [user] + state.users, total := state.total + 1);
    }

    method UpdateUser(user: User)
      modifies this
      ensures state == WithUserUpdated(old(state), user)
    {
      var selected := if state.selectedUser.Some? && state.selectedUser.value.id == user.id then Some(user) else state.selectedUser;
      state := state.(users := ReplaceKey(state.users, UserId, user.id, user), selectedUser := selected);
    }

    method RemoveUser(userId: string)
      modifies this
      ensures state == WithUserRemoved(old(state), userId)
    {
      var selected := if state.selectedUser.Some? && state.selectedUser.value.id == userId then None else state.selectedUser;
      state := state.(users := DropKey(state.users, UserId, userId), selectedUser := selected, total := state.total - 1);
    }

    method Reset()
      modifies this
      ensures state == Initial
    {
      state := Initial;
    }
  }
}
