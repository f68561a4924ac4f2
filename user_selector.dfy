/**
 * The recipient picker of the PDF form: a search box over the users on
 * offer, which lists the unselected users whose name or e-mail contains the
 * query (ignoring case), and chips for the selected users. The selected list
 * is owned by the parent: the handlers return the list they pass to
 * `onUsersChange`.
 */
module UserSelector {
  import opened JsString
  import opened Seqs

  /** The user fields the picker reads. */
  datatype Recipient = Recipient(id: string, name: string, email: string)

  function RecipientId(u: Recipient): string { u.id }

  /** The query occurs, ignoring case, in the name or the e-mail. */
  predicate Matches(u: Recipient, query: string) {
    Includes(ToLower(u.name), ToLower(query)) || Includes(ToLower(u.email), ToLower(query))
  }

  /** `selected.some(s => s.id === u.id)`. */
  predicate IsSelected(u: Recipient, selected: seq<Recipient>) {
    exists k :: 0 <= k < |selected| && selected[k].id == u.id
  }

  /** `filteredUsers`. */
  function FilteredUsers(available: seq<Recipient>, selected: seq<Recipient>, query: string): (r: seq<Recipient>)
    ensures |r| <= |available|
    ensures forall k :: 0 <= k < |r| ==> r[k] in available
    ensures forall k :: 0 <= k < |r| ==> Matches(r[k], query) && !IsSelected(r[k], selected)
  {
    if available == [] then []
    else
      var rest := FilteredUsers(available[1..], selected, query);
      if Matches(available[0], query) && !IsSelected(available[0], selected) then [available[0]] + rest else rest
  }

  /** A user is listed exactly when on offer, matching and not yet selected. */
  lemma {:induction false} FilteredMembers(available: seq<Recipient>, selected: seq<Recipient>, query: string, u: Recipient)
    ensures u in FilteredUsers(available, selected, query) <==> u in available && Matches(u, query) && !IsSelected(u, selected)
  {
    if available != [] {
      FilteredMembers(available[1..], selected, query, u);
      assert available == [available[0]] + available[1..];
    }
  }

  /** Filtering works piecewise, so the listed users keep the order they are offered in. */
  lemma {:induction false} FilteredAppend(a: seq<Recipient>, b: seq<Recipient>, selected: seq<Recipient>, query: string)
    ensures FilteredUsers(a + b, selected, query) == FilteredUsers(a, selected, query) + FilteredUsers(b, selected, query)
  {
    if a == [] {
      assert a + b == b;
    } else {
      assert (a + b)[0] == a[0];
      assert (a + b)[1..] == a[1..] + b;
      FilteredAppend(a[1..], b, selected, query);
    }
  }

  /** An empty query matches everybody, so every unselected user is listed. */
  lemma EmptyQueryListsUnselected(available: seq<Recipient>, selected: seq<Recipient>, u: Recipient)
    ensures u in FilteredUsers(available, selected, "") <==> u in available && !IsSelected(u, selected)
  {
    FilteredMembers(available, selected, "", u);
    IncludesEmpty(ToLower(u.name));
  }

  /** Choosing a listed user keeps the selected ids distinct. */
  lemma SelectKeepsDistinct(available: seq<Recipient>, selected: seq<Recipient>, query: string, u: Recipient)
    requires DistinctKeys(selected, RecipientId)
    requires u in FilteredUsers(available, selected, query)
    ensures DistinctKeys(selected + [u], RecipientId)
  {
    var k :| 0 <= k < |FilteredUsers(available, selected, query)| && FilteredUsers(available, selected, query)[k] == u;
    var r := selected + [u];
    forall a, b | 0 <= a < b < |r|
      ensures r[a].id != r[b].id
    {
      if b == |selected| {
        assert r[a] == selected[a];
      } else {
        assert r[a] == selected[a] && r[b] == selected[b];
      }
    }
  }

  class UserSelector {
    var isOpen: bool
    var searchQuery: string

    constructor()
      ensures !isOpen && searchQuery == ""
    {
      isOpen := false;
      searchQuery := "";
    }

    method SetSearchQuery(query: string)
      modifies this
      ensures searchQuery == query && isOpen == old(isOpen)
    {
      searchQuery := query;
    }

    /** The add button: the list opens or closes. */
    method Toggle()
      modifies this
      ensures isOpen == !old(isOpen) && searchQuery == old(searchQuery)
    {
      isOpen := !isOpen;
    }

    /** A mouse press anywhere: one outside the component closes the list. */
    method MouseDown(inside: bool)
      modifies this
      ensures isOpen == (old(isOpen) && inside) && searchQuery == old(searchQuery)
    {
      if !inside {
        isOpen := false;
      }
    }

    /** `handleSelectUser`: the user joins the end of the list, the query is cleared and the list closes. */
    method SelectUser(selected: seq<Recipient>, user: Recipient) returns (next: seq<Recipient>)
      modifies this
      ensures next == selected + [user]
      ensures searchQuery == "" && !isOpen
    {
      next := selected + [user];
      searchQuery := "";
      isOpen := false;
    }

    /** `handleRemoveUser`: every selected user with the id goes, the others keep their order. */
    method RemoveUser(selected: seq<Recipient>, userId: string) returns (next: seq<Recipient>)
      ensures next == DropKey(selected, RecipientId, userId)
      ensures forall k :: 0 <= k < |next| ==> next[k].id != userId
    {
      next := DropKey(selected, RecipientId, userId);
    }
  }
}
