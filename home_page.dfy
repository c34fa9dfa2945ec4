/** The page controller: the contact cache, the visible (searched) list, the
    loading flag, the three dialogs and the selected contact, and the
    handlers that change them. Each handler runs to completion; the outcome
    of every service call it makes is a parameter. */
module HomePage {
  import opened Wrappers
  import opened Sequences
  import opened ContactData
  import opened ContactService

  /** `prev.map(c => c.id === k ? updated : c)`. */
  function ReplaceById(cs: seq<Contact>, k: int, updated: Contact): (r: seq<Contact>)
    ensures |r| == |cs|
    ensures forall i :: 0 <= i < |cs| ==> r[i] == if cs[i].id == Some(k) then updated else cs[i]
  {
    if cs == [] then []
    else [if cs[0].id == Some(k) then updated else cs[0]] + ReplaceById(cs[1..], k, updated)
  }

  /** `prev.filter(c => c.id !== k)`. */
  function RemoveById(cs: seq<Contact>, k: int): (r: seq<Contact>)
    ensures IsSubsequence(r, cs)
    ensures forall c :: c in r <==> c in cs && c.id != Some(k)
  {
    if cs == [] then []
    else
      var rest := RemoveById(cs[1..], k);
      if cs[0].id != Some(k) then [cs[0]] + rest else rest
  }

  /** Every entry without id `k` survives removal as often as it occurs;
      every entry with id `k` is gone. */
  lemma {:induction false} RemoveByIdCounts(cs: seq<Contact>, k: int)
    ensures forall c :: multiset(RemoveById(cs, k))[c] == if c.id == Some(k) then 0 else multiset(cs)[c]
  {
    if cs != [] {
      RemoveByIdCounts(cs[1..], k);
      assert cs == [cs[0]] + cs[1..];
    }
  }

  /** Replacing an id that no entry carries changes nothing. */
  lemma ReplaceAbsentId(cs: seq<Contact>, k: int, updated: Contact)
    requires forall c :: c in cs ==> c.id != Some(k)
    ensures ReplaceById(cs, k, updated) == cs
  {
    var r := ReplaceById(cs, k, updated);
    assert forall i :: 0 <= i < |cs| ==> r[i] == cs[i] by {
      forall i | 0 <= i < |cs| ensures r[i] == cs[i] {
        assert cs[i] in cs;
      }
    }
  }

  /** Removing an id that no entry carries changes nothing. */
  lemma {:induction false} RemoveAbsentId(cs: seq<Contact>, k: int)
    requires forall j :: 0 <= j < |cs| ==> cs[j].id != Some(k)
    ensures RemoveById(cs, k) == cs
  {
    if cs != [] {
      assert forall j :: 0 <= j < |cs| - 1 ==> cs[1..][j] == cs[j + 1];
      RemoveAbsentId(cs[1..], k);
    }
  }

  /** When exactly one entry carries id `k`, removing `k` drops that entry
      alone and keeps the others in order. */
  lemma RemoveOne(pre: seq<Contact>, x: Contact, post: seq<Contact>, k: int)
    requires x.id == Some(k)
    requires forall j :: 0 <= j < |pre| ==> pre[j].id != Some(k)
    requires forall j :: 0 <= j < |post| ==> post[j].id != Some(k)
    ensures RemoveById(pre + [x] + post, k) == pre + post
  {
    RemoveAbsentId(pre, k);
    RemoveAbsentId(post, k);
    RemoveAppend(pre + [x], post, k);
    RemoveAppend(pre, [x], k);
    assert RemoveById([x], k) == [] by {
      assert [x][1..] == [];
    }
    assert pre + [] == pre;
  }

  /** Removal distributes over concatenation. */
  lemma {:induction false} RemoveAppend(a: seq<Contact>, b: seq<Contact>, k: int)
    ensures RemoveById(a + b, k) == RemoveById(a, k) + RemoveById(b, k)
  {
    if a != [] {
      assert (a + b)[0] == a[0];
      assert (a + b)[1..] == a[1..] + b;
      RemoveAppend(a[1..], b, k);
    } else {
      assert a + b == b;
    }
  }

  /** What the search effect shows for cache `contacts` and query `query`:
      the cache itself for an empty query; otherwise the search over the
      list the service returns (`fetched`), or nothing when that fails. */
  function Visible(contacts: seq<Contact>, query: string, fetched: Outcome<seq<Contact>>): (r: seq<Contact>)
    ensures query == "" ==> r == contacts
    ensures query != "" && fetched.Err? ==> r == []
    ensures query != "" && fetched.Ok? ==> r == FilterMatching(fetched.value, query)
    ensures query != "" && fetched.Ok? ==>
      && IsSubsequence(r, fetched.value)
      && (forall c :: c in r <==> c in fetched.value && Matches(c, query))
  {
    if query == "" then contacts
    else
      match SearchContacts(fetched, query)
      case Ok(results) => results
      case Err(_) => []
  }

  /** The state of the page. */
  class Page {
    var contacts: seq<Contact>
    var filteredContacts: seq<Contact>
    var searchQuery: string
    var isLoading: bool
    var isAddDialogOpen: bool
    var isEditDialogOpen: bool
    var isDeleteDialogOpen: bool
    var currentContact: Option<Contact>

    /** Between handlers nothing is loading, with no query the visible list
        is the cache, and with a query every visible contact matches it; so
        every visible contact matches the current query, whatever it is. */
    function Valid(): (v: bool)
      reads this
      ensures v ==> forall c :: c in filteredContacts ==> Matches(c, searchQuery)
    {
      && !isLoading
      && (searchQuery == "" ==> filteredContacts == contacts)
      && (searchQuery != "" ==> forall c :: c in filteredContacts ==> Matches(c, searchQuery))
    }

    /** The page's initial state (before the mount effect loads). */
    constructor ()
      ensures contacts == [] && filteredContacts == [] && searchQuery == ""
      ensures !isLoading && !isAddDialogOpen && !isEditDialogOpen && !isDeleteDialogOpen
      ensures currentContact == None
      ensures Valid()
    {
      contacts := [];
      filteredContacts := [];
      searchQuery := "";
      isLoading := false;
      isAddDialogOpen := false;
      isEditDialogOpen := false;
      isDeleteDialogOpen := false;
      currentContact := None;
    }

    /** The search effect (`performSearch`), run whenever the cache or the
        query changes: with no query the cache is shown and the loading flag
        is untouched; otherwise the list is fetched and searched, a failure
        shows nothing, and loading ends. */
    method Refilter(fetched: Outcome<seq<Contact>>) returns (requests: seq<Request>)
      modifies this
      ensures filteredContacts == Visible(contacts, searchQuery, fetched)
      ensures isLoading == if searchQuery == "" then old(isLoading) else false
      ensures requests == if searchQuery == "" then [] else [ListRequest]
      ensures contacts == old(contacts) && searchQuery == old(searchQuery)
      ensures isAddDialogOpen == old(isAddDialogOpen) && isEditDialogOpen == old(isEditDialogOpen)
      ensures isDeleteDialogOpen == old(isDeleteDialogOpen) && currentContact == old(currentContact)
      ensures old(!isLoading) ==> Valid()
    {
      if searchQuery == "" {
        filteredContacts := contacts;
        requests := [];
        return;
      }
      isLoading := true;
      requests := [ListRequest];
      var results := SearchContacts(fetched, searchQuery);
      match results {
        case Ok(found) =>
          filteredContacts := found;
        case Err(_) =>
          filteredContacts := [];
      }
      isLoading := false;
    }

    /** `loadContacts`: both lists take the fetched cache, or `[]` when the
        fetch fails; loading ends; then the search effect runs on the new
        cache. */
    method LoadContacts(loaded: Outcome<seq<Contact>>, fetched: Outcome<seq<Contact>>)
      returns (requests: seq<Request>)
      modifies this
      ensures contacts == if loaded.Ok? then loaded.value else []
      ensures filteredContacts == Visible(contacts, searchQuery, fetched)
      ensures !isLoading && Valid()
      ensures requests == [ListRequest] + (if searchQuery == "" then [] else [ListRequest])
      ensures searchQuery == old(searchQuery) && currentContact == old(currentContact)
      ensures isAddDialogOpen == old(isAddDialogOpen) && isEditDialogOpen == old(isEditDialogOpen)
      ensures isDeleteDialogOpen == old(isDeleteDialogOpen)
    {
      isLoading := true;
      match loaded {
        case Ok(list) =>
          contacts := list;
          filteredContacts := list;
        case Err(_) =>
          contacts := [];
          filteredContacts := [];
      }
      isLoading := false;
      var searched := Refilter(fetched);
      requests := [ListRequest] + searched;
    }

    /** The search input: a new query is stored and the search effect runs;
        typing the same query again changes nothing. */
    method SetSearchQuery(query: string, fetched: Outcome<seq<Contact>>) returns (requests: seq<Request>)
      modifies this
      ensures searchQuery == query && contacts == old(contacts)
      ensures filteredContacts ==
        if query == old(searchQuery) then old(filteredContacts) else Visible(contacts, query, fetched)
      ensures isLoading == if query == old(searchQuery) || query == "" then old(isLoading) else false
      ensures requests == if query == old(searchQuery) || query == "" then [] else [ListRequest]
      ensures isAddDialogOpen == old(isAddDialogOpen) && isEditDialogOpen == old(isEditDialogOpen)
      ensures isDeleteDialogOpen == old(isDeleteDialogOpen) && currentContact == old(currentContact)
      ensures old(Valid()) ==> Valid()
    {
      if query == searchQuery {
        requests := [];
        return;
      }
      searchQuery := query;
      requests := Refilter(fetched);
    }

    /** `handleAddContact`: asks the service to create `draft`; on success
        the created record is appended to the cache, the add dialog closes
        and the search effect runs; on failure only loading ends. */
    method HandleAddContact(draft: Draft, reply: Outcome<Contact>, fetched: Outcome<seq<Contact>>)
      returns (requests: seq<Request>)
      modifies this
      ensures contacts == if reply.Ok? then old(contacts) + [reply.value] else old(contacts)
      ensures filteredContacts ==
        if reply.Ok? then Visible(contacts, searchQuery, fetched) else old(filteredContacts)
      ensures isAddDialogOpen == if reply.Ok? then false else old(isAddDialogOpen)
      ensures !isLoading
      ensures requests == [CreateRequest(draft)] +
        (if reply.Ok? && searchQuery != "" then [ListRequest] else [])
      ensures searchQuery == old(searchQuery) && currentContact == old(currentContact)
      ensures isEditDialogOpen == old(isEditDialogOpen) && isDeleteDialogOpen == old(isDeleteDialogOpen)
      ensures old(Valid()) ==> Valid()
    {
      isLoading := true;
      requests := [CreateRequest(draft)];
      match reply {
        case Ok(created) =>
          contacts := contacts + [created];
          isAddDialogOpen := false;
          isLoading := false;
          var searched := Refilter(fetched);
          requests := requests + searched;
        case Err(_) =>
          isLoading := false;
      }
    }

    /** `handleEditContact`: without a selected contact that has an id,
        nothing happens. Otherwise the service is asked to update that id;
        on success every cached entry with that id becomes the returned
        record, the edit dialog closes, the selection is cleared and the
        search effect runs; on failure only loading ends. */
    method HandleEditContact(draft: Draft, reply: Outcome<Contact>, fetched: Outcome<seq<Contact>>)
      returns (requests: seq<Request>)
      modifies this
      ensures !(old(currentContact).Some? && HasId(old(currentContact).value)) ==>
        requests == [] && unchanged(this)
      ensures old(currentContact).Some? && HasId(old(currentContact).value) ==>
        var k := old(currentContact).value.id.value;
        && contacts == (if reply.Ok? then ReplaceById(old(contacts), k, reply.value) else old(contacts))
        && filteredContacts == (if reply.Ok? then Visible(contacts, searchQuery, fetched) else old(filteredContacts))
        && isEditDialogOpen == (if reply.Ok? then false else old(isEditDialogOpen))
        && currentContact == (if reply.Ok? then None else old(currentContact))
        && !isLoading
        && requests == [UpdateRequest(k, draft)] + (if reply.Ok? && searchQuery != "" then [ListRequest] else [])
      ensures searchQuery == old(searchQuery)
      ensures isAddDialogOpen == old(isAddDialogOpen) && isDeleteDialogOpen == old(isDeleteDialogOpen)
      ensures old(Valid()) ==> Valid()
    {
      if !(currentContact.Some? && HasId(currentContact.value)) {
        requests := [];
        return;
      }
      var k := currentContact.value.id.value;
      isLoading := true;
      requests := [UpdateRequest(k, draft)];
      match reply {
        case Ok(updated) =>
          contacts := ReplaceById(contacts, k, updated);
          isEditDialogOpen := false;
          currentContact := None;
          isLoading := false;
          var searched := Refilter(fetched);
          requests := requests + searched;
        case Err(_) =>
          isLoading := false;
      }
    }

    /** `handleDeleteContact`: without a selected contact that has an id,
        nothing happens. Otherwise the service is asked to delete that id;
        on success every cached entry with that id is dropped, the delete
        dialog closes, the selection is cleared and the search effect runs;
        on failure only loading ends. */
    method HandleDeleteContact(reply: Outcome<bool>, fetched: Outcome<seq<Contact>>)
      returns (requests: seq<Request>)
      modifies this
      ensures !(old(currentContact).Some? && HasId(old(currentContact).value)) ==>
        requests == [] && unchanged(this)
      ensures old(currentContact).Some? && HasId(old(currentContact).value) ==>
        var k := old(currentContact).value.id.value;
        && contacts == (if reply.Ok? then RemoveById(old(contacts), k) else old(contacts))
        && filteredContacts == (if reply.Ok? then Visible(contacts, searchQuery, fetched) else old(filteredContacts))
        && isDeleteDialogOpen == (if reply.Ok? then false else old(isDeleteDialogOpen))
        && currentContact == (if reply.Ok? then None else old(currentContact))
        && !isLoading
        && requests == [DeleteRequest(k)] + (if reply.Ok? && searchQuery != "" then [ListRequest] else [])
      ensures searchQuery == old(searchQuery)
      ensures isAddDialogOpen == old(isAddDialogOpen) && isEditDialogOpen == old(isEditDialogOpen)
      ensures old(Valid()) ==> Valid()
    {
      if !(currentContact.Some? && HasId(currentContact.value)) {
        requests := [];
        return;
      }
      var k := currentContact.value.id.value;
      isLoading := true;
      requests := [DeleteRequest(k)];
      match reply {
        case Ok(_) =>
          contacts := RemoveById(contacts, k);
          isDeleteDialogOpen := false;
          currentContact := None;
          isLoading := false;
          var searched := Refilter(fetched);
          requests := requests + searched;
        case Err(_) =>
          isLoading := false;
      }
    }

    /** The header's add button. */
    method OpenAddDialog()
      modifies this
      ensures isAddDialogOpen
      ensures contacts == old(contacts) && filteredContacts == old(filteredContacts)
      ensures searchQuery == old(searchQuery) && isLoading == old(isLoading)
      ensures isEditDialogOpen == old(isEditDialogOpen) && isDeleteDialogOpen == old(isDeleteDialogOpen)
      ensures currentContact == old(currentContact)
    {
      isAddDialogOpen := true;
    }

    /** `openEditDialog`: selects `c` and opens the edit dialog only. */
    method OpenEditDialog(c: Contact)
      modifies this
      ensures currentContact == Some(c) && isEditDialogOpen
      ensures contacts == old(contacts) && filteredContacts == old(filteredContacts)
      ensures searchQuery == old(searchQuery) && isLoading == old(isLoading)
      ensures isAddDialogOpen == old(isAddDialogOpen) && isDeleteDialogOpen == old(isDeleteDialogOpen)
    {
      currentContact := Some(c);
      isEditDialogOpen := true;
    }

    /** `openDeleteDialog`: selects `c` and opens the delete dialog only. */
    method OpenDeleteDialog(c: Contact)
      modifies this
      ensures currentContact == Some(c) && isDeleteDialogOpen
      ensures contacts == old(contacts) && filteredContacts == old(filteredContacts)
      ensures searchQuery == old(searchQuery) && isLoading == old(isLoading)
      ensures isAddDialogOpen == old(isAddDialogOpen) && isEditDialogOpen == old(isEditDialogOpen)
    {
      currentContact := Some(c);
      isDeleteDialogOpen := true;
    }

    /** The add dialog's `onClose`. */
    method CloseAddDialog()
      modifies this
      ensures !isAddDialogOpen
      ensures contacts == old(contacts) && filteredContacts == old(filteredContacts)
      ensures searchQuery == old(searchQuery) && isLoading == old(isLoading)
      ensures isEditDialogOpen == old(isEditDialogOpen) && isDeleteDialogOpen == old(isDeleteDialogOpen)
      ensures currentContact == old(currentContact)
    {
      isAddDialogOpen := false;
    }

    /** The edit dialog's `onClose`: closes it and clears the selection. */
    method CloseEditDialog()
      modifies this
      ensures !isEditDialogOpen && currentContact == None
      ensures contacts == old(contacts) && filteredContacts == old(filteredContacts)
      ensures searchQuery == old(searchQuery) && isLoading == old(isLoading)
      ensures isAddDialogOpen == old(isAddDialogOpen) && isDeleteDialogOpen == old(isDeleteDialogOpen)
    {
      isEditDialogOpen := false;
      currentContact := None;
    }

    /** The delete dialog's `onClose`: closes it and clears the selection. */
    method CloseDeleteDialog()
      modifies this
      ensures !isDeleteDialogOpen && currentContact == None
      ensures contacts == old(contacts) && filteredContacts == old(filteredContacts)
      ensures searchQuery == old(searchQuery) && isLoading == old(isLoading)
      ensures isAddDialogOpen == old(isAddDialogOpen) && isEditDialogOpen == old(isEditDialogOpen)
    {
      isDeleteDialogOpen := false;
      currentContact := None;
    }

    /** Submitting the add dialog: the handler, then `onClose`, so the
        dialog is closed whether or not the create succeeded. */
    method SubmitAddDialog(draft: Draft, reply: Outcome<Contact>, fetched: Outcome<seq<Contact>>)
      returns (requests: seq<Request>)
      modifies this
      ensures !isAddDialogOpen && !isLoading
      ensures contacts == if reply.Ok? then old(contacts) + [reply.value] else old(contacts)
      ensures filteredContacts ==
        if reply.Ok? then Visible(contacts, searchQuery, fetched) else old(filteredContacts)
      ensures requests == [CreateRequest(draft)] +
        (if reply.Ok? && searchQuery != "" then [ListRequest] else [])
      ensures searchQuery == old(searchQuery) && currentContact == old(currentContact)
      ensures isEditDialogOpen == old(isEditDialogOpen) && isDeleteDialogOpen == old(isDeleteDialogOpen)
      ensures old(Valid()) ==> Valid()
    {
      requests := HandleAddContact(draft, reply, fetched);
      CloseAddDialog();
    }

    /** Submitting the edit dialog: the handler runs with the selection as
        it was, then `onClose` closes the dialog and clears the selection
        whether or not the update succeeded. */
    method SubmitEditDialog(draft: Draft, reply: Outcome<Contact>, fetched: Outcome<seq<Contact>>)
      returns (requests: seq<Request>)
      modifies this
      ensures !isEditDialogOpen && currentContact == None
      ensures !(old(currentContact).Some? && HasId(old(currentContact).value)) ==>
        && requests == []
        && contacts == old(contacts) && filteredContacts == old(filteredContacts)
        && isLoading == old(isLoading)
      ensures old(currentContact).Some? && HasId(old(currentContact).value) ==>
        var k := old(currentContact).value.id.value;
        && contacts == (if reply.Ok? then ReplaceById(old(contacts), k, reply.value) else old(contacts))
        && filteredContacts == (if reply.Ok? then Visible(contacts, searchQuery, fetched) else old(filteredContacts))
        && !isLoading
        && requests == [UpdateRequest(k, draft)] + (if reply.Ok? && searchQuery != "" then [ListRequest] else [])
      ensures searchQuery == old(searchQuery)
      ensures isAddDialogOpen == old(isAddDialogOpen) && isDeleteDialogOpen == old(isDeleteDialogOpen)
      ensures old(Valid()) ==> Valid()
    {
      requests := HandleEditContact(draft, reply, fetched);
      CloseEditDialog();
    }
  }

  /** Editing the contact with id 3 replaces only that entry, in place. */
  lemma EditExample(a: Contact, b: Contact, c: Contact, updated: Contact)
    requires a.id == Some(1) && b.id == Some(3) && c.id == Some(5)
    ensures ReplaceById([a, b, c], 3, updated) == [a, updated, c]
  {
  }

  /** Deleting the contact with id 3 removes exactly that entry. */
  lemma DeleteExample(a: Contact, b: Contact, c: Contact)
    requires a.id == Some(1) && b.id == Some(3) && c.id == Some(5)
    ensures RemoveById([a, b, c], 3) == [a, c]
  {
    RemoveOne([a], b, [c], 3);
    assert [a] + [b] + [c] == [a, b, c];
  }
}
