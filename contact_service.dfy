/** The client side of the contacts API: how each call turns the server's
    response into a value or an error message, and the client-side search
    filter. The network round trip itself is abstracted into a `Response`. */
module ContactService {
  import opened Wrappers
  import opened Text
  import opened Sequences
  import opened ContactData

  /** A parsed error body; `message` is absent when the body has none. */
  datatype ErrorBody = ErrorBody(message: Option<string>)

  /** What `fetch` and `parseJSON` deliver for one call: either an ok status
      with the parsed body (absent when the body is not JSON), or a failing
      status with the parsed error body (likewise optional). */
  datatype Response<T> =
    | Success(payload: Option<T>)
    | Failure(errorBody: Option<ErrorBody>)

  /** One of the calls the page makes, with its arguments. */
  datatype Request =
    | ListRequest
    | CreateRequest(draft: Draft)
    | UpdateRequest(id: int, draft: Draft)
    | DeleteRequest(id: int)

  const FetchFailed := "Failed to fetch contacts"
  const CreateFailed := "Failed to create contact"

  function NotFound(id: int): string {
    "Contact with ID " + IntText(id) + " not found"
  }

  function UpdateFailed(id: int): string {
    "Failed to update contact with ID " + IntText(id)
  }

  function DeleteFailed(id: int): string {
    "Failed to delete contact with ID " + IntText(id)
  }

  /** `errorData?.message || fallback`: the server's message when there is a
      non-empty one, the operation's own text otherwise. */
  function ErrorText(body: Option<ErrorBody>, fallback: string): (t: string)
    ensures body.Some? && body.value.message.Some? && body.value.message.value != "" ==>
      t == body.value.message.value
    ensures !(body.Some? && body.value.message.Some? && body.value.message.value != "") ==>
      t == fallback
    ensures fallback != "" ==> t != ""
  {
    match body
    case None => fallback
    case Some(b) =>
      match b.message
      case None => fallback
      case Some(m) => if m != "" then m else fallback
  }

  /** `getContacts`: the list, or `[]` when the ok body is absent. */
  function GetContacts(r: Response<seq<Contact>>): (o: Outcome<seq<Contact>>)
    ensures r.Success? <==> o.Ok?
    ensures r.Success? ==> o.value == r.payload.GetOr([])
    ensures r.Failure? ==> o.message == ErrorText(r.errorBody, FetchFailed)
  {
    match r
    case Success(p) => Ok(p.GetOr([]))
    case Failure(b) => Err(ErrorText(b, FetchFailed))
  }

  /** `getContactById`: the parsed record (absent when the body is not JSON). */
  function GetContactById(id: int, r: Response<Contact>): (o: Outcome<Option<Contact>>)
    ensures r.Success? <==> o.Ok?
    ensures r.Success? ==> o.value == r.payload
    ensures r.Failure? ==> o.message == ErrorText(r.errorBody, NotFound(id))
  {
    match r
    case Success(p) => Ok(p)
    case Failure(b) => Err(ErrorText(b, NotFound(id)))
  }

  /** `addContact`: the record the server created. */
  function AddContact(r: Response<Contact>): (o: Outcome<Option<Contact>>)
    ensures r.Success? <==> o.Ok?
    ensures r.Success? ==> o.value == r.payload
    ensures r.Failure? ==> o.message == ErrorText(r.errorBody, CreateFailed)
  {
    match r
    case Success(p) => Ok(p)
    case Failure(b) => Err(ErrorText(b, CreateFailed))
  }

  /** `updateContact`: the record as the server stored it. */
  function UpdateContact(id: int, r: Response<Contact>): (o: Outcome<Option<Contact>>)
    ensures r.Success? <==> o.Ok?
    ensures r.Success? ==> o.value == r.payload
    ensures r.Failure? ==> o.message == ErrorText(r.errorBody, UpdateFailed(id))
  {
    match r
    case Success(p) => Ok(p)
    case Failure(b) => Err(ErrorText(b, UpdateFailed(id)))
  }

  /** `deleteContact`: `true` on any ok status, whatever the body. */
  function DeleteContact<T>(id: int, r: Response<T>): (o: Outcome<bool>)
    ensures r.Success? <==> o == Ok(true)
    ensures r.Failure? ==> o == Err(ErrorText(r.errorBody, DeleteFailed(id)))
  {
    match r
    case Success(_) => Ok(true)
    case Failure(b) => Err(ErrorText(b, DeleteFailed(id)))
  }

  /** Every failing call carries a non-empty message, so the page's own
      `error.message || ...` fallbacks are never used. */
  lemma ErrorsAreNeverEmpty(id: int, rs: Response<seq<Contact>>, r: Response<Contact>)
    ensures GetContacts(rs).Err? ==> GetContacts(rs).message != ""
    ensures GetContactById(id, r).Err? ==> GetContactById(id, r).message != ""
    ensures AddContact(r).Err? ==> AddContact(r).message != ""
    ensures UpdateContact(id, r).Err? ==> UpdateContact(id, r).message != ""
    ensures DeleteContact(id, r).Err? ==> DeleteContact(id, r).message != ""
  {
  }

  /** A failing `create` whose body says `boom` fails with exactly `boom`. */
  lemma ServerMessageExample()
    ensures AddContact(Failure(Some(ErrorBody(Some("boom"))))) == Err("boom")
    ensures AddContact(Failure(Some(ErrorBody(Some(""))))) == Err(CreateFailed)
    ensures GetContacts(Success(None)) == Ok([])
  {
  }

  /** The filter predicate of `searchContacts`: the lower-cased name contains
      the lower-cased query, or the phone contains the query as typed, or an
      e-mail is present (non-empty) and its lower-cased form contains the
      lower-cased query. Every contact matches the empty query, and a
      matching query is no longer than one of the searched fields. */
  function Matches(c: Contact, query: string): (m: bool)
    ensures query == "" ==> m
    ensures m ==> |query| <= |c.name| || |query| <= |c.phone| || (c.email.Some? && |query| <= |c.email.value|)
  {
    Contains(Lower(c.name), Lower(query))
    || Contains(c.phone, query)
    || (c.email.Some? && c.email.value != "" && Contains(Lower(c.email.value), Lower(query)))
  }

  /** A contact without an e-mail can match only through its name or phone. */
  lemma NoEmailMatchesByNameOrPhone(c: Contact, query: string)
    requires c.email.None? || c.email == Some("")
    ensures Matches(c, query) <==>
      Contains(Lower(c.name), Lower(query)) || Contains(c.phone, query)
  {
  }

  /** `Array.prototype.filter` with `Matches`: the matching contacts, in
      their original order, each as often as in the input. */
  function FilterMatching(cs: seq<Contact>, query: string): (r: seq<Contact>)
    ensures IsSubsequence(r, cs)
    ensures forall c :: c in r <==> c in cs && Matches(c, query)
  {
    if cs == [] then []
    else
      var rest := FilterMatching(cs[1..], query);
      if Matches(cs[0], query) then [cs[0]] + rest else rest
  }

  /** Each matching contact is kept as often as it occurs; no other is. */
  lemma {:induction false} FilterMatchingCounts(cs: seq<Contact>, query: string)
    ensures forall c ::
      multiset(FilterMatching(cs, query))[c] == if Matches(c, query) then multiset(cs)[c] else 0
  {
    if cs != [] {
      FilterMatchingCounts(cs[1..], query);
      assert cs == [cs[0]] + cs[1..];
    }
  }

  /** The empty query matches every contact, so filtering with it keeps
      the whole list. */
  lemma {:induction false} EmptyQueryKeepsAll(cs: seq<Contact>)
    ensures FilterMatching(cs, "") == cs
  {
    if cs != [] {
      EmptyQueryKeepsAll(cs[1..]);
      assert cs == [cs[0]] + cs[1..];
    }
  }

  /** `searchContacts`: fetches the whole list first, then returns it as is
      for an empty query and filtered otherwise; a failed fetch fails the
      search with the fetch's message. In every successful case the result
      is an order-preserving selection of the matching fetched contacts. */
  function SearchContacts(fetched: Outcome<seq<Contact>>, query: string): (o: Outcome<seq<Contact>>)
    ensures fetched.Err? ==> o == fetched
    ensures fetched.Ok? && query == "" ==> o == fetched
    ensures fetched.Ok? && query != "" ==> o == Ok(FilterMatching(fetched.value, query))
    ensures fetched.Ok? ==>
      && o.Ok?
      && IsSubsequence(o.value, fetched.value)
      && (forall c :: c in o.value <==> c in fetched.value && Matches(c, query))
  {
    match fetched
    case Err(_) => fetched
    case Ok(all) =>
      if query == "" then SubsequenceReflexive(all); fetched
      else Ok(FilterMatching(all, query))
  }

  /** The empty-query shortcut returns what the filter would. */
  lemma EmptySearchIsFilter(all: seq<Contact>)
    ensures SearchContacts(Ok(all), "") == Ok(FilterMatching(all, ""))
  {
    EmptyQueryKeepsAll(all);
  }

  /** The two sample contacts. */
  const Ann := Contact(None, "Ann Lee", "111", Some("a@x.com"), None, None)
  const Bob := Contact(None, "Bob", "222", None, None, None)

  /** Filtering a two-element list keeps each element that matches. */
  lemma FilterPair(a: Contact, b: Contact, query: string)
    ensures FilterMatching([a, b], query) ==
      (if Matches(a, query) then [a] else []) + (if Matches(b, query) then [b] else [])
  {
    assert [a, b][1..] == [b];
    assert [b][1..] == [];
  }

  /** Searching the samples for `ann` finds Ann only. */
  lemma SearchByNameExample()
    ensures SearchContacts(Ok([Ann, Bob]), "ann") == Ok([Ann])
  {
    assert Lower("ann") == "ann" && Lower(Ann.name) == "ann lee" && Lower(Bob.name) == "bob";
    assert OccursAt("ann lee", "ann", 0);
    assert Matches(Ann, "ann");
    FirstCharAbsent("bob", "ann");
    FirstCharAbsent(Bob.phone, "ann");
    assert !Matches(Bob, "ann");
    FilterPair(Ann, Bob, "ann");
    assert [Ann] + [] == [Ann];
  }

  /** Searching the samples for `222` finds Bob only. */
  lemma SearchByPhoneExample()
    ensures SearchContacts(Ok([Ann, Bob]), "222") == Ok([Bob])
  {
    assert Lower("222") == "222" && Lower(Ann.name) == "ann lee" && Lower(Ann.email.value) == "a@x.com";
    assert OccursAt(Bob.phone, "222", 0);
    FirstCharAbsent("ann lee", "222");
    FirstCharAbsent(Ann.phone, "222");
    FirstCharAbsent("a@x.com", "222");
    assert Matches(Bob, "222");
    assert !Matches(Ann, "222");
    FilterPair(Ann, Bob, "222");
    assert [] + [Bob] == [Bob];
  }
}
