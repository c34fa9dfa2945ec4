/** The one entity of the directory, and the editable draft of it that the
    form works on. */
module ContactData {
  import opened Wrappers
  import opened Text

  /** A contact as the API returns it. `id` is assigned by the server and is
      absent until the record is persisted; `name` and `phone` are required
      attributes; the other three are optional. */
  datatype Contact = Contact(
    id: Option<int>,
    name: string,
    phone: string,
    email: Option<string>,
    address: Option<string>,
    notes: Option<string>)

  /** `!!contact.id`: the contact carries an identifier that JavaScript
      treats as truthy (present and not the number zero); for the integer
      ids of this model, those are exactly the ids not rendered as `0`. */
  function HasId(c: Contact): (b: bool)
    ensures b ==> c.id.Some?
    ensures c.id.Some? ==> (b <==> IntText(c.id.value) != "0")
  {
    if c.id.Some? then IdTextIsZero(c.id.value); c.id.value != 0 else false
  }

  /** Only the id zero is rendered as `0`. */
  lemma IdTextIsZero(k: int)
    ensures IntText(k) == "0" <==> k == 0
  {
    IntTextValue(k);
  }

  /** The five inputs of the contact form. */
  datatype Field = Name | Phone | Email | Address | Notes

  /** The form's `formData`: one string per input. */
  datatype Draft = Draft(name: string, phone: string, email: string, address: string, notes: string) {

    function Get(f: Field): string {
      match f
      case Name => name
      case Phone => phone
      case Email => email
      case Address => address
      case Notes => notes
    }

    /** `{ ...prev, [f]: value }`: field `f` takes `value`, the others keep theirs. */
    function Set(f: Field, value: string): (d: Draft)
      ensures d.Get(f) == value
      ensures forall g :: g != f ==> d.Get(g) == Get(g)
    {
      match f
      case Name => this.(name := value)
      case Phone => this.(phone := value)
      case Email => this.(email := value)
      case Address => this.(address := value)
      case Notes => this.(notes := value)
    }
  }

  /** The initial `formData`: every input empty. */
  const EmptyDraft := Draft("", "", "", "", "")

  /** `x || ""` on an optional string: absent and empty both give `""`. */
  function OrEmpty(x: Option<string>): (r: string)
    ensures x.Some? ==> r == x.value
    ensures x.None? ==> r == ""
  {
    x.GetOr("")
  }

  /** The draft loaded from an existing contact (`contact.f || ""` per field). */
  function DraftOf(c: Contact): (d: Draft)
    ensures d.Get(Name) == c.name && d.Get(Phone) == c.phone
    ensures d.Get(Email) == OrEmpty(c.email)
    ensures d.Get(Address) == OrEmpty(c.address)
    ensures d.Get(Notes) == OrEmpty(c.notes)
  {
    Draft(c.name, c.phone, OrEmpty(c.email), OrEmpty(c.address), OrEmpty(c.notes))
  }
}
