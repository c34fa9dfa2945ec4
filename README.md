# Contact directory: a verified model of the client logic

This project models, in Dafny, the sequential logic of a small React contact
directory (the `contact-list-ui` front end). The model covers four parts:

- **The contact form** (`contact_form.dfy`, with `phone_pattern.dfy`,
  `email_pattern.dfy` and `contact_data.dfy`).
  - The form keeps a five-field draft and an error map, in class
    `ContactForm.Form`.
  - `validate` builds the error map one check at a time: a blank name, a
    missing or malformed phone, a malformed e-mail.
  - The two fixed regular expressions are written out as hand-made
    recognisers. Each has a soundness, a completeness and an
    if-and-only-if lemma against a declarative reading of its pattern.
  - Also modelled: `handleChange`, loading the draft from a contact, and
    gating the submission on `validate`.
- **The service layer** (`contact_service.dfy`).
  - Each call's HTTP response is abstracted into a `Response`. `Success`
    is an ok status with an optional parsed body; `Failure` is a failing
    status with an optional parsed error body.
  - Every call picks its error text as `errorData?.message || fallback`.
    `getContacts` also applies the `|| []` default.
  - `searchContacts` is a filter over the fetched list. It keeps order and
    multiplicity.
- **The page controller** (`home_page.dfy`).
  - Class `HomePage.Page` holds the cache `contacts`, the visible list
    `filteredContacts`, `searchQuery`, `isLoading`, the three dialog flags
    and `currentContact`.
  - There is one method per handler. Each takes the outcome of the service
    call it makes (`Ok(...)` or `Err(message)`) as a parameter.
  - Each handler returns the list of service requests it issued.
  - The search effect is the method `Refilter`. Every handler that changes
    the cache or the query runs it.
- **Avatar initials** (`contact_card.dfy`). `getInitials` is split on
  `" "`, then first characters, join, upper-case, and the first two
  characters. It is proved equal to an independent "first letter of each
  word" reading.

Shared pieces sit in their own files:

- `wrappers.dfy`: `Option`, and `Outcome` for the result of an
  asynchronous call.
- `text.dfy`: the ECMAScript whitespace set, `trim`, ASCII case mapping,
  `includes`, and decimal rendering of ids.
- `sequences.dfy`: the subsequence relation.

Every handler is modelled as running to completion, with no interleaving.

Observations the proofs bring out:

- The form's own phone placeholder, `+1 (555) 123-4567`
  (`src/components/ContactForm.jsx:120`), is rejected by the form's
  pattern (`ContactForm.PlaceholderRejected`). A `(` may appear only right
  after the optional `+`, so after `+1` and a space the pattern needs a
  digit. The placeholder also has four digit groups, one more than the
  pattern's three.
- Any phone the pattern accepts is never blank
  (`ContactForm.MatchedPhoneNotBlank`), so a blank phone fails the pattern
  anyway. The trimmed "required" test therefore only decides which message
  a phone error gets, never whether one is reported.
- Every service call that fails on an HTTP status, with a string message
  or none, carries a non-empty message (`ContactService.ErrorsAreNeverEmpty`).
  So in that case the page's own `error.message || "..."` fallbacks are
  never used. A rejected `fetch` or a `TypeError` inside a handler also
  carries a non-empty message. Only a non-string server `message` (such
  as `[]`, for which `new Error([]).message` is `""`) reaches them, and
  that case is outside this model.
- With a non-empty query, the visible list comes from the list the search
  fetches from the server, not from the locally patched cache
  (`HomePage.Visible`).
- A dialog's submit handler calls `onSubmit` and then always `onClose`
  (`src/components/ContactDialog.jsx:12-15`). So the add and edit dialogs
  close, and the edit selection is cleared, even when the call fails
  (`HomePage.Page.SubmitAddDialog`, `HomePage.Page.SubmitEditDialog`).
  The handlers alone keep their dialog open on failure.

## Model

| member | source | states |
|---|---|---|
| `Text.Trim` | src/components/ContactForm.jsx:52 | `trim` gives a slice of the input such that everything cut before and after it is ECMAScript whitespace, and the slice is empty or neither starts nor ends with whitespace |
| `Text.IsBlank` | src/components/ContactForm.jsx:52 | `!s.trim()` holds exactly when every character of `s` is whitespace (the empty string included) |
| `Text.Lower` | src/lib/contact-service.js:75 | `toLowerCase` keeps the length and maps each character through the ASCII lower-case map |
| `Text.Upper` | src/components/ContactCard.jsx:15 | `toUpperCase` keeps the length and maps each character through the ASCII upper-case map |
| `Text.Contains` | src/lib/contact-service.js:77-79 | `includes` finds every prefix of the haystack, the empty needle included, and never a needle longer than the haystack |
| `Text.IntText` | src/lib/contact-service.js:29 | an id rendered in a template literal is non-empty, and is all digits for a non-negative id |
| `Text.NatTextValue` | src/lib/contact-service.js:29 | the digits rendered for a non-negative number denote that number |
| `Text.IntTextValue` | src/lib/contact-service.js:29 | `${id}` is the decimal value of the id: its digits when non-negative, otherwise `-` followed by the digits of its absolute value |
| `ContactData.HasId` | src/pages/HomePage.jsx:98 | a contact passes the `!currentContact.id` guard only with an id, and an id passes exactly when it is non-zero, the one falsy integer, which is the one rendered as `0` |
| `ContactData.IdTextIsZero` | src/lib/contact-service.js:29 | an id is rendered as `0` exactly when it is zero |
| `ContactData.DraftOf` | src/components/ContactForm.jsx:21-31 | loading a contact copies its name and phone, and gives each absent optional field `""` |
| `ContactData.OrEmpty` | src/components/ContactForm.jsx:26-28 | `x \|\| ""` is the string when present and `""` when absent |
| `ContactData.Draft.Set` | src/components/ContactForm.jsx:35-38 | the updated field takes the new value; every other field keeps its value |
| `PhonePattern.ParsePhone` | src/components/ContactForm.jsx:58 | soundness: a reading it returns is well-formed (1-4, 1-4, 1-9 digits, separators from `-`, `.`, whitespace) and spells the input exactly |
| `PhonePattern.ParseGroups` | src/components/ContactForm.jsx:58 | the groups after the optional `+` and `(` that it returns are well-formed and spell their input |
| `PhonePattern.IsValidPhone` | src/components/ContactForm.jsx:58 | an accepted phone starts with `+`, `(` or a digit, ends with a digit, and holds 3 to 17 digits |
| `PhonePattern.ParsePhoneComplete` | src/components/ContactForm.jsx:58 | completeness: every well-formed reading spells a string the recogniser accepts |
| `PhonePattern.PhoneAcceptsExactly` | src/components/ContactForm.jsx:58 | a phone is accepted iff some well-formed reading of the pattern spells it |
| `PhonePattern.RenderedPhoneShape` | src/components/ContactForm.jsx:58 | a well-formed reading holds 3 to 17 digits, starts with `+`, `(` or a digit, and ends with a digit |
| `PhonePattern.AcceptedPhoneShape` | src/components/ContactForm.jsx:58 | an accepted phone holds 3 to 17 digits, has no whitespace at either end, and equals its own trim |
| `EmailPattern.IndexOf` | src/components/ContactForm.jsx:62 | the index returned is the first occurrence of the character; none is returned exactly when the character is absent |
| `EmailPattern.IsValidEmail` | src/components/ContactForm.jsx:62 | an accepted e-mail has at least five characters, neither starts nor ends with `@`, and holds no whitespace at all, since the pattern is tested on the untrimmed value |
| `EmailPattern.EmailSound` | src/components/ContactForm.jsx:62 | an accepted e-mail splits as `L@A.B` with L, A, B non-empty and free of `@` and whitespace |
| `EmailPattern.EmailComplete` | src/components/ContactForm.jsx:62 | every `L@A.B` of that kind is accepted |
| `EmailPattern.EmailAcceptsExactly` | src/components/ContactForm.jsx:62 | an e-mail is accepted iff it has the form `L@A.B` above |
| `ContactForm.Errors` | src/components/ContactForm.jsx:50-64 | the error map has a key only for a failing check, with that check's message; a blank phone gets "Phone number is required", otherwise a malformed one gets "Please enter a valid phone number" |
| `ContactForm.ValidationErrors` | src/components/ContactForm.jsx:49-65 | name error iff the name is blank, with "Name is required"; exactly one phone message when blank or malformed; e-mail error iff non-empty and malformed; no key for address or notes |
| `ContactForm.NoErrorsIff` | src/components/ContactForm.jsx:66-67 | the map is empty exactly when the name and phone are not blank, the phone matches, and the e-mail is empty or matches |
| `ContactForm.MatchedPhoneNotBlank` | src/components/ContactForm.jsx:56-58 | a phone the pattern accepts is never blank |
| `ContactForm.ValidDraft` | src/components/ContactForm.jsx:49-67 | a draft passes iff its name is not blank, its phone is accepted, and its e-mail is empty or of the form `L@A.B` |
| `ContactForm.ValidDraftPhone` | src/components/ContactForm.jsx:56-60 | a passing draft's phone holds 3 to 17 digits and equals its own trim |
| `ContactForm.EmailReportedIffMalformed` | src/components/ContactForm.jsx:62-64 | an empty e-mail is never reported; a non-empty one is reported iff it is not of the form `L@A.B` |
| `ContactForm.MissingNameExample` | src/components/ContactForm.jsx:49-65 | name `""` with phone `123` gives only the name error |
| `ContactForm.MissingPhoneExample` | src/components/ContactForm.jsx:49-65 | name `Jo` with an empty phone gives only "Phone number is required" |
| `ContactForm.BadEmailExample` | src/components/ContactForm.jsx:49-65 | name `Jo`, phone `555-1234`, e-mail `bad` gives only the e-mail error |
| `ContactForm.ShortPhoneAccepted` | src/components/ContactForm.jsx:58 | the three-digit phone `123` is accepted |
| `ContactForm.PlaceholderRejected` | src/components/ContactForm.jsx:120 | the form's own placeholder phone is rejected by its pattern |
| `ContactForm.StepwiseErrors` | src/components/ContactForm.jsx:50-64 | adding the entries one branch at a time yields the gathered error map |
| `ContactForm.CollectErrors` | src/components/ContactForm.jsx:50-64 | the branch-by-branch construction of `newErrors` equals `Errors` of the four test results |
| `ContactForm.CheckDraft` | src/components/ContactForm.jsx:49-67 | the map built from a draft is `ValidationErrors` of it, and the returned flag is true iff the map is empty |
| `ContactForm.Form.constructor` | src/components/ContactForm.jsx:11-19 | the form starts with an all-empty draft and no errors |
| `ContactForm.Form.LoadContact` | src/components/ContactForm.jsx:21-31 | with a contact the draft becomes `DraftOf(contact)`, without one it is kept; errors untouched |
| `ContactForm.Form.HandleChange` | src/components/ContactForm.jsx:33-47 | only the typed field changes; its error, if set and non-empty, becomes `""`; every other error entry and the key set stay |
| `ContactForm.Form.Validate` | src/components/ContactForm.jsx:49-68 | stores `ValidationErrors(formData)` as the error map, keeps the draft, and returns true iff the map is empty |
| `ContactForm.Form.HandleSubmit` | src/components/ContactForm.jsx:70-75 | the draft is handed to `onSubmit` iff validation passes |
| `ContactService.ErrorText` | src/lib/contact-service.js:18-21 | a non-empty server message is used as is; an absent body, an absent message or an empty one gives the fallback; the text is non-empty whenever the fallback is |
| `ContactService.GetContacts` | src/lib/contact-service.js:16-23 | an ok response gives its list, or `[]` when the body is absent; a failure gives its error text with fallback "Failed to fetch contacts" |
| `ContactService.GetContactById` | src/lib/contact-service.js:25-32 | an ok response gives the parsed record; a failure falls back to "Contact with ID <id> not found" |
| `ContactService.AddContact` | src/lib/contact-service.js:34-45 | an ok response gives the created record; a failure falls back to "Failed to create contact" |
| `ContactService.UpdateContact` | src/lib/contact-service.js:47-58 | an ok response gives the stored record; a failure falls back to "Failed to update contact with ID <id>" |
| `ContactService.DeleteContact` | src/lib/contact-service.js:60-69 | any ok response gives `true`; a failure falls back to "Failed to delete contact with ID <id>" |
| `ContactService.ErrorsAreNeverEmpty` | src/lib/contact-service.js:16-69 | every failing call's message is non-empty |
| `ContactService.ServerMessageExample` | src/lib/contact-service.js:40-43 | a failing create whose body says `boom` fails with `boom`; an empty message falls back; an ok list response with no body gives `[]` |
| `ContactService.Matches` | src/lib/contact-service.js:77-79 | every contact matches the empty query, and a matching query is no longer than the name, the phone or the e-mail |
| `ContactService.NoEmailMatchesByNameOrPhone` | src/lib/contact-service.js:79 | a contact with no (or an empty) e-mail matches only through its name or phone |
| `ContactService.FilterMatching` | src/lib/contact-service.js:76-80 | the result is a subsequence of the input, and a contact is in it iff it is in the input and matches |
| `ContactService.FilterMatchingCounts` | src/lib/contact-service.js:76-80 | each matching contact keeps its multiplicity; no other contact remains |
| `ContactService.EmptyQueryKeepsAll` | src/lib/contact-service.js:76-80 | filtering with the empty query keeps the whole list |
| `ContactService.SearchContacts` | src/lib/contact-service.js:71-81 | a failed fetch fails the search; an empty query returns the fetched list unchanged; a non-empty query returns `FilterMatching` of it, so each matching contact as often as it was fetched (`FilterMatchingCounts`); every successful result is an order-preserving selection of the fetched list holding exactly its matching contacts |
| `ContactService.EmptySearchIsFilter` | src/lib/contact-service.js:73 | the `!query` shortcut returns the same list that filtering with the empty query would |
| `ContactService.SearchByNameExample` | src/lib/contact-service.js:71-81 | searching `ann` in [Ann Lee, Bob] returns only Ann Lee |
| `ContactService.SearchByPhoneExample` | src/lib/contact-service.js:71-81 | searching `222` in [Ann Lee, Bob] returns only Bob |
| `ContactCard.SplitOn` | src/components/ContactCard.jsx:12 | `split(" ")` gives at least one piece, and no piece contains the separator |
| `ContactCard.JoinSplit` | src/components/ContactCard.jsx:12 | joining the pieces with the separator gives back the original string |
| `ContactCard.FirstChars` | src/components/ContactCard.jsx:13-14 | there is at most one character per piece |
| `ContactCard.Prefix` | src/components/ContactCard.jsx:16 | `substring(0, n)` is a prefix of at most `n` characters, the whole string when it is short enough |
| `ContactCard.Initials` | src/components/ContactCard.jsx:10-17 | the initials have at most two characters |
| `ContactCard.WordStarts` | src/components/ContactCard.jsx:11-14 | the word starts contain no space and are no longer than the name |
| `ContactCard.FirstCharsAreWordStarts` | src/components/ContactCard.jsx:11-14 | the first characters of the pieces are exactly the characters that begin a word, in order |
| `ContactCard.InitialsOfWords` | src/components/ContactCard.jsx:10-17 | the initials are the first two word starts, upper-cased |
| `ContactCard.BlankNameHasNoInitials` | src/components/ContactCard.jsx:12-14 | a name made only of spaces, the empty name included, gives `""` |
| `ContactCard.SingleWordInitial` | src/components/ContactCard.jsx:12-16 | a non-empty name without a space gives exactly its upper-cased first character |
| `ContactCard.TwoWordExample` | src/components/ContactCard.jsx:10-17 | `ann lee` gives `AL` |
| `ContactCard.ThreeWordExample` | src/components/ContactCard.jsx:10-17 | ` a  b c` gives `AB`: extra spaces add nothing and the third word is cut off |
| `HomePage.ReplaceById` | src/pages/HomePage.jsx:102-106 | the length is kept, each entry with the id becomes the updated record, and every other entry stays in its place |
| `HomePage.ReplaceAbsentId` | src/pages/HomePage.jsx:102-106 | replacing an id no entry carries changes nothing |
| `HomePage.RemoveById` | src/pages/HomePage.jsx:129-131 | the result is a subsequence of the cache, and holds exactly the entries whose id differs |
| `HomePage.RemoveByIdCounts` | src/pages/HomePage.jsx:129-131 | entries with the id are all gone; every other entry keeps its multiplicity |
| `HomePage.RemoveAbsentId` | src/pages/HomePage.jsx:129-131 | removing an id no entry carries changes nothing |
| `HomePage.RemoveAppend` | src/pages/HomePage.jsx:129-131 | removal distributes over concatenation |
| `HomePage.RemoveOne` | src/pages/HomePage.jsx:129-131 | when one entry alone carries the id, removing it drops that entry and keeps the rest in order |
| `HomePage.EditExample` | src/pages/HomePage.jsx:102-106 | editing id 3 in [1, 3, 5] replaces only the middle entry |
| `HomePage.DeleteExample` | src/pages/HomePage.jsx:129-131 | deleting id 3 from [1, 3, 5] leaves [1, 5] |
| `HomePage.Visible` | src/pages/HomePage.jsx:52-74 | with no query the cache is shown; otherwise `FilterMatching` of the fetched list (an order- and count-preserving selection of its matching contacts), or nothing when the search fails |
| `HomePage.Page.Valid` | src/pages/HomePage.jsx:52-74 | the invariant every handler keeps: nothing is loading, with no query the cache is shown, and every visible contact matches the current query |
| `HomePage.Page.constructor` | src/pages/HomePage.jsx:20-27 | the page starts empty, not loading, no dialog open, nothing selected |
| `HomePage.Page.Refilter` | src/pages/HomePage.jsx:52-74 | the visible list becomes `Visible(...)`; with no query `isLoading` is untouched and nothing is fetched; otherwise one list request is made and loading ends; nothing else changes |
| `HomePage.Page.LoadContacts` | src/pages/HomePage.jsx:29-46 | the cache becomes the loaded list, or `[]` on failure; the search effect then runs; loading ends |
| `HomePage.Page.SetSearchQuery` | src/pages/HomePage.jsx:185-188 | a new query is stored and the search effect runs; the same query again changes nothing |
| `HomePage.Page.HandleAddContact` | src/pages/HomePage.jsx:76-95 | one create request; on success the record is appended, the add dialog closes and the search effect runs; on failure the cache and the dialog are unchanged; loading ends |
| `HomePage.Page.HandleEditContact` | src/pages/HomePage.jsx:97-122 | with no selection, or one without a truthy id, nothing changes and no request is made; otherwise one update request for that id; on success the entries with that id are replaced, the dialog closes and the selection is cleared; on failure the cache is kept; loading ends |
| `HomePage.Page.HandleDeleteContact` | src/pages/HomePage.jsx:124-148 | the same guard; one delete request; on success the entries with that id are removed, the delete dialog closes and the selection is cleared; on failure the cache is kept; loading ends |
| `HomePage.Page.OpenAddDialog` | src/pages/HomePage.jsx:175 | opens the add dialog only |
| `HomePage.Page.OpenEditDialog` | src/pages/HomePage.jsx:150-153 | selects the contact and opens the edit dialog only |
| `HomePage.Page.OpenDeleteDialog` | src/pages/HomePage.jsx:155-158 | selects the contact and opens the delete dialog only |
| `HomePage.Page.CloseAddDialog` | src/pages/HomePage.jsx:204 | closes the add dialog only |
| `HomePage.Page.CloseEditDialog` | src/pages/HomePage.jsx:210-213 | closes the edit dialog and clears the selection |
| `HomePage.Page.CloseDeleteDialog` | src/pages/HomePage.jsx:220-223 | closes the delete dialog and clears the selection |
| `HomePage.Page.SubmitAddDialog` | src/components/ContactDialog.jsx:12-15 | the add handler, then `onClose`: the cache is patched as by the handler, and the dialog ends closed whether or not the create succeeded |
| `HomePage.Page.SubmitEditDialog` | src/components/ContactDialog.jsx:12-15 | the edit handler with the selection it was called with, then `onClose`: the dialog ends closed and the selection cleared in every case |

## Left out

- `fetch`, the URL, the headers, `JSON.stringify` and `parseJSON`'s
  content-type test and `response.json()` (`src/lib/contact-service.js:1-14`)
  are network I/O. Each response is a `Response` value: an ok or failing
  status with an optional parsed body.
- Server records are assumed to carry string `name` and `phone`
  (`ContactData.Contact`). In the source, a record without them makes
  `searchContacts` throw (`src/lib/contact-service.js:77-78`), and the page
  then shows an empty list (`src/pages/HomePage.jsx:62-68`). `getInitials`
  would throw too (`src/components/ContactCard.jsx:11`), and the form would
  load `""` (`src/components/ContactForm.jsx:24-25`). None of these paths is
  modelled.
- An error body whose `message` is not a string (a number, an object) is
  not modelled; `message` is an optional string.
- `HomePage.Page.HandleAddContact`: assumes an ok create response carries a
  record. With a null body the source appends `null` to the cache and then
  fails in the toast; the model does not cover that case.
  `HomePage.Page.HandleEditContact` makes the same assumption for update.
- `HomePage.Page.LoadContacts`: takes the `getContacts` outcome, which is
  never null after its own `|| []`, so the page's second `|| []` has
  nothing left to do.
- Async scheduling is not modelled: the search race under rapid typing,
  the un-awaited `onSubmit` promise in the dialog, and the form's
  `try/catch`, which cannot catch an async rejection. Each handler runs to
  completion atomically, so `isLoading` is `true` only inside a handler.
- Toast notifications, animation, JSX markup and CSS are UI and are left
  out. So are `ContactList.jsx` (presentation only), `App.jsx` (routing
  only), and `SearchBar` and `DeleteConfirmDialog`, whose sources are not
  part of this model. The delete dialog's confirm is taken to call
  `handleDeleteContact` directly.
- `Text.Lower`: the model maps case for ASCII letters only. It does not
  cover full Unicode `toLowerCase`, for example characters whose mapping
  changes the length.
- `ContactCard.Initials`: upper-cases ASCII letters only, for the same
  reason.
- Strings are sequences of code points, not UTF-16 code units, so
  `n[0]` and `substring` of astral characters differ from JavaScript.
- Whitespace uses the ECMAScript `\s` and `trim` set of code points
  (`Text.IsSpace`), which is wider than ASCII whitespace.
- Contact ids are integers; an id is "truthy" when present and non-zero.
- `Text.IntText`: ids are assumed to be safe integers (magnitude below
  2^53). For them `${id}` is plain decimal and `===` on ids is integer
  equality. JavaScript numbers that are not safe integers are not
  modelled: `-0` and `NaN`, which are falsy for the `!currentContact.id`
  guard, fractions, and values from 1e21 on, which `${id}` prints in
  exponent form.
  String ids from the server are not modelled.
- `getContactById` is modelled as a service function, but no page handler
  calls it, so the page's request list has no entry for it.
