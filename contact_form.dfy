/** The contact form: its draft (`formData`), its error map (`errors`), the
    validation rules and the change, load and submit handlers. */
module ContactForm {
  import opened Wrappers
  import opened Text
  import opened ContactData
  import opened PhonePattern
  import opened EmailPattern

  const NameRequired := "Name is required"
  const PhoneRequired := "Phone number is required"
  const PhoneInvalid := "Please enter a valid phone number"
  const EmailInvalid := "Please enter a valid email address"

  /** The map entry one check contributes: none when it passes. */
  function Entry(f: Field, failed: bool, message: string): (m: map<Field, string>)
    ensures m.Keys == if failed then {f} else {}
    ensures failed ==> m[f] == message
  {
    if failed then map[f := message] else map[]
  }

  /** Gathers the outcomes of the three checks into one error map: a blank
      name, then a blank or unmatched phone (blank wins), then a bad e-mail. */
  function Errors(nameBlank: bool, phoneBlank: bool, phoneMatches: bool, emailBad: bool): (errs: map<Field, string>)
    ensures errs.Keys <= {Name, Phone, Email}
    ensures Name in errs <==> nameBlank
    ensures Phone in errs <==> phoneBlank || !phoneMatches
    ensures Email in errs <==> emailBad
    ensures Name in errs ==> errs[Name] == NameRequired
    ensures Phone in errs ==> errs[Phone] == if phoneBlank then PhoneRequired else PhoneInvalid
    ensures Email in errs ==> errs[Email] == EmailInvalid
  {
    Entry(Name, nameBlank, NameRequired)
      + Entry(Phone, phoneBlank || !phoneMatches, if phoneBlank then PhoneRequired else PhoneInvalid)
      + Entry(Email, emailBad, EmailInvalid)
  }

  /** The error map `validate` computes for a draft: one entry per failing
      check among name, phone and e-mail; address and notes are never
      checked. The name and the phone are tested for blankness after
      trimming, but the phone pattern sees the phone as typed. */
  function ValidationErrors(d: Draft): (errs: map<Field, string>)
    ensures errs.Keys <= {Name, Phone, Email}
    ensures Name in errs <==> IsBlank(d.name)
    ensures Name in errs ==> errs[Name] == NameRequired
    ensures IsBlank(d.phone) ==> Phone in errs && errs[Phone] == PhoneRequired
    ensures !IsBlank(d.phone) ==> (Phone in errs <==> !IsValidPhone(d.phone))
    ensures !IsBlank(d.phone) && Phone in errs ==> errs[Phone] == PhoneInvalid
    ensures Email in errs <==> d.email != "" && !IsValidEmail(d.email)
    ensures Email in errs ==> errs[Email] == EmailInvalid
  {
    Errors(IsBlank(d.name), IsBlank(d.phone), IsValidPhone(d.phone), d.email != "" && !IsValidEmail(d.email))
  }

  /** The error map is empty exactly when every check passes. */
  lemma NoErrorsIff(d: Draft)
    ensures ValidationErrors(d) == map[] <==>
      !IsBlank(d.name) && !IsBlank(d.phone) && IsValidPhone(d.phone) &&
      (d.email == "" || IsValidEmail(d.email))
  {
    var errs := ValidationErrors(d);
    if Name !in errs && Phone !in errs && Email !in errs {
      ErrorMapsEqual(errs, map[]);
    }
  }

  /** A phone the pattern accepts is never blank, so once the pattern
      passes the "required" check is redundant. */
  lemma MatchedPhoneNotBlank(s: string)
    requires IsValidPhone(s)
    ensures !IsBlank(s)
  {
    AcceptedPhoneShape(s);
  }

  /** A draft passes validation exactly when its name is not blank, its
      phone is accepted by the pattern and its e-mail is empty or of the
      form `L@A.B`. */
  lemma ValidDraft(d: Draft)
    ensures ValidationErrors(d) == map[] <==>
      !IsBlank(d.name) && IsValidPhone(d.phone) &&
      (d.email == "" || exists l, a, b :: EmailShape(d.email, l, a, b))
  {
    NoErrorsIff(d);
    EmailAcceptsExactly(d.email);
    if IsValidPhone(d.phone) {
      MatchedPhoneNotBlank(d.phone);
    }
  }

  /** A draft that passes validation carries a phone number of 3 to 17
      digits with no surrounding white space. */
  lemma ValidDraftPhone(d: Draft)
    requires ValidationErrors(d) == map[]
    ensures 3 <= DigitCount(d.phone) <= 17 && Trim(d.phone) == d.phone
  {
    NoErrorsIff(d);
    AcceptedPhoneShape(d.phone);
  }

  /** A non-empty e-mail is reported exactly when it is not of the form
      `L@A.B`; an empty one never is. */
  lemma EmailReportedIffMalformed(d: Draft)
    ensures Email in ValidationErrors(d) <==>
      d.email != "" && !exists l, a, b :: EmailShape(d.email, l, a, b)
  {
    EmailAcceptsExactly(d.email);
  }

  /** The sample name is not blank. */
  lemma SampleNameNotBlank()
    ensures !IsBlank("Jo")
  {
    assert !IsSpace('J') && !IsSpace('o');
    TrimOfUnpadded("Jo");
  }

  /** The shortest sample phone is accepted by the pattern. */
  lemma ShortPhoneAccepted()
    ensures IsValidPhone("123") && !IsBlank("123")
  {
    var p := PhoneParts(false, false, Groups("1", false, None, Tail("2", None, "3")));
    assert RenderPhone(p) == "123";
    ParsePhoneComplete(p);
    MatchedPhoneNotBlank("123");
  }

  /** A local-number sample phone is accepted by the pattern. */
  lemma LocalPhoneAccepted()
    ensures IsValidPhone("555-1234") && !IsBlank("555-1234")
  {
    var p := PhoneParts(false, false, Groups("55", false, None, Tail("5", Some('-'), "1234")));
    assert RenderTail(p.groups.tail) == "5-1234";
    assert RenderPhone(p) == "555-1234";
    ParsePhoneComplete(p);
    MatchedPhoneNotBlank("555-1234");
  }

  /** A draft with a blank name and a well-formed phone reports the name
      only. */
  lemma MissingNameExample()
    ensures ValidationErrors(Draft("", "123", "", "", "")) == map[Name := NameRequired]
  {
    ShortPhoneAccepted();
    ErrorMapsEqual(ValidationErrors(Draft("", "123", "", "", "")), map[Name := NameRequired]);
  }

  /** A draft with an empty phone reports the phone as missing. */
  lemma MissingPhoneExample()
    ensures ValidationErrors(Draft("Jo", "", "", "", "")) == map[Phone := PhoneRequired]
  {
    SampleNameNotBlank();
    ErrorMapsEqual(ValidationErrors(Draft("Jo", "", "", "", "")), map[Phone := PhoneRequired]);
  }

  /** A draft whose e-mail has no `@` reports the e-mail only. */
  lemma BadEmailExample()
    ensures ValidationErrors(Draft("Jo", "555-1234", "bad", "", "")) == map[Email := EmailInvalid]
  {
    LocalPhoneAccepted();
    SampleNameNotBlank();
    assert !IsValidEmail("bad");
    ErrorMapsEqual(ValidationErrors(Draft("Jo", "555-1234", "bad", "", "")), map[Email := EmailInvalid]);
  }

  /** The form's own placeholder, `+1 (555) 123-4567`, is rejected: a `(`
      may appear only right after the optional `+`, so after `+1` and a
      space the pattern needs a digit (the placeholder also has four digit
      groups, one more than the pattern's three). */
  lemma PlaceholderRejected()
    ensures !IsValidPhone("+1 (555) 123-4567")
  {
    var s := "+1 (555) 123-4567";
    var u := "1 (555) 123-4567";
    var w := "(555) 123-4567";
    assert DigitRun(w) == 0;
    assert ParseTail(w) == None;
    assert ParseAfterSeparator("1", ' ', w) == None;
    assert u == "1" + [' '] + w;
    ParseGroupsStep("1", ' ', w);
    assert s[0] == '+' && s[1..] == u && u[0] == '1';
  }

  /** Two error maps over the checked inputs that agree on each of them
      are equal. */
  lemma ErrorMapsEqual(m: map<Field, string>, v: map<Field, string>)
    requires m.Keys <= {Name, Phone, Email} && v.Keys <= {Name, Phone, Email}
    requires Name in m <==> Name in v
    requires Phone in m <==> Phone in v
    requires Email in m <==> Email in v
    requires Name in m ==> m[Name] == v[Name]
    requires Phone in m ==> m[Phone] == v[Phone]
    requires Email in m ==> m[Email] == v[Email]
    ensures m == v
  {
    assert m.Keys == v.Keys;
  }

  /** Building the map one check at a time, as `validate` does, yields the
      gathered error map. */
  lemma StepwiseErrors(m: map<Field, string>, nameBlank: bool, phoneBlank: bool, phoneMatches: bool, emailBad: bool)
    requires m == (var m1 := if nameBlank then map[Name := NameRequired] else map[];
                   var m2 := if phoneBlank then m1[Phone := PhoneRequired]
                             else if !phoneMatches then m1[Phone := PhoneInvalid] else m1;
                   if emailBad then m2[Email := EmailInvalid] else m2)
    ensures m == Errors(nameBlank, phoneBlank, phoneMatches, emailBad)
  {
    ErrorMapsEqual(m, Errors(nameBlank, phoneBlank, phoneMatches, emailBad));
  }

  /** The body of `validate` once the four tests are made: an empty map
      receives the name's message, then the phone's (missing before
      malformed), then the e-mail's. */
  method CollectErrors(nameBlank: bool, phoneBlank: bool, phoneMatches: bool, emailBad: bool)
    returns (newErrors: map<Field, string>)
    ensures newErrors == Errors(nameBlank, phoneBlank, phoneMatches, emailBad)
  {
    newErrors := map[];
    if nameBlank {
      newErrors := newErrors[Name := NameRequired];
    }
    if phoneBlank {
      newErrors := newErrors[Phone := PhoneRequired];
    } else if !phoneMatches {
      newErrors := newErrors[Phone := PhoneInvalid];
    }
    if emailBad {
      newErrors := newErrors[Email := EmailInvalid];
    }
    StepwiseErrors(newErrors, nameBlank, phoneBlank, phoneMatches, emailBad);
  }

  /** The tests `validate` makes on a draft, and the map it builds from
      them; `valid` is whether that map has no key. */
  method CheckDraft(d: Draft) returns (newErrors: map<Field, string>, valid: bool)
    ensures newErrors == ValidationErrors(d)
    ensures valid <==> newErrors == map[]
  {
    var nameBlank := IsBlank(d.name);
    var phoneBlank := IsBlank(d.phone);
    var phoneMatches := IsValidPhone(d.phone);
    var emailBad := d.email != "" && !IsValidEmail(d.email);
    newErrors := CollectErrors(nameBlank, phoneBlank, phoneMatches, emailBad);
    assert ValidationErrors(d) == Errors(nameBlank, phoneBlank, phoneMatches, emailBad);
    valid := |newErrors.Keys| == 0;
  }

  /** The state of one mounted form. */
  class Form {
    var formData: Draft
    var errors: map<Field, string>

    constructor ()
      ensures formData == EmptyDraft && errors == map[]
    {
      formData := EmptyDraft;
      errors := map[];
    }

    /** The effect on `contact`: when a contact is given, the draft is
        loaded from it; the error map is left alone. */
    method LoadContact(contact: Option<Contact>)
      modifies this
      ensures formData == if contact.Some? then DraftOf(contact.value) else old(formData)
      ensures errors == old(errors)
    {
      if contact.Some? {
        formData := DraftOf(contact.value);
      }
    }

    /** A keystroke in input `field`: that field takes `value`, and an error
        shown for it is blanked; nothing else changes. */
    method HandleChange(field: Field, value: string)
      modifies this
      ensures formData == old(formData).Set(field, value)
      ensures errors == if field in old(errors) && old(errors)[field] != ""
                        then old(errors)[field := ""] else old(errors)
      ensures forall g :: g != field ==> formData.Get(g) == old(formData).Get(g)
      ensures errors.Keys == old(errors).Keys
      ensures forall g :: g in errors && g != field ==> errors[g] == old(errors)[g]
    {
      formData := formData.Set(field, value);
      if field in errors && errors[field] != "" {
        errors := errors[field := ""];
      }
    }

    /** `validate`: rebuilds the error map field by field, stores it, and
        reports whether it is empty. */
    method Validate() returns (valid: bool)
      modifies this
      ensures formData == old(formData)
      ensures errors == ValidationErrors(formData)
      ensures valid <==> errors == map[]
    {
      var newErrors;
      newErrors, valid := CheckDraft(formData);
      errors := newErrors;
    }

    /** `handleSubmit`: validates, and hands the draft to the dialog's
        submit callback exactly when validation passes. */
    method HandleSubmit() returns (submitted: Option<Draft>)
      modifies this
      ensures formData == old(formData)
      ensures errors == ValidationErrors(formData)
      ensures submitted == if errors == map[] then Some(formData) else None
    {
      var valid := Validate();
      submitted := if valid then Some(formData) else None;
    }
  }
}
