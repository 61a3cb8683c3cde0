/**
 * The registration form: its fields, the `validate` check that gates a
 * submission, the `handleChange` updater with its kid-count reset rule, the
 * per-index kid-age edit, `handleBlur`, and `handleSubmit`, which builds a
 * registrant record and dispatches it to the store.
 */
module RegistrantForm {
  import opened Wrappers
  import opened TextPatterns
  import opened RegistrantSlice

  /** The editable part of a registration (the form's `form` state). */
  datatype FormFields = FormFields(
    firstName: string,
    lastName: string,
    email: string,
    phone: string,
    attending: string,
    adults: int,
    kids: int,
    kidAges: seq<int>,
    message: string)

  /** `defaultFormFields`: what the form starts with and is reset to after a submission. */
  const DefaultFormFields := FormFields("", "", "", "", "Yes", 0, 0, [], "")

  // ---------------------------------------------------------------------------
  // validate
  // ---------------------------------------------------------------------------

  const FirstNameRequired := "Please enter First name"
  const LastNameRequired := "Please enter Last name"
  const EmailRequired := "Please enter E-mail address"
  const EmailInvalid := "Enter a valid email"
  const PhoneInvalid := "Enter a valid 10-digit phone number"

  /** The only keys `validate` ever writes. */
  const FieldNames: set<string> := {"firstName", "lastName", "email", "phone"}

  /**
   * `validate`: a message per failing field. The e-mail presence check looks at
   * `lastName`, not at `email`: a blank last name always yields the
   * "Please enter E-mail address" message, and only otherwise is the e-mail
   * (untrimmed) held against its pattern.
   */
  function Validate(form: FormFields): (errors: map<string, string>)
    ensures errors.Keys <= FieldNames
    ensures "firstName" in errors <==> AllWhitespace(form.firstName)
    ensures "firstName" in errors ==> errors["firstName"] == FirstNameRequired
    ensures "lastName" in errors <==> AllWhitespace(form.lastName)
    ensures "lastName" in errors ==> errors["lastName"] == LastNameRequired
    ensures AllWhitespace(form.lastName) ==> "email" in errors && errors["email"] == EmailRequired
    ensures !AllWhitespace(form.lastName) ==>
              ("email" in errors <==> !EmailPattern(form.email))
              && ("email" in errors ==> errors["email"] == EmailInvalid)
    ensures "phone" in errors <==> !PhonePattern(form.phone)
    ensures "phone" in errors ==> errors["phone"] == PhoneInvalid
  {
    TrimEmptyIffBlank(form.firstName);
    TrimEmptyIffBlank(form.lastName);
    Messages(Trim(form.firstName) == [], Trim(form.lastName) == [],
             !IsEmail(form.email), !PhonePattern(form.phone))
  }

  /**
   * The map `validate` builds from the outcome of its four tests, key by key
   * in the source's order; the e-mail key takes the "required" message when
   * the last name is blank and the "invalid" one otherwise.
   */
  function Messages(noFirst: bool, noLast: bool, badEmail: bool, badPhone: bool): (errors: map<string, string>)
    ensures errors.Keys <= FieldNames
    ensures "firstName" in errors <==> noFirst
    ensures "firstName" in errors ==> errors["firstName"] == FirstNameRequired
    ensures "lastName" in errors <==> noLast
    ensures "lastName" in errors ==> errors["lastName"] == LastNameRequired
    ensures "email" in errors <==> noLast || badEmail
    ensures "email" in errors ==> errors["email"] == if noLast then EmailRequired else EmailInvalid
    ensures "phone" in errors <==> badPhone
    ensures "phone" in errors ==> errors["phone"] == PhoneInvalid
  {
    FieldNamesDistinct();
    var e0: map<string, string> := map[];
    var e1 := if noFirst then e0["firstName" := FirstNameRequired] else e0;
    var e2 := if noLast then e1["lastName" := LastNameRequired] else e1;
    var e3 :=
      if noLast then e2["email" := EmailRequired]
      else if badEmail then e2["email" := EmailInvalid]
      else e2;
    if badPhone then e3["phone" := PhoneInvalid] else e3
  }

  lemma FieldNamesDistinct()
    ensures "firstName" != "lastName" && "firstName" != "email" && "firstName" != "phone"
    ensures "lastName" != "email" && "lastName" != "phone" && "email" != "phone"
  {
  }

  /** A draft is admitted when every rule passes. */
  ghost predicate Admissible(form: FormFields)
  {
    !AllWhitespace(form.firstName) && !AllWhitespace(form.lastName)
    && EmailPattern(form.email) && PhonePattern(form.phone)
  }

  /** `validate` returns no keys exactly for admissible drafts. */
  lemma ValidateEmptyIffAdmissible(form: FormFields)
    ensures |Validate(form)| == 0 <==> Admissible(form)
  {
  }

  /**
   * The defaults have no kids and no ages, and submitting an untouched form
   * fails every rule, the e-mail one with the "required" message.
   */
  lemma DefaultFormFailsEveryRule()
    ensures |DefaultFormFields.kidAges| == DefaultFormFields.kids == 0
    ensures var errors := Validate(DefaultFormFields);
              "firstName" in errors && "lastName" in errors && "phone" in errors
              && "email" in errors && errors["email"] == EmailRequired
  {
    assert AllWhitespace("");
    assert !PhonePattern("");
  }

  // ---------------------------------------------------------------------------
  // handleChange and the per-index kid-age edit
  // ---------------------------------------------------------------------------

  /**
   * A `handleChange(field, value)` call. The kid count comes from a select of
   * 0 to 5, so it is a natural number. `kidAges` has no constructor of its own:
   * the only call that passes it is the per-index edit, `RegistrationForm.EditKidAge`.
   */
  datatype FieldChange =
    | SetFirstName(text: string)
    | SetLastName(text: string)
    | SetEmail(text: string)
    | SetPhone(text: string)
    | SetAttending(text: string)
    | SetAdults(number: int)
    | SetKids(count: nat)
    | SetMessage(text: string)

  /**
   * The `setForm` updater of `handleChange`: a change writes its own field only,
   * except that a new kid count also rebuilds `kidAges` as that many zeros,
   * whatever ages were entered before.
   */
  function ChangeForm(f: FormFields, c: FieldChange): (r: FormFields)
    ensures |f.kidAges| == f.kids ==> |r.kidAges| == r.kids
    ensures c.SetKids? ==>
              r.kids == c.count && |r.kidAges| == c.count
              && forall i | 0 <= i < |r.kidAges| :: r.kidAges[i] == 0
    ensures !c.SetKids? ==> r.kids == f.kids && r.kidAges == f.kidAges
    ensures r.firstName == (if c.SetFirstName? then c.text else f.firstName)
    ensures r.lastName == (if c.SetLastName? then c.text else f.lastName)
    ensures r.email == (if c.SetEmail? then c.text else f.email)
    ensures r.phone == (if c.SetPhone? then c.text else f.phone)
    ensures r.attending == (if c.SetAttending? then c.text else f.attending)
    ensures r.adults == (if c.SetAdults? then c.number else f.adults)
    ensures r.message == (if c.SetMessage? then c.text else f.message)
  {
    match c
    case SetFirstName(s) => f.(firstName := s)
    case SetLastName(s) => f.(lastName := s)
    case SetEmail(s) => f.(email := s)
    case SetPhone(s) => f.(phone := s)
    case SetAttending(s) => f.(attending := s)
    case SetAdults(n) => f.(adults := n)
    case SetKids(n) => f.(kids := n, kidAges := seq(n, _ => 0))
    case SetMessage(s) => f.(message := s)
  }

  // ---------------------------------------------------------------------------
  // The record handleSubmit dispatches
  // ---------------------------------------------------------------------------

  /** The form fields a stored record carries (the destructuring at the top of the submit). */
  function DraftOf(r: Registrant): FormFields
  {
    FormFields(r.firstName, r.lastName, r.email, r.phone, r.attending, r.adults, r.kids,
               r.kidAges, match r.message case Some(m) => m case None => "")
  }

  /**
   * The record `handleSubmit` builds: the form's fields unchanged, the supplied
   * `id` and `createdAt`, and the preview as image unless it is absent or empty
   * (`preview || undefined`).
   */
  function MakeRegistrant(f: FormFields, preview: Option<string>, id: string, createdAt: string): (r: Registrant)
    ensures DraftOf(r) == f
    ensures r.id == id && r.createdAt == createdAt && r.message == Some(f.message)
    ensures r.image.Some? <==> preview.Some? && preview.value != ""
    ensures r.image.Some? ==> r.image == preview
  {
    Registrant(
      id,
      if preview.Some? && preview.value != "" then preview else None,
      f.firstName, f.lastName, f.email, f.phone, f.attending, f.adults, f.kids, f.kidAges,
      Some(f.message),
      createdAt)
  }

  // ---------------------------------------------------------------------------
  // The form component's state
  // ---------------------------------------------------------------------------

  class RegistrationForm {
    var form: FormFields
    var errors: map<string, string>
    var preview: Option<string>

    /** The kid-age list always has one entry per kid. */
    ghost predicate Valid()
      reads this
    {
      |form.kidAges| == form.kids
    }

    constructor ()
      ensures Valid()
      ensures form == DefaultFormFields && errors == map[] && preview == None
    {
      form := DefaultFormFields;
      errors := map[];
      preview := None;
    }

    /** The image reader's `onload`: the data URL becomes the preview. */
    method PreviewLoaded(dataUrl: string)
      modifies this
      ensures preview == Some(dataUrl)
      ensures form == old(form) && errors == old(errors)
    {
      preview := Some(dataUrl);
    }

    /** `handleChange` for every field but `kidAges`. */
    method HandleChange(c: FieldChange)
      requires Valid()
      modifies this
      ensures Valid()
      ensures form == ChangeForm(old(form), c)
      ensures errors == old(errors) && preview == old(preview)
    {
      form := ChangeForm(form, c);
    }

    /** The kid-age select: copies the ages, sets entry `index`, and passes the copy to `handleChange`. */
    method EditKidAge(index: nat, age: int)
      requires Valid()
      requires index < |form.kidAges|
      modifies this
      ensures Valid()
      ensures |form.kidAges| == |old(form.kidAges)| && form.kidAges[index] == age
      ensures forall j | 0 <= j < |form.kidAges| && j != index :: form.kidAges[j] == old(form.kidAges[j])
      ensures form == old(form).(kidAges := form.kidAges)
      ensures errors == old(errors) && preview == old(preview)
    {
      var updatedAges := form.kidAges[index := age];
      form := form.(kidAges := updatedAges);
    }

    /** `handleBlur`: the field's message becomes empty; the other messages stay. */
    method HandleBlur(field: string)
      modifies this
      ensures errors == old(errors)[field := ""]
      ensures form == old(form) && preview == old(preview)
    {
      errors := errors[field := ""];
    }

    /**
     * `handleSubmit`: with validation errors it only shows them; otherwise it
     * dispatches the new record to `store` and resets the form and the preview.
     * `id` and `createdAt` stand for `crypto.randomUUID()` and `new Date().toISOString()`.
     */
    method HandleSubmit(store: RegistrantStore, id: string, createdAt: string) returns (dispatched: bool)
      requires Valid()
      modifies this, store
      ensures Valid()
      ensures dispatched <==> |Validate(old(form))| == 0
      ensures !dispatched ==>
                errors == Validate(old(form)) && form == old(form) && preview == old(preview)
                && store.list == old(store.list)
      ensures dispatched ==>
                store.list == old(store.list) + [MakeRegistrant(old(form), old(preview), id, createdAt)]
                && form == DefaultFormFields && preview == None && errors == old(errors)
      ensures dispatched ==> |store.list[|store.list| - 1].kidAges| == store.list[|store.list| - 1].kids
    {
      var v := Validate(form);
      if |v| > 0 {
        errors := v;
        return false;
      }
      Admit(store, id, createdAt);
      return true;
    }

    /** The success path of `handleSubmit`: dispatch the record, then reset the form and the preview. */
    method Admit(store: RegistrantStore, id: string, createdAt: string)
      requires Valid()
      modifies this, store
      ensures Valid()
      ensures store.list == old(store.list) + [MakeRegistrant(old(form), old(preview), id, createdAt)]
      ensures form == DefaultFormFields && preview == None && errors == old(errors)
      ensures |store.list[|store.list| - 1].kidAges| == store.list[|store.list| - 1].kids
    {
      var record := MakeRegistrant(form, preview, id, createdAt);
      assert |record.kidAges| == record.kids by {
        assert DraftOf(record).kidAges == record.kidAges && DraftOf(record).kids == record.kids;
      }
      store.AddRegistrant(record);
      form := DefaultFormFields;
      preview := None;
    }
  }
}
