/**
 * Clients of the model that walk through concrete registrations: what a
 * caller can conclude from the contracts alone.
 */
module Scenarios {
  import opened Wrappers
  import opened TextPatterns
  import opened RegistrantSlice
  import opened RegistrantForm
  import opened RegistrantList

  const AshaDraft := FormFields("Asha", "Rao", "asha@x.com", "9123456780", "Yes", 2, 1, [5], "")

  lemma AshaEmail()
    ensures EmailPattern("asha@x.com")
  {
    var email := "asha@x.com";
    assert email[4] == '@' && email[6] == '.';
    assert NoWhitespace(email[..4]) && NoWhitespace(email[5..6]) && NoWhitespace(email[7..]);
  }

  lemma ShortEmail()
    ensures EmailPattern("a@b.com")
  {
    var email := "a@b.com";
    assert email[1] == '@' && email[3] == '.';
    assert NoWhitespace(email[..1]) && NoWhitespace(email[2..3]) && NoWhitespace(email[4..]);
  }

  /** The end-to-end draft passes every rule. */
  lemma AshaAdmissible()
    ensures Validate(AshaDraft) == map[]
  {
    AshaEmail();
    assert PhonePattern("9123456780");
    assert !IsWhitespace("Asha"[0]) && !IsWhitespace("Rao"[0]);
    assert Admissible(AshaDraft);
    ValidateEmptyIffAdmissible(AshaDraft);
  }

  /** Type in the end-to-end draft, field by field. */
  method FillIn(form: RegistrationForm)
    requires form.Valid() && form.form == DefaultFormFields
    modifies form
    ensures form.Valid() && form.form == AshaDraft
    ensures form.preview == old(form.preview)
  {
    form.HandleChange(SetFirstName("Asha"));
    form.HandleChange(SetLastName("Rao"));
    form.HandleChange(SetEmail("asha@x.com"));
    form.HandleChange(SetPhone("9123456780"));
    form.HandleChange(SetAdults(2));
    form.HandleChange(SetKids(1));
    form.EditKidAge(0, 5);
  }

  /** Submit the end-to-end draft: the store gains exactly its record and the form is reset. */
  method SubmitAsha(form: RegistrationForm, store: RegistrantStore, id: string, createdAt: string)
    requires form.Valid() && form.form == AshaDraft && form.preview == None && store.list == []
    modifies form, store
    ensures store.list == [MakeRegistrant(AshaDraft, None, id, createdAt)]
    ensures form.form == DefaultFormFields
  {
    AshaAdmissible();
    var _ := form.HandleSubmit(store, id, createdAt);
  }

  /** Fill in a valid registration, submit it, then delete it from the list page. */
  method RegisterThenDelete(id: string, createdAt: string)
    requires id != ""
  {
    var store := new RegistrantStore();
    var form := new RegistrationForm();
    FillIn(form);
    SubmitAsha(form, store, id, createdAt);
    var record := MakeRegistrant(AshaDraft, None, id, createdAt);
    assert |store.list| == 1;

    var page := new RegistrantListPage();
    page.SelectForDeletion(id);
    assert page.ModalOpen();
    page.HandleDelete(store);
    AddThenDeleteRestores([], record);
    assert store.list == [];
    assert !page.ModalOpen();
  }

  /** A blank last name also flags a well-formed e-mail. */
  lemma BlankLastNameFlagsEmail()
    ensures var errors := Validate(FormFields("A", "", "a@b.com", "9876543210", "Yes", 0, 0, [], ""));
            "lastName" in errors && "email" in errors && errors["email"] == EmailRequired
  {
    assert AllWhitespace("");
  }

  /** A phone must start with 6 to 9. */
  lemma PhoneLeadingDigit()
    ensures var errors := Validate(FormFields("A", "Rao", "a@b.com", "1234567890", "Yes", 0, 0, [], ""));
            "phone" in errors && "email" !in errors && "lastName" !in errors && "firstName" !in errors
  {
    ShortEmail();
    assert !IsWhitespace("A"[0]) && !IsWhitespace("Rao"[0]);
  }
}
