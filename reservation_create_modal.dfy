/** The dialog that registers a new reservation. */
module ReservationCreateModal {
  import opened Common
  import opened JsText
  import opened ReservationForm

  /** What `onRegister` receives: the reservation without an id. */
  datatype NewReservation = NewReservation(name: string, people: JsNumber, date: string)

  /** The form after a submit, and the reservation passed to `onRegister`, if it was called. */
  datatype Submitted = Submitted(form: FormData, registered: Option<NewReservation>)

  /** handleSubmit: with every field filled, register the parsed reservation and clear the
      form; otherwise do nothing. */
  function Submit(form: FormData): (r: Submitted)
    ensures !Filled(form) ==> r == Submitted(form, None)
    ensures Filled(form) ==> r.form == EmptyForm && r.registered.Some?
    ensures r.registered.Some? ==> var n := r.registered.value;
      n.name == form.name && n.date == form.date && n.people == ParseInt(form.people)
  {
    if Filled(form) then Submitted(EmptyForm, Some(NewReservation(form.name, ParseInt(form.people), form.date)))
    else Submitted(form, None)
  }

  /** Filling an empty form with a name, a decimal guest count and a date registers exactly
      those values. */
  lemma TypedReservationRegistered(name: string, guests: nat, date: string)
    requires name != "" && date != ""
    ensures var form := Change(Change(Change(EmptyForm, NameField, name), PeopleField, Decimal(guests)), DateField, date);
      Submit(form) == Submitted(EmptyForm, Some(NewReservation(name, Num(guests), date)))
  {
    DecimalValue(guests);
    ParseIntOfDigits(Decimal(guests));
  }

  /** Submitting twice registers at most once: the cleared form fails the guard. */
  lemma SecondSubmitRegistersNothing(form: FormData)
    ensures Submit(Submit(form).form).registered.Some? ==> Submit(form).registered.None?
  {
  }
}
