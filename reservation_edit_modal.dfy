/** The dialog that edits a listed reservation. */
module ReservationEditModal {
  import opened Common
  import opened JsText
  import opened ReservationForm

  /** The effect that runs when the dialog opens: the form takes the reservation's fields,
      the guest count as its decimal text. A closed dialog keeps its form. */
  function Prefill(isOpen: bool, reservation: Reservation, form: FormData): (r: FormData)
    ensures isOpen ==> r == FormData(reservation.name, NumberToString(reservation.people), reservation.date)
    ensures !isOpen ==> r == form
  {
    if isOpen then FormData(reservation.name, NumberToString(reservation.people), reservation.date) else form
  }

  /** handleSubmit: with every field filled, the reservation passed to `onUpdate` keeps its id
      and takes the form's name, parsed guest count and date; otherwise nothing is passed. */
  function Submit(form: FormData, reservation: Reservation): (r: Option<Reservation>)
    ensures r.Some? <==> Filled(form)
    ensures r.Some? ==>
      && r.value.id == reservation.id && r.value.name == form.name
      && r.value.people == ParseInt(form.people) && r.value.date == form.date
  {
    if Filled(form) then Some(reservation.(name := form.name, people := ParseInt(form.people), date := form.date))
    else None
  }

  /** Opening the dialog and saving without editing gives the reservation back unchanged, as
      long as it has a name and a date; any guest count, NaN included, survives the text round trip. */
  lemma UneditedSubmitKeepsReservation(reservation: Reservation, form: FormData)
    requires reservation.name != "" && reservation.date != ""
    ensures Submit(Prefill(true, reservation, form), reservation) == Some(reservation)
  {
    ParseIntOfNumberToString(reservation.people);
    assert NumberToString(reservation.people) != "" by {
      if reservation.people.Num? && reservation.people.value < 0 {
        assert NumberToString(reservation.people)[0] == '-';
      }
    }
  }
}
