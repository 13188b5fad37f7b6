/** What the reservation page and its two dialogs share: the reservation the page lists and
    the three text fields of a reservation form. */
module ReservationForm {
  import opened JsText

  /** A reservation as the page holds it; `people` is whatever parseInt produced. */
  datatype Reservation = Reservation(id: int, name: string, people: JsNumber, date: string)

  /** The form's fields, all kept as the text the inputs hold. */
  datatype FormData = FormData(name: string, people: string, date: string)

  /** The `name` attribute of the input that changed. */
  datatype Field = NameField | PeopleField | DateField

  const EmptyForm := FormData("", "", "")

  function Get(form: FormData, field: Field): string {
    match field
    case NameField => form.name
    case PeopleField => form.people
    case DateField => form.date
  }

  /** handleChange: the named field takes the new text and the others keep theirs. */
  function Change(form: FormData, field: Field, value: string): (r: FormData)
    ensures Get(r, field) == value
    ensures forall f :: f != field ==> Get(r, f) == Get(form, f)
  {
    match field
    case NameField => form.(name := value)
    case PeopleField => form.(people := value)
    case DateField => form.(date := value)
  }

  /** The guard both dialogs apply before submitting: every field is non-empty. */
  predicate Filled(form: FormData) {
    form.name != "" && form.people != "" && form.date != ""
  }

  lemma FilledIffNoEmptyField(form: FormData)
    ensures Filled(form) <==> forall f :: Get(form, f) != ""
  {
    if !Filled(form) {
      if form.name == "" { assert Get(form, NameField) == ""; }
      else if form.people == "" { assert Get(form, PeopleField) == ""; }
      else { assert Get(form, DateField) == ""; }
    }
  }

  /** A change made and then overwritten on the same field leaves only the last one. */
  lemma ChangeOverwrites(form: FormData, field: Field, a: string, b: string)
    ensures Change(Change(form, field, a), field, b) == Change(form, field, b)
  {
  }
}
