/** The reservation page: the list of reservations and the dialogs that change it. */
module ReservationPage {
  import opened Common
  import opened JsText
  import opened ReservationForm
  import ReservationCreateModal
  import ReservationEditModal

  datatype PageState = PageState(
    reservations: seq<Reservation>,
    createOpen: bool,
    editOpen: bool,
    completeOpen: bool,
    selected: Option<Reservation>)

  /** handleCreateReservation, with `now` the value of Date.now() used as the id. */
  function CreateReservation(st: PageState, payload: ReservationCreateModal.NewReservation, now: int): (r: PageState)
    ensures |r.reservations| == |st.reservations| + 1
    ensures r.reservations[..|st.reservations|] == st.reservations
    ensures r.reservations[|st.reservations|] == Reservation(now, payload.name, payload.people, payload.date)
    ensures r == st.(reservations := r.reservations, createOpen := false)
  {
    st.(reservations := st.reservations + [Reservation(now, payload.name, payload.people, payload.date)],
        createOpen := false)
  }

  /** Every entry with the updated reservation's id becomes the updated reservation. */
  function ReplaceById(rs: seq<Reservation>, updated: Reservation): (r: seq<Reservation>)
    ensures |r| == |rs|
    ensures forall i :: 0 <= i < |rs| ==> r[i] == if rs[i].id == updated.id then updated else rs[i]
  {
    if rs == [] then [] else [if rs[0].id == updated.id then updated else rs[0]] + ReplaceById(rs[1..], updated)
  }

  /** handleEditClick */
  function EditClick(st: PageState, reservation: Reservation): (r: PageState)
    ensures r == st.(selected := Some(reservation), editOpen := true)
  {
    st.(selected := Some(reservation), editOpen := true)
  }

  /** handleEditReservation */
  function EditReservation(st: PageState, updated: Reservation): (r: PageState)
    ensures r == st.(reservations := ReplaceById(st.reservations, updated), editOpen := false, selected := None)
  {
    st.(reservations := ReplaceById(st.reservations, updated), editOpen := false, selected := None)
  }

  /** Every entry whose id differs from `id`, in order. */
  function RemoveById(rs: seq<Reservation>, id: int): (r: seq<Reservation>)
    ensures |r| <= |rs|
    ensures forall x :: x in r <==> x in rs && x.id != id
  {
    if rs == [] then [] else (if rs[0].id == id then [] else [rs[0]]) + RemoveById(rs[1..], id)
  }

  lemma {:induction false} RemoveByIdAppend(a: seq<Reservation>, b: seq<Reservation>, id: int)
    ensures RemoveById(a + b, id) == RemoveById(a, id) + RemoveById(b, id)
  {
    if a == [] {
      assert a + b == b;
    } else {
      assert (a + b)[0] == a[0] && (a + b)[1..] == a[1..] + b;
      RemoveByIdAppend(a[1..], b, id);
    }
  }

  /** handleCompleteClick */
  function CompleteClick(st: PageState, reservation: Reservation): (r: PageState)
    ensures r == st.(selected := Some(reservation), completeOpen := true)
  {
    st.(selected := Some(reservation), completeOpen := true)
  }

  /** handleCompleteConfirm: the selected reservation's id leaves the list; with nothing
      selected nothing changes. */
  function CompleteConfirm(st: PageState): (r: PageState)
    ensures st.selected.None? ==> r == st
    ensures st.selected.Some? ==>
      r == st.(reservations := RemoveById(st.reservations, st.selected.value.id), completeOpen := false, selected := None)
  {
    match st.selected
    case None => st
    case Some(sel) => st.(reservations := RemoveById(st.reservations, sel.id), completeOpen := false, selected := None)
  }

  /** The values `a && b && c` can produce here: a string or a boolean. */
  datatype JsValue = Str(s: string) | Bool(b: bool)

  predicate Truthy(v: JsValue) {
    match v
    case Str(s) => s != ""
    case Bool(b) => b
  }

  /** hasValidData: the value of `name && people > 0 && date`, whose truthiness decides whether
      the row shows its edit and complete buttons. NaN is not greater than 0. */
  function HasValidData(r: Reservation): (b: bool)
    ensures b <==> r.name != "" && r.people.Num? && r.people.value > 0 && r.date != ""
  {
    var peoplePositive := match r.people
      case Num(v) => v > 0
      case NaN => false;
    var v := if r.name == "" then Str(r.name) else if !peoplePositive then Bool(false) else Str(r.date);
    Truthy(v)
  }

  /** formatDate: YYYY-MM-DD shown as YYYY.MM.DD. */
  function FormatDate(date: string): (r: string)
    ensures |r| == |date|
    ensures date == "" ==> r == ""
    ensures forall i :: 0 <= i < |date| ==> r[i] == if date[i] == '-' then '.' else date[i]
    ensures '-' !in r
  {
    if date == "" then "" else ReplaceChar(date, '-', '.')
  }

  predicate UniqueIds(rs: seq<Reservation>) {
    forall i, j :: 0 <= i < |rs| && 0 <= j < |rs| && rs[i].id == rs[j].id ==> i == j
  }

  /** With unique ids, replacing a listed reservation by itself changes nothing. */
  lemma ReplaceBySelf(rs: seq<Reservation>, r: Reservation)
    requires UniqueIds(rs) && r in rs
    ensures ReplaceById(rs, r) == rs
  {
    var k :| 0 <= k < |rs| && rs[k] == r;
    var out := ReplaceById(rs, r);
    forall i | 0 <= i < |rs|
      ensures out[i] == rs[i]
    {
      if rs[i].id == r.id {
        assert i == k;
      }
    }
  }

  /** Clicking edit on a listed reservation and saving the dialog without editing leaves the
      list as it was, when ids are unique and the reservation has a name and a date. */
  lemma UneditedSaveKeepsList(st: PageState, r: Reservation, form: FormData)
    requires UniqueIds(st.reservations) && r in st.reservations
    requires r.name != "" && r.date != ""
    ensures var shown := EditClick(st, r);
      var sent := ReservationEditModal.Submit(ReservationEditModal.Prefill(shown.editOpen, shown.selected.value, form), shown.selected.value);
      sent.Some? && EditReservation(shown, sent.value).reservations == st.reservations
  {
    ReservationEditModal.UneditedSubmitKeepsReservation(r, form);
    ReplaceBySelf(st.reservations, r);
  }

  /** Completing a just-created reservation removes it again, provided `now` was a fresh id. */
  lemma CompleteUndoesCreate(st: PageState, payload: ReservationCreateModal.NewReservation, now: int)
    requires forall i :: 0 <= i < |st.reservations| ==> st.reservations[i].id != now
    ensures var created := CreateReservation(st, payload, now);
      CompleteConfirm(CompleteClick(created, created.reservations[|st.reservations|])).reservations == st.reservations
  {
    var added := Reservation(now, payload.name, payload.people, payload.date);
    RemoveByIdAppend(st.reservations, [added], now);
    RemoveAbsentId(st.reservations, now);
    assert RemoveById([added], now) == [];
  }

  lemma {:induction false} RemoveAbsentId(rs: seq<Reservation>, id: int)
    requires forall i :: 0 <= i < |rs| ==> rs[i].id != id
    ensures RemoveById(rs, id) == rs
  {
    if rs != [] {
      RemoveAbsentId(rs[1..], id);
    }
  }
}
