/** Reservations: owner-scoped create, update, delete and list. The owner id is passed in by the caller. */
module Reservations {
  import opened Common
  import opened Query

  datatype Reservation = Reservation(
    id: Option<string>,
    ownerId: string,
    reservationId: int,
    customerName: string,
    phoneNumber: string,
    reservationTime: int,
    numberOfGuests: int,
    status: Option<string>,
    createdAt: int)

  const ReservationNotFound := "Reservation not found"
  const DefaultStatus := "confirmed"

  /** Every stored reservation carries its own key as id. */
  predicate Stored(s: map<string, Reservation>) {
    forall k :: k in s ==> s[k].id == Some(k)
  }

  /** findByIdAndOwnerId finds `id`: it is stored and belongs to `owner`. */
  predicate FoundFor(s: map<string, Reservation>, owner: string, id: string) {
    id in s && s[id].ownerId == owner
  }

  /** The record createReservation hands to the repository, before the repository assigns an id. */
  function Stamp(reservation: Reservation, ownerId: string, millis: int, now: int): (r: Reservation)
    ensures r.id == None && r.ownerId == ownerId && r.reservationId == millis && r.createdAt == now
    ensures r.status == if reservation.status.None? then Some(DefaultStatus) else reservation.status
    ensures r.customerName == reservation.customerName && r.phoneNumber == reservation.phoneNumber
    ensures r.reservationTime == reservation.reservationTime && r.numberOfGuests == reservation.numberOfGuests
  {
    var r := reservation.(id := None, ownerId := ownerId, reservationId := millis, createdAt := now);
    if r.status.None? then r.(status := Some(DefaultStatus)) else r
  }

  /** createReservation always succeeds and adds one record under the fresh id. */
  function CreateReservationStep(s: map<string, Reservation>, ownerId: string, reservation: Reservation, newId: string, millis: int, now: int): (st: Step<Reservation, Reservation>)
    requires newId !in s
    ensures st.out.Ok?
    ensures st.out.value == Stamp(reservation, ownerId, millis, now).(id := Some(newId))
    ensures st.store.Keys == s.Keys + {newId} && st.store[newId] == st.out.value
    ensures forall k :: k in s ==> st.store[k] == s[k]
    ensures Stored(s) ==> Stored(st.store)
  {
    var saved := Stamp(reservation, ownerId, millis, now).(id := Some(newId));
    Step(Ok(saved), s[newId := saved])
  }

  /** updateReservation copies exactly five fields from `updated`, verbatim (a null status too),
      and keeps id, ownerId, reservationId and createdAt. */
  function UpdateReservationStep(s: map<string, Reservation>, ownerId: string, id: string, updated: Reservation): (st: Step<Reservation, Reservation>)
    ensures st.out.Ok? <==> FoundFor(s, ownerId, id)
    ensures !FoundFor(s, ownerId, id) ==> st == Step(Err(Runtime(ReservationNotFound)), s)
    ensures st.out.Ok? ==>
      && var r := st.out.value;
      && r.customerName == updated.customerName && r.phoneNumber == updated.phoneNumber
      && r.reservationTime == updated.reservationTime && r.numberOfGuests == updated.numberOfGuests
      && r.status == updated.status
      && r.id == s[id].id && r.ownerId == s[id].ownerId
      && r.reservationId == s[id].reservationId && r.createdAt == s[id].createdAt
      && OnlyChangedAt(s, st.store, id)
      && st.store[id] == r
  {
    if !FoundFor(s, ownerId, id) then Step(Err(Runtime(ReservationNotFound)), s)
    else
      var r := s[id].(customerName := updated.customerName, phoneNumber := updated.phoneNumber,
                      reservationTime := updated.reservationTime, numberOfGuests := updated.numberOfGuests,
                      status := updated.status);
      Step(Ok(r), s[id := r])
  }

  /** deleteReservation removes exactly that owner's record, or fails and removes nothing. */
  function DeleteReservationStep(s: map<string, Reservation>, ownerId: string, id: string): (st: Step<(), Reservation>)
    ensures st.out.Ok? <==> FoundFor(s, ownerId, id)
    ensures !FoundFor(s, ownerId, id) ==> st == Step(Err(Runtime(ReservationNotFound)), s)
    ensures st.out.Ok? ==> st.store.Keys == s.Keys - {id} && forall k :: k in st.store ==> st.store[k] == s[k]
  {
    if !FoundFor(s, ownerId, id) then Step(Err(Runtime(ReservationNotFound)), s)
    else Step(Ok(()), s - {id})
  }

  /** Deleting a reservation just created restores the store. */
  lemma {:induction false} DeleteUndoesCreate(s: map<string, Reservation>, ownerId: string, reservation: Reservation, newId: string, millis: int, now: int)
    requires newId !in s
    ensures DeleteReservationStep(CreateReservationStep(s, ownerId, reservation, newId, millis, now).store, ownerId, newId).store == s
  {
    var created := CreateReservationStep(s, ownerId, reservation, newId, millis, now).store;
    assert FoundFor(created, ownerId, newId);
    assert DeleteReservationStep(created, ownerId, newId).store.Keys == s.Keys;
  }

  /** An update with a null status stores a null status, although creation never does. */
  lemma UpdateCopiesNullStatus(s: map<string, Reservation>, ownerId: string, id: string, updated: Reservation)
    requires FoundFor(s, ownerId, id) && updated.status.None?
    ensures UpdateReservationStep(s, ownerId, id, updated).store[id].status.None?
  {
  }

  class ReservationService {
    var reservations: map<string, Reservation>

    ghost predicate Valid()
      reads this
    {
      Stored(reservations)
    }

    constructor ()
      ensures Valid() && reservations == map[]
    {
      reservations := map[];
    }

    /** The owner's reservations, oldest first. */
    method GetReservations(ownerId: string) returns (r: seq<Reservation>)
      requires Valid()
      ensures NoDup(r)
      ensures forall x :: x in r <==> x in reservations.Values && x.ownerId == ownerId
      ensures forall i, j :: 0 <= i < j < |r| ==> r[i].createdAt <= r[j].createdAt
    {
      r := SelectSorted(reservations, (x: Reservation) => x.ownerId == ownerId, (x: Reservation) => x.createdAt);
    }

    /** `newId` is the id the repository generates on save. */
    method CreateReservation(ownerId: string, reservation: Reservation, newId: string, millis: int, now: int) returns (r: Reservation)
      requires Valid() && newId !in reservations
      modifies this
      ensures Valid()
      ensures Step(Ok(r), reservations) == CreateReservationStep(old(reservations), ownerId, reservation, newId, millis, now)
    {
      r := reservation.(id := None);
      r := r.(ownerId := ownerId);
      r := r.(reservationId := millis);
      r := r.(createdAt := now);
      if r.status.None? {
        r := r.(status := Some(DefaultStatus));
      }
      r := r.(id := Some(newId));
      reservations := reservations[newId := r];
    }

    method UpdateReservation(id: string, ownerId: string, updated: Reservation) returns (r: Result<Reservation>)
      requires Valid()
      modifies this
      ensures Valid()
      ensures Step(r, reservations) == UpdateReservationStep(old(reservations), ownerId, id, updated)
    {
      if !FoundFor(reservations, ownerId, id) {
        r := Err(Runtime(ReservationNotFound));
        return;
      }
      var x := reservations[id];
      x := x.(customerName := updated.customerName);
      x := x.(phoneNumber := updated.phoneNumber);
      x := x.(reservationTime := updated.reservationTime);
      x := x.(numberOfGuests := updated.numberOfGuests);
      x := x.(status := updated.status);
      reservations := reservations[id := x];
      r := Ok(x);
    }

    method DeleteReservation(id: string, ownerId: string) returns (r: Result<()>)
      requires Valid()
      modifies this
      ensures Valid()
      ensures Step(r, reservations) == DeleteReservationStep(old(reservations), ownerId, id)
    {
      if !FoundFor(reservations, ownerId, id) {
        r := Err(Runtime(ReservationNotFound));
        return;
      }
      reservations := reservations - {id};
      r := Ok(());
    }
  }
}
