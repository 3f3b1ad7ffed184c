/** The handlers server.js defines inline, which are what the running server serves. */
module Server {
  import opened Common
  import opened Table
  import opened Schema
  import Huespedes
  import Registros

  /** Inline `POST /api/registros`: validate and refuse an occupied room like the controller,
      but insert without looking the guest up (500 when the insert binds a left-out key). */
  function PostRegistros(db: Db, c: CheckinFields, now: int): (o: Outcome)
    ensures o.status == BadRequest(MissingFields) <==> !Registros.RequiredCheckinFields(c)
    ensures o.status == BadRequest(RoomOccupied) <==>
      Registros.RequiredCheckinFields(c) && Occupied(db.stays, c.habitacion.value)
    ensures o.status == InternalError <==>
      Registros.RequiredCheckinFields(c) && !Occupied(db.stays, c.habitacion.value) && !CheckinKeysSent(c)
    ensures o.status.Created? <==>
      Registros.RequiredCheckinFields(c) && !Occupied(db.stays, c.habitacion.value) && CheckinKeysSent(c)
    ensures !o.status.Created? ==> o.db == db
    ensures o.status.Created? ==>
      && o.status.id == db.nextStayId
      && o.db == db.(stays := db.stays + [Row(o.status.id, Registros.NewStay(c, now))], nextStayId := db.nextStayId + 1)
    ensures Valid(db) ==> Valid(o.db)
    ensures OneActivePerRoom(db.stays) ==> OneActivePerRoom(o.db.stays)
    ensures FinalizedKept(db.stays, o.db.stays)
  {
    if !Registros.RequiredCheckinFields(c) then Outcome(db, BadRequest(MissingFields))
    else Registros.InsertIntoFreeRoom(db, c, now)
  }

  /** An API request, already routed by method and path; `Other` is any path no handler matches. */
  datatype Endpoint =
    | Test
    | ListHuespedes
    | ShowHuesped(id: int)
    | AddHuesped(guest: GuestFields)
    | EditHuesped(id: int, guest: GuestFields)
    | RemoveHuesped(id: int)
    | ListRegistros
    | ListActivos
    | ListHistorial
    | AddRegistro(checkin: CheckinFields)
    | EditRegistro(id: int, stay: StayFields)
    | CheckoutRegistro(id: int, total: Field<int>)
    | Other

  /** The endpoints the controllers implement but server.js never routes. */
  predicate ControllerOnly(e: Endpoint)
  {
    e.ShowHuesped? || e.EditHuesped? || e.ListRegistros? || e.EditRegistro?
  }

  /** The reply body: a status for mutations, a listing for reads, or the `GET /api/test` answer. */
  datatype Reply =
    | Answer(status: Status)
    | GuestList(guests: seq<Row<Huesped>>)
    | StayList(stays: seq<Registros.StayView>)
    | Alive(timestamp: int)

  function ReplyCode(r: Reply): int
  {
    if r.Answer? then Code(r.status) else 200
  }

  datatype Response = Response(db: Db, reply: Reply)

  /** The route table of server.js, ending in the catch-all `404 {error}`. */
  function Live(db: Db, e: Endpoint, now: int): (r: Response)
    ensures ControllerOnly(e) || e.Other? ==> r == Response(db, Answer(NotFound))
    ensures e.Test? || e.ListHuespedes? || e.ListActivos? || e.ListHistorial? ==> r.db == db && ReplyCode(r.reply) == 200
    ensures e.Test? ==> r.reply == Alive(now)
    ensures e.ListHuespedes? ==> r.reply == GuestList(Huespedes.GetAllHuespedes(db))
    ensures e.ListActivos? ==> r.reply == StayList(Registros.GetRegistrosActivos(db))
    ensures e.ListHistorial? ==> r.reply == StayList(Registros.GetHistorial(db))
    ensures e.AddHuesped? ==> r.reply.Answer? && Outcome(r.db, r.reply.status) == Huespedes.CreateHuesped(db, e.guest, now)
    ensures e.RemoveHuesped? ==> r.reply.Answer? && Outcome(r.db, r.reply.status) == Huespedes.DeleteHuesped(db, e.id)
    ensures e.CheckoutRegistro? ==> r.reply.Answer? && Outcome(r.db, r.reply.status) == Registros.Checkout(db, e.id, e.total, now)
    ensures e.AddRegistro? ==> r.reply.Answer? && Outcome(r.db, r.reply.status) == PostRegistros(db, e.checkin, now)
    ensures Valid(db) ==> Valid(r.db)
    ensures OneActivePerRoom(db.stays) ==> OneActivePerRoom(r.db.stays)
    ensures FinalizedKept(db.stays, r.db.stays)
  {
    match e
    case Test => Response(db, Alive(now))
    case ListHuespedes => Response(db, GuestList(Huespedes.GetAllHuespedes(db)))
    case AddHuesped(f) => var o := Huespedes.CreateHuesped(db, f, now); Response(o.db, Answer(o.status))
    case ListActivos => Response(db, StayList(Registros.GetRegistrosActivos(db)))
    case ListHistorial => Response(db, StayList(Registros.GetHistorial(db)))
    case AddRegistro(c) => var o := PostRegistros(db, c, now); Response(o.db, Answer(o.status))
    case CheckoutRegistro(id, total) => var o := Registros.Checkout(db, id, total, now); Response(o.db, Answer(o.status))
    case RemoveHuesped(id) => var o := Huespedes.DeleteHuesped(db, id); Response(o.db, Answer(o.status))
    case _ => Response(db, Answer(NotFound))
  }

  /** The running server accepts a check-in for a guest id the directory does not hold,
      which the controller refuses with 404. */
  lemma LiveCheckinSkipsGuestCheck(db: Db, c: CheckinFields, now: int)
    requires Registros.RequiredCheckinFields(c) && CheckinKeysSent(c) && !HasKey(db.guests, c.huespedId.value)
    requires !Occupied(db.stays, c.habitacion.value)
    ensures Live(db, AddRegistro(c), now).reply == Answer(Created(db.nextStayId))
    ensures Registros.CreateRegistro(db, c, now).status == NotFound
  {
  }

  /** Such a stay occupies its room yet joins with no guest, so no listing shows it: neither the
      active listing the front desk checks out from nor the controller's full listing. */
  lemma {:induction false} OrphanStayHidden(db: Db, c: CheckinFields, now: int)
    requires Registros.RequiredCheckinFields(c) && CheckinKeysSent(c) && !HasKey(db.guests, c.huespedId.value)
    requires !Occupied(db.stays, c.habitacion.value)
    ensures var after := PostRegistros(db, c, now);
      var row := Row(db.nextStayId, Registros.NewStay(c, now));
      && after.status == Created(db.nextStayId)
      && Occupied(after.db.stays, c.habitacion.value)
      && (forall v :: v in Registros.GetRegistrosActivos(after.db) ==> v.stay != row)
      && (forall v :: v in Registros.GetAllRegistros(after.db) ==> v.stay != row)
  {
    var after := PostRegistros(db, c, now).db;
    var row := Row(db.nextStayId, Registros.NewStay(c, now));
    assert after.stays[|db.stays|] == row;
    forall v | v in Registros.GetRegistrosActivos(after) || v in Registros.GetAllRegistros(after)
      ensures v.stay != row
    {
      OrphanJoinsNothing(db, after, v, c.huespedId.value);
    }
  }

  /** A stay whose guest id is in no guest row has no join row. */
  lemma OrphanJoinsNothing(db: Db, after: Db, v: Registros.StayView, guest: int)
    requires after.guests == db.guests && !HasKey(db.guests, guest)
    requires Registros.JoinOf(v, after.guests)
    ensures v.stay.data.huespedId != guest
  {
  }
}
