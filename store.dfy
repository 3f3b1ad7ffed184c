/** The MySQL database the handlers share, as an object whose two tables the handlers change in place. */
module Store {
  import opened Common
  import opened Table
  import opened Schema
  import Huespedes
  import Registros
  import Server

  class Database {
    var guests: seq<Row<Huesped>>
    var stays: seq<Row<Registro>>
    var nextGuestId: int
    var nextStayId: int

    /** The tables and counters as a value. */
    function Snapshot(): Db
      reads this
    {
      Db(guests, stays, nextGuestId, nextStayId)
    }

    constructor ()
      ensures Snapshot() == Empty && Valid(Snapshot())
    {
      guests, stays := [], [];
      nextGuestId, nextStayId := 1, 1;
    }

    /** `POST /api/huespedes` (controller and server.js alike). */
    method CreateHuesped(f: GuestFields, now: int) returns (status: Status)
      modifies this
      ensures Outcome(Snapshot(), status) == Huespedes.CreateHuesped(old(Snapshot()), f, now)
    {
      if !Huespedes.RequiredGuestFields(f) {
        return BadRequest(MissingFields);
      }
      if !GuestKeysSent(f) {
        return InternalError;
      }
      if DocumentTaken(guests, f.documento.value) {
        return BadRequest(DuplicateDocument);
      }
      status := Created(nextGuestId);
      guests := guests + [Row(nextGuestId, Huespedes.NewGuest(f, now))];
      nextGuestId := nextGuestId + 1;
    }

    /** `PUT /api/huespedes/:id` (controller only). */
    method UpdateHuesped(id: int, f: GuestFields) returns (status: Status)
      modifies this
      ensures Outcome(Snapshot(), status) == Huespedes.UpdateHuesped(old(Snapshot()), id, f)
    {
      if !GuestKeysSent(f) {
        return InternalError;
      }
      var found := Find(guests, id);
      if found.None? {
        return NotFound;
      }
      if f.documento.Given? && DocumentTakenByOther(guests, f.documento.value, id) {
        return InternalError;
      }
      var i := found.value;
      guests := guests[i := Row(id, Huespedes.Overwrite(guests[i].data, f))];
      status := Ok;
    }

    /** `DELETE /api/huespedes/:id` (controller and server.js alike). */
    method DeleteHuesped(id: int) returns (status: Status)
      modifies this
      ensures Outcome(Snapshot(), status) == Huespedes.DeleteHuesped(old(Snapshot()), id)
    {
      if HasActiveStay(stays, id) {
        return BadRequest(HasActiveStays);
      }
      if !HasKey(guests, id) {
        return NotFound;
      }
      guests := Without(guests, id);
      status := Ok;
    }

    /** `POST /api/registros` of the controller: the guest must exist. */
    method CreateRegistro(c: CheckinFields, now: int) returns (status: Status)
      modifies this
      ensures Outcome(Snapshot(), status) == Registros.CreateRegistro(old(Snapshot()), c, now)
    {
      if !Registros.RequiredCheckinFields(c) {
        return BadRequest(MissingFields);
      }
      if !HasKey(guests, c.huespedId.value) {
        return NotFound;
      }
      status := InsertStay(c, now);
    }

    /** `POST /api/registros` of server.js: no guest lookup. */
    method PostRegistros(c: CheckinFields, now: int) returns (status: Status)
      modifies this
      ensures Outcome(Snapshot(), status) == Server.PostRegistros(old(Snapshot()), c, now)
    {
      if !Registros.RequiredCheckinFields(c) {
        return BadRequest(MissingFields);
      }
      status := InsertStay(c, now);
    }

    /** The occupancy check and the insert both check-in handlers end with. */
    method InsertStay(c: CheckinFields, now: int) returns (status: Status)
      requires Registros.RequiredCheckinFields(c)
      modifies this
      ensures Outcome(Snapshot(), status) == Registros.InsertIntoFreeRoom(old(Snapshot()), c, now)
    {
      if Occupied(stays, c.habitacion.value) {
        return BadRequest(RoomOccupied);
      }
      if !CheckinKeysSent(c) {
        return InternalError;
      }
      status := Created(nextStayId);
      stays := stays + [Row(nextStayId, Registros.NewStay(c, now))];
      nextStayId := nextStayId + 1;
    }

    /** `PUT /api/registros/:id/checkout` (controller and server.js alike). */
    method Checkout(id: int, total: Field<int>, now: int) returns (status: Status)
      modifies this
      ensures Outcome(Snapshot(), status) == Registros.Checkout(old(Snapshot()), id, total, now)
    {
      var row := Registros.ActiveRow(stays, id);
      if row.None? {
        return NotFound;
      }
      var i := row.value;
      stays := stays[i := Row(id, Registros.Finalize(stays[i].data, total, now))];
      status := Ok;
    }

    /** `PUT /api/registros/:id` (controller only). */
    method UpdateRegistro(id: int, f: StayFields) returns (status: Status)
      modifies this
      ensures Outcome(Snapshot(), status) == Registros.UpdateRegistro(old(Snapshot()), id, f)
    {
      if !StayKeysSent(f) {
        return InternalError;
      }
      var row := Registros.ActiveRow(stays, id);
      if row.None? {
        return NotFound;
      }
      var i := row.value;
      stays := stays[i := Row(id, Registros.Relocate(stays[i].data, f))];
      status := Ok;
    }

    /** One request to the running server: its route table, then the handler. */
    method Serve(e: Server.Endpoint, now: int) returns (reply: Server.Reply)
      modifies this
      ensures Server.Response(Snapshot(), reply) == Server.Live(old(Snapshot()), e, now)
      ensures Valid(old(Snapshot())) ==> Valid(Snapshot())
      ensures OneActivePerRoom(old(stays)) ==> OneActivePerRoom(stays)
    {
      match e
      case Test =>
        reply := Server.Alive(now);
      case ListHuespedes =>
        reply := Server.GuestList(Huespedes.GetAllHuespedes(Snapshot()));
      case AddHuesped(f) =>
        var s := CreateHuesped(f, now);
        reply := Server.Answer(s);
      case ListActivos =>
        reply := Server.StayList(Registros.GetRegistrosActivos(Snapshot()));
      case ListHistorial =>
        reply := Server.StayList(Registros.GetHistorial(Snapshot()));
      case AddRegistro(c) =>
        var s := PostRegistros(c, now);
        reply := Server.Answer(s);
      case CheckoutRegistro(id, total) =>
        var s := Checkout(id, total, now);
        reply := Server.Answer(s);
      case RemoveHuesped(id) =>
        var s := DeleteHuesped(id);
        reply := Server.Answer(s);
      case _ =>
        reply := Server.Answer(NotFound);
    }
  }
}
