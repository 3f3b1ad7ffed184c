/** The two tables of the hotel database and the replies a handler gives. */
module Schema {
  import opened Common
  import opened Table

  /** `registros.estado`. */
  datatype Estado = Activo | Finalizado

  /** A row of `huespedes` without its id. Text columns are nullable; `createdAt` is `created_at`. */
  datatype Huesped = Huesped(
    nombre: Option<string>,
    email: Option<string>,
    telefono: Option<string>,
    documento: Option<string>,
    fechaNacimiento: Option<string>,
    nacionalidad: Option<string>,
    createdAt: int)

  /** A row of `registros` without its id: one stay of one guest in one room. */
  datatype Registro = Registro(
    huespedId: int,
    habitacion: Option<string>,
    tipo: Option<string>,
    fechaCheckin: Option<string>,
    observaciones: Option<string>,
    fechaCheckout: Option<int>,
    totalPagado: Option<int>,
    estado: Estado,
    createdAt: int)

  /** The guest fields of a request body (create and update). */
  datatype GuestFields = GuestFields(
    nombre: Field<string>,
    email: Field<string>,
    telefono: Field<string>,
    documento: Field<string>,
    fechaNacimiento: Field<string>,
    nacionalidad: Field<string>)

  /** The body of a check-in request. */
  datatype CheckinFields = CheckinFields(
    huespedId: Field<int>,
    habitacion: Field<string>,
    tipo: Field<string>,
    fechaCheckin: Field<string>,
    observaciones: Field<string>)

  /** The body of a stay update request. */
  datatype StayFields = StayFields(
    habitacion: Field<string>,
    tipo: Field<string>,
    observaciones: Field<string>)

  /** Every key `INSERT INTO huespedes` and `UPDATE huespedes` bind is in the body. */
  predicate GuestKeysSent(f: GuestFields)
  {
    && Sent(f.nombre) && Sent(f.email) && Sent(f.telefono)
    && Sent(f.documento) && Sent(f.fechaNacimiento) && Sent(f.nacionalidad)
  }

  /** Every key `INSERT INTO registros` binds is in the body. */
  predicate CheckinKeysSent(c: CheckinFields)
  {
    Sent(c.huespedId) && Sent(c.habitacion) && Sent(c.tipo) && Sent(c.fechaCheckin) && Sent(c.observaciones)
  }

  /** Every key `UPDATE registros SET ...` binds is in the body. */
  predicate StayKeysSent(f: StayFields)
  {
    Sent(f.habitacion) && Sent(f.tipo) && Sent(f.observaciones)
  }

  /** The database: both tables and their auto-increment counters. */
  datatype Db = Db(
    guests: seq<Row<Huesped>>,
    stays: seq<Row<Registro>>,
    nextGuestId: int,
    nextStayId: int)

  /** A fresh database: empty tables, both counters at 1. */
  const Empty: Db := Db([], [], 1, 1)

  /** Why a request was refused with 400. */
  datatype Reason = MissingFields | DuplicateDocument | RoomOccupied | HasActiveStays

  /** What a mutating handler answers. */
  datatype Status = Created(id: int) | Ok | BadRequest(reason: Reason) | NotFound | InternalError

  /** The HTTP status code of a reply. */
  function Code(s: Status): int
  {
    match s
    case Created(_) => 201
    case Ok => 200
    case BadRequest(_) => 400
    case NotFound => 404
    case InternalError => 500
  }

  /** The database after a handler, and its reply. */
  datatype Outcome = Outcome(db: Db, status: Status)

  /** The unique index on `documento_identidad` (several NULLs are allowed). */
  predicate DocumentsUnique(g: seq<Row<Huesped>>)
  {
    forall i, j :: 0 <= i < |g| && 0 <= j < |g| && i != j && g[i].data.documento.Some?
      ==> g[i].data.documento != g[j].data.documento
  }

  /** Some guest already holds document `doc`. */
  predicate DocumentTaken(g: seq<Row<Huesped>>, doc: string)
  {
    exists i :: 0 <= i < |g| && g[i].data.documento == Some(doc)
  }

  /** A guest other than `id` holds document `doc`. */
  predicate DocumentTakenByOther(g: seq<Row<Huesped>>, doc: string, id: int)
  {
    exists i :: 0 <= i < |g| && g[i].id != id && g[i].data.documento == Some(doc)
  }

  /** An active stay has no checkout time and no payment yet; a finalized one has both. */
  predicate StaysConsistent(s: seq<Row<Registro>>)
  {
    forall i :: 0 <= i < |s| ==>
      if s[i].data.estado == Activo then s[i].data.fechaCheckout.None? && s[i].data.totalPagado.None?
      else s[i].data.fechaCheckout.Some? && s[i].data.totalPagado.Some?
  }

  /** What every handler keeps true of the database. */
  predicate Valid(db: Db)
  {
    && WellKeyed(db.guests, db.nextGuestId)
    && WellKeyed(db.stays, db.nextStayId)
    && DocumentsUnique(db.guests)
    && StaysConsistent(db.stays)
  }

  /** `SELECT id FROM registros WHERE numero_habitacion = ? AND estado = "activo"` returns a row. */
  predicate Occupied(s: seq<Row<Registro>>, room: string)
  {
    exists i :: 0 <= i < |s| && s[i].data.estado == Activo && s[i].data.habitacion == Some(room)
  }

  /** `SELECT COUNT(*) FROM registros WHERE huesped_id = ? AND estado = "activo"` is above 0. */
  predicate HasActiveStay(s: seq<Row<Registro>>, guestId: int)
  {
    exists i :: 0 <= i < |s| && s[i].data.estado == Activo && s[i].data.huespedId == guestId
  }

  /** At most one active stay per room number. */
  predicate OneActivePerRoom(s: seq<Row<Registro>>)
  {
    forall i, j :: 0 <= i < |s| && 0 <= j < |s| && i != j
      && s[i].data.estado == Activo && s[j].data.estado == Activo && s[i].data.habitacion.Some?
      ==> s[i].data.habitacion != s[j].data.habitacion
  }

  /** Every finalized stay of `before` is still in `after`, unchanged. */
  predicate FinalizedKept(before: seq<Row<Registro>>, after: seq<Row<Registro>>)
  {
    forall i :: 0 <= i < |before| && before[i].data.estado == Finalizado ==> before[i] in after
  }
}
