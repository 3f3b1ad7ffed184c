/** The stay ledger: the handlers of controllers/registrosController.js on the `registros` table. */
module Registros {
  import opened Common
  import opened Table
  import opened Ordering
  import opened Schema

  /** A row of the join `registros r JOIN huespedes h`: the stay and the guest's identity columns. */
  datatype StayView = StayView(
    stay: Row<Registro>,
    nombre: Option<string>,
    email: Option<string>,
    telefono: Option<string>,
    documento: Option<string>)

  /** The join row of a stay and its guest. */
  function View(s: Row<Registro>, g: Huesped): StayView
  {
    StayView(s, g.nombre, g.email, g.telefono, g.documento)
  }

  /** Which stays a query's WHERE clause keeps. */
  datatype Filter = AllStays | OnlyEstado(estado: Estado)

  predicate Keeps(f: Filter, s: Registro)
  {
    f.AllStays? || s.estado == f.estado
  }

  /** The stay joins with some guest row, and `v` is that join row. */
  predicate JoinOf(v: StayView, guests: seq<Row<Huesped>>)
  {
    exists k :: 0 <= k < |guests| && guests[k].id == v.stay.data.huespedId && v == View(v.stay, guests[k].data)
  }

  /** `SELECT r.*, h.nombre, h.email, h.telefono, h.documento_identidad FROM registros r
      JOIN huespedes h ON r.huesped_id = h.id WHERE <f>`, in table order, with guest keys unique. */
  function Join(stays: seq<Row<Registro>>, guests: seq<Row<Huesped>>, f: Filter): (r: seq<StayView>)
    ensures |r| <= |stays|
    ensures forall v :: v in r ==> v.stay in stays && Keeps(f, v.stay.data) && JoinOf(v, guests)
    ensures forall s :: s in stays && Keeps(f, s.data) && HasKey(guests, s.data.huespedId) ==>
      exists v :: v in r && v.stay == s
  {
    if |stays| == 0 then []
    else
      var s := stays[0];
      var rest := Join(stays[1..], guests, f);
      assert forall x :: x in stays ==> x == s || x in stays[1..];
      if Keeps(f, s.data) then
        match Find(guests, s.data.huespedId)
        case Some(k) =>
          assert View(s, guests[k].data) in [View(s, guests[k].data)] + rest;
          [View(s, guests[k].data)] + rest
        case None => rest
      else rest
  }

  /** Every stay the join lists has a key above `b` when every stay of the table has. */
  lemma JoinAbove(stays: seq<Row<Registro>>, guests: seq<Row<Huesped>>, f: Filter, b: int)
    requires forall i :: 0 <= i < |stays| ==> b < stays[i].id
    ensures forall v :: v in Join(stays, guests, f) ==> b < v.stay.id
  {
  }

  /** The stays of a listing have strictly ascending keys, so none is listed twice. */
  predicate StaysAscending(r: seq<StayView>)
  {
    forall i, j :: 0 <= i < j < |r| ==> r[i].stay.id < r[j].stay.id
  }

  /** The join keeps table order, so over ascending stay keys it lists each stay once. */
  lemma {:induction false} JoinInTableOrder(stays: seq<Row<Registro>>, guests: seq<Row<Huesped>>, f: Filter)
    requires KeysAscending(stays)
    ensures StaysAscending(Join(stays, guests, f))
  {
    if |stays| > 0 {
      var s, tail := stays[0], stays[1..];
      assert forall i :: 0 <= i < |tail| ==> tail[i] == stays[i + 1];
      JoinInTableOrder(tail, guests, f);
      JoinAbove(tail, guests, f, s.id);
      var rest := Join(tail, guests, f);
      var r := Join(stays, guests, f);
      if Keeps(f, s.data) && Find(guests, s.data.huespedId).Some? {
        var k := Find(guests, s.data.huespedId).value;
        assert r == [View(s, guests[k].data)] + rest;
        PrependAscending(View(s, guests[k].data), rest);
      } else {
        assert r == rest;
      }
    }
  }

  /** A join row below every row of an ascending join keeps it ascending when put first. */
  lemma PrependAscending(x: StayView, rest: seq<StayView>)
    requires forall v :: v in rest ==> x.stay.id < v.stay.id
    requires StaysAscending(rest)
    ensures StaysAscending([x] + rest)
  {
    var r := [x] + rest;
    forall i, j | 0 <= i < j < |r|
      ensures r[i].stay.id < r[j].stay.id
    {
      assert r[j] == rest[j - 1] && r[j] in rest;
      if i > 0 {
        assert r[i] == rest[i - 1];
      }
    }
  }

  /** A reordering of a join that lists each stay once still lists each stay once. */
  lemma SortedJoinOnce(j: seq<StayView>, r: seq<StayView>)
    requires multiset(j) == multiset(r)
    requires StaysAscending(j)
    ensures forall p, q :: 0 <= p < q < |r| ==> r[p].stay.id != r[q].stay.id
  {
    PermutationKeepsDistinct(j, r);
    forall p, q | 0 <= p < q < |r|
      ensures r[p].stay.id != r[q].stay.id
    {
      assert r[p] in multiset(j) && r[q] in multiset(j);
      var a :| 0 <= a < |j| && j[a] == r[p];
      var b :| 0 <= b < |j| && j[b] == r[q];
    }
  }

  /** The order key of `ORDER BY r.created_at DESC`. */
  function CreatedAt(v: StayView): Option<int>
  {
    Some(v.stay.data.createdAt)
  }

  /** The order key of `ORDER BY r.fecha_checkout DESC`. */
  function CheckoutAt(v: StayView): Option<int>
  {
    v.stay.data.fechaCheckout
  }

  /** A listing returns exactly the join rows of the stays `f` keeps whose guest exists,
      each stay once when the stay keys do not repeat. */
  predicate Lists(r: seq<StayView>, db: Db, f: Filter)
  {
    && (forall v :: v in r ==> v.stay in db.stays && Keeps(f, v.stay.data) && JoinOf(v, db.guests))
    && (forall s :: s in db.stays && Keeps(f, s.data) && HasKey(db.guests, s.data.huespedId) ==>
          exists v :: v in r && v.stay == s)
    && (KeysAscending(db.stays) ==> forall i, j :: 0 <= i < j < |r| ==> r[i].stay.id != r[j].stay.id)
  }

  /** Sorting a join keeps its rows. */
  function Listing(db: Db, f: Filter, key: StayView -> Option<int>): (r: seq<StayView>)
    ensures Lists(r, db, f)
    ensures SortedDesc(r, key)
  {
    var j := Join(db.stays, db.guests, f);
    var r := SortDesc(j, key);
    assert forall v :: v in r <==> v in multiset(r);
    assert forall v :: v in j <==> v in multiset(j);
    if KeysAscending(db.stays) then
      JoinInTableOrder(db.stays, db.guests, f);
      SortedJoinOnce(j, r);
      r
    else
      r
  }

  /** `getAllRegistros`: every stay whose guest exists, newest first. */
  function GetAllRegistros(db: Db): (r: seq<StayView>)
    ensures Lists(r, db, AllStays)
    ensures SortedDesc(r, CreatedAt)
  {
    Listing(db, AllStays, CreatedAt)
  }

  /** `getRegistrosActivos`: the active stays whose guest exists, newest first. */
  function GetRegistrosActivos(db: Db): (r: seq<StayView>)
    ensures forall v :: v in r ==> v.stay.data.estado == Activo
    ensures Lists(r, db, OnlyEstado(Activo))
    ensures SortedDesc(r, CreatedAt)
  {
    Listing(db, OnlyEstado(Activo), CreatedAt)
  }

  /** `getHistorial`: the finalized stays whose guest exists, latest checkout first. */
  function GetHistorial(db: Db): (r: seq<StayView>)
    ensures forall v :: v in r ==> v.stay.data.estado == Finalizado
    ensures Lists(r, db, OnlyEstado(Finalizado))
    ensures SortedDesc(r, CheckoutAt)
  {
    Listing(db, OnlyEstado(Finalizado), CheckoutAt)
  }

  /** The three fields a check-in insists on are all truthy. */
  predicate RequiredCheckinFields(c: CheckinFields)
  {
    TruthyNum(c.huespedId) && Truthy(c.habitacion) && Truthy(c.tipo)
  }

  /** The row `INSERT INTO registros` writes: the five given columns; `estado` takes its default
      `activo`, `fecha_checkout` and `total_pagado` stay NULL, `created_at` is the insertion time. */
  function NewStay(c: CheckinFields, now: int): Registro
    requires c.huespedId.Given?
  {
    Registro(c.huespedId.value, Column(c.habitacion), Column(c.tipo), Column(c.fechaCheckin), Column(c.observaciones),
             None, None, Activo, now)
  }

  /** Inserting an active stay into a free room keeps the stay invariants. */
  lemma InsertFreeRoom(db: Db, row: Registro)
    requires row.estado == Activo && row.habitacion.Some? && !Occupied(db.stays, row.habitacion.value)
    requires row.fechaCheckout.None? && row.totalPagado.None?
    ensures var s := db.stays + [Row(db.nextStayId, row)];
      && (StaysConsistent(db.stays) ==> StaysConsistent(s))
      && (OneActivePerRoom(db.stays) ==> OneActivePerRoom(s))
      && FinalizedKept(db.stays, s)
      && (WellKeyed(db.stays, db.nextStayId) ==> WellKeyed(s, db.nextStayId + 1))
  {
    var s := db.stays + [Row(db.nextStayId, row)];
    assert forall i :: 0 <= i < |db.stays| ==> s[i] == db.stays[i];
    if OneActivePerRoom(db.stays) {
      forall i, j | 0 <= i < |s| && 0 <= j < |s| && i != j
        && s[i].data.estado == Activo && s[j].data.estado == Activo && s[i].data.habitacion.Some?
        ensures s[i].data.habitacion != s[j].data.habitacion
      {
        if i == |db.stays| {
          assert s[j] == db.stays[j];
        } else if j == |db.stays| {
          assert s[i] == db.stays[i];
        }
      }
    }
  }

  /** The check-in after validation: refuse an occupied room, otherwise insert; a left-out
      optional key is refused by the driver at the insert: 500. */
  function InsertIntoFreeRoom(db: Db, c: CheckinFields, now: int): (o: Outcome)
    requires RequiredCheckinFields(c)
    ensures o.status == BadRequest(RoomOccupied) <==> Occupied(db.stays, c.habitacion.value)
    ensures o.status == InternalError <==> !Occupied(db.stays, c.habitacion.value) && !CheckinKeysSent(c)
    ensures o.status.Created? <==> !Occupied(db.stays, c.habitacion.value) && CheckinKeysSent(c)
    ensures !o.status.Created? ==> o.db == db
    ensures o.status.Created? ==>
      && o.status.id == db.nextStayId
      && o.db == db.(stays := db.stays + [Row(o.status.id, NewStay(c, now))], nextStayId := db.nextStayId + 1)
    ensures o.db.guests == db.guests
    ensures Valid(db) ==> Valid(o.db)
    ensures OneActivePerRoom(db.stays) ==> OneActivePerRoom(o.db.stays)
    ensures FinalizedKept(db.stays, o.db.stays)
  {
    if Occupied(db.stays, c.habitacion.value) then Outcome(db, BadRequest(RoomOccupied))
    else if !CheckinKeysSent(c) then Outcome(db, InternalError)
    else
      var id := db.nextStayId;
      InsertFreeRoom(db, NewStay(c, now));
      Outcome(db.(stays := db.stays + [Row(id, NewStay(c, now))], nextStayId := id + 1), Created(id))
  }

  /** `createRegistro`: validate, confirm the guest exists, refuse an occupied room, insert
      (500 when the insert binds a left-out key). */
  function CreateRegistro(db: Db, c: CheckinFields, now: int): (o: Outcome)
    ensures o.status == BadRequest(MissingFields) <==> !RequiredCheckinFields(c)
    ensures o.status == NotFound <==> RequiredCheckinFields(c) && !HasKey(db.guests, c.huespedId.value)
    ensures o.status == BadRequest(RoomOccupied) <==>
      RequiredCheckinFields(c) && HasKey(db.guests, c.huespedId.value) && Occupied(db.stays, c.habitacion.value)
    ensures o.status == InternalError <==>
      && RequiredCheckinFields(c) && HasKey(db.guests, c.huespedId.value) && !Occupied(db.stays, c.habitacion.value)
      && !CheckinKeysSent(c)
    ensures o.status.Created? <==>
      && RequiredCheckinFields(c) && HasKey(db.guests, c.huespedId.value) && !Occupied(db.stays, c.habitacion.value)
      && CheckinKeysSent(c)
    ensures !o.status.Created? ==> o.db == db
    ensures o.status.Created? ==>
      && o.status.id == db.nextStayId
      && o.db == db.(stays := db.stays + [Row(o.status.id, NewStay(c, now))], nextStayId := db.nextStayId + 1)
    ensures o.status.Created? && Valid(db) ==> !HasKey(db.stays, o.status.id)
    ensures o.status.Created? ==> HasKey(o.db.guests, o.db.stays[|o.db.stays| - 1].data.huespedId)
    ensures Valid(db) ==> Valid(o.db)
    ensures OneActivePerRoom(db.stays) ==> OneActivePerRoom(o.db.stays)
    ensures FinalizedKept(db.stays, o.db.stays)
  {
    if !RequiredCheckinFields(c) then Outcome(db, BadRequest(MissingFields))
    else if !HasKey(db.guests, c.huespedId.value) then Outcome(db, NotFound)
    else InsertIntoFreeRoom(db, c, now)
  }

  /** Some row matches `WHERE id = ? AND estado = 'activo'`. */
  predicate IsActive(stays: seq<Row<Registro>>, id: int)
  {
    exists i :: 0 <= i < |stays| && stays[i].id == id && stays[i].data.estado == Activo
  }

  /** The position of the first row matching `WHERE id = ? AND estado = 'activo'`, if any. */
  function ActiveRow(stays: seq<Row<Registro>>, id: int): (r: Option<nat>)
    ensures r.None? <==> !IsActive(stays, id)
    ensures r.Some? ==> r.value < |stays| && stays[r.value].id == id && stays[r.value].data.estado == Activo
  {
    if |stays| == 0 then None
    else if stays[0].id == id && stays[0].data.estado == Activo then Some(0)
    else match ActiveRow(stays[1..], id)
      case None =>
        assert forall i :: 1 <= i < |stays| ==> stays[i] == stays[1..][i - 1];
        None
      case Some(k) => Some(k + 1)
  }

  /** The stay after checkout: finalized, stamped, paid. */
  function Finalize(s: Registro, total: Field<int>, now: int): Registro
  {
    s.(fechaCheckout := Some(now), estado := Finalizado, totalPagado := Some(OrZero(total)))
  }

  /** Finalizing one active stay keeps the stay invariants. */
  lemma FinalizeKeeps(stays: seq<Row<Registro>>, i: nat, total: Field<int>, now: int)
    requires i < |stays| && stays[i].data.estado == Activo
    ensures var s := stays[i := Row(stays[i].id, Finalize(stays[i].data, total, now))];
      && (StaysConsistent(stays) ==> StaysConsistent(s))
      && (OneActivePerRoom(stays) ==> OneActivePerRoom(s))
      && FinalizedKept(stays, s)
      && (forall n :: WellKeyed(stays, n) ==> WellKeyed(s, n))
  {
    var s := stays[i := Row(stays[i].id, Finalize(stays[i].data, total, now))];
    forall k | 0 <= k < |stays| && stays[k].data.estado == Finalizado
      ensures stays[k] in s
    {
      assert s[k] == stays[k];
    }
  }

  /** `checkout`: only an active stay is finalized, with checkout time `now` and total `total || 0`;
      a missing or already finalized stay is a 404 and nothing changes. */
  function Checkout(db: Db, id: int, total: Field<int>, now: int): (o: Outcome)
    ensures o.status == Ok <==> IsActive(db.stays, id)
    ensures o.status == Ok || o.status == NotFound
    ensures o.status == NotFound ==> o.db == db
    ensures o.db.guests == db.guests && o.db.nextGuestId == db.nextGuestId && o.db.nextStayId == db.nextStayId
    ensures |o.db.stays| == |db.stays|
    ensures o.status == Ok ==> var i := ActiveRow(db.stays, id).value;
      && o.db.stays[i] == Row(id, db.stays[i].data.(estado := Finalizado, fechaCheckout := Some(now), totalPagado := Some(OrZero(total))))
      && forall k :: 0 <= k < |db.stays| && k != i ==> o.db.stays[k] == db.stays[k]
    ensures Valid(db) ==> Valid(o.db)
    ensures OneActivePerRoom(db.stays) ==> OneActivePerRoom(o.db.stays)
    ensures FinalizedKept(db.stays, o.db.stays)
  {
    match ActiveRow(db.stays, id)
    case None => Outcome(db, NotFound)
    case Some(i) =>
      FinalizeKeeps(db.stays, i, total, now);
      Outcome(db.(stays := db.stays[i := Row(id, Finalize(db.stays[i].data, total, now))]), Ok)
  }

  /** `updateRegistro`: overwrite room number, room type and observations of an active stay. */
  function Relocate(s: Registro, f: StayFields): Registro
  {
    s.(habitacion := Column(f.habitacion), tipo := Column(f.tipo), observaciones := Column(f.observaciones))
  }

  /** Overwriting the metadata of one active stay keeps every stay invariant but room exclusivity. */
  lemma RelocateKeeps(stays: seq<Row<Registro>>, i: nat, f: StayFields)
    requires i < |stays| && stays[i].data.estado == Activo
    ensures var s := stays[i := Row(stays[i].id, Relocate(stays[i].data, f))];
      && (StaysConsistent(stays) ==> StaysConsistent(s))
      && FinalizedKept(stays, s)
      && (forall n :: WellKeyed(stays, n) ==> WellKeyed(s, n))
  {
    var s := stays[i := Row(stays[i].id, Relocate(stays[i].data, f))];
    forall k | 0 <= k < |stays| && stays[k].data.estado == Finalizado
      ensures stays[k] in s
    {
      assert s[k] == stays[k];
    }
  }

  /** `updateRegistro`: only an active stay is changed, and only its three metadata columns;
      a missing or finalized stay is a 404 and nothing changes. No room-occupancy check is made.
      A left-out key is refused by the driver before the update runs: 500. */
  function UpdateRegistro(db: Db, id: int, f: StayFields): (o: Outcome)
    ensures o.status == InternalError <==> !StayKeysSent(f)
    ensures o.status == Ok <==> StayKeysSent(f) && IsActive(db.stays, id)
    ensures o.status == Ok || o.status == NotFound || o.status == InternalError
    ensures o.status != Ok ==> o.db == db
    ensures o.db.guests == db.guests && o.db.nextGuestId == db.nextGuestId && o.db.nextStayId == db.nextStayId
    ensures |o.db.stays| == |db.stays|
    ensures o.status == Ok ==> var i := ActiveRow(db.stays, id).value;
      && o.db.stays[i].id == id
      && o.db.stays[i].data.habitacion == Column(f.habitacion)
      && o.db.stays[i].data.tipo == Column(f.tipo)
      && o.db.stays[i].data.observaciones == Column(f.observaciones)
      && o.db.stays[i].data.estado == Activo
      && o.db.stays[i].data.huespedId == db.stays[i].data.huespedId
      && o.db.stays[i].data.fechaCheckin == db.stays[i].data.fechaCheckin
      && o.db.stays[i].data.fechaCheckout == db.stays[i].data.fechaCheckout
      && o.db.stays[i].data.totalPagado == db.stays[i].data.totalPagado
      && o.db.stays[i].data.createdAt == db.stays[i].data.createdAt
      && forall k :: 0 <= k < |db.stays| && k != i ==> o.db.stays[k] == db.stays[k]
    ensures Valid(db) ==> Valid(o.db)
    ensures FinalizedKept(db.stays, o.db.stays)
  {
    if !StayKeysSent(f) then Outcome(db, InternalError)
    else match ActiveRow(db.stays, id)
    case None => Outcome(db, NotFound)
    case Some(i) =>
      RelocateKeeps(db.stays, i, f);
      Outcome(db.(stays := db.stays[i := Row(id, Relocate(db.stays[i].data, f))]), Ok)
  }
}
