/** The guest directory: the handlers of controllers/huespedesController.js on the `huespedes` table. */
module Huespedes {
  import opened Common
  import opened Table
  import opened Ordering
  import opened Schema

  /** The order key of `ORDER BY created_at DESC`. */
  function CreatedAt(g: Row<Huesped>): Option<int>
  {
    Some(g.data.createdAt)
  }

  /** `getAllHuespedes`: every guest, newest first. */
  function GetAllHuespedes(db: Db): (r: seq<Row<Huesped>>)
    ensures multiset(r) == multiset(db.guests)
    ensures forall g :: g in r <==> g in db.guests
    ensures SortedDesc(r, CreatedAt)
  {
    var r := SortDesc(db.guests, CreatedAt);
    assert forall g :: g in r <==> g in multiset(r);
    r
  }

  /** `getHuespedById`: the row with that id (200), or None (404). */
  function GetHuespedById(db: Db, id: int): (r: Option<Row<Huesped>>)
    ensures r.None? <==> !HasKey(db.guests, id)
    ensures r.Some? ==> r.value in db.guests && r.value.id == id
    ensures Valid(db) ==> forall i :: 0 <= i < |db.guests| && db.guests[i].id == id ==> r == Some(db.guests[i])
  {
    match Find(db.guests, id)
    case None => None
    case Some(i) =>
      KeyOnlyAt(db.guests, db.nextGuestId, i);
      Some(db.guests[i])
  }

  /** The three fields `createHuesped` insists on are all truthy. */
  predicate RequiredGuestFields(f: GuestFields)
  {
    Truthy(f.nombre) && Truthy(f.email) && Truthy(f.documento)
  }

  /** The row `INSERT INTO huespedes` writes; `created_at` is the insertion time. */
  function NewGuest(f: GuestFields, now: int): Huesped
  {
    Huesped(Column(f.nombre), Column(f.email), Column(f.telefono), Column(f.documento),
            Column(f.fechaNacimiento), Column(f.nacionalidad), now)
  }

  /** The six columns `UPDATE huespedes SET ...` writes; `created_at` is kept. */
  function Overwrite(h: Huesped, f: GuestFields): Huesped
  {
    Huesped(Column(f.nombre), Column(f.email), Column(f.telefono), Column(f.documento),
            Column(f.fechaNacimiento), Column(f.nacionalidad), h.createdAt)
  }

  /** `createHuesped`: validate, insert, map a duplicate document to 400; a left-out optional key
      is refused by the driver before the insert runs: 500. */
  function CreateHuesped(db: Db, f: GuestFields, now: int): (o: Outcome)
    ensures o.status == BadRequest(MissingFields) <==> !RequiredGuestFields(f)
    ensures o.status == InternalError <==> RequiredGuestFields(f) && !GuestKeysSent(f)
    ensures o.status == BadRequest(DuplicateDocument) <==>
      RequiredGuestFields(f) && GuestKeysSent(f) && DocumentTaken(db.guests, f.documento.value)
    ensures o.status.Created? <==>
      RequiredGuestFields(f) && GuestKeysSent(f) && !DocumentTaken(db.guests, f.documento.value)
    ensures !o.status.Created? ==> o.db == db
    ensures o.status.Created? ==>
      && o.status.id == db.nextGuestId
      && o.db == db.(guests := db.guests + [Row(o.status.id, NewGuest(f, now))], nextGuestId := db.nextGuestId + 1)
    ensures o.status.Created? && Valid(db) ==> !HasKey(db.guests, o.status.id)
    ensures Valid(db) ==> Valid(o.db)
  {
    if !RequiredGuestFields(f) then Outcome(db, BadRequest(MissingFields))
    else if !GuestKeysSent(f) then Outcome(db, InternalError)
    else if DocumentTaken(db.guests, f.documento.value) then Outcome(db, BadRequest(DuplicateDocument))
    else
      var id := db.nextGuestId;
      Outcome(db.(guests := db.guests + [Row(id, NewGuest(f, now))], nextGuestId := id + 1), Created(id))
  }

  /** `updateHuesped`: overwrite all six fields of the row with that id, without validation.
      A left-out key is refused by the driver before the update runs: 500. Otherwise 404 when no
      row has the id; a document held by another guest breaks the unique index: 500. */
  function UpdateHuesped(db: Db, id: int, f: GuestFields): (o: Outcome)
    ensures o.status == NotFound <==> GuestKeysSent(f) && !HasKey(db.guests, id)
    ensures o.status == InternalError <==>
      (!GuestKeysSent(f) || (HasKey(db.guests, id) && f.documento.Given? && DocumentTakenByOther(db.guests, f.documento.value, id)))
    ensures o.status == Ok || o.status == NotFound || o.status == InternalError
    ensures o.status != Ok ==> o.db == db
    ensures o.db.stays == db.stays && o.db.nextGuestId == db.nextGuestId && o.db.nextStayId == db.nextStayId
    ensures |o.db.guests| == |db.guests|
    ensures forall k :: 0 <= k < |db.guests| ==> o.db.guests[k].id == db.guests[k].id
    ensures o.status == Ok && Valid(db) ==> forall k :: 0 <= k < |db.guests| ==>
      o.db.guests[k].data == if db.guests[k].id == id then Overwrite(db.guests[k].data, f) else db.guests[k].data
    ensures Valid(db) ==> Valid(o.db)
  {
    if !GuestKeysSent(f) then Outcome(db, InternalError)
    else match Find(db.guests, id)
    case None => Outcome(db, NotFound)
    case Some(i) =>
      if f.documento.Given? && DocumentTakenByOther(db.guests, f.documento.value, id) then Outcome(db, InternalError)
      else
        var guests := db.guests[i := Row(id, Overwrite(db.guests[i].data, f))];
        KeyOnlyAt(db.guests, db.nextGuestId, i);
        Outcome(db.(guests := guests), Ok)
  }

  /** Removing rows keeps the document index unique. */
  lemma WithoutDocumentsUnique(g: seq<Row<Huesped>>, id: int, next: int)
    requires WellKeyed(g, next) && DocumentsUnique(g)
    ensures DocumentsUnique(Without(g, id))
  {
    var r := Without(g, id);
    WithoutWellKeyed(g, id, next);
    forall i, j | 0 <= i < |r| && 0 <= j < |r| && i != j && r[i].data.documento.Some?
      ensures r[i].data.documento != r[j].data.documento
    {
      assert r[i].id != r[j].id;
      assert r[i] in g && r[j] in g;
      var p :| 0 <= p < |g| && g[p] == r[i];
      var q :| 0 <= q < |g| && g[q] == r[j];
    }
  }

  /** Deleting a guest from a valid database keeps the guest table well keyed and its documents unique. */
  lemma DeleteKeepsGuestsValid(db: Db, id: int)
    ensures Valid(db) ==> WellKeyed(Without(db.guests, id), db.nextGuestId) && DocumentsUnique(Without(db.guests, id))
  {
    if Valid(db) {
      WithoutWellKeyed(db.guests, id, db.nextGuestId);
      WithoutDocumentsUnique(db.guests, id, db.nextGuestId);
    }
  }

  /** `deleteHuesped`: refuse while the guest has an active stay (checked first), else delete by id. */
  function DeleteHuesped(db: Db, id: int): (o: Outcome)
    ensures o.status == BadRequest(HasActiveStays) <==> HasActiveStay(db.stays, id)
    ensures o.status == NotFound <==> !HasActiveStay(db.stays, id) && !HasKey(db.guests, id)
    ensures o.status == Ok <==> !HasActiveStay(db.stays, id) && HasKey(db.guests, id)
    ensures o.status != Ok ==> o.db == db
    ensures o.db.stays == db.stays && o.db.nextGuestId == db.nextGuestId && o.db.nextStayId == db.nextStayId
    ensures o.status == Ok ==> |o.db.guests| < |db.guests| && !HasKey(o.db.guests, id)
    ensures forall g :: g in o.db.guests <==> g in db.guests && (o.status == Ok ==> g.id != id)
    ensures Valid(db) ==> Valid(o.db)
  {
    if HasActiveStay(db.stays, id) then Outcome(db, BadRequest(HasActiveStays))
    else if !HasKey(db.guests, id) then Outcome(db, NotFound)
    else
      var guests := Without(db.guests, id);
      DeleteKeepsGuestsValid(db, id);
      Outcome(db.(guests := guests), Ok)
  }
}
