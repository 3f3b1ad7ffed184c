/** Sequences of requests: which invariants every handler keeps, and where the stay state machine can be broken. */
module Lifecycle {
  import opened Common
  import opened Table
  import opened Schema
  import Huespedes
  import Registros
  import Server

  /** One mutating handler call, of either variant. */
  datatype Op =
    | NewGuest(guest: GuestFields, now: int)
    | EditGuest(id: int, guest: GuestFields)
    | DropGuest(id: int)
    | CheckIn(checkin: CheckinFields, now: int)
    | LiveCheckIn(checkin: CheckinFields, now: int)
    | CheckOut(id: int, total: Field<int>, now: int)
    | EditStay(id: int, stay: StayFields)

  function Apply(db: Db, op: Op): Outcome
  {
    match op
    case NewGuest(f, now) => Huespedes.CreateHuesped(db, f, now)
    case EditGuest(id, f) => Huespedes.UpdateHuesped(db, id, f)
    case DropGuest(id) => Huespedes.DeleteHuesped(db, id)
    case CheckIn(c, now) => Registros.CreateRegistro(db, c, now)
    case LiveCheckIn(c, now) => Server.PostRegistros(db, c, now)
    case CheckOut(id, total, now) => Registros.Checkout(db, id, total, now)
    case EditStay(id, f) => Registros.UpdateRegistro(db, id, f)
  }

  /** The database after the calls `ops`, one after the other. */
  function Run(db: Db, ops: seq<Op>): Db
    decreases |ops|
  {
    if |ops| == 0 then db else Run(Apply(db, ops[0]).db, ops[1..])
  }

  /** Keys are unique, counters ahead of every key, documents unique and stay columns consistent
      after any sequence of calls from a valid database. */
  lemma {:induction false} RunKeepsValid(db: Db, ops: seq<Op>)
    requires Valid(db)
    ensures Valid(Run(db, ops))
    decreases |ops|
  {
    if |ops| > 0 {
      RunKeepsValid(Apply(db, ops[0]).db, ops[1..]);
    }
  }

  lemma FinalizedKeptTransitive(a: seq<Row<Registro>>, b: seq<Row<Registro>>, c: seq<Row<Registro>>)
    requires FinalizedKept(a, b) && FinalizedKept(b, c)
    ensures FinalizedKept(a, c)
  {
    forall i | 0 <= i < |a| && a[i].data.estado == Finalizado
      ensures a[i] in c
    {
      var k :| 0 <= k < |b| && b[k] == a[i];
    }
  }

  /** Finalized is terminal: once finalized, a stay stays in the table exactly as it was. */
  lemma {:induction false} RunKeepsFinalized(db: Db, ops: seq<Op>)
    ensures FinalizedKept(db.stays, Run(db, ops).stays)
    decreases |ops|
  {
    if |ops| > 0 {
      var mid := Apply(db, ops[0]).db;
      RunKeepsFinalized(mid, ops[1..]);
      FinalizedKeptTransitive(db.stays, mid.stays, Run(mid, ops[1..]).stays);
    }
  }

  /** No call moves an active stay to another room. */
  predicate NoRoomEdits(ops: seq<Op>)
  {
    forall k :: 0 <= k < |ops| ==> !ops[k].EditStay?
  }

  /** Check-ins (both variants), checkouts and guest calls keep at most one active stay per room. */
  lemma {:induction false} RunKeepsRoomsExclusive(db: Db, ops: seq<Op>)
    requires OneActivePerRoom(db.stays) && NoRoomEdits(ops)
    ensures OneActivePerRoom(Run(db, ops).stays)
    decreases |ops|
  {
    if |ops| > 0 {
      assert !ops[0].EditStay?;
      assert NoRoomEdits(ops[1..]) by {
        forall k | 0 <= k < |ops[1..]| ensures !ops[1..][k].EditStay? {
          assert ops[1..][k] == ops[k + 1];
        }
      }
      RunKeepsRoomsExclusive(Apply(db, ops[0]).db, ops[1..]);
    }
  }

  /** Ana holds two active stays, in rooms 101 and 102. */
  const TwoRooms: Db :=
    Db([Row(1, Huesped(Some("Ana"), Some("a@x.com"), None, Some("123"), None, None, 0))],
       [Row(1, Registro(1, Some("101"), Some("single"), None, None, None, None, Activo, 0)),
        Row(2, Registro(1, Some("102"), Some("single"), None, None, None, None, Activo, 0))],
       2, 3)

  /** Ana's registration, and her check-ins into rooms 101 and 102, all at time 0. */
  const Ana: GuestFields := GuestFields(Given("Ana"), Given("a@x.com"), Null, Given("123"), Null, Null)
  const Into101: CheckinFields := CheckinFields(Given(1), Given("101"), Given("single"), Null, Null)
  const Into102: CheckinFields := CheckinFields(Given(1), Given("102"), Given("single"), Null, Null)

  /** The database after registering Ana, and after her first check-in. */
  const AnaOnly: Db := Db([TwoRooms.guests[0]], [], 2, 1)
  const AnaIn101: Db := Db([TwoRooms.guests[0]], [TwoRooms.stays[0]], 2, 2)

  lemma RegisterAna()
    ensures Apply(Empty, NewGuest(Ana, 0)) == Outcome(AnaOnly, Created(1))
  {
    assert Huespedes.RequiredGuestFields(Ana) && GuestKeysSent(Ana) && !DocumentTaken(Empty.guests, "123");
  }

  lemma CheckAnaInto101()
    ensures Apply(AnaOnly, CheckIn(Into101, 0)) == Outcome(AnaIn101, Created(1))
  {
    assert Registros.RequiredCheckinFields(Into101) && CheckinKeysSent(Into101);
    assert HasKey(AnaOnly.guests, 1) by { assert AnaOnly.guests[0].id == 1; }
    assert !Occupied(AnaOnly.stays, "101");
  }

  lemma CheckAnaInto102()
    ensures Apply(AnaIn101, CheckIn(Into102, 0)) == Outcome(TwoRooms, Created(2))
  {
    assert Registros.RequiredCheckinFields(Into102) && CheckinKeysSent(Into102);
    assert HasKey(AnaIn101.guests, 1) by { assert AnaIn101.guests[0].id == 1; }
    assert !Occupied(AnaIn101.stays, "102") by { assert AnaIn101.stays[0].data.habitacion == Some("101"); }
  }

  /** A fresh database reaches `TwoRooms`: register Ana, then check her into rooms 101 and 102. */
  lemma TwoRoomsReachable()
    ensures Run(Empty, [NewGuest(Ana, 0), CheckIn(Into101, 0), CheckIn(Into102, 0)]) == TwoRooms
  {
    var ops := [NewGuest(Ana, 0), CheckIn(Into101, 0), CheckIn(Into102, 0)];
    RegisterAna();
    CheckAnaInto101();
    CheckAnaInto102();
    assert ops[1..][1..][1..] == [];
    assert Run(Empty, ops) == Run(AnaOnly, ops[1..]);
    assert Run(AnaOnly, ops[1..]) == Run(AnaIn101, ops[1..][1..]);
    assert Run(AnaIn101, ops[1..][1..]) == Run(TwoRooms, ops[1..][1..][1..]);
  }

  /** The update that moves Ana's second stay into room 101. */
  const IntoRoom101: StayFields := StayFields(Given("101"), Given("single"), Null)

  /** `updateRegistro` does not check the new room: it can put a second active stay in an occupied room. */
  lemma EditStayCanDoubleBook()
    ensures Valid(TwoRooms) && OneActivePerRoom(TwoRooms.stays)
    ensures Registros.UpdateRegistro(TwoRooms, 2, IntoRoom101).status == Ok
    ensures !OneActivePerRoom(Registros.UpdateRegistro(TwoRooms, 2, IntoRoom101).db.stays)
  {
    var s := TwoRooms.stays;
    assert WellKeyed(TwoRooms.guests, 2);
    assert WellKeyed(s, 3);
    assert StaysConsistent(s);
    assert s[0].data.habitacion != s[1].data.habitacion;
    assert StayKeysSent(IntoRoom101);
    assert Registros.ActiveRow(s, 2) == Some(1);
    var o := Registros.UpdateRegistro(TwoRooms, 2, IntoRoom101);
    assert o.db.stays[0].data.habitacion == o.db.stays[1].data.habitacion;
  }

  /** A second checkout of the same stay fails and leaves the first checkout's data as it was. */
  lemma CheckoutTwice(db: Db, id: int, total1: Field<int>, now1: int, total2: Field<int>, now2: int)
    requires Valid(db)
    requires Registros.Checkout(db, id, total1, now1).status == Ok
    ensures var first := Registros.Checkout(db, id, total1, now1).db;
      && Registros.Checkout(first, id, total2, now2).status == NotFound
      && Registros.Checkout(first, id, total2, now2).db == first
  {
  }

  /** The database after the timed requests `requests` to the running server, one after the other;
      each request carries the instant it is served at. */
  function ServeAll(db: Db, requests: seq<(Server.Endpoint, int)>): Db
    decreases |requests|
  {
    if |requests| == 0 then db else ServeAll(Server.Live(db, requests[0].0, requests[0].1).db, requests[1..])
  }

  /** The live server has no route that moves a stay, so any sequence of requests to it, each at its
      own time, keeps at most one active stay per room and keeps the database valid. */
  lemma {:induction false} LiveServerKeepsInvariants(db: Db, requests: seq<(Server.Endpoint, int)>)
    requires Valid(db) && OneActivePerRoom(db.stays)
    ensures Valid(ServeAll(db, requests)) && OneActivePerRoom(ServeAll(db, requests).stays)
    decreases |requests|
  {
    if |requests| > 0 {
      LiveServerKeepsInvariants(Server.Live(db, requests[0].0, requests[0].1).db, requests[1..]);
    }
  }

  /** A walk-through: register Ana, check her into room 101, try 101 again, check out twice. */
  lemma FrontDeskScenario()
    ensures
      var ana := GuestFields(Given("Ana"), Given("a@x.com"), Null, Given("123"), Null, Null);
      var g := Huespedes.CreateHuesped(Empty, ana, 0);
      var stay := CheckinFields(Given(1), Given("101"), Given("single"), Given("2024-01-01"), Null);
      var s1 := Registros.CreateRegistro(g.db, stay, 1);
      var s2 := Registros.CreateRegistro(s1.db, stay, 2);
      var c1 := Registros.Checkout(s2.db, 1, Given(50), 3);
      var c2 := Registros.Checkout(c1.db, 1, Given(50), 4);
      && g.status == Created(1)
      && s1.status == Created(1) && s1.db.stays[0].data.estado == Activo
      && s2.status == BadRequest(RoomOccupied) && Code(s2.status) == 400
      && c1.status == Ok && c1.db.stays[0].data.estado == Finalizado
      && c1.db.stays[0].data.fechaCheckout == Some(3) && c1.db.stays[0].data.totalPagado == Some(50)
      && c2.status == NotFound && Code(c2.status) == 404
  {
    var ana := GuestFields(Given("Ana"), Given("a@x.com"), Null, Given("123"), Null, Null);
    assert Huespedes.RequiredGuestFields(ana) && GuestKeysSent(ana);
    var g := Huespedes.CreateHuesped(Empty, ana, 0);
    assert !DocumentTaken(Empty.guests, "123");
    var stay := CheckinFields(Given(1), Given("101"), Given("single"), Given("2024-01-01"), Null);
    assert Registros.RequiredCheckinFields(stay) && CheckinKeysSent(stay);
    assert HasKey(g.db.guests, 1) by { assert g.db.guests[0].id == 1; }
    var s1 := Registros.CreateRegistro(g.db, stay, 1);
    assert s1.db.stays[0].data.habitacion == Some("101") && s1.db.stays[0].data.estado == Activo;
    var s2 := Registros.CreateRegistro(s1.db, stay, 2);
    assert s2.db.stays[0].id == 1;
    var c1 := Registros.Checkout(s2.db, 1, Given(50), 3);
    assert Registros.ActiveRow(s2.db.stays, 1) == Some(0);
    CheckoutTwice(s2.db, 1, Given(50), 3, Given(50), 4);
  }
}
