# Hotel front desk: guests and stays

A model of a small hotel check-in/check-out backend and the date rules of its browser form.
The backend keeps two MySQL tables: `huespedes` (guests, with a unique identity document) and
`registros` (stays, each in state `activo` or `finalizado`). Each HTTP handler checks its guards,
changes the tables and answers with a status code (200, 201, 400, 404, 500) and, on a create, the new id.

The handlers exist twice. `controllers/*.js` holds one version. `server.js` holds the inline handlers
that actually run, because it never mounts the routers. The two differ:

- The inline `POST /api/registros` never looks the guest up. It inserts a stay for any guest id, where the
  controller answers 404.
- `GET /api/registros`, `PUT /api/registros/:id`, `GET /api/huespedes/:id` and `PUT /api/huespedes/:id`
  exist only in the controllers. On the running server they fall through to the catch-all 404.

A stay moves `activo -> finalizado` on checkout, and finalized is terminal. While a stay is active, an update
may overwrite its room, type and observations. Check-in refuses a room that already has an active stay.
Check-in and checkout preserve "at most one active stay per room"; `updateRegistro` does not check the new
room and can break it (`Lifecycle.EditStayCanDoubleBook`). The running server has no update route, so every
sequence of requests to it, each served at its own time, preserves the invariant
(`Lifecycle.LiveServerKeepsInvariants`).

Guards worth knowing about:
- The controller's check-in answers 404 for an unknown guest. The running server's check-in answers 201
  without looking the guest up.
- A guest update onto a document another guest holds breaks the unique index and answers 500.
- Each handler passes the destructured body keys straight to `pool.execute`. A key left out of the body is
  `undefined`, which mysql2 refuses to bind, so the handler answers 500 and nothing changes. A key sent as
  `null` binds SQL NULL. Request bodies therefore distinguish a left-out key from `null` (`Common.Field`).

## Layout

- `common.dfy` (`Common`): nullable column values, request body keys (left out, `null` or given) and JavaScript truthiness.
- `table.dfy` (`Table`): a table as a sequence of rows with an auto-increment key; lookup and delete by key.
- `ordering.dfy` (`Ordering`): `ORDER BY ... DESC` with NULL last, as an insertion sort.
- `schema.dfy` (`Schema`): the two row types, request bodies, replies and the database invariants.
- `huespedes.dfy` (`Huespedes`): the guest handlers of `controllers/huespedesController.js`.
- `registros.dfy` (`Registros`): the stay handlers and join listings of `controllers/registrosController.js`.
- `server.dfy` (`Server`): the inline `POST /api/registros` and the route table of `server.js`.
- `store.dfy` (`Store`): the shared database as a class. Its methods change the tables in place, one per handler.
- `lifecycle.dfy` (`Lifecycle`): sequences of calls and the invariants they keep.
- `fechas.dfy` (`Fechas`): the nights computation, the checkout clamp and the form defaults of `frontend/script.js`.

Assumed about the database schema, which is not part of this model:
- `estado` defaults to `activo`.
- `fecha_checkout` and `total_pagado` default to NULL.
- `created_at` is the insertion time. Here it is the `now` parameter.
- `documento_identidad` has a unique index.
- `huesped_id` has no foreign key.
- `affectedRows` counts matched rows.
- mysql2 (`config/database.js`) throws on an `undefined` bind value before sending the query.
- Every column the handlers write accepts NULL and any string. NOT NULL constraints and column types (such as a
  strict DATE column refusing `""`) are not modelled, so a write they would reject answers 200 or 201 here, not 500.

Clocks (`NOW()`, `new Date()`) are the parameters `now` and `hoy`. Dates in the form are day numbers;
`new Date(field)` is that day's midnight in milliseconds.

## Model

| member | source | states |
|---|---|---|
| Common.OrZero | server.js:167 | the JavaScript `total_pagado or 0`: a given amount is kept, including 0; a left-out or `null` one becomes 0 |
| Table.Find | controllers/huespedesController.js:22-25 | `WHERE id = ?` finds a row exactly when one has that key; the row found has the key and no earlier row has it |
| Table.Without | controllers/huespedesController.js:112-115 | `DELETE ... WHERE id = ?` keeps exactly the rows with another key; it shrinks the table iff the key was present |
| Table.WithoutWellKeyed | controllers/huespedesController.js:112-115 | deleting rows keeps keys unique, ascending and below the auto-increment counter |
| Ordering.SortDesc | controllers/registrosController.js:11 | `ORDER BY ... DESC` returns a permutation of its input in descending key order, NULL last |
| Ordering.PermutationKeepsDistinct | controllers/registrosController.js:11 | sorting a sequence without repeats introduces none |
| Huespedes.GetAllHuespedes | controllers/huespedesController.js:5-15 | lists every guest, no other row, newest `created_at` first |
| Huespedes.GetHuespedById | controllers/huespedesController.js:18-35 | returns a guest with that id, or none (404) exactly when no row has it; with unique keys it is the only such row |
| Huespedes.CreateHuesped | controllers/huespedesController.js:38-68 | 400 with no change if name, email or document is falsy; then 500 with no change if another bound key is left out; then 400 "duplicate" with no change if the document is taken; otherwise 201 with the counter's fresh id and exactly one row appended; each case iff its condition; validity kept |
| Huespedes.UpdateHuesped | controllers/huespedesController.js:71-93 | 500 with no change iff a bound key is left out, or the row exists and another guest holds the new document; otherwise 404 with no change iff the id is absent; otherwise all six fields of that row overwritten with no validation, keys and other rows unchanged |
| Huespedes.WithoutDocumentsUnique | controllers/huespedesController.js:112-115 | deleting guests keeps identity documents unique |
| Huespedes.DeleteHuesped | controllers/huespedesController.js:96-126 | 400 iff the guest has an active stay, checked before existence; 404 iff no such guest; otherwise removes exactly that guest; stays untouched |
| Registros.Join | controllers/registrosController.js:7-12 | the join returns only stays the filter keeps whose guest exists, each with that guest's columns, and keeps every such stay |
| Registros.JoinInTableOrder | controllers/registrosController.js:7-12 | over a stay table with ascending keys, the join lists stays in table order, so each kept stay exactly once |
| Registros.SortedJoinOnce | controllers/registrosController.js:11 | reordering a join that lists each stay once still lists each stay once |
| Registros.GetAllRegistros | controllers/registrosController.js:5-18 | every stay whose guest exists, with guest columns, each stay once when stay keys ascend (as `Schema.Valid` guarantees), newest first |
| Registros.GetRegistrosActivos | controllers/registrosController.js:21-35 | only and all active stays whose guest exists, each once when stay keys ascend (as `Schema.Valid` guarantees), newest first |
| Registros.GetHistorial | controllers/registrosController.js:38-52 | only and all finalized stays whose guest exists, each once when stay keys ascend (as `Schema.Valid` guarantees), latest checkout first |
| Registros.InsertFreeRoom | controllers/registrosController.js:76-93 | appending an active stay to a room with no active stay keeps room exclusivity, column consistency and the key order |
| Registros.InsertIntoFreeRoom | controllers/registrosController.js:76-99 | 400 "room occupied" with no change iff the room has an active stay; otherwise 500 with no change iff a bound key is left out; otherwise 201, one active row appended with the five given fields and the fresh id |
| Registros.CreateRegistro | controllers/registrosController.js:55-104 | 400 if a required field is falsy; 404 if the guest is absent; 400 if the room is occupied; 500 if `fecha_checkin` or `observaciones` is left out; each iff its condition, with no change; otherwise 201 with a fresh id; validity and room exclusivity kept; finalized stays kept |
| Registros.ActiveRow | controllers/registrosController.js:112-117 | `WHERE id = ? AND estado = 'activo'` matches iff some row has that id and is active |
| Registros.FinalizeKeeps | controllers/registrosController.js:112-119 | finalizing one active row keeps room exclusivity, column consistency, finalized rows and key order |
| Registros.Checkout | controllers/registrosController.js:107-136 | 200 iff an active row has the id; it becomes finalized with checkout time now and total `total`, or 0 when it is missing, every other row unchanged; otherwise 404 and no change |
| Registros.RelocateKeeps | controllers/registrosController.js:144-149 | overwriting the metadata of an active row keeps column consistency, finalized rows and key order |
| Registros.UpdateRegistro | controllers/registrosController.js:139-162 | 500 and no change iff a bound key is left out; otherwise 200 iff an active row has the id; it gets the new room, type and observations, and keeps state, guest, dates and payment; other rows unchanged; otherwise 404 and no change |
| Server.PostRegistros | server.js:114-153 | 400 for a falsy field or an occupied room, 500 for a left-out bound key, each iff its condition and with no change; otherwise 201 and an insert, with no guest lookup |
| Server.Live | server.js:28-243 | the controller-only routes and unmatched paths answer 404 and change nothing; reads change nothing and return the guest listing, the active listing or the history; each served mutation is its handler; validity and room exclusivity kept |
| Server.LiveCheckinSkipsGuestCheck | server.js:114-141 | for an unknown guest, a full body and a free room, the running server answers 201 where the controller answers 404 |
| Server.OrphanStayHidden | server.js:114-141 | a stay inserted for an unknown guest is created and occupies its room, but appears neither in the active listing the running server serves nor in the full listing |
| Store.Database.CreateHuesped | server.js:47-77 | guest creation changes the tables as `Huespedes.CreateHuesped` says |
| Store.Database.UpdateHuesped | controllers/huespedesController.js:71-93 | guest update changes the tables as `Huespedes.UpdateHuesped` says |
| Store.Database.DeleteHuesped | server.js:189-217 | guest deletion changes the tables as `Huespedes.DeleteHuesped` says |
| Store.Database.CreateRegistro | controllers/registrosController.js:55-104 | the controller's check-in changes the tables as `Registros.CreateRegistro` says |
| Store.Database.PostRegistros | server.js:114-153 | the running check-in changes the tables as `Server.PostRegistros` says |
| Store.Database.InsertStay | server.js:125-141 | the occupancy check and insert shared by both check-ins |
| Store.Database.Checkout | server.js:156-186 | checkout changes the tables as `Registros.Checkout` says |
| Store.Database.UpdateRegistro | controllers/registrosController.js:139-162 | stay update changes the tables as `Registros.UpdateRegistro` says |
| Store.Database.Serve | server.js:28-243 | one request to the running server follows its route table and keeps validity and room exclusivity |
| Lifecycle.RunKeepsValid | controllers/registrosController.js:55-162 | any sequence of handler calls keeps keys unique and ascending, documents unique and stay columns consistent |
| Lifecycle.RunKeepsFinalized | controllers/registrosController.js:107-162 | finalized is terminal: a finalized stay survives any sequence of calls unchanged |
| Lifecycle.RunKeepsRoomsExclusive | controllers/registrosController.js:76-125 | without stay updates, any sequence of calls keeps at most one active stay per room |
| Lifecycle.TwoRoomsReachable | controllers/registrosController.js:55-104 | registering a guest and checking them into rooms 101 and 102 leads from an empty database to the two-stay database of the double-booking example |
| Lifecycle.EditStayCanDoubleBook | controllers/registrosController.js:144-149 | an update moves an active stay into an occupied room, breaking room exclusivity |
| Lifecycle.CheckoutTwice | controllers/registrosController.js:112-125 | after a successful checkout a second one answers 404 and changes nothing |
| Lifecycle.LiveServerKeepsInvariants | server.js:28-243 | any sequence of requests to the running server, each served at its own time, keeps validity and at most one active stay per room |
| Lifecycle.FrontDeskScenario | controllers/registrosController.js:55-136 | a guest and a stay created get id 1; the same room again gets 400; checkout gets 200 with time and total stamped; a second checkout gets 404 |
| Fechas.CeilDiv | frontend/script.js:21 | `Math.ceil(x / d)` is the least r with x <= d * r |
| Fechas.CeilDivUnique | frontend/script.js:21 | those bounds determine the ceiling |
| Fechas.CeilDivDays | frontend/script.js:20-21 | a whole number of days divides exactly |
| Fechas.NochesDesdeFechas | frontend/script.js:360-365 | the nights are the ceiling of the difference in days, with no positivity check: 0 or fewer when the end is not after the start |
| Fechas.EvaluarNoches | frontend/script.js:8-23 | no change iff a field is empty; rejection iff checkout is not after check-in; otherwise nights = the difference in days, at least 1 |
| Fechas.AjustarSalida | frontend/script.js:160-169 | a checkout before the day after check-in is raised to that day; a later or empty one is kept |
| Fechas.ClampGivesNights | frontend/script.js:156-172 | after the clamp a filled checkout gives at least one night |
| Fechas.Formulario.CalcularNoches | frontend/script.js:4-28 | an empty field changes nothing; checkout not after check-in alerts, clears checkout and sets nights 0; otherwise nights and summary are set |
| Fechas.Formulario.CambiarEntrada | frontend/script.js:156-172 | a new check-in date sets the checkout minimum to the next day; with a checkout filled, it clamps the checkout and sets at least one night and the summary without an alert; with either field empty, checkout, nights and summary are unchanged and no alert is raised |
| Fechas.Formulario.ConfigurarFechas | frontend/script.js:56-74 | defaults: check-in today, checkout tomorrow, both minimums set, 1 night |

## Left out

- Express wiring, body parsing, CORS headers and the OPTIONS short-circuit, static and HTML routes (server.js:10-25, 219-238), the routers under `routes/`, `config/database.js`, `startServer`, and the logging (`console.log` at server.js:62, 143, 176, 211 and `console.error` in every catch block): these are framework, driver and logging plumbing with no effect on the tables or the replies.
- Driver failures and pool exhaustion (the generic 500s) are not modelled. The 500s modelled are the unique-index violation of a guest update and a left-out body key that the driver refuses to bind.
- Concurrency: each handler is one atomic step, so the check-then-insert race of check-in is not modelled.
- Response bodies are left out: the `success` and `message` fields, and the checkout reply's `fecha_checkout`, which comes from the JavaScript clock.
- Path ids are integers, i.e. the number MySQL compares after converting the path segment. Non-numeric ids are left out, and so are JSON values of the wrong type, such as a string `huesped_id`.
- Amounts are integers. JavaScript numbers are doubles.
- A failed insert does not consume an auto-increment id in the model. InnoDB may consume one.
- Rows with equal sort keys come out in an order the model chooses. The contracts state only the contents and the sort order.
- The unique index compares documents by exact string equality. MySQL collations are not modelled.
- `fecha_checkout_estimada` and `noches_estimadas`, which the first form handler sends, are absent from the model. The backend ignores them too.
- Registros.Join: takes the first guest row carrying the stay's `huesped_id`. An SQL join would produce one row per match. The two agree because guest keys are unique (`Schema.Valid`).
- Huespedes.UpdateHuesped, Registros.Checkout and Registros.UpdateRegistro: consider only the first row with the id. SQL would update every match. They agree under unique keys.
- Frontend: the DOM, `fetch`, `alert` texts, how `mostrarInfoEstadia` renders, `formatDate`, `openTab`, the `load*` functions, the fetch wrappers `deleteHuesped` and `realizarCheckout`, `testAPI`, and the two check-in submit handlers (event plumbing).
- Dates: `Date` parsing, time zones and daylight saving are not modelled. `setDate` works in local time while `toISOString` works in UTC. In the model a day is always 86 400 000 ms.
