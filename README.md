# Persons API — a Dafny model

A model of the persons service: a CRUD API over one `persons` table. Each row
holds a store-assigned integer id and four non-nullable columns: `name`,
`age`, `address` and `work`. Five handlers read and change the table:

- `GET /persons/{id}` answers 200 with the record, or 404 `{"detail": "Not found"}`.
- `GET /persons` answers 200 with every record.
- `POST /persons` stores the payload under a fresh id. It answers 201 with an
  empty body and `Location: /persons/{id}`.
- `PATCH /persons/{id}` answers 404 for an absent id. Otherwise it walks the
  body's `(field, value)` items in order. An item whose field currently holds
  a falsy value (`""` or `0`) answers 400 `{"message": "Invalid data"}`
  before anything is committed. Otherwise the field is assigned. When all
  items pass, the record is committed and returned with 200.
- `DELETE /persons/{id}` answers 204, or 404 for an absent id.

Layout:

- `optional.dfy` — `Optional.Option`.
- `paths.dfy` — `Paths`: the `Location` header `/persons/{id}` and reading an
  id back from such a path (decimal rendering and parsing).
- `records.dfy` — `Records`: the `Person` row, attribute access
  (`getattr`/`setattr`), Python truthiness, `Patched` (the update loop as a
  function on a working copy) with its lemmas, and the `Response` datatype.
- `service.dfy` — `Service.PersonStore`: a class holding the table
  (`map<int, Person>`), the ids in insertion order, and the id sequence. The
  reads (`Find`, `ReadPerson`, `ReadPersons`) are functions. The writes
  (`Create`, `Patch`, `Delete`) are methods. `Patch` runs the update loop on
  a local copy and writes it back only when the loop finishes.
- `scenarios.dfy` — `Scenarios`: the request sequences of the service's test
  suite, proved from the handlers' contracts.

The partial-update rule judges the field's *current* value, not the incoming
one. So a record created with `age = 0` or an empty string can never have
that field patched (`FalsyFieldRejects`, `FalsyFieldIsFrozen`). A truthy field
can still be patched to any value, `""` and `0` included
(`IncomingValueUnchecked`). Create puts no constraint on the fields
(backend/main.py:52-57, 112), so a stored person may hold `""` or `0`. The
model keeps this behaviour as written.

## Model

| member | source | states |
|---|---|---|
| Paths.Decimal | backend/main.py:118 | the id in the Location header is rendered as Python's `str` of a non-negative int: at least one digit, only digits, no leading zero |
| Paths.Location | backend/main.py:118 | the Location header is `/persons/` followed by a run of decimal digits |
| Paths.DecimalRoundTrip | backend/main.py:118 | reading the rendered digits back gives the original id |
| Paths.LocationRoundTrip | backend/main.py:118 | the id read back from `/persons/{id}` is the id that was put there |
| Paths.LocationInjective | backend/main.py:118 | distinct ids give distinct Location headers |
| Paths.PathId | backend/test.py:140-148 | a path yields an id only when it is `/persons/` followed by a non-empty run of decimal digits |
| Paths.PathIdCanonical | backend/test.py:140-148 | a path that names an id without a leading zero is exactly that id's Location, so PathId and Location are inverse on canonical paths |
| Records.Attr | backend/main.py:127 | `getattr` on the row: age is the one integer column, name, address and work are strings |
| Records.AttrDetermines | backend/main.py:38-44 | two records with equal attributes are the same record: the four columns are the whole row |
| Records.Truthy | backend/main.py:127 | Python's truthiness of a column value: falsy exactly for `""` and `0` |
| Records.Patched | backend/main.py:126-131 | the update loop on a working copy: an empty body commits the record unchanged, and a rejection always traces to an item whose field is falsy when stored or whose own value is falsy |
| Records.Assign | backend/main.py:129 | `setattr`: the named attribute takes the new value and every other attribute keeps its value |
| Records.PatchedKeepsUnnamed | backend/main.py:126-131 | in a committed update, every field the body does not name keeps its stored value |
| Records.PatchedSetsNamed | backend/main.py:126-131 | in a committed update whose body names no field twice, every named field holds the value the body gives it |
| Records.FalsyFieldRejects | backend/main.py:126-128 | a body naming a field whose stored value is falsy is rejected, whatever its other items and their order |
| Records.PatchedRejectsIff | backend/main.py:126-128 | for a body naming no field twice, the update is rejected if and only if some named field is falsy in the stored record |
| Records.FalsyFieldIsFrozen | backend/main.py:126-129 | a field stored with a falsy value keeps it through every committed update |
| Records.IncomingValueUnchecked | backend/main.py:126-129 | only stored values are checked: a body naming no field twice whose named fields are all truthy when stored commits, and every named field takes its new value, `""` and `0` included |
| Service.PersonStore.constructor | backend/main.py:38-48 | a new table is empty and its id sequence starts at 1 |
| Service.PersonStore.Find | backend/main.py:91-95 | the lookup finds a record exactly when the id is in the table, and it is that id's row |
| Service.PersonStore.ReadPerson | backend/main.py:98-100 | for a stored id, exactly 200 with that id and its row; otherwise 404 "Not found" |
| Service.PersonStore.ReadPersons | backend/main.py:103-105 | 200 with one entry per stored row: each entry matches its row, every row appears, and the ids ascend, which is creation order |
| Service.PersonStore.Create | backend/main.py:108-119 | adds exactly one row, equal to the payload, under an id not in use; 201 with Location `/persons/{id}`, from which that id reads back; the listing gains that record at its end |
| Service.PersonStore.Patch | backend/main.py:122-133 | 404 and no change for an absent id; 400 "Invalid data" and no change when the update loop rejects; otherwise 200 with the updated record, which replaces the stored one; an empty body returns the record unchanged |
| Service.PersonStore.Delete | backend/main.py:136-141 | 404 and no change for an absent id; otherwise 204, exactly that row leaves the table and the listing, the others stay in order, and a following get answers 404 |
| Scenarios.FirstCreate | backend/test.py:50-55 | the first create on an empty table answers 201 with `Location: /persons/1` |
| Scenarios.CreateAndFollow | backend/test.py:134-150 | following a create's Location answers 200 with the id the Location names and the submitted fields |
| Scenarios.ListAfterCreates | backend/test.py:78-90 | after N creates on an empty table, the listing holds exactly the N payloads in creation order with ids 1 to N |
| Scenarios.UpdateAfterCreate | backend/test.py:92-104 | patching all four fields of a record with truthy fields answers 200 with the new values and the same id, and a get then shows them |
| Scenarios.ZeroAgeIsFrozen | backend/main.py:122-133 | a person created with age 0 gets 400 for any patch naming age, and the stored age stays 0 after any patch |
| Scenarios.DeleteThenGet | backend/test.py:113-125 | delete answers 204; a following get and a second delete answer 404 "Not found" |
| Scenarios.MissingIdNotFound | backend/test.py:71-76 | on an id never created, get, patch and delete all answer 404 "Not found" and the table stays empty |

## Left out

- Configuration and engine selection (environment variables, the Postgres URL, the in-memory SQLite switch) and the per-request session of `get_db`: I/O plumbing (backend/main.py:9-34, 48, 83-88).
- FastAPI routing, the `/api/v1` root path, dependency injection and JSON rendering: transport. Responses are a datatype of status and payload.
- The 422 diagnostics that request-schema validation produces on create: the create payload is an already well-typed `Person`.
- Patch keys other than the four attributes. An unknown key makes `getattr` fail with a 500. An `id` key would rewrite the primary key. The model's `Update` type admits only the four fields, each with a value of its column's type. Ill-typed values, which the source never checks, are therefore not modelled.
- Service.PersonStore.Create: id allocation is modelled as a sequence counter (the Postgres behaviour). The contract fixes the id to the counter's value, so an id freed by a delete is never handed out again. SQLite instead hands out the largest id in use plus one (1 on an empty table), so it can reuse the id of a deleted highest row; that reuse is not modelled.
- Service.PersonStore.ReadPersons: the query has no `ORDER BY`. The model lists rows in insertion order, which is ascending id order. A Postgres heap scan may return rows in another order, for example after an update; that is not modelled.
- The in-place mutation of the ORM object and the rollback when the session closes without commit: modelled as a local copy written back only on success. Aliasing through the session's identity map is not captured.
- Store and connectivity failures (a generic 500), concurrent requests and isolation between them.
- Column widths: `age` and `id` are unbounded integers. A value outside the database's integer range is a store error, which is not modelled.
