/**
 * Request sequences against the persons service, each one a flow that the
 * service's own test suite exercises, proved from the handlers' contracts.
 */
module Scenarios {
  import opened Optional
  import opened Records
  import opened Service
  import Paths

  /** Records numbered from 1 in the given order, as a fresh table lists them. */
  function Numbered(ps: seq<Person>): (rows: seq<PersonResponse>)
  {
    seq(|ps|, i requires 0 <= i < |ps| => PersonResponse(i + 1, ps[i]))
  }

  lemma NumberedSnoc(ps: seq<Person>, i: nat)
    requires i < |ps|
    ensures Numbered(ps[..i + 1]) == Numbered(ps[..i]) + [PersonResponse(i + 1, ps[i])]
  {
  }

  /** The first create on an empty table answers 201 with `Location: /persons/1`. */
  method FirstCreate(p: Person) returns (created: Response)
    ensures Status(created) == 201
    ensures created == Created("/persons/1")
  {
    var s := new PersonStore();
    created := s.Create(p);
  }

  /** Following the Location of a create returns 200 with the id that the
      Location names and the submitted fields. */
  method CreateAndFollow(s: PersonStore, p: Person) returns (created: Response, got: Response)
    requires s.Valid()
    modifies s
    ensures s.Valid()
    ensures created.Created? && Paths.PathId(created.location).Some?
    ensures got == Ok(PersonResponse(Paths.PathId(created.location).value, p))
  {
    created := s.Create(p);
    var id := Paths.PathId(created.location).value;
    got := s.ReadPerson(id);
  }

  /** After N creates on an empty table and no deletes, the listing holds
      exactly the N payloads, in creation order, with ids 1 to N. */
  method ListAfterCreates(payloads: seq<Person>) returns (listed: Response)
    ensures listed == OkList(Numbered(payloads))
  {
    var s := new PersonStore();
    var i := 0;
    while i < |payloads|
      invariant 0 <= i <= |payloads|
      invariant s.Valid() && s.nextId == i + 1
      invariant Rows(s.order, s.table) == Numbered(payloads[..i])
    {
      ghost var ids, rows := s.order, s.table;
      var _ := s.Create(payloads[i]);
      RowsAppend(ids, rows, i + 1, payloads[i]);
      NumberedSnoc(payloads, i);
      i := i + 1;
    }
    assert payloads[..i] == payloads;
    listed := s.ReadPersons();
  }

  /** A patch naming all four fields of a record whose fields are all
      truthy replaces every field and keeps the id. */
  method UpdateAfterCreate(a: Person, b: Person) returns (patched: Response, got: Response)
    requires a.name != "" && a.age != 0 && a.address != "" && a.work != ""
    ensures patched == Ok(PersonResponse(1, b))
    ensures got == patched
  {
    var s := new PersonStore();
    var _ := s.Create(a);
    assert s.table == map[1 := a];
    PatchWholeRecord(a, b);
    patched := s.Patch(1, WholeRecord(b));
    got := s.ReadPerson(1);
  }

  /** The body that names every field of `b`, as the test's update payload does. */
  function WholeRecord(b: Person): seq<Update> {
    [SetName(b.name), SetAge(b.age), SetAddress(b.address), SetWork(b.work)]
  }

  lemma PatchWholeRecord(a: Person, b: Person)
    requires a.name != "" && a.age != 0 && a.address != "" && a.work != ""
    ensures Patched(a, WholeRecord(b)) == Some(b)
  {
    var body := WholeRecord(b);
    var a1 := a.(name := b.name);
    var a2 := a1.(age := b.age);
    var a3 := a2.(address := b.address);
    assert Patched(a3, body[3..]) == Some(b) by {
      assert body[3..][1..] == [];
    }
    assert Patched(a2, body[2..]) == Some(b) by {
      assert body[2..][1..] == body[3..];
    }
    assert Patched(a1, body[1..]) == Some(b) by {
      assert body[1..][1..] == body[2..];
    }
  }

  /** A person created with age 0 can never have the age patched, and no
      committed patch changes it. */
  method ZeroAgeIsFrozen(p: Person, body: seq<Update>) returns (patched: Response, got: Response)
    requires p.age == 0
    ensures Age in Fields(body) ==> patched == BadRequest(InvalidData)
    ensures got.Ok? && got.person.person.age == 0
    ensures patched.Ok? ==> patched == got
  {
    var s := new PersonStore();
    var _ := s.Create(p);
    assert s.table == map[1 := p];
    if Age in Fields(body) {
      FalsyFieldRejects(p, body, Age);
    }
    if Patched(p, body).Some? {
      FalsyFieldIsFrozen(p, body, Age);
    }
    patched := s.Patch(1, body);
    got := s.ReadPerson(1);
  }

  /** Delete answers 204; a following get and a second delete both answer 404. */
  method DeleteThenGet(p: Person) returns (deleted: Response, got: Response, again: Response)
    ensures Status(deleted) == 204
    ensures got == NotFound(NotFoundDetail) && again == NotFound(NotFoundDetail)
  {
    var s := new PersonStore();
    var _ := s.Create(p);
    deleted := s.Delete(1);
    got := s.ReadPerson(1);
    again := s.Delete(1);
  }

  /** On an id that was never created, get, patch and delete all answer 404
      "Not found" and the table stays empty. */
  method MissingIdNotFound(id: int, body: seq<Update>) returns (got: Response, patched: Response, deleted: Response, listed: Response)
    ensures got == NotFound(NotFoundDetail)
    ensures patched == NotFound(NotFoundDetail)
    ensures deleted == NotFound(NotFoundDetail)
    ensures listed == OkList([])
  {
    var s := new PersonStore();
    got := s.ReadPerson(id);
    patched := s.Patch(id, body);
    deleted := s.Delete(id);
    listed := s.ReadPersons();
  }
}
