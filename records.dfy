/**
 * The Person entity of the persons table, Python's truthiness of its
 * attributes, the partial-update rule of the PATCH handler, and the
 * responses the handlers produce.
 */
module Records {
  import opened Optional

  /** A row of the `persons` table without its primary key: the four
      non-nullable columns, which are also the create payload. No column
      carries a further constraint, so empty strings and a zero age are
      accepted. */
  datatype Person = Person(name: string, age: int, address: string, work: string)

  /** The record a read or a successful patch returns: the id and the four columns. */
  datatype PersonResponse = PersonResponse(id: int, person: Person)

  /** The attribute names a patch body may use. */
  datatype Field = Name | Age | Address | Work

  /** The value of an attribute: a string column or an integer column. */
  datatype Value = Text(text: string) | Number(number: int)

  /** One `(field, value)` item of a patch body, the value typed as its column. */
  datatype Update =
    | SetName(name: string)
    | SetAge(age: int)
    | SetAddress(address: string)
    | SetWork(work: string)

  /** `getattr(person, field)`: age is the one integer column, the other
      three are strings. */
  function Attr(p: Person, f: Field): (v: Value)
    ensures v.Number? <==> f == Age
  {
    match f
    case Name => Text(p.name)
    case Age => Number(p.age)
    case Address => Text(p.address)
    case Work => Text(p.work)
  }

  /** The four attributes determine the record. */
  lemma AttrDetermines(p: Person, q: Person)
    requires forall f :: Attr(p, f) == Attr(q, f)
    ensures p == q
  {
    assert Attr(p, Name) == Attr(q, Name) && Attr(p, Age) == Attr(q, Age);
    assert Attr(p, Address) == Attr(q, Address) && Attr(p, Work) == Attr(q, Work);
  }

  /** Python truthiness of a column value: the empty string and zero are falsy. */
  predicate Truthy(v: Value)
    ensures Truthy(v) <==> v !in {Text(""), Number(0)}
  {
    match v
    case Text(s) => s != ""
    case Number(n) => n != 0
  }

  function FieldOf(u: Update): Field {
    match u
    case SetName(_) => Name
    case SetAge(_) => Age
    case SetAddress(_) => Address
    case SetWork(_) => Work
  }

  function NewValue(u: Update): Value {
    match u
    case SetName(s) => Text(s)
    case SetAge(n) => Number(n)
    case SetAddress(s) => Text(s)
    case SetWork(s) => Text(s)
  }

  /** `setattr(person, field, value)`: the named attribute takes the new
      value and every other attribute keeps its old one. */
  function Assign(p: Person, u: Update): (q: Person)
    ensures Attr(q, FieldOf(u)) == NewValue(u)
    ensures forall f :: f != FieldOf(u) ==> Attr(q, f) == Attr(p, f)
  {
    match u
    case SetName(s) => p.(name := s)
    case SetAge(n) => p.(age := n)
    case SetAddress(s) => p.(address := s)
    case SetWork(s) => p.(work := s)
  }

  /** The fields a patch body names, in the order the client sent them. */
  function Fields(body: seq<Update>): (fs: seq<Field>)
    ensures |fs| == |body|
  {
    if body == [] then [] else [FieldOf(body[0])] + Fields(body[1..])
  }

  /** No field is named twice, as in any JSON object read into a dict. */
  predicate DistinctFields(body: seq<Update>) {
    forall i, j :: 0 <= i < j < |body| ==> FieldOf(body[i]) != FieldOf(body[j])
  }

  /**
   * The update loop of the PATCH handler on a working copy of the record:
   * the items are taken in order; an item whose field is falsy in the
   * working copy rejects the whole update (None); otherwise the field is
   * assigned and the walk goes on. Some(q) is the record to be committed.
   */
  function Patched(p: Person, body: seq<Update>): (r: Option<Person>)
    ensures body == [] ==> r == Some(p)
    ensures r.None? ==>
              exists i :: 0 <= i < |body| && (!Truthy(Attr(p, FieldOf(body[i]))) || !Truthy(NewValue(body[i])))
    decreases |body|
  {
    if body == [] then Some(p)
    else if !Truthy(Attr(p, FieldOf(body[0]))) then None
    else Patched(Assign(p, body[0]), body[1..])
  }

  /** A field the body does not name keeps its value in a committed update. */
  lemma {:induction false} PatchedKeepsUnnamed(p: Person, body: seq<Update>, f: Field)
    requires Patched(p, body).Some?
    requires f !in Fields(body)
    ensures Attr(Patched(p, body).value, f) == Attr(p, f)
    decreases |body|
  {
    if body != [] {
      assert Fields(body) == [FieldOf(body[0])] + Fields(body[1..]);
      PatchedKeepsUnnamed(Assign(p, body[0]), body[1..], f);
    }
  }

  /** Every field the body names holds its new value in a committed update. */
  lemma {:induction false} PatchedSetsNamed(p: Person, body: seq<Update>, i: nat)
    requires Patched(p, body).Some?
    requires DistinctFields(body)
    requires i < |body|
    ensures Attr(Patched(p, body).value, FieldOf(body[i])) == NewValue(body[i])
    decreases |body|
  {
    var rest := body[1..];
    if i == 0 {
      assert FieldOf(body[0]) !in Fields(rest) by {
        forall k | 0 <= k < |rest| ensures Fields(rest)[k] != FieldOf(body[0]) {
          FieldAt(rest, k);
          assert rest[k] == body[k + 1];
        }
      }
      PatchedKeepsUnnamed(Assign(p, body[0]), rest, FieldOf(body[0]));
    } else {
      assert rest[i - 1] == body[i];
      PatchedSetsNamed(Assign(p, body[0]), rest, i - 1);
    }
  }

  lemma {:induction false} FieldAt(body: seq<Update>, k: nat)
    requires k < |body|
    ensures Fields(body)[k] == FieldOf(body[k])
  {
    if k > 0 {
      FieldAt(body[1..], k - 1);
    }
  }

  /** A field is named by the body exactly when one of its items sets it. */
  lemma NamedIff(body: seq<Update>, f: Field)
    ensures f in Fields(body) <==> exists i :: 0 <= i < |body| && FieldOf(body[i]) == f
  {
    if f in Fields(body) {
      var k :| 0 <= k < |body| && Fields(body)[k] == f;
      FieldAt(body, k);
    }
    if i :| 0 <= i < |body| && FieldOf(body[i]) == f {
      FieldAt(body, i);
    }
  }

  /**
   * A body that names a field whose current value is falsy is rejected,
   * whatever else it holds and in whatever order: the loop reaches that
   * item before anything has assigned the field.
   */
  lemma {:induction false} FalsyFieldRejects(p: Person, body: seq<Update>, f: Field)
    requires f in Fields(body)
    requires !Truthy(Attr(p, f))
    ensures Patched(p, body) == None
    decreases |body|
  {
    assert Fields(body) == [FieldOf(body[0])] + Fields(body[1..]);
    if FieldOf(body[0]) != f && Truthy(Attr(p, FieldOf(body[0]))) {
      FalsyFieldRejects(Assign(p, body[0]), body[1..], f);
    }
  }

  /**
   * For a body without repeated fields the update is rejected exactly when
   * some named field is falsy in the stored record, so the outcome does
   * not depend on the order of the items.
   */
  lemma {:induction false} PatchedRejectsIff(p: Person, body: seq<Update>)
    requires DistinctFields(body)
    ensures Patched(p, body) == None <==> exists f :: f in Fields(body) && !Truthy(Attr(p, f))
    decreases |body|
  {
    if body != [] {
      var u, rest := body[0], body[1..];
      assert Fields(body) == [FieldOf(u)] + Fields(rest);
      if Truthy(Attr(p, FieldOf(u))) {
        var q := Assign(p, u);
        assert DistinctFields(rest) by {
          forall i, j | 0 <= i < j < |rest| ensures FieldOf(rest[i]) != FieldOf(rest[j]) {
            assert rest[i] == body[i + 1] && rest[j] == body[j + 1];
          }
        }
        PatchedRejectsIff(q, rest);
        forall f | f in Fields(rest) ensures Attr(q, f) == Attr(p, f) {
          NamedIff(rest, f);
          var k :| 0 <= k < |rest| && FieldOf(rest[k]) == f;
          assert rest[k] == body[k + 1];
        }
      }
    }
  }

  /** A field stored with a falsy value (an empty string or a zero age,
      which create accepts) survives every committed update unchanged. */
  lemma FalsyFieldIsFrozen(p: Person, body: seq<Update>, f: Field)
    requires !Truthy(Attr(p, f))
    requires Patched(p, body).Some?
    ensures Attr(Patched(p, body).value, f) == Attr(p, f)
  {
    if f in Fields(body) {
      FalsyFieldRejects(p, body, f);
    }
    PatchedKeepsUnnamed(p, body, f);
  }

  /**
   * The validation looks at the stored values only: a body naming no field
   * twice whose named fields are all truthy in the stored record commits,
   * and every named field takes its new value, whatever that value is
   * (an empty string or a zero included).
   */
  lemma IncomingValueUnchecked(p: Person, body: seq<Update>)
    requires DistinctFields(body)
    requires forall i :: 0 <= i < |body| ==> Truthy(Attr(p, FieldOf(body[i])))
    ensures Patched(p, body).Some?
    ensures forall i :: 0 <= i < |body| ==> Attr(Patched(p, body).value, FieldOf(body[i])) == NewValue(body[i])
  {
    PatchedRejectsIff(p, body);
    forall f | f in Fields(body) ensures Truthy(Attr(p, f)) {
      NamedIff(body, f);
    }
    forall i | 0 <= i < |body| ensures Attr(Patched(p, body).value, FieldOf(body[i])) == NewValue(body[i]) {
      PatchedSetsNamed(p, body, i);
    }
  }

  /** A response of the persons API: status code and payload. */
  datatype Response =
    | Ok(person: PersonResponse)               // 200 with one record
    | OkList(persons: seq<PersonResponse>)     // 200 with every record
    | Created(location: string)                // 201, empty body, Location header
    | NoContent                                // 204, empty body
    | BadRequest(message: string)              // 400, {"message": ...}
    | NotFound(detail: string)                 // 404, {"detail": ...}

  const NotFoundDetail: string := "Not found"
  const InvalidData: string := "Invalid data"

  /** The HTTP status code of a response. */
  function Status(r: Response): int {
    match r
    case Ok(_) => 200
    case OkList(_) => 200
    case Created(_) => 201
    case NoContent => 204
    case BadRequest(_) => 400
    case NotFound(_) => 404
  }
}
