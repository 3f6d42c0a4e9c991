/**
 * The persons service: the `persons` table and the five handlers that read
 * and change it. Each handler is one request; the table is the only state
 * that outlives a request.
 */
module Service {
  import opened Optional
  import opened Records
  import Paths

  /** Strictly increasing, hence without repeats. */
  predicate Ascending(s: seq<int>) {
    forall i, j :: 0 <= i < j < |s| ==> s[i] < s[j]
  }

  /** The rows of the table for the given ids, in that order. */
  function Rows(ids: seq<int>, t: map<int, Person>): (rows: seq<PersonResponse>)
    requires forall i :: 0 <= i < |ids| ==> ids[i] in t
    ensures |rows| == |ids|
    ensures forall i :: 0 <= i < |ids| ==> rows[i] == PersonResponse(ids[i], t[ids[i]])
  {
    seq(|ids|, i requires 0 <= i < |ids| => PersonResponse(ids[i], t[ids[i]]))
  }

  /** Appending a new row at the end of the table appends it to the listing. */
  lemma RowsAppend(ids: seq<int>, t: map<int, Person>, x: int, p: Person)
    requires forall i :: 0 <= i < |ids| ==> ids[i] in t
    requires x !in ids
    ensures Rows(ids + [x], t[x := p]) == Rows(ids, t) + [PersonResponse(x, p)]
  {
  }

  /** The sequence without its entry at position k. */
  function RemoveAt<T>(s: seq<T>, k: nat): (r: seq<T>)
    requires k < |s|
    ensures |r| == |s| - 1
    ensures forall i :: 0 <= i < |r| ==> r[i] == if i < k then s[i] else s[i + 1]
  {
    s[..k] + s[k + 1..]
  }

  /** Removing an entry from an ascending sequence keeps it ascending and
      keeps every other entry. */
  lemma RemoveAtAscending(s: seq<int>, k: nat)
    requires Ascending(s) && k < |s|
    ensures Ascending(RemoveAt(s, k))
    ensures forall x :: x in s && x != s[k] ==> x in RemoveAt(s, k)
    ensures s[k] !in RemoveAt(s, k)
  {
  }

  /** Removing one row from the table removes it, and only it, from the listing. */
  lemma RowsRemove(ids: seq<int>, t: map<int, Person>, k: nat)
    requires forall i :: 0 <= i < |ids| ==> ids[i] in t
    requires Ascending(ids) && k < |ids|
    ensures forall i :: 0 <= i < |RemoveAt(ids, k)| ==> RemoveAt(ids, k)[i] in t - {ids[k]}
    ensures Rows(RemoveAt(ids, k), t - {ids[k]}) == RemoveAt(Rows(ids, t), k)
  {
  }

  /** An ascending sequence holds as many distinct ids as it has entries. */
  lemma {:induction false} AscendingCardinality(s: seq<int>)
    requires Ascending(s)
    ensures |set x | x in s| == |s|
  {
    if s != [] {
      var rest := s[1..];
      assert Ascending(rest) by {
        forall i, j | 0 <= i < j < |rest| ensures rest[i] < rest[j] {
          assert rest[i] == s[i + 1] && rest[j] == s[j + 1];
        }
      }
      AscendingCardinality(rest);
      assert (set x | x in s) == {s[0]} + (set x | x in rest);
      assert s[0] !in rest;
    }
  }

  /** The position of an id in a sequence that holds it. */
  function IndexOf(s: seq<int>, x: int): (k: nat)
    requires x in s
    ensures k < |s| && s[k] == x
  {
    if s[0] == x then 0 else 1 + IndexOf(s[1..], x)
  }

  class PersonStore {
    /** The rows of the table, keyed by primary key. */
    var table: map<int, Person>
    /** The ids of the rows, in the order they were inserted. */
    var order: seq<int>
    /** The next value the table's id sequence hands out. */
    var nextId: nat

    ghost predicate Valid()
      reads this
    {
      && 1 <= nextId
      && (forall id :: id in table ==> 1 <= id < nextId)
      && (forall i :: 0 <= i < |order| ==> order[i] in table)
      && (forall id :: id in table ==> id in order)
      && Ascending(order)
    }

    /** A freshly created, empty `persons` table. */
    constructor ()
      ensures Valid()
      ensures table == map[] && order == [] && nextId == 1
    {
      table := map[];
      order := [];
      nextId := 1;
    }

    /** `get_person_by_id`: the stored row, or nothing, which every
        handler turns into 404 "Not found". */
    function Find(id: int): (r: Option<Person>)
      reads this
      ensures r.Some? <==> id in table
      ensures r.Some? ==> r.value == table[id]
    {
      if id in table then Some(table[id]) else None
    }

    /** GET /persons/{id}. */
    function ReadPerson(id: int): (r: Response)
      reads this
      ensures Status(r) == 200 <==> id in table
      ensures id in table ==> r == Ok(PersonResponse(id, table[id]))
      ensures id !in table ==> r == NotFound(NotFoundDetail)
    {
      match Find(id)
      case Some(p) => Ok(PersonResponse(id, p))
      case None => NotFound(NotFoundDetail)
    }

    /** GET /persons: every row, once each, in insertion order. */
    function ReadPersons(): (r: Response)
      requires Valid()
      reads this
      ensures r.OkList? && |r.persons| == |table|
      ensures forall i :: 0 <= i < |r.persons| ==>
                r.persons[i].id in table && r.persons[i].person == table[r.persons[i].id]
      ensures forall id :: id in table ==> exists i :: 0 <= i < |r.persons| && r.persons[i].id == id
      ensures forall i, j :: 0 <= i < j < |r.persons| ==> r.persons[i].id < r.persons[j].id
    {
      AscendingCardinality(order);
      assert (set x | x in order) == table.Keys by {
        forall x | x in order ensures x in table {
          var i :| 0 <= i < |order| && order[i] == x;
        }
        forall x | x in table ensures x in (set y | y in order) {
          assert x in order;
        }
      }
      assert forall id :: id in table ==> exists i :: 0 <= i < |order| && order[i] == id;
      OkList(Rows(order, table))
    }

    /** POST /persons: inserts the payload under the next id of the
        sequence and answers 201 with `Location: /persons/{id}`. */
    method Create(p: Person) returns (r: Response)
      requires Valid()
      modifies this
      ensures Valid()
      ensures 1 <= old(nextId) && old(nextId) !in old(table)
      ensures r == Created(Paths.Location(old(nextId)))
      ensures Paths.PathId(r.location) == Some(old(nextId))
      ensures table == old(table)[old(nextId) := p]
      ensures order == old(order) + [old(nextId)]
      ensures nextId == old(nextId) + 1
      ensures ReadPersons() == OkList(old(ReadPersons()).persons + [PersonResponse(old(nextId), p)])
    {
      var id := nextId;
      RowsAppend(order, table, id, p);
      table := table[id := p];
      order := order + [id];
      nextId := nextId + 1;
      Paths.LocationRoundTrip(id);
      r := Created(Paths.Location(id));
    }

    /**
     * PATCH /persons/{id}: 404 for an absent id; otherwise the items of the
     * body are applied one by one to a working copy of the row, and the
     * first item whose field is falsy in that copy answers 400 "Invalid
     * data" before anything is committed. When every item passes, the copy
     * is committed and returned with 200.
     */
    method Patch(id: int, body: seq<Update>) returns (r: Response)
      requires Valid()
      modifies this
      ensures Valid()
      ensures order == old(order) && nextId == old(nextId)
      ensures id !in old(table) ==> r == NotFound(NotFoundDetail) && table == old(table)
      ensures id in old(table) && Patched(old(table)[id], body).None? ==>
                r == BadRequest(InvalidData) && table == old(table)
      ensures id in old(table) && Patched(old(table)[id], body).Some? ==>
                var q := Patched(old(table)[id], body).value;
                r == Ok(PersonResponse(id, q)) && table == old(table)[id := q]
      ensures id in old(table) && body == [] ==> r == Ok(PersonResponse(id, old(table)[id]))
    {
      var found := Find(id);
      if found.None? {
        return NotFound(NotFoundDetail);
      }
      var current := found.value;
      var i := 0;
      while i < |body|
        invariant 0 <= i <= |body|
        invariant Patched(table[id], body) == Patched(current, body[i..])
      {
        var u := body[i];
        assert body[i..][1..] == body[i + 1..];
        if !Truthy(Attr(current, FieldOf(u))) {
          return BadRequest(InvalidData);
        }
        current := Assign(current, u);
        i := i + 1;
      }
      table := table[id := current];
      r := Ok(PersonResponse(id, current));
    }

    /** DELETE /persons/{id}: removes exactly that row and answers 204, or
        404 when the id is absent. */
    method Delete(id: int) returns (r: Response)
      requires Valid()
      modifies this
      ensures Valid()
      ensures nextId == old(nextId)
      ensures id !in old(table) ==>
                r == NotFound(NotFoundDetail) && table == old(table) && order == old(order)
      ensures id in old(table) ==> r == NoContent && table == old(table) - {id}
      ensures id in old(table) ==>
                id in old(order) &&
                var k := IndexOf(old(order), id);
                order == RemoveAt(old(order), k)
                && ReadPersons() == OkList(RemoveAt(old(ReadPersons()).persons, k))
      ensures ReadPerson(id) == NotFound(NotFoundDetail)
    {
      var found := Find(id);
      if found.None? {
        return NotFound(NotFoundDetail);
      }
      var k := IndexOf(order, id);
      RowsRemove(order, table, k);
      RemoveAtAscending(order, k);
      table := table - {id};
      order := RemoveAt(order, k);
      r := NoContent;
    }
  }
}
