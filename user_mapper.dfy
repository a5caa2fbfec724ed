/** The users table behind UserMapper: rows in insertion order, an identity
    counter for generated ids, and the SQL statements as methods. */
module Mapper {
  import opened Wrappers
  import opened Codec
  import opened Dto

  /** A row of the users table, i.e. the User entity. */
  datatype User = User(
    id: Long,
    email: string,
    name: string,
    age: Int32,
    createdAt: Timestamp,
    updatedAt: Option<Timestamp>)

  /** The two WHERE clauses the queries use. */
  datatype Where = IdIs(id: int) | EmailIs(email: string)

  predicate Matches(u: User, w: Where)
  {
    match w
    case IdIs(id) => u.id == id
    case EmailIs(email) => u.email == email
  }

  /** Why an INSERT is refused: the email is taken, or no identity value is left. */
  datatype InsertError = DuplicateEmail | IdentityExhausted

  ghost predicate UniqueIds(rows: seq<User>)
  {
    forall i, j :: 0 <= i < j < |rows| ==> rows[i].id != rows[j].id
  }

  ghost predicate UniqueEmails(rows: seq<User>)
  {
    forall i, j :: 0 <= i < j < |rows| ==> rows[i].email != rows[j].email
  }

  /** The position of the first row the clause selects, or -1. */
  function IndexWhere(rows: seq<User>, w: Where): (i: int)
    ensures -1 <= i < |rows|
    ensures 0 <= i ==> Matches(rows[i], w)
    ensures 0 <= i ==> forall k :: 0 <= k < i ==> !Matches(rows[k], w)
    ensures i == -1 ==> forall k :: 0 <= k < |rows| ==> !Matches(rows[k], w)
  {
    if rows == [] then -1
    else if Matches(rows[0], w) then 0
    else
      var j := IndexWhere(rows[1..], w);
      if j == -1 then -1 else j + 1
  }

  /** SELECT * FROM users WHERE ...: the selected row, or null. */
  function Select(rows: seq<User>, w: Where): (r: Option<User>)
    ensures r.Some? ==> r.value in rows && Matches(r.value, w)
    ensures r.None? <==> forall u :: u in rows ==> !Matches(u, w)
  {
    var i := IndexWhere(rows, w);
    if i < 0 then None else Some(rows[i])
  }

  /** The number of rows with this id. */
  function CountWithId(rows: seq<User>, id: int): nat
  {
    if rows == [] then 0 else (if rows[0].id == id then 1 else 0) + CountWithId(rows[1..], id)
  }

  /** DELETE FROM users WHERE id = ...: the rows that remain, in their order. */
  function Without(rows: seq<User>, id: int): (r: seq<User>)
    ensures forall u :: u in r <==> u in rows && u.id != id
    ensures |r| == |rows| - CountWithId(rows, id)
  {
    if rows == [] then []
    else (if rows[0].id == id then [] else [rows[0]]) + Without(rows[1..], id)
  }

  /** UPDATE users SET name, age, updated_at WHERE id = ...: every other column stays. */
  function Updated(rows: seq<User>, user: User): (r: seq<User>)
    ensures |r| == |rows|
    ensures forall k :: 0 <= k < |rows| ==>
      && r[k].id == rows[k].id && r[k].email == rows[k].email && r[k].createdAt == rows[k].createdAt
      && (rows[k].id != user.id ==> r[k] == rows[k])
      && (rows[k].id == user.id ==> r[k].name == user.name && r[k].age == user.age && r[k].updatedAt == user.updatedAt)
  {
    seq(|rows|, k requires 0 <= k < |rows| =>
      if rows[k].id == user.id
      then rows[k].(name := user.name, age := user.age, updatedAt := user.updatedAt)
      else rows[k])
  }

  /** With unique ids, a row is selected by its own id. */
  lemma SelectOwnId(rows: seq<User>, u: User)
    requires UniqueIds(rows) && u in rows
    ensures Select(rows, IdIs(u.id)) == Some(u)
  {
    var i := IndexWhere(rows, IdIs(u.id));
    var k :| 0 <= k < |rows| && rows[k] == u;
    assert i <= k;
  }

  /** With unique emails, a row is selected by its own email. */
  lemma SelectOwnEmail(rows: seq<User>, u: User)
    requires UniqueEmails(rows) && u in rows
    ensures Select(rows, EmailIs(u.email)) == Some(u)
  {
    var i := IndexWhere(rows, EmailIs(u.email));
    var k :| 0 <= k < |rows| && rows[k] == u;
    assert i <= k;
  }

  /** The rows after the first are unique too, and none shares the first row's id or email. */
  lemma TailUnique(rows: seq<User>)
    requires rows != [] && UniqueIds(rows) && UniqueEmails(rows)
    ensures UniqueIds(rows[1..]) && UniqueEmails(rows[1..])
    ensures forall u :: u in rows[1..] ==> u.id != rows[0].id && u.email != rows[0].email
  {
    var tail := rows[1..];
    forall i, j | 0 <= i < j < |tail|
      ensures tail[i].id != tail[j].id && tail[i].email != tail[j].email
    {
      assert tail[i] == rows[i + 1] && tail[j] == rows[j + 1];
    }
    forall u | u in tail ensures u.id != rows[0].id && u.email != rows[0].email {
      var k :| 0 <= k < |tail| && tail[k] == u;
      assert rows[k + 1] == u;
    }
  }

  /** A row placed before unique rows that share neither its id nor its email keeps them unique. */
  lemma ConsUnique(head: User, rest: seq<User>)
    requires UniqueIds(rest) && UniqueEmails(rest)
    requires forall u :: u in rest ==> u.id != head.id && u.email != head.email
    ensures UniqueIds([head] + rest) && UniqueEmails([head] + rest)
  {
    var r := [head] + rest;
    forall i, j | 0 <= i < j < |r| ensures r[i].id != r[j].id && r[i].email != r[j].email {
      assert r[j] == rest[j - 1];
      if i > 0 {
        assert r[i] == rest[i - 1];
      }
    }
  }

  /** With unique ids, a statement keyed by id affects one row or none. */
  lemma {:induction false} CountUnique(rows: seq<User>, id: int)
    requires UniqueIds(rows) && UniqueEmails(rows)
    ensures CountWithId(rows, id) == if Select(rows, IdIs(id)).Some? then 1 else 0
  {
    if rows != [] {
      var tail := rows[1..];
      TailUnique(rows);
      CountUnique(tail, id);
      if rows[0].id != id {
        forall u | u in rows && u.id == id ensures u in tail {
          var k :| 0 <= k < |rows| && rows[k] == u;
          assert tail[k - 1] == u;
        }
      }
    }
  }

  /** Deleting rows keeps the remaining ids and emails unique. */
  lemma {:induction false} WithoutKeepsUnique(rows: seq<User>, id: int)
    requires UniqueIds(rows) && UniqueEmails(rows)
    ensures UniqueIds(Without(rows, id)) && UniqueEmails(Without(rows, id))
  {
    if rows != [] {
      var tail := rows[1..];
      TailUnique(rows);
      WithoutKeepsUnique(tail, id);
      if rows[0].id != id {
        ConsUnique(rows[0], Without(tail, id));
      }
    }
  }

  /** The UPDATE keeps every row where it was, so the row selected by id is the updated one. */
  lemma UpdatedSelect(rows: seq<User>, user: User)
    ensures IndexWhere(Updated(rows, user), IdIs(user.id)) == IndexWhere(rows, IdIs(user.id))
    ensures Select(rows, IdIs(user.id)).Some? ==>
      Select(Updated(rows, user), IdIs(user.id)) ==
      Some(Select(rows, IdIs(user.id)).value.(name := user.name, age := user.age, updatedAt := user.updatedAt))
  {
    var r := Updated(rows, user);
    var i := IndexWhere(rows, IdIs(user.id));
    var j := IndexWhere(r, IdIs(user.id));
    assert forall k :: 0 <= k < |rows| ==> (r[k].id == user.id <==> rows[k].id == user.id);
    if i < 0 {
      assert j < 0 || rows[j].id == user.id;
    } else {
      assert j >= 0 ==> j >= i && i >= j;
    }
  }

  class UserMapper {
    var rows: seq<User>
    /** The identity value the next INSERT is given. */
    var nextId: int

    ghost predicate Valid()
      reads this
    {
      && 1 <= nextId
      && UniqueIds(rows)
      && UniqueEmails(rows)
      && forall u :: u in rows ==> u.id < nextId
    }

    constructor ()
      ensures Valid() && rows == [] && nextId == 1
    {
      rows := [];
      nextId := 1;
    }

    /** SELECT * FROM users WHERE id = #{id} */
    method FindById(id: int) returns (r: Option<User>)
      requires Valid()
      ensures r == Select(rows, IdIs(id))
      ensures r.Some? ==> r.value in rows && r.value.id == id
      ensures r.None? <==> forall u :: u in rows ==> u.id != id
      ensures forall u :: u in rows && u.id == id ==> r == Some(u)
    {
      r := Select(rows, IdIs(id));
      forall u | u in rows && u.id == id ensures r == Some(u) {
        SelectOwnId(rows, u);
      }
    }

    /** SELECT * FROM users WHERE email = #{email} */
    method FindByEmail(email: string) returns (r: Option<User>)
      requires Valid()
      ensures r == Select(rows, EmailIs(email))
      ensures r.Some? ==> r.value in rows && r.value.email == email
      ensures r.None? <==> forall u :: u in rows ==> u.email != email
      ensures forall u :: u in rows && u.email == email ==> r == Some(u)
    {
      r := Select(rows, EmailIs(email));
      forall u | u in rows && u.email == email ensures r == Some(u) {
        SelectOwnEmail(rows, u);
      }
    }

    /** SELECT * FROM users */
    method FindAll() returns (r: seq<User>)
      ensures r == rows
    {
      r := rows;
    }

    /** INSERT INTO users (email, name, age, created_at) with a generated id,
        which is written back into the returned entity; updated_at stays null. */
    method Insert(user: User) returns (r: Result<User, InsertError>)
      requires Valid()
      modifies this
      ensures Valid()
      ensures r.Failure? <==> Select(old(rows), EmailIs(user.email)).Some? || old(nextId) > MAX_LONG
      ensures Select(old(rows), EmailIs(user.email)).Some? ==> r == Failure(DuplicateEmail)
      ensures r.Failure? ==> rows == old(rows) && nextId == old(nextId)
      ensures r.Success? ==>
        && r.value == User(old(nextId), user.email, user.name, user.age, user.createdAt, None)
        && rows == old(rows) + [r.value]
        && nextId == old(nextId) + 1
    {
      if Select(rows, EmailIs(user.email)).Some? {
        return Failure(DuplicateEmail);
      }
      if nextId > MAX_LONG {
        return Failure(IdentityExhausted);
      }
      var row := User(nextId, user.email, user.name, user.age, user.createdAt, None);
      rows := rows + [row];
      nextId := nextId + 1;
      r := Success(row);
    }

    /** UPDATE users SET name, age, updated_at WHERE id = #{id}; returns the rows affected. */
    method Update(user: User) returns (count: nat)
      requires Valid()
      modifies this
      ensures Valid()
      ensures rows == Updated(old(rows), user) && nextId == old(nextId)
      ensures count == if Select(old(rows), IdIs(user.id)).Some? then 1 else 0
      ensures Select(old(rows), IdIs(user.id)).Some? ==>
        Select(rows, IdIs(user.id)) ==
        Some(Select(old(rows), IdIs(user.id)).value.(name := user.name, age := user.age, updatedAt := user.updatedAt))
    {
      UpdatedSelect(rows, user);
      CountUnique(rows, user.id);
      count := CountWithId(rows, user.id);
      rows := Updated(rows, user);
      assert forall k :: 0 <= k < |rows| ==> rows[k].id == old(rows)[k].id && rows[k].email == old(rows)[k].email;
      forall u | u in rows ensures u.id < nextId {
        var k :| 0 <= k < |rows| && rows[k] == u;
        assert old(rows)[k] in old(rows);
      }
    }

    /** DELETE FROM users WHERE id = #{id}; returns the rows removed. */
    method DeleteById(id: int) returns (count: nat)
      requires Valid()
      modifies this
      ensures Valid()
      ensures rows == Without(old(rows), id) && nextId == old(nextId)
      ensures count == if Select(old(rows), IdIs(id)).Some? then 1 else 0
      ensures Select(rows, IdIs(id)).None?
    {
      CountUnique(rows, id);
      WithoutKeepsUnique(rows, id);
      var remaining := Without(rows, id);
      count := |rows| - |remaining|;
      rows := remaining;
    }
  }
}
