/**
  The sign-up handler: refuse a taken username, then a taken email, each with
  409; otherwise store a new user whose password column holds the bcrypt hash
  of the password, and answer 201 with the stored row.
*/
module Signup {
  import opened Common

  type Id = nat

  /** A user row. `password` holds the hash, never the plaintext the request carried. */
  datatype UserRow = UserRow(id: Id, username: string, email: string, password: string)

  /** The two unique columns the handler looks users up by. */
  datatype Column = Username | Email

  function Get(u: UserRow, c: Column): string {
    match c
    case Username => u.username
    case Email => u.email
  }

  /** `findUnique` on a unique column: the row holding `value` there, if there is one. */
  function FindUnique(rows: seq<UserRow>, c: Column, value: string): (r: Option<UserRow>)
    ensures r.Some? ==> r.value in rows && Get(r.value, c) == value
    ensures r.None? <==> forall i :: 0 <= i < |rows| ==> Get(rows[i], c) != value
  {
    if rows == [] then None
    else if Get(rows[0], c) == value then Some(rows[0])
    else FindUnique(rows[1..], c, value)
  }

  /** No two rows share a username, and no two share an email. */
  ghost predicate Unique(rows: seq<UserRow>) {
    forall i, j :: 0 <= i < j < |rows| ==> rows[i].username != rows[j].username && rows[i].email != rows[j].email
  }

  /** The bcrypt cost factor the handler hashes with. */
  const SaltRounds: nat := 10

  const UsernameExists := "Username already exists"
  const EmailExists := "Email already exists"

  /** The JSON the handler answers with: an error message, or the created row, hash included. */
  datatype Reply = Conflict(error: string) | CreatedUser(user: UserRow)

  /** A row whose username and email are both free keeps the table's columns unique. */
  lemma InsertKeepsUnique(rows: seq<UserRow>, row: UserRow)
    requires Unique(rows)
    requires FindUnique(rows, Username, row.username).None?
    requires FindUnique(rows, Email, row.email).None?
    ensures Unique(rows + [row])
  {
  }

  /** Once a row is stored, its username and its email are both taken. */
  lemma TakenAfterInsert(rows: seq<UserRow>, row: UserRow)
    ensures FindUnique(rows + [row], Username, row.username) != None
    ensures FindUnique(rows + [row], Email, row.email) != None
  {
    var s := rows + [row];
    assert Get(s[|rows|], Username) == row.username && Get(s[|rows|], Email) == row.email;
  }

  class UserTable {
    var rows: seq<UserRow>
    var nextId: Id

    /** Usernames and emails are each unique, and ids are distinct and handed out. */
    ghost predicate Valid()
      reads this
    {
      && Unique(rows)
      && (forall i :: 0 <= i < |rows| ==> rows[i].id < nextId)
      && (forall i, j :: 0 <= i < j < |rows| ==> rows[i].id != rows[j].id)
    }

    constructor ()
      ensures Valid() && rows == [] && nextId == 0
    {
      rows := [];
      nextId := 0;
    }

    /**
      POST /api/auth/signup. The username is checked first: when it is taken
      the answer is 409 with the username message, whatever the email. When
      only the email is taken the answer is 409 with the email message. Either
      way the table is unchanged. Otherwise exactly one row is appended, with a
      fresh id, the given username and email and `hash(password, 10)` as its
      password, and the answer is 201 with that row.
    */
    method Signup(username: string, email: string, password: string, hash: (string, nat) -> string)
      returns (status: nat, reply: Reply)
      requires Valid()
      modifies this
      ensures Valid()
      ensures FindUnique(old(rows), Username, username).Some? ==>
        status == 409 && reply == Conflict(UsernameExists) && rows == old(rows) && nextId == old(nextId)
      ensures FindUnique(old(rows), Username, username).None? && FindUnique(old(rows), Email, email).Some? ==>
        status == 409 && reply == Conflict(EmailExists) && rows == old(rows) && nextId == old(nextId)
      ensures FindUnique(old(rows), Username, username).None? && FindUnique(old(rows), Email, email).None? ==>
        && status == 201
        && reply == CreatedUser(UserRow(old(nextId), username, email, hash(password, SaltRounds)))
        && rows == old(rows) + [reply.user]
        && nextId == old(nextId) + 1
    {
      if FindUnique(rows, Username, username).Some? {
        return 409, Conflict(UsernameExists);
      }
      if FindUnique(rows, Email, email).Some? {
        return 409, Conflict(EmailExists);
      }
      var hashed := hash(password, SaltRounds);
      var user := UserRow(nextId, username, email, hashed);
      InsertKeepsUnique(rows, user);
      rows := rows + [user];
      nextId := nextId + 1;
      return 201, CreatedUser(user);
    }
  }

  /** Signing up twice with the same username: the first succeeds, the second gets 409 and changes nothing. */
  method SignupTwice(t: UserTable, username: string, email: string, email2: string, password: string,
                     hash: (string, nat) -> string)
    returns (first: nat, second: nat, reply: Reply)
    requires t.Valid()
    requires FindUnique(t.rows, Username, username).None? && FindUnique(t.rows, Email, email).None?
    modifies t
    ensures first == 201 && second == 409 && reply == Conflict(UsernameExists)
    ensures t.Valid() && |t.rows| == |old(t.rows)| + 1
  {
    var r;
    first, r := t.Signup(username, email, password, hash);
    TakenAfterInsert(old(t.rows), r.user);
    second, reply := t.Signup(username, email2, password, hash);
  }
}
