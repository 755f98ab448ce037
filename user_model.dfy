/**
 * The Sequelize `User` model (table `users`): a validated, unique username, a unique
 * email that must pass the email-syntax check, an auto-incremented integer id and a
 * creation time with no update time.
 *
 * The email-syntax check belongs to the validator library; the table takes it as a
 * predicate `isEmail` fixed at construction. The unique indexes compare values under the
 * column collation, which the database defines (MySQL's default one ignores case and
 * accents); the table takes it as a function `collate` fixed at construction, and two
 * values collide when their collated forms are equal.
 */
module UserModel {
  import opened Wrappers
  import opened FieldChecks
  import opened Clock

  /** The attributes a create call is given; absent ones are `None` (null). */
  datatype UserAttributes = UserAttributes(username: Option<string>, email: Option<string>, createdAt: Option<Time>)

  datatype Attribute = Username | Email

  /** A stored row. There is no `updatedAt` column. */
  datatype UserRow = UserRow(id: nat, username: string, email: string, createdAt: Time)

  /**
   * Validation runs first and reports every failing attribute; only a valid row reaches
   * the database, whose unique indexes may then refuse it.
   */
  datatype CreateResult =
    | Created(row: UserRow)
    | ValidationFailed(attributes: set<Attribute>)
    | UniqueViolation(attributes: set<Attribute>)

  predicate UsernameOk(v: Option<string>) { RequiredText(v, 3, 50) }
  predicate EmailOk(v: Option<string>, isEmail: string -> bool) { v.Some? && isEmail(v.value) }

  function Violations(a: UserAttributes, isEmail: string -> bool): (v: set<Attribute>)
    ensures v == {} <==> UsernameOk(a.username) && EmailOk(a.email, isEmail)
    ensures Username in v <==> !UsernameOk(a.username)
    ensures Email in v <==> !EmailOk(a.email, isEmail)
  {
    (if UsernameOk(a.username) then {} else {Username})
    + (if EmailOk(a.email, isEmail) then {} else {Email})
  }

  /** The index keys of the username column: the stored usernames under the collation. */
  function Usernames(rows: map<nat, UserRow>, collate: string -> string): set<string> {
    set id | id in rows :: collate(rows[id].username)
  }

  /** The index keys of the email column. */
  function Emails(rows: map<nat, UserRow>, collate: string -> string): set<string> {
    set id | id in rows :: collate(rows[id].email)
  }

  /** The unique columns a new row with this username and email would collide on under the collation. */
  function Conflicts(rows: map<nat, UserRow>, username: string, email: string, collate: string -> string): (c: set<Attribute>)
    ensures Username in c <==> exists id :: id in rows && collate(rows[id].username) == collate(username)
    ensures Email in c <==> exists id :: id in rows && collate(rows[id].email) == collate(email)
  {
    (if collate(username) in Usernames(rows, collate) then {Username} else {})
    + (if collate(email) in Emails(rows, collate) then {Email} else {})
  }

  /** No two rows share a username, and no two share an email, once both are collated. */
  ghost predicate Unique(rows: map<nat, UserRow>, collate: string -> string) {
    forall a, b :: a in rows && b in rows && a != b ==>
      collate(rows[a].username) != collate(rows[b].username) && collate(rows[a].email) != collate(rows[b].email)
  }

  /** Adding a row that collides with no unique column keeps the columns unique. */
  lemma {:induction false} InsertKeepsUnique(rows: map<nat, UserRow>, row: UserRow, collate: string -> string)
    requires Unique(rows, collate)
    requires row.id !in rows
    requires Conflicts(rows, row.username, row.email, collate) == {}
    ensures Unique(rows[row.id := row], collate)
  {
    var after := rows[row.id := row];
    forall a, b | a in after && b in after && a != b
      ensures collate(after[a].username) != collate(after[b].username)
           && collate(after[a].email) != collate(after[b].email)
    {
      if a == row.id {
        assert Username !in Conflicts(rows, row.username, row.email, collate);
        assert Email !in Conflicts(rows, row.username, row.email, collate);
        assert after[b] == rows[b];
      } else if b == row.id {
        assert Username !in Conflicts(rows, row.username, row.email, collate);
        assert Email !in Conflicts(rows, row.username, row.email, collate);
        assert after[a] == rows[a];
      }
    }
  }

  class UserTable {
    const isEmail: string -> bool
    const collate: string -> string
    var rows: map<nat, UserRow>
    var nextId: nat

    /**
     * Rows are filed under their own id, ids start at 1 and stay below the counter,
     * every row passes validation, and the username and email columns are unique.
     */
    ghost predicate Valid()
      reads this
    {
      && 1 <= nextId
      && (forall id :: id in rows ==>
            && rows[id].id == id && 1 <= id < nextId
            && UsernameOk(Some(rows[id].username)) && isEmail(rows[id].email))
      && Unique(rows, collate)
    }

    constructor (isEmail: string -> bool, collate: string -> string)
      ensures Valid()
      ensures this.isEmail == isEmail && this.collate == collate && rows == map[] && nextId == 1
    {
      this.isEmail := isEmail;
      this.collate := collate;
      rows := map[];
      nextId := 1;
    }

    /**
     * `User.create`: an invalid username or email is refused with every failing attribute;
     * a valid one whose username or email collates equal to a stored one is refused by
     * the unique indexes; otherwise the row is inserted under the next auto-increment id with
     * `createdAt` defaulting to the time of the call. A refusal changes nothing.
     */
    method Create(a: UserAttributes, now: Time) returns (result: CreateResult)
      requires Valid()
      modifies this
      ensures Valid()
      ensures result.ValidationFailed? <==> Violations(a, isEmail) != {}
      ensures result.ValidationFailed? ==> result.attributes == Violations(a, isEmail)
      ensures result.UniqueViolation? ==>
        Violations(a, isEmail) == {} && result.attributes == Conflicts(old(rows), a.username.value, a.email.value, collate) != {}
      ensures !result.Created? ==> rows == old(rows) && nextId == old(nextId)
      ensures result.Created? ==>
        && Conflicts(old(rows), a.username.value, a.email.value, collate) == {}
        && result.row == UserRow(old(nextId), a.username.value, a.email.value, a.createdAt.GetOr(now))
        && old(nextId) !in old(rows)
        && rows == old(rows)[old(nextId) := result.row]
        && nextId == old(nextId) + 1
    {
      var v := Violations(a, isEmail);
      if v != {} {
        return ValidationFailed(v);
      }
      var c := Conflicts(rows, a.username.value, a.email.value, collate);
      if c != {} {
        return UniqueViolation(c);
      }
      var row := UserRow(nextId, a.username.value, a.email.value, a.createdAt.GetOr(now));
      InsertKeepsUnique(rows, row, collate);
      rows := rows[nextId := row];
      nextId := nextId + 1;
      result := Created(row);
    }
  }

  /**
   * A second create whose username collates equal to a stored one ("Admin" after "admin"
   * under a case-insensitive collation) is refused by the unique index, and the table
   * keeps only the first row.
   */
  method DuplicateUsernameRefused(table: UserTable, a: UserAttributes, username: string, email: string, now: Time)
    returns (first: CreateResult, second: CreateResult)
    requires table.Valid()
    modifies table
    ensures table.Valid()
    ensures first.Created? && UsernameOk(Some(username)) && table.isEmail(email)
            && table.collate(username) == table.collate(first.row.username) ==>
      second.UniqueViolation? && Username in second.attributes
    ensures first.Created? && second.UniqueViolation? ==> table.rows == old(table.rows)[first.row.id := first.row]
  {
    first := table.Create(a, now);
    ghost var afterFirst := table.rows;
    second := table.Create(UserAttributes(Some(username), Some(email), None), now);
    if first.Created? && UsernameOk(Some(username)) && table.isEmail(email)
       && table.collate(username) == table.collate(first.row.username) {
      assert afterFirst[first.row.id].username == first.row.username;
    }
  }
}
