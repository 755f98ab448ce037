/**
 * The Sequelize `Item` model (table `strategic_items`): three validated text attributes,
 * an auto-incremented integer id and a creation time with no update time.
 */
module ItemModel {
  import opened Wrappers
  import opened FieldChecks
  import opened Clock

  /** The attributes a create call is given; absent ones are `None` (null). */
  datatype ItemAttributes = ItemAttributes(
    name: Option<string>, description: Option<string>, createdBy: Option<string>, createdAt: Option<Time>)

  datatype Attribute = Name | Description | CreatedBy

  /** A stored row. There is no `updatedAt` column. */
  datatype ItemRow = ItemRow(id: nat, name: string, description: string, createdBy: string, createdAt: Time)

  datatype CreateResult = Created(row: ItemRow) | ValidationFailed(attributes: set<Attribute>)

  predicate NameOk(v: Option<string>) { RequiredText(v, 3, 100) }
  predicate DescriptionOk(v: Option<string>) { RequiredText(v, 10, 1000) }
  predicate CreatedByOk(v: Option<string>) { RequiredText(v, 2, 50) }

  predicate RowOk(row: ItemRow) {
    NameOk(Some(row.name)) && DescriptionOk(Some(row.description)) && CreatedByOk(Some(row.createdBy))
  }

  /**
   * Every attribute whose rules fail, reported together: validation does not stop at the
   * first failing attribute. None fails exactly when all three attributes are admissible.
   */
  function Violations(a: ItemAttributes): (v: set<Attribute>)
    ensures v == {} <==> NameOk(a.name) && DescriptionOk(a.description) && CreatedByOk(a.createdBy)
    ensures Name in v <==> !NameOk(a.name)
    ensures Description in v <==> !DescriptionOk(a.description)
    ensures CreatedBy in v <==> !CreatedByOk(a.createdBy)
  {
    (if NameOk(a.name) then {} else {Name})
    + (if DescriptionOk(a.description) then {} else {Description})
    + (if CreatedByOk(a.createdBy) then {} else {CreatedBy})
  }

  class ItemTable {
    var rows: map<nat, ItemRow>
    var nextId: nat

    /** Rows are filed under their own id, ids start at 1 and stay below the counter, and every row is admissible. */
    ghost predicate Valid()
      reads this
    {
      && 1 <= nextId
      && forall id :: id in rows ==> rows[id].id == id && 1 <= id < nextId && RowOk(rows[id])
    }

    constructor ()
      ensures Valid()
      ensures rows == map[] && nextId == 1
    {
      rows := map[];
      nextId := 1;
    }

    /**
     * `Item.create`: validate all attributes; when any fails, report them all and insert
     * nothing. Otherwise insert a row under the next auto-increment id, with `createdAt`
     * defaulting to the time of the call.
     */
    method Create(a: ItemAttributes, now: Time) returns (result: CreateResult)
      requires Valid()
      modifies this
      ensures Valid()
      ensures result.ValidationFailed? <==> Violations(a) != {}
      ensures result.ValidationFailed? ==>
        result.attributes == Violations(a) && rows == old(rows) && nextId == old(nextId)
      ensures result.Created? ==>
        && result.row == ItemRow(old(nextId), a.name.value, a.description.value, a.createdBy.value, a.createdAt.GetOr(now))
        && old(nextId) !in old(rows)
        && rows == old(rows)[old(nextId) := result.row]
        && nextId == old(nextId) + 1
    {
      var v := Violations(a);
      if v != {} {
        return ValidationFailed(v);
      }
      var row := ItemRow(nextId, a.name.value, a.description.value, a.createdBy.value, a.createdAt.GetOr(now));
      rows := rows[nextId := row];
      nextId := nextId + 1;
      result := Created(row);
    }
  }

  /** Two successful creates get two different ids, and both rows are kept. */
  method CreateTwice(table: ItemTable, a: ItemAttributes, b: ItemAttributes, now: Time)
    returns (first: CreateResult, second: CreateResult)
    requires table.Valid()
    modifies table
    ensures table.Valid()
    ensures first.Created? && second.Created? ==>
      && first.row.id != second.row.id
      && first.row.id in table.rows && table.rows[first.row.id] == first.row
      && second.row.id in table.rows && table.rows[second.row.id] == second.row
  {
    first := table.Create(a, now);
    second := table.Create(b, now);
  }
}
