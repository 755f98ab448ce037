/**
 * The `/items` handlers of the Express router (create, list, read, update, delete),
 * over the Mongoose `Item` collection.
 *
 * The collection is a map from document id to document plus a counter that hands out
 * fresh ids. Anything the driver throws (a lost connection, a failed cast of a body
 * field) is the `fault` parameter: when it is `Some(message)` the call throws with that
 * message and changes nothing. A route parameter that is not a well-formed ObjectId is
 * `Malformed`; the cast fails before the lookup, so it also answers 500, never 404.
 */
module ItemsRoutes {
  import opened Wrappers
  import Sorting
  import opened Clock
  import opened HttpStatus

  /** A document id. ObjectIds are abstracted to numbers drawn from a counter. */
  type Id = nat

  /**
   * A request body as the schema sees it: only the schema paths survive (the schema is
   * strict), and `name` and `description` are plain strings with no validation.
   */
  datatype Body = Body(name: Option<string>, description: Option<string>, createdAt: Option<Time>)

  /** A stored document. `createdAt` always has a value: the schema default is `Date.now`. */
  datatype Item = Item(id: Id, name: Option<string>, description: Option<string>, createdAt: Time)

  /** The `:id` route parameter: either it casts to an ObjectId or it does not. */
  datatype IdParam = WellFormed(id: Id) | Malformed(text: string)

  /** The JSON bodies the handlers send. */
  datatype Reply =
    | MessageAndItem(message: string, item: Item)
    | SingleItem(item: Item)
    | ItemArray(items: seq<Item>)
    | MessageOnly(message: string)
    | ErrorMessage(error: string)

  datatype Response = Response(status: int, reply: Reply)

  const NotFoundMessage := "Item not found"

  /** The message of the error thrown when `text` does not cast to an ObjectId. */
  function CastErrorMessage(text: string): string {
    "Cast to ObjectId failed for value \"" + text + "\" (type string) at path \"_id\" for model \"Item\""
  }

  /** The answer to any thrown error: 500 with the error's message. */
  function Thrown(message: string): Response {
    Response(SERVER_ERROR, ErrorMessage(message))
  }

  /**
   * The document a save of `body` creates under `id` at time `now`: the body's fields as
   * given, with `createdAt` defaulting to `now`. Updating it with the same body changes
   * nothing.
   */
  function NewItem(id: Id, body: Body, now: Time): (it: Item)
    ensures it.id == id && it.name == body.name && it.description == body.description
    ensures body.createdAt.None? ==> it.createdAt == now
    ensures Merge(it, body) == it
  {
    Item(id, body.name, body.description, body.createdAt.GetOr(now))
  }

  /**
   * An update merges the body into the document: fields it carries replace, the others
   * stay, and the id never changes. An empty body leaves the document as it was.
   */
  function Merge(item: Item, body: Body): (m: Item)
    ensures m.id == item.id
    ensures body.name.Some? ==> m.name == body.name
    ensures body.description.Some? ==> m.description == body.description
    ensures body.createdAt.Some? ==> m.createdAt == body.createdAt.value
    ensures body.name.None? ==> m.name == item.name
    ensures body.description.None? ==> m.description == item.description
    ensures body.createdAt.None? ==> m.createdAt == item.createdAt
    ensures body == Body(None, None, None) ==> m == item
  {
    Item(item.id,
         if body.name.Some? then body.name else item.name,
         if body.description.Some? then body.description else item.description,
         body.createdAt.GetOr(item.createdAt))
  }

  /** Newest first is ascending order of the negated creation time. */
  function NewestKey(item: Item): int {
    -item.createdAt
  }

  ghost predicate NewestFirst(s: seq<Item>) {
    forall i, j :: 0 <= i < j < |s| ==> s[i].createdAt >= s[j].createdAt
  }

  /** `s` holds every stored document exactly once, ordered by `createdAt` descending. */
  ghost predicate IsNewestFirstListing(s: seq<Item>, items: map<Id, Item>) {
    multiset(s) == multiset(items.Values) && NewestFirst(s)
  }

  class ItemStore {
    var items: map<Id, Item>
    var nextId: Id

    /** Each document is filed under its own id, and every id in use is below the counter. */
    ghost predicate Valid()
      reads this
    {
      forall id :: id in items ==> items[id].id == id && id < nextId
    }

    constructor ()
      ensures Valid()
      ensures items == map[] && nextId == 0
    {
      items := map[];
      nextId := 0;
    }

    /** POST /items: save the body as a new document and answer 201 with it. */
    method Create(body: Body, now: Time, fault: Option<string>) returns (r: Response)
      requires Valid()
      modifies this
      ensures Valid()
      ensures fault.Some? ==> r == Thrown(fault.value) && items == old(items) && nextId == old(nextId)
      ensures fault.None? ==>
        && old(nextId) !in old(items)
        && items == old(items)[old(nextId) := NewItem(old(nextId), body, now)]
        && nextId == old(nextId) + 1
        && r == Response(CREATED, MessageAndItem("Item created", NewItem(old(nextId), body, now)))
    {
      if fault.Some? {
        return Thrown(fault.value);
      }
      var item := NewItem(nextId, body, now);
      items := items[nextId := item];
      nextId := nextId + 1;
      r := Response(CREATED, MessageAndItem("Item created", item));
    }

    /**
     * GET /items: every document, newest first. An empty collection answers 200 with an
     * empty array, not 404. Documents with equal `createdAt` may come in any order.
     */
    method List(fault: Option<string>) returns (r: Response)
      requires Valid()
      ensures fault.Some? ==> r == Thrown(fault.value)
      ensures fault.None? ==> r.status == OK && r.reply.ItemArray? && IsNewestFirstListing(r.reply.items, items)
    {
      if fault.Some? {
        return Thrown(fault.value);
      }
      var remaining := items.Keys;
      var found: seq<Item> := [];
      while remaining != {}
        invariant remaining <= items.Keys
        invariant multiset(found) == multiset(set k | k in items && k !in remaining :: items[k])
        decreases remaining
      {
        var id :| id in remaining;
        ghost var before := set k | k in items && k !in remaining :: items[k];
        found := found + [items[id]];
        remaining := remaining - {id};
        assert items[id] !in before;
        assert (set k | k in items && k !in remaining :: items[k]) == before + {items[id]};
      }
      assert (set k | k in items && k !in remaining :: items[k]) == items.Values;
      var sorted := Sorting.SortByKey(found, NewestKey);
      r := Response(OK, ItemArray(sorted));
    }

    /** GET /items/:id: 200 with the document, or 404 when no document has that id. */
    method Get(id: IdParam, fault: Option<string>) returns (r: Response)
      requires Valid()
      ensures id.Malformed? ==> r == Thrown(CastErrorMessage(id.text))
      ensures id.WellFormed? && fault.Some? ==> r == Thrown(fault.value)
      ensures id.WellFormed? && fault.None? && id.id in items ==> r == Response(OK, SingleItem(items[id.id]))
      ensures id.WellFormed? && fault.None? && id.id !in items ==> r == Response(NOT_FOUND, MessageOnly(NotFoundMessage))
    {
      if id.Malformed? {
        return Thrown(CastErrorMessage(id.text));
      }
      if fault.Some? {
        return Thrown(fault.value);
      }
      if id.id !in items {
        return Response(NOT_FOUND, MessageOnly(NotFoundMessage));
      }
      r := Response(OK, SingleItem(items[id.id]));
    }

    /**
     * PUT /items/:id: merge the body into the document and answer 200 with the document
     * as it is after the update; 404, with nothing changed, when no document has that id.
     */
    method Update(id: IdParam, body: Body, fault: Option<string>) returns (r: Response)
      requires Valid()
      modifies this
      ensures Valid() && nextId == old(nextId)
      ensures id.Malformed? ==> r == Thrown(CastErrorMessage(id.text)) && items == old(items)
      ensures id.WellFormed? && fault.Some? ==> r == Thrown(fault.value) && items == old(items)
      ensures id.WellFormed? && fault.None? && id.id !in old(items) ==>
        r == Response(NOT_FOUND, MessageOnly(NotFoundMessage)) && items == old(items)
      ensures id.WellFormed? && fault.None? && id.id in old(items) ==>
        && items == old(items)[id.id := Merge(old(items)[id.id], body)]
        && items[id.id].id == id.id
        && r == Response(OK, MessageAndItem("Item updated", items[id.id]))
    {
      if id.Malformed? {
        return Thrown(CastErrorMessage(id.text));
      }
      if fault.Some? {
        return Thrown(fault.value);
      }
      if id.id !in items {
        return Response(NOT_FOUND, MessageOnly(NotFoundMessage));
      }
      var updated := Merge(items[id.id], body);
      items := items[id.id := updated];
      r := Response(OK, MessageAndItem("Item updated", updated));
    }

    /**
     * DELETE /items/:id: remove the document and answer 200 with a message only (the
     * deleted document is not sent back); 404, with nothing changed, when it is absent.
     */
    method Delete(id: IdParam, fault: Option<string>) returns (r: Response)
      requires Valid()
      modifies this
      ensures Valid() && nextId == old(nextId)
      ensures id.Malformed? ==> r == Thrown(CastErrorMessage(id.text)) && items == old(items)
      ensures id.WellFormed? && fault.Some? ==> r == Thrown(fault.value) && items == old(items)
      ensures id.WellFormed? && fault.None? && id.id !in old(items) ==>
        r == Response(NOT_FOUND, MessageOnly(NotFoundMessage)) && items == old(items)
      ensures id.WellFormed? && fault.None? && id.id in old(items) ==>
        r == Response(OK, MessageOnly("Item deleted")) && items == old(items) - {id.id}
    {
      if id.Malformed? {
        return Thrown(CastErrorMessage(id.text));
      }
      if fault.Some? {
        return Thrown(fault.value);
      }
      if id.id !in items {
        return Response(NOT_FOUND, MessageOnly(NotFoundMessage));
      }
      items := items - {id.id};
      r := Response(OK, MessageOnly("Item deleted"));
    }
  }

  /**
   * Reading the list twice with no write in between gives the same array whenever no two
   * documents share a creation time; with ties the order among them is the database's.
   */
  lemma ListingIsUniqueWithoutTies(a: seq<Item>, b: seq<Item>, items: map<Id, Item>)
    requires IsNewestFirstListing(a, items) && IsNewestFirstListing(b, items)
    requires forall x, y :: x in items.Values && y in items.Values && x.createdAt == y.createdAt ==> x == y
    ensures a == b
  {
    forall x, y | x in a && y in a && NewestKey(x) == NewestKey(y) ensures x == y {
      assert x in multiset(a) && y in multiset(a);
    }
    Sorting.AscendingPermutationUnique(a, b, NewestKey);
  }

  /** The collection holding three documents with distinct ids. */
  function Three(x1: Item, x2: Item, x3: Item): (items: map<Id, Item>)
    requires x1.id != x2.id && x2.id != x3.id && x1.id != x3.id
    ensures items.Values == {x1, x2, x3}
  {
    var items := map[x1.id := x1, x2.id := x2, x3.id := x3];
    assert items[x1.id] == x1 && items[x2.id] == x2 && items[x3.id] == x3;
    items
  }

  /** Documents created at t1 < t2 < t3 are listed as [t3, t2, t1]. */
  lemma ListingOfThree(s: seq<Item>, x1: Item, x2: Item, x3: Item)
    requires x1.id != x2.id && x2.id != x3.id && x1.id != x3.id
    requires x1.createdAt < x2.createdAt < x3.createdAt
    requires IsNewestFirstListing(s, Three(x1, x2, x3))
    ensures s == [x3, x2, x1]
  {
    var items := Three(x1, x2, x3);
    var expected := [x3, x2, x1];
    assert multiset(expected) == multiset(items.Values);
    ListingIsUniqueWithoutTies(s, expected, items);
  }

  /** Create then read back: the new document is found under the id the create answered with. */
  method CreateThenGet(store: ItemStore, body: Body, now: Time) returns (created: Response, read: Response)
    requires store.Valid()
    modifies store
    ensures store.Valid()
    ensures created.status == CREATED && created.reply.MessageAndItem?
    ensures read == Response(OK, SingleItem(created.reply.item))
    ensures created.reply.item.name == body.name && created.reply.item.description == body.description
  {
    created := store.Create(body, now, None);
    read := store.Get(WellFormed(created.reply.item.id), None);
  }

  /**
   * Delete then read back: the deleted id answers 404 afterwards, and every other
   * document is still there, unchanged.
   */
  method DeleteThenGet(store: ItemStore, id: Id) returns (deleted: Response, read: Response)
    requires store.Valid()
    modifies store
    ensures store.Valid()
    ensures deleted.status == (if id in old(store.items) then OK else NOT_FOUND)
    ensures read == Response(NOT_FOUND, MessageOnly(NotFoundMessage))
    ensures forall k :: k in old(store.items) && k != id ==> k in store.items && store.items[k] == old(store.items)[k]
  {
    deleted := store.Delete(WellFormed(id), None);
    read := store.Get(WellFormed(id), None);
  }

  /** Update then read back: the read shows exactly the document the update answered with. */
  method UpdateThenGet(store: ItemStore, id: Id, body: Body) returns (updated: Response, read: Response)
    requires store.Valid()
    modifies store
    ensures store.Valid()
    ensures id in old(store.items) ==>
      && updated.status == OK && updated.reply.MessageAndItem?
      && updated.reply.item.id == id
      && read == Response(OK, SingleItem(updated.reply.item))
    ensures id !in old(store.items) ==> updated.status == NOT_FOUND && read.status == NOT_FOUND
  {
    updated := store.Update(WellFormed(id), body, None);
    read := store.Get(WellFormed(id), None);
  }
}
