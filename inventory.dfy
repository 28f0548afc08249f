/**
  The item inventory service: the startup seed and the five request handlers over
  one store of items keyed by store-assigned identities.

  The store is an in-memory table `map<Id, Item>` together with a fresh-identity
  source (a counter past every identity in use). Each handler is specified by a
  function from the table before the request to the table after it and the reply,
  and the `Store` class runs the handlers one request at a time against its table.
 */
module Inventory {
  import opened Wrappers
  import opened ObjectIds
  import opened Items

  type Table = map<Id, Item>

  /** What a handler answers: the new item's identity text, a success message, an HTTP
      error, or one of two errors no handler catches: the identity parser's, and the
      store's refusal of a quantity that does not fit in 64 bits. */
  datatype Reply =
    | Created(id: string)
    | Message(text: string)
    | HttpError(status: nat, detail: string)
    | InvalidObjectId
    | StoreRejected

  const ItemNotFound: Reply := HttpError(404, "Item not found")
  const InvalidAction: Reply := HttpError(400, "Invalid action")
  const ItemUpdated: Reply := Message("Item updated")
  const ItemDeleted: Reply := Message("Item deleted")
  const QuantityUpdated: Reply := Message("Quantity updated")

  /** Where a path identity points: not an identity at all, no stored item, or a stored item. */
  datatype Target = Malformed | Missing | Found(key: Id)

  function Locate(t: Table, itemId: string): (r: Target)
    ensures r == Malformed <==> ParseId(itemId) == None
    ensures r == Missing <==> ParseId(itemId).Some? && ParseId(itemId).value !in t
    ensures r.Found? ==> r.key in t && IdText(r.key) == itemId
  {
    match ParseId(itemId)
    case None => Malformed
    case Some(k) =>
      ParseIdInverse(itemId, k);
      if k in t then Found(k) else Missing
  }

  /** Startup seed: the three seed items under fresh identities when the table is empty. */
  function Seeded(t: Table, newId: Id): (r: Table)
    ensures |t| > 0 ==> r == t
    ensures |t| == 0 ==> |r| == |SeedItems|
    ensures |t| == 0 ==> forall i :: 0 <= i < |SeedItems| ==> newId + i in r && r[newId + i] == SeedItems[i]
  {
    if |t| == 0 then
      var r := map[newId := SeedItems[0], newId + 1 := SeedItems[1], newId + 2 := SeedItems[2]];
      assert r.Keys == {newId, newId + 1, newId + 2};
      r
    else t
  }

  /** Create: the body, with its defaults applied, stored under the fresh identity,
      unless its quantity does not fit in 64 bits, which the store refuses. */
  function Added(t: Table, newId: Id, body: ItemBody): (r: (Table, Reply))
    requires newId !in t
    ensures r.1 == Created(IdText(newId)) <==> FitsInt64(FromBody(body).quantity)
    ensures r.1 != Created(IdText(newId)) ==> r == (t, StoreRejected)
    ensures r.1.Created? ==> r.0.Keys == t.Keys + {newId} && |r.0| == |t| + 1
    ensures r.1.Created? ==> r.0[newId].name == body.name && r.0[newId].price == body.price
    ensures r.1.Created? ==> r.0[newId].quantity == (if body.quantity.Some? then body.quantity.value else 0)
    ensures forall k :: k in t ==> k in r.0 && r.0[k] == t[k]
  {
    var it := FromBody(body);
    if FitsInt64(it.quantity) then (t[newId := it], Created(IdText(newId))) else (t, StoreRejected)
  }

  /** Update: every field of the targeted item is replaced by the body's, defaults applied.
      The path identity is parsed first; a quantity that does not fit in 64 bits is then
      refused before the store looks for the item. */
  function Updated(t: Table, itemId: string, body: ItemBody): (r: (Table, Reply))
    ensures r.0.Keys == t.Keys
    ensures forall k :: k in t && IdText(k) != itemId ==> r.0[k] == t[k]
    ensures r.1 == InvalidObjectId <==> Locate(t, itemId) == Malformed
    ensures r.1 == StoreRejected <==> Locate(t, itemId) != Malformed && !FitsInt64(FromBody(body).quantity)
    ensures r.1 == ItemNotFound <==> Locate(t, itemId) == Missing && FitsInt64(FromBody(body).quantity)
    ensures r.1 == ItemUpdated <==> Locate(t, itemId).Found? && FitsInt64(FromBody(body).quantity)
    ensures r.1 == ItemUpdated ==> r.0[Locate(t, itemId).key] == FromBody(body)
    ensures r.1 != ItemUpdated ==> r.0 == t
  {
    var it := FromBody(body);
    var target := Locate(t, itemId);
    if target == Malformed then (t, InvalidObjectId)
    else if !FitsInt64(it.quantity) then (t, StoreRejected)
    else if target == Missing then (t, ItemNotFound)
    else (t[target.key := it], ItemUpdated)
  }

  /** Delete: the targeted item leaves the table. */
  function Deleted(t: Table, itemId: string): (r: (Table, Reply))
    ensures r.0.Keys <= t.Keys
    ensures forall k :: k in t && IdText(k) != itemId ==> k in r.0 && r.0[k] == t[k]
    ensures r.1 == ItemDeleted <==> Locate(t, itemId).Found?
    ensures r.1 == ItemNotFound <==> Locate(t, itemId) == Missing
    ensures r.1 == InvalidObjectId <==> Locate(t, itemId) == Malformed
    ensures r.1 == ItemDeleted ==> |r.0| == |t| - 1 && Locate(t, itemId).key !in r.0
    ensures r.1 != ItemDeleted ==> r.0 == t
  {
    match Locate(t, itemId)
    case Malformed => (t, InvalidObjectId)
    case Missing => (t, ItemNotFound)
    case Found(k) => (t - {k}, ItemDeleted)
  }

  predicate IsValidAction(action: string) {
    action == "add" || action == "remove"
  }

  /** The quantity step of a valid action: +1 for "add", -1 for "remove". */
  function Step(action: string): int {
    if action == "add" then 1 else -1
  }

  /** Quantity adjust: the action is checked first, then the targeted item's quantity
      moves by one step, with no floor at zero; the store refuses a step past 64 bits. */
  function QuantityAdjusted(t: Table, itemId: string, action: string): (r: (Table, Reply))
    ensures r.0.Keys == t.Keys
    ensures forall k :: k in t && IdText(k) != itemId ==> r.0[k] == t[k]
    ensures !IsValidAction(action) ==> r == (t, InvalidAction)
    ensures IsValidAction(action) ==> (r.1 == InvalidObjectId <==> Locate(t, itemId) == Malformed)
    ensures IsValidAction(action) ==> (r.1 == ItemNotFound <==> Locate(t, itemId) == Missing)
    ensures IsValidAction(action) ==>
      (r.1 == StoreRejected <==>
        Locate(t, itemId).Found? && !FitsInt64(t[Locate(t, itemId).key].quantity + Step(action)))
    ensures IsValidAction(action) ==>
      (r.1 == QuantityUpdated <==>
        Locate(t, itemId).Found? && FitsInt64(t[Locate(t, itemId).key].quantity + Step(action)))
    ensures r.1 == QuantityUpdated ==>
      var k := Locate(t, itemId).key;
      && r.0[k].name == t[k].name && r.0[k].price == t[k].price
      && r.0[k].quantity == t[k].quantity + Step(action)
    ensures r.1 != QuantityUpdated ==> r.0 == t
  {
    if !IsValidAction(action) then (t, InvalidAction)
    else
      var inc := Step(action);
      match Locate(t, itemId)
      case Malformed => (t, InvalidObjectId)
      case Missing => (t, ItemNotFound)
      case Found(k) =>
        if FitsInt64(t[k].quantity + inc) then (t[k := t[k].(quantity := t[k].quantity + inc)], QuantityUpdated)
        else (t, StoreRejected)
  }

  /** A listed document names a stored item by its identity text and carries that item's fields. */
  predicate IsDocOf(d: Doc, t: Table) {
    match ParseId(d.id)
    case None => false
    case Some(k) => k in t && d == ToDoc(k, t[k])
  }

  /** A list reply: as many documents as stored items, each naming a stored item, no identity twice. */
  predicate IsListing(docs: seq<Doc>, t: Table) {
    && |docs| == |t|
    && (forall i :: 0 <= i < |docs| ==> IsDocOf(docs[i], t))
    && (forall i, j :: 0 <= i < j < |docs| ==> docs[i].id != docs[j].id)
  }

  /** The store the handlers share, with its fresh-identity source. */
  class Store {
    var items: Table
    var nextId: Id

    /** Every stored identity was handed out before, so `nextId` is fresh, and every
        stored quantity fits in 64 bits. */
    ghost predicate Valid()
      reads this
    {
      forall k :: k in items ==> k < nextId && FitsInt64(items[k].quantity)
    }

    /** A store holding what was persisted before startup, its identity source past all of it. */
    constructor (persisted: Table, firstFresh: Id)
      requires forall k :: k in persisted ==> k < firstFresh && FitsInt64(persisted[k].quantity)
      ensures Valid()
      ensures items == persisted && nextId == firstFresh
    {
      items := persisted;
      nextId := firstFresh;
    }

    /** The store's single-document insert: the item under a fresh identity. */
    method InsertOne(it: Item) returns (id: Id)
      requires Valid()
      requires FitsInt64(it.quantity)
      modifies this
      ensures Valid()
      ensures id == old(nextId) && id !in old(items)
      ensures items == old(items)[id := it] && nextId == old(nextId) + 1
    {
      id := nextId;
      items := items[id := it];
      nextId := nextId + 1;
    }

    /** Startup: the seed items are inserted only when the store holds no item at all. */
    method SeedData()
      requires Valid()
      modifies this
      ensures Valid()
      ensures items == Seeded(old(items), old(nextId))
      ensures |old(items)| > 0 ==> nextId == old(nextId)
    {
      if |items| == 0 {
        var carrot := InsertOne(SeedItems[0]);
        var broccoli := InsertOne(SeedItems[1]);
        var tomato := InsertOne(SeedItems[2]);
      }
    }

    /** List: every stored item, its identity rendered as text, built one document at a time. */
    method GetItems() returns (docs: seq<Doc>)
      ensures IsListing(docs, items)
    {
      docs := [];
      var pending := items.Keys;
      ghost var listed: set<Id> := {};
      while pending != {}
        invariant pending <= items.Keys
        invariant listed == items.Keys - pending
        invariant |docs| == |listed|
        invariant forall i :: 0 <= i < |docs| ==> IsDocOf(docs[i], items) && ParseId(docs[i].id).value in listed
        invariant forall i, j :: 0 <= i < j < |docs| ==> docs[i].id != docs[j].id
        decreases pending
      {
        var k :| k in pending;
        ParseIdText(k);
        docs := docs + [ToDoc(k, items[k])];
        pending := pending - {k};
        listed := listed + {k};
      }
      assert listed == items.Keys;
    }

    /** Create: stores the body under a fresh identity and answers with that identity's text. */
    method AddItem(body: ItemBody) returns (reply: Reply)
      requires Valid()
      modifies this
      ensures Valid()
      ensures old(nextId) !in old(items)
      ensures (items, reply) == Added(old(items), old(nextId), body)
      ensures reply.Created? ==> ParseId(reply.id) == Some(old(nextId))
    {
      var it := FromBody(body);
      if !FitsInt64(it.quantity) {
        return StoreRejected;
      }
      var key := InsertOne(it);
      reply := Created(IdText(key));
      ParseIdText(key);
    }

    /** Update: replaces name, price and quantity of the item the path names. */
    method UpdateItem(itemId: string, body: ItemBody) returns (reply: Reply)
      requires Valid()
      modifies this
      ensures Valid() && nextId == old(nextId)
      ensures (items, reply) == Updated(old(items), itemId, body)
    {
      var key := ParseId(itemId);
      if key.None? {
        return InvalidObjectId;
      }
      var it := FromBody(body);
      if !FitsInt64(it.quantity) {
        return StoreRejected;
      }
      if key.value !in items {
        return ItemNotFound;
      }
      items := items[key.value := it];
      reply := ItemUpdated;
    }

    /** Delete: removes the item the path names. */
    method DeleteItem(itemId: string) returns (reply: Reply)
      requires Valid()
      modifies this
      ensures Valid() && nextId == old(nextId)
      ensures (items, reply) == Deleted(old(items), itemId)
    {
      var key := ParseId(itemId);
      if key.None? {
        return InvalidObjectId;
      }
      if key.value !in items {
        return ItemNotFound;
      }
      items := items - {key.value};
      reply := ItemDeleted;
    }

    /** Quantity adjust: rejects an unknown action before the identity is even parsed. */
    method UpdateQuantity(itemId: string, action: string) returns (reply: Reply)
      requires Valid()
      modifies this
      ensures Valid() && nextId == old(nextId)
      ensures (items, reply) == QuantityAdjusted(old(items), itemId, action)
    {
      if !IsValidAction(action) {
        return InvalidAction;
      }
      var inc := Step(action);
      var key := ParseId(itemId);
      if key.None? {
        return InvalidObjectId;
      }
      if key.value !in items {
        return ItemNotFound;
      }
      var it := items[key.value];
      if !FitsInt64(it.quantity + inc) {
        return StoreRejected;
      }
      items := items[key.value := it.(quantity := it.quantity + inc)];
      reply := QuantityUpdated;
    }
  }
}
