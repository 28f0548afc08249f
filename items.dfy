/**
  The inventory item: the request body the create and update routes accept, the
  stored item, the seed items, and the document the list route returns.
 */
module Items {
  import opened Wrappers
  import opened ObjectIds

  /** The store keeps an integer in at most 64 bits, two's complement. */
  const Int64Min: int := -0x8000_0000_0000_0000
  const Int64Max: int := 0x7FFF_FFFF_FFFF_FFFF

  predicate FitsInt64(n: int) {
    Int64Min <= n <= Int64Max
  }

  /** A stored item. `price` is carried, never computed with. */
  datatype Item = Item(name: string, price: real, quantity: int)

  /** The body of a create or update request; `quantity` may be absent. */
  datatype ItemBody = ItemBody(name: string, price: real, quantity: Option<int>)

  /** The request model's defaults: an absent quantity is 0. */
  function FromBody(body: ItemBody): (it: Item)
    ensures it.name == body.name && it.price == body.price
    ensures body.quantity.None? ==> it.quantity == 0
    ensures body.quantity.Some? ==> it.quantity == body.quantity.value
  {
    Item(body.name, body.price, match body.quantity case Some(q) => q case None => 0)
  }

  /** The three items the startup seed inserts into an empty store, in insertion order. */
  const SeedItems: seq<Item> := [
    Item("Carrot", 1.5, 10),
    Item("Broccoli", 2.0, 5),
    Item("Tomato", 1.2, 15)
  ]

  /** A listed item: the stored fields plus its identity rendered as text.
      `id` is the document's `_id` field, overwritten with its text form. */
  datatype Doc = Doc(id: string, name: string, price: real, quantity: int)

  function ToDoc(id: Id, it: Item): Doc {
    Doc(IdText(id), it.name, it.price, it.quantity)
  }
}
