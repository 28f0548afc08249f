# Grocery inventory service — a Dafny model of its request handlers

The backend of this grocery inventory keeps one collection of items, each with a
`name`, a `price` and an integer `quantity`, keyed by an identity the store assigns.
A startup hook seeds three items into an empty collection, and five HTTP handlers
list, create, update and delete items and move one item's quantity up or down by one.

This project models those handlers as a state machine over an in-memory store:

- `wrappers.dfy` — `Option`.
- `object_ids.dfy` (module `ObjectIds`) — identities, their text form (`IdText`, the
  handlers' `str(...)` of an identity) and the parser that turns a path segment back into
  an identity (`ParseId`). The two are proved inverse to each other.
- `items.dfy` (module `Items`) — the stored `Item`, the request body `ItemBody` whose
  `quantity` may be absent and then defaults to 0, the three seed items, and the listed
  document `Doc` whose identity is text.
- `inventory.dfy` (module `Inventory`) — one specification function per handler, from
  the table before a request to the table after it and the reply, and the class `Store`
  holding the table (`items: map<Id, Item>`) and the fresh-identity source (`nextId`). Its
  methods run the handlers in place; each one's `ensures` ties the new table and the
  reply to the specification function. `GetItems` builds the list reply one document at
  a time in a loop, as the handler does, and is proved to return every stored item
  exactly once.
- `inventory_properties.dfy` (module `InventoryProperties`) — properties that span
  several requests: create-then-list, delete-then-list, delete-then-404, update
  idempotence, seeding only once, and the net effect of N adds and M removes.

Behaviour worth knowing, all stated in the contracts:

- The quantity route checks `action` before it parses the identity, so an unknown action
  answers 400 even for a path identity that is malformed or names no item.
- `remove` has no floor: quantity 0 becomes -1.
- Update replaces all three fields with the body's. A body without `quantity` therefore
  resets the stored quantity to 0, since the request model defaults it.
- A path identity that does not parse is not answered with 404. The parser's error
  escapes the handler, and the model reports it as the reply `InvalidObjectId`.
- Seeding looks only at whether the store is empty: one stored item is enough to skip it.
- The store keeps `quantity` as an integer of at most 64 bits. A create or update whose
  quantity does not fit, and an add or remove that would step past the limit, are refused
  by the store; that error escapes the handler too, and the model reports it as the reply
  `StoreRejected` with the table unchanged. An update checks the identity's form first,
  then the quantity, and only then looks the item up.

## Model

| member | source | states |
|---|---|---|
| `ObjectIds.ParseIdInverse` | backend/main.py:55 | a text parses to identity `id` exactly when it is the text form of `id`, so the ids handed out by list and create address the same items on the update, delete and quantity routes |
| `ObjectIds.IdTextInjective` | backend/main.py:44 | two distinct identities never render to the same text |
| `ObjectIds.TextOfValue` | backend/main.py:55 | every text the parser accepts is the rendering of the identity it parses to |
| `ObjectIds.ValueOfText` | backend/main.py:44 | reading back an identity's rendering gives that identity |
| `Items.FromBody` | backend/main.py:24-27 | the stored item carries the body's name and price; an absent quantity becomes 0, a given one is kept |
| `Inventory.Locate` | backend/main.py:55-57 | a path identity is malformed exactly when it does not parse, missing exactly when it parses to an identity not in the table, and otherwise names a stored item whose text it is |
| `Inventory.Seeded` | backend/main.py:31-38 | a non-empty table is returned unchanged; an empty one gets exactly the three seed items (Carrot 1.5/10, Broccoli 2.0/5, Tomato 1.2/15) under consecutive fresh identities |
| `Inventory.Added` | backend/main.py:48-51 | create answers with the fresh identity's text iff the quantity fits in 64 bits, and then adds exactly one entry under that identity holding the body's fields with quantity defaulting to 0; otherwise the store refuses and the table is unchanged; every existing entry is kept |
| `Inventory.Updated` | backend/main.py:53-58 | update gives the parser's error iff the identity does not parse; otherwise the store's refusal iff the quantity does not fit in 64 bits; otherwise 404 iff the identity is not stored, and "Item updated" iff it is, with all three fields replaced; every other entry and the key set are unchanged, and the table is untouched on every error |
| `Inventory.Deleted` | backend/main.py:60-65 | delete answers "Item deleted" iff the identity names a stored item and then removes exactly that entry; 404 iff it parses but is not stored; the table is untouched on every error |
| `Inventory.QuantityAdjusted` | backend/main.py:67-75 | an action other than "add" or "remove" answers 400 with the table untouched whatever the identity; otherwise the parser's error iff the identity does not parse, 404 iff it is not stored, the store's refusal iff the step would leave 64 bits, and else the item's quantity moves by +1 or -1 with no floor at zero; its name and price and every other entry are kept, and every error leaves the table untouched |
| `Inventory.Store.constructor` | backend/main.py:22 | the store starts with the persisted table, whose quantities fit in 64 bits, and an identity source past every stored identity |
| `Inventory.Store.InsertOne` | backend/main.py:50 | an insert of an item whose quantity fits in 64 bits stores it under the source's next identity, which was not in use, and advances the source |
| `Inventory.Store.SeedData` | backend/main.py:30-38 | the startup hook leaves the table as `Seeded` of the old table and does not consume identities when it skips |
| `Inventory.Store.GetItems` | backend/main.py:40-46 | the list reply holds as many documents as stored items, each naming a stored item by its identity text with that item's fields, no identity twice; the table is not modified |
| `Inventory.Store.AddItem` | backend/main.py:48-51 | the new table and the reply are those of `Added` under a previously unused identity, and the identity text of a successful reply parses to that identity |
| `Inventory.Store.UpdateItem` | backend/main.py:53-58 | the new table and the reply are those of `Updated`; the identity source is untouched |
| `Inventory.Store.DeleteItem` | backend/main.py:60-65 | the new table and the reply are those of `Deleted`; the identity source is untouched |
| `Inventory.Store.UpdateQuantity` | backend/main.py:67-75 | the new table and the reply are those of `QuantityAdjusted`, the action being checked before the identity is parsed |
| `InventoryProperties.ListingCoversTable` | backend/main.py:40-46 | every stored item appears in any list reply, with exactly its stored fields; with the distinct identities of a list reply, each appears exactly once |
| `InventoryProperties.CreateThenList` | backend/main.py:40-51 | after a successful create, every list reply shows the new item with the submitted fields, under exactly one document whose identity text is the one the create answered with |
| `InventoryProperties.DeleteThenList` | backend/main.py:40-65 | after a successful delete, no list reply names the deleted identity |
| `InventoryProperties.DeleteThenNotFound` | backend/main.py:53-75 | after a successful delete, update, delete and a valid quantity request on the same identity answer 404 and change nothing (an update whose quantity does not fit in 64 bits is refused by the store instead) |
| `InventoryProperties.MissingIdIsNotFound` | backend/main.py:53-75 | an identity that parses but is not stored makes update, delete and a valid quantity request answer 404 with the table unchanged (an update whose quantity does not fit in 64 bits is refused by the store instead) |
| `InventoryProperties.UpdateIdempotent` | backend/main.py:53-58 | sending the same update twice gives the same table and reply as sending it once |
| `InventoryProperties.SeedOnce` | backend/main.py:31-32 | a second startup after a seeded one changes nothing |
| `InventoryProperties.AdjustedRepeatedly` | backend/main.py:71-72 | n identical valid quantity requests on a stored item move its quantity by n in the action's direction, when the end value fits in 64 bits, and change nothing else |
| `InventoryProperties.AddsThenRemoves` | backend/main.py:71-72 | from quantity Q, N adds followed by M removes leave Q + N - M, name, price and all other entries unchanged, when Q + N and Q + N - M fit in 64 bits |
| `InventoryProperties.StepPastLimitRejected` | backend/main.py:72-75 | an add on the largest 64-bit quantity and a remove on the smallest are refused by the store, leaving the table unchanged |

## Left out

- The connection to the store (the client is opened once from `MONGO_URI`; there is no retry), the CORS middleware and the server launch: framework and I/O set-up, with no logic of the handlers in them.
- Store failures other than the 64-bit refusal (an unreachable store, a failed write): the in-memory store never fails otherwise, so the framework's 500 for them is not modelled.
- Identity format: an identity is a natural number, its text form a lowercase hexadecimal numeral without leading zeros, and the parser accepts exactly those numerals. The store's real identities are 12-byte values written as exactly 24 hexadecimal digits, which the real parser also accepts in upper case.
- Identity generation: the store's generator is modelled as a counter past every identity in use; only the freshness it guarantees is relied on.
- The parser's error for a malformed path identity and the store's 64-bit refusal are kept as their own replies, `InvalidObjectId` and `StoreRejected`; the framework's turning of these uncaught exceptions into a 500 response is not modelled.
- Request validation by the request model (422 for a body of the wrong shape): library behaviour. Bodies reach the handlers already well formed.
- `price` is a floating-point number in the source; it is carried as a `real`, since no handler computes with it.
- List order: the store's default order. `GetItems` picks stored items in an unspecified order and promises only "each item exactly once".
- Concurrency: the handlers are asynchronous and the store applies `$inc` atomically; the model runs requests one at a time.
- The React front end: presentation and HTTP calls to the routes above.
- AddsThenRemoves, AdjustedRepeatedly: stated only for runs that stay within 64 bits; a run that crosses the limit is refused at its first step past it (`StepPastLimitRejected`, `QuantityAdjusted`), and the net count of such a run is not stated.
