/**
  Properties that relate several requests of the inventory service: what a list
  reply shows after a create or a delete, what later requests see after a delete,
  repeated seeding and updates, and the net effect of many quantity adjustments.
 */
module InventoryProperties {
  import opened ObjectIds
  import opened Items
  import opened Inventory

  /** A list reply shows every stored item, exactly as stored; with the distinct
      identities of IsListing, each one exactly once. */
  lemma {:induction false} ListingCoversTable(docs: seq<Doc>, t: Table)
    requires IsListing(docs, t)
    ensures forall k :: k in t ==> exists i :: 0 <= i < |docs| && docs[i] == ToDoc(k, t[k])
    decreases |docs|
  {
    if |docs| > 0 {
      var n := |docs| - 1;
      var last := docs[n];
      assert IsDocOf(last, t);
      var k0 := ParseId(last.id).value;
      var rest := docs[..n];
      var t' := t - {k0};
      forall i | 0 <= i < |rest| ensures IsDocOf(rest[i], t') {
        assert IsDocOf(docs[i], t);
        var k := ParseId(docs[i].id).value;
        assert docs[i].id != last.id;
        assert k != k0;
      }
      ListingCoversTable(rest, t');
      forall k | k in t ensures exists i :: 0 <= i < |docs| && docs[i] == ToDoc(k, t[k]) {
        if k == k0 {
          assert docs[n] == ToDoc(k, t[k]);
        } else {
          assert k in t';
          var i :| 0 <= i < |rest| && rest[i] == ToDoc(k, t'[k]);
          assert docs[i] == ToDoc(k, t[k]);
        }
      }
    }
  }

  /** After a successful create, a list reply shows the new item exactly once, with the
      submitted fields, under the identity text the create answered with. */
  lemma CreateThenList(t: Table, newId: Id, body: ItemBody, docs: seq<Doc>)
    requires newId !in t
    requires Added(t, newId, body).1.Created?
    requires IsListing(docs, Added(t, newId, body).0)
    ensures exists i :: 0 <= i < |docs| && docs[i] == ToDoc(newId, FromBody(body))
    ensures forall i, j :: 0 <= i < |docs| && 0 <= j < |docs| && docs[i].id == IdText(newId) && docs[j].id == IdText(newId) ==> i == j
    ensures Added(t, newId, body).1.id == IdText(newId)
  {
    ListingCoversTable(docs, Added(t, newId, body).0);
  }

  /** After a delete, no list reply names the deleted identity. */
  lemma DeleteThenList(t: Table, itemId: string, docs: seq<Doc>)
    requires Deleted(t, itemId).1 == ItemDeleted
    requires IsListing(docs, Deleted(t, itemId).0)
    ensures forall i :: 0 <= i < |docs| ==> docs[i].id != itemId
  {
  }

  /** After a delete, updating, deleting or adjusting the same identity answers 404 and
      changes nothing; an update whose quantity does not fit in 64 bits is refused first. */
  lemma DeleteThenNotFound(t: Table, itemId: string, body: ItemBody, action: string)
    requires Deleted(t, itemId).1 == ItemDeleted
    requires IsValidAction(action)
    ensures var t' := Deleted(t, itemId).0;
      && Updated(t', itemId, body) == (t', if FitsInt64(FromBody(body).quantity) then ItemNotFound else StoreRejected)
      && Deleted(t', itemId) == (t', ItemNotFound)
      && QuantityAdjusted(t', itemId, action) == (t', ItemNotFound)
  {
  }

  /** An identity that parses but names no stored item: update, delete and a valid
      quantity adjustment all answer 404 and leave the table as it was (an update whose
      quantity does not fit in 64 bits is refused before the lookup). */
  lemma MissingIdIsNotFound(t: Table, itemId: string, body: ItemBody, action: string)
    requires ParseId(itemId).Some? && ParseId(itemId).value !in t
    requires IsValidAction(action)
    ensures Updated(t, itemId, body) == (t, if FitsInt64(FromBody(body).quantity) then ItemNotFound else StoreRejected)
    ensures Deleted(t, itemId) == (t, ItemNotFound)
    ensures QuantityAdjusted(t, itemId, action) == (t, ItemNotFound)
  {
  }

  /** Sending the same update twice leaves the table, and the reply, as sending it once. */
  lemma UpdateIdempotent(t: Table, itemId: string, body: ItemBody)
    ensures var once := Updated(t, itemId, body);
      Updated(once.0, itemId, body) == once
  {
    if Locate(t, itemId).Found? && FitsInt64(FromBody(body).quantity) {
      var k := Locate(t, itemId).key;
      var once := Updated(t, itemId, body);
      ParseIdText(k);
      assert Locate(once.0, itemId) == Found(k);
      assert once.0[k := FromBody(body)] == once.0;
    }
  }

  /** A second startup after a seeded one inserts nothing. */
  lemma SeedOnce(t: Table, first: Id, second: Id)
    ensures Seeded(Seeded(t, first), second) == Seeded(t, first)
  {
  }

  /** The table after `n` identical quantity requests on one identity. */
  function Adjusted(t: Table, itemId: string, action: string, n: nat): Table
    decreases n
  {
    if n == 0 then t else QuantityAdjusted(Adjusted(t, itemId, action, n - 1), itemId, action).0
  }

  /** `n` adds raise a stored item's quantity by `n`, `n` removes lower it by `n`, as long
      as the end value fits in 64 bits; nothing else in the table changes. */
  lemma {:induction false} AdjustedRepeatedly(t: Table, itemId: string, action: string, n: nat)
    requires IsValidAction(action)
    requires Locate(t, itemId).Found?
    requires FitsInt64(t[Locate(t, itemId).key].quantity)
    requires FitsInt64(t[Locate(t, itemId).key].quantity + n * Step(action))
    ensures var k := Locate(t, itemId).key;
      var r := Adjusted(t, itemId, action, n);
      && r.Keys == t.Keys
      && r[k] == t[k].(quantity := t[k].quantity + n * Step(action))
      && forall j :: j in t && j != k ==> r[j] == t[j]
    decreases n
  {
    if n > 0 {
      var k := Locate(t, itemId).key;
      assert FitsInt64(t[k].quantity + (n - 1) * Step(action));
      AdjustedRepeatedly(t, itemId, action, n - 1);
      var prev := Adjusted(t, itemId, action, n - 1);
      assert Locate(prev, itemId) == Found(k);
      var r := QuantityAdjusted(prev, itemId, action);
      assert r.1 == QuantityUpdated;
      forall j | j in t && j != k ensures r.0[j] == t[j] {
        IdTextInjective(j, k);
      }
    }
  }

  /** Starting from quantity Q, N adds followed by M removes leave quantity Q + N - M,
      with no floor at zero on the way, as long as Q + N and Q + N - M fit in 64 bits. */
  lemma AddsThenRemoves(t: Table, itemId: string, n: nat, m: nat)
    requires Locate(t, itemId).Found?
    requires FitsInt64(t[Locate(t, itemId).key].quantity)
    requires FitsInt64(t[Locate(t, itemId).key].quantity + n)
    requires FitsInt64(t[Locate(t, itemId).key].quantity + n - m)
    ensures var k := Locate(t, itemId).key;
      var r := Adjusted(Adjusted(t, itemId, "add", n), itemId, "remove", m);
      && r.Keys == t.Keys
      && r[k] == t[k].(quantity := t[k].quantity + n - m)
      && forall j :: j in t && j != k ==> r[j] == t[j]
  {
    var k := Locate(t, itemId).key;
    AdjustedRepeatedly(t, itemId, "add", n);
    var mid := Adjusted(t, itemId, "add", n);
    assert Locate(mid, itemId) == Found(k);
    AdjustedRepeatedly(mid, itemId, "remove", m);
  }

  /** At the 64-bit limits a step is refused and the table stays as it was: one more add
      on the largest quantity, one more remove on the smallest. */
  lemma StepPastLimitRejected(t: Table, itemId: string)
    requires Locate(t, itemId).Found?
    ensures t[Locate(t, itemId).key].quantity == Int64Max ==>
      QuantityAdjusted(t, itemId, "add") == (t, StoreRejected)
    ensures t[Locate(t, itemId).key].quantity == Int64Min ==>
      QuantityAdjusted(t, itemId, "remove") == (t, StoreRejected)
  {
  }
}
