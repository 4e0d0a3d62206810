/**
  The bulk updates the handlers make to the cart and ownership tables, as
  functions on the tables, and how each one changes every user's view of them.
 */
module Ledger {
  import opened Tables

  /** The cart table after deleting every row of `user` (the bulk delete of clear_cart). */
  function WithoutUser(cart: seq<CartItem>, user: UserId): (r: seq<CartItem>)
    ensures |r| <= |cart|
    ensures forall it :: it in r <==> it in cart && it.user != user
  {
    if cart == [] then []
    else
      var last := cart[|cart| - 1];
      assert cart == cart[..|cart| - 1] + [last];
      WithoutUser(cart[..|cart| - 1], user) + (if last.user != user then [last] else [])
  }

  /** The cart table after deleting the rows whose primary key is in `ids`. */
  function DeleteRows(cart: seq<CartItem>, ids: seq<ItemId>): (r: seq<CartItem>)
    ensures |r| <= |cart|
    ensures forall it :: it in r <==> it in cart && it.id !in ids
  {
    if cart == [] then []
    else
      var last := cart[|cart| - 1];
      assert cart == cart[..|cart| - 1] + [last];
      DeleteRows(cart[..|cart| - 1], ids) + (if last.id !in ids then [last] else [])
  }

  /** The rows among `items` whose card the catalog holds (`present`) or lacks (`!present`). */
  function ByPresence(catalog: seq<Card>, items: seq<CartItem>, present: bool): (r: seq<CartItem>)
    ensures |r| <= |items|
    ensures forall it :: it in r <==> it in items && Present(catalog, it.card) == present
  {
    if items == [] then []
    else
      var last := items[|items| - 1];
      assert items == items[..|items| - 1] + [last];
      ByPresence(catalog, items[..|items| - 1], present)
        + (if Present(catalog, last.card) == present then [last] else [])
  }

  /** Filtering one more row keeps it exactly when its card's presence matches. */
  lemma ByPresenceSnoc(catalog: seq<Card>, items: seq<CartItem>, item: CartItem, present: bool)
    ensures Present(catalog, item.card) == present ==>
      ByPresence(catalog, items + [item], present) == ByPresence(catalog, items, present) + [item]
    ensures Present(catalog, item.card) != present ==>
      ByPresence(catalog, items + [item], present) == ByPresence(catalog, items, present)
  {
    assert (items + [item])[..|items|] == items;
  }

  /** The staged rows a purchase converts: those whose card still exists. */
  function Bought(catalog: seq<Card>, items: seq<CartItem>): seq<CartItem> {
    ByPresence(catalog, items, true)
  }

  /** The staged rows a purchase leaves behind: those whose card is gone. */
  function Stranded(catalog: seq<Card>, items: seq<CartItem>): seq<CartItem> {
    ByPresence(catalog, items, false)
  }

  /** The row ids of some cart rows, in the same order. */
  function ItemIds(items: seq<CartItem>): (r: seq<ItemId>)
    ensures |r| == |items|
  {
    if items == [] then []
    else ItemIds(items[..|items| - 1]) + [items[|items| - 1].id]
  }

  /** The ownership rows a purchase by `user` creates for the converted rows, in order. */
  function Grants(user: UserId, items: seq<CartItem>): (r: seq<Ownership>)
    ensures |r| == |items|
  {
    if items == [] then []
    else Grants(user, items[..|items| - 1]) + [Ownership(user, items[|items| - 1].card)]
  }

  /** The k-th id is the k-th row's id, and the k-th granted ownership row
      gives `user` the k-th row's card. */
  lemma {:induction false} GrantsExact(user: UserId, items: seq<CartItem>)
    ensures forall k :: 0 <= k < |items| ==> ItemIds(items)[k] == items[k].id
    ensures forall k :: 0 <= k < |items| ==> Grants(user, items)[k] == Ownership(user, items[k].card)
  {
    if items != [] {
      var init := items[..|items| - 1];
      GrantsExact(user, init);
      assert forall k :: 0 <= k < |init| ==> items[k] == init[k];
    }
  }

  /** The ids and the granted ownership rows grow by one with each converted row. */
  lemma GrantsSnoc(user: UserId, items: seq<CartItem>, item: CartItem)
    ensures Grants(user, items + [item]) == Grants(user, items) + [Ownership(user, item.card)]
    ensures ItemIds(items + [item]) == ItemIds(items) + [item.id]
  {
    assert (items + [item])[..|items|] == items;
  }

  /** The cart table after a purchase by `user`: that user's rows whose card
      exists are gone; every other row stays, in order. */
  function Unbought(cart: seq<CartItem>, user: UserId, catalog: seq<Card>): (r: seq<CartItem>)
    ensures |r| <= |cart|
    ensures forall it :: it in r <==> it in cart && !(it.user == user && Present(catalog, it.card))
  {
    if cart == [] then []
    else
      var last := cart[|cart| - 1];
      assert cart == cart[..|cart| - 1] + [last];
      Unbought(cart[..|cart| - 1], user, catalog)
        + (if last.user == user && Present(catalog, last.card) then [] else [last])
  }

  /** Clearing a cart empties that user's cart and leaves every other user's cart as it was. */
  lemma {:induction false} CartOfWithoutUser(cart: seq<CartItem>, user: UserId, other: UserId)
    ensures CartOf(WithoutUser(cart, user), other) == if other == user then [] else CartOf(cart, other)
  {
    if cart != [] {
      var init, last := cart[..|cart| - 1], cart[|cart| - 1];
      assert cart == init + [last];
      CartOfWithoutUser(init, user, other);
      CartOfSnoc(init, last, other);
      var rest := WithoutUser(init, user);
      if last.user != user {
        assert WithoutUser(cart, user) == rest + [last];
        CartOfSnoc(rest, last, other);
      } else {
        assert WithoutUser(cart, user) == rest;
      }
    }
  }

  /** Clearing a cart that holds nothing of `user` changes nothing. */
  lemma {:induction false} ClearEmptyIsNoop(cart: seq<CartItem>, user: UserId)
    requires CartOf(cart, user) == []
    ensures WithoutUser(cart, user) == cart
  {
    if cart != [] {
      var init, last := cart[..|cart| - 1], cart[|cart| - 1];
      assert cart == init + [last];
      CartOfAppend(init, [last], user);
      ClearEmptyIsNoop(init, user);
      assert WithoutUser(cart, user) == WithoutUser(init, user) + [last];
    }
  }

  /** Clearing twice is clearing once. */
  lemma ClearIdempotent(cart: seq<CartItem>, user: UserId)
    ensures WithoutUser(WithoutUser(cart, user), user) == WithoutUser(cart, user)
  {
    CartOfWithoutUser(cart, user, user);
    ClearEmptyIsNoop(WithoutUser(cart, user), user);
  }

  /** Deleting rows keeps the table keyed and adds no row id. */
  lemma DeleteRowsFresh(cart: seq<CartItem>, ids: seq<ItemId>, next: ItemId)
    requires Numbered(cart, next)
    ensures Numbered(DeleteRows(cart, ids), next)
  {
  }

  /** Deleting one row keeps every id naming one row and below `next`. */
  lemma DeleteAtFresh(cart: seq<CartItem>, k: nat, next: ItemId)
    requires k < |cart|
    requires Numbered(cart, next)
    ensures Numbered(cart[..k] + cart[k + 1..], next)
  {
    assert forall it :: it in cart[..k] + cart[k + 1..] ==> it in cart;
  }

  /** Deleting no primary key changes nothing. */
  lemma {:induction false} DeleteNoRows(cart: seq<CartItem>)
    ensures DeleteRows(cart, []) == cart
  {
    if cart != [] {
      DeleteNoRows(cart[..|cart| - 1]);
      assert cart == cart[..|cart| - 1] + [cart[|cart| - 1]];
    }
  }

  /** Deleting one more primary key extends the set of deleted keys. */
  lemma {:induction false} DeleteRowsStep(cart: seq<CartItem>, ids: seq<ItemId>, id: ItemId)
    ensures DeleteRows(DeleteRows(cart, ids), [id]) == DeleteRows(cart, ids + [id])
  {
    if cart != [] {
      var init, last := cart[..|cart| - 1], cart[|cart| - 1];
      DeleteRowsStep(init, ids, id);
      var kept := DeleteRows(init, ids);
      if last.id !in ids {
        assert DeleteRows(cart, ids) == kept + [last];
        assert (kept + [last])[..|kept + [last]| - 1] == kept;
      } else {
        assert DeleteRows(cart, ids) == kept;
      }
    }
  }

  /** Deleting by primary key the rows named by `ids` is the purchase filter,
      whenever `ids` names exactly the rows of `user` whose card exists. */
  lemma {:induction false} DeleteRowsIsUnbought(cart: seq<CartItem>, ids: seq<ItemId>, user: UserId, catalog: seq<Card>)
    requires forall it :: it in cart ==> (it.id in ids <==> it.user == user && Present(catalog, it.card))
    ensures DeleteRows(cart, ids) == Unbought(cart, user, catalog)
  {
    if cart != [] {
      var init := cart[..|cart| - 1];
      assert forall it :: it in init ==> it in cart;
      DeleteRowsIsUnbought(init, ids, user, catalog);
    }
  }

  /** The rows a purchase deletes one by one, by primary key, leave exactly the
      purchase filter, as every row id names one row. */
  lemma DeleteBoughtIsUnbought(cart: seq<CartItem>, user: UserId, catalog: seq<Card>)
    requires Keyed(cart)
    ensures DeleteRows(cart, ItemIds(Bought(catalog, CartOf(cart, user)))) == Unbought(cart, user, catalog)
  {
    var bought := Bought(catalog, CartOf(cart, user));
    var ids := ItemIds(bought);
    GrantsExact(user, bought);
    forall it | it in cart
      ensures it.id in ids <==> it.user == user && Present(catalog, it.card)
    {
      if it.id in ids {
        var k :| 0 <= k < |ids| && ids[k] == it.id;
        assert bought[k] in bought;
      }
      if it.user == user && Present(catalog, it.card) {
        assert it in bought;
        var k :| 0 <= k < |bought| && bought[k] == it;
        assert ids[k] == it.id;
      }
    }
    DeleteRowsIsUnbought(cart, ids, user, catalog);
  }

  /** A purchase by `user` leaves in that user's cart exactly the rows whose card
      is gone, and every other user's cart as it was. */
  lemma {:induction false} CartOfUnbought(cart: seq<CartItem>, user: UserId, catalog: seq<Card>, other: UserId)
    ensures CartOf(Unbought(cart, user, catalog), other)
         == if other == user then Stranded(catalog, CartOf(cart, user)) else CartOf(cart, other)
  {
    if cart != [] {
      var init, last := cart[..|cart| - 1], cart[|cart| - 1];
      assert cart == init + [last];
      CartOfUnbought(init, user, catalog, other);
      CartOfSnoc(init, last, user);
      CartOfSnoc(init, last, other);
      ByPresenceSnoc(catalog, CartOf(init, user), last, false);
      var rest := Unbought(init, user, catalog);
      if last.user == user && Present(catalog, last.card) {
        assert Unbought(cart, user, catalog) == rest;
      } else {
        assert Unbought(cart, user, catalog) == rest + [last];
        CartOfSnoc(rest, last, other);
      }
    }
  }

  /** The ownership rows granted to `user` add the converted cards to that
      user's collection and to no one else's. */
  lemma {:induction false} HeldGrants(user: UserId, items: seq<CartItem>, other: UserId)
    ensures Held(Grants(user, items), other) == if other == user then Cards(items) else []
  {
    if items != [] {
      var init := items[..|items| - 1];
      HeldGrants(user, init, other);
      var g := Grants(user, init);
      assert Grants(user, items) == g + [Ownership(user, items[|items| - 1].card)];
      assert (g + [Ownership(user, items[|items| - 1].card)])[..|g|] == g;
    }
  }

  /** Every staged row is either converted or stranded by a purchase. */
  lemma {:induction false} BoughtStrandedPartition(catalog: seq<Card>, items: seq<CartItem>)
    ensures |Bought(catalog, items)| + |Stranded(catalog, items)| == |items|
  {
    if items != [] {
      BoughtStrandedPartition(catalog, items[..|items| - 1]);
    }
  }
}
