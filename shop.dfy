/**
  The cart and collection request handlers of the card shop, each one an
  atomic step on the three tables. The caller is given as an already
  authenticated user id.
 */
module CardShop {
  import opened Tables
  import opened Ledger
  import opened Collection
  import opened Views

  /** What purchase_cart reports: the names of the cards bought, in cart
      order, their total price in cents, and how many there were. */
  datatype Receipt = Receipt(names: seq<string>, total: nat, count: nat)

  /** The first of add_to_cart's checks that refuses staging `card` for
      `user`: the card must exist, must not be owned, the user's owned plus
      staged cards must be below the cap, and the card must not be staged. */
  function AddRefusal(catalog: seq<Card>, cart: seq<CartItem>, owned: seq<Ownership>, user: UserId, card: CardId)
    : (r: Option<Error>)
    ensures r == Some(CardNotFound) <==> !Present(catalog, card)
    ensures r.Some? ==> (r.value.Status() == 404 <==> !Present(catalog, card))
    ensures r == Some(AlreadyOwned) <==> Present(catalog, card) && card in Held(owned, user)
    ensures r == Some(LimitReached) <==>
      && Present(catalog, card) && card !in Held(owned, user)
      && |Held(owned, user)| + |CartOf(cart, user)| >= Limit
    ensures r == Some(AlreadyInCart) <==>
      && Present(catalog, card) && card !in Held(owned, user)
      && |Held(owned, user)| + |CartOf(cart, user)| < Limit
      && card in Cards(CartOf(cart, user))
    ensures r == None <==>
      && Present(catalog, card) && card !in Held(owned, user)
      && |Held(owned, user)| + |CartOf(cart, user)| < Limit
      && card !in Cards(CartOf(cart, user))
  {
    if FindCard(catalog, card).None? then Some(CardNotFound)
    else if FindOwnership(owned, user, card).Some? then Some(AlreadyOwned)
    else if |Held(owned, user)| + |CartOf(cart, user)| >= Limit then Some(LimitReached)
    else if card in Cards(CartOf(cart, user)) then Some(AlreadyInCart)
    else None
  }

  /** The state purchase_cart's loop carries: the pending ownership and cart
      tables, and the names and total of the cards bought so far. */
  datatype Conversion = Conversion(owned: seq<Ownership>, cart: seq<CartItem>, names: seq<string>, total: nat)

  /** One step of the loop on the staged row `item`: when its card exists the
      row is granted to `user`, deleted by its id, and the card's name and
      price are recorded; otherwise nothing changes. */
  function ConvertRow(catalog: seq<Card>, user: UserId, s: Conversion, item: CartItem): Conversion {
    match FindCard(catalog, item.card)
    case None => s
    case Some(c) =>
      Conversion(s.owned + [Ownership(user, item.card)], DeleteRows(s.cart, [item.id]),
                 s.names + [c.name], s.total + c.price)
  }

  /** The loop's state after walking `items` in order from `owned` and `cart`. */
  function Convert(catalog: seq<Card>, user: UserId, items: seq<CartItem>, owned: seq<Ownership>, cart: seq<CartItem>)
    : Conversion
  {
    if items == [] then Conversion(owned, cart, [], 0)
    else ConvertRow(catalog, user, Convert(catalog, user, items[..|items| - 1], owned, cart), items[|items| - 1])
  }

  /** One more staged row, as the loop walks the cart. */
  lemma ConvertStep(catalog: seq<Card>, user: UserId, items: seq<CartItem>, i: nat,
                    owned: seq<Ownership>, cart: seq<CartItem>)
    requires i < |items|
    ensures Convert(catalog, user, items[..i + 1], owned, cart)
      == ConvertRow(catalog, user, Convert(catalog, user, items[..i], owned, cart), items[i])
  {
    assert items[..i + 1][..i] == items[..i];
  }

  /** The loop grants exactly the converted rows and deletes exactly their ids. */
  lemma {:induction false} ConvertTables(catalog: seq<Card>, user: UserId, items: seq<CartItem>,
                                         owned: seq<Ownership>, cart: seq<CartItem>)
    ensures Convert(catalog, user, items, owned, cart).owned == owned + Grants(user, Bought(catalog, items))
    ensures Convert(catalog, user, items, owned, cart).cart == DeleteRows(cart, ItemIds(Bought(catalog, items)))
  {
    if items == [] {
      DeleteNoRows(cart);
    } else {
      var n := |items| - 1;
      var init, item := items[..n], items[n];
      ConvertTables(catalog, user, init, owned, cart);
      assert items[..n + 1] == items;
      PurchaseStep(catalog, items, n);
      var bought := Bought(catalog, init);
      if FindCard(catalog, item.card).Some? {
        GrantsSnoc(user, bought, item);
        SnocAssoc(owned, Grants(user, bought), Ownership(user, item.card));
        DeleteRowsStep(cart, ItemIds(bought), item.id);
      }
    }
  }

  /** The loop reports the names of the cards the staged rows resolve to. */
  lemma {:induction false} ConvertNames(catalog: seq<Card>, user: UserId, items: seq<CartItem>,
                                        owned: seq<Ownership>, cart: seq<CartItem>)
    ensures Convert(catalog, user, items, owned, cart).names == Names(Resolve(catalog, Cards(items)))
  {
    if items != [] {
      var n := |items| - 1;
      var init, item := items[..n], items[n];
      ConvertNames(catalog, user, init, owned, cart);
      assert items[..n + 1] == items;
      PurchaseStep(catalog, items, n);
      if FindCard(catalog, item.card).Some? {
        ReceiptSnoc(Resolve(catalog, Cards(init)), FindCard(catalog, item.card).value);
      }
    }
  }

  /** The loop reports the total price of the cards the staged rows resolve to. */
  lemma {:induction false} ConvertTotal(catalog: seq<Card>, user: UserId, items: seq<CartItem>,
                                        owned: seq<Ownership>, cart: seq<CartItem>)
    ensures Convert(catalog, user, items, owned, cart).total == Sum(Resolve(catalog, Cards(items)))
  {
    if items != [] {
      var n := |items| - 1;
      var init, item := items[..n], items[n];
      ConvertTotal(catalog, user, init, owned, cart);
      assert items[..n + 1] == items;
      PurchaseStep(catalog, items, n);
      if FindCard(catalog, item.card).Some? {
        ReceiptSnoc(Resolve(catalog, Cards(init)), FindCard(catalog, item.card).value);
      }
    }
  }

  /** The loop run on a user's whole cart leaves the cart without exactly
      that user's rows whose card exists, grants exactly those rows' cards,
      reports their names and total, and keeps the ids keyed and fresh and
      the collection invariant. */
  lemma PurchaseOutcome(catalog: seq<Card>, user: UserId, cart: seq<CartItem>, owned: seq<Ownership>, next: ItemId)
    requires Numbered(cart, next)
    ensures
      var items := CartOf(cart, user);
      var s, cards := Convert(catalog, user, items, owned, cart), Resolve(catalog, Cards(items));
      && s.owned == owned + Grants(user, Bought(catalog, items))
      && s.cart == Unbought(cart, user, catalog)
      && s.names == Names(cards)
      && s.total == Sum(cards)
      && Numbered(s.cart, next)
      && (Inv(cart, owned) ==> Inv(s.cart, s.owned))
  {
    var items := CartOf(cart, user);
    ConvertTables(catalog, user, items, owned, cart);
    ConvertNames(catalog, user, items, owned, cart);
    ConvertTotal(catalog, user, items, owned, cart);
    DeleteBoughtIsUnbought(cart, user, catalog);
    DeleteRowsFresh(cart, ItemIds(Bought(catalog, items)), next);
    if Inv(cart, owned) {
      PurchaseKeepsInv(cart, owned, user, catalog);
    }
  }

  class Shop {
    /** The card catalog; no handler here changes it. */
    const catalog: seq<Card>
    /** The cart table, in row order. */
    var cart: seq<CartItem>
    /** The ownership table, in row order. */
    var owned: seq<Ownership>
    /** The id the next cart row receives. */
    var nextItemId: ItemId

    /** Every cart row id names one row, and fresh ids are unused. */
    ghost predicate Valid()
      reads this
    {
      Numbered(cart, nextItemId)
    }

    /** The shop over tables as found in the database. */
    constructor (catalog: seq<Card>, cart: seq<CartItem>, owned: seq<Ownership>, nextItemId: ItemId)
      requires Numbered(cart, nextItemId)
      ensures Valid()
      ensures this.catalog == catalog && this.cart == cart && this.owned == owned
      ensures this.nextItemId == nextItemId
    {
      this.catalog := catalog;
      this.cart := cart;
      this.owned := owned;
      this.nextItemId := nextItemId;
    }

    /** get_all_cards: the whole catalog, each card flagged when `user` owns it. */
    method GetAllCards(user: UserId) returns (views: seq<CardView>)
      ensures |views| == |catalog|
      ensures forall k :: 0 <= k < |catalog| ==>
        views[k] == CardView(catalog[k], Ownership(user, catalog[k].id) in owned)
    {
      var ownedIds := Held(owned, user);
      views := [];
      var i := 0;
      while i < |catalog|
        invariant 0 <= i <= |catalog|
        invariant |views| == i
        invariant forall k :: 0 <= k < i ==>
          views[k] == CardView(catalog[k], Ownership(user, catalog[k].id) in owned)
      {
        views := views + [CardView(catalog[i], catalog[i].id in ownedIds)];
        i := i + 1;
      }
    }

    /** get_owned_cards: the cards of `user`'s ownership rows, in row order,
        skipping rows whose card the catalog no longer holds. */
    method GetOwnedCards(user: UserId) returns (cards: seq<Card>)
      ensures cards == Resolve(catalog, Held(owned, user))
    {
      var ids := Held(owned, user);
      cards := [];
      var i := 0;
      while i < |ids|
        invariant 0 <= i <= |ids|
        invariant cards == Resolve(catalog, ids[..i])
      {
        ResolveStep(catalog, ids, i);
        var found := FindCard(catalog, ids[i]);
        if found.Some? {
          cards := cards + [found.value];
        }
        i := i + 1;
      }
      assert ids[..|ids|] == ids;
    }

    /** get_cart: `user`'s cart rows, in row order, joined to their cards,
        skipping rows whose card the catalog no longer holds. */
    method GetCart(user: UserId) returns (lines: seq<CartLine>)
      ensures lines == Lines(catalog, CartOf(cart, user))
    {
      var items := CartOf(cart, user);
      lines := [];
      var i := 0;
      while i < |items|
        invariant 0 <= i <= |items|
        invariant lines == Lines(catalog, items[..i])
      {
        LinesStep(catalog, items, i);
        var found := FindCard(catalog, items[i].card);
        if found.Some? {
          lines := lines + [CartLine(items[i].id, found.value)];
        }
        i := i + 1;
      }
      assert items[..|items|] == items;
    }

    /** add_to_cart: the checks run in the order of AddRefusal and the first
        that fails decides the error, changing nothing; otherwise exactly one
        row for `user` and `card` is appended to the cart. */
    method AddToCart(user: UserId, card: CardId) returns (r: Result<string>)
      requires Valid()
      modifies this`cart, this`nextItemId
      ensures Valid()
      ensures r.Err? <==> AddRefusal(catalog, old(cart), owned, user, card).Some?
      ensures r.Err? ==>
        && AddRefusal(catalog, old(cart), owned, user, card) == Some(r.error)
        && cart == old(cart) && nextItemId == old(nextItemId)
      ensures r.Ok? ==>
        && Present(catalog, card)
        && r.value == FindCard(catalog, card).value.name
        && cart == old(cart) + [CartItem(old(nextItemId), user, card)]
        && nextItemId == old(nextItemId) + 1
        && CartOf(cart, user) == CartOf(old(cart), user) + [CartItem(old(nextItemId), user, card)]
        && |Held(owned, user)| + |CartOf(cart, user)| <= Limit
      ensures forall other :: other != user ==> CartOf(cart, other) == CartOf(old(cart), other)
      ensures Inv(old(cart), owned) ==> Inv(cart, owned)
    {
      var found := FindCard(catalog, card);
      if found.None? {
        return Err(CardNotFound);
      }
      if FindOwnership(owned, user, card).Some? {
        return Err(AlreadyOwned);
      }
      var ownedCount := |Held(owned, user)|;
      var cartCount := |CartOf(cart, user)|;
      if ownedCount + cartCount >= Limit {
        return Err(LimitReached);
      }
      if card in Cards(CartOf(cart, user)) {
        return Err(AlreadyInCart);
      }
      var item := CartItem(nextItemId, user, card);
      if Inv(cart, owned) {
        AddKeepsInv(cart, owned, item);
      }
      NumberedSnoc(cart, item, nextItemId);
      forall other
        ensures item.user == other ==> CartOf(cart + [item], other) == CartOf(cart, other) + [item]
        ensures item.user != other ==> CartOf(cart + [item], other) == CartOf(cart, other)
      {
        CartOfSnoc(cart, item, other);
      }
      cart := cart + [item];
      nextItemId := nextItemId + 1;
      r := Ok(found.value.name);
    }

    /** remove_from_cart: the first cart row with this id that belongs to
        `user` is deleted and nothing else changes; with no such row the
        request fails and nothing changes. */
    method RemoveFromCart(user: UserId, id: ItemId) returns (r: Result<()>)
      requires Valid()
      modifies this`cart
      ensures Valid()
      ensures r.Err? <==> forall it :: it in old(cart) ==> !(it.id == id && it.user == user)
      ensures r.Err? ==> r.error == CartItemNotFound && cart == old(cart)
      ensures r.Err? ==> r.error.Status() == 404
      ensures r.Ok? ==>
        && FindItem(old(cart), id, user).Some?
        && var k := FindItem(old(cart), id, user).value;
           cart == old(cart)[..k] + old(cart)[k + 1..]
      ensures Inv(old(cart), owned) ==> Inv(cart, owned)
    {
      var found := FindItem(cart, id, user);
      if found.None? {
        return Err(CartItemNotFound);
      }
      var k := found.value;
      var rest := cart[..k] + cart[k + 1..];
      if Inv(cart, owned) {
        DeleteItemKeepsInv(cart, owned, k);
      }
      DeleteAtFresh(cart, k, nextItemId);
      cart := rest;
      r := Ok(());
    }

    /** clear_cart: every cart row of `user` is deleted and no other row;
        it never fails, so clearing an empty cart changes nothing. */
    method ClearCart(user: UserId)
      requires Valid()
      modifies this`cart
      ensures Valid()
      ensures cart == WithoutUser(old(cart), user)
      ensures CartOf(cart, user) == []
      ensures forall other :: other != user ==> CartOf(cart, other) == CartOf(old(cart), other)
      ensures Inv(old(cart), owned) ==> Inv(cart, owned)
    {
      if Inv(cart, owned) {
        ClearKeepsInv(cart, owned, user);
      }
      forall other
        ensures CartOf(WithoutUser(cart, user), other) == if other == user then [] else CartOf(cart, other)
      {
        CartOfWithoutUser(cart, user, other);
      }
      cart := WithoutUser(cart, user);
    }

    /** remove_card_from_collection: the first ownership row recording that
        `user` owns `card` is deleted and nothing else changes; the reply
        names the card, or says "Card" when the catalog no longer holds it.
        Without such a row the request fails and nothing changes. */
    method RemoveCardFromCollection(user: UserId, card: CardId) returns (r: Result<string>)
      requires Valid()
      modifies this`owned
      ensures Valid()
      ensures r.Err? <==> card !in Held(old(owned), user)
      ensures r.Err? ==> r.error == NotInCollection && r.error.Status() == 404 && owned == old(owned)
      ensures r.Ok? ==>
        && FindOwnership(old(owned), user, card).Some?
        && var k := FindOwnership(old(owned), user, card).value;
           owned == old(owned)[..k] + old(owned)[k + 1..]
      ensures r.Ok? ==> r.value == match FindCard(catalog, card) {
        case Some(c) => c.name
        case None => "Card"
      }
      ensures Inv(cart, old(owned)) ==> Inv(cart, owned)
      ensures Inv(cart, old(owned)) && r.Ok? ==>
        card !in Held(owned, user) && |Held(owned, user)| + |CartOf(cart, user)| < Limit
    {
      var found := FindOwnership(owned, user, card);
      if found.None? {
        return Err(NotInCollection);
      }
      var k := found.value;
      var name := match FindCard(catalog, card) {
        case Some(c) => c.name
        case None => "Card"
      };
      if Inv(cart, owned) {
        ReleaseKeepsInv(cart, owned, k);
        ReleaseFreesSlot(cart, owned, k);
      }
      owned := owned[..k] + owned[k + 1..];
      r := Ok(name);
    }

    /** The conversion loop of purchase_cart over the staged rows `items`, in
        order: each row whose card exists is granted to `user`, deleted from
        the cart by its id, and its card's name and price are recorded. */
    method ConvertStaged(user: UserId, items: seq<CartItem>) returns (names: seq<string>, total: nat)
      modifies this`cart, this`owned
      ensures Conversion(owned, cart, names, total) == Convert(catalog, user, items, old(owned), old(cart))
    {
      total := 0;
      names := [];
      var i := 0;
      while i < |items|
        invariant 0 <= i <= |items|
        invariant Conversion(owned, cart, names, total) == Convert(catalog, user, items[..i], old(owned), old(cart))
      {
        var item := items[i];
        ConvertStep(catalog, user, items, i, old(owned), old(cart));
        ghost var before := Conversion(owned, cart, names, total);
        var found := FindCard(catalog, item.card);
        if found.Some? {
          owned := owned + [Ownership(user, item.card)];
          total := total + found.value.price;
          names := names + [found.value.name];
          cart := DeleteRows(cart, [item.id]);
        }
        assert Conversion(owned, cart, names, total) == ConvertRow(catalog, user, before, item);
        i := i + 1;
      }
      assert items[..|items|] == items;
    }

    /** purchase_cart: fails on an empty cart, or when owned plus staged
        cards exceed the cap, changing nothing. Otherwise each staged row
        whose card exists, in cart order, becomes an ownership row and is
        deleted from the cart; rows whose card is gone stay in the cart. */
    method PurchaseCart(user: UserId) returns (r: Result<Receipt>)
      requires Valid()
      modifies this`cart, this`owned
      ensures Valid()
      ensures r == Err(CartEmpty) <==> CartOf(old(cart), user) == []
      ensures r == Err(PurchaseOverLimit) <==>
        CartOf(old(cart), user) != [] && |Held(old(owned), user)| + |CartOf(old(cart), user)| > Limit
      ensures r.Err? ==> r.error in {CartEmpty, PurchaseOverLimit} && r.error.Status() == 400
      ensures r.Err? ==> cart == old(cart) && owned == old(owned)
      ensures r.Ok? ==>
        var items := CartOf(old(cart), user);
        var cards := Resolve(catalog, Cards(items));
        && r.value == Receipt(Names(cards), Sum(cards), |cards|)
        && cart == Unbought(old(cart), user, catalog)
        && owned == old(owned) + Grants(user, Bought(catalog, items))
      ensures Inv(old(cart), old(owned)) ==> r != Err(PurchaseOverLimit) && Inv(cart, owned)
    {
      var items := CartOf(cart, user);
      if items == [] {
        return Err(CartEmpty);
      }
      var ownedCount := |Held(owned, user)|;
      if ownedCount + |items| > Limit {
        assert !UserInv(cart, owned, user);
        return Err(PurchaseOverLimit);
      }
      PurchaseOutcome(catalog, user, cart, owned, nextItemId);
      var names, total := ConvertStaged(user, items);
      r := Ok(Receipt(names, total, |names|));
    }
  }
}
