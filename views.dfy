/**
  What the read handlers and the purchase summary report: catalog cards joined
  to the rows that reference them, skipping rows whose card is gone.
 */
module Views {
  import opened Tables
  import opened Ledger

  /** A catalog entry as get_all_cards lists it, flagged when the caller owns it. */
  datatype CardView = CardView(card: Card, isOwned: bool)

  /** A cart row as get_cart lists it: the row id and the card it stages. */
  datatype CartLine = CartLine(item: ItemId, card: Card)

  /** The cards the catalog holds for `ids`, in the order of `ids`; ids with no card are skipped. */
  function Resolve(catalog: seq<Card>, ids: seq<CardId>): (r: seq<Card>)
    ensures |r| <= |ids|
    ensures forall c :: c in r ==> c in catalog && c.id in ids
  {
    if ids == [] then []
    else
      var init, last := ids[..|ids| - 1], ids[|ids| - 1];
      assert ids == init + [last];
      Resolve(catalog, init) + match FindCard(catalog, last) {
        case None => []
        case Some(c) => [c]
      }
  }

  /** One more id adds its card when the catalog holds one. */
  lemma ResolveSnoc(catalog: seq<Card>, ids: seq<CardId>, id: CardId)
    ensures FindCard(catalog, id).None? ==> Resolve(catalog, ids + [id]) == Resolve(catalog, ids)
    ensures FindCard(catalog, id).Some? ==>
      Resolve(catalog, ids + [id]) == Resolve(catalog, ids) + [FindCard(catalog, id).value]
  {
    assert (ids + [id])[..|ids|] == ids;
  }

  /** The same, for the prefixes a loop over `ids` walks through. */
  lemma ResolveStep(catalog: seq<Card>, ids: seq<CardId>, i: nat)
    requires i < |ids|
    ensures FindCard(catalog, ids[i]).None? ==> Resolve(catalog, ids[..i + 1]) == Resolve(catalog, ids[..i])
    ensures FindCard(catalog, ids[i]).Some? ==>
      Resolve(catalog, ids[..i + 1]) == Resolve(catalog, ids[..i]) + [FindCard(catalog, ids[i]).value]
  {
    PrefixSnoc(ids, i);
    ResolveSnoc(catalog, ids[..i], ids[i]);
  }

  /** Every id with a catalog card contributes that card; with no card missing,
      nothing is skipped. */
  lemma {:induction false} ResolveComplete(catalog: seq<Card>, ids: seq<CardId>)
    ensures forall id :: id in ids && Present(catalog, id) ==> FindCard(catalog, id).value in Resolve(catalog, ids)
    ensures (forall id :: id in ids ==> Present(catalog, id)) ==> |Resolve(catalog, ids)| == |ids|
  {
    if ids != [] {
      var init, last := ids[..|ids| - 1], ids[|ids| - 1];
      assert ids == init + [last];
      ResolveComplete(catalog, init);
    }
  }

  /** The cart rows in `items` whose card the catalog holds, joined to that card, in order. */
  function Lines(catalog: seq<Card>, items: seq<CartItem>): (r: seq<CartLine>)
    ensures |r| <= |items|
  {
    if items == [] then []
    else
      var init, last := items[..|items| - 1], items[|items| - 1];
      Lines(catalog, init) + match FindCard(catalog, last.card) {
        case None => []
        case Some(c) => [CartLine(last.id, c)]
      }
  }

  /** One more row adds its line when the catalog holds its card. */
  lemma LinesStep(catalog: seq<Card>, items: seq<CartItem>, i: nat)
    requires i < |items|
    ensures FindCard(catalog, items[i].card).None? ==> Lines(catalog, items[..i + 1]) == Lines(catalog, items[..i])
    ensures FindCard(catalog, items[i].card).Some? ==>
      Lines(catalog, items[..i + 1])
        == Lines(catalog, items[..i]) + [CartLine(items[i].id, FindCard(catalog, items[i].card).value)]
  {
    assert items[..i + 1][..i] == items[..i];
  }

  /** Each line joins one of the rows to its catalog card; every row whose card
      exists yields its line; with no card missing, no row is skipped. */
  lemma {:induction false} LinesExact(catalog: seq<Card>, items: seq<CartItem>)
    ensures forall l :: l in Lines(catalog, items) ==>
      l.card in catalog && exists it :: it in items && it.id == l.item && it.card == l.card.id
    ensures forall it :: it in items && Present(catalog, it.card) ==>
      CartLine(it.id, FindCard(catalog, it.card).value) in Lines(catalog, items)
    ensures (forall it :: it in items ==> Present(catalog, it.card)) ==> |Lines(catalog, items)| == |items|
  {
    if items != [] {
      var init, last := items[..|items| - 1], items[|items| - 1];
      assert items == init + [last];
      LinesExact(catalog, init);
    }
  }

  /** The names of some cards, in order. */
  function Names(cards: seq<Card>): (r: seq<string>)
    ensures |r| == |cards|
    ensures forall k :: 0 <= k < |cards| ==> r[k] == cards[k].name
  {
    if cards == [] then [] else Names(cards[..|cards| - 1]) + [cards[|cards| - 1].name]
  }

  /** The sum of the prices of some cards, in cents. */
  function Sum(cards: seq<Card>): nat {
    if cards == [] then 0 else Sum(cards[..|cards| - 1]) + cards[|cards| - 1].price
  }

  /** One more card adds its name and its price. */
  lemma ReceiptSnoc(cards: seq<Card>, c: Card)
    ensures Names(cards + [c]) == Names(cards) + [c.name]
    ensures Sum(cards + [c]) == Sum(cards) + c.price
  {
    assert (cards + [c])[..|cards|] == cards;
  }

  /** The total covers the price of every card it counts. */
  lemma {:induction false} SumCovers(cards: seq<Card>)
    ensures forall c :: c in cards ==> c.price <= Sum(cards)
  {
    if cards != [] {
      var init, last := cards[..|cards| - 1], cards[|cards| - 1];
      assert cards == init + [last];
      SumCovers(init);
    }
  }

  /** The total of two lists of cards is the sum of their totals, so the
      receipt's total does not depend on how the cart is split. */
  lemma {:induction false} SumAppend(a: seq<Card>, b: seq<Card>)
    ensures Sum(a + b) == Sum(a) + Sum(b)
  {
    if b != [] {
      var init, last := b[..|b| - 1], b[|b| - 1];
      assert b == init + [last];
      assert a + b == (a + init) + [last];
      SumAppend(a, init);
      ReceiptSnoc(a + init, last);
      ReceiptSnoc(init, last);
    } else {
      assert a + b == a;
    }
  }

  /** One more staged row, as the purchase loop walks the cart: the
      converted rows and the resolved cards grow by that row and its card
      exactly when the catalog holds the card, and stay as they were
      otherwise. */
  lemma PurchaseStep(catalog: seq<Card>, items: seq<CartItem>, i: nat)
    requires i < |items|
    ensures FindCard(catalog, items[i].card).None? ==>
      && Bought(catalog, items[..i + 1]) == Bought(catalog, items[..i])
      && Resolve(catalog, Cards(items[..i + 1])) == Resolve(catalog, Cards(items[..i]))
    ensures FindCard(catalog, items[i].card).Some? ==>
      && Bought(catalog, items[..i + 1]) == Bought(catalog, items[..i]) + [items[i]]
      && Resolve(catalog, Cards(items[..i + 1]))
           == Resolve(catalog, Cards(items[..i])) + [FindCard(catalog, items[i].card).value]
  {
    var done, item := items[..i], items[i];
    PrefixSnoc(items, i);
    ByPresenceSnoc(catalog, done, item, true);
    assert Cards(done + [item]) == Cards(done) + [item.card];
    ResolveSnoc(catalog, Cards(done), item.card);
  }

  /** The cards a purchase resolves are, one for one and in cart order, the
      cards of the rows it converts into ownership. */
  lemma {:induction false} ResolveMatchesBought(catalog: seq<Card>, items: seq<CartItem>)
    ensures |Resolve(catalog, Cards(items))| == |Bought(catalog, items)|
    ensures forall k :: 0 <= k < |Bought(catalog, items)| ==>
      FindCard(catalog, Bought(catalog, items)[k].card) == Some(Resolve(catalog, Cards(items))[k])
  {
    if items != [] {
      var init, last := items[..|items| - 1], items[|items| - 1];
      assert items == init + [last] && items[..|items|] == items;
      ResolveMatchesBought(catalog, init);
      PurchaseStep(catalog, items, |items| - 1);
      var r, b := Resolve(catalog, Cards(init)), Bought(catalog, init);
      if FindCard(catalog, last.card).Some? {
        var c := FindCard(catalog, last.card).value;
        forall k | 0 <= k < |b| + 1
          ensures FindCard(catalog, (b + [last])[k].card) == Some((r + [c])[k])
        {
          if k < |b| {
            assert (r + [c])[k] == r[k] && (b + [last])[k] == b[k];
          }
        }
      }
    }
  }
}
