/**
  The per-user collection invariant of the card shop, and the proof that each
  successful handler step keeps it: owned plus staged cards stay within the
  cap, no card is staged or owned twice, and no card is both staged and owned.
 */
module Collection {
  import opened Tables
  import opened Ledger

  predicate Distinct<T(==)>(s: seq<T>) {
    forall i, j :: 0 <= i < j < |s| ==> s[i] != s[j]
  }

  /** The invariant for one user. */
  ghost predicate UserInv(cart: seq<CartItem>, owned: seq<Ownership>, user: UserId) {
    var staged := Cards(CartOf(cart, user));
    var held := Held(owned, user);
    && |held| + |staged| <= Limit
    && Distinct(staged)
    && Distinct(held)
    && forall c :: c in staged ==> c !in held
  }

  /** The invariant for every user. */
  ghost predicate Inv(cart: seq<CartItem>, owned: seq<Ownership>) {
    forall user :: UserInv(cart, owned, user)
  }

  lemma DistinctSnoc<T>(s: seq<T>, x: T)
    requires Distinct(s) && x !in s
    ensures Distinct(s + [x])
  {
  }

  /** Dropping a middle stretch of a sequence without repeats leaves none. */
  lemma DistinctWithout<T>(a: seq<T>, m: seq<T>, b: seq<T>)
    requires Distinct(a + m + b)
    ensures Distinct(a + b)
  {
    var s := a + m + b;
    forall i, j | 0 <= i < j < |a + b|
      ensures (a + b)[i] != (a + b)[j]
    {
      var i' := if i < |a| then i else i + |m|;
      var j' := if j < |a| then j else j + |m|;
      assert s[i'] == (a + b)[i] && s[j'] == (a + b)[j];
    }
  }

  lemma DistinctLast<T>(s: seq<T>, x: T)
    requires Distinct(s + [x])
    ensures x !in s
  {
    forall i | 0 <= i < |s|
      ensures s[i] != x
    {
      assert (s + [x])[i] == s[i] && (s + [x])[|s|] == x;
    }
  }

  /** An element of a sequence without repeats occurs nowhere else in it. */
  lemma DistinctMiddle<T>(a: seq<T>, x: T, b: seq<T>)
    requires Distinct(a + [x] + b)
    ensures x !in a + b
  {
    var s := a + [x] + b;
    forall i | 0 <= i < |a|
      ensures a[i] != x
    {
      assert s[i] == a[i] && s[|a|] == x;
    }
    forall j | 0 <= j < |b|
      ensures b[j] != x
    {
      assert s[|a| + 1 + j] == b[j] && s[|a|] == x;
    }
  }

  lemma DistinctConcat<T>(a: seq<T>, b: seq<T>)
    requires Distinct(a) && Distinct(b)
    requires forall x :: x in a ==> x !in b
    ensures Distinct(a + b)
  {
    forall i, j | 0 <= i < j < |a + b|
      ensures (a + b)[i] != (a + b)[j]
    {
      if i < |a| && j >= |a| {
        assert (a + b)[i] in a && (a + b)[j] in b;
      }
    }
  }

  lemma InCards(items: seq<CartItem>, c: CardId)
    ensures c in Cards(items) <==> exists it :: it in items && it.card == c
  {
    var cs := Cards(items);
    if c in cs {
      var k :| 0 <= k < |cs| && cs[k] == c;
      assert items[k] in items;
    }
    if exists it :: it in items && it.card == c {
      var it :| it in items && it.card == c;
      var k :| 0 <= k < |items| && items[k] == it;
      assert cs[k] == c;
    }
  }

  /** Keeping only the rows of one presence class keeps the staged cards free of repeats. */
  lemma {:induction false} ByPresenceDistinct(catalog: seq<Card>, items: seq<CartItem>, present: bool)
    requires Distinct(Cards(items))
    ensures Distinct(Cards(ByPresence(catalog, items, present)))
  {
    if items != [] {
      var init, last := items[..|items| - 1], items[|items| - 1];
      assert Cards(items) == Cards(init) + [last.card];
      DistinctWithout(Cards(init), [last.card], []);
      assert Cards(init) + [last.card] + [] == Cards(items);
      ByPresenceDistinct(catalog, init, present);
      var kept := ByPresence(catalog, init, present);
      if Present(catalog, last.card) == present {
        assert ByPresence(catalog, items, present) == kept + [last];
        CardsAppend(kept, [last]);
        InCards(kept, last.card);
        InCards(init, last.card);
        DistinctLast(Cards(init), last.card);
        DistinctSnoc(Cards(kept), last.card);
      } else {
        assert ByPresence(catalog, items, present) == kept;
      }
    }
  }

  /** add_to_cart: staging a card that the user neither owns nor has staged,
      while below the cap, keeps the invariant. */
  lemma AddKeepsInv(cart: seq<CartItem>, owned: seq<Ownership>, item: CartItem)
    requires Inv(cart, owned)
    requires item.card !in Held(owned, item.user)
    requires item.card !in Cards(CartOf(cart, item.user))
    requires |Held(owned, item.user)| + |CartOf(cart, item.user)| < Limit
    ensures Inv(cart + [item], owned)
  {
    forall user
      ensures UserInv(cart + [item], owned, user)
    {
      assert UserInv(cart, owned, user);
      var staged := CartOf(cart, user);
      CartOfAppend(cart, [item], user);
      if item.user == user {
        assert CartOf(cart + [item], user) == staged + [item];
        CardsAppend(staged, [item]);
        DistinctSnoc(Cards(staged), item.card);
      } else {
        assert CartOf(cart + [item], user) == staged;
      }
    }
  }

  /** remove_from_cart: deleting any one cart row keeps the invariant. */
  lemma DeleteItemKeepsInv(cart: seq<CartItem>, owned: seq<Ownership>, k: nat)
    requires Inv(cart, owned)
    requires k < |cart|
    ensures Inv(cart[..k] + cart[k + 1..], owned)
  {
    var a, x, b := cart[..k], cart[k], cart[k + 1..];
    assert cart == a + [x] + b;
    forall user
      ensures UserInv(a + b, owned, user)
    {
      assert UserInv(cart, owned, user);
      CartOfAppend(a + [x], b, user);
      CartOfAppend(a, [x], user);
      CartOfAppend(a, b, user);
      var ca, cx, cb := CartOf(a, user), CartOf([x], user), CartOf(b, user);
      CardsAppend(ca + cx, cb);
      CardsAppend(ca, cx);
      CardsAppend(ca, cb);
      DistinctWithout(Cards(ca), Cards(cx), Cards(cb));
    }
  }

  /** clear_cart: emptying one user's cart keeps the invariant. */
  lemma ClearKeepsInv(cart: seq<CartItem>, owned: seq<Ownership>, user: UserId)
    requires Inv(cart, owned)
    ensures Inv(WithoutUser(cart, user), owned)
  {
    forall other
      ensures UserInv(WithoutUser(cart, user), owned, other)
    {
      assert UserInv(cart, owned, other);
      CartOfWithoutUser(cart, user, other);
    }
  }

  /** remove_card_from_collection: deleting any one ownership row keeps the invariant. */
  lemma ReleaseKeepsInv(cart: seq<CartItem>, owned: seq<Ownership>, k: nat)
    requires Inv(cart, owned)
    requires k < |owned|
    ensures Inv(cart, owned[..k] + owned[k + 1..])
  {
    var a, x, b := owned[..k], owned[k], owned[k + 1..];
    assert owned == a + [x] + b;
    forall user
      ensures UserInv(cart, a + b, user)
    {
      assert UserInv(cart, owned, user);
      HeldAppend(a + [x], b, user);
      HeldAppend(a, [x], user);
      HeldAppend(a, b, user);
      DistinctWithout(Held(a, user), Held([x], user), Held(b, user));
    }
  }

  /** Releasing an owned card, under the invariant, frees its slot: the card is
      no longer owned and the user is below the cap, so it may be staged again. */
  lemma ReleaseFreesSlot(cart: seq<CartItem>, owned: seq<Ownership>, k: nat)
    requires Inv(cart, owned)
    requires k < |owned|
    ensures owned[k].card !in Held(owned[..k] + owned[k + 1..], owned[k].user)
    ensures |Held(owned[..k] + owned[k + 1..], owned[k].user)| + |CartOf(cart, owned[k].user)| < Limit
  {
    var a, x, b := owned[..k], owned[k], owned[k + 1..];
    var user := x.user;
    assert owned == a + [x] + b;
    assert UserInv(cart, owned, user);
    HeldAppend(a + [x], b, user);
    HeldAppend(a, [x], user);
    HeldAppend(a, b, user);
    assert Held([x], user) == [x.card];
    DistinctMiddle(Held(a, user), x.card, Held(b, user));
  }

  /** How a purchase by `user` changes each user's view of the tables: that
      user's converted rows move from the cart to the collection, stranded rows
      stay, and no other user sees a change. */
  lemma PurchaseEffect(cart: seq<CartItem>, owned: seq<Ownership>, user: UserId, catalog: seq<Card>, other: UserId)
    ensures var bought := Bought(catalog, CartOf(cart, user));
      && CartOf(Unbought(cart, user, catalog), other)
         == (if other == user then Stranded(catalog, CartOf(cart, user)) else CartOf(cart, other))
      && Held(owned + Grants(user, bought), other)
         == (if other == user then Held(owned, user) + Cards(bought) else Held(owned, other))
  {
    var bought := Bought(catalog, CartOf(cart, user));
    CartOfUnbought(cart, user, catalog, other);
    HeldAppend(owned, Grants(user, bought), other);
    HeldGrants(user, bought, other);
  }

  /** A purchase keeps each user's owned plus staged total unchanged. */
  lemma PurchaseConserves(cart: seq<CartItem>, owned: seq<Ownership>, user: UserId, catalog: seq<Card>, other: UserId)
    ensures |Held(owned + Grants(user, Bought(catalog, CartOf(cart, user))), other)|
          + |CartOf(Unbought(cart, user, catalog), other)|
         == |Held(owned, other)| + |CartOf(cart, other)|
  {
    PurchaseEffect(cart, owned, user, catalog, other);
    BoughtStrandedPartition(catalog, CartOf(cart, user));
  }

  /** purchase_cart: converting the rows whose card exists keeps the invariant. */
  lemma PurchaseKeepsInv(cart: seq<CartItem>, owned: seq<Ownership>, user: UserId, catalog: seq<Card>)
    requires Inv(cart, owned)
    ensures Inv(Unbought(cart, user, catalog), owned + Grants(user, Bought(catalog, CartOf(cart, user))))
  {
    var items := CartOf(cart, user);
    var bought, stranded := Bought(catalog, items), Stranded(catalog, items);
    var cart', owned' := Unbought(cart, user, catalog), owned + Grants(user, bought);
    forall other
      ensures UserInv(cart', owned', other)
    {
      assert UserInv(cart, owned, other);
      PurchaseEffect(cart, owned, user, catalog, other);
      PurchaseConserves(cart, owned, user, catalog, other);
      if other == user {
        var held := Held(owned, user);
        ByPresenceDistinct(catalog, items, true);
        ByPresenceDistinct(catalog, items, false);
        forall c | c in Cards(bought)
          ensures c in Cards(items)
        {
          InCards(bought, c);
          InCards(items, c);
        }
        DistinctConcat(held, Cards(bought));
        forall c | c in Cards(stranded)
          ensures c !in held + Cards(bought)
        {
          InCards(stranded, c);
          InCards(items, c);
          if c in Cards(bought) {
            InCards(bought, c);
          }
        }
      }
    }
  }
}
