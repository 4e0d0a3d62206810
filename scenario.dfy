/**
  A user's session against a small catalog, with the outcome of each request
  fixed by the handlers' contracts alone.
 */
module Scenario {
  import opened Tables
  import opened Collection
  import opened CardShop

  function Catalog(): seq<Card> {
    [Card("25", "Pikachu", 999), Card("6", "Charizard", 4999),
     Card("150", "Mewtwo", 2999), Card("1", "Bulbasaur", 499)]
  }

  /** Staging a card the catalog does not hold is refused. */
  method StageUnknown() {
    var shop := new Shop(Catalog(), [], [], 0);
    var unknown := shop.AddToCart("ash", "999");
    assert unknown == Err(CardNotFound);
  }

  /** Staging a known card appends its row under the next row id and
      answers with the card's name. */
  method StageOnce() {
    var shop := new Shop(Catalog(), [], [], 0);
    var first := shop.AddToCart("ash", "25");
    assert first == Ok("Pikachu");
    assert shop.cart == [CartItem(0, "ash", "25")];
  }

  /** Staging a card the user already staged is refused. */
  method StageTwice() {
    var staged := CartItem(0, "ash", "25");
    var shop := new Shop(Catalog(), [staged], [], 1);
    assert CartOf([staged], "ash") == [staged];
    var again := shop.AddToCart("ash", "25");
    assert again == Err(AlreadyInCart);
  }

  /** Three ownership rows of one user hold three cards. */
  lemma HeldThree(a: Ownership, b: Ownership, c: Ownership)
    requires a.user == b.user == c.user
    ensures |Held([a] + [b] + [c], a.user)| == 3
  {
    var u := a.user;
    assert Held([a], u) == [a.card];
    HeldSnoc([a], b, u);
    HeldSnoc([a] + [b], c, u);
  }

  /** With three cards owned, a fourth is refused at the cap. */
  method AtTheCap() {
    var a, b, c := Ownership("ash", "6"), Ownership("ash", "150"), Ownership("ash", "1");
    var shop := new Shop(Catalog(), [], [a] + [b] + [c], 0);
    HeldThree(a, b, c);
    assert Ownership("ash", "25") !in [a] + [b] + [c];
    assert CartOf([], "ash") == [];
    var fourth := shop.AddToCart("ash", "25");
    assert fourth == Err(LimitReached);
  }

  /** A card already owned is refused as owned, before any count is made. */
  method OwnedTwice() {
    var shop := new Shop(Catalog(), [], [Ownership("ash", "6")], 0);
    assert FindCard(Catalog()[1..], "6") == Some(Catalog()[1]);
    var dup := shop.AddToCart("ash", "6");
    assert dup == Err(AlreadyOwned);
  }

  /** A purchase where one staged card has left the catalog converts the
      other card and leaves the stranded row in the cart. */
  method PartialPurchase() {
    var kept, lost := CartItem(0, "ash", "25"), CartItem(1, "ash", "404");
    var shop := new Shop(Catalog(), [kept] + [lost], [], 2);
    assert CartOf([kept] + [lost], "ash") == [kept] + [lost] by {
      assert CartOf([kept], "ash") == [kept];
      CartOfSnoc([kept], lost, "ash");
    }
    assert Present(Catalog(), "25") && !Present(Catalog(), "404");
    var receipt := shop.PurchaseCart("ash");
    assert receipt.Ok?;
    assert lost in shop.cart && kept !in shop.cart;
  }
}
