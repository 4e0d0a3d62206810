/**
  Rows of the card shop's three tables (catalog, cart, ownership) and the
  read queries the request handlers run against them.
 */
module Tables {

  type UserId = string
  type CardId = string
  type ItemId = nat

  /** A catalog card, reduced to the fields the cart handlers read.
      The price is in whole cents. */
  datatype Card = Card(id: CardId, name: string, price: nat)

  /** A row of the cart table: one card staged for purchase by one user. */
  datatype CartItem = CartItem(id: ItemId, user: UserId, card: CardId)

  /** A row of the ownership table: one card in one user's collection. */
  datatype Ownership = Ownership(user: UserId, card: CardId)

  datatype Option<T> = None | Some(value: T)

  /** The error outcomes of the cart and collection handlers. */
  datatype Error =
    | CardNotFound       // adding a card id the catalog does not hold
    | AlreadyOwned       // adding a card the user already owns
    | LimitReached       // adding when owned plus staged cards already reach the cap
    | AlreadyInCart      // adding a card the user already staged
    | CartItemNotFound   // removing a cart row that is absent or someone else's
    | CartEmpty          // purchasing with nothing staged
    | PurchaseOverLimit  // purchasing when owned plus staged exceed the cap
    | NotInCollection    // releasing a card the user does not own
  {
    /** The HTTP status code the handler answers with. */
    function Status(): nat {
      if this == CardNotFound || this == CartItemNotFound || this == NotInCollection then 404 else 400
    }
  }

  datatype Result<T> = Ok(value: T) | Err(error: Error)

  /** The cap on owned plus staged cards, per user. */
  const Limit: nat := 3

  /** The catalog lookup by card id (the first card with that id). */
  function FindCard(catalog: seq<Card>, id: CardId): (r: Option<Card>)
    ensures r.Some? ==> r.value in catalog && r.value.id == id
    ensures r.None? <==> forall c :: c in catalog ==> c.id != id
  {
    if catalog == [] then None
    else if catalog[0].id == id then Some(catalog[0])
    else FindCard(catalog[1..], id)
  }

  /** Whether the catalog holds a card with this id. */
  predicate Present(catalog: seq<Card>, id: CardId) {
    FindCard(catalog, id).Some?
  }

  /** The position of the first cart row with this id that belongs to `user`. */
  function FindItem(cart: seq<CartItem>, id: ItemId, user: UserId): (r: Option<nat>)
    ensures r.Some? ==> r.value < |cart| && cart[r.value].id == id && cart[r.value].user == user
    ensures r.Some? ==> forall j :: 0 <= j < r.value ==> !(cart[j].id == id && cart[j].user == user)
    ensures r.None? <==> forall it :: it in cart ==> !(it.id == id && it.user == user)
  {
    if cart == [] then None
    else if cart[0].id == id && cart[0].user == user then Some(0)
    else match FindItem(cart[1..], id, user)
      case None => None
      case Some(k) => Some(k + 1)
  }

  /** The position of the first ownership row recording that `user` owns `card`. */
  function FindOwnership(owned: seq<Ownership>, user: UserId, card: CardId): (r: Option<nat>)
    ensures r.Some? ==> r.value < |owned| && owned[r.value] == Ownership(user, card)
    ensures r.Some? ==> forall j :: 0 <= j < r.value ==> owned[j] != Ownership(user, card)
    ensures r.None? <==> Ownership(user, card) !in owned
  {
    if owned == [] then None
    else if owned[0] == Ownership(user, card) then Some(0)
    else match FindOwnership(owned[1..], user, card)
      case None => None
      case Some(k) => Some(k + 1)
  }

  /** The cart rows of `user`, in table order. */
  function CartOf(cart: seq<CartItem>, user: UserId): (r: seq<CartItem>)
    ensures |r| <= |cart|
    ensures forall it :: it in r <==> it in cart && it.user == user
  {
    if cart == [] then []
    else
      var last := cart[|cart| - 1];
      assert cart == cart[..|cart| - 1] + [last];
      CartOf(cart[..|cart| - 1], user) + (if last.user == user then [last] else [])
  }

  /** The card ids of some cart rows, in the same order. */
  function Cards(items: seq<CartItem>): (r: seq<CardId>)
    ensures |r| == |items|
    ensures forall k :: 0 <= k < |items| ==> r[k] == items[k].card
  {
    if items == [] then []
    else Cards(items[..|items| - 1]) + [items[|items| - 1].card]
  }

  /** The card ids `user` owns, in table order. */
  function Held(owned: seq<Ownership>, user: UserId): (r: seq<CardId>)
    ensures |r| <= |owned|
    ensures forall c :: c in r <==> Ownership(user, c) in owned
  {
    if owned == [] then []
    else
      var last := owned[|owned| - 1];
      assert owned == owned[..|owned| - 1] + [last];
      Held(owned[..|owned| - 1], user) + (if last.user == user then [last.card] else [])
  }

  /** Every row id of the cart table names one row. */
  ghost predicate Keyed(cart: seq<CartItem>) {
    forall x, y :: x in cart && y in cart && x.id == y.id ==> x == y
  }

  /** Every row id names one row and is below the next id to hand out. */
  ghost predicate Numbered(cart: seq<CartItem>, next: ItemId) {
    Keyed(cart) && forall it :: it in cart ==> it.id < next
  }

  /** A row appended under the next id keeps the table numbered, one id further on. */
  lemma NumberedSnoc(cart: seq<CartItem>, item: CartItem, next: ItemId)
    requires Numbered(cart, next) && item.id == next
    ensures Numbered(cart + [item], next + 1)
  {
  }

  /** A prefix one longer is the prefix followed by the next element. */
  lemma PrefixSnoc<T>(s: seq<T>, i: nat)
    requires i < |s|
    ensures s[..i + 1] == s[..i] + [s[i]]
  {
  }

  /** Appending to a concatenation appends to its second part. */
  lemma SnocAssoc<T>(a: seq<T>, b: seq<T>, x: T)
    ensures a + b + [x] == a + (b + [x])
  {
  }

  lemma {:induction false} CartOfAppend(a: seq<CartItem>, b: seq<CartItem>, user: UserId)
    ensures CartOf(a + b, user) == CartOf(a, user) + CartOf(b, user)
  {
    if b != [] {
      var last := b[|b| - 1];
      assert (a + b)[..|a + b| - 1] == a + b[..|b| - 1];
      CartOfAppend(a, b[..|b| - 1], user);
    } else {
      assert a + b == a;
    }
  }

  /** Appending a row extends the cart of that row's user and no other. */
  lemma CartOfSnoc(cart: seq<CartItem>, item: CartItem, user: UserId)
    ensures item.user == user ==> CartOf(cart + [item], user) == CartOf(cart, user) + [item]
    ensures item.user != user ==> CartOf(cart + [item], user) == CartOf(cart, user)
  {
    assert (cart + [item])[..|cart|] == cart;
  }

  lemma {:induction false} CardsAppend(a: seq<CartItem>, b: seq<CartItem>)
    ensures Cards(a + b) == Cards(a) + Cards(b)
  {
  }

  /** Appending an ownership row adds its card to that row's user only. */
  lemma HeldSnoc(owned: seq<Ownership>, o: Ownership, user: UserId)
    ensures o.user == user ==> Held(owned + [o], user) == Held(owned, user) + [o.card]
    ensures o.user != user ==> Held(owned + [o], user) == Held(owned, user)
  {
    assert (owned + [o])[..|owned|] == owned;
  }

  lemma {:induction false} HeldAppend(a: seq<Ownership>, b: seq<Ownership>, user: UserId)
    ensures Held(a + b, user) == Held(a, user) + Held(b, user)
  {
    if b != [] {
      assert (a + b)[..|a + b| - 1] == a + b[..|b| - 1];
      HeldAppend(a, b[..|b| - 1], user);
    } else {
      assert a + b == a;
    }
  }
}
