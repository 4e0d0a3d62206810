# Card shop cart and collection, in Dafny

This project models the cart and collection rules of a Pokemon card shop
backend (`main.py`, a FastAPI service over three tables). Each user may hold
at most three cards, counting both the cards they own and the cards staged in
their cart. A user stages a card with add_to_cart. They unstage it with
remove_from_cart or clear_cart. purchase_cart turns staged cards into owned
cards. remove_card_from_collection releases an owned card. Three read
handlers list the catalog with an ownership flag, the user's collection, and
the user's cart.

The tables are sequences held by the class `CardShop.Shop`:

- the catalog (`seq<Card>`), which these handlers never change;
- the cart table (`seq<CartItem>`);
- the ownership table (`seq<Ownership>`).

Each handler is a method on this class and runs as one atomic step. Row
order is table order. A request's filter becomes a function over the table
(`CartOf`, `Held`, `FindCard` and others in `Tables`). A bulk delete or a
conversion becomes a function that gives the new table (`WithoutUser`,
`DeleteRows`, `Unbought` in `Ledger`). Each error the handlers raise is one
constructor of `Tables.Error`, and `Error.Status` gives its HTTP code: 404 for
a missing card, cart row or ownership, and 400 for everything else.

The collection invariant is `Collection.Inv`. It requires, for every user:

- owned plus staged cards number at most 3;
- no card is staged twice;
- no card is owned twice;
- no card is both staged and owned.

Every handler keeps it. Under it, the limit check of purchase_cart can never
refuse.

Two facts about the code shape the model:

- **Purchase is not all-or-nothing.** `main.py:833-849` converts the staged
  rows whose card still exists and leaves the other rows in the cart, and the
  purchase still succeeds. `Scenario.PartialPurchase` shows this on a two-row
  cart.
- **The catalog is a constant.** `main.py` has no route that creates or
  deletes catalog cards (its routes are at `main.py:224-859`).

## Model

| member | source | states |
|---|---|---|
| Tables.FindCard | main.py:708 | the card found is in the catalog with the requested id; nothing is found exactly when no catalog card has that id |
| Tables.FindItem | main.py:776-779 | the position found holds a cart row with that id belonging to the caller, and no earlier row does; nothing is found exactly when no such row exists |
| Tables.FindOwnership | main.py:611-614 | the position found holds the caller's ownership row for that card, and no earlier row does; nothing is found exactly when the caller does not own the card |
| Tables.CartOf | main.py:659 | a row is in the user's cart exactly when it is in the cart table and belongs to that user |
| Tables.Cards | main.py:735-738 | the card ids of the rows, one per row, in order |
| Tables.Held | main.py:509-514 | a card id is listed exactly when the user has an ownership row for it |
| Tables.CartOfSnoc | main.py:743-748 | a new cart row extends its own user's cart and leaves every other user's cart as it was |
| Ledger.WithoutUser | main.py:882 | a row survives clear_cart exactly when it belongs to another user |
| Ledger.DeleteRows | main.py:847 | a row survives exactly when its id is not among the deleted ids |
| Ledger.ByPresence | main.py:835-836 | a staged row is selected exactly when the catalog's holding of its card matches the requested presence |
| Ledger.Grants | main.py:838-842 | one ownership row per converted row |
| Ledger.GrantsExact | main.py:838-847 | the k-th granted row records the buyer and the card of the k-th converted row, and the k-th deleted id is that row's id |
| Ledger.Unbought | main.py:833-849 | a cart row survives a purchase exactly when it is not a row of the buyer whose card exists |
| Ledger.CartOfWithoutUser | main.py:880-885 | after clear_cart the caller's cart is empty and every other user's cart is unchanged |
| Ledger.ClearEmptyIsNoop | main.py:882 | clearing a cart that holds none of the caller's rows leaves the table unchanged |
| Ledger.ClearIdempotent | main.py:880-885 | clearing twice gives the same table as clearing once |
| Ledger.DeleteRowsStep | main.py:846-847 | deleting rows one id at a time equals deleting all those ids together |
| Ledger.DeleteBoughtIsUnbought | main.py:833-849 | on a table whose ids name one row each, deleting the converted rows by id leaves exactly the purchase filter |
| Ledger.CartOfUnbought | main.py:833-849 | after a purchase, the buyer's cart is exactly their rows whose card is gone, and no other user's cart changes |
| Ledger.HeldGrants | main.py:838-842 | the granted rows add the converted cards to the buyer's collection and to no one else's |
| Ledger.BoughtStrandedPartition | main.py:833-847 | every staged row is either converted or left behind, never both and never neither |
| Collection.AddKeepsInv | main.py:720-747 | staging a card that is not owned, not staged, with the user below the cap, keeps the invariant |
| Collection.DeleteItemKeepsInv | main.py:785-786 | deleting any one cart row keeps the invariant |
| Collection.ClearKeepsInv | main.py:882-883 | clearing one user's cart keeps the invariant |
| Collection.ReleaseKeepsInv | main.py:628-629 | deleting any one ownership row keeps the invariant |
| Collection.ReleaseFreesSlot | main.py:594-597 | under the invariant, a released card is no longer owned and the user is below the cap again |
| Collection.PurchaseEffect | main.py:833-849 | a purchase moves the buyer's converted cards from cart to collection, keeps stranded rows staged, and changes no other user's view |
| Collection.PurchaseConserves | main.py:833-849 | for every user, owned plus staged is the same before and after a purchase |
| Collection.PurchaseKeepsInv | main.py:819-849 | a purchase keeps the invariant |
| Views.Resolve | main.py:564-579 | no more cards than ids, each a catalog card whose id was asked for |
| Views.ResolveComplete | main.py:564-579 | every id with a catalog card yields that card, and with no card missing nothing is skipped |
| Views.Lines | main.py:664-676 | no more lines than cart rows |
| Views.LinesExact | main.py:664-676 | each line joins a staged row to its catalog card, every row whose card exists yields its line, and with no card missing no row is skipped |
| Views.Names | main.py:844 | one name per card, in order |
| Views.SumCovers | main.py:843 | the purchase total is at least the price of every card it counts |
| Views.SumAppend | main.py:843 | the total of two runs of cards is the sum of their totals, so accumulating row by row gives the total of the whole cart |
| Views.PurchaseStep | main.py:833-847 | one more staged row adds that row to the converted rows and its card to the resolved cards exactly when the catalog holds the card, and adds nothing otherwise |
| Views.ResolveMatchesBought | main.py:835-847 | the receipt's cards correspond, one for one and in order, to the converted rows |
| CardShop.AddRefusal | main.py:707-740 | the refusal of add_to_cart, checked in order: card missing, already owned, owned plus staged at or over 3, already staged; none exactly when all checks pass; the refusal answers 404 exactly when the card is missing and 400 otherwise |
| CardShop.Shop.AddToCart | main.py:707-750 | fails exactly when AddRefusal refuses, with that error and no change; otherwise appends one row for the caller and card with a fresh id, leaves other users' carts alone, stays within the cap, returns the card name, and keeps the invariant |
| CardShop.Shop.RemoveFromCart | main.py:775-788 | fails with a 404 error and no change exactly when no row with that id belongs to the caller; otherwise deletes exactly the first such row, and keeps the invariant |
| CardShop.Shop.ClearCart | main.py:880-885 | deletes every row of the caller and no other row, and keeps the invariant |
| CardShop.Shop.RemoveCardFromCollection | main.py:610-631 | fails with a 404 error and no change exactly when the caller does not own the card; otherwise deletes the first such ownership row and returns the card name, or "Card" when the catalog lacks it; keeps the invariant and frees a slot |
| CardShop.ConvertStep | main.py:833-847 | the loop's state after one more staged row is one row-step (grant, delete by id, record name and price when the card exists; nothing otherwise) applied to the state before it |
| CardShop.ConvertTables | main.py:833-847 | walking the staged rows appends exactly the grants of the converted rows to the ownership table and deletes exactly their ids from the cart |
| CardShop.ConvertNames | main.py:844 | the names the loop records are those of the resolved cards, in cart order |
| CardShop.ConvertTotal | main.py:843 | the total the loop accumulates is the sum of the prices of the resolved cards |
| CardShop.PurchaseOutcome | main.py:828-849 | the loop over the buyer's whole cart leaves exactly the purchase filter as the cart, grants exactly the converted cards, reports the resolved cards' names and total, keeps every row id naming one row and below the next id, and keeps the invariant |
| CardShop.Shop.ConvertStaged | main.py:828-849 | the loop's final ownership table, cart, names and total equal the row-by-row conversion of the staged rows, which ConvertTables, ConvertNames and ConvertTotal characterize |
| CardShop.Shop.PurchaseCart | main.py:812-857 | fails exactly on an empty cart or when owned plus staged exceeds 3, changing nothing, with a 400 answer; otherwise converts the rows whose card exists and leaves the rest, and reports names, total and count; under the invariant the limit error never occurs and the invariant is kept |
| CardShop.Shop.GetAllCards | main.py:504-533 | the whole catalog in order, each card flagged exactly when the caller owns it |
| CardShop.Shop.GetOwnedCards | main.py:556-581 | the catalog cards of the caller's ownership rows, in row order, skipping cards the catalog lacks |
| CardShop.Shop.GetCart | main.py:658-678 | the caller's cart rows joined to their catalog cards, in row order, skipping rows whose card is missing |

## Left out

- Authentication (JWT tokens, bcrypt password hashes, current-user lookup): the caller arrives as an already authenticated user id. security.py is not part of this model.
- The database engine and sessions (SQLAlchemy, get_db, create_tables.py, seed_cards.py): the tables are plain sequences, and each handler's commit is its method's single atomic step.
- models.py: it defines neither the cart nor the ownership table that main.py imports, and its card columns differ from those main.py reads; the rows here carry only the fields these handlers read.
- Cart row ids: the database assigns each new row its id (`main.py:743-746` passes none), a string by `main.py:754`; the model draws a fresh natural number from the counter `nextItemId`.
- Timestamps (`added_at`, `purchased_at`): they have no effect on any decision, so the responses omit them.
- Card fields the handlers only copy into responses (type, hp, attack, rarity, image, Pokedex number): they are left out of `Card`.
- Prices: the source uses floating-point amounts; the model uses whole cents, so totals add exactly.
- Response messages: the handlers' fixed strings become the `Ok`/`Err` results; only the card name (add, release) and the purchase summary are kept.
- Registration, login, the user list and the admin user routes (`main.py:241-423`): they change only the user table, which this model does not hold. Whether deleting a user also deletes that user's rows depends on database configuration (`main.py:398-399`), which is not part of this model.
- The admin view of a user's cards (`main.py:425-481`): it reads the same ownership rows as get_owned_cards, for a user named in the path.
- Concurrency: every handler is one atomic step, so interleaved requests from one user are not modelled.
- Web framework concerns (routing, CORS, request validation, the 401 answer for a missing token).
