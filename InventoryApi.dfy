/** The `/inventory` router: reading one item, selling it for coins and
    asking for it to be withdrawn. Each handler authenticates with the
    Bearer parser of module `Http`, then insists that the item exists and
    belongs to the caller. Every helper it calls commits on its own, so a
    failure part-way through keeps the writes made before it. */
module InventoryApi {
  import opened Wrappers
  import opened Database
  import opened Http
  import TicketService

  const ItemNotFound := HttpException(404, "Item not found")
  const NoSellableValue := HttpException(400, "This item has no sellable value")
  const WithdrawalCreated := "Withdrawal request created"
  const GiftSale := "gift_sale"
  const GiftWithdrawal := "gift_withdrawal"
  const Completed := "completed"
  const Pending := "pending"

  /** How a handler ends when it does not return: an `HTTPException`, the
      `AttributeError` of reading a balance off a user that is not there, or
      an exception raised by the database layer. */
  datatype ApiError =
    | HttpError(exception: HttpException)
    | AttributeError
    | DatabaseError(error: DbError)

  /** The sale's answer, "Item sold for <gain> <currency>". */
  datatype SaleResponse = SaleResponse(gain: real, currency: string)

  /** The item with this id, if it exists and belongs to `userId`. */
  function OwnedItem(inventory: map<int, InventoryItem>, userId: int, itemId: int): (r: Option<InventoryItem>)
    ensures r.Some? <==> itemId in inventory && inventory[itemId].userId == userId
    ensures r.Some? ==> r.value == inventory[itemId]
  {
    if itemId in inventory && inventory[itemId].userId == userId then Some(inventory[itemId]) else None
  }

  /** What a gift sells for: its coin price, labelled "HRPN", else its TON
      price times 1000, labelled "TON"; a gift with neither has no value. */
  function SaleGain(g: Gift): (r: Option<(real, string)>)
    ensures r.None? <==> g.costCoins.None? && g.costTon.None?
    ensures r.Some? ==> r.value.1 == (if g.costCoins.Some? then "HRPN" else "TON")
  {
    if g.costCoins.Some? then Some((g.costCoins.value, "HRPN"))
    else if g.costTon.Some? then Some((g.costTon.value * 1000.0, "TON"))
    else None
  }

  /** A gift sells for exactly what the lottery values it at, whenever it
      sells at all; the gifts that cannot be sold are the ones the lottery
      values at 0 for want of any price. */
  lemma SaleGainIsLotteryValue(g: Gift)
    ensures SaleGain(g).Some? ==> SaleGain(g).value.0 == TicketService.GiftValueHrpn(g)
    ensures SaleGain(g).None? ==> TicketService.GiftValueHrpn(g) == 0.0
  {
  }

  /** A gift held in the inventory always sells for its coin price in
      HRPN: the TON and no-value branches of `SaleGain` are reached only by
      gifts that did not come from the `gifts` table. */
  lemma StoredGiftSellsForCoins(db: Db, itemId: int)
    requires db.Valid() && itemId in db.inventory
    ensures var g := db.inventory[itemId].gift;
            g.costCoins.Some? && SaleGain(g) == Some((g.costCoins.value, "HRPN"))
  {
  }

  /** `get_item`. */
  method GetItem(db: Db, itemId: int, authorization: Option<string>, decode: string -> Option<int>)
    returns (r: Result<InventoryItem, ApiError>)
    requires db.Valid()
    ensures var auth := GetCurrentUserId(authorization, decode);
            && (auth.Err? ==> r == Err(HttpError(auth.error)))
            && (auth.Ok? && OwnedItem(db.inventory, auth.value, itemId).None? ==> r == Err(HttpError(ItemNotFound)))
            && (auth.Ok? && OwnedItem(db.inventory, auth.value, itemId).Some? ==>
                  r == Ok(db.inventory[itemId]))
    ensures r.Ok? ==> r.value.id == itemId
  {
    var auth := GetCurrentUserId(authorization, decode);
    if auth.Err? {
      return Err(HttpError(auth.error));
    }
    var userId := auth.value;
    var item := db.GetInventoryItem(itemId);
    if item.None? || item.value.userId != userId {
      return Err(HttpError(ItemNotFound));
    }
    return Ok(item.value);
  }

  /** Among the rows `remove_gift_from_user` looks at for the sold item's
      owner and gift is always the sold item itself; when it is the only
      one, it is exactly the sold item. */
  lemma SoldRowMatches(inventory: map<int, InventoryItem>, userId: int, itemId: int)
    requires OwnedItem(inventory, userId, itemId).Some?
    ensures itemId in MatchingRows(inventory, userId, inventory[itemId].gift.id)
    ensures |MatchingRows(inventory, userId, inventory[itemId].gift.id)| == 1 ==>
              MatchingRows(inventory, userId, inventory[itemId].gift.id) == {itemId}
  {
    var rows := MatchingRows(inventory, userId, inventory[itemId].gift.id);
    assert itemId in rows;
    if |rows| == 1 {
      var rest := rows - {itemId};
      assert |rest| == 0;
      assert rest == {};
    }
  }

  /** `sell_item` as written. After the ownership and value checks the
      user's coins are credited the gain (a missing user fails with nothing
      changed); then the row holding the caller's copy of that gift is
      deleted and a completed "gift_sale" transaction for the gain is
      recorded. When the caller holds two or more copies of the gift, the
      deletion raises after the credit has been committed: the coins stay
      credited, the item stays in the inventory and no transaction is
      written. */
  method SellItem(db: Db, itemId: int, authorization: Option<string>, decode: string -> Option<int>)
    returns (r: Result<SaleResponse, ApiError>)
    requires db.Valid()
    modifies db
    ensures db.Valid()
    ensures var auth := GetCurrentUserId(authorization, decode);
            (auth.Err? ==> r == Err(HttpError(auth.error)) && db.users == old(db.users)
                           && db.inventory == old(db.inventory) && db.transactions == old(db.transactions))
    ensures var auth := GetCurrentUserId(authorization, decode);
            auth.Ok? ==>
              var userId := auth.value;
              var item := OwnedItem(old(db.inventory), userId, itemId);
              && (item.None? ==> r == Err(HttpError(ItemNotFound)))
              && (item.Some? && SaleGain(item.value.gift).None? ==> r == Err(HttpError(NoSellableValue)))
              && (item.Some? && SaleGain(item.value.gift).Some? && userId !in old(db.users) ==>
                    r == Err(AttributeError))
              && (r.Err? && r.error != DatabaseError(MultipleResultsFound) ==>
                    db.users == old(db.users) && db.inventory == old(db.inventory)
                    && db.transactions == old(db.transactions))
              && (item.Some? && SaleGain(item.value.gift).Some? && userId in old(db.users) ==>
                    var gift := item.value.gift;
                    var gain := SaleGain(gift).value.0;
                    var rows := MatchingRows(old(db.inventory), userId, gift.id);
                    && db.users == old(db.users)[userId := old(db.users[userId]).(
                                     coinsBalance := old(db.users[userId].coinsBalance) + gain)]
                    && (|rows| == 1 ==>
                          && r == Ok(SaleResponse(gain, SaleGain(gift).value.1))
                          && db.inventory == old(db.inventory) - {itemId}
                          && db.transactions == old(db.transactions) +
                               [Transaction(userId, GiftSale, Some(gain), Some(gift.id), Completed)])
                    && (|rows| >= 2 ==>
                          && r == Err(DatabaseError(MultipleResultsFound))
                          && db.inventory == old(db.inventory)
                          && db.transactions == old(db.transactions)))
  {
    var auth := GetCurrentUserId(authorization, decode);
    if auth.Err? {
      return Err(HttpError(auth.error));
    }
    var userId := auth.value;
    var item := db.GetInventoryItem(itemId);
    if item.None? || item.value.userId != userId {
      return Err(HttpError(ItemNotFound));
    }
    var gift := item.value.gift;
    var sale := SaleGain(gift);
    if sale.None? {
      return Err(HttpError(NoSellableValue));
    }
    var (gain, currency) := sale.value;
    var user := db.GetUserById(userId);
    if user.None? {
      return Err(AttributeError);
    }
    var newBalance := user.value.coinsBalance + gain;
    SoldRowMatches(db.inventory, userId, itemId);
    var _ := db.UpdateUserBalance(userId, None, Some(newBalance));
    var removed := db.RemoveGiftFromUser(userId, gift.id);
    if removed.Err? {
      return Err(DatabaseError(removed.error));
    }
    db.CreateTransaction(Transaction(userId, GiftSale, Some(gain), Some(gift.id), Completed));
    return Ok(SaleResponse(gain, currency));
  }

  /** Two copies of one gift in one user's inventory, which nothing in the
      schema forbids and the lottery produces whenever it awards the same
      gift twice: `remove_gift_from_user` then sees two rows. */
  lemma DuplicateCopiesExample()
    ensures var g := Gift(5, Some(100.0), None);
            var inventory := map[1 := InventoryItem(1, 7, g), 2 := InventoryItem(2, 7, g)];
            && OwnedItem(inventory, 7, 1).Some?
            && |MatchingRows(inventory, 7, g.id)| == 2
  {
    var g := Gift(5, Some(100.0), None);
    var inventory := map[1 := InventoryItem(1, 7, g), 2 := InventoryItem(2, 7, g)];
    assert MatchingRows(inventory, 7, g.id) == {1, 2};
  }

  /** `sell_item` as evidently intended: the sold row itself is deleted, so
      every sale that credits the gain also removes the item and records the
      transaction, however many copies of the gift the caller holds. */
  method SellItemById(db: Db, itemId: int, authorization: Option<string>, decode: string -> Option<int>)
    returns (r: Result<SaleResponse, ApiError>)
    requires db.Valid()
    modifies db
    ensures db.Valid()
    ensures r.Err? ==> db.users == old(db.users) && db.inventory == old(db.inventory)
                       && db.transactions == old(db.transactions)
    ensures var auth := GetCurrentUserId(authorization, decode);
            auth.Ok? ==>
              var userId := auth.value;
              var item := OwnedItem(old(db.inventory), userId, itemId);
              && (item.None? ==> r == Err(HttpError(ItemNotFound)))
              && (item.Some? && SaleGain(item.value.gift).None? ==> r == Err(HttpError(NoSellableValue)))
              && (item.Some? && SaleGain(item.value.gift).Some? && userId !in old(db.users) ==>
                    r == Err(AttributeError))
              && (item.Some? && SaleGain(item.value.gift).Some? && userId in old(db.users) ==>
                    var gift := item.value.gift;
                    var gain := SaleGain(gift).value.0;
                    && r == Ok(SaleResponse(gain, SaleGain(gift).value.1))
                    && db.users == old(db.users)[userId := old(db.users[userId]).(
                                     coinsBalance := old(db.users[userId].coinsBalance) + gain)]
                    && db.inventory == old(db.inventory) - {itemId}
                    && db.transactions == old(db.transactions) +
                         [Transaction(userId, GiftSale, Some(gain), Some(gift.id), Completed)])
    ensures r.Ok? ==> itemId in old(db.inventory) && itemId !in db.inventory
                      && |db.transactions| == |old(db.transactions)| + 1
  {
    var auth := GetCurrentUserId(authorization, decode);
    if auth.Err? {
      return Err(HttpError(auth.error));
    }
    var userId := auth.value;
    var item := db.GetInventoryItem(itemId);
    if item.None? || item.value.userId != userId {
      return Err(HttpError(ItemNotFound));
    }
    var gift := item.value.gift;
    var sale := SaleGain(gift);
    if sale.None? {
      return Err(HttpError(NoSellableValue));
    }
    var (gain, currency) := sale.value;
    var user := db.GetUserById(userId);
    if user.None? {
      return Err(AttributeError);
    }
    var newBalance := user.value.coinsBalance + gain;
    var _ := db.UpdateUserBalance(userId, None, Some(newBalance));
    db.DeleteInventoryItem(itemId);
    db.CreateTransaction(Transaction(userId, GiftSale, Some(gain), Some(gift.id), Completed));
    return Ok(SaleResponse(gain, currency));
  }

  /** `withdraw_item`: after the ownership check one pending
      "gift_withdrawal" transaction without an amount is recorded for the
      item's gift; balances and inventory are untouched (the item stays
      until someone processes the request). */
  method WithdrawItem(db: Db, itemId: int, authorization: Option<string>, decode: string -> Option<int>)
    returns (r: Result<string, ApiError>)
    requires db.Valid()
    modifies db
    ensures db.Valid()
    ensures db.users == old(db.users) && db.inventory == old(db.inventory)
    ensures var auth := GetCurrentUserId(authorization, decode);
            && (auth.Err? ==> r == Err(HttpError(auth.error)) && db.transactions == old(db.transactions))
            && (auth.Ok? && OwnedItem(old(db.inventory), auth.value, itemId).None? ==>
                  r == Err(HttpError(ItemNotFound)) && db.transactions == old(db.transactions))
            && (auth.Ok? && OwnedItem(old(db.inventory), auth.value, itemId).Some? ==>
                  && r == Ok(WithdrawalCreated)
                  && db.transactions == old(db.transactions) +
                       [Transaction(auth.value, GiftWithdrawal, None, Some(old(db.inventory[itemId]).gift.id), Pending)])
  {
    var auth := GetCurrentUserId(authorization, decode);
    if auth.Err? {
      return Err(HttpError(auth.error));
    }
    var userId := auth.value;
    var item := db.GetInventoryItem(itemId);
    if item.None? || item.value.userId != userId {
      return Err(HttpError(ItemNotFound));
    }
    db.CreateTransaction(Transaction(userId, GiftWithdrawal, None, Some(item.value.gift.id), Pending));
    return Ok(WithdrawalCreated);
  }
}
