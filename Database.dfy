/** The relational store as the modelled code sees it: the `users` ledger
    (two balances per user), the `inventory` rows with their gift loaded, and
    the append-only `transactions` table, together with the CRUD helpers the
    services write through (`get_user_by_id`, `update_user_balance`,
    `get_inventory_item`, `remove_gift_from_user`, `create_transaction`).
    Every helper commits on its own, so a later failure never undoes an
    earlier helper's write. */
module Database {
  import opened Wrappers

  /** A `users` row, reduced to its key and its two balances: TON and the
      in-game coins (HRPN). */
  datatype User = User(id: int, tonBalance: real, coinsBalance: real)

  /** A gift: its price in coins and its price in TON, each possibly
      missing. The `gifts` table declares the coin price NOT NULL, so a gift
      loaded from it always has one (see `Db.Valid`); the lottery's gift
      lists are taken as given and may lack either. */
  datatype Gift = Gift(id: int, costCoins: Option<real>, costTon: Option<real>)

  /** An `inventory` row (the user owns one copy of the gift), with its gift
      relationship loaded. */
  datatype InventoryItem = InventoryItem(id: int, userId: int, gift: Gift)

  /** A `transactions` row as `create_transaction` inserts it. */
  datatype Transaction = Transaction(userId: int, kind: string, amount: Option<real>,
                                     giftId: Option<int>, status: string)

  /** `scalar_one_or_none()` raises when the query matched more than one row. */
  datatype DbError = MultipleResultsFound

  /** The rows of `inventory` owned by `userId` that hold gift `giftId`. */
  function MatchingRows(inventory: map<int, InventoryItem>, userId: int, giftId: int): set<int> {
    set id | id in inventory && inventory[id].userId == userId && inventory[id].gift.id == giftId
  }

  class Db {
    var users: map<int, User>
    var inventory: map<int, InventoryItem>
    var transactions: seq<Transaction>

    /** Primary keys: each row is stored under its own id; and the gift of
        every inventory row has its NOT NULL coin price. */
    ghost predicate Valid()
      reads this
    {
      && (forall id :: id in users ==> users[id].id == id)
      && (forall id :: id in inventory ==> inventory[id].id == id)
      && (forall id :: id in inventory ==> inventory[id].gift.costCoins.Some?)
    }

    constructor (users: map<int, User>, inventory: map<int, InventoryItem>)
      requires forall id :: id in users ==> users[id].id == id
      requires forall id :: id in inventory ==> inventory[id].id == id
      requires forall id :: id in inventory ==> inventory[id].gift.costCoins.Some?
      ensures Valid()
      ensures this.users == users && this.inventory == inventory && transactions == []
    {
      this.users := users;
      this.inventory := inventory;
      transactions := [];
    }

    /** `get_user_by_id`: the user whose id matches, or `None`. */
    function GetUserById(userId: int): (r: Option<User>)
      reads this
      requires Valid()
      ensures r.Some? ==> r.value in users.Values && r.value.id == userId
      ensures r.None? ==> forall k :: k in users ==> users[k].id != userId
    {
      if userId in users then Some(users[userId]) else None
    }

    /** `update_user_balance`: on an unknown id nothing changes and `None` is
        returned; otherwise each balance that is passed replaces the stored
        one, each balance that is `None` is kept, and the updated record is
        returned. */
    method UpdateUserBalance(userId: int, tonBalance: Option<real>, coinsBalance: Option<real>)
      returns (r: Option<User>)
      requires Valid()
      modifies this
      ensures Valid()
      ensures userId !in old(users) ==> r.None? && users == old(users)
      ensures userId in old(users) ==> r.Some? && users == old(users)[userId := r.value]
      ensures r.Some? ==> r.value.id == userId
      ensures r.Some? ==> r.value.tonBalance == (if tonBalance.Some? then tonBalance.value
                                                 else old(users[userId].tonBalance))
      ensures r.Some? ==> r.value.coinsBalance == (if coinsBalance.Some? then coinsBalance.value
                                                   else old(users[userId].coinsBalance))
      ensures inventory == old(inventory) && transactions == old(transactions)
    {
      var found := GetUserById(userId);
      if found.None? {
        return None;
      }
      var user := found.value;
      if tonBalance.Some? {
        user := user.(tonBalance := tonBalance.value);
      }
      if coinsBalance.Some? {
        user := user.(coinsBalance := coinsBalance.value);
      }
      users := users[userId := user];
      return Some(user);
    }

    /** `get_inventory_item`: the inventory row with this id, or `None`. */
    function GetInventoryItem(itemId: int): (r: Option<InventoryItem>)
      reads this
      requires Valid()
      ensures r.Some? ==> r.value in inventory.Values && r.value.id == itemId
      ensures r.None? ==> forall k :: k in inventory ==> inventory[k].id != itemId
    {
      if itemId in inventory then Some(inventory[itemId]) else None
    }

    /** `remove_gift_from_user`: looks up THE row of `userId` holding gift
        `giftId`; no such row gives `false`, exactly one is deleted (`true`),
        and more than one makes `scalar_one_or_none` raise, deleting nothing. */
    method RemoveGiftFromUser(userId: int, giftId: int) returns (r: Result<bool, DbError>)
      requires Valid()
      modifies this
      ensures Valid()
      ensures var rows := MatchingRows(old(inventory), userId, giftId);
              && (|rows| == 0 ==> r == Ok(false) && inventory == old(inventory))
              && (|rows| == 1 ==> r == Ok(true) && inventory == old(inventory) - rows)
              && (|rows| >= 2 ==> r == Err(MultipleResultsFound) && inventory == old(inventory))
      ensures users == old(users) && transactions == old(transactions)
    {
      var rows := MatchingRows(inventory, userId, giftId);
      if |rows| == 0 {
        return Ok(false);
      } else if |rows| == 1 {
        inventory := inventory - rows;
        return Ok(true);
      } else {
        return Err(MultipleResultsFound);
      }
    }

    /** `session.delete(item)` followed by a commit: the row with this id
        is gone, whatever gift it holds. */
    method DeleteInventoryItem(itemId: int)
      requires Valid()
      modifies this
      ensures Valid()
      ensures inventory == old(inventory) - {itemId}
      ensures users == old(users) && transactions == old(transactions)
    {
      inventory := inventory - {itemId};
    }

    /** `create_transaction`: appends one row. */
    method CreateTransaction(tx: Transaction)
      modifies this
      ensures transactions == old(transactions) + [tx]
      ensures users == old(users) && inventory == old(inventory)
    {
      transactions := transactions + [tx];
    }
  }
}
