/** `convert_currency_for_user`: exchanging coins (HRPN) for TON or back at
    the fixed rate of 1000 coins per TON, as one write through
    `update_user_balance`. */
module BalanceService {
  import opened Wrappers
  import opened Database
  import opened Http

  const Rate: real := 1000.0

  const AmountNotPositive := HttpException(400, "Amount must be positive")
  const UserNotFound := HttpException(404, "User not found")
  const NotEnoughHrpn := HttpException(400, "Not enough HRPN")
  const NotEnoughTon := HttpException(400, "Not enough TON")
  const InvalidCurrency := HttpException(400, "Invalid currency")

  /** The `ExchangeResponse` the service returns. */
  datatype ExchangeResponse = ExchangeResponse(
    fromCurrency: string,
    toCurrency: string,
    convertedAmount: real,
    newTonBalance: real,
    newHrpnBalance: real)

  /** The balance arithmetic applied to one ledger record `u`: the amount
      must be positive, the currency "hrpn" or "ton", and the balance spent
      must cover the amount. A conversion keeps the record's value in coins,
      keeps non-negative balances non-negative, and touches nothing but the
      two balances. */
  function Convert(u: User, inCurrency: string, amount: real): (r: Result<User, HttpException>)
    ensures amount <= 0.0 ==> r == Err(AmountNotPositive)
    ensures r.Ok? <==> amount > 0.0 && ((inCurrency == "hrpn" && u.coinsBalance >= amount)
                                       || (inCurrency == "ton" && u.tonBalance >= amount))
    ensures amount > 0.0 && inCurrency != "hrpn" && inCurrency != "ton" ==> r == Err(InvalidCurrency)
    ensures amount > 0.0 && inCurrency == "hrpn" && u.coinsBalance < amount ==> r == Err(NotEnoughHrpn)
    ensures amount > 0.0 && inCurrency == "ton" && u.tonBalance < amount ==> r == Err(NotEnoughTon)
    ensures r.Ok? ==> r.value.id == u.id
    ensures r.Ok? ==> r.value.coinsBalance + Rate * r.value.tonBalance == u.coinsBalance + Rate * u.tonBalance
    ensures r.Ok? && u.coinsBalance >= 0.0 && u.tonBalance >= 0.0 ==>
              r.value.coinsBalance >= 0.0 && r.value.tonBalance >= 0.0
    ensures r.Ok? && inCurrency == "hrpn" ==> r.value.coinsBalance == u.coinsBalance - amount
    ensures r.Ok? && inCurrency == "ton" ==> r.value.tonBalance == u.tonBalance - amount
    ensures r.Err? ==> r.error.statusCode == 400
  {
    if amount <= 0.0 then Err(AmountNotPositive)
    else if inCurrency == "hrpn" then
      if u.coinsBalance < amount then Err(NotEnoughHrpn)
      else Ok(u.(coinsBalance := u.coinsBalance - amount, tonBalance := u.tonBalance + amount / Rate))
    else if inCurrency == "ton" then
      if u.tonBalance < amount then Err(NotEnoughTon)
      else Ok(u.(tonBalance := u.tonBalance - amount, coinsBalance := u.coinsBalance + amount * Rate))
    else Err(InvalidCurrency)
  }

  /** Converting coins to TON and then exactly the TON received back to
      coins restores the record (when the TON balance was not negative, so
      that the TON received covers the second conversion). */
  lemma HrpnThenTonRestores(u: User, amount: real)
    requires Convert(u, "hrpn", amount).Ok? && u.tonBalance >= 0.0
    ensures var v := Convert(u, "hrpn", amount).value;
            Convert(v, "ton", amount / Rate) == Ok(u)
  {
    var v := Convert(u, "hrpn", amount).value;
    assert v.tonBalance >= amount / Rate;
  }

  /** Converting TON to coins and then exactly the coins received back to
      TON restores the record (when the coin balance was not negative). */
  lemma TonThenHrpnRestores(u: User, amount: real)
    requires Convert(u, "ton", amount).Ok? && u.coinsBalance >= 0.0
    ensures var v := Convert(u, "ton", amount).value;
            Convert(v, "hrpn", amount * Rate) == Ok(u)
  {
    var v := Convert(u, "ton", amount).value;
    assert v.coinsBalance >= amount * Rate;
    assert amount * Rate / Rate == amount;
  }

  /** `convert_currency_for_user`. The amount is checked before the user is
      looked up; every failure leaves the ledger as it was; a success writes
      both balances of that one user as `Convert` computes them and reports
      the other currency, the amount received and the balances written. */
  method ConvertCurrencyForUser(db: Db, userId: int, inCurrency: string, amount: real)
    returns (r: Result<ExchangeResponse, HttpException>)
    requires db.Valid()
    modifies db
    ensures db.Valid()
    ensures amount <= 0.0 ==> r == Err(AmountNotPositive)
    ensures amount > 0.0 && userId !in old(db.users) ==> r == Err(UserNotFound)
    ensures amount > 0.0 && userId in old(db.users) ==>
              var c := Convert(old(db.users[userId]), inCurrency, amount);
              && (c.Err? ==> r == Err(c.error))
              && (c.Ok? ==> r.Ok? && db.users == old(db.users)[userId := c.value])
    ensures r.Err? ==> db.users == old(db.users)
    ensures r.Ok? ==>
              && userId in db.users
              && r.value.fromCurrency == inCurrency
              && r.value.toCurrency == (if inCurrency == "hrpn" then "ton" else "hrpn")
              && r.value.convertedAmount == (if inCurrency == "hrpn" then amount / Rate else amount * Rate)
              && r.value.newTonBalance == db.users[userId].tonBalance
              && r.value.newHrpnBalance == db.users[userId].coinsBalance
    ensures db.inventory == old(db.inventory) && db.transactions == old(db.transactions)
  {
    if amount <= 0.0 {
      return Err(AmountNotPositive);
    }
    var user := db.GetUserById(userId);
    if user.None? {
      return Err(UserNotFound);
    }
    var u := user.value;
    var convertedAmount, newHrpn, newTon;
    if inCurrency == "hrpn" {
      if u.coinsBalance < amount {
        return Err(NotEnoughHrpn);
      }
      convertedAmount := amount / Rate;
      newHrpn := u.coinsBalance - amount;
      newTon := u.tonBalance + convertedAmount;
    } else if inCurrency == "ton" {
      if u.tonBalance < amount {
        return Err(NotEnoughTon);
      }
      convertedAmount := amount * Rate;
      newTon := u.tonBalance - amount;
      newHrpn := u.coinsBalance + convertedAmount;
    } else {
      return Err(InvalidCurrency);
    }
    var _ := db.UpdateUserBalance(userId, Some(newTon), Some(newHrpn));
    var toCurrency := if inCurrency == "hrpn" then "ton" else "hrpn";
    return Ok(ExchangeResponse(inCurrency, toCurrency, convertedAmount, newTon, newHrpn));
  }
}
