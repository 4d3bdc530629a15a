/** The lottery of `ticket_service.py`: the price tables, the value of a
    gift in coins, the balance check and debit of `buy_ticket`, and
    `generate_wins`, which draws a multiplier, splits the prize value into
    one part per prize and picks a gift for each part. Every random draw
    (`random.random()` and the draw behind `random.uniform(a, b)`) is a
    parameter in [0, 1]. */
module TicketService {
  import opened Wrappers
  import opened Database
  import opened RealArith

  /** `TICKET_PRICES` as the module finally binds it: the second assignment
      replaces the per-currency table by one price in coins per type. */
  const TicketPrices: map<string, real> := map["bronze" := 1000.0, "silver" := 10000.0, "gold" := 100000.0]

  /** `TICKET_WIN_COUNTS`: how many gifts a ticket of each type awards. */
  const TicketWinCounts: map<string, nat> := map["bronze" := 1, "silver" := 2, "gold" := 4]

  /** `TON_TO_HRPN`. */
  const TonToHrpn: real := 1000.0

  datatype TicketError =
    | UserNotFound     // ValueError("User not found")
    | NotEnoughCoins   // ValueError("Not enough coins")
    | NotEnoughTon     // ValueError("Not enough ton")
    | KeyError         // an unknown ticket type
    | TypeError        // subscripting the integer price of a known type

  // ---------------------------------------------------------------------
  // Gift valuation
  // ---------------------------------------------------------------------

  /** `get_gift_value_hrpn`: the coin price if there is one, else the TON
      price converted to coins, else nothing (0). */
  function GiftValueHrpn(g: Gift): (v: real)
    ensures g.costCoins.Some? ==> v == g.costCoins.value
    ensures g.costCoins.None? && g.costTon.Some? ==> v == g.costTon.value * TonToHrpn
    ensures g.costCoins.None? && g.costTon.None? ==> v == 0.0
    ensures (g.costCoins.Some? ==> g.costCoins.value >= 0.0) && (g.costTon.Some? ==> g.costTon.value >= 0.0)
            ==> v >= 0.0
  {
    if g.costCoins.Some? then g.costCoins.value
    else if g.costTon.Some? then g.costTon.value * TonToHrpn
    else 0.0
  }

  // ---------------------------------------------------------------------
  // buy_ticket
  // ---------------------------------------------------------------------

  /** `TICKET_PRICES[ticket_type][currency]` against the table as bound:
      an unknown type has no entry, and a known type maps to a number,
      which cannot be subscripted. The lookup never yields a cost. */
  function TicketCostLookup(ticketType: string, currency: string): (r: Result<real, TicketError>)
    ensures r.Err?
    ensures r.error == (if ticketType in TicketPrices then TypeError else KeyError)
  {
    if ticketType !in TicketPrices then Err(KeyError) else Err(TypeError)
  }

  /** `buy_ticket` as written: after the user lookup the cost lookup raises,
      so no call ever reaches the balance check; the ledger never changes. */
  method BuyTicket(db: Db, userId: int, ticketType: string, currency: string)
    returns (r: Result<real, TicketError>)
    requires db.Valid()
    ensures r.Err?
    ensures userId !in db.users ==> r == Err(UserNotFound)
    ensures userId in db.users ==> r == TicketCostLookup(ticketType, currency)
  {
    var user := db.GetUserById(userId);
    if user.None? {
      return Err(UserNotFound);
    }
    var ticketCost := TicketCostLookup(ticketType, currency);
    return Err(ticketCost.error);
  }

  /** The balance check and debit of `buy_ticket`, for a cost the price
      table would have supplied: "hrpn" is paid in coins, any other currency
      in TON. A balance below the cost fails with no change; otherwise
      exactly the cost leaves that one balance of that one user. */
  method ChargeTicket(db: Db, userId: int, currency: string, ticketCost: real)
    returns (r: Result<User, TicketError>)
    requires db.Valid()
    modifies db
    ensures db.Valid()
    ensures userId !in old(db.users) ==> r == Err(UserNotFound)
    ensures (userId in old(db.users) && currency == "hrpn" && old(db.users[userId].coinsBalance) < ticketCost)
              ==> r == Err(NotEnoughCoins)
    ensures (userId in old(db.users) && currency != "hrpn" && old(db.users[userId].tonBalance) < ticketCost)
              ==> r == Err(NotEnoughTon)
    ensures r.Err? ==> db.users == old(db.users)
    ensures r.Ok? ==>
              && userId in old(db.users)
              && db.users == old(db.users)[userId := r.value]
              && (currency == "hrpn" ==>
                    r.value == old(db.users[userId]).(coinsBalance := old(db.users[userId].coinsBalance) - ticketCost))
              && (currency != "hrpn" ==>
                    r.value == old(db.users[userId]).(tonBalance := old(db.users[userId].tonBalance) - ticketCost))
    ensures db.inventory == old(db.inventory) && db.transactions == old(db.transactions)
  {
    var found := db.GetUserById(userId);
    if found.None? {
      return Err(UserNotFound);
    }
    var user := found.value;
    if currency == "hrpn" {
      if user.coinsBalance < ticketCost {
        return Err(NotEnoughCoins);
      }
      user := user.(coinsBalance := user.coinsBalance - ticketCost);
    } else {
      if user.tonBalance < ticketCost {
        return Err(NotEnoughTon);
      }
      user := user.(tonBalance := user.tonBalance - ticketCost);
    }
    db.users := db.users[userId := user];
    return Ok(user);
  }

  // ---------------------------------------------------------------------
  // generate_wins, step 1: the multiplier
  // ---------------------------------------------------------------------

  /** `random.uniform(a, b)` for the underlying draw `u` in [0, 1]. */
  function Uniform(a: real, b: real, u: real): (x: real)
    ensures a <= b && 0.0 <= u <= 1.0 ==> a <= x <= b
  {
    if a <= b && 0.0 <= u <= 1.0 then
      MulNonNegative(b - a, u);
      MulNonNegative(b - a, 1.0 - u);
      a + (b - a) * u
    else
      a + (b - a) * u
  }

  /** The prize multiplier for the draws `r` and `u`: none below 0.10, then
      the bands [1.0, 1.5], [0.6, 1.0] and [0.2, 0.6] for `r` below 0.30,
      below 0.80 and from 0.80 on. */
  function Multiplier(r: real, u: real): (m: Option<real>)
    requires 0.0 <= u <= 1.0
    ensures m.None? <==> r < 0.10
    ensures 0.10 <= r < 0.30 ==> 1.0 <= m.value <= 1.5
    ensures 0.30 <= r < 0.80 ==> 0.6 <= m.value <= 1.0
    ensures 0.80 <= r ==> 0.2 <= m.value <= 0.6
    ensures m.Some? ==> 0.2 <= m.value <= 1.5
  {
    if r < 0.10 then None
    else if r < 0.30 then Some(Uniform(1.0, 1.5, u))
    else if r < 0.80 then Some(Uniform(0.6, 1.0, u))
    else Some(Uniform(0.2, 0.6, u))
  }

  // ---------------------------------------------------------------------
  // generate_wins, step 2: splitting the prize value
  // ---------------------------------------------------------------------

  function Sum(s: seq<real>): real {
    if s == [] then 0.0 else s[0] + Sum(s[1..])
  }

  /** The parts `total` is split into: each part but the last is a
      fraction in [0.2, 0.5] of what is left (`draws[i]` stands for the draw
      behind the i-th `random.uniform(0.2, 0.5)`), and the last part is
      the rest. */
  function SplitParts(total: real, count: nat, draws: seq<real>): (parts: seq<real>)
    requires |draws| >= count - 1
    ensures |parts| == count
    decreases count
  {
    if count == 0 then []
    else if count == 1 then [total]
    else
      var part := total * Uniform(0.2, 0.5, draws[0]);
      [part] + SplitParts(total - part, count - 1, draws[1..])
  }

  /** The parts add up to the total exactly. */
  lemma {:induction false} SplitPartsSum(total: real, count: nat, draws: seq<real>)
    requires count >= 1 && |draws| >= count - 1
    ensures Sum(SplitParts(total, count, draws)) == total
    decreases count
  {
    if count > 1 {
      var part := total * Uniform(0.2, 0.5, draws[0]);
      var rest := SplitParts(total - part, count - 1, draws[1..]);
      SplitPartsSum(total - part, count - 1, draws[1..]);
      assert ([part] + rest)[1..] == rest;
    }
  }

  /** A non-negative total splits into parts that are non-negative and no
      larger than it; each part but the last takes between a fifth and a
      half of what the earlier parts left. */
  lemma {:induction false} SplitPartsBounds(total: real, count: nat, draws: seq<real>)
    requires |draws| >= count - 1
    requires forall i :: 0 <= i < |draws| ==> 0.0 <= draws[i] <= 1.0
    requires total >= 0.0
    ensures var parts := SplitParts(total, count, draws);
            forall i :: 0 <= i < count ==> 0.0 <= parts[i] <= total
    ensures count >= 2 ==> 0.2 * total <= SplitParts(total, count, draws)[0] <= 0.5 * total
    decreases count
  {
    if count > 1 {
      assert 0.0 <= draws[0] <= 1.0;
      var x := Uniform(0.2, 0.5, draws[0]);
      var part := total * x;
      ScaledBetween(total, x, 0.2, 0.5);
      assert 0.2 * total <= total * x;
      assert total * x <= 0.5 * total;
      assert 0.2 * total <= part <= 0.5 * total;
      assert SplitParts(total, count, draws)[0] == part;
      var tail := draws[1..];
      assert forall i :: 0 <= i < |tail| ==> tail[i] == draws[i + 1];
      var rest := SplitParts(total - part, count - 1, tail);
      SplitPartsBounds(total - part, count - 1, tail);
      var parts := SplitParts(total, count, draws);
      assert parts[0] == part && parts[1..] == rest;
      forall i | 0 <= i < count
        ensures 0.0 <= parts[i] <= total
      {
        if i > 0 {
          assert parts[i] == parts[1..][i - 1];
        }
      }
    }
  }

  /** Step 2 of `generate_wins`: the loop that appends a part per prize and
      takes each part off what remains. */
  method SplitPrize(total: real, count: nat, draws: seq<real>) returns (parts: seq<real>)
    requires count >= 1 && |draws| >= count - 1
    requires forall i :: 0 <= i < |draws| ==> 0.0 <= draws[i] <= 1.0
    ensures parts == SplitParts(total, count, draws)
  {
    parts := [];
    var remaining := total;
    for i := 0 to count
      invariant |parts| == i
      invariant i < count ==> parts + SplitParts(remaining, count - i, draws[i..]) == SplitParts(total, count, draws)
      invariant i == count ==> parts == SplitParts(total, count, draws)
    {
      var later := SplitParts(remaining, count - i, draws[i..]);
      if i == count - 1 {
        assert later == [remaining];
        parts := parts + [remaining];
        remaining := 0.0;
      } else {
        var part := remaining * Uniform(0.2, 0.5, draws[i]);
        assert draws[i..][0] == draws[i] && draws[i..][1..] == draws[i + 1..];
        var rest := SplitParts(remaining - part, count - i - 1, draws[i + 1..]);
        assert later[0] == part && later[1..] == rest;
        assert later == [part] + rest;
        parts := parts + [part];
        remaining := remaining - part;
      }
    }
  }

  // ---------------------------------------------------------------------
  // generate_wins, step 3: choosing a gift for a part
  // ---------------------------------------------------------------------

  /** A gift is affordable for `value` when it is worth no more than it. */
  predicate Affordable(gifts: seq<Gift>, value: real, j: int)
    requires 0 <= j < |gifts|
  {
    GiftValueHrpn(gifts[j]) <= value
  }

  /** The rule of step 3 for index `i`: if some gift is affordable, `i` is
      the FIRST affordable gift of the greatest value among the affordable
      ones (as `max` returns the first maximum); otherwise it is the first
      gift of the least value overall (as `min` does). */
  predicate Chosen(gifts: seq<Gift>, value: real, i: int) {
    && 0 <= i < |gifts|
    && if exists j :: 0 <= j < |gifts| && Affordable(gifts, value, j) then
         && Affordable(gifts, value, i)
         && (forall j :: 0 <= j < |gifts| && Affordable(gifts, value, j) ==>
               GiftValueHrpn(gifts[j]) <= GiftValueHrpn(gifts[i]))
         && (forall j :: 0 <= j < i && Affordable(gifts, value, j) ==>
               GiftValueHrpn(gifts[j]) < GiftValueHrpn(gifts[i]))
       else
         && (forall j :: 0 <= j < |gifts| ==> GiftValueHrpn(gifts[i]) <= GiftValueHrpn(gifts[j]))
         && (forall j :: 0 <= j < i ==> GiftValueHrpn(gifts[i]) < GiftValueHrpn(gifts[j]))
  }

  /** The rule picks at most one gift: two indices it allows are equal. */
  lemma ChosenUnique(gifts: seq<Gift>, value: real, i: int, k: int)
    requires Chosen(gifts, value, i) && Chosen(gifts, value, k)
    ensures i == k
  {
  }

  /** The gift picked for one part: one pass keeping the best affordable
      gift so far and the cheapest gift so far, each replaced only by a
      strictly better one. */
  method PickGift(gifts: seq<Gift>, value: real) returns (i: nat)
    requires |gifts| > 0
    ensures Chosen(gifts, value, i)
  {
    var best: int := -1;
    var cheapest := 0;
    var j := 0;
    while j < |gifts|
      invariant 0 <= j <= |gifts|
      invariant 0 <= cheapest < |gifts| && cheapest <= j && (j > 0 ==> cheapest < j)
      invariant j > 0 ==> forall k :: 0 <= k < j ==> GiftValueHrpn(gifts[cheapest]) <= GiftValueHrpn(gifts[k])
      invariant forall k :: 0 <= k < cheapest ==> GiftValueHrpn(gifts[cheapest]) < GiftValueHrpn(gifts[k])
      invariant -1 <= best < j
      invariant best == -1 <==> forall k :: 0 <= k < j ==> !Affordable(gifts, value, k)
      invariant best >= 0 ==>
                  && Affordable(gifts, value, best)
                  && (forall k :: 0 <= k < j && Affordable(gifts, value, k) ==>
                        GiftValueHrpn(gifts[k]) <= GiftValueHrpn(gifts[best]))
                  && (forall k :: 0 <= k < best && Affordable(gifts, value, k) ==>
                        GiftValueHrpn(gifts[k]) < GiftValueHrpn(gifts[best]))
    {
      var v := GiftValueHrpn(gifts[j]);
      assert Affordable(gifts, value, j) <==> v <= value;
      if v < GiftValueHrpn(gifts[cheapest]) {
        cheapest := j;
      }
      if v <= value && (best == -1 || v > GiftValueHrpn(gifts[best])) {
        best := j;
      }
      j := j + 1;
    }
    if best >= 0 {
      i := best;
    } else {
      i := cheapest;
    }
  }

  /** Step 3 of `generate_wins`: one gift per part, in order; `picks`
      records the catalogue index of each. */
  method PickGifts(gifts: seq<Gift>, parts: seq<real>) returns (wins: seq<Gift>, ghost picks: seq<nat>)
    requires |gifts| > 0
    ensures |wins| == |picks| == |parts|
    ensures forall i :: 0 <= i < |parts| ==>
              picks[i] < |gifts| && wins[i] == gifts[picks[i]] && Chosen(gifts, parts[i], picks[i])
  {
    wins, picks := [], [];
    for k := 0 to |parts|
      invariant |wins| == |picks| == k
      invariant forall i :: 0 <= i < k ==>
                  picks[i] < |gifts| && wins[i] == gifts[picks[i]] && Chosen(gifts, parts[i], picks[i])
    {
      var i := PickGift(gifts, parts[k]);
      wins := wins + [gifts[i]];
      picks := picks + [i];
    }
  }

  /** `wins`, `parts` and `picks` are what tickets of price `price` with
      `count` prizes award for the multiplier `m`: the prize value, price
      times multiplier, lies between 0.2 and 1.5 times the price, the parts
      are its split and add up to it, and the i-th gift is the catalogue
      entry `picks[i]`, chosen by the rule for the i-th part. */
  ghost predicate PrizeAwarded(gifts: seq<Gift>, price: real, count: nat, m: real, draws: seq<real>,
                               wins: seq<Gift>, parts: seq<real>, picks: seq<nat>)
    requires |draws| >= count - 1
  {
    && |wins| == |parts| == |picks| == count
    && 0.2 * price <= price * m <= 1.5 * price
    && parts == SplitParts(price * m, count, draws)
    && Sum(parts) == price * m
    && forall i :: 0 <= i < |wins| ==>
         picks[i] < |gifts| && wins[i] == gifts[picks[i]] && Chosen(gifts, parts[i], picks[i])
  }

  /** Steps 2 and 3 of `generate_wins` once the ticket's price, prize count
      and multiplier are known: the prize value split into one part per
      prize, and a gift chosen for each part. */
  method AwardPrizes(gifts: seq<Gift>, price: real, maxPrizes: nat, m: real, splitDraws: seq<real>)
    returns (wins: seq<Gift>, ghost parts: seq<real>, ghost picks: seq<nat>)
    requires |gifts| > 0 && price >= 0.0 && maxPrizes >= 1 && 0.2 <= m <= 1.5
    requires |splitDraws| >= maxPrizes - 1
    requires forall i :: 0 <= i < |splitDraws| ==> 0.0 <= splitDraws[i] <= 1.0
    ensures PrizeAwarded(gifts, price, maxPrizes, m, splitDraws, wins, parts, picks)
  {
    var totalWinValue := price * m;
    ScaledBetween(price, m, 0.2, 1.5);
    var split := SplitPrize(totalWinValue, maxPrizes, splitDraws);
    SplitPartsSum(totalWinValue, maxPrizes, splitDraws);
    parts := split;
    wins, picks := PickGifts(gifts, split);
  }

  // ---------------------------------------------------------------------
  // generate_wins
  // ---------------------------------------------------------------------

  /** The two ticket tables have the same types, each with a positive
      price and at least one prize. */
  lemma TicketTables(ticketType: string)
    requires ticketType in TicketPrices
    ensures ticketType in TicketWinCounts
    ensures TicketPrices[ticketType] > 0.0 && TicketWinCounts[ticketType] >= 1
  {
  }

  /** `generate_wins` for the gift catalogue `gifts` and the draws `r`
      (outcome), `u` (multiplier) and `splitDraws` (split fractions). No
      gifts, or an outcome draw below 0.10, win nothing; an unknown ticket
      type raises once there are gifts; otherwise there is one gift per
      prize of the type, each chosen by the rule for its part, and the
      parts add up to the ticket price times the multiplier. */
  method GenerateWins(gifts: seq<Gift>, ticketType: string, r: real, u: real, splitDraws: seq<real>)
    returns (wins: Result<seq<Gift>, TicketError>, ghost parts: seq<real>, ghost picks: seq<nat>)
    requires 0.0 <= u <= 1.0
    requires forall i :: 0 <= i < |splitDraws| ==> 0.0 <= splitDraws[i] <= 1.0
    requires ticketType in TicketWinCounts ==> |splitDraws| >= TicketWinCounts[ticketType] - 1
    ensures |gifts| == 0 ==> wins == Ok([])
    ensures |gifts| > 0 && ticketType !in TicketPrices ==> wins == Err(KeyError)
    ensures |gifts| > 0 && ticketType in TicketPrices && r < 0.10 ==> wins == Ok([])
    ensures wins.Err? ==> wins.error == KeyError
    ensures wins.Ok? && |wins.value| > 0 ==>
              && ticketType in TicketPrices && ticketType in TicketWinCounts && Multiplier(r, u).Some?
              && PrizeAwarded(gifts, TicketPrices[ticketType], TicketWinCounts[ticketType], Multiplier(r, u).value,
                              splitDraws, wins.value, parts, picks)
    ensures |gifts| > 0 && ticketType in TicketPrices && r >= 0.10 ==> wins.Ok? && |wins.value| > 0
  {
    parts, picks := [], [];
    if |gifts| == 0 {
      return Ok([]), parts, picks;
    }
    if ticketType !in TicketPrices {
      return Err(KeyError), parts, picks;
    }
    var ticketPrice := TicketPrices[ticketType];
    TicketTables(ticketType);
    var maxPrizes := TicketWinCounts[ticketType];
    var multiplier := Multiplier(r, u);
    if multiplier.None? {
      return Ok([]), parts, picks;
    }
    var chosen;
    chosen, parts, picks := AwardPrizes(gifts, ticketPrice, maxPrizes, multiplier.value, splitDraws);
    return Ok(chosen), parts, picks;
  }
}
