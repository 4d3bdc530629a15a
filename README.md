# cas-back: a verified model of the game, ledger and authentication rules

cas-back is the backend of a Telegram Mini App casino. Players hold two
balances, TON and HRPN coins, and play three things:

- a 5×5 **Mines** game whose sessions live in Redis;
- a **lottery** that turns a ticket into gifts;
- an **inventory** of gifts that can be sold for coins or withdrawn.

Requests are authenticated by a Bearer JWT, or by Telegram WebApp init data
signed with HMAC-SHA256. A Telegram bot registers users from the `/start`
command.

This project models the rule-carrying code of that backend in Dafny and
proves what the code promises. The modules follow the program's structure:

- `Wrappers`: the `Option` and `Result` types.
- `Strings`: the parts of Python's `str` the core relies on:
  - `str(int)`;
  - `split(sep)` and `join`;
  - `split()` with `maxsplit=1`, and `strip()`;
  - ASCII `lower()`;
  - the lexicographic `<` that `sorted` uses on keys.
- `Database`: the SQL tables the cores touch (`users`, `inventory`, `transactions`). They are the fields of one class, `Db`, whose methods are the CRUD functions: `get_user_by_id`, `update_user_balance`, `get_inventory_item`, `remove_gift_from_user` and `create_transaction`.
- `Http`: `HTTPException`, and the Bearer-header parser `get_current_user_id`. That parser appears twice in the source with the same text, in the inventory router and in the mines router, and is defined once here.
- `Mines`: the Mines service.
  - The Redis store is a class holding a map from key to game record.
  - `create_game` and `process_open_cell` are methods that debit the ledger, credit it and write the store.
  - Pure outcome functions specify those methods, and lemmas about the game state machine sit beside them.
- `MinesApi`: the `/mines/start` and `/mines/open` handlers, with their error mapping.
- `BalanceService`: the HRPN↔TON exchange at a fixed rate of 1000.
- `TicketService`: gift valuation, `buy_ticket`'s balance check and debit, and `generate_wins`. The prize is split into parts by a loop, and a gift is picked for each part by another.
- `InventoryApi`: `get_item`, `sell_item` and `withdraw_item`.
- `TelegramAuth`: `get_user_from_telegram_auth`. It covers:
  - `parse_qs` with only the first value of each key kept;
  - removing `hash`;
  - the sorted `key=value` data-check string defined in Telegram's "Validating data received via the Mini App";
  - the acceptance test.
- `BotStart`: the username fallback, the referral code taken from a `/start` deep link, and `generate_ref_code`.

Foreign code and nondeterminism become parameters:

- `random.random()` and `random.uniform(a, b)` become draws with the required range: `Uniform(a, b, u)` with `u` in [0, 1].
- `uuid.uuid4()` becomes the UUID's 128-bit value.
- The JWT decoder (PyJWT behind `AuthService.decode_access_token`) becomes a function returning the user id, or `None` when decoding raises.
- `urllib.parse.unquote` is a parameter.
- The HMAC-SHA256 hex digest of the data-check string is a parameter.

Python floats are modelled as exact reals. Game records are stored as
values; JSON encoding and decoding are taken to be the identity on them.

### The Mines state machine

These are the main results (module `Mines`).

- **Per-user sessions.** Each user's session key is `"mines_game:" + str(user_id)`, and different users get different keys (`RedisKeyInjective`).
- **What a stored game satisfies** (`ValidGame`):
  - `opened_cells + remaining_cells == 25`;
  - `1 <= mines <= 24` and `remaining_mines == mines`;
  - `opened_cells < 25 - mines`;
  - `total_win == opened_cells * win_per_cell`.
- **Consequences of `ValidGame`:**
  - the mine probability lies strictly between 0 and 1;
  - the guard against zero remaining cells can never fire;
  - `25 - mines` is never zero.
- **Each safe reveal** keeps `ValidGame` or ends the game exactly when every safe cell has been opened (`SafeRevealStep`).
- **The full-board payout** is `15 × bet` (`FullBoardPayout`, `FullRun`). From a fresh game that is `15000 × bet_ton` (`FullGamePayout`).
- **Invariant of the class methods.** `MinesService.CreateGame` and `MinesService.ProcessOpenCell` keep `StoreValid`: every stored game is valid and stored under its own user's key.

## Model

| member | source | states |
|---|---|---|
| Strings.IntToString | backend/services/mines_service.py:21 | str(int) is non-empty and starts with '-' exactly for negative numbers |
| Strings.IntToStringInjective | backend/services/mines_service.py:21 | distinct integers print differently, so "mines_game:{id}" and "user_{id}" separate users |
| Strings.Split | backend/api/v1/inventory.py:37 | str.split(sep): at least one part, no part holds sep, the parts joined by sep give the input back, and one part exactly when sep does not occur |
| Strings.SplitAroundOne | backend/api/v1/inventory.py:37-38 | a string with exactly one separator between two separator-free pieces splits into exactly those two pieces |
| Strings.SplitIntoTwo | backend/api/v1/inventory.py:37-41 | a two-part split means the input was the first part, one separator and the second part |
| Strings.Join | backend/dependencies.py:43 | `sep.join(parts)`: the parts with sep between each two; the reference definition that Split and SplitJoin invert |
| Strings.SplitJoin | backend/dependencies.py:43 | joining separator-free parts and splitting again gives the same parts (the inverse of Split's join property) |
| Strings.AsciiLower | backend/api/v1/inventory.py:38 | lower() keeps the length and lowers each character on its own |
| Strings.SplitOnce | main_bot/main.py:65 | str.split(maxsplit=1): no parts for blank text; otherwise the first whitespace-delimited token, and as second part the rest after the whitespace that follows it, present exactly when the rest is not blank |
| Strings.Strip | main_bot/main.py:67 | strip() is a substring of the input with only whitespace cut off at either end, empty only for blank input, and starts and ends with non-whitespace |
| Strings.StrLess | backend/dependencies.py:43 | the order `sorted` uses on keys: code point by code point, a proper prefix first |
| Strings.StrLessIrreflexive | backend/dependencies.py:43 | the string order sorted() uses on keys is irreflexive |
| Strings.StrLessTransitive | backend/dependencies.py:43 | the string order is transitive |
| Strings.StrLessTotal | backend/dependencies.py:43 | any two different strings are ordered one way or the other |
| Database.MatchingRows | shared_models/crud/inventory.py:37-44 | the ids of the rows that remove_gift_from_user's query selects: owned by the user and holding the gift |
| Database.Db.constructor | shared_models/models.py:12-61 | a ledger whose rows are stored under their primary keys, and whose inventory gifts carry the NOT NULL cost_coins of models.py:72, is Valid, with no transactions yet |
| Database.Db.GetUserById | shared_models/crud/user.py:30-42 | get_user_by_id returns the user row with that id, or None when no row has it |
| Database.Db.UpdateUserBalance | shared_models/crud/user.py:63-80 | an unknown id returns None and changes nothing; otherwise only that user's row changes, TON and coins are set to the given values or kept when None, and the updated row is returned |
| Database.Db.GetInventoryItem | shared_models/crud/inventory.py:30-32 | get_inventory_item returns the row with that id, or None when no row has it |
| Database.Db.RemoveGiftFromUser | shared_models/crud/inventory.py:37-49 | no matching (user, gift) row returns False and deletes nothing; exactly one deletes that row and returns True; two or more make scalar_one_or_none raise with nothing deleted |
| Database.Db.DeleteInventoryItem | shared_models/crud/inventory.py:47-48 | deletes exactly the row with the given id and touches no other table |
| Database.Db.CreateTransaction | shared_models/crud/transactions.py:10-15 | appends exactly one transaction and changes no other table |
| Http.GetCurrentUserId | backend/api/v1/mines.py:41-59 | every rejection of the Authorization header is a 401 |
| Http.IsBearerHeader | backend/api/v1/mines.py:46-52 | the accepted header shape: a scheme reading "bearer" in any ASCII case, exactly one space, and a token without spaces |
| Http.GetCurrentUserIdSpec | backend/api/v1/inventory.py:29-47 | both directions: a missing or empty header is "Authorization header missing"; a header "<scheme> <token>" with one space and scheme "bearer" in any ASCII case yields the decoded id of that token, or "Invalid token" when decoding fails; every other header is "Invalid authorization format" |
| Mines.RedisKey | backend/services/mines_service.py:20-21 | the session key is "mines_game:" followed by a non-empty suffix |
| Mines.RedisKeyInjective | backend/services/mines_service.py:20-21 | two users share a session key only if they are the same user |
| Mines.WinPerCell | backend/services/mines_service.py:81 | win_per_cell is positive for a positive bet and base multiplier and fewer than 25 mines |
| Mines.WinPerCellTotal | backend/services/mines_service.py:81 | (25 - mines) × win_per_cell == 25 × base_multiplier × bet: opening every safe cell pays a fixed multiple of the bet whatever the mine count |
| Mines.MessageInjective | backend/api/v1/mines.py:79-80 | str(e) of the distinct ValueErrors differ, so the 400 detail tells which check failed |
| Mines.NewGame | backend/services/mines_service.py:40-51 | the new record carries bet = 1000 × bet_ton and remaining_mines = mines, and is a valid game for 1..24 mines |
| Mines.MineProbability | backend/services/mines_service.py:70 | for every stored valid game, 0 < remaining_mines / remaining_cells < 1 |
| Mines.SafeReveal | backend/services/mines_service.py:84-86 | a safe cell moves one cell from remaining to opened, keeping their sum; only those counters and total_win change; total_win grows for a positive bet and multiplier |
| Mines.GameOver | backend/services/mines_service.py:89 | `is_end`: every one of the 25 - mines safe cells has been opened |
| Mines.SafeRevealStep | backend/services/mines_service.py:84-89 | a safe reveal adds one opened cell, removes one remaining cell, keeps mines, remaining mines and bet, ends the game exactly when the last safe cell is opened, and otherwise leaves a valid game |
| Mines.FullBoardPayout | backend/services/mines_service.py:86-97 | when a reveal ends the game, its total_win is exactly 15 × bet |
| Mines.RevealsCounters | backend/services/mines_service.py:84-86 | n safe reveals move n cells from remaining to opened, keep every other field, and add n × win_per_cell to total_win |
| Mines.RevealsAccumulate | backend/services/mines_service.py:84-89 | after n safe reveals from a valid game, total_win is opened_cells × win_per_cell, the game is over exactly when all 25 - mines safe cells are open, and otherwise it is still valid |
| Mines.BoardWin | backend/services/mines_service.py:50-81 | with base multiplier 0.6, (25 - mines) × win_per_cell == 15 × bet |
| Mines.ClearedBoard | backend/services/mines_service.py:84-97 | a record that has opened every safe cell of a fresh valid game is over with total_win == 15 × bet |
| Mines.FullRun | backend/services/mines_service.py:84-97 | opening every safe cell of a fresh valid game ends it with total_win == 15 × bet |
| Mines.FullGamePayout | backend/services/mines_service.py:40-97 | a game started with bet_ton and played to the last safe cell pays 15000 × bet_ton coins |
| Mines.CreateGameOutcome | backend/services/mines_service.py:26-55 | both directions: a mine count outside 1..24 fails before the user is looked up; a missing user fails next; a ton_balance below bet_ton fails with "not enough TON"; success holds exactly for a valid count, an existing user and ton_balance >= bet_ton; the stored game is valid and fresh, with bet 1000 × bet_ton |
| Mines.OpenCellOutcome | backend/services/mines_service.py:58-104 | no stored game fails; for a valid game, the call fails exactly when the draw is below the mine probability, and then with the unbound-local error; a safe cell reports win_per_cell (positive for a positive bet), isEnd exactly at the last safe cell, and totalWin 15 × bet when it ends for an existing user and 0 otherwise |
| Mines.RedisStore.Get | backend/services/mines_service.py:60-62 | a key is found exactly when it is stored, and then with its stored value |
| Mines.RedisStore.Set | backend/services/mines_service.py:53-54 | the key now maps to the value (overwriting any existing game) and no other key changes |
| Mines.RedisStore.Delete | backend/services/mines_service.py:100 | the key is gone and no other key changes |
| Mines.MinesService.CreateGame | backend/services/mines_service.py:26-55 | returns CreateGameOutcome and leaves CreateGameEffect: on failure neither the ledger nor the store changes; on success exactly the user's ton_balance drops by bet_ton and exactly the user's key is overwritten with the new game; keeps StoreValid |
| Mines.MinesService.ProcessOpenCell | backend/services/mines_service.py:58-104 | returns OpenCellOutcome and leaves OpenCellEffect: a missing game changes nothing; a mine deletes the game and credits nothing; a safe non-final cell re-stores the advanced game; the final cell deletes the game and credits total_win to coins_balance if the user exists; keeps StoreValid |
| MinesApi.StartResponse | backend/api/v1/mines.py:72-80 | authentication errors pass through as 401; success is "Game started" with the game data; every ValueError becomes 400 with its message |
| MinesApi.StartGame | backend/api/v1/mines.py:65-80 | authentication runs first and a rejection changes nothing; otherwise create_game runs for the authenticated user with payload.bet as bet_ton: its outcome is mapped as in StartResponse, and the ledger and store end as CreateGameEffect says (the TON debit and the overwritten key on success, no change on a ValueError); keeps StoreValid |
| MinesApi.OpenResponse | backend/api/v1/mines.py:92-96 | the service answer is returned unchanged, and its errors are not caught |
| MinesApi.OpenCell | backend/api/v1/mines.py:86-96 | authentication first and a rejection changes nothing; then the outcome of process_open_cell for the authenticated user, unchanged, with the ledger and store as OpenCellEffect says (deletion on a mine, re-store before the last safe cell, deletion and the coin credit at it); keeps StoreValid |
| BalanceService.Convert | backend/services/balance_service.py:13-35 | a non-positive amount is rejected first; success holds exactly when the source balance covers the amount of "hrpn" or "ton"; a balance below the amount fails with "Not enough HRPN" or "Not enough TON" for that currency; any other currency is 400; coins + 1000 × TON is conserved; non-negative balances stay non-negative; the source balance drops by exactly the amount |
| BalanceService.HrpnThenTonRestores | backend/services/balance_service.py:22-33 | converting HRPN to TON and the result back restores the user exactly |
| BalanceService.TonThenHrpnRestores | backend/services/balance_service.py:22-33 | converting TON to HRPN and the result back restores the user exactly |
| BalanceService.ConvertCurrencyForUser | backend/services/balance_service.py:7-46 | validation order (amount, then user with 404, then the conversion); one ledger write of Convert's result on success and none on failure; the response names the other currency, the converted amount and the balances written |
| TicketService.GiftValueHrpn | backend/services/ticket_service.py:69-75 | cost_coins if present, else cost_ton × 1000, else 0; never negative for non-negative costs |
| TicketService.TicketCostLookup | backend/services/ticket_service.py:39 | with the flat price table rebound at lines 17-21, TICKET_PRICES[type][currency] always fails: TypeError for a known type, KeyError otherwise |
| TicketService.BuyTicket | backend/services/ticket_service.py:31-39 | as written, buy_ticket always ends in an error and never reaches the debit: "User not found" for a missing user, otherwise the lookup's error |
| TicketService.ChargeTicket | backend/services/ticket_service.py:41-48 | insufficient balance in the chosen currency fails with no change; otherwise exactly that balance of that user drops by the ticket cost and nothing else changes |
| TicketService.Uniform | backend/services/ticket_service.py:94-100 | random.uniform(a, b) lies in [a, b] |
| TicketService.Multiplier | backend/services/ticket_service.py:88-100 | no prize exactly when the draw is below 0.10; otherwise the multiplier lies in [1.0, 1.5], [0.6, 1.0] or [0.2, 0.6] according to the draw's band |
| TicketService.SplitParts | backend/services/ticket_service.py:105-113 | exactly count parts: each but the last takes the i-th uniform(0.2, 0.5) fraction of the remainder, and the last the rest |
| TicketService.SplitPartsSum | backend/services/ticket_service.py:105-113 | the parts sum exactly to the prize value |
| TicketService.SplitPartsBounds | backend/services/ticket_service.py:105-113 | every part lies between 0 and the prize value, and with two or more parts the first is between 20% and 50% of it |
| TicketService.SplitPrize | backend/services/ticket_service.py:105-113 | the splitting loop yields exactly SplitParts (one part per prize) |
| TicketService.Chosen | backend/services/ticket_service.py:118-124 | the selection rule: the first gift of highest value among those worth at most the part, else the first of lowest value overall |
| TicketService.ChosenUnique | backend/services/ticket_service.py:119-124 | the selection rule determines the gift's index |
| TicketService.PickGift | backend/services/ticket_service.py:119-124 | the chosen gift is, among gifts worth at most the part, the first of the highest value; if there is none, the first of the lowest value overall |
| TicketService.PickGifts | backend/services/ticket_service.py:116-126 | one gift per part, each taken from the gift list by the selection rule |
| TicketService.TicketTables | backend/services/ticket_service.py:17-27 | every ticket type with a price has a positive price and at least one prize |
| TicketService.AwardPrizes | backend/services/ticket_service.py:102-126 | the prize value is price × multiplier, within [0.2, 1.5] × price; it is split into as many parts as prizes summing to it, and each part gets one gift by the selection rule |
| TicketService.GenerateWins | backend/services/ticket_service.py:78-128 | no gifts gives no wins; an unknown type is a KeyError; a draw below 0.10 gives no wins; otherwise TICKET_WIN_COUNTS[type] gifts, awarded as AwardPrizes states |
| InventoryApi.OwnedItem | backend/api/v1/inventory.py:95-96 | an item is found exactly when its row exists and belongs to the caller |
| InventoryApi.SaleGain | backend/api/v1/inventory.py:98-106 | no sellable value exactly when both costs are missing; the currency label is "HRPN" when cost_coins is present, else "TON" |
| InventoryApi.SaleGainIsLotteryValue | backend/api/v1/inventory.py:98-106 | the sale gain equals the gift's lottery value, and a gift without a sale value is worth 0 in the lottery |
| InventoryApi.StoredGiftSellsForCoins | shared_models/models.py:72 | a gift held in the inventory of a Valid ledger has its coin price and sells for it in HRPN |
| InventoryApi.GetItem | backend/api/v1/inventory.py:67-80 | authentication errors pass through; another user's or a missing item is 404; otherwise the caller's row |
| InventoryApi.SoldRowMatches | backend/api/v1/inventory.py:115-116 | the item being sold is among the (user, gift) rows that the removal queries, and is the one removed when it is the only match |
| InventoryApi.SellItem | backend/api/v1/inventory.py:86-129 | as written: 404 or 400 with no change; otherwise the gain is credited to coins_balance (even for TON gifts); with a single matching row that row is deleted and a completed "gift_sale" transaction for the gain is appended; with several copies of the gift the removal raises after the credit |
| InventoryApi.DuplicateCopiesExample | shared_models/crud/inventory.py:37-44 | a concrete inventory in which a user owns two copies of one gift, so the removal sell_item performs matches two rows |
| InventoryApi.SellItemById | backend/api/v1/inventory.py:86-129 | corrected sale: every error changes nothing; success credits the gain, deletes exactly the sold row and appends one completed "gift_sale" transaction |
| InventoryApi.WithdrawItem | backend/api/v1/inventory.py:135-157 | balances and inventory never change; another user's or a missing item is 404; otherwise one pending "gift_withdrawal" transaction for the item's gift is appended |
| TelegramAuth.ParsePiece | backend/dependencies.py:40 | a query piece is dropped exactly when it has no '=' or an empty value (parse_qs without keep_blank_values) |
| TelegramAuth.ParsePieces | backend/dependencies.py:40 | at most one pair per piece, and one for every piece exactly when no piece is skipped |
| TelegramAuth.ParseQsl | backend/dependencies.py:40 | `parse_qsl`: the pairs of the '&'-separated pieces that are not skipped, in order |
| TelegramAuth.ParsePieceOf | backend/dependencies.py:40 | "key=value" parses to the unquoted key and value |
| TelegramAuth.ParseQslOfEncoded | backend/dependencies.py:40 | parsing the '&'-joined encoding of parameters gives back the unquoted parameters in order |
| TelegramAuth.FirstOccurrences | backend/dependencies.py:40 | dict building keeps distinct keys, each with a pair from the input |
| TelegramAuth.FirstValueKept | backend/dependencies.py:40 | for a repeated key, the first value is the one kept |
| TelegramAuth.EveryKeyKept | backend/dependencies.py:40 | every key of the query is in the dictionary |
| TelegramAuth.Lookup | backend/dependencies.py:42 | data.pop("hash", None) finds a value exactly when the key is present, and then a value stored under it |
| TelegramAuth.RemoveKey | backend/dependencies.py:42 | removes exactly the pairs with that key and keeps keys distinct |
| TelegramAuth.InsertSorted | backend/dependencies.py:43 | inserting a new key into a key-sorted list keeps it sorted |
| TelegramAuth.SortByKey | backend/dependencies.py:43 | sorted(data.items()) is a permutation of the items and is sorted by key |
| TelegramAuth.SortedUnique | backend/dependencies.py:43 | two key-sorted lists of the same items are equal, so the sorted order is unique |
| TelegramAuth.CheckString | backend/dependencies.py:43 | the data-check string: the "key=value" lines of the key-sorted pairs joined by line feeds |
| TelegramAuth.CheckStringLines | backend/dependencies.py:43 | the data-check string split at line feeds is exactly the "key=value" lines of the key-sorted pairs: one line per pair and no trailing separator |
| TelegramAuth.CheckStringOrderFree | backend/dependencies.py:43 | the data-check string does not depend on the order the parameters arrived in |
| TelegramAuth.InitData | backend/dependencies.py:40 | the parsed dictionary has distinct keys |
| TelegramAuth.GetUserFromTelegramAuth | backend/dependencies.py:32-51 | both directions: accepted exactly when a hash was sent and equals the digest of the check string built without it; the result is the data without "hash"; no hash is always rejected; every rejection is 401 |
| BotStart.Username | main_bot/main.py:57 | a non-empty Telegram username is kept; otherwise "user_" followed by the decimal id; never empty |
| BotStart.FallbackUsernamesDiffer | main_bot/main.py:57 | two fallback usernames are equal only for the same Telegram id |
| BotStart.RefBy | main_bot/main.py:63-67 | no text, empty text or a single token gives no referral; otherwise the stripped remainder after the first token, never empty |
| BotStart.DeepLinkRefBy | main_bot/main.py:63-67 | "/start <code>" gives back exactly the code |
| BotStart.BareStartRefBy | main_bot/main.py:63-67 | a bare "/start" carries no referral |
| BotStart.Hex | main_bot/main.py:49 | a UUID field prints as exactly its width of lower-case hex digits |
| BotStart.HexRoundTrip | main_bot/main.py:49 | a field that fits its width prints without loss |
| BotStart.UuidString | main_bot/main.py:49 | str(uuid) has 36 characters |
| BotStart.GenerateRefCode | main_bot/main.py:48-49 | the referral code has 8 characters, all lower-case hex digits, and no '-' |
| BotStart.RefCodeIsTopBits | main_bot/main.py:48-49 | the code encodes exactly the UUID's top 32 bits |

## Left out

- Rounding: `round(x, 2)` in the open-cell response is not modelled. The response carries exact values, and floats are exact reals throughout. IEEE-754 behaviour is not verified.
- JSON: encoding a game into Redis and decoding it back is taken to be lossless. Records are stored as values.
- TTL: the 1200-second game lifetime has no clock here. Expiry is what `RedisStore.Delete` does when called from outside.
- Concurrency is left out: the get, mutate and set on a Redis key, and the separate database sessions `sell_item` opens, run one at a time in the model.
- Database sessions, commits and refreshes are left out: a method's writes are visible at once.
- MinesApi.StartGame, MinesApi.OpenCell: the model assumes the handlers hold a working session. backend/api/v1/mines.py:69 and :89 pass `Depends(get_session)` straight to the service, and `get_session` is an `@asynccontextmanager` (shared_models/db.py:67-72), so the parameter may be the context manager rather than a session; that failure path is not modelled.
- InventoryApi.SellItem, InventoryApi.GetItem: an inventory row's `gift` relationship is taken as loaded. In the handlers it is read after the `async with get_session()` block that fetched the row has closed (backend/api/v1/inventory.py:93-98, and the `InventoryRead` response of lines 75-80). `get_inventory_item` loads nothing eagerly, and `Inventory.gift` is lazy (shared_models/models.py:61). Read as written, that access may fail on a detached instance before any credit; the model does not capture that failure.
- Foreign code is uninterpreted and passed in as parameters. This covers JWT decoding (`AuthService.decode_access_token`), `urllib.parse.unquote`, and the HMAC-SHA256 hex digest keyed by `SECRET_KEY`.
- Randomness: `random.random`, `random.uniform` and `uuid.uuid4` are parameters with their ranges.
- `parse_qs`: `max_num_fields` and `strict_parsing` are left out (defaults only). `+` is decoded to a space inside `unquote`, which is a parameter.
- Http.GetCurrentUserId: `.lower()` is modelled on ASCII letters only. Comparing with "bearer" gives the same answer either way, since no non-ASCII character lowers to one of its letters.
- pydantic request validation and response serialisation are left out. The handlers receive `bet` and `mines` already typed.
- TicketService.GiftValueHrpn, InventoryApi.SaleGain: the `cost_ton` and no-value branches are kept as the code writes them. For a gift stored in the `gifts` table they cannot run, because `cost_coins` is NOT NULL (shared_models/models.py:72): `Db.Valid` records that and `StoredGiftSellsForCoins` draws the consequence. The lottery's gift lists are parameters and are not constrained that way.
- Mines.MinesService.CreateGame: a zero or negative `bet_ton` is accepted, as the code does. The payout lemmas hold for any bet, and the positivity of `win` is stated for positive bets only.
- Mines.OpenCellOutcome: the mine branch is modelled as the error `WinPerCellUnbound` after the deletion. The code reads `win_per_cell`, `is_end` and `total_win` before they are assigned, so the call raises `UnboundLocalError`. No corrected response is modelled, because the code gives nothing to say what it should contain.
- Mines.MinesService.ProcessOpenCell: the service's guards are kept as error results even though they are unreachable for a valid store. They cover `remaining_cells <= 0` and a record with 25 mines (a division by zero). The method does not require a valid store.
- The Mines service has no cash-out: `process_open_cell` credits only when the last safe cell is opened (backend/services/mines_service.py:89-97). `win_per_cell` is one constant formula per game (line 81), with no table of multipliers. `create_game` overwrites any game already stored for the user (lines 53-54). The model follows that code.
- TicketService.BuyTicket: the steps after the debit are not modelled. These are the call to `generate_wins` and the persisting of the ticket, and the lookup at line 39 always fails before them. `generate_wins` is modelled by itself, and the debit by `ChargeTicket`.
- `get_inventory` (listing a user's rows) is a plain query and is left out.
- The sale message text `f"Item sold for {gain} {currency}"` is modelled as the gain and the currency label. Float formatting is left out.
- Bot I/O is left out: avatar download, `create_user`, referral bookkeeping and message replies.
- Routers that only delegate (`auth.py`, `profile.py`, `tickets.py`, `balance.py`) are not part of this model. Neither are the remaining CRUD modules, `AuthService` and the application set-up.

## Findings

| source | as written | input that shows it | evidently intended | confidence | as-written member | corrected member |
|---|---|---|---|---|---|---|
| backend/api/v1/inventory.py:108-116 | `sell_item` credits the gain, then removes the sold gift by `(user_id, gift_id)` through `scalar_one_or_none()` (shared_models/crud/inventory.py:37-44). The inventory table has no uniqueness on that pair. | a user owns inventory rows 1 and 2, both holding gift 5 worth 100 coins, and sells row 1: 100 coins are credited, then the removal raises MultipleResultsFound, so no row is deleted and no transaction is recorded | delete the sold row by its id, so that the credit, the deletion and the transaction happen together | medium, not executed: the duplicate-row failure is reached only once `item.gift` loads, which the handler reads after its session has closed (see "## Left out") | InventoryApi.SellItem, InventoryApi.DuplicateCopiesExample | InventoryApi.SellItemById |
| backend/services/ticket_service.py:39 | `TICKET_PRICES` is rebound at lines 17-21 to flat ints (`{"bronze": 1000, "silver": 10000, "gold": 100000}`), so `TICKET_PRICES[ticket_type][currency]` subscripts an int for every known type (an unknown type raises KeyError instead) | an existing user buys a `bronze` ticket in `hrpn`: `1000["hrpn"]` raises TypeError ('int' object is not subscriptable) before any balance check or debit | look up the price of the ticket type and debit it from the chosen currency | high, not executed | TicketService.BuyTicket | TicketService.ChargeTicket |
