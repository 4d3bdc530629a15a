/** The Mines game as `MinesService` runs it: a 25-cell board whose mines are
    never placed; each opened cell is a fresh Bernoulli draw with probability
    remaining_mines / remaining_cells of hitting a mine. A game is a counter
    record stored in Redis under "mines_game:<user id>"; the stake is debited
    in TON when the game is created, and the accumulated win is credited in
    coins only when every safe cell has been opened. There is no cash-out.

    Redis is a map from key to game record (the JSON encoding is taken to
    round-trip); a key's time-to-live running out is Redis deleting the key,
    which `RedisStore.Delete` models. The random draw of each opened cell is
    a parameter. */
module Mines {
  import opened Wrappers
  import opened Strings
  import opened Database
  import opened RealArith

  const BoardSize: int := 25
  const MinMines: int := 1
  const MaxMines: int := 24
  const BaseMultiplier: real := 0.6
  /** 1 TON = 1000 coins (HRPN): the stake is stored in coins. */
  const HrpnPerTon: real := 1000.0
  const KeyPrefix: string := "mines_game:"

  /** The `game_data` dictionary stored as JSON. */
  datatype GameState = GameState(
    userId: int,
    bet: real,
    mines: int,
    openedCells: int,
    totalWin: real,
    remainingCells: int,
    remainingMines: int,
    baseMultiplier: real)

  datatype MinesError =
    | InvalidMineCount     // ValueError: mines outside 1..24
    | UserNotFound         // ValueError: no such user
    | InsufficientTon      // ValueError: TON balance below the stake
    | GameNotFound         // ValueError: no game stored for the user
    | AllCellsOpened       // ValueError: remaining_cells <= 0
    | WinPerCellUnbound    // UnboundLocalError: the mine branch returns locals never assigned
    | ZeroDivision         // ZeroDivisionError: a stored game with 25 mines

  predicate IsValueError(e: MinesError) {
    !(e.WinPerCellUnbound? || e.ZeroDivision?)
  }

  /** `str(e)` of the service's `ValueError`s. */
  function Message(e: MinesError): string
    requires IsValueError(e)
  {
    match e
    case InvalidMineCount => "Количество мин должно быть от 1 до 24"
    case UserNotFound => "Пользователь не найден"
    case InsufficientTon => "Недостаточно TON для ставки"
    case GameNotFound => "Игра не найдена или уже завершена"
    case AllCellsOpened => "Все клетки уже открыты"
  }

  /** Each of the service's errors has its own text, so the `detail` of the
      400 response tells which check failed. */
  lemma MessageInjective(a: MinesError, b: MinesError)
    requires IsValueError(a) && IsValueError(b) && Message(a) == Message(b)
    ensures a == b
  {
  }

  /** The dictionary `process_open_cell` returns (before `round(·, 2)`). */
  datatype OpenCellResponse = OpenCellResponse(win: real, isEnd: bool, totalWin: real)

  /** `_redis_key`: the key under which a user's game is stored. */
  function RedisKey(userId: int): (key: string)
    ensures |key| > |KeyPrefix| && key[..|KeyPrefix|] == KeyPrefix
  {
    KeyPrefix + IntToString(userId)
  }

  /** Different users never share a key, so one user's game cannot be read,
      overwritten or deleted through another user's calls. */
  lemma RedisKeyInjective(a: int, b: int)
    requires RedisKey(a) == RedisKey(b)
    ensures a == b
  {
    assert IntToString(a) == RedisKey(a)[|KeyPrefix|..];
    assert IntToString(b) == RedisKey(b)[|KeyPrefix|..];
    IntToStringInjective(a, b);
  }

  /** The coins added to `total_win` by each safe cell:
      bet * base_multiplier * (25 / (25 - mines)). */
  function WinPerCell(bet: real, baseMultiplier: real, mines: int): (w: real)
    requires mines != BoardSize
    ensures bet > 0.0 && baseMultiplier > 0.0 && mines < BoardSize ==> w > 0.0
  {
    var w := bet * baseMultiplier * (BoardSize as real / (BoardSize - mines) as real);
    if bet > 0.0 && baseMultiplier > 0.0 && mines < BoardSize then
      MulPositive(bet, baseMultiplier);
      MulPositive(bet * baseMultiplier, BoardSize as real / (BoardSize - mines) as real);
      w
    else w
  }

  /** Opening every safe cell of the board wins `25 * base_multiplier`
      times the stake, whatever the mine count. */
  lemma WinPerCellTotal(bet: real, baseMultiplier: real, mines: int)
    requires mines != BoardSize
    ensures (BoardSize - mines) as real * WinPerCell(bet, baseMultiplier, mines)
            == BoardSize as real * baseMultiplier * bet
  {
    var safe := (BoardSize - mines) as real;
    var w := WinPerCell(bet, baseMultiplier, mines);
    assert safe * (BoardSize as real / safe) == BoardSize as real;
    assert safe * w == (bet * baseMultiplier) * (safe * (BoardSize as real / safe));
  }

  /** `WinPerCell` of a stored game. */
  function CellWin(g: GameState): real
    requires g.mines != BoardSize
  {
    WinPerCell(g.bet, g.baseMultiplier, g.mines)
  }

  /** The counters a stored game keeps between calls: the mine count is in
      range and never decremented, opened and remaining cells add up to the
      board, at least one safe cell is still closed, and the running win is
      one `WinPerCell` per opened cell. */
  predicate ValidGame(g: GameState) {
    && MinMines <= g.mines <= MaxMines
    && g.remainingMines == g.mines
    && g.baseMultiplier == BaseMultiplier
    && 0 <= g.openedCells < BoardSize - g.mines
    && g.openedCells + g.remainingCells == BoardSize
    && g.totalWin == g.openedCells as real * CellWin(g)
  }

  /** Every stored game is valid and sits under its owner's key. */
  predicate StoreValid(data: map<string, GameState>) {
    forall k :: k in data ==> ValidGame(data[k]) && k == RedisKey(data[k].userId)
  }

  /** The record `create_game` stores: the stake converted to coins, no cell
      opened, nothing won. */
  function NewGame(userId: int, betTon: real, mines: int): (g: GameState)
    ensures MinMines <= mines <= MaxMines ==> ValidGame(g)
    ensures g.userId == userId && g.bet == HrpnPerTon * betTon && g.remainingMines == mines
  {
    GameState(userId, betTon * HrpnPerTon, mines, 0, 0.0, BoardSize, mines, BaseMultiplier)
  }

  /** `p_mine`: the chance that the next opened cell is a mine. For every
      stored game it lies strictly between 0 and 1, so both outcomes can
      happen on every call. */
  function MineProbability(g: GameState): (p: real)
    requires g.remainingCells > 0
    ensures ValidGame(g) ==> 0.0 < p < 1.0
  {
    var p := g.remainingMines as real / g.remainingCells as real;
    if ValidGame(g) then
      QuotientBounds(g.remainingMines as real, g.remainingCells as real);
      p
    else p
  }

  /** The record after a safe cell: one more opened, one fewer remaining, the
      win grown by one `WinPerCell`; the mine counters are untouched. */
  function SafeReveal(g: GameState): (h: GameState)
    requires g.mines != BoardSize
    ensures h.openedCells + h.remainingCells == g.openedCells + g.remainingCells
    ensures h.(openedCells := g.openedCells, remainingCells := g.remainingCells, totalWin := g.totalWin) == g
    ensures g.bet > 0.0 && g.baseMultiplier > 0.0 && g.mines < BoardSize ==> h.totalWin > g.totalWin
  {
    g.(openedCells := g.openedCells + 1,
       remainingCells := g.remainingCells - 1,
       totalWin := g.totalWin + CellWin(g))
  }

  /** `is_end`: every safe cell has been opened. */
  predicate GameOver(g: GameState) {
    g.openedCells >= BoardSize - g.mines
  }

  /** A safe cell either ends the game, exactly when it was the last safe
      cell, or leaves a valid game to store again. */
  lemma SafeRevealStep(g: GameState)
    requires ValidGame(g)
    ensures var h := SafeReveal(g);
            && h.openedCells == g.openedCells + 1 && h.remainingCells == g.remainingCells - 1
            && h.remainingMines == g.remainingMines && h.mines == g.mines && h.bet == g.bet
            && (GameOver(h) <==> g.openedCells == BoardSize - g.mines - 1)
            && (!GameOver(h) ==> ValidGame(h))
  {
    var h := SafeReveal(g);
    assert CellWin(h) == CellWin(g);
    assert h.totalWin == (g.openedCells + 1) as real * CellWin(g);
  }

  /** Opening the last safe cell brings the win to exactly 15 times the
      stake in coins: 25 * 0.6 = 15. */
  lemma FullBoardPayout(g: GameState)
    requires ValidGame(g) && GameOver(SafeReveal(g))
    ensures SafeReveal(g).totalWin == 15.0 * g.bet
  {
    var w := CellWin(g);
    assert g.openedCells + 1 == BoardSize - g.mines;
    assert SafeReveal(g).totalWin == (g.openedCells + 1) as real * w;
    WinPerCellTotal(g.bet, g.baseMultiplier, g.mines);
  }

  /** `n` safe cells in a row. */
  function Reveals(g: GameState, n: nat): GameState
    requires g.mines != BoardSize
    decreases n
  {
    if n == 0 then g else Reveals(SafeReveal(g), n - 1)
  }

  /** `n` safe cells in a row advance the counters by `n` and add `n` times
      the game's `WinPerCell` to its win; the mine counters, the stake and the
      multiplier stay as they were. */
  lemma {:induction false} RevealsCounters(g: GameState, n: nat)
    requires g.mines != BoardSize
    ensures var h := Reveals(g, n);
            && h.openedCells == g.openedCells + n && h.remainingCells == g.remainingCells - n
            && h.mines == g.mines && h.remainingMines == g.remainingMines
            && h.bet == g.bet && h.baseMultiplier == g.baseMultiplier && h.userId == g.userId
            && h.totalWin == g.totalWin + n as real * CellWin(g)
    decreases n
  {
    if n > 0 {
      var s := SafeReveal(g);
      var w := CellWin(g);
      assert CellWin(s) == w;
      RevealsCounters(s, n - 1);
      assert (n - 1) as real * w + w == n as real * w;
    }
  }

  /** `h` is the record `n` safe cells after the stored game `g`: the
      counters have advanced by `n`, the win is one `WinPerCell` per opened
      cell, and the game is over exactly when no safe cell is left, and
      otherwise valid to store again. */
  predicate AdvancedBy(g: GameState, h: GameState, n: nat)
    requires g.mines != BoardSize
  {
    && h.openedCells == g.openedCells + n && h.remainingCells == g.remainingCells - n
    && h.mines == g.mines && h.remainingMines == g.remainingMines && h.bet == g.bet
    && h.totalWin == h.openedCells as real * CellWin(g)
    && (GameOver(h) <==> n == BoardSize - g.mines - g.openedCells)
    && (!GameOver(h) ==> ValidGame(h))
  }

  /** A record whose counters have advanced by `n` safe cells from a stored
      game, with `n` wins added, is `AdvancedBy` that game. */
  lemma AdvancedGame(g: GameState, h: GameState, n: nat)
    requires ValidGame(g) && 1 <= n <= BoardSize - g.mines - g.openedCells
    requires h.openedCells == g.openedCells + n && h.remainingCells == g.remainingCells - n
    requires h.mines == g.mines && h.remainingMines == g.remainingMines
    requires h.bet == g.bet && h.baseMultiplier == g.baseMultiplier
    requires h.totalWin == g.totalWin + n as real * CellWin(g)
    ensures AdvancedBy(g, h, n)
  {
    var w := CellWin(g);
    assert CellWin(h) == w;
    Distribute(g.openedCells, n, w);
  }

  /** From a stored game, safe cells opened one after another keep the win at
      one `WinPerCell` per opened cell, and the game ends at the last safe
      cell and not before. */
  lemma RevealsAccumulate(g: GameState, n: nat)
    requires ValidGame(g) && 1 <= n <= BoardSize - g.mines - g.openedCells
    ensures AdvancedBy(g, Reveals(g, n), n)
  {
    RevealsCounters(g, n);
    AdvancedGame(g, Reveals(g, n), n);
  }

  /** One `WinPerCell` for every safe cell of the board is 15 times the
      stake: 25 * 0.6 = 15. */
  lemma BoardWin(g: GameState)
    requires g.mines != BoardSize && g.baseMultiplier == BaseMultiplier
    ensures (BoardSize - g.mines) as real * CellWin(g) == 15.0 * g.bet
  {
    WinPerCellTotal(g.bet, g.baseMultiplier, g.mines);
  }

  /** A record that has opened every safe cell of a fresh stored game is
      over and has won 15 times the stake. */
  lemma ClearedBoard(g: GameState, h: GameState)
    requires ValidGame(g) && g.openedCells == 0
    requires AdvancedBy(g, h, BoardSize - g.mines)
    ensures GameOver(h) && h.totalWin == 15.0 * g.bet
  {
    BoardWin(g);
  }

  /** A stored game with no cell opened whose every cell comes up safe
      ends exactly at its last safe cell with 15 times its stake won. */
  lemma FullRun(g: GameState)
    requires ValidGame(g) && g.openedCells == 0
    ensures var h := Reveals(g, BoardSize - g.mines);
            GameOver(h) && h.totalWin == 15.0 * g.bet
  {
    RevealsAccumulate(g, BoardSize - g.mines);
    ClearedBoard(g, Reveals(g, BoardSize - g.mines));
  }

  /** A fresh game whose every cell comes up safe pays 15 coins per coin staked,
      that is 15000 coins per TON bet, and ends exactly at its last safe cell. */
  lemma FullGamePayout(userId: int, betTon: real, mines: int)
    requires MinMines <= mines <= MaxMines
    ensures var h := Reveals(NewGame(userId, betTon, mines), BoardSize - mines);
            GameOver(h) && h.totalWin == 15000.0 * betTon
  {
    var g := NewGame(userId, betTon, mines);
    FullRun(g);
    assert g.bet == HrpnPerTon * betTon;
  }

  /** What `create_game` answers for a ledger `users`: the mine count is
      checked first, then the user's existence, then the TON balance; every
      failure is a `ValueError`, and success is exactly when all three
      checks pass. */
  function CreateGameOutcome(users: map<int, User>, userId: int, betTon: real, mines: int)
    : (r: Result<GameState, MinesError>)
    ensures r.Err? ==> IsValueError(r.error)
    ensures r == Err(InvalidMineCount) <==> !(MinMines <= mines <= MaxMines)
    ensures r == Err(UserNotFound) <==> MinMines <= mines <= MaxMines && userId !in users
    ensures r.Ok? <==> MinMines <= mines <= MaxMines && userId in users && users[userId].tonBalance >= betTon
    ensures MinMines <= mines <= MaxMines && userId in users && users[userId].tonBalance < betTon ==>
              r == Err(InsufficientTon)
    ensures r.Ok? ==> ValidGame(r.value) && r.value.openedCells == 0 && r.value.totalWin == 0.0
                      && r.value.bet == HrpnPerTon * betTon && r.value.userId == userId
  {
    if mines < MinMines || mines > MaxMines then Err(InvalidMineCount)
    else if userId !in users then Err(UserNotFound)
    else if users[userId].tonBalance < betTon then Err(InsufficientTon)
    else Ok(NewGame(userId, betTon, mines))
  }

  /** What `process_open_cell` answers, given the record stored under the
      user's key (if any), whether the user still exists, and the draw.
      For a stored game that satisfies `ValidGame` the two guards never fire:
      the call fails exactly on a mine, and a successful response reports a
      positive total only at the last safe cell, where it is 15 times the
      stake in coins. */
  function OpenCellOutcome(stored: Option<GameState>, userExists: bool, draw: real)
    : (r: Result<OpenCellResponse, MinesError>)
    ensures stored.None? ==> r == Err(GameNotFound)
    ensures stored.Some? && ValidGame(stored.value) ==>
              var g := stored.value;
              && (r.Err? <==> draw < MineProbability(g))
              && (r.Err? ==> r.error == WinPerCellUnbound)
              && (r.Ok? ==> r.value.win == CellWin(g) && (g.bet > 0.0 ==> r.value.win > 0.0))
              && (r.Ok? ==> (r.value.isEnd <==> g.openedCells == BoardSize - g.mines - 1))
              && (r.Ok? && r.value.isEnd && userExists ==> r.value.totalWin == 15.0 * g.bet)
              && (r.Ok? && !(r.value.isEnd && userExists) ==> r.value.totalWin == 0.0)
  {
    if stored.None? then Err(GameNotFound)
    else
      var g := stored.value;
      if g.remainingCells <= 0 then Err(AllCellsOpened)
      else if draw < MineProbability(g) then Err(WinPerCellUnbound)
      else if g.mines == BoardSize then Err(ZeroDivision)
      else
        var h := SafeReveal(g);
        var isEnd := GameOver(h);
        assert ValidGame(g) ==> (isEnd <==> g.openedCells == BoardSize - g.mines - 1) by {
          if ValidGame(g) { SafeRevealStep(g); }
        }
        assert ValidGame(g) && isEnd ==> h.totalWin == 15.0 * g.bet by {
          if ValidGame(g) && isEnd { FullBoardPayout(g); }
        }
        Ok(OpenCellResponse(CellWin(g), isEnd, if isEnd && userExists then h.totalWin else 0.0))
  }

  /** The ledger and store `create_game` leaves behind, given its outcome: on
      an error both are as before; on success the user exists, only that
      user's TON balance changes, falling by the stake, and the fresh game
      replaces whatever was stored under the user's key. */
  ghost predicate CreateGameEffect(users0: map<int, User>, data0: map<string, GameState>,
                                   users: map<int, User>, data: map<string, GameState>,
                                   userId: int, betTon: real, outcome: Result<GameState, MinesError>)
  {
    && (outcome.Err? ==> users == users0 && data == data0)
    && (outcome.Ok? ==>
          && userId in users0
          && users == users0[userId := users0[userId].(tonBalance := users0[userId].tonBalance - betTon)]
          && data == data0[RedisKey(userId) := outcome.value])
  }

  /** The ledger and store `process_open_cell` leaves behind, given its
      outcome. A missing game and the guards change nothing. A mine deletes
      the user's game and credits nothing. A safe cell finds the game
      stored; before the last safe cell the advanced game is stored again
      and the ledger is untouched; at the last one the game is deleted and
      the user, when still present, is credited the whole win in coins. */
  ghost predicate OpenCellEffect(users0: map<int, User>, data0: map<string, GameState>,
                                 users: map<int, User>, data: map<string, GameState>,
                                 userId: int, outcome: Result<OpenCellResponse, MinesError>)
  {
    var key := RedisKey(userId);
    && (outcome.Err? && outcome.error != WinPerCellUnbound ==> data == data0 && users == users0)
    && (outcome == Err(WinPerCellUnbound) ==> data == data0 - {key} && users == users0)
    && (outcome.Ok? ==>
          && key in data0 && data0[key].mines != BoardSize
          && var h := SafeReveal(data0[key]);
          && (!outcome.value.isEnd ==> data == data0[key := h] && users == users0)
          && (outcome.value.isEnd ==> data == data0 - {key})
          && (outcome.value.isEnd && userId in users0 ==>
                users == users0[userId := users0[userId].(coinsBalance := users0[userId].coinsBalance + h.totalWin)])
          && (outcome.value.isEnd && userId !in users0 ==> users == users0))
  }

  /** The Redis client as the service uses it: GET, SET and DEL on string
      keys. Expiry of a key is Redis calling `Delete` on its own. */
  class RedisStore {
    var data: map<string, GameState>

    constructor ()
      ensures data == map[]
    {
      data := map[];
    }

    function Get(key: string): (r: Option<GameState>)
      reads this
      ensures r.Some? <==> key in data
      ensures r.Some? ==> r.value == data[key]
    {
      if key in data then Some(data[key]) else None
    }

    method Set(key: string, value: GameState)
      modifies this
      ensures data == old(data)[key := value]
    {
      data := data[key := value];
    }

    method Delete(key: string)
      modifies this
      ensures data == old(data) - {key}
    {
      data := data - {key};
    }
  }

  class MinesService {
    const redis: RedisStore

    constructor (redis: RedisStore)
      ensures this.redis == redis
    {
      this.redis := redis;
    }

    /** `create_game`: the mine count is checked before anything is read;
        then the user must exist and hold at least the stake in TON. On
        success the stake is debited from TON (coins untouched) and a fresh
        game is stored under the user's key, replacing any game already
        there. On failure nothing changes. */
    method CreateGame(db: Db, userId: int, betTon: real, mines: int)
      returns (r: Result<GameState, MinesError>)
      requires db.Valid()
      modifies db, redis
      ensures db.Valid()
      ensures db.inventory == old(db.inventory) && db.transactions == old(db.transactions)
      ensures r == CreateGameOutcome(old(db.users), userId, betTon, mines)
      ensures CreateGameEffect(old(db.users), old(redis.data), db.users, redis.data, userId, betTon, r)
      ensures StoreValid(old(redis.data)) ==> StoreValid(redis.data)
    {
      if mines < MinMines || mines > MaxMines {
        return Err(InvalidMineCount);
      }
      var user := db.GetUserById(userId);
      if user.None? {
        return Err(UserNotFound);
      }
      if user.value.tonBalance < betTon {
        return Err(InsufficientTon);
      }
      var _ := db.UpdateUserBalance(userId, Some(user.value.tonBalance - betTon), None);
      var gameData := NewGame(userId, betTon, mines);
      var key := RedisKey(userId);
      redis.Set(key, gameData);
      return Ok(gameData);
    }

    /** `process_open_cell` with `draw` standing for `random.random()`.
        No stored game: an error and no change. A draw below the mine
        probability: the game is deleted, nothing is credited, and the call
        fails because the response is built from locals that were never
        assigned. A safe cell: the counters advance; at the last safe cell
        the user (if still present) is credited the whole win in coins and
        the game is deleted, otherwise the advanced game is stored again and
        the response's total is 0. */
    method ProcessOpenCell(db: Db, userId: int, draw: real)
      returns (r: Result<OpenCellResponse, MinesError>)
      requires db.Valid()
      requires 0.0 <= draw < 1.0
      modifies db, redis
      ensures db.Valid()
      ensures db.inventory == old(db.inventory) && db.transactions == old(db.transactions)
      ensures r == OpenCellOutcome(old(redis.Get(RedisKey(userId))), userId in old(db.users), draw)
      ensures OpenCellEffect(old(db.users), old(redis.data), db.users, redis.data, userId, r)
      ensures StoreValid(old(redis.data)) ==> StoreValid(redis.data)
    {
      var key := RedisKey(userId);
      var dataRaw := redis.Get(key);
      if dataRaw.None? {
        return Err(GameNotFound);
      }
      var game := dataRaw.value;
      ghost var stored := game;
      var remainingCells := game.remainingCells;
      var remainingMines := game.remainingMines;
      if remainingCells <= 0 {
        return Err(AllCellsOpened);
      }
      var pMine := remainingMines as real / remainingCells as real;
      var isMine := draw < pMine;
      if isMine {
        redis.Delete(key);
        return Err(WinPerCellUnbound);
      }
      var bet := game.bet;
      var baseMultiplier := game.baseMultiplier;
      var mines := game.mines;
      if BoardSize - mines == 0 {
        return Err(ZeroDivision);
      }
      var winPerCell := bet * baseMultiplier * (BoardSize as real / (BoardSize - mines) as real);
      game := game.(openedCells := game.openedCells + 1);
      game := game.(remainingCells := game.remainingCells - 1);
      game := game.(totalWin := game.totalWin + winPerCell);
      assert game == SafeReveal(stored);
      if StoreValid(old(redis.data)) {
        SafeRevealStep(stored);
      }
      var isEnd := game.openedCells >= BoardSize - mines;
      var totalWin := 0.0;
      if isEnd {
        var user := db.GetUserById(userId);
        if user.Some? {
          var newBalance := user.value.coinsBalance + game.totalWin;
          var _ := db.UpdateUserBalance(userId, None, Some(newBalance));
          totalWin := game.totalWin;
        }
        redis.Delete(key);
      } else {
        redis.Set(key, game);
      }
      return Ok(OpenCellResponse(winPerCell, isEnd, totalWin));
    }
  }
}
