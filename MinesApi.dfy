/** The `/mines` router: `POST /mines/start` and `POST /mines/open`. Both
    authenticate with the Bearer parser of module `Http` before anything
    else; `start` turns the service's `ValueError`s into 400 responses
    carrying the error text, while `open` lets every service error escape
    uncaught (FastAPI answers those with a 500). */
module MinesApi {
  import opened Wrappers
  import opened Database
  import opened Http
  import opened Mines

  /** The request body of `/mines/start`. */
  datatype StartGameRequest = StartGameRequest(mines: int, bet: real)

  /** `{"message": "Game started", "gameData": game}`. */
  datatype StartGameResponse = StartGameResponse(message: string, gameData: GameState)

  /** How a handler ends when it does not return: an `HTTPException` it
      raised, or a service exception it did not catch. */
  datatype ApiError =
    | HttpError(exception: HttpException)
    | Uncaught(error: MinesError)

  const GameStarted := "Game started"

  /** How `start_game` answers: an authentication failure as raised, a
      service `ValueError` as a 400 carrying its message, a game as the
      "Game started" envelope. No outcome of it is a server error. */
  function StartResponse(auth: Result<int, HttpException>, game: Result<GameState, MinesError>)
    : (r: Result<StartGameResponse, ApiError>)
    requires auth.Err? ==> auth.error.statusCode == 401
    requires game.Err? ==> IsValueError(game.error)
    ensures auth.Err? ==> r == Err(HttpError(auth.error))
    ensures auth.Ok? && game.Ok? ==> r == Ok(StartGameResponse(GameStarted, game.value))
    ensures auth.Ok? && game.Err? ==> r == Err(HttpError(HttpException(400, Message(game.error))))
    ensures r.Err? ==> r.error.HttpError? && r.error.exception.statusCode in {400, 401}
  {
    if auth.Err? then Err(HttpError(auth.error))
    else match game
      case Ok(g) => Ok(StartGameResponse(GameStarted, g))
      case Err(e) => Err(HttpError(HttpException(400, Message(e))))
  }

  /** `start_game`: a request that fails authentication changes nothing;
      otherwise `create_game` runs with `payload.bet` as the TON stake and
      its outcome is wrapped as above. */
  method StartGame(service: MinesService, db: Db, payload: StartGameRequest,
                   authorization: Option<string>, decode: string -> Option<int>)
    returns (r: Result<StartGameResponse, ApiError>)
    requires db.Valid()
    modifies db, service.redis
    ensures db.Valid()
    ensures var auth := GetCurrentUserId(authorization, decode);
            && (auth.Err? ==> r == Err(HttpError(auth.error)) && db.users == old(db.users)
                                && service.redis.data == old(service.redis.data))
            && (auth.Ok? ==>
                  r == StartResponse(auth, CreateGameOutcome(old(db.users), auth.value, payload.bet, payload.mines)))
    ensures var auth := GetCurrentUserId(authorization, decode);
            auth.Ok? ==>
              CreateGameEffect(old(db.users), old(service.redis.data), db.users, service.redis.data, auth.value,
                               payload.bet, CreateGameOutcome(old(db.users), auth.value, payload.bet, payload.mines))
    ensures db.inventory == old(db.inventory) && db.transactions == old(db.transactions)
    ensures StoreValid(old(service.redis.data)) ==> StoreValid(service.redis.data)
  {
    var auth := GetCurrentUserId(authorization, decode);
    if auth.Err? {
      return Err(HttpError(auth.error));
    }
    var userId := auth.value;
    var game := service.CreateGame(db, userId, payload.bet, payload.mines);
    r := StartResponse(auth, game);
  }

  /** `open_cell`: the service's outcome (the draw is `random.random()`),
      with its errors escaping the handler unchanged. */
  function OpenResponse(auth: Result<int, HttpException>, outcome: Result<OpenCellResponse, MinesError>)
    : (r: Result<OpenCellResponse, ApiError>)
    ensures auth.Err? ==> r == Err(HttpError(auth.error))
    ensures auth.Ok? ==> (r.Ok? <==> outcome.Ok?)
    ensures auth.Ok? && outcome.Ok? ==> r.value == outcome.value
    ensures auth.Ok? && outcome.Err? ==> r == Err(Uncaught(outcome.error))
  {
    if auth.Err? then Err(HttpError(auth.error))
    else match outcome
      case Ok(response) => Ok(response)
      case Err(e) => Err(Uncaught(e))
  }

  method OpenCell(service: MinesService, db: Db, authorization: Option<string>,
                  decode: string -> Option<int>, draw: real)
    returns (r: Result<OpenCellResponse, ApiError>)
    requires db.Valid()
    requires 0.0 <= draw < 1.0
    modifies db, service.redis
    ensures db.Valid()
    ensures var auth := GetCurrentUserId(authorization, decode);
            && (auth.Err? ==> r == Err(HttpError(auth.error)) && db.users == old(db.users)
                                && service.redis.data == old(service.redis.data))
            && (auth.Ok? ==>
                  r == OpenResponse(auth, Mines.OpenCellOutcome(old(service.redis.Get(RedisKey(auth.value))),
                                                                    auth.value in old(db.users), draw)))
    ensures var auth := GetCurrentUserId(authorization, decode);
            auth.Ok? ==>
              OpenCellEffect(old(db.users), old(service.redis.data), db.users, service.redis.data, auth.value,
                             Mines.OpenCellOutcome(old(service.redis.Get(RedisKey(auth.value))),
                                                   auth.value in old(db.users), draw))
    ensures db.inventory == old(db.inventory) && db.transactions == old(db.transactions)
    ensures StoreValid(old(service.redis.data)) ==> StoreValid(service.redis.data)
  {
    var auth := GetCurrentUserId(authorization, decode);
    if auth.Err? {
      return Err(HttpError(auth.error));
    }
    var result := service.ProcessOpenCell(db, auth.value, draw);
    r := OpenResponse(auth, result);
  }
}
