/**
 * The data shapes of the remote health API (`GET stats`, `GET entries`,
 * `POST validate`), and the outcome of calling it.
 */
module Api {
  import opened Wrappers

  datatype StatsResponse = StatsResponse(
    totalPushups: int,
    totalDays: int,
    currentStreak: int,
    longestStreak: int,
    todayValidated: bool,
    todayTarget: int)

  datatype EntryResponse = EntryResponse(
    id: Option<string>,
    date: string,
    pushups: int,
    validated: bool,
    validatedAt: Option<string>,
    createdAt: Option<string>)

  datatype ValidateRequest = ValidateRequest(pushups: int)

  datatype ValidateResponse = ValidateResponse(
    success: bool,
    alreadyValidated: Option<bool>,
    date: Option<string>,
    pushups: Option<int>)

  /**
   * What the server answers, during one step of the app, to each call:
   * the stats, the entry list, and the answer to any validate request. A
   * `Failure` stands for the exception the call throws (network, HTTP
   * error, parse error), with its message.
   */
  datatype Server = Server(
    getStats: Result<StatsResponse>,
    getEntries: Result<seq<EntryResponse>>,
    validate: ValidateRequest -> Result<ValidateResponse>)
}
