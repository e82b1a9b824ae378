/** The shapes that cross the boundary between the retrieval strategies and the manager:
    the raw achievement record a provider parser yields, the response envelope, and the
    outcomes of the steps that the model takes as inputs (the HTTP exchange, the parser). */
module ApiModels {
  import opened Wrappers
  import opened DotNet

  /** A raw achievement from a provider; `IsUnlocked` is `bool?`, null when the provider
      does not say. */
  datatype GameAchievement = GameAchievement(
    GameName: string,
    Name: string,
    Description: string,
    IsUnlocked: Option<bool>)

  /** The media type both strategies accept. */
  const HeaderJsonType := "application/json"

  /** `FirstOrDefault()?.GameName`: null for an empty list, otherwise the game name of the
      first entry. */
  function FirstGameName(achievements: seq<GameAchievement>): (r: Option<string>)
    ensures r == None <==> achievements == []
    ensures r.Some? ==> r.value == achievements[0].GameName
  {
    if achievements == [] then None else Some(achievements[0].GameName)
  }

  /** The envelope a strategy fills in, field by field. */
  datatype AchievementsResponse = AchievementsResponse(
    Success: bool,
    StatusCode: int,
    ErrorMessage: Option<string>,
    GameName: Option<string>,
    Achievements: seq<GameAchievement>)

  /** `new AchievementsResponse()`: nothing set yet. */
  const NewResponse := AchievementsResponse(false, 0, None, None, [])

  /** A provider parser (`IAchievementParser.Parse`): decodes a body or throws. */
  type Parser = string -> Result<seq<GameAchievement>, Exception>

  /** What happens to the request a strategy builds, in the order the strategy meets it:
      the URI is rejected while it is built, the send fails, or a response comes back with
      its status code and its body. */
  datatype Exchange =
    | UriRejected(error: Exception)
    | SendFailed(error: Exception)
    | Responded(Status: int, Body: string)

  /** How `GetAllAchievementsAsync` ends: it returns the response, or an exception escapes
      from it (the response it had filled in so far is then unreachable to the caller). */
  datatype Completion =
    | Returned(response: AchievementsResponse)
    | Raised(error: Exception, abandoned: AchievementsResponse)
}
