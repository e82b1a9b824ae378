/** SteamAchievementsRetrieving.cs: configuration check, query construction and the mapping
    of what the transport reports into an `AchievementsResponse`. */
module SteamRetrieval {
  import opened Wrappers
  import opened DotNet
  import opened ApiModels
  import opened ParserDispatch

  /** Models/FromApi/Steam/SteamAchievementConfiguration.cs; every string may be null. */
  datatype SteamAchievementConfiguration = SteamAchievementConfiguration(
    AddressApi: Option<string>,
    ApplicationId: Option<string>,
    AuthenticationKey: Option<string>,
    SteamId: Option<string>,
    Language: Option<string>,
    FilePathToSaveResult: Option<string>,
    IsAchieved: Option<bool>)

  const InvalidConfiguration := Exception(InvalidOperation, "Invalid Steam achievement configuration.")

  /** None of the five settings the request needs is null, empty or white space; each of
      them is then present and non-empty. */
  function IsValidConfiguration(c: SteamAchievementConfiguration): (r: bool)
    ensures r ==> c.AddressApi.Some? && |c.AddressApi.value| > 0 && c.ApplicationId.Some? && |c.ApplicationId.value| > 0
    ensures r ==> c.AuthenticationKey.Some? && |c.AuthenticationKey.value| > 0 && c.SteamId.Some? && |c.SteamId.value| > 0
    ensures r ==> c.Language.Some? && |c.Language.value| > 0
    ensures (|| c.AddressApi == None || c.ApplicationId == None || c.AuthenticationKey == None
             || c.SteamId == None || c.Language == None) ==> !r
  {
    && !IsNullOrWhiteSpace(c.AddressApi)
    && !IsNullOrWhiteSpace(c.ApplicationId)
    && !IsNullOrWhiteSpace(c.AuthenticationKey)
    && !IsNullOrWhiteSpace(c.SteamId)
    && !IsNullOrWhiteSpace(c.Language)
  }

  /** The value stored under `key` in a query collection, if any. */
  function QueryValue(query: seq<QueryParameter>, key: string): Option<string> {
    if query == [] then None
    else if query[0].Key == key then Some(query[0].Value)
    else QueryValue(query[1..], key)
  }

  /** The request: the configured address with exactly four query parameters, one per
      setting, under the keys "?appid", "key", "steamid" and "l". */
  function BuildRequest(c: SteamAchievementConfiguration): (r: Request)
    requires IsValidConfiguration(c)
    ensures r.Address == c.AddressApi.value
    ensures |r.Query| == 4
    ensures forall i, j :: 0 <= i < j < |r.Query| ==> r.Query[i].Key != r.Query[j].Key
    ensures QueryValue(r.Query, "?appid") == c.ApplicationId
    ensures QueryValue(r.Query, "key") == c.AuthenticationKey
    ensures QueryValue(r.Query, "steamid") == c.SteamId
    ensures QueryValue(r.Query, "l") == c.Language
  {
    var query := [
      QueryParameter("?appid", c.ApplicationId.value),
      QueryParameter("key", c.AuthenticationKey.value),
      QueryParameter("steamid", c.SteamId.value),
      QueryParameter("l", c.Language.value)];
    assert QueryValue(query[3..], "l") == c.Language;
    assert QueryValue(query[2..], "steamid") == c.SteamId && QueryValue(query[2..], "l") == c.Language;
    assert QueryValue(query[1..], "steamid") == c.SteamId && QueryValue(query[1..], "l") == c.Language;
    Request(c.AddressApi.value, query)
  }

  /** The `ErrorMessage` each catch clause records before rethrowing. */
  function ErrorMessageFor(ex: Exception): (m: string)
    ensures ex.Kind == HttpRequest ==> m == "HTTP request failed: " + ex.Message
    ensures ex.Kind != HttpRequest ==> m == "An error occurred: " + ex.Message
  {
    if ex.Kind == HttpRequest then "HTTP request failed: " + ex.Message else "An error occurred: " + ex.Message
  }

  class SteamAchievementsRetrieving {
    const httpClient: HttpClient
    const achievementParser: Parser
    const configuration: SteamAchievementConfiguration

    /** The field assignments of the constructor, once the dispatcher has handed out the
        parser. */
    constructor (httpClient: HttpClient, achievementParser: Parser, configuration: SteamAchievementConfiguration)
      ensures this.httpClient == httpClient && this.configuration == configuration
      ensures this.achievementParser == achievementParser
    {
      this.httpClient := httpClient;
      this.achievementParser := achievementParser;
      this.configuration := configuration;
    }

    /** `GetAllAchievementsAsync`, given what the transport does with the request. An invalid
        configuration throws before anything is built. A failed status is data: the response
        is returned with its status and without achievements. An exception from building,
        sending or parsing escapes after the response has been marked. */
    method GetAllAchievementsAsync(exchange: Exchange) returns (c: Completion)
      modifies httpClient
      ensures !IsValidConfiguration(configuration) ==>
                c == Raised(InvalidConfiguration, NewResponse) && unchanged(httpClient)
      ensures IsValidConfiguration(configuration) && exchange.UriRejected? ==>
                && c == Raised(exchange.error, NewResponse.(ErrorMessage := Some(ErrorMessageFor(exchange.error))))
                && unchanged(httpClient)
      ensures IsValidConfiguration(configuration) && !exchange.UriRejected? ==>
                && httpClient.AcceptHeaders == old(httpClient.AcceptHeaders) + [HeaderJsonType]
                && httpClient.Requests == old(httpClient.Requests) + [BuildRequest(configuration)]
                && httpClient.BaseAddress == old(httpClient.BaseAddress)
      ensures IsValidConfiguration(configuration) && exchange.SendFailed? ==>
                c == Raised(exchange.error, NewResponse.(ErrorMessage := Some(ErrorMessageFor(exchange.error))))
      ensures IsValidConfiguration(configuration) && exchange.Responded? && !IsSuccessStatusCode(exchange.Status) ==>
                c == Returned(NewResponse.(StatusCode := exchange.Status))
      ensures IsValidConfiguration(configuration) && exchange.Responded? && IsSuccessStatusCode(exchange.Status) ==>
                match achievementParser(exchange.Body)
                case Success(list) =>
                  c == Returned(AchievementsResponse(true, exchange.Status, None, FirstGameName(list), list))
                case Failure(e) =>
                  c == Raised(e, NewResponse.(StatusCode := exchange.Status, ErrorMessage := Some(ErrorMessageFor(e))))
      ensures c.Returned? ==> exchange.Responded? && c.response.StatusCode == exchange.Status
      ensures c.Returned? ==> (c.response.Success <==> IsSuccessStatusCode(c.response.StatusCode))
    {
      var response := NewResponse;
      if !IsValidConfiguration(configuration) {
        return Raised(InvalidConfiguration, response);
      }
      if exchange.UriRejected? {
        response := response.(Success := false);
        response := response.(ErrorMessage := Some(ErrorMessageFor(exchange.error)));
        return Raised(exchange.error, response);
      }
      var request := BuildRequest(configuration);
      httpClient.AddAccept(HeaderJsonType);
      httpClient.GetAsync(request);
      match exchange
      case SendFailed(e) =>
        response := response.(Success := false);
        response := response.(ErrorMessage := Some(ErrorMessageFor(e)));
        c := Raised(e, response);
      case Responded(status, body) =>
        response := response.(StatusCode := status);
        if IsSuccessStatusCode(status) {
          match achievementParser(body)
          case Failure(e) =>
            response := response.(Success := false);
            response := response.(ErrorMessage := Some(ErrorMessageFor(e)));
            c := Raised(e, response);
          case Success(list) =>
            response := response.(Achievements := list);
            response := response.(GameName := FirstGameName(response.Achievements));
            response := response.(Success := true);
            c := Returned(response);
        } else {
          c := Returned(response);
        }
    }

    /** `GetFilePathToSaveResult`: the configured directory, as configured. */
    function GetFilePathToSaveResult(): (r: Option<string>)
      ensures r == configuration.FilePathToSaveResult
    {
      configuration.FilePathToSaveResult
    }

    /** `GetFlagIsAchieved`: the configured unlock filter, as configured. */
    function GetFlagIsAchieved(): (r: Option<bool>)
      ensures r == configuration.IsAchieved
    {
      configuration.IsAchieved
    }
  }

  /** The constructor as the source has it: `GetParser()` runs inside it, so a source the
      dispatcher does not support makes construction throw. `resolve` is the service
      provider's lookup of the chosen parser. */
  method NewSteamAchievementsRetrieving(
    httpClient: HttpClient,
    dispatcher: AchievementParserDispatcher,
    resolve: ParserKind -> Parser,
    configuration: SteamAchievementConfiguration)
    returns (r: Result<SteamAchievementsRetrieving, Exception>)
    ensures dispatcher.GetParser().Failure? ==> r == Failure(dispatcher.GetParser().error)
    ensures dispatcher.GetParser().Success? ==>
              && r.Success? && fresh(r.value)
              && r.value.httpClient == httpClient && r.value.configuration == configuration
              && r.value.achievementParser == resolve(dispatcher.GetParser().value)
  {
    var parser := dispatcher.GetParser();
    if parser.Failure? {
      return Failure(parser.error);
    }
    var strategy := new SteamAchievementsRetrieving(httpClient, resolve(parser.value), configuration);
    r := Success(strategy);
  }
}
