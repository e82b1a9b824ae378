/** GogAchievementsRetrieving.cs: configuration check, URL template substitution and the
    mapping of what the transport reports into an `AchievementsResponse`. */
module GogRetrieval {
  import opened Wrappers
  import opened DotNet
  import opened ApiModels
  import opened ParserDispatch

  /** The GOG settings; every string may be null. */
  datatype GogAchievementConfiguration = GogAchievementConfiguration(
    AddressApi: Option<string>,
    User: Option<string>,
    GameId: Option<string>,
    FilePathToSaveResult: Option<string>,
    IsAchieved: Option<bool>)

  const UserPlaceholder := "{User}"
  const GameIdPlaceholder := "{GameId}"
  const InvalidConfiguration := Exception(InvalidOperation, "Invalid configuration for Gog achievements API.")

  /** Only the template and the user are checked, and each is then present and non-empty;
      the game id is not checked. */
  function IsValidConfiguration(c: GogAchievementConfiguration): (r: bool)
    ensures r ==> c.AddressApi.Some? && |c.AddressApi.value| > 0 && c.User.Some? && |c.User.value| > 0
    ensures c.AddressApi == None || c.User == None ==> !r
  {
    !IsNullOrWhiteSpace(c.AddressApi) && !IsNullOrWhiteSpace(c.User)
  }

  /** Whatever the game id is, even null, the check gives the same answer. */
  lemma GameIdNotValidated(c: GogAchievementConfiguration, gameId: Option<string>)
    ensures IsValidConfiguration(c.(GameId := gameId)) == IsValidConfiguration(c)
  {
  }

  /** The address: every "{User}" replaced by the escaped user, then every "{GameId}" by the
      escaped game id. `Uri.EscapeDataString(null)` throws, so a null game id fails here. */
  function BuildAddress(c: GogAchievementConfiguration, escapeDataString: string -> string)
    : (r: Result<string, Exception>)
    requires IsValidConfiguration(c)
    ensures r.Failure? <==> c.GameId == None
    ensures r.Failure? ==> r.error == ArgumentNullException("stringToEscape")
  {
    match c.GameId
    case None => Failure(ArgumentNullException("stringToEscape"))
    case Some(gameId) =>
      Success(Replace(Replace(c.AddressApi.value, UserPlaceholder, escapeDataString(c.User.value)),
                      GameIdPlaceholder, escapeDataString(gameId)))
  }

  /** A template with neither placeholder is used verbatim. */
  lemma TemplateWithoutPlaceholdersIsVerbatim(c: GogAchievementConfiguration, escapeDataString: string -> string)
    requires IsValidConfiguration(c) && c.GameId.Some?
    requires !Contains(c.AddressApi.value, UserPlaceholder) && !Contains(c.AddressApi.value, GameIdPlaceholder)
    ensures BuildAddress(c, escapeDataString) == Success(c.AddressApi.value)
  {
    var t := c.AddressApi.value;
    ReplaceAbsent(t, UserPlaceholder, escapeDataString(c.User.value));
    ReplaceAbsent(t, GameIdPlaceholder, escapeDataString(c.GameId.value));
  }

  /** A URL template read as a sequence of literal text and placeholders. */
  datatype TemplatePart = Literal(Text: string) | UserSlot | GameIdSlot

  /** The template text with each user slot written as `user` and each game-id slot as
      `gameId`. */
  function Render(parts: seq<TemplatePart>, user: string, gameId: string): string {
    if parts == [] then ""
    else
      var head := match parts[0]
        case Literal(text) => text
        case UserSlot => user
        case GameIdSlot => gameId;
      head + Render(parts[1..], user, gameId)
  }

  /** No literal part holds a '{', so every brace of the template opens a placeholder. */
  predicate BraceFreeLiterals(parts: seq<TemplatePart>) {
    forall i :: 0 <= i < |parts| ==> parts[i].Literal? ==> '{' !in parts[i].Text
  }

  /** The "{User}" pass steps over a "{GameId}" placeholder. */
  lemma GameIdSkippedByUserPass(rest: string, escapedUser: string)
    ensures Replace(GameIdPlaceholder + rest, UserPlaceholder, escapedUser)
         == GameIdPlaceholder + Replace(rest, UserPlaceholder, escapedUser)
  {
    var g := GameIdPlaceholder + rest;
    assert g[..|UserPlaceholder|] != UserPlaceholder by { assert g[1] == 'G'; }
    assert g[1..] == "GameId}" + rest;
    ReplaceSkipsPrefix("GameId}", rest, UserPlaceholder, escapedUser);
  }

  /** The first pass replaces every user slot and keeps everything else. */
  lemma {:induction false} UserPass(parts: seq<TemplatePart>, escapedUser: string)
    requires BraceFreeLiterals(parts)
    ensures Replace(Render(parts, UserPlaceholder, GameIdPlaceholder), UserPlaceholder, escapedUser)
         == Render(parts, escapedUser, GameIdPlaceholder)
    decreases |parts|
  {
    if parts != [] {
      var tail := parts[1..];
      assert BraceFreeLiterals(tail) by {
        forall i | 0 <= i < |tail| && tail[i].Literal? ensures '{' !in tail[i].Text {
          assert tail[i] == parts[i + 1];
        }
      }
      UserPass(tail, escapedUser);
      var rest := Render(tail, UserPlaceholder, GameIdPlaceholder);
      match parts[0]
      case Literal(text) =>
        assert '{' !in text;
        ReplaceSkipsPrefix(text, rest, UserPlaceholder, escapedUser);
      case UserSlot =>
        ReplaceAtFront(rest, UserPlaceholder, escapedUser);
      case GameIdSlot =>
        GameIdSkippedByUserPass(rest, escapedUser);
    }
  }

  /** The second pass replaces every game-id slot and keeps everything else, provided the
      escaped user brought in no '{'. */
  lemma {:induction false} GameIdPass(parts: seq<TemplatePart>, escapedUser: string, escapedGameId: string)
    requires BraceFreeLiterals(parts) && '{' !in escapedUser
    ensures Replace(Render(parts, escapedUser, GameIdPlaceholder), GameIdPlaceholder, escapedGameId)
         == Render(parts, escapedUser, escapedGameId)
    decreases |parts|
  {
    if parts != [] {
      var tail := parts[1..];
      assert BraceFreeLiterals(tail) by {
        forall i | 0 <= i < |tail| && tail[i].Literal? ensures '{' !in tail[i].Text {
          assert tail[i] == parts[i + 1];
        }
      }
      GameIdPass(tail, escapedUser, escapedGameId);
      var rest := Render(tail, escapedUser, GameIdPlaceholder);
      match parts[0]
      case Literal(text) =>
        assert '{' !in text;
        ReplaceSkipsPrefix(text, rest, GameIdPlaceholder, escapedGameId);
      case UserSlot =>
        ReplaceSkipsPrefix(escapedUser, rest, GameIdPlaceholder, escapedGameId);
      case GameIdSlot =>
        ReplaceAtFront(rest, GameIdPlaceholder, escapedGameId);
    }
  }

  /** For any template of brace-free literals and placeholders, in any order and any number,
      and escaped values without '{' (`Uri.EscapeDataString` percent-encodes braces), the
      address is the template with every user slot holding the escaped user and every
      game-id slot the escaped game id. */
  lemma TemplateSubstitution(
    c: GogAchievementConfiguration, escapeDataString: string -> string, parts: seq<TemplatePart>)
    requires IsValidConfiguration(c) && c.GameId.Some?
    requires c.AddressApi.value == Render(parts, UserPlaceholder, GameIdPlaceholder)
    requires BraceFreeLiterals(parts)
    requires '{' !in escapeDataString(c.User.value) && '{' !in escapeDataString(c.GameId.value)
    ensures BuildAddress(c, escapeDataString)
         == Success(Render(parts, escapeDataString(c.User.value), escapeDataString(c.GameId.value)))
  {
    var eu, eg := escapeDataString(c.User.value), escapeDataString(c.GameId.value);
    UserPass(parts, eu);
    GameIdPass(parts, eu, eg);
  }

  /** Each placeholder is replaced in a single pass, so a brace next to a placeholder can
      join the substituted value into placeholder text: the template "{{User}}" with the user
      "User" (which escaping leaves as it is) becomes "{User}". */
  lemma SubstitutionIsSinglePass(escapeDataString: string -> string)
    requires escapeDataString("User") == "User"
    ensures IsValidConfiguration(GogAchievementConfiguration(Some("{{User}}"), Some("User"), Some("1"), None, None))
    ensures BuildAddress(GogAchievementConfiguration(Some("{{User}}"), Some("User"), Some("1"), None, None), escapeDataString)
         == Success("{User}")
  {
    var t := "{{User}}";
    assert t[0] !in WhiteSpace && "User"[0] !in WhiteSpace;
    assert t[..|UserPlaceholder|] != UserPlaceholder by { assert t[1] == '{'; }
    assert t[1..] == UserPlaceholder + "}";
    ReplaceAtFront("}", UserPlaceholder, "User");
    assert Replace(t, UserPlaceholder, "User") == "{" + ("User" + "}");
    assert "{" + ("User" + "}") == "{User}";
  }

  /** The `ErrorMessage` each catch clause records before rethrowing. */
  function ErrorMessageFor(ex: Exception): (m: string)
    ensures ex.Kind in {UriFormat, HttpRequest} ==> m == "Request failed: " + ex.Message
    ensures ex.Kind !in {UriFormat, HttpRequest} ==> m == "An error occurred: " + ex.Message
  {
    if ex.Kind == UriFormat || ex.Kind == HttpRequest then "Request failed: " + ex.Message
    else "An error occurred: " + ex.Message
  }

  class GogAchievementsRetrieving {
    const httpClient: HttpClient
    const achievementParser: Parser
    const configuration: GogAchievementConfiguration

    /** The field assignments of the constructor, once the dispatcher has handed out the
        parser. */
    constructor (httpClient: HttpClient, achievementParser: Parser, configuration: GogAchievementConfiguration)
      ensures this.httpClient == httpClient && this.configuration == configuration
      ensures this.achievementParser == achievementParser
    {
      this.httpClient := httpClient;
      this.achievementParser := achievementParser;
      this.configuration := configuration;
    }

    /** `GetAllAchievementsAsync`, given the percent-encoder and what the transport does with
        the address. An invalid configuration throws before anything is built; the client's
        `BaseAddress` and `Accept` headers change only once the address is a valid URI and
        the client has not yet sent a request (setting `BaseAddress` on a client that has
        throws); a failed status is returned as data; every other exception escapes. */
    method GetAllAchievementsAsync(escapeDataString: string -> string, exchange: Exchange) returns (c: Completion)
      modifies httpClient
      ensures !IsValidConfiguration(configuration) ==>
                c == Raised(InvalidConfiguration, NewResponse) && unchanged(httpClient)
      ensures IsValidConfiguration(configuration) && BuildAddress(configuration, escapeDataString).Failure? ==>
                && var e := BuildAddress(configuration, escapeDataString).error;
                && c == Raised(e, NewResponse.(ErrorMessage := Some(ErrorMessageFor(e))))
                && unchanged(httpClient)
      ensures IsValidConfiguration(configuration) && BuildAddress(configuration, escapeDataString).Success?
              && exchange.UriRejected? ==>
                && c == Raised(exchange.error, NewResponse.(ErrorMessage := Some(ErrorMessageFor(exchange.error))))
                && unchanged(httpClient)
      ensures IsValidConfiguration(configuration) && BuildAddress(configuration, escapeDataString).Success?
              && !exchange.UriRejected? && old(httpClient.Requests) != [] ==>
                && c == Raised(AlreadyStarted, NewResponse.(ErrorMessage := Some(ErrorMessageFor(AlreadyStarted))))
                && unchanged(httpClient)
      ensures IsValidConfiguration(configuration) && BuildAddress(configuration, escapeDataString).Success?
              && !exchange.UriRejected? && old(httpClient.Requests) == [] ==>
                && var address := BuildAddress(configuration, escapeDataString).value;
                && httpClient.BaseAddress == Some(address)
                && httpClient.AcceptHeaders == old(httpClient.AcceptHeaders) + [HeaderJsonType]
                && httpClient.Requests == old(httpClient.Requests) + [Request(address, [])]
      ensures IsValidConfiguration(configuration) && BuildAddress(configuration, escapeDataString).Success?
              && old(httpClient.Requests) == [] && exchange.SendFailed? ==>
                c == Raised(exchange.error, NewResponse.(ErrorMessage := Some(ErrorMessageFor(exchange.error))))
      ensures IsValidConfiguration(configuration) && BuildAddress(configuration, escapeDataString).Success?
              && old(httpClient.Requests) == [] && exchange.Responded? && !IsSuccessStatusCode(exchange.Status) ==>
                c == Returned(NewResponse.(StatusCode := exchange.Status))
      ensures IsValidConfiguration(configuration) && BuildAddress(configuration, escapeDataString).Success?
              && old(httpClient.Requests) == [] && exchange.Responded? && IsSuccessStatusCode(exchange.Status) ==>
                match achievementParser(exchange.Body)
                case Success(list) =>
                  c == Returned(AchievementsResponse(true, exchange.Status, None, FirstGameName(list), list))
                case Failure(e) =>
                  c == Raised(e, NewResponse.(StatusCode := exchange.Status, ErrorMessage := Some(ErrorMessageFor(e))))
      ensures c.Returned? ==> exchange.Responded? && c.response.StatusCode == exchange.Status
      ensures c.Returned? ==> (c.response.Success <==> IsSuccessStatusCode(c.response.StatusCode))
    {
      if !IsValidConfiguration(configuration) {
        return Raised(InvalidConfiguration, NewResponse);
      }
      var response := NewResponse;
      var built := BuildAddress(configuration, escapeDataString);
      if built.Failure? {
        response := response.(Success := false);
        response := response.(ErrorMessage := Some(ErrorMessageFor(built.error)));
        return Raised(built.error, response);
      }
      if exchange.UriRejected? {
        response := response.(Success := false);
        response := response.(ErrorMessage := Some(ErrorMessageFor(exchange.error)));
        return Raised(exchange.error, response);
      }
      var setError := httpClient.SetBaseAddress(built.value);
      if setError.Some? {
        response := response.(Success := false);
        response := response.(ErrorMessage := Some(ErrorMessageFor(setError.value)));
        return Raised(setError.value, response);
      }
      httpClient.AddAccept(HeaderJsonType);
      httpClient.GetAsync(Request(built.value, []));
      match exchange
      case SendFailed(e) =>
        response := response.(Success := false);
        response := response.(ErrorMessage := Some(ErrorMessageFor(e)));
        c := Raised(e, response);
      case Responded(status, body) =>
        response := response.(StatusCode := status);
        if IsSuccessStatusCode(status) {
          match achievementParser(body)
          case Failure(e) =>
            response := response.(Success := false);
            response := response.(ErrorMessage := Some(ErrorMessageFor(e)));
            c := Raised(e, response);
          case Success(list) =>
            response := response.(Achievements := list);
            response := response.(GameName := FirstGameName(response.Achievements));
            response := response.(Success := true);
            c := Returned(response);
        } else {
          c := Returned(response);
        }
    }

    /** `GetFilePathToSaveResult`: the configured directory, as configured. */
    function GetFilePathToSaveResult(): (r: Option<string>)
      ensures r == configuration.FilePathToSaveResult
    {
      configuration.FilePathToSaveResult
    }

    /** `GetFlagIsAchieved`: the configured unlock filter, as configured. */
    function GetFlagIsAchieved(): (r: Option<bool>)
      ensures r == configuration.IsAchieved
    {
      configuration.IsAchieved
    }
  }

  /** The constructor as the source has it: `GetParser()` runs inside it, so a source the
      dispatcher does not support makes construction throw. `resolve` is the service
      provider's lookup of the chosen parser. */
  method NewGogAchievementsRetrieving(
    httpClient: HttpClient,
    dispatcher: AchievementParserDispatcher,
    resolve: ParserKind -> Parser,
    configuration: GogAchievementConfiguration)
    returns (r: Result<GogAchievementsRetrieving, Exception>)
    ensures dispatcher.GetParser().Failure? ==> r == Failure(dispatcher.GetParser().error)
    ensures dispatcher.GetParser().Success? ==>
              && r.Success? && fresh(r.value)
              && r.value.httpClient == httpClient && r.value.configuration == configuration
              && r.value.achievementParser == resolve(dispatcher.GetParser().value)
  {
    var parser := dispatcher.GetParser();
    if parser.Failure? {
      return Failure(parser.error);
    }
    var strategy := new GogAchievementsRetrieving(httpClient, resolve(parser.value), configuration);
    r := Success(strategy);
  }
}
