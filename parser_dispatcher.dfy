/** JsonParsers/AchievementParserDispatcher.cs: the configured source picks the parser. */
module ParserDispatch {
  import opened Wrappers
  import opened DotNet

  /** The `AchievementSource` enum. C# lets any integer be cast to it; `Undefined` stands for
      a value that names neither member. */
  datatype AchievementSource = Steam | GoG | Undefined(Value: int)

  /** The two registered parser services. */
  datatype ParserKind = SteamAchievementParser | GogAchievementParser

  /** A service provider in which both parsers are registered. */
  datatype ServiceProvider = ServiceProvider

  /** A constructed dispatcher: the configured source (a provider is known to be present). */
  datatype AchievementParserDispatcher = AchievementParserDispatcher(Source: AchievementSource) {

    /** `GetParser`: Steam and GoG map to their parsers; any other value throws
        `InvalidOperationException` naming the value. */
    function GetParser(): (r: Result<ParserKind, Exception>)
      ensures r == Success(SteamAchievementParser) <==> Source == Steam
      ensures r == Success(GogAchievementParser) <==> Source == GoG
      ensures r.Failure? <==> Source.Undefined?
      ensures r.Failure? ==>
                r.error == Exception(InvalidOperation, "Unsupported achievement source: " + IntToString(Source.Value))
    {
      match Source
      case Steam => Success(SteamAchievementParser)
      case GoG => Success(GogAchievementParser)
      case Undefined(v) => Failure(Exception(InvalidOperation, "Unsupported achievement source: " + IntToString(v)))
    }
  }

  /** The constructor: a null service provider is rejected; the source is not looked at. */
  function NewDispatcher(source: AchievementSource, serviceProvider: Option<ServiceProvider>)
    : (r: Result<AchievementParserDispatcher, Exception>)
    ensures r.Failure? <==> serviceProvider == None
    ensures r.Failure? ==> r.error == ArgumentNullException("serviceProvider")
    ensures r.Success? ==> r.value.Source == source
  {
    match serviceProvider
    case None => Failure(ArgumentNullException("serviceProvider"))
    case Some(_) => Success(AchievementParserDispatcher(source))
  }

  /** An out-of-range source constructs fine and fails only when a parser is asked for. */
  lemma UndefinedSourceFailsLate(v: int)
    ensures NewDispatcher(Undefined(v), Some(ServiceProvider)).Success?
    ensures NewDispatcher(Undefined(v), Some(ServiceProvider)).value.GetParser().Failure?
  {
  }

  /** The message for the value 999 is "Unsupported achievement source: 999". */
  lemma UnsupportedMessageNamesValue()
    ensures AchievementParserDispatcher(Undefined(999)).GetParser()
         == Failure(Exception(InvalidOperation, "Unsupported achievement source: 999"))
  {
    assert NatToString(9) == "9";
    assert NatToString(99) == "99";
    assert NatToString(999) == "999";
    assert IntToString(999) == "999";
    assert "Unsupported achievement source: " + IntToString(999) == "Unsupported achievement source: 999";
  }
}
