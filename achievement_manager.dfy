/** Managers/AchievementManager.cs: the cache-or-fetch pipeline, the unlock filter and the
    DLC enrichment of each fetched achievement. */
module Manager {
  import opened Wrappers
  import opened DotNet
  import opened ApiModels
  import opened AchievementModel
  import opened Grouping
  import opened Filenames
  import opened Requirements
  import opened Files

  // ---------------------------------------------------------------------------------------
  // Requirement lookup (lines 90-93)

  /** `i` is the position of the first record named `name`. */
  ghost predicate IsFirstMatch(requirements: seq<AchievementRequirement>, name: string, i: int) {
    && 0 <= i < |requirements|
    && requirements[i].Name == name
    && forall j :: 0 <= j < i ==> requirements[j].Name != name
  }

  /** At most one position is the first match. */
  lemma FirstMatchUnique(requirements: seq<AchievementRequirement>, name: string, i: int, j: int)
    requires IsFirstMatch(requirements, name, i) && IsFirstMatch(requirements, name, j)
    ensures i == j
  {
  }

  /** `requirements.FirstOrDefault(x => x.Name == name)`: the first record with exactly
      that name, or null when there is none. */
  function FirstOrDefault(requirements: seq<AchievementRequirement>, name: string)
    : (r: Option<AchievementRequirement>)
    ensures r == None <==> forall i :: 0 <= i < |requirements| ==> requirements[i].Name != name
    ensures r.Some? ==> exists i :: IsFirstMatch(requirements, name, i) && requirements[i] == r.value
    decreases |requirements|
  {
    if requirements == [] then None
    else if requirements[0].Name == name then
      assert IsFirstMatch(requirements, name, 0);
      Some(requirements[0])
    else
      var r := FirstOrDefault(requirements[1..], name);
      FirstMatchShift(requirements, name, r);
      r
  }

  /** A first match in the tail, behind a head of another name, is a first match of the
      whole list one position on. */
  lemma FirstMatchShift(requirements: seq<AchievementRequirement>, name: string, r: Option<AchievementRequirement>)
    requires requirements != [] && requirements[0].Name != name
    requires r.Some? ==> exists i :: IsFirstMatch(requirements[1..], name, i) && requirements[1..][i] == r.value
    ensures r.Some? ==> exists i :: IsFirstMatch(requirements, name, i) && requirements[i] == r.value
  {
    if r.Some? {
      var i :| IsFirstMatch(requirements[1..], name, i) && requirements[1..][i] == r.value;
      assert IsFirstMatch(requirements, name, i + 1);
    }
  }

  // ---------------------------------------------------------------------------------------
  // DLC lists (lines 91-98)

  /** `SelectMany(x => x.Names)`: the groups' entries, group after group. */
  function SelectManyNames(groups: seq<DlcGroup>): (r: seq<DlcName>)
    ensures forall d :: d in r <==> exists g :: g in groups && d in g.Names
    decreases |groups|
  {
    if groups == [] then []
    else
      var rest := SelectManyNames(groups[1..]);
      assert forall g :: g in groups <==> g == groups[0] || g in groups[1..];
      groups[0].Names + rest
  }

  /** A single group flattens to its own entries. */
  lemma SelectManyNamesSingle(group: DlcGroup)
    ensures SelectManyNames([group]) == group.Names
  {
    assert [group][1..] == [];
  }

  /** Flattening distributes over concatenation: the entries come group after group, in
      order and with their repeats, so the two lemmas together fix the flattened list. */
  lemma {:induction false} SelectManyNamesAppend(first: seq<DlcGroup>, second: seq<DlcGroup>)
    ensures SelectManyNames(first + second) == SelectManyNames(first) + SelectManyNames(second)
    ensures |SelectManyNames(first + second)| == |SelectManyNames(first)| + |SelectManyNames(second)|
    decreases |first|
  {
    if first == [] {
      assert first + second == second;
    } else {
      assert (first + second)[1..] == first[1..] + second;
      SelectManyNamesAppend(first[1..], second);
    }
  }

  function KeyIs(key: string): DlcName -> bool {
    (d: DlcName) => d.Key == key
  }

  function Values(entries: seq<DlcName>): seq<string> {
    seq(|entries|, i requires 0 <= i < |entries| => entries[i].Value)
  }

  /** The values of the entries under `key`, walking the entries from the front. */
  function KeyedValues(entries: seq<DlcName>, key: string): seq<string> {
    if entries == [] then []
    else if entries[0].Key == key then [entries[0].Value] + KeyedValues(entries[1..], key)
    else KeyedValues(entries[1..], key)
  }

  /** `Where(x => x.Key == key).Select(x => x.Value).ToList()`: the values of the entries
      under `key`, in their order; it is empty exactly when no entry has that key. */
  function ValuesWithKey(entries: seq<DlcName>, key: string): (r: seq<string>)
    ensures r == KeyedValues(entries, key)
    ensures forall v :: v in r <==> exists d :: d in entries && d.Key == key && d.Value == v
    ensures r == [] <==> forall d :: d in entries ==> d.Key != key
    ensures |r| <= |entries|
  {
    var kept := Where(entries, KeyIs(key));
    assert forall d :: d in kept <==> d in entries && d.Key == key;
    ValuesMembership(kept);
    FilterThenSelectInOrder(entries, key);
    assert kept != [] ==> kept[0] in kept;
    Values(kept)
  }

  /** Filtering by key and then selecting the values walks the entries in order. */
  lemma {:induction false} FilterThenSelectInOrder(entries: seq<DlcName>, key: string)
    ensures Values(Where(entries, KeyIs(key))) == KeyedValues(entries, key)
    decreases |entries|
  {
    if entries != [] {
      FilterThenSelectInOrder(entries[1..], key);
      var rest := Where(entries[1..], KeyIs(key));
      if entries[0].Key == key {
        assert Where(entries, KeyIs(key)) == [entries[0]] + rest;
        assert Values([entries[0]] + rest) == [entries[0].Value] + Values(rest);
      }
    }
  }

  /** The values are exactly those of the entries. */
  lemma ValuesMembership(entries: seq<DlcName>)
    ensures forall v :: v in Values(entries) <==> exists d :: d in entries && d.Value == v
  {
    forall v | v in Values(entries) ensures exists d :: d in entries && d.Value == v {
      var i :| 0 <= i < |entries| && Values(entries)[i] == v;
      assert entries[i] in entries;
    }
    forall d | d in entries ensures d.Value in Values(entries) {
      var i :| 0 <= i < |entries| && entries[i] == d;
      assert Values(entries)[i] == d.Value;
    }
  }

  /** The enriched entity for one raw achievement (lines 90-99): the constructor's fields,
      with the DLC lists taken from the first record of the same name. `IsRequiredDlc` holds
      exactly when one of the two lists it is built from is there and non-empty. */
  function MapAchievement(achievement: GameAchievement, requirements: seq<AchievementRequirement>)
    : (r: Achievement)
    ensures r.Achieved <==> achievement.IsUnlocked == Some(true)
    ensures r.Name == achievement.Name && r.Description == achievement.Description && r.Countries == {}
    ensures r.IsRequiredDlc <==>
              || (r.AllRequiredDlcNames.Some? && r.AllRequiredDlcNames.value != [])
              || (r.OneRequiredOfDlcNames.Some? && r.OneRequiredOfDlcNames.value != [])
  {
    var record := FirstOrDefault(requirements, achievement.Name);
    var visible := if record.Some? then record.value.VisibleRequirements else None;
    var requiredDlcs := if visible.Some? then visible.value.HasAllDlc else None;
    var oneOfDlcRequired :=
      if visible.Some? && visible.value.HasOneOfDlc.Some? then Some(SelectManyNames(visible.value.HasOneOfDlc.value))
      else None;
    FromGameAchievement(achievement).(
      IsRequiredDlc :=
        || (requiredDlcs.Some? && |requiredDlcs.value| > 0)
        || (oneOfDlcRequired.Some? && exists i :: 0 <= i < |oneOfDlcRequired.value| && oneOfDlcRequired.value[i].Key == TokenHasDlc),
      AllRequiredDlcNames := requiredDlcs,
      OneRequiredOfDlcNames :=
        if oneOfDlcRequired.Some? then Some(ValuesWithKey(oneOfDlcRequired.value, TokenHasDlc)) else None)
  }

  /** With no record of the achievement's name, it needs no DLC and both lists are null. */
  lemma MapAchievementUnmatched(achievement: GameAchievement, requirements: seq<AchievementRequirement>)
    requires forall i :: 0 <= i < |requirements| ==> requirements[i].Name != achievement.Name
    ensures !MapAchievement(achievement, requirements).IsRequiredDlc
    ensures MapAchievement(achievement, requirements).AllRequiredDlcNames == None
    ensures MapAchievement(achievement, requirements).OneRequiredOfDlcNames == None
  {
  }

  /** With the first record of the achievement's name at `i`: the all-of list is that
      record's `HasAllDlc` as it stands (null if a level is missing); the one-of list is null
      if a level is missing and otherwise holds exactly the values of the entries keyed
      `TokenHasDlc` across its groups; and DLC is required exactly when the all-of list is
      non-empty or some entry across the groups is keyed `TokenHasDlc`. */
  lemma MapAchievementMatched(achievement: GameAchievement, requirements: seq<AchievementRequirement>, i: int)
    requires IsFirstMatch(requirements, achievement.Name, i)
    ensures var r := MapAchievement(achievement, requirements);
            var visible := requirements[i].VisibleRequirements;
      && r.AllRequiredDlcNames == (if visible.Some? then visible.value.HasAllDlc else None)
      && (r.OneRequiredOfDlcNames == None <==> visible == None || visible.value.HasOneOfDlc == None)
      && (r.OneRequiredOfDlcNames.Some? ==>
            r.OneRequiredOfDlcNames.value == KeyedValues(SelectManyNames(visible.value.HasOneOfDlc.value), TokenHasDlc))
      && (r.OneRequiredOfDlcNames.Some? ==>
            forall v :: v in r.OneRequiredOfDlcNames.value <==>
              exists g, d :: g in visible.value.HasOneOfDlc.value && d in g.Names && d.Key == TokenHasDlc && d.Value == v)
      && (r.IsRequiredDlc <==>
            || (visible.Some? && visible.value.HasAllDlc.Some? && visible.value.HasAllDlc.value != [])
            || (visible.Some? && visible.value.HasOneOfDlc.Some? &&
                exists g, d :: g in visible.value.HasOneOfDlc.value && d in g.Names && d.Key == TokenHasDlc))
  {
    var record := FirstOrDefault(requirements, achievement.Name);
    var j :| IsFirstMatch(requirements, achievement.Name, j) && requirements[j] == record.value;
    FirstMatchUnique(requirements, achievement.Name, i, j);
  }

  /** The end-to-end case of an unlocked achievement whose record requires all of {"DLC1"}. */
  lemma EnrichmentExample()
    ensures var a := GameAchievement("Game", "A1", "d", Some(true));
            var req := AchievementRequirement("A1", Some(VisibleRequirements(Some(["DLC1"]), None)));
            var r := MapAchievement(a, [req]);
      r.Achieved && r.IsRequiredDlc && r.AllRequiredDlcNames == Some(["DLC1"]) && r.OneRequiredOfDlcNames == None
  {
    var req := AchievementRequirement("A1", Some(VisibleRequirements(Some(["DLC1"]), None)));
    assert FirstOrDefault([req], "A1") == Some(req);
  }

  /** The mapped list: one entry per raw achievement, in the same order. */
  function MapAll(achievements: seq<GameAchievement>, requirements: seq<AchievementRequirement>)
    : (r: seq<Achievement>)
    ensures |r| == |achievements|
    ensures forall i :: 0 <= i < |r| ==>
              && r[i] == MapAchievement(achievements[i], requirements)
              && r[i].Name == achievements[i].Name
              && r[i].Description == achievements[i].Description
              && (r[i].Achieved <==> achievements[i].IsUnlocked == Some(true))
  {
    seq(|achievements|, i requires 0 <= i < |achievements| => MapAchievement(achievements[i], requirements))
  }

  // ---------------------------------------------------------------------------------------
  // Unlock filter (lines 103-111)

  /** What `FilterAchievements` leaves in `AchievementsResponse` for a flag: true keeps the
      unlocked entries, false the locked and unknown ones, null everything; the order is
      kept. */
  function Filtered(isAchievedFlag: Option<bool>, achievements: seq<GameAchievement>): (r: seq<GameAchievement>)
    ensures IsSubsequence(r, achievements)
    ensures isAchievedFlag == Some(true) ==>
              forall a :: a in r <==> a in achievements && a.IsUnlocked == Some(true)
    ensures isAchievedFlag == Some(false) ==>
              forall a :: a in r <==> a in achievements && a.IsUnlocked != Some(true)
    ensures isAchievedFlag == None ==> r == achievements
  {
    match isAchievedFlag
    case Some(true) => GetUnlockedAchievements(achievements)
    case Some(false) => GetLockedAchievements(achievements)
    case None => SubsequenceReflexive(achievements); achievements
  }

  /** Filtering twice with the same flag is filtering once. */
  lemma FilteredIdempotent(isAchievedFlag: Option<bool>, achievements: seq<GameAchievement>)
    ensures Filtered(isAchievedFlag, Filtered(isAchievedFlag, achievements)) == Filtered(isAchievedFlag, achievements)
  {
    FiltersIdempotent(achievements);
  }

  /** After filtering with a definite flag, every mapped entry's `Achieved` equals the flag. */
  lemma FilteredThenMappedMatchesFlag(
    isAchievedFlag: Option<bool>, achievements: seq<GameAchievement>, requirements: seq<AchievementRequirement>)
    requires isAchievedFlag.Some?
    ensures forall e :: e in MapAll(Filtered(isAchievedFlag, achievements), requirements) ==>
              e.Achieved == isAchievedFlag.value
  {
    var f := Filtered(isAchievedFlag, achievements);
    var m := MapAll(f, requirements);
    forall e | e in m ensures e.Achieved == isAchievedFlag.value {
      var i :| 0 <= i < |m| && m[i] == e;
      assert f[i] in f;
    }
  }

  // ---------------------------------------------------------------------------------------
  // The manager

  /** What `ReadFileManager` yields for a cached result file. */
  datatype CachedAchievements = CachedAchievements(Achievements: seq<Achievement>, DlcNames: seq<string>)

  /** The arguments handed to `SaveFileManager` for one CSV write. */
  datatype CsvWrite = CsvWrite(Path: string, DlcNames: Option<set<string>>, Achievements: Option<seq<Achievement>>)

  class AchievementManager {
    var GameName: Option<string>
    var AchievementsResponse: seq<GameAchievement>
    var DlcNames: Option<set<string>>
    var Achievements: Option<seq<Achievement>>

    /** What the configured strategy reports from `GetFlagIsAchieved` and
        `GetFilePathToSaveResult`. */
    const isAchievedFlag: Option<bool>
    const filePathToSaveResult: Option<string>
    const filenameCreator: FilenameCreator := FilenameCreator(isAchievedFlag, filePathToSaveResult)

    constructor (isAchievedFlag: Option<bool>, filePathToSaveResult: Option<string>)
      ensures this.isAchievedFlag == isAchievedFlag && this.filePathToSaveResult == filePathToSaveResult
      ensures filenameCreator == FilenameCreator(isAchievedFlag, filePathToSaveResult)
      ensures GameName == None && AchievementsResponse == [] && DlcNames == None && Achievements == None
    {
      this.isAchievedFlag := isAchievedFlag;
      this.filePathToSaveResult := filePathToSaveResult;
      GameName := None;
      AchievementsResponse := [];
      DlcNames := None;
      Achievements := None;
    }

    /** The cache probe of lines 37-38: the result directory listed with the wildcard file
        name (the flag's token, a star, ".csv"); `Directory.GetFiles` rejects a null
        directory. */
    function ProbeCache(getFiles: FileLister): (r: Result<seq<string>, Exception>)
      ensures filePathToSaveResult == None ==> r == Failure(ArgumentNullException("path"))
      ensures filePathToSaveResult.Some? ==>
                r == getFiles(filePathToSaveResult.value, Token(isAchievedFlag) + "*" + CsvExtension)
    {
      match filePathToSaveResult
      case None => Failure(ArgumentNullException("path"))
      case Some(path) => getFiles(path, filenameCreator.CreateFilename("*"))
    }

    /** `FilterAchievements`. */
    method FilterAchievements()
      modifies this`AchievementsResponse
      ensures AchievementsResponse == Filtered(isAchievedFlag, old(AchievementsResponse))
    {
      if isAchievedFlag == Some(true) {
        AchievementsResponse := GetUnlockedAchievements(AchievementsResponse);
      } else if isAchievedFlag == Some(false) {
        AchievementsResponse := GetLockedAchievements(AchievementsResponse);
      }
    }

    /** `MapAchievements`, given what parsing the game files yields. If the parse throws,
        nothing has changed yet; otherwise the DLC names are stored and `Achievements` is
        rebuilt from empty, one entry appended per element of `AchievementsResponse`. */
    method MapAchievements(structure: Result<GameStructure, Exception>) returns (raised: Option<Exception>)
      modifies this`Achievements, this`DlcNames
      ensures structure.Failure? ==>
                raised == Some(structure.error) && Achievements == old(Achievements) && DlcNames == old(DlcNames)
      ensures structure.Success? ==>
                && raised == None
                && DlcNames == Some(structure.value.DlcNames)
                && Achievements == Some(MapAll(AchievementsResponse, structure.value.Requirements))
    {
      if structure.Failure? {
        return Some(structure.error);
      }
      var requirements := structure.value.Requirements;
      DlcNames := Some(structure.value.DlcNames);
      Achievements := Some([]);
      for i := 0 to |AchievementsResponse|
        invariant DlcNames == Some(structure.value.DlcNames)
        invariant Achievements == Some(MapAll(AchievementsResponse[..i], requirements))
      {
        Achievements := Some(Achievements.value + [MapAchievement(AchievementsResponse[i], requirements)]);
        assert MapAll(AchievementsResponse[..i + 1], requirements)
            == MapAll(AchievementsResponse[..i], requirements) + [MapAchievement(AchievementsResponse[i], requirements)];
      }
      assert AchievementsResponse[..|AchievementsResponse|] == AchievementsResponse;
      raised := None;
    }

    /** `SaveAchievementsToFile()`: the write handed to `SaveFileManager` goes to the full
        path of the current game name (a null name concatenates as empty), whose part after
        the configured directory has the shape the next run's cache probe looks for;
        `saveOutcome` is what that write throws, if anything. */
    method SaveAchievementsToFile(saveOutcome: Option<Exception>) returns (written: CsvWrite, raised: Option<Exception>)
      ensures written.Path == filenameCreator.CreateFullPath(GameName.GetOr(""))
      ensures written.DlcNames == DlcNames && written.Achievements == Achievements
      ensures raised == saveOutcome
      ensures filePathToSaveResult.Some? ==>
                && var dir := filePathToSaveResult.value;
                && |dir| <= |written.Path| && written.Path[..|dir|] == dir
                && HasShape(written.Path[|dir|..], Token(isAchievedFlag), CsvExtension)
    {
      if filePathToSaveResult.Some? {
        SavedFileMatchesProbe(filenameCreator, GameName.GetOr(""));
      }
      written := CsvWrite(filenameCreator.CreateFullPath(GameName.GetOr("")), DlcNames, Achievements);
      raised := saveOutcome;
    }

    /** `CreateAchievements`, given the directory listing, the cache-file reader, the outcome
        of the strategy's fetch, the outcome of parsing the game files and the outcome of the
        CSV write. A cache hit loads the first matching file and fetches nothing. On a miss,
        a successful fetch is filtered, mapped, named after its first unfiltered entry and
        saved; a failed or throwing fetch changes nothing. Everything after the probe runs
        inside a catch-all, so only the probe and the cache read can throw out of it. */
    method CreateAchievements(
      getFiles: FileLister,
      readFile: string -> Result<CachedAchievements, Exception>,
      fetch: Completion,
      structure: Result<GameStructure, Exception>,
      saveOutcome: Option<Exception>)
      returns (raised: Option<Exception>, written: Option<CsvWrite>)
      modifies this
      ensures ProbeCache(getFiles).Failure? ==>
                raised == Some(ProbeCache(getFiles).error) && written == None && unchanged(this)
      ensures ProbeCache(getFiles).Success? && ProbeCache(getFiles).value != [] ==>
                && written == None
                && GameName == old(GameName) && AchievementsResponse == old(AchievementsResponse)
                && match readFile(ProbeCache(getFiles).value[0])
                   case Failure(e) =>
                     raised == Some(e) && Achievements == old(Achievements) && DlcNames == old(DlcNames)
                   case Success(cached) =>
                     && raised == None
                     && Achievements == Some(cached.Achievements)
                     && DlcNames == Some(set n | n in cached.DlcNames)
      ensures ProbeCache(getFiles) == Success([]) ==> raised == None
      ensures ProbeCache(getFiles) == Success([]) && !(fetch.Returned? && fetch.response.Success) ==>
                written == None && unchanged(this)
      ensures ProbeCache(getFiles) == Success([]) && fetch.Returned? && fetch.response.Success ==>
                && AchievementsResponse == Filtered(isAchievedFlag, fetch.response.Achievements)
                && match structure
                   case Failure(_) =>
                     && written == None
                     && Achievements == old(Achievements) && DlcNames == old(DlcNames) && GameName == old(GameName)
                   case Success(parsed) =>
                     && Achievements == Some(MapAll(AchievementsResponse, parsed.Requirements))
                     && DlcNames == Some(parsed.DlcNames)
                     && GameName == FirstGameName(fetch.response.Achievements)
                     && written == Some(CsvWrite(filenameCreator.CreateFullPath(GameName.GetOr("")), DlcNames, Achievements))
    {
      var probe := ProbeCache(getFiles);
      if probe.Failure? {
        return Some(probe.error), None;
      }
      var files := probe.value;
      if |files| > 0 {
        var cached := readFile(files[0]);
        if cached.Failure? {
          return Some(cached.error), None;
        }
        DlcNames := Some(set n | n in cached.value.DlcNames);
        Achievements := Some(cached.value.Achievements);
        return None, None;
      }
      raised, written := None, None;
      match fetch
      case Raised(_, _) =>
      case Returned(results) =>
        if results.Success {
          AchievementsResponse := results.Achievements;
          FilterAchievements();
          var mapError := MapAchievements(structure);
          if mapError == None {
            GameName := FirstGameName(results.Achievements);
            var write, saveError := SaveAchievementsToFile(saveOutcome);
            written := Some(write);
          }
        }
    }
  }
}
