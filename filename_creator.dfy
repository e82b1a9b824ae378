/** FilenameCreator.cs as the file stands: a three-way unlock token, then the game name, then
    the extension, with nothing between them. */
module Filenames {
  import opened Wrappers

  const CsvExtension := ".csv"
  const AchievementsToken := "Achievements"
  const UnlockedAchievementsToken := "UnlockedAchievements"
  const LockedAchievementsToken := "LockedAchievements"

  /** The token chosen by the unlock-filter flag: true, false or null. */
  function Token(isAchievedFlag: Option<bool>): (t: string)
    ensures isAchievedFlag == Some(true) ==> t == UnlockedAchievementsToken
    ensures isAchievedFlag == Some(false) ==> t == LockedAchievementsToken
    ensures isAchievedFlag == None ==> t == AchievementsToken
  {
    match isAchievedFlag
    case Some(true) => UnlockedAchievementsToken
    case Some(false) => LockedAchievementsToken
    case None => AchievementsToken
  }

  /** `name` starts with `prefix`, ends with `suffix`, and the two do not overlap. */
  predicate HasShape(name: string, prefix: string, suffix: string) {
    |prefix| + |suffix| <= |name| && name[..|prefix|] == prefix && name[|name| - |suffix|..] == suffix
  }

  /** `FilenameCreator(isAchievedFlag, filePathToSaveResult)`; the path is nullable. */
  datatype FilenameCreator = FilenameCreator(isAchievedFlag: Option<bool>, filePathToSaveResult: Option<string>) {

    /** `CreateFilename(gameName, extension = ".csv")`: the name is the token, then the game
        name verbatim, then the extension. */
    function CreateFilename(gameName: string, extension: string := CsvExtension): (r: string)
      ensures |r| == |Token(isAchievedFlag)| + |gameName| + |extension|
      ensures HasShape(r, Token(isAchievedFlag), extension)
      ensures r[|Token(isAchievedFlag)|..|r| - |extension|] == gameName
    {
      var r := Token(isAchievedFlag) + gameName + extension;
      assert r[|Token(isAchievedFlag)|..|r| - |extension|] == gameName;
      r
    }

    /** `CreateFullPath(gameName, extension = ".csv")`: the configured directory (a null one
        concatenates as empty) followed by the file name. */
    function CreateFullPath(gameName: string, extension: string := CsvExtension): (r: string)
      ensures r == filePathToSaveResult.GetOr("") + CreateFilename(gameName, extension)
      ensures HasShape(r, filePathToSaveResult.GetOr("") + Token(isAchievedFlag), extension)
    {
      filePathToSaveResult.GetOr("") + CreateFilename(gameName, extension)
    }
  }

  /** A file name determines both the flag and the game name it was made from (for one
      extension): the three tokens already differ in their first character. */
  lemma FilenameInjective(c1: FilenameCreator, c2: FilenameCreator, g1: string, g2: string, extension: string)
    requires c1.CreateFilename(g1, extension) == c2.CreateFilename(g2, extension)
    ensures c1.isAchievedFlag == c2.isAchievedFlag && g1 == g2
  {
    var n1, n2 := c1.CreateFilename(g1, extension), c2.CreateFilename(g2, extension);
    var t1, t2 := Token(c1.isAchievedFlag), Token(c2.isAchievedFlag);
    assert n1[0] == t1[0] && n2[0] == t2[0];
    assert t1 == t2;
  }

  /** The default extension is ".csv". */
  lemma DefaultExtensionIsCsv(c: FilenameCreator, gameName: string)
    ensures c.CreateFilename(gameName) == c.CreateFilename(gameName, ".csv")
    ensures HasShape(c.CreateFilename(gameName), Token(c.isAchievedFlag), ".csv")
  {
  }

  /** The cache-probe pattern `CreateFilename("*")` is the token, a star, and the extension;
      a name has the pattern's token prefix and extension suffix exactly when it is the file
      name of some game for the same flag. */
  lemma ProbePatternCoversFilenames(c: FilenameCreator, extension: string, name: string)
    ensures c.CreateFilename("*", extension) == Token(c.isAchievedFlag) + "*" + extension
    ensures HasShape(name, Token(c.isAchievedFlag), extension)
        <==> exists g :: c.CreateFilename(g, extension) == name
  {
    var t := Token(c.isAchievedFlag);
    assert c.CreateFilename("*", extension) == t + "*" + extension;
    if HasShape(name, t, extension) {
      var g := name[|t|..|name| - |extension|];
      assert name == t + g + extension;
      assert c.CreateFilename(g, extension) == name;
    }
  }

  /** With the signature shown, the null-flag name of "HalfLife" is "AchievementsHalfLife.csv":
      no source prefix and no separators, unlike the spaced names its callers expect. */
  lemma ShownSignatureHasNoSeparators(path: Option<string>)
    ensures FilenameCreator(None, path).CreateFilename("HalfLife") == "AchievementsHalfLife.csv"
    ensures FilenameCreator(None, path).CreateFilename("HalfLife") != "Steam Achievements HalfLife.csv"
  {
  }

  /** The full path is the configured directory followed directly by a file name that the
      cache probe's pattern matches. The two are joined as text, with no separator added, so
      the file lands inside that directory only when the configured path ends with one. */
  lemma SavedFileMatchesProbe(c: FilenameCreator, gameName: string)
    requires c.filePathToSaveResult.Some?
    ensures var dir := c.filePathToSaveResult.value;
            var full := c.CreateFullPath(gameName);
      && |dir| <= |full| && full[..|dir|] == dir
      && full[|dir|..] == c.CreateFilename(gameName)
      && HasShape(full[|dir|..], Token(c.isAchievedFlag), CsvExtension)
  {
    var dir := c.filePathToSaveResult.value;
    var full := c.CreateFullPath(gameName);
    assert full == dir + c.CreateFilename(gameName);
    assert full[..|dir|] == dir && full[|dir|..] == c.CreateFilename(gameName);
  }

  /** A directory configured without a trailing separator is glued to the file name. */
  lemma FullPathAddsNoSeparator()
    ensures FilenameCreator(None, Some("out")).CreateFullPath("X") == "outAchievementsX.csv"
  {
  }
}
