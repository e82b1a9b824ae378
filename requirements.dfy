/** The requirement records the manager joins against, as the external game-structure
    parser delivers them. Every level that the manager reaches through `?.` is nullable. */
module Requirements {
  import opened Wrappers

  /** The key that marks a "has this DLC" entry inside a one-of group. */
  const TokenHasDlc := "has_dlc"

  /** One (key, value) entry of a one-of group. */
  datatype DlcName = DlcName(Key: string, Value: string)

  /** A group of entries of which one must hold. */
  datatype DlcGroup = DlcGroup(Names: seq<DlcName>)

  datatype VisibleRequirements = VisibleRequirements(
    HasAllDlc: Option<seq<string>>,
    HasOneOfDlc: Option<seq<DlcGroup>>)

  datatype AchievementRequirement = AchievementRequirement(
    Name: string,
    VisibleRequirements: Option<VisibleRequirements>)

  /** What parsing the game's description and structure files yields: the requirement list
      and the set of DLC display names. */
  datatype GameStructure = GameStructure(Requirements: seq<AchievementRequirement>, DlcNames: set<string>)
}
