/** The room version table: only the flags that the authorization rules read. */
module RoomVersions {

  datatype EventFormat = RoomV1V2 | RoomV3 | RoomV4Plus

  datatype RoomVersion = RoomVersion(
    identifier: string,
    eventFormat: EventFormat,
    specialCaseAliasesAuth: bool,
    limitNotificationsPowerLevels: bool,
    implicitRoomCreator: bool,
    restrictedJoinRule: bool,
    knockJoinRule: bool,
    knockRestrictedJoinRule: bool,
    msc3757Enabled: bool
  )

  const V1 := RoomVersion("1", RoomV1V2, true, false, false, false, false, false, false)
  const V2 := V1.(identifier := "2")
  const V3 := V1.(identifier := "3", eventFormat := RoomV3)
  const V4 := V1.(identifier := "4", eventFormat := RoomV4Plus)
  const V5 := V4.(identifier := "5")
  const V6 := V5.(identifier := "6", specialCaseAliasesAuth := false, limitNotificationsPowerLevels := true)
  const V7 := V6.(identifier := "7", knockJoinRule := true)
  const V8 := V7.(identifier := "8", restrictedJoinRule := true)
  const V9 := V8.(identifier := "9")
  const V10 := V9.(identifier := "10", knockRestrictedJoinRule := true)
  const V11 := V10.(identifier := "11", implicitRoomCreator := true)
  const MSC3757_V10 := V10.(identifier := "org.matrix.msc3757.10", msc3757Enabled := true)
  const MSC3757_V11 := V11.(identifier := "org.matrix.msc3757.11", msc3757Enabled := true)

  /** The versions a server accepts; MSC1767v10 is declared by the source but not listed. */
  const KNOWN_ROOM_VERSIONS: seq<RoomVersion> :=
    [V1, V2, V3, V4, V5, V6, V7, V8, V9, V10, V11, MSC3757_V10, MSC3757_V11]

  predicate Known(version: RoomVersion) {
    version in KNOWN_ROOM_VERSIONS
  }

  predicate KnownIdentifier(identifier: string) {
    exists version <- KNOWN_ROOM_VERSIONS :: version.identifier == identifier
  }

  /** Every listed version that knows `knock_restricted` also knows `restricted` and `knock`. */
  lemma KnockRestrictedNeedsRestricted(version: RoomVersion)
    requires Known(version)
    ensures version.knockRestrictedJoinRule ==> version.restrictedJoinRule && version.knockJoinRule
    ensures version.restrictedJoinRule ==> version.knockJoinRule
  {
    var i :| 0 <= i < |KNOWN_ROOM_VERSIONS| && KNOWN_ROOM_VERSIONS[i] == version;
  }
}
