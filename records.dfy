/**
 * The typed shape of one entry of a battle-log page's `replay_list`, and of the
 * flat 25-column row that the collector builds from it.
 */
module Records {
  import opened Wrappers

  /** The `player` block of a participant. `fighterId` is the user name. */
  datatype Player = Player(fighterId: string, shortId: int, platformName: string)

  /**
   * `player1_info` / `player2_info`. The four ranking keys may be missing from
   * the JSON object; a missing key is `None`.
   */
  datatype PlayerInfo = PlayerInfo(
    player: Player,
    roundResults: seq<int>,
    characterName: string,
    battleInputType: int,
    masterRating: Option<int>,
    leaguePoint: Option<int>,
    masterRatingRanking: Option<int>,
    leagueRank: Option<int>)

  /** One replay record. `uploadedAt` is the epoch timestamp, kept as an ordered integer. */
  datatype Replay = Replay(
    player1Info: PlayerInfo,
    player2Info: PlayerInfo,
    uploadedAt: int,
    replayId: string,
    replayBattleTypeName: string)

  /** The ten `main_player_*` or `opposite_player_*` columns of a row. */
  datatype Side = Side(
    name: string,
    sid: int,
    character: string,
    score: int,
    leagueRank: Option<int>,
    lp: Option<int>,
    mr: Option<int>,
    mrRanking: Option<int>,
    inputType: int,
    platform: string)

  /**
   * One match row. `matchWon` and `leftSide` hold the 0/1 integers that the
   * table stores for the booleans.
   */
  datatype Row = Row(
    main: Side,
    opposite: Side,
    matchWon: int,
    leftSide: int,
    uploadedAt: int,
    replayId: string,
    replayBattleTypeName: string)
}
