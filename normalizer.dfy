/**
 * Flattening of one replay into one row, as seen from the configured player
 * ("main") against the other participant ("opposite").
 */
module Normalizer {
  import opened Wrappers
  import opened Records

  /** Rounds won by a side: the entries of its `round_results` that are strictly positive. */
  function Score(rounds: seq<int>): (won: nat)
    ensures won <= |rounds|
  {
    if rounds == [] then 0
    else Score(rounds[..|rounds| - 1]) + (if rounds[|rounds| - 1] > 0 then 1 else 0)
  }

  /** The positions of the won rounds: an independent reading of the count. */
  ghost function WonRounds(rounds: seq<int>): set<nat>
  {
    set i: nat | i < |rounds| && rounds[i] > 0
  }

  lemma {:induction false} ScoreCountsWonRounds(rounds: seq<int>)
    ensures Score(rounds) == |WonRounds(rounds)|
  {
    if rounds != [] {
      var n := |rounds| - 1;
      var prefix := rounds[..n];
      ScoreCountsWonRounds(prefix);
      if rounds[n] > 0 {
        assert WonRounds(rounds) == WonRounds(prefix) + {n};
      } else {
        assert WonRounds(rounds) == WonRounds(prefix);
      }
    }
  }

  /** No round won exactly when no entry is positive; all won exactly when every entry is. */
  lemma {:induction false} ScoreExtremes(rounds: seq<int>)
    ensures Score(rounds) == 0 <==> forall i :: 0 <= i < |rounds| ==> rounds[i] <= 0
    ensures Score(rounds) == |rounds| <==> forall i :: 0 <= i < |rounds| ==> rounds[i] > 0
  {
    if rounds != [] {
      ScoreExtremes(rounds[..|rounds| - 1]);
    }
  }

  lemma ScoreExamples()
    ensures Score([1, 0, 1]) == 2
    ensures Score([0, 0]) == 0
  {
  }

  /**
   * The columns of one side built from participant `info`. The world ranking and
   * the league rank are read from `ranked`, which is not always `info`: the
   * collector reads both of them from the main player for both sides.
   */
  function SideOf(info: PlayerInfo, ranked: PlayerInfo): Side
  {
    Side(
      info.player.fighterId,
      info.player.shortId,
      info.characterName,
      Score(info.roundResults),
      ranked.leagueRank,
      info.leaguePoint,
      info.masterRating,
      ranked.masterRatingRanking,
      info.battleInputType,
      info.player.platformName)
  }

  /**
   * `side` carries the identity, character, input type, platform, won-round count,
   * MR and LP of participant `info`; an optional key absent from `info` is `None`.
   */
  ghost predicate Describes(side: Side, info: PlayerInfo)
  {
    && side.name == info.player.fighterId
    && side.sid == info.player.shortId
    && side.character == info.characterName
    && side.score == |WonRounds(info.roundResults)|
    && side.mr == info.masterRating
    && side.lp == info.leaguePoint
    && side.inputType == info.battleInputType
    && side.platform == info.player.platformName
  }

  /** The row of one replay, for the player whose short id is `playerSid`. */
  function Normalize(replay: Replay, playerSid: int): Row
  {
    var player1 := replay.player1Info;
    var player2 := replay.player2Info;
    var leftSide := player1.player.shortId == playerSid;
    var mainPlayer := if leftSide then player1 else player2;
    var oppositePlayer := if leftSide then player2 else player1;
    var main := SideOf(mainPlayer, mainPlayer);
    var opposite := SideOf(oppositePlayer, mainPlayer);
    Row(
      main,
      opposite,
      if main.score > opposite.score then 1 else 0,
      if leftSide then 1 else 0,
      replay.uploadedAt,
      replay.replayId,
      replay.replayBattleTypeName)
  }

  /**
   * What a row says about its replay: `left_side` is 1 exactly when player 1 is
   * the configured player; main is that participant and opposite the other one;
   * each side's score is its count of won rounds; `match_won` is 1 exactly when
   * main won more rounds; both ranking columns of the opposite side repeat the
   * main player's; the shared fields are copied.
   */
  lemma NormalizeMeaning(replay: Replay, playerSid: int)
    ensures var row := Normalize(replay, playerSid);
      && (row.leftSide == 0 || row.leftSide == 1)
      && (row.leftSide == 1 <==> replay.player1Info.player.shortId == playerSid)
      && (row.leftSide == 1 ==> Describes(row.main, replay.player1Info) && Describes(row.opposite, replay.player2Info))
      && (row.leftSide == 0 ==> Describes(row.main, replay.player2Info) && Describes(row.opposite, replay.player1Info))
      && ((replay.player1Info.player.shortId == playerSid) != (replay.player2Info.player.shortId == playerSid) ==>
            row.main.sid == playerSid && row.opposite.sid != playerSid)
      && 0 <= row.main.score && 0 <= row.opposite.score
      && (row.matchWon == 0 || row.matchWon == 1)
      && (row.matchWon == 1 <==> row.main.score > row.opposite.score)
      && row.main.mrRanking == (if row.leftSide == 1 then replay.player1Info else replay.player2Info).masterRatingRanking
      && row.main.leagueRank == (if row.leftSide == 1 then replay.player1Info else replay.player2Info).leagueRank
      && row.opposite.mrRanking == row.main.mrRanking && row.opposite.leagueRank == row.main.leagueRank
      && row.uploadedAt == replay.uploadedAt
      && row.replayId == replay.replayId && row.replayBattleTypeName == replay.replayBattleTypeName
  {
    ScoreCountsWonRounds(replay.player1Info.roundResults);
    ScoreCountsWonRounds(replay.player2Info.roundResults);
  }

  /** The same replay with the two participants listed the other way round. */
  function Swapped(replay: Replay): Replay
  {
    replay.(player1Info := replay.player2Info, player2Info := replay.player1Info)
  }

  /**
   * When exactly one participant is the configured player, the listing order of
   * the participants changes only the `left_side` column.
   */
  lemma SwappingParticipantsFlipsOnlyLeftSide(replay: Replay, playerSid: int)
    requires (replay.player1Info.player.shortId == playerSid) != (replay.player2Info.player.shortId == playerSid)
    ensures Normalize(Swapped(replay), playerSid)
         == Normalize(replay, playerSid).(leftSide := 1 - Normalize(replay, playerSid).leftSide)
  {
  }
}
