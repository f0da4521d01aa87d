/**
 * The part of the persisted store the engine touches: the player list,
 * which player is active, and the timer settings read at session start.
 */
module Players {
  import opened Wrappers
  import opened Cards
  import opened Mastery

  /** `player.lastSession`; `finishedAt` is the millisecond clock value at the end. */
  datatype SessionRecord = SessionRecord(asked: int, correct: int, incorrect: int, mode: Mode, table: int, finishedAt: int)

  datatype Player = Player(id: string, name: string, factStreaks: map<Fact, Stats>, lastSession: Option<SessionRecord>)

  /** `players.find(p => p.id === activeId)`, as the index of the first match. */
  function FindPlayer(players: seq<Player>, activeId: Option<string>): (r: Option<nat>)
    ensures r.Some? ==> r.value < |players| && Some(players[r.value].id) == activeId
    ensures r.Some? ==> forall k :: 0 <= k < r.value ==> Some(players[k].id) != activeId
    ensures r.None? <==> forall k :: 0 <= k < |players| ==> Some(players[k].id) != activeId
  {
    if players == [] then None
    else if Some(players[0].id) == activeId then Some(0)
    else match FindPlayer(players[1..], activeId)
      case None => None
      case Some(i) => Some(i + 1)
  }

  /**
   * The players after `endSession` folded a log into the active player's
   * map and stamped its last-session record; nobody else changes.
   */
  function Finished(players: seq<Player>, activeId: Option<string>, history: seq<Attempt>, rec: SessionRecord): (r: seq<Player>)
    ensures |r| == |players|
    ensures FindPlayer(players, activeId).None? ==> r == players
    ensures FindPlayer(players, activeId).Some? ==>
              var i := FindPlayer(players, activeId).value;
              r[i] == players[i].(factStreaks := Fold(players[i].factStreaks, history), lastSession := Some(rec)) &&
              forall k :: 0 <= k < |players| && k != i ==> r[k] == players[k]
  {
    match FindPlayer(players, activeId)
    case None => players
    case Some(i) =>
      players[i := players[i].(factStreaks := Fold(players[i].factStreaks, history), lastSession := Some(rec))]
  }

  /** The persisted store, held in memory between sessions. */
  class Store {
    var players: seq<Player>
    var activePlayerId: Option<string>
    var timerEnabled: bool
    var timerSeconds: int

    /** `getActivePlayer`: the first player whose id is the active id, if any. */
    function GetActivePlayer(): (r: Option<Player>)
      reads this
      ensures r.Some? <==> exists k :: 0 <= k < |players| && Some(players[k].id) == activePlayerId
      ensures r.Some? ==> r.value in players && Some(r.value.id) == activePlayerId
      ensures r.Some? ==> exists k :: 0 <= k < |players| && r.value == players[k] &&
                            forall j :: 0 <= j < k ==> Some(players[j].id) != activePlayerId
    {
      match FindPlayer(players, activePlayerId)
      case None => None
      case Some(i) => Some(players[i])
    }
  }
}
